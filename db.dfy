/**
 * The credential store of server/db.js: the `users` and `reset_codes` tables
 * and the eight statements the server issues against them. Read-only queries
 * are functions over the table contents; the statements that write are
 * methods of `Store`, which holds both tables and the database clock.
 */
module Db {
  import opened Query

  /** A row of `users`; `image` and `bio` are NULL until set. */
  datatype User = User(
    id: nat, first: string, last: string, email: string, password: string,
    image: Option<string>, bio: Option<string>)

  /** A row of `reset_codes`; `timestamp` is the database time at insert, in milliseconds. */
  datatype ResetCode = ResetCode(email: string, code: string, timestamp: int)

  /** The columns `getLoginData` selects: email, id and the password hash. */
  datatype LoginRow = LoginRow(email: string, id: nat, password: string)

  /** The columns `getProfile` selects; there is no password column. */
  datatype Profile = Profile(id: nat, first: string, last: string, image: Option<string>, bio: Option<string>)

  const MINUTE_MS: nat := 60 * 1000
  /** INTERVAL '10 minutes', the age below which `verifyCode` returns a code. */
  const CODE_LIFETIME_MS: nat := 10 * MINUTE_MS

  function EmailIs(email: string): User -> bool { (u: User) => u.email == email }
  function IdIs(id: nat): User -> bool { (u: User) => u.id == id }
  function Unexpired(now: int): ResetCode -> bool { (c: ResetCode) => now - c.timestamp < CODE_LIFETIME_MS }

  function LoginOf(u: User): LoginRow { LoginRow(u.email, u.id, u.password) }
  function ProfileOf(u: User): Profile { Profile(u.id, u.first, u.last, u.image, u.bio) }

  function LoginColumns(): User -> LoginRow { (u: User) => LoginOf(u) }
  function ProfileColumns(): User -> Profile { (u: User) => ProfileOf(u) }
  function AllColumns(): ResetCode -> ResetCode { (c: ResetCode) => c }

  function WithPassword(hashedPw: string): User -> User { (u: User) => u.(password := hashedPw) }
  function WithImage(image: string): User -> User { (u: User) => u.(image := Some(image)) }
  function WithBio(bio: string): User -> User { (u: User) => u.(bio := Some(bio)) }

  /** The ids the serial column hands out grow with every insert. */
  ghost predicate IdsIncreasing(users: seq<User>) {
    forall i, j :: 0 <= i < j < |users| ==> users[i].id < users[j].id
  }

  /** getLoginData: the login columns of every user whose email equals the argument. */
  function GetLoginData(users: seq<User>, email: string): (rows: seq<LoginRow>)
    ensures forall k :: 0 <= k < |rows| ==> rows[k].email == email
    ensures forall i :: 0 <= i < |users| && users[i].email == email ==> LoginOf(users[i]) in rows
    ensures forall k :: 0 <= k < |rows| ==> exists i :: 0 <= i < |users| && rows[k] == LoginOf(users[i])
    ensures rows == [] <==> FindIndex(users, EmailIs(email)).None?
    ensures rows != [] ==> rows[0] == LoginOf(users[FindIndex(users, EmailIs(email)).value])
  {
    SelectFirst(users, EmailIs(email), LoginColumns());
    Select(users, EmailIs(email), LoginColumns())
  }

  /**
   * verifyCode: every reset code younger than ten minutes at time `now`, in
   * table order. The JavaScript function takes no parameter, so the code the
   * server passes it plays no part in the query.
   */
  function VerifyCode(codes: seq<ResetCode>, now: int): (rows: seq<ResetCode>)
    ensures forall c :: c in rows <==> c in codes && now - c.timestamp < CODE_LIFETIME_MS
    ensures rows == [] <==> FindIndex(codes, Unexpired(now)).None?
    ensures rows != [] ==> rows[0] == codes[FindIndex(codes, Unexpired(now)).value]
  {
    SelectFirst(codes, Unexpired(now), AllColumns());
    Select(codes, Unexpired(now), AllColumns())
  }

  /** getProfile: id, names, image and bio of the users with the given id. */
  function GetProfile(users: seq<User>, id: nat): (rows: seq<Profile>)
    ensures forall k :: 0 <= k < |rows| ==> rows[k].id == id
    ensures forall i :: 0 <= i < |users| && users[i].id == id ==> ProfileOf(users[i]) in rows
    ensures forall k :: 0 <= k < |rows| ==> exists i :: 0 <= i < |users| && rows[k] == ProfileOf(users[i])
    ensures rows == [] <==> forall i :: 0 <= i < |users| ==> users[i].id != id
    ensures rows != [] ==> rows[0] == ProfileOf(users[FindIndex(users, IdIs(id)).value])
  {
    SelectFirst(users, IdIs(id), ProfileColumns());
    Select(users, IdIs(id), ProfileColumns())
  }

  /** With serial ids, a profile lookup returns at most one row. */
  lemma {:induction false} GetProfileAtMostOne(users: seq<User>, id: nat)
    requires IdsIncreasing(users)
    ensures |GetProfile(users, id)| <= 1
    decreases |users|
  {
    if users != [] {
      var init := users[..|users| - 1];
      var last := users[|users| - 1];
      assert users == init + [last];
      assert IdsIncreasing(init);
      SelectAppend(init, last, IdIs(id), ProfileColumns());
      GetProfileAtMostOne(init, id);
      if last.id == id {
        assert forall i :: 0 <= i < |init| ==> init[i].id < id;
      }
    }
  }

  /** A code stays among verifyCode's rows while it is young, whatever is added to the table later. */
  lemma CodeStaysUnexpired(codes: seq<ResetCode>, later: seq<ResetCode>, c: ResetCode, now: int)
    requires c in codes
    requires now - c.timestamp < CODE_LIFETIME_MS
    ensures c in VerifyCode(codes + later, now)
  {
  }

  /** A code aged ten minutes or more is never returned, wherever it sits in the table. */
  lemma CodeAgesOut(codes: seq<ResetCode>, c: ResetCode, now: int)
    requires now - c.timestamp >= CODE_LIFETIME_MS
    ensures c !in VerifyCode(codes, now)
  {
  }

  /** Codes expire and never come back: what is unexpired later was unexpired earlier. */
  lemma {:induction false} VerifyCodeShrinks(codes: seq<ResetCode>, now: int, later: int)
    requires now <= later
    ensures forall c :: c in VerifyCode(codes, later) ==> c in VerifyCode(codes, now)
    ensures VerifyCode(codes, now) == [] ==> VerifyCode(codes, later) == []
  {
    if VerifyCode(codes, later) != [] {
      assert VerifyCode(codes, later)[0] in VerifyCode(codes, now);
    }
  }

  /** Saving a code adds exactly that row, if it is young, at the end of verifyCode's rows. */
  lemma VerifyCodeAfterSave(codes: seq<ResetCode>, c: ResetCode, now: int)
    ensures VerifyCode(codes + [c], now) ==
              VerifyCode(codes, now) + (if now - c.timestamp < CODE_LIFETIME_MS then [c] else [])
  {
    SelectAppend(codes, c, Unexpired(now), AllColumns());
  }

  /** When every code is younger than ten minutes, verifyCode returns the whole table in order. */
  lemma {:induction false} VerifyCodeAllYoung(codes: seq<ResetCode>, now: int)
    requires forall i :: 0 <= i < |codes| ==> now - codes[i].timestamp < CODE_LIFETIME_MS
    ensures VerifyCode(codes, now) == codes
    decreases |codes|
  {
    if codes != [] {
      var init, last := codes[..|codes| - 1], codes[|codes| - 1];
      assert codes == init + [last];
      VerifyCodeAllYoung(init, now);
      VerifyCodeAfterSave(init, last, now);
    }
  }

  /**
   * updatePassword leaves every email where it was: a login lookup of any
   * email lands on the same first position, and a lookup of another email
   * finds exactly the rows it found before.
   */
  lemma {:induction false} LoginDataAfterPasswordUpdate(
    before: seq<User>, after: seq<User>, email: string, hashedPw: string, other: string)
    requires UpdatedWhere(before, after, EmailIs(email), WithPassword(hashedPw))
    ensures FindIndex(after, EmailIs(other)) == FindIndex(before, EmailIs(other))
    ensures other != email ==> GetLoginData(after, other) == GetLoginData(before, other)
  {
    SameEmails(before, after, email, hashedPw);
    FindIndexAgree(after, before, EmailIs(other));
    if other != email {
      assert forall i :: 0 <= i < |after| ==> SameSelection(after[i], before[i], EmailIs(other), LoginColumns()) by {
        assert forall i :: 0 <= i < |after| && after[i].email == other ==> after[i] == before[i];
      }
      SelectAgree(after, before, EmailIs(other), LoginColumns());
    }
  }

  /**
   * After updatePassword(email, h), a login lookup of that email finds the
   * same first row, and that row and every other row it finds hold h.
   */
  lemma {:induction false} PasswordUpdateReachesLogin(before: seq<User>, after: seq<User>, email: string, hashedPw: string)
    requires UpdatedWhere(before, after, EmailIs(email), WithPassword(hashedPw))
    requires FindIndex(before, EmailIs(email)).Some?
    ensures FindIndex(after, EmailIs(email)) == FindIndex(before, EmailIs(email))
    ensures after[FindIndex(after, EmailIs(email)).value].password == hashedPw
    ensures forall k :: 0 <= k < |GetLoginData(after, email)| ==> GetLoginData(after, email)[k].password == hashedPw
  {
    SameEmails(before, after, email, hashedPw);
    FindIndexAgree(after, before, EmailIs(email));
    var rows := GetLoginData(after, email);
    forall k | 0 <= k < |rows|
      ensures rows[k].password == hashedPw
    {
      var i :| 0 <= i < |after| && rows[k] == LoginOf(after[i]);
      assert after[i].email == email;
    }
  }

  /** updatePassword changes no email. */
  lemma SameEmails(before: seq<User>, after: seq<User>, email: string, hashedPw: string)
    requires UpdatedWhere(before, after, EmailIs(email), WithPassword(hashedPw))
    ensures |after| == |before|
    ensures forall i :: 0 <= i < |before| ==> after[i].email == before[i].email
  {
  }

  /** An UPDATE whose WHERE matches no row leaves the table as it was. */
  lemma {:induction false} UpdateNoMatch(before: seq<User>, after: seq<User>, where: User -> bool, change: User -> User)
    requires UpdatedWhere(before, after, where, change)
    requires forall i :: 0 <= i < |before| ==> !where(before[i])
    ensures after == before
  {
    assert forall i :: 0 <= i < |before| ==> after[i] == before[i];
  }

  /**
   * Both tables and the clock that CURRENT_TIMESTAMP reads. `nextId` is the
   * serial sequence behind `users.id`.
   */
  class Store {
    var users: seq<User>
    var codes: seq<ResetCode>
    var clock: int
    var nextId: nat

    ghost predicate Valid()
      reads this
    {
      && 1 <= nextId
      && IdsIncreasing(users)
      && (forall i :: 0 <= i < |users| ==> 1 <= users[i].id < nextId)
      && (forall i :: 0 <= i < |codes| ==> codes[i].timestamp <= clock)
    }

    constructor (now: int)
      ensures Valid()
      ensures users == [] && codes == [] && clock == now && nextId == 1
    {
      users, codes, clock, nextId := [], [], now, 1;
    }

    /** Time passes between requests. */
    method Tick(elapsed: nat)
      requires Valid()
      modifies this
      ensures Valid()
      ensures clock == old(clock) + elapsed
      ensures users == old(users) && codes == old(codes) && nextId == old(nextId)
    {
      clock := clock + elapsed;
    }

    /** insertUserData: INSERT INTO users ... RETURNING *. */
    method InsertUserData(first: string, last: string, email: string, hashedPw: string) returns (rows: seq<User>)
      requires Valid()
      modifies this
      ensures Valid()
      ensures rows == [User(old(nextId), first, last, email, hashedPw, None, None)]
      ensures users == old(users) + rows
      ensures forall i :: 0 <= i < |old(users)| ==> old(users)[i].id != rows[0].id
      ensures codes == old(codes) && clock == old(clock) && nextId == old(nextId) + 1
    {
      rows := [User(nextId, first, last, email, hashedPw, None, None)];
      users := users + rows;
      nextId := nextId + 1;
    }

    /** saveCode: INSERT INTO reset_codes (email, code) RETURNING *; the timestamp is the current time. */
    method SaveCode(email: string, code: string) returns (rows: seq<ResetCode>)
      requires Valid()
      modifies this
      ensures Valid()
      ensures rows == [ResetCode(email, code, old(clock))]
      ensures codes == old(codes) + rows
      ensures users == old(users) && clock == old(clock) && nextId == old(nextId)
    {
      rows := [ResetCode(email, code, clock)];
      codes := codes + rows;
    }

    /** updatePassword: UPDATE users SET password WHERE email; no matching row is no error. */
    method UpdatePassword(email: string, hashedPw: string)
      requires Valid()
      modifies this
      ensures Valid()
      ensures UpdatedWhere(old(users), users, EmailIs(email), WithPassword(hashedPw))
      ensures codes == old(codes) && clock == old(clock) && nextId == old(nextId)
    {
      var table := users;
      users := seq(|table|, i requires 0 <= i < |table| =>
        if table[i].email == email then table[i].(password := hashedPw) else table[i]);
    }

    /** insertPic: UPDATE users SET image WHERE id RETURNING image. */
    method InsertPic(id: nat, profilePic: string) returns (rows: seq<string>)
      requires Valid()
      modifies this
      ensures Valid()
      ensures UpdatedWhere(old(users), users, IdIs(id), WithImage(profilePic))
      ensures rows == if FindIndex(old(users), IdIs(id)).Some? then [profilePic] else []
      ensures codes == old(codes) && clock == old(clock) && nextId == old(nextId)
    {
      rows := if FindIndex(users, IdIs(id)).Some? then [profilePic] else [];
      var table := users;
      users := seq(|table|, i requires 0 <= i < |table| =>
        if table[i].id == id then table[i].(image := Some(profilePic)) else table[i]);
    }

    /** editBio: UPDATE users SET bio WHERE id RETURNING bio. */
    method EditBio(id: nat, bio: string) returns (rows: seq<string>)
      requires Valid()
      modifies this
      ensures Valid()
      ensures UpdatedWhere(old(users), users, IdIs(id), WithBio(bio))
      ensures rows == if FindIndex(old(users), IdIs(id)).Some? then [bio] else []
      ensures codes == old(codes) && clock == old(clock) && nextId == old(nextId)
    {
      rows := if FindIndex(users, IdIs(id)).Some? then [bio] else [];
      var table := users;
      users := seq(|table|, i requires 0 <= i < |table| =>
        if table[i].id == id then table[i].(bio := Some(bio)) else table[i]);
    }
  }
}
