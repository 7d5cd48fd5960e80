/**
 * Request sequences over one store: what a client observes when the handlers
 * of server/server.js run one after another.
 */
module Scenarios {
  import opened Query
  import opened Db
  import opened Server

  /** A registration followed by a login with the same credentials signs the user in. */
  method RegisterThenLogin(
    store: Store, session: Session, first: string, last: string, email: string, password: string,
    hash: Hash, compare: Compare)
    returns (registered: Response, loggedIn: Response, next: Session)
    requires store.Valid()
    requires first != "" && last != "" && email != "" && password != ""
    requires hash(password).Some? && compare(password, hash(password).value)
    requires FindIndex(store.users, EmailIs(email)).None?
    modifies store
    ensures store.Valid()
    ensures store.users == old(store.users) + [User(old(store.nextId), first, last, email, hash(password).value, None, None)]
    ensures store.codes == old(store.codes) && store.clock == old(store.clock)
    ensures registered == Json(true) && loggedIn == Json(true)
    ensures next == SetLoggedIn(session, old(store.nextId))
    ensures CatchAll(next) == SendFile(INDEX_HTML)
  {
    var s;
    registered, s := Registration(store, session, Some(first), Some(last), Some(email), Some(password), hash);
    FindIndexPrefix(store.users, EmailIs(email));
    assert store.users[..|store.users| - 1] == old(store.users);
    loggedIn, next := Login(store, s, email, password, compare);
  }

  /**
   * Reset start, some waiting under ten minutes, reset verify with the code
   * that was sent: the new password signs in and the old one no longer does.
   * No other code may be pending, otherwise rows[0] could be someone else's.
   */
  method ResetRoundTrip(
    store: Store, email: string, secretCode: string, elapsed: nat,
    oldPassword: string, newPassword: string, hash: Hash, compare: Compare)
    returns (started: Response, verified: Response, withNew: Response, withOld: Response)
    requires store.Valid()
    requires FindIndex(store.users, EmailIs(email)).Some?
    requires VerifyCode(store.codes, store.clock) == []
    requires elapsed < CODE_LIFETIME_MS
    requires hash(newPassword).Some?
    requires compare(newPassword, hash(newPassword).value) && !compare(oldPassword, hash(newPassword).value)
    modifies store
    ensures store.Valid()
    ensures started == Json(true) && verified == Json(true)
    ensures withNew == Json(true) && withOld == Json(false)
  {
    ghost var codes0 := store.codes;
    started := ResetStart(store, email, secretCode, true);
    var sent := ResetCode(email, secretCode, store.clock);
    store.Tick(elapsed);
    LoneCodeHonoured(codes0, sent, store.clock);
    ghost var before := store.users;
    verified := ResetVerify(store, secretCode, newPassword, hash);
    PasswordUpdateReachesLogin(before, store.users, email, hash(newPassword).value);
    var s1, s2;
    withNew, s1 := Login(store, Null, email, newPassword, compare);
    withOld, s2 := Login(store, Null, email, oldPassword, compare);
  }

  /** A verify that succeeded can be repeated at once with the same code: it is not consumed. */
  method VerifyTwice(store: Store, code: string, password: string, again: string, hash: Hash)
    returns (first: Response, second: Response)
    requires store.Valid()
    requires hash(again).Some?
    modifies store
    ensures store.Valid()
    ensures store.codes == old(store.codes)
    ensures first == Json(true) ==> second == Json(true)
  {
    first := ResetVerify(store, code, password, hash);
    second := ResetVerify(store, code, again, hash);
  }

  /**
   * The walk-through of a fresh server: register Jo Doe, sign in with the
   * right and a wrong password, reset the password within ten minutes, and
   * sign in with the new and the old password.
   */
  method JoDoe(code: string, hash: Hash, compare: Compare)
    returns (registered: Response, rightPw: Response, wrongPw: Response,
             started: Response, verified: Response, newPw: Response, oldPw: Response)
    requires hash("pw123").Some? && hash("pw456").Some?
    requires compare("pw123", hash("pw123").value) && !compare("wrong", hash("pw123").value)
    requires compare("pw456", hash("pw456").value) && !compare("pw123", hash("pw456").value)
    ensures registered == Json(true) && rightPw == Json(true) && wrongPw == Json(false)
    ensures started == Json(true) && verified == Json(true)
    ensures newPw == Json(true) && oldPw == Json(false)
  {
    var store := new Store(0);
    var session;
    registered, rightPw, session := RegisterThenLogin(store, Null, "Jo", "Doe", "jo@x.com", "pw123", hash, compare);
    wrongPw, session := Login(store, session, "jo@x.com", "wrong", compare);
    started, verified, newPw, oldPw := ResetRoundTrip(store, "jo@x.com", code, 5 * MINUTE_MS, "pw123", "pw456", hash, compare);
  }

  /**
   * After ten minutes every saved code has expired, the one just sent and any
   * earlier copy of the same value alike: verify answers success:false and
   * no password changes.
   */
  method ResetTooLate(store: Store, email: string, secretCode: string, elapsed: nat, password: string, hash: Hash)
    returns (started: Response, verified: Response)
    requires store.Valid()
    requires FindIndex(store.users, EmailIs(email)).Some?
    requires elapsed >= CODE_LIFETIME_MS
    modifies store
    ensures store.Valid()
    ensures started == Json(true)
    ensures verified == Json(false) && store.users == old(store.users)
  {
    started := ResetStart(store, email, secretCode, true);
    store.Tick(elapsed);
    assert forall i :: 0 <= i < |store.codes| ==> !Unexpired(store.clock)(store.codes[i]);
    verified := ResetVerify(store, secretCode, password, hash);
  }

  /** A fresh server where Ann and then Bob registered, in that order. */
  method TwoAccounts(hash: Hash) returns (store: Store)
    requires hash("annPw").Some? && hash("bobPw").Some?
    ensures fresh(store) && store.Valid() && store.clock == 0 && store.codes == []
    ensures store.users == [
      User(1, "Ann", "A", "ann@x.com", hash("annPw").value, None, None),
      User(2, "Bob", "B", "bob@x.com", hash("bobPw").value, None, None)]
  {
    store := new Store(0);
    ghost var ann := User(1, "Ann", "A", "ann@x.com", hash("annPw").value, None, None);
    ghost var bob := User(2, "Bob", "B", "bob@x.com", hash("bobPw").value, None, None);
    var r, s;
    r, s := Registration(store, Null, Some("Ann"), Some("A"), Some("ann@x.com"), Some("annPw"), hash);
    assert store.users == [ann];
    r, s := Registration(store, Null, Some("Bob"), Some("B"), Some("bob@x.com"), Some("bobPw"), hash);
    assert store.users == [ann] + [bob];
  }

  /** The same server after Ann and then Bob asked for a reset. */
  method TwoPendingResets(annCode: string, bobCode: string, hash: Hash) returns (store: Store)
    requires hash("annPw").Some? && hash("bobPw").Some?
    ensures fresh(store) && store.Valid() && store.clock == 0
    ensures store.users == [
      User(1, "Ann", "A", "ann@x.com", hash("annPw").value, None, None),
      User(2, "Bob", "B", "bob@x.com", hash("bobPw").value, None, None)]
    ensures store.codes == [ResetCode("ann@x.com", annCode, 0), ResetCode("bob@x.com", bobCode, 0)]
  {
    store := TwoAccounts(hash);
    TwoAccountsLookup(store.users, "ann@x.com", "bob@x.com");
    var r := ResetStart(store, "ann@x.com", annCode, true);
    r := ResetStart(store, "bob@x.com", bobCode, true);
  }

  /**
   * Ann and then Bob ask for a reset; Bob verifies with his own code. The
   * password that changes is Ann's: she can now sign in with Bob's new
   * password, and Bob cannot.
   */
  method ResetChangesAnotherAccount(annCode: string, bobCode: string, hash: Hash, compare: Compare)
    returns (verified: Response, annWithNew: Response, bobWithNew: Response)
    requires annCode != bobCode
    requires hash("annPw").Some? && hash("bobPw").Some? && hash("bobNew").Some?
    requires compare("bobNew", hash("bobNew").value) && !compare("bobNew", hash("bobPw").value)
    ensures verified == Json(true) && annWithNew == Json(true) && bobWithNew == Json(false)
  {
    var store := TwoPendingResets(annCode, bobCode, hash);
    ghost var before := store.users;
    verified := BobVerifies(store, bobCode, hash);
    assert store.users[0].password == hash("bobNew").value && store.users[1] == before[1] by {
      TwoAccountsLookup(before, "ann@x.com", "bob@x.com");
      PasswordUpdateReachesLogin(before, store.users, "ann@x.com", hash("bobNew").value);
    }
    TwoAccountsLookup(store.users, "ann@x.com", "bob@x.com");
    var s;
    annWithNew, s := Login(store, Null, "ann@x.com", "bobNew", compare);
    bobWithNew, s := Login(store, Null, "bob@x.com", "bobNew", compare);
  }

  /** Where a login lookup lands in a table of two accounts with different emails. */
  lemma TwoAccountsLookup(users: seq<User>, first: string, second: string)
    requires |users| == 2 && users[0].email == first && users[1].email == second && first != second
    ensures FindIndex(users, EmailIs(first)) == Some(0)
    ensures FindIndex(users, EmailIs(second)) == Some(1)
  {
    assert EmailIs(first)(users[0]) && !EmailIs(second)(users[0]) && EmailIs(second)(users[1]);
  }

  /** Bob's verify on the two pending resets: it updates the rows with Ann's email. */
  method BobVerifies(store: Store, bobCode: string, hash: Hash) returns (verified: Response)
    requires store.Valid() && |store.codes| == 2 && store.codes[0].email != store.codes[1].email
    requires store.codes[0].code != bobCode && store.codes[1].code == bobCode
    requires store.clock - store.codes[0].timestamp < CODE_LIFETIME_MS
    requires store.clock - store.codes[1].timestamp < CODE_LIFETIME_MS
    requires hash("bobNew").Some?
    modifies store
    ensures store.Valid() && verified == Json(true) && store.codes == old(store.codes)
    ensures UpdatedWhere(old(store.users), store.users, EmailIs(store.codes[0].email), WithPassword(hash("bobNew").value))
  {
    assert store.codes == [store.codes[0], store.codes[1]];
    VerifyChangesFirstRowsEmail(store.codes[0], store.codes[1], store.clock);
    verified := ResetVerify(store, bobCode, "bobNew", hash);
  }
}
