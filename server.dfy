/**
 * The request logic of server/server.js: each route handler runs atomically
 * over the credential store and the cookie session it is given. Foreign
 * capabilities are parameters: `hash` (from the `./bc` module; None when its promise
 * rejects), `compare` (from `./bc`), the outcome of `sendEmail`, and
 * the code `cryptoRandomString` produced.
 */
module Server {
  import opened Query
  import opened Db

  /**
   * The cookie session. `Null` is what `/logout` assigns; cookie-session then
   * hands the next request an empty session. `UserId` is a distinct property
   * from `userId`: JavaScript property names are case-sensitive.
   */
  datatype Session =
    | Null
    | Cookie(userId: Option<nat>, loggedIn: Option<nat>, UserId: Option<nat>)

  /** What a handler sends back; `NoResponse` is a request left hanging. */
  datatype Response =
    | Json(success: bool)
    | Redirect(location: string)
    | SendFile(file: string)
    | NoResponse

  /** The `./bc` module's hash: None stands for a rejected promise. */
  type Hash = string -> Option<string>
  /** The `./bc` module's compare(plain, hashed); a rejected promise reads as false. */
  type Compare = (string, string) -> bool

  const INDEX_HTML := "client/index.html"

  /** The cookie-session maxAge, in milliseconds, as the server configures it. */
  const COOKIE_MAX_AGE_MS: nat := 1000 * 60 * 24 * 14
  const HOUR_MS: nat := 1000 * 60 * 60
  const DAY_MS: nat := 24 * HOUR_MS

  /** The session properties a handler sees: an empty session once the cookie was cleared. */
  function Fields(s: Session): (c: Session)
    ensures c.Cookie?
    ensures s.Cookie? ==> c == s
    ensures s.Null? ==> c.userId.None? && c.loggedIn.None? && c.UserId.None?
  {
    if s.Null? then Cookie(None, None, None) else s
  }

  /** `req.session.userId = id`, as registration does. */
  function SetUserId(s: Session, id: nat): (c: Session)
    ensures c.Cookie? && c.userId == Some(id)
    ensures c.loggedIn == Fields(s).loggedIn && c.UserId == Fields(s).UserId
  {
    var f := Fields(s);
    Cookie(Some(id), f.loggedIn, f.UserId)
  }

  /** `req.session.userId = id; req.session.loggedIn = id`, as login does. */
  function SetLoggedIn(s: Session, id: nat): (c: Session)
    ensures c.Cookie? && c.userId == Some(id) && c.loggedIn == Some(id)
    ensures c.UserId == Fields(s).UserId
  {
    Cookie(Some(id), Some(id), Fields(s).UserId)
  }

  /** JavaScript truthiness of a session property holding an id: unset and 0 are falsy. */
  predicate Truthy(v: Option<nat>) {
    v.Some? && v.value != 0
  }

  /** The body test `first && last && email && password` on one field: present and not "". */
  predicate Filled(field: Option<string>) {
    field.Some? && field.value != ""
  }

  /** GET * : the application shell for a truthy `userId`, the welcome page otherwise. */
  function CatchAll(session: Session): (r: Response)
    ensures r == SendFile(INDEX_HTML) <==> Truthy(Fields(session).userId)
    ensures r != SendFile(INDEX_HTML) <==> r == Redirect("/welcome")
  {
    if !Truthy(Fields(session).userId) then Redirect("/welcome") else SendFile(INDEX_HTML)
  }

  /**
   * GET /welcome: tests `UserId`, which no handler assigns, so a session that
   * never had it set is always served the entry page.
   */
  function Welcome(session: Session): (r: Response)
    ensures Fields(session).UserId.None? ==> r == SendFile(INDEX_HTML)
    ensures r == Redirect("/") <==> Truthy(Fields(session).UserId)
    ensures r != Redirect("/") ==> r == SendFile(INDEX_HTML)
  {
    if Truthy(Fields(session).UserId) then Redirect("/") else SendFile(INDEX_HTML)
  }

  /** /welcome as evidently intended: it should test `userId`, the property sign-in sets. */
  function WelcomeIntended(session: Session): (r: Response)
    ensures r == Redirect("/") <==> CatchAll(session) == SendFile(INDEX_HTML)
    ensures r != Redirect("/") ==> r == SendFile(INDEX_HTML)
  {
    if Truthy(Fields(session).userId) then Redirect("/") else SendFile(INDEX_HTML)
  }

  /** What /password/reset/verify does with verifyCode's rows and the submitted code. */
  datatype VerifyOutcome =
    | NoCodes                 // rows[0].email throws: caught, success:false
    | NoMatch                 // rows.find finds nothing: no response at all
    | Change(email: string)   // update the password of this email

  /** The decision of server/server.js:93-101: the email comes from rows[0], the test from rows.find. */
  function VerifyDecision(rows: seq<ResetCode>, code: string): (o: VerifyOutcome)
    ensures o.NoCodes? <==> rows == []
    ensures o.Change? <==> rows != [] && exists i :: 0 <= i < |rows| && rows[i].code == code
    ensures o.Change? ==> o.email == rows[0].email
  {
    if rows == [] then NoCodes
    else
      var emailCode := rows[0].email;
      match FindIndex(rows, CodeIs(code))
      case None => NoMatch
      case Some(_) => Change(emailCode)
  }

  /** The decision as evidently intended: the email of `currentCode`, the first row whose code matched. */
  function VerifyDecisionIntended(rows: seq<ResetCode>, code: string): (o: VerifyOutcome)
    ensures o.NoCodes? <==> rows == []
    ensures o.Change? <==> exists i :: 0 <= i < |rows| && rows[i].code == code
    ensures o.Change? ==>
              exists i :: 0 <= i < |rows| && rows[i].code == code && rows[i].email == o.email &&
                forall j :: 0 <= j < i ==> rows[j].code != code
  {
    if rows == [] then NoCodes
    else match FindIndex(rows, CodeIs(code))
      case None => NoMatch
      case Some(i) => Change(rows[i].email)
  }

  function CodeIs(code: string): ResetCode -> bool { (row: ResetCode) => row.code == code }

  /** POST /registration. */
  method Registration(
    store: Store, session: Session,
    first: Option<string>, last: Option<string>, email: Option<string>, password: Option<string>,
    hash: Hash)
    returns (res: Response, next: Session)
    requires store.Valid()
    modifies store
    ensures store.Valid()
    ensures store.codes == old(store.codes) && store.clock == old(store.clock)
    ensures Fields(next).UserId == Fields(session).UserId
    ensures res == Json(true) <==> Filled(first) && Filled(last) && Filled(email) && Filled(password) && hash(password.value).Some?
    ensures res != Json(true) ==>
              res == Json(false) && next == session &&
              store.users == old(store.users) && store.nextId == old(store.nextId)
    ensures res == Json(true) ==>
              && store.users == old(store.users) +
                   [User(old(store.nextId), first.value, last.value, email.value, hash(password.value).value, None, None)]
              && store.nextId == old(store.nextId) + 1
              && next == SetUserId(session, old(store.nextId))
              && CatchAll(next) == SendFile(INDEX_HTML)
  {
    if Filled(first) && Filled(last) && Filled(email) && Filled(password) {
      var hashedPw := hash(password.value);
      if hashedPw.Some? {
        var rows := store.InsertUserData(first.value, last.value, email.value, hashedPw.value);
        next := SetUserId(session, rows[0].id);
        res := Json(true);
      } else {
        res, next := Json(false), session;
      }
    } else {
      res, next := Json(false), session;
    }
  }

  /** POST /login: the first user with the email, if `compare` accepts the password against its hash. */
  method Login(store: Store, session: Session, email: string, password: string, compare: Compare)
    returns (res: Response, next: Session)
    requires store.Valid()
    ensures Fields(next).UserId == Fields(session).UserId
    ensures res.Json?
    ensures match FindIndex(store.users, EmailIs(email))
      case None => res == Json(false) && next == session
      case Some(i) =>
        if compare(password, store.users[i].password) then
          && res == Json(true)
          && next == SetLoggedIn(session, store.users[i].id)
          && CatchAll(next) == SendFile(INDEX_HTML)
        else res == Json(false) && next == session
  {
    var rows := GetLoginData(store.users, email);
    if rows == [] {
      // rows[0].password throws a TypeError, caught as failure
      res, next := Json(false), session;
    } else {
      var hashedPw := rows[0].password;
      if compare(password, hashedPw) {
        next := SetLoggedIn(session, rows[0].id);
        res := Json(true);
      } else {
        res, next := Json(false), session;
      }
    }
  }

  /** GET /logout: the whole session becomes null and the client is sent to the root. */
  method Logout() returns (res: Response, next: Session)
    ensures res == Redirect("/") && next == Null
    ensures CatchAll(next) == Redirect("/welcome") && Welcome(next) == SendFile(INDEX_HTML)
  {
    res, next := Redirect("/"), Null;
  }

  /**
   * POST /password/reset/start. The code is saved before the email is sent,
   * so a failed send leaves it in the table.
   */
  method ResetStart(store: Store, email: string, secretCode: string, emailSent: bool) returns (res: Response)
    requires store.Valid()
    modifies store
    ensures store.Valid()
    ensures store.users == old(store.users) && store.clock == old(store.clock) && store.nextId == old(store.nextId)
    ensures res == Json(FindIndex(store.users, EmailIs(email)).Some? && emailSent)
    ensures FindIndex(store.users, EmailIs(email)).None? ==> store.codes == old(store.codes)
    ensures FindIndex(store.users, EmailIs(email)).Some? ==>
              store.codes == old(store.codes) + [ResetCode(email, secretCode, store.clock)]
  {
    var rows := GetLoginData(store.users, email);
    if rows == [] {
      // rows[0].email throws a TypeError, caught as failure
      res := Json(false);
    } else {
      var emailDb := rows[0].email;
      // The query filtered on this email, so the comparison at server/server.js:54 always holds.
      assert email == emailDb;
      var _ := store.SaveCode(email, secretCode);
      res := Json(emailSent);
    }
  }

  /**
   * POST /password/reset/verify. The password changed is that of rows[0]'s
   * email, the first unexpired code, and no code is ever consumed.
   */
  method ResetVerify(store: Store, code: string, password: string, hash: Hash) returns (res: Response)
    requires store.Valid()
    modifies store
    ensures store.Valid()
    ensures store.codes == old(store.codes) && store.clock == old(store.clock) && store.nextId == old(store.nextId)
    ensures match VerifyDecision(VerifyCode(store.codes, store.clock), code)
      case NoCodes => res == Json(false) && store.users == old(store.users)
      case NoMatch => res == NoResponse && store.users == old(store.users)
      case Change(emailCode) =>
        if hash(password).Some? then
          res == Json(true) &&
          UpdatedWhere(old(store.users), store.users, EmailIs(emailCode), WithPassword(hash(password).value))
        else res == NoResponse && store.users == old(store.users)
  {
    var rows := VerifyCode(store.codes, store.clock);
    match VerifyDecision(rows, code)
    case NoCodes =>
      res := Json(false);
    case NoMatch =>
      res := NoResponse;
    case Change(emailCode) =>
      var hashedPw := hash(password);
      if hashedPw.Some? {
        store.UpdatePassword(emailCode, hashedPw.value);
        res := Json(true);
      } else {
        // hash has no .catch: the rejection is unhandled and nothing is sent
        res := NoResponse;
      }
  }

  /**
   * Every code in the table younger than ten minutes is honoured, however
   * often it was used before: verify consumes nothing, so a successful verify
   * can be repeated until the code ages out (possibly for a different rows[0]
   * email, as earlier codes age out).
   */
  lemma {:induction false} YoungCodeHonoured(codes: seq<ResetCode>, c: ResetCode, now: int)
    requires c in codes && now - c.timestamp < CODE_LIFETIME_MS
    ensures VerifyDecision(VerifyCode(codes, now), c.code).Change?
  {
    var rows := VerifyCode(codes, now);
    assert c in rows;
    var j :| 0 <= j < |rows| && rows[j] == c;
  }

  /**
   * A code saved when no other code was pending is the only row verifyCode
   * returns for the next ten minutes, so its own email is the one changed.
   */
  lemma {:induction false} LoneCodeHonoured(codes: seq<ResetCode>, sent: ResetCode, later: int)
    requires VerifyCode(codes, sent.timestamp) == []
    requires sent.timestamp <= later && later - sent.timestamp < CODE_LIFETIME_MS
    ensures VerifyCode(codes + [sent], later) == [sent]
    ensures VerifyDecision(VerifyCode(codes + [sent], later), sent.code) == Change(sent.email)
  {
    VerifyCodeShrinks(codes, sent.timestamp, later);
    VerifyCodeAfterSave(codes, sent, later);
    assert FindIndex([sent], CodeIs(sent.code)) == Some(0);
  }

  /** A code is honoured only while it is younger than ten minutes: at ten minutes or more it is not. */
  lemma ExpiredCodeNotHonoured(codes: seq<ResetCode>, now: int, code: string)
    requires forall c :: c in codes && c.code == code ==> now - c.timestamp >= CODE_LIFETIME_MS
    ensures !VerifyDecision(VerifyCode(codes, now), code).Change?
  {
  }

  /** A code never saved is never honoured. */
  lemma UnknownCodeNotHonoured(codes: seq<ResetCode>, now: int, code: string)
    requires forall c :: c in codes ==> c.code != code
    ensures !VerifyDecision(VerifyCode(codes, now), code).Change?
  {
  }

  /**
   * Two pending codes, another user's first: the second user's code changes
   * the first user's password. The intended decision changes the second's.
   */
  lemma VerifyChangesFirstRowsEmail(first: ResetCode, second: ResetCode, now: int)
    requires first.email != second.email && first.code != second.code
    requires now - first.timestamp < CODE_LIFETIME_MS && now - second.timestamp < CODE_LIFETIME_MS
    ensures VerifyCode([first, second], now) == [first, second]
    ensures VerifyDecision([first, second], second.code) == Change(first.email)
    ensures VerifyDecisionIntended([first, second], second.code) == Change(second.email)
  {
    assert VerifyCode([first, second], now) == [first, second] by {
      VerifyCodeAllYoung([first, second], now);
    }
    assert FindIndex([first, second], CodeIs(second.code)) == Some(1) by {
      var p := CodeIs(second.code);
      assert !p(first) && p(second);
      assert [first, second][1..] == [second];
    }
  }

  /** When every unexpired code carries one and the same email, the as-written and the intended decisions agree. */
  lemma {:induction false} DecisionsAgreeOnSingleOwner(rows: seq<ResetCode>, code: string)
    requires forall i :: 0 <= i < |rows| ==> rows[i].email == rows[0].email
    ensures VerifyDecision(rows, code) == VerifyDecisionIntended(rows, code)
  {
  }

  /** Whatever the session, /welcome serves the entry page after sign-in; the intended gate redirects. */
  lemma WelcomeIgnoresSignIn(session: Session, id: nat)
    requires Fields(session).UserId.None? && id != 0
    ensures Welcome(SetUserId(session, id)) == SendFile(INDEX_HTML)
    ensures Welcome(SetLoggedIn(session, id)) == SendFile(INDEX_HTML)
    ensures WelcomeIntended(SetUserId(session, id)) == Redirect("/")
    ensures WelcomeIntended(SetLoggedIn(session, id)) == Redirect("/")
  {
  }

  /** Sign-in through any handler writes an id from the store, and those ids are truthy. */
  lemma StoredIdsAreTruthy(store: Store, i: nat)
    requires store.Valid() && i < |store.users|
    ensures Truthy(Some(store.users[i].id))
  {
  }

  /** The maxAge product leaves out a factor of 60: about 5.6 hours, not 14 days. */
  lemma CookieMaxAgeAsWritten()
    ensures COOKIE_MAX_AGE_MS == 20_160_000
    ensures 5 * HOUR_MS < COOKIE_MAX_AGE_MS < 6 * HOUR_MS
    ensures COOKIE_MAX_AGE_MS * 60 == 14 * DAY_MS
  {
  }

  /** The fourteen days of cookie life the session is meant to have. */
  function IntendedCookieMaxAge(): (ms: nat)
    ensures ms == 14 * DAY_MS
    ensures ms == 60 * COOKIE_MAX_AGE_MS
  {
    1000 * 60 * 60 * 24 * 14
  }
}
