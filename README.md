# Login and password-reset server: a Dafny model

This project models the core of a small Express login server: its credential
store (server/db.js) and the request handlers that register users, sign them
in and out, reset passwords with emailed codes, and gate the application
behind the session cookie (server/server.js).

- `query.dfy` (module `Query`) gives the query meaning the store relies on.
  `Select` is `SELECT cols FROM t WHERE p`. `UpdatedWhere` states what
  `UPDATE t SET ... WHERE p` leaves behind.
  `FindIndex` is `Array.prototype.find`. Tables are sequences in insertion order.
- `db.dfy` (module `Db`) holds the `users` and `reset_codes` records.
  The read-only queries `getLoginData`, `verifyCode` and `getProfile` are
  functions over the tables. The class `Store` holds both tables, the database
  clock and the serial id sequence. It has one method per writing statement:
  `insertUserData`, `saveCode`, `updatePassword`, `insertPic` and `editBio`.
- `server.dfy` (module `Server`) holds the cookie session, the responses, the
  two gate routes (`/welcome` and `*`), the `maxAge` constant and one method per
  handler: `/registration`, `/login`, `/logout`, `/password/reset/start` and
  `/password/reset/verify`.
- `scenarios.dfy` (module `Scenarios`) runs several requests in a row against
  one store.

Each request is treated as atomic. The foreign capabilities are parameters:
- `hash` is `string -> Option<string>`; `None` means its promise rejected.
- `compare` is `(string, string) -> bool`; a rejected promise counts as `false`,
  because every handler answers a rejection and a mismatch the same way.
- the outcome of `sendEmail` is a boolean.
- the code `cryptoRandomString` produced is a string argument.

Assumptions about the database, whose schema is not part of this model:
- rows come back in insertion order (no query has `ORDER BY`), and an UPDATE
  leaves a row at its position;
- `users.id` is a serial column starting at 1;
- `users.image` and `users.bio` are NULL on insert;
- `reset_codes.timestamp` is the clock value at insert, and the clock counts
  milliseconds;
- no constraint rejects a row, so two users may share an email.

Where the behaviour one might expect of such a server and the code differ,
the model follows the code:
- **Duplicate emails.** One might expect registration to refuse an email that
  is already taken. Neither `insertUserData` (server/db.js:5-10) nor the
  `/registration` handler checks this, so the model accepts duplicates. A
  login then uses the first row with that email.
- **Unknown email in `updatePassword`.** A failure might be expected. The
  UPDATE at server/db.js:33-39 simply matches no row, and nothing reports it.
- **Reset-code alphabet.** `cryptoRandomString({length: 6})` at
  server/server.js:50-52 uses that library's default alphabet. The model takes
  the code as any string.
- **Whose password a reset changes.** The expected owner is the email of the
  matched code. The code updates `rows[0].email`, the email of the first
  unexpired code (see Findings).
- **Single use.** One might expect a code to work once. Nothing consumes a code.
- **No matching code.** A failure response might be expected. The handler
  sends no response at all.
- **`/welcome`.** It is meant to redirect signed-in users. The handler reads
  `session.UserId`, which no handler sets (see Findings).
- **Cookie lifetime.** It is meant to be 14 days. `maxAge` is about 5.6 hours
  (see Findings).

## Model

| member | source | states |
|---|---|---|
| `Query.Select` | server/db.js:12-18 | A SELECT returns no more rows than the table has. A row that passes the WHERE appears in the result, and every result row comes from a row that passes it. The result is empty exactly when no row passes. |
| `Query.FindIndex` | server/server.js:96-98 | `rows.find` returns the position of an element the callback accepts, with no accepted element before it. It returns nothing exactly when no element is accepted. |
| `Query.SelectFirst` | server/server.js:93 | `rows[0]` of a SELECT exists exactly when some row passes the WHERE, and it is built from the first such row. |
| `Query.SelectAppend` | server/db.js:20-25 | Inserting a row at the end of a table adds at most that row, at the end, to any SELECT over it. |
| `Db.GetLoginData` | server/db.js:12-18 | Every row returned has the requested email, and every user with that email is returned. Each row carries only email, id and password of some user. There are no rows exactly when no user has the email; otherwise `rows[0]` is the first such user. |
| `Db.VerifyCode` | server/db.js:27-31 | A reset code is returned if and only if it is in the table and `now - timestamp < 10 minutes`. A code aged exactly 10 minutes is excluded. There is no code parameter. `rows[0]` is the first unexpired code in table order. |
| `Db.GetProfile` | server/db.js:41-46 | Every row returned has the requested id and is the id, names, image and bio of a user, and every user with that id is returned. The `Profile` type has no password field. There are no rows exactly when no user has the id. |
| `Db.GetProfileAtMostOne` | server/db.js:41-46 | With serial ids, a profile lookup returns at most one row. |
| `Db.CodeStaysUnexpired` | server/db.js:20-31 | Rows added later never hide a saved code from `verifyCode` while that code is younger than 10 minutes. |
| `Db.CodeAgesOut` | server/db.js:27-31 | A code aged 10 minutes or more is never returned. |
| `Db.VerifyCodeShrinks` | server/db.js:27-31 | As time passes, `verifyCode`'s rows only lose codes. If nothing is unexpired now, nothing is unexpired later. |
| `Db.VerifyCodeAfterSave` | server/db.js:20-31 | `verifyCode` after `saveCode` returns the earlier unexpired rows, then the new code if it is young. |
| `Db.VerifyCodeAllYoung` | server/db.js:27-31 | When every code is younger than 10 minutes, `verifyCode` returns the whole table in order. |
| `Db.LoginDataAfterPasswordUpdate` | server/db.js:33-39 | `updatePassword` changes no email. A login lookup of any email finds its first row at the same position as before, and a lookup of any other email than the updated one returns exactly the rows it returned before. |
| `Db.PasswordUpdateReachesLogin` | server/db.js:33-39 | After `updatePassword(email, h)`, a login lookup of that email finds the same first row, and that row and every other row it returns hold the password `h`. |
| `Db.UpdateNoMatch` | server/db.js:33-39 | An UPDATE whose WHERE matches no row leaves the table unchanged, and it is no error. |
| `Db.Store.constructor` | server/db.js:1-3 | Stands for the fresh database that connection reaches (the connection itself is not modelled): empty tables, a clock, and a serial sequence starting at 1. |
| `Db.Store.Tick` | server/db.js:28-29 | Time advances the clock that `CURRENT_TIMESTAMP` reads and changes no table. |
| `Db.Store.InsertUserData` | server/db.js:5-10 | Appends exactly one user with the given first, last, email and password, the next serial id, and NULL image and bio. It returns that row. Existing rows and `reset_codes` are unchanged, and the new id is not held by any earlier user. |
| `Db.Store.SaveCode` | server/db.js:20-25 | Appends exactly one reset code with the given email and code, stamped with the current time, and returns it. It never removes or alters earlier codes, so duplicate codes and emails may coexist. |
| `Db.Store.UpdatePassword` | server/db.js:33-39 | Sets the password of every user with the given email. No other user or field changes, and no reset code changes. |
| `Db.Store.InsertPic` | server/db.js:48-54 | Sets only `image` of the user with the given id and returns the new value. It returns no row when no user has the id. Other users and fields are unchanged. |
| `Db.Store.EditBio` | server/db.js:56-62 | Sets only `bio` of the user with the given id and returns the new value. It returns no row when no user has the id. Other users and fields are unchanged. |
| `Server.SetUserId` | server/server.js:140 | `req.session.userId = id` sets `userId`. It keeps `loggedIn` and `UserId`, and it works on a cleared session too. |
| `Server.SetLoggedIn` | server/server.js:188-189 | Sets both `userId` and `loggedIn` to the id and keeps `UserId`. |
| `Server.CatchAll` | server/server.js:245-251 | Serves the app shell if and only if `session.userId` is truthy. Otherwise it redirects to `/welcome`. |
| `Server.Welcome` | server/server.js:120-127 | Redirects to `/` if and only if `session.UserId` is truthy. A session whose `UserId` was never set always gets the entry page. |
| `Server.WelcomeIntended` | server/server.js:122 | The corrected gate redirects to `/` exactly when the catch-all would serve the app, and otherwise serves the entry page. |
| `Server.VerifyDecision` | server/server.js:93-101 | No unexpired rows means failure (the throw at `rows[0].email` is caught). Otherwise the handler changes a password if and only if some row's code equals the submitted code. The email changed is always `rows[0].email`. |
| `Server.VerifyDecisionIntended` | server/server.js:93-103 | The corrected decision changes the email of `currentCode`, the first row whose code matched, and only when such a row exists. |
| `Server.Registration` | server/server.js:129-152 | Succeeds if and only if first, last, email and password are all present and non-empty and `hash` resolves. Then it appends one user with the next id, sets `session.userId` to that id, and the catch-all serves the app. Otherwise it responds `success:false` and leaves users, serial and session unchanged. Reset codes and the clock never change. |
| `Server.Login` | server/server.js:178-204 | With no user for the email it fails (the throw at `rows[0].password` is caught). Otherwise it succeeds if and only if `compare` accepts the password against the first such user's hash. Then `userId` and `loggedIn` are both set to that user's id and the catch-all serves the app. On failure the session is untouched. The store is never written. |
| `Server.Logout` | server/server.js:206-209 | The session becomes null and the response redirects to `/`. The next catch-all request is redirected to `/welcome`. |
| `Server.ResetStart` | server/server.js:44-83 | An unknown email gives `success:false` and saves no code. A known email always passes the check at server/server.js:54. The code is then saved with the current time before sending. The answer is `success:true` exactly when the email was known and `sendEmail` succeeded, so a failed send leaves the code saved. Users never change. |
| `Server.ResetVerify` | server/server.js:85-118 | With no unexpired codes it responds false. With unexpired codes but none matching, it sends no response and changes nothing. On a match it sets the password of `rows[0].email` to the hash and responds true; a rejected hash sends nothing. Reset codes are never consumed or changed. |
| `Server.YoungCodeHonoured` | server/server.js:90-111 | Every saved code younger than 10 minutes is honoured, however often it was used before, because nothing consumes it. |
| `Server.LoneCodeHonoured` | server/server.js:90-103 | A code saved with no other code pending is the only unexpired row for the next 10 minutes. Verifying it changes its own email's password. |
| `Server.ExpiredCodeNotHonoured` | server/server.js:90-101 | If every copy of the submitted code is 10 minutes old or more, verification changes no password. |
| `Server.UnknownCodeNotHonoured` | server/server.js:96-101 | A code that was never saved changes no password. |
| `Server.VerifyChangesFirstRowsEmail` | server/server.js:93-103 | Take two young codes with different emails and codes. The second code changes the first code's email. The corrected decision changes the second's. |
| `Server.DecisionsAgreeOnSingleOwner` | server/server.js:93-98 | When every unexpired code belongs to one email, the as-written and intended decisions coincide. |
| `Server.WelcomeIgnoresSignIn` | server/server.js:122 | After registration or login sets `userId`, `/welcome` still serves the entry page. The intended gate redirects. |
| `Server.StoredIdsAreTruthy` | server/server.js:246 | Every id the store holds is truthy, so a signed-in session always passes the catch-all. |
| `Server.CookieMaxAgeAsWritten` | server/server.js:31 | `maxAge` is 20,160,000 ms. That is between 5 and 6 hours and one sixtieth of 14 days. |
| `Server.IntendedCookieMaxAge` | server/server.js:31 | Fourteen days in milliseconds, 60 times the configured value. |
| `Scenarios.RegisterThenLogin` | server/server.js:129-204 | Suppose all fields are non-empty, `compare` accepts the password against its hash, and no user has the email yet. Then registration and a following login both succeed, and the session passes the catch-all. |
| `Scenarios.ResetRoundTrip` | server/server.js:44-118 | Start with a known email and no pending code. Verifying within 10 minutes with the code sent succeeds. Afterwards the new password signs in and the old one does not. |
| `Scenarios.VerifyTwice` | server/server.js:85-118 | A successful verify, repeated at once with the same code, succeeds again. The codes table is unchanged. |
| `Scenarios.JoDoe` | server/server.js:44-204 | The walk-through on a fresh server: register Jo Doe, then log in (succeeds), log in with a wrong password (fails), start a reset, verify after 5 minutes (succeeds), log in with the new password (succeeds) and with the old one (fails). |
| `Scenarios.ResetTooLate` | server/server.js:44-118 | A code verified 10 minutes or more after it was sent, whether or not the same value was saved before, gets `success:false` and changes no password: every saved code has expired by then. |
| `Scenarios.TwoAccounts` | server/server.js:129-152 | Two registrations on a fresh server produce users 1 and 2 in order. |
| `Scenarios.TwoPendingResets` | server/server.js:44-83 | Two reset starts append two codes, in request order. |
| `Scenarios.TwoAccountsLookup` | server/db.js:12-18 | In a table of two users with different emails, each login lookup finds its own row. |
| `Scenarios.BobVerifies` | server/server.js:90-111 | With two young codes of different emails, the second code updates the first code's email. |
| `Scenarios.ResetChangesAnotherAccount` | server/server.js:85-118 | Ann and then Bob request resets, and Bob verifies his own code. Verification succeeds. Ann can now sign in with Bob's new password, and Bob cannot. |

## Left out

- The Express wiring is not modelled: compression, static files, JSON parsing, csurf token cookies, cookie signing and `app.listen`. It is framework plumbing.
- The cookie's expiry is not enforced by the model. Only the `maxAge` value is modelled, because expiry is done by the cookie middleware.
- `hash`, `compare`, `sendEmail` and `cryptoRandomString` are parameters. Their modules are not part of this model.
- Hashing is modelled as a function, so the same password always gives the same hash. The `./bc` module, which is not part of this model, may salt each hash (bcrypt does).
- The `/profile-pic` route and its S3 and multer upload are not modelled, because they are I/O. `insertPic` itself is modelled.
- The `/user` route is not modelled. It calls `db.fetchUsersData`, which server/db.js does not define.
- The commented-out older registration handler is not modelled.
- Database failures are not modelled: lost connections and constraint violations, such as a unique email if the schema has one. Every SQL statement succeeds in the model. The `.catch` branches are reached only by the causes the model has: a missing `rows[0]`, a rejected `hash` in `/registration`, a rejected `compare` (merged with a mismatch), or a failed `sendEmail`. A rejected `hash` in `/password/reset/verify` is not caught, and the handler sends no response.
- The Postgres connection setup is not modelled. The column defaults are covered by the assumptions above.
- Missing body fields are modelled only for `/registration`, where the code tests them. The other handlers take their body fields as strings.
- Non-string JSON values in request bodies are not modelled.
- Async interleaving of concurrent requests is not modelled; each request runs atomically.
- Logging with `console.log` is not modelled.
- The `/login` response when `compare` rejects is merged with a mismatch. Both answer `success:false` and leave the session untouched.

## Findings

| source | as written | input that shows it | evidently intended | confidence | as-written member | corrected member |
|---|---|---|---|---|---|---|
| server/server.js:93 | The password updated is that of `rows[0].email`, the first unexpired code. | Ann's code and then Bob's code are pending. Bob submits his own code. Ann's password changes. | Update the email of the matched row, `currentCode.email`. | not executed; high | `Server.VerifyDecision` (shown by `Server.VerifyChangesFirstRowsEmail`, `Scenarios.ResetChangesAnotherAccount`) | `Server.VerifyDecisionIntended` |
| server/server.js:122 | `/welcome` tests `req.session.UserId`. | Any session after a successful login or registration still gets the entry page. | Test `req.session.userId`, the property the handlers set. | not executed; high | `Server.Welcome` (shown by `Server.WelcomeIgnoresSignIn`) | `Server.WelcomeIntended` |
| server/server.js:31 | `maxAge: 1000 * 60 * 24 * 14` is 20,160,000 ms. | A session cookie 6 hours old has expired. | `1000 * 60 * 60 * 24 * 14`, fourteen days. | not executed; high | `Server.CookieMaxAgeAsWritten` | `Server.IntendedCookieMaxAge` |

The handler methods keep the behaviour as written, because they model the code.
The corrected definitions stand beside them, each with its intended property
proved.
