# VRChat wrapper authentication flow, in Dafny

This project models the authentication control logic of `VRChatWrapper` (`vrchatWrapper.js`).
The wrapper logs an operator in to the VRChat API in one of three ways: with a username and
password, with session cookies cached per username in a JSON file, or with a second factor. The
second factor is either a generated time-based code or a code the operator types in. When a
login fails, the wrapper shows a numbered recovery menu. The model covers four parts:

- The **cookie cache**. `loadCookiesFromFile` validates the cached entry of one username and
  puts its unexpired records into the cookie jar. `saveCookies` reads the file, replaces the
  entry of the current username, and writes the file back.
- The **classification in `authenticate`** of a `getCurrentUser` reply, or of a transport
  error. The result is the next step: ask for credentials, ask for a 2FA code, submit a
  generated code, open the menu, or do nothing.
- The **2FA handlers** `handle2FA` and `handle2FAOTP`, and what follows a verification reply.
- The **recovery menu**. `errorMenu` prints the options, and `handleMenuSelection` acts on the
  `loadCookies` flag.

Modules:

- `JsValues`: the JavaScript semantics the decisions rely on. This covers truthiness, the key
  used for `obj[undefined]`, and `String.prototype.includes`.
- `CookieCache`: the file as `JSON.parse` leaves it, and the `Load`/`Save` specifications.
- `AuthDecisions`: reply shapes, the constructor check, reply classification, and the two
  2FA reactions.
- `RecoveryMenu`: the menu lines and the selection handler.
- `SessionSpec`: the wrapper's fields as a value (`Config`), one step function per method,
  and lemmas over any sequence of steps.
- `Wrapper`: the class `VRChatWrapper`. It has the source's fields, and each imperative method
  is proved equal to its step function.

Each method takes as parameters what the source waits for: the server's reply, what the
operator types, and the clock. It returns the calls it schedules (`Action`s):
`Authenticate`, `RequestCredentials`, `Handle2FA(retry)`, `Handle2FAOTP(retry)`, `ErrorMenu`,
`Exit`, and `UnhandledRejection` (the handler throws and nothing catches it). The cookie file
is the `disk` field: its parsed contents, plus whether a write succeeds.

The model follows the code as written, defects included:

- `loadCookiesFromFile` never returns `"expired"`. The `return "expired"` only ends the
  `forEach` callback, so the expired branch of `authenticate` (lines 320-323) is dead.
  Records that have expired, or whose expiry cannot be parsed, are skipped. A session cookie
  has no expiry date, so once saved it is never loaded again.
- On a fulfilled `getCurrentUser`, the invalid-credentials text is looked for at
  `response.data.data.error.message`. If that `error` exists but has no `message`,
  `.includes` throws. The chained `catch` then finds no `response` and only logs.
- A 401 moves on only when it carries a truthy message. It then checks for
  invalid credentials first, and then for an `emailOtp` challenge. A 401 asking for `totp`
  leads nowhere.
- On a 429, `handle2FA` opens the menu twice, because line 305 has no `return`.
- A 2FA reply that is not `verified` reaches a `console.error` that reads the undeclared
  `error` (lines 250 and 293). The ReferenceError is passed to `catch`, where
  `error.response.status` throws again. So the `errorMenu()` on lines 253 and 296 is
  never reached, and the model gives `UnhandledRejection`. A verification rejected without a
  response ends the same way.
- When the automatic code is rejected with anything but a 429, the wrapper falls back to
  interactive entry once, with `retry` false. A code verified on that path therefore saves
  cookies, but never re-authenticates and never sets `isAuthentificated`.
- When the constructor's check fails, it returns before `authApi` exists. A later
  `authenticate` either asks for credentials, or throws at `this.authApi.getCurrentUser`.
- With cookies disabled, the menu lists "5. Exit". Choosing 5 actually turns cookies on and
  authenticates again, so with cookies disabled no choice exits.
- At line 494, the expression `"..." + this.loadCookies ? "4" : "5" + "."` is parsed as a
  ternary over a non-empty string. The message printed for an invalid choice is therefore
  just `4`.

## Model

| member | source | states |
|---|---|---|
| `AuthDecisions.CredentialsRejected` | vrchatWrapper.js:39-45 | The constructor stops exactly when one credential, and only one, is `""`. Two truthy credentials, two equal values, or an absent username with a password other than `""` all pass. |
| `Wrapper.VRChatWrapper.constructor` | vrchatWrapper.js:22-52 | The new object's fields are `Construct`. The API client exists exactly when the credential check passed. |
| `CookieCache.ScanOutcome` | vrchatWrapper.js:123-126 | The `every` test passes exactly when every element is a record with a truthy `key` and `value`. Otherwise it stops at the first failing element, and it throws exactly when that element is `null`. |
| `CookieCache.LoadEntry` | vrchatWrapper.js:121-173 | An entry gives "notfound" exactly when it is falsy, and `true` exactly when it is an array of valid records. A truthy non-array gives "invalid". It never gives "expired". Every outcome other than `true` leaves the jar unchanged. |
| `CookieCache.LoadEntryFailure` | vrchatWrapper.js:123-178 | An array that fails validation gives "error" when its first failing element is `null` (the `.key` access throws into the `catch`). Otherwise it gives "invalid". |
| `CookieCache.LoadEntryAddsLive` | vrchatWrapper.js:127-157 | A valid array returns `true` and adds exactly `Live(items, now)`, which includes the empty array. |
| `CookieCache.LiveMembers` | vrchatWrapper.js:127-150 | A cookie is added exactly when some record expires strictly after `now` and yields that cookie. |
| `CookieCache.LiveAreUnexpired` | vrchatWrapper.js:128-141 | Every cookie put into the jar has an expiry later than `now`. Records with an unparseable expiry never get in. |
| `CookieCache.AllExpiredLoadsNothing` | vrchatWrapper.js:143-150 | If every record has expired, nothing is added. If the records are also valid, the result is still `true`. |
| `CookieCache.Load` | vrchatWrapper.js:116-185 | A missing file gives "notfound". A file that cannot be read or parsed gives "error". The result is never "expired", and only `true` adds cookies. |
| `CookieCache.LoadNeverExpired` | vrchatWrapper.js:143-157 | No file, username or time makes loading return "expired". |
| `CookieCache.Save` | vrchatWrapper.js:192-231 | When the write succeeds, the file parses, and the user's entry is the jar's cookies. If the old file parsed, every other username keeps its entry and the keys gain only this user. Otherwise the file holds only this user. The report is "updated" exactly when the old file parsed. A failed write changes nothing and reports "errorSavingCookies". |
| `CookieCache.SerialiseRestores` | vrchatWrapper.js:195-208 | Written cookies with a non-empty key and value and a future expiry read back as valid records, and they load as the same cookies in the same order. |
| `CookieCache.SaveThenLoad` | vrchatWrapper.js:192-208 | Round trip: for cookies with a non-empty key and value and an expiry after `now`, loading for the same user after a successful save returns `true` with exactly the saved jar. A session cookie has no expiry, so it does not come back. |
| `CookieCache.SaveKeepsOtherUsers` | vrchatWrapper.js:196-207 | A save for one user leaves what every other user loads from a parsed file unchanged. |
| `JsValues.Includes` | vrchatWrapper.js:386-388 | `includes` holds exactly when the text occurs somewhere as a contiguous substring. |
| `AuthDecisions.FulfilledVerdicts` | vrchatWrapper.js:332-373 | The checks on a fulfilled reply, in order, both directions: a display name means logged in; the invalid-credentials text means ask for credentials; `emailOtp` means an interactive code, taking precedence over `totp`; `totp`/`otp` means an automatic code. |
| `AuthDecisions.RejectedVerdicts` | vrchatWrapper.js:376-421 | On a transport error, both directions: ask for credentials, or an interactive code, only for a 401 with a truthy message; the menu exactly for a 429. A rejected reply never logs in and never leads to an automatic code. |
| `AuthDecisions.TotpChallengeIn401Ignored` | vrchatWrapper.js:378-405 | A 401 with a message that asks only for `totp` leads nowhere. |
| `AuthDecisions.EmailChallengeWithoutMessageIgnored` | vrchatWrapper.js:379-383 | A 401 asking for `emailOtp`, but without an error message, leads nowhere. |
| `AuthDecisions.AfterEmailCode` | vrchatWrapper.js:276-310 | Cookies are saved exactly when the reply is verified, and authentication re-runs exactly when verified and `retry`. A 429 opens exactly two menus, and any other status exactly one. A verified reply with `retry` false schedules nothing. A non-verified reply, or no response, is an unhandled rejection. Only a 429 schedules more than one call. It never schedules another 2FA attempt. |
| `AuthDecisions.AfterAutoCode` | vrchatWrapper.js:233-266 | Cookies are saved exactly when verified, and authentication re-runs exactly when verified and `retry`. A 429 opens the menu. Any other status falls back once to interactive entry with `retry` false. A verified reply with `retry` false schedules nothing. It never retries the automatic code. |
| `RecoveryMenu.MenuOptions` | vrchatWrapper.js:430-439 | With cookies enabled there are four options, and five with them disabled. Line i is numbered i+1. Only the last line is Exit. The "Try again with the cookies" option appears exactly when cookies are disabled. |
| `RecoveryMenu.DefaultNotice` | vrchatWrapper.js:492-495 | Because of operator precedence, the invalid-selection message is `4` whatever `loadCookies` is. |
| `RecoveryMenu.Select` | vrchatWrapper.js:450-498 | Each choice makes one call. The flag ends up on exactly when it was on, or the choice is 4 or 5. The program exits exactly on 4 with cookies enabled, so never with cookies disabled. With cookies disabled, 4 and 5 both re-run `authenticate`. An invalid choice re-shows the menu with the flag unchanged and a message that says 4. |
| `RecoveryMenu.MenuAgreesWithSelection` | vrchatWrapper.js:430-491 | Typing an option's number does what its label says, with one exception: "5. Exit" while cookies are disabled. |
| `SessionSpec.StepAuthenticates` | vrchatWrapper.js:332-336 | A step sets `isAuthentificated` only if it is `authenticate` on a reply that carries a display name. |
| `SessionSpec.DisplayNameLogsIn` | vrchatWrapper.js:332-341 | For every session with a credential and an API client, a reply with a display name sets `isAuthentificated` and schedules nothing. The jar becomes the loaded cookies followed by the reply's cookies, and a writable file then holds that jar under the session's username. An unwritable file is left as it was. |
| `SessionSpec.LoginNeedsDisplayName` | vrchatWrapper.js:332-336 | Over any sequence of steps, the session becomes authenticated only through a reply with a display name. Invalid credentials, 2FA verification and menu choices never authenticate it. |
| `SessionSpec.AuthenticationIsKept` | vrchatWrapper.js:335 | Once set, `isAuthentificated` stays set over any sequence of steps. |
| `SessionSpec.CookiesStayEnabled` | vrchatWrapper.js:464-491 | Once `loadCookies` is on, no step turns it off. |
| `SessionSpec.StepIsolates` | vrchatWrapper.js:196-208 | One step keeps a parsed cookie file parsed, and keeps the entry of any username other than the session's. |
| `SessionSpec.OtherUsersSurvive` | vrchatWrapper.js:196-208 | Over a whole session, another user's entry is never changed or dropped, unless the operator types that username. |
| `SessionSpec.ExitOnlyByChoosingFour` | vrchatWrapper.js:464-477 | A step exits exactly when it is the choice "4" with cookies enabled. |
| `SessionSpec.RejectedConstructionThrows` | vrchatWrapper.js:313-330 | After a failed constructor check, `authenticate` asks for credentials if both credentials are falsy. Otherwise it throws at the missing API client. |
| `SessionSpec.FirstLoginCreatesEntry` | vrchatWrapper.js:332-342 | A user with no cookie file who logs in without 2FA is authenticated. The new file holds only that user, whose entry loads back as the cookies the server set. |
| `SessionSpec.ExpiredCacheStillQueries` | vrchatWrapper.js:318-330 | A valid cached record that expired a day earlier loads as `true` with nothing added, and the request is still made: for every reply, the verdict on it decides what is scheduled. A rejected reply also leaves the session unchanged. |
| `SessionSpec.RateLimitShowsMenuOnce` | vrchatWrapper.js:406-410 | A 429 on the first request opens the menu exactly once and schedules nothing else. |
| `Wrapper.VRChatWrapper.LoadCookiesFromFile` | vrchatWrapper.js:116-185 | Returns `Load(...).result`. The `forEach` loop leaves the jar as its old contents followed by `Load(...).added`. |
| `Wrapper.VRChatWrapper.SaveCookies` | vrchatWrapper.js:192-231 | The new file and the report are those of `Save` on the old file, the username and the jar. |
| `Wrapper.VRChatWrapper.Authenticate` | vrchatWrapper.js:313-422 | The new state and the calls made are those of `AuthenticateStep`. |
| `Wrapper.VRChatWrapper.Handle2FA` | vrchatWrapper.js:276-310 | The new state and the calls made are those of `EmailCodeStep`. |
| `Wrapper.VRChatWrapper.Handle2FAOTP` | vrchatWrapper.js:233-270 | The new state and the calls made are those of `AutoCodeStep`. |
| `Wrapper.VRChatWrapper.ErrorMenu` | vrchatWrapper.js:425-444 | Clears `manualCredentials` and returns `MenuOptions(loadCookies)`. |
| `Wrapper.VRChatWrapper.HandleMenuSelection` | vrchatWrapper.js:450-498 | The new `loadCookies`, the calls and the message are those of `Select`. |
| `Wrapper.VRChatWrapper.RequestCredentials` | vrchatWrapper.js:502-521 | Stores the typed credentials and sets `manualCredentials`. Creates the API client and calls `authenticate` again. |

## Left out

- Network calls (`getCurrentUser`, `verify2FA`, the SDK `Configuration` and `AuthenticationApi`): these are foreign library calls. Their settled results are input datatypes.
- `setConfiguration` (lines 80-111): which configuration object is built is not modelled, including whether it names the jar. The model assumes the HTTP client's default jar receives the cookies of every fulfilled reply (`issued`).
- `CookieCache.Load` and `CookieCache.Save`: usernames that are `Object.prototype` property names are not modelled. The parsed file is a plain map, so `allCookies["constructor"]` (a truthy function, so the load reports "invalid") and the `__proto__` setter (the save writes no entry yet reports success) are not captured. For those usernames, `SaveThenLoad` does not hold in the source.
- Cookies set by error responses are not added to the jar.
- `axios.defaults.jar` is assumed to exist. If it were undefined, `setCookieSync` and `getCookiesSync` would throw, making the load report "error" and the save fail.
- When the constructor stops early, `manualCredentials` and `isAuthentificated` stay `undefined`. The model starts them as `false`, which every test in the source reads the same way.
- Cookie jar internals (tough-cookie): the jar is a sequence that only grows. A cookie with the same key, domain and path is not replaced. `getCookiesSync` is taken to return the whole jar, without URL matching or its own expiry filtering. A `setCookieSync` that throws on a domain mismatch is not modelled.
- File I/O and JSON: the file is `Missing`, `Unreadable`, or parsed to an object. A file whose JSON is valid but not an object (`null`, an array, a number) is not modelled.
- JSON values are abstracted: an element's `key` and `value` are an optional string, and `requiresTwoFactorAuth` is a list of strings. A string there would make `.includes` a substring test, which is not modelled.
- `Date` parsing: expiry is an optional millisecond count, with an unparseable date as `None`. The clock is read once per call, not once per record.
- TOTP generation (`totp-generator` with the hardcoded secret at line 234): the code is HMAC inside a third-party library, and only the server's reply to it is modelled. Lines 268-269 run before the request settles, while `auth` is still false, so they only return.
- Operator I/O (readline prompts, hidden password echo, console output and colours): prompts are inputs, and only the invalid-selection message is modelled. The readline lifecycle is not modelled: `rl.close()`, a second `question` while one is pending, use after close.
- `process.exit(0)` is the `Exit` action. What Node does with an unhandled rejection is outside the model.
- Promise scheduling: each callback runs as one sequential step. The step sequences in `SessionSpec` are arbitrary, so those lemmas also hold for any schedule.
- `use2FA` is stored by the constructor but never read, so it is not a field of the model.
- `getWorldById` and `example.js` are not part of this model: one is a thin SDK accessor, the other the command-line bootstrap.
