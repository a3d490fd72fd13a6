/**
 * The decisions of the authentication flow: the constructor's credential check, how a
 * `getCurrentUser` reply is classified in `authenticate`, and what follows a 2FA
 * verification reply in `handle2FA` and `handle2FAOTP`.
 */
module AuthDecisions {
  import opened JsValues
  import opened CookieCache

  /** The message text the server uses for a failed credential login. */
  const InvalidCredentialsText := "Invalid Username/Email or Password"

  /** A call that a handler schedules; each becomes the next step of the session. */
  datatype Action =
    | Authenticate            // this.authenticate()
    | RequestCredentials      // this.requestCredentials(): prompt for username and password
    | Handle2FA(retry: bool)  // this.handle2FA(retry): prompt for a code
    | Handle2FAOTP(retry: bool) // this.handle2FAOTP(retry): submit the generated code
    | ErrorMenu               // this.errorMenu()
    | Exit                    // process.exit(0)
    | UnhandledRejection      // the handler throws and nothing catches the rejection

  /** An `error` object in a reply body: absent, present without a `message`, or with one. */
  datatype ErrorField = NoError | NoMessage | Message(text: string)

  /** `response.data` of a fulfilled `getCurrentUser`; `nestedError` is `response.data.data.error`. */
  datatype UserBody = UserBody(displayName: Option<string>, nestedError: ErrorField,
                               requiresTwoFactorAuth: Option<seq<string>>)

  /** `error.response.data` of a rejected request. */
  datatype ErrorBody = ErrorBody(error: ErrorField, requiresTwoFactorAuth: Option<seq<string>>)

  datatype HttpResponse = HttpResponse(status: int, data: Option<ErrorBody>)

  /**
   * What `getCurrentUser` settles to: fulfilled (with the cookies the server set, which the
   * transport stores in the jar), or rejected with or without an HTTP response.
   */
  datatype UserReply =
    | UserFulfilled(issued: seq<Cookie>, data: Option<UserBody>)
    | UserRejected(response: Option<HttpResponse>)

  /** What `verify2FA` settles to; `verified` is `response.data && response.data.verified`. */
  datatype VerifyReply =
    | VerifyFulfilled(issued: seq<Cookie>, verified: bool)
    | VerifyRejected(status: Option<int>)

  /** The classes `authenticate` sorts a reply into. */
  datatype Verdict = LoggedIn | AskCredentials | EmailCode | AutoCode | RateLimited | Ignored

  /** The constructor's check (lines 39-42); when it holds the constructor stops early. */
  function CredentialsRejected(username: Option<string>, password: Option<string>): (r: bool)
    ensures r <==> (username == Some("")) != (password == Some(""))
    ensures Truthy(username) && Truthy(password) ==> !r
    ensures username == password ==> !r
    ensures username.None? && password != Some("") ==> !r
    ensures password.None? && username != Some("") ==> !r
  {
    (username == Some("") && username != password) || (password == Some("") && username != password)
  }

  /** The challenge list is truthy and contains `challenge`. */
  predicate Challenged(required: Option<seq<string>>, challenge: string) {
    required.Some? && challenge in required.value
  }

  /** The `message` property of an error object, `undefined` when there is none. */
  function MessageOf(e: ErrorField): Option<string> {
    if e.Message? then Some(e.text) else None
  }

  predicate NamesInvalidCredentials(e: ErrorField) {
    e.Message? && Includes(e.text, InvalidCredentialsText)
  }

  /**
   * The `then` branch. An `error` present without a `message` makes `.includes` throw; the
   * chained `catch` then finds no `response` and only logs.
   */
  function ClassifyBody(data: Option<UserBody>): Verdict {
    if data.None? then Ignored
    else if Truthy(data.value.displayName) then LoggedIn
    else if data.value.nestedError.NoMessage? then Ignored
    else if NamesInvalidCredentials(data.value.nestedError) then AskCredentials
    else if Challenged(data.value.requiresTwoFactorAuth, "emailOtp") then EmailCode
    else if Challenged(data.value.requiresTwoFactorAuth, "totp")
         || Challenged(data.value.requiresTwoFactorAuth, "otp") then AutoCode
    else Ignored
  }

  /** The `catch` branch: only a 401 that carries a truthy message is looked at further. */
  function ClassifyFailure(response: Option<HttpResponse>): Verdict {
    if response.None? then Ignored
    else if response.value.status == 401 then
      var data := response.value.data;
      if data.Some? && Truthy(MessageOf(data.value.error)) then
        if Includes(data.value.error.text, InvalidCredentialsText) then AskCredentials
        else if Challenged(data.value.requiresTwoFactorAuth, "emailOtp") then EmailCode
        else Ignored
      else Ignored
    else if response.value.status == 429 then RateLimited
    else Ignored
  }

  function Classify(reply: UserReply): Verdict {
    match reply
    case UserFulfilled(_, data) => ClassifyBody(data)
    case UserRejected(response) => ClassifyFailure(response)
  }

  /** The calls `authenticate` makes for each verdict (a login saves cookies and schedules nothing). */
  function VerdictNext(v: Verdict): seq<Action> {
    match v
    case LoggedIn => []
    case AskCredentials => [RequestCredentials]
    case EmailCode => [Handle2FA(true)]
    case AutoCode => [Handle2FAOTP(true)]
    case RateLimited => [ErrorMenu]
    case Ignored => []
  }

  /** Both directions for each verdict of a fulfilled reply. */
  lemma FulfilledVerdicts(issued: seq<Cookie>, b: UserBody)
    ensures Classify(UserFulfilled(issued, Some(b))) == LoggedIn <==> Truthy(b.displayName)
    ensures Classify(UserFulfilled(issued, Some(b))) == AskCredentials <==>
              !Truthy(b.displayName) && NamesInvalidCredentials(b.nestedError)
    ensures Classify(UserFulfilled(issued, Some(b))) == EmailCode <==>
              !Truthy(b.displayName) && !b.nestedError.NoMessage? && !NamesInvalidCredentials(b.nestedError)
              && Challenged(b.requiresTwoFactorAuth, "emailOtp")
    ensures Classify(UserFulfilled(issued, Some(b))) == AutoCode <==>
              !Truthy(b.displayName) && !b.nestedError.NoMessage? && !NamesInvalidCredentials(b.nestedError)
              && !Challenged(b.requiresTwoFactorAuth, "emailOtp")
              && (Challenged(b.requiresTwoFactorAuth, "totp") || Challenged(b.requiresTwoFactorAuth, "otp"))
    ensures Classify(UserFulfilled(issued, Some(b))) != RateLimited
  {
  }

  /** Both directions for each verdict of a rejected reply: only a 401 or a 429 leads anywhere. */
  lemma RejectedVerdicts(response: Option<HttpResponse>)
    ensures Classify(UserRejected(response)) == AskCredentials <==>
              && response.Some? && response.value.status == 401
              && response.value.data.Some? && Truthy(MessageOf(response.value.data.value.error))
              && NamesInvalidCredentials(response.value.data.value.error)
    ensures Classify(UserRejected(response)) == EmailCode <==>
              && response.Some? && response.value.status == 401
              && response.value.data.Some? && Truthy(MessageOf(response.value.data.value.error))
              && !NamesInvalidCredentials(response.value.data.value.error)
              && Challenged(response.value.data.value.requiresTwoFactorAuth, "emailOtp")
    ensures Classify(UserRejected(response)) == RateLimited <==>
              response.Some? && response.value.status == 429
    ensures Classify(UserRejected(response)) != LoggedIn
    ensures Classify(UserRejected(response)) != AutoCode
  {
  }

  /** A 401 whose body asks for totp leads nowhere, even with a message: only emailOtp is looked for. */
  lemma TotpChallengeIn401Ignored(text: string, required: seq<string>)
    requires !Includes(text, InvalidCredentialsText) && "emailOtp" !in required
    ensures Classify(UserRejected(Some(HttpResponse(401, Some(ErrorBody(Message(text), Some(required))))))) == Ignored
  {
  }

  /** A 401 asking for emailOtp but without a message leads nowhere. */
  lemma EmailChallengeWithoutMessageIgnored(required: seq<string>)
    ensures Classify(UserRejected(Some(HttpResponse(401, Some(ErrorBody(NoError, Some(required))))))) == Ignored
    ensures Classify(UserRejected(Some(HttpResponse(401, Some(ErrorBody(NoMessage, Some(required))))))) == Ignored
  {
  }

  /** What a 2FA verification reply leads to: whether cookies are saved, and the calls scheduled. */
  datatype Reaction = Reaction(save: bool, next: seq<Action>)

  /**
   * `handle2FA(retry)` once the entered code has been submitted. A reply that is not
   * `verified` reaches the `console.error` that reads the undeclared `error`; the resulting
   * ReferenceError reaches `catch`, whose `error.response.status` then throws in turn, as it
   * does for a rejection without a response. On a 429 the menu is opened twice, the first
   * call having no `return` after it.
   */
  function AfterEmailCode(retry: bool, reply: VerifyReply): (r: Reaction)
    ensures r.save <==> reply.VerifyFulfilled? && reply.verified
    ensures Authenticate in r.next <==> r.save && retry
    ensures forall a :: a in r.next ==> !a.Handle2FA? && !a.Handle2FAOTP? && !a.RequestCredentials?
    ensures ErrorMenu in r.next <==> reply.VerifyRejected? && reply.status.Some?
    ensures |r.next| == 2 <==> reply == VerifyRejected(Some(429))
    ensures |r.next| <= 1 || reply == VerifyRejected(Some(429))
    ensures reply.VerifyRejected? && reply.status.Some? ==>
              r.next == if reply.status.value == 429 then [ErrorMenu, ErrorMenu] else [ErrorMenu]
    ensures r.save && !retry ==> r.next == []
    ensures UnhandledRejection in r.next <==>
              (reply.VerifyFulfilled? && !reply.verified) || reply == VerifyRejected(None)
  {
    match reply
    case VerifyFulfilled(_, verified) =>
      if verified then Reaction(true, if retry then [Authenticate] else [])
      else Reaction(false, [UnhandledRejection])
    case VerifyRejected(status) =>
      if status.None? then Reaction(false, [UnhandledRejection])
      else if status.value == 429 then Reaction(false, [ErrorMenu, ErrorMenu])
      else Reaction(false, [ErrorMenu])
  }

  /**
   * `handle2FAOTP(retry)` once the generated code has been submitted: a rejection other than
   * a 429 falls back to interactive entry, once, with `retry` false.
   */
  function AfterAutoCode(retry: bool, reply: VerifyReply): (r: Reaction)
    ensures r.save <==> reply.VerifyFulfilled? && reply.verified
    ensures Authenticate in r.next <==> r.save && retry
    ensures forall a :: a in r.next ==> !a.Handle2FAOTP? && a != Handle2FA(true)
    ensures Handle2FA(false) in r.next <==>
              reply.VerifyRejected? && reply.status.Some? && reply.status.value != 429
    ensures ErrorMenu in r.next <==> reply == VerifyRejected(Some(429))
    ensures UnhandledRejection in r.next <==>
              (reply.VerifyFulfilled? && !reply.verified) || reply == VerifyRejected(None)
    ensures |r.next| <= 1
    ensures r.save && !retry ==> r.next == []
  {
    match reply
    case VerifyFulfilled(_, verified) =>
      if verified then Reaction(true, if retry then [Authenticate] else [])
      else Reaction(false, [UnhandledRejection])
    case VerifyRejected(status) =>
      if status.None? then Reaction(false, [UnhandledRejection])
      else if status.value == 429 then Reaction(false, [ErrorMenu])
      else Reaction(false, [Handle2FA(false)])
  }
}
