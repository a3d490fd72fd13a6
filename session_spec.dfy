/**
 * The session as a value: the wrapper's fields, one step function per method of the
 * authentication flow, and what holds over any sequence of those steps.
 */
module SessionSpec {
  import opened JsValues
  import opened CookieCache
  import opened AuthDecisions
  import opened RecoveryMenu

  /**
   * The fields of a wrapper that the flow reads or writes (`apiReady` says whether
   * `this.authApi` was created), together with the process's cookie jar and the cookie file.
   */
  datatype Config = Config(username: Option<string>, password: Option<string>,
                           loadCookies: bool, manualCredentials: bool, isAuthentificated: bool,
                           apiReady: bool, jar: seq<Cookie>, disk: Disk)

  /** The constructor; when its check fails it returns before creating the API client. */
  function Construct(username: Option<string>, password: Option<string>, loadCookies: bool,
                     jar: seq<Cookie>, disk: Disk): Config
  {
    Config(username, password, loadCookies, false, false,
           !CredentialsRejected(username, password), jar, disk)
  }

  /** The key under which the session's cookies are filed. */
  function UserKey(c: Config): string {
    PropertyKey(c.username)
  }

  /** `authenticate()` together with the reply its `getCurrentUser` request settles to. */
  function AuthenticateStep(c: Config, now: int, reply: UserReply): (Config, seq<Action>) {
    if !Truthy(c.username) && !Truthy(c.password) then
      (c, [RequestCredentials])
    else
      var load := Load(c.disk.file, UserKey(c), now);
      var c1 := if c.loadCookies then c.(jar := c.jar + load.added) else c;
      if c.loadCookies && load.result == Expired then
        (c1, [ErrorMenu])
      else if !c1.apiReady then
        (c1, [UnhandledRejection])
      else
        var c2 := if reply.UserFulfilled? then c1.(jar := c1.jar + reply.issued) else c1;
        var verdict := Classify(reply);
        if verdict == LoggedIn then
          (c2.(isAuthentificated := true, disk := Save(c2.disk, UserKey(c2), c2.jar).0), [])
        else
          (c2, VerdictNext(verdict))
  }

  /** The common tail of both 2FA paths: store the reply's cookies, save when verified. */
  function VerifyStep(c: Config, reply: VerifyReply, r: Reaction): (Config, seq<Action>) {
    var c1 := if reply.VerifyFulfilled? then c.(jar := c.jar + reply.issued) else c;
    (if r.save then c1.(disk := Save(c1.disk, UserKey(c1), c1.jar).0) else c1, r.next)
  }

  /** `handle2FA(retry)` with the reply to the operator's code. */
  function EmailCodeStep(c: Config, retry: bool, reply: VerifyReply): (Config, seq<Action>) {
    VerifyStep(c, reply, AfterEmailCode(retry, reply))
  }

  /** `handle2FAOTP(retry)` with the reply to the generated code. */
  function AutoCodeStep(c: Config, retry: bool, reply: VerifyReply): (Config, seq<Action>) {
    VerifyStep(c, reply, AfterAutoCode(retry, reply))
  }

  /** `errorMenu()`: clears `manualCredentials` and prints the options. */
  function MenuStep(c: Config): (Config, seq<string>) {
    (c.(manualCredentials := false), MenuOptions(c.loadCookies))
  }

  /** `handleMenuSelection(selection)`. */
  function SelectStep(c: Config, selection: string): (Config, Selection) {
    var s := Select(c.loadCookies, selection);
    (c.(loadCookies := s.loadCookies), s)
  }

  /** `requestCredentials()` with what the operator typed. */
  function CredentialsStep(c: Config, username: string, password: string): (Config, seq<Action>) {
    (c.(manualCredentials := true, username := Some(username), password := Some(password), apiReady := true),
     [Authenticate])
  }

  /** One settled step of the session, with the inputs it waited for. */
  datatype Event =
    | AuthenticateEv(now: int, reply: UserReply)
    | EmailCodeEv(retry: bool, verifyReply: VerifyReply)
    | AutoCodeEv(retry: bool, verifyReply: VerifyReply)
    | MenuShown
    | Selected(selection: string)
    | CredentialsEntered(username: string, password: string)

  function Apply(c: Config, e: Event): (Config, seq<Action>) {
    match e
    case AuthenticateEv(now, reply) => AuthenticateStep(c, now, reply)
    case EmailCodeEv(retry, reply) => EmailCodeStep(c, retry, reply)
    case AutoCodeEv(retry, reply) => AutoCodeStep(c, retry, reply)
    case MenuShown => (MenuStep(c).0, [])
    case Selected(selection) => (SelectStep(c, selection).0, SelectStep(c, selection).1.next)
    case CredentialsEntered(username, password) => CredentialsStep(c, username, password)
  }

  /** The configuration after a sequence of events, in any order. */
  function Run(c: Config, es: seq<Event>): Config
    decreases |es|
  {
    if es == [] then c else Run(Apply(c, es[0]).0, es[1..])
  }

  /** A `getCurrentUser` reply that carries a display name. */
  predicate LogsIn(e: Event) {
    e.AuthenticateEv? && e.reply.UserFulfilled? && e.reply.data.Some?
    && Truthy(e.reply.data.value.displayName)
  }

  /** Only `authenticate`, on a reply with a display name, marks the session authenticated. */
  lemma StepAuthenticates(c: Config, e: Event)
    requires !c.isAuthentificated && Apply(c, e).0.isAuthentificated
    ensures LogsIn(e)
  {
    if e.AuthenticateEv? {
      FulfilledOrRejectedLogin(e.reply);
    }
  }

  /**
   * The converse, for every input: a reply with a display name marks the session
   * authenticated, schedules nothing, and files the whole jar (the loaded cookies followed
   * by the ones the reply set) under the session's username.
   */
  lemma DisplayNameLogsIn(c: Config, now: int, issued: seq<Cookie>, b: UserBody)
    requires (Truthy(c.username) || Truthy(c.password)) && c.apiReady && Truthy(b.displayName)
    ensures var r := AuthenticateStep(c, now, UserFulfilled(issued, Some(b)));
            && r.0.isAuthentificated && r.1 == []
            && r.0.jar == (if c.loadCookies then c.jar + Load(c.disk.file, UserKey(c), now).added else c.jar) + issued
            && (c.disk.writable ==> r.0.disk.file.Parsed? && r.0.disk.file.entries[UserKey(c)] == Array(Serialise(r.0.jar)))
            && (!c.disk.writable ==> r.0.disk == c.disk)
  {
    FulfilledVerdicts(issued, b);
    LoadNeverExpired(c.disk.file, UserKey(c), now);
  }

  lemma FulfilledOrRejectedLogin(reply: UserReply)
    requires Classify(reply) == LoggedIn
    ensures reply.UserFulfilled? && reply.data.Some? && Truthy(reply.data.value.displayName)
  {
    if reply.UserRejected? {
      RejectedVerdicts(reply.response);
    }
  }

  /**
   * Over any sequence of steps, a session becomes authenticated only through a reply with a
   * display name: an invalid-credentials reply, a 2FA verification or a menu choice never does.
   */
  lemma {:induction false} LoginNeedsDisplayName(c: Config, es: seq<Event>)
    requires !c.isAuthentificated && Run(c, es).isAuthentificated
    ensures exists k :: 0 <= k < |es| && LogsIn(es[k])
    decreases |es|
  {
    var c1 := Apply(c, es[0]).0;
    if c1.isAuthentificated {
      StepAuthenticates(c, es[0]);
      assert LogsIn(es[0]);
    } else {
      LoginNeedsDisplayName(c1, es[1..]);
      var k :| 0 <= k < |es[1..]| && LogsIn(es[1..][k]);
      assert es[k + 1] == es[1..][k];
    }
  }

  /**
   * What one step keeps: no method clears `isAuthentificated` or `loadCookies`, and only
   * `requestCredentials` changes the username.
   */
  lemma StepKeeps(c: Config, e: Event)
    ensures c.isAuthentificated ==> Apply(c, e).0.isAuthentificated
    ensures c.loadCookies ==> Apply(c, e).0.loadCookies
    ensures Apply(c, e).0.username == if e.CredentialsEntered? then Some(e.username) else c.username
  {
  }

  /** Nothing ever clears `isAuthentificated`. */
  lemma {:induction false} AuthenticationIsKept(c: Config, es: seq<Event>)
    requires c.isAuthentificated
    ensures Run(c, es).isAuthentificated
    decreases |es|
  {
    if es != [] {
      StepKeeps(c, es[0]);
      AuthenticationIsKept(Apply(c, es[0]).0, es[1..]);
    }
  }

  /** Nothing ever turns cookies off once they are on. */
  lemma {:induction false} CookiesStayEnabled(c: Config, es: seq<Event>)
    requires c.loadCookies
    ensures Run(c, es).loadCookies
    decreases |es|
  {
    if es != [] {
      StepKeeps(c, es[0]);
      CookiesStayEnabled(Apply(c, es[0]).0, es[1..]);
    }
  }

  /** `u` is stored the same way in both maps. */
  predicate SameEntry(m1: map<string, Entry>, m2: map<string, Entry>, u: string) {
    (u in m1 <==> u in m2) && (u in m1 ==> m1[u] == m2[u])
  }

  lemma SaveIsolates(disk: Disk, user: string, jar: seq<Cookie>, u: string)
    requires disk.file.Parsed? && u != user
    ensures Save(disk, user, jar).0.file.Parsed?
    ensures SameEntry(disk.file.entries, Save(disk, user, jar).0.file.entries, u)
  {
  }

  /** One step keeps a parsed file parsed and does not touch the entry of another user. */
  lemma StepIsolates(c: Config, e: Event, u: string)
    requires c.disk.file.Parsed? && u != UserKey(c)
    ensures Apply(c, e).0.disk.file.Parsed?
    ensures SameEntry(c.disk.file.entries, Apply(c, e).0.disk.file.entries, u)
  {
    match e
    case AuthenticateEv(now, reply) =>
      var c1 := Apply(c, e).0;
      if c1.disk != c.disk {
        var load := Load(c.disk.file, UserKey(c), now);
        var ca := if c.loadCookies then c.(jar := c.jar + load.added) else c;
        var cb := if reply.UserFulfilled? then ca.(jar := ca.jar + reply.issued) else ca;
        SaveIsolates(c.disk, UserKey(c), cb.jar, u);
      }
    case EmailCodeEv(retry, reply) =>
      var c1 := if reply.VerifyFulfilled? then c.(jar := c.jar + reply.issued) else c;
      SaveIsolates(c.disk, UserKey(c), c1.jar, u);
    case AutoCodeEv(retry, reply) =>
      var c1 := if reply.VerifyFulfilled? then c.(jar := c.jar + reply.issued) else c;
      SaveIsolates(c.disk, UserKey(c), c1.jar, u);
    case MenuShown =>
    case Selected(_) =>
    case CredentialsEntered(_, _) =>
  }

  /**
   * Isolation over a whole session: another user's entry in a parsed cookie file is never
   * changed or dropped, as long as the operator never types that username.
   */
  lemma {:induction false} OtherUsersSurvive(c: Config, es: seq<Event>, u: string)
    requires c.disk.file.Parsed? && u != UserKey(c)
    requires forall k :: 0 <= k < |es| && es[k].CredentialsEntered? ==> es[k].username != u
    ensures Run(c, es).disk.file.Parsed?
    ensures SameEntry(c.disk.file.entries, Run(c, es).disk.file.entries, u)
    decreases |es|
  {
    if es != [] {
      StepIsolates(c, es[0], u);
      StepKeeps(c, es[0]);
      var c1 := Apply(c, es[0]).0;
      assert u != UserKey(c1) by {
        if es[0].CredentialsEntered? {
          assert es[0].username != u;
        }
      }
      forall k | 0 <= k < |es[1..]| && es[1..][k].CredentialsEntered? ensures es[1..][k].username != u {
        assert es[1..][k] == es[k + 1];
      }
      OtherUsersSurvive(c1, es[1..], u);
    }
  }

  /** The process exits only when the operator picks 4 with cookies enabled. */
  lemma ExitOnlyByChoosingFour(c: Config, e: Event)
    ensures Exit in Apply(c, e).1 <==> e == Selected("4") && c.loadCookies
  {
    if e.AuthenticateEv? {
      assert Exit !in VerdictNext(Classify(e.reply));
    }
  }

  /**
   * When the constructor's check failed, `authenticate` either asks for credentials (both
   * are falsy) or throws at the missing `authApi`.
   */
  lemma RejectedConstructionThrows(u: Option<string>, p: Option<string>, lc: bool, jar: seq<Cookie>,
                                   disk: Disk, now: int, reply: UserReply)
    requires CredentialsRejected(u, p)
    ensures AuthenticateStep(Construct(u, p, lc, jar, disk), now, reply).1 ==
              if Truthy(u) || Truthy(p) then [UnhandledRejection] else [RequestCredentials]
  {
  }

  /** A user with an empty cache logs in without 2FA: authenticated, and the cache now holds the user's cookies. */
  lemma FirstLoginCreatesEntry(c: Config, now: int, issued: seq<Cookie>, name: string)
    requires c.username == Some("alice") && Truthy(c.password) && c.apiReady && !c.isAuthentificated
    requires c.disk == Disk(Missing, true) && c.jar == [] && |issued| >= 1 && name != ""
    requires forall k :: k in issued ==> Restorable(k, now)
    ensures var r := AuthenticateStep(c, now, UserFulfilled(issued, Some(UserBody(Some(name), NoError, None))));
            && r.0.isAuthentificated && r.1 == []
            && r.0.disk.file.Parsed? && r.0.disk.file.entries.Keys == {"alice"}
            && Load(r.0.disk.file, "alice", now) == LoadReport(Loaded, issued)
  {
    var r := AuthenticateStep(c, now, UserFulfilled(issued, Some(UserBody(Some(name), NoError, None))));
    assert c.jar + issued == issued;
    SaveThenLoad(c.disk, "alice", issued, now);
  }

  /**
   * A cached record that expired yesterday does not stop the attempt: loading reports
   * success, adds nothing, and the request to the server is still made.
   */
  lemma ExpiredCacheStillQueries(c: Config, now: int, record: Item, reply: UserReply)
    requires Truthy(c.username) && c.loadCookies && c.apiReady
    requires c.disk.file.Parsed? && EntryOf(c.disk.file.entries, UserKey(c)) == Array([record])
    requires ValidRecord(record) && record.expires == Some(now - 86400000)
    ensures Load(c.disk.file, UserKey(c), now) == LoadReport(Loaded, [])
    ensures AuthenticateStep(c, now, reply).1 == VerdictNext(Classify(reply))
    ensures reply.UserRejected? ==> AuthenticateStep(c, now, reply) == (c, VerdictNext(Classify(reply)))
  {
    LoadEntryAddsLive([record], now);
    assert c.jar + [] == c.jar;
  }

  /** A first submission answered with 429 shows the recovery menu exactly once and retries nothing. */
  lemma RateLimitShowsMenuOnce(c: Config, now: int, data: Option<ErrorBody>)
    requires Truthy(c.username) && c.apiReady
    ensures AuthenticateStep(c, now, UserRejected(Some(HttpResponse(429, data)))).1 == [ErrorMenu]
  {
  }
}
