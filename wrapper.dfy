/**
 * The `VRChatWrapper` object. Each method runs the source method's steps on the object's
 * fields and is proved to agree with the step function of the session specification.
 * Inputs the source waits for (the server's reply, the operator's typing, the clock) are
 * parameters; the calls a method schedules are returned as actions.
 */
module Wrapper {
  import opened JsValues
  import opened CookieCache
  import opened AuthDecisions
  import opened RecoveryMenu
  import opened SessionSpec

  class VRChatWrapper {
    var username: Option<string>
    var password: Option<string>
    var loadCookies: bool
    var manualCredentials: bool
    var isAuthentificated: bool
    /** `this.authApi` has been created. */
    var apiReady: bool
    /** The HTTP client's default cookie jar. */
    var cookieJar: seq<Cookie>
    /** The cookie file at `cookieFilePath`. */
    var disk: Disk

    function State(): Config
      reads this
    {
      Config(username, password, loadCookies, manualCredentials, isAuthentificated, apiReady, cookieJar, disk)
    }

    /** Stores the parameters, then stops early when exactly one credential is "" (lines 39-45). */
    constructor (username: Option<string>, password: Option<string>, loadCookies: bool,
                 jar: seq<Cookie>, disk: Disk)
      ensures State() == Construct(username, password, loadCookies, jar, disk)
    {
      this.username := username;
      this.password := password;
      this.loadCookies := loadCookies;
      this.cookieJar := jar;
      this.disk := disk;
      this.manualCredentials := false;
      this.isAuthentificated := false;
      this.apiReady := !CredentialsRejected(username, password);
    }

    /** `loadCookiesFromFile()`: validate this user's entry, then add every live record to the jar. */
    method LoadCookiesFromFile(now: int) returns (result: LoadResult)
      modifies this`cookieJar
      ensures result == Load(disk.file, PropertyKey(username), now).result
      ensures cookieJar == old(cookieJar) + Load(disk.file, PropertyKey(username), now).added
    {
      if disk.file.Missing? {
        return NotFound;
      }
      if disk.file.Unreadable? {
        return Error;
      }
      var allCookies := disk.file.entries;
      var key := PropertyKey(username);
      if key !in allCookies || allCookies[key].Falsy? {
        return NotFound;
      }
      var loaded := allCookies[key];
      if !loaded.Array? {
        return Invalid;
      }
      var items := loaded.items;
      var scan := ScanItems(items);
      if scan == HitNull {
        return Error;
      }
      if scan == FoundInvalid {
        return Invalid;
      }
      var i := 0;
      while i < |items|
        invariant 0 <= i <= |items|
        invariant cookieJar == old(cookieJar) + Live(items[..i], now)
      {
        var cookie := items[i];
        if cookie.Record? && cookie.expires.Some? && cookie.expires.value > now {
          cookieJar := cookieJar + [ToCookie(cookie)];
        }
        // otherwise the callback's `return "expired"` only ends this iteration
        LiveAppend(items[..i], [items[i]], now);
        assert items[..i + 1] == items[..i] + [items[i]];
        i := i + 1;
      }
      assert items[..i] == items;
      return Loaded;
    }

    /** `saveCookies()`: read-merge-write of the cookie file. */
    method SaveCookies() returns (report: SaveReport)
      modifies this`disk
      ensures (disk, report) == Save(old(disk), PropertyKey(username), cookieJar)
    {
      var cookies := Serialise(cookieJar);
      var cookiesExisted := false;
      var allCookies: map<string, Entry> := map[];
      if disk.file.Parsed? {
        allCookies := disk.file.entries;
        cookiesExisted := true;
      }
      allCookies := allCookies[PropertyKey(username) := Array(cookies)];
      if !disk.writable {
        return SaveFailed;
      }
      disk := Disk(Parsed(allCookies), true);
      report := if cookiesExisted then Updated else Created;
    }

    /** `authenticate()`, with the reply that its `getCurrentUser` request settles to. */
    method Authenticate(now: int, reply: UserReply) returns (next: seq<Action>)
      modifies this`cookieJar, this`disk, this`isAuthentificated
      ensures (State(), next) == AuthenticateStep(old(State()), now, reply)
    {
      next := [];
      if !Truthy(username) && !Truthy(password) {
        next := [Action.RequestCredentials];
      } else {
        var expired := false;
        if loadCookies {
          var result := LoadCookiesFromFile(now);
          expired := result == Expired;
        }
        if expired {
          next := [Action.ErrorMenu];
        } else if !apiReady {
          next := [UnhandledRejection];
        } else {
          if reply.UserFulfilled? {
            cookieJar := cookieJar + reply.issued;
          }
          var verdict := Classify(reply);
          if verdict == LoggedIn {
            isAuthentificated := true;
            var saveResult := SaveCookies();
          } else {
            next := VerdictNext(verdict);
          }
        }
      }
    }

    /** `handle2FA(retry)`, with the reply to the code the operator entered. */
    method Handle2FA(retry: bool, reply: VerifyReply) returns (next: seq<Action>)
      modifies this`cookieJar, this`disk
      ensures (State(), next) == EmailCodeStep(old(State()), retry, reply)
    {
      match reply
      case VerifyFulfilled(issued, verified) =>
        cookieJar := cookieJar + issued;
        if verified {
          var saveResult := SaveCookies();
          next := if retry then [Action.Authenticate] else [];
        } else {
          next := [UnhandledRejection];
        }
      case VerifyRejected(status) =>
        if status.None? {
          next := [UnhandledRejection];
        } else {
          next := [];
          if status.value == 429 {
            next := next + [Action.ErrorMenu];
          }
          next := next + [Action.ErrorMenu];
          assert next == if status.value == 429 then [Action.ErrorMenu, Action.ErrorMenu] else [Action.ErrorMenu];
        }
    }

    /** `handle2FAOTP(retry)`, with the reply to the generated code. */
    method Handle2FAOTP(retry: bool, reply: VerifyReply) returns (next: seq<Action>)
      modifies this`cookieJar, this`disk
      ensures (State(), next) == AutoCodeStep(old(State()), retry, reply)
    {
      match reply
      case VerifyFulfilled(issued, verified) =>
        cookieJar := cookieJar + issued;
        if verified {
          var saveResult := SaveCookies();
          next := if retry then [Action.Authenticate] else [];
        } else {
          next := [UnhandledRejection];
        }
      case VerifyRejected(status) =>
        if status.None? {
          next := [UnhandledRejection];
        } else if status.value == 429 {
          next := [Action.ErrorMenu];
        } else {
          next := [Action.Handle2FA(false)];
        }
    }

    /** `errorMenu()`: returns the option lines it prints before asking for a selection. */
    method ErrorMenu() returns (options: seq<string>)
      modifies this`manualCredentials
      ensures (State(), options) == MenuStep(old(State()))
    {
      manualCredentials := false;
      options := [OptionLine(1, RetryText), OptionLine(2, Retry2FAText), OptionLine(3, CredentialsText)];
      if !loadCookies {
        options := options + [OptionLine(4, CookiesText), OptionLine(5, ExitText)];
      } else {
        options := options + [OptionLine(4, ExitText)];
      }
    }

    /** `handleMenuSelection(selection)`; `notice` is the message printed for an invalid choice. */
    method HandleMenuSelection(selection: string) returns (next: seq<Action>, notice: Option<string>)
      modifies this`loadCookies
      ensures State() == SelectStep(old(State()), selection).0
      ensures next == SelectStep(old(State()), selection).1.next
      ensures notice == SelectStep(old(State()), selection).1.notice
    {
      notice := None;
      if selection == "1" {
        next := [Action.Authenticate];
      } else if selection == "2" {
        next := [Action.Handle2FA(true)];
      } else if selection == "3" {
        next := [Action.RequestCredentials];
      } else if selection == "4" {
        if !loadCookies {
          loadCookies := true;
          next := [Action.Authenticate];
        } else {
          next := [Exit];
        }
      } else if selection == "5" {
        if loadCookies {
          notice := Some(OutOfRangeNotice);
          next := [Action.ErrorMenu];
        } else {
          loadCookies := true;
          next := [Action.Authenticate];
        }
      } else {
        notice := Some(DefaultNotice(loadCookies));
        next := [Action.ErrorMenu];
      }
    }

    /** `requestCredentials()`, with the username and password the operator typed. */
    method RequestCredentials(username: string, password: string) returns (next: seq<Action>)
      modifies this`manualCredentials, this`username, this`password, this`apiReady
      ensures (State(), next) == CredentialsStep(old(State()), username, password)
    {
      this.manualCredentials := true;
      this.username := Some(username);
      this.password := Some(password);
      this.apiReady := true;
      next := [Action.Authenticate];
    }
  }
}
