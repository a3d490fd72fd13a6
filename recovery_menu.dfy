/** The recovery menu: the options `errorMenu` prints and what `handleMenuSelection` does with a choice. */
module RecoveryMenu {
  import opened JsValues
  import opened AuthDecisions

  function Digit(n: nat): char
    requires 1 <= n <= 9
  {
    (('0' as int) + n) as char
  }

  /** `line` starts with the option number `n` followed by ". ". */
  predicate Numbered(line: string, n: nat)
    requires 1 <= n <= 9
  {
    |line| >= 3 && line[0] == Digit(n) && line[1..3] == ". "
  }

  /** The text of an option after its number. */
  function Label(line: string): string {
    if |line| >= 3 then line[3..] else ""
  }

  /** The printed line of option `n`. */
  function OptionLine(n: nat, text: string): string
    requires 1 <= n <= 9
  {
    [Digit(n)] + ". " + text
  }

  lemma OptionLineParts(n: nat, text: string)
    requires 1 <= n <= 9
    ensures Numbered(OptionLine(n, text), n) && Label(OptionLine(n, text)) == text
  {
    assert OptionLine(n, text)[3..] == text;
  }

  const RetryText := "Retry from zero"
  const Retry2FAText := "Retry 2FA code entry only"
  const CredentialsText := "Manually enter credentials"
  const CookiesText := "Try again with the cookies"
  const ExitText := "Exit"

  /**
   * The option lines of `errorMenu`: three fixed options, then "4. Exit" with cookies
   * enabled, or "4. Try again with the cookies" and "5. Exit" with them disabled.
   */
  function MenuOptions(loadCookies: bool): (lines: seq<string>)
    ensures |lines| == if loadCookies then 4 else 5
    ensures forall i :: 0 <= i < |lines| ==> Numbered(lines[i], i + 1)
    ensures Label(lines[|lines| - 1]) == ExitText
    ensures forall i :: 0 <= i < |lines| - 1 ==> Label(lines[i]) != ExitText
    ensures (exists i :: 0 <= i < |lines| && Label(lines[i]) == CookiesText) <==> !loadCookies
  {
    OptionLineParts(1, RetryText);
    OptionLineParts(2, Retry2FAText);
    OptionLineParts(3, CredentialsText);
    OptionLineParts(4, CookiesText);
    OptionLineParts(4, ExitText);
    OptionLineParts(5, ExitText);
    var fixed := [OptionLine(1, RetryText), OptionLine(2, Retry2FAText), OptionLine(3, CredentialsText)];
    if !loadCookies then
      var lines := fixed + [OptionLine(4, CookiesText), OptionLine(5, ExitText)];
      assert Label(lines[3]) == CookiesText;
      lines
    else
      fixed + [OptionLine(4, ExitText)]
  }

  /** The message for "5" while cookies are enabled. */
  const OutOfRangeNotice := "Invalid selection. Please enter a number between 1 and 4."

  const DefaultNoticeHead := "Invalid selection. Please enter a number between 1 and "

  /** `String(b)` for a boolean. */
  function BoolText(b: bool): string {
    if b then "true" else "false"
  }

  /**
   * The message for any other input. The expression at line 494 parses as
   * `(head + this.loadCookies) ? "4" : ("5" + ".")`, and its condition is a non-empty,
   * hence truthy, string: the whole message printed is "4".
   */
  function DefaultNotice(loadCookies: bool): (text: string)
    ensures text == "4"
  {
    if DefaultNoticeHead + BoolText(loadCookies) != "" then "4" else "5" + "."
  }

  /** The new `loadCookies`, the calls made, and the message printed for an invalid choice. */
  datatype Selection = Selection(loadCookies: bool, next: seq<Action>, notice: Option<string>)

  /** `handleMenuSelection(selection)`. */
  function Select(loadCookies: bool, selection: string): (s: Selection)
    ensures |s.next| == 1
    ensures s.loadCookies == (loadCookies || selection == "4" || selection == "5")
    ensures Exit in s.next <==> loadCookies && selection == "4"
    ensures !loadCookies ==> Exit !in s.next
    ensures !loadCookies && selection in {"4", "5"} ==> s.next == [Authenticate]
    ensures s.next == [ErrorMenu] <==> s.notice.Some?
    ensures s.notice.Some? <==>
              selection !in {"1", "2", "3", "4"} && (selection != "5" || loadCookies)
    ensures s.notice.Some? ==> s.loadCookies == loadCookies
    ensures s.notice.Some? ==> s.notice.value == OutOfRangeNotice || s.notice.value == "4"
  {
    if selection == "1" then Selection(loadCookies, [Authenticate], None)
    else if selection == "2" then Selection(loadCookies, [Handle2FA(true)], None)
    else if selection == "3" then Selection(loadCookies, [RequestCredentials], None)
    else if selection == "4" then
      if !loadCookies then Selection(true, [Authenticate], None)
      else Selection(loadCookies, [Exit], None)
    else if selection == "5" then
      if loadCookies then Selection(loadCookies, [ErrorMenu], Some(OutOfRangeNotice))
      else Selection(true, [Authenticate], None)
    else Selection(loadCookies, [ErrorMenu], Some(DefaultNotice(loadCookies)))
  }

  /** What choosing an option with this label promises the operator. */
  predicate Honours(text: string, before: bool, s: Selection) {
    if text == RetryText then s.next == [Authenticate] && s.loadCookies == before
    else if text == Retry2FAText then s.next == [Handle2FA(true)] && s.loadCookies == before
    else if text == CredentialsText then s.next == [RequestCredentials] && s.loadCookies == before
    else if text == CookiesText then s.next == [Authenticate] && s.loadCookies
    else if text == ExitText then s.next == [Exit]
    else false
  }

  /**
   * Typing the number of a listed option does what its label says, except "5. Exit" with
   * cookies disabled, which turns cookies on and authenticates again instead.
   */
  lemma MenuAgreesWithSelection(loadCookies: bool, i: nat)
    requires i < |MenuOptions(loadCookies)|
    ensures Honours(Label(MenuOptions(loadCookies)[i]), loadCookies, Select(loadCookies, [Digit(i + 1)]))
            <==> loadCookies || i < 4
  {
    var lines := MenuOptions(loadCookies);
    if i == 0 {
      OptionLineParts(1, RetryText);
      assert Label(lines[i]) == RetryText && [Digit(i + 1)] == "1";
    } else if i == 1 {
      OptionLineParts(2, Retry2FAText);
      assert Label(lines[i]) == Retry2FAText && [Digit(i + 1)] == "2";
    } else if i == 2 {
      OptionLineParts(3, CredentialsText);
      assert Label(lines[i]) == CredentialsText && [Digit(i + 1)] == "3";
    } else if i == 3 {
      assert [Digit(i + 1)] == "4";
      if loadCookies {
        OptionLineParts(4, ExitText);
        assert Label(lines[i]) == ExitText;
      } else {
        OptionLineParts(4, CookiesText);
        assert Label(lines[i]) == CookiesText;
      }
    } else {
      OptionLineParts(5, ExitText);
      assert Label(lines[i]) == ExitText && [Digit(i + 1)] == "5";
    }
  }
}
