/** The few JavaScript value semantics that the wrapper's decisions rest on. */
module JsValues {

  /** A property that may be missing (`undefined`). */
  datatype Option<T> = None | Some(value: T)

  /** Truthiness of a property holding a string or nothing: `undefined` and `""` are falsy. */
  predicate Truthy(s: Option<string>) {
    s.Some? && s.value != ""
  }

  /** The property name JavaScript uses for `obj[x]` when `x` is a string or `undefined`. */
  function PropertyKey(x: Option<string>): string {
    if x.Some? then x.value else "undefined"
  }

  /** `part` occurs in `s` starting at index `i`. */
  predicate OccursAt(s: string, part: string, i: nat) {
    i + |part| <= |s| && s[i..i + |part|] == part
  }

  /** `s.includes(part)` on strings: `part` occurs somewhere in `s`. */
  function Includes(s: string, part: string): (b: bool)
    ensures b <==> exists i: nat :: OccursAt(s, part, i)
    decreases |s|
  {
    if |part| > |s| then
      false
    else if s[..|part|] == part then
      assert OccursAt(s, part, 0);
      true
    else
      OccursShift(s, part);
      Includes(s[1..], part)
  }

  /** When `part` does not start `s`, its occurrences in `s` are those in `s[1..]`, one place later. */
  lemma OccursShift(s: string, part: string)
    requires |s| > 0 && !OccursAt(s, part, 0)
    ensures (exists i: nat :: OccursAt(s, part, i)) <==> (exists i: nat :: OccursAt(s[1..], part, i))
  {
    if exists i: nat :: OccursAt(s, part, i) {
      var i: nat :| OccursAt(s, part, i);
      assert i > 0;
      assert s[1..][i - 1..i - 1 + |part|] == s[i..i + |part|];
      assert OccursAt(s[1..], part, i - 1);
    }
    if exists i: nat :: OccursAt(s[1..], part, i) {
      var i: nat :| OccursAt(s[1..], part, i);
      assert s[1..][i..i + |part|] == s[i + 1..i + 1 + |part|];
      assert OccursAt(s, part, i + 1);
    }
  }
}
