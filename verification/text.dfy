/** Text helpers the decision reasons are built from: ASCII case mapping,
    Python's `str.capitalize`, and substring occurrence. */
module Text {

  predicate IsUpper(c: char) {
    'A' <= c <= 'Z'
  }

  predicate IsLower(c: char) {
    'a' <= c <= 'z'
  }

  /** True when `s` has at least one upper-case ASCII letter. */
  predicate HasUpper(s: string) {
    exists i :: 0 <= i < |s| && IsUpper(s[i])
  }

  /** Two characters are the same letter up to case, or the same character. */
  predicate SameIgnoringCase(a: char, b: char) {
    a == b || (IsLower(a) && IsUpper(b) && a as int - b as int == 32)
    || (IsUpper(a) && IsLower(b) && b as int - a as int == 32)
  }

  function ToUpper(c: char): (r: char)
    ensures !IsLower(r)
    ensures SameIgnoringCase(c, r)
    ensures !IsLower(c) ==> r == c
  {
    if IsLower(c) then (c as int - 32) as char else c
  }

  function ToLower(c: char): (r: char)
    ensures !IsUpper(r)
    ensures SameIgnoringCase(c, r)
    ensures !IsUpper(c) ==> r == c
  {
    if IsUpper(c) then (c as int + 32) as char else c
  }

  function LowerAll(s: string): (r: string)
    ensures |r| == |s|
    ensures forall i :: 0 <= i < |s| ==> SameIgnoringCase(s[i], r[i]) && !IsUpper(r[i])
    decreases |s|
  {
    if |s| == 0 then "" else [ToLower(s[0])] + LowerAll(s[1..])
  }

  /** Python's `str.capitalize` on ASCII text: the first character in upper
      case and every other character in lower case; characters that are not
      letters are kept. */
  function Capitalize(s: string): (r: string)
    ensures |r| == |s|
    ensures forall i :: 0 <= i < |s| ==> SameIgnoringCase(s[i], r[i])
    ensures |r| > 0 ==> !IsLower(r[0])
    ensures forall i :: 0 < i < |r| ==> !IsUpper(r[i])
  {
    if |s| == 0 then "" else [ToUpper(s[0])] + LowerAll(s[1..])
  }

  /** `sub` occurs in `s` starting at index `i`. */
  predicate OccursAt(s: string, sub: string, i: int) {
    0 <= i && i + |sub| <= |s| && s[i..i + |sub|] == sub
  }

  /** Python's `sub in s`. */
  predicate Contains(s: string, sub: string) {
    exists i | 0 <= i <= |s| :: OccursAt(s, sub, i)
  }

  /** A string occurs inside any text it is concatenated into. */
  lemma ContainsInfix(a: string, b: string, c: string)
    ensures Contains(a + b + c, b)
  {
    var s := a + b + c;
    assert s[|a|..|a| + |b|] == b;
    assert OccursAt(s, b, |a|);
  }

  /** Text framed by the same head and tail on both sides is equal. */
  lemma MiddleCancel(head: string, x: string, y: string, tail: string)
    requires head + x + tail == head + y + tail
    ensures x == y
  {
    var a := head + x + tail;
    var b := head + y + tail;
    assert |x| == |y|;
    assert x == a[|head|..|head| + |x|];
    assert y == b[|head|..|head| + |y|];
  }
}
