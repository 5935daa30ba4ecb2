/**
 * The few JavaScript value and string operations the server relies on:
 * optional strings (a value that may be `undefined`), truthiness and the
 * `||` operator on them, `String.prototype.trim`, `startsWith` and `split`
 * with a non-empty string separator.
 */
module Js {

  /** A JavaScript value that is either `undefined` or a string. */
  datatype Option<+T> = None | Some(value: T)

  /** `!!v` for `undefined` or a string: only a non-empty string is truthy. */
  predicate Truthy(v: Option<string>) {
    v.Some? && v.value != ""
  }

  /** `a || b`: the first operand when it is truthy, otherwise the second. */
  function Or(a: Option<string>, b: Option<string>): (r: Option<string>)
    ensures Truthy(r) <==> Truthy(a) || Truthy(b)
    ensures Truthy(a) ==> r == a
    ensures !Truthy(a) ==> r == b
  {
    if Truthy(a) then a else b
  }

  /** `a || d` where the default `d` is a string literal. */
  function OrDefault(a: Option<string>, d: string): (r: string)
    ensures Truthy(a) ==> r == a.value
    ensures !Truthy(a) ==> r == d
    ensures d != "" ==> r != ""
  {
    if Truthy(a) then a.value else d
  }

  // ---------------------------------------------------------------------
  // Whitespace and trim
  // ---------------------------------------------------------------------

  /**
   * ECMAScript WhiteSpace and LineTerminator code points, the characters
   * `trim` removes: TAB, VT, FF, SP, NBSP, ZWNBSP, the Unicode space
   * separators (Zs) and LF, CR, LS, PS.
   */
  predicate IsSpace(c: char) {
    var n := c as int;
    n == 0x09 || n == 0x0A || n == 0x0B || n == 0x0C || n == 0x0D || n == 0x20
    || n == 0xA0 || n == 0x1680 || (0x2000 <= n <= 0x200A) || n == 0x2028
    || n == 0x2029 || n == 0x202F || n == 0x205F || n == 0x3000 || n == 0xFEFF
  }

  predicate AllSpace(s: string) {
    forall i :: 0 <= i < |s| ==> IsSpace(s[i])
  }

  /** No whitespace at either end. */
  predicate IsTrimmed(s: string) {
    s == [] || (!IsSpace(s[0]) && !IsSpace(s[|s| - 1]))
  }

  /** The end of the whitespace run that starts at index `i`. */
  function SkipSpaces(s: string, i: nat): (n: nat)
    requires i <= |s|
    ensures i <= n <= |s|
    ensures forall j :: i <= j < n ==> IsSpace(s[j])
    ensures n == |s| || !IsSpace(s[n])
    decreases |s| - i
  {
    if i < |s| && IsSpace(s[i]) then SkipSpaces(s, i + 1) else i
  }

  /** The start of the whitespace run that ends at index `j`, going back no further than `lo`. */
  function BackSpaces(s: string, lo: nat, j: nat): (n: nat)
    requires lo <= j <= |s|
    ensures lo <= n <= j
    ensures forall m :: n <= m < j ==> IsSpace(s[m])
    ensures n == lo || !IsSpace(s[n - 1])
    decreases j
  {
    if lo < j && IsSpace(s[j - 1]) then BackSpaces(s, lo, j - 1) else j
  }

  /**
   * `s.trim()`: the slice of `s` left after its leading and trailing
   * whitespace. It starts where the leading run ends, and everything
   * before and after it is whitespace.
   */
  function Trim(s: string): (r: string)
    ensures IsTrimmed(r)
    ensures r == [] <==> AllSpace(s)
    ensures IsTrimmed(s) ==> r == s
    ensures SkipSpaces(s, 0) + |r| <= |s| && r == s[SkipSpaces(s, 0)..SkipSpaces(s, 0) + |r|]
    ensures forall i :: 0 <= i < SkipSpaces(s, 0) ==> IsSpace(s[i])
    ensures forall i :: SkipSpaces(s, 0) + |r| <= i < |s| ==> IsSpace(s[i])
  {
    var a := SkipSpaces(s, 0);
    var b := BackSpaces(s, a, |s|);
    if a == b then
      assert AllSpace(s) by {
        forall i | 0 <= i < |s| ensures IsSpace(s[i]) {
          assert i < a;
        }
      }
      s[a..b]
    else
      assert s[a..b][0] == s[a];
      assert s[a..b][b - a - 1] == s[b - 1];
      assert !IsSpace(s[a]);
      assert IsTrimmed(s) ==> a == 0 && b == |s|;
      assert s[0..|s|] == s;
      s[a..b]
  }

  // ---------------------------------------------------------------------
  // Occurrences, startsWith, split
  // ---------------------------------------------------------------------

  /** `pat` occurs in `s` starting at index `k`. */
  predicate OccursAt(s: string, pat: string, k: nat) {
    k + |pat| <= |s| && s[k..k + |pat|] == pat
  }

  /** `pat` occurs nowhere in `s`. */
  predicate Free(s: string, pat: string) {
    forall k: nat :: k <= |s| ==> !OccursAt(s, pat, k)
  }

  /** `s.includes(pat)`. */
  predicate Contains(s: string, pat: string) {
    exists k: nat :: k <= |s| && OccursAt(s, pat, k)
  }

  /** An occurrence inside an occurrence is an occurrence. */
  lemma ContainsTransitive(s: string, t: string, u: string)
    requires Contains(s, t) && Contains(t, u)
    ensures Contains(s, u)
  {
    var i: nat :| i <= |s| && OccursAt(s, t, i);
    var j: nat :| j <= |t| && OccursAt(t, u, j);
    forall k | 0 <= k < |u| ensures s[i + j + k] == u[k] {
      assert u[k] == t[j..j + |u|][k] == t[j + k];
      assert t[j + k] == s[i..i + |t|][j + k];
    }
    assert s[i + j..i + j + |u|] == u;
    assert OccursAt(s, u, i + j);
  }

  /** A string ends with, so contains, its last part. */
  lemma ContainsEnd(a: string, x: string)
    ensures Contains(a + x, x)
  {
    assert (a + x)[|a|..|a| + |x|] == x;
    assert OccursAt(a + x, x, |a|);
  }

  /** Appending to a string keeps what it contains. */
  lemma ContainsExtend(a: string, b: string, x: string)
    requires Contains(a, x)
    ensures Contains(a + b, x)
  {
    var k: nat :| k <= |a| && OccursAt(a, x, k);
    assert (a + b)[k..k + |x|] == a[k..k + |x|];
    assert OccursAt(a + b, x, k);
  }

  /** `s.startsWith(pat)`. */
  predicate StartsWith(s: string, pat: string) {
    OccursAt(s, pat, 0)
  }

  /** The index of the first occurrence of a non-empty `pat` in `s`, if any. */
  function IndexOf(s: string, pat: string): (r: Option<nat>)
    requires |pat| > 0
    ensures r.Some? ==> OccursAt(s, pat, r.value)
    ensures forall k: nat :: (r.None? || k < r.value) ==> !OccursAt(s, pat, k)
    decreases |s|
  {
    if |s| < |pat| then None
    else if s[..|pat|] == pat then Some(0)
    else
      var rest := IndexOf(s[1..], pat);
      forall k: nat | 1 <= k && OccursAt(s, pat, k) ensures OccursAt(s[1..], pat, k - 1) {
        assert s[1..][k - 1..k - 1 + |pat|] == s[k..k + |pat|];
      }
      if rest.None? then None
      else
        assert s[1..][rest.value..rest.value + |pat|] == s[rest.value + 1..rest.value + 1 + |pat|];
        Some(rest.value + 1)
  }

  /** `parts.join(sep)`. */
  function Join(parts: seq<string>, sep: string): string
    decreases |parts|
  {
    if |parts| == 0 then ""
    else if |parts| == 1 then parts[0]
    else parts[0] + sep + Join(parts[1..], sep)
  }

  /**
   * `s.split(sep)` for a non-empty separator: the pieces between successive
   * non-overlapping occurrences of `sep`, scanned left to right. Joining the
   * pieces with `sep` gives back `s`, and no piece contains `sep`.
   */
  function Split(s: string, sep: string): (r: seq<string>)
    requires |sep| > 0
    ensures |r| >= 1
    ensures Join(r, sep) == s
    ensures forall i :: 0 <= i < |r| ==> Free(r[i], sep)
    ensures forall k: nat :: k < |r[0]| ==> !OccursAt(s, sep, k)
    decreases |s|
  {
    match IndexOf(s, sep)
    case None =>
      [s]
    case Some(i) =>
      var head := s[..i];
      var tail := Split(s[i + |sep|..], sep);
      FreeBefore(s, sep, i);
      assert s == head + sep + s[i + |sep|..];
      [head] + tail
  }

  /** A prefix that ends before the first occurrence of `sep` does not contain `sep`. */
  lemma FreeBefore(s: string, sep: string, i: nat)
    requires |sep| > 0 && i <= |s|
    requires forall k: nat :: k < i ==> !OccursAt(s, sep, k)
    ensures Free(s[..i], sep)
  {
    forall k: nat | OccursAt(s[..i], sep, k) ensures false {
      assert s[..i][k..k + |sep|] == s[k..k + |sep|];
      assert OccursAt(s, sep, k);
    }
  }

  /**
   * `s.split(sep)[0]`: the text before the first occurrence of `sep`, or all
   * of `s`, as the only piece, when there is none.
   */
  lemma FirstPiece(s: string, sep: string)
    requires |sep| > 0
    ensures var r := Split(s, sep); var p := r[0];
      && |p| <= |s| && p == s[..|p|] && Free(p, sep)
      && (forall k: nat :: k < |p| ==> !OccursAt(s, sep, k))
      && (|r| == 1 ==> p == s && Free(s, sep))
      && (|r| > 1 ==> OccursAt(s, sep, |p|))
  {
    if IndexOf(s, sep).None? {
      assert Split(s, sep) == [s];
    }
  }

  /** After the first piece and the separator that ends it, `split` goes on with the rest of the string. */
  lemma SplitRest(s: string, sep: string)
    requires |sep| > 0
    ensures var r := Split(s, sep);
      |r| > 1 ==> |r[0]| + |sep| <= |s| && r[1..] == Split(s[|r[0]| + |sep|..], sep)
  {
    match IndexOf(s, sep)
    case None =>
      assert Split(s, sep) == [s];
    case Some(i) =>
      var tail := Split(s[i + |sep|..], sep);
      assert Split(s, sep) == [s[..i]] + tail;
      assert (Split(s, sep))[1..] == tail;
  }

  /** A string without the separator splits into itself alone. */
  lemma SplitFree(s: string, sep: string)
    requires |sep| > 0 && Free(s, sep)
    ensures Split(s, sep) == [s]
  {
  }
}
