/**
 * The few JavaScript string primitives the request handler and the report
 * component rely on: `String.prototype.trim`, the regular-expression class
 * `\s`, the first element of `split(',')`, and the decimal rendering of a
 * non-negative integer in a template literal.
 */
module JsText {

  /**
   * A character of the WhiteSpace or LineTerminator productions of ECMA-262.
   * `trim` removes exactly these, and the regular-expression escape `\s`
   * matches exactly these.
   */
  predicate IsWhite(c: char) {
    c == '\t' || c == '\U{000B}' || c == '\U{000C}' || c == ' ' ||
    c == '\U{00A0}' || c == '\U{FEFF}' || c == '\U{1680}' ||
    ('\U{2000}' <= c <= '\U{200A}') || c == '\U{202F}' || c == '\U{205F}' ||
    c == '\U{3000}' ||
    c == '\n' || c == '\r' || c == '\U{2028}' || c == '\U{2029}'
  }

  /**
   * The code points of those productions: TAB, VT, FF, SP, NBSP and ZWNBSP,
   * the space separators of Unicode category Zs, and LF, CR, LS and PS.
   */
  const WhiteCodePoints: set<int> :=
    {0x09, 0x0B, 0x0C, 0x20, 0xA0, 0xFEFF} +
    {0x1680, 0x2000, 0x2001, 0x2002, 0x2003, 0x2004, 0x2005, 0x2006, 0x2007,
     0x2008, 0x2009, 0x200A, 0x202F, 0x205F, 0x3000} +
    {0x0A, 0x0D, 0x2028, 0x2029}

  /** The white-space class, read as a table of code points. */
  lemma WhiteClass(c: char)
    ensures IsWhite(c) <==> c as int in WhiteCodePoints
  {
  }

  predicate AllWhite(s: string) {
    forall i :: 0 <= i < |s| ==> IsWhite(s[i])
  }

  /** Neither the first nor the last character is white space. */
  predicate NoEdgeWhite(s: string) {
    s == [] || (!IsWhite(s[0]) && !IsWhite(s[|s| - 1]))
  }

  /** `s` occurs in `t` as a contiguous run of characters. */
  predicate IsInfix(s: string, t: string) {
    exists i, j :: 0 <= i <= j <= |t| && t[i..j] == s
  }

  /** The length of the white run that starts `s`. */
  function LeadingWhite(s: string): (n: nat)
    ensures n <= |s|
    ensures forall i :: 0 <= i < n ==> IsWhite(s[i])
    ensures n < |s| ==> !IsWhite(s[n])
  {
    if s != [] && IsWhite(s[0]) then 1 + LeadingWhite(s[1..]) else 0
  }

  /** The length of the white run that ends `s`. */
  function TrailingWhite(s: string): (n: nat)
    ensures n <= |s|
    ensures forall i :: |s| - n <= i < |s| ==> IsWhite(s[i])
    ensures n < |s| ==> !IsWhite(s[|s| - 1 - n])
  {
    if s != [] && IsWhite(s[|s| - 1]) then 1 + TrailingWhite(s[..|s| - 1]) else 0
  }

  /** `trimStart`: drops the white run at the start. */
  function TrimStart(s: string): string {
    s[LeadingWhite(s)..]
  }

  /** `trimEnd`: drops the white run at the end. */
  function TrimEnd(s: string): string {
    s[..|s| - TrailingWhite(s)]
  }

  /**
   * `String.prototype.trim`: the slice of `s` that starts after its leading
   * white run, with no white space at either end, and with nothing but
   * white space outside it.
   */
  function Trim(s: string): (r: string)
    ensures NoEdgeWhite(r)
    ensures LeadingWhite(s) + |r| <= |s|
    ensures r == s[LeadingWhite(s)..LeadingWhite(s) + |r|]
    ensures forall k :: 0 <= k < |s| && !(LeadingWhite(s) <= k < LeadingWhite(s) + |r|) ==> IsWhite(s[k])
  {
    var t := TrimStart(s);
    var n := LeadingWhite(s);
    assert forall k :: n <= k < |s| ==> s[k] == t[k - n];
    TrimEnd(t)
  }

  /** A white run at the start is no longer than the leading white run. */
  lemma WhitePrefixBound(t: string, j: nat)
    requires j <= |t| && forall i :: 0 <= i < j ==> IsWhite(t[i])
    ensures j <= LeadingWhite(t)
  {
  }

  /** A white run at the end is no longer than the trailing white run. */
  lemma WhiteSuffixBound(t: string, j: nat)
    requires j <= |t| && forall i :: |t| - j <= i < |t| ==> IsWhite(t[i])
    ensures j <= TrailingWhite(t)
  {
  }

  /** A slice is all white exactly when each position in its range is. */
  lemma WhiteSlice(s: string, a: nat, b: nat)
    requires a <= b <= |s|
    ensures AllWhite(s[a..b]) <==> forall i :: a <= i < b ==> IsWhite(s[i])
  {
    assert forall i :: a <= i < b ==> s[a..b][i - a] == s[i];
  }

  /** `trimStart` removes a white prefix and stops at the first other character. */
  lemma TrimStartPadded(a: string, x: string)
    requires AllWhite(a) && (x == [] || !IsWhite(x[0]))
    ensures TrimStart(a + x) == x
  {
    var s := a + x;
    assert forall i :: 0 <= i < |a| ==> s[i] == a[i];
    WhitePrefixBound(s, |a|);
    assert x != [] ==> s[|a|] == x[0];
    assert s[|a|..] == x;
  }

  /**
   * `trim` is determined by its result: whatever white padding surrounds a
   * string with no white space at its ends is exactly what `trim` removes.
   */
  lemma TrimOfPadded(a: string, m: string, b: string)
    requires AllWhite(a) && AllWhite(b) && NoEdgeWhite(m)
    ensures Trim(a + m + b) == m
  {
    var s := a + m + b;
    if m == [] {
      assert s == a + b;
      assert forall i :: 0 <= i < |s| ==> s[i] == if i < |a| then a[i] else b[i - |a|];
      TrimEmptyIffAllWhite(s);
    } else {
      assert (m + b)[0] == m[0];
      TrimStartPadded(a, m + b);
      assert s == a + (m + b);
      var t := m + b;
      forall i | |m| <= i < |t| ensures IsWhite(t[i]) {
        assert t[i] == b[i - |m|];
      }
      WhiteSuffixBound(t, |b|);
      assert t[|m| - 1] == m[|m| - 1];
      assert t[..|m|] == m;
    }
  }

  /** `trim` gives the empty string exactly for all-white input. */
  lemma TrimEmptyIffAllWhite(s: string)
    ensures Trim(s) == [] <==> AllWhite(s)
  {
  }

  /** What `trim` returns is a contiguous run of its argument. */
  lemma TrimIsInfix(s: string)
    ensures IsInfix(Trim(s), s)
  {
    var i := LeadingWhite(s);
    assert s[i..i + |Trim(s)|] == Trim(s);
  }

  /** Being a contiguous run is transitive. */
  lemma InfixTransitive(a: string, b: string, c: string)
    requires IsInfix(a, b) && IsInfix(b, c)
    ensures IsInfix(a, c)
  {
    var i, j :| 0 <= i <= j <= |b| && b[i..j] == a;
    var k, l :| 0 <= k <= l <= |c| && c[k..l] == b;
    forall n | 0 <= n < j - i
      ensures c[k + i..k + j][n] == a[n]
    {
      assert a[n] == b[i + n];
      assert b[i + n] == c[k..l][i + n];
    }
    assert c[k + i..k + j] == a;
  }

  /** A character absent from a string is absent from each of its runs. */
  lemma InfixExcludes(a: string, b: string, x: char)
    requires IsInfix(a, b) && x !in b
    ensures x !in a
  {
    var i, j :| 0 <= i <= j <= |b| && b[i..j] == a;
    assert forall n :: 0 <= n < |a| ==> a[n] == b[i + n];
  }

  /**
   * `s.split(',')[0]`: everything before the first comma, or the whole
   * string when it has none (so `''` for the empty string).
   */
  function FirstToken(s: string): (r: string)
    ensures |r| <= |s| && r == s[..|r|]
    ensures ',' !in r
    ensures |r| == |s| || s[|r|] == ','
  {
    if s == [] || s[0] == ',' then
      []
    else
      var r := FirstToken(s[1..]);
      assert [s[0]] + r == s[..|r| + 1];
      [s[0]] + r
  }

  /** The value of a string of decimal digits. */
  function DecimalValue(s: string): nat
    requires forall i :: 0 <= i < |s| ==> '0' <= s[i] <= '9'
  {
    if s == [] then 0
    else 10 * DecimalValue(s[..|s| - 1]) + (s[|s| - 1] as int - '0' as int)
  }

  /** The decimal digit for `d`. */
  function Digit(d: nat): char
    requires d < 10
  {
    ('0' as int + d) as char
  }

  /**
   * How a template literal renders a non-negative integer below 10^21 (from
   * there on JavaScript switches to exponent notation): its shortest
   * decimal form, which reads back as the same number. The only integer the
   * handler renders is its ceiling, 5.
   */
  function DecimalString(n: nat): (r: string)
    ensures |r| > 0 && forall i :: 0 <= i < |r| ==> '0' <= r[i] <= '9'
    ensures DecimalValue(r) == n
    ensures r[0] == '0' ==> n == 0
  {
    if n < 10 then [Digit(n)]
    else
      var r := DecimalString(n / 10) + [Digit(n % 10)];
      assert r[..|r| - 1] == DecimalString(n / 10);
      r
  }
}
