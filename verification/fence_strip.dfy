/**
 * The `trimmed` value the validation report renders: the generated text
 * with a leading ```` ```html ```` / ```` ```htm ```` fence (and the white
 * space after it) removed, one closing ```` ``` ```` at the very end
 * removed, and the rest trimmed.
 *
 * Each `replace` uses a regular expression with neither the `g` nor the
 * `m` flag, so each removes at most one match, `^` is the start of the
 * whole string and `$` its end; matching is case-sensitive.
 */
module FenceStrip {
  import opened JsText

  const Fence: string := "```"
  const OpenFence: string := "```htm"

  predicate StartsWith(s: string, p: string) {
    |p| <= |s| && s[..|p|] == p
  }

  predicate EndsWith(s: string, p: string) {
    |p| <= |s| && s[|s| - |p|..] == p
  }

  /**
   * `s[..n]` is a match of the pattern ^```html?\s* anchored at the start of `s`:
   * the fence and `htm`, an optional `l`, then only white space.
   */
  predicate OpenerMatch(s: string, n: nat) {
    6 <= n <= |s| && s[..6] == OpenFence &&
    (AllWhite(s[6..n]) || (7 <= n && s[6] == 'l' && AllWhite(s[7..n])))
  }

  /**
   * How many characters the first `replace` removes: none without the
   * fence; otherwise the fence, `htm`, the `l` when there is one, and the
   * white space run after them.
   */
  function OpenerLength(s: string): (n: nat)
    ensures n <= |s|
    ensures n != 0 <==> StartsWith(s, OpenFence)
  {
    if !StartsWith(s, OpenFence) then 0
    else
      var k := if |s| > 6 && s[6] == 'l' then 7 else 6;
      k + LeadingWhite(s[k..])
  }

  /**
   * What the first `replace` removes is the match the backtracking matcher
   * settles on: `l?` and `\s*` are greedy, so it is the longest match.
   */
  lemma OpenerIsLongestMatch(s: string)
    ensures OpenerLength(s) != 0 ==> OpenerMatch(s, OpenerLength(s))
    ensures forall m: nat :: OpenerMatch(s, m) ==> m <= OpenerLength(s)
  {
    if StartsWith(s, OpenFence) {
      var k := if |s| > 6 && s[6] == 'l' then 7 else 6;
      var n := OpenerLength(s);
      assert forall i :: k <= i < n ==> s[i] == s[k..][i - k];
      WhiteSlice(s, k, n);
      forall m: nat | OpenerMatch(s, m) ensures m <= n {
        NoLongerMatch(s, k, m);
      }
    }
  }

  /** No match reaches past the white space run that follows `htm` or `html`. */
  lemma NoLongerMatch(s: string, k: nat, m: nat)
    requires StartsWith(s, OpenFence) && OpenerMatch(s, m)
    requires k == if |s| > 6 && s[6] == 'l' then 7 else 6
    ensures m <= OpenerLength(s)
  {
    WhiteSlice(s, 6, m);
    if 7 <= m {
      WhiteSlice(s, 7, m);
    }
    if k < m {
      assert forall i :: 0 <= i < m - k ==> s[k..][i] == s[k + i];
      WhitePrefixBound(s[k..], m - k);
    }
  }

  // .replace(/^```html?\s*/, ''): what remains is a suffix of the text,
  // and the text changes exactly when it starts with the fence and `htm`.
  function StripOpener(s: string): (r: string)
    ensures EndsWith(s, r)
    ensures r == s <==> !StartsWith(s, OpenFence)
  {
    var n := OpenerLength(s);
    assert s[|s| - |s[n..]|..] == s[n..];
    s[n..]
  }

  /**
   * `.replace(/```$/, '')`: the only place three backticks can be followed
   * by the end of the string is the last three characters.
   */
  function StripCloser(s: string): (r: string)
    ensures r == s || (EndsWith(s, Fence) && r + Fence == s)
    ensures EndsWith(s, Fence) ==> |r| == |s| - 3
  {
    if EndsWith(s, Fence) then s[..|s| - 3] else s
  }

  /** The `trimmed` computation of the validation report. */
  function StripFences(s: string): (r: string)
    ensures NoEdgeWhite(r)
  {
    Trim(StripCloser(StripOpener(s)))
  }

  /**
   * What is left is one contiguous run of the text after the opening match
   * (`OpenerIsLongestMatch` says what that match is). Before the run there
   * is only white space; after it only white space and, when the text ended
   * with one, the closing fence.
   */
  lemma StripFencesShape(s: string)
    ensures var u := StripOpener(s);
            exists i, j :: 0 <= i <= j <= |u| && u[i..j] == StripFences(s) &&
              AllWhite(u[..i]) &&
              (AllWhite(u[j..]) || (j <= |u| - 3 && EndsWith(u, Fence) && AllWhite(u[j..|u| - 3])))
  {
    var u := StripOpener(s);
    var e := if EndsWith(u, Fence) then |u| - 3 else |u|;
    TrimInPrefix(u, e, StripCloser(u));
  }

  /** `trim` of a prefix `v` of `u`, located in `u`. */
  lemma TrimInPrefix(u: string, e: nat, v: string)
    requires e <= |u| && v == u[..e]
    ensures var i, j := LeadingWhite(v), LeadingWhite(v) + |Trim(v)|;
            j <= e && u[i..j] == Trim(v) && AllWhite(u[..i]) && AllWhite(u[j..e])
  {
    var r := Trim(v);
    var i, j := LeadingWhite(v), LeadingWhite(v) + |r|;
    PrefixSlice(u, e, v, i, j);
    PrefixSlice(u, e, v, 0, i);
    PrefixSlice(u, e, v, j, e);
    WhiteSlice(v, 0, i);
    WhiteSlice(v, j, e);
    assert u[..i] == u[0..i];
  }

  /** A slice inside the prefix `v == u[..e]` is the same slice of `u`. */
  lemma PrefixSlice(u: string, e: nat, v: string, a: nat, b: nat)
    requires e <= |u| && v == u[..e] && a <= b <= e
    ensures u[a..b] == v[a..b]
  {
  }

  /** The report text is always a contiguous run of the generated text. */
  lemma StripFencesIsInfix(s: string)
    ensures IsInfix(StripFences(s), s)
  {
    var u := StripOpener(s);
    var v := StripCloser(u);
    TrimIsInfix(v);
    PrefixIsInfix(v, u);
    InfixTransitive(StripFences(s), v, u);
    SuffixIsInfix(u, s);
    InfixTransitive(StripFences(s), u, s);
  }

  lemma PrefixIsInfix(v: string, u: string)
    requires StartsWith(u, v)
    ensures IsInfix(v, u)
  {
    assert u[0..|v|] == v;
  }

  lemma SuffixIsInfix(u: string, s: string)
    requires EndsWith(s, u)
    ensures IsInfix(u, s)
  {
    assert s[|s| - |u|..|s|] == u;
  }

  /**
   * After ```` ```html ````, or after ```` ```htm ```` not followed by `l`,
   * the first `replace` removes the fence, the tag and the white space run
   * that follows.
   */
  lemma OpenerRemoved(tag: string, rest: string)
    requires tag == "html" || (tag == "htm" && (rest == [] || rest[0] != 'l'))
    ensures StripOpener(Fence + tag + rest) == TrimStart(rest)
  {
    var s := Fence + tag + rest;
    var k := |Fence + tag|;
    assert (Fence + tag)[..6] == OpenFence;
    assert s[..6] == (Fence + tag)[..6];
    assert s[k..] == rest;
    assert k == if |s| > 6 && s[6] == 'l' then 7 else 6;
  }

  /** A closing fence at the very end is what the second `replace` removes. */
  lemma CloserRemoved(x: string)
    ensures StripCloser(x + Fence) == x
  {
    assert (x + Fence)[|x|..] == Fence;
    assert (x + Fence)[..|x|] == x;
  }

  /**
   * After an opening fence, its white space and the first other character,
   * only the closing fence and the final trim are left to act.
   */
  lemma OpenedBlock(tag: string, a: string, x: string)
    requires tag == "html" || tag == "htm"
    requires AllWhite(a) && (x == [] || !IsWhite(x[0]))
    requires tag == "htm" ==> a != [] || x == [] || x[0] != 'l'
    ensures StripFences(Fence + tag + a + x) == Trim(StripCloser(x))
  {
    assert Fence + tag + a + x == Fence + tag + (a + x);
    assert a != [] ==> (a + x)[0] == a[0];
    assert a == [] ==> a + x == x;
    OpenerRemoved(tag, a + x);
    TrimStartPadded(a, x);
  }

  /** Text wrapped between an opening `html` or `htm` fence and a closing fence comes back exactly. */
  lemma StripFencedBlock(a: string, m: string, b: string, tag: string)
    requires tag == "html" || tag == "htm"
    requires AllWhite(a) && AllWhite(b) && NoEdgeWhite(m)
    requires tag == "htm" ==> a != [] || m == [] || m[0] != 'l'
    ensures StripFences(Fence + tag + a + m + b + Fence) == m
  {
    if m == [] {
      assert Fence + tag + a + m + b + Fence == Fence + tag + (a + b) + Fence;
      assert AllWhite(a + b) by {
        assert forall i :: 0 <= i < |a + b| ==> (a + b)[i] == if i < |a| then a[i] else b[i - |a|];
      }
      OpenedBlock(tag, a + b, Fence);
      CloserRemoved([]);
      assert [] + Fence == Fence;
      TrimEmptyIffAllWhite([]);
    } else {
      assert Fence + tag + a + m + b + Fence == Fence + tag + a + (m + b + Fence);
      assert (m + b + Fence)[0] == m[0];
      OpenedBlock(tag, a, m + b + Fence);
      CloserRemoved(m + b);
      TrimOfPadded([], m, b);
      assert [] + m + b == m + b;
    }
  }

  /** Text that neither opens with the fence nor ends with one is only trimmed. */
  lemma NoFenceOnlyTrims(s: string)
    requires !StartsWith(s, OpenFence) && !EndsWith(s, Fence)
    ensures StripFences(s) == Trim(s)
  {
  }

  /** Only `htm` and `html`, in lower case, after the fence are removed. */
  lemma OtherOpenersKept(t: string)
    requires !StartsWith(t, "htm")
    ensures StripOpener(Fence + t) == Fence + t
    ensures StripOpener("```HTML" + t) == "```HTML" + t
  {
    var s, u := Fence + t, "```HTML" + t;
    if |t| >= 3 {
      assert s[..6][3..] == t[..3] && OpenFence[3..] == "htm";
    }
    assert !StartsWith(u, OpenFence) by {
      assert u[..6][3] == 'H' != OpenFence[3];
    }
    assert s[0..] == s && u[0..] == u;
  }

  /**
   * A fence followed by anything that does not itself end in a backtick,
   * even a single line break, stays; without an opener the text is then
   * only trimmed.
   */
  lemma CloserOnlyAtVeryEnd(x: string, y: string)
    requires y != [] && y[|y| - 1] != '`'
    ensures StripCloser(x + Fence + y) == x + Fence + y
    ensures !StartsWith(x + Fence + y, OpenFence) ==> StripFences(x + Fence + y) == Trim(x + Fence + y)
  {
    var s := x + Fence + y;
    assert s[|s| - 1] == y[|y| - 1];
    assert !EndsWith(s, Fence) by {
      assert s[|s| - 3..][2] == s[|s| - 1];
    }
  }

  /** Text with no white space at its ends and no backtick at the end is left as it is. */
  lemma PlainTail(x: string)
    requires x != [] && NoEdgeWhite(x) && x[|x| - 1] != '`'
    ensures Trim(StripCloser(x)) == x
  {
    assert !EndsWith(x, Fence) by {
      if |x| >= 3 {
        assert x[|x| - 3..][2] == x[|x| - 1];
      }
    }
    TrimOfPadded([], x, []);
    assert [] + x + [] == x;
  }

  /** An opened block whose text does not end in a backtick comes back exactly. */
  lemma UnclosedBlock(x: string)
    requires x != [] && NoEdgeWhite(x) && x[|x| - 1] != '`'
    ensures StripFences(Fence + "html" + x) == x
  {
    assert Fence + "html" + [] + x == Fence + "html" + x;
    OpenedBlock("html", [], x);
    PlainTail(x);
  }

  /**
   * Each `replace` fires at most once, so stripping is not idempotent: a
   * doubled opening fence loses one copy per pass.
   */
  lemma NotIdempotent(x: string)
    requires x != [] && NoEdgeWhite(x) && x[|x| - 1] != '`'
    ensures StripFences(Fence + "html" + Fence + "html" + x) == Fence + "html" + x
    ensures StripFences(Fence + "html" + x) == x
  {
    var m := Fence + "html" + x;
    assert Fence + "html" + Fence + "html" + x == Fence + "html" + m;
    assert m[0] == '`' && m[|m| - 1] == x[|x| - 1];
    UnclosedBlock(m);
    UnclosedBlock(x);
  }
}
