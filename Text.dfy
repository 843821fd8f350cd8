/**
 * The text normaliser `cleanString` of scraper.py: an optional `str.strip()`
 * followed by `re.sub(r'[\s\u200b]+', ' ', ...)`, which replaces every maximal
 * run of whitespace or zero-width spaces by one ASCII space.
 */
module Text {

  const ZeroWidthSpace: char := '\U{200B}'

  /**
   * Python's whitespace class, shared by `str.strip()` and by `\s` in a
   * `str` pattern. The proofs below use only that ' ' and '\n' belong to it and that
   * U+200B does not.
   */
  predicate IsSpace(c: char) {
    c == ' ' || ('\t' <= c <= '\r') || ('\U{1C}' <= c <= '\U{1F}')
    || c == '\U{85}' || c == '\U{A0}' || c == '\U{1680}'
    || ('\U{2000}' <= c <= '\U{200A}') || c == '\U{2028}' || c == '\U{2029}'
    || c == '\U{202F}' || c == '\U{205F}' || c == '\U{3000}'
  }

  /** The character class `[\s\u200b]` of the substitution. */
  predicate IsRunChar(c: char) {
    IsSpace(c) || c == ZeroWidthSpace
  }

  predicate AllSpace(s: string) {
    forall i :: 0 <= i < |s| ==> IsSpace(s[i])
  }

  /** `str.lstrip()`: drops the longest prefix of whitespace. */
  function StripLeft(s: string): (r: string)
    ensures |r| <= |s| && r == s[|s| - |r|..]
    ensures AllSpace(s[..|s| - |r|])
    ensures r != [] ==> !IsSpace(r[0])
  {
    if s != [] && IsSpace(s[0]) then
      var r := StripLeft(s[1..]);
      assert s[..|s| - |r|] == [s[0]] + s[1..][..|s| - 1 - |r|];
      r
    else s
  }

  /** `str.rstrip()`: drops the longest suffix of whitespace. */
  function StripRight(s: string): (r: string)
    ensures |r| <= |s| && r == s[..|r|]
    ensures AllSpace(s[|r|..])
    ensures r != [] ==> !IsSpace(r[|r| - 1])
  {
    if s != [] && IsSpace(s[|s| - 1]) then
      var p := s[..|s| - 1];
      var r := StripRight(p);
      assert s[|r|..] == p[|r|..] + [s[|s| - 1]];
      r
    else s
  }

  /** `str.strip()`. */
  function Strip(s: string): (r: string)
    ensures |r| <= |s|
    ensures r != [] ==> !IsSpace(r[0]) && !IsSpace(r[|r| - 1])
  {
    var l := StripLeft(s);
    var r := StripRight(l);
    assert r != [] ==> r[0] == l[0];
    r
  }

  /** What `strip()` removes is whitespace at the two ends, and nothing else. */
  lemma StripTrims(s: string)
    ensures exists i, j :: 0 <= i <= j <= |s| && Strip(s) == s[i..j]
                           && AllSpace(s[..i]) && AllSpace(s[j..])
  {
    var l := StripLeft(s);
    var i := |s| - |l|;
    var j := i + |Strip(s)|;
    assert Strip(s) == l[..|Strip(s)|];
    assert l == s[i..];
    assert Strip(s) == s[i..j];
    assert s[j..] == l[|Strip(s)|..];
  }

  /** A string with no whitespace at either end is left alone by `strip()`. */
  lemma StripTrimmed(s: string)
    requires s == [] || (!IsSpace(s[0]) && !IsSpace(s[|s| - 1]))
    ensures Strip(s) == s
  {
  }

  lemma StripShrinks(s: string)
    requires s != [] && (IsSpace(s[0]) || IsSpace(s[|s| - 1]))
    ensures |Strip(s)| < |s|
  {
    var l := StripLeft(s);
    if !IsSpace(s[0]) {
      assert l == s;
      assert IsSpace(l[|l| - 1]);
    }
  }

  /** Drops the maximal run of `[\s\u200b]` characters at the front of `s`. */
  function SkipRun(s: string): (r: string)
    ensures |r| <= |s|
    ensures s != [] && IsRunChar(s[0]) ==> |r| < |s|
    ensures forall i :: 0 <= i < |s| - |r| ==> IsRunChar(s[i])
    ensures r != [] ==> !IsRunChar(r[0])
  {
    if s != [] && IsRunChar(s[0]) then SkipRun(s[1..]) else s
  }

  /** What SkipRun leaves is a suffix of its argument. */
  lemma {:induction false} SkipRunSuffix(s: string)
    ensures SkipRun(s) == s[|s| - |SkipRun(s)|..]
  {
    if s != [] && IsRunChar(s[0]) {
      SkipRunSuffix(s[1..]);
    }
  }

  /**
   * The normal form the substitution produces: its only whitespace or
   * zero-width character is ' ', and it never has two spaces in a row.
   */
  predicate Normal(s: string) {
    && (forall i :: 0 <= i < |s| && IsRunChar(s[i]) ==> s[i] == ' ')
    && (forall i :: 0 <= i < |s| - 1 ==> !(s[i] == ' ' && s[i + 1] == ' '))
  }

  /** `re.sub(r'[\s\u200b]+', ' ', s)`. */
  function Collapse(s: string): (r: string)
    decreases |s|
    ensures |r| <= |s|
    ensures (r == []) == (s == [])
    ensures r != [] ==> (IsRunChar(r[0]) <==> IsRunChar(s[0]))
    ensures r != [] ==> (IsRunChar(r[|r| - 1]) <==> IsRunChar(s[|s| - 1]))
    ensures Normal(r)
  {
    if s == [] then []
    else if IsRunChar(s[0]) then SkipRunSuffix(s); [' '] + Collapse(SkipRun(s))
    else [s[0]] + Collapse(s[1..])
  }

  /** The characters of `s` that are neither whitespace nor U+200B, in order. */
  function Visible(s: string): (r: string)
    ensures forall i :: 0 <= i < |r| ==> !IsRunChar(r[i])
  {
    if s == [] then []
    else if IsRunChar(s[0]) then Visible(s[1..])
    else [s[0]] + Visible(s[1..])
  }

  lemma {:induction false} VisibleAppend(a: string, b: string)
    ensures Visible(a + b) == Visible(a) + Visible(b)
  {
    if a == [] {
      assert a + b == b;
    } else {
      assert (a + b)[0] == a[0];
      assert (a + b)[1..] == a[1..] + b;
      VisibleAppend(a[1..], b);
    }
  }

  lemma {:induction false} VisibleOfRun(s: string)
    requires forall i :: 0 <= i < |s| ==> IsRunChar(s[i])
    ensures Visible(s) == []
  {
    if s != [] {
      VisibleOfRun(s[1..]);
    }
  }

  /** Every visible character of the input survives the substitution, in order. */
  lemma {:induction false} CollapseKeepsVisible(s: string)
    ensures Visible(Collapse(s)) == Visible(s)
    decreases |s|
  {
    if s != [] {
      if IsRunChar(s[0]) {
        var t := SkipRun(s);
        var k := |s| - |t|;
        SkipRunSuffix(s);
        assert s == s[..k] + t;
        VisibleAppend(s[..k], t);
        VisibleOfRun(s[..k]);
        VisibleAppend([' '], Collapse(t));
        CollapseKeepsVisible(t);
      } else {
        VisibleAppend([s[0]], Collapse(s[1..]));
        CollapseKeepsVisible(s[1..]);
      }
    }
  }

  /** A non-empty run of whitespace and zero-width spaces becomes one space. */
  lemma CollapseOfRun(s: string)
    requires s != []
    requires forall i :: 0 <= i < |s| ==> IsRunChar(s[i])
    ensures Collapse(s) == [' ']
  {
    SkipRunSuffix(s);
    assert SkipRun(s) == [];
  }

  lemma {:induction false} SkipRunAppend(a: string, b: string)
    requires b != [] && !IsRunChar(b[0])
    ensures SkipRun(a + b) == SkipRun(a) + b
  {
    if a != [] && IsRunChar(a[0]) {
      assert (a + b)[1..] == a[1..] + b;
      SkipRunAppend(a[1..], b);
    } else if a == [] {
      assert a + b == b;
    }
  }

  /**
   * The substitution works independently on either side of a visible
   * character. With CollapseOfRun this fixes Collapse on every string.
   */
  lemma {:induction false} CollapseSplit(a: string, c: char, b: string)
    requires !IsRunChar(c)
    ensures Collapse(a + [c] + b) == Collapse(a) + [c] + Collapse(b)
    decreases |a|
  {
    if a == [] {
      assert a + [c] + b == [c] + b;
      assert ([c] + b)[1..] == b;
    } else {
      var h, t := if IsRunChar(a[0]) then ' ' else a[0], if IsRunChar(a[0]) then SkipRun(a) else a[1..];
      CollapseStep(a, c, b);
      CollapseSplit(t, c, b);
      ConsAssoc(h, Collapse(t), c, Collapse(b));
    }
  }

  /** One step of the substitution, on `a` and on `a + [c] + b`. */
  lemma CollapseStep(a: string, c: char, b: string)
    requires !IsRunChar(c) && a != []
    ensures IsRunChar(a[0]) ==> |SkipRun(a)| < |a|
    ensures IsRunChar(a[0]) ==> Collapse(a) == [' '] + Collapse(SkipRun(a))
    ensures IsRunChar(a[0]) ==> Collapse(a + [c] + b) == [' '] + Collapse(SkipRun(a) + [c] + b)
    ensures !IsRunChar(a[0]) ==> Collapse(a) == [a[0]] + Collapse(a[1..])
    ensures !IsRunChar(a[0]) ==> Collapse(a + [c] + b) == [a[0]] + Collapse(a[1..] + [c] + b)
  {
    if IsRunChar(a[0]) {
      CollapseSplitAtRun(a, c, b);
    } else {
      CollapseSplitAtVisible(a, c, b);
    }
  }

  lemma ConsAssoc(h: char, x: string, c: char, y: string)
    ensures [h] + (x + [c] + y) == ([h] + x) + [c] + y
  {
  }

  lemma CollapseSplitAtRun(a: string, c: char, b: string)
    requires !IsRunChar(c) && a != [] && IsRunChar(a[0])
    ensures Collapse(a + [c] + b) == [' '] + Collapse(SkipRun(a) + [c] + b)
  {
    var s := a + ([c] + b);
    assert s == a + [c] + b;
    assert s != [] && IsRunChar(s[0]);
    SkipRunAppend(a, [c] + b);
    assert SkipRun(a) + ([c] + b) == SkipRun(a) + [c] + b;
  }

  lemma CollapseSplitAtVisible(a: string, c: char, b: string)
    requires a != [] && !IsRunChar(a[0])
    ensures Collapse(a + [c] + b) == [a[0]] + Collapse(a[1..] + [c] + b)
  {
    var s := a + [c] + b;
    assert s[0] == a[0];
    assert s[1..] == a[1..] + [c] + b;
  }

  /** The strings the substitution leaves unchanged are exactly the normal ones. */
  lemma {:induction false} CollapseFixpoint(s: string)
    ensures Collapse(s) == s <==> Normal(s)
    decreases |s|
  {
    if s != [] && Normal(s) {
      var t := s[1..];
      assert Normal(t) by {
        assert forall i :: 0 <= i < |t| ==> t[i] == s[i + 1];
      }
      CollapseFixpoint(t);
      if IsRunChar(s[0]) {
        assert t != [] ==> !IsRunChar(t[0]) by {
          if t != [] {
            assert s[0] == ' ' && t[0] == s[1];
          }
        }
        assert SkipRun(t) == t;
        assert Collapse(s) == [' '] + Collapse(t);
      } else {
        assert Collapse(s) == [s[0]] + Collapse(t);
      }
    }
  }

  /** `cleanString(string, strip)`. */
  function CleanString(s: string, strip: bool): (r: string)
    ensures Normal(r)
    ensures Visible(r) == Visible(s)
    ensures |r| <= |s|
  {
    var t := if strip then Strip(s) else s;
    StripKeepsVisible(s);
    CollapseKeepsVisible(t);
    Collapse(t)
  }

  lemma StripKeepsVisible(s: string)
    ensures Visible(Strip(s)) == Visible(s)
  {
    StripLeftKeepsVisible(s);
    StripRightKeepsVisible(StripLeft(s));
  }

  lemma StripLeftKeepsVisible(s: string)
    ensures Visible(StripLeft(s)) == Visible(s)
  {
    var l := StripLeft(s);
    var front := s[..|s| - |l|];
    assert s == front + l;
    forall i | 0 <= i < |front|
      ensures IsRunChar(front[i])
    {
      assert IsSpace(front[i]);
    }
    VisibleOfRun(front);
    VisibleAppend(front, l);
  }

  lemma StripRightKeepsVisible(s: string)
    ensures Visible(StripRight(s)) == Visible(s)
  {
    var r := StripRight(s);
    assert s == r + s[|r|..];
    VisibleAppend(r, s[|r|..]);
    assert forall i :: 0 <= i < |s| - |r| ==> IsRunChar(s[|r|..][i]);
    VisibleOfRun(s[|r|..]);
  }

  /** Without stripping, cleaning twice is cleaning once. */
  lemma CleanIdempotent(s: string)
    ensures CleanString(CleanString(s, false), false) == CleanString(s, false)
  {
    CollapseFixpoint(CleanString(s, false));
  }

  /** The ends of a stripped string that `strip()` keeps but the substitution turns into spaces. */
  predicate EdgesNotZeroWidth(t: string) {
    t == [] || (t[0] != ZeroWidthSpace && t[|t| - 1] != ZeroWidthSpace)
  }

  /**
   * With stripping, cleaning twice is cleaning once exactly when the stripped
   * input neither starts nor ends with U+200B: `strip()` keeps such a
   * character and the substitution then turns it into a space at the border.
   */
  lemma CleanStripIdempotentIff(s: string)
    ensures CleanString(CleanString(s, true), true) == CleanString(s, true)
            <==> EdgesNotZeroWidth(Strip(s))
  {
    var t := Strip(s);
    var r := Collapse(t);
    assert r == CleanString(s, true);
    if EdgesNotZeroWidth(t) {
      if r != [] {
        assert !IsRunChar(t[0]) && !IsRunChar(t[|t| - 1]);
        assert !IsSpace(r[0]) && !IsSpace(r[|r| - 1]);
      }
      StripTrimmed(r);
      CollapseFixpoint(r);
    } else {
      assert r != [];
      assert IsSpace(r[0]) || IsSpace(r[|r| - 1]) by {
        if t[0] == ZeroWidthSpace {
          assert IsRunChar(r[0]);
          assert r[0] == ' ';
        } else {
          assert IsRunChar(r[|r| - 1]);
          assert r[|r| - 1] == ' ';
        }
      }
      StripShrinks(r);
      var u := Strip(r);
      assert |Collapse(u)| <= |u|;
    }
  }

  /**
   * Mixed whitespace and zero-width spaces collapse to single spaces and the
   * ends are trimmed: `cleanString(" A\u200b  B\n C ")` is `"A B C"`, for any
   * visible characters in place of A, B and C.
   */
  lemma CleanMixedExample(a: char, b: char, c: char)
    requires !IsRunChar(a) && !IsRunChar(b) && !IsRunChar(c)
    ensures Collapse(Strip([' ', a, ZeroWidthSpace, ' ', ' ', b, '\n', ' ', c, ' '])) == [a, ' ', b, ' ', c]
  {
    var zw, nl := [ZeroWidthSpace, ' ', ' '], ['\n', ' '];
    var tail := nl + [c] + [];
    assert tail == ['\n', ' ', c];
    var bc := zw + [b] + tail;
    assert bc == [ZeroWidthSpace, ' ', ' ', b, '\n', ' ', c];
    assert [a, ZeroWidthSpace, ' ', ' ', b, '\n', ' ', c] == [] + [a] + bc;
    StripMixedExample(a, b, c);
    CollapseMixedExample(a, b, c, zw, nl);
  }

  lemma StripMixedExample(a: char, b: char, c: char)
    requires !IsRunChar(a) && !IsRunChar(b) && !IsRunChar(c)
    ensures Strip([' ', a, ZeroWidthSpace, ' ', ' ', b, '\n', ' ', c, ' '])
            == [a, ZeroWidthSpace, ' ', ' ', b, '\n', ' ', c]
  {
    var s := [' ', a, ZeroWidthSpace, ' ', ' ', b, '\n', ' ', c, ' '];
    var t := [a, ZeroWidthSpace, ' ', ' ', b, '\n', ' ', c];
    assert StripLeft(s) == s[1..];
    assert s[1..] == t + [' '];
    assert (t + [' '])[..|t|] == t;
    assert StripRight(t + [' ']) == t;
  }

  lemma CollapseMixedExample(a: char, b: char, c: char, zw: string, nl: string)
    requires !IsRunChar(a) && !IsRunChar(b) && !IsRunChar(c)
    requires zw == [ZeroWidthSpace, ' ', ' '] && nl == ['\n', ' ']
    ensures Collapse([] + [a] + (zw + [b] + (nl + [c] + []))) == [a, ' ', b, ' ', c]
  {
    var bc := zw + [b] + (nl + [c] + []);
    CollapseMixedTail(b, c, zw, nl);
    CollapseSplit([], a, bc);
  }

  lemma CollapseMixedTail(b: char, c: char, zw: string, nl: string)
    requires !IsRunChar(b) && !IsRunChar(c)
    requires zw == [ZeroWidthSpace, ' ', ' '] && nl == ['\n', ' ']
    ensures Collapse(zw + [b] + (nl + [c] + [])) == [' ', b, ' ', c]
  {
    CollapseMixedLast(c, nl);
    CollapseOfRun(zw);
    CollapseSplit(zw, b, nl + [c] + []);
  }

  lemma CollapseMixedLast(c: char, nl: string)
    requires !IsRunChar(c) && nl == ['\n', ' ']
    ensures Collapse(nl + [c] + []) == [' ', c]
  {
    CollapseOfRun(nl);
    CollapseSplit(nl, c, []);
  }

  /**
   * `strip()` keeps a leading U+200B, which the substitution then turns into
   * a space: `cleanString("\u200bA")` is `" A"`.
   */
  lemma ZeroWidthEdgeFirst(c: char)
    requires !IsRunChar(c)
    ensures Collapse(Strip([ZeroWidthSpace, c])) == [' ', c]
  {
    StripZeroWidthThen(c);
    CollapseZeroWidthThen(c);
  }

  lemma StripZeroWidthThen(c: char)
    requires !IsRunChar(c)
    ensures Strip([ZeroWidthSpace, c]) == [ZeroWidthSpace, c]
  {
    StripTrimmed([ZeroWidthSpace, c]);
  }

  lemma CollapseZeroWidthThen(c: char)
    requires !IsRunChar(c)
    ensures Collapse([ZeroWidthSpace, c]) == [' ', c]
  {
    assert [ZeroWidthSpace, c] == [ZeroWidthSpace] + [c] + [];
    CollapseOfRun([ZeroWidthSpace]);
    CollapseSplit([ZeroWidthSpace], c, []);
  }

  /** Cleaning `" A"` once more gives `"A"`. */
  lemma ZeroWidthEdgeSecond(c: char)
    requires !IsRunChar(c)
    ensures Collapse(Strip([' ', c])) == [c]
  {
    var s := [' ', c];
    assert StripLeft(s) == [c] by {
      assert s[1..] == [c];
    }
    StripTrimmed([c]);
    assert Normal([c]);
    CollapseFixpoint([c]);
  }
}
