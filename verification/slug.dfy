/**
  The slug normaliser `createSlug`: strip diacritics, lower-case, turn every
  run of characters outside `[a-z0-9]` into one '-', collapse dash runs and
  trim one leading and one trailing '-'.

  The Unicode steps (NFD normalisation, removal of characters with the
  Unicode Diacritic property, `toLowerCase`) are one text-to-text function,
  a `Folding`, supplied by the caller. `AsciiFold` is what those steps do to
  ASCII text; everything after them is modelled exactly.
 */
module Slug {

  /** NFD, diacritic removal and lower-casing, as one step. */
  type Folding = string -> string

  /** The class `[a-z0-9]` of the second regular expression. */
  predicate IsAlnum(c: char) {
    'a' <= c <= 'z' || '0' <= c <= '9'
  }

  predicate IsSlugChar(c: char) {
    IsAlnum(c) || c == '-'
  }

  predicate AllSlugChars(s: string) {
    forall i :: 0 <= i < |s| ==> IsSlugChar(s[i])
  }

  predicate NoDoubleDash(s: string) {
    forall i :: 0 <= i < |s| - 1 ==> s[i] != '-' || s[i + 1] != '-'
  }

  predicate NoEdgeDash(s: string) {
    |s| > 0 ==> s[0] != '-' && s[|s| - 1] != '-'
  }

  /** What `createSlug` promises of its output. */
  predicate IsSlug(s: string) {
    AllSlugChars(s) && NoDoubleDash(s) && NoEdgeDash(s)
  }

  predicate NoAlnum(s: string) {
    forall i :: 0 <= i < |s| ==> !IsAlnum(s[i])
  }

  /** The `[a-z0-9]` characters of `s`, in order. */
  function Alnums(s: string): string {
    if |s| == 0 then [] else (if IsAlnum(s[0]) then [s[0]] else []) + Alnums(s[1..])
  }

  /** `s` with every '-' deleted. */
  function Undash(s: string): string {
    if |s| == 0 then [] else (if s[0] == '-' then [] else [s[0]]) + Undash(s[1..])
  }

  lemma {:induction false} UndashAppend(a: string, b: string)
    ensures Undash(a + b) == Undash(a) + Undash(b)
  {
    if |a| == 0 {
      assert a + b == b;
    } else {
      assert (a + b)[1..] == a[1..] + b;
      UndashAppend(a[1..], b);
    }
  }

  lemma {:induction false} NoAlnumHasNoAlnums(s: string)
    requires NoAlnum(s)
    ensures Alnums(s) == []
  {
    if |s| > 0 {
      NoAlnumHasNoAlnums(s[1..]);
    }
  }

  /** Drops the leading run of characters outside `[a-z0-9]`. */
  function SkipRun(s: string): (r: string)
    ensures |r| <= |s| && r == s[|s| - |r|..]
    ensures r == [] || IsAlnum(r[0])
    ensures Alnums(r) == Alnums(s)
    ensures |s| > 0 && IsAlnum(s[|s| - 1]) ==> |r| > 0
  {
    if |s| == 0 || IsAlnum(s[0]) then s else SkipRun(s[1..])
  }

  /** `replace(/[^a-z0-9]+/g, "-")`. */
  function Hyphenate(s: string): (r: string)
    ensures AllSlugChars(r)
    ensures NoDoubleDash(r)
    ensures Undash(r) == Alnums(s)
    ensures |s| > 0 ==> |r| > 0 && (r[0] == '-' <==> !IsAlnum(s[0]))
    ensures |s| > 0 && IsAlnum(s[|s| - 1]) ==> r[|r| - 1] == s[|s| - 1]
    decreases |s|
  {
    if |s| == 0 then []
    else if IsAlnum(s[0]) then
      var tail := Hyphenate(s[1..]);
      assert Undash([s[0]] + tail) == [s[0]] + Undash(tail) by {
        assert ([s[0]] + tail)[1..] == tail;
      }
      [s[0]] + tail
    else
      var tail := Hyphenate(SkipRun(s[1..]));
      assert Undash("-" + tail) == Undash(tail) by {
        assert ("-" + tail)[1..] == tail;
      }
      "-" + tail
  }

  /** Drops the leading run of '-'. */
  function SkipDashes(s: string): (r: string)
    ensures |r| <= |s| && r == s[|s| - |r|..]
    ensures r == [] || r[0] != '-'
    ensures Undash(r) == Undash(s)
    ensures AllSlugChars(s) ==> AllSlugChars(r)
  {
    if |s| == 0 || s[0] != '-' then s else SkipDashes(s[1..])
  }

  /** What `[c] + t` inherits from `t`. */
  lemma Cons(c: char, t: string)
    ensures NoDoubleDash(t) && (c != '-' || t == [] || t[0] != '-') ==> NoDoubleDash([c] + t)
    ensures NoDoubleDash([c] + t) ==> NoDoubleDash(t) && (c != '-' || t == [] || t[0] != '-')
    ensures AllSlugChars([c] + t) <==> IsSlugChar(c) && AllSlugChars(t)
    ensures Undash([c] + t) == (if c == '-' then [] else [c]) + Undash(t)
  {
    var w := [c] + t;
    assert w[1..] == t;
    if NoDoubleDash(w) {
      forall i | 0 <= i < |t| - 1
        ensures t[i] != '-' || t[i + 1] != '-'
      {
        assert w[i + 1] == t[i] && w[i + 2] == t[i + 1];
      }
      assert t != [] ==> w[0] == c && w[1] == t[0];
    }
    if NoDoubleDash(t) && (c != '-' || t == [] || t[0] != '-') {
      forall i | 0 <= i < |w| - 1
        ensures w[i] != '-' || w[i + 1] != '-'
      {
        if i > 0 {
          assert w[i] == t[i - 1] && w[i + 1] == t[i];
        }
      }
    }
    assert AllSlugChars(w) <==> IsSlugChar(c) && AllSlugChars(t) by {
      assert w[0] == c;
      assert forall i :: 0 <= i < |t| ==> w[i + 1] == t[i];
      if IsSlugChar(c) && AllSlugChars(t) {
        forall i | 0 <= i < |w|
          ensures IsSlugChar(w[i])
        {
          if i > 0 {
            assert w[i] == t[i - 1];
          }
        }
      }
    }
  }

  /** `replace(/-+/g, "-")`. */
  function CollapseDashes(s: string): (r: string)
    ensures NoDoubleDash(r)
    ensures Undash(r) == Undash(s)
    ensures AllSlugChars(s) ==> AllSlugChars(r)
    ensures |s| > 0 ==> |r| > 0 && (r[0] == '-' <==> s[0] == '-')
    decreases |s|
  {
    if |s| == 0 then []
    else
      assert s == [s[0]] + s[1..];
      Cons(s[0], s[1..]);
      if s[0] == '-' then
        var tail := CollapseDashes(SkipDashes(s[1..]));
        Cons('-', tail);
        "-" + tail
      else
        var tail := CollapseDashes(s[1..]);
        Cons(s[0], tail);
        [s[0]] + tail
  }

  /** Skipping the leading dashes of `x + z` stops inside `x` unless `x` is all dashes. */
  lemma {:induction false} SkipDashesAppend(x: string, z: string)
    ensures SkipDashes(x) != [] ==> SkipDashes(x + z) == SkipDashes(x) + z
    ensures SkipDashes(x) == [] ==> SkipDashes(x + z) == SkipDashes(z)
    decreases |x|
  {
    if |x| == 0 {
      assert x + z == z;
    } else {
      assert (x + z)[0] == x[0];
      if x[0] == '-' {
        assert (x + z)[1..] == x[1..] + z;
        SkipDashesAppend(x[1..], z);
      }
    }
  }

  lemma CollapseDashCons(t: string)
    ensures CollapseDashes("-" + t) == "-" + CollapseDashes(SkipDashes(t))
  {
    assert ("-" + t)[1..] == t;
  }

  lemma CollapseOtherCons(c: char, t: string)
    requires c != '-'
    ensures CollapseDashes([c] + t) == [c] + CollapseDashes(t)
  {
    assert ([c] + t)[1..] == t;
  }

  /** `/-+/g` keeps one '-' per run: a second '-' in a run changes nothing. */
  lemma {:induction false} CollapseRunOfTwo(x: string, y: string)
    ensures CollapseDashes(x + "--" + y) == CollapseDashes(x + "-" + y)
    decreases |x|, 0
  {
    if |x| == 0 {
      assert x + "--" + y == "-" + ("-" + y);
      assert x + "-" + y == "-" + y;
      CollapseDashCons("-" + y);
      CollapseDashCons(y);
      assert ("-" + y)[1..] == y;
    } else {
      var rest := x[1..];
      assert x + "--" + y == [x[0]] + (rest + "--" + y);
      assert x + "-" + y == [x[0]] + (rest + "-" + y);
      if x[0] == '-' {
        assert [x[0]] == "-";
        CollapseDashCons(rest + "--" + y);
        CollapseDashCons(rest + "-" + y);
        SkippedRunOfTwo(rest, y);
      } else {
        CollapseOtherCons(x[0], rest + "--" + y);
        CollapseOtherCons(x[0], rest + "-" + y);
        CollapseRunOfTwo(rest, y);
      }
    }
  }

  lemma SkipDashesDash(t: string)
    ensures SkipDashes("-" + t) == SkipDashes(t)
  {
    assert ("-" + t)[1..] == t;
  }

  /** When `x` is all dashes, one more '-' after it changes nothing. */
  lemma SkipDashesOverRun(x: string, z: string)
    requires SkipDashes(x) == []
    ensures SkipDashes(x + ("-" + z)) == SkipDashes(x + z)
  {
    SkipDashesAppend(x, "-" + z);
    SkipDashesAppend(x, z);
    SkipDashesDash(z);
  }

  /** Otherwise skipping stops inside `x` and the run is kept. */
  lemma SkipDashesBeforeRun(x: string, z: string)
    requires SkipDashes(x) != []
    ensures SkipDashes(x + z) == SkipDashes(x) + z
  {
    SkipDashesAppend(x, z);
  }

  /** The same after the dashes that open a run have been skipped. */
  lemma {:induction false} SkippedRunOfTwo(x: string, y: string)
    ensures CollapseDashes(SkipDashes(x + "--" + y)) == CollapseDashes(SkipDashes(x + "-" + y))
    decreases |x|, 1
  {
    var k := SkipDashes(x);
    assert x + "--" + y == x + ("--" + y) && x + "-" + y == x + ("-" + y);
    if k == [] {
      assert "--" + y == "-" + ("-" + y);
      SkipDashesOverRun(x, "-" + y);
    } else {
      SkipDashesBeforeRun(x, "--" + y);
      SkipDashesBeforeRun(x, "-" + y);
      assert k + ("--" + y) == k + "--" + y && k + ("-" + y) == k + "-" + y;
      CollapseRunOfTwo(k, y);
    }
  }

  /** The `^-` half of `replace(/^-|-$/g, "")`. */
  function DropLeadingDash(s: string): (r: string)
    ensures s == r || s == "-" + r
  {
    if |s| > 0 && s[0] == '-' then
      assert s == "-" + s[1..];
      s[1..]
    else
      s
  }

  /** The `-$` half of `replace(/^-|-$/g, "")`. */
  function DropTrailingDash(s: string): (r: string)
    ensures s == r || s == r + "-"
  {
    if |s| > 0 && s[|s| - 1] == '-' then
      assert s == s[..|s| - 1] + "-";
      s[..|s| - 1]
    else
      s
  }

  /** What removing a leading '-' keeps. */
  lemma DashBefore(r: string)
    ensures Undash("-" + r) == Undash(r)
    ensures AllSlugChars("-" + r) ==> AllSlugChars(r)
    ensures NoDoubleDash("-" + r) ==> NoDoubleDash(r) && (r == [] || r[0] != '-')
  {
    assert ("-" + r)[1..] == r;
    assert forall i :: 0 <= i < |r| ==> r[i] == ("-" + r)[i + 1];
  }

  /** What removing a trailing '-' keeps. */
  lemma DashAfter(r: string)
    ensures Undash(r + "-") == Undash(r)
    ensures AllSlugChars(r + "-") ==> AllSlugChars(r)
    ensures NoDoubleDash(r + "-") ==> NoDoubleDash(r) && (r == [] || r[|r| - 1] != '-')
  {
    var w := r + "-";
    UndashAppend(r, "-");
    assert Undash("-") == [] by {
      assert "-"[1..] == [];
    }
    if NoDoubleDash(w) {
      forall i | 0 <= i < |r| - 1
        ensures r[i] != '-' || r[i + 1] != '-'
      {
        assert w[i] == r[i] && w[i + 1] == r[i + 1];
      }
      if r != [] {
        assert w[|r| - 1] == r[|r| - 1] && w[|r|] == '-';
      }
    }
    if AllSlugChars(w) {
      forall i | 0 <= i < |r|
        ensures IsSlugChar(r[i])
      {
        assert w[i] == r[i];
      }
    }
  }

  /** `replace(/^-|-$/g, "")`: one leading and one trailing '-' go. */
  function TrimDash(s: string): (r: string)
    ensures s == r || s == "-" + r || s == r + "-" || s == "-" + r + "-"
    ensures NoDoubleDash(s) ==> NoEdgeDash(r) && NoDoubleDash(r)
    ensures AllSlugChars(s) ==> AllSlugChars(r)
    ensures Undash(r) == Undash(s)
  {
    var t := DropLeadingDash(s);
    DashBefore(t);
    var r := DropTrailingDash(t);
    DashAfter(r);
    assert r != [] ==> r[0] == t[0];
    r
  }

  /** Lines 10-12: the steps after the Unicode folding. */
  function SlugifyFolded(u: string): (r: string)
    ensures IsSlug(r)
    ensures Undash(r) == Alnums(u)
  {
    TrimDash(CollapseDashes(Hyphenate(u)))
  }

  /** A non-empty slug starts with a letter or digit, so it keeps one after the dashes go. */
  lemma {:induction false} NonEmptySlugHasAlnum(s: string)
    requires IsSlug(s)
    ensures |s| > 0 ==> Undash(s) != []
  {
    if |s| > 0 {
      assert IsAlnum(s[0]);
      assert Undash(s) == [s[0]] + Undash(s[1..]);
    }
  }

  /** `createSlug(text)`. */
  function CreateSlug(text: string, fold: Folding): (r: string)
    ensures text == [] ==> r == []
    ensures IsSlug(r)
    ensures text != [] ==> Undash(r) == Alnums(fold(text))
    ensures text != [] && NoAlnum(fold(text)) ==> r == []
  {
    if text == [] then []
    else
      var r := SlugifyFolded(fold(text));
      if NoAlnum(fold(text)) then
        NoAlnumHasNoAlnums(fold(text));
        NonEmptySlugHasAlnum(r);
        r
      else
        r
  }

  // ---------------------------------------------------------------------
  // The ASCII part of the folding
  // ---------------------------------------------------------------------

  predicate IsAscii(s: string) {
    forall i :: 0 <= i < |s| ==> s[i] as int < 128
  }

  /** '^' (U+005E) and '`' (U+0060) are the ASCII characters with the Unicode Diacritic property. */
  predicate IsAsciiDiacritic(c: char) {
    c == '^' || c == '`'
  }

  /** `toLowerCase` on one ASCII character. */
  function LowerAscii(c: char): (r: char)
    ensures !('A' <= r <= 'Z')
    ensures 'A' <= c <= 'Z' ==> r as int == c as int + 32
    ensures !('A' <= c <= 'Z') ==> r == c
  {
    if 'A' <= c <= 'Z' then (c as int + 32) as char else c
  }

  /** NFD, diacritic removal and `toLowerCase` on ASCII text: NFD leaves ASCII alone,
      '^' and '`' are removed, and 'A'-'Z' become 'a'-'z'. */
  function AsciiFold(s: string): (r: string)
    ensures |r| <= |s|
    ensures forall i :: 0 <= i < |r| ==> !('A' <= r[i] <= 'Z') && !IsAsciiDiacritic(r[i])
    ensures AllSlugChars(s) ==> r == s
    ensures (forall i :: 0 <= i < |s| ==> !IsAsciiDiacritic(s[i])) ==>
      |r| == |s| && forall i :: 0 <= i < |s| ==> r[i] == LowerAscii(s[i])
  {
    if |s| == 0 then []
    else if IsAsciiDiacritic(s[0]) then AsciiFold(s[1..])
    else [LowerAscii(s[0])] + AsciiFold(s[1..])
  }

  /** The folding agrees with the ASCII behaviour on ASCII text. */
  ghost predicate FoldsAscii(fold: Folding) {
    forall s :: IsAscii(s) ==> fold(s) == AsciiFold(s)
  }

  // ---------------------------------------------------------------------
  // Fixed points and idempotence
  // ---------------------------------------------------------------------

  lemma {:induction false} HyphenateKeepsSlugChars(s: string)
    requires AllSlugChars(s) && NoDoubleDash(s)
    ensures Hyphenate(s) == s
  {
    if |s| > 0 {
      assert s == [s[0]] + s[1..];
      Cons(s[0], s[1..]);
      HyphenateKeepsSlugChars(s[1..]);
      if !IsAlnum(s[0]) {
        assert SkipRun(s[1..]) == s[1..];
      }
    }
  }

  lemma {:induction false} CollapseKeepsSingleDashes(s: string)
    requires NoDoubleDash(s)
    ensures CollapseDashes(s) == s
  {
    if |s| > 0 {
      assert s == [s[0]] + s[1..];
      Cons(s[0], s[1..]);
      CollapseKeepsSingleDashes(s[1..]);
      if s[0] == '-' {
        assert SkipDashes(s[1..]) == s[1..];
      }
    }
  }

  lemma SlugCharsAreAscii(s: string)
    requires AllSlugChars(s)
    ensures IsAscii(s)
  {
  }

  /** A slug is left unchanged by `createSlug`. */
  lemma SlugIsFixedPoint(s: string, fold: Folding)
    requires FoldsAscii(fold)
    requires IsSlug(s)
    ensures CreateSlug(s, fold) == s
  {
    if s != [] {
      SlugCharsAreAscii(s);
      assert fold(s) == s;
      HyphenateKeepsSlugChars(s);
      CollapseKeepsSingleDashes(s);
    }
  }

  /** The fixed points of `createSlug` are exactly the slugs. */
  lemma FixedPointsAreSlugs(s: string, fold: Folding)
    requires FoldsAscii(fold)
    ensures CreateSlug(s, fold) == s <==> IsSlug(s)
  {
    if IsSlug(s) {
      SlugIsFixedPoint(s, fold);
    }
  }

  /** `createSlug(createSlug(s)) == createSlug(s)`. */
  lemma CreateSlugIdempotent(text: string, fold: Folding)
    requires FoldsAscii(fold)
    ensures CreateSlug(CreateSlug(text, fold), fold) == CreateSlug(text, fold)
  {
    SlugIsFixedPoint(CreateSlug(text, fold), fold);
  }

  // ---------------------------------------------------------------------
  // Runs between words, and runs at the edges
  // ---------------------------------------------------------------------

  lemma {:induction false} SkipRunOverNoAlnum(x: string, b: string)
    requires NoAlnum(x)
    requires b == [] || IsAlnum(b[0])
    ensures SkipRun(x + b) == b
  {
    if |x| == 0 {
      assert x + b == b;
    } else {
      assert (x + b)[1..] == x[1..] + b;
      SkipRunOverNoAlnum(x[1..], b);
    }
  }

  lemma {:induction false} SkipRunStopsInside(x: string, y: string)
    requires |x| > 0 && IsAlnum(x[|x| - 1])
    ensures SkipRun(x + y) == SkipRun(x) + y
  {
    if !IsAlnum(x[0]) {
      assert (x + y)[1..] == x[1..] + y;
      SkipRunStopsInside(x[1..], y);
    }
  }

  lemma Assoc(x: string, y: string, z: string)
    ensures x + (y + z) == x + y + z
  {
  }

  lemma Regroup(p: string, x: string, y: string)
    ensures p + (x + "-" + y) == (p + x) + "-" + y
  {
  }

  lemma SplitHead(a: string, y: string)
    requires |a| > 0
    ensures a + y == [a[0]] + (a[1..] + y)
  {
    assert a == [a[0]] + a[1..];
  }

  lemma HyphenateConsAlnum(c: char, t: string)
    requires IsAlnum(c)
    ensures Hyphenate([c] + t) == [c] + Hyphenate(t)
  {
    assert ([c] + t)[1..] == t;
  }

  lemma HyphenateConsRun(c: char, t: string)
    requires !IsAlnum(c)
    ensures Hyphenate([c] + t) == "-" + Hyphenate(SkipRun(t))
  {
    assert ([c] + t)[1..] == t;
  }

  lemma GapAtStart(n: string, b: string)
    requires |n| > 0 && NoAlnum(n)
    requires b == [] || IsAlnum(b[0])
    ensures Hyphenate(n + b) == "-" + Hyphenate(b)
  {
    SplitHead(n, b);
    HyphenateConsRun(n[0], n[1..] + b);
    SkipRunOverNoAlnum(n[1..], b);
  }

  lemma GapAfterAlnum(a: string, n: string, b: string)
    requires |a| > 0 && IsAlnum(a[0])
    requires Hyphenate(a[1..] + n + b) == Hyphenate(a[1..]) + "-" + Hyphenate(b)
    ensures Hyphenate(a + n + b) == Hyphenate(a) + "-" + Hyphenate(b)
  {
    var t := a[1..] + n + b;
    Assoc(a, n, b);
    Assoc(a[1..], n, b);
    SplitHead(a, n + b);
    HyphenateConsAlnum(a[0], t);
    SplitHead(a, []);
    assert a[1..] + [] == a[1..];
    HyphenateConsAlnum(a[0], a[1..]);
    Regroup([a[0]], Hyphenate(a[1..]), Hyphenate(b));
  }

  lemma GapAfterRun(a: string, n: string, b: string)
    requires |a| > 1 && !IsAlnum(a[0]) && IsAlnum(a[|a| - 1])
    requires Hyphenate(SkipRun(a[1..]) + n + b) == Hyphenate(SkipRun(a[1..])) + "-" + Hyphenate(b)
    ensures Hyphenate(a + n + b) == Hyphenate(a) + "-" + Hyphenate(b)
  {
    var a' := SkipRun(a[1..]);
    Assoc(a, n, b);
    SplitHead(a, n + b);
    HyphenateConsRun(a[0], a[1..] + (n + b));
    SkipRunStopsInside(a[1..], n + b);
    Assoc(a', n, b);
    SplitHead(a, []);
    assert a[1..] + [] == a[1..];
    HyphenateConsRun(a[0], a[1..]);
    Regroup("-", Hyphenate(a'), Hyphenate(b));
  }

  /** A run outside `[a-z0-9]` between two words (or at the start) becomes exactly one '-'. */
  lemma {:induction false} HyphenateGap(a: string, n: string, b: string)
    requires a == [] || IsAlnum(a[|a| - 1])
    requires |n| > 0 && NoAlnum(n)
    requires b == [] || IsAlnum(b[0])
    ensures Hyphenate(a + n + b) == Hyphenate(a) + "-" + Hyphenate(b)
    decreases |a|
  {
    if |a| == 0 {
      assert a + n + b == n + b;
      GapAtStart(n, b);
    } else if IsAlnum(a[0]) {
      HyphenateGap(a[1..], n, b);
      GapAfterAlnum(a, n, b);
    } else {
      HyphenateGap(SkipRun(a[1..]), n, b);
      GapAfterRun(a, n, b);
    }
  }

  lemma TrimDashGap(x: string, y: string)
    requires |x| > 0 && x[|x| - 1] != '-'
    requires |y| > 0 && y[0] != '-'
    ensures TrimDash(x + "-" + y) == TrimDash(x) + "-" + TrimDash(y)
  {
    var x' := DropLeadingDash(x);
    DropLeadingDashGap(x, "-" + y);
    assert x + "-" + y == x + ("-" + y) && x' + "-" + y == x' + ("-" + y);
    DropTrailingDashGap(x' + "-", y);
    assert x' + "-" + DropTrailingDash(y) == (x' + "-") + DropTrailingDash(y);
    assert TrimDash(x) == x' by {
      assert x' != [] && x'[|x'| - 1] == x[|x| - 1];
    }
  }

  lemma DropLeadingDashGap(x: string, y: string)
    requires |x| > 0
    ensures DropLeadingDash(x + y) == DropLeadingDash(x) + y
  {
    if x[0] == '-' {
      assert (x + y)[1..] == x[1..] + y;
    }
  }

  lemma DropTrailingDashGap(x: string, y: string)
    requires |y| > 0
    ensures DropTrailingDash(x + y) == x + DropTrailingDash(y)
  {
    if y[|y| - 1] == '-' {
      assert (x + y)[..|x + y| - 1] == x + y[..|y| - 1];
    }
  }

  /** Words separated by a run outside `[a-z0-9]` are joined by exactly one '-'. */
  lemma GapBecomesOneDash(a: string, n: string, b: string)
    requires |a| > 0 && IsAlnum(a[|a| - 1])
    requires |n| > 0 && NoAlnum(n)
    requires |b| > 0 && IsAlnum(b[0])
    ensures SlugifyFolded(a + n + b) == SlugifyFolded(a) + "-" + SlugifyFolded(b)
  {
    var ha, hb := Hyphenate(a), Hyphenate(b);
    HyphenateGap(a, n, b);
    CollapseKeepsSingleDashes(ha + "-" + hb);
    CollapseKeepsSingleDashes(ha);
    CollapseKeepsSingleDashes(hb);
    TrimDashGap(ha, hb);
  }

  lemma TrimDashLeading(x: string)
    requires x == [] || x[0] != '-'
    ensures TrimDash("-" + x) == TrimDash(x)
  {
    assert ("-" + x)[1..] == x;
  }

  lemma TrimDashTrailing(x: string)
    requires x == [] || x[|x| - 1] != '-'
    ensures TrimDash(x + "-") == TrimDash(x)
  {
    if x != [] {
      var x' := DropLeadingDash(x);
      assert DropLeadingDash(x + "-") == x' + "-" by {
        if x[0] == '-' {
          assert (x + "-")[1..] == x[1..] + "-";
        }
      }
      assert (x' + "-")[..|x'|] == x';
      assert x' != [] && x'[|x'| - 1] == x[|x| - 1];
    }
  }

  /** A run outside `[a-z0-9]` before the first word leaves no trace. */
  lemma LeadingRunVanishes(n: string, b: string)
    requires |n| > 0 && NoAlnum(n)
    requires b == [] || IsAlnum(b[0])
    ensures SlugifyFolded(n + b) == SlugifyFolded(b)
  {
    var hb := Hyphenate(b);
    GapAtStart(n, b);
    CollapseKeepsSingleDashes(Hyphenate(n + b));
    CollapseKeepsSingleDashes(hb);
    TrimDashLeading(hb);
  }

  /** A run outside `[a-z0-9]` after the last word leaves no trace. */
  lemma TrailingRunVanishes(a: string, n: string)
    requires a == [] || IsAlnum(a[|a| - 1])
    requires |n| > 0 && NoAlnum(n)
    ensures SlugifyFolded(a + n) == SlugifyFolded(a)
  {
    var ha := Hyphenate(a);
    HyphenateGap(a, n, []);
    assert a + n + [] == a + n;
    assert ha + "-" + Hyphenate([]) == ha + "-";
    CollapseKeepsSingleDashes(Hyphenate(a + n));
    CollapseKeepsSingleDashes(ha);
    TrimDashTrailing(ha);
  }
}
