/**
 Two titles never get the same name or target (`title_basename`, `demux_needs_subdirs` and
 `title_dest` in src/engine.rs).
 */
module TitleNamesDiffer {
  import opened Text
  import opened TitleNames

  // ---- Names differ when numbers do -------------------------------------------------------------

  /** What the part of a name around its number looks like: `x` starts with `front` and the
      number `d`, ends with `d` and `back`, and holds `d` `times` times in all, among `fixed`
      characters that do not depend on it. */
  datatype Shape = Shape(front: string, back: string, times: nat, fixed: nat)

  function Product(k: nat, a: nat): nat { k * a }

  ghost predicate Fits(x: string, p: Shape, d: string) {
    && p.times >= 1
    && |x| == p.fixed + Product(p.times, |d|)
    && |p.front| + |p.back| <= p.fixed
    && |p.front| + |d| <= |x| && x[..|p.front|] == p.front && x[|p.front|..|p.front| + |d|] == d
    && |d| + |p.back| <= |x| && x[|x| - |p.back|..] == p.back && x[|x| - |p.back| - |d|..|x| - |p.back|] == d
  }

  /** Two names of one shape are equal only when their numbers are. */
  lemma ShapesDiffer(x: string, y: string, p: Shape, d: string, e: string)
    requires Fits(x, p, d) && Fits(y, p, e)
    ensures x == y ==> d == e
  {
    hide Product;
    if x == y {
      SameProduct(p.times, |d|, |e|);
      var f := |p.front|;
      assert x[f..f + |d|] == y[f..f + |e|];
    }
  }

  lemma SameProduct(k: nat, a: nat, b: nat)
    requires k >= 1 && Product(k, a) == Product(k, b)
    ensures a == b
  {
    if a < b { ProductGrows(k, a, b); }
    if b < a { ProductGrows(k, b, a); }
  }

  lemma ProductGrows(k: nat, a: nat, b: nat)
    requires k >= 1 && a < b
    ensures k * a < k * b
  {
  }

  // The shape of a template with its holes filled.

  function Holes(s: string): nat
    decreases |s|
  {
    if s == "" then 0 else if Hole() <= s then 1 + Holes(s[3..]) else Holes(s[1..])
  }

  function Before(s: string): string
  {
    if s == "" || Hole() <= s then "" else [s[0]] + Before(s[1..])
  }

  function After(s: string): string
    decreases |s|
  {
    if s == "" then ""
    else if Hole() <= s then if Contains(s[3..], Hole()) then After(s[3..]) else s[3..]
    else After(s[1..])
  }

  function HoleShape(s: string): Shape
    requires 3 * Holes(s) <= |s|
  {
    Shape(Before(s), After(s), Holes(s), |s| - 3 * Holes(s))
  }

  lemma {:induction false} HolesFit(s: string)
    ensures 3 * Holes(s) <= |s|
    ensures Contains(s, Hole()) ==> Holes(s) >= 1 && |Before(s)| + |After(s)| + 3 * Holes(s) <= |s|
    decreases |s|
  {
    if s != "" {
      hide Hole;
      if Hole() <= s {
        HolesFit(s[3..]);
        if !Contains(s[3..], Hole()) { NoHole(s[3..], ""); }
      } else {
        HolesFit(s[1..]);
      }
    }
  }

  lemma {:induction false} NoHole(s: string, d: string)
    requires !Contains(s, Hole())
    ensures Replace(s, Hole(), d) == s && Holes(s) == 0
  {
    hide Hole;
    if s != "" {
      NoHole(s[1..], d);
      assert [s[0]] + s[1..] == s;
    }
  }

  lemma SameEnd(x: string, f: nat, y: string, g: nat, i: nat, j: nat)
    requires f <= |x| && g <= |y| && x[f..] == y[g..] && i <= j <= |x| - f
    ensures x[|x| - j..|x| - i] == y[|y| - j..|y| - i]
  {
    var end := x[f..];
    assert end[|end| - j..|end| - i] == x[|x| - j..|x| - i];
    assert end[|end| - j..|end| - i] == y[|y| - j..|y| - i];
  }

  lemma SameSuffix(x: string, f: nat, y: string, g: nat, j: nat)
    requires f <= |x| && g <= |y| && x[f..] == y[g..] && j <= |x| - f
    ensures x[|x| - j..] == y[|y| - j..]
  {
    SameEnd(x, f, y, g, 0, j);
  }

  lemma Joined(front: string, rest: string, n: nat)
    requires n <= |rest|
    ensures var y := front + rest;
            y[..|front|] == front && y[|front|..] == rest && y[|front|..|front| + n] == rest[..n]
  {
  }

  lemma SliceFrom(x: string, f: nat, n: nat)
    requires f + n <= |x|
    ensures x[f..][..n] == x[f..f + n]
  {
  }

  lemma TimesAtLeast(k: nat, a: nat)
    requires k >= 1
    ensures Product(k, a) >= a
  {
  }

  lemma WholeSlices(x: string)
    ensures x[0..] == x && x[..0] == "" && x[0..|x|] == x
  {
  }

  lemma Shifted(c: char, x: string, f: nat, n: nat)
    requires f + n <= |x|
    ensures var y := [c] + x;
            y[..f + 1] == [c] + x[..f] && y[f + 1..f + 1 + n] == x[f..f + n]
  {
  }

  lemma OneMoreHole(x: string, p: Shape, d: string)
    requires Fits(x, p, d)
    ensures Fits(d + x, Shape("", p.back, p.times + 1, p.fixed), d)
  {
    hide Product;
    var y, b := d + x, |p.back|;
    OneMoreTime(p.times, |d|);
    TimesAtLeast(p.times, |d|);
    Joined(d, x, 0);
    WholeSlices(x);
    WholeSlices(d);
    SameEnd(x, 0, y, |d|, b, b + |d|);
    SameSuffix(x, 0, y, |d|, b);
  }

  lemma OneMoreTime(k: nat, a: nat)
    ensures Product(k + 1, a) == Product(k, a) + a
  {
  }

  lemma OneMoreChar(c: char, x: string, p: Shape, d: string)
    requires Fits(x, p, d)
    ensures Fits([c] + x, Shape([c] + p.front, p.back, p.times, p.fixed + 1), d)
  {
    hide Product;
    var y, f, b := [c] + x, |p.front|, |p.back|;
    TimesAtLeast(p.times, |d|);
    Joined([c], x, 0);
    WholeSlices(x);
    Shifted(c, x, f, |d|);
    SameEnd(x, 0, y, 1, b, b + |d|);
    SameSuffix(x, 0, y, 1, b);
  }

  lemma LastHole(d: string, rest: string)
    ensures Fits(d + rest, Shape("", rest, 1, |rest|), d)
  {
    var y := d + rest;
    assert y[..|d|] == d && y[|d|..] == rest;
  }

  lemma AtHole(s: string, d: string)
    requires s != "" && Hole() <= s
    ensures Replace(s, Hole(), d) == d + Replace(s[3..], Hole(), d)
    ensures 3 * Holes(s) <= |s| && 3 * Holes(s[3..]) <= |s| - 3
    ensures var p := HoleShape(s[3..]);
            HoleShape(s) == if Contains(s[3..], Hole()) then Shape("", p.back, p.times + 1, p.fixed)
                            else Shape("", s[3..], 1, |s| - 3)
  {
    hide Hole;
    HolesFit(s[3..]);
    if !Contains(s[3..], Hole()) { NoHole(s[3..], d); }
  }

  lemma NotAtHole(s: string, d: string)
    requires s != "" && !(Hole() <= s)
    ensures Replace(s, Hole(), d) == [s[0]] + Replace(s[1..], Hole(), d)
    ensures 3 * Holes(s) <= |s| && 3 * Holes(s[1..]) <= |s| - 1 && Contains(s, Hole()) == Contains(s[1..], Hole())
    ensures var p := HoleShape(s[1..]);
            HoleShape(s) == Shape([s[0]] + p.front, p.back, p.times, p.fixed + 1)
  {
    hide Hole;
    HolesFit(s[1..]);
  }

  ghost predicate Filled(s: string, d: string) {
    3 * Holes(s) <= |s| && Fits(Replace(s, Hole(), d), HoleShape(s), d)
  }

  lemma FilledAtHole(s: string, d: string)
    requires s != "" && Hole() <= s && (Contains(s[3..], Hole()) ==> Filled(s[3..], d))
    ensures Filled(s, d)
  {
    hide Fits;
    hide Hole;
    hide HoleShape;
    hide Replace;
    hide Holes;
    hide Contains;
    var rest := s[3..];
    AtHole(s, d);
    if Contains(rest, Hole()) {
      OneMoreHole(Replace(rest, Hole(), d), HoleShape(rest), d);
    } else {
      NoHole(rest, d);
      LastHole(d, rest);
    }
  }

  lemma FilledNotAtHole(s: string, d: string)
    requires s != "" && !(Hole() <= s) && Filled(s[1..], d)
    ensures Filled(s, d)
  {
    hide Fits;
    hide Hole;
    hide HoleShape;
    hide Replace;
    hide Holes;
    hide Contains;
    NotAtHole(s, d);
    OneMoreChar(s[0], Replace(s[1..], Hole(), d), HoleShape(s[1..]), d);
  }

  /** Filling the holes of a template gives a name of the template's shape. */
  lemma {:induction false} FilledFits(s: string, d: string)
    requires Contains(s, Hole())
    ensures Filled(s, d)
    decreases |s|
  {
    assert s != "";
    hide Hole;
    hide Filled;
    if Hole() <= s {
      if Contains(s[3..], Hole()) { FilledFits(s[3..], d); }
      FilledAtHole(s, d);
    } else {
      FilledFits(s[1..], d);
      FilledNotAtHole(s, d);
    }
  }

  lemma AppendedFits(name: string, d: string)
    ensures Fits(name + "_t" + d, Shape(name + "_t", "", 1, |name| + 2), d)
  {
    var x := name + "_t" + d;
    assert x[..|name| + 2] == name + "_t";
    assert x[|name| + 2..] == d;
  }

  // Sanitising keeps the shape.

  ghost predicate Number(d: string) { d != "" && forall k :: 0 <= k < |d| ==> IsDigit(d[k]) }

  lemma CleanFits(x: string, p: Shape, d: string)
    requires Fits(x, p, d) && Number(d)
    ensures Fits(Clean(x), CleanShape(p), d)
  {
    hide Product;
    hide IsDigit;
    hide CleanChar;
    DigitsStay(d);
    var y, f, b := Clean(x), |p.front|, |p.back|;
    CleanSlice(x, 0, f);
    CleanSlice(x, f, f + |d|);
    CleanSlice(x, |x| - b - |d|, |x| - b);
    CleanSlice(x, |x| - b, |x|);
  }

  lemma DigitsStay(d: string)
    requires Number(d)
    ensures Clean(d) == d
  {
  }

  lemma {:induction false} TrimStartStops(front: string, rest: string)
    requires rest != "" && !IsWhitespace(rest[0])
    ensures TrimStart(front + rest) == TrimStart(front) + rest
  {
    hide IsWhitespace;
    if front == "" {
      assert front + rest == rest;
    } else {
      assert (front + rest)[1..] == front[1..] + rest;
      TrimStartStops(front[1..], rest);
    }
  }

  lemma {:induction false} TrimEndStops(rest: string, back: string)
    requires rest != "" && !IsWhitespace(rest[|rest| - 1])
    ensures TrimEnd(rest + back) == rest + TrimEnd(back)
    decreases |back|
  {
    hide IsWhitespace;
    var s := rest + back;
    if back == "" {
      assert s == rest;
    } else {
      assert s[..|s| - 1] == rest + back[..|back| - 1];
      TrimEndStops(rest, back[..|back| - 1]);
    }
  }

  lemma {:induction false} TrimDotsStops(rest: string, back: string)
    requires rest != "" && !DotOrSpace(rest[|rest| - 1])
    ensures TrimDots(rest + back) == rest + TrimDots(back)
    decreases |back|
  {
    hide DotOrSpace;
    var s := rest + back;
    if back == "" {
      assert s == rest;
    } else {
      assert s[..|s| - 1] == rest + back[..|back| - 1];
      TrimDotsStops(rest, back[..|back| - 1]);
    }
  }

  function CleanShape(p: Shape): Shape { p.(front := Clean(p.front), back := Clean(p.back)) }

  function FrontShape(p: Shape, front: string): Shape
    requires |front| <= |p.front| <= p.fixed
  {
    p.(front := front, fixed := p.fixed - (|p.front| - |front|))
  }

  function BackShape(p: Shape, back: string): Shape
    requires |back| <= |p.back| <= p.fixed
  {
    p.(back := back, fixed := p.fixed - (|p.back| - |back|))
  }

  lemma ShorterFront(x: string, p: Shape, d: string, front: string, y: string)
    requires Fits(x, p, d)
    requires |front| <= |p.front| && y == front + x[|p.front|..]
    ensures Fits(y, FrontShape(p, front), d)
  {
    hide Product;
    var f, g, b := |p.front|, |front|, |p.back|;
    SliceFrom(x, f, |d|);
    Joined(front, x[f..], |d|);
    TimesAtLeast(p.times, |d|);
    SameEnd(x, f, y, g, b, b + |d|);
    SameSuffix(x, f, y, g, b);
  }

  lemma ShorterBack(x: string, p: Shape, d: string, back: string, y: string)
    requires Fits(x, p, d)
    requires |back| <= |p.back| && y == x[..|x| - |p.back|] + back
    ensures Fits(y, BackShape(p, back), d)
  {
    hide Product;
    var rest := x[..|x| - |p.back|];
    TimesAtLeast(p.times, |d|);
    assert y[|y| - |back|..] == back;
    assert y[|y| - |back| - |d|..|y| - |back|] == rest[|rest| - |d|..] == d;
    assert |p.front| + |d| <= |rest|;
    assert y[..|p.front|] == x[..|p.front|];
    assert y[|p.front|..|p.front| + |d|] == x[|p.front|..|p.front| + |d|];
  }

  /** The shape of the trimmed name: a function of the shape alone, not of the number. */
  function TrimmedShape(p: Shape): Shape
    requires |p.front| + |p.back| <= p.fixed
  {
    var c := CleanShape(p);
    var q := FrontShape(c, TrimStart(c.front));
    var r := BackShape(q, TrimEnd(q.back));
    BackShape(r, TrimDots(r.back))
  }

  lemma FirstDigit(x: string, p: Shape, d: string)
    requires Fits(x, p, d) && Number(d)
    ensures var rest := x[|p.front|..]; x == p.front + rest && rest != "" && !IsWhitespace(rest[0])
  {
    DigitsAreKept(d);
    hide IsWhitespace;
    hide IsDigit;
    var rest := x[|p.front|..];
    assert rest[..|d|] == x[|p.front|..|p.front| + |d|];
    assert rest[0] == d[0];
  }

  lemma FrontFits(x: string, p: Shape, d: string)
    requires Fits(x, p, d) && Number(d)
    ensures |p.front| <= p.fixed && Fits(TrimStart(x), FrontShape(p, TrimStart(p.front)), d)
  {
    hide Fits;
    hide Number;
    hide TrimStart;
    hide FrontShape;
    hide IsWhitespace;
    FitsHasRoom(x, p, d);
    FirstDigit(x, p, d);
    TrimStartStops(p.front, x[|p.front|..]);
    ShorterFront(x, p, d, TrimStart(p.front), TrimStart(x));
  }

  lemma LastDigit(x: string, p: Shape, d: string)
    requires Fits(x, p, d) && Number(d)
    ensures var rest := x[..|x| - |p.back|];
            x == rest + p.back && rest != "" && !IsWhitespace(rest[|rest| - 1]) && !DotOrSpace(rest[|rest| - 1])
  {
    DigitsAreKept(d);
    hide IsWhitespace;
    hide DotOrSpace;
    hide IsDigit;
    var rest := x[..|x| - |p.back|];
    assert rest[|rest| - |d|..] == x[|x| - |p.back| - |d|..|x| - |p.back|];
    assert rest[|rest| - 1] == rest[|rest| - |d|..][|d| - 1] == d[|d| - 1];
  }

  lemma BackFits(x: string, p: Shape, d: string)
    requires Fits(x, p, d) && Number(d)
    ensures |p.back| <= p.fixed && Fits(TrimEnd(x), BackShape(p, TrimEnd(p.back)), d)
  {
    hide Fits;
    hide Number;
    hide BackShape;
    hide IsWhitespace;
    hide DotOrSpace;
    hide TrimEnd;
    FitsHasRoom(x, p, d);
    LastDigit(x, p, d);
    TrimEndStops(x[..|x| - |p.back|], p.back);
    ShorterBack(x, p, d, TrimEnd(p.back), TrimEnd(x));
  }

  lemma DotsFit(x: string, p: Shape, d: string)
    requires Fits(x, p, d) && Number(d)
    ensures |p.back| <= p.fixed && Fits(TrimDots(x), BackShape(p, TrimDots(p.back)), d)
  {
    hide Fits;
    hide Number;
    hide BackShape;
    hide IsWhitespace;
    hide DotOrSpace;
    hide TrimDots;
    FitsHasRoom(x, p, d);
    LastDigit(x, p, d);
    TrimDotsStops(x[..|x| - |p.back|], p.back);
    ShorterBack(x, p, d, TrimDots(p.back), TrimDots(x));
  }

  lemma FitsHasRoom(x: string, p: Shape, d: string)
    requires Fits(x, p, d)
    ensures |p.front| + |p.back| <= p.fixed && |p.front| <= |x| && |p.back| <= |x|
    ensures d != "" ==> x != ""
  {
    TimesAtLeast(p.times, |d|);
  }

  lemma TrimmedFits(x: string, p: Shape, d: string)
    requires Fits(x, p, d) && Number(d)
    ensures |p.front| + |p.back| <= p.fixed && Fits(Trimmed(x), TrimmedShape(p), d)
  {
    hide Fits;
    hide Number;
    hide TrimStart;
    hide TrimEnd;
    hide TrimDots;
    hide Clean;
    FitsHasRoom(x, p, d);
    CleanFits(x, p, d);
    var q := CleanShape(p);
    FrontFits(Clean(x), q, d);
    var r := FrontShape(q, TrimStart(q.front));
    BackFits(TrimStart(Clean(x)), r, d);
    DotsFit(Trim(Clean(x)), BackShape(r, TrimEnd(r.back)), d);
  }

  /** A name with a number in it is not empty, and a device name of its shape starts with a
      letter of the shape itself. */
  lemma DeviceHasAFront(x: string, p: Shape, d: string)
    requires Fits(x, p, d) && Number(d) && IsWindowsReserved(Stem(x))
    ensures p.front != "" && x[0] == p.front[0] && x[0] != '_'
  {
    hide Fits;
    hide IsWindowsReserved;
    hide Stem;
    StartsWithALetter(x);
    FirstChar(x, p, d);
  }

  lemma FirstChar(x: string, p: Shape, d: string)
    requires Fits(x, p, d) && Number(d)
    ensures x != "" && x[0] == if p.front == "" then d[0] else p.front[0]
  {
    hide IsDigit;
    var f := |p.front|;
    assert x[f..f + |d|][0] == x[f];
    assert forall k :: 0 <= k < f ==> x[..f][k] == x[k];
  }

  lemma StartsWithALetter(x: string)
    requires IsWindowsReserved(Stem(x))
    ensures x != "" && !IsDigit(x[0]) && x[0] != '_'
  {
    var u := Upper(Stem(x));
    assert |u| >= 3 && u[0] == UpperChar(x[0]);
    assert u[0] == 'C' || u[0] == 'P' || u[0] == 'A' || u[0] == 'N' || u[0] == 'L';
  }

  lemma SanitizeNumbered(x: string, p: Shape, d: string)
    requires Fits(x, p, d) && Number(d)
    ensures Trimmed(x) != ""
    ensures SanitizeLabel(x) == (if IsWindowsReserved(Stem(Trimmed(x))) then "_" else "") + Trimmed(x)
  {
    hide Fits;
    hide Trimmed;
    hide IsWindowsReserved;
    hide Stem;
    TrimmedFits(x, p, d);
    FitsHasRoom(Trimmed(x), TrimmedShape(p), d);
    HoldsADigit(x, p, d);
    DigitIsNoDot(x, |p.front|);
    assert "" + Trimmed(x) == Trimmed(x);
  }

  lemma HoldsADigit(x: string, p: Shape, d: string)
    requires Fits(x, p, d) && Number(d)
    ensures |p.front| < |x| && IsDigit(x[|p.front|])
  {
    assert x[|p.front|..|p.front| + |d|][0] == x[|p.front|];
  }

  lemma DigitIsNoDot(x: string, k: nat)
    requires k < |x| && IsDigit(x[k])
    ensures x != "." && x != ".."
  {
  }

  // Names differ for a file system that ignores case, too.

  /** How a file system compares names: character by character, keeping digits apart from each
      other and underscores from everything else. */
  ghost predicate IgnoresCase(fold: char -> char) {
    && (forall c :: IsDigit(c) ==> fold(c) == c)
    && (forall c :: fold(c) == '_' <==> c == '_')
  }

  function Folded(s: string, fold: char -> char): (r: string)
    ensures |r| == |s|
    ensures forall k :: 0 <= k < |s| ==> r[k] == fold(s[k])
  {
    seq(|s|, k requires 0 <= k < |s| => fold(s[k]))
  }

  /** Exact comparison, and comparison in lower case. */
  lemma Comparisons(s: string)
    ensures IgnoresCase(LowerChar) && Folded(s, LowerChar) == Lower(s)
    ensures IgnoresCase((c: char) => c) && Folded(s, (c: char) => c) == s
  {
  }

  lemma FoldSlice(x: string, i: nat, j: nat, fold: char -> char)
    requires i <= j <= |x|
    ensures Folded(x, fold)[i..j] == Folded(x[i..j], fold)
  {
  }

  lemma FoldJoin(a: string, b: string, fold: char -> char)
    ensures Folded(a + b, fold) == Folded(a, fold) + Folded(b, fold)
  {
  }

  lemma FoldNumber(d: string, fold: char -> char)
    requires Number(d) && IgnoresCase(fold)
    ensures Folded(d, fold) == d
  {
  }

  function FoldShape(p: Shape, fold: char -> char): Shape {
    p.(front := Folded(p.front, fold), back := Folded(p.back, fold))
  }

  lemma FoldFits(x: string, p: Shape, d: string, fold: char -> char)
    requires Fits(x, p, d) && Number(d) && IgnoresCase(fold)
    ensures Fits(Folded(x, fold), FoldShape(p, fold), d)
  {
    hide Product;
    FoldNumber(d, fold);
    hide Number;
    hide IgnoresCase;
    var f, b := |p.front|, |p.back|;
    FoldSlice(x, 0, f, fold);
    FoldSlice(x, f, f + |d|, fold);
    FoldSlice(x, |x| - b - |d|, |x| - b, fold);
    FoldSlice(x, |x| - b, |x|, fold);
  }

  lemma FoldedShapesDiffer(x: string, y: string, p: Shape, d: string, e: string, fold: char -> char)
    requires Fits(x, p, d) && Number(d) && Fits(y, p, e) && Number(e) && d != e && IgnoresCase(fold)
    ensures Folded(x, fold) != Folded(y, fold)
  {
    hide *;
    FoldFits(x, p, d, fold);
    FoldFits(y, p, e, fold);
    ShapesDiffer(Folded(x, fold), Folded(y, fold), FoldShape(p, fold), d, e);
  }

  /** Sanitising two names of one shape with different numbers gives names that differ, case
      aside, even when only one of them is a device name and takes an underscore. */
  lemma SanitizedDiffer(x: string, y: string, p: Shape, d: string, e: string, fold: char -> char)
    requires Fits(x, p, d) && Number(d) && Fits(y, p, e) && Number(e) && d != e && IgnoresCase(fold)
    ensures Folded(SanitizeLabel(x), fold) != Folded(SanitizeLabel(y), fold)
  {
    hide Fits;
    hide Number;
    hide SanitizeLabel;
    hide Trimmed;
    hide IsWindowsReserved;
    hide Stem;
    hide IgnoresCase;
    hide Folded;
    SanitizeNumbered(x, p, d);
    SanitizeNumbered(y, p, e);
    TrimmedFits(x, p, d);
    TrimmedFits(y, p, e);
    var q, s, t := TrimmedShape(p), Trimmed(x), Trimmed(y);
    hide TrimmedShape;
    FoldedShapesDiffer(s, t, q, d, e, fold);
    if IsWindowsReserved(Stem(s)) { OnlyOnePrefixed(s, t, q, d, e, fold); }
    if IsWindowsReserved(Stem(t)) { OnlyOnePrefixed(t, s, q, e, d, fold); }
    Underscores(s, t, fold);
  }

  lemma OnlyOnePrefixed(s: string, t: string, q: Shape, d: string, e: string, fold: char -> char)
    requires Fits(s, q, d) && Number(d) && Fits(t, q, e) && IsWindowsReserved(Stem(s)) && IgnoresCase(fold)
    ensures Folded("_" + s, fold) != Folded(t, fold)
  {
    DeviceHasAFront(s, q, d);
    hide IsWindowsReserved;
    hide Stem;
    assert t[0] == t[..|q.front|][0] == q.front[0];
    assert Folded("_" + s, fold)[0] == fold('_') == '_';
    assert t != "" && Folded(t, fold)[0] == fold(t[0]);
  }

  lemma Underscores(s: string, t: string, fold: char -> char)
    requires Folded(s, fold) != Folded(t, fold)
    ensures Folded("_" + s, fold) != Folded("_" + t, fold) && Folded("" + s, fold) != Folded("" + t, fold)
  {
    FoldJoin("_", s, fold);
    FoldJoin("_", t, fold);
    Behind(Folded("_", fold), Folded(s, fold), Folded(t, fold));
    assert "" + s == s && "" + t == t;
  }

  lemma Behind(a: string, b: string, c: string)
    requires b != c
    ensures a + b != a + c
  {
    assert (a + b)[|a|..] == b && (a + c)[|a|..] == c;
  }

  lemma DecimalsDiffer(n: nat, m: nat)
    requires n != m
    ensures Number(Decimal(n)) && Number(Decimal(m)) && Decimal(n) != Decimal(m)
  {
    DecimalReadsBack(n);
    DecimalReadsBack(m);
  }

  /** For one template and one disc, two titles never get the same name, case aside, whatever
      the template and the label contain. */
  lemma NamesDiffer(template: string, volume: string, n: nat, m: nat, fold: char -> char)
    requires n != m && IgnoresCase(fold)
    ensures Folded(TitleBasename(template, volume, n), fold) != Folded(TitleBasename(template, volume, m), fold)
  {
    hide SanitizeLabel;
    hide Decimal;
    hide Fits;
    hide Number;
    hide Replace;
    hide Hole;
    hide IgnoresCase;
    hide Folded;
    DecimalsDiffer(n, m);
    var l, t, d, e := SanitizeLabel(volume), Trim(template), Decimal(n), Decimal(m);
    if t == "" {
      AppendedFits(l, d);
      AppendedFits(l, e);
      FoldedShapesDiffer(l + "_t" + d, l + "_t" + e, Shape(l + "_t", "", 1, |l| + 2), d, e, fold);
    } else {
      var name := Replace(t, "{title}", l);
      if Contains(name, Hole()) {
        HolesFit(name);
        FilledFits(name, d);
        FilledFits(name, e);
        SanitizedDiffer(Replace(name, Hole(), d), Replace(name, Hole(), e), HoleShape(name), d, e, fold);
      } else {
        AppendedFits(name, d);
        AppendedFits(name, e);
        SanitizedDiffer(name + "_t" + d, name + "_t" + e, Shape(name + "_t", "", 1, |name| + 2), d, e, fold);
      }
    }
  }

  // ---- Targets on disk ------------------------------------------------------------------------

  datatype OutKind = File(scheme: string) | Demux(scheme: string) | DecryptedFolder | IsoImage

  predicate DemuxNeedsSubdirs(titleCount: nat) { titleCount > 1 }

  datatype RipRequest = RipRequest(destDir: string, filenameTemplate: string)

  /** The sink URL and the path of one title; `naming` holds the titles a TV plan names. */
  function TitleDest(req: RipRequest, kind: OutKind, volume: string, idx: nat, multi: bool, naming: map<nat, string>)
    : (string, string)
    requires kind.File? || kind.Demux?
  {
    if kind.File? then
      var base := if idx in naming then naming[idx] else TitleBasename(req.filenameTemplate, volume, idx + 1);
      var out := req.destDir + "/" + base + "." + kind.scheme;
      (kind.scheme + "://" + out, out)
    else
      var dir := if multi then req.destDir + "/t" + TwoDigits(idx + 1) + "/" else req.destDir + "/";
      (kind.scheme + "://" + dir, dir)
  }

  /** Where a title goes. The URL is the scheme and the path. A file lies in the chosen directory
      itself under one component and its extension: the name a TV plan gives that title, or the
      title's own, by its number counted from 1. A demuxed title gets a directory of its own
      there, `t` and that number in at least two digits, exactly when the rip has several. */
  lemma TargetsNamed(req: RipRequest, kind: OutKind, volume: string, idx: nat, multi: bool, naming: map<nat, string>)
    requires kind.File? || kind.Demux?
    ensures var (url, path) := TitleDest(req, kind, volume, idx, multi, naming);
            var front := |req.destDir| + 1;
            && url == kind.scheme + "://" + path
            && (req.destDir + "/") <= path
            && (kind.File? ==>
                  && front + |kind.scheme| + 1 <= |path|
                  && path[|path| - |kind.scheme| - 1..] == "." + kind.scheme
                  && var name := path[front..|path| - |kind.scheme| - 1];
                     if idx in naming then name == naming[idx]
                     else name == TitleBasename(req.filenameTemplate, volume, idx + 1) && Usable(name))
            && (kind.Demux? && !multi ==> |path| == front)
            && (kind.Demux? && multi ==>
                  && front + 3 < |path| && path[front] == 't' && path[|path| - 1] == '/'
                  && var d := path[front + 1..|path| - 1];
                     Number(d) && |d| >= 2 && (|d| > 2 ==> d[0] != '0') && Value(d) == idx + 1)
  {
    hide TitleBasename;
    hide TwoDigits;
    hide Value;
    hide Number;
    hide Usable;
    if kind.File? {
      var base := if idx in naming then naming[idx] else TitleBasename(req.filenameTemplate, volume, idx + 1);
      BasenameIsUsable(req.filenameTemplate, volume, idx + 1);
      FileApart(req.destDir, base, kind.scheme);
    } else if multi {
      TwoDigitsReadBack(idx + 1);
      TwoDigitsAreANumber(idx + 1);
      DirectoryApart(req.destDir, TwoDigits(idx + 1));
    }
  }

  lemma FileApart(dir: string, base: string, scheme: string)
    ensures var path := dir + "/" + base + "." + scheme;
            && (dir + "/") <= path && |path| == |dir| + |base| + |scheme| + 2
            && path[|path| - |scheme| - 1..] == "." + scheme
            && path[|dir| + 1..|path| - |scheme| - 1] == base
  {
  }

  lemma DirectoryApart(dir: string, d: string)
    ensures var path := dir + "/t" + d + "/";
            && (dir + "/") <= path && |path| == |dir| + |d| + 3
            && path[|dir| + 1] == 't' && path[|path| - 1] == '/' && path[|dir| + 2..|path| - 1] == d
  {
  }

  lemma Between(a: string, b: string, c: string, z: string, fold: char -> char)
    requires Folded(b, fold) != Folded(c, fold)
    ensures Folded(a + (b + z), fold) != Folded(a + (c + z), fold)
  {
    FoldJoin(a, b + z, fold);
    FoldJoin(a, c + z, fold);
    FoldJoin(b, z, fold);
    FoldJoin(c, z, fold);
    hide Folded;
    SameEnding(Folded(b, fold), Folded(c, fold), Folded(z, fold));
    Behind(Folded(a, fold), Folded(b, fold) + Folded(z, fold), Folded(c, fold) + Folded(z, fold));
  }

  lemma SameEnding(b: string, c: string, z: string)
    requires b != c
    ensures b + z != c + z
  {
    if |b| == |c| { assert (b + z)[..|b|] == b && (c + z)[..|c|] == c; }
  }

  lemma TwoDigitsAreANumber(n: nat)
    ensures Number(TwoDigits(n))
  {
  }

  /** A file's path, and its URL, around the part that tells titles apart. */
  lemma Around(scheme: string, dir: string, name: string, ending: string)
    ensures dir + name + ending == dir + (name + ending)
    ensures scheme + "://" + (dir + name + ending) == scheme + "://" + dir + (name + ending)
  {
  }

  lemma Dotted(dir: string, name: string, scheme: string)
    ensures dir + name + "." + scheme == dir + name + ("." + scheme)
  {
  }

  /** The distinct titles of a rip that no TV plan names go to pairwise different files or
      directories, by URL and by path, also where names are compared with case ignored. */
  lemma TargetsDiffer(req: RipRequest, kind: OutKind, volume: string, titles: seq<nat>, naming: map<nat, string>,
                      i: nat, j: nat, fold: char -> char)
    requires kind.File? || kind.Demux?
    requires forall a, b :: 0 <= a < b < |titles| ==> titles[a] != titles[b]
    requires i < j < |titles| && titles[i] !in naming && titles[j] !in naming && IgnoresCase(fold)
    ensures var multi := DemuxNeedsSubdirs(|titles|);
            var (urlI, pathI) := TitleDest(req, kind, volume, titles[i], multi, naming);
            var (urlJ, pathJ) := TitleDest(req, kind, volume, titles[j], multi, naming);
            Folded(urlI, fold) != Folded(urlJ, fold) && Folded(pathI, fold) != Folded(pathJ, fold)
  {
    hide TitleBasename;
    hide TwoDigits;
    hide Value;
    hide Number;
    hide IgnoresCase;
    hide Folded;
    var n, m := titles[i] + 1, titles[j] + 1;
    var dir, ending := req.destDir + (if kind.File? then "/" else "/t"), if kind.File? then "." + kind.scheme else "/";
    var a := if kind.File? then TitleBasename(req.filenameTemplate, volume, n) else TwoDigits(n);
    var b := if kind.File? then TitleBasename(req.filenameTemplate, volume, m) else TwoDigits(m);
    if kind.File? {
      NamesDiffer(req.filenameTemplate, volume, n, m, fold);
      Dotted(dir, a, kind.scheme);
      Dotted(dir, b, kind.scheme);
    } else {
      TwoDigitsReadBack(n);
      TwoDigitsReadBack(m);
      TwoDigitsAreANumber(n);
      TwoDigitsAreANumber(m);
      FoldNumber(a, fold);
      FoldNumber(b, fold);
    }
    Around(kind.scheme, dir, a, ending);
    Around(kind.scheme, dir, b, ending);
    Between(dir, a, b, ending, fold);
    Between(kind.scheme + "://" + dir, a, b, ending, fold);
  }
}
