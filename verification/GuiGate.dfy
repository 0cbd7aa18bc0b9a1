/**
 The gate's look at a captured image (`has_ink` in src/gui_gate.rs): whether a region of it holds
 more than one colour.
 */
module GuiGate {
  import opened Basics
  import opened Bytes

  type I32 = x: int | -0x8000_0000 <= x < 0x8000_0000

  datatype Region = Region(x: I32, y: I32, w: I32, h: I32)

  function Max(a: int, b: int): int { if a > b then a else b }

  function Min(a: int, b: int): int { if a < b then a else b }

  /** A region inside the image: `x0 <= x < x1` and `y0 <= y < y1`. */
  datatype Clip = Clip(x0: nat, y0: nat, x1: int, y1: int)

  function Clipped(width: int, height: int, r: Region): Clip {
    Clip(Max(r.x, 0), Max(r.y, 0), Min(r.x + r.w, width), Min(r.y + r.h, height))
  }

  /** The stored row of a top-down one. */
  function StoredRow(height: int, bottomUp: bool, y: nat): int { if bottomUp then height - 1 - y else y }

  function Offset(width: nat, row: nat, x: nat): nat { (row * width + x) * 4 }

  /** The three colour bytes of a stored pixel, if the buffer reaches that far. */
  function Pixel(px: seq<Byte>, width: nat, row: nat, x: nat): Option<seq<Byte>> {
    var i := Offset(width, row, x);
    if i + 3 <= |px| then Some(px[i..i + 3]) else None
  }

  predicate Inside(c: Clip, y: int, x: int) { c.y0 <= y < c.y1 && c.x0 <= x < c.x1 }

  /** The order in which the pixels are looked at. */
  predicate Before(y: int, x: int, b: int, a: int) { y < b || (y == b && x < a) }

  ghost function Seen(px: seq<Byte>, width: int, height: int, bottomUp: bool, c: Clip, y: int, x: int): Option<seq<Byte>>
    requires Inside(c, y, x) && c.y1 <= height && c.x1 <= width
  {
    Pixel(px, width, StoredRow(height, bottomUp, y), x)
  }

  /** Some pixel of the region differs from its first one, and the buffer holds every pixel up
      to it. */
  ghost predicate Ink(px: seq<Byte>, width: int, height: int, bottomUp: bool, c: Clip)
    requires c.y1 <= height && c.x1 <= width
  {
    exists y, x :: Witness(px, width, height, bottomUp, c, y, x)
  }

  ghost predicate Witness(px: seq<Byte>, width: int, height: int, bottomUp: bool, c: Clip, y: int, x: int)
    requires c.y1 <= height && c.x1 <= width
  {
    && Inside(c, y, x) && Inside(c, c.y0, c.x0)
    && Seen(px, width, height, bottomUp, c, y, x) != Seen(px, width, height, bottomUp, c, c.y0, c.x0)
    && (forall b, a | Inside(c, b, a) && !Before(y, x, b, a) :: Seen(px, width, height, bottomUp, c, b, a).Some?)
  }

  method HasInk(px: seq<Byte>, width: I32, height: I32, bottomUp: bool, r: Region) returns (ink: bool)
    ensures ink <==> Ink(px, width, height, bottomUp, Clipped(width, height, r))
  {
    hide Pixel;
    var c := Clipped(width, height, r);
    var first: Option<seq<Byte>> := None;
    var y: int := c.y0;
    while y < c.y1
      invariant c.y0 <= y
      invariant first.None? ==> y == c.y0 || c.x0 >= c.x1
      invariant first.Some? ==> Inside(c, c.y0, c.x0) && first == Seen(px, width, height, bottomUp, c, c.y0, c.x0)
      invariant forall b, a | Inside(c, b, a) && b < y :: Seen(px, width, height, bottomUp, c, b, a) == first
    {
      var row := StoredRow(height, bottomUp, y);
      var x: int := c.x0;
      while x < c.x1
        invariant c.x0 <= x
        invariant first.None? ==> (y == c.y0 && x == c.x0) || c.x0 >= c.x1
        invariant first.Some? ==> Inside(c, c.y0, c.x0) && first == Seen(px, width, height, bottomUp, c, c.y0, c.x0)
        invariant forall b, a | Inside(c, b, a) && Before(b, a, y, x) :: Seen(px, width, height, bottomUp, c, b, a) == first
      {
        var p := Pixel(px, width, row, x);
        assert Inside(c, y, x) && p == Seen(px, width, height, bottomUp, c, y, x);
        if p.None? {
          NoWitness(px, width, height, bottomUp, c, y, x, first);
          return false;
        }
        if first.None? {
          first := p;
        } else if first != p {
          assert Witness(px, width, height, bottomUp, c, y, x);
          return true;
        }
        x := x + 1;
      }
      y := y + 1;
    }
    return false;
  }

  lemma NoWitness(px: seq<Byte>, width: int, height: int, bottomUp: bool, c: Clip, y: int, x: int, first: Option<seq<Byte>>)
    requires c.y1 <= height && c.x1 <= width && Inside(c, y, x)
    requires Seen(px, width, height, bottomUp, c, y, x).None?
    requires first.Some? ==> first == Seen(px, width, height, bottomUp, c, c.y0, c.x0)
    requires first.None? ==> y == c.y0 && x == c.x0
    requires forall b, a | Inside(c, b, a) && Before(b, a, y, x) :: Seen(px, width, height, bottomUp, c, b, a) == first
    ensures !Ink(px, width, height, bottomUp, c)
  {
    hide Pixel;
    forall b, a
      ensures !Witness(px, width, height, bottomUp, c, b, a)
    {
      if Inside(c, b, a) && !Before(b, a, y, x) {
        assert !Before(b, a, y, x);
      }
    }
  }

  /** The buffer holds the whole image. */
  predicate Whole(px: seq<Byte>, width: nat, height: nat) { |px| == height * width * 4 }

  lemma WholeHasEveryPixel(px: seq<Byte>, width: nat, height: nat, row: nat, x: nat)
    requires Whole(px, width, height) && row < height && x < width
    ensures Pixel(px, width, row, x).Some?
  {
    assert (row + 1) * width <= height * width;
  }

  /** Pixel `x` of row `y`, counted from the top, is in the image and in the region. */
  predicate InRegion(width: nat, height: nat, r: Region, y: int, x: int) {
    0 <= x < width && 0 <= y < height && r.x <= x < r.x + r.w && r.y <= y < r.y + r.h
  }

  /** Its colour: the first three of its four bytes, in rows stored from the top or the bottom. */
  ghost function Colour(px: seq<Byte>, width: nat, height: nat, bottomUp: bool, y: nat, x: nat): seq<Byte> {
    var i := (if bottomUp then (height - 1 - y) * width + x else y * width + x) * 4;
    if 0 <= i && i + 3 <= |px| then [px[i], px[i + 1], px[i + 2]] else []
  }

  ghost predicate Differ(px: seq<Byte>, width: nat, height: nat, bottomUp: bool, r: Region, y: int, x: int, b: int, a: int) {
    && InRegion(width, height, r, y, x) && InRegion(width, height, r, b, a)
    && Colour(px, width, height, bottomUp, y, x) != Colour(px, width, height, bottomUp, b, a)
  }

  lemma ClippedExactly(width: nat, height: nat, r: Region, y: int, x: int)
    ensures Inside(Clipped(width, height, r), y, x) <==> InRegion(width, height, r, y, x)
  {
  }

  lemma SeenIsColour(px: seq<Byte>, width: nat, height: nat, bottomUp: bool, r: Region, y: int, x: int)
    requires Whole(px, width, height) && InRegion(width, height, r, y, x)
    ensures Inside(Clipped(width, height, r), y, x)
    ensures Seen(px, width, height, bottomUp, Clipped(width, height, r), y, x)
            == Some(Colour(px, width, height, bottomUp, y, x))
  {
    ClippedExactly(width, height, r, y, x);
    WholeHasEveryPixel(px, width, height, StoredRow(height, bottomUp, y), x);
    var row := StoredRow(height, bottomUp, y);
    var i := Offset(width, row, x);
    assert i == (row * width + x) * 4;
    hide Offset;
    assert px[i..i + 3] == [px[i], px[i + 1], px[i + 2]];
  }

  /** Over a whole image there is ink exactly when two pixels of the region, so far as it lies in
      the image, differ in colour. */
  lemma InkIsTwoColours(px: seq<Byte>, width: nat, height: nat, bottomUp: bool, r: Region)
    requires Whole(px, width, height)
    ensures Ink(px, width, height, bottomUp, Clipped(width, height, r))
            <==> exists y, x, b, a :: Differ(px, width, height, bottomUp, r, y, x, b, a)
  {
    hide Pixel;
    hide Whole;
    hide Colour;
    hide StoredRow;
    var c := Clipped(width, height, r);
    forall y, x
      ensures Inside(c, y, x) <==> InRegion(width, height, r, y, x)
      ensures Inside(c, y, x) ==> Seen(px, width, height, bottomUp, c, y, x) == Some(Colour(px, width, height, bottomUp, y, x))
    {
      ClippedExactly(width, height, r, y, x);
      if InRegion(width, height, r, y, x) { SeenIsColour(px, width, height, bottomUp, r, y, x); }
    }
    hide Clipped;
    hide Seen;
    hide InRegion;
    if y, x, b, a :| Differ(px, width, height, bottomUp, r, y, x, b, a) {
      assert Inside(c, c.y0, c.x0);
      if Seen(px, width, height, bottomUp, c, y, x) != Seen(px, width, height, bottomUp, c, c.y0, c.x0) {
        assert Witness(px, width, height, bottomUp, c, y, x);
      } else {
        assert Witness(px, width, height, bottomUp, c, b, a);
      }
    }
    if y, x :| Witness(px, width, height, bottomUp, c, y, x) {
      assert Differ(px, width, height, bottomUp, r, y, x, c.y0, c.x0);
    }
  }

  /** `qx` stores the rows of `px` in the other order. */
  ghost predicate Flipped(px: seq<Byte>, qx: seq<Byte>, width: nat, height: nat) {
    forall row: nat, x: nat | row < height && x < width :: Pixel(qx, width, row, x) == Pixel(px, width, height - 1 - row, x)
  }

  /** Reading an image bottom up is reading the image with its rows flipped top down. */
  lemma BottomUpIsFlipped(px: seq<Byte>, qx: seq<Byte>, width: nat, height: nat, r: Region)
    requires Flipped(px, qx, width, height)
    ensures var c := Clipped(width, height, r);
            Ink(px, width, height, true, c) <==> Ink(qx, width, height, false, c)
  {
    hide Pixel;
    var c := Clipped(width, height, r);
    forall y, x | Inside(c, y, x)
      ensures Seen(px, width, height, true, c, y, x) == Seen(qx, width, height, false, c, y, x)
    {
    }
    forall y, x
      ensures Witness(px, width, height, true, c, y, x) <==> Witness(qx, width, height, false, c, y, x)
    {
    }
  }
}
