/**
 * Points, rectangles (common/src/geometry.rs) and row-major pixel buffers with
 * the row copies of kernel/src/graphics/draw.rs.
 */
module Pixels {
  import opened Basics

  datatype Point = Point(x: nat, y: nat)

  datatype Size = Size(width: nat, height: nat)

  datatype Rect = Rect(origin: Point, size: Size) {
    predicate Contains(x: int, y: int) {
      origin.x <= x < origin.x + size.width && origin.y <= y < origin.y + size.height
    }
  }

  /** The smallest rectangle around both. */
  function Bounding(a: Rect, b: Rect): (r: Rect)
    ensures forall x, y :: a.Contains(x, y) || b.Contains(x, y) ==> r.Contains(x, y)
  {
    var x0, y0 := NatMin(a.origin.x, b.origin.x), NatMin(a.origin.y, b.origin.y);
    var x1 := NatMax(a.origin.x + a.size.width, b.origin.x + b.size.width);
    var y1 := NatMax(a.origin.y + a.size.height, b.origin.y + b.size.height);
    Rect(Point(x0, y0), Size(x1 - x0, y1 - y0))
  }

  function MergeRect(r1: Option<Rect>, r2: Rect): (r: Option<Rect>)
    ensures r.Some?
    ensures forall x, y :: (r1.Some? && r1.value.Contains(x, y)) || r2.Contains(x, y) ==> r.value.Contains(x, y)
  {
    match r1
    case Some(r) => Some(Bounding(r, r2))
    case None => Some(r2)
  }

  predicate Within(a: Rect, r: Rect) {
    && r.origin.x <= a.origin.x && a.origin.x + a.size.width <= r.origin.x + r.size.width
    && r.origin.y <= a.origin.y && a.origin.y + a.size.height <= r.origin.y + r.size.height
  }

  /** The merged rectangle is the smallest one around both. */
  lemma MergeIsLeast(r1: Option<Rect>, r2: Rect, r: Rect)
    ensures (r1.Some? ==> Within(r1.value, MergeRect(r1, r2).value)) && Within(r2, MergeRect(r1, r2).value)
    ensures (r1.Some? ==> Within(r1.value, r)) && Within(r2, r) ==> Within(MergeRect(r1, r2).value, r)
  {
  }

  // ----- row-major buffers

  /** The place of pixel (x, y) in rows of the given width. */
  function Idx(width: nat, x: nat, y: nat): nat { y * width + x }

  lemma IdxInside(width: nat, height: nat, x: nat, y: nat)
    requires x < width && y < height
    ensures Idx(width, x, y) < width * height
  {
    assert (y + 1) * width <= height * width;
  }

  lemma IdxInjective(width: nat, x: nat, y: nat, x': nat, y': nat)
    requires x < width && x' < width && Idx(width, x, y) == Idx(width, x', y')
    ensures x == x' && y == y'
  {
    DivModUnique(Idx(width, x, y), width, y, x);
    DivModUnique(Idx(width, x, y), width, y', x');
  }

  /** A buffer holding width times height pixels. */
  predicate Sized(buf: seq<nat>, size: Size) { |buf| == size.width * size.height }

  function Pixel(buf: seq<nat>, size: Size, x: nat, y: nat): nat
    requires Sized(buf, size) && x < size.width && y < size.height
  {
    IdxInside(size.width, size.height, x, y);
    buf[Idx(size.width, x, y)]
  }

  function Area(size: Size): nat { size.width * size.height }

  /** Where pixel number `i` of a buffer lies. */
  function Column(width: nat, i: nat): nat
    requires width > 0
  {
    i % width
  }

  function Row(width: nat, i: nat): nat
    requires width > 0
  {
    i / width
  }

  ghost function PixelOf(width: nat, f: (nat, nat) -> nat, i: nat): nat {
    if width == 0 then 0 else f(Column(width, i), Row(width, i))
  }

  /** The buffer whose pixels a function gives. */
  ghost function Image(size: Size, f: (nat, nat) -> nat): seq<nat> {
    seq(Area(size), (i: nat) => PixelOf(size.width, f, i))
  }

  lemma ImageSized(size: Size, f: (nat, nat) -> nat)
    ensures Sized(Image(size, f), size)
  {
  }

  lemma ImagePixel(size: Size, f: (nat, nat) -> nat, x: nat, y: nat)
    requires x < size.width && y < size.height
    ensures Sized(Image(size, f), size) && Pixel(Image(size, f), size, x, y) == f(x, y)
  {
    IdxInside(size.width, size.height, x, y);
    DivModUnique(Idx(size.width, x, y), size.width, y, x);
  }

  /** Pixels of `after` come from `f` inside the rectangle and from `before` outside it. */
  ghost predicate Painted(before: seq<nat>, after: seq<nat>, size: Size, r: Rect, src: seq<nat>, srcSize: Size, from: Point)
    requires Sized(src, srcSize)
  {
    && Sized(before, size) && Sized(after, size)
    && from.x + r.size.width <= srcSize.width && from.y + r.size.height <= srcSize.height
    && forall x: nat, y: nat :: x < size.width && y < size.height ==>
         Pixel(after, size, x, y) ==
         if r.Contains(x, y) then Pixel(src, srcSize, x - r.origin.x + from.x, y - r.origin.y + from.y)
         else Pixel(before, size, x, y)
  }

  lemma SizedRow(size: Size, x: nat, y: nat, w: nat)
    requires x + w <= size.width && y < size.height
    ensures Idx(size.width, x, y) + w <= size.width * size.height
  {
    assert (y + 1) * size.width <= size.height * size.width;
  }

  /** A row of `w` pixels from (x0, y0) covers pixel (x, y) exactly when it is in that row. */
  lemma RowHit(width: nat, x0: nat, y0: nat, w: nat, x: nat, y: nat)
    requires x0 + w <= width && x < width
    ensures Idx(width, x0, y0) <= Idx(width, x, y) < Idx(width, x0, y0) + w <==> y == y0 && x0 <= x < x0 + w
    ensures y == y0 && x0 <= x ==> Idx(width, x, y) - Idx(width, x0, y0) == x - x0
  {
    var d := Idx(width, x, y) - Idx(width, x0, y0);
    if 0 <= d < w {
      assert Idx(width, x, y) == Idx(width, x0 + d, y0);
      IdxInjective(width, x, y, x0 + d, y0);
    }
  }

  /** One copied row adds that row to what has been painted. */
  lemma RowPainted(before: seq<nat>, mid: seq<nat>, after: seq<nat>, size: Size, at: Point, w: nat, h: nat,
                   src: seq<nat>, srcSize: Size, from: Point)
    requires Sized(src, srcSize) && w <= srcSize.width && from.x + w <= srcSize.width && from.y + h < srcSize.height
    requires at.x + w <= size.width && at.y + h < size.height
    requires Painted(before, mid, size, Rect(at, Size(w, h)), src, srcSize, from)
    requires |after| == |mid|
    requires Idx(size.width, at.x, at.y + h) + w <= |mid| && Idx(srcSize.width, from.x, from.y + h) + w <= |src|
    requires forall k :: 0 <= k < |mid| ==>
      after[k] == if Idx(size.width, at.x, at.y + h) <= k < Idx(size.width, at.x, at.y + h) + w
                  then src[k - Idx(size.width, at.x, at.y + h) + Idx(srcSize.width, from.x, from.y + h)] else mid[k]
    ensures Painted(before, after, size, Rect(at, Size(w, h + 1)), src, srcSize, from)
  {
    var r := Rect(at, Size(w, h + 1));
    forall x: nat, y: nat | x < size.width && y < size.height
      ensures Pixel(after, size, x, y) ==
              if r.Contains(x, y) then Pixel(src, srcSize, x - at.x + from.x, y - at.y + from.y) else Pixel(before, size, x, y)
    {
      RowPixel(before, mid, after, size, at, w, h, src, srcSize, from, x, y);
    }
  }

  lemma RowPixel(before: seq<nat>, mid: seq<nat>, after: seq<nat>, size: Size, at: Point, w: nat, h: nat,
                 src: seq<nat>, srcSize: Size, from: Point, x: nat, y: nat)
    requires Sized(src, srcSize) && from.x + w <= srcSize.width && from.y + h < srcSize.height
    requires at.x + w <= size.width && at.y + h < size.height && x < size.width && y < size.height
    requires Painted(before, mid, size, Rect(at, Size(w, h)), src, srcSize, from)
    requires |after| == |mid|
    requires Idx(size.width, at.x, at.y + h) + w <= |mid| && Idx(srcSize.width, from.x, from.y + h) + w <= |src|
    requires forall k :: 0 <= k < |mid| ==>
      after[k] == if Idx(size.width, at.x, at.y + h) <= k < Idx(size.width, at.x, at.y + h) + w
                  then src[k - Idx(size.width, at.x, at.y + h) + Idx(srcSize.width, from.x, from.y + h)] else mid[k]
    ensures Sized(after, size) && Sized(before, size)
    ensures Pixel(after, size, x, y) ==
            if Rect(at, Size(w, h + 1)).Contains(x, y) then Pixel(src, srcSize, x - at.x + from.x, y - at.y + from.y)
            else Pixel(before, size, x, y)
  {
    RowHit(size.width, at.x, at.y + h, w, x, y);
    IdxInside(size.width, size.height, x, y);
    var k := Idx(size.width, x, y);
    if y == at.y + h && at.x <= x < at.x + w {
      assert Idx(srcSize.width, x - at.x + from.x, from.y + h) == Idx(srcSize.width, from.x, from.y + h) + (x - at.x);
    }
    hide Idx;
    assert Pixel(mid, size, x, y) == mid[k];
  }
}
