/**
 * Drawing into a layer's buffer (kernel/src/graphics/draw.rs): single pixels,
 * filled rectangles, the doubling fill and lines, and whether each marks as
 * dirty everything it paints.
 */
module Drawing {
  import opened Basics
  import opened Pixels
  import opened Layers
  import opened Lines

  /** How a drawing ended; `Overrun` stands for a write past the end of the buffer. */
  datatype Outcome = Done | SourcePositionOutOfBounds | RectSizeOutOfBounds | Overrun

  // ----- what a write does to single pixels

  /** One cell written; cells past the end do not exist. */
  function Put(buf: seq<nat>, i: int, code: nat): seq<nat> { if 0 <= i < |buf| then buf[i := code] else buf }

  lemma PutPixel(buf: seq<nat>, size: Size, x0: nat, y0: nat, code: nat, x: nat, y: nat)
    requires Sized(buf, size) && x0 < size.width && y0 < size.height && x < size.width && y < size.height
    ensures Idx(size.width, x0, y0) < |buf| && Sized(Put(buf, Idx(size.width, x0, y0), code), size)
    ensures Pixel(Put(buf, Idx(size.width, x0, y0), code), size, x, y) ==
            if x == x0 && y == y0 then code else Pixel(buf, size, x, y)
  {
    IdxInside(size.width, size.height, x0, y0);
    IdxInside(size.width, size.height, x, y);
    if Idx(size.width, x0, y0) == Idx(size.width, x, y) {
      IdxInjective(size.width, x, y, x0, y0);
    }
  }

  /** Marking exactly the pixel that was asked for is enough if and only if that pixel exists. */
  lemma PixelMarkIsHonest(l: Layer, p: Point)
    requires LayerOk(l) && p.x <= l.size.width && p.y <= l.size.height && Idx(l.size.width, p.x, p.y) < |l.buf|
    ensures (forall code: nat :: DrawnIn(l, Rect(p, Size(1, 1)), ExtendDirty(l, Rect(p, Size(1, 1))).(buf := Put(l.buf, Idx(l.size.width, p.x, p.y), code))))
            <==> p.x < l.size.width && p.y < l.size.height
  {
    var r := Rect(p, Size(1, 1));
    var i := Idx(l.size.width, p.x, p.y);
    if p.x < l.size.width && p.y < l.size.height {
      forall code: nat
        ensures DrawnIn(l, r, ExtendDirty(l, r).(buf := Put(l.buf, i, code)))
      {
        forall x: nat, y: nat | x < l.size.width && y < l.size.height && !r.Contains(x, y)
          ensures Pixel(Put(l.buf, i, code), l.size, x, y) == Pixel(l.buf, l.size, x, y)
        {
          PutPixel(l.buf, l.size, p.x, p.y, code, x, y);
        }
      }
    } else {
      NextRow(l.size, p);
      var code := l.buf[i] + 1;
      var l' := ExtendDirty(l, r).(buf := Put(l.buf, i, code));
      PutPixel(l.buf, l.size, 0, p.y + 1, code, 0, p.y + 1);
      assert Pixel(l'.buf, l.size, 0, p.y + 1) != Pixel(l.buf, l.size, 0, p.y + 1);
      assert !DrawnIn(l, r, l');
    }
  }

  /** One step past the right edge is the first pixel of the next row. */
  lemma NextRow(size: Size, p: Point)
    requires p.x <= size.width && p.y <= size.height && !(p.x < size.width && p.y < size.height)
    requires Idx(size.width, p.x, p.y) < size.width * size.height
    ensures p.x == size.width && p.y + 1 < size.height && size.width > 0
    ensures Idx(size.width, p.x, p.y) == Idx(size.width, 0, p.y + 1)
  {
  }

  /** Every pixel of `r` is `code` and every other pixel is as before. */
  ghost predicate FilledRect(before: seq<nat>, after: seq<nat>, size: Size, r: Rect, code: nat) {
    && Sized(before, size) && Sized(after, size)
    && forall x: nat, y: nat :: x < size.width && y < size.height ==>
         Pixel(after, size, x, y) == if r.Contains(x, y) then code else Pixel(before, size, x, y)
  }

  /** One more row of the rectangle. */
  lemma FilledRow(before: seq<nat>, mid: seq<nat>, after: seq<nat>, size: Size, at: Point, w: nat, h: nat, code: nat)
    requires at.x + w <= size.width && at.y + h < size.height
    requires FilledRect(before, mid, size, Rect(at, Size(w, h)), code) && |after| == |mid|
    requires Idx(size.width, at.x, at.y + h) + w <= |mid|
    requires forall k :: 0 <= k < |mid| ==>
      after[k] == if Idx(size.width, at.x, at.y + h) <= k < Idx(size.width, at.x, at.y + h) + w then code else mid[k]
    ensures FilledRect(before, after, size, Rect(at, Size(w, h + 1)), code)
  {
    forall x: nat, y: nat | x < size.width && y < size.height
      ensures Pixel(after, size, x, y) == if Rect(at, Size(w, h + 1)).Contains(x, y) then code else Pixel(before, size, x, y)
    {
      RowHit(size.width, at.x, at.y + h, w, x, y);
      IdxInside(size.width, size.height, x, y);
      assert Pixel(mid, size, x, y) == mid[Idx(size.width, x, y)];
      hide Idx;
    }
  }

  /** A row already painted is all one colour, so it can be copied to the next. */
  lemma RowIsFilled(before: seq<nat>, mid: seq<nat>, size: Size, at: Point, w: nat, h: nat, code: nat)
    requires at.x + w <= size.width && at.y + h <= size.height && h > 0
    requires FilledRect(before, mid, size, Rect(at, Size(w, h)), code)
    ensures var i := Idx(size.width, at.x, at.y + h - 1);
            i + w <= |mid| && forall k :: i <= k < i + w ==> mid[k] == code
  {
    SizedRow(size, at.x, at.y + h - 1, w);
    var i := Idx(size.width, at.x, at.y + h - 1);
    forall k | i <= k < i + w
      ensures mid[k] == code
    {
      var x := at.x + (k - i);
      assert k == Idx(size.width, x, at.y + h - 1);
      assert Pixel(mid, size, x, at.y + h - 1) == mid[k];
    }
  }

  lemma CopiedRow(mid: seq<nat>, src: nat, dst: nat, w: nat, code: nat)
    requires src + w <= |mid| && dst + w <= |mid|
    requires forall k :: src <= k < src + w ==> mid[k] == code
    ensures var after := mid[..dst] + mid[src..src + w] + mid[dst + w..];
            |after| == |mid| && forall k :: 0 <= k < |mid| ==> after[k] == if dst <= k < dst + w then code else mid[k]
  {
  }

  lemma BelowIdx(width: nat, x: nat, y: nat)
    ensures Idx(width, x, y) + width == Idx(width, x, y + 1)
  {
  }

  // ----- lines

  /** The first `n` pixels of the line written in order. */
  function Plot(buf: seq<nat>, width: nat, s: Segment, code: nat, n: nat): (r: seq<nat>)
    ensures |r| == |buf|
  {
    if n == 0 then buf
    else var p := LinePoint(s, n - 1); Put(Plot(buf, width, s, code, n - 1), p.1 * width + p.0, code)
  }

  lemma PlotMore(buf: seq<nat>, width: nat, s: Segment, code: nat, k: nat)
    requires var (x, y) := LinePoint(s, k); 0 <= y * width + x < |buf|
    ensures var (x, y) := LinePoint(s, k);
            Plot(buf, width, s, code, k + 1) == Plot(buf, width, s, code, k)[y * width + x := code]
  {
  }

  ghost predicate OnLine(s: Segment, n: nat, x: nat, y: nat) { exists k: nat :: k < n && LinePoint(s, k) == (x, y) }

  predicate Fits(s: Segment, size: Size) {
    OnScreen(s.x0, s.y0, size.width - 1, size.height - 1) && OnScreen(s.x1, s.y1, size.width - 1, size.height - 1)
  }

  /** Exactly the pixels of the line change. */
  lemma {:induction false} PlotPixel(buf: seq<nat>, size: Size, s: Segment, code: nat, n: nat, x: nat, y: nat)
    requires Sized(buf, size) && Fits(s, size) && n <= Steps(s) + 1 && x < size.width && y < size.height
    ensures Sized(Plot(buf, size.width, s, code, n), size)
    ensures Pixel(Plot(buf, size.width, s, code, n), size, x, y) == if OnLine(s, n, x, y) then code else Pixel(buf, size, x, y)
  {
    hide LinePoint, Steps, OnLine, Pixel;
    if n > 0 {
      PlotPixel(buf, size, s, code, n - 1, x, y);
      PointFits(s, size, n - 1);
      var p := LinePoint(s, n - 1);
      PutPixel(Plot(buf, size.width, s, code, n - 1), size, p.0, p.1, code, x, y);
      OnLineMore(s, n - 1, x, y);
    } else {
      NotOnLine(s, n, x, y);
    }
  }

  lemma OnLineMore(s: Segment, n: nat, x: nat, y: nat)
    ensures OnLine(s, n + 1, x, y) <==> OnLine(s, n, x, y) || LinePoint(s, n) == (x, y)
  {
    hide LinePoint;
    if OnLine(s, n + 1, x, y) {
      var k: nat :| k < n + 1 && LinePoint(s, k) == (x, y);
      assert k < n || k == n;
    }
  }

  lemma NotOnLine(s: Segment, n: nat, x: nat, y: nat)
    requires n == 0
    ensures !OnLine(s, n, x, y)
  {
  }

  lemma PointFits(s: Segment, size: Size, k: nat)
    requires Fits(s, size) && k <= Steps(s)
    ensures var (x, y) := LinePoint(s, k);
            0 <= y * size.width + x < size.width * size.height && 0 <= x < size.width && 0 <= y < size.height
  {
    LineShape(s, k);
    var (x, y) := LinePoint(s, k);
    IdxInside(size.width, size.height, x, y);
  }

  function LineBox(s: Segment): Rect
    requires s.x0 >= 0 && s.y0 >= 0 && s.x1 >= 0 && s.y1 >= 0
  {
    Rect(Point(NatMin(s.x0, s.x1), NatMin(s.y0, s.y1)), Size(Abs(s.x1 - s.x0) + 1, Abs(s.y1 - s.y0) + 1))
  }

  /** The box reaches from one end to the other and no further. */
  lemma LineBoxIsLeast(s: Segment, r: Rect)
    requires s.x0 >= 0 && s.y0 >= 0 && s.x1 >= 0 && s.y1 >= 0
    ensures Within(LineBox(s), r) <==> r.Contains(s.x0, s.y0) && r.Contains(s.x1, s.y1)
  {
  }

  /** The marked box holds every pixel of the line. */
  lemma LineInBox(s: Segment, size: Size, x: nat, y: nat)
    requires Fits(s, size) && OnLine(s, Steps(s) + 1, x, y)
    ensures LineBox(s).Contains(x, y)
  {
    var k: nat :| k < Steps(s) + 1 && LinePoint(s, k) == (x, y);
    LineShape(s, k);
  }

  // ----- honest marks

  function RowsPainted(r: Rect): Rect { r.(size := r.size.(height := NatMax(r.size.height, 1))) }

  lemma RectMarkCovers(l: Layer, r: Rect, code: nat, after: seq<nat>)
    requires LayerOk(l) && FilledRect(l.buf, after, l.size, RowsPainted(r), code) && (r.size.height > 0 || r.size.width == 0)
    ensures DrawnIn(l, r, ExtendDirty(l, r).(buf := after))
  {
  }

  /** With no rows, painting the first row in a new colour changes a pixel outside the empty mark. */
  lemma RectMarkMisses(l: Layer, r: Rect) returns (code: nat, after: seq<nat>)
    requires LayerOk(l) && r.size.height == 0 && r.size.width > 0
    requires r.origin.x + r.size.width <= l.size.width && r.origin.y < l.size.height
    ensures FilledRect(l.buf, after, l.size, RowsPainted(r), code) && !DrawnIn(l, r, ExtendDirty(l, r).(buf := after))
  {
    var x, y, painted := r.origin.x, r.origin.y, RowsPainted(r);
    code := Pixel(l.buf, l.size, x, y) + 1;
    var f: (nat, nat) -> nat := (u: nat, v: nat) =>
      if painted.Contains(u, v) then code else if u < l.size.width && v < l.size.height then Pixel(l.buf, l.size, u, v) else 0;
    after := Image(l.size, f);
    hide Image, Pixel;
    ImagePixel(l.size, f, x, y);
    forall u: nat, v: nat | u < l.size.width && v < l.size.height
      ensures Pixel(after, l.size, u, v) == f(u, v)
    {
      ImagePixel(l.size, f, u, v);
    }
    assert Pixel(after, l.size, x, y) != Pixel(l.buf, l.size, x, y);
  }

  /** A rectangle on the canvas is covered by its own mark, in every colour, exactly when it has a row or has no column. */
  lemma RectMarkIsHonest(l: Layer, r: Rect)
    requires LayerOk(l) && r.origin.x + r.size.width <= l.size.width && r.origin.y + NatMax(r.size.height, 1) <= l.size.height
    ensures (forall code: nat, after :: FilledRect(l.buf, after, l.size, RowsPainted(r), code) ==> DrawnIn(l, r, ExtendDirty(l, r).(buf := after)))
            <==> r.size.height > 0 || r.size.width == 0
  {
    hide FilledRect, DrawnIn;
    if r.size.height > 0 || r.size.width == 0 {
      forall code: nat, after | FilledRect(l.buf, after, l.size, RowsPainted(r), code)
        ensures DrawnIn(l, r, ExtendDirty(l, r).(buf := after))
      {
        RectMarkCovers(l, r, code, after);
      }
    } else {
      var code, after := RectMarkMisses(l, r);
    }
  }

  lemma FillMarkIsHonest(l: Layer, after: seq<nat>)
    requires LayerOk(l) && Sized(after, l.size)
    ensures DrawnIn(l, Full(l), ExtendDirty(l, Full(l)).(buf := after))
  {
  }

  /** A line is always covered by the box of its clipped ends. */
  lemma LineMarkIsHonest(l: Layer, s: Segment, code: nat)
    requires LayerOk(l) && Fits(s, l.size)
    ensures DrawnIn(l, LineBox(s), ExtendDirty(l, LineBox(s)).(buf := Plot(l.buf, l.size.width, s, code, Steps(s) + 1)))
  {
    var r, after := LineBox(s), Plot(l.buf, l.size.width, s, code, Steps(s) + 1);
    forall x: nat, y: nat | x < l.size.width && y < l.size.height && !r.Contains(x, y)
      ensures Pixel(after, l.size, x, y) == Pixel(l.buf, l.size, x, y)
    {
      hide Plot, Pixel, OnLine, Steps, LineBox;
      PlotPixel(l.buf, l.size, s, code, Steps(s) + 1, x, y);
      if OnLine(s, Steps(s) + 1, x, y) {
        LineInBox(s, l.size, x, y);
      }
    }
  }

  // ----- the drawing surface

  class Canvas {
    const size: Size
    const buf: array<nat>
    var dirty: Option<Rect>

    ghost predicate Valid()
      reads this
    {
      buf.Length == size.width * size.height
    }

    constructor (l: Layer)
      requires LayerOk(l)
      ensures Valid() && fresh(buf) && size == l.size && buf[..] == l.buf && dirty == l.dirty
    {
      size := l.size;
      buf := new nat[|l.buf|](i requires 0 <= i < |l.buf| => l.buf[i]);
      dirty := l.dirty;
    }

    method ExtendDirtyRect(r: Rect)
      modifies this`dirty
      ensures dirty == MergeRect(old(dirty), r)
    {
      dirty := MergeRect(dirty, r);
    }

    /** The bounds test lets a point one past either edge through. */
    method DrawPixel(p: Point, code: nat) returns (r: Outcome)
      requires Valid()
      modifies this`dirty, buf
      ensures p.x > size.width || p.y > size.height <==> r == SourcePositionOutOfBounds
      ensures r == Overrun <==> p.x <= size.width && p.y <= size.height && Idx(size.width, p.x, p.y) >= buf.Length
      ensures r == Done || r == SourcePositionOutOfBounds || r == Overrun
      ensures r == Done ==> buf[..] == Put(old(buf[..]), Idx(size.width, p.x, p.y), code) && dirty == MergeRect(old(dirty), Rect(p, Size(1, 1)))
      ensures r != Done ==> buf[..] == old(buf[..]) && dirty == old(dirty)
    {
      if p.x > size.width || p.y > size.height {
        return SourcePositionOutOfBounds;
      }
      var i := Idx(size.width, p.x, p.y);
      if i >= buf.Length {
        return Overrun;
      }
      buf[i] := code;
      ExtendDirtyRect(Rect(p, Size(1, 1)));
      return Done;
    }

    /** Fills the first row, then copies each row to the next; a rectangle of no rows still gets its first row. */
    method DrawRect(rect: Rect, code: nat) returns (r: Outcome)
      requires Valid()
      modifies this`dirty, buf
      ensures r == SourcePositionOutOfBounds <==> rect.origin.x > size.width || rect.origin.y > size.height
      ensures r == RectSizeOutOfBounds <==>
              && rect.origin.x <= size.width && rect.origin.y <= size.height
              && (rect.origin.x + rect.size.width > size.width || rect.origin.y + rect.size.height > size.height)
      ensures r == Overrun <==>
              && rect.origin.x + rect.size.width <= size.width && rect.origin.y == size.height
              && rect.size.height == 0 && rect.size.width > 0
      ensures r == Done ==>
                && FilledRect(old(buf[..]), buf[..], size, RowsPainted(rect), code)
                && dirty == MergeRect(old(dirty), rect)
      ensures r != Done ==> buf[..] == old(buf[..]) && dirty == old(dirty)
    {
      var at, w, h := rect.origin, rect.size.width, rect.size.height;
      if at.x > size.width || at.y > size.height {
        return SourcePositionOutOfBounds;
      }
      if at.x + w > size.width || at.y + h > size.height {
        return RectSizeOutOfBounds;
      }
      if w > 0 && at.y == size.height {
        return Overrun;
      }
      if w > 0 {
        FillRows(at, w, NatMax(h, 1), code);
      }
      ExtendDirtyRect(rect);
      return Done;
    }

    method FillRows(at: Point, w: nat, h: nat, code: nat)
      requires Valid() && w > 0 && h > 0 && at.x + w <= size.width && at.y + h <= size.height
      modifies buf
      ensures FilledRect(old(buf[..]), buf[..], size, Rect(at, Size(w, h)), code)
    {
      ghost var before := buf[..];
      assert FilledRect(before, before, size, Rect(at, Size(w, 0)), code);
      SizedRow(size, at.x, at.y, w);
      hide FilledRect, Idx;
      var ptr := Idx(size.width, at.x, at.y);
      forall j | 0 <= j < w {
        buf[ptr + j] := code;
      }
      FilledRow(before, before, buf[..], size, at, w, 0, code);
      for i := 1 to h
        invariant ptr == Idx(size.width, at.x, at.y + i - 1)
        invariant FilledRect(before, buf[..], size, Rect(at, Size(w, i)), code)
      {
        ghost var mid := buf[..];
        SizedRow(size, at.x, at.y + i, w);
        BelowIdx(size.width, at.x, at.y + i - 1);
        RowIsFilled(before, mid, size, at, w, i, code);
        var src := ptr;
        ptr := ptr + size.width;
        CopyRow(src, ptr, w);
        CopiedRow(mid, src, ptr, w, code);
        FilledRow(before, mid, buf[..], size, at, w, i, code);
      }
    }

    method CopyRow(src: nat, dst: nat, w: nat)
      requires src + w <= buf.Length && dst + w <= buf.Length
      modifies buf
      ensures buf[..] == old(buf[..dst] + buf[src..src + w] + buf[dst + w..])
    {
      forall j | 0 <= j < w {
        buf[dst + j] := buf[src + j];
      }
    }

    /** Writes one pixel and doubles the written part until the buffer is full. */
    method Fill(code: nat) returns (r: Outcome)
      requires Valid()
      modifies this`dirty, buf
      ensures r == Overrun <==> size.width == 0 || size.height == 0
      ensures r == Overrun || r == Done
      ensures r == Done ==> (forall i :: 0 <= i < buf.Length ==> buf[i] == code) && dirty == MergeRect(old(dirty), Rect(Point(0, 0), size))
      ensures r != Done ==> dirty == old(dirty)
    {
      var count := size.width * size.height;
      if count == 0 {
        assert size.width > 0 && size.height > 0 ==> size.width * size.height > 0;
        return Overrun;
      }
      buf[0] := code;
      var copied := 1;
      while copied < count
        invariant 1 <= copied <= count
        invariant dirty == old(dirty) && forall i :: 0 <= i < copied ==> buf[i] == code
      {
        var n := NatMin(count - copied, copied);
        forall j | 0 <= j < n {
          buf[copied + j] := buf[j];
        }
        copied := copied + n;
      }
      ExtendDirtyRect(Rect(Point(0, 0), size));
      return Done;
    }

    /** Draws the clipped line: each step of the error-term loop writes the next pixel of `LinePoint`. */
    method DrawLine(start: Point, end: Point, code: nat) returns (clip: Option<Segment>)
      requires Valid()
      modifies this`dirty, buf
      ensures clip.Some? ==>
                && Fits(clip.value, size) && Nested(Segment(start.x, start.y, end.x, end.y), clip.value)
                && buf[..] == Plot(old(buf[..]), size.width, clip.value, code, Steps(clip.value) + 1)
                && dirty == MergeRect(old(dirty), LineBox(clip.value))
      ensures start.x < size.width && start.y < size.height ==> clip.Some? && clip.value.x0 == start.x && clip.value.y0 == start.y
      ensures end.x < size.width && end.y < size.height ==> clip.Some? && clip.value.x1 == end.x && clip.value.y1 == end.y
      ensures clip.None? <==> Refused(Segment(start.x, start.y, end.x, end.y), size.width - 1, size.height - 1)
      ensures Meets(Segment(start.x, start.y, end.x, end.y), size.width - 1, size.height - 1) ==> clip.Some?
      ensures clip.Some? ==>
                var l := Segment(start.x, start.y, end.x, end.y);
                WithinTwo(l, clip.value.x0, clip.value.y0) && WithinTwo(l, clip.value.x1, clip.value.y1)
      ensures clip.None? ==> buf[..] == old(buf[..]) && dirty == old(dirty)
    {
      hide Nested, WithinTwo, Refused, Meets;
      clip := ClipLine(start.x, start.y, end.x, end.y, size.width - 1, size.height - 1);
      if clip.None? {
        return;
      }
      Trace(clip.value, code);
      ExtendDirtyRect(LineBox(clip.value));
    }

    method Trace(s: Segment, code: nat)
      requires Valid() && Fits(s, size)
      modifies buf
      ensures buf[..] == Plot(old(buf[..]), size.width, s, code, Steps(s) + 1)
    {
      hide LinePoint, Steps, Fits, AtStep, Plot;
      ghost var before := buf[..];
      var x, y := s.x0, s.y0;
      var dx, dy := Abs(s.x1 - s.x0), -(Abs(s.y1 - s.y0) as int);
      var sx, sy := if s.x0 < s.x1 then 1 else -1, if s.y0 < s.y1 then 1 else -1;
      var err := dx + dy;
      ghost var k: nat := 0;
      FirstStep(s, x, y, err);
      NothingPlotted(before, size.width, s, code);
      while true
        invariant k <= Steps(s) && AtStep(s, k, x, y, err)
        invariant buf[..] == Plot(before, size.width, s, code, k)
        decreases Steps(s) - k
      {
        StepFacts(s, k, x, y, err);
        LineEnds(s, k);
        PointFits(s, size, k);
        buf[y * size.width + x] := code;
        PlotMore(before, size.width, s, code, k);
        if x == s.x1 && y == s.y1 {
          break;
        }
        NextStep(s, k, x, y, err);
        var e2 := 2 * err;
        if e2 >= dy {
          err := err + dy;
          x := x + sx;
        }
        if e2 <= dx {
          err := err + dx;
          y := y + sy;
        }
        k := k + 1;
      }
    }
  }

  // ----- the loop state along the line

  /** The pixel and the error term the loop holds at step `k`. */
  ghost predicate AtStep(s: Segment, k: nat, x: int, y: int, err: int) {
    var (a, b) := Counts(s, k);
    && (x, y) == LinePoint(s, k) == Offset(s, a, b)
    && err == ErrorTerm(Abs(s.x1 - s.x0), Abs(s.y1 - s.y0), a, b)
  }

  lemma StepFacts(s: Segment, k: nat, x: int, y: int, err: int)
    requires AtStep(s, k, x, y, err)
    ensures (x, y) == LinePoint(s, k)
  {
  }

  lemma FirstStep(s: Segment, x: int, y: int, err: int)
    requires x == s.x0 && y == s.y0 && err == Abs(s.x1 - s.x0) - Abs(s.y1 - s.y0)
    ensures AtStep(s, 0, x, y, err)
  {
    hide LinePoint, ErrorTerm, Counts;
    StartOfLine(s);
  }

  lemma NothingPlotted(buf: seq<nat>, width: nat, s: Segment, code: nat)
    ensures Plot(buf, width, s, code, 0) == buf
  {
  }

  /** The two tests of the loop body lead from one step to the next. */
  lemma NextStep(s: Segment, k: nat, x: int, y: int, err: int)
    requires k < Steps(s) && AtStep(s, k, x, y, err)
    ensures var dx, dy := Abs(s.x1 - s.x0), -(Abs(s.y1 - s.y0) as int);
            var sx, sy := if s.x0 < s.x1 then 1 else -1, if s.y0 < s.y1 then 1 else -1;
            AtStep(s, k + 1, if 2 * err >= dy then x + sx else x, if 2 * err <= dx then y + sy else y,
                   err + (if 2 * err >= dy then dy else 0) + (if 2 * err <= dx then dx else 0))
  {
    hide LinePoint, ErrorTerm, Counts, Steps;
    LoopStep(s, k);
  }
}
