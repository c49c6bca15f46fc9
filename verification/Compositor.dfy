/**
 * The frame buffer (kernel/src/graphics/frame_buf.rs) and the layer manager
 * (kernel/src/graphics/multi_layer.rs) as they run: dirty-rectangle repainting
 * into a shadow buffer and the flush to video memory.
 */
module Compositor {
  import opened Basics
  import opened Pixels
  import opened Layers
  import opened LayerRuns
  import opened Lines
  import opened Drawing

  /** `after` is `before` with layer `l` drawn over it inside `keep`. */
  ghost predicate Overlaid(before: seq<nat>, after: seq<nat>, size: Size, l: Layer, keep: Rect)
    requires LayerOk(l)
  {
    && Sized(before, size) && Sized(after, size)
    && forall x: nat, y: nat :: x < size.width && y < size.height ==>
         Pixel(after, size, x, y) ==
         if keep.Contains(x, y) && Covers(l, x, y) then Pixel(l.buf, l.size, x - l.pos.x, y - l.pos.y)
         else Pixel(before, size, x, y)
  }

  lemma PaintedIsOverlaid(before: seq<nat>, after: seq<nat>, size: Size, l: Layer, keep: Rect, r: Rect)
    requires LayerOk(l)
    requires r.origin.x == NatMax(l.pos.x, keep.origin.x) && r.origin.y == NatMax(l.pos.y, keep.origin.y)
    requires r.origin.x + r.size.width == NatMin(NatMin(l.pos.x + l.size.width, keep.origin.x + keep.size.width), size.width)
    requires r.origin.y + r.size.height == NatMin(NatMin(l.pos.y + l.size.height, keep.origin.y + keep.size.height), size.height)
    requires Painted(before, after, size, r, l.buf, l.size, Point(r.origin.x - l.pos.x, r.origin.y - l.pos.y))
    ensures Overlaid(before, after, size, l, keep)
  {
  }

  lemma NothingOverlaid(screen: seq<nat>, size: Size, l: Layer, keep: Rect)
    requires LayerOk(l) && Sized(screen, size)
    requires var x0, y0 := NatMax(l.pos.x, keep.origin.x), NatMax(l.pos.y, keep.origin.y);
             || x0 >= NatMin(NatMin(l.pos.x + l.size.width, keep.origin.x + keep.size.width), size.width)
             || y0 >= NatMin(NatMin(l.pos.y + l.size.height, keep.origin.y + keep.size.height), size.height)
    ensures Overlaid(screen, screen, size, l, keep)
  {
  }

  class FrameBuffer {
    const size: Size
    const shadow: array<nat>
    const vram: array<nat>

    ghost predicate Valid()
      reads this
    {
      shadow != vram && shadow.Length == size.width * size.height && vram.Length == shadow.Length
    }

    constructor (size: Size)
      ensures Valid() && this.size == size && fresh(shadow) && fresh(vram) && shadow[..] == vram[..]
    {
      this.size := size;
      shadow := new nat[size.width * size.height](_ => 0);
      vram := new nat[size.width * size.height](_ => 0);
    }

    /** Copies a rectangle of another buffer row by row, clipped to both buffers. */
    method CopyRectFrom(src: seq<nat>, srcSize: Size, srcRect: Rect, dst: Point)
      requires Valid() && Sized(src, srcSize)
      modifies shadow
      ensures var from := Point(NatMin(srcRect.origin.x, srcSize.width), NatMin(srcRect.origin.y, srcSize.height));
              var at := Point(NatMin(dst.x, size.width), NatMin(dst.y, size.height));
              var w := NatMin(NatMin(srcRect.origin.x + srcRect.size.width, srcSize.width) - from.x, size.width - at.x);
              var h := NatMin(NatMin(srcRect.origin.y + srcRect.size.height, srcSize.height) - from.y, size.height - at.y);
              Painted(old(shadow[..]), shadow[..], size, Rect(at, if w == 0 || h == 0 then Size(0, 0) else Size(w, h)), src, srcSize, from)
    {
      var from := Point(NatMin(srcRect.origin.x, srcSize.width), NatMin(srcRect.origin.y, srcSize.height));
      var clipW := NatMin(srcRect.origin.x + srcRect.size.width, srcSize.width) - from.x;
      var clipH := NatMin(srcRect.origin.y + srcRect.size.height, srcSize.height) - from.y;
      var at := Point(NatMin(dst.x, size.width), NatMin(dst.y, size.height));
      var w, h := NatMin(clipW, size.width - at.x), NatMin(clipH, size.height - at.y);
      if w == 0 || h == 0 {
        return;
      }
      CopyRows(src, srcSize, from, at, w, h);
    }

    method CopyRows(src: seq<nat>, srcSize: Size, from: Point, at: Point, w: nat, h: nat)
      requires Valid() && Sized(src, srcSize)
      requires from.x + w <= srcSize.width && from.y + h <= srcSize.height
      requires at.x + w <= size.width && at.y + h <= size.height
      modifies shadow
      ensures Painted(old(shadow[..]), shadow[..], size, Rect(at, Size(w, h)), src, srcSize, from)
    {
      ghost var before := shadow[..];
      for i := 0 to h
        invariant Painted(before, shadow[..], size, Rect(at, Size(w, i)), src, srcSize, from)
      {
        ghost var mid := shadow[..];
        SizedRow(srcSize, from.x, from.y + i, w);
        SizedRow(size, at.x, at.y + i, w);
        var srcOffset, dstOffset := Idx(srcSize.width, from.x, from.y + i), Idx(size.width, at.x, at.y + i);
        hide Idx, Painted;
        forall j | 0 <= j < w {
          shadow[dstOffset + j] := src[srcOffset + j];
        }
        RowPainted(before, mid, shadow[..], size, at, w, i, src, srcSize, from);
      }
    }

    /** Draws the part of a layer that lies in `keep` and on the screen. */
    method ApplyLayerBuf(l: Layer, keep: Rect)
      requires Valid() && LayerOk(l)
      modifies shadow
      ensures Overlaid(old(shadow[..]), shadow[..], size, l, keep)
    {
      var x0, y0 := NatMax(l.pos.x, keep.origin.x), NatMax(l.pos.y, keep.origin.y);
      var x1 := NatMin(NatMin(l.pos.x + l.size.width, keep.origin.x + keep.size.width), size.width);
      var y1 := NatMin(NatMin(l.pos.y + l.size.height, keep.origin.y + keep.size.height), size.height);
      ghost var before := shadow[..];
      if x0 >= x1 || y0 >= y1 {
        NothingOverlaid(before, size, l, keep);
        return;
      }
      hide Painted, Overlaid;
      CopyRectFrom(l.buf, l.size, Rect(Point(x0 - l.pos.x, y0 - l.pos.y), Size(x1 - x0, y1 - y0)), Point(x0, y0));
      PaintedIsOverlaid(before, shadow[..], size, l, keep, Rect(Point(x0, y0), Size(x1 - x0, y1 - y0)));
    }

    /** Copies a rectangle of the shadow buffer to video memory. */
    method FlushRectToVram(rect: Rect)
      requires Valid()
      modifies vram
      ensures forall x: nat, y: nat :: x < size.width && y < size.height ==>
                Pixel(vram[..], size, x, y) ==
                if rect.Contains(x, y) then Pixel(shadow[..], size, x, y) else Pixel(old(vram[..]), size, x, y)
    {
      var at := Point(NatMin(rect.origin.x, size.width), NatMin(rect.origin.y, size.height));
      var w, h := NatMin(rect.size.width, size.width - at.x), NatMin(rect.size.height, size.height - at.y);
      if w == 0 || h == 0 {
        return;
      }
      ghost var before, src := vram[..], shadow[..];
      for i := 0 to h
        invariant shadow[..] == src && Painted(before, vram[..], size, Rect(at, Size(w, i)), src, size, at)
      {
        ghost var mid := vram[..];
        SizedRow(size, at.x, at.y + i, w);
        var offset := Idx(size.width, at.x, at.y + i);
        hide Idx, Painted;
        forall j | 0 <= j < w {
          vram[offset + j] := shadow[offset + j];
        }
        RowPainted(before, mid, vram[..], size, at, w, i, src, size, at);
      }
    }
  }

  // ----- the layer manager

  datatype Shape =
    | PixelAt(point: Point, code: nat)
    | FilledRectangle(rect: Rect, code: nat)
    | Everything(code: nat)
    | Line(start: Point, end: Point, code: nat)

  /** The drawings that mark everything they paint. */
  predicate Honest(l: Layer, shape: Shape) {
    match shape
    case PixelAt(p, _) => (p.x < l.size.width && p.y < l.size.height) || p.x > l.size.width || p.y > l.size.height
    case FilledRectangle(r, _) => r.size.height > 0 || r.size.width == 0
    case Everything(_) => l.size.width > 0 && l.size.height > 0
    case Line(_, _, _) => true
  }

  /** The shapes that are drawn at all: those neither refused nor past the end of the buffer. */
  ghost predicate Drawable(l: Layer, shape: Shape) {
    var w, h := l.size.width, l.size.height;
    match shape
    case PixelAt(p, _) => p.x <= w && p.y <= h && Idx(w, p.x, p.y) < |l.buf|
    case FilledRectangle(r, _) =>
      && r.origin.x + r.size.width <= w && r.origin.y + r.size.height <= h
      && !(r.origin.y == h && r.size.height == 0 && r.size.width > 0)
    case Everything(_) => w > 0 && h > 0
    case Line(a, b, _) => !Refused(Segment(a.x, a.y, b.x, b.y), w - 1, h - 1)
  }

  /** What a drawn shape leaves in the buffer, and what it marks. */
  ghost predicate Drawn(l: Layer, shape: Shape, l': Layer, area: Rect)
    requires LayerOk(l)
  {
    && Redrawn(l, area, l')
    && match shape
       case PixelAt(p, code) => area == Rect(p, Size(1, 1)) && l'.buf == Put(l.buf, Idx(l.size.width, p.x, p.y), code)
       case FilledRectangle(r, code) => area == r && FilledRect(l.buf, l'.buf, l.size, RowsPainted(r), code)
       case Everything(code) => area == Full(l) && forall i :: 0 <= i < |l'.buf| ==> l'.buf[i] == code
       case Line(a, b, code) => exists s :: LineDrawn(l, Segment(a.x, a.y, b.x, b.y), s, code, l'.buf) && area == LineBox(s)
  }

  /** Segment `s` of the wanted line is drawn: on the canvas, near the line, with its ends where they were if they were on the canvas. */
  ghost predicate LineDrawn(l: Layer, line: Segment, s: Segment, code: nat, buf: seq<nat>) {
    && Fits(s, l.size) && WithinTwo(line, s.x0, s.y0) && WithinTwo(line, s.x1, s.y1)
    && (line.x0 < l.size.width && line.y0 < l.size.height ==> s.x0 == line.x0 && s.y0 == line.y0)
    && (line.x1 < l.size.width && line.y1 < l.size.height ==> s.x1 == line.x1 && s.y1 == line.y1)
    && buf == Plot(l.buf, l.size.width, s, code, Steps(s) + 1)
  }

  /** A drawing step of the run model, one that leaves no debt if the shape is an honest one. */
  ghost predicate DrawStep(d: Display, id: nat, l: Layer, r: Rect, d': Display, size: Size, honest: bool)
    requires LayersOk(d.layers)
  {
    var op := LayerRuns.DrawLayer(id, l, r);
    && Allowed(d, op) && Step(d, op, d', size)
    && (honest ==> forall x: nat, y: nat :: !NewDebt(d, op, x, y))
  }

  lemma DrawnIsStep(d: Display, id: nat, k: nat, l: Layer, r: Rect, d': Display, size: Size, honest: bool)
    requires LayersOk(d.layers) && IndexOf(d.layers, id) == Some(k) && k < |d.layers| && Redrawn(d.layers[k], r, l)
    requires d' == d.(layers := d.layers[k := l]) && (honest ==> DrawnIn(d.layers[k], r, l))
    ensures DrawStep(d, id, l, r, d', size, honest)
  {
    if honest {
      forall x: nat, y: nat
        ensures !DrawOwes(d.layers[k], r, l, x, y)
      {
        HonestOwesNothing(d.layers[k], r, l, x, y);
      }
    }
    hide DrawOwes, Redrawn, DrawnIn;
  }

  /** One more layer of a back-to-front repaint. */
  lemma RepaintOne(before: seq<nat>, mid: seq<nat>, after: seq<nat>, size: Size, rect: Rect, layers: seq<Layer>, k: nat)
    requires (forall i :: 0 <= i < |layers| ==> LayerOk(layers[i])) && k < |layers|
    requires Repainted(before, mid, size, rect, layers[..k])
    requires if layers[k].disabled then after == mid else Overlaid(mid, after, size, layers[k], rect)
    ensures Repainted(before, after, size, rect, layers[..k + 1])
  {
    assert layers[..k + 1][..k] == layers[..k];
    hide Pixel;
    forall x: nat, y: nat | x < size.width && y < size.height
      ensures Top(layers[..k + 1], false, x, y) ==
              if !layers[k].disabled && Covers(layers[k], x, y) then Shows(layers[k], false, x, y) else Top(layers[..k], false, x, y)
    {
    }
  }

  class LayerManager {
    var layers: seq<Layer>
    const fb: FrameBuffer

    ghost predicate Valid()
      reads this, fb, fb.shadow, fb.vram
    {
      fb.Valid() && LayersOk(layers) && fb.shadow[..] == fb.vram[..]
    }

    ghost function State(): Display
      reads this, fb, fb.vram
    {
      Display(layers, fb.vram[..])
    }

    constructor (size: Size)
      ensures Valid() && fresh(fb) && fresh(fb.shadow) && fresh(fb.vram) && layers == [] && fb.size == size
      ensures Coherent(layers, fb.vram[..], size)
    {
      layers := [];
      fb := new FrameBuffer(size);
    }

    method Find(id: nat) returns (k: Option<nat>)
      ensures k == IndexOf(layers, id)
    {
      for i := 0 to |layers|
        invariant forall j :: 0 <= j < i ==> layers[j].id != id
      {
        if layers[i].id == id {
          FirstIndex(layers, id, i);
          return Some(i);
        }
      }
      return None;
    }

    method PushLayer(l: Layer)
      requires Valid() && LayerOk(l) && IndexOf(layers, l.id).None?
      modifies this`layers
      ensures Valid() && Step(old(State()), LayerRuns.PushLayer(l), State(), fb.size)
    {
      hide Sized;
      InsertOk(layers, l, InsertAt(layers, l));
      var at := InsertAt(layers, l);
      layers := layers[..at] + [l] + layers[at..];
    }

    method RemoveLayer(id: nat) returns (ok: bool)
      requires Valid()
      modifies this`layers
      ensures Valid() && Step(old(State()), LayerRuns.RemoveLayer(id), State(), fb.size)
      ensures ok == IndexOf(old(layers), id).Some?
    {
      var k := Find(id);
      if k.None? {
        return false;
      }
      var gone := layers[k.value];
      RemoveOk(layers, k.value);
      RemovedOk(layers, k.value);
      hide LayersOk, MarkUnder;
      layers := layers[..k.value] + layers[k.value + 1..];
      ghost var rest := layers;
      for i := 0 to |layers|
        invariant |layers| == |rest|
        invariant forall j :: 0 <= j < |rest| ==> layers[j] == if j < i then MarkUnder(rest[j], gone) else rest[j]
      {
        layers := layers[i := MarkUnder(layers[i], gone)];
      }
      assert layers == Removed(old(layers), k.value);
      return true;
    }

    method BringLayerToFront(id: nat) returns (ok: bool)
      requires Valid()
      modifies this`layers
      ensures Valid() && Step(old(State()), BringToFront(id), State(), fb.size)
      ensures ok == IndexOf(old(layers), id).Some?
    {
      hide LayersOk, LayerOk, SetDirty, InsertAt, IndexOf;
      var k := Find(id);
      if k.None? {
        return false;
      }
      RaisedOk(layers, k.value);
      var l := layers[k.value];
      var rest := layers[..k.value] + layers[k.value + 1..];
      var at := InsertAt(rest, l);
      layers := rest[..at] + [l] + rest[at..];
      ghost var mid := layers;
      assert mid == Push(rest, l);
      for i := 0 to |layers|
        invariant |layers| == |mid|
        invariant forall j :: 0 <= j < |mid| ==> layers[j] == if j < i then SetDirty(mid[j], true) else mid[j]
      {
        layers := layers[i := SetDirty(layers[i], true)];
      }
      assert layers == Raised(old(layers), k.value);
      return true;
    }

    method MoveLayer(id: nat, to: Point) returns (ok: bool)
      requires Valid()
      modifies this`layers
      ensures Valid() && Step(old(State()), LayerRuns.MoveLayer(id, to), State(), fb.size)
      ensures ok == IndexOf(old(layers), id).Some?
    {
      var k := Find(id);
      if k.None? {
        return false;
      }
      layers := layers[k.value := MoveTo(layers[k.value], to)];
      return true;
    }

    /** Draws on one layer: a step of the run model, without debt whenever the shape is an honest one. */
    method DrawLayer(id: nat, shape: Shape) returns (ok: bool)
      requires Valid()
      modifies this`layers
      ensures Valid() && ok == IndexOf(old(layers), id).Some?
      ensures !ok ==> State() == old(State())
      ensures ok ==>
                var k := IndexOf(old(layers), id).value;
                var l, honest := old(layers)[k], Honest(old(layers)[k], shape);
                if Drawable(l, shape)
                then exists l', r :: Drawn(l, shape, l', r) && DrawStep(old(State()), id, l', r, State(), fb.size, honest)
                else State() == old(State())
    {
      var k := Find(id);
      if k.None? {
        return false;
      }
      ghost var d := State();
      var l', area := DrawShape(layers[k.value], shape);
      hide Sized, DrawStep, Drawn, Drawable;
      if area.None? {
        assert layers[k.value := l'] == layers;
      }
      layers := layers[k.value := l'];
      if area.Some? {
        DrawnIsStep(d, id, k.value, l', area.value, State(), fb.size, Honest(d.layers[k.value], shape));
      }
      return true;
    }

    /** Repaints the bounding rectangle of everything invalid, bottom layer first, and flushes it. */
    method DrawToFrameBuf()
      requires Valid()
      modifies this`layers, fb.shadow, fb.vram
      ensures Valid() && Step(old(State()), LayerRuns.DrawToFrameBuf, State(), fb.size)
      ensures old(Coherent(layers, fb.vram[..], fb.size)) ==> ShowsTop(layers, fb.vram[..], fb.size) && Coherent(layers, fb.vram[..], fb.size)
    {
      ghost var start, size := layers, fb.size;
      ghost var before := fb.vram[..];
      var rect := ComputeInvalid();
      if rect.None? {
        FinishRepaint(old(State()), State(), size);
        return;
      }
      Repaint(rect.value);
      hide Repainted, Top;
      fb.FlushRectToVram(rect.value);
      FlushCompletes(before, fb.shadow[..], fb.vram[..], size, rect.value, start);
      FinishRepaint(old(State()), State(), size);
    }

    method ComputeInvalid() returns (rect: Option<Rect>)
      ensures rect == InvalidRect(layers)
    {
      rect := None;
      for i := 0 to |layers|
        invariant rect == InvalidRect(layers[..i])
      {
        assert layers[..i + 1][..i] == layers[..i];
        rect := AddInvalid(rect, layers[i]);
      }
      assert layers[..|layers|] == layers;
    }

    method Repaint(rect: Rect)
      requires fb.Valid() && LayersOk(layers)
      modifies this`layers, fb.shadow
      ensures layers == AllSettled(old(layers)) && LayersOk(layers)
      ensures Repainted(old(fb.shadow[..]), fb.shadow[..], fb.size, rect, old(layers))
    {
      ghost var start, before := layers, fb.shadow[..];
      for i := 0 to |layers|
        invariant |layers| == |start| && forall j :: 0 <= j < |start| ==> layers[j] == if j < i then Settled(start[j]) else start[j]
        invariant fb.Valid() && Repainted(before, fb.shadow[..], fb.size, rect, start[..i])
      {
        ghost var mid := fb.shadow[..];
        hide Overlaid, Repainted;
        if !layers[i].disabled {
          fb.ApplyLayerBuf(layers[i], rect);
          layers := layers[i := layers[i].(dirty := None, moved := false, oldPos := None)];
        }
        RepaintOne(before, mid, fb.shadow[..], fb.size, rect, start, i);
      }
      assert start[..|start|] == start;
      assert layers == AllSettled(start);
    }
  }

  /** Draws on a copy of the layer's buffer; `area` is what was marked, if anything was drawn. */
  method DrawShape(l: Layer, shape: Shape) returns (l': Layer, ghost area: Option<Rect>)
    requires LayerOk(l)
    ensures LayerOk(l') && l'.id == l.id
    ensures area.Some? <==> Drawable(l, shape)
    ensures if area.Some? then Drawn(l, shape, l', area.value) else l' == l
    ensures area.Some? ==> Redrawn(l, area.value, l') && (Honest(l, shape) ==> DrawnIn(l, area.value, l'))
  {
    hide Refused, FilledRect, DrawnIn;
    area := None;
    var c := new Canvas(l);
    match shape
    case PixelAt(p, code) =>
      var r := c.DrawPixel(p, code);
      if r == Done { PixelMarkIsHonest(l, p); area := Some(Rect(p, Size(1, 1))); }
      l' := l.(buf := c.buf[..], dirty := c.dirty);
    case FilledRectangle(rect, code) =>
      var r := c.DrawRect(rect, code);
      if r == Done { area := Some(rect); }
      if r == Done && Honest(l, shape) { RectMarkCovers(l, rect, code, c.buf[..]); }
      l' := l.(buf := c.buf[..], dirty := c.dirty);
    case Everything(code) =>
      var r := c.Fill(code);
      if r == Done { FillMarkIsHonest(l, c.buf[..]); area := Some(Full(l)); }
      l' := l.(buf := c.buf[..], dirty := c.dirty);
    case Line(start, end, code) =>
      l', area := DrawLineShape(l, start, end, code);
  }

  method DrawLineShape(l: Layer, start: Point, end: Point, code: nat) returns (l': Layer, ghost area: Option<Rect>)
    requires LayerOk(l)
    ensures LayerOk(l') && l'.id == l.id
    ensures area.Some? <==> Drawable(l, Line(start, end, code))
    ensures if area.Some? then Drawn(l, Line(start, end, code), l', area.value) && DrawnIn(l, area.value, l') else l' == l
  {
    hide Refused, WithinTwo, Plot, Steps;
    var c := new Canvas(l);
    var clip := c.DrawLine(start, end, code);
    l', area := l.(buf := c.buf[..], dirty := c.dirty), None;
    if clip.Some? {
      LineMarkIsHonest(l, clip.value, code);
      area := Some(LineBox(clip.value));
      assert LineDrawn(l, Segment(start.x, start.y, end.x, end.y), clip.value, code, l'.buf);
    }
  }

  lemma FlushCompletes(before: seq<nat>, shadow: seq<nat>, vram: seq<nat>, size: Size, rect: Rect, layers: seq<Layer>)
    requires LayersOk(layers) && Repainted(before, shadow, size, rect, layers) && Sized(vram, size)
    requires forall x: nat, y: nat :: x < size.width && y < size.height ==>
      Pixel(vram, size, x, y) == if rect.Contains(x, y) then Pixel(shadow, size, x, y) else Pixel(before, size, x, y)
    ensures vram == shadow
  {
    forall k | 0 <= k < |vram|
      ensures vram[k] == shadow[k]
    {
      var w := size.width;
      PlaceOf(size, k);
      assert Pixel(vram, size, k % w, k / w) == Pixel(shadow, size, k % w, k / w);
    }
  }

  lemma PlaceOf(size: Size, k: nat)
    requires k < size.width * size.height
    ensures size.width > 0 && k % size.width < size.width && k / size.width < size.height
    ensures Idx(size.width, k % size.width, k / size.width) == k
  {
  }

  lemma FinishRepaint(d: Display, d': Display, size: Size)
    requires LayersOk(d.layers) && Step(d, LayerRuns.DrawToFrameBuf, d', size)
    ensures Coherent(d.layers, d.screen, size) ==> ShowsTop(d'.layers, d'.screen, size) && Coherent(d'.layers, d'.screen, size)
  {
    if Coherent(d.layers, d.screen, size) {
      StepKeepsCoherent(d, LayerRuns.DrawToFrameBuf, d', size);
    }
  }
}
