/**
 * The layers of the screen (kernel/src/graphics/multi_layer.rs): what each
 * operation does to them, which screen pixels they leave stale, and why
 * repainting one bounding rectangle is as good as repainting everything.
 */
module Layers {
  import opened Basics
  import opened Pixels

  datatype Layer = Layer(id: nat, pos: Point, size: Size, buf: seq<nat>, disabled: bool, onTop: bool,
                         dirty: Option<Rect>, moved: bool, oldPos: Option<Point>)

  predicate LayerOk(l: Layer) { Sized(l.buf, l.size) && (l.moved ==> l.oldPos.Some?) }

  ghost predicate LayersOk(layers: seq<Layer>) {
    && (forall i :: 0 <= i < |layers| ==> LayerOk(layers[i]))
    && (forall i, j :: 0 <= i < j < |layers| ==> layers[i].id != layers[j].id)
  }

  predicate Covers(l: Layer, x: nat, y: nat) { Rect(l.pos, l.size).Contains(x, y) }

  // ----- operations on one layer

  function Full(l: Layer): Rect { Rect(Point(0, 0), l.size) }

  function SetDirty(l: Layer, dirty: bool): Layer { l.(dirty := if dirty then Some(Full(l)) else None) }

  function ExtendDirty(l: Layer, r: Rect): Layer { l.(dirty := MergeRect(l.dirty, r)) }

  function MoveTo(l: Layer, p: Point): Layer {
    if l.pos == p then l
    else l.(oldPos := if l.moved then l.oldPos else Some(l.pos), pos := p, moved := true)
  }

  /** `l'` is `l` with other pixels and with `r` added to what is marked dirty. */
  predicate Redrawn(l: Layer, r: Rect, l': Layer) {
    Sized(l.buf, l.size) && Sized(l'.buf, l.size) && l' == ExtendDirty(l, r).(buf := l'.buf)
  }

  /** The drawing changed the layer's pixel at this place of the screen without marking it. */
  predicate DrawOwes(l: Layer, r: Rect, l': Layer, x: nat, y: nat)
    requires Redrawn(l, r, l')
  {
    && Covers(l, x, y) && !r.Contains(x - l.pos.x, y - l.pos.y)
    && Pixel(l'.buf, l.size, x - l.pos.x, y - l.pos.y) != Pixel(l.buf, l.size, x - l.pos.x, y - l.pos.y)
  }

  /** `l'` is `l` after a drawing that touched only pixels of `r` and marked `r` dirty. */
  ghost predicate DrawnIn(l: Layer, r: Rect, l': Layer) {
    && Redrawn(l, r, l')
    && forall x: nat, y: nat :: x < l.size.width && y < l.size.height && !r.Contains(x, y) ==>
         Pixel(l'.buf, l.size, x, y) == Pixel(l.buf, l.size, x, y)
  }

  // ----- operations on the stack, bottom layer first

  /** New layers go below the always-on-top ones. */
  function InsertAt(layers: seq<Layer>, l: Layer): (i: nat)
    ensures i <= |layers|
  {
    if l.onTop then |layers| else FirstOnTop(layers)
  }

  function FirstOnTop(layers: seq<Layer>): (i: nat)
    ensures i <= |layers|
    ensures forall j :: 0 <= j < i ==> !layers[j].onTop
    ensures i < |layers| ==> layers[i].onTop
  {
    if layers == [] || layers[0].onTop then 0 else 1 + FirstOnTop(layers[1..])
  }

  function Push(layers: seq<Layer>, l: Layer): seq<Layer> {
    layers[..InsertAt(layers, l)] + [l] + layers[InsertAt(layers, l)..]
  }

  /** Marks the part of a layer that lay under a removed one. */
  function MarkUnder(l: Layer, gone: Layer): Layer {
    var x0, y0 := NatMax(gone.pos.x, l.pos.x), NatMax(gone.pos.y, l.pos.y);
    var x1 := NatMin(gone.pos.x + gone.size.width, l.pos.x + l.size.width);
    var y1 := NatMin(gone.pos.y + gone.size.height, l.pos.y + l.size.height);
    if !l.disabled && x1 > x0 && y1 > y0
    then ExtendDirty(l, Rect(Point(x0 - l.pos.x, y0 - l.pos.y), Size(x1 - x0, y1 - y0)))
    else l
  }

  function Without(layers: seq<Layer>, k: nat): seq<Layer>
    requires k < |layers|
  {
    layers[..k] + layers[k + 1..]
  }

  function Removed(layers: seq<Layer>, k: nat): seq<Layer>
    requires k < |layers|
  {
    var rest := Without(layers, k);
    seq(|rest|, i requires 0 <= i < |rest| => MarkUnder(rest[i], layers[k]))
  }

  function Raised(layers: seq<Layer>, k: nat): seq<Layer>
    requires k < |layers|
  {
    var moved := Push(Without(layers, k), layers[k]);
    seq(|moved|, i requires 0 <= i < |moved| => SetDirty(moved[i], true))
  }

  // ----- what is on top

  /** The pixel a layer shows; with `settled`, layers moved since the last repaint count as absent. */
  function Shows(l: Layer, settled: bool, x: nat, y: nat): Option<nat>
    requires LayerOk(l)
  {
    if !l.disabled && !(settled && l.moved) && Covers(l, x, y)
    then Some(Pixel(l.buf, l.size, x - l.pos.x, y - l.pos.y)) else None
  }

  /** The pixel of the topmost layer that shows one: a full back-to-front repaint. */
  ghost function Top(layers: seq<Layer>, settled: bool, x: nat, y: nat): Option<nat>
    requires forall i :: 0 <= i < |layers| ==> LayerOk(layers[i])
  {
    if layers == [] then None
    else
      var last := Shows(layers[|layers| - 1], settled, x, y);
      if last.Some? then last else Top(layers[..|layers| - 1], settled, x, y)
  }

  lemma {:induction false} TopConcat(a: seq<Layer>, b: seq<Layer>, settled: bool, x: nat, y: nat)
    requires forall i :: 0 <= i < |a| ==> LayerOk(a[i])
    requires forall i :: 0 <= i < |b| ==> LayerOk(b[i])
    ensures forall i :: 0 <= i < |a + b| ==> LayerOk((a + b)[i])
    ensures Top(a + b, settled, x, y) == if Top(b, settled, x, y).Some? then Top(b, settled, x, y) else Top(a, settled, x, y)
  {
    assert forall i :: 0 <= i < |a + b| ==> (a + b)[i] == if i < |a| then a[i] else b[i - |a|];
    if b == [] {
      assert a + b == a;
    } else {
      TopConcat(a, b[..|b| - 1], settled, x, y);
      assert (a + b)[..|a + b| - 1] == a + b[..|b| - 1];
    }
  }

  lemma {:induction false} TopSame(a: seq<Layer>, b: seq<Layer>, settled: bool, x: nat, y: nat)
    requires |a| == |b|
    requires forall i :: 0 <= i < |a| ==> LayerOk(a[i]) && LayerOk(b[i]) && Shows(a[i], settled, x, y) == Shows(b[i], settled, x, y)
    ensures Top(a, settled, x, y) == Top(b, settled, x, y)
  {
    if a != [] {
      TopSame(a[..|a| - 1], b[..|b| - 1], settled, x, y);
    }
  }

  lemma {:induction false} TopNone(a: seq<Layer>, settled: bool, x: nat, y: nat)
    requires forall i :: 0 <= i < |a| ==> LayerOk(a[i]) && Shows(a[i], settled, x, y).None?
    ensures Top(a, settled, x, y).None?
  {
    if a != [] {
      TopNone(a[..|a| - 1], settled, x, y);
    }
  }

  // ----- staleness

  function ScreenDirty(l: Layer): Option<Rect> {
    if l.dirty.None? then None
    else Some(Rect(Point(l.pos.x + l.dirty.value.origin.x, l.pos.y + l.dirty.value.origin.y), l.dirty.value.size))
  }

  /** The layer says the screen may be wrong here: where it was, if moved, or where it was drawn on. */
  predicate Stale(l: Layer, x: nat, y: nat)
    requires LayerOk(l)
  {
    && !l.disabled
    && (if l.moved then Rect(l.oldPos.value, l.size).Contains(x, y)
        else Covers(l, x, y) && l.dirty.Some? && ScreenDirty(l).value.Contains(x, y))
  }

  ghost predicate AnyStale(layers: seq<Layer>, x: nat, y: nat)
    requires forall i :: 0 <= i < |layers| ==> LayerOk(layers[i])
  {
    exists i :: 0 <= i < |layers| && Stale(layers[i], x, y)
  }

  /** Where no layer says otherwise, the screen shows the topmost of the layers that have not moved. */
  ghost predicate PixelCoherent(layers: seq<Layer>, screen: seq<nat>, size: Size, x: nat, y: nat)
    requires LayersOk(layers) && Sized(screen, size) && x < size.width && y < size.height
  {
    !AnyStale(layers, x, y) && Top(layers, true, x, y).Some? ==> Pixel(screen, size, x, y) == Top(layers, true, x, y).value
  }

  ghost predicate Coherent(layers: seq<Layer>, screen: seq<nat>, size: Size) {
    && LayersOk(layers) && Sized(screen, size)
    && forall x: nat, y: nat :: x < size.width && y < size.height ==> PixelCoherent(layers, screen, size, x, y)
  }

  ghost predicate PixelShowsTop(layers: seq<Layer>, screen: seq<nat>, size: Size, x: nat, y: nat)
    requires LayersOk(layers) && Sized(screen, size) && x < size.width && y < size.height
  {
    Top(layers, false, x, y).Some? ==> Pixel(screen, size, x, y) == Top(layers, false, x, y).value
  }

  /** The screen shows, wherever a layer is, the topmost one. */
  ghost predicate ShowsTop(layers: seq<Layer>, screen: seq<nat>, size: Size) {
    && LayersOk(layers) && Sized(screen, size)
    && forall x: nat, y: nat :: x < size.width && y < size.height ==> PixelShowsTop(layers, screen, size, x, y)
  }

  // ----- one layer changes

  lemma UpdateCoherent(layers: seq<Layer>, screen: seq<nat>, size: Size, k: nat, l: Layer, x: nat, y: nat)
    requires LayersOk(layers) && Sized(screen, size) && x < size.width && y < size.height && k < |layers|
    requires PixelCoherent(layers, screen, size, x, y)
    requires LayerOk(l) && l.id == layers[k].id && LayersOk(layers[k := l])
    requires !Stale(l, x, y) ==> !Stale(layers[k], x, y) && Shows(l, true, x, y) == Shows(layers[k], true, x, y)
    ensures PixelCoherent(layers[k := l], screen, size, x, y)
  {
    var layers' := layers[k := l];
    assert Stale(l, x, y) ==> AnyStale(layers', x, y) by { assert layers'[k] == l; }
    if !Stale(l, x, y) && !AnyStale(layers', x, y) {
      forall i | 0 <= i < |layers|
        ensures !Stale(layers[i], x, y)
      {
        assert i != k ==> layers'[i] == layers[i];
      }
      TopSame(layers, layers', true, x, y);
    }
  }

  lemma MoveEffect(l: Layer, p: Point, x: nat, y: nat)
    requires LayerOk(l)
    ensures LayerOk(MoveTo(l, p))
    ensures !Stale(MoveTo(l, p), x, y) ==> !Stale(l, x, y) && Shows(MoveTo(l, p), true, x, y) == Shows(l, true, x, y)
  {
  }

  lemma DrawEffect(l: Layer, r: Rect, l': Layer, x: nat, y: nat)
    requires LayerOk(l) && Redrawn(l, r, l') && !DrawOwes(l, r, l', x, y)
    ensures LayerOk(l')
    ensures !Stale(l', x, y) ==> !Stale(l, x, y) && Shows(l', true, x, y) == Shows(l, true, x, y)
  {
    hide Pixel;
  }

  lemma MovePixel(layers: seq<Layer>, screen: seq<nat>, size: Size, k: nat, p: Point, x: nat, y: nat)
    requires LayersOk(layers) && Sized(screen, size) && x < size.width && y < size.height && k < |layers|
    requires PixelCoherent(layers, screen, size, x, y)
    ensures LayersOk(layers[k := MoveTo(layers[k], p)]) && PixelCoherent(layers[k := MoveTo(layers[k], p)], screen, size, x, y)
  {
    var l := MoveTo(layers[k], p);
    var layers' := layers[k := l];
    assert LayersOk(layers');
    MoveEffect(layers[k], p, x, y);
    hide MoveTo, Shows, Stale, PixelCoherent, LayersOk;
    UpdateCoherent(layers, screen, size, k, l, x, y);
  }

  lemma DrawPixelCoherent(layers: seq<Layer>, screen: seq<nat>, size: Size, k: nat, r: Rect, l: Layer, x: nat, y: nat)
    requires LayersOk(layers) && Sized(screen, size) && x < size.width && y < size.height && k < |layers|
    requires PixelCoherent(layers, screen, size, x, y) && Redrawn(layers[k], r, l) && !DrawOwes(layers[k], r, l, x, y)
    ensures LayersOk(layers[k := l]) && PixelCoherent(layers[k := l], screen, size, x, y)
  {
    var layers' := layers[k := l];
    assert LayersOk(layers');
    DrawEffect(layers[k], r, l, x, y);
    hide Shows, Stale, PixelCoherent, LayersOk, DrawOwes;
    UpdateCoherent(layers, screen, size, k, l, x, y);
  }

  /** Moving a layer leaves the screen coherent, however often it moves between repaints. */
  lemma MoveKeepsCoherent(layers: seq<Layer>, screen: seq<nat>, size: Size, k: nat, p: Point)
    requires Coherent(layers, screen, size) && k < |layers|
    ensures Coherent(layers[k := MoveTo(layers[k], p)], screen, size)
  {
    var layers' := layers[k := MoveTo(layers[k], p)];
    assert LayersOk(layers');
    hide MoveTo, PixelCoherent, LayersOk;
    forall x: nat, y: nat | x < size.width && y < size.height
      ensures PixelCoherent(layers', screen, size, x, y)
    {
      MovePixel(layers, screen, size, k, p, x, y);
    }
  }

  lemma DrawKeepsCoherent(layers: seq<Layer>, screen: seq<nat>, size: Size, k: nat, r: Rect, l: Layer)
    requires Coherent(layers, screen, size) && k < |layers| && DrawnIn(layers[k], r, l)
    ensures Coherent(layers[k := l], screen, size)
  {
    var layers' := layers[k := l];
    assert LayersOk(layers');
    forall x: nat, y: nat | x < size.width && y < size.height
      ensures PixelCoherent(layers', screen, size, x, y)
    {
      HonestOwesNothing(layers[k], r, l, x, y);
      hide DrawOwes, PixelCoherent, LayersOk, Redrawn;
      DrawPixelCoherent(layers, screen, size, k, r, l, x, y);
    }
  }

  lemma HonestOwesNothing(l: Layer, r: Rect, l': Layer, x: nat, y: nat)
    requires DrawnIn(l, r, l')
    ensures !DrawOwes(l, r, l', x, y)
  {
    hide Pixel;
  }

  // ----- layers come, go and change order

  predicate FullyDirty(l: Layer) { !l.moved && l.dirty == Some(Full(l)) }

  lemma InsertOk(layers: seq<Layer>, l: Layer, i: nat)
    requires LayersOk(layers) && LayerOk(l) && i <= |layers| && forall j :: 0 <= j < |layers| ==> layers[j].id != l.id
    ensures LayersOk(layers[..i] + [l] + layers[i..])
  {
  }

  lemma RemoveOk(layers: seq<Layer>, k: nat)
    requires LayersOk(layers) && k < |layers|
    ensures LayersOk(Without(layers, k)) && |Without(layers, k)| == |layers| - 1
    ensures forall j :: 0 <= j < |layers| - 1 ==>
              Without(layers, k)[j] == layers[if j < k then j else j + 1] && Without(layers, k)[j].id != layers[k].id
  {
  }

  /** A layer that shows nothing at a pixel does not change what is on top there. */
  lemma TopWithout(a: seq<Layer>, l: Layer, b: seq<Layer>, settled: bool, x: nat, y: nat)
    requires forall i :: 0 <= i < |a| ==> LayerOk(a[i])
    requires forall i :: 0 <= i < |b| ==> LayerOk(b[i])
    requires LayerOk(l) && Shows(l, settled, x, y).None?
    ensures forall i :: 0 <= i < |a + [l] + b| ==> LayerOk((a + [l] + b)[i])
    ensures forall i :: 0 <= i < |a + b| ==> LayerOk((a + b)[i])
    ensures Top(a + [l] + b, settled, x, y) == Top(a + b, settled, x, y)
  {
    TopConcat(a, [l], settled, x, y);
    TopConcat(a + [l], b, settled, x, y);
    TopConcat(a, b, settled, x, y);
    assert Top([l], settled, x, y) == Shows(l, settled, x, y);
  }

  /** Some layer from place `i` up shows at the pixel. */
  ghost predicate ShownFrom(layers: seq<Layer>, i: nat, x: nat, y: nat)
    requires forall j :: 0 <= j < |layers| ==> LayerOk(layers[j])
  {
    exists j :: i <= j < |layers| && Shows(layers[j], true, x, y).Some?
  }

  /**
   * Pushing `l` leaves a debt at the pixel: it shows there in a new colour, above
   * everything that shows, and neither it nor an older layer has marked the pixel.
   */
  ghost predicate PushOwes(layers: seq<Layer>, l: Layer, x: nat, y: nat)
    requires LayersOk(layers) && LayerOk(l)
  {
    && Shows(l, true, x, y).Some? && Shows(l, true, x, y) != Top(layers, true, x, y)
    && !ShownFrom(layers, InsertAt(layers, l), x, y)
    && !Stale(l, x, y) && !AnyStale(layers, x, y)
  }

  /** The new layer leaves no debt on the screen. */
  ghost predicate SafeToPush(layers: seq<Layer>, l: Layer, size: Size)
    requires LayersOk(layers) && LayerOk(l)
  {
    forall x: nat, y: nat :: x < size.width && y < size.height ==> !PushOwes(layers, l, x, y)
  }

  lemma PushOk(layers: seq<Layer>, l: Layer)
    requires LayersOk(layers) && LayerOk(l) && forall j :: 0 <= j < |layers| ==> layers[j].id != l.id
    ensures LayersOk(Push(layers, l))
  {
    InsertOk(layers, l, InsertAt(layers, l));
  }

  lemma StaleAfterPush(layers: seq<Layer>, l: Layer, x: nat, y: nat)
    requires LayersOk(layers) && LayersOk(Push(layers, l)) && LayerOk(l)
    ensures AnyStale(Push(layers, l), x, y) <==> AnyStale(layers, x, y) || Stale(l, x, y)
  {
    var i, t := InsertAt(layers, l), Push(layers, l);
    assert t[i] == l;
    assert forall j :: 0 <= j < |t| ==> t[j] == if j < i then layers[j] else if j == i then l else layers[j - 1];
    hide Stale;
    if AnyStale(layers, x, y) {
      var j :| 0 <= j < |layers| && Stale(layers[j], x, y);
      assert Stale(t[if j < i then j else j + 1], x, y);
    }
    if Stale(l, x, y) {
      assert Stale(t[i], x, y);
    }
  }

  lemma {:induction false} TopShows(layers: seq<Layer>, x: nat, y: nat)
    requires forall j :: 0 <= j < |layers| ==> LayerOk(layers[j])
    ensures Top(layers, true, x, y).Some? <==> ShownFrom(layers, 0, x, y)
  {
    if layers != [] {
      TopShows(layers[..|layers| - 1], x, y);
    }
  }

  /** What is on top after a push: the layers above it, or else it, or else the layers below. */
  lemma TopAfterPush(layers: seq<Layer>, l: Layer, x: nat, y: nat)
    requires LayersOk(layers) && LayersOk(Push(layers, l)) && LayerOk(l)
    ensures Top(Push(layers, l), true, x, y) ==
            if ShownFrom(layers, InsertAt(layers, l), x, y) || Shows(l, true, x, y).None? then Top(layers, true, x, y)
            else Shows(l, true, x, y)
  {
    var i := InsertAt(layers, l);
    var below, above := layers[..i], layers[i..];
    assert below + above == layers;
    TopConcat(below, above, true, x, y);
    TopConcat(below + [l], above, true, x, y);
    TopConcat(below, [l], true, x, y);
    assert Top([l], true, x, y) == Shows(l, true, x, y);
    TopShows(above, x, y);
    hide Top, Shows;
    assert ShownFrom(above, 0, x, y) <==> ShownFrom(layers, i, x, y) by { ShownAbove(layers, i, x, y); }
  }

  lemma ShownAbove(layers: seq<Layer>, i: nat, x: nat, y: nat)
    requires i <= |layers| && forall j :: 0 <= j < |layers| ==> LayerOk(layers[j])
    ensures ShownFrom(layers[i..], 0, x, y) <==> ShownFrom(layers, i, x, y)
  {
    hide Shows;
    if ShownFrom(layers, i, x, y) {
      var j :| i <= j < |layers| && Shows(layers[j], true, x, y).Some?;
      assert Shows(layers[i..][j - i], true, x, y).Some?;
    }
  }

  /** A debt is exactly a pixel that the push changes on top with no mark on it. */
  lemma PushOwesMeans(layers: seq<Layer>, l: Layer, x: nat, y: nat)
    requires LayersOk(layers) && LayersOk(Push(layers, l)) && LayerOk(l)
    ensures PushOwes(layers, l, x, y) <==>
            !AnyStale(Push(layers, l), x, y) && Top(Push(layers, l), true, x, y) != Top(layers, true, x, y)
    ensures PushOwes(layers, l, x, y) ==> Top(Push(layers, l), true, x, y).Some?
  {
    hide Push, Top, Stale, Shows, AnyStale, ShownFrom, InsertAt;
    StaleAfterPush(layers, l, x, y);
    TopAfterPush(layers, l, x, y);
  }

  lemma PushPixel(layers: seq<Layer>, screen: seq<nat>, size: Size, l: Layer, x: nat, y: nat)
    requires LayersOk(layers) && Sized(screen, size) && x < size.width && y < size.height
    requires LayerOk(l) && LayersOk(Push(layers, l)) && PixelCoherent(layers, screen, size, x, y) && !PushOwes(layers, l, x, y)
    ensures PixelCoherent(Push(layers, l), screen, size, x, y)
  {
    hide Push, Top, Stale, AnyStale, PushOwes;
    StaleAfterPush(layers, l, x, y);
    PushOwesMeans(layers, l, x, y);
  }

  /** Pushing a layer below the always-on-top ones keeps the screen coherent if it leaves no debt. */
  lemma PushKeepsCoherent(layers: seq<Layer>, screen: seq<nat>, size: Size, l: Layer)
    requires Coherent(layers, screen, size) && LayerOk(l) && LayersOk(Push(layers, l)) && SafeToPush(layers, l, size)
    ensures Coherent(Push(layers, l), screen, size)
  {
    hide Push, PushOwes, PixelCoherent;
    forall x: nat, y: nat | x < size.width && y < size.height
      ensures PixelCoherent(Push(layers, l), screen, size, x, y)
    {
      PushPixel(layers, screen, size, l, x, y);
    }
  }

  /** A fully dirty layer may always be pushed. */
  lemma FullyDirtyIsSafe(layers: seq<Layer>, l: Layer, size: Size)
    requires LayersOk(layers) && LayerOk(l) && FullyDirty(l)
    ensures SafeToPush(layers, l, size)
  {
    forall x: nat, y: nat | x < size.width && y < size.height
      ensures !PushOwes(layers, l, x, y)
    {
      assert Shows(l, true, x, y).Some? ==> Stale(l, x, y);
    }
  }

  /** Where a push leaves a debt, some coherent screen becomes incoherent. */
  lemma DebtBreaksCoherent(layers: seq<Layer>, size: Size, l: Layer, x: nat, y: nat) returns (screen: seq<nat>)
    requires LayersOk(layers) && LayerOk(l) && LayersOk(Push(layers, l)) && x < size.width && y < size.height
    requires PushOwes(layers, l, x, y)
    ensures Coherent(layers, screen, size) && !PixelCoherent(Push(layers, l), screen, size, x, y)
  {
    var t := Push(layers, l);
    PushOwesMeans(layers, l, x, y);
    hide Push, Stale, Shows, PushOwes;
    var wrong := Top(t, true, x, y).value + 1;
    var f: (nat, nat) -> nat := (u: nat, v: nat) =>
      if Top(layers, true, u, v).Some? then Top(layers, true, u, v).value else wrong;
    screen := Image(size, f);
    hide Image, Top, AnyStale, Pixel;
    forall u: nat, v: nat | u < size.width && v < size.height
      ensures Sized(screen, size) && PixelCoherent(layers, screen, size, u, v)
    {
      ImagePixel(size, f, u, v);
    }
    ImagePixel(size, f, x, y);
  }

  /** Exactly when a layer may be pushed whatever the screen shows. */
  lemma PushIsSafeIff(layers: seq<Layer>, size: Size, l: Layer)
    requires LayersOk(layers) && LayerOk(l) && LayersOk(Push(layers, l))
    ensures (forall screen :: Coherent(layers, screen, size) ==> Coherent(Push(layers, l), screen, size))
            <==> SafeToPush(layers, l, size)
  {
    if SafeToPush(layers, l, size) {
      hide Coherent, Push, PushOwes;
      forall screen | Coherent(layers, screen, size)
        ensures Coherent(Push(layers, l), screen, size)
      {
        PushKeepsCoherent(layers, screen, size, l);
      }
    } else {
      hide Push, PushOwes, PixelCoherent;
      var x: nat, y: nat :| x < size.width && y < size.height && PushOwes(layers, l, x, y);
      var screen := DebtBreaksCoherent(layers, size, l, x, y);
      assert !Coherent(Push(layers, l), screen, size);
    }
  }

  /** Below a removed layer exactly the part it covered is marked, of a layer with no mark yet. */
  lemma MarksOverlap(l: Layer, gone: Layer, x: nat, y: nat)
    requires LayerOk(l) && !l.disabled && !l.moved && l.dirty.None?
    ensures LayerOk(MarkUnder(l, gone)) && (Stale(MarkUnder(l, gone), x, y) <==> Covers(l, x, y) && Covers(gone, x, y))
  {
  }

  lemma MarkEffect(l: Layer, gone: Layer, x: nat, y: nat)
    requires LayerOk(l) && LayerOk(gone)
    ensures LayerOk(MarkUnder(l, gone)) && MarkUnder(l, gone).id == l.id
    ensures Stale(l, x, y) ==> Stale(MarkUnder(l, gone), x, y)
    ensures Shows(MarkUnder(l, gone), true, x, y) == Shows(l, true, x, y)
    ensures Covers(gone, x, y) && Shows(l, true, x, y).Some? ==> Stale(MarkUnder(l, gone), x, y)
  {
    hide Pixel;
  }

  /**
   * The screen still shows layer `k` where it was before an unflushed move, and
   * once it is gone no remaining layer calls the pixel stale although one shows there.
   */
  ghost predicate Lost(layers: seq<Layer>, k: nat, x: nat, y: nat)
    requires LayersOk(layers) && k < |layers|
  {
    RemovedOk(layers, k);
    && layers[k].moved && !layers[k].disabled && Rect(layers[k].oldPos.value, layers[k].size).Contains(x, y)
    && !AnyStale(Removed(layers, k), x, y) && Top(Removed(layers, k), true, x, y).Some?
  }

  /** Removing layer `k` loses track of no pixel of the screen. */
  ghost predicate SafeToRemove(layers: seq<Layer>, k: nat, size: Size)
    requires LayersOk(layers) && k < |layers|
  {
    forall x: nat, y: nat :: x < size.width && y < size.height ==> !Lost(layers, k, x, y)
  }

  /** Taking a layer away leaves the screen coherent unless it loses a pixel. */
  lemma RemoveKeepsCoherent(layers: seq<Layer>, screen: seq<nat>, size: Size, k: nat)
    requires Coherent(layers, screen, size) && k < |layers| && SafeToRemove(layers, k, size)
    ensures Coherent(Removed(layers, k), screen, size)
  {
    var t := Removed(layers, k);
    RemoveOk(layers, k);
    RemovedOk(layers, k);
    forall x: nat, y: nat | x < size.width && y < size.height
      ensures PixelCoherent(t, screen, size, x, y)
    {
      assert PixelCoherent(layers, screen, size, x, y);
      assert !Lost(layers, k, x, y);
      RemovePixel(layers, screen, size, k, x, y);
    }
  }

  /** Where a removal loses a pixel, some coherent screen becomes incoherent. */
  lemma LostBreaksCoherent(layers: seq<Layer>, size: Size, k: nat, x: nat, y: nat) returns (screen: seq<nat>)
    requires LayersOk(layers) && k < |layers| && x < size.width && y < size.height && Lost(layers, k, x, y)
    ensures Coherent(layers, screen, size) && LayersOk(Removed(layers, k)) && !PixelCoherent(Removed(layers, k), screen, size, x, y)
  {
    RemovedOk(layers, k);
    var t := Removed(layers, k);
    var wrong := Top(t, true, x, y).value + 1;
    assert AnyStale(layers, x, y) by { assert Stale(layers[k], x, y); }
    hide Removed, Stale, Shows;
    var f: (nat, nat) -> nat := (u: nat, v: nat) =>
      if u == x && v == y then wrong else if Top(layers, true, u, v).Some? then Top(layers, true, u, v).value else 0;
    screen := Image(size, f);
    hide Image, Top, AnyStale, Pixel;
    forall u: nat, v: nat | u < size.width && v < size.height
      ensures Sized(screen, size) && PixelCoherent(layers, screen, size, u, v)
    {
      ImagePixel(size, f, u, v);
    }
    ImagePixel(size, f, x, y);
    assert !PixelCoherent(t, screen, size, x, y);
  }

  /** Exactly when a layer may be removed whatever the screen shows. */
  lemma RemovalIsSafeIff(layers: seq<Layer>, size: Size, k: nat)
    requires LayersOk(layers) && k < |layers|
    ensures (forall screen :: Coherent(layers, screen, size) ==> Coherent(Removed(layers, k), screen, size))
            <==> SafeToRemove(layers, k, size)
  {
    if SafeToRemove(layers, k, size) {
      hide Coherent, Removed, Lost;
      forall screen | Coherent(layers, screen, size)
        ensures Coherent(Removed(layers, k), screen, size)
      {
        RemoveKeepsCoherent(layers, screen, size, k);
      }
    } else {
      hide Removed, Lost, PixelCoherent;
      var x: nat, y: nat :| x < size.width && y < size.height && Lost(layers, k, x, y);
      var screen := LostBreaksCoherent(layers, size, k, x, y);
      assert !Coherent(Removed(layers, k), screen, size);
    }
  }

  lemma RemovedOk(layers: seq<Layer>, k: nat)
    requires LayersOk(layers) && k < |layers|
    ensures LayersOk(Removed(layers, k))
  {
  }

  lemma RemovePixel(layers: seq<Layer>, screen: seq<nat>, size: Size, k: nat, x: nat, y: nat)
    requires LayersOk(layers) && Sized(screen, size) && x < size.width && y < size.height && k < |layers| && !Lost(layers, k, x, y)
    requires PixelCoherent(layers, screen, size, x, y) && LayersOk(Removed(layers, k))
    ensures PixelCoherent(Removed(layers, k), screen, size, x, y)
  {
    var gone, t, rest := layers[k], Removed(layers, k), Without(layers, k);
    RemoveOk(layers, k);
    forall i | 0 <= i < |rest|
      ensures Stale(rest[i], x, y) ==> Stale(t[i], x, y)
      ensures Shows(t[i], true, x, y) == Shows(rest[i], true, x, y)
      ensures Covers(gone, x, y) && Shows(rest[i], true, x, y).Some? ==> Stale(t[i], x, y)
    {
      MarkEffect(rest[i], gone, x, y);
    }
    var hidden := !Stale(gone, x, y) && Shows(gone, true, x, y).None?;
    assert hidden || (Covers(gone, x, y) && !gone.moved) || (Stale(gone, x, y) && gone.moved);
    assert !AnyStale(t, x, y) && Stale(gone, x, y) && gone.moved ==> Top(t, true, x, y).None?;
    hide Shows, Stale, MarkUnder, Removed, Covers, Without, Lost;
    if !AnyStale(t, x, y) {
      TopSame(rest, t, true, x, y);
      if hidden {
        RestOnTop(layers, k, x, y);
      } else if Covers(gone, x, y) && !gone.moved {
        TopNone(rest, true, x, y);
      }
    }
  }

  lemma RestOnTop(layers: seq<Layer>, k: nat, x: nat, y: nat)
    requires LayersOk(layers) && k < |layers| && LayersOk(Without(layers, k))
    requires !Stale(layers[k], x, y) && Shows(layers[k], true, x, y).None?
    requires forall i :: 0 <= i < |Without(layers, k)| ==> !Stale(Without(layers, k)[i], x, y)
    ensures !AnyStale(layers, x, y) && Top(layers, true, x, y) == Top(Without(layers, k), true, x, y)
  {
    var rest := Without(layers, k);
    forall i | 0 <= i < |layers|
      ensures !Stale(layers[i], x, y)
    {
      if i != k { assert layers[i] == rest[if i < k then i else i - 1]; }
    }
    assert layers == layers[..k] + [layers[k]] + layers[k + 1..];
    TopWithout(layers[..k], layers[k], layers[k + 1..], true, x, y);
  }

  lemma RaisePixel(layers: seq<Layer>, screen: seq<nat>, size: Size, k: nat, x: nat, y: nat)
    requires LayersOk(layers) && Sized(screen, size) && x < size.width && y < size.height && k < |layers|
    ensures LayersOk(Raised(layers, k)) && PixelCoherent(Raised(layers, k), screen, size, x, y)
  {
    var t := Raised(layers, k);
    RaisedOk(layers, k);
    hide Raised;
    if !AnyStale(t, x, y) {
      forall i | 0 <= i < |t|
        ensures Shows(t[i], true, x, y).None?
      {
        assert !Stale(t[i], x, y);
      }
      TopNone(t, true, x, y);
    }
  }

  /** Bringing a layer to the front marks everything dirty, which is always safe. */
  lemma RaiseKeepsCoherent(layers: seq<Layer>, screen: seq<nat>, size: Size, k: nat)
    requires Coherent(layers, screen, size) && k < |layers|
    ensures Coherent(Raised(layers, k), screen, size)
  {
    RaisedOk(layers, k);
    hide Raised, PixelCoherent;
    forall x: nat, y: nat | x < size.width && y < size.height
      ensures PixelCoherent(Raised(layers, k), screen, size, x, y)
    {
      RaisePixel(layers, screen, size, k, x, y);
    }
  }

  lemma RaisedOk(layers: seq<Layer>, k: nat)
    requires LayersOk(layers) && k < |layers|
    ensures LayersOk(Raised(layers, k))
    ensures forall i :: 0 <= i < |Raised(layers, k)| ==> Raised(layers, k)[i].dirty == Some(Full(Raised(layers, k)[i]))
  {
    RemoveOk(layers, k);
    var rest := Without(layers, k);
    InsertOk(rest, layers[k], InsertAt(rest, layers[k]));
  }

  // ----- repainting

  /** The bounding rectangle of everything the enabled layers call invalid. */
  function InvalidRect(layers: seq<Layer>): Option<Rect> {
    if layers == [] then None else AddInvalid(InvalidRect(layers[..|layers| - 1]), layers[|layers| - 1])
  }

  function AddInvalid(r: Option<Rect>, l: Layer): Option<Rect> {
    if l.disabled then r
    else
      var r1 := if l.dirty.Some? then MergeRect(r, ScreenDirty(l).value) else r;
      if !l.moved then r1
      else
        var r2 := MergeRect(r1, Rect(l.pos, l.size));
        if l.oldPos.Some? then MergeRect(r2, Rect(l.oldPos.value, l.size)) else r2
  }

  predicate InRect(r: Option<Rect>, x: int, y: int) { r.Some? && r.value.Contains(x, y) }

  lemma AddInvalidCovers(r: Option<Rect>, l: Layer, x: nat, y: nat)
    requires LayerOk(l)
    ensures InRect(r, x, y) ==> InRect(AddInvalid(r, l), x, y)
    ensures Stale(l, x, y) || (!l.disabled && l.moved && Covers(l, x, y)) ==> InRect(AddInvalid(r, l), x, y)
  {
  }

  lemma {:induction false} InvalidRectCovers(layers: seq<Layer>, x: nat, y: nat, i: nat)
    requires (forall j :: 0 <= j < |layers| ==> LayerOk(layers[j])) && i < |layers|
    requires Stale(layers[i], x, y) || (!layers[i].disabled && layers[i].moved && Covers(layers[i], x, y))
    ensures InRect(InvalidRect(layers), x, y)
  {
    var n := |layers| - 1;
    AddInvalidCovers(InvalidRect(layers[..n]), layers[n], x, y);
    if i < n {
      InvalidRectCovers(layers[..n], x, y, i);
    }
  }

  /** Everything an enabled layer calls invalid lies within the rectangle. */
  predicate Encloses(r: Rect, l: Layer) {
    !l.disabled ==>
      && (l.dirty.Some? ==> Within(ScreenDirty(l).value, r))
      && (l.moved ==> Within(Rect(l.pos, l.size), r) && (l.oldPos.Some? ==> Within(Rect(l.oldPos.value, l.size), r)))
  }

  lemma AddInvalidIsLeast(o: Option<Rect>, l: Layer, r: Rect)
    requires (o.Some? ==> Within(o.value, r)) && Encloses(r, l)
    ensures var o' := AddInvalid(o, l);
            (o'.Some? ==> Within(o'.value, r)) && (o'.Some? <==> o.Some? || (!l.disabled && (l.dirty.Some? || l.moved)))
  {
    hide Within, MergeRect;
    var o1 := if !l.disabled && l.dirty.Some? then MergeLeast(o, ScreenDirty(l).value, r); MergeRect(o, ScreenDirty(l).value) else o;
    if !l.disabled && l.moved {
      MergeLeast(o1, Rect(l.pos, l.size), r);
      var o2 := MergeRect(o1, Rect(l.pos, l.size));
      if l.oldPos.Some? {
        MergeLeast(o2, Rect(l.oldPos.value, l.size), r);
      }
    }
  }

  lemma MergeLeast(o: Option<Rect>, a: Rect, r: Rect)
    requires (o.Some? ==> Within(o.value, r)) && Within(a, r)
    ensures MergeRect(o, a).Some? && Within(MergeRect(o, a).value, r)
  {
    MergeIsLeast(o, a, r);
  }

  /** The invalid rectangle is the smallest that encloses what every layer calls invalid, and there is none if no layer calls anything so. */
  lemma {:induction false} InvalidRectIsLeast(layers: seq<Layer>, r: Rect)
    requires forall i :: 0 <= i < |layers| ==> Encloses(r, layers[i])
    ensures InvalidRect(layers).Some? ==> Within(InvalidRect(layers).value, r)
    ensures InvalidRect(layers).Some? <==> exists i :: 0 <= i < |layers| && !layers[i].disabled && (layers[i].dirty.Some? || layers[i].moved)
  {
    hide Encloses, AddInvalid, Within;
    if layers != [] {
      var n := |layers| - 1;
      InvalidRectIsLeast(layers[..n], r);
      AddInvalidIsLeast(InvalidRect(layers[..n]), layers[n], r);
      assert forall i :: 0 <= i < n ==> layers[..n][i] == layers[i];
    }
  }

  /** Outside the invalid rectangle nothing is stale or has moved, so what is settled is what is on top. */
  lemma OutsideIsSettled(layers: seq<Layer>, x: nat, y: nat)
    requires LayersOk(layers) && !InRect(InvalidRect(layers), x, y)
    ensures !AnyStale(layers, x, y) && Top(layers, true, x, y) == Top(layers, false, x, y)
  {
    forall i | 0 <= i < |layers|
      ensures !Stale(layers[i], x, y) && Shows(layers[i], true, x, y) == Shows(layers[i], false, x, y)
    {
      if Stale(layers[i], x, y) || (!layers[i].disabled && layers[i].moved && Covers(layers[i], x, y)) {
        InvalidRectCovers(layers, x, y, i);
      }
    }
    TopSettled(layers, x, y);
  }

  /** Outside the invalid rectangle a coherent pixel already shows the topmost layer, and an incoherent one does not. */
  lemma OutsideIsRight(layers: seq<Layer>, screen: seq<nat>, size: Size, x: nat, y: nat)
    requires LayersOk(layers) && Sized(screen, size) && x < size.width && y < size.height && !InRect(InvalidRect(layers), x, y)
    ensures PixelCoherent(layers, screen, size, x, y) <==> PixelShowsTop(layers, screen, size, x, y)
  {
    OutsideIsSettled(layers, x, y);
    hide Top, AnyStale, InvalidRect, Pixel;
  }

  lemma {:induction false} TopSettled(layers: seq<Layer>, x: nat, y: nat)
    requires forall i :: 0 <= i < |layers| ==> LayerOk(layers[i]) && Shows(layers[i], true, x, y) == Shows(layers[i], false, x, y)
    ensures Top(layers, true, x, y) == Top(layers, false, x, y)
  {
    if layers != [] {
      TopSettled(layers[..|layers| - 1], x, y);
    }
  }

  function Settled(l: Layer): Layer {
    if l.disabled then l else l.(dirty := None, moved := false, oldPos := None)
  }

  function AllSettled(layers: seq<Layer>): seq<Layer> {
    seq(|layers|, i requires 0 <= i < |layers| => Settled(layers[i]))
  }

  lemma SettledOk(layers: seq<Layer>)
    requires LayersOk(layers)
    ensures LayersOk(AllSettled(layers))
  {
  }

  /** A pixel that shows the top is coherent once the marks are cleared. */
  lemma ShowsTopSettles(layers: seq<Layer>, screen: seq<nat>, size: Size, x: nat, y: nat)
    requires LayersOk(layers) && Sized(screen, size) && x < size.width && y < size.height
    requires LayersOk(AllSettled(layers)) && PixelShowsTop(layers, screen, size, x, y)
    ensures PixelCoherent(AllSettled(layers), screen, size, x, y) && PixelShowsTop(AllSettled(layers), screen, size, x, y)
  {
    var t := AllSettled(layers);
    TopSame(layers, t, false, x, y);
    TopSettled(t, x, y);
  }
}
