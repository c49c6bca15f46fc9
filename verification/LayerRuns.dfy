/**
 * Runs of the layer manager: any order of push, remove, raise, move, draw and
 * repaint, and what the screen shows after each repaint.
 */
module LayerRuns {
  import opened Basics
  import opened Pixels
  import opened Layers

  /** The layers, bottom first, and the pixels last put on the screen. */
  datatype Display = Display(layers: seq<Layer>, screen: seq<nat>)

  datatype Op =
    | PushLayer(layer: Layer)
    | RemoveLayer(id: nat)
    | BringToFront(id: nat)
    | MoveLayer(id: nat, to: Point)
    | DrawLayer(id: nat, drawn: Layer, area: Rect)
    | DrawToFrameBuf

  /** The place of the layer with this id. */
  function IndexOf(layers: seq<Layer>, id: nat): (k: Option<nat>)
    ensures k.Some? ==> k.value < |layers| && layers[k.value].id == id
    ensures k.None? <==> forall i :: 0 <= i < |layers| ==> layers[i].id != id
  {
    if layers == [] then None
    else if layers[0].id == id then Some(0)
    else match IndexOf(layers[1..], id) case Some(k) => Some(k + 1) case None => None
  }

  lemma {:induction false} FirstIndex(layers: seq<Layer>, id: nat, k: nat)
    requires k < |layers| && layers[k].id == id && forall j :: 0 <= j < k ==> layers[j].id != id
    ensures IndexOf(layers, id) == Some(k)
  {
    if k > 0 {
      FirstIndex(layers[1..], id, k - 1);
    }
  }

  /** Inside the rectangle every pixel some layer covers is repainted from the top one; nothing else changes. */
  ghost predicate Repainted(before: seq<nat>, after: seq<nat>, size: Size, rect: Rect, layers: seq<Layer>)
    requires forall i :: 0 <= i < |layers| ==> LayerOk(layers[i])
  {
    && Sized(before, size) && Sized(after, size)
    && forall x: nat, y: nat :: x < size.width && y < size.height ==>
         Pixel(after, size, x, y) ==
         if rect.Contains(x, y) && Top(layers, false, x, y).Some? then Top(layers, false, x, y).value
         else Pixel(before, size, x, y)
  }

  /** A pushed layer has a new id, and a drawing changes pixels and adds a mark. */
  ghost predicate Allowed(d: Display, op: Op)
    requires LayersOk(d.layers)
  {
    match op
    case PushLayer(l) => LayerOk(l) && IndexOf(d.layers, l.id).None?
    case DrawLayer(id, l, r) => var k := IndexOf(d.layers, id); k.Some? ==> Redrawn(d.layers[k.value], r, l)
    case _ => true
  }

  /** The operation leaves the pixel wrong with no mark on it: an undrawn push, a removal after a move, an unmarked drawing. */
  ghost predicate NewDebt(d: Display, op: Op, x: nat, y: nat)
    requires LayersOk(d.layers) && Allowed(d, op)
  {
    match op
    case PushLayer(l) => PushOwes(d.layers, l, x, y)
    case RemoveLayer(id) => var k := IndexOf(d.layers, id); k.Some? && Lost(d.layers, k.value, x, y)
    case DrawLayer(id, l, r) => var k := IndexOf(d.layers, id); k.Some? && DrawOwes(d.layers[k.value], r, l, x, y)
    case _ => false
  }

  /** One operation; an unknown id changes nothing. */
  ghost predicate Step(d: Display, op: Op, d': Display, size: Size)
    requires LayersOk(d.layers)
  {
    match op
    case PushLayer(l) => d' == d.(layers := Push(d.layers, l))
    case RemoveLayer(id) =>
      var k := IndexOf(d.layers, id);
      d' == if k.Some? then d.(layers := Removed(d.layers, k.value)) else d
    case BringToFront(id) =>
      var k := IndexOf(d.layers, id);
      d' == if k.Some? then d.(layers := Raised(d.layers, k.value)) else d
    case MoveLayer(id, p) =>
      var k := IndexOf(d.layers, id);
      d' == if k.Some? then d.(layers := d.layers[k.value := MoveTo(d.layers[k.value], p)]) else d
    case DrawLayer(id, l, _) =>
      var k := IndexOf(d.layers, id);
      d' == if k.Some? then d.(layers := d.layers[k.value := l]) else d
    case DrawToFrameBuf =>
      var r := InvalidRect(d.layers);
      if r.None? then d' == d
      else d'.layers == AllSettled(d.layers) && Repainted(d.screen, d'.screen, size, r.value, d.layers)
  }

  // ----- one operation, one pixel

  /** What a repaint makes of the screen. */
  ghost predicate RepaintGives(layers: seq<Layer>, before: seq<nat>, after: seq<nat>, size: Size)
    requires LayersOk(layers)
  {
    var r := InvalidRect(layers);
    if r.None? then after == before && Sized(before, size) else Repainted(before, after, size, r.value, layers)
  }

  lemma RepaintSized(layers: seq<Layer>, before: seq<nat>, after: seq<nat>, size: Size)
    requires LayersOk(layers) && RepaintGives(layers, before, after, size)
    ensures Sized(before, size) && Sized(after, size)
  {
  }

  /** Repainting only the invalid rectangle gets a pixel right exactly if it lies in it or was coherent. */
  lemma RepaintPixel(layers: seq<Layer>, before: seq<nat>, after: seq<nat>, size: Size, x: nat, y: nat)
    requires LayersOk(layers) && RepaintGives(layers, before, after, size) && x < size.width && y < size.height
    ensures Sized(before, size) && Sized(after, size)
    ensures PixelShowsTop(layers, after, size, x, y) <==> InRect(InvalidRect(layers), x, y) || PixelCoherent(layers, before, size, x, y)
  {
    if InRect(InvalidRect(layers), x, y) {
      assert InvalidRect(layers).value.Contains(x, y);
      hide Top, InvalidRect, PixelCoherent;
    } else {
      assert Pixel(after, size, x, y) == Pixel(before, size, x, y);
      hide Repainted, InvalidRect, PixelCoherent, Top;
      OutsideIsRight(layers, before, size, x, y);
    }
  }

  /** Every operation keeps the layers well formed. */
  lemma StepOk(d: Display, op: Op, d': Display, size: Size)
    requires LayersOk(d.layers) && Sized(d.screen, size) && Allowed(d, op) && Step(d, op, d', size)
    ensures LayersOk(d'.layers) && Sized(d'.screen, size)
  {
    match op
    case PushLayer(l) => PushOk(d.layers, l);
    case RemoveLayer(id) =>
      var k := IndexOf(d.layers, id);
      if k.Some? { RemovedOk(d.layers, k.value); }
    case BringToFront(id) =>
      var k := IndexOf(d.layers, id);
      if k.Some? { RaisedOk(d.layers, k.value); }
    case DrawToFrameBuf => SettledOk(d.layers);
    case _ =>
  }

  /** An operation other than a repaint keeps a pixel coherent unless it leaves a debt there. */
  lemma StepPixel(d: Display, op: Op, d': Display, size: Size, x: nat, y: nat)
    requires LayersOk(d.layers) && Sized(d.screen, size) && Allowed(d, op) && Step(d, op, d', size) && op != DrawToFrameBuf
    requires LayersOk(d'.layers) && x < size.width && y < size.height
    requires PixelCoherent(d.layers, d.screen, size, x, y) && !NewDebt(d, op, x, y)
    ensures d'.screen == d.screen && PixelCoherent(d'.layers, d'.screen, size, x, y)
  {
    hide PixelCoherent, LayersOk, Redrawn, Push, Removed, Raised, PushOwes, Lost, DrawOwes, MoveTo;
    match op
    case PushLayer(l) => PushPixel(d.layers, d.screen, size, l, x, y);
    case RemoveLayer(id) =>
      var k := IndexOf(d.layers, id);
      if k.Some? { RemovePixel(d.layers, d.screen, size, k.value, x, y); }
    case BringToFront(id) =>
      var k := IndexOf(d.layers, id);
      if k.Some? { RaisePixel(d.layers, d.screen, size, k.value, x, y); }
    case MoveLayer(id, p) =>
      var k := IndexOf(d.layers, id);
      if k.Some? { MovePixel(d.layers, d.screen, size, k.value, p, x, y); }
    case DrawLayer(id, l, r) =>
      var k := IndexOf(d.layers, id);
      if k.Some? { DrawPixelCoherent(d.layers, d.screen, size, k.value, r, l, x, y); }
  }

  /** A repaint gets a pixel right, and clears its marks, if it lies in the invalid rectangle or was coherent. */
  lemma RepaintStep(d: Display, d': Display, size: Size, x: nat, y: nat)
    requires LayersOk(d.layers) && Sized(d.screen, size) && Step(d, DrawToFrameBuf, d', size)
    requires LayersOk(d'.layers) && Sized(d'.screen, size) && x < size.width && y < size.height
    requires InRect(InvalidRect(d.layers), x, y) || PixelCoherent(d.layers, d.screen, size, x, y)
    ensures PixelShowsTop(d'.layers, d'.screen, size, x, y) && PixelCoherent(d'.layers, d'.screen, size, x, y)
  {
    hide PixelCoherent, PixelShowsTop, InvalidRect, Repainted, AllSettled, LayersOk;
    RepaintPixel(d.layers, d.screen, d'.screen, size, x, y);
    if InvalidRect(d.layers).Some? {
      ShowsTopSettles(d.layers, d'.screen, size, x, y);
    }
  }

  /** An operation that leaves no debt keeps the whole screen coherent, and a repaint makes it show the top. */
  lemma StepKeepsCoherent(d: Display, op: Op, d': Display, size: Size)
    requires Coherent(d.layers, d.screen, size) && Allowed(d, op) && Step(d, op, d', size)
    requires forall x: nat, y: nat :: x < size.width && y < size.height ==> !NewDebt(d, op, x, y)
    ensures Coherent(d'.layers, d'.screen, size)
    ensures op == DrawToFrameBuf ==> ShowsTop(d'.layers, d'.screen, size)
    ensures op != DrawToFrameBuf ==> d'.screen == d.screen
  {
    StepOk(d, op, d', size);
    assert op != DrawToFrameBuf ==> d'.screen == d.screen;
    hide PixelCoherent, PixelShowsTop, Step, NewDebt, LayersOk, Allowed;
    forall x: nat, y: nat | x < size.width && y < size.height
      ensures PixelCoherent(d'.layers, d'.screen, size, x, y)
      ensures op == DrawToFrameBuf ==> PixelShowsTop(d'.layers, d'.screen, size, x, y)
    {
      if op == DrawToFrameBuf {
        RepaintStep(d, d', size, x, y);
      } else {
        StepPixel(d, op, d', size, x, y);
      }
    }
  }

  // ----- runs

  ghost predicate Run(ds: seq<Display>, ops: seq<Op>, size: Size) {
    && |ds| == |ops| + 1
    && ds[0].layers == [] && Sized(ds[0].screen, size)
    && (forall i :: 0 <= i < |ds| ==> LayersOk(ds[i].layers))
    && forall i :: 0 <= i < |ops| ==> Allowed(ds[i], ops[i]) && Step(ds[i], ops[i], ds[i + 1], size)
  }

  /**
   * The debt at a pixel: left by some operation, and cleared by the first mark
   * laid over the pixel or the first repaint whose rectangle holds it.
   */
  ghost predicate Owed(ds: seq<Display>, ops: seq<Op>, size: Size, n: nat, x: nat, y: nat)
    requires Run(ds, ops, size) && n <= |ops|
  {
    n > 0 &&
    var d, op := ds[n - 1], ops[n - 1];
    if op == DrawToFrameBuf then Owed(ds, ops, size, n - 1, x, y) && !InRect(InvalidRect(d.layers), x, y)
    else (Owed(ds, ops, size, n - 1, x, y) || NewDebt(d, op, x, y)) && !AnyStale(ds[n].layers, x, y)
  }

  lemma StalePixel(layers: seq<Layer>, screen: seq<nat>, size: Size, x: nat, y: nat)
    requires LayersOk(layers) && Sized(screen, size) && x < size.width && y < size.height && AnyStale(layers, x, y)
    ensures PixelCoherent(layers, screen, size, x, y)
  {
  }

  /** In every run, a pixel that owes nothing is coherent, and after a repaint it shows the topmost layer. */
  lemma {:induction false} EveryRunPixel(ds: seq<Display>, ops: seq<Op>, size: Size, n: nat, x: nat, y: nat)
    requires Run(ds, ops, size) && n <= |ops| && x < size.width && y < size.height
    ensures Sized(ds[n].screen, size)
    ensures !Owed(ds, ops, size, n, x, y) ==> PixelCoherent(ds[n].layers, ds[n].screen, size, x, y)
    ensures n > 0 && ops[n - 1] == DrawToFrameBuf && !Owed(ds, ops, size, n, x, y) ==>
              PixelShowsTop(ds[n].layers, ds[n].screen, size, x, y)
  {
    if n > 0 {
      EveryRunPixel(ds, ops, size, n - 1, x, y);
      hide PixelCoherent, PixelShowsTop, Step, NewDebt, LayersOk, Allowed, AnyStale, InvalidRect;
      var d, op, d' := ds[n - 1], ops[n - 1], ds[n];
      StepOk(d, op, d', size);
      if !Owed(ds, ops, size, n, x, y) {
        if op == DrawToFrameBuf {
          RepaintStep(d, d', size, x, y);
        } else if AnyStale(d'.layers, x, y) {
          StalePixel(d'.layers, d'.screen, size, x, y);
        } else {
          StepPixel(d, op, d', size, x, y);
        }
      }
    }
  }

  /**
   * After every repaint of every run that leaves no debt outside the repainted
   * rectangle, each pixel under a layer shows the topmost layer there.
   */
  lemma EveryRepaintShowsTop(ds: seq<Display>, ops: seq<Op>, size: Size, n: nat)
    requires Run(ds, ops, size) && 0 < n <= |ops| && ops[n - 1] == DrawToFrameBuf
    requires forall x: nat, y: nat :: x < size.width && y < size.height ==> !Owed(ds, ops, size, n, x, y)
    ensures ShowsTop(ds[n].layers, ds[n].screen, size)
  {
    hide PixelShowsTop, PixelCoherent, LayersOk, InvalidRect;
    RunSized(ds, ops, size, n);
    forall x: nat, y: nat | x < size.width && y < size.height
      ensures PixelShowsTop(ds[n].layers, ds[n].screen, size, x, y)
    {
      EveryRunPixel(ds, ops, size, n, x, y);
    }
  }

  lemma {:induction false} RunSized(ds: seq<Display>, ops: seq<Op>, size: Size, n: nat)
    requires Run(ds, ops, size) && n <= |ops|
    ensures Sized(ds[n].screen, size)
  {
    if n > 0 {
      RunSized(ds, ops, size, n - 1);
      hide Step, LayersOk, Allowed;
      StepOk(ds[n - 1], ops[n - 1], ds[n], size);
    }
  }

  // ----- when a debt shows

  lemma SomeRepaint(layers: seq<Layer>, before: seq<nat>, size: Size) returns (after: seq<nat>)
    requires LayersOk(layers) && Sized(before, size)
    ensures RepaintGives(layers, before, after, size)
  {
    var r := InvalidRect(layers);
    if r.None? {
      after := before;
    } else {
      var f: (nat, nat) -> nat := (u: nat, v: nat) =>
        if r.value.Contains(u, v) && Top(layers, false, u, v).Some? then Top(layers, false, u, v).value
        else if u < size.width && v < size.height then Pixel(before, size, u, v) else 0;
      after := Image(size, f);
      hide Image, Top, Pixel, InvalidRect;
      assert Sized(after, size) by { ImageSized(size, f); }
      forall u: nat, v: nat | u < size.width && v < size.height
        ensures Pixel(after, size, u, v) == f(u, v)
      {
        ImagePixel(size, f, u, v);
      }
    }
  }

  /** After a removal and a repaint the screen is right, whatever it showed, exactly when every lost pixel is repainted anyway. */
  lemma RemovalShowsIff(layers: seq<Layer>, size: Size, k: nat)
    requires LayersOk(layers) && k < |layers| && LayersOk(Removed(layers, k))
    ensures (forall screen, after :: Coherent(layers, screen, size) && RepaintGives(Removed(layers, k), screen, after, size) ==>
               ShowsTop(Removed(layers, k), after, size))
            <==> (forall x: nat, y: nat :: x < size.width && y < size.height && Lost(layers, k, x, y) ==>
                    InRect(InvalidRect(Removed(layers, k)), x, y))
  {
    var t := Removed(layers, k);
    hide Removed, Lost, PixelCoherent, PixelShowsTop, InvalidRect, RepaintGives, LayersOk;
    if x: nat, y: nat :| x < size.width && y < size.height && Lost(layers, k, x, y) && !InRect(InvalidRect(t), x, y) {
      var screen := LostBreaksCoherent(layers, size, k, x, y);
      var after := SomeRepaint(t, screen, size);
      RepaintPixel(t, screen, after, size, x, y);
      assert !ShowsTop(t, after, size);
    } else {
      forall screen, after | Coherent(layers, screen, size) && RepaintGives(t, screen, after, size)
        ensures ShowsTop(t, after, size)
      {
        RepaintSized(t, screen, after, size);
        forall x: nat, y: nat | x < size.width && y < size.height
          ensures PixelShowsTop(t, after, size, x, y)
        {
          if !Lost(layers, k, x, y) { RemovePixel(layers, screen, size, k, x, y); }
          RepaintPixel(t, screen, after, size, x, y);
        }
      }
    }
  }

  /** After a push and a repaint the screen is right, whatever it showed, exactly when every owed pixel is repainted anyway. */
  lemma PushShowsIff(layers: seq<Layer>, size: Size, l: Layer)
    requires LayersOk(layers) && LayerOk(l) && LayersOk(Push(layers, l))
    ensures (forall screen, after :: Coherent(layers, screen, size) && RepaintGives(Push(layers, l), screen, after, size) ==>
               ShowsTop(Push(layers, l), after, size))
            <==> (forall x: nat, y: nat :: x < size.width && y < size.height && PushOwes(layers, l, x, y) ==>
                    InRect(InvalidRect(Push(layers, l)), x, y))
  {
    var t := Push(layers, l);
    hide Push, PushOwes, PixelCoherent, PixelShowsTop, InvalidRect, RepaintGives, LayersOk;
    if x: nat, y: nat :| x < size.width && y < size.height && PushOwes(layers, l, x, y) && !InRect(InvalidRect(t), x, y) {
      var screen := DebtBreaksCoherent(layers, size, l, x, y);
      var after := SomeRepaint(t, screen, size);
      RepaintPixel(t, screen, after, size, x, y);
      assert !ShowsTop(t, after, size);
    } else {
      forall screen, after | Coherent(layers, screen, size) && RepaintGives(t, screen, after, size)
        ensures ShowsTop(t, after, size)
      {
        RepaintSized(t, screen, after, size);
        forall x: nat, y: nat | x < size.width && y < size.height
          ensures PixelShowsTop(t, after, size, x, y)
        {
          if !PushOwes(layers, l, x, y) { PushPixel(layers, screen, size, l, x, y); }
          RepaintPixel(t, screen, after, size, x, y);
        }
      }
    }
  }

  // ----- runs that end badly

  /** A layer of one pixel, marked dirty or settled. */
  function Tile(id: nat, code: nat, marked: bool): Layer {
    Layer(id, Point(0, 0), Size(1, 1), [code], false, false, if marked then Some(Rect(Point(0, 0), Size(1, 1))) else None, false, None)
  }

  const Back: Layer := Tile(0, 7, true)
  const Front: Layer := Tile(1, 9, true)
  const Away: Layer := MoveTo(Tile(1, 9, false), Point(1, 0))
  const One: Size := Size(1, 1)

  lemma OneMore(ds: seq<Display>, ops: seq<Op>, size: Size, op: Op, d: Display) returns (ds': seq<Display>, ops': seq<Op>)
    requires Run(ds, ops, size) && |ds| == |ops| + 1 && LayersOk(ds[|ops|].layers) && LayersOk(d.layers)
    requires Allowed(ds[|ops|], op) && Step(ds[|ops|], op, d, size)
    ensures Run(ds', ops', size) && ops' == ops + [op] && |ds'| == |ops'| + 1 && ds'[|ops'|] == d
  {
    hide Allowed, Step, LayersOk;
    ds', ops' := ds + [d], ops + [op];
  }

  lemma TilesOk()
    ensures LayersOk([]) && LayersOk([Back]) && LayersOk([Back, Front]) && LayersOk([Tile(0, 7, false)])
    ensures LayersOk([Tile(0, 7, false), Tile(1, 9, false)]) && LayersOk([Tile(0, 7, false), Away])
    ensures LayersOk([Tile(0, 7, false), Tile(1, 0, false)])
  {
  }

  /** A layer with a new id goes on top of a single ordinary one. */
  lemma PushOnOne(back: Layer, l: Layer, screen: seq<nat>)
    requires LayersOk([back]) && LayerOk(l) && !back.onTop && back.id != l.id
    ensures Allowed(Display([back], screen), PushLayer(l))
    ensures Step(Display([back], screen), PushLayer(l), Display([back, l], screen), One)
  {
    assert [back][1..] == [];
    assert FirstOnTop([back]) == 1;
    assert Push([back], l) == [back, l];
  }

  lemma PushOnNone(l: Layer, screen: seq<nat>)
    requires LayersOk([]) && LayerOk(l)
    ensures Allowed(Display([], screen), PushLayer(l)) && Step(Display([], screen), PushLayer(l), Display([l], screen), One)
  {
    var none: seq<Layer> := [];
    assert InsertAt(none, l) == 0 && none[..0] + [l] + none[0..] == [l];
    hide LayerOk;
  }

  lemma OnePainted()
    requires LayersOk([Back])
    ensures Step(Display([Back], [0]), DrawToFrameBuf, Display([Tile(0, 7, false)], [7]), One)
  {
    assert Stale([Back][0], 0, 0);
    InvalidRectCovers([Back], 0, 0, 0);
    assert Top([Back], false, 0, 0) == Some(7);
    assert AllSettled([Back]) == [Tile(0, 7, false)];
    assert Pixel([7], One, 0, 0) == 7 && Pixel([0], One, 0, 0) == 0;
    hide InvalidRect;
  }

  lemma TilesPainted()
    requires LayersOk([Back, Front])
    ensures Step(Display([Back, Front], [0]), DrawToFrameBuf, Display([Tile(0, 7, false), Tile(1, 9, false)], [9]), One)
  {
    var layers := [Back, Front];
    assert Stale(layers[1], 0, 0);
    InvalidRectCovers(layers, 0, 0, 1);
    assert Top(layers, false, 0, 0) == Some(9);
    assert AllSettled(layers) == [Tile(0, 7, false), Tile(1, 9, false)];
    assert Pixel([9], One, 0, 0) == 9 && Pixel([0], One, 0, 0) == 0;
    hide InvalidRect;
  }

  lemma UpperMoves(back: Layer, front: Layer, screen: seq<nat>, size: Size, p: Point)
    requires LayersOk([back, front]) && back.id == 0 && front.id == 1
    ensures Allowed(Display([back, front], screen), MoveLayer(1, p))
    ensures Step(Display([back, front], screen), MoveLayer(1, p), Display([back, MoveTo(front, p)], screen), size)
  {
    assert [back, front][1..] == [front];
    assert IndexOf([front], 1) == Some(0);
    assert IndexOf([back, front], 1) == Some(1);
    assert [back, front][1 := MoveTo(front, p)] == [back, MoveTo(front, p)];
    hide IndexOf, MoveTo, LayersOk;
  }

  lemma TileRemoved()
    requires LayersOk([Tile(0, 7, false), Away])
    ensures Step(Display([Tile(0, 7, false), Away], [9]), RemoveLayer(1), Display([Tile(0, 7, false)], [9]), One)
  {
    var layers := [Tile(0, 7, false), Away];
    assert layers[1..] == [Away] && IndexOf(layers, 1) == Some(1);
    assert Without(layers, 1) == [Tile(0, 7, false)];
    assert MarkUnder(Tile(0, 7, false), Away) == Tile(0, 7, false);
    assert Removed(layers, 1) == [Tile(0, 7, false)];
  }

  lemma TileStays()
    requires LayersOk([Tile(0, 7, false)])
    ensures Step(Display([Tile(0, 7, false)], [9]), DrawToFrameBuf, Display([Tile(0, 7, false)], [9]), One)
    ensures !ShowsTop([Tile(0, 7, false)], [9], One)
  {
    assert Top([Tile(0, 7, false)], false, 0, 0) == Some(7);
    assert Pixel([9], One, 0, 0) == 9;
    assert !PixelShowsTop([Tile(0, 7, false)], [9], One, 0, 0);
  }

  lemma UndrawnStays()
    requires LayersOk([Tile(0, 7, false), Tile(1, 0, false)])
    ensures var d := Display([Tile(0, 7, false), Tile(1, 0, false)], [7]); Step(d, DrawToFrameBuf, d, One)
    ensures !ShowsTop([Tile(0, 7, false), Tile(1, 0, false)], [7], One)
  {
    var layers := [Tile(0, 7, false), Tile(1, 0, false)];
    assert layers[..1] == [Tile(0, 7, false)] && layers[..1][..0] == [];
    assert InvalidRect([]).None? && InvalidRect(layers[..1]) == AddInvalid(None, Tile(0, 7, false));
    assert InvalidRect(layers).None?;
    assert Top(layers, false, 0, 0) == Some(0);
    assert Pixel([7], One, 0, 0) == 7;
    assert !PixelShowsTop(layers, [7], One, 0, 0);
  }

  /**
   * Two layers are pushed, painted, and the upper one moved. Removing it before
   * the next repaint leaves its old pixel on the screen after that repaint.
   */
  lemma UnflushedMoveLeavesGhost() returns (ds: seq<Display>, ops: seq<Op>)
    ensures Run(ds, ops, One) && |ops| == 6
    ensures ops[2] == DrawToFrameBuf && ops[3].MoveLayer? && ops[4] == RemoveLayer(ops[3].id) && ops[5] == DrawToFrameBuf
    ensures !ShowsTop(ds[6].layers, ds[6].screen, One)
  {
    hide Step, LayersOk, ShowsTop, Run;
    TilesOk();
    var d0, d1, d2 := Display([], [0]), Display([Back], [0]), Display([Back, Front], [0]);
    var d3, d4 := Display([Tile(0, 7, false), Tile(1, 9, false)], [9]), Display([Tile(0, 7, false), Away], [9]);
    var d5 := Display([Tile(0, 7, false)], [9]);
    var move := MoveLayer(1, Point(1, 0));
    NoSteps(d0);
    ds, ops := [d0], [];
    PushOnNone(Back, [0]);
    ds, ops := OneMore(ds, ops, One, PushLayer(Back), d1);
    PushOnOne(Back, Front, [0]);
    ds, ops := OneMore(ds, ops, One, PushLayer(Front), d2);
    TilesPainted();
    ds, ops := OneMore(ds, ops, One, DrawToFrameBuf, d3);
    UpperMoves(Tile(0, 7, false), Tile(1, 9, false), [9], One, Point(1, 0));
    ds, ops := OneMore(ds, ops, One, move, d4);
    TileRemoved();
    ds, ops := OneMore(ds, ops, One, RemoveLayer(1), d5);
    TileStays();
    ds, ops := OneMore(ds, ops, One, DrawToFrameBuf, d5);
  }

  lemma NoSteps(d: Display)
    requires d.layers == [] && Sized(d.screen, One)
    ensures Run([d], [], One)
  {
  }

  /** A layer pushed undrawn over a painted one is not shown by the next repaint. */
  lemma UndrawnPushIsNotShown() returns (ds: seq<Display>, ops: seq<Op>)
    ensures Run(ds, ops, One) && |ops| == 4 && ops[1] == DrawToFrameBuf && ops[2].PushLayer? && ops[3] == DrawToFrameBuf
    ensures !ShowsTop(ds[4].layers, ds[4].screen, One)
  {
    hide Step, LayersOk, ShowsTop, Run;
    TilesOk();
    var d0, d1, d2 := Display([], [0]), Display([Back], [0]), Display([Tile(0, 7, false)], [7]);
    var d3 := Display([Tile(0, 7, false), Tile(1, 0, false)], [7]);
    var push := PushLayer(Tile(1, 0, false));
    NoSteps(d0);
    ds, ops := [d0], [];
    PushOnNone(Back, [0]);
    ds, ops := OneMore(ds, ops, One, PushLayer(Back), d1);
    OnePainted();
    ds, ops := OneMore(ds, ops, One, DrawToFrameBuf, d2);
    PushOnOne(Tile(0, 7, false), Tile(1, 0, false), [7]);
    ds, ops := OneMore(ds, ops, One, push, d3);
    UndrawnStays();
    ds, ops := OneMore(ds, ops, One, DrawToFrameBuf, d3);
  }
}
