/**
 * What a run of the layer manager leaves on the screen, told from its history
 * alone: where each layer lies and what it shows is decided by the last push,
 * move and drawing of it, and which of two layers is in front by which was
 * pushed or raised last.
 */
module LayerHistory {
  import opened Basics
  import opened Pixels
  import opened Layers
  import opened LayerRuns

  // ----- in front

  lemma {:induction false} TopIsShown(a: seq<Layer>, k: nat, x: nat, y: nat)
    requires (forall i :: 0 <= i < |a| ==> LayerOk(a[i])) && k < |a| && Shows(a[k], false, x, y).Some?
    requires forall j :: k < j < |a| ==> Shows(a[j], false, x, y).None?
    ensures Top(a, false, x, y) == Shows(a[k], false, x, y)
  {
    hide Shows, LayerOk;
    if k < |a| - 1 {
      TopIsShown(a[..|a| - 1], k, x, y);
    }
  }

  /** Nothing ordinary is in front of a pushed layer, and nothing at all of a pushed always-on-top one. */
  lemma PushedPlace(layers: seq<Layer>, l: Layer)
    ensures var i, t := InsertAt(layers, l), Push(layers, l);
            && |t| == |layers| + 1 && t[i] == l
            && (forall j :: 0 <= j < |t| && j != i ==> t[j] == layers[if j < i then j else j - 1])
            && (forall j :: i < j < |t| && TopsLast(layers) ==> t[j].onTop && !l.onTop)
  {
    var i, t := InsertAt(layers, l), Push(layers, l);
    if i < |layers| {
      assert layers[i].onTop;
    }
  }

  /** Always-on-top layers lie above all others. */
  ghost predicate TopsLast(layers: seq<Layer>) {
    forall i, j :: 0 <= i < j < |layers| && layers[i].onTop ==> layers[j].onTop
  }

  /** No always-on-top layer shows at this pixel. */
  ghost predicate NoTops(layers: seq<Layer>, x: nat, y: nat)
    requires forall i :: 0 <= i < |layers| ==> LayerOk(layers[i])
  {
    forall j :: 0 <= j < |layers| && layers[j].onTop ==> Shows(layers[j], false, x, y).None?
  }

  /** A pushed layer is on top wherever it shows and no always-on-top layer hides it. */
  lemma PushedIsOnTop(layers: seq<Layer>, l: Layer, x: nat, y: nat)
    requires LayersOk(layers) && LayerOk(l) && TopsLast(layers) && Shows(l, false, x, y).Some? && (l.onTop || NoTops(layers, x, y))
    ensures (forall i :: 0 <= i < |Push(layers, l)| ==> LayerOk(Push(layers, l)[i])) && Top(Push(layers, l), false, x, y) == Shows(l, false, x, y)
  {
    var i, t := InsertAt(layers, l), Push(layers, l);
    PushedPlace(layers, l);
    hide Push, Shows, InsertAt;
    TopIsShown(t, i, x, y);
  }

  lemma WithoutTops(layers: seq<Layer>, k: nat)
    requires TopsLast(layers) && k < |layers|
    ensures TopsLast(Without(layers, k))
  {
    var t := Without(layers, k);
    assert forall j :: 0 <= j < |t| ==> t[j] == layers[if j < k then j else j + 1];
  }

  lemma WithoutNoTops(layers: seq<Layer>, k: nat, x: nat, y: nat)
    requires LayersOk(layers) && k < |layers| && NoTops(layers, x, y)
    ensures LayersOk(Without(layers, k)) && NoTops(Without(layers, k), x, y)
  {
    RemoveOk(layers, k);
    hide Without, Shows;
  }

  /** A raised layer is on top wherever it shows and is always on top or no always-on-top layer shows. */
  lemma RaisedIsOnTop(layers: seq<Layer>, k: nat, x: nat, y: nat)
    requires LayersOk(layers) && TopsLast(layers) && k < |layers|
    requires Shows(layers[k], false, x, y).Some? && (layers[k].onTop || NoTops(layers, x, y))
    ensures LayersOk(Raised(layers, k)) && Top(Raised(layers, k), false, x, y) == Shows(layers[k], false, x, y)
  {
    var rest, l := Without(layers, k), layers[k];
    RemoveOk(layers, k);
    if !l.onTop {
      WithoutNoTops(layers, k, x, y);
    }
    WithoutTops(layers, k);
    PushedIsOnTop(rest, l, x, y);
    RaisedOk(layers, k);
    var t := Push(rest, l);
    hide Push, Without, TopsLast, NoTops, InsertAt;
    TopSame(t, Raised(layers, k), false, x, y);
  }

  /** After bringing a layer to the front and a repaint, its pixels are on the screen there. */
  lemma RaisedIsSeen(d: Display, id: nat, d1: Display, d2: Display, size: Size, k: nat, x: nat, y: nat)
    requires LayersOk(d.layers) && Sized(d.screen, size) && TopsLast(d.layers) && IndexOf(d.layers, id) == Some(k)
    requires Step(d, BringToFront(id), d1, size) && LayersOk(d1.layers) && Step(d1, DrawToFrameBuf, d2, size)
    requires x < size.width && y < size.height
    requires Shows(d.layers[k], false, x, y).Some? && (d.layers[k].onTop || NoTops(d.layers, x, y))
    ensures Sized(d2.screen, size) && Some(Pixel(d2.screen, size, x, y)) == Shows(d.layers[k], false, x, y)
  {
    hide TopsLast, NoTops, Shows, Top, Raised;
    RaisedIsOnTop(d.layers, k, x, y);
    RaisedOk(d.layers, k);
    AllDirtyCovers(d1.layers, x, y);
    RepaintPixel(d1.layers, d1.screen, d2.screen, size, x, y);
  }

  /** When every layer is wholly dirty, the invalid rectangle holds every pixel a layer shows. */
  lemma AllDirtyCovers(layers: seq<Layer>, x: nat, y: nat)
    requires LayersOk(layers) && Top(layers, false, x, y).Some?
    requires forall i :: 0 <= i < |layers| ==> layers[i].dirty == Some(Full(layers[i]))
    ensures InRect(InvalidRect(layers), x, y)
  {
    hide InvalidRect;
    if !InRect(InvalidRect(layers), x, y) {
      OutsideIsSettled(layers, x, y);
      forall i | 0 <= i < |layers|
        ensures Shows(layers[i], true, x, y).None?
      {
        assert !Stale(layers[i], x, y);
      }
      TopNone(layers, true, x, y);
    }
  }

  // ----- what each layer shows, and where

  /** A layer without its book-keeping: id, place, size, pixels, and whether it is shown or always on top. */
  function Look(l: Layer): Layer { l.(dirty := None, moved := false, oldPos := None) }

  ghost predicate Has(layers: seq<Layer>, v: Layer) { exists k :: 0 <= k < |layers| && Look(layers[k]) == v }

  /** How a layer looks after one more operation. */
  function LookStep(was: Option<Layer>, op: Op, id: nat): Option<Layer> {
    match op
    case PushLayer(l) => if l.id == id then Some(Look(l)) else was
    case RemoveLayer(i) => if i == id then None else was
    case MoveLayer(i, p) => if i == id && was.Some? then Some(was.value.(pos := p)) else was
    case DrawLayer(i, l, _) => if i == id && was.Some? then Some(was.value.(buf := l.buf)) else was
    case _ => was
  }

  /** How the layer with this id looks, by the last push of it and what has been done to it since. */
  function LookOf(ops: seq<Op>, n: nat, id: nat): Option<Layer>
    requires n <= |ops|
  {
    if n == 0 then None else LookStep(LookOf(ops, n - 1, id), ops[n - 1], id)
  }

  /** At most one layer has an id. */
  lemma HasOne(layers: seq<Layer>, k: nat, v: Layer)
    requires LayersOk(layers) && k < |layers| && v.id == layers[k].id
    ensures Has(layers, v) <==> v == Look(layers[k])
  {
    if Has(layers, v) {
      var j :| 0 <= j < |layers| && Look(layers[j]) == v;
      assert layers[j].id == layers[k].id;
    }
  }

  lemma HasNone(layers: seq<Layer>, v: Layer)
    requires forall i :: 0 <= i < |layers| ==> layers[i].id != v.id
    ensures !Has(layers, v)
  {
  }

  lemma HasMapped(a: seq<Layer>, b: seq<Layer>, v: Layer)
    requires |a| == |b| && forall i :: 0 <= i < |a| ==> Look(b[i]) == Look(a[i])
    ensures Has(b, v) <==> Has(a, v)
  {
    hide Look;
    if Has(a, v) {
      var i :| 0 <= i < |a| && Look(a[i]) == v;
      assert Look(b[i]) == v;
    }
    if Has(b, v) {
      var i :| 0 <= i < |b| && Look(b[i]) == v;
      assert Look(a[i]) == v;
    }
  }

  lemma HasInserted(layers: seq<Layer>, i: nat, l: Layer, v: Layer)
    requires i <= |layers|
    ensures Has(layers[..i] + [l] + layers[i..], v) <==> Has(layers, v) || Look(l) == v
  {
    hide Look;
    var t := layers[..i] + [l] + layers[i..];
    assert forall j :: 0 <= j < |t| ==> t[j] == if j < i then layers[j] else if j == i then l else layers[j - 1];
    if Has(layers, v) {
      var j :| 0 <= j < |layers| && Look(layers[j]) == v;
      assert Look(t[if j < i then j else j + 1]) == v;
    }
    if Look(l) == v {
      assert Look(t[i]) == v;
    }
  }

  lemma HasWithout(layers: seq<Layer>, k: nat, v: Layer)
    requires LayersOk(layers) && k < |layers|
    ensures Has(Without(layers, k), v) <==> Has(layers, v) && v.id != layers[k].id
  {
    var t := Without(layers, k);
    assert forall j :: 0 <= j < |t| ==> t[j] == layers[if j < k then j else j + 1];
    if Has(layers, v) && v.id != layers[k].id {
      var j :| 0 <= j < |layers| && Look(layers[j]) == v;
      assert Look(t[if j < k then j else j - 1]) == v;
    }
  }

  lemma HasUpdated(layers: seq<Layer>, k: nat, l: Layer, v: Layer)
    requires LayersOk(layers) && k < |layers| && l.id == layers[k].id
    ensures Has(layers[k := l], v) <==> if v.id == l.id then v == Look(l) else Has(layers, v)
  {
    var t := layers[k := l];
    assert Look(t[k]) == Look(l);
    if Has(t, v) {
      var j :| 0 <= j < |t| && Look(t[j]) == v;
      assert j != k ==> layers[j].id != layers[k].id;
    }
    if Has(layers, v) && v.id != l.id {
      var j :| 0 <= j < |layers| && Look(layers[j]) == v;
      assert Look(t[j]) == v;
    }
  }

  /** What `Has` and a look before one operation say about it afterwards. */
  ghost predicate Looks(layers: seq<Layer>, id: nat, look: Option<Layer>) {
    forall v: Layer :: v.id == id ==> (Has(layers, v) <==> look == Some(v))
  }

  lemma LooksAt(layers: seq<Layer>, k: nat)
    requires LayersOk(layers) && k < |layers|
    ensures Looks(layers, layers[k].id, Some(Look(layers[k])))
  {
    hide Has, LayersOk;
    forall v: Layer | v.id == layers[k].id
      ensures Has(layers, v) <==> Some(Look(layers[k])) == Some(v)
    {
      HasOne(layers, k, v);
    }
  }

  lemma LooksUnique(layers: seq<Layer>, id: nat, a: Option<Layer>, b: Option<Layer>)
    requires Looks(layers, id, a) && Looks(layers, id, b) && (a.Some? ==> a.value.id == id) && (b.Some? ==> b.value.id == id)
    ensures a == b
  {
    hide Has;
    if a.Some? { assert Has(layers, a.value); }
    if b.Some? { assert Has(layers, b.value); }
  }

  lemma PushLooks(layers: seq<Layer>, l: Layer, id: nat, look: Option<Layer>)
    requires LayersOk(layers) && IndexOf(layers, l.id).None? && Looks(layers, id, look)
    ensures Looks(Push(layers, l), id, if l.id == id then Some(Look(l)) else look)
  {
    hide LayersOk, Has;
    forall v: Layer | v.id == id
      ensures Has(Push(layers, l), v) <==> (if l.id == id then Some(Look(l)) else look) == Some(v)
    {
      HasInserted(layers, InsertAt(layers, l), l, v);
      if l.id == id { HasNone(layers, v); }
    }
  }

  lemma RemoveLooks(layers: seq<Layer>, k: nat, id: nat, look: Option<Layer>)
    requires LayersOk(layers) && k < |layers| && Looks(layers, id, look)
    ensures Looks(Removed(layers, k), id, if layers[k].id == id then None else look)
  {
    var rest := Without(layers, k);
    assert forall i :: 0 <= i < |rest| ==> Look(Removed(layers, k)[i]) == Look(rest[i]);
    hide LayersOk, Has, Removed, Without, Look;
    forall v: Layer | v.id == id
      ensures Has(Removed(layers, k), v) <==> (if layers[k].id == id then None else look) == Some(v)
    {
      RemovedLength(layers, k);
      HasMapped(rest, Removed(layers, k), v);
      HasWithout(layers, k, v);
    }
  }

  lemma RemovedLength(layers: seq<Layer>, k: nat)
    requires k < |layers|
    ensures |Removed(layers, k)| == |Without(layers, k)| && |Raised(layers, k)| == |Push(Without(layers, k), layers[k])|
  {
  }

  lemma RaiseLooks(layers: seq<Layer>, k: nat, id: nat, look: Option<Layer>)
    requires LayersOk(layers) && k < |layers| && Looks(layers, id, look)
    ensures Looks(Raised(layers, k), id, look)
  {
    var rest, l := Without(layers, k), layers[k];
    var t := Push(rest, l);
    assert forall i :: 0 <= i < |t| ==> Look(Raised(layers, k)[i]) == Look(t[i]);
    RemovedLength(layers, k);
    assert l.id == Look(l).id;
    hide LayersOk, Has, Raised, Without, Look;
    forall v: Layer | v.id == id
      ensures Has(Raised(layers, k), v) <==> look == Some(v)
    {
      HasMapped(t, Raised(layers, k), v);
      HasInserted(rest, InsertAt(rest, l), l, v);
      HasWithout(layers, k, v);
      if v.id == l.id { HasOne(layers, k, v); }
    }
  }

  lemma UpdateLooks(layers: seq<Layer>, k: nat, l: Layer, id: nat, look: Option<Layer>)
    requires LayersOk(layers) && k < |layers| && l.id == layers[k].id && Looks(layers, id, look)
    ensures Looks(layers[k := l], id, if l.id == id then Some(Look(l)) else look)
  {
    hide LayersOk, Has;
    forall v: Layer | v.id == id
      ensures Has(layers[k := l], v) <==> (if l.id == id then Some(Look(l)) else look) == Some(v)
    {
      HasUpdated(layers, k, l, v);
    }
  }

  lemma SettleLooks(layers: seq<Layer>, id: nat, look: Option<Layer>)
    requires Looks(layers, id, look)
    ensures Looks(AllSettled(layers), id, look)
  {
    hide Has;
    forall v: Layer | v.id == id
      ensures Has(AllSettled(layers), v) <==> look == Some(v)
    {
      HasMapped(layers, AllSettled(layers), v);
    }
  }

  /** A missing id has no look. */
  lemma AbsentLooks(layers: seq<Layer>, id: nat, look: Option<Layer>)
    requires IndexOf(layers, id).None? && Looks(layers, id, look) && (look.Some? ==> look.value.id == id)
    ensures look == None
  {
    if look.Some? {
      HasNone(layers, look.value);
    }
  }

  lemma StepLooks(d: Display, op: Op, d': Display, size: Size, id: nat, look: Option<Layer>)
    requires LayersOk(d.layers) && Allowed(d, op) && Step(d, op, d', size)
    requires Looks(d.layers, id, look) && (look.Some? ==> look.value.id == id)
    ensures Looks(d'.layers, id, LookStep(look, op, id)) && (LookStep(look, op, id).Some? ==> LookStep(look, op, id).value.id == id)
  {
    hide LayersOk, Looks, Push, Removed, Raised, IndexOf, Repainted, AllSettled;
    match op
    case PushLayer(l) => PushLooks(d.layers, l, id, look);
    case RemoveLayer(i) =>
      var k := IndexOf(d.layers, i);
      if k.Some? { RemoveLooks(d.layers, k.value, id, look); } else if i == id { AbsentLooks(d.layers, id, look); }
    case BringToFront(i) =>
      var k := IndexOf(d.layers, i);
      if k.Some? { RaiseLooks(d.layers, k.value, id, look); }
    case MoveLayer(i, p) =>
      var k := IndexOf(d.layers, i);
      if k.Some? {
        KnownLook(d.layers, k.value, id, look);
        UpdateLooks(d.layers, k.value, MoveTo(d.layers[k.value], p), id, look);
      } else if i == id {
        AbsentLooks(d.layers, id, look);
      }
    case DrawLayer(i, l, r) =>
      var k := IndexOf(d.layers, i);
      if k.Some? {
        KnownLook(d.layers, k.value, id, look);
        UpdateLooks(d.layers, k.value, l, id, look);
      } else if i == id {
        AbsentLooks(d.layers, id, look);
      }
    case DrawToFrameBuf => SettleLooks(d.layers, id, look);
  }

  lemma KnownLook(layers: seq<Layer>, k: nat, id: nat, look: Option<Layer>)
    requires LayersOk(layers) && k < |layers| && Looks(layers, id, look) && (look.Some? ==> look.value.id == id)
    ensures layers[k].id == id ==> look == Some(Look(layers[k]))
  {
    if layers[k].id == id {
      LooksAt(layers, k);
      LooksUnique(layers, id, look, Some(Look(layers[k])));
    }
  }

  /** In every run, a layer is there, at that place and with those pixels, exactly as its last push, moves and drawings say. */
  lemma {:induction false} EveryRunLooks(ds: seq<Display>, ops: seq<Op>, size: Size, n: nat, v: Layer)
    requires Run(ds, ops, size) && n <= |ops|
    ensures Has(ds[n].layers, v) <==> LookOf(ops, n, v.id) == Some(v)
  {
    RunLooks(ds, ops, size, n, v.id);
    hide Has, LookOf;
  }

  lemma {:induction false} RunLooks(ds: seq<Display>, ops: seq<Op>, size: Size, n: nat, id: nat)
    requires Run(ds, ops, size) && n <= |ops|
    ensures Looks(ds[n].layers, id, LookOf(ops, n, id)) && (LookOf(ops, n, id).Some? ==> LookOf(ops, n, id).value.id == id)
  {
    if n > 0 {
      RunLooks(ds, ops, size, n - 1, id);
      hide LayersOk, Looks, Step, Allowed, LookStep;
      StepLooks(ds[n - 1], ops[n - 1], ds[n], size, id, LookOf(ops, n - 1, id));
    }
  }

  // ----- which layer is in front

  /** When the layer was last pushed or raised, counted from one; zero for never. */
  function Stamp(ops: seq<Op>, n: nat, id: nat): (t: nat)
    requires n <= |ops|
    ensures t <= n
  {
    if n == 0 then 0
    else if (ops[n - 1].PushLayer? && ops[n - 1].layer.id == id) || ops[n - 1] == BringToFront(id) then n
    else Stamp(ops, n - 1, id)
  }

  /** Whether of two layers the first lies behind: ordinary before always-on-top, then by when they were last pushed or raised. */
  predicate Behind(ops: seq<Op>, n: nat, a: Layer, b: Layer)
    requires n <= |ops|
  {
    if a.onTop != b.onTop then b.onTop else Stamp(ops, n, a.id) < Stamp(ops, n, b.id)
  }

  ghost predicate Stacked(layers: seq<Layer>, ops: seq<Op>, n: nat)
    requires n <= |ops|
  {
    forall i, j :: 0 <= i < j < |layers| ==> Behind(ops, n, layers[i], layers[j])
  }

  lemma StackedTops(layers: seq<Layer>, ops: seq<Op>, n: nat)
    requires n <= |ops| && Stacked(layers, ops, n)
    ensures TopsLast(layers)
  {
    forall i, j | 0 <= i < j < |layers| && layers[i].onTop
      ensures layers[j].onTop
    {
      assert Behind(ops, n, layers[i], layers[j]);
    }
  }

  /** Layers that keep their ids and kinds keep their order, while no stamp of theirs changes. */
  lemma StackedSame(a: seq<Layer>, b: seq<Layer>, ops: seq<Op>, n: nat)
    requires n < |ops| && Stacked(a, ops, n) && |a| == |b|
    requires forall i :: 0 <= i < |a| ==> b[i].id == a[i].id && b[i].onTop == a[i].onTop && Stamp(ops, n + 1, a[i].id) == Stamp(ops, n, a[i].id)
    ensures Stacked(b, ops, n + 1)
  {
    hide Stamp;
    forall i, j | 0 <= i < j < |b|
      ensures Behind(ops, n + 1, b[i], b[j])
    {
      assert Behind(ops, n, a[i], a[j]);
    }
  }

  lemma StackedWithout(layers: seq<Layer>, ops: seq<Op>, n: nat, k: nat)
    requires n <= |ops| && Stacked(layers, ops, n) && k < |layers|
    ensures Stacked(Without(layers, k), ops, n)
  {
    hide Behind;
    var t := Without(layers, k);
    assert forall j :: 0 <= j < |t| ==> t[j] == layers[if j < k then j else j + 1];
  }

  /** A layer inserted with the newest stamp is in front of all of its kind. */
  lemma StackedPush(layers: seq<Layer>, ops: seq<Op>, n: nat, l: Layer)
    requires n < |ops| && Stacked(layers, ops, n) && Stamp(ops, n + 1, l.id) == n + 1
    requires forall i :: 0 <= i < |layers| ==> Stamp(ops, n + 1, layers[i].id) == Stamp(ops, n, layers[i].id)
    ensures Stacked(Push(layers, l), ops, n + 1)
  {
    StackedTops(layers, ops, n);
    PushedPlace(layers, l);
    StackedSame(layers, layers, ops, n);
    var i, t := InsertAt(layers, l), Push(layers, l);
    assert forall j :: 0 <= j < i && !l.onTop ==> !layers[j].onTop;
    hide Push, InsertAt;
    forall a, b | 0 <= a < b < |t|
      ensures Behind(ops, n + 1, t[a], t[b])
    {
      if a != i && b != i {
        assert Behind(ops, n + 1, layers[if a < i then a else a - 1], layers[if b < i then b else b - 1]);
      } else if b == i {
        StampBound(ops, n, t[a].id);
      }
    }
  }

  lemma StampBound(ops: seq<Op>, n: nat, id: nat)
    requires n <= |ops|
    ensures Stamp(ops, n, id) <= n
  {
  }

  lemma StampStays(ops: seq<Op>, n: nat, id: nat)
    requires n < |ops| && !(ops[n].PushLayer? && ops[n].layer.id == id) && ops[n] != BringToFront(id)
    ensures Stamp(ops, n + 1, id) == Stamp(ops, n, id)
  {
  }

  lemma StampNew(ops: seq<Op>, n: nat, id: nat)
    requires n < |ops| && ((ops[n].PushLayer? && ops[n].layer.id == id) || ops[n] == BringToFront(id))
    ensures Stamp(ops, n + 1, id) == n + 1
  {
  }

  /** The layers of a sequence that an operation on another id leaves their stamps. */
  lemma StampsStay(layers: seq<Layer>, ops: seq<Op>, n: nat)
    requires n < |ops|
    requires forall i :: 0 <= i < |layers| ==> !(ops[n].PushLayer? && ops[n].layer.id == layers[i].id) && ops[n] != BringToFront(layers[i].id)
    ensures forall i :: 0 <= i < |layers| ==> Stamp(ops, n + 1, layers[i].id) == Stamp(ops, n, layers[i].id)
  {
    hide Stamp;
    forall i | 0 <= i < |layers|
      ensures Stamp(ops, n + 1, layers[i].id) == Stamp(ops, n, layers[i].id)
    {
      StampStays(ops, n, layers[i].id);
    }
  }

  lemma RaiseStacks(layers: seq<Layer>, ops: seq<Op>, n: nat, k: nat)
    requires n < |ops| && LayersOk(layers) && k < |layers| && Stacked(layers, ops, n) && ops[n] == BringToFront(layers[k].id)
    ensures Stacked(Raised(layers, k), ops, n + 1)
  {
    hide Stacked, Stamp;
    RemoveOk(layers, k);
    var rest, l := Without(layers, k), layers[k];
    StackedWithout(layers, ops, n, k);
    StampsStay(rest, ops, n);
    StampNew(ops, n, l.id);
    StackedPush(rest, ops, n, l);
    RemovedLength(layers, k);
    SameTags(Push(rest, l), Raised(layers, k), ops, n + 1);
  }

  lemma SameTags(a: seq<Layer>, b: seq<Layer>, ops: seq<Op>, n: nat)
    requires n <= |ops| && Stacked(a, ops, n) && |a| == |b| && forall i :: 0 <= i < |a| ==> b[i].id == a[i].id && b[i].onTop == a[i].onTop
    ensures Stacked(b, ops, n)
  {
    hide Stamp;
    forall i, j | 0 <= i < j < |b|
      ensures Behind(ops, n, b[i], b[j])
    {
      assert Behind(ops, n, a[i], a[j]);
    }
  }

  lemma RemoveStacks(layers: seq<Layer>, ops: seq<Op>, n: nat, k: nat)
    requires n < |ops| && k < |layers| && Stacked(layers, ops, n) && ops[n].RemoveLayer?
    ensures Stacked(Removed(layers, k), ops, n + 1)
  {
    hide Stacked, Stamp;
    StackedWithout(layers, ops, n, k);
    StampsStay(Without(layers, k), ops, n);
    RemovedLength(layers, k);
    StackedSame(Without(layers, k), Removed(layers, k), ops, n);
  }

  lemma StepStacks(d: Display, d': Display, size: Size, ops: seq<Op>, n: nat)
    requires n < |ops| && LayersOk(d.layers) && Allowed(d, ops[n]) && Step(d, ops[n], d', size) && Stacked(d.layers, ops, n)
    ensures Stacked(d'.layers, ops, n + 1)
  {
    hide Stacked, Stamp, LayersOk, Push, Removed, Raised, Repainted;
    var op := ops[n];
    match op
    case PushLayer(l) =>
      StampsStay(d.layers, ops, n);
      StampNew(ops, n, l.id);
      StackedPush(d.layers, ops, n, l);
    case RemoveLayer(i) =>
      var k := IndexOf(d.layers, i);
      if k.Some? { RemoveStacks(d.layers, ops, n, k.value); } else { StampsStay(d.layers, ops, n); StackedSame(d.layers, d'.layers, ops, n); }
    case BringToFront(i) =>
      var k := IndexOf(d.layers, i);
      if k.Some? { RaiseStacks(d.layers, ops, n, k.value); } else { StampsStay(d.layers, ops, n); StackedSame(d.layers, d'.layers, ops, n); }
    case _ =>
      StampsStay(d.layers, ops, n);
      StackedSame(d.layers, d'.layers, ops, n);
  }

  /** In every run, always-on-top layers are in front, and among layers of a kind the one pushed or raised last. */
  lemma {:induction false} EveryRunStacks(ds: seq<Display>, ops: seq<Op>, size: Size, n: nat)
    requires Run(ds, ops, size) && n <= |ops|
    ensures Stacked(ds[n].layers, ops, n) && TopsLast(ds[n].layers)
  {
    if n > 0 {
      EveryRunStacks(ds, ops, size, n - 1);
      hide LayersOk, Stacked, Step, Allowed;
      StepStacks(ds[n - 1], ds[n], size, ops, n - 1);
    }
    StackedTops(ds[n].layers, ops, n);
  }

  /** In every run, a layer brought to the front is what the next repaint shows, wherever it is always on top or no such layer shows. */
  lemma EveryRaiseIsSeen(ds: seq<Display>, ops: seq<Op>, size: Size, n: nat, id: nat, k: nat, x: nat, y: nat)
    requires Run(ds, ops, size) && n + 1 < |ops| && ops[n] == BringToFront(id) && ops[n + 1] == DrawToFrameBuf
    requires IndexOf(ds[n].layers, id) == Some(k) && x < size.width && y < size.height
    requires Shows(ds[n].layers[k], false, x, y).Some? && (ds[n].layers[k].onTop || NoTops(ds[n].layers, x, y))
    ensures Sized(ds[n + 2].screen, size) && Some(Pixel(ds[n + 2].screen, size, x, y)) == Shows(ds[n].layers[k], false, x, y)
  {
    EveryRunStacks(ds, ops, size, n);
    RunSized(ds, ops, size, n);
    hide Stacked, TopsLast, NoTops, Shows;
    RaisedIsSeen(ds[n], id, ds[n + 1], ds[n + 2], size, k, x, y);
  }
}
