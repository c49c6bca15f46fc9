/**
 * Line clipping and line stepping (kernel/src/graphics/draw.rs): which points a
 * clipped line may have, and which pixel each step of the line loop reaches.
 */
module Lines {
  import opened Basics

  datatype Segment = Segment(x0: int, y0: int, x1: int, y1: int)

  function Abs(a: int): nat { if a < 0 then -a else a }

  predicate Between(a: int, m: int, b: int) { a <= m <= b || b <= m <= a }

  function Quot(a: nat, b: nat): nat
    requires b > 0
  {
    a / b
  }

  /** Integer division that drops the fraction, whatever the signs. */
  function TruncDiv(a: int, b: int): int
    requires b != 0
  {
    if (a < 0) == (b < 0) then Quot(Abs(a), Abs(b)) else -(Quot(Abs(a), Abs(b)) as int)
  }

  /** Multiplication under a name, so that proofs can treat products as atoms. */
  function Mul(a: int, b: int): int { a * b }

  lemma AbsMul(a: int, b: int)
    ensures Abs(a * b) == Abs(a) * Abs(b)
    ensures a * b == if (a < 0) == (b < 0) then Abs(a) * Abs(b) else -(Abs(a) * Abs(b))
  {
  }

  lemma MulMono(a: nat, b: nat, c: nat)
    requires b <= c
    ensures a * b <= a * c
  {
  }

  lemma DivBounds(p: nat, n: nat, d: nat)
    requires n > 0 && p <= Mul(d, n)
    ensures Quot(p, n) <= d && 0 <= Mul(Quot(p, n), n) <= p < Mul(Quot(p, n), n) + n
    ensures Quot(p, n) == 0 <==> Mul(Quot(p, n), n) == 0
  {
    var q := p / n;
    assert q * n + p % n == p;
    assert q > d ==> (d + 1) * n <= q * n;
    assert q > 0 ==> q * n >= n;
  }

  lemma SameSigns(d: int, s: int, n: int, ds: int, t: int, tn: int, p: nat, q: nat, m: nat)
    requires n != 0 && Between(0, s, n)
    requires ds == if (d < 0) == (s < 0) then p else -(p as int)
    requires t == if (ds < 0) == (n < 0) then q else -(q as int)
    requires tn == if (t < 0) == (n < 0) then m else -(m as int)
    requires (q == 0 <==> m == 0) && (s == 0 ==> p == 0) && m <= p < m + Abs(n) && q <= Abs(d)
    ensures Between(0, t, d) && Abs(tn - ds) < Abs(n)
  {
  }

  /** The part of `d` at fraction s/n of the way, rounded towards zero. */
  lemma FractionOf(d: int, s: int, n: int)
    requires n != 0 && Between(0, s, n)
    ensures Between(0, TruncDiv(d * s, n), d)
    ensures Abs(TruncDiv(d * s, n) * n - d * s) < Abs(n)
  {
    AbsMul(d, s);
    MulMono(Abs(d), Abs(s), Abs(n));
    assert s == 0 ==> Abs(d) * Abs(s) == 0;
    FractionParts(d, s, n, d * s, Abs(d) * Abs(s));
    assert TruncDiv(d * s, n) * n == Mul(TruncDiv(d * s, n), n);
  }

  lemma FractionParts(d: int, s: int, n: int, x: int, p: nat)
    requires n != 0 && Between(0, s, n)
    requires x == (if (d < 0) == (s < 0) then p else -(p as int)) && p <= Mul(Abs(d), Abs(n)) && (s == 0 ==> p == 0)
    ensures Between(0, TruncDiv(x, n), d)
    ensures Abs(Mul(TruncDiv(x, n), n) - x) < Abs(n)
  {
    hide Mul, Quot;
    DivBounds(p, Abs(n), Abs(d));
    var t, q := TruncDiv(x, n), Quot(p, Abs(n));
    assert Abs(x) == p;
    assert t == if (x < 0) == (n < 0) then q else -(q as int);
    hide TruncDiv;
    TruncTimes(t, n, q);
    SameSigns(d, s, n, x, t, Mul(t, n), p, q, Mul(q, Abs(n)));
  }

  lemma TruncTimes(t: int, n: int, q: nat)
    requires n != 0 && Abs(t) == q
    ensures Mul(t, n) == if (t < 0) == (n < 0) then Mul(q, Abs(n)) else -Mul(q, Abs(n))
  {
    AbsMul(t, n);
  }

  // ----- clipping

  /** The sides of the screen a point lies beyond. */
  datatype Outcode = Outcode(left: bool, right: bool, top: bool, bottom: bool) {
    predicate Inside() { !left && !right && !top && !bottom }

    predicate Shares(o: Outcode) { (left && o.left) || (right && o.right) || (top && o.top) || (bottom && o.bottom) }
  }

  function OutcodeOf(x: int, y: int, xmax: int, ymax: int): Outcode {
    Outcode(x < 0, x >= 0 && x > xmax, y < 0, y >= 0 && y > ymax)
  }

  predicate OnScreen(x: int, y: int, xmax: int, ymax: int) { 0 <= x <= xmax && 0 <= y <= ymax }

  /** Where the segment meets the side of the screen that `out` lies beyond. */
  function ClipPoint(s: Segment, out: Outcode, xmax: int, ymax: int): (int, int) {
    var dx, dy := s.x1 - s.x0, s.y1 - s.y0;
    if out.bottom then (if dy != 0 then s.x0 + TruncDiv(dx * (ymax - s.y0), dy) else s.x0, ymax)
    else if out.top then (if dy != 0 then s.x0 - TruncDiv(dx * s.y0, dy) else s.x0, 0)
    else if out.right then (xmax, if dx != 0 then s.y0 + TruncDiv(dy * (xmax - s.x0), dx) else s.y0)
    else (0, if dx != 0 then s.y0 - TruncDiv(dy * s.x0, dx) else s.y0)
  }

  /** Distance from the line through `s`, scaled by its length: horizontal error times height plus vertical error times width. */
  function Off(s: Segment, x: int, y: int): int { (x - s.x0) * (s.y1 - s.y0) - (y - s.y0) * (s.x1 - s.x0) }

  lemma TruncNeg(d: int, s: int, n: int)
    requires n != 0
    ensures -TruncDiv(d * s, n) == TruncDiv(d * -s, n)
  {
  }

  lemma CancelFactor(n: int, c: int, b: int)
    requires n > 0 && n * c <= n * b
    ensures c <= b
  {
  }

  /** A weighted mean of two errors, plus a rounding, is no larger than the larger error plus the rounding. */
  lemma MeanError(c: int, c0: int, c1: int, s: int, n: int, e: int, m: nat, w: nat)
    requires n > 0 && 0 <= s <= n && n * c == (n - s) * c0 + s * c1 + e
    requires Abs(c0) <= m && Abs(c1) <= m && Abs(e) <= n * w
    ensures Abs(c) <= m + w
  {
    Scale(n - s, c0, m);
    Scale(s, c1, m);
    assert (n - s) * m + s * m == n * m;
    assert n * c <= n * (m + w);
    assert n * -c <= n * (m + w);
    CancelFactor(n, c, m + w);
    CancelFactor(n, -c, m + w);
  }

  lemma Scale(a: nat, c: int, m: nat)
    requires Abs(c) <= m
    ensures Abs(a * c) <= a * m
  {
  }

  lemma MeanErrorSigned(c: int, c0: int, c1: int, s: int, n: int, r: int, d: int, m: nat)
    requires n != 0 && Between(0, s, n) && n * c == (n - s) * c0 + s * c1 + r * d && Abs(r) < Abs(n)
    requires Abs(c0) <= m && Abs(c1) <= m
    ensures Abs(c) <= m + Abs(d)
  {
    AbsMul(r, d);
    MulMono(Abs(d), Abs(r), Abs(n));
    var e := r * d;
    if n > 0 {
      MeanError(c, c0, c1, s, n, e, m, Abs(d));
    } else {
      NegateMean(c, c0, c1, s, n, e);
      MeanError(c, c0, c1, -s, -n, -e, m, Abs(d));
    }
  }

  lemma NegateMean(c: int, c0: int, c1: int, s: int, n: int, e: int)
    requires n * c == (n - s) * c0 + s * c1 + e
    ensures -n * c == (-n - -s) * c0 + -s * c1 + -e
  {
  }

  /** Moving along the y axis by `s` of `n` and along the x axis by the rounded share. */
  lemma ShareError(l: Segment, x0: int, y0: int, x1: int, y1: int, s: int, m: nat)
    requires y1 != y0 && Between(0, s, y1 - y0)
    requires Abs(Off(l, x0, y0)) <= m && Abs(Off(l, x1, y1)) <= m
    ensures var x := x0 + TruncDiv((x1 - x0) * s, y1 - y0);
            Between(x0, x, x1) && Abs(Off(l, x, y0 + s)) <= m + Abs(l.y1 - l.y0)
  {
    var dx, n := x1 - x0, y1 - y0;
    var t := TruncDiv(dx * s, n);
    FractionOf(dx, s, n);
    var r := t * n - dx * s;
    var lx, ly := l.x1 - l.x0, l.y1 - l.y0;
    OffAlong(l, x0, y0, t, s);
    OffAlong(l, x0, y0, dx, n);
    var c0 := Off(l, x0, y0);
    Blend(c0, t, s, dx, n, lx, ly);
    hide Off, TruncDiv;
    MeanErrorSigned(Off(l, x0 + t, y0 + s), c0, Off(l, x1, y1), s, n, r, ly, m);
  }

  lemma OffAlong(l: Segment, x: int, y: int, a: int, b: int)
    ensures Off(l, x + a, y + b) == Off(l, x, y) + a * (l.y1 - l.y0) - b * (l.x1 - l.x0)
  {
  }

  lemma Blend(c0: int, t: int, s: int, dx: int, n: int, lx: int, ly: int)
    ensures n * (c0 + t * ly - s * lx) == (n - s) * c0 + s * (c0 + dx * ly - n * lx) + (t * n - dx * s) * ly
  {
  }

  function Flip(s: Segment): Segment { Segment(s.y0, s.x0, s.y1, s.x1) }

  lemma OffFlip(l: Segment, x: int, y: int)
    ensures Off(Flip(l), y, x) == -Off(l, x, y)
  {
  }

  predicate Vertical(out: Outcode) { !out.bottom && !out.top }

  /** A clipped point stays in the segment's box and strays from any line by at most one more pixel on one axis. */
  lemma ClipPointNear(l: Segment, s: Segment, out: Outcode, xmax: int, ymax: int, m: nat)
    requires Abs(Off(l, s.x0, s.y0)) <= m && Abs(Off(l, s.x1, s.y1)) <= m
    requires out.bottom ==> s.y0 != s.y1 && Between(s.y0, ymax, s.y1)
    requires !out.bottom && out.top ==> s.y0 != s.y1 && Between(s.y0, 0, s.y1)
    requires Vertical(out) && out.right ==> s.x0 != s.x1 && Between(s.x0, xmax, s.x1)
    requires Vertical(out) && !out.right ==> s.x0 != s.x1 && Between(s.x0, 0, s.x1)
    ensures var p := ClipPoint(s, out, xmax, ymax);
            && Between(s.x0, p.0, s.x1) && Between(s.y0, p.1, s.y1)
            && Abs(Off(l, p.0, p.1)) <= m + if Vertical(out) then Abs(l.x1 - l.x0) else Abs(l.y1 - l.y0)
  {
    hide Off, TruncDiv, Mul, Quot;
    OffFlip(l, s.x0, s.y0);
    OffFlip(l, s.x1, s.y1);
    var p := ClipPoint(s, out, xmax, ymax);
    OffFlip(l, p.0, p.1);
    if out.bottom {
      ShareError(l, s.x0, s.y0, s.x1, s.y1, ymax - s.y0, m);
    } else if out.top {
      TruncNeg(s.x1 - s.x0, s.y0, s.y1 - s.y0);
      ShareError(l, s.x0, s.y0, s.x1, s.y1, -s.y0, m);
    } else if out.right {
      ShareError(Flip(l), s.y0, s.x0, s.y1, s.x1, xmax - s.x0, m);
    } else {
      TruncNeg(s.y1 - s.y0, s.x0, s.x1 - s.x0);
      ShareError(Flip(l), s.y0, s.x0, s.y1, s.x1, -s.x0, m);
    }
  }

  /** `t` runs inside `s` in the same direction. */
  predicate Nested(s: Segment, t: Segment) {
    && Between(s.x0, t.x0, s.x1) && Between(t.x0, t.x1, s.x1)
    && Between(s.y0, t.y0, s.y1) && Between(t.y0, t.y1, s.y1)
  }

  function Length(s: Segment): nat { Abs(s.x1 - s.x0) + Abs(s.y1 - s.y0) }

  function One(b: bool): nat { if b then 1 else 0 }

  /** How many of the top and bottom sides the whole segment is within, and of the left and right ones. */
  function Rows(s: Segment, ymax: int): nat { One(s.y0 >= 0 && s.y1 >= 0) + One(s.y0 <= ymax && s.y1 <= ymax) }

  function Columns(s: Segment, xmax: int): nat { One(s.x0 >= 0 && s.x1 >= 0) + One(s.x0 <= xmax && s.x1 <= xmax) }

  /** The error allowed so far: one pixel for each side the segment has been cut at. */
  function Slack(l: Segment, s: Segment, xmax: int, ymax: int): int {
    Mul(Rows(s, ymax), Abs(l.y1 - l.y0)) + Mul(Columns(s, xmax), Abs(l.x1 - l.x0))
  }

  ghost predicate Close(l: Segment, s: Segment, xmax: int, ymax: int) {
    && Abs(Off(l, s.x0, s.y0)) <= Slack(l, s, xmax, ymax)
    && Abs(Off(l, s.x1, s.y1)) <= Slack(l, s, xmax, ymax)
  }

  ghost predicate CutAt(s: Segment, t: Segment, out: Outcode, p: (int, int), xmax: int, ymax: int) {
    var (out0, out1) := (OutcodeOf(s.x0, s.y0, xmax, ymax), OutcodeOf(s.x1, s.y1, xmax, ymax));
    && !out0.Shares(out1) && !out.Inside()
    && ((out == out0 && t == s.(x0 := p.0, y0 := p.1)) || (out == out1 && t == s.(x1 := p.0, y1 := p.1)))
  }

  lemma CutNested(s: Segment, t: Segment, out: Outcode, p: (int, int), xmax: int, ymax: int)
    requires xmax >= -1 && ymax >= -1 && CutAt(s, t, out, p, xmax, ymax)
    requires Between(s.x0, p.0, s.x1) && Between(s.y0, p.1, s.y1)
    requires if out.bottom then p.1 == ymax else if out.top then p.1 == 0 else if out.right then p.0 == xmax else p.0 == 0
    ensures Nested(s, t) && Length(t) < Length(s)
  {
  }

  lemma CutRows(s: Segment, t: Segment, out: Outcode, p: (int, int), xmax: int, ymax: int)
    requires xmax >= -1 && ymax >= -1 && CutAt(s, t, out, p, xmax, ymax) && Between(s.y0, p.1, s.y1)
    requires if out.bottom then p.1 == ymax else out.top ==> p.1 == 0
    ensures Rows(t, ymax) >= Rows(s, ymax) + One(!Vertical(out))
  {
  }

  lemma CutColumns(s: Segment, t: Segment, out: Outcode, p: (int, int), xmax: int, ymax: int)
    requires xmax >= -1 && ymax >= -1 && CutAt(s, t, out, p, xmax, ymax) && Between(s.x0, p.0, s.x1)
    requires Vertical(out) ==> p.0 == if out.right then xmax else 0
    ensures Columns(t, xmax) >= Columns(s, xmax) + One(Vertical(out))
  {
  }

  lemma CutCrosses(s: Segment, t: Segment, out: Outcode, p: (int, int), xmax: int, ymax: int)
    requires xmax >= -1 && ymax >= -1 && CutAt(s, t, out, p, xmax, ymax)
    ensures out.bottom ==> s.y0 != s.y1 && Between(s.y0, ymax, s.y1)
    ensures !out.bottom && out.top ==> s.y0 != s.y1 && Between(s.y0, 0, s.y1)
    ensures Vertical(out) && out.right ==> s.x0 != s.x1 && Between(s.x0, xmax, s.x1)
    ensures Vertical(out) && !out.right ==> s.x0 != s.x1 && Between(s.x0, 0, s.x1)
  {
  }

  /** One cut keeps the direction, shortens the segment and stays close to the line. */
  lemma CutSegment(l: Segment, s: Segment, t: Segment, out: Outcode, xmax: int, ymax: int)
    requires xmax >= -1 && ymax >= -1 && Close(l, s, xmax, ymax)
    requires CutAt(s, t, out, ClipPoint(s, out, xmax, ymax), xmax, ymax)
    ensures Nested(s, t) && Length(t) < Length(s) && Close(l, t, xmax, ymax)
  {
    var p := ClipPoint(s, out, xmax, ymax);
    assert p.1 == if out.bottom then ymax else if out.top then 0 else p.1;
    assert Vertical(out) ==> p.0 == if out.right then xmax else 0;
    hide ClipPoint, Off, Slack;
    CutCrosses(s, t, out, p, xmax, ymax);
    var m: nat := Slack(l, s, xmax, ymax);
    ClipPointNear(l, s, out, xmax, ymax, m);
    CutNested(s, t, out, p, xmax, ymax);
    CutRows(s, t, out, p, xmax, ymax);
    CutColumns(s, t, out, p, xmax, ymax);
    SlackGrows(l, s, t, xmax, ymax, Vertical(out));
    assert (t.x0 == s.x0 && t.y0 == s.y0) || (t.x0 == p.0 && t.y0 == p.1);
    hide CutAt, Rows, Columns, Nested, Length, Between;
  }

  lemma SlackGrows(l: Segment, s: Segment, t: Segment, xmax: int, ymax: int, vertical: bool)
    requires Rows(t, ymax) >= Rows(s, ymax) + One(!vertical) && Columns(t, xmax) >= Columns(s, xmax) + One(vertical)
    ensures Slack(l, t, xmax, ymax) >= Slack(l, s, xmax, ymax) + if vertical then Abs(l.x1 - l.x0) else Abs(l.y1 - l.y0)
  {
  }

  lemma StartClose(l: Segment, xmax: int, ymax: int)
    ensures Close(l, l, xmax, ymax)
  {
    assert Off(l, l.x0, l.y0) == 0;
    assert (l.x1 - l.x0) * (l.y1 - l.y0) == (l.y1 - l.y0) * (l.x1 - l.x0);
  }

  /** The error of a clipped end: at most two pixels on each axis. */
  ghost predicate WithinTwo(l: Segment, x: int, y: int) {
    Abs(Off(l, x, y)) <= 2 * Abs(l.x1 - l.x0) + 2 * Abs(l.y1 - l.y0)
  }

  lemma CloseIsWithinTwo(l: Segment, s: Segment, xmax: int, ymax: int)
    requires Close(l, s, xmax, ymax)
    ensures WithinTwo(l, s.x0, s.y0) && WithinTwo(l, s.x1, s.y1)
  {
  }

  lemma NestedTwice(l: Segment, s: Segment, t: Segment)
    requires Nested(l, s) && Nested(s, t)
    ensures Nested(l, t)
  {
  }

  // ----- which segments are refused

  predicate NonNegative(s: Segment) { s.x0 >= 0 && s.y0 >= 0 && s.x1 >= 0 && s.y1 >= 0 }

  /** Both ends lie beyond the right side, or both below the screen. */
  predicate Beside(s: Segment, xmax: int, ymax: int) { (s.x0 > xmax && s.x1 > xmax) || (s.y0 > ymax && s.y1 > ymax) }

  /** Coming from beyond the right side, the line is at least one row below the screen where it reaches the last column. */
  predicate PassesBelow(s: Segment, xmax: int, ymax: int) {
    && s.x1 <= xmax < s.x0 && s.y0 <= ymax < s.y1
    && Mul(ymax + 1 - s.y0, s.x0 - s.x1) <= Mul(s.y1 - s.y0, s.x0 - xmax)
  }

  /** A segment with non-negative ends is refused when it lies beside the screen or passes its corner by a whole pixel. */
  predicate Refused(s: Segment, xmax: int, ymax: int) {
    Beside(s, xmax, ymax) || PassesBelow(s, xmax, ymax) || PassesBelow(Flip(s), ymax, xmax)
  }

  lemma FloorParts(a: int, b: int, c: int, q: int, m: int)
    requires a == Mul(q, b) + m && 0 <= m < b
    ensures q >= c <==> a >= Mul(c, b)
  {
    hide Mul;
    if q >= c {
      MulSum(c, q - c, b);
    } else {
      MulSum(q, c - q - 1, b);
      MulSucc(c - 1, b);
    }
  }

  lemma MulSum(a: int, d: nat, b: nat)
    ensures Mul(a + d, b) == Mul(a, b) + Mul(d, b) && Mul(d, b) >= 0
  {
  }

  lemma FloorReaches(a: nat, b: nat, c: int)
    requires b > 0
    ensures Quot(a, b) >= c <==> a >= Mul(c, b)
  {
    assert a == Mul(a / b, b) + a % b;
    FloorParts(a, b, c, a / b, a % b);
  }

  /** Where the first cut at the right side lands. */
  lemma RightCutLands(s: Segment, xmax: int, ymax: int)
    requires s.x1 <= xmax < s.x0 && s.y0 <= ymax < s.y1
    ensures var y := s.y0 + TruncDiv((s.y1 - s.y0) * (xmax - s.x0), s.x1 - s.x0);
            s.y0 <= y && (y > ymax <==> PassesBelow(s, xmax, ymax))
  {
    var a, b := Mul(s.y1 - s.y0, s.x0 - xmax), s.x0 - s.x1;
    assert (s.y1 - s.y0) * (xmax - s.x0) == -a;
    assert a >= 0;
    FloorReaches(a, b, ymax + 1 - s.y0);
    hide Mul, Quot;
    assert TruncDiv(-a, -b) == Quot(a, b);
  }

  /** After the first cut, either the segment is refused and lies beside the screen, or one end is on screen. */
  lemma FirstCut(s: Segment, t: Segment, out: Outcode, xmax: int, ymax: int)
    requires xmax >= -1 && ymax >= -1 && NonNegative(s)
    requires CutAt(s, t, out, ClipPoint(s, out, xmax, ymax), xmax, ymax)
    requires out == OutcodeOf(s.x0, s.y0, xmax, ymax) || OnScreen(s.x0, s.y0, xmax, ymax)
    ensures if Refused(s, xmax, ymax) then OutcodeOf(t.x0, t.y0, xmax, ymax).Shares(OutcodeOf(t.x1, t.y1, xmax, ymax))
            else OnScreen(t.x0, t.y0, xmax, ymax) || OnScreen(t.x1, t.y1, xmax, ymax)
  {
    hide TruncDiv;
    if OnScreen(s.x0, s.y0, xmax, ymax) || OnScreen(s.x1, s.y1, xmax, ymax) {
      assert !Refused(s, xmax, ymax);
    } else if s.x0 > xmax {
      assert s.x1 <= xmax && s.y0 <= ymax < s.y1;
      RightCutLands(s, xmax, ymax);
      hide PassesBelow;
      assert !PassesBelow(Flip(s), ymax, xmax) by { FlipsApart(s, xmax, ymax); }
    } else {
      assert s.y1 <= ymax < s.y0 && s.x0 <= xmax < s.x1;
      RightCutLands(Flip(s), ymax, xmax);
      hide PassesBelow;
      assert !PassesBelow(s, xmax, ymax) by { FlipsApart(Flip(s), ymax, xmax); }
    }
  }

  lemma FlipsApart(s: Segment, xmax: int, ymax: int)
    requires s.x0 > xmax
    ensures !PassesBelow(Flip(s), ymax, xmax)
  {
  }

  /** A cut segment shows whether the whole one is refused. */
  predicate Decided(l: Segment, s: Segment, xmax: int, ymax: int) {
    if Refused(l, xmax, ymax) then OutcodeOf(s.x0, s.y0, xmax, ymax).Shares(OutcodeOf(s.x1, s.y1, xmax, ymax))
    else OnScreen(s.x0, s.y0, xmax, ymax) || OnScreen(s.x1, s.y1, xmax, ymax)
  }

  lemma RefusedAtStart(s: Segment, xmax: int, ymax: int)
    requires NonNegative(s) && xmax >= -1 && ymax >= -1
    ensures OutcodeOf(s.x0, s.y0, xmax, ymax).Shares(OutcodeOf(s.x1, s.y1, xmax, ymax)) ==> Refused(s, xmax, ymax)
    ensures OnScreen(s.x0, s.y0, xmax, ymax) || OnScreen(s.x1, s.y1, xmax, ymax) ==> !Refused(s, xmax, ymax)
  {
  }

  /** Some point of the ideal segment lies on the screen. */
  ghost predicate Meets(s: Segment, xmax: int, ymax: int) {
    exists t: real :: 0.0 <= t <= 1.0 && PointMeets(s, t, xmax, ymax)
  }

  predicate PointMeets(s: Segment, t: real, xmax: int, ymax: int) {
    && 0.0 <= Along(s.x0, s.x1, t) <= xmax as real
    && 0.0 <= Along(s.y0, s.y1, t) <= ymax as real
  }

  function Along(a: int, b: int, t: real): real { a as real + t * (b - a) as real }

  lemma AlongBeyond(a: int, b: int, t: real, m: int)
    requires 0.0 <= t <= 1.0 && a > m && b > m
    ensures Along(a, b, t) > m as real
  {
    var u, v := (a - m) as real, (b - m) as real;
    assert Along(a, b, t) - m as real == (1.0 - t) * u + t * v;
    assert (1.0 - t) * u >= 0.0 && t * v >= 0.0;
    assert t > 0.0 ==> t * v > 0.0;
    assert t == 0.0 ==> (1.0 - t) * u > 0.0;
  }

  lemma PassingMisses(s: Segment, xmax: int, ymax: int, t: real)
    requires PassesBelow(s, xmax, ymax) && 0.0 <= t <= 1.0
    ensures !PointMeets(s, t, xmax, ymax)
  {
    var w, h := (s.x0 - s.x1) as real, (s.y1 - s.y0) as real;
    var right, down := (s.x0 - xmax) as real, (ymax - s.y0) as real;
    RealMul(ymax - s.y0, s.x0 - s.x1);
    RealMul(s.y1 - s.y0, s.x0 - xmax);
    MulSucc(ymax - s.y0, s.x0 - s.x1);
    assert Along(s.x0, s.x1, t) == s.x0 as real - Product(w, t);
    assert Along(s.y0, s.y1, t) == s.y0 as real + Product(h, t);
    hide Along, Mul, Product;
    if Product(w, t) >= right {
      CornerMissed(w, h, right, down, t);
    }
  }

  /** The product of reals under a name. */
  function Product(a: real, b: real): real { a * b }

  lemma RealMul(a: int, b: int)
    ensures Mul(a, b) as real == Product(a as real, b as real) == Product(b as real, a as real)
  {
  }

  lemma ProductMono(w: real, a: real, b: real)
    requires w >= 0.0 && a <= b
    ensures Product(w, a) <= Product(w, b)
  {
    assert w * (b - a) >= 0.0;
  }

  lemma ProductSwap(w: real, h: real, t: real)
    ensures Product(h, Product(w, t)) == Product(w, Product(h, t))
  {
  }

  lemma CornerMissed(w: real, h: real, right: real, down: real, t: real)
    requires w > 0.0 && h > 0.0 && Product(w, down) + w <= Product(h, right) && Product(w, t) >= right
    ensures Product(h, t) > down
  {
    hide Product;
    ProductMono(h, right, Product(w, t));
    ProductSwap(w, h, t);
    if Product(h, t) <= down {
      ProductMono(w, Product(h, t), down);
    }
  }

  /** A segment that meets the screen is never refused. */
  lemma MeetingIsKept(s: Segment, xmax: int, ymax: int)
    requires NonNegative(s) && Meets(s, xmax, ymax)
    ensures !Refused(s, xmax, ymax)
  {
    var t: real :| 0.0 <= t <= 1.0 && PointMeets(s, t, xmax, ymax);
    hide Along, PassesBelow;
    if s.x0 > xmax && s.x1 > xmax { AlongBeyond(s.x0, s.x1, t, xmax); }
    if s.y0 > ymax && s.y1 > ymax { AlongBeyond(s.y0, s.y1, t, ymax); }
    if PassesBelow(s, xmax, ymax) { PassingMisses(s, xmax, ymax, t); }
    if PassesBelow(Flip(s), ymax, xmax) { PassingMisses(Flip(s), ymax, xmax, t); }
  }

  /** What every cut keeps: `s` runs inside `l` close to it, keeps an end that is on screen, and is decided after one cut. */
  ghost predicate Clipping(l: Segment, s: Segment, xmax: int, ymax: int) {
    && Nested(l, s) && Close(l, s, xmax, ymax)
    && (OnScreen(l.x0, l.y0, xmax, ymax) ==> s.x0 == l.x0 && s.y0 == l.y0)
    && (OnScreen(l.x1, l.y1, xmax, ymax) ==> s.x1 == l.x1 && s.y1 == l.y1)
    && (s == l || !OutcodeOf(l.x0, l.y0, xmax, ymax).Shares(OutcodeOf(l.x1, l.y1, xmax, ymax)))
    && (NonNegative(l) ==> s == l || Decided(l, s, xmax, ymax))
  }

  lemma ClipStart(l: Segment, xmax: int, ymax: int)
    ensures Clipping(l, l, xmax, ymax)
  {
    hide Close;
    StartClose(l, xmax, ymax);
  }

  lemma CutKeepsClipping(l: Segment, s: Segment, t: Segment, out: Outcode, xmax: int, ymax: int)
    requires xmax >= -1 && ymax >= -1 && Clipping(l, s, xmax, ymax)
    requires CutAt(s, t, out, ClipPoint(s, out, xmax, ymax), xmax, ymax)
    requires out == OutcodeOf(s.x0, s.y0, xmax, ymax) || OnScreen(s.x0, s.y0, xmax, ymax)
    ensures Clipping(l, t, xmax, ymax) && Length(t) < Length(s)
  {
    hide ClipPoint, Close, Nested, Length, Refused;
    CutSegment(l, s, t, out, xmax, ymax);
    NestedTwice(l, s, t);
    if NonNegative(l) && s == l {
      FirstCut(l, t, out, xmax, ymax);
    }
  }

  lemma ClipKept(l: Segment, s: Segment, xmax: int, ymax: int)
    requires xmax >= -1 && ymax >= -1 && Clipping(l, s, xmax, ymax)
    requires OnScreen(s.x0, s.y0, xmax, ymax) && OnScreen(s.x1, s.y1, xmax, ymax)
    ensures Nested(l, s) && WithinTwo(l, s.x0, s.y0) && WithinTwo(l, s.x1, s.y1)
    ensures OnScreen(l.x0, l.y0, xmax, ymax) ==> s.x0 == l.x0 && s.y0 == l.y0
    ensures OnScreen(l.x1, l.y1, xmax, ymax) ==> s.x1 == l.x1 && s.y1 == l.y1
    ensures !OutcodeOf(l.x0, l.y0, xmax, ymax).Shares(OutcodeOf(l.x1, l.y1, xmax, ymax))
    ensures NonNegative(l) ==> !Refused(l, xmax, ymax)
  {
    hide Close, Nested, WithinTwo, Refused;
    CloseIsWithinTwo(l, s, xmax, ymax);
    if NonNegative(l) { RefusedAtStart(l, xmax, ymax); }
  }

  lemma ClipRefused(l: Segment, s: Segment, xmax: int, ymax: int)
    requires xmax >= -1 && ymax >= -1 && Clipping(l, s, xmax, ymax)
    requires OutcodeOf(s.x0, s.y0, xmax, ymax).Shares(OutcodeOf(s.x1, s.y1, xmax, ymax))
    ensures !OnScreen(l.x0, l.y0, xmax, ymax) && !OnScreen(l.x1, l.y1, xmax, ymax)
    ensures NonNegative(l) ==> Refused(l, xmax, ymax) && !Meets(l, xmax, ymax)
  {
    hide Close, Nested, Refused, Meets;
    if NonNegative(l) {
      RefusedAtStart(l, xmax, ymax);
      if Meets(l, xmax, ymax) { MeetingIsKept(l, xmax, ymax); }
    }
  }

  /** Clips a segment to the screen; the Manhattan length shrinks on every cut. */
  method ClipLine(x0: int, y0: int, x1: int, y1: int, xmax: int, ymax: int) returns (r: Option<Segment>)
    requires xmax >= -1 && ymax >= -1
    ensures r.Some? ==> OnScreen(r.value.x0, r.value.y0, xmax, ymax) && OnScreen(r.value.x1, r.value.y1, xmax, ymax)
    ensures r.Some? ==> Nested(Segment(x0, y0, x1, y1), r.value)
    ensures OnScreen(x0, y0, xmax, ymax) ==> r.Some? && r.value.x0 == x0 && r.value.y0 == y0
    ensures OnScreen(x1, y1, xmax, ymax) ==> r.Some? && r.value.x1 == x1 && r.value.y1 == y1
    ensures (x0 < 0 && x1 < 0) || (x0 > xmax && x1 > xmax) || (y0 < 0 && y1 < 0) || (y0 > ymax && y1 > ymax) ==> r.None?
    ensures r.Some? ==>
              var l := Segment(x0, y0, x1, y1);
              WithinTwo(l, r.value.x0, r.value.y0) && WithinTwo(l, r.value.x1, r.value.y1)
    ensures NonNegative(Segment(x0, y0, x1, y1)) ==> (r.None? <==> Refused(Segment(x0, y0, x1, y1), xmax, ymax))
    ensures NonNegative(Segment(x0, y0, x1, y1)) && Meets(Segment(x0, y0, x1, y1), xmax, ymax) ==> r.Some?
  {
    hide Clipping, ClipPoint, WithinTwo, Nested, Length, Refused, Meets, NonNegative;
    ghost var l := Segment(x0, y0, x1, y1);
    ClipStart(l, xmax, ymax);
    var s := Segment(x0, y0, x1, y1);
    var out0, out1 := OutcodeOf(x0, y0, xmax, ymax), OutcodeOf(x1, y1, xmax, ymax);
    while true
      invariant out0 == OutcodeOf(s.x0, s.y0, xmax, ymax) && out1 == OutcodeOf(s.x1, s.y1, xmax, ymax)
      invariant Clipping(l, s, xmax, ymax)
      decreases Length(s)
    {
      if out0.Inside() && out1.Inside() {
        ClipKept(l, s, xmax, ymax);
        return Some(s);
      }
      if out0.Shares(out1) {
        ClipRefused(l, s, xmax, ymax);
        return None;
      }
      ghost var before := s;
      var out := if !out0.Inside() then out0 else out1;
      var p := ClipPoint(s, out, xmax, ymax);
      if out == out0 {
        s := s.(x0 := p.0, y0 := p.1);
        out0 := OutcodeOf(s.x0, s.y0, xmax, ymax);
      } else {
        s := s.(x1 := p.0, y1 := p.1);
        out1 := OutcodeOf(s.x1, s.y1, xmax, ymax);
      }
      CutKeepsClipping(l, before, s, out, xmax, ymax);
    }
  }

  // ----- stepping along the line

  lemma MulSucc(a: int, b: int)
    ensures Mul(a + 1, b) == Mul(a, b) + b
  {
  }

  /** The whole number nearest to k * minor / major, halves rounded up. */
  function Nearest(k: nat, minor: nat, major: nat): nat {
    if major == 0 then 0 else assert Mul(k, minor) >= 0; (2 * Mul(k, minor) + major) / (2 * major)
  }

  /** `b` differs from k * minor / major by at most one half. */
  predicate Rounds(b: int, k: nat, minor: nat, major: nat) {
    2 * (Mul(b, major) - Mul(k, minor)) <= major && 2 * (Mul(k, minor) - Mul(b, major)) < major
  }

  lemma RoundsIsNearest(b: nat, k: nat, minor: nat, major: nat)
    requires major > 0
    ensures Rounds(b, k, minor, major) <==> b == Nearest(k, minor, major)
  {
    var x, d := 2 * (k * minor) + major, 2 * major;
    assert 2 * (b * major) == b * d;
    if Rounds(b, k, minor, major) {
      DivModUnique(x, d, b, x - b * d);
    }
    if b == Nearest(k, minor, major) {
      assert x == (x / d) * d + x % d;
    }
  }

  /** The nearest value starts at 0, ends at `minor` and grows by 0 or 1. */
  lemma NearestShape(k: nat, minor: nat, major: nat)
    requires major > 0 && minor <= major && k <= major
    ensures Nearest(0, minor, major) == 0 && Nearest(major, minor, major) == minor
    ensures Nearest(k, minor, major) <= Nearest(k + 1, minor, major) <= Nearest(k, minor, major) + 1
    ensures Nearest(k, minor, major) <= minor
    ensures Rounds(Nearest(k, minor, major), k, minor, major)
  {
    var b, c := Nearest(k, minor, major), Nearest(k + 1, minor, major);
    RoundsIsNearest(0, 0, minor, major);
    RoundsIsNearest(minor, major, minor, major);
    RoundsIsNearest(b, k, minor, major);
    RoundsIsNearest(c, k + 1, minor, major);
    assert Mul(minor, major) == Mul(major, minor) && Mul(0, minor) == 0 && Mul(0, major) == 0;
    assert Mul(k, minor) <= Mul(major, minor) by { MulMono(minor, k, major); }
    MulSucc(k, minor);
    hide Nearest;
    RoundsApart(b, c, Mul(k, minor), minor, major);
    LessFactor(b, minor, major, Mul(k, minor));
    hide Mul;
  }

  lemma RoundsApart(b: nat, c: nat, p: int, minor: nat, major: nat)
    requires minor <= major && 2 * (Mul(b, major) - p) <= major && 2 * (p - Mul(b, major)) < major
    requires 2 * (Mul(c, major) - p - minor) <= major && 2 * (p + minor - Mul(c, major)) < major
    ensures b <= c <= b + 1
  {
    assert c < b ==> (c + 1) * major <= b * major;
    assert c > b + 1 ==> (b + 2) * major <= c * major;
  }

  lemma LessFactor(b: nat, minor: nat, major: nat, p: int)
    requires major > 0 && 2 * (Mul(b, major) - p) <= major && p <= Mul(minor, major)
    ensures b <= minor
  {
    assert b > minor ==> (minor + 1) * major <= b * major;
  }

  /** The pixel `a` columns and `b` rows from the start, towards the end. */
  function Offset(s: Segment, a: nat, b: nat): (int, int) {
    (if s.x0 < s.x1 then s.x0 + a else s.x0 - a, if s.y0 < s.y1 then s.y0 + b else s.y0 - b)
  }

  /** The pixel of step `k`: one further on the longer axis, the nearest one on the shorter. */
  function LinePoint(s: Segment, k: nat): (int, int) {
    var dx, dy := Abs(s.x1 - s.x0), Abs(s.y1 - s.y0);
    if dx >= dy then Offset(s, k, Nearest(k, dy, dx)) else Offset(s, Nearest(k, dx, dy), k)
  }

  function Steps(s: Segment): nat { if Abs(s.x1 - s.x0) >= Abs(s.y1 - s.y0) then Abs(s.x1 - s.x0) else Abs(s.y1 - s.y0) }

  predicate Adjacent(p: (int, int), q: (int, int)) { Abs(p.0 - q.0) <= 1 && Abs(p.1 - q.1) <= 1 && p != q }

  /** The line runs from end to end inside its box, pixel by neighbouring pixel, within half a pixel on the shorter axis. */
  lemma LineShape(s: Segment, k: nat)
    requires k <= Steps(s)
    ensures LinePoint(s, 0) == (s.x0, s.y0) && LinePoint(s, Steps(s)) == (s.x1, s.y1)
    ensures Between(s.x0, LinePoint(s, k).0, s.x1) && Between(s.y0, LinePoint(s, k).1, s.y1)
    ensures k < Steps(s) ==> Adjacent(LinePoint(s, k), LinePoint(s, k + 1))
    ensures 2 * Abs(Off(s, LinePoint(s, k).0, LinePoint(s, k).1)) <= Steps(s)
  {
    var dx, dy, n := Abs(s.x1 - s.x0), Abs(s.y1 - s.y0), Steps(s);
    if n > 0 {
      var minor := if dx >= dy then dy else dx;
      NearestShape(k, minor, n);
      var b := Nearest(k, minor, n);
      var (u, v) := if dx >= dy then (k, b) else (b, k);
      OffOfSteps(s, u, v);
      hide Nearest, Off, Rounds, Mul;
      assert LinePoint(s, k) == Offset(s, u, v);
      assert 2 * Abs(Mul(u, dy) - Mul(v, dx)) <= n by { HalfPixel(b, k, minor, n); }
      if dx >= dy { LineBoxX(s, k); } else { LineBoxY(s, k); }
    }
  }

  lemma HalfPixel(b: nat, k: nat, minor: nat, major: nat)
    requires Rounds(b, k, minor, major)
    ensures 2 * Abs(Mul(k, minor) - Mul(b, major)) <= major && 2 * Abs(Mul(b, major) - Mul(k, minor)) <= major
  {
  }

  lemma LineBoxX(s: Segment, k: nat)
    requires k <= Steps(s) && Steps(s) > 0 && Abs(s.x1 - s.x0) >= Abs(s.y1 - s.y0)
    ensures LinePoint(s, 0) == (s.x0, s.y0) && LinePoint(s, Steps(s)) == (s.x1, s.y1)
    ensures Between(s.x0, LinePoint(s, k).0, s.x1) && Between(s.y0, LinePoint(s, k).1, s.y1)
    ensures k < Steps(s) ==> Adjacent(LinePoint(s, k), LinePoint(s, k + 1))
  {
    NearestShape(k, Abs(s.y1 - s.y0), Steps(s));
    hide Nearest, Rounds;
  }

  lemma LineBoxY(s: Segment, k: nat)
    requires k <= Steps(s) && Abs(s.x1 - s.x0) < Abs(s.y1 - s.y0)
    ensures LinePoint(s, 0) == (s.x0, s.y0) && LinePoint(s, Steps(s)) == (s.x1, s.y1)
    ensures Between(s.x0, LinePoint(s, k).0, s.x1) && Between(s.y0, LinePoint(s, k).1, s.y1)
    ensures k < Steps(s) ==> Adjacent(LinePoint(s, k), LinePoint(s, k + 1))
  {
    NearestShape(k, Abs(s.x1 - s.x0), Steps(s));
    hide Nearest, Rounds;
  }

  lemma OffOfSteps(s: Segment, a: nat, b: nat)
    ensures var dx, dy := Abs(s.x1 - s.x0), Abs(s.y1 - s.y0);
            Abs(Off(s, Offset(s, a, b).0, Offset(s, a, b).1)) == Abs(Mul(a, dy) - Mul(b, dx))
  {
    var p := Offset(s, a, b);
    var dx, dy := Abs(s.x1 - s.x0), Abs(s.y1 - s.y0);
    var x, y := p.0 - s.x0, p.1 - s.y0;
    assert Off(s, p.0, p.1) == Mul(x, s.y1 - s.y0) - Mul(y, s.x1 - s.x0);
    SignedMul(s.x0 < s.x1, a, s.y0 < s.y1, dy);
    SignedMul(s.y0 < s.y1, b, s.x0 < s.x1, dx);
    hide Mul, Off;
  }

  lemma SignedMul(up: bool, a: nat, up': bool, d: nat)
    ensures Mul(if up then a else -(a as int), if up' then d else -(d as int)) == if up == up' then Mul(a, d) else -Mul(a, d)
  {
  }

  /** The error term of the loop after `a` horizontal and `b` vertical steps. */
  function ErrorTerm(dx: nat, dy: nat, a: nat, b: nat): int { Mul(b + 1, dx) - Mul(a + 1, dy) }

  /** With the x axis longer, the loop always steps in x and steps in y exactly when the nearest row changes. */
  lemma StepAlongX(dx: nat, dy: nat, a: nat)
    requires dx >= dy && dx > 0 && a <= dx
    ensures var b := Nearest(a, dy, dx);
            var e := ErrorTerm(dx, dy, a, b);
            && 2 * e >= -(dy as int)
            && Nearest(a + 1, dy, dx) == (if 2 * e <= dx then b + 1 else b)
  {
    var b := Nearest(a, dy, dx);
    NearestShape(a, dy, dx);
    RoundsIsNearest(b + 1, a + 1, dy, dx);
    RoundsIsNearest(b, a + 1, dy, dx);
    MulSucc(b, dx);
    MulSucc(a, dy);
    hide Nearest, Mul;
  }

  /** With the y axis longer, the loop always steps in y and steps in x exactly when the nearest column changes. */
  lemma StepAlongY(dx: nat, dy: nat, b: nat)
    requires dy > dx && b <= dy
    ensures var a := Nearest(b, dx, dy);
            var e := ErrorTerm(dx, dy, a, b);
            && 2 * e <= dx
            && Nearest(b + 1, dx, dy) == (if 2 * e >= -(dy as int) then a + 1 else a)
  {
    var a := Nearest(b, dx, dy);
    var e := ErrorTerm(dx, dy, a, b);
    StepAlongX(dy, dx, b);
    hide Nearest, Mul;
    assert ErrorTerm(dy, dx, b, a) == -e;
  }

  /** How many columns and rows the line has advanced at step `k`. */
  function Counts(s: Segment, k: nat): (nat, nat) {
    var dx, dy := Abs(s.x1 - s.x0), Abs(s.y1 - s.y0);
    if dx >= dy then (k, Nearest(k, dy, dx)) else (Nearest(k, dx, dy), k)
  }

  lemma StartOfLine(s: Segment)
    ensures Counts(s, 0) == (0, 0) && LinePoint(s, 0) == (s.x0, s.y0) && ErrorTerm(Abs(s.x1 - s.x0), Abs(s.y1 - s.y0), 0, 0) == Abs(s.x1 - s.x0) - Abs(s.y1 - s.y0)
  {
    var dx, dy := Abs(s.x1 - s.x0), Abs(s.y1 - s.y0);
    NearestZero(dy, dx);
    NearestZero(dx, dy);
    MulSucc(0, dx);
    MulSucc(0, dy);
    assert Mul(0, dx) == 0 && Mul(0, dy) == 0;
    hide Nearest, Mul;
  }

  lemma NearestZero(minor: nat, major: nat)
    ensures Nearest(0, minor, major) == 0
  {
    if major > 0 {
      assert Mul(0, minor) == 0;
      hide Mul;
      DivModUnique(major, 2 * major, 0, major);
    }
  }

  /** The end point is reached at the last step and not before. */
  lemma LineEnds(s: Segment, k: nat)
    requires k <= Steps(s)
    ensures LinePoint(s, k) == (s.x1, s.y1) <==> k == Steps(s)
  {
    LineShape(s, k);
    hide Nearest, Off;
  }

  /** The two tests of the loop body choose exactly the next pixel of the line. */
  lemma LoopStep(s: Segment, k: nat)
    requires k < Steps(s)
    ensures var dx, dy := Abs(s.x1 - s.x0), Abs(s.y1 - s.y0);
            var (a, b) := Counts(s, k);
            var e := ErrorTerm(dx, dy, a, b);
            var (a', b') := (if 2 * e >= -(dy as int) then a + 1 else a, if 2 * e <= dx then b + 1 else b);
            && Counts(s, k + 1) == (a', b')
            && LinePoint(s, k + 1) == Offset(s, a', b')
            && ErrorTerm(dx, dy, a', b') == e + (if 2 * e >= -(dy as int) then -(dy as int) else 0) + (if 2 * e <= dx then dx else 0)
  {
    hide Nearest, Mul;
    var dx, dy := Abs(s.x1 - s.x0), Abs(s.y1 - s.y0);
    var (a, b) := Counts(s, k);
    MulSucc(a + 1, dy);
    MulSucc(b + 1, dx);
    if dx >= dy {
      StepAlongX(dx, dy, k);
    } else {
      StepAlongY(dx, dy, k);
    }
  }
}
