/**
 * Two sockets of one connection over a network that may lose, repeat and
 * reorder segments: the bytes a side takes are always a prefix of those the
 * other side sent (section 3.4 of RFC 9293).
 */
module TcpStream {
  import opened Basics
  import opened TcpSockets

  /**
   * A socket with its history: the bytes it was given to send, how many of
   * them before its first FIN, how many FINs, the bytes its user has read, and
   * every segment it ever put on the network.
   */
  datatype Side = Side(sock: Socket, sent: seq<u8>, beforeFin: nat, fins: nat, read: seq<u8>, segments: set<Segment>)

  datatype World = World(client: Side, server: Side)

  function Accepted(y: Side): seq<u8> { y.read + y.sock.buf }

  // ----- what can happen on one side

  function Posted(x: Side, p: Option<Segment>): set<Segment> {
    if p.Some? then x.segments + {p.value} else x.segments
  }

  /** The fewer-than-2^32 bound of one connection. */
  predicate InRange(x: Side) { 1 + |x.sent| + x.fins < MODULUS }

  function Delivered(y: Side, p: Segment): Side {
    var (s, reply) := Receive(y.sock, p);
    y.(sock := s, segments := Posted(y, reply))
  }

  function SynPosted(x: Side): Side {
    if x.sock.state == SynSent then x.(segments := x.segments + {SynSegment(x.sock)}) else x
  }

  function DataSent(x: Side, data: seq<u8>): Side {
    if x.sock.state != Established then x
    else x.(sock := x.sock.(seqNum := if data == [] then x.sock.seqNum else Add(x.sock.seqNum, |data|)),
            sent := x.sent + data, segments := x.segments + {DataSegment(x.sock, data)})
  }

  function FinSent(x: Side): Side {
    if x.sock.state != Established then x
    else x.(sock := x.sock.(seqNum := Add(x.sock.seqNum, 1)), segments := x.segments + {FinSegment(x.sock)},
            beforeFin := if x.fins == 0 then |x.sent| else x.beforeFin, fins := x.fins + 1)
  }

  function BufRead(y: Side): Side {
    y.(sock := y.sock.(buf := []), read := y.read + y.sock.buf)
  }

  /** One step of a side, with `peer` on the other end. */
  ghost predicate SideStep(x: Side, peer: Side, x': Side) {
    || (exists p :: p in peer.segments && x' == Delivered(x, p))
    || x' == SynPosted(x)
    || (exists data :: x' == DataSent(x, data) && InRange(x'))
    || (x' == FinSent(x) && InRange(x'))
    || x' == BufRead(x)
  }

  ghost predicate Step(w: World, w': World) {
    || (w'.server == w.server && SideStep(w.client, w.server, w'.client))
    || (w'.client == w.client && SideStep(w.server, w.client, w'.server))
  }

  function Initial(): World {
    World(Side(StartActive(FRESH).value, [], 0, 0, [], {}), Side(StartPassive(FRESH).value, [], 0, 0, [], {}))
  }

  // ----- the invariant

  predicate Opened(s: State) { s == SynReceived || s == Established || s == CloseWait }

  /** Data segment `p` carries the bytes from `off`; it was sent before any FIN, or after `k` of them. */
  predicate Carries(x: Side, p: Segment, off: nat, k: nat) {
    && off + |p.data| <= |x.sent| && p.data == x.sent[off..off + |p.data|]
    && p.seqNum == (1 + off + k) % MODULUS && k <= x.fins
    && (k == 0 && x.fins > 0 ==> off + |p.data| <= x.beforeFin)
    && (k > 0 ==> x.beforeFin <= off)
  }

  /** FIN segment `p` is number `k` and follows the first `off` bytes. */
  predicate Ends(x: Side, p: Segment, off: nat, k: nat) {
    && off <= |x.sent| && k < x.fins && p.seqNum == (1 + off + k) % MODULUS
    && x.beforeFin <= off && (k == 0 ==> off == x.beforeFin)
  }

  /** FINs of the peer a side has taken. */
  function FinsTaken(x: Side): nat { if x.sock.state == CloseWait then 1 else 0 }

  /** Segment `p` acknowledges the peer's SYN, `n` bytes and `f` FINs, no more than its sender has accepted. */
  predicate Acknowledges(x: Side, p: Segment, n: nat, f: nat) {
    n <= |Accepted(x)| && f <= FinsTaken(x) && p.ackNum == (1 + n + f) % MODULUS
  }

  /** Segment `p` is numbered as the one after `off` bytes and `k` FINs of its sender. */
  predicate Numbered(x: Side, p: Segment, off: nat, k: nat) {
    off <= |x.sent| && k <= x.fins && p.seqNum == (1 + off + k) % MODULUS
  }

  ghost predicate SegmentOk(x: Side, p: Segment) {
    && (p.ack ==> exists n: nat, f: nat :: Acknowledges(x, p, n, f))
    && (!p.syn ==> p.ack && exists off: nat, k: nat :: Numbered(x, p, off, k))
    && (p.syn ==> p.seqNum == 0 && p.data == [])
    && (p.fin ==> p.data == [] && exists off: nat, k: nat :: Ends(x, p, off, k))
    && (p.data != [] ==> exists off: nat, k: nat :: Carries(x, p, off, k))
  }

  /** A side numbers its bytes from one, and every segment it posted carries the bytes it claims to. */
  ghost predicate SenderInv(x: Side) {
    && (x.sock.state == SynSent || x.sock.state == Listen || Opened(x.sock.state))
    && InRange(x)
    && (if Opened(x.sock.state) then x.sock.seqNum == (1 + |x.sent| + x.fins) % MODULUS
        else x.sock.seqNum == 0 && x.sent == [] && x.fins == 0)
    && (x.fins > 0 ==> x.beforeFin <= |x.sent|)
    && forall p :: p in x.segments ==> SegmentOk(x, p)
  }

  /** The receiving side holds a prefix, and expects exactly the byte after it. */
  ghost predicate ReceiverInv(y: Side, x: Side) {
    && Accepted(y) <= x.sent
    && (!Opened(y.sock.state) ==> Accepted(y) == [])
    && (y.sock.state == SynReceived || y.sock.state == Established ==>
          && y.sock.nextRecv == (1 + |Accepted(y)|) % MODULUS
          && (x.fins > 0 ==> |Accepted(y)| <= x.beforeFin))
    && (y.sock.state == CloseWait ==> y.sock.nextRecv == (2 + |Accepted(y)|) % MODULUS)
  }

  ghost predicate Inv(w: World) {
    && SenderInv(w.client) && SenderInv(w.server)
    && ReceiverInv(w.server, w.client) && ReceiverInv(w.client, w.server)
  }

  // ----- sending keeps earlier segments true

  lemma CarriesLater(x: Side, x': Side, p: Segment, off: nat, k: nat)
    requires Carries(x, p, off, k) && x.sent <= x'.sent && x.fins <= x'.fins
    requires x.fins > 0 ==> x'.beforeFin == x.beforeFin
    requires x.fins == 0 && x'.fins > 0 ==> |x.sent| <= x'.beforeFin
    ensures Carries(x', p, off, k)
  {
  }

  /** What a side has posted stays true while it sends and accepts more. */
  ghost predicate Later(x: Side, x': Side) {
    && x.sent <= x'.sent && x.fins <= x'.fins
    && (x.fins > 0 ==> x'.beforeFin == x.beforeFin)
    && (x.fins == 0 && x'.fins > 0 ==> |x.sent| <= x'.beforeFin)
    && |Accepted(x)| <= |Accepted(x')| && FinsTaken(x) <= FinsTaken(x')
  }

  lemma SegmentLater(x: Side, x': Side, p: Segment)
    requires SegmentOk(x, p) && Later(x, x')
    ensures SegmentOk(x', p)
  {
    if p.data != [] {
      var off: nat, k: nat :| Carries(x, p, off, k);
      CarriesLater(x, x', p, off, k);
    }
    if p.fin {
      var off: nat, k: nat :| Ends(x, p, off, k);
      assert Ends(x', p, off, k);
    }
    if p.ack {
      var n: nat, f: nat :| Acknowledges(x, p, n, f);
      assert Acknowledges(x', p, n, f);
    }
    if !p.syn {
      var off: nat, k: nat :| Numbered(x, p, off, k);
      assert Numbered(x', p, off, k);
    }
    hide Carries, Ends, Acknowledges, Numbered;
  }

  lemma SegmentsLater(x: Side, x': Side)
    requires SenderInv(x) && Later(x, x')
    ensures forall p :: p in x.segments ==> SegmentOk(x', p)
  {
    hide SegmentOk, Later;
    forall p | p in x.segments
      ensures SegmentOk(x', p)
    {
      assert SegmentOk(x, p);
      SegmentLater(x, x', p);
    }
  }

  lemma AddMod(a: nat, b: nat)
    ensures Add(a % MODULUS, b) == (a + b) % MODULUS
  {
  }

  lemma DataSentKeeps(x: Side, y: Side, data: seq<u8>)
    requires SenderInv(x) && ReceiverInv(y, x) && ReceiverInv(x, y) && InRange(DataSent(x, data))
    ensures SenderInv(DataSent(x, data)) && ReceiverInv(y, DataSent(x, data))
  {
    var x' := DataSent(x, data);
    if x.sock.state == Established {
      SegmentsLater(x, x');
      AddMod(1 + |x.sent| + x.fins, |data|);
      var p := DataSegment(x.sock, data);
      assert x'.sent[|x.sent|..|x.sent| + |data|] == data;
      assert Carries(x', p, |x.sent|, x.fins) && Numbered(x', p, |x.sent|, x.fins);
      assert Acknowledges(x', p, |Accepted(x)|, 0);
      assert SegmentOk(x', p);
    }
  }

  lemma FinSentKeeps(x: Side, y: Side)
    requires SenderInv(x) && ReceiverInv(y, x) && ReceiverInv(x, y) && InRange(FinSent(x))
    ensures SenderInv(FinSent(x)) && ReceiverInv(y, FinSent(x))
  {
    var x' := FinSent(x);
    if x.sock.state == Established {
      SegmentsLater(x, x');
      AddMod(1 + |x.sent| + x.fins, 1);
      var p := FinSegment(x.sock);
      assert Ends(x', p, |x.sent|, x.fins) && Numbered(x', p, |x.sent|, x.fins);
      assert Acknowledges(x', p, |Accepted(x)|, 0);
      assert SegmentOk(x', p);
    }
  }

  // ----- receiving

  /** Below the modulus equal sequence numbers mean equal positions. */
  lemma NumbersIdentify(a: nat, b: nat)
    requires a < MODULUS && b < MODULUS && a % MODULUS == b % MODULUS
    ensures a == b
  {
  }

  lemma SentSegment(x: Side, p: Segment)
    requires SenderInv(x) && p in x.segments
    ensures SegmentOk(x, p) && InRange(x)
  {
  }

  /** A data segment numbered for the byte after the first `n` carries that byte, and was sent before any FIN. */
  lemma CarriesNext(x: Side, p: Segment, off: nat, k: nat, n: nat)
    requires InRange(x) && Carries(x, p, off, k) && p.data != [] && p.seqNum == (1 + n) % MODULUS && n <= |x.sent|
    requires x.fins > 0 ==> n <= x.beforeFin
    ensures k == 0 && off == n
  {
    NumbersIdentify(1 + off + k, 1 + n);
  }

  /** A segment taken by the receiver starts exactly at the next byte of the stream. */
  lemma TakenIsNext(x: Side, y: Side, p: Segment)
    requires SenderInv(x) && InRange(x) && ReceiverInv(y, x) && p in x.segments && Taken(y.sock, p) != []
    ensures Accepted(y) + p.data <= x.sent
    ensures x.fins > 0 ==> |Accepted(y) + p.data| <= x.beforeFin
  {
    hide SenderInv, InRange;
    SentSegment(x, p);
    var off: nat, k: nat :| Carries(x, p, off, k);
    var n := |Accepted(y)|;
    CarriesNext(x, p, off, k, n);
    assert x.sent[..n] == Accepted(y);
    assert x.sent[..n + |p.data|] == x.sent[..n] + x.sent[n..n + |p.data|];
  }

  /** While established the expected number follows what was taken, and a FIN. */
  lemma DeliveredEstablished(x: Side, y: Side, p: Segment)
    requires SenderInv(x) && ReceiverInv(y, x) && p in x.segments && y.sock.state == Established
    ensures ReceiverInv(Delivered(y, p), x)
  {
    ReceiveEffect(y.sock, p);
    hide Receive;
    if Taken(y.sock, p) != [] {
      TakenIsNext(x, y, p);
    }
    hide SenderInv;
    assert Accepted(Delivered(y, p)) == Accepted(y) + Taken(y.sock, p);
    AddMod(1 + |Accepted(y)|, |Taken(y.sock, p)|);
    AddMod(1 + |Accepted(y)| + |Taken(y.sock, p)|, 1);
  }

  /** Before that a SYN, numbered zero, sets the expected number to that of the first byte. */
  lemma DeliveredOpening(x: Side, y: Side, p: Segment)
    requires ReceiverInv(y, x) && SenderInv(y) && SegmentOk(x, p) && y.sock.state != Established
    ensures ReceiverInv(Delivered(y, p), x)
  {
    ReceiveEffect(y.sock, p);
    assert Accepted(Delivered(y, p)) == Accepted(y);
  }

  lemma DeliveredReceiver(x: Side, y: Side, p: Segment)
    requires SenderInv(x) && ReceiverInv(y, x) && SenderInv(y) && p in x.segments
    ensures ReceiverInv(Delivered(y, p), x)
  {
    if y.sock.state == Established {
      DeliveredEstablished(x, y, p);
    } else {
      SentSegment(x, p);
      DeliveredOpening(x, y, p);
    }
    hide *;
  }

  lemma DeliveredLater(y: Side, p: Segment)
    ensures Later(y, Delivered(y, p)) && Accepted(Delivered(y, p)) == Accepted(y) + Taken(y.sock, p)
  {
    ReceiveEffect(y.sock, p);
    ReceiveMoves(y.sock, p);
    hide Receive;
    assert Accepted(Delivered(y, p)) == Accepted(y) + Taken(y.sock, p);
  }

  /** A reply acknowledges all that its sender has accepted, and is numbered for what it will send next. */
  lemma ReplyOk(y: Side, x: Side, p: Segment)
    requires SenderInv(y) && ReceiverInv(Delivered(y, p), x) && Receive(y.sock, p).1.Some?
    ensures SegmentOk(Delivered(y, p), Receive(y.sock, p).1.value)
  {
    var y', r := Delivered(y, p), Receive(y.sock, p).1.value;
    ReplyMeans(y.sock, p);
    ReceiveMoves(y.sock, p);
    if y.sock.state != Established { HandshakeNumbers(y.sock, p); } else { ReceiveEffect(y.sock, p); }
    hide Receive;
    assert Acknowledges(y', r, |Accepted(y')|, FinsTaken(y'));
    if !r.syn {
      assert Numbered(y', r, |y'.sent|, y'.fins);
    }
  }

  /** Replies carry no data, so receiving leaves what a side has sent as it was. */
  lemma DeliveredSender(y: Side, x: Side, p: Segment)
    requires SenderInv(y) && ReceiverInv(x, y) && ReceiverInv(Delivered(y, p), x)
    ensures SenderInv(Delivered(y, p)) && ReceiverInv(x, Delivered(y, p))
  {
    var y' := Delivered(y, p);
    DeliveredLater(y, p);
    SegmentsLater(y, y');
    ReceiveEffect(y.sock, p);
    ReceiveMoves(y.sock, p);
    if y'.sock.state != y.sock.state && y.sock.state != SynReceived && y.sock.state != Established { HandshakeNumbers(y.sock, p); }
    KeepsNumber(y.sock, p);
    if Receive(y.sock, p).1.Some? {
      ReplyOk(y, x, p);
    }
    hide Receive, SegmentOk, Later;
  }

  lemma KeepsNumber(s: Socket, p: Segment)
    ensures Receive(s, p).0.state == s.state || s.state == SynReceived || s.state == Established ==> Receive(s, p).0.seqNum == s.seqNum
  {
  }

  lemma SynPostedKeeps(x: Side, y: Side)
    requires SenderInv(x) && ReceiverInv(x, y) && ReceiverInv(y, x)
    ensures SenderInv(SynPosted(x)) && ReceiverInv(SynPosted(x), y) && ReceiverInv(y, SynPosted(x))
  {
    SegmentsLater(x, SynPosted(x));
  }

  lemma BufReadKeeps(x: Side, y: Side)
    requires SenderInv(x) && ReceiverInv(x, y) && ReceiverInv(y, x)
    ensures SenderInv(BufRead(x)) && ReceiverInv(BufRead(x), y) && ReceiverInv(y, BufRead(x))
  {
    SegmentsLater(x, BufRead(x));
    assert Accepted(BufRead(x)) == Accepted(x);
  }

  lemma SendingReceives(x: Side, y: Side, data: seq<u8>)
    requires ReceiverInv(x, y)
    ensures ReceiverInv(DataSent(x, data), y) && ReceiverInv(FinSent(x), y)
  {
  }

  lemma SideStepKeeps(x: Side, peer: Side, x': Side)
    requires SenderInv(x) && SenderInv(peer) && ReceiverInv(x, peer) && ReceiverInv(peer, x) && SideStep(x, peer, x')
    ensures SenderInv(x') && ReceiverInv(x', peer) && ReceiverInv(peer, x')
  {
    hide SenderInv, ReceiverInv, Delivered, SynPosted, DataSent, FinSent, BufRead, InRange;
    if p :| p in peer.segments && x' == Delivered(x, p) {
      DeliveredReceiver(peer, x, p);
      DeliveredSender(x, peer, p);
    } else if x' == SynPosted(x) {
      SynPostedKeeps(x, peer);
    } else if data :| x' == DataSent(x, data) && InRange(x') {
      DataSentKeeps(x, peer, data);
      SendingReceives(x, peer, data);
    } else if x' == FinSent(x) && InRange(x') {
      FinSentKeeps(x, peer);
      SendingReceives(x, peer, []);
    } else {
      BufReadKeeps(x, peer);
    }
  }

  lemma StepKeepsInv(w: World, w': World)
    requires Inv(w) && Step(w, w')
    ensures Inv(w')
  {
    if w'.server == w.server && SideStep(w.client, w.server, w'.client) {
      SideStepKeeps(w.client, w.server, w'.client);
    } else {
      SideStepKeeps(w.server, w.client, w'.server);
    }
  }

  ghost predicate IsRun(run: seq<World>) {
    forall i :: 0 <= i < |run| - 1 ==> Step(run[i], run[i + 1])
  }

  lemma {:induction false} EveryRunKeepsInv(run: seq<World>, n: nat)
    requires IsRun(run) && n < |run| && run[0] == Initial()
    ensures Inv(run[n])
  {
    hide Inv, Step;
    if n > 0 {
      EveryRunKeepsInv(run, n - 1);
      StepKeepsInv(run[n - 1], run[n]);
    } else {
      InitialInv();
    }
  }

  lemma InitialInv()
    ensures Inv(Initial())
  {
  }

  /**
   * In every run, whatever the network does, what either side has taken is a
   * prefix of what the other sent, and the next number it expects is the
   * other's initial number plus one plus that length, plus one more after FIN.
   */
  lemma PrefixSafety(run: seq<World>, n: nat)
    requires IsRun(run) && n < |run| && run[0] == Initial()
    ensures Accepted(run[n].server) <= run[n].client.sent && Accepted(run[n].client) <= run[n].server.sent
    ensures var s := run[n].server;
            (s.sock.state == Established ==> s.sock.nextRecv == (0 + 1 + |Accepted(s)|) % MODULUS)
            && (s.sock.state == CloseWait ==> s.sock.nextRecv == (0 + 1 + |Accepted(s)| + 1) % MODULUS)
    ensures var c := run[n].client;
            (c.sock.state == Established ==> c.sock.nextRecv == (0 + 1 + |Accepted(c)|) % MODULUS)
            && (c.sock.state == CloseWait ==> c.sock.nextRecv == (0 + 1 + |Accepted(c)| + 1) % MODULUS)
  {
    EveryRunKeepsInv(run, n);
  }

  /** In every run no segment acknowledges a byte or a FIN that its sender has not accepted by then. */
  lemma AcksOnlyAccepted(run: seq<World>, n: nat, p: Segment)
    requires IsRun(run) && n < |run| && run[0] == Initial() && p.ack
    ensures p in run[n].server.segments ==>
              exists k: nat, f: nat :: Acknowledges(run[n].server, p, k, f) && k <= |run[n].client.sent|
    ensures p in run[n].client.segments ==>
              exists k: nat, f: nat :: Acknowledges(run[n].client, p, k, f) && k <= |run[n].server.sent|
  {
    EveryRunKeepsInv(run, n);
    var w := run[n];
    if p in w.server.segments {
      assert SegmentOk(w.server, p);
      var k: nat, f: nat :| Acknowledges(w.server, p, k, f);
      assert Acknowledges(w.server, p, k, f) && k <= |w.client.sent|;
    }
    if p in w.client.segments {
      assert SegmentOk(w.client, p);
      var k: nat, f: nat :| Acknowledges(w.client, p, k, f);
      assert Acknowledges(w.client, p, k, f) && k <= |w.server.sent|;
    }
  }

  /**
   * Data or a FIN that reaches an established side is always answered, and the
   * answer acknowledges exactly all that the side has accepted, this segment
   * included, under the number of what the side will send next.
   */
  lemma AnswerAcknowledgesAll(x: Side, y: Side, p: Segment)
    requires SenderInv(x) && SenderInv(y) && ReceiverInv(y, x) && p in x.segments
    requires y.sock.state == Established && (p.data != [] || p.fin)
    ensures var y' := Delivered(y, p);
            exists r: Segment ::
              && r in y'.segments && r.ack && !r.syn && !r.fin && r.data == []
              && r.ackNum == (1 + |Accepted(y')| + FinsTaken(y')) % MODULUS
              && r.seqNum == (1 + |y.sent| + y.fins) % MODULUS
  {
    var y', r := Delivered(y, p), Receive(y.sock, p).1;
    DeliveredReceiver(x, y, p);
    ReplyMeans(y.sock, p);
    ReceiveMoves(y.sock, p);
    KeepsNumber(y.sock, p);
    hide Receive, SegmentOk;
    assert r.value in y'.segments;
  }

  /** Data and FINs sent carry an acknowledgement of all that the sender has accepted. */
  lemma SendingAcknowledgesAll(x: Side, peer: Side, data: seq<u8>)
    requires SenderInv(x) && ReceiverInv(x, peer) && x.sock.state == Established
    ensures exists r: Segment ::
              && r in DataSent(x, data).segments && r.ack && !r.syn && !r.fin && r.data == data
              && r.ackNum == (1 + |Accepted(x)|) % MODULUS && r.seqNum == (1 + |x.sent| + x.fins) % MODULUS
    ensures exists r: Segment ::
              && r in FinSent(x).segments && r.ack && !r.syn && r.fin && r.data == []
              && r.ackNum == (1 + |Accepted(x)|) % MODULUS && r.seqNum == (1 + |x.sent| + x.fins) % MODULUS
  {
    assert DataSegment(x.sock, data) in DataSent(x, data).segments;
    assert FinSegment(x.sock) in FinSent(x).segments;
  }

  // ----- where the stream ends

  lemma TakenFinStays(x: Side, peer: Side, x': Side)
    requires SideStep(x, peer, x') && x.sock.state == CloseWait
    ensures x'.sock.state == CloseWait && Accepted(x') == Accepted(x)
  {
    assert forall p :: Delivered(x, p) == x.(segments := Posted(x, None));
  }

  lemma StepAfterFin(w: World, w': World)
    requires Step(w, w')
    ensures w.server.sock.state == CloseWait ==> w'.server.sock.state == CloseWait && Accepted(w'.server) == Accepted(w.server)
    ensures w.client.sock.state == CloseWait ==> w'.client.sock.state == CloseWait && Accepted(w'.client) == Accepted(w.client)
  {
    hide SideStep, Accepted;
    if w'.server == w.server && SideStep(w.client, w.server, w'.client) {
      if w.client.sock.state == CloseWait { TakenFinStays(w.client, w.server, w'.client); }
    } else {
      if w.server.sock.state == CloseWait { TakenFinStays(w.server, w.client, w'.server); }
    }
  }

  /** Once a side has taken a FIN, what it had accepted by then is all it accepts in the rest of any run. */
  lemma {:induction false} TakenFinIsFinal(run: seq<World>, n: nat, m: nat)
    requires IsRun(run) && n <= m < |run|
    ensures run[n].server.sock.state == CloseWait ==>
              run[m].server.sock.state == CloseWait && Accepted(run[m].server) == Accepted(run[n].server)
    ensures run[n].client.sock.state == CloseWait ==>
              run[m].client.sock.state == CloseWait && Accepted(run[m].client) == Accepted(run[n].client)
    decreases m
  {
    if n < m {
      hide Step, Accepted;
      TakenFinIsFinal(run, n, m - 1);
      StepAfterFin(run[m - 1], run[m]);
    }
  }

  /**
   * The code does not look at a FIN's sequence number. Any FIN leaves the stream
   * complete exactly when the receiver was expecting the number of the first
   * one; a later FIN never carries the number expected.
   */
  lemma FinCompletesInOrder(x: Side, y: Side, p: Segment)
    requires SenderInv(x) && ReceiverInv(y, x) && y.sock.state == Established && p in x.segments && p.fin
    ensures Delivered(y, p).sock.state == CloseWait && x.beforeFin <= |x.sent|
    ensures Accepted(Delivered(y, p)) == x.sent[..x.beforeFin] <==> y.sock.nextRecv == (1 + x.beforeFin) % MODULUS
    ensures p.seqNum == y.sock.nextRecv ==> p.seqNum == (1 + x.beforeFin) % MODULUS
  {
    ReceiveEffect(y.sock, p);
    assert SegmentOk(x, p);
    var off: nat, k: nat :| Ends(x, p, off, k);
    var n := |Accepted(y)|;
    assert Accepted(Delivered(y, p)) == Accepted(y);
    assert Accepted(y) == x.sent[..n] && n <= x.beforeFin <= |x.sent|;
    assert InRange(x);
    if p.seqNum == y.sock.nextRecv {
      NumbersIdentify(1 + off + k, 1 + n);
    }
    if y.sock.nextRecv == (1 + x.beforeFin) % MODULUS {
      NumbersIdentify(1 + x.beforeFin, 1 + n);
    }
  }

  lemma ServerDelivery(w: World, p: Segment)
    requires p in w.client.segments
    ensures Step(w, w.(server := Delivered(w.server, p)))
  {
  }

  lemma ClientDelivery(w: World, p: Segment)
    requires p in w.server.segments
    ensures Step(w, w.(client := Delivered(w.client, p)))
  {
  }

  /** The three-way handshake, step by step. */
  lemma HandshakeRun() returns (run: seq<World>)
    ensures IsRun(run) && |run| == 5 && run[0] == Initial()
    ensures var w := run[4]; w.client.sock.state == Established && w.server.sock.state == Established
                             && w.client.sent == [] && w.client.fins == 0 && Accepted(w.server) == []
  {
    var w0 := Initial();
    var w1 := w0.(client := SynPosted(w0.client));
    assert Step(w0, w1) by { assert SideStep(w0.client, w0.server, w1.client); }
    var syn, synAck := Segment(0, 0, true, false, false, []), Segment(0, 1, true, true, false, []);
    var w2 := w1.(server := Delivered(w1.server, syn));
    ServerDelivery(w1, syn);
    var w3 := w2.(client := Delivered(w2.client, synAck));
    ClientDelivery(w2, synAck);
    var ack := Segment(1, 1, false, true, false, []);
    var w4 := w3.(server := Delivered(w3.server, ack));
    ServerDelivery(w3, ack);
    hide Step;
    run := [w0, w1, w2, w3, w4];
  }

  lemma MoreRun(run: seq<World>, w: World)
    requires IsRun(run) && run != [] && Step(run[|run| - 1], w)
    ensures IsRun(run + [w])
  {
  }

  /** A FIN can overtake data: a run in which the receiver has seen the end of the stream and none of the bytes sent before it. */
  lemma FinCanOvertake() returns (run: seq<World>)
    ensures IsRun(run) && |run| == 8 && run[0] == Initial()
    ensures var w := run[7]; w.client.sent == [7] && w.client.beforeFin == 1 && w.server.sock.state == CloseWait && Accepted(w.server) == []
  {
    run := HandshakeRun();
    var w := run[4];
    var w5 := w.(client := DataSent(w.client, [7]));
    assert Step(w, w5) by { assert SideStep(w.client, w.server, w5.client); }
    MoreRun(run, w5);
    var w6 := w5.(client := FinSent(w5.client));
    assert Step(w5, w6) by { assert SideStep(w5.client, w5.server, w6.client); }
    MoreRun(run + [w5], w6);
    var fin := FinSegment(w5.client.sock);
    var w7 := w6.(server := Delivered(w6.server, fin));
    ServerDelivery(w6, fin);
    MoreRun(run + [w5] + [w6], w7);
    run := run + [w5] + [w6] + [w7];
  }
}
