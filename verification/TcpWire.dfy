/**
 * The segments of the socket state machine as packets on the wire
 * (kernel/src/net/mod.rs): what one socket sends is what the other receives.
 */
module TcpWire {
  import opened Basics
  import opened Checksums
  import Sockets = TcpSockets
  import Tcp = TcpSegments
  import Packets

  const FLAGS_FIN: nat := 0x01
  const FLAGS_SYN: nat := 0x02
  const FLAGS_PSH: nat := 0x08
  const FLAGS_ACK: nat := 0x10

  function Bit(on: bool, flag: nat): nat { if on then flag else 0 }

  predicate HasFlag(flags: nat, flag: nat)
    requires flag > 0
  {
    flags / flag % 2 == 1
  }

  /** The flags a segment goes out with; data is pushed. */
  function FlagsOf(p: Sockets.Segment, push: bool): (f: u16)
    ensures f < 0x1000
  {
    Bit(p.fin, FLAGS_FIN) + Bit(p.syn, FLAGS_SYN) + Bit(push, FLAGS_PSH) + Bit(p.ack, FLAGS_ACK)
  }

  /** A SYN-ACK announces the largest segment, 1460 bytes. */
  function OptionsOf(p: Sockets.Segment): (o: seq<u8>)
    ensures |o| <= 4
  {
    if p.syn && p.ack then [0x02, 0x04, 0x05, 0xb4] else []
  }

  predicate Sendable(p: Sockets.Segment) { p.seqNum < Sockets.MODULUS && p.ackNum < Sockets.MODULUS }

  /** The packet for a segment, before its checksum. */
  function Encode(p: Sockets.Segment, srcPort: u16, dstPort: u16, push: bool): Tcp.TcpPacket
    requires Sendable(p)
  {
    Tcp.NewWith(srcPort, dstPort, p.seqNum, p.ackNum, FlagsOf(p, push), 0xffff, 0, OptionsOf(p), p.data)
  }

  /** What the socket code looks at in a received packet. */
  function Decode(q: Tcp.TcpPacket): Sockets.Segment {
    Sockets.Segment(q.seqNum, q.ackNum, HasFlag(q.flags, FLAGS_SYN), HasFlag(q.flags, FLAGS_ACK), HasFlag(q.flags, FLAGS_FIN), q.data)
  }

  lemma LowFlags(flags: nat)
    ensures HasFlag(flags % 0x1000, FLAGS_FIN) == HasFlag(flags, FLAGS_FIN)
    ensures HasFlag(flags % 0x1000, FLAGS_SYN) == HasFlag(flags, FLAGS_SYN)
    ensures HasFlag(flags % 0x1000, FLAGS_ACK) == HasFlag(flags, FLAGS_ACK)
  {
    LowBits(flags / 0x1000, flags % 0x1000);
  }

  lemma LowBits(q: nat, r: nat)
    ensures (0x1000 * q + r) / 0x01 % 2 == r / 0x01 % 2
    ensures (0x1000 * q + r) / 0x02 % 2 == r / 0x02 % 2
    ensures (0x1000 * q + r) / 0x10 % 2 == r / 0x10 % 2
  {
    assert (0x1000 * q + r) / 0x02 == 0x800 * q + r / 0x02;
    assert (0x1000 * q + r) / 0x10 == 0x100 * q + r / 0x10;
  }

  lemma FlagsRead(p: Sockets.Segment, push: bool)
    ensures var f := FlagsOf(p, push); HasFlag(f, FLAGS_FIN) == p.fin && HasFlag(f, FLAGS_SYN) == p.syn && HasFlag(f, FLAGS_ACK) == p.ack
  {
  }

  lemma SynAckOptions(p: Sockets.Segment)
    ensures p.syn && p.ack ==> OptionsOf(p) == [0x02, 0x04, 0x05, 0xb4]
  {
  }

  /**
   * A segment sent by one socket, with its checksum, in an IPv4 packet and an
   * Ethernet frame, reaches the other host from the same ports and addresses, passes
   * the checksum test and is the segment the other socket handles.
   */
  lemma SegmentCrosses(dstMac: Packets.Mac, srcMac: Packets.Mac, src: Ipv4Addr, dst: Ipv4Addr, id: u16, checksum: u16,
                       p: Sockets.Segment, srcPort: u16, dstPort: u16, push: bool, s: Tcp.TcpPacket)
    requires Sendable(p) && 20 + |Tcp.ToVec(Encode(p, srcPort, dstPort, push))| <= 0xffff
    requires s == Tcp.WithChecksum(Encode(p, srcPort, dstPort, push), src, dst)
    ensures 20 + |Tcp.ToVec(s)| <= 0xffff && Packets.FrameOf(dstMac, srcMac, src, dst, id, checksum, s).Ok?
    ensures var r := Packets.Receive(Packets.FrameOf(dstMac, srcMac, src, dst, id, checksum, s).value);
            && r.Some? && r.value.src == src && r.value.dst == dst && r.value.segment.srcPort == srcPort && r.value.segment.dstPort == dstPort
            && Decode(r.value.segment) == p && Tcp.Verify(r.value.segment, src, dst)
            && r.value.segment.window == 0xffff && (p.syn && p.ack ==> [0x02, 0x04, 0x05, 0xb4] <= r.value.segment.options)
  {
    SynAckOptions(p);
    hide Tcp.ToVec, Tcp.NewWith, Packets.FrameOf, Packets.Receive, Tcp.Verify, Tcp.WithChecksum, HasFlag, FlagsOf, OptionsOf;
    Packets.BuiltSegmentSurvives(dstMac, srcMac, src, dst, id, checksum, srcPort, dstPort, p.seqNum, p.ackNum, FlagsOf(p, push), 0xffff, 0,
                                 OptionsOf(p), p.data, Encode(p, srcPort, dstPort, push), s);
    var q := Packets.Receive(Packets.FrameOf(dstMac, srcMac, src, dst, id, checksum, s).value).value.segment;
    LowFlags(q.flags);
    LowFlags(FlagsOf(p, push));
    FlagsRead(p, push);
  }
}
