/**
 * IPv4 packets (kernel/src/net/ip.rs) and Ethernet frames
 * (kernel/src/net/eth.rs), and a TCP segment's way through both and back.
 */
module Packets {
  import opened Basics
  import opened Checksums
  import Tcp = TcpSegments

  // ----- IPv4

  datatype Protocol = Icmp | Tcp | Udp | Other(x: u8)

  function ProtocolByte(p: Protocol): u8 {
    match p case Icmp => 1 case Tcp => 6 case Udp => 17 case Other(x) => x
  }

  function ProtocolOf(x: u8): Protocol {
    if x == 1 then Icmp else if x == 6 then Tcp else if x == 17 then Udp else Other(x)
  }

  /** A protocol with a name of its own is not held as a bare number. */
  predicate OwnName(p: Protocol) { p.Other? ==> p.x != 1 && p.x != 6 && p.x != 17 }

  datatype Ipv4Packet = Ipv4Packet(versionIhl: u8, dscpEcn: u8, len: u16, id: u16, flags: u16, ttl: u8, protocol: Protocol,
                                   checksum: u16, src: Ipv4Addr, dst: Ipv4Addr, data: seq<u8>)

  /** A packet around a payload that fits the sixteen-bit length field. */
  function NewIpv4(versionIhl: u8, dscpEcn: u8, id: u16, flags: u16, protocol: Protocol, src: Ipv4Addr, dst: Ipv4Addr,
                   payload: seq<u8>): Ipv4Packet
    requires 20 + |payload| <= 0xffff
  {
    Ipv4Packet(versionIhl, dscpEcn, 20 + |payload|, id, flags, 64, protocol, 0, src, dst, payload)
  }

  function IpBefore(p: Ipv4Packet): (r: seq<u8>)
    ensures |r| == 10
  {
    [p.versionIhl, p.dscpEcn] + Be16(p.len) + Be16(p.id) + Be16(p.flags) + [p.ttl, ProtocolByte(p.protocol)]
  }

  function IpToVec(p: Ipv4Packet): (r: seq<u8>)
    ensures |r| == 20 + |p.data|
  {
    IpBefore(p) + Be16(p.checksum) + Octets(p.src) + Octets(p.dst) + p.data
  }

  function IpParse(v: seq<u8>): Result<Ipv4Packet, ParseError> {
    if |v| < 20 then Err(InvalidBufferSize)
    else
      var len := FromBe16(v[2], v[3]);
      var ihl := v[0] % 16 * 4;
      if |v| < ihl then Err(InvalidData)
      else
        var end := ihl + (if len > ihl then len - ihl else 0);
        Ok(Ipv4Packet(v[0], v[1], len, FromBe16(v[4], v[5]), FromBe16(v[6], v[7]), v[8], ProtocolOf(v[9]), FromBe16(v[10], v[11]),
                      Ipv4Addr(v[12], v[13], v[14], v[15]), Ipv4Addr(v[16], v[17], v[18], v[19]), v[ihl..NatMin(end, |v|)]))
  }

  /** A twenty-byte header, a right length field, and a protocol under its own name. */
  predicate PlainHeader(p: Ipv4Packet) {
    p.versionIhl % 16 == 5 && p.len == 20 + |p.data| && OwnName(p.protocol)
  }

  /** The length field ends the data where it ends: exactly, below an empty packet's end, or past the end of what came. */
  predicate LengthEnds(p: Ipv4Packet, padding: nat) {
    p.len == 20 + |p.data| || (p.data == [] && p.len < 20) || (padding == 0 && p.len > 20 + |p.data|)
  }

  /**
   * With a twenty-byte header a packet parses back unchanged if and only if its
   * protocol has its own name and the length field ends the data; with a longer
   * header length it does not, because options are dropped.
   */
  lemma IpRoundTrip(p: Ipv4Packet, pad: seq<u8>)
    ensures p.versionIhl % 16 == 5 ==>
      (IpParse(IpToVec(p) + pad) == Ok(p) <==> OwnName(p.protocol) && LengthEnds(p, |pad|))
    ensures p.versionIhl % 16 > 5 ==> IpParse(IpToVec(p)) != Ok(p)
  {
    var v := IpToVec(p) + pad;
    HeaderFields(p, pad);
    if p.versionIhl % 16 == 5 {
      var end := NatMin(NatMax(p.len, 20), |v|);
      assert v[20..] == p.data + pad;
      assert v[20..end] == (p.data + pad)[..end - 20];
      hide IpToVec;
      assert (p.data + pad)[..end - 20] == p.data <==> end == 20 + |p.data|;
    }
  }

  /** The twenty fixed bytes read back field by field. */
  lemma HeaderFields(p: Ipv4Packet, pad: seq<u8>)
    ensures var v := IpToVec(p) + pad;
            && v[0] == p.versionIhl && v[1] == p.dscpEcn && FromBe16(v[2], v[3]) == p.len && FromBe16(v[4], v[5]) == p.id
            && FromBe16(v[6], v[7]) == p.flags && v[8] == p.ttl && v[9] == ProtocolByte(p.protocol)
            && FromBe16(v[10], v[11]) == p.checksum
            && Ipv4Addr(v[12], v[13], v[14], v[15]) == p.src && Ipv4Addr(v[16], v[17], v[18], v[19]) == p.dst
  {
  }

  /** The bytes the header length field covers, as far as the packet has them. */
  function Header(p: Ipv4Packet): (r: seq<u8>)
    ensures |r| <= 60 && |r| == NatMin(p.versionIhl % 16 * 4, 20 + |p.data|)
  {
    IpToVec(p)[..NatMin(p.versionIhl % 16 * 4, 20 + |p.data|)]
  }

  /** Sums the header word by word, folds the carries in and stores the complement. */
  method CalcIpChecksum(p: Ipv4Packet) returns (q: Ipv4Packet)
    ensures q == p.(checksum := 0xffff - Folded(Words(Header(p.(checksum := 0)))))
    ensures p.versionIhl % 16 >= 3 ==> Words(Header(q)) % 0xffff == 0
  {
    hide Header, Words, Folded;
    var z := p.(checksum := 0);
    var sum := SumHeader(Header(z));
    var checksum := FoldChecksum(sum);
    q := p.(checksum := checksum);
    if p.versionIhl % 16 >= 3 {
      IpChecksumAdds(q);
      assert q.(checksum := 0) == z;
      ComplementCompletes(sum);
    }
  }

  method SumHeader(header: seq<u8>) returns (sum: u32)
    requires |header| <= 60
    ensures sum == Words(header)
  {
    hide FromBe16, Words, Wrap32;
    sum := 0;
    var i: nat := 0;
    assert header[i..] == header;
    while i < |header|
      invariant i <= |header| && sum + Words(header[i..]) == Words(header) && sum <= i * 0xffff
    {
      var next := NatMin(i + 2, |header|);
      var word := if i + 1 < |header| then FromBe16(header[i], header[i + 1]) else FromBe16(header[i], 0);
      WordThenRest(header[i..]);
      assert header[i..][next - i..] == header[next..];
      WrapSmall(sum + word);
      sum := Wrap32(sum + word);
      i := next;
    }
    NoWords(header[i..]);
  }

  lemma NoWords(data: seq<u8>)
    requires data == []
    ensures Words(data) == 0
  {
  }

  lemma WordThenRest(data: seq<u8>)
    requires data != []
    ensures Words(data) == if |data| == 1 then FromBe16(data[0], 0) + Words(data[1..]) else FromBe16(data[0], data[1]) + Words(data[2..])
  {
  }

  /** From a length field of three words on, the header covers its checksum, which adds itself to the sum. */
  lemma IpChecksumAdds(p: Ipv4Packet)
    requires p.versionIhl % 16 >= 3
    ensures Words(Header(p)) == Words(Header(p.(checksum := 0))) + p.checksum
  {
    var z, tail := p.(checksum := 0), HeaderTail(p);
    hide Header, HeaderTail, IpToVec, Words, IpBefore, Be16;
    HeaderParts(p);
    HeaderParts(z);
    assert HeaderTail(z) == tail && IpBefore(z) == IpBefore(p) by { SameAround(p); }
    WordsConcat(IpBefore(p), Be16(p.checksum) + tail);
    WordsConcat(IpBefore(p), Be16(0) + tail);
    WordsConcat(Be16(p.checksum), tail);
    WordsConcat(Be16(0), tail);
    Tcp.OneWord(p.checksum);
    Tcp.OneWord(0);
  }

  /** What the header covers after its checksum. */
  function HeaderTail(p: Ipv4Packet): seq<u8>
    requires p.versionIhl % 16 >= 3
  {
    (Octets(p.src) + Octets(p.dst) + p.data)[..|Header(p)| - 12]
  }

  lemma HeaderParts(p: Ipv4Packet)
    requires p.versionIhl % 16 >= 3
    ensures Header(p) == IpBefore(p) + (Be16(p.checksum) + HeaderTail(p))
  {
    var front, all := IpBefore(p) + Be16(p.checksum), Octets(p.src) + Octets(p.dst) + p.data;
    hide IpBefore, Be16, Octets;
    assert IpToVec(p) == front + all;
    assert (front + all)[..|Header(p)|] == front + all[..|Header(p)| - 12];
  }

  lemma SameAround(p: Ipv4Packet)
    requires p.versionIhl % 16 >= 3
    ensures HeaderTail(p.(checksum := 0)) == HeaderTail(p) && IpBefore(p.(checksum := 0)) == IpBefore(p)
  {
  }

  // ----- Ethernet

  datatype EthernetType = Ipv4 | Ipv6 | Arp | OtherType(x: u16) | PayloadLength(n: u16)

  function TypeBytes(t: EthernetType): (r: seq<u8>)
    ensures |r| == 2
  {
    match t
    case Ipv4 => [0x08, 0x00]
    case Ipv6 => [0x86, 0xdd]
    case Arp => [0x08, 0x06]
    case OtherType(x) => Be16(x)
    case PayloadLength(n) => Be16(n)
  }

  function TypeOf(h: u8, l: u8): EthernetType {
    var x := FromBe16(h, l);
    if x <= 0x05dc then PayloadLength(x)
    else if x == 0x0800 then Ipv4 else if x == 0x86dd then Ipv6 else if x == 0x0806 then Arp else OtherType(x)
  }

  /** A type comes back from its two bytes exactly when it is a name, a number without one, or a length of at most 1500. */
  lemma TypeRoundTrip(t: EthernetType)
    ensures var v := TypeBytes(t);
            TypeOf(v[0], v[1]) == t <==>
            match t
            case OtherType(x) => x > 1500 && x != 0x0800 && x != 0x86dd && x != 0x0806
            case PayloadLength(n) => n <= 1500
            case _ => true
  {
  }

  type Mac = s: seq<u8> | |s| == 6 witness [0, 0, 0, 0, 0, 0]

  datatype EthernetFrame = EthernetFrame(dst: Mac, src: Mac, ethType: EthernetType, payload: seq<u8>)

  /** The payload read by its type: an IPv4 packet or nothing. */
  function IpPayload(f: EthernetFrame): Result<seq<u8>, ParseError>
    requires f.ethType != Arp
  {
    if f.ethType != Ipv4 then Ok([])
    else match IpParse(f.payload) case Err(e) => Err(e) case Ok(p) => Ok(IpToVec(p))
  }

  /** Serialises the reread payload and pads the frame with zeros to at least 64 bytes. */
  function EthToVec(f: EthernetFrame): Result<seq<u8>, ParseError>
    requires f.ethType != Arp
  {
    match IpPayload(f)
    case Err(e) => Err(e)
    case Ok(payload) =>
      var body := f.dst + f.src + TypeBytes(f.ethType) + payload;
      Ok(body + seq(if |body| < 64 then 64 - |body| else 0, _ => 0))
  }

  function EthParse(v: seq<u8>): Result<EthernetFrame, ParseError> {
    if |v| < 14 then Err(InvalidBufferSize) else Ok(EthernetFrame(v[0..6], v[6..12], TypeOf(v[12], v[13]), v[14..]))
  }

  /** An IPv4 frame comes back with its packet and zero padding behind it. */
  lemma EthRoundTrip(dst: Mac, src: Mac, p: Ipv4Packet)
    requires PlainHeader(p)
    ensures var sent := EthToVec(EthernetFrame(dst, src, Ipv4, IpToVec(p)));
            && sent.Ok? && |sent.value| >= 64
            && sent.value[..6] == dst && sent.value[6..12] == src && sent.value[12..14] == [0x08, 0x00]
            && exists pad: seq<u8> :: EthParse(sent.value) == Ok(EthernetFrame(dst, src, Ipv4, IpToVec(p) + pad)) && forall i :: 0 <= i < |pad| ==> pad[i] == 0
  {
    hide IpToVec, IpParse, EthParse;
    var f := EthernetFrame(dst, src, Ipv4, IpToVec(p));
    IpRoundTrip(p, []);
    assert IpToVec(p) + [] == IpToVec(p);
    assert IpPayload(f) == Ok(IpToVec(p));
    var body := dst + src + TypeBytes(Ipv4) + IpToVec(p);
    var pad: seq<u8> := seq(if |body| < 64 then 64 - |body| else 0, _ => 0);
    assert EthToVec(f) == Ok(body + pad);
    FrameBytes(dst, src, IpToVec(p), pad);
  }

  lemma FrameBytes(dst: Mac, src: Mac, payload: seq<u8>, pad: seq<u8>)
    ensures EthParse(dst + src + TypeBytes(Ipv4) + payload + pad) == Ok(EthernetFrame(dst, src, Ipv4, payload + pad))
  {
    var v := dst + src + TypeBytes(Ipv4) + payload + pad;
    assert v[0..6] == dst && v[6..12] == src && v[12] == 0x08 && v[13] == 0x00;
    assert v[14..] == payload + pad;
  }

  // ----- all the way

  /** What the receiver reads out of a frame: the addresses and the segment. */
  datatype Received = Received(src: Ipv4Addr, dst: Ipv4Addr, segment: Tcp.TcpPacket)

  function Receive(v: seq<u8>): Option<Received> {
    match EthParse(v)
    case Err(_) => None
    case Ok(f) =>
      if f.ethType != Ipv4 then None
      else match IpParse(f.payload)
           case Err(_) => None
           case Ok(ip) =>
             if ip.protocol != Protocol.Tcp then None
             else match Tcp.Parse(ip.data) case Err(_) => None case Ok(s) => Some(Received(ip.src, ip.dst, s))
  }

  /**
   * Any segment with at most 40 bytes of options that fits an IPv4 packet, given
   * its checksum, wrapped in a plain IPv4 header and a padded frame, is read back
   * unchanged and passes the checksum test.
   */
  lemma SegmentSurvives(dstMac: Mac, srcMac: Mac, ip: Ipv4Packet, p: Tcp.TcpPacket, s: Tcp.TcpPacket)
    requires Tcp.WellFormed(p) && 20 + |Tcp.ToVec(p)| <= 0xffff
    requires s == Tcp.WithChecksum(p, ip.src, ip.dst)
    requires ip.data == Tcp.ToVec(s) && ip.protocol == Protocol.Tcp && PlainHeader(ip)
    ensures EthToVec(EthernetFrame(dstMac, srcMac, Ipv4, IpToVec(ip))).Ok?
    ensures Receive(EthToVec(EthernetFrame(dstMac, srcMac, Ipv4, IpToVec(ip))).value) == Some(Received(ip.src, ip.dst, s))
    ensures Tcp.Verify(s, ip.src, ip.dst)
  {
    Tcp.ChecksumVerifies(p, ip.src, ip.dst);
    assert Tcp.WellFormed(s);
    Tcp.ParseOfToVec(s);
    hide Tcp.Verify, Tcp.ToVec, Tcp.Parse, IpToVec, IpParse, EthToVec, EthParse, PlainHeader;
    EthRoundTrip(dstMac, srcMac, ip);
    var v := EthToVec(EthernetFrame(dstMac, srcMac, Ipv4, IpToVec(ip))).value;
    var pad: seq<u8> :| EthParse(v) == Ok(EthernetFrame(dstMac, srcMac, Ipv4, IpToVec(ip) + pad));
    IpRoundTrip(ip, pad);
  }

  /** The packet the sender puts a segment into. */
  function Wrapped(src: Ipv4Addr, dst: Ipv4Addr, id: u16, checksum: u16, s: Tcp.TcpPacket): Ipv4Packet
    requires 20 + |Tcp.ToVec(s)| <= 0xffff
  {
    NewIpv4(0x45, 0, id, 0, Protocol.Tcp, src, dst, Tcp.ToVec(s)).(checksum := checksum)
  }

  lemma WrappedIsPlain(src: Ipv4Addr, dst: Ipv4Addr, id: u16, checksum: u16, s: Tcp.TcpPacket)
    requires 20 + |Tcp.ToVec(s)| <= 0xffff
    ensures var ip := Wrapped(src, dst, id, checksum, s);
            && PlainHeader(ip) && ip.src == src && ip.dst == dst && ip.data == Tcp.ToVec(s) && ip.protocol == Protocol.Tcp
            && ip.versionIhl == 0x45 && ip.ttl == 64 && ip.id == id && ip.checksum == checksum
  {
  }

  lemma ChecksumKeepsLength(p: Tcp.TcpPacket, src: Ipv4Addr, dst: Ipv4Addr)
    ensures |Tcp.ToVec(Tcp.WithChecksum(p, src, dst))| == |Tcp.ToVec(p)| == 20 + |p.options| + |p.data|
  {
    hide Tcp.ToVec, Tcp.SegmentSum;
  }

  /** The frame that carries a segment from one host to another. */
  function FrameOf(dstMac: Mac, srcMac: Mac, src: Ipv4Addr, dst: Ipv4Addr, id: u16, checksum: u16, s: Tcp.TcpPacket): Result<seq<u8>, ParseError>
    requires 20 + |Tcp.ToVec(s)| <= 0xffff
  {
    EthToVec(EthernetFrame(dstMac, srcMac, Ipv4, IpToVec(Wrapped(src, dst, id, checksum, s))))
  }

  /**
   * A segment as the sender builds it, with at most 40 bytes of options, is read
   * back from the frame between the same addresses and with everything it was
   * built from, and passes the checksum test.
   */
  lemma BuiltSegmentSurvives(dstMac: Mac, srcMac: Mac, src: Ipv4Addr, dst: Ipv4Addr, id: u16, checksum: u16,
                             srcPort: u16, dstPort: u16, seqNum: u32, ackNum: u32, flags: u16, window: u16, urgent: u16,
                             options: seq<u8>, data: seq<u8>, p: Tcp.TcpPacket, s: Tcp.TcpPacket)
    requires |options| <= 40 && 20 + |Tcp.ToVec(p)| <= 0xffff
    requires p == Tcp.NewWith(srcPort, dstPort, seqNum, ackNum, flags, window, urgent, options, data)
    requires s == Tcp.WithChecksum(p, src, dst)
    ensures |Tcp.ToVec(s)| == |Tcp.ToVec(p)| && FrameOf(dstMac, srcMac, src, dst, id, checksum, s).Ok?
    ensures var r := Receive(FrameOf(dstMac, srcMac, src, dst, id, checksum, s).value);
            && r.Some? && r.value.src == src && r.value.dst == dst
            && Tcp.Built(r.value.segment, srcPort, dstPort, seqNum, ackNum, flags, window, urgent, options, data)
            && Tcp.Verify(r.value.segment, src, dst)
  {
    hide *;
    Tcp.NewWithFits(srcPort, dstPort, seqNum, ackNum, flags, window, urgent, options, data);
    Tcp.BuiltFields(srcPort, dstPort, seqNum, ackNum, flags, window, urgent, options, data);
    ChecksumKeepsLength(p, src, dst);
    BuiltWithChecksum(p, src, dst, srcPort, dstPort, seqNum, ackNum, flags, window, urgent, options, data);
    WrappedIsPlain(src, dst, id, checksum, s);
    SegmentSurvives(dstMac, srcMac, Wrapped(src, dst, id, checksum, s), p, s);
    FrameIs(dstMac, srcMac, src, dst, id, checksum, s);
  }

  lemma FrameIs(dstMac: Mac, srcMac: Mac, src: Ipv4Addr, dst: Ipv4Addr, id: u16, checksum: u16, s: Tcp.TcpPacket)
    requires 20 + |Tcp.ToVec(s)| <= 0xffff
    ensures FrameOf(dstMac, srcMac, src, dst, id, checksum, s) == EthToVec(EthernetFrame(dstMac, srcMac, Ipv4, IpToVec(Wrapped(src, dst, id, checksum, s))))
  {
  }

  lemma BuiltWithChecksum(p: Tcp.TcpPacket, src: Ipv4Addr, dst: Ipv4Addr, srcPort: u16, dstPort: u16, seqNum: u32, ackNum: u32,
                          flags: u16, window: u16, urgent: u16, options: seq<u8>, data: seq<u8>)
    requires Tcp.Built(p, srcPort, dstPort, seqNum, ackNum, flags, window, urgent, options, data)
    ensures Tcp.Built(Tcp.WithChecksum(p, src, dst), srcPort, dstPort, seqNum, ackNum, flags, window, urgent, options, data)
  {
    hide Tcp.ToVec, Tcp.SegmentSum;
  }
}
