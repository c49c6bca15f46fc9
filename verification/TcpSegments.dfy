/**
 * TCP segments on the wire (kernel/src/net/tcp.rs, section 3.1 of RFC 9293):
 * building, serialising, parsing and the checksum over the pseudo header.
 */
module TcpSegments {
  import opened Basics
  import opened Checksums

  datatype TcpPacket = TcpPacket(srcPort: u16, dstPort: u16, seqNum: u32, ackNum: u32, flags: u16, window: u16,
                                 checksum: u16, urgent: u16, options: seq<u8>, data: seq<u8>)

  /** Builds a segment: the header length in words goes into the top four bits of the flags, options are padded to it. */
  function NewWith(srcPort: u16, dstPort: u16, seqNum: u32, ackNum: u32, flags: u16, window: u16, urgent: u16,
                   options: seq<u8>, data: seq<u8>): TcpPacket
    requires |options| <= 0xffff
  {
    TcpPacket(srcPort, dstPort, seqNum, ackNum, FlagsField(HeaderWords(|options|), flags), window, 0, urgent, Padded(options), data)
  }

  /** Four-byte words of a header with `n` bytes of options. */
  function HeaderWords(n: nat): (w: nat)
    ensures w >= 5 && 20 + n <= w * 4 < 24 + n
  {
    (20 + n + 3) / 4
  }

  /** The word count shifted above the twelve flag bits, in sixteen bits. */
  function FlagsField(words: nat, flags: u16): (r: u16)
    ensures r / 0x1000 == words % 16 && r % 0x1000 == flags % 0x1000
  {
    OffsetField(words, flags % 0x1000);
    (words * 0x1000) % 0x1_0000 + flags % 0x1000
  }

  function Padded(options: seq<u8>): (r: seq<u8>)
    ensures options <= r && 20 + |r| == HeaderWords(|options|) * 4
    ensures forall i :: |options| <= i < |r| ==> r[i] == 0
  {
    options + seq(HeaderWords(|options|) * 4 - 20 - |options|, _ => 0)
  }

  function Before(p: TcpPacket): (r: seq<u8>)
    ensures |r| == 16
  {
    Be16(p.srcPort) + Be16(p.dstPort) + Be32(p.seqNum) + Be32(p.ackNum) + Be16(p.flags) + Be16(p.window)
  }

  function ToVec(p: TcpPacket): (r: seq<u8>)
    ensures |r| == 20 + |p.options| + |p.data|
  {
    Before(p) + Be16(p.checksum) + Be16(p.urgent) + p.options + p.data
  }

  function Parse(v: seq<u8>): Result<TcpPacket, ParseError> {
    if |v| < 20 then Err(InvalidBufferSize)
    else
      var flags := FromBe16(v[12], v[13]);
      var words := flags / 0x1000;
      if words < 5 then Err(InvalidData)
      else if |v| < words * 4 then Err(InvalidBufferSize)
      else Ok(TcpPacket(FromBe16(v[0], v[1]), FromBe16(v[2], v[3]), FromBe32(v[4], v[5], v[6], v[7]),
                        FromBe32(v[8], v[9], v[10], v[11]), flags, FromBe16(v[14], v[15]), FromBe16(v[16], v[17]),
                        FromBe16(v[18], v[19]), v[20..words * 4], v[words * 4..]))
  }

  // ----- round trips

  /** The data offset in the flags agrees with the options carried. */
  predicate WellFormed(p: TcpPacket) { p.flags / 0x1000 >= 5 && 20 + |p.options| == p.flags / 0x1000 * 4 }

  /** A serialised segment parses back unchanged exactly when its data offset is right. */
  lemma ParseOfToVec(p: TcpPacket)
    ensures Parse(ToVec(p)) == Ok(p) <==> WellFormed(p)
  {
  }

  /** What was parsed serialises to the bytes it came from. */
  lemma ToVecOfParse(v: seq<u8>)
    requires Parse(v).Ok?
    ensures ToVec(Parse(v).value) == v && WellFormed(Parse(v).value)
  {
    hide FromBe16, FromBe32, Be16, Be32;
    var p := Parse(v).value;
    BackTo16(v[0], v[1]); BackTo16(v[2], v[3]); BackTo16(v[12], v[13]); BackTo16(v[14], v[15]); BackTo16(v[16], v[17]); BackTo16(v[18], v[19]);
    BackTo32(v[4], v[5], v[6], v[7]); BackTo32(v[8], v[9], v[10], v[11]);
    assert v == v[..20] + v[20..];
    assert v[20..] == p.options + p.data;
    assert v[..20] == Before(p) + Be16(p.checksum) + Be16(p.urgent);
  }

  lemma BackTo16(h: u8, l: u8)
    ensures Be16(FromBe16(h, l)) == [h, l]
  {
  }

  lemma BackTo32(a: u8, b: u8, c: u8, d: u8)
    ensures Be32(FromBe32(a, b, c, d)) == [a, b, c, d]
  {
    BackTo16(a, b);
    BackTo16(c, d);
  }

  /** Where each field lies on the wire, most significant byte first, as in section 3.1 of RFC 9293. */
  lemma WireLayout(p: TcpPacket)
    ensures var v := ToVec(p);
            && FromBe16(v[0], v[1]) == p.srcPort && FromBe16(v[2], v[3]) == p.dstPort
            && FromBe32(v[4], v[5], v[6], v[7]) == p.seqNum && FromBe32(v[8], v[9], v[10], v[11]) == p.ackNum
            && FromBe16(v[12], v[13]) == p.flags && FromBe16(v[14], v[15]) == p.window
            && FromBe16(v[16], v[17]) == p.checksum && FromBe16(v[18], v[19]) == p.urgent
            && v[20..] == p.options + p.data
  {
    hide FromBe16, FromBe32;
  }

  /** What a built segment carries: everything it was asked for, the flags below the offset, and no checksum yet. */
  lemma BuiltFields(srcPort: u16, dstPort: u16, seqNum: u32, ackNum: u32, flags: u16, window: u16, urgent: u16,
                    options: seq<u8>, data: seq<u8>)
    requires |options| <= 0xffff
    ensures Built(NewWith(srcPort, dstPort, seqNum, ackNum, flags, window, urgent, options, data),
                  srcPort, dstPort, seqNum, ackNum, flags, window, urgent, options, data)
    ensures NewWith(srcPort, dstPort, seqNum, ackNum, flags, window, urgent, options, data).checksum == 0
  {
  }

  /** The segment has the ports, numbers, window and data asked for, the twelve flag bits, and options that start with those given. */
  predicate Built(p: TcpPacket, srcPort: u16, dstPort: u16, seqNum: u32, ackNum: u32, flags: u16, window: u16, urgent: u16,
                  options: seq<u8>, data: seq<u8>) {
    && p.srcPort == srcPort && p.dstPort == dstPort && p.seqNum == seqNum && p.ackNum == ackNum
    && p.flags % 0x1000 == flags % 0x1000 && p.window == window && p.urgent == urgent
    && options <= p.options && (forall i :: |options| <= i < |p.options| ==> p.options[i] == 0) && p.data == data
  }

  /** A built segment is well formed exactly when its options fit the header: at most 40 bytes. */
  lemma NewWithFits(srcPort: u16, dstPort: u16, seqNum: u32, ackNum: u32, flags: u16, window: u16, urgent: u16,
                    options: seq<u8>, data: seq<u8>)
    requires |options| <= 0xffff
    ensures var p := NewWith(srcPort, dstPort, seqNum, ackNum, flags, window, urgent, options, data);
            && (WellFormed(p) <==> |options| <= 40)
            && (Parse(ToVec(p)) == Ok(p) <==> |options| <= 40)
            && options <= p.options && |p.options| % 4 == 0 && |p.options| < |options| + 4
  {
    var p := NewWith(srcPort, dstPort, seqNum, ackNum, flags, window, urgent, options, data);
    hide Parse, ToVec, FlagsField, HeaderWords, Padded, WellFormed;
    OffsetFits(|options|, HeaderWords(|options|), |p.options|);
    WellFormedMeans(p, HeaderWords(|options|));
    ParseOfToVec(p);
  }

  lemma WellFormedMeans(p: TcpPacket, words: nat)
    requires p.flags / 0x1000 == words % 16
    ensures WellFormed(p) <==> words % 16 >= 5 && 20 + |p.options| == words % 16 * 4
  {
  }

  lemma OffsetFits(n: nat, words: nat, len: nat)
    requires words >= 5 && 20 + n <= words * 4 < 24 + n && 20 + len == words * 4
    ensures (words % 16 >= 5 && 20 + len == words % 16 * 4) <==> n <= 40
    ensures len % 4 == 0 && len < n + 4
  {
  }

  lemma OffsetField(words: nat, low: nat)
    requires low < 0x1000
    ensures ((words * 0x1000) % 0x1_0000 + low) / 0x1000 == words % 16
    ensures ((words * 0x1000) % 0x1_0000 + low) % 0x1000 == low
  {
  }

  // ----- checksum

  /** The wrapping sum the sender complements and the receiver tests. */
  function SegmentSum(p: TcpPacket, src: Ipv4Addr, dst: Ipv4Addr): u32 {
    Wrap32(PseudoHeaderSum(src, dst, 6, |ToVec(p)|) + ChecksumWords(ToVec(p), 0))
  }

  /** The exact sum over pseudo header and segment. */
  function ExactSum(p: TcpPacket, src: Ipv4Addr, dst: Ipv4Addr): nat {
    PseudoHeaderSum(src, dst, 6, |ToVec(p)|) + Words(ToVec(p))
  }

  predicate Verify(p: TcpPacket, src: Ipv4Addr, dst: Ipv4Addr) {
    var checksum := 0xffff - Folded(SegmentSum(p, src, dst));
    checksum == 0xffff || checksum == 0
  }

  function WithChecksum(p: TcpPacket, src: Ipv4Addr, dst: Ipv4Addr): TcpPacket {
    p.(checksum := 0xffff - Folded(SegmentSum(p.(checksum := 0), src, dst)))
  }

  /** In 32 bits the sum is the exact one modulo 2^32. */
  lemma SumIsExactMod(p: TcpPacket, src: Ipv4Addr, dst: Ipv4Addr)
    ensures SegmentSum(p, src, dst) == Wrap32(ExactSum(p, src, dst))
  {
    hide ToVec, Words, ChecksumWords, PseudoHeaderSum, Wrap32;
    var v := ToVec(p);
    ChecksumWordsMod(v, 0);
    WrapSum(PseudoHeaderSum(src, dst, 6, |v|), Words(v));
  }

  lemma SumIsExact(p: TcpPacket, src: Ipv4Addr, dst: Ipv4Addr)
    requires |ToVec(p)| <= 0xffff
    ensures SegmentSum(p, src, dst) == ExactSum(p, src, dst)
  {
    hide ToVec, Words, SegmentSum, Wrap32;
    WordsBound(ToVec(p));
    SumIsExactMod(p, src, dst);
    WrapSmall(ExactSum(p, src, dst));
  }

  /**
   * A segment is accepted exactly when its 32-bit sum over words and pseudo
   * header is a multiple of 65535; up to the largest IPv4 packet that is the
   * exact sum.
   */
  lemma VerifyMeans(p: TcpPacket, src: Ipv4Addr, dst: Ipv4Addr)
    ensures Verify(p, src, dst) <==> SegmentSum(p, src, dst) % 0xffff == 0
    ensures |ToVec(p)| <= 0xffff ==> (Verify(p, src, dst) <==> ExactSum(p, src, dst) % 0xffff == 0)
  {
    hide ToVec, SegmentSum, ExactSum;
    AcceptsMultiples(SegmentSum(p, src, dst));
    if |ToVec(p)| <= 0xffff {
      SumIsExact(p, src, dst);
    }
  }

  /** The checksum field adds itself to the sum. */
  lemma ChecksumAdds(p: TcpPacket, src: Ipv4Addr, dst: Ipv4Addr)
    ensures ExactSum(p, src, dst) == ExactSum(p.(checksum := 0), src, dst) + p.checksum
  {
    var z := p.(checksum := 0);
    var tail := Be16(p.urgent) + p.options + p.data;
    assert ToVec(p) == Before(p) + (Be16(p.checksum) + tail);
    assert ToVec(z) == Before(p) + (Be16(0) + tail);
    WordsConcat(Before(p), Be16(p.checksum) + tail);
    WordsConcat(Before(p), Be16(0) + tail);
    WordsConcat(Be16(p.checksum), tail);
    WordsConcat(Be16(0), tail);
    OneWord(p.checksum);
    OneWord(0);
    hide ToVec, Words, Before, PseudoHeaderSum;
  }

  lemma OneWord(x: u16)
    ensures Words(Be16(x)) == x
  {
  }

  /** The sender's checksum always passes the receiver's test: adding it never wraps the 32-bit sum. */
  lemma ChecksumVerifies(p: TcpPacket, src: Ipv4Addr, dst: Ipv4Addr)
    ensures Verify(WithChecksum(p, src, dst), src, dst)
  {
    hide ExactSum, SegmentSum, ToVec, Folded, Verify, Wrap32;
    var z, q := p.(checksum := 0), WithChecksum(p, src, dst);
    var sum := SegmentSum(z, src, dst);
    assert q.(checksum := 0) == z;
    SumGrows(q, src, dst);
    VerifyMeans(q, src, dst);
    CompletesWithoutWrap(sum, q.checksum);
  }

  lemma SumGrows(q: TcpPacket, src: Ipv4Addr, dst: Ipv4Addr)
    ensures SegmentSum(q, src, dst) == Wrap32(q.checksum + SegmentSum(q.(checksum := 0), src, dst))
  {
    hide ExactSum, SegmentSum, ToVec, Wrap32;
    var z := q.(checksum := 0);
    SumIsExactMod(z, src, dst);
    SumIsExactMod(q, src, dst);
    ChecksumAdds(q, src, dst);
    WrapSum(q.checksum, ExactSum(z, src, dst));
  }

  /** 2^32 - 1 is a multiple of 65535, so completing a 32-bit sum to a multiple stays in 32 bits. */
  lemma CompletesWithoutWrap(sum: nat, c: nat)
    requires sum < 0x1_0000_0000 && c == 0xffff - Folded(sum)
    ensures Wrap32(c + sum) % 0xffff == 0
  {
    ComplementCompletes(sum);
    assert sum + c < 0x1_0000_0000;
    WrapSmall(sum + c);
    hide Folded, Wrap32;
  }

  /** The two calls as they run, with the carry-folding loop. */
  method CalcChecksumWithIpv4(p: TcpPacket, src: Ipv4Addr, dst: Ipv4Addr) returns (q: TcpPacket)
    ensures q == WithChecksum(p, src, dst)
    ensures Verify(q, src, dst)
  {
    ChecksumVerifies(p, src, dst);
    hide ToVec, Words, ChecksumWords, PseudoHeaderSum, Folded, Verify;
    var packet := ToVec(p.(checksum := 0));
    var checksum := FoldChecksum(Wrap32(PseudoHeaderSum(src, dst, 6, |packet|) + ChecksumWords(packet, 0)));
    return p.(checksum := checksum);
  }

  method VerifyChecksumWithIpv4(p: TcpPacket, src: Ipv4Addr, dst: Ipv4Addr) returns (ok: bool)
    ensures ok <==> SegmentSum(p, src, dst) % 0xffff == 0
    ensures |ToVec(p)| <= 0xffff ==> (ok <==> ExactSum(p, src, dst) % 0xffff == 0)
  {
    VerifyMeans(p, src, dst);
    assert Wrap32(PseudoHeaderSum(src, dst, 6, |ToVec(p)|) + ChecksumWords(ToVec(p), 0)) == SegmentSum(p, src, dst);
    hide SegmentSum, ExactSum, ToVec, Words, ChecksumWords, PseudoHeaderSum, Folded;
    var packet := ToVec(p);
    var checksum := FoldChecksum(Wrap32(PseudoHeaderSum(src, dst, 6, |packet|) + ChecksumWords(packet, 0)));
    return checksum == 0xffff || checksum == 0;
  }
}
