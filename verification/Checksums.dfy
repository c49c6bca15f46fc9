/**
 * Big-endian fields and the Internet checksum (kernel/src/net/checksum.rs, RFC
 * 1071): the sum of 16-bit words, folded to 16 bits and complemented.
 */
module Checksums {
  import opened Basics

  type u16 = x: int | 0 <= x < 0x1_0000
  type u32 = x: int | 0 <= x < 0x1_0000_0000

  function Be16(x: u16): (r: seq<u8>)
    ensures |r| == 2 && FromBe16(r[0], r[1]) == x
  {
    [x / 0x100, x % 0x100]
  }

  function FromBe16(h: u8, l: u8): (r: u16)
    ensures r / 0x100 == h && r % 0x100 == l
  {
    h * 0x100 + l
  }

  function Be32(x: u32): (r: seq<u8>)
    ensures |r| == 4 && FromBe32(r[0], r[1], r[2], r[3]) == x
  {
    Be16(x / 0x1_0000) + Be16(x % 0x1_0000)
  }

  function FromBe32(a: u8, b: u8, c: u8, d: u8): (r: u32)
    ensures r / 0x1_0000 == FromBe16(a, b) && r % 0x1_0000 == FromBe16(c, d)
  {
    FromBe16(a, b) * 0x1_0000 + FromBe16(c, d)
  }

  /** What 32-bit arithmetic keeps of a sum. */
  function Wrap32(n: nat): u32 { n % 0x1_0000_0000 }

  lemma WrapSmall(n: nat)
    requires n < 0x1_0000_0000
    ensures Wrap32(n) == n
  {
  }

  lemma WrapSum(a: nat, b: nat)
    ensures Wrap32(Wrap32(b) + a) == Wrap32(a + b) == Wrap32(a + Wrap32(b))
  {
  }

  datatype ParseError = InvalidBufferSize | InvalidData

  // ----- the sum of words

  /** The exact sum of the 16-bit words, an odd last byte padded with zero. */
  function Words(data: seq<u8>): nat {
    if data == [] then 0
    else if |data| == 1 then FromBe16(data[0], 0)
    else FromBe16(data[0], data[1]) + Words(data[2..])
  }

  /** The same sum in 32-bit arithmetic that wraps around. */
  function ChecksumWords(data: seq<u8>, acc: u32): u32
    decreases |data|
  {
    if data == [] then acc
    else if |data| == 1 then Wrap32(acc + FromBe16(data[0], 0))
    else ChecksumWords(data[2..], Wrap32(acc + FromBe16(data[0], data[1])))
  }

  /** The sum is that of the bytes with an odd last one padded by zero, word by word from the left. */
  lemma {:induction false} OddIsPadded(data: seq<u8>)
    requires |data| % 2 == 1
    ensures Words(data) == Words(data + [0])
  {
    if |data| == 1 {
      assert (data + [0])[2..] == [];
    } else {
      assert (data + [0])[2..] == data[2..] + [0];
      OddIsPadded(data[2..]);
    }
  }

  lemma {:induction false} WordsConcat(a: seq<u8>, b: seq<u8>)
    requires |a| % 2 == 0
    ensures Words(a + b) == Words(a) + Words(b)
    decreases |a|
  {
    if a == [] {
      assert a + b == b;
    } else {
      assert (a + b)[2..] == a[2..] + b;
      WordsConcat(a[2..], b);
    }
  }

  lemma {:induction false} WordsBound(data: seq<u8>)
    ensures 2 * Words(data) <= (|data| + 1) * 0xffff
    decreases |data|
  {
    if |data| > 1 {
      WordsBound(data[2..]);
    }
  }

  /** The wrapping sum is the exact one modulo 2^32. */
  lemma {:induction false} ChecksumWordsMod(data: seq<u8>, acc: u32)
    ensures ChecksumWords(data, acc) == Wrap32(acc + Words(data))
    decreases |data|
  {
    hide FromBe16, Wrap32;
    if |data| <= 1 {
      WrapSmall(acc);
    } else {
      var w, rest := FromBe16(data[0], data[1]), Words(data[2..]);
      assert Words(data) == w + rest;
      ChecksumWordsMod(data[2..], Wrap32(acc + w));
      WrapSum(rest, acc + w);
    }
  }

  /** The wrapping sum is exact whenever the exact sum fits. */
  lemma ChecksumWordsExact(data: seq<u8>, acc: u32)
    requires acc + Words(data) < 0x1_0000_0000
    ensures ChecksumWords(data, acc) == acc + Words(data)
  {
    hide Words, ChecksumWords, Wrap32;
    ChecksumWordsMod(data, acc);
    WrapSmall(acc + Words(data));
  }

  // ----- folding

  /** The one's-complement value of a sum: zero only for zero. */
  function Folded(sum: nat): (r: u16)
    ensures r % 0xffff == sum % 0xffff && (r == 0 <==> sum == 0)
  {
    if sum == 0 then 0 else 1 + (sum - 1) % 0xffff
  }

  lemma FoldStep(sum: nat)
    requires sum >= 0x1_0000
    ensures var next := sum % 0x1_0000 + sum / 0x1_0000;
            0 < next < sum && Folded(next) == Folded(sum)
  {
    var low, high := sum % 0x1_0000, sum / 0x1_0000;
    assert sum - 1 == (low + high - 1) + 0xffff * high;
    AddMultiple(low + high - 1, high);
  }

  lemma AddMultiple(a: nat, k: nat)
    ensures (a + 0xffff * k) % 0xffff == a % 0xffff
  {
  }

  /** Adds the carries back in until the sum fits 16 bits, then complements it. */
  method FoldChecksum(start: u32) returns (r: u16)
    ensures r == 0xffff - Folded(start)
  {
    var sum: nat := start;
    while sum / 0x1_0000 > 0
      invariant Folded(sum) == Folded(start)
      decreases sum
    {
      FoldStep(sum);
      sum := sum % 0x1_0000 + sum / 0x1_0000;
    }
    assert sum > 0 ==> (sum - 1) % 0xffff == if sum - 1 == 0xffff then 0 else sum - 1;
    return 0xffff - sum;
  }

  /** The receiver's test on the folded sum accepts exactly the multiples of 65535. */
  lemma AcceptsMultiples(sum: nat)
    ensures 0xffff - Folded(sum) == 0xffff || 0xffff - Folded(sum) == 0 <==> sum % 0xffff == 0
  {
  }

  /** Adding the complement of the folded sum makes the sum a multiple of 65535. */
  lemma ComplementCompletes(sum: nat)
    ensures (sum + (0xffff - Folded(sum))) % 0xffff == 0
  {
  }

  datatype Ipv4Addr = Ipv4Addr(a: u8, b: u8, c: u8, d: u8)

  function Octets(x: Ipv4Addr): seq<u8> { [x.a, x.b, x.c, x.d] }

  lemma FourOctets(x: Ipv4Addr)
    ensures Words(Octets(x)) == FromBe16(x.a, x.b) + FromBe16(x.c, x.d)
  {
    assert Octets(x)[2..] == [x.c, x.d] && [x.c, x.d][2..] == [];
    assert Words([x.c, x.d]) == FromBe16(x.c, x.d) + Words([]);
  }

  function PseudoHeaderSum(src: Ipv4Addr, dst: Ipv4Addr, protocol: u8, len: nat): (r: nat)
    ensures r == Words(Octets(src) + Octets(dst)) + protocol + len
    ensures r <= 5 * 0xffff + len
  {
    WordsConcat(Octets(src), Octets(dst));
    FourOctets(src);
    FourOctets(dst);
    FromBe16(src.a, src.b) + FromBe16(src.c, src.d) + FromBe16(dst.a, dst.b) + FromBe16(dst.c, dst.d) + protocol + len
  }
}
