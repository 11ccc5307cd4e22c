/** The Internet checksum as computed in src/kernel/network_manager/tcp.rs and ipv4.rs (section 1 of RFC 1071,
    section 3.1 of RFC 9293). */
module Checksum {
  type Byte = b: nat | b < 256

  type Word = w: nat | w < 0x1_0000

  /** u16::from_be_bytes. */
  function BigEndian(hi: Byte, lo: Byte): Word {
    var h: nat := hi;
    h * 256 + lo
  }

  /** Big-endian 16-bit words, an odd last byte padded with zero, added up without any limit. */
  function WordSum(b: seq<Byte>): nat {
    if |b| == 0 then 0 else if |b| == 1 then BigEndian(b[0], 0) else BigEndian(b[0], b[1]) + WordSum(b[2..])
  }

  /** The ones'-complement sum that stands for a total: zero only for zero, else the residue in 1..0xFFFF. */
  function Ones(total: nat): Word { if total == 0 then 0 else (total - 1) % 0xFFFF + 1 }

  /** One round: 16-bit addition, then the carry is added back, which cannot overflow again. */
  function AddWord(c: Word, w: Word): Word {
    var sum := c + w;
    sum % 0x1_0000 + (if sum >= 0x1_0000 then 1 else 0)
  }

  lemma AddWordIsOnes(total: nat, w: Word)
    ensures AddWord(Ones(total), w) == Ones(total + w)
  {
  }

  lemma {:induction false} WordSumSplit(b: seq<Byte>, i: nat)
    requires 2 * i <= |b|
    ensures WordSum(b) == WordSum(b[..2 * i]) + WordSum(b[2 * i..])
  {
    if i > 0 {
      WordSumSplit(b[2..], i - 1);
      assert b[2..][..2 * (i - 1)] == b[..2 * i][2..];
      assert b[2..][2 * (i - 1)..] == b[2 * i..];
    } else {
      assert b[0..] == b;
    }
  }

  lemma WordSumNext(b: seq<Byte>, i: nat)
    requires 2 * i + 1 < |b|
    ensures WordSum(b[..2 * (i + 1)]) == WordSum(b[..2 * i]) + BigEndian(b[2 * i], b[2 * i + 1])
  {
    var c := b[..2 * (i + 1)];
    WordSumSplit(c, i);
    assert c[..2 * i] == b[..2 * i];
    assert c[2 * i..] == [b[2 * i], b[2 * i + 1]];
  }

  /** calc_checksum: the running sum stands for everything added so far. */
  method CalcChecksum(buffer: seq<Byte>, checksum: Word, ghost total: nat) returns (r: Word)
    requires checksum == Ones(total)
    ensures r == Ones(total + WordSum(buffer))
  {
    hide Ones, AddWord;
    r := checksum;
    for i := 0 to |buffer| / 2
      invariant r == Ones(total + WordSum(buffer[..2 * i]))
    {
      WordSumNext(buffer, i);
      AddWordIsOnes(total + WordSum(buffer[..2 * i]), BigEndian(buffer[2 * i], buffer[2 * i + 1]));
      r := AddWord(r, BigEndian(buffer[2 * i], buffer[2 * i + 1]));
    }
    var n := |buffer| / 2;
    WordSumSplit(buffer, n);
    if |buffer| % 2 != 0 {
      assert buffer[2 * n..] == [buffer[|buffer| - 1]];
      AddWordIsOnes(total + WordSum(buffer[..2 * n]), BigEndian(buffer[|buffer| - 1], 0));
      r := AddWord(r, BigEndian(buffer[|buffer| - 1], 0));
    } else {
      assert buffer[2 * n..] == [];
    }
  }

  // ---------------------------------------------------------------- storing the checksum

  lemma {:induction false} WordSumSet(b: seq<Byte>, k: nat, hi: Byte, lo: Byte)
    requires 2 * k + 1 < |b| && b[2 * k] == 0 && b[2 * k + 1] == 0
    ensures WordSum(b[2 * k := hi][2 * k + 1 := lo]) == WordSum(b) + BigEndian(hi, lo)
  {
    var c := b[2 * k := hi][2 * k + 1 := lo];
    if k > 0 {
      WordSumSet(b[2..], k - 1, hi, lo);
      assert c[2..] == b[2..][2 * (k - 1) := hi][2 * (k - 1) + 1 := lo];
    } else {
      assert c[2..] == b[2..];
    }
  }

  /** Adding the complement of the sum gives 0xFFFF: the check of the receiver. */
  lemma ComplementSums(total: nat)
    ensures Ones(total + (0xFFFF - Ones(total))) == 0xFFFF
  {
  }

  function HighByte(w: Word): Byte { w / 256 }

  function LowByte(w: Word): (b: Byte)
    ensures BigEndian(HighByte(w), b) == w
  {
    w % 256
  }

  /** Writing the complement into the cleared checksum field at word `k`. */
  method Store(header: array<Byte>, k: nat, sum: Word, ghost rest: nat)
    requires 2 * k + 1 < header.Length && header[2 * k] == 0 && header[2 * k + 1] == 0 &&
      sum == Ones(WordSum(header[..]) + rest)
    modifies header
    ensures Ones(WordSum(header[..]) + rest) == 0xFFFF
    ensures forall i :: 0 <= i < header.Length && i != 2 * k && i != 2 * k + 1 ==> header[i] == old(header[i])
    ensures BigEndian(header[2 * k], header[2 * k + 1]) == 0xFFFF - sum
  {
    hide Ones, WordSum, BigEndian;
    ghost var b: seq<Byte> := header[..];
    var hi: Byte, lo: Byte := HighByte(0xFFFF - sum), LowByte(0xFFFF - sum);
    WordSumSet(b, k, hi, lo);
    ComplementSums(WordSum(b) + rest);
    header[2 * k] := hi;
    header[2 * k + 1] := lo;
    assert header[..] == b[2 * k := hi][2 * k + 1 := lo];
  }

  const IPV4_PROTOCOL_TCP: Byte := 6

  function Word16(w: Word): seq<Byte> { [HighByte(w), LowByte(w)] }

  function Word32(a: nat): seq<Byte>
    requires a < 0x1_0000_0000
  {
    Word16(a / 0x1_0000) + Word16(a % 0x1_0000)
  }

  function PseudoHeader(sender: nat, destination: nat, length: Word): seq<Byte>
    requires sender < 0x1_0000_0000 && destination < 0x1_0000_0000
  {
    Word32(sender) + Word32(destination) + [0, IPV4_PROTOCOL_TCP] + Word16(length)
  }

  /** The number that the bytes spell in network order. */
  function Spelled(b: seq<Byte>): nat { if b == [] then 0 else Spelled(b[..|b| - 1]) * 256 + b[|b| - 1] }

  /** The pseudo-header of section 3.1 of RFC 9293: addresses, a zero byte, protocol 6 and the TCP length. */
  ghost predicate IsPseudoHeader(b: seq<Byte>, sender: nat, destination: nat, length: nat) {
    && |b| == 12 && Spelled(b[..4]) == sender && Spelled(b[4..8]) == destination
    && b[8] == 0 && b[9] == 6 && Spelled(b[10..]) == length
  }

  lemma SpelledTwo(x: Byte, y: Byte)
    ensures Spelled([x, y]) == BigEndian(x, y)
  {
    assert [x, y][..1] == [x] && [x][..0] == [];
    assert Spelled([x]) == Spelled([]) * 256 + x;
  }

  lemma SpelledFour(b: seq<Byte>)
    requires |b| == 4
    ensures Spelled(b) == BigEndian(b[0], b[1]) * 0x1_0000 + BigEndian(b[2], b[3])
  {
    SpelledTwo(b[0], b[1]);
    assert b[..2] == [b[0], b[1]] && b[..3][..2] == b[..2];
    assert Spelled(b[..3]) == Spelled(b[..2]) * 256 + b[2];
  }

  lemma Word32Spells(a: nat)
    requires a < 0x1_0000_0000
    ensures |Word32(a)| == 4 && Spelled(Word32(a)) == a
  {
    SpelledFour(Word32(a));
  }

  lemma PseudoHeaderHolds(sender: nat, destination: nat, length: Word)
    requires sender < 0x1_0000_0000 && destination < 0x1_0000_0000
    ensures IsPseudoHeader(PseudoHeader(sender, destination, length), sender, destination, length)
  {
    hide Word32, Spelled;
    Word32Spells(sender);
    Word32Spells(destination);
    var h := PseudoHeader(sender, destination, length);
    assert h[..4] == Word32(sender) && h[4..8] == Word32(destination) && h[10..] == Word16(length);
    SpelledTwo(HighByte(length), LowByte(length));
  }

  /** set_checksum_ipv4: the receiver's sum over pseudo-header, header and zero-padded payload is 0xFFFF. */
  method SetChecksumIpv4(header: array<Byte>, data: seq<Byte>, sender: nat, destination: nat)
    requires sender < 0x1_0000_0000 && destination < 0x1_0000_0000
    requires header.Length >= 20 && |data| + header.Length < 0x1_0000
    modifies header
    ensures var pseudo := PseudoHeader(sender, destination, |data| + header.Length);
      && IsPseudoHeader(pseudo, sender, destination, |data| + header.Length)
      && Ones(WordSum(pseudo) + WordSum(header[..]) + WordSum(data)) == 0xFFFF
    ensures forall i :: 0 <= i < header.Length && i != 16 && i != 17 ==> header[i] == old(header[i])
  {
    hide Ones, PseudoHeader, IsPseudoHeader;
    PseudoHeaderHolds(sender, destination, |data| + header.Length);
    header[16], header[17] := 0, 0;
    var pseudo := PseudoHeader(sender, destination, |data| + header.Length);
    ghost var p, h, d := WordSum(pseudo), WordSum(header[..]), WordSum(data);
    ZeroSum();
    var sum := CalcChecksum(pseudo, 0, 0);
    sum := CalcChecksum(header[..], sum, p);
    sum := CalcChecksum(data, sum, p + h);
    assert p + h + d == h + (p + d);
    Store(header, 8, sum, p + d);
  }

  lemma ZeroSum()
    ensures Ones(0) == 0 && WordSum([]) == 0
  {
  }

  /** DefaultIpv4Packet::set_checksum, on the 20 bytes of the header. */
  method SetIpv4HeaderChecksum(header: array<Byte>)
    requires header.Length == 20
    modifies header
    ensures Ones(WordSum(header[..])) == 0xFFFF
    ensures forall i :: 0 <= i < header.Length && i != 10 && i != 11 ==> header[i] == old(header[i])
  {
    hide Ones, AddWord, WordSum, BigEndian;
    header[10], header[11] := 0, 0;
    ghost var b := header[..];
    ZeroSum();
    var sum: Word := 0;
    assert b[..0] == [];
    for i := 0 to 10
      invariant header[..] == b && sum == Ones(WordSum(b[..2 * i]))
    {
      WordSumNext(b, i);
      AddWordIsOnes(WordSum(b[..2 * i]), BigEndian(b[2 * i], b[2 * i + 1]));
      sum := AddWord(sum, BigEndian(header[2 * i], header[2 * i + 1]));
    }
    assert b[..20] == b;
    Store(header, 5, sum, 0);
  }
}
