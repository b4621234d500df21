/** SHA-1 as FIPS 180-4 defines it: padding (section 5.1.1), initial value (5.3.1), functions and
    constants (4.1.1, 4.2.1) and the computation of a block (6.1.2). */
module Sha1Standard {
  /** A 32-bit word and the operations on it. Addition is modulo 2^32. */
  datatype Word = Word(bits: bv32)

  function Plus(x: Word, y: Word): Word { Word(x.bits + y.bits) }
  function Xor(x: Word, y: Word): Word { Word(x.bits ^ y.bits) }

  datatype Digest = Digest(a: Word, b: Word, c: Word, d: Word, e: Word)

  const INITIAL := Digest(Word(0x67452301), Word(0xEFCDAB89), Word(0x98BADCFE), Word(0x10325476), Word(0xC3D2E1F0))

  /** ROTL by 1, 5 and 30 bits. */
  function RotL1(x: Word): Word { Word((x.bits << 1) | (x.bits >> 31)) }
  function RotL5(x: Word): Word { Word((x.bits << 5) | (x.bits >> 27)) }
  function RotL30(x: Word): Word { Word((x.bits << 30) | (x.bits >> 2)) }

  function Ch(x: Word, y: Word, z: Word): Word { Word(ChBits(x.bits, y.bits, z.bits)) }
  function Parity(x: Word, y: Word, z: Word): Word { Word(x.bits ^ y.bits ^ z.bits) }
  function Maj(x: Word, y: Word, z: Word): Word { Word(MajBits(x.bits, y.bits, z.bits)) }

  function ChBits(x: bv32, y: bv32, z: bv32): bv32 { (x & y) ^ (!x & z) }
  function MajBits(x: bv32, y: bv32, z: bv32): bv32 { (x & y) ^ (x & z) ^ (y & z) }

  function F(t: nat, x: Word, y: Word, z: Word): Word {
    if t < 20 then Ch(x, y, z) else if t < 40 then Parity(x, y, z) else if t < 60 then Maj(x, y, z) else Parity(x, y, z)
  }

  function K(t: nat): Word {
    if t < 20 then Word(0x5A827999) else if t < 40 then Word(0x6ED9EBA1) else if t < 60 then Word(0x8F1BBCDC)
        else Word(0xCA62C1D6)
  }

  /** Four bytes, the most significant first. */
  function BigEndian(p: bv8, q: bv8, r: bv8, s: bv8): Word {
    Word(((((p as bv32) << 24) | ((q as bv32) << 16)) | ((r as bv32) << 8)) | (s as bv32))
  }

  /** The message schedule. */
  function W(block: seq<bv8>, t: nat): Word
    requires |block| == 64
  {
    if t < 16 then BigEndian(block[4 * t], block[4 * t + 1], block[4 * t + 2], block[4 * t + 3])
    else RotL1(Xor(Xor(Xor(W(block, t - 3), W(block, t - 8)), W(block, t - 14)), W(block, t - 16)))
  }

  /** One round. */
  function Round(v: Digest, t: nat, w: Word): Digest {
    Digest(Plus(Plus(Plus(Plus(RotL5(v.a), F(t, v.b, v.c, v.d)), v.e), K(t)), w), v.a, RotL30(v.b), v.c, v.d)
  }

  /** The working variables after `t` rounds. */
  function Rounds(h: Digest, block: seq<bv8>, t: nat): Digest
    requires |block| == 64
  {
    if t == 0 then h else Round(Rounds(h, block, t - 1), t - 1, W(block, t - 1))
  }

  /** The next intermediate hash value. */
  function HashBlock(h: Digest, block: seq<bv8>): Digest
    requires |block| == 64
  {
    var v := Rounds(h, block, 80);
    Digest(Plus(h.a, v.a), Plus(h.b, v.b), Plus(h.c, v.c), Plus(h.d, v.d), Plus(h.e, v.e))
  }

  /** The hash value after all the blocks. */
  function HashBlocks(data: seq<bv8>): Digest
    requires |data| % 64 == 0
    decreases |data|
  {
    if data == [] then INITIAL else HashBlock(HashBlocks(data[..|data| - 64]), data[|data| - 64..])
  }

  function Zeros(n: nat): seq<bv8> { seq(n, _ => 0) }

  /** The number of zero bytes that leaves the last eight of a block for the length. */
  function ZeroCount(n: nat): (k: nat)
    ensures k < 64 && (n + 1 + k) % 64 == 56
  {
    var r := (n + 1) % 64;
    var k := if r <= 56 then 56 - r else 120 - r;
    assert n + 1 == 64 * ((n + 1) / 64) + r;
    assert r > 56 ==> n + 1 + k == 64 * ((n + 1) / 64 + 1) + 56;
    k
  }

  /** No smaller number does. */
  lemma ZeroCountLeast(n: nat, j: nat)
    requires (n + 1 + j) % 64 == 56
    ensures ZeroCount(n) <= j
  {
  }

  /** Eight bytes for the length in bits. */
  function Length64(bits: nat): (r: seq<bv8>)
    ensures |r| == 8
  {
    [Octet(bits / 0x100000000000000), Octet(bits / 0x1000000000000), Octet(bits / 0x10000000000),
        Octet(bits / 0x100000000),
     Octet(bits / 0x1000000), Octet(bits / 0x10000), Octet(bits / 0x100), Octet(bits)]
  }

  /** The low eight bits of a number. */
  function Octet(n: nat): bv8 {
    Bit(n, 1, 0x01) | Bit(n, 2, 0x02) | Bit(n, 4, 0x04) | Bit(n, 8, 0x08)
    | Bit(n, 16, 0x10) | Bit(n, 32, 0x20) | Bit(n, 64, 0x40) | Bit(n, 128, 0x80)
  }

  function Bit(n: nat, d: nat, b: bv8): bv8
    requires d > 0
  {
    if n / d % 2 == 1 then b else 0
  }

  function Pad(message: seq<bv8>): (data: seq<bv8>)
    ensures |data| % 64 == 0
  {
    PadFits(|message|);
    message + Padding(|message|)
  }

  /** What is appended to a message of `n` bytes. */
  function Padding(n: nat): (r: seq<bv8>)
    ensures |r| == ZeroCount(n) + 9
  {
    [0x80] + Zeros(ZeroCount(n)) + Length64(8 * n)
  }

  lemma PadFits(n: nat)
    ensures (n + (ZeroCount(n) + 9)) % 64 == 0
  {
  }

  /** The digest of a message. */
  function Sha1(message: seq<bv8>): Digest {
    HashBlocks(Pad(message))
  }
}
