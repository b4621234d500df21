/** The streaming SHA-1 of the program: bytes come one at a time, and every 64 of them are hashed. */
module Sha1 {
  import opened Sha1Standard

  /* ---- the program's formulas are the standard's ---- */

  function LeftRotate1(x: Word): Word { Word((x.bits << 1) ^ (x.bits >> 31)) }
  function LeftRotate5(x: Word): Word { Word((x.bits << 5) ^ (x.bits >> 27)) }
  function LeftRotate30(x: Word): Word { Word((x.bits << 30) ^ (x.bits >> 2)) }

  function Choose(b: Word, c: Word, d: Word): Word { Word(ChooseBits(b.bits, c.bits, d.bits)) }
  function Majority(b: Word, c: Word, d: Word): Word { Word(MajorityBits(b.bits, c.bits, d.bits)) }

  function ChooseBits(b: bv32, c: bv32, d: bv32): bv32 { (b & c) | (!b & d) }
  function MajorityBits(b: bv32, c: bv32, d: bv32): bv32 { (b & c) | (b & d) | (c & d) }

  /** Shifted apart, the two parts of a word share no bit: or and exclusive or are the same. */
  lemma RotationsAgree(x: Word)
    ensures LeftRotate1(x) == RotL1(x) && LeftRotate5(x) == RotL5(x) && LeftRotate30(x) == RotL30(x)
  {
  }

  /** Choosing bits with or is choosing them with exclusive or. */
  lemma ChoicesAgree(b: Word, c: Word, d: Word)
    ensures Choose(b, c, d) == Ch(b, c, d) && Majority(b, c, d) == Maj(b, c, d)
  {
    hide ChooseBits, MajorityBits, ChBits, MajBits;
    ChoiceBits(b.bits, c.bits, d.bits);
    MajBitsAgree(b.bits, c.bits, d.bits);
  }

  lemma ChoiceBits(b: bv32, c: bv32, d: bv32)
    ensures ChooseBits(b, c, d) == ChBits(b, c, d)
  {
    assert (b & c) | (!b & d) == (b & c) ^ (!b & d);
  }

  lemma MajBitsAgree(b: bv32, c: bv32, d: bv32)
    ensures MajorityBits(b, c, d) == MajBits(b, c, d)
  {
    assert (b & c) | (b & d) | (c & d) == (b & c) ^ (b & d) ^ (c & d);
  }

  function Byte3(w: Word): bv8 { ((w.bits >> 24) & 0xFF) as bv8 }
  function Byte2(w: Word): bv8 { ((w.bits >> 16) & 0xFF) as bv8 }
  function Byte1(w: Word): bv8 { ((w.bits >> 8) & 0xFF) as bv8 }
  function Byte0(w: Word): bv8 { (w.bits & 0xFF) as bv8 }

  /** The four bytes of a word, put together again, are the word. */
  lemma BytesOfWord(w: Word)
    ensures BigEndian(Byte3(w), Byte2(w), Byte1(w), Byte0(w)) == w
  {
  }

  /* ---- the class ---- */

  class SHA1 {
    const digest: array<Word>
    const block: array<bv8>
    var blockByteIndex: nat
    var byteCount: nat
    /** The bytes processed so far. */
    ghost var message: seq<bv8>

    ghost predicate Valid()
      reads this, digest, block
    {
      && digest.Length == 5 && block.Length == 64
      && byteCount == |message| && blockByteIndex == |message| % 64 && blockByteIndex <= |message|
      && Value() == HashBlocks(Whole(message))
      && block[..blockByteIndex] == message[|message| - blockByteIndex..]
    }

    function Value(): Digest
      requires digest.Length == 5
      reads digest
    {
      Digest(digest[0], digest[1], digest[2], digest[3], digest[4])
    }

    constructor ()
      ensures Valid() && fresh(digest) && fresh(block) && message == []
    {
      var d := new Word[5](_ => Word(0));
      var b := new bv8[64](_ => 0);
      digest, block := d, b;
      new;
      Reset();
    }

    method Reset()
      requires digest.Length == 5 && block.Length == 64
      modifies this, digest
      ensures Valid() && message == []
    {
      digest[0] := Word(0x67452301);
      digest[1] := Word(0xEFCDAB89);
      digest[2] := Word(0x98BADCFE);
      digest[3] := Word(0x10325476);
      digest[4] := Word(0xC3D2E1F0);
      blockByteIndex, byteCount, message := 0, 0, [];
    }

    method ProcessByte(octet: bv8)
      requires Valid()
      modifies this, digest, block
      ensures Valid() && message == old(message) + [octet]
    {
      hide HashBlocks, Whole;
      ghost var was := message;
      StoreByte(octet);
      OneMoreByte(was, octet);
      if blockByteIndex == 64 {
        blockByteIndex := 0;
        assert block[..] == message[|message| - 64..];
        ProcessBlock();
        BlockDone(was, octet);
        assert block[..0] == message[|message|..];
      }
    }

    /** The byte goes to the next place of the block. */
    method StoreByte(octet: bv8)
      requires block.Length == 64 && blockByteIndex < 64
      modifies this`blockByteIndex, this`byteCount, this`message, block
      ensures blockByteIndex == old(blockByteIndex) + 1 && byteCount == old(byteCount) + 1
      ensures message == old(message) + [octet]
      ensures block[..blockByteIndex] == old(block[..blockByteIndex]) + [octet]
    {
      block[blockByteIndex] := octet;
      blockByteIndex := blockByteIndex + 1;
      byteCount := byteCount + 1;
      message := message + [octet];
    }

    method ProcessBytes(data: seq<bv8>)
      requires Valid()
      modifies this, digest, block
      ensures Valid() && message == old(message) + data
    {
      hide HashBlocks, Whole;
      var begin := 0;
      assert message + data[..0] == message;
      while begin != |data|
        invariant begin <= |data| && Valid() && message == old(message) + data[..begin]
        decreases |data| - begin
      {
        ProcessByte(data[begin]);
        assert data[..begin + 1] == data[..begin] + [data[begin]];
        begin := begin + 1;
      }
      assert data[..begin] == data;
    }

    /** Pads the message and gives its digest. The length is written as 32 bits, after four zero bytes. */
    method GetDigest() returns (d: Digest)
      requires Valid()
      modifies this, digest, block
      ensures Valid() && message == old(message) + ProgramPadding(|old(message)|)
      ensures |message| % 64 == 0 && d == HashBlocks(message)
      ensures |old(message)| < 0x2000_0000 ==> d == Sha1(old(message))
    {
      hide HashBlocks, Whole, Padding, Sha1Standard.Sha1, ProgramPadding, Zeros, ZeroCount, Length32;
      ghost var was, n := message, |message|;
      var bitCount := byteCount * 8;
      ProcessByte(0x80);
      if blockByteIndex > 56 {
        FillBlock();
        FillTo56();
      } else {
        FillTo56();
      }
      ZerosCounted(n, message, was);
      WriteLength(bitCount);
      PaddedAs(was, message);
      d := Value();
      if n < 0x2000_0000 {
        PaddingsAgree(n);
        ShaIs(was);
      }
    }

    method FillBlock()
      requires Valid() && blockByteIndex > 0
      modifies this, digest, block
      ensures Valid() && blockByteIndex == 0
      ensures message == old(message) + Zeros(64 - old(blockByteIndex))
    {
      hide HashBlocks, Whole;
      ghost var j, i0, m0 := 0, blockByteIndex, message;
      assert message == m0 + Zeros(0);
      while blockByteIndex != 0
        invariant Valid() && j <= 64 - i0 && message == m0 + Zeros(j)
        invariant blockByteIndex == if j < 64 - i0 then i0 + j else 0
        decreases 64 - i0 - j
      {
        assert Zeros(j + 1) == Zeros(j) + [0];
        NextIndex(|message|);
        ProcessByte(0);
        j := j + 1;
      }
    }

    method FillTo56()
      requires Valid() && blockByteIndex <= 56
      modifies this, digest, block
      ensures Valid() && blockByteIndex == 56
      ensures message == old(message) + Zeros(56 - old(blockByteIndex))
    {
      hide HashBlocks, Whole;
      ghost var j, i0, m0 := 0, blockByteIndex, message;
      assert message == m0 + Zeros(0);
      while blockByteIndex < 56
        invariant Valid() && i0 + j == blockByteIndex <= 56 && message == m0 + Zeros(j)
        decreases 56 - blockByteIndex
      {
        assert Zeros(j + 1) == Zeros(j) + [0];
        NextIndex(|message|);
        ProcessByte(0);
        j := j + 1;
      }
    }

    /** Eight bytes: four zeros, and the low 32 bits of the length. */
    method WriteLength(bitCount: nat)
      requires Valid()
      modifies this, digest, block
      ensures Valid() && message == old(message) + Length32(bitCount)
    {
      hide HashBlocks, Whole, Octet;
      ghost var m := message;
      ProcessByte(0);
      ProcessByte(0);
      ProcessByte(0);
      ProcessByte(0);
      AddFour(m, 0, 0, 0, 0);
      ghost var m' := message;
      ProcessByte(Octet(bitCount / 0x1000000));
      ProcessByte(Octet(bitCount / 0x10000));
      ProcessByte(Octet(bitCount / 0x100));
      ProcessByte(Octet(bitCount));
      AddFour(m', Octet(bitCount / 0x1000000), Octet(bitCount / 0x10000), Octet(bitCount / 0x100), Octet(bitCount));
      LengthHalves(m, bitCount);
    }

    /** The digest as 20 bytes. */
    method GetDigestBytes() returns (bytes: array<bv8>)
      requires Valid()
      modifies this, digest, block
      ensures Valid() && message == old(message) + ProgramPadding(|old(message)|)
      ensures fresh(bytes) && bytes.Length == 20
      ensures |message| % 64 == 0 && DigestOf(bytes[..]) == HashBlocks(message)
      ensures |old(message)| < 0x2000_0000 ==> DigestOf(bytes[..]) == Sha1(old(message))
    {
      hide BigEndian, HashBlocks, Sha1Standard.Sha1, Whole, ProgramPadding;
      var d := GetDigest();
      bytes := DigestBytes(d);
    }

    /** Hashes the full block. */
    method ProcessBlock()
      requires digest.Length == 5 && block.Length == 64
      modifies digest
      ensures Value() == HashBlock(old(Value()), block[..])
    {
      hide Plus, Rounds, HashBlock;
      ghost var m, h := block[..], Value();
      var w := Schedule();
      var v := AllRounds(w, m);
      digest[0] := Plus(digest[0], v.a);
      digest[1] := Plus(digest[1], v.b);
      digest[2] := Plus(digest[2], v.c);
      digest[3] := Plus(digest[3], v.d);
      digest[4] := Plus(digest[4], v.e);
      Added(h, m, v, Value());
    }

    method AllRounds(w: array<Word>, ghost m: seq<bv8>) returns (v: Digest)
      requires digest.Length == 5 && |m| == 64 && w.Length == 80 && forall t | 0 <= t < 80 :: w[t] == W(m, t)
      ensures v == Rounds(Value(), m, 80)
    {
      hide Round, W, Rounds;
      var a, b, c, d, e := digest[0], digest[1], digest[2], digest[3], digest[4];
      NoRounds(Value(), m);
      for i := 0 to 80
        invariant Digest(a, b, c, d, e) == Rounds(Value(), m, i)
      {
        NextRound(Value(), m, i);
        a, b, c, d, e := OneRound(i, w[i], a, b, c, d, e);
      }
      v := Digest(a, b, c, d, e);
    }

    method Schedule() returns (w: array<Word>)
      requires block.Length == 64
      ensures fresh(w) && w.Length == 80 && forall t | 0 <= t < 80 :: w[t] == W(block[..], t)
    {
      hide W, BigEndian, RotL1, RotL5, RotL30, LeftRotate1, LeftRotate5, LeftRotate30, Xor;
      w := new Word[80](_ => Word(0));
      ghost var m := block[..];
      for i := 0 to 16
        invariant forall t | 0 <= t < i :: w[t] == W(m, t)
      {
        FirstWords(m, i);
        var x := LoadWord(block[i * 4], block[i * 4 + 1], block[i * 4 + 2], block[i * 4 + 3]);
        w[i] := x;
      }
      for i := 16 to 80
        invariant forall t | 0 <= t < i :: w[t] == W(m, t)
      {
        LaterWords(m, i);
        var x := Xor(Xor(Xor(w[i - 3], w[i - 8]), w[i - 14]), w[i - 16]);
        RotationsAgree(x);
        w[i] := LeftRotate1(x);
      }
    }

    method LoadWord(p: bv8, q: bv8, r: bv8, s: bv8) returns (x: Word)
      ensures x == BigEndian(p, q, r, s)
    {
      var w := (p as bv32) << 24;
      w := w | ((q as bv32) << 16);
      w := w | ((r as bv32) << 8);
      w := w | (s as bv32);
      x := Word(w);
    }

    method OneRound(i: nat, w: Word, a: Word, b: Word, c: Word, d: Word, e: Word)
        returns (a': Word, b': Word, c': Word, d': Word, e': Word)
      ensures Digest(a', b', c', d', e') == Round(Digest(a, b, c, d, e), i, w)
    {
      hide F, K, RotL1, RotL5, RotL30, LeftRotate1, LeftRotate5, LeftRotate30, Plus;
      RotationsAgree(a);
      RotationsAgree(b);
      var f, k := FunctionAndConstant(i, b, c, d);
      var temp := Plus(Plus(Plus(Plus(LeftRotate5(a), f), e), k), w);
      e' := d;
      d' := c;
      c' := LeftRotate30(b);
      b' := a;
      a' := temp;
    }

    method FunctionAndConstant(i: nat, b: Word, c: Word, d: Word) returns (f: Word, k: Word)
      ensures f == F(i, b, c, d) && k == K(i)
    {
      hide Ch, Maj, Parity, Choose, Majority;
      ChoicesAgree(b, c, d);
      if i < 20 {
        f := Choose(b, c, d);
        k := Word(0x5A827999);
      } else if i < 40 {
        f := Parity(b, c, d);
        k := Word(0x6ED9EBA1);
      } else if i < 60 {
        f := Majority(b, c, d);
        k := Word(0x8F1BBCDC);
      } else {
        f := Parity(b, c, d);
        k := Word(0xCA62C1D6);
      }
    }
  }

  lemma Added(h: Digest, m: seq<bv8>, v: Digest, sum: Digest)
    requires |m| == 64 && v == Rounds(h, m, 80)
    requires sum == Digest(Plus(h.a, v.a), Plus(h.b, v.b), Plus(h.c, v.c), Plus(h.d, v.d), Plus(h.e, v.e))
    ensures sum == HashBlock(h, m)
  {
  }

  lemma NoRounds(h: Digest, m: seq<bv8>)
    requires |m| == 64
    ensures Rounds(h, m, 0) == h
  {
  }

  lemma NextRound(h: Digest, m: seq<bv8>, i: nat)
    requires |m| == 64
    ensures Rounds(h, m, i + 1) == Round(Rounds(h, m, i), i, W(m, i))
  {
  }

  lemma FirstWords(m: seq<bv8>, t: nat)
    requires |m| == 64 && t < 16
    ensures W(m, t) == BigEndian(m[4 * t], m[4 * t + 1], m[4 * t + 2], m[4 * t + 3])
  {
  }

  lemma LaterWords(m: seq<bv8>, t: nat)
    requires |m| == 64 && t >= 16
    ensures W(m, t) == RotL1(Xor(Xor(Xor(W(m, t - 3), W(m, t - 8)), W(m, t - 14)), W(m, t - 16)))
  {
  }

  /** The part of the message that fills whole blocks. */
  function Whole(message: seq<bv8>): (r: seq<bv8>)
    ensures |r| % 64 == 0
  {
    WholeFits(|message|);
    message[..|message| - |message| % 64]
  }

  lemma WholeFits(n: nat)
    ensures n % 64 <= n && (n - n % 64) % 64 == 0
  {
  }

  lemma OneMoreByte(message: seq<bv8>, octet: bv8)
    ensures var m, n := message + [octet], |message|;
      && n % 64 <= n
      && (n % 64 < 63 ==>
            && |m| % 64 == n % 64 + 1 && Whole(m) == Whole(message)
            && m[|m| - (n % 64 + 1)..] == message[n - n % 64..] + [octet])
      && (n % 64 == 63 ==> |m| % 64 == 0 && |m| >= 64 && m[|m| - 64..] == message[n - 63..] + [octet])
  {
    var n := |message|;
    assert n == 64 * (n / 64) + n % 64;
    assert n % 64 == 63 ==> n + 1 == 64 * (n / 64 + 1);
    assert n % 64 < 63 ==> n + 1 == 64 * (n / 64) + (n % 64 + 1);
  }

  lemma BlockDone(message: seq<bv8>, octet: bv8)
    requires |message| % 64 == 63
    ensures var m := message + [octet];
      |m| % 64 == 0 && Whole(m) == m && |m| >= 64
          && HashBlocks(m) == HashBlock(HashBlocks(Whole(message)), m[|m| - 64..])
  {
    var m := message + [octet];
    OneMoreByte(message, octet);
    assert m[..|m| - 64] == Whole(message);
  }

  /* ---- padding ---- */

  function Length32(bits: nat): (r: seq<bv8>)
    ensures |r| == 8
  {
    [0, 0, 0, 0, Octet(bits / 0x1000000), Octet(bits / 0x10000), Octet(bits / 0x100), Octet(bits)]
  }

  /** What the program appends to a message of `n` bytes. */
  function ProgramPadding(n: nat): seq<bv8> {
    [0x80] + Zeros(ZeroCount(n)) + Length32(8 * n)
  }

  lemma ShaIs(message: seq<bv8>)
    ensures (|message| + |Padding(|message|)|) % 64 == 0
    ensures Sha1Standard.Sha1(message) == HashBlocks(message + Padding(|message|))
  {
    hide HashBlocks, Padding;
    PadFits(|message|);
  }

  lemma NextIndex(n: nat)
    ensures (n + 1) % 64 == if n % 64 == 63 then 0 else n % 64 + 1
  {
  }

  lemma ZerosCounted(n: nat, message: seq<bv8>, was: seq<bv8>)
    requires n == |was|
    requires var r := (n + 1) % 64;
      message == if r > 56 then was + [0x80] + Zeros(64 - r) + Zeros(56) else was + [0x80] + Zeros(56 - r)
    ensures message == was + ([0x80] + Zeros(ZeroCount(n)))
  {
  }

  lemma AddFour(m: seq<bv8>, a: bv8, b: bv8, c: bv8, d: bv8)
    ensures m + [a] + [b] + [c] + [d] == m + [a, b, c, d]
  {
  }

  lemma LengthHalves(m: seq<bv8>, bits: nat)
    ensures m + [0, 0, 0, 0] + [Octet(bits / 0x1000000), Octet(bits / 0x10000), Octet(bits / 0x100), Octet(bits)] ==
      m + Length32(bits)
  {
  }

  /** The padded message fills whole blocks. */
  lemma PaddedAs(was: seq<bv8>, message: seq<bv8>)
    requires message == was + ([0x80] + Zeros(ZeroCount(|was|))) + Length32(8 * |was|)
    ensures message == was + ProgramPadding(|was|) && |message| % 64 == 0 && Whole(message) == message
  {
    hide Octet;
    PadFits(|was|);
  }

  lemma OctetZero(n: nat)
    ensures Octet(n) == 0 <==> n % 256 == 0
  {
    Halves(n);
    BitsZero(n / 1 % 2 == 1, n / 2 % 2 == 1, n / 4 % 2 == 1, n / 8 % 2 == 1,
             n / 16 % 2 == 1, n / 32 % 2 == 1, n / 64 % 2 == 1, n / 128 % 2 == 1);
  }

  lemma Halves(n: nat)
    ensures (n / 1 % 2 == 0 && n / 2 % 2 == 0 && n / 4 % 2 == 0 && n / 8 % 2 == 0
             && n / 16 % 2 == 0 && n / 32 % 2 == 0 && n / 64 % 2 == 0 && n / 128 % 2 == 0) <==> n % 256 == 0
  {
    Halve(n, n / 2);
    Halve(n / 2, n / 4);
    Halve(n / 4, n / 8);
    Halve(n / 8, n / 16);
    Halve(n / 16, n / 32);
    Halve(n / 32, n / 64);
    Halve(n / 64, n / 128);
    Halve(n / 128, n / 256);
    assert n / 1 == n;
  }

  lemma Halve(m: nat, h: nat)
    requires h == m / 2
    ensures m == 2 * h + m % 2
  {
  }

  function Flag(on: bool, b: bv8): bv8 { if on then b else 0 }

  lemma BitsZero(a: bool, b: bool, c: bool, d: bool, e: bool, f: bool, g: bool, h: bool)
    ensures Flag(a, 0x01) | Flag(b, 0x02) | Flag(c, 0x04) | Flag(d, 0x08) |
      Flag(e, 0x10) | Flag(f, 0x20) | Flag(g, 0x40) | Flag(h, 0x80) == 0
      <==> !a && !b && !c && !d && !e && !f && !g && !h
  {
  }

  lemma HighDigits(bits: nat)
    requires bits < 0x1_0000_0000_0000_0000
    ensures (bits / 0x100000000000000 % 256 == 0 && bits / 0x1000000000000 % 256 == 0 && bits / 0x10000000000 % 256 == 0
             && bits / 0x100000000 % 256 == 0) <==> bits < 0x1_0000_0000
  {
  }

  lemma LengthsAgree(bits: nat)
    requires bits < 0x1_0000_0000_0000_0000
    ensures Length32(bits) == Length64(bits) <==> bits < 0x1_0000_0000
  {
    hide Octet;
    HighDigits(bits);
    OctetZero(bits / 0x100000000000000);
    OctetZero(bits / 0x1000000000000);
    OctetZero(bits / 0x10000000000);
    OctetZero(bits / 0x100000000);
    var a, b := Length32(bits), Length64(bits);
    assert a[0] == 0 && a[1] == 0 && a[2] == 0 && a[3] == 0;
  }

  /** The program's padding is the standard's exactly for messages of less than 2^29 bytes (up to
      2^61 bytes, where the standard ends). */
  lemma PaddingsAgree(n: nat)
    requires n < 0x2000_0000_0000_0000
    ensures ProgramPadding(n) == Padding(n) <==> n < 0x2000_0000
  {
    hide Length32, Length64, ZeroCount, Zeros;
    LengthsAgree(8 * n);
    var front := [0x80] + Zeros(ZeroCount(n));
    assert ProgramPadding(n)[|front|..] == Length32(8 * n) && Padding(n)[|front|..] == Length64(8 * n);
  }

  /* ---- digest bytes ---- */

  function WordIn(bytes: seq<bv8>, di: nat): Word
    requires di + 4 <= |bytes|
  {
    BigEndian(bytes[di], bytes[di + 1], bytes[di + 2], bytes[di + 3])
  }

  function DigestOf(bytes: seq<bv8>): Digest
    requires |bytes| == 20
  {
    Digest(WordIn(bytes, 0), WordIn(bytes, 4), WordIn(bytes, 8), WordIn(bytes, 12), WordIn(bytes, 16))
  }

  method DigestBytes(d: Digest) returns (bytes: array<bv8>)
    ensures fresh(bytes) && bytes.Length == 20 && DigestOf(bytes[..]) == d
  {
    hide WordIn;
    bytes := new bv8[20](_ => 0);
    PutWord(bytes, 0, d.a);
    PutWord(bytes, 4, d.b);
    PutWord(bytes, 8, d.c);
    PutWord(bytes, 12, d.d);
    PutWord(bytes, 16, d.e);
  }

  method PutWord(bytes: array<bv8>, di: nat, w: Word)
    requires di + 4 <= bytes.Length
    modifies bytes
    ensures WordIn(bytes[..], di) == w
    ensures forall k | 0 <= k && k + 4 <= di :: WordIn(bytes[..], k) == WordIn(old(bytes[..]), k)
  {
    hide BigEndian, Byte3, Byte2, Byte1, Byte0;
    BytesOfWord(w);
    bytes[di] := Byte3(w);
    bytes[di + 1] := Byte2(w);
    bytes[di + 2] := Byte1(w);
    bytes[di + 3] := Byte0(w);
  }

  /* ---- a message in pieces ---- */

  function Joined(pieces: seq<seq<bv8>>): seq<bv8> {
    if pieces == [] then [] else Joined(pieces[..|pieces| - 1]) + pieces[|pieces| - 1]
  }

  /** However a message is cut into pieces, its digest is that of the whole message with the program's
      padding: below 2^29 bytes, the standard's. */
  method HashPieces(pieces: seq<seq<bv8>>) returns (d: Digest)
    ensures var m := Joined(pieces); (|m| + |ProgramPadding(|m|)|) % 64 == 0 && d == HashBlocks(m + ProgramPadding(|m|))
    ensures |Joined(pieces)| < 0x2000_0000 ==> d == Sha1(Joined(pieces))
  {
    hide Sha1Standard.Sha1, ProgramPadding, HashBlocks, Whole;
    var sha := new SHA1();
    assert pieces[..0] == [];
    for i := 0 to |pieces|
      invariant sha.Valid() && fresh(sha) && fresh(sha.digest) && fresh(sha.block) && sha.message == Joined(pieces[..i])
    {
      assert pieces[..i + 1][..i] == pieces[..i];
      sha.ProcessBytes(pieces[i]);
    }
    assert pieces[..|pieces|] == pieces;
    d := sha.GetDigest();
  }
}
