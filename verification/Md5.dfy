/**
  The streaming MD5 context of md5.c: the bit count in two words, the block buffer, and the
  digest that comes out for any way of feeding the message.
 */
module Md5 {
  import opened Words
  import opened BlockCipher
  import opened HashBlocks
  import opened Md5Block

  // ----- the function of section 3 of RFC 1321 -----

  function CompressFn(): (Quad, Block64) -> Quad { (q: Quad, b: Block64) => Compress(q, b) }

  /** A 32-bit number as four bytes, least significant first. */
  function LittleBytes(n: nat): (s: seq<byte>)
    ensures |s| == 4
  {
    var b := WordBytes(n);
    [b[3], b[2], b[1], b[0]]
  }

  /** The low 64 bits of a bit count, low word and low byte first. */
  function LengthBytes(n: nat): (s: seq<byte>)
    ensures |s| == 8
  {
    LittleBytes(n % TWO64 % TWO32) + LittleBytes(n % TWO64 / TWO32)
  }

  function FinalQuad(m: seq<byte>): Quad { Iterate(CompressFn(), INIT, Padded(m, LengthBytes(8 * |m|))) }

  /** A word, low byte first. */
  function PutLittle(w: word): (s: seq<byte>)
    ensures |s| == 4
  {
    [B3(w), B2(w), B1(w), B0(w)]
  }

  function QuadBytes(q: Quad): (d: seq<byte>)
    ensures |d| == 16
  {
    PutLittle(q.a) + PutLittle(q.b) + (PutLittle(q.c) + PutLittle(q.d))
  }

  /** The digest stores each word as a block of the message would hold it. */
  lemma PutLittleInverse(w: word)
    ensures GetLittle(PutLittle(w), 0) == w
  {
    BytesPack(w);
  }

  /** MD5 of a message. */
  function Digest(m: seq<byte>): (d: seq<byte>)
    ensures |d| == 16
  {
    QuadBytes(FinalQuad(m))
  }

  lemma LittleBytesInjective(m: nat, n: nat)
    requires LittleBytes(m) == LittleBytes(n)
    ensures m % TWO32 == n % TWO32
  {
    hide WordBytes;
    assert WordBytes(m) == [LittleBytes(m)[3], LittleBytes(m)[2], LittleBytes(m)[1], LittleBytes(m)[0]];
    assert WordBytes(n) == [LittleBytes(n)[3], LittleBytes(n)[2], LittleBytes(n)[1], LittleBytes(n)[0]];
    WordBytesInjective(m, n);
  }

  lemma LengthBytesInjective(n: nat, n': nat)
    requires n < TWO64 && n' < TWO64 && LengthBytes(n) == LengthBytes(n')
    ensures n == n'
  {
    hide LittleBytes;
    assert LittleBytes(n % TWO32) == LengthBytes(n)[..4] && LittleBytes(n / TWO32) == LengthBytes(n)[4..];
    assert LittleBytes(n' % TWO32) == LengthBytes(n')[..4] && LittleBytes(n' / TWO32) == LengthBytes(n')[4..];
    LittleBytesInjective(n % TWO32, n' % TWO32);
    LittleBytesInjective(n / TWO32, n' / TWO32);
  }

  /** No two messages of fewer than 2^64 bits pad to the same bytes. */
  lemma PaddingInjective(m: seq<byte>, m': seq<byte>)
    requires 8 * |m| < TWO64 && 8 * |m'| < TWO64
    ensures Padded(m, LengthBytes(8 * |m|)) == Padded(m', LengthBytes(8 * |m'|)) <==> m == m'
  {
    hide Padded, LengthBytes;
    if Padded(m, LengthBytes(8 * |m|)) == Padded(m', LengthBytes(8 * |m'|)) {
      PaddedInjective(m, LengthBytes(8 * |m|), m', LengthBytes(8 * |m'|));
      LengthBytesInjective(8 * |m|, 8 * |m'|);
    }
  }

  /** The starting words hold the bytes 01, 23, 45 and so on up, and then down again (section 3.3 of RFC 1321). */
  lemma InitBytes()
    ensures QuadBytes(INIT) == [0x01, 0x23, 0x45, 0x67] + [0x89, 0xab, 0xcd, 0xef]
                             + ([0xfe, 0xdc, 0xba, 0x98] + [0x76, 0x54, 0x32, 0x10])
  {
  }

  /** The chaining words once the whole blocks have gone through. */
  function ChainOf(m: seq<byte>): Quad { Iterate(CompressFn(), INIT, Whole(m)) }

  lemma ChainFed(m: seq<byte>, c: byte)
    ensures |m| % 64 < 63 ==> Partial(m + [c]) == Partial(m) + [c] && ChainOf(m + [c]) == ChainOf(m)
    ensures |m| % 64 == 63 ==> Partial(m + [c]) == [] && ChainOf(m + [c]) == Compress(ChainOf(m), Partial(m) + [c])
  {
    hide Compress, Iterate, Whole, Partial;
    FeedByte(CompressFn(), INIT, m, c);
  }

  /** With the marker and zeros fed as message bytes, one block remains. */
  lemma LastBlock(m: seq<byte>, length: seq<byte>)
    requires |length| == 8
    ensures var p := m + Marker(|m|);
            |p| % 64 == 56 && |Partial(p) + length| == 64
            && Iterate(CompressFn(), INIT, Padded(m, length)) == Compress(ChainOf(p), Partial(p) + length)
  {
    hide Compress, Iterate, Marker;
    var p := m + Marker(|m|);
    var b := Partial(p) + length;
    assert Padded(m, length) == Whole(p) + b;
    IterateStep(CompressFn(), INIT, Whole(p), b);
  }

  // ----- the bit count -----

  /** The two words after n more bytes, with the carry test of the code. */
  function Count(low: nat, high: nat, n: nat): (r: (nat, nat))
    requires low < TWO32 && high < TWO32 && n < TWO32
    ensures r.0 < TWO32 && r.1 < TWO32
  {
    var shifted := (8 * n) % TWO32;
    var sum := (low + shifted) % TWO32;
    var carried := if sum < low then (high + 1) % TWO32 else high;
    (sum, (carried + n / 0x2000_0000) % TWO32)
  }

  /** They hold the number of bits modulo 2^64. */
  lemma CountAdds(low: nat, high: nat, n: nat, total: nat)
    requires low < TWO32 && high < TWO32 && n < TWO32
    requires TWO32 * high + low == (8 * total) % TWO64
    ensures var r := Count(low, high, n);
            TWO32 * r.1 + r.0 == (8 * (total + n)) % TWO64
  {
    var shifted, up := (8 * n) % TWO32, n / 0x2000_0000;
    assert 8 * n == TWO32 * up + shifted;
    var c := if low + shifted >= TWO32 then 1 else 0;
    var sum := low + shifted - TWO32 * c;
    Reduced32(low + shifted, sum, c);
    assert (sum < low) == (c == 1);
    var r := Count(low, high, n);
    assert r.0 == sum;
    HighWord(high, c, up);
    assert r.1 == (high + c + up) % TWO32;
    var q := (high + c + up) / TWO32;
    var k := 8 * total / TWO64;
    assert 8 * (total + n) == TWO64 * (k + q) + (TWO32 * r.1 + sum);
    Reduced64(8 * (total + n), TWO32 * r.1 + sum, k + q);
  }

  lemma Reduced32(x: nat, r: int, q: int)
    requires 0 <= r < TWO32 && x == TWO32 * q + r
    ensures x % TWO32 == r
  {
  }

  lemma Reduced64(x: nat, r: int, q: int)
    requires 0 <= r < TWO64 && x == TWO64 * q + r
    ensures x % TWO64 == r
  {
  }

  lemma HighWord(high: nat, c: nat, up: nat)
    requires c <= 1
    ensures ((high + c) % TWO32 + up) % TWO32 == (high + c + up) % TWO32
    ensures high < TWO32 ==> (high + up) % TWO32 == (high + 0 + up) % TWO32
  {
  }

  /** The low word tells how many bytes are buffered. */
  lemma Buffered(low: nat, high: nat, total: nat)
    requires low < TWO32 && TWO32 * high + low == (8 * total) % TWO64
    ensures (low / 8) % 64 == total % 64
  {
    var k := 8 * total / TWO64;
    assert 8 * total == TWO64 * k + TWO32 * high + low;
    var y := 0x80_0000_0000_0000 * k + 0x80_0000 * high;
    assert low == 8 * (total - 64 * y);
    Eighth(low, total - 64 * y);
    DropBlocks(total, y, total - 64 * y);
  }

  lemma Eighth(low: nat, b: int)
    requires low == 8 * b
    ensures low / 8 == b
  {
  }

  lemma DropBlocks(total: nat, y: int, b: int)
    requires b == total - 64 * y
    ensures b % 64 == total % 64
  {
  }

  // ----- the context -----

  /** The number n as a word. */
  function WordOf(n: nat): word {
    var b := WordBytes(n);
    Pack(b[0], b[1], b[2], b[3])
  }

  lemma LengthWords(b: seq<byte>, low: nat, high: nat)
    requires |b| == 56
    ensures var x := BlockWords(b + LittleBytes(low) + LittleBytes(high));
            x[14] == WordOf(low) && x[15] == WordOf(high) && forall i :: 0 <= i < 14 ==> x[i] == GetLittle(b, 4 * i)
  {
    hide WordBytes, Pack;
  }

  /** The buffer starts with the tail of m, and the chaining words hold the rest. */
  ghost predicate Taken(input: seq<byte>, buf: Quad, m: seq<byte>)
    requires |input| == 64
  {
    input[..|m| % 64] == Partial(m) && buf == ChainOf(m)
  }

  class MD5Context {
    var low: nat
    var high: nat
    var buf: Quad
    const input: array<byte>
    const digest: array<byte>

    /** The message fed so far. */
    ghost var message: seq<byte>

    ghost predicate Holds(m: seq<byte>)
      reads this, input
    {
      input.Length == 64 && Taken(input[..], buf, m)
    }

    /** The two words hold the bit count modulo 2^64. */
    ghost predicate Counts(m: seq<byte>)
      reads this
    {
      low < TWO32 && high < TWO32 && TWO32 * high + low == (8 * |m|) % TWO64
    }

    ghost predicate Valid()
      reads this, input
    {
      Holds(message) && Counts(message) && digest.Length == 16 && digest != input
    }

    constructor ()
      ensures fresh(input) && fresh(digest) && input.Length == 64 && digest.Length == 16 && digest != input
    {
      low, high, buf, message := 0, 0, INIT, [];
      input, digest := new byte[64], new byte[16];
    }

    /** MD5Init. */
    method Init()
      requires input.Length == 64 && digest.Length == 16 && digest != input
      modifies this
      ensures Valid() && message == []
    {
      hide Iterate;
      low, high := 0, 0;
      buf := INIT;
      message := [];
      NothingFed();
    }

    /** The buffer's sixteen words, low byte first. */
    method Decode() returns (x: array<word>)
      requires input.Length == 64
      ensures fresh(x) && x.Length == 16 && x[..] == BlockWords(input[..])
    {
      hide GetLittle;
      ghost var b := input[..];
      x := new word[16];
      var i := 0;
      while i < 16
        invariant 0 <= i <= 16 && input[..] == b
        invariant forall j :: 0 <= j < i ==> x[j] == GetLittle(b, 4 * j)
      {
        x[i] := GetLittle(input[..], 4 * i);
        i := i + 1;
      }
    }

    /** The body of the MD5Update loop. */
    method UpdateByte(mdi: nat, c: byte, ghost m: seq<byte>) returns (mdi': nat)
      requires Holds(m) && mdi == |m| % 64
      modifies this`buf, input
      ensures Holds(m + [c]) && mdi' == |m + [c]| % 64
    {
      hide ChainOf, Partial, TransformWords, BlockWords;
      ChainFed(m, c);
      input[mdi] := c;
      assert input[..mdi + 1] == Partial(m) + [c];
      mdi' := mdi + 1;
      if mdi' == 0x40 {
        var x := Decode();
        assert input[..] == input[..64];
        buf := Transform(buf, x);
        mdi' := 0;
        assert input[..0] == [];
      }
    }

    /** MD5Update on n bytes of data from offset o. */
    method Update(data: array<byte>, o: nat, n: nat)
      requires Valid() && o + n <= data.Length && n < TWO32 && data != input
      modifies this, input
      ensures Valid() && message == old(message) + data[o..o + n]
    {
      hide Count, Taken;
      Buffered(low, high, |message|);
      CountAdds(low, high, n, |message|);
      var mdi := low / 8 % 64;
      ghost var was := input[..];
      UpdateCount(n);
      assert input[..] == was;
      UpdateLoop(mdi, data, o, n, message);
      message := message + data[o..o + n];
    }

    /** The statements on i[0] and i[1]. */
    method UpdateCount(n: nat)
      requires low < TWO32 && high < TWO32 && n < TWO32
      modifies this`low, this`high
      ensures (low, high) == Count(old(low), old(high), n)
    {
      var shifted := (8 * n) % TWO32;
      if (low + shifted) % TWO32 < low {
        high := (high + 1) % TWO32;
      }
      low := (low + shifted) % TWO32;
      high := (high + n / 0x2000_0000) % TWO32;
    }

    method UpdateLoop(mdi0: nat, data: array<byte>, o: nat, n: nat, ghost m: seq<byte>)
      requires Holds(m) && mdi0 == |m| % 64 && o + n <= data.Length && data != input
      modifies this`buf, input
      ensures Holds(m + data[o..o + n])
    {
      hide ChainOf, Partial;
      ghost var bytes := data[..];
      var mdi, k := mdi0, 0;
      assert m + bytes[o..o] == m;
      while k < n
        invariant 0 <= k <= n && data[..] == bytes
        invariant Holds(m + bytes[o..o + k]) && mdi == |m + bytes[o..o + k]| % 64
      {
        assert m + bytes[o..o + k] + [bytes[o + k]] == m + bytes[o..o + (k + 1)];
        mdi := UpdateByte(mdi, data[o + k], m + bytes[o..o + k]);
        k := k + 1;
      }
    }

    /** MD5Final. */
    method Final(hash: array<byte>)
      requires Valid() && hash.Length >= 16 && hash !in {input, digest}
      modifies this, input, digest, hash
      ensures hash[..] == Splice(old(hash[..]), 0, Digest(old(message)))
    {
      hide ChainOf, FinalQuad, QuadBytes, Splice, LengthBytes;
      ghost var m, h := message, hash[..];
      var in14, in15 := low, high;
      PadInput();
      FinishBlock(in14, in15, m);
      assert hash[..] == h;
      StoreDigest();
      assert digest[0..0 + 16] == digest[..];
      Memcpy(hash, 0, digest, 0, 16);
    }

    /** Padding to 56 bytes modulo 64, fed like message bytes. */
    method PadInput()
      requires Valid()
      modifies this, input
      ensures Valid() && message == old(message) + Marker(|old(message)|)
    {
      hide Holds;
      Buffered(low, high, |message|);
      var mdi := low / 8 % 64;
      var padLen := if mdi < 56 then 56 - mdi else 120 - mdi;
      var padding := new byte[64];
      forall i | 0 <= i < 64 {
        padding[i] := if i == 0 then 0x80 else 0;
      }
      assert padding[0..0 + padLen] == Marker(|message|);
      Update(padding, 0, padLen);
    }

    /** The length words saved before padding, and the last block. */
    method FinishBlock(in14: nat, in15: nat, ghost m: seq<byte>)
      requires Valid() && message == m + Marker(|m|)
      requires in14 < TWO32 && in15 < TWO32 && TWO32 * in15 + in14 == (8 * |m|) % TWO64
      modifies this`buf
      ensures buf == FinalQuad(m)
    {
      hide ChainOf, Partial, Marker, TransformWords, BlockWords, LittleBytes;
      ghost var tail := LittleBytes(in14) + LittleBytes(in15);
      LastBlock(m, tail);
      assert tail == LengthBytes(8 * |m|);
      assert input[..56] == Partial(message);
      var x := LastWords(in14, in15);
      buf := Transform(buf, x);
    }

    /** Fourteen words of the buffer, and the two saved length words. */
    method LastWords(in14: nat, in15: nat) returns (x: array<word>)
      requires input.Length == 64
      ensures fresh(x) && x.Length == 16
      ensures x[..] == BlockWords(input[..56] + (LittleBytes(in14) + LittleBytes(in15)))
    {
      hide GetLittle, LittleBytes, WordOf;
      x := Decode();
      ghost var b, tail := input[..56], LittleBytes(in14) + LittleBytes(in15);
      SamePrefix(input[..], b);
      LengthWords(b, in14, in15);
      x[14] := WordOf(in14);
      x[15] := WordOf(in15);
      assert b + LittleBytes(in14) + LittleBytes(in15) == b + tail;
      assert x[..] == BlockWords(b + tail);
    }

    /** The loop that stores the words in digest. */
    method StoreDigest()
      requires digest.Length == 16
      modifies digest
      ensures digest[..] == QuadBytes(buf)
    {
      hide B0, B1, B2, B3;
      var s := PutLittle(buf.a) + PutLittle(buf.b) + (PutLittle(buf.c) + PutLittle(buf.d));
      forall i | 0 <= i < 16 {
        digest[i] := s[i];
      }
    }
  }

  lemma SamePrefix(s: seq<byte>, b: seq<byte>)
    requires |s| == 64 && s[..56] == b
    ensures forall i :: 0 <= i < 14 ==> GetLittle(s, 4 * i) == GetLittle(b, 4 * i)
  {
    hide Pack;
    forall k | 0 <= k < 56
      ensures s[k] == b[k]
    {
      assert s[..56][k] == s[k];
    }
  }

  lemma NothingFed()
    ensures ChainOf([]) == INIT && Partial([]) == []
  {
  }
}
