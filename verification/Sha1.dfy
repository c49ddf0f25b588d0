/**
  The streaming SHA-1 context of sha1.c: buffering, the two-word bit count, padding into one or
  two blocks, and the digest that comes out for any way of feeding the message.
 */
module Sha1 {
  import opened Words
  import opened Sha1Block
  import opened BlockCipher
  import opened HashBlocks

  const SUCCESS := 0
  const STATE_ERROR := 3

  // ----- the function of sections 4 and 6 of RFC 3174 -----

  /** The compression of one block. */
  function CompressFn(): (Chain, Block64) -> Chain { (h: Chain, b: Block64) => Compress(h, b) }

  /** A bit count (modulo 2^64) as eight bytes, most significant first. */
  function LengthBytes(n: nat): (s: seq<byte>)
    ensures |s| == 8
  {
    WordBytes(n / TWO32) + WordBytes(n % TWO32)
  }

  /** Twenty bytes, and what makes twenty bytes of a message: what HMAC asks of a hash. */
  type D20 = d: seq<byte> | |d| == 20 witness Zeros(20)
  type HashFn = seq<byte> -> D20

  /** The final chaining value of a message. */
  function FinalChain(m: seq<byte>): Chain { Iterate(CompressFn(), INIT, Padded(m, LengthBytes(8 * |m|))) }

  /** The 20 bytes of the chaining words. */
  function ChainBytes(h: Chain): (d: seq<byte>)
    ensures |d| == 20
  {
    Put32(h.a) + Put32(h.b) + Put32(h.c) + Put32(h.d) + Put32(h.e)
  }

  /** SHA-1 of a message. */
  function Digest(m: seq<byte>): D20 {
    ChainBytes(FinalChain(m))
  }

  /** The chaining value once the whole blocks have gone through. */
  function ChainOf(m: seq<byte>): Chain { Iterate(CompressFn(), INIT, Whole(m)) }

  lemma ChainFed(m: seq<byte>, c: byte)
    ensures |m| % 64 < 63 ==> Partial(m + [c]) == Partial(m) + [c] && ChainOf(m + [c]) == ChainOf(m)
    ensures |m| % 64 == 63 ==> Partial(m + [c]) == [] && ChainOf(m + [c]) == Compress(ChainOf(m), Partial(m) + [c])
  {
    hide Compress, Iterate, Whole, Partial;
    FeedByte(CompressFn(), INIT, m, c);
  }

  lemma LengthBytesInjective(n: nat, n': nat)
    requires n < TWO64 && n' < TWO64 && LengthBytes(n) == LengthBytes(n')
    ensures n == n'
  {
    hide WordBytes;
    assert WordBytes(n / TWO32) == LengthBytes(n)[..4] && WordBytes(n % TWO32) == LengthBytes(n)[4..];
    assert WordBytes(n' / TWO32) == LengthBytes(n')[..4] && WordBytes(n' % TWO32) == LengthBytes(n')[4..];
    WordBytesInjective(n / TWO32, n' / TWO32);
    WordBytesInjective(n % TWO32, n' % TWO32);
  }

  /** No two messages of fewer than 2^64 bits pad to the same bytes. */
  lemma PaddingInjective(m: seq<byte>, m': seq<byte>)
    requires 8 * |m| < TWO64 && 8 * |m'| < TWO64
    ensures Padded(m, LengthBytes(8 * |m|)) == Padded(m', LengthBytes(8 * |m'|)) <==> m == m'
  {
    hide Padded, LengthBytes;
    if Padded(m, LengthBytes(8 * |m|)) == Padded(m', LengthBytes(8 * |m'|)) {
      PaddedInjective(m, LengthBytes(8 * |m|), m', LengthBytes(8 * |m'|));
      LengthBytesInjective(8 * |m|, 8 * |m'|);
    }
  }

  lemma ChainPaddedOnce(m: seq<byte>)
    requires |m| % 64 <= 55
    ensures var b := Partial(m) + [0x80] + Zeros(55 - |m| % 64) + LengthBytes(8 * |m|);
            |b| == 64 && FinalChain(m) == Compress(ChainOf(m), b)
  {
    hide Compress, Iterate, Whole, Partial, Padded, LengthBytes;
    PadOneBlock(CompressFn(), INIT, m, LengthBytes(8 * |m|));
  }

  lemma ChainPaddedTwice(m: seq<byte>)
    requires |m| % 64 > 55
    ensures var b := Partial(m) + [0x80] + Zeros(63 - |m| % 64);
            |b| == 64 && FinalChain(m) == Compress(Compress(ChainOf(m), b), Zeros(56) + LengthBytes(8 * |m|))
  {
    hide Compress, Iterate, Whole, Partial, Padded, LengthBytes;
    PadTwoBlocks(CompressFn(), INIT, m, LengthBytes(8 * |m|));
  }

  /** The two length words are the digits of the bit count to the base 2^32. */
  lemma LengthWords(high: nat, low: nat, n: nat)
    requires low < TWO32 && TWO32 * high + low == n
    ensures LengthBytes(n) == WordBytes(high) + WordBytes(low)
  {
    hide WordBytes;
    assert n / TWO32 == high && n % TWO32 == low;
  }

  /** Byte i of the digest, as the code picks it out of the words. */
  function DigestByte(h: Chain, i: nat): byte
    requires i < 20
  {
    var w := if i / 4 == 0 then h.a else if i / 4 == 1 then h.b else if i / 4 == 2 then h.c
             else if i / 4 == 3 then h.d else h.e;
    if i % 4 == 0 then B0(w) else if i % 4 == 1 then B1(w) else if i % 4 == 2 then B2(w) else B3(w)
  }

  lemma FiveWords(a: seq<byte>, b: seq<byte>, c: seq<byte>, d: seq<byte>, e: seq<byte>, i: nat)
    requires |a| == |b| == |c| == |d| == |e| == 4 && i < 20
    ensures (a + b + c + d + e)[i]
         == (if i / 4 == 0 then a else if i / 4 == 1 then b else if i / 4 == 2 then c
             else if i / 4 == 3 then d else e)[i % 4]
  {
  }

  lemma DigestBytes(h: Chain, i: nat)
    requires i < 20
    ensures ChainBytes(h)[i] == DigestByte(h, i)
  {
    hide B0, B1, B2, B3;
    FiveWords(Put32(h.a), Put32(h.b), Put32(h.c), Put32(h.d), Put32(h.e), i);
  }

  /** Eight more bits in the two words, with the carry test of the code. */
  lemma CountByte(high: nat, low: nat, n: nat)
    requires low < TWO32 && high < TWO32 && TWO32 * high + low == 8 * n
    ensures var l := (low + 8) % TWO32;
            var h := if l == 0 then (high + 1) % TWO32 else high;
            if l == 0 && h == 0 then 8 * (n + 1) == TWO64
            else 8 * (n + 1) < TWO64 && TWO32 * h + l == 8 * (n + 1)
  {
    assert low == 8 * (n - 0x2000_0000 * high);
    if low + 8 < TWO32 {
      assert (low + 8) % TWO32 == low + 8;
    } else {
      assert low + 8 == TWO32;
    }
  }

  // ----- the context -----

  class SHA1Context {
    var hash: Chain
    var lengthLow: nat
    var lengthHigh: nat
    var index: nat
    var computed: bool
    var corrupted: int
    const block: array<byte>

    /** The message fed so far. */
    ghost var message: seq<byte>

    /** Taking input: the buffer holds the tail, the chain the rest, the two words the bit count. */
    ghost predicate Streaming()
      reads this, block
    {
      && block.Length == 64 && !computed && corrupted == 0
      && index == |message| % 64
      && block[..index] == Partial(message)
      && hash == ChainOf(message)
      && lengthLow < TWO32 && lengthHigh < TWO32
      && TWO32 * lengthHigh + lengthLow == 8 * |message|
    }

    /** Done: the chain is the final one of the message. */
    ghost predicate Finished()
      reads this, block
    {
      block.Length == 64 && computed && corrupted == 0 && hash == FinalChain(message)
    }

    ghost predicate Valid()
      reads this, block
    {
      block.Length == 64 && (corrupted != 0 || Streaming() || Finished())
    }

    constructor ()
      ensures Streaming() && message == [] && fresh(block) && block.Length == 64
    {
      hide ChainOf, Partial;
      hash := INIT;
      lengthLow, lengthHigh, index := 0, 0, 0;
      computed, corrupted := false, 0;
      block := new byte[64];
      message := [];
      new;
      NothingFed();
      assert block[..0] == [];
    }

    /** SHA1Reset. */
    method Reset() returns (rc: int)
      requires block.Length == 64
      modifies this
      ensures rc == SUCCESS && Streaming() && message == []
    {
      hide ChainOf, Partial;
      lengthLow, lengthHigh, index := 0, 0, 0;
      hash := INIT;
      computed, corrupted := false, 0;
      message := [];
      NothingFed();
      assert block[..0] == [];
      return SUCCESS;
    }

    /** memcpy of one context over another. */
    method CopyFrom(other: SHA1Context)
      requires other.Streaming() && block.Length == 64 && block != other.block && this != other
      modifies this, block
      ensures Streaming() && message == other.message
      ensures other.Streaming() && other.message == old(other.message)
    {
      hide ChainOf, Partial;
      hash, lengthLow, lengthHigh, index := other.hash, other.lengthLow, other.lengthHigh, other.index;
      computed, corrupted := other.computed, other.corrupted;
      message := other.message;
      forall i | 0 <= i < 64 {
        block[i] := other.block[i];
      }
      assert block[..index] == other.block[..index];
    }

    /** SHA1ProcessMessageBlock. */
    method ProcessMessageBlock()
      requires block.Length == 64
      modifies this`hash, this`index
      ensures hash == Compress(old(hash), block[..]) && index == 0
    {
      hash := ProcessBlock(hash, block);
      index := 0;
    }

    /** Eight more bits in the two length words. */
    method CountBits(ghost n: nat)
      requires lengthLow < TWO32 && lengthHigh < TWO32 && corrupted == 0
      requires TWO32 * lengthHigh + lengthLow == 8 * n
      modifies this`lengthLow, this`lengthHigh, this`corrupted
      ensures lengthLow < TWO32 && lengthHigh < TWO32
      ensures corrupted == if 8 * (n + 1) < TWO64 then 0 else 1
      ensures 8 * (n + 1) < TWO64 ==> TWO32 * lengthHigh + lengthLow == 8 * (n + 1)
    {
      CountByte(lengthHigh, lengthLow, n);
      lengthLow := (lengthLow + 8) % TWO32;
      if lengthLow == 0 {
        lengthHigh := (lengthHigh + 1) % TWO32;
        if lengthHigh == 0 {
          corrupted := 1;
        }
      }
    }

    /** The body of the SHA1Input loop: buffer a byte, count its bits, process a full block. */
    method InputByte(c: byte)
      requires Streaming()
      modifies this, block
      ensures 8 * (|old(message)| + 1) < TWO64 ==> Streaming() && message == old(message) + [c]
      ensures 8 * (|old(message)| + 1) >= TWO64 ==> corrupted == 1
    {
      hide ChainOf, Partial, Compress;
      ChainFed(message, c);
      block[index] := c;
      index := index + 1;
      assert block[..index] == Partial(message) + [c];
      CountBits(|message|);
      message := message + [c];
      if index == 64 {
        assert block[..] == block[..index];
        ProcessMessageBlock();
        assert block[..index] == [];
      }
    }

    /** SHA1Input on n bytes of data from offset off. */
    method Input(data: array<byte>, off: nat, n: nat) returns (rc: int)
      requires Valid() && data != block && off + n <= data.Length
      modifies this, block
      ensures Valid()
      ensures n == 0 ==> rc == SUCCESS && unchanged(this) && unchanged(block)
      ensures n > 0 && old(computed) ==> rc == corrupted == STATE_ERROR
      ensures n > 0 && !old(computed) && old(corrupted) != 0 ==>
        rc == old(corrupted) && unchanged(this) && unchanged(block)
      ensures n > 0 && old(Streaming()) ==> rc == SUCCESS
      ensures old(Streaming()) && 8 * (|old(message)| + n) < TWO64 ==>
        Streaming() && message == old(message) + data[off..off + n]
      ensures old(Streaming()) && 8 * |old(message)| < TWO64 <= 8 * (|old(message)| + n) ==> corrupted == 1
    {
      hide ChainOf, Partial;
      if n == 0 {
        assert data[off..off + n] == [];
        assert message + [] == message;
        return SUCCESS;
      }
      if computed {
        corrupted := STATE_ERROR;
        return STATE_ERROR;
      }
      if corrupted != 0 {
        return corrupted;
      }
      InputLoop(data, off, n);
      return SUCCESS;
    }

    method InputLoop(data: array<byte>, off: nat, n: nat)
      requires Streaming() && data != block && off + n <= data.Length
      modifies this, block
      ensures 8 * (|old(message)| + n) < TWO64 ==> Streaming() && message == old(message) + data[off..off + n]
      ensures 8 * |old(message)| < TWO64 <= 8 * (|old(message)| + n) ==> corrupted == 1
      ensures block.Length == 64 && (corrupted != 0 || Streaming())
    {
      hide Streaming;
      ghost var m, bytes := message, data[..];
      StreamingMeans();
      var i := 0;
      while i < n && corrupted == 0
        invariant 0 <= i <= n && block.Length == 64 && data[..] == bytes
        invariant corrupted == 0 ==> Streaming() && message == m + bytes[off..off + i]
        invariant corrupted != 0 ==> corrupted == 1 && 8 * (|m| + i) >= TWO64
      {
        assert bytes[off..off + (i + 1)] == bytes[off..off + i] + [data[off + i]];
        assert m + bytes[off..off + (i + 1)] == message + [data[off + i]];
        InputByte(data[off + i]);
        i := i + 1;
        if 8 * (|m| + i) < TWO64 {
          StreamingMeans();
        }
      }
      if corrupted == 0 {
        StreamingMeans();
      }
    }

    lemma StreamingMeans()
      requires Streaming()
      ensures block.Length == 64 && corrupted == 0 && 8 * |message| < TWO64
    {
    }

    /** Store x in block[from..to]. */
    method Fill(to: nat)
      requires block.Length == 64 && index <= to <= 64
      modifies this`index, block
      ensures index == to
      ensures block[..to] == old(block[..index]) + Zeros(to - old(index))
    {
      ghost var b, k := block[..index], index;
      while index < to
        invariant k <= index <= to
        invariant block[..index] == b + Zeros(index - k)
      {
        block[index] := 0;
        index := index + 1;
        assert block[..index] == block[..index - 1] + [0];
        assert Zeros(index - k) == Zeros(index - 1 - k) + [0];
      }
    }

    /** The last eight bytes of the block. */
    method StoreLength()
      requires block.Length == 64
      modifies block
      ensures block[..] == old(block[..56]) + (WordBytes(lengthHigh) + WordBytes(lengthLow))
    {
      hide WordBytes;
      var h, l := WordBytes(lengthHigh), WordBytes(lengthLow);
      forall i | 0 <= i < 4 {
        block[56 + i] := h[i];
      }
      forall i | 0 <= i < 4 {
        block[60 + i] := l[i];
      }
    }

    /** The marker byte. */
    method StoreMarker()
      requires block.Length == 64 && index < 64
      modifies this`index, block
      ensures index == old(index) + 1 && block[..index] == old(block[..index]) + [0x80]
    {
      block[index] := 0x80;
      index := index + 1;
    }

    /** The marker and the zeros that complete a block too full for the length. */
    method PadAcross()
      requires Streaming() && index > 55
      modifies this`hash, this`index, block
      ensures index == 56 && block[..56] == Zeros(56)
      ensures hash == Compress(ChainOf(message), Partial(message) + [0x80] + Zeros(63 - |message| % 64))
    {
      hide ChainOf, Partial, Compress, Zeros;
      StoreMarker();
      Fill(64);
      assert block[..] == block[..64];
      ProcessMessageBlock();
      assert block[..index] == [];
      Fill(56);
      assert block[..56] == Zeros(56);
    }

    /** SHA1PadMessage. */
    method PadMessage()
      requires Streaming()
      modifies this`hash, this`index, block
      ensures hash == FinalChain(message)
    {
      hide ChainOf, Partial, Compress, FinalChain, WordBytes, LengthBytes, Zeros;
      LengthWords(lengthHigh, lengthLow, 8 * |message|);
      if index > 55 {
        ChainPaddedTwice(message);
        PadAcross();
        StoreLength();
      } else {
        ChainPaddedOnce(message);
        ghost var p := Partial(message);
        StoreMarker();
        Fill(56);
        StoreLength();
        assert block[..] == p + [0x80] + Zeros(55 - |message| % 64) + LengthBytes(8 * |message|);
      }
      ProcessMessageBlock();
    }

    /** SHA1Result into 20 bytes of digest from offset off. */
    method Result(digest: array<byte>, off: nat) returns (rc: int)
      requires Valid() && digest != block && off + 20 <= digest.Length
      modifies this, block, digest
      ensures Valid() && message == old(message)
      ensures rc == old(corrupted) == corrupted
      ensures rc != 0 ==> unchanged(this) && unchanged(block) && unchanged(digest)
      ensures rc == 0 ==> Finished() && digest[..] == Splice(old(digest[..]), off, Digest(message))
    {
      hide ChainOf, Partial, FinalChain, ChainBytes, Splice;
      ghost var was := digest[..];
      if corrupted != 0 {
        return corrupted;
      }
      if !computed {
        PadMessage();
        forall i | 0 <= i < 64 {
          block[i] := 0;
        }
        lengthLow, lengthHigh := 0, 0;
        computed := true;
      }
      assert digest[..] == was;
      StoreDigest(hash, digest, off);
      return SUCCESS;
    }
  }

  /** The sum of the first k lengths. */
  function Total(lengths: seq<nat>, k: nat): nat
    requires k <= |lengths|
  {
    if k == 0 then 0 else Total(lengths, k - 1) + lengths[k - 1]
  }

  lemma {:induction false} TotalGrows(lengths: seq<nat>, j: nat, k: nat)
    requires j <= k <= |lengths|
    ensures Total(lengths, j) <= Total(lengths, k)
  {
    if j < k {
      TotalGrows(lengths, j, k - 1);
    }
  }

  /**
    However the caller cuts a message of fewer than 2^64 bits into SHA1Input calls, SHA1Result
    gives the digest of the whole message, and gives it again when asked again.
   */
  method DigestOfPieces(data: array<byte>, lengths: seq<nat>, d: array<byte>, again: array<byte>)
    requires Total(lengths, |lengths|) <= data.Length && 8 * Total(lengths, |lengths|) < TWO64
    requires d.Length == again.Length == 20 && d != again && data !in {d, again}
    modifies d, again
    ensures d[..] == again[..] == Digest(data[..Total(lengths, |lengths|)])
  {
    hide Digest, Splice, SHA1Context.Streaming, SHA1Context.Finished;
    var c := new SHA1Context();
    var k, off, rc := 0, 0, 0;
    while k < |lengths|
      invariant 0 <= k <= |lengths| && off == Total(lengths, k) <= Total(lengths, |lengths|)
      invariant c.Streaming() && c.message == data[..off]
    {
      TotalGrows(lengths, k + 1, |lengths|);
      assert data[..off + lengths[k]] == data[..off] + data[off..off + lengths[k]];
      rc := c.Input(data, off, lengths[k]);
      off := off + lengths[k];
      k := k + 1;
    }
    c.StreamingMeans();
    ghost var result := Digest(data[..off]);
    SpliceWhole(d[..], result);
    rc := c.Result(d, 0);
    assert d[..] == result;
    SpliceWhole(again[..], result);
    rc := c.Result(again, 0);
  }

  lemma SpliceWhole(s: seq<byte>, t: seq<byte>)
    requires |s| == |t|
    ensures Splice(s, 0, t) == t
  {
  }

  lemma NothingFed()
    ensures ChainOf([]) == INIT && Partial([]) == []
  {
  }

  /** The digest loop of SHA1Result. */
  method StoreDigest(h: Chain, digest: array<byte>, off: nat)
    requires off + 20 <= digest.Length
    modifies digest
    ensures digest[..] == Splice(old(digest[..]), off, ChainBytes(h))
  {
    hide ChainBytes, DigestByte;
    ghost var was := digest[..];
    var i := 0;
    while i < 20
      invariant 0 <= i <= 20
      invariant forall j :: 0 <= j < i ==> digest[off + j] == ChainBytes(h)[j]
      invariant forall j :: 0 <= j < off || off + i <= j < digest.Length ==> digest[j] == was[j]
    {
      DigestBytes(h, i);
      digest[off + i] := DigestByte(h, i);
      i := i + 1;
    }
    forall j | 0 <= j < digest.Length
      ensures digest[j] == Splice(was, off, ChainBytes(h))[j]
    {
      if off <= j < off + 20 {
        assert digest[off + (j - off)] == ChainBytes(h)[j - off];
      }
    }
  }
}
