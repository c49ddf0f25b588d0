/**
  What SHA-1 and MD5 share: a compression iterated over 64-byte blocks, a message cut into whole
  blocks and a rest, and the padding of a marker, zeros and eight length bytes.
 */
module HashBlocks {
  import opened Words

  type Block64 = b: seq<byte> | |b| == 64 witness Zeros(64)

  /** The compression iterated over whole blocks. */
  function Iterate<C>(f: (C, Block64) -> C, h: C, m: seq<byte>): C
    requires |m| % 64 == 0
    decreases |m|
  {
    if m == [] then h else Iterate(f, f(h, m[..64]), m[64..])
  }

  lemma {:induction false} IterateConcat<C>(f: (C, Block64) -> C, h: C, m: seq<byte>, n: seq<byte>)
    requires |m| % 64 == 0 && |n| % 64 == 0
    ensures |m + n| % 64 == 0 && Iterate(f, h, m + n) == Iterate(f, Iterate(f, h, m), n)
    decreases |m|
  {
    if m == [] {
      assert m + n == n;
    } else {
      assert (m + n)[..64] == m[..64] && (m + n)[64..] == m[64..] + n;
      IterateConcat(f, f(h, m[..64]), m[64..], n);
    }
  }

  lemma IterateOne<C>(f: (C, Block64) -> C, h: C, b: Block64)
    ensures Iterate(f, h, b) == f(h, b)
  {
    assert b[..64] == b && b[64..] == [];
    assert Iterate(f, f(h, b), []) == f(h, b);
  }

  lemma IterateStep<C>(f: (C, Block64) -> C, h: C, m: seq<byte>, b: Block64)
    requires |m| % 64 == 0
    ensures |m + b| % 64 == 0 && Iterate(f, h, m + b) == f(Iterate(f, h, m), b)
  {
    hide Iterate;
    IterateConcat(f, h, m, b);
    IterateOne(f, Iterate(f, h, m), b);
  }

  /** The whole blocks of a message, and what is left over. */
  function Whole(m: seq<byte>): (w: seq<byte>)
    ensures |w| % 64 == 0
  {
    m[..|m| - |m| % 64]
  }

  function Partial(m: seq<byte>): (p: seq<byte>)
    ensures |p| == |m| % 64
  {
    m[|m| - |m| % 64..]
  }

  /** One more byte either joins the rest or completes a block. */
  lemma FeedByte<C>(f: (C, Block64) -> C, h: C, m: seq<byte>, c: byte)
    ensures |m| % 64 < 63 ==> Partial(m + [c]) == Partial(m) + [c] && Whole(m + [c]) == Whole(m)
    ensures |m| % 64 == 63 ==>
      Partial(m + [c]) == [] && Iterate(f, h, Whole(m + [c])) == f(Iterate(f, h, Whole(m)), Partial(m) + [c])
  {
    hide Iterate;
    var k := |m| - |m| % 64;
    NextResidue(|m|);
    assert (m + [c])[..k] == m[..k] && (m + [c])[k..] == m[k..] + [c];
    if |m| % 64 == 63 {
      var b := Partial(m) + [c];
      assert Whole(m + [c]) == Whole(m) + b;
      IterateStep(f, h, Whole(m), b);
    }
  }

  lemma NextResidue(n: nat)
    ensures (n + 1) % 64 == if n % 64 == 63 then 0 else n % 64 + 1
  {
  }

  // ----- padding -----

  /** How many zero bytes separate the marker from the length. */
  function PadZeros(len: nat): nat {
    if len % 64 <= 55 then 55 - len % 64 else 119 - len % 64
  }

  /** A one bit and zeros, up to eight bytes before the end of a block. */
  function Marker(len: nat): (p: seq<byte>)
    ensures |p| == PadZeros(len) + 1 && (len + |p| + 8) % 64 == 0
  {
    [0x80] + Zeros(PadZeros(len))
  }

  /** The padded message, for eight bytes of length. */
  function Padded(m: seq<byte>, length: seq<byte>): (r: seq<byte>)
    requires |length| == 8
    ensures |r| % 64 == 0
  {
    m + Marker(|m|) + length
  }

  /** Padding that fits behind the rest makes one last block. */
  lemma PadOneBlock<C>(f: (C, Block64) -> C, h: C, m: seq<byte>, length: seq<byte>)
    requires |m| % 64 <= 55 && |length| == 8
    ensures var b := Partial(m) + [0x80] + Zeros(55 - |m| % 64) + length;
            |b| == 64 && Iterate(f, h, Padded(m, length)) == f(Iterate(f, h, Whole(m)), b)
  {
    hide Iterate;
    var b := Partial(m) + [0x80] + Zeros(55 - |m| % 64) + length;
    assert Padded(m, length) == Whole(m) + b;
    IterateStep(f, h, Whole(m), b);
  }

  /** Otherwise it makes two. */
  lemma PadTwoBlocks<C>(f: (C, Block64) -> C, h: C, m: seq<byte>, length: seq<byte>)
    requires |m| % 64 > 55 && |length| == 8
    ensures var b := Partial(m) + [0x80] + Zeros(63 - |m| % 64);
            && |b| == 64 && |Zeros(56) + length| == 64
            && Iterate(f, h, Padded(m, length)) == f(f(Iterate(f, h, Whole(m)), b), Zeros(56) + length)
  {
    hide Iterate;
    var b := Partial(m) + [0x80] + Zeros(63 - |m| % 64);
    assert Zeros(PadZeros(|m|)) == Zeros(63 - |m| % 64) + Zeros(56);
    assert Padded(m, length) == Whole(m) + b + (Zeros(56) + length);
    IterateStep(f, h, Whole(m), b);
    IterateStep(f, h, Whole(m) + b, Zeros(56) + length);
  }

  /** Messages of a length never pad to the same bytes, and messages with different length bytes never do. */
  lemma PaddedInjective(m: seq<byte>, length: seq<byte>, m': seq<byte>, length': seq<byte>)
    requires |length| == |length'| == 8 && Padded(m, length) == Padded(m', length')
    ensures length == length' && (|m| == |m'| ==> m == m')
  {
    var p, p' := Padded(m, length), Padded(m', length');
    assert length == p[|p| - 8..] == p'[|p'| - 8..] == length';
    assert m == p[..|m|] && m' == p'[..|m'|];
  }
}
