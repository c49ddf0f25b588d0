/**
  Cipher-block chaining over zero-padded input, as a recursion over blocks and as the
  byte-at-a-time absorption that the code performs.
 */
module CbcMac {
  import opened Words
  import opened BlockCipher

  /** The first |m| bytes of x exclusive-ored with m. */
  function XorBlock(x: Block, m: seq<byte>): Block
    requires |m| <= 16
  {
    seq(16, i requires 0 <= i < 16 => if i < |m| then x[i] ^ m[i] else x[i])
  }

  /** The chain over whole blocks, from the chaining value x. */
  function Cbc(E: BlockFn, x: Block, m: seq<byte>): Block
    requires |m| % 16 == 0
    decreases |m|
  {
    if m == [] then x else Cbc(E, E(XorBlock(x, m[..16])), m[16..])
  }

  /** m with zeros up to the next multiple of the block size. */
  function ZeroPad(m: seq<byte>): (r: seq<byte>)
    ensures |r| % 16 == 0
  {
    if |m| % 16 == 0 then m else m + Zeros(16 - |m| % 16)
  }

  /**
    The chaining buffer after the bytes of s: every completed block has been enciphered, the
    bytes of an unfinished one only exclusive-ored in.
   */
  function Absorb(E: BlockFn, x: Block, s: seq<byte>): Block
    decreases |s|
  {
    if |s| < 16 then XorBlock(x, s) else Absorb(E, E(XorBlock(x, s[..16])), s[16..])
  }

  lemma XorBlockZeros(x: Block, m: seq<byte>, n: nat)
    requires |m| + n <= 16
    ensures XorBlock(x, m + Zeros(n)) == XorBlock(x, m)
  {
    forall i | 0 <= i < 16
      ensures XorBlock(x, m + Zeros(n))[i] == XorBlock(x, m)[i]
    {
      XorZero(x[i]);
    }
  }

  lemma XorBlockNothing(x: Block)
    ensures XorBlock(x, []) == x
  {
  }

  lemma ZeroPadTail(s: seq<byte>)
    requires |s| >= 16
    ensures |s[16..]| % 16 == |s| % 16 && |ZeroPad(s)| >= 16
    ensures ZeroPad(s)[..16] == s[..16] && ZeroPad(s)[16..] == ZeroPad(s[16..])
  {
  }

  lemma ZeroPadShort(E: BlockFn, x: Block, s: seq<byte>)
    requires 0 < |s| < 16
    ensures Cbc(E, x, ZeroPad(s)) == E(XorBlock(x, s))
  {
    hide XorBlock;
    var p := ZeroPad(s);
    XorBlockZeros(x, s, 16 - |s|);
    assert |p| == 16 && p[..16] == p && p[16..] == [];
    assert Cbc(E, E(XorBlock(x, p)), []) == E(XorBlock(x, p));
  }

  /** Finishing the absorption is chaining over the padded input. */
  lemma {:induction false} AbsorbIsCbc(E: BlockFn, x: Block, s: seq<byte>)
    ensures Cbc(E, x, ZeroPad(s)) == if |s| % 16 == 0 then Absorb(E, x, s) else E(Absorb(E, x, s))
    decreases |s|
  {
    hide XorBlock, ZeroPad;
    if |s| >= 16 {
      AbsorbIsCbc(E, E(XorBlock(x, s[..16])), s[16..]);
      ZeroPadTail(s);
    } else if s == [] {
      XorBlockNothing(x);
      assert ZeroPad(s) == [] by { ZeroPadEmpty(); }
    } else {
      ZeroPadShort(E, x, s);
    }
  }

  lemma ZeroPadEmpty()
    ensures ZeroPad([]) == []
  {
  }

  lemma {:induction false} CbcConcat(E: BlockFn, x: Block, s: seq<byte>, t: seq<byte>)
    requires |s| % 16 == 0 && |t| % 16 == 0 && |s + t| % 16 == 0
    ensures Cbc(E, x, s + t) == Cbc(E, Cbc(E, x, s), t)
    decreases |s|
  {
    hide XorBlock;
    if s == [] {
      assert s + t == t;
    } else {
      assert (s + t)[..16] == s[..16] && (s + t)[16..] == s[16..] + t;
      CbcConcat(E, E(XorBlock(x, s[..16])), s[16..], t);
    }
  }

  lemma XorBlockInjective(x: Block, x': Block, b: seq<byte>, b': seq<byte>)
    requires |b| == |b'| == 16
    ensures XorBlock(x, b) == XorBlock(x', b) ==> x == x'
    ensures XorBlock(x, b) == XorBlock(x, b') ==> b == b'
  {
    forall i | 0 <= i < 16
      ensures XorBlock(x, b)[i] == XorBlock(x', b)[i] ==> x[i] == x'[i]
      ensures XorBlock(x, b)[i] == XorBlock(x, b')[i] ==> b[i] == b'[i]
    {
      XorSides(x[i], x'[i], b[i], b'[i]);
    }
  }

  lemma XorSides(x: byte, x': byte, b: byte, b': byte)
    ensures x ^ b == x' ^ b ==> x == x'
    ensures x ^ b == x ^ b' ==> b == b'
  {
  }

  /** Under an invertible cipher, different starting values stay different. */
  lemma {:induction false} CbcInjective(E: BlockFn, D: BlockFn, x: Block, x': Block, m: seq<byte>)
    requires Inverses(E, D) && |m| % 16 == 0
    ensures Cbc(E, x, m) == Cbc(E, x', m) <==> x == x'
    decreases |m|
  {
    hide XorBlock;
    if m != [] {
      var y, y' := XorBlock(x, m[..16]), XorBlock(x', m[..16]);
      CbcInjective(E, D, E(y), E(y'), m[16..]);
      assert D(E(y)) == y && D(E(y')) == y';
      XorBlockInjective(x, x', m[..16], m[..16]);
    }
  }

  /** Under an invertible cipher, changing any one block of the input changes the last chaining value. */
  lemma OneBlockMatters(E: BlockFn, D: BlockFn, x: Block, s: seq<byte>, b: seq<byte>, b': seq<byte>, t: seq<byte>)
    requires Inverses(E, D) && |s| % 16 == 0 && |t| % 16 == 0 && |b| == |b'| == 16
    requires |s + b + t| % 16 == 0 && |s + b' + t| % 16 == 0
    ensures Cbc(E, x, s + b + t) == Cbc(E, x, s + b' + t) <==> b == b'
  {
    hide XorBlock, Cbc;
    var y := Cbc(E, x, s);
    ThreeParts(E, x, s, b, t);
    ThreeParts(E, x, s, b', t);
    CbcInjective(E, D, E(XorBlock(y, b)), E(XorBlock(y, b')), t);
    assert D(E(XorBlock(y, b))) == XorBlock(y, b) && D(E(XorBlock(y, b'))) == XorBlock(y, b');
    XorBlockInjective(y, y, b, b');
  }

  lemma ThreeParts(E: BlockFn, x: Block, s: seq<byte>, b: seq<byte>, t: seq<byte>)
    requires |s| % 16 == 0 && |t| % 16 == 0 && |b| == 16 && |s + b + t| % 16 == 0
    ensures Cbc(E, x, s + b + t) == Cbc(E, E(XorBlock(Cbc(E, x, s), b)), t)
  {
    hide XorBlock;
    var y := Cbc(E, x, s);
    assert s + b + t == s + (b + t) && (b + t)[..16] == b && (b + t)[16..] == t;
    assert |b + t| % 16 == 0;
    CbcConcat(E, x, s, b + t);
  }

  /** Absorption of a concatenation, when the first part is whole blocks. */
  lemma {:induction false} AbsorbConcat(E: BlockFn, x: Block, s: seq<byte>, t: seq<byte>)
    requires |s| % 16 == 0
    ensures Absorb(E, x, s + t) == Absorb(E, Absorb(E, x, s), t)
    decreases |s|
  {
    hide XorBlock;
    if s == [] {
      XorBlockNothing(x);
      assert s + t == t;
    } else {
      AbsorbConcat(E, E(XorBlock(x, s[..16])), s[16..], t);
      assert (s + t)[..16] == s[..16] && (s + t)[16..] == s[16..] + t;
    }
  }

  /** One more block on whole blocks. */
  lemma AbsorbBlock(E: BlockFn, x: Block, s: seq<byte>, b: seq<byte>)
    requires |s| % 16 == 0 && |b| == 16
    ensures Absorb(E, x, s + b) == E(XorBlock(Absorb(E, x, s), b))
  {
    hide XorBlock;
    AbsorbConcat(E, x, s, b);
    var y := Absorb(E, x, s);
    assert b[..16] == b && b[16..] == [];
    XorBlockNothing(E(XorBlock(y, b)));
    assert Absorb(E, y, b) == Absorb(E, E(XorBlock(y, b)), []);
  }

  /** One more byte: exclusive-or it in, and encipher if that completes a block. */
  lemma AbsorbByte(E: BlockFn, x: Block, s: seq<byte>, c: byte)
    ensures var k := |s| % 16;
            var y := Absorb(E, x, s);
            var y': Block := y[k := y[k] ^ c];
            Absorb(E, x, s + [c]) == if k == 15 then E(y') else y'
  {
    hide XorBlock, Absorb;
    var k := |s| % 16;
    var n := |s| - k;
    var t := s[n..];
    assert s == s[..n] + t && s + [c] == s[..n] + (t + [c]);
    AbsorbConcat(E, x, s[..n], t);
    AbsorbConcat(E, x, s[..n], t + [c]);
    var z := Absorb(E, x, s[..n]);
    AbsorbShort(E, z, t);
    XorBlockByte(z, t, c);
    if k == 15 {
      AbsorbBlock(E, z, [], t + [c]);
      AbsorbShort(E, z, []);
      XorBlockNothing(z);
      assert [] + (t + [c]) == t + [c];
    } else {
      AbsorbShort(E, z, t + [c]);
    }
  }

  lemma AbsorbShort(E: BlockFn, z: Block, t: seq<byte>)
    requires |t| < 16
    ensures Absorb(E, z, t) == XorBlock(z, t)
  {
  }

  lemma XorBlockByte(z: Block, t: seq<byte>, c: byte)
    requires |t| < 16
    ensures var y := XorBlock(z, t);
            XorBlock(z, t + [c]) == y[|t| := y[|t|] ^ c]
  {
  }

  lemma CbcNothing(E: BlockFn, x: Block)
    ensures Cbc(E, x, []) == x
  {
  }

  /** Chaining one more block. */
  lemma CbcStep(E: BlockFn, x: Block, s: seq<byte>, b: seq<byte>)
    requires |s| % 16 == 0 && |b| == 16
    ensures |s + b| % 16 == 0 && Cbc(E, x, s + b) == E(XorBlock(Cbc(E, x, s), b))
  {
    hide XorBlock;
    CbcConcat(E, x, s, b);
    var y := Cbc(E, x, s);
    assert b[..16] == b && b[16..] == [];
    assert Cbc(E, E(XorBlock(y, b)), []) == E(XorBlock(y, b));
  }

  lemma ClosePadding(m: nat, n: nat)
    requires (m + 15) / 16 == (n + 15) / 16 && m % 65536 == n % 65536
    ensures m == n
  {
  }

  lemma PadPrefix(d: seq<byte>)
    ensures |ZeroPad(d)| == 16 * ((|d| + 15) / 16) && |d| <= |ZeroPad(d)| && ZeroPad(d)[..|d|] == d
  {
  }

  /** Padded data and the length modulo 2^16 determine the data. */
  lemma PadInjective(d: seq<byte>, d': seq<byte>)
    requires ZeroPad(d) == ZeroPad(d') && |d| % 65536 == |d'| % 65536
    ensures d == d'
  {
    hide ZeroPad;
    PadPrefix(d);
    PadPrefix(d');
    ClosePadding(|d|, |d'|);
  }
}
