/**
  CMAC of aes.c: the byte loops that derive the subkeys are doubling in GF(2^128), and the
  authentication code is the recursion of section 2.4 of RFC 4493.
 */
module Cmac {
  import opened Words
  import opened BlockCipher
  import opened CbcMac
  import WordBits

  // ----- doubling -----

  function TopBit(x: byte): byte { (x & 0x80) >> 7 }

  function ShiftIn(x: byte, c: byte): byte { (x << 1) | c }

  /** s shifted left by one bit, with c entering at the right. */
  function ShiftLeft(s: seq<byte>, c: byte): (r: seq<byte>)
    ensures |r| == |s|
  {
    if s == [] then [] else
      var x := s[|s| - 1];
      ShiftLeft(s[..|s| - 1], TopBit(x)) + [ShiftIn(x, c)]
  }

  /** The reduction constant for 128-bit blocks goes into the last byte. */
  function Reduce(b: Block): Block { b[15 := b[15] ^ 0x87] }

  /** What one subkey loop computes. */
  function Double(b: Block): Block {
    var s: Block := ShiftLeft(b, 0);
    if b[0] & 0x80 != 0 then Reduce(s) else s
  }

  lemma ShiftInValue(x: byte, c: byte)
    requires c == 0 || c == 1
    ensures TopBit(x) == 0 || TopBit(x) == 1
    ensures Num(TopBit(x)) == if Num(x) >= 128 then 1 else 0
    ensures Num(ShiftIn(x, c)) == 2 * Num(x) + Num(c) - 256 * Num(TopBit(x))
  {
  }

  /** The bit that leaves at the left. */
  function CarryOut(s: seq<byte>, c: byte): byte {
    if s == [] then c else TopBit(s[0])
  }

  /** Doubling a number digit by digit: the low digit's carry t goes into the high part. */
  lemma DoubleDigits(v: nat, r: nat, p: nat, k: nat, x: nat, t: nat, c: nat)
    requires r + p * k == 2 * v + t
    ensures 256 * r + (2 * x + c - 256 * t) + (256 * p) * k == 2 * (256 * v + x) + c
  {
    assert (256 * p) * k == 256 * (p * k);
  }

  /** A left shift doubles the number, with the carry as the digit beyond the width. */
  lemma {:induction false} ShiftLeftDoubles(s: seq<byte>, c: byte)
    requires c == 0 || c == 1
    ensures BigEndian(ShiftLeft(s, c)) + Pow256(|s|) * Num(CarryOut(s, c)) == 2 * BigEndian(s) + Num(c)
  {
    hide Num, TopBit, ShiftIn;
    if s == [] {
      assert Pow256(0) == 1;
    } else {
      var n := |s| - 1;
      var x, s' := s[n], s[..n];
      ShiftInValue(x, c);
      ShiftLeftDoubles(s', TopBit(x));
      var r := ShiftLeft(s, c);
      assert r[..n] == ShiftLeft(s', TopBit(x)) && r[n] == ShiftIn(x, c);
      DoubleDigits(BigEndian(s'), BigEndian(r[..n]), Pow256(n),
                   Num(CarryOut(s', TopBit(x))), Num(x), Num(TopBit(x)), Num(c));
    }
  }

  /** The number of a block lies below 2^128, and its top bit says on which side of the middle. */
  lemma {:induction false} BigEndianBound(s: seq<byte>)
    ensures BigEndian(s) < Pow256(|s|)
  {
    hide Num;
    if s != [] {
      BigEndianBound(s[..|s| - 1]);
      NumBound(s[|s| - 1]);
    }
  }

  /**
    Doubling in GF(2^128) (section 2.3 of RFC 4493): when 2v is below 2^128 the result holds 2v;
    otherwise it holds 2v - 2^128 with the reduction constant added into the last byte.
   */
  lemma DoubleIsFieldDouble(b: Block)
    ensures 2 * BigEndian(b) < Pow256(16) ==> BigEndian(Double(b)) == 2 * BigEndian(b)
    ensures 2 * BigEndian(b) >= Pow256(16) ==>
      exists s: Block :: BigEndian(s) == 2 * BigEndian(b) - Pow256(16) && Double(b) == Reduce(s)
  {
    hide Reduce, ShiftLeft, BigEndian, Num, Pow256;
    var s: Block := ShiftLeft(b, 0);
    ShiftLeftDoubles(b, 0);
    BigEndianBound(s);
    BigEndianBound(b);
    TopBitTest(b[0]);
    BitNumbers();
  }

  lemma BitNumbers()
    ensures Num(0) == 0 && Num(1) == 1
  {
  }

  lemma TopBitTest(x: byte)
    ensures TopBit(x) == if x & 0x80 != 0 then 1 else 0
  {
  }

  // ----- doubling bit by bit -----

  /** Bit i of a block, counted from the right. */
  predicate BlockBit(b: Block, i: nat)
    requires i < 128
  {
    WordBits.Bit8(b[15 - i / 8], (i % 8) as byte)
  }

  lemma ShiftInBit(x: byte, y: byte, j: byte)
    requires j < 8
    ensures WordBits.Bit8(ShiftIn(x, TopBit(y)), j)
         == if j == 0 then WordBits.Bit8(y, 7) else WordBits.Bit8(x, j - 1)
    ensures WordBits.Bit8(ShiftIn(x, 0), j) == (j != 0 && WordBits.Bit8(x, j - 1))
  {
  }

  lemma {:induction false} ShiftLeftAt(s: seq<byte>, c: byte, k: nat)
    requires k < |s|
    ensures ShiftLeft(s, c)[k] == ShiftIn(s[k], if k + 1 < |s| then TopBit(s[k + 1]) else c)
  {
    hide TopBit, ShiftIn;
    if k + 1 < |s| {
      ShiftLeftAt(s[..|s| - 1], TopBit(s[|s| - 1]), k);
    }
  }

  /** Bit j of the reduction constant. */
  lemma ReduceBit(x: byte, j: byte)
    requires j < 8
    ensures WordBits.Bit8(x ^ 0x87, j) == (WordBits.Bit8(x, j) != (j < 3 || j == 7))
  {
  }

  lemma TopBitIs(x: byte)
    ensures (x & 0x80 != 0) == WordBits.Bit8(x, 7)
  {
  }

  lemma ByteIndex(i: nat)
    requires 0 < i < 128
    ensures if i % 8 == 0 then (i - 1) / 8 == i / 8 - 1 && (i - 1) % 8 == 7
            else (i - 1) / 8 == i / 8 && (i - 1) % 8 == i % 8 - 1
  {
  }

  lemma ShiftLeftBit(b: Block, i: nat)
    requires i < 128
    ensures BlockBit(ShiftLeft(b, 0), i) == (i > 0 && BlockBit(b, i - 1))
  {
    hide ShiftLeft, ShiftIn, TopBit, WordBits.Bit8;
    var k := 15 - i / 8;
    ShiftLeftAt(b, 0, k);
    ShiftInBit(b[k], if k < 15 then b[k + 1] else 0, (i % 8) as byte);
    if i > 0 {
      ByteIndex(i);
    }
  }

  predicate Tap(i: nat) { i == 0 || i == 1 || i == 2 || i == 7 }

  lemma ReducedBit(s: Block, i: nat)
    requires i < 128
    ensures BlockBit(Reduce(s), i) == (BlockBit(s, i) != Tap(i))
  {
    hide WordBits.Bit8;
    if i < 8 {
      ReduceBit(s[15], i as byte);
      assert i % 8 == i && 15 - i / 8 == 15;
    } else {
      assert 15 - i / 8 < 15;
    }
  }

  /**
    Every bit moves one place up; the bit that leaves at the top enters again at places 0, 1, 2 and 7,
    the terms of x^128 modulo x^128 + x^7 + x^2 + x + 1.
   */
  lemma DoubleBit(b: Block, i: nat)
    requires i < 128
    ensures BlockBit(Double(b), i)
         == ((i > 0 && BlockBit(b, i - 1)) != (BlockBit(b, 127) && (i == 0 || i == 1 || i == 2 || i == 7)))
  {
    hide ShiftLeft, Reduce, WordBits.Bit8;
    ShiftLeftBit(b, i);
    ReducedBit(ShiftLeft(b, 0), i);
    TopBitIs(b[0]);
    TopPlace(b);
  }

  lemma TopPlace(b: Block)
    ensures BlockBit(b, 127) == WordBits.Bit8(b[0], 7)
  {
    hide WordBits.Bit8;
    assert (127 % 8) as byte == 7;
  }

  /** K1 from E(0), K2 from K1. */
  function SubKeys(E: BlockFn): (Block, Block) {
    var k1 := Double(E(ZERO_BLOCK));
    (k1, Double(k1))
  }

  // ----- the authentication code -----

  /** A partial block with a one bit and zeros behind it. */
  function PadOne(m: seq<byte>): Block
    requires |m| < 16
  {
    m + [0x80] + Zeros(15 - |m|)
  }

  /** Different partial blocks stay different when padded. */
  lemma PadOneInjective(m: seq<byte>, m': seq<byte>)
    requires |m| < 16 && |m'| < 16
    ensures PadOne(m) == PadOne(m') <==> m == m'
  {
    if PadOne(m) == PadOne(m') {
      PadOneEnds(m);
      PadOneEnds(m');
      assert m == PadOne(m)[..|m|] && m' == PadOne(m')[..|m'|];
    }
  }

  /** The marker is the last byte that is not zero. */
  lemma PadOneEnds(m: seq<byte>)
    requires |m| < 16
    ensures PadOne(m)[|m|] == 0x80 && forall k :: |m| < k < 16 ==> PadOne(m)[k] == 0
  {
  }

  /** The recursion of section 2.4 of RFC 4493, from chaining value x. */
  function Mac(E: BlockFn, k1: Block, k2: Block, x: Block, m: seq<byte>): Block
    decreases |m|
  {
    if |m| > 16 then Mac(E, k1, k2, E(XorBlock(x, m[..16])), m[16..])
    else if |m| == 16 then E(XorBlock(x, Xor(k1, m)))
    else E(XorBlock(x, Xor(k2, PadOne(m))))
  }

  /** The iterative form: chain all blocks but the last, then treat the last one. */
  lemma {:induction false} MacByBlocks(E: BlockFn, k1: Block, k2: Block, x: Block, m: seq<byte>, n: nat)
    requires if m == [] then n == 1 else 16 * (n - 1) < |m| <= 16 * n
    ensures Mac(E, k1, k2, x, m) == Mac(E, k1, k2, Cbc(E, x, m[..16 * (n - 1)]), m[16 * (n - 1)..])
    decreases |m|
  {
    hide XorBlock, PadOne, Xor;
    if |m| > 16 {
      MacByBlocks(E, k1, k2, E(XorBlock(x, m[..16])), m[16..], n - 1);
      var c := m[..16 * (n - 1)];
      assert c[..16] == m[..16] && c[16..] == m[16..][..16 * (n - 2)];
      assert m[16..][16 * (n - 2)..] == m[16 * (n - 1)..];
    } else {
      assert n == 1 && m[..0] == [] && m[0..] == m;
    }
  }

  lemma MacLast(E: BlockFn, k1: Block, k2: Block, x: Block, m: seq<byte>)
    requires |m| <= 16
    ensures Mac(E, k1, k2, x, m) == E(XorBlock(x, if |m| == 16 then Xor(k1, m) else Xor(k2, PadOne(m))))
  {
    hide XorBlock, PadOne, Xor;
  }

  // ----- the code -----

  /** The subkey loop: from the last byte up, each byte takes the top bit of the one below. */
  method DoubleInto(L: array<byte>, K: array<byte>)
    requires L.Length == 16 && K.Length == 16 && L != K
    modifies K
    ensures K[..] == Double(L[..])
  {
    hide TopBit, ShiftIn, ShiftLeft;
    ghost var l := L[..];
    ghost var r := ShiftLeft(l, 0);
    var high: byte := 0;
    var i := 15;
    assert l[..16] == l && r[..16] == r;
    while i >= 0
      invariant -1 <= i <= 15
      invariant forall x :: i < x < 16 ==> K[x] == r[x]
      invariant r[..i + 1] == ShiftLeft(l[..i + 1], high)
    {
      ShiftLeftLast(l[..i + 1], high);
      assert l[..i + 1][..i] == l[..i] && r[..i + 1][..i] == r[..i] && r[..i + 1][i] == r[i];
      K[i] := ShiftIn(L[i], high);
      high := TopBit(L[i]);
      i := i - 1;
    }
    assert K[..] == r;
    if L[0] & 0x80 != 0 {
      K[15] := K[15] ^ 0x87;
    }
  }

  lemma ShiftLeftLast(s: seq<byte>, c: byte)
    requires s != []
    ensures var n := |s| - 1;
            ShiftLeft(s, c)[..n] == ShiftLeft(s[..n], TopBit(s[n])) && ShiftLeft(s, c)[n] == ShiftIn(s[n], c)
  {
    hide TopBit, ShiftIn;
  }

  /** aes_cmac_gen_subkeys, with the key as a block function. */
  method GenSubkeys(E: BlockFn, K1: array<byte>, K2: array<byte>)
    requires K1.Length == 16 && K2.Length == 16 && K1 != K2
    modifies K1, K2
    ensures (K1[..], K2[..]) == SubKeys(E)
  {
    hide Double;
    var L := new byte[16];
    forall i | 0 <= i < 16 {
      L[i] := 0;
    }
    assert L[..] == ZERO_BLOCK;
    ApplyBlock(E, L, L);
    DoubleInto(L, K1);
    DoubleInto(K1, K2);
  }

  /** An incomplete block with its marker and zeros. */
  method PadBlock(ptxt: array<byte>, o: nat, m: nat, Mn: array<byte>)
    requires Mn.Length == 16 && Mn != ptxt && m < 16 && o + m <= ptxt.Length
    modifies Mn
    ensures Mn[..] == PadOne(ptxt[o..o + m])
  {
    var i := 0;
    while i < m
      invariant 0 <= i <= m
      invariant Mn[..i] == ptxt[o..o + i]
    {
      Mn[i] := ptxt[o + i];
      i := i + 1;
    }
    Mn[m] := 0x80;
    i := m + 1;
    while i < 16
      invariant m + 1 <= i <= 16
      invariant Mn[..i] == ptxt[o..o + m] + [0x80] + Zeros(i - m - 1)
    {
      Mn[i] := 0;
      i := i + 1;
    }
    assert Mn[..] == Mn[..16];
  }

  /** The last block: under K1 when complete, padded and under K2 otherwise. */
  method LastBlock(K1: array<byte>, K2: array<byte>, ptxt: array<byte>, o: nat, m: nat, Mn: array<byte>)
    requires K1.Length == 16 && K2.Length == 16 && Mn.Length == 16
    requires Mn != K1 && Mn != K2 && Mn != ptxt && m <= 16 && o + m <= ptxt.Length
    modifies Mn
    ensures Mn[..] == if m == 16 then Xor(K1[..], ptxt[o..o + m]) else Xor(K2[..], PadOne(ptxt[o..o + m]))
  {
    hide Xor;
    if m == 16 {
      XorInto(Mn, 0, K1, 0, ptxt, o, 16);
      assert K1[0..0 + 16] == K1[..];
    } else {
      PadBlock(ptxt, o, m, Mn);
      assert Mn[0..0 + 16] == Mn[..] && K2[0..0 + 16] == K2[..];
      XorInto(Mn, 0, K2, 0, Mn, 0, 16);
    }
  }

  /** The chaining loop of aes_cmac over all blocks but the last. */
  method ChainBlocks(E: BlockFn, C: array<byte>, ptxt: array<byte>, n: nat)
    requires C.Length == 16 && C != ptxt && n >= 1 && 16 * (n - 1) <= ptxt.Length
    modifies C
    ensures C[..] == Cbc(E, old(C[..]), old(ptxt[..16 * (n - 1)]))
  {
    hide XorBlock, Cbc;
    ghost var x: Block, m := C[..], ptxt[..16 * (n - 1)];
    var tmp := new byte[16];
    var i := 1;
    CbcNothing(E, x);
    assert m[..0] == [];
    while i < n
      invariant 1 <= i <= n
      invariant C[..] == Cbc(E, x, m[..16 * (i - 1)])
    {
      CbcStep(E, x, m[..16 * (i - 1)], m[16 * (i - 1)..16 * i]);
      assert m[..16 * (i - 1)] + m[16 * (i - 1)..16 * i] == m[..16 * i];
      assert ptxt[16 * (i - 1)..16 * (i - 1) + 16] == m[16 * (i - 1)..16 * i];
      XorWhole(tmp, C, ptxt, 16 * (i - 1));
      ApplyBlock(E, tmp, C);
      i := i + 1;
    }
    assert m[..16 * (n - 1)] == m;
  }

  /** aes_cmac, with the key as a block function. */
  method AesCmac(E: BlockFn, K1: array<byte>, K2: array<byte>, dataLen: nat, ptxt: array<byte>, mac: array<byte>)
    requires K1.Length == 16 && K2.Length == 16 && mac.Length == 16 && dataLen <= ptxt.Length
    modifies mac
    ensures mac[..] == Mac(E, old(K1[..]), old(K2[..]), ZERO_BLOCK, old(ptxt[..dataLen]))
  {
    hide Xor, XorBlock, PadOne, Cbc, Mac;
    ghost var m, k1: Block, k2: Block := ptxt[..dataLen], K1[..], K2[..];
    var n := if dataLen == 0 then 1 else (dataLen + 15) / 16;
    ghost var last := m[16 * (n - 1)..];
    MacByBlocks(E, k1, k2, ZERO_BLOCK, m, n);
    MacLast(E, k1, k2, Cbc(E, ZERO_BLOCK, m[..16 * (n - 1)]), last);
    var Mn, C := new byte[16], new byte[16];
    LastBlock(K1, K2, ptxt, 16 * (n - 1), dataLen - 16 * (n - 1), Mn);
    assert ptxt[16 * (n - 1)..16 * (n - 1) + (dataLen - 16 * (n - 1))] == last;
    ghost var mn := Mn[..];
    forall i | 0 <= i < 16 {
      C[i] := 0;
    }
    assert C[..] == ZERO_BLOCK && ptxt[..16 * (n - 1)] == m[..16 * (n - 1)];
    ChainBlocks(E, C, ptxt, n);
    assert Mn[..] == mn;
    FinishMac(E, C, Mn, mac);
  }

  /** The last block through the cipher, and the copy into mac. */
  method FinishMac(E: BlockFn, C: array<byte>, Mn: array<byte>, mac: array<byte>)
    requires C.Length == 16 && Mn.Length == 16 && mac.Length == 16
    modifies C, mac
    ensures mac[..] == E(XorBlock(old(C[..]), old(Mn[..])))
  {
    hide XorBlock;
    var tmp := new byte[16];
    assert Mn[0..0 + 16] == Mn[..];
    XorWhole(tmp, C, Mn, 0);
    ApplyBlock(E, tmp, C);
    forall k | 0 <= k < 16 {
      mac[k] := C[k];
    }
    assert mac[..] == C[..];
  }

  /** xor_128bit_block of a chaining value and a message block. */
  method XorWhole(tmp: array<byte>, C: array<byte>, b: array<byte>, o: nat)
    requires tmp.Length == 16 && C.Length == 16 && o + 16 <= b.Length && tmp != C && tmp != b
    modifies tmp
    ensures tmp[..] == XorBlock(C[..], b[o..o + 16])
  {
    XorInto(tmp, 0, C, 0, b, o, 16);
    assert tmp[..] == XorBlock(C[..], b[o..o + 16]);
  }

  /** AES-CMAC of a message: the recursion under the subkeys of the cipher (section 2.4 of RFC 4493). */
  function CmacOf(E: BlockFn, m: seq<byte>): Block {
    var k1 := Double(E(ZERO_BLOCK));
    Mac(E, k1, Double(k1), ZERO_BLOCK, m)
  }

  /** aes_cmac_calc: subkeys and code in one go. */
  method AesCmacCalc(E: BlockFn, data: array<byte>, dataLen: nat, mic: array<byte>)
    requires dataLen <= data.Length && mic.Length == 16
    modifies mic
    ensures mic[..] == CmacOf(E, old(data[..dataLen]))
  {
    hide Double, Mac;
    ghost var m := data[..dataLen];
    var K1, K2 := new byte[16], new byte[16];
    GenSubkeys(E, K1, K2);
    assert data[..dataLen] == m;
    AesCmac(E, K1, K2, dataLen, data, mic);
  }
}
