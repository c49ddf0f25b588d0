/**
  GF(2^8) as AES uses it: addition, doubling, the constant multiplications of MixColumns and of
  its inverse, and the fact that the two circulant matrices undo each other.

  Addition is kept as a named function so that proofs about the matrices are algebra over sums
  and not over the bits of the bytes.
 */
module GaloisField {
  import opened Words

  /** Addition in the field. */
  function Add(x: byte, y: byte): byte { x ^ y }

  function Add4(a: byte, b: byte, c: byte, d: byte): byte { Add(Add(a, b), Add(c, d)) }

  /**
    Multiplication by x modulo x^8 + x^4 + x^3 + x + 1. The bit shifted out is folded back
    at the four low positions of the modulus, so the map is visibly linear in the bits.
   */
  function Xtime(b: byte): byte {
    var t := b >> 7;
    (b << 1) ^ t ^ (t << 1) ^ (t << 3) ^ (t << 4)
  }

  /** The conditional form of section 4.2.1 of FIPS 197. */
  lemma XtimeConditional(b: byte)
    ensures Xtime(b) == if b & 0x80 != 0 then (b << 1) ^ 0x1b else b << 1
  {
  }

  function Mul4(b: byte): byte { Xtime(Xtime(b)) }
  function Mul8(b: byte): byte { Xtime(Xtime(Xtime(b))) }
  function Mul3(b: byte): byte { Add(Xtime(b), b) }
  function Mul9(b: byte): byte { Add(Mul8(b), b) }
  function MulB(b: byte): byte { Add(Mul8(b), Add(Xtime(b), b)) }
  function MulD(b: byte): byte { Add(Mul8(b), Add(Mul4(b), b)) }
  function MulE(b: byte): byte { Add(Mul8(b), Add(Mul4(b), Xtime(b))) }

  lemma AddPairs(a: byte, b: byte, c: byte, d: byte)
    ensures Add(Add(a, b), Add(c, d)) == Add(Add(a, c), Add(b, d))
  {
    assert Add(Add(a, b), Add(c, d)) == Add(a ^ b, c ^ d) == (a ^ b) ^ (c ^ d);
    assert Add(Add(a, c), Add(b, d)) == Add(a ^ c, b ^ d) == (a ^ c) ^ (b ^ d);
  }

  lemma Add4Pairs(a: byte, b: byte, c: byte, d: byte, a': byte, b': byte, c': byte, d': byte)
    ensures Add(Add4(a, b, c, d), Add4(a', b', c', d')) == Add4(Add(a, a'), Add(b, b'), Add(c, c'), Add(d, d'))
  {
    AddPairs(Add(a, b), Add(c, d), Add(a', b'), Add(c', d'));
    AddPairs(a, b, a', b');
    AddPairs(c, d, c', d');
  }

  lemma XtimeAdd(x: byte, y: byte)
    ensures Xtime(Add(x, y)) == Add(Xtime(x), Xtime(y))
  {
  }

  lemma Mul48Add(x: byte, y: byte)
    ensures Mul4(Add(x, y)) == Add(Mul4(x), Mul4(y))
    ensures Mul8(Add(x, y)) == Add(Mul8(x), Mul8(y))
  {
    XtimeAdd(x, y);
    XtimeAdd(Xtime(x), Xtime(y));
    XtimeAdd(Xtime(Xtime(x)), Xtime(Xtime(y)));
  }

  lemma MulsAdd(x: byte, y: byte)
    ensures Mul3(Add(x, y)) == Add(Mul3(x), Mul3(y))
    ensures Mul9(Add(x, y)) == Add(Mul9(x), Mul9(y))
    ensures MulB(Add(x, y)) == Add(MulB(x), MulB(y))
    ensures MulD(Add(x, y)) == Add(MulD(x), MulD(y))
    ensures MulE(Add(x, y)) == Add(MulE(x), MulE(y))
  {
    XtimeAdd(x, y);
    Mul48Add(x, y);
    AddPairs(Xtime(x), Xtime(y), x, y);
    AddPairs(Mul8(x), Mul8(y), x, y);
    AddPairs(Mul8(x), Mul8(y), Add(Xtime(x), x), Add(Xtime(y), y));
    AddPairs(Mul4(x), Mul4(y), x, y);
    AddPairs(Mul8(x), Mul8(y), Add(Mul4(x), x), Add(Mul4(y), y));
    AddPairs(Mul4(x), Mul4(y), Xtime(x), Xtime(y));
    AddPairs(Mul8(x), Mul8(y), Add(Mul4(x), Xtime(x)), Add(Mul4(y), Xtime(y)));
  }

  lemma XtimeAdd4(a: byte, b: byte, c: byte, d: byte)
    ensures Xtime(Add4(a, b, c, d)) == Add4(Xtime(a), Xtime(b), Xtime(c), Xtime(d))
  {
    XtimeAdd(Add(a, b), Add(c, d));
    XtimeAdd(a, b);
    XtimeAdd(c, d);
  }

  lemma Mul39Add4(a: byte, b: byte, c: byte, d: byte)
    ensures Mul3(Add4(a, b, c, d)) == Add4(Mul3(a), Mul3(b), Mul3(c), Mul3(d))
    ensures Mul9(Add4(a, b, c, d)) == Add4(Mul9(a), Mul9(b), Mul9(c), Mul9(d))
  {
    MulsAdd(Add(a, b), Add(c, d));
    MulsAdd(a, b);
    MulsAdd(c, d);
  }

  lemma MulBDAdd4(a: byte, b: byte, c: byte, d: byte)
    ensures MulB(Add4(a, b, c, d)) == Add4(MulB(a), MulB(b), MulB(c), MulB(d))
    ensures MulD(Add4(a, b, c, d)) == Add4(MulD(a), MulD(b), MulD(c), MulD(d))
  {
    MulsAdd(Add(a, b), Add(c, d));
    MulsAdd(a, b);
    MulsAdd(c, d);
  }

  lemma MulEAdd4(a: byte, b: byte, c: byte, d: byte)
    ensures MulE(Add4(a, b, c, d)) == Add4(MulE(a), MulE(b), MulE(c), MulE(d))
  {
    MulsAdd(Add(a, b), Add(c, d));
    MulsAdd(a, b);
    MulsAdd(c, d);
  }

  /** The two circulant matrices multiply to the identity, coefficient by coefficient. */
  lemma MixThenInverse(b: byte)
    ensures Add4(MulE(Xtime(b)), MulB(b), MulD(b), Mul9(Mul3(b))) == b
    ensures Add4(MulE(Mul3(b)), MulB(Xtime(b)), MulD(b), Mul9(b)) == 0
  {
  }

  lemma MixThenInverse'(b: byte)
    ensures Add4(MulE(b), MulB(Mul3(b)), MulD(Xtime(b)), Mul9(b)) == 0
    ensures Add4(MulE(b), MulB(b), MulD(Mul3(b)), Mul9(Xtime(b))) == 0
  {
  }

  lemma InverseThenMix(b: byte)
    ensures Add4(Xtime(MulE(b)), Mul3(Mul9(b)), MulD(b), MulB(b)) == b
    ensures Add4(Xtime(MulB(b)), Mul3(MulE(b)), Mul9(b), MulD(b)) == 0
  {
  }

  lemma InverseThenMix'(b: byte)
    ensures Add4(Xtime(MulD(b)), Mul3(MulB(b)), MulE(b), Mul9(b)) == 0
    ensures Add4(Xtime(Mul9(b)), Mul3(MulD(b)), MulB(b), MulE(b)) == 0
  {
  }

  /** Summing a 4x4 table by rows is summing it by columns. */
  lemma AddGrid(a0: byte, a1: byte, a2: byte, a3: byte, b0: byte, b1: byte, b2: byte, b3: byte,
                c0: byte, c1: byte, c2: byte, c3: byte, d0: byte, d1: byte, d2: byte, d3: byte)
    ensures Add4(Add4(a0, b0, c0, d0), Add4(a1, b1, c1, d1), Add4(a2, b2, c2, d2), Add4(a3, b3, c3, d3))
         == Add4(Add4(a0, a1, a2, a3), Add4(b0, b1, b2, b3), Add4(c0, c1, c2, c3), Add4(d0, d1, d2, d3))
  {
    Add4Pairs(a0, b0, c0, d0, a1, b1, c1, d1);
    Add4Pairs(a2, b2, c2, d2, a3, b3, c3, d3);
    Add4Pairs(Add(a0, a1), Add(b0, b1), Add(c0, c1), Add(d0, d1),
              Add(a2, a3), Add(b2, b3), Add(c2, c3), Add(d2, d3));
  }

  lemma AddZeros(a: byte)
    ensures Add4(a, 0, 0, 0) == a
  {
  }

  lemma AddRotate(a: byte, b: byte, c: byte, d: byte)
    ensures Add4(a, b, c, d) == Add4(b, c, d, a)
  {
    assert Add4(a, b, c, d) == Add(a ^ b, c ^ d) == (a ^ b) ^ (c ^ d);
    assert Add4(b, c, d, a) == Add(b ^ c, d ^ a) == (b ^ c) ^ (d ^ a);
  }

  /** The first row of InvMixColumns applied to the four rows of MixColumns. */
  lemma InverseOfMixRow(a: byte, b: byte, c: byte, d: byte)
    ensures Add4(MulE(Add4(Xtime(a), Mul3(b), c, d)), MulB(Add4(a, Xtime(b), Mul3(c), d)),
                 MulD(Add4(a, b, Xtime(c), Mul3(d))), Mul9(Add4(Mul3(a), b, c, Xtime(d)))) == a
  {
    MulEAdd4(Xtime(a), Mul3(b), c, d);
    MulBDAdd4(a, Xtime(b), Mul3(c), d);
    MulBDAdd4(a, b, Xtime(c), Mul3(d));
    Mul39Add4(Mul3(a), b, c, Xtime(d));
    AddGrid(MulE(Xtime(a)), MulB(a), MulD(a), Mul9(Mul3(a)),
            MulE(Mul3(b)), MulB(Xtime(b)), MulD(b), Mul9(b),
            MulE(c), MulB(Mul3(c)), MulD(Xtime(c)), Mul9(c),
            MulE(d), MulB(d), MulD(Mul3(d)), Mul9(Xtime(d)));
    MixThenInverse(a);
    MixThenInverse(b);
    MixThenInverse'(c);
    MixThenInverse'(d);
    AddZeros(a);
  }

  /** The first row of MixColumns applied to the four rows of InvMixColumns. */
  lemma MixOfInverseRow(a: byte, b: byte, c: byte, d: byte)
    ensures Add4(Xtime(Add4(MulE(a), MulB(b), MulD(c), Mul9(d))), Mul3(Add4(Mul9(a), MulE(b), MulB(c), MulD(d))),
                 Add4(MulD(a), Mul9(b), MulE(c), MulB(d)), Add4(MulB(a), MulD(b), Mul9(c), MulE(d))) == a
  {
    XtimeAdd4(MulE(a), MulB(b), MulD(c), Mul9(d));
    Mul39Add4(Mul9(a), MulE(b), MulB(c), MulD(d));
    AddGrid(Xtime(MulE(a)), Mul3(Mul9(a)), MulD(a), MulB(a),
            Xtime(MulB(b)), Mul3(MulE(b)), Mul9(b), MulD(b),
            Xtime(MulD(c)), Mul3(MulB(c)), MulE(c), Mul9(c),
            Xtime(Mul9(d)), Mul3(MulD(d)), MulB(d), MulE(d));
    InverseThenMix(a);
    InverseThenMix(b);
    InverseThenMix'(c);
    InverseThenMix'(d);
    AddZeros(a);
  }
}
