/**
  The S-boxes of AES and SMS4 by algebra: inversion in a field of 256 elements between affine maps.
 */
module SboxAlgebra {
  import opened Words
  import GaloisField
  import SBox
  import Sms4Tables

  /** The low byte of the AES modulus x^8 + x^4 + x^3 + x + 1. */
  const AES_MODULUS: byte := 0x1b

  /** The low byte of the SMS4 modulus x^8 + x^7 + x^6 + x^5 + x^4 + x^2 + 1. */
  const SMS4_MODULUS: byte := 0xf5

  // ----- multiplication of polynomials modulo x^8 + m -----

  function Double(x: byte, m: byte): byte { if x & 0x80 != 0 then Xor8(x << 1, m) else x << 1 }

  function Part(x: byte, on: bool): byte { if on then x else 0 }

  /** x^i as a byte. */
  function Place(i: nat): byte
    requires i < 8
  {
    if i == 0 then 1 else if i == 1 then 2 else if i == 2 then 4 else if i == 3 then 8
    else if i == 4 then 16 else if i == 5 then 32 else if i == 6 then 64 else 128
  }

  predicate BitOf(y: byte, i: nat)
    requires i < 8
  {
    y & Place(i) != 0
  }

  /** The first n partial products: x times 1, x, x^2 and so on, where y has them. */
  function Products(x: byte, y: byte, m: byte, n: nat): byte
    requires n <= 8
  {
    if n == 0 then 0 else Xor8(Products(x, y, m, n - 1), Part(Power(x, m, n - 1), BitOf(y, n - 1)))
  }

  /** x doubled n times, which is x times the n-th power of the variable. */
  function Power(x: byte, m: byte, n: nat): byte {
    if n == 0 then x else Double(Power(x, m, n - 1), m)
  }

  function Times(x: byte, y: byte, m: byte): byte { Products(x, y, m, 8) }

  lemma ShareModulus(a: byte, b: byte, m: byte)
    ensures Xor8(Xor8(a, m), Xor8(b, m)) == Xor8(a, b)
    ensures Xor8(Xor8(a, m), b) == Xor8(Xor8(a, b), m)
    ensures Xor8(a, Xor8(b, m)) == Xor8(Xor8(a, b), m)
  {
  }

  lemma XorParts(x: byte, y: byte)
    ensures Xor8(x, y) << 1 == Xor8(x << 1, y << 1)
    ensures (Xor8(x, y) & 0x80 != 0) == ((x & 0x80 != 0) != (y & 0x80 != 0))
  {
  }

  lemma DoubleAdds(x: byte, y: byte, m: byte)
    ensures Double(Xor8(x, y), m) == Xor8(Double(x, m), Double(y, m))
    ensures Double(0, m) == 0
  {
    hide Xor8;
    XorParts(x, y);
    ShareModulus(x << 1, y << 1, m);
  }

  lemma {:induction false} PowerAdds(x: byte, y: byte, m: byte, n: nat)
    ensures Power(Xor8(x, y), m, n) == Xor8(Power(x, m, n), Power(y, m, n))
    ensures Power(0, m, n) == 0
  {
    hide Double, Xor8;
    if n > 0 {
      PowerAdds(x, y, m, n - 1);
      DoubleAdds(Power(x, m, n - 1), Power(y, m, n - 1), m);
    }
  }

  lemma SwapXors(a: byte, b: byte, c: byte, d: byte)
    ensures Xor8(Xor8(a, b), Xor8(c, d)) == Xor8(Xor8(a, c), Xor8(b, d))
  {
    assert Xor8(Xor8(a, b), Xor8(c, d)) == Xor8(a ^ b, c ^ d) == (a ^ b) ^ (c ^ d);
    assert Xor8(Xor8(a, c), Xor8(b, d)) == Xor8(a ^ c, b ^ d) == (a ^ c) ^ (b ^ d);
  }

  lemma XorZeros()
    ensures Xor8(0, 0) == 0
  {
  }

  lemma {:induction false} ProductsAdd(x: byte, x': byte, y: byte, m: byte, n: nat)
    requires n <= 8
    ensures Products(Xor8(x, x'), y, m, n) == Xor8(Products(x, y, m, n), Products(x', y, m, n))
    ensures Products(0, y, m, n) == 0
  {
    hide Power, Xor8, BitOf;
    XorZeros();
    if n > 0 {
      ProductsAdd(x, x', y, m, n - 1);
      PowerAdds(x, x', m, n - 1);
      SwapXors(Products(x, y, m, n - 1), Products(x', y, m, n - 1),
               Part(Power(x, m, n - 1), BitOf(y, n - 1)), Part(Power(x', m, n - 1), BitOf(y, n - 1)));
    }
  }

  lemma {:induction false} PowerOnce(x: byte, m: byte, n: nat)
    ensures Power(Double(x, m), m, n) == Double(Power(x, m, n), m)
  {
    hide Double;
    if n > 0 {
      PowerOnce(x, m, n - 1);
    }
  }

  lemma {:induction false} ProductsDouble(x: byte, y: byte, m: byte, n: nat)
    requires n <= 8
    ensures Products(Double(x, m), y, m, n) == Double(Products(x, y, m, n), m)
  {
    hide Double, Power, Xor8, BitOf;
    DoubleAdds(0, 0, m);
    if n > 0 {
      ProductsDouble(x, y, m, n - 1);
      PowerOnce(x, m, n - 1);
      DoubleAdds(Products(x, y, m, n - 1), Part(Power(x, m, n - 1), BitOf(y, n - 1)), m);
    }
  }

  lemma {:induction false} ProductsPower(x: byte, y: byte, m: byte, n: nat)
    ensures Times(Power(x, m, n), y, m) == Power(Times(x, y, m), m, n)
  {
    hide Double, Products;
    if n > 0 {
      ProductsPower(x, y, m, n - 1);
      ProductsDouble(Power(x, m, n - 1), y, m, 8);
    }
  }

  /** Factors change places. */
  lemma {:induction false} TimesSwaps(x: byte, y: byte, z: byte, m: byte, n: nat)
    requires n <= 8
    ensures Times(Products(x, y, m, n), z, m) == Products(Times(x, z, m), y, m, n)
  {
    hide Power, Xor8, BitOf, Times;
    if n == 0 {
      TimesAdds(0, 0, z, m);
    } else {
      var p, t := Products(x, y, m, n - 1), Power(x, m, n - 1);
      TimesSwaps(x, y, z, m, n - 1);
      ProductsPower(x, z, m, n - 1);
      TimesAdds(p, Part(t, BitOf(y, n - 1)), z, m);
      TimesAdds(0, 0, z, m);
    }
  }

  lemma TimesAdds(x: byte, x': byte, y: byte, m: byte)
    ensures Times(Xor8(x, x'), y, m) == Xor8(Times(x, y, m), Times(x', y, m))
    ensures Times(0, y, m) == 0
  {
    hide Products;
    ProductsAdd(x, x', y, m, 8);
  }

  /** A byte has one inverse at most. */
  lemma InverseUnique(x: byte, y: byte, z: byte, m: byte)
    requires Times(x, y, m) == 1 && Times(x, z, m) == 1
    ensures y == z
  {
    hide Products;
    TimesSwaps(x, y, z, m, 8);
    TimesOne(y, m);
    TimesOne(z, m);
  }

  /** A product as one sum. */
  function Flat(x: byte, y: byte, m: byte): byte {
    var x1 := Double(x, m);
    var x2 := Double(x1, m);
    var x3 := Double(x2, m);
    var x4 := Double(x3, m);
    var x5 := Double(x4, m);
    var x6 := Double(x5, m);
    var x7 := Double(x6, m);
    Eight(Part(x, y & 1 != 0), Part(x1, y & 2 != 0), Part(x2, y & 4 != 0), Part(x3, y & 8 != 0),
          Part(x4, y & 16 != 0), Part(x5, y & 32 != 0), Part(x6, y & 64 != 0), Part(x7, y & 128 != 0))
  }

  function Eight(a: byte, b: byte, c: byte, d: byte, e: byte, f: byte, g: byte, h: byte): byte {
    Xor8(Xor8(Xor8(Xor8(Xor8(Xor8(Xor8(a, b), c), d), e), f), g), h)
  }

  lemma NextProduct(x: byte, y: byte, m: byte, n: nat)
    requires n < 8
    ensures Products(x, y, m, n + 1) == Xor8(Products(x, y, m, n), Part(Power(x, m, n), y & Place(n) != 0))
    ensures Power(x, m, n + 1) == Double(Power(x, m, n), m)
  {
  }

  lemma NoProducts(x: byte, y: byte, m: byte)
    ensures Products(x, y, m, 0) == 0 && Power(x, m, 0) == x
  {
  }

  lemma TimesIsFlat(x: byte, y: byte, m: byte)
    ensures Times(x, y, m) == Flat(x, y, m)
  {
    hide Xor8, Double, Part, Power, Products;
    NoProducts(x, y, m);
    StartsAt(Part(x, y & 1 != 0));
    NextProduct(x, y, m, 0);
    NextProduct(x, y, m, 1);
    NextProduct(x, y, m, 2);
    NextProduct(x, y, m, 3);
    NextProduct(x, y, m, 4);
    NextProduct(x, y, m, 5);
    NextProduct(x, y, m, 6);
    NextProduct(x, y, m, 7);
  }

  lemma StartsAt(x: byte)
    ensures Xor8(0, x) == x
  {
  }

  lemma TimesOne(y: byte, m: byte)
    ensures Times(1, y, m) == y
  {
    hide Times, Products, Power;
    TimesIsFlat(1, y, m);
  }

  /** y is the inverse of x, or both are zero. */
  predicate Inverse(x: byte, y: byte, m: byte) { if x == 0 then y == 0 else Times(x, y, m) == 1 }

  // ----- the two boxes -----

  function Turn(x: byte, n: byte): byte
    requires 0 < n < 8
  {
    (x << n) | (x >> (8 - n))
  }

  /** The affine map of section 5.1.1 of FIPS 197. */
  function AesAffine(y: byte): byte { y ^ Turn(y, 1) ^ Turn(y, 2) ^ Turn(y, 3) ^ Turn(y, 4) ^ 0x63 }

  function AesUnaffine(z: byte): byte { Turn(z, 1) ^ Turn(z, 3) ^ Turn(z, 6) ^ 0x05 }

  lemma AesAffineInverse(y: byte)
    ensures AesUnaffine(AesAffine(y)) == y && AesAffine(AesUnaffine(y)) == y
  {
  }

  /** The affine map that SMS4 uses before and after the inversion. */
  function Sms4Affine(y: byte): byte { y ^ Turn(y, 1) ^ Turn(y, 3) ^ Turn(y, 6) ^ Turn(y, 7) ^ 0xd3 }

  /** An eighth of the table at a time. */
  lemma AesInverts(x: byte)
    requires x != 0
    ensures Flat(x, AesUnaffine(SBox.S(x)), AES_MODULUS) == 1
  {
    if x & 0xe0 == 0 {
    } else if x & 0xe0 == 0x20 {
    } else if x & 0xe0 == 0x40 {
    } else if x & 0xe0 == 0x60 {
    } else if x & 0xe0 == 0x80 {
    } else if x & 0xe0 == 0xa0 {
    } else if x & 0xe0 == 0xc0 {
    } else if x & 0xe0 == 0xe0 {
    }
  }

  /** The S-box of AES is inversion and then the affine map (section 5.1.1 of FIPS 197). */
  lemma AesBoxIsInverse(x: byte, y: byte)
    ensures SBox.S(x) == AesAffine(y) <==> Inverse(x, y, AES_MODULUS)
  {
    hide Times, Flat, AesAffine, AesUnaffine, SBox.S;
    var z := AesUnaffine(SBox.S(x));
    AesAffineInverse(y);
    AesAffineInverse(SBox.S(x));
    if x == 0 {
      AesZero();
      AesAffineInverse(0);
    } else {
      AesInverts(x);
      TimesIsFlat(x, z, AES_MODULUS);
      if Inverse(x, y, AES_MODULUS) {
        InverseUnique(x, y, z, AES_MODULUS);
      }
    }
  }

  /** The coefficients of MixColumns are products in the field. */
  lemma MixCoefficients(b: byte)
    ensures GaloisField.Xtime(b) == Times(b, 0x02, AES_MODULUS) && GaloisField.Mul3(b) == Times(b, 0x03, AES_MODULUS)
  {
    hide Times;
    TimesIsFlat(b, 0x02, AES_MODULUS);
    TimesIsFlat(b, 0x03, AES_MODULUS);
  }

  /** And so are those of its inverse. */
  lemma InverseCoefficients(b: byte)
    ensures GaloisField.Mul9(b) == Times(b, 0x09, AES_MODULUS) && GaloisField.MulB(b) == Times(b, 0x0b, AES_MODULUS)
    ensures GaloisField.MulD(b) == Times(b, 0x0d, AES_MODULUS) && GaloisField.MulE(b) == Times(b, 0x0e, AES_MODULUS)
  {
    hide Times, Flat, GaloisField.Mul9, GaloisField.MulB, GaloisField.MulD, GaloisField.MulE;
    FlatOdd(b);
    FlatEven(b);
    TimesIsFlat(b, 0x09, AES_MODULUS);
    TimesIsFlat(b, 0x0b, AES_MODULUS);
    TimesIsFlat(b, 0x0d, AES_MODULUS);
    TimesIsFlat(b, 0x0e, AES_MODULUS);
  }

  lemma FlatOdd(b: byte)
    ensures GaloisField.Mul9(b) == Flat(b, 0x09, AES_MODULUS) && GaloisField.MulB(b) == Flat(b, 0x0b, AES_MODULUS)
  {
  }

  lemma FlatEven(b: byte)
    ensures GaloisField.MulD(b) == Flat(b, 0x0d, AES_MODULUS) && GaloisField.MulE(b) == Flat(b, 0x0e, AES_MODULUS)
  {
  }

  lemma AesZero()
    ensures SBox.S(0) == AesAffine(0)
  {
  }

  function Sms4Unaffine(z: byte): byte { z ^ Turn(z, 2) ^ Turn(z, 7) ^ 0x75 }

  lemma Sms4AffineInverse(y: byte)
    ensures Sms4Unaffine(Sms4Affine(y)) == y && Sms4Affine(Sms4Unaffine(y)) == y
  {
  }

  /** An eighth of the table at a time. */
  lemma Sms4Inverts(x: byte)
    requires Sms4Affine(x) != 0
    ensures Flat(Sms4Affine(x), Sms4Unaffine(Sms4Tables.S(x)), SMS4_MODULUS) == 1
  {
    if x & 0xe0 == 0 {
    } else if x & 0xe0 == 0x20 {
    } else if x & 0xe0 == 0x40 {
    } else if x & 0xe0 == 0x60 {
    } else if x & 0xe0 == 0x80 {
    } else if x & 0xe0 == 0xa0 {
    } else if x & 0xe0 == 0xc0 {
    } else if x & 0xe0 == 0xe0 {
    }
  }

  lemma Sms4Zero(x: byte)
    requires Sms4Affine(x) == 0
    ensures Sms4Tables.S(x) == Sms4Affine(0)
  {
  }

  /** The S-box of SMS4 is the affine map, inversion, and the affine map again. */
  lemma Sms4BoxIsInverse(x: byte, y: byte)
    ensures Sms4Tables.S(x) == Sms4Affine(y) <==> Inverse(Sms4Affine(x), y, SMS4_MODULUS)
  {
    hide Times, Flat, Sms4Affine, Sms4Unaffine, Sms4Tables.S;
    var u, z := Sms4Affine(x), Sms4Unaffine(Sms4Tables.S(x));
    Sms4AffineInverse(y);
    Sms4AffineInverse(Sms4Tables.S(x));
    if u == 0 {
      Sms4Zero(x);
      Sms4AffineInverse(0);
    } else {
      Sms4Inverts(x);
      TimesIsFlat(u, z, SMS4_MODULUS);
      if Inverse(u, y, SMS4_MODULUS) {
        InverseUnique(u, y, z, SMS4_MODULUS);
      }
    }
  }
}
