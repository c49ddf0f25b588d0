/**
  What the word operations do to single bits, and addition as addition of the numbers the bits
  stand for.
 */
module WordBits {
  import opened Words

  /** Bit i of a word, counted from the right. */
  predicate Bit(w: word, i: byte)
    requires i < 32
  {
    (w >> i) & 1 == 1
  }

  /** Bit i of a sixteen-bit field. */
  predicate Bit16(v: bv16, i: byte)
    requires i < 16
  {
    (v >> i) & 1 == 1
  }

  /** Bit i of a byte. */
  predicate Bit8(x: byte, i: byte)
    requires i < 8
  {
    (x >> i) & 1 == 1
  }

  /** Whether at least two of three hold. */
  predicate Most(a: bool, b: bool, c: bool) { (a && b) || (a && c) || (b && c) }

  /** The place n to the left of i, around the word. */
  function Around(i: byte, n: byte): (j: byte)
    requires i < 32 && n < 32
    ensures j < 32
  {
    if i + n < 32 then i + n else i + n - 32
  }

  lemma XorAt(v: word, w: word, i: byte, x: word)
    requires i < 32 && x == v ^ w
    ensures Bit(x, i) == (Bit(v, i) != Bit(w, i))
  {
  }

  lemma XorBit(v: word, w: word, i: byte)
    requires i < 32
    ensures Bit(Xor32(v, w), i) == (Bit(v, i) != Bit(w, i))
  {
    hide Bit;
    XorAt(v, w, i, Xor32(v, w));
  }

  // ----- shifts and rotations -----

  function Shl(w: word, n: byte): word
    requires n < 32
  {
    w << n
  }

  function Shr(w: word, n: byte): word
    requires n < 32
  {
    w >> n
  }

  function Or32(v: word, w: word): word { v | w }

  lemma OrBit(v: word, w: word, i: byte)
    requires i < 32
    ensures Bit(Or32(v, w), i) == (Bit(v, i) || Bit(w, i))
  {
  }

  lemma ShlUp(w: word, n: byte, i: byte, v: word)
    requires n <= i < 32 && v == w << n
    ensures Bit(v, i) == Bit(w, i - n)
  {
  }

  lemma ShlLow(w: word, n: byte, i: byte, v: word)
    requires i < n < 32 && v == w << n
    ensures !Bit(v, i)
  {
  }

  lemma ShlBit(w: word, n: byte, i: byte)
    requires n < 32 && i < 32
    ensures Bit(Shl(w, n), i) == (i >= n && Bit(w, i - n))
  {
    hide Bit;
    if i >= n {
      ShlUp(w, n, i, Shl(w, n));
    } else {
      ShlLow(w, n, i, Shl(w, n));
    }
  }

  lemma ShrDown(w: word, n: byte, i: byte, v: word)
    requires n < 32 && i < 32 && i + n < 32 && v == w >> n
    ensures Bit(v, i) == Bit(w, i + n)
  {
  }

  lemma ShrHigh(w: word, n: byte, i: byte, v: word)
    requires n < 32 && i < 32 && i + n >= 32 && v == w >> n
    ensures !Bit(v, i)
  {
  }

  lemma ShrBit(w: word, n: byte, i: byte)
    requires n < 32 && i < 32
    ensures Bit(Shr(w, n), i) == (i + n < 32 && Bit(w, i + n))
  {
    hide Bit;
    if i + n < 32 {
      ShrDown(w, n, i, Shr(w, n));
    } else {
      ShrHigh(w, n, i, Shr(w, n));
    }
  }

  lemma RotlIs(w: word, n: byte)
    requires 0 < n < 32
    ensures Rotl(w, n as word) == Or32(Shl(w, n), Shr(w, 32 - n))
  {
  }

  /** A rotation by n takes bit i n places further, around the word. */
  lemma RotlBit(w: word, n: byte, i: byte)
    requires 0 < n < 32 && i < 32
    ensures Bit(Rotl(w, n as word), Around(i, n)) == Bit(w, i)
  {
    hide Bit, Shl, Shr, Or32, Rotl;
    var j := Around(i, n);
    RotlIs(w, n);
    OrBit(Shl(w, n), Shr(w, 32 - n), j);
    ShlBit(w, n, j);
    ShrBit(w, 32 - n, j);
  }

  /** The same from where the bit arrives: bit j comes from 32 - n places further. */
  lemma RotlFrom(w: word, n: byte, j: byte)
    requires 0 < n < 32 && j < 32
    ensures Bit(Rotl(w, n as word), j) == Bit(w, Around(j, 32 - n))
  {
    hide Bit, Rotl;
    RotlBit(w, n, Around(j, 32 - n));
  }

  // ----- three words bit by bit -----

  lemma ChooseAt(x: word, y: word, z: word, i: byte, v: word)
    requires i < 32 && v == (x & y) | (!x & z)
    ensures Bit(v, i) == if Bit(x, i) then Bit(y, i) else Bit(z, i)
  {
  }

  lemma ChooseXorAt(x: word, y: word, z: word, i: byte, v: word)
    requires i < 32 && v == (x & y) ^ (!x & z)
    ensures Bit(v, i) == if Bit(x, i) then Bit(y, i) else Bit(z, i)
  {
  }

  lemma MajorityAt(x: word, y: word, z: word, i: byte, v: word)
    requires i < 32 && v == (x & y) | (x & z) | (y & z)
    ensures Bit(v, i) == Most(Bit(x, i), Bit(y, i), Bit(z, i))
  {
  }

  lemma MajorityXorAt(x: word, y: word, z: word, i: byte, v: word)
    requires i < 32 && v == (x & y) ^ (x & z) ^ (y & z)
    ensures Bit(v, i) == Most(Bit(x, i), Bit(y, i), Bit(z, i))
  {
  }

  lemma ParityAt(x: word, y: word, z: word, i: byte, v: word)
    requires i < 32 && v == x ^ y ^ z
    ensures Bit(v, i) == ((Bit(x, i) != Bit(y, i)) != Bit(z, i))
  {
  }

  lemma FourAt(a: word, b: word, c: word, d: word, i: byte, v: word)
    requires i < 32 && v == a ^ b ^ c ^ d
    ensures Bit(v, i) == (((Bit(a, i) != Bit(b, i)) != Bit(c, i)) != Bit(d, i))
  {
  }

  // ----- addition, bit by bit -----

  function Majority32(x: word, y: word, z: word): word { (x & y) | (x & z) | (y & z) }

  /** The carries of a sum, each in the place it enters. */
  function Carries(x: word, y: word): word { Xor32(Xor32(x, y), Add32(x, y)) }

  function One(i: byte): word
    requires i < 32
  {
    (1 as word) << i
  }

  predicate Has(w: word, m: word) { w & m != 0 }

  lemma BitMask(w: word, i: byte)
    requires i < 32
    ensures Bit(w, i) == Has(w, One(i))
  {
  }

  lemma OneMoves(i: byte)
    requires i < 31
    ensures One(i) != 0x80000000 && One(i + 1) == One(i) << 1
  {
  }

  lemma OneIsSingle(i: byte)
    requires i < 32
    ensures Single(One(i))
  {
  }

  predicate Single(m: word) { m != 0 && m & (m - 1) == 0 }

  lemma MajorityBit(x: word, y: word, z: word, i: byte)
    requires i < 32
    ensures Bit(Majority32(x, y, z), i) == Most(Bit(x, i), Bit(y, i), Bit(z, i))
  {
    hide Bit;
    MajorityAt(x, y, z, i, Majority32(x, y, z));
  }

  /** Each carry but the first is the majority one place further right. */
  lemma CarryMoves(x: word, y: word, c: word, m: word)
    requires c == x ^ y ^ (x + y) && Single(m) && m != 0x80000000
    ensures Has(c, m << 1) == Has(Majority32(x, y, c), m)
  {
  }

  lemma NextCarry(x: word, y: word, i: byte)
    requires i < 31
    ensures Bit(Carries(x, y), i + 1) == Most(Bit(x, i), Bit(y, i), Bit(Carries(x, y), i))
  {
    hide Bit, One, Has, Single, Carries, Majority32;
    var c := Carries(x, y);
    OneIsSingle(i);
    OneMoves(i);
    BitMask(c, i + 1);
    BitMask(Majority32(x, y, c), i);
    CarriesAre(x, y);
    CarryMoves(x, y, c, One(i));
    MajorityBit(x, y, c, i);
  }

  lemma AddIs(x: word, y: word)
    ensures Add32(x, y) == x + y
  {
  }

  lemma XorRaw(x: word, y: word, t: word)
    ensures Xor32(Xor32(x, y), t) == x ^ y ^ t
  {
  }

  lemma CarriesAre(x: word, y: word)
    ensures Carries(x, y) == x ^ y ^ (x + y)
  {
    hide Add32, Xor32;
    AddIs(x, y);
    XorRaw(x, y, x + y);
  }

  lemma FirstCarry(x: word, y: word)
    ensures !Bit(Carries(x, y), 0)
  {
  }

  /** The carry into place i. */
  predicate Carry(x: word, y: word, i: byte)
    requires i <= 32
    decreases i
  {
    i != 0 && Most(Bit(x, i - 1), Bit(y, i - 1), Carry(x, y, i - 1))
  }

  lemma {:induction false} CarryIs(x: word, y: word, i: byte)
    requires i < 32
    ensures Carry(x, y, i) == Bit(Carries(x, y), i)
    decreases i
  {
    hide Bit, Carries;
    if i == 0 {
      FirstCarry(x, y);
    } else {
      CarryIs(x, y, i - 1);
      NextCarry(x, y, i - 1);
    }
  }

  lemma XorTwice(a: word, t: word)
    ensures Xor32(a, Xor32(a, t)) == t
  {
  }

  lemma AddFromCarries(x: word, y: word)
    ensures Add32(x, y) == Xor32(Xor32(x, y), Carries(x, y))
  {
    hide Xor32, Add32;
    XorTwice(Xor32(x, y), Add32(x, y));
  }

  /** Bit i of a sum: both bits and the carry. */
  lemma SumBit(x: word, y: word, i: byte)
    requires i < 32
    ensures Bit(Add32(x, y), i) == ((Bit(x, i) != Bit(y, i)) != Carry(x, y, i))
  {
    hide Bit, Xor32, Add32, Carries, Carry;
    AddFromCarries(x, y);
    XorBit(Xor32(x, y), Carries(x, y), i);
    XorBit(x, y, i);
    CarryIs(x, y, i);
  }

  // ----- words as numbers -----

  function Pow2(n: byte): (p: nat)
    ensures p >= 1
    decreases n
  {
    if n == 0 then 1 else 2 * Pow2(n - 1)
  }

  /** The number that the rightmost n bits stand for. */
  function Low(w: word, n: byte): nat
    requires n <= 32
    decreases n
  {
    if n == 0 then 0 else Low(w, n - 1) + if Bit(w, n - 1) then Pow2(n - 1) else 0
  }

  /** The number a word stands for. */
  function Value(w: word): nat { Low(w, 32) }

  lemma {:induction false} LowBound(w: word, n: byte)
    requires n <= 32
    ensures Low(w, n) < Pow2(n)
    decreases n
  {
    hide Bit;
    if n != 0 {
      LowBound(w, n - 1);
    }
  }

  lemma {:induction false} LowAdds(x: word, y: word, n: byte)
    requires n <= 32
    ensures Low(x, n) + Low(y, n) == Low(Add32(x, y), n) + if Carry(x, y, n) then Pow2(n) else 0
    decreases n
  {
    hide Bit, Add32;
    if n != 0 {
      LowAdds(x, y, n - 1);
      SumBit(x, y, n - 1);
    }
  }

  lemma Pow32()
    ensures Pow2(32) == TWO32
  {
    assert Pow2(8) == 256;
    assert Pow2(16) == 65536;
    assert Pow2(24) == 0x1000000;
  }

  /** The sum of two words is the sum of their numbers modulo 2^32. */
  lemma AddIsModular(x: word, y: word)
    ensures Value(Add32(x, y)) == (Value(x) + Value(y)) % TWO32
    ensures Value(Add32(x, y)) < TWO32
  {
    hide Bit, Add32, Low, Carry;
    LowAdds(x, y, 32);
    LowBound(Add32(x, y), 32);
    Pow32();
  }

  lemma ModAdd(x: nat, y: nat)
    ensures (x % TWO32 + y) % TWO32 == (x + y) % TWO32
  {
  }

  /** One more summand of a sum modulo 2^32. */
  lemma AddsOn(s: word, sum: nat, y: word)
    requires Value(s) == sum % TWO32
    ensures Value(Add32(s, y)) == (sum + Value(y)) % TWO32
  {
    hide Add32, Value;
    AddIsModular(s, y);
    ModAdd(sum, Value(y));
  }

  // ----- bytes in words -----

  lemma PackAt(b0: byte, b1: byte, b2: byte, b3: byte, j: byte, v: word)
    requires j < 8 && v == Pack(b0, b1, b2, b3)
    ensures Bit(v, j + 24) == Bit8(b0, j) && Bit(v, j + 16) == Bit8(b1, j)
    ensures Bit(v, j + 8) == Bit8(b2, j) && Bit(v, j) == Bit8(b3, j)
  {
  }

  /** Bit i of a big-endian word lies in the byte i / 8 places from the last. */
  lemma Get32Bit(s: seq<byte>, o: nat, i: nat)
    requires o + 4 <= |s| && i < 32
    ensures Bit(Get32(s, o), i as byte) == Bit8(s[o + 3 - i / 8], (i % 8) as byte)
  {
    hide Bit, Bit8, Pack;
    PackAt(s[o], s[o + 1], s[o + 2], s[o + 3], (i % 8) as byte, Get32(s, o));
  }

  /** Bit i of a little-endian field lies in the byte i / 8 places from the first. */
  lemma Get16Bit(s: seq<byte>, o: nat, i: nat)
    requires o + 2 <= |s| && i < 16
    ensures Bit16(Get16(s, o), i as byte) == Bit8(s[o + i / 8], (i % 8) as byte)
  {
    hide Bit16, Bit8;
    Field16(s[o], s[o + 1], (i % 8) as byte, Get16(s, o));
  }

  lemma Field16(low: byte, high: byte, j: byte, v: bv16)
    requires j < 8 && v == ((high as bv16) << 8) | (low as bv16)
    ensures Bit16(v, j + 8) == Bit8(high, j) && Bit16(v, j) == Bit8(low, j)
  {
  }

  lemma Put16Inverse(v: bv16)
    ensures Get16(Put16(v), 0) == v
  {
  }

  lemma Field16At(s: seq<byte>, o: nat, v: bv16)
    requires o + 2 <= |s| && s[o] == Put16(v)[0] && s[o + 1] == Put16(v)[1]
    ensures Get16(s, o) == v
  {
    Put16Inverse(v);
  }
}
