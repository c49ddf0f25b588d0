/**
  The CKIP message integrity code of ccx.c: the streaming MMH accumulation with its cached
  AES coefficients, the two-step reduction, and the packet MIC and its check.
 */
module CkipMic {
  import opened Words
  import opened BlockCipher
  import Aes

  /** The MMH prime. */
  const PRIME := 0x1_0000_000F

  // ----- the accumulated sum -----

  /** GETBIG32. */
  function Big32(s: seq<byte>, i: nat): nat
    requires i + 4 <= |s|
  {
    0x1000000 * Num(s[i]) + 0x10000 * Num(s[i + 1]) + 0x100 * Num(s[i + 2]) + Num(s[i + 3])
  }

  predicate Key(key: seq<byte>) { |key| == 16 }

  /** Coefficient block c: the AES image of the counter c. */
  function CoefficientBlock(key: seq<byte>, c: nat): Block
    requires Key(key)
  {
    Aes.Encrypt(key, Zeros(12) + WordBytes(c))
  }

  /** The coefficient of message word w. */
  function Coefficient(key: seq<byte>, w: nat): nat
    requires Key(key)
  {
    Big32(CoefficientBlock(key, w / 4), 4 * (w % 4))
  }

  /** MIC_ACCUM: a product added in 64 bits. */
  function Raised(accum: nat, v: nat, c: nat): (a: nat)
    ensures a < TWO64
  {
    (accum + v * c) % TWO64
  }

  /** The sum over the first n words. */
  function Accum(key: seq<byte>, m: seq<byte>, n: nat): (a: nat)
    requires Key(key) && 4 * n <= |m|
    ensures a < TWO64
  {
    if n == 0 then 0 else Raised(Accum(key, m, n - 1), Big32(m, 4 * (n - 1)), Coefficient(key, n - 1))
  }

  /** The sum over the first words does not look at what follows them. */
  lemma {:induction false} AccumPrefix(key: seq<byte>, m: seq<byte>, t: seq<byte>, n: nat)
    requires Key(key) && 4 * n <= |m|
    ensures Accum(key, m + t, n) == Accum(key, m, n)
  {
    hide Num, Coefficient;
    if n > 0 {
      AccumPrefix(key, m, t, n - 1);
    }
  }

  // ----- the sum in closed form -----

  /** The sum of the products of words and coefficients, without bound. */
  function Products(key: seq<byte>, m: seq<byte>, n: nat): int
    requires Key(key) && 4 * n <= |m|
  {
    if n == 0 then 0 else Products(key, m, n - 1) + Big32(m, 4 * (n - 1)) * Coefficient(key, n - 1)
  }

  /** A product added to a reduced sum is one added to the sum itself. */
  lemma RaisedAdds(x: int, v: nat, c: nat)
    ensures Raised(x % TWO64, v, c) == (x + v * c) % TWO64
  {
    var y := v * c;
    assert x % TWO64 + y == (x + y) + TWO64 * (-(x / TWO64));
    ModShift(x + y, -(x / TWO64));
  }

  /** Reducing in 64 bits at every step is reducing the whole sum once. */
  lemma {:induction false} AccumIsSum(key: seq<byte>, m: seq<byte>, n: nat)
    requires Key(key) && 4 * n <= |m|
    ensures Accum(key, m, n) == Products(key, m, n) % TWO64
  {
    hide Big32, Coefficient, Raised;
    if n > 0 {
      AccumIsSum(key, m, n - 1);
      RaisedAdds(Products(key, m, n - 1), Big32(m, 4 * (n - 1)), Coefficient(key, n - 1));
    }
  }

  /** Two messages of n words that differ in word w at most. */
  ghost predicate SameBut(m: seq<byte>, m': seq<byte>, n: nat, w: nat)
    requires 4 * n <= |m| && 4 * n <= |m'|
  {
    forall i: nat :: i < n && i != w ==> Big32(m', 4 * i) == Big32(m, 4 * i)
  }

  lemma Distribute(x: int, y: int, c: int)
    ensures x * c - y * c == (x - y) * c
  {
  }

  lemma {:induction false} ProductsDiffer(key: seq<byte>, m: seq<byte>, m': seq<byte>, n: nat, w: nat)
    requires Key(key) && 4 * n <= |m| && 4 * n <= |m'| && 4 * w + 4 <= |m| && 4 * w + 4 <= |m'| && SameBut(m, m', n, w)
    ensures Products(key, m', n) - Products(key, m, n)
         == if w < n then (Big32(m', 4 * w) - Big32(m, 4 * w)) * Coefficient(key, w) else 0
  {
    hide Big32, Coefficient;
    if n > 0 {
      ProductsDiffer(key, m, m', n - 1, w);
      Distribute(Big32(m', 4 * (n - 1)), Big32(m, 4 * (n - 1)), Coefficient(key, n - 1));
    }
  }

  lemma ModDifference(x: int, y: int)
    ensures (x % TWO64 - y % TWO64) % TWO64 == (x - y) % TWO64
  {
    assert x % TWO64 - y % TWO64 == (x - y) + TWO64 * (y / TWO64 - x / TWO64);
    ModShift(x - y, y / TWO64 - x / TWO64);
  }

  lemma ModShift(x: int, k: int)
    ensures (x + TWO64 * k) % TWO64 == x % TWO64
  {
  }

  /** Changing word w of the message changes the sum by the change times the coefficient of w. */
  lemma AccumDiffers(key: seq<byte>, m: seq<byte>, m': seq<byte>, n: nat, w: nat)
    requires Key(key) && 4 * n <= |m| && 4 * n <= |m'| && w < n && SameBut(m, m', n, w)
    ensures (Accum(key, m', n) - Accum(key, m, n)) % TWO64
         == ((Big32(m', 4 * w) - Big32(m, 4 * w)) * Coefficient(key, w)) % TWO64
  {
    hide Big32, Coefficient, Products, Accum, SameBut;
    AccumIsSum(key, m, n);
    AccumIsSum(key, m', n);
    ProductsDiffer(key, m, m', n, w);
    ModDifference(Products(key, m', n), Products(key, m, n));
  }

  /** The words and the coefficients are big-endian numbers, and so is the counter in its block. */
  lemma Big32IsBigEndian(s: seq<byte>, i: nat)
    requires i + 4 <= |s|
    ensures Big32(s, i) == BigEndian(s[i..i + 4])
  {
    hide Num;
    var t := s[i..i + 4];
    assert t[..3] == s[i..i + 3] && t[..3][..2] == s[i..i + 2] && t[..3][..2][..1] == s[i..i + 1];
    assert BigEndian(t[..3][..2][..1][..0]) == 0;
    assert BigEndian(t[..3][..2][..1]) == Num(s[i]);
    assert BigEndian(t[..3][..2]) == 256 * Num(s[i]) + Num(s[i + 1]);
    assert BigEndian(t[..3]) == 256 * (256 * Num(s[i]) + Num(s[i + 1])) + Num(s[i + 2]);
  }

  /** A message of zeros has sum 0 under every key. */
  lemma {:induction false} ZeroSum(key: seq<byte>, m: seq<byte>, n: nat)
    requires Key(key) && 4 * n <= |m| && forall i :: 0 <= i < n ==> Big32(m, 4 * i) == 0
    ensures Accum(key, m, n) == 0
  {
    hide Big32, Coefficient;
    if n > 0 {
      ZeroSum(key, m, n - 1);
      assert Big32(m, 4 * (n - 1)) == 0;
    }
  }

  lemma {:induction false} LeadingZeros(n: nat, s: seq<byte>)
    ensures BigEndian(Zeros(n) + s) == BigEndian(s)
    decreases n + |s|
  {
    hide Num;
    var t := Zeros(n) + s;
    if s != [] {
      LeadingZeros(n, s[..|s| - 1]);
      assert t[..|t| - 1] == Zeros(n) + s[..|s| - 1];
    } else if n > 0 {
      LeadingZeros(n - 1, []);
      assert t[..n - 1] == Zeros(n - 1) + [];
      ByteOfNat(0);
    }
  }

  /** The counter block of coefficient block c holds c as a big-endian number. */
  lemma CounterIsBigEndian(c: nat)
    ensures BigEndian(Zeros(12) + WordBytes(c)) == c % TWO32
  {
    hide Num;
    var s := WordBytes(c);
    LeadingZeros(12, s);
    Big32IsBigEndian(s, 0);
    assert s[0..4] == s;
    WordBytesDigits(c);
    FourDigits(c);
  }

  // ----- the reduction -----

  /** The two signed steps of mic_final. */
  function Folded(sum: nat): int {
    var stmp := sum % TWO32 - sum / TWO32 * 15;
    stmp % TWO32 - stmp / TWO32 * 15
  }

  /** ... and its last correction. */
  function Reduce(sum: nat): int {
    var utmp := Folded(sum);
    if utmp > TWO32 + 15 then utmp % TWO32 - 15 else utmp % TWO32
  }

  /** One folding step changes a number by a multiple of the prime. */
  lemma Fold(x: int)
    ensures x % TWO32 - x / TWO32 * 15 == x - PRIME * (x / TWO32)
  {
  }

  lemma FoldedIsCongruent(sum: nat) returns (k: int)
    requires sum < TWO64
    ensures 0 <= Folded(sum) <= TWO32 + 224 && sum == Folded(sum) + PRIME * k
  {
    var stmp := sum % TWO32 - sum / TWO32 * 15;
    Fold(sum);
    Fold(stmp);
    k := sum / TWO32 + stmp / TWO32;
  }

  lemma Remainder(x: int, u: int, k: int)
    requires x == u + PRIME * k && 0 <= u < PRIME
    ensures x % PRIME == u && x / PRIME == k
  {
  }

  /**
    The reduction is (sum mod p) mod 2^32 for p = 2^32 + 15, except on the multiples q p with
    15 q >= 2^32, where it gives 15 instead of 0.
   */
  lemma ReduceIsModulo(sum: nat)
    requires sum < TWO64
    ensures Reduce(sum) == (sum % PRIME) % TWO32 <==> !(sum % PRIME == 0 && 15 * (sum / PRIME) >= TWO32)
    ensures sum % PRIME == 0 && 15 * (sum / PRIME) >= TWO32 ==> Reduce(sum) == 15
  {
    var k := FoldedIsCongruent(sum);
    var u := Folded(sum);
    if u < PRIME {
      Remainder(sum, u, k);
    } else {
      assert sum == (u - PRIME) + PRIME * (k + 1);
      Remainder(sum, u - PRIME, k + 1);
    }
    if sum % PRIME == 0 {
      MultipleFolds(sum, sum / PRIME);
    }
  }

  /** A multiple of the prime folds to 0 at once when its low half has not overflowed. */
  lemma MultipleFolds(sum: nat, q: nat)
    requires sum < TWO64 && sum == PRIME * q
    ensures Folded(sum) == if 15 * q < TWO32 then 0 else PRIME
  {
    var low, high := sum % TWO32, sum / TWO32;
    var u := Folded(sum);
    var k := FoldedIsCongruent(sum);
    assert u == PRIME * (q - k);
    assert q - k == 0 || q - k == 1;
    if 15 * q < TWO32 {
      Digits(q, 15 * q);
      assert low - high * 15 == 0;
    } else if u == 0 {
      NoFolding(low - high * 15);
      assert false;
    }
  }

  lemma Digits(high: nat, low: nat)
    requires low < TWO32
    ensures (TWO32 * high + low) / TWO32 == high && (TWO32 * high + low) % TWO32 == low
  {
  }

  /** A number below 2^32 that folds to 0 is 0. */
  lemma NoFolding(x: int)
    requires x < TWO32 && x % TWO32 - x / TWO32 * 15 == 0
    ensures x == 0
  {
  }

  /** The smallest sum the code reduces differently. */
  lemma ReduceDiffers()
    ensures var sum := PRIME * 286331154; sum < TWO64 && (sum % PRIME) % TWO32 == 0 && Reduce(sum) == 15
  {
  }

  // ----- the streaming context -----

  /** The message with zeros up to a whole word. */
  function ZeroFill(m: seq<byte>): (r: seq<byte>)
    ensures |r| % 4 == 0 && |m| <= |r| < |m| + 4
  {
    m + Zeros((4 - |m| % 4) % 4)
  }

  /** The code of a message. */
  function Mic(key: seq<byte>, m: seq<byte>): (d: seq<byte>)
    requires Key(key)
    ensures |d| == 4
  {
    var r := Reduce(Accum(key, ZeroFill(m), |ZeroFill(m)| / 4));
    WordBytes(if r >= 0 then r else 0)
  }

  lemma ReduceInRange(sum: nat)
    requires sum < TWO64
    ensures 0 <= Reduce(sum) < TWO32
  {
    var k := FoldedIsCongruent(sum);
  }

  /**
    After n words and b more bytes, which are in part: the sum is that of the words, and the
    coefficient buffer holds the AES block of the latest of them.
   */
  ghost predicate Kept(key: seq<byte>, m: seq<byte>, n: nat, b: nat,
                       part: seq<byte>, coefficient: seq<byte>, accum: nat)
    requires Key(key) && b <= |part| && |m| == 4 * n + b
  {
    && part[..b] == m[4 * n..]
    && accum == Accum(key, m, n)
    && (n > 0 ==> coefficient == CoefficientBlock(key, (n - 1) / 4))
  }

  lemma KeptNothing(key: seq<byte>, part: seq<byte>, coefficient: seq<byte>)
    requires Key(key)
    ensures Kept(key, [], 0, 0, part, coefficient, 0)
  {
  }

  lemma KeptByte(key: seq<byte>, m: seq<byte>, n: nat, b: nat,
                 part: seq<byte>, coefficient: seq<byte>, accum: nat, c: byte)
    requires Key(key) && b < |part| && |m| == 4 * n + b && Kept(key, m, n, b, part, coefficient, accum)
    ensures Kept(key, m + [c], n, b + 1, part[b := c], coefficient, accum)
  {
    hide Accum, CoefficientBlock;
    AccumPrefix(key, m, [c], n);
    assert part[b := c][..b + 1] == part[..b] + [c];
    assert (m + [c])[4 * n..] == m[4 * n..] + [c];
  }

  /** A full part and the coefficient of its word carry the sum one word further. */
  lemma KeptWord(key: seq<byte>, m: seq<byte>, n: nat, part: seq<byte>, before: seq<byte>, coefficient: seq<byte>,
                 accum: nat)
    requires Key(key) && |part| == 4 && |m| == 4 * n + 4 && Kept(key, m, n, 4, part, before, accum)
    requires coefficient == CoefficientBlock(key, n / 4)
    ensures Kept(key, m, n + 1, 0, part, coefficient, Raised(accum, Big32(part, 0), Coefficient(key, n)))
  {
    hide Num, Big32, Coefficient, CoefficientBlock, Raised;
    assert part[..4] == part && m[4 * n..] == m[4 * n..4 * n + 4];
    WordOfPart(m, part, 4 * n);
    assert part[..0] == m[4 * (n + 1)..];
  }

  class MicContext {
    const CK: array<byte>
    const part: array<byte>
    const coefficient: array<byte>
    var accum: nat
    var position: nat

    /** The bytes taken in so far. */
    ghost var message: seq<byte>

    ghost predicate Shape()
      reads this
    {
      && CK.Length == 16 && part.Length == 4 && coefficient.Length == 16
      && part != coefficient && CK !in {part, coefficient} && position < 0x8000_0000
    }

    /** The words completed, with b bytes of another in part. */
    ghost function Words(b: nat): int
      reads this
    {
      (position - b) / 4
    }

    /** The fields are in the middle of taking in the message, with b bytes of a word in part. */
    ghost predicate Taking(b: nat)
      reads this, CK, part, coefficient
    {
      && Shape() && b <= 4 && position == |message| && b <= position && position == 4 * Words(b) + b
      && Kept(CK[..], message, Words(b), b, part[..], coefficient[..], accum)
    }

    ghost predicate Valid()
      reads this, CK, part, coefficient
    {
      Taking(position % 4)
    }

    constructor ()
      ensures fresh(CK) && fresh(part) && fresh(coefficient) && Shape()
    {
      CK, part, coefficient := new byte[16], new byte[4], new byte[16];
      accum, position, message := 0, 0, [];
    }

    /** mic_init. */
    method Init(key: array<byte>)
      requires Shape() && key.Length == 16 && key !in {part, coefficient}
      modifies this, CK
      ensures Valid() && message == [] && CK[..] == old(key[..])
    {
      forall i | 0 <= i < 16 {
        CK[i] := key[i];
      }
      accum, position, message := 0, 0, [];
      KeptNothing(CK[..], part[..], coefficient[..]);
    }

    /** mic_getcoefficient, called with a word just completed. */
    method GetCoefficient() returns (c: nat)
      requires Taking(4)
      modifies coefficient
      ensures c == Coefficient(CK[..], position / 4 - 1)
      ensures coefficient[..] == CoefficientBlock(CK[..], (position / 4 - 1) / 4)
    {
      hide Kept, Big32, CoefficientBlock;
      OldBlock(CK[..], message, Words(4), part[..], coefficient[..], accum);
      var w := (position - 1) / 4;
      assert w == position / 4 - 1;
      if w % 4 == 0 {
        NextBlock(w / 4);
      }
      c := Big32(coefficient[..], 4 * (w % 4));
    }

    /** A new counter value through the cipher. */
    method NextBlock(n: nat)
      requires Shape()
      modifies coefficient
      ensures coefficient[..] == CoefficientBlock(CK[..], n)
    {
      hide Aes.Encrypt, WordBytes;
      ghost var key := CK[..];
      var counter := WordBytes(n);
      var aesCounter := new byte[16];
      forall i | 0 <= i < 16 {
        aesCounter[i] := if i < 12 then 0 else counter[i - 12];
      }
      assert aesCounter[..] == Zeros(12) + counter;
      Aes.AesEncrypt(16, CK, aesCounter, coefficient);
      assert CK[..] == key;
    }

    /** A completed word goes into the sum. */
    method Accumulate()
      requires Taking(4)
      modifies this`accum, coefficient
      ensures Taking(0) && CK[..] == old(CK[..])
    {
      hide Aes.Encrypt, Num, Coefficient, CoefficientBlock, Big32, Kept, Raised;
      ghost var key, p, k := CK[..], part[..], coefficient[..];
      var val := Big32(part[..], 0);
      var c := GetCoefficient();
      assert CK[..] == key && part[..] == p;
      KeptWord(key, message, Words(4), p, k, coefficient[..], accum);
      accum := Raised(accum, val, c);
    }

    /** One more byte of the word in part. */
    method Store(b: nat, c: byte)
      requires Taking(b) && b < 4 && position + 1 < 0x8000_0000
      modifies this`position, this`message, part
      ensures Taking(b + 1) && message == old(message) + [c] && CK[..] == old(CK[..])
    {
      hide Kept;
      ghost var key, p, k := CK[..], part[..], coefficient[..];
      KeptByte(key, message, Words(b), b, p, k, accum, c);
      part[b] := c;
      assert part[..] == p[b := c] && CK[..] == key && coefficient[..] == k;
      position := position + 1;
      message := message + [c];
    }

    /** mic_update on n bytes of data from offset o. */
    method Update(data: array<byte>, o: nat, n: nat)
      requires Valid() && o + n <= data.Length && data !in {CK, part, coefficient} && position + n < 0x8000_0000
      modifies this`accum, this`position, this`message, part, coefficient
      ensures Valid() && message == old(message) + data[o..o + n] && CK[..] == old(CK[..])
    {
      hide Taking, Shape, Words;
      ghost var m, bytes, key := message, data[..], CK[..];
      var b: nat, k: nat := position % 4, 0;
      ShapeOf(b);
      assert bytes[o..o] == [];
      while k < n
        invariant Shape() && b < 4 && k <= n && data[..] == bytes && CK[..] == key
        invariant Taking(b) && b == position % 4
        invariant message == m + bytes[o..o + k] && position == old(position) + k
      {
        ghost var k0 := k;
        b, k := UpdateWord(b, data, o, k, n);
        assert data[..] == bytes && data[o + k0..o + k] == bytes[o + k0..o + k];
        NextPiece(m, bytes, o, o + k0, o + k);
        ShapeOf(b);
      }
    }

    static lemma Residue(p: int, w: int, b: int)
      requires p == 4 * w + b && 0 <= b < 4
      ensures p % 4 == b
    {
    }

    static lemma NextPiece(m: seq<byte>, s: seq<byte>, i: nat, j: nat, k: nat)
      requires i <= j <= k <= |s|
      ensures m + s[i..j] + s[j..k] == m + s[i..k]
    {
    }

    /** One turn of the outer loop: a word filled and taken into the sum, or the end of the data. */
    method UpdateWord(b: nat, data: array<byte>, o: nat, k: nat, n: nat) returns (b': nat, k': nat)
      requires Taking(b) && b < 4 && k < n && o + n <= data.Length && data !in {CK, part, coefficient}
      requires position + (n - k) < 0x8000_0000
      modifies this`accum, this`position, this`message, part, coefficient
      ensures b' < 4 && Taking(b') && k < k' <= n && (k' < n ==> b' == 0)
      ensures message == old(message) + data[o + k..o + k'] && CK[..] == old(CK[..])
      ensures position == old(position) + (k' - k)
    {
      hide Taking, Shape;
      b', k' := FillWord(b, data, o, k, n);
      if b' == 4 {
        Accumulate();
        b' := 0;
      }
    }

    lemma ShapeOf(b: nat)
      requires Taking(b)
      ensures Shape() && b <= 4 && position == |message| && b <= position && position == 4 * Words(b) + b
      ensures b < 4 ==> position % 4 == b
    {
      if b < 4 {
        Residue(position, Words(b), b);
      }
    }

    /** The inner loop: bytes until the word is full or the data is used up. */
    method FillWord(b: nat, data: array<byte>, o: nat, k: nat, n: nat) returns (b': nat, k': nat)
      requires Taking(b) && b < 4 && k < n && o + n <= data.Length && data !in {CK, part, coefficient}
      requires position + (n - k) < 0x8000_0000
      modifies this`position, this`message, part
      ensures b' <= 4 && Taking(b') && k < k' <= n && (b' < 4 ==> k' == n)
      ensures message == old(message) + data[o + k..o + k'] && CK[..] == old(CK[..])
      ensures position == old(position) + (k' - k) && accum == old(accum)
    {
      hide Taking;
      ghost var m, bytes, key := message, data[..], CK[..];
      b', k' := b, k;
      ShapeOf(b);
      assert bytes[o + k..o + k] == [];
      while b' < 4 && k' < n
        invariant Shape() && b' <= 4 && k <= k' <= n && data[..] == bytes && CK[..] == key
        invariant Taking(b') && b' - b == k' - k && position == old(position) + (k' - k)
        invariant message == m + bytes[o + k..o + k']
      {
        ShapeOf(b');
        assert bytes[o + k..o + k' + 1] == bytes[o + k..o + k'] + [data[o + k']];
        Store(b', data[o + k']);
        b', k' := b' + 1, k' + 1;
        ShapeOf(b');
      }
    }
  
    /** Zeros up to a whole word, which then goes into the sum. */
    method Flush()
      requires Valid() && position + 3 < 0x8000_0000
      modifies this, part, coefficient
      ensures Taking(0) && message == ZeroFill(old(message)) && CK[..] == old(CK[..])
    {
      hide Taking, Accum;
      ghost var m, key := message, CK[..];
      var b: nat := position % 4;
      ShapeOf(b);
      if b != 0 {
        ghost var b0 := b;
        assert m + Zeros(0) == m;
        while b < 4
          invariant Shape() && b0 <= b <= 4 && Taking(b) && position == |m| + (b - b0) && CK[..] == key
          invariant message == m + Zeros(b - b0)
        {
          assert Zeros(b + 1 - b0) == Zeros(b - b0) + [0];
          assert m + Zeros(b + 1 - b0) == m + Zeros(b - b0) + [0];
          Store(b, 0);
          b := b + 1;
          ShapeOf(b);
        }
        Accumulate();
      } else {
        assert m + Zeros(0) == m;
      }
    }

    /** mic_final. */
    method Final(digest: array<byte>)
      requires Valid() && position + 3 < 0x8000_0000
      requires digest.Length == 4 && digest !in {CK, part, coefficient}
      modifies this, part, coefficient, digest
      ensures digest[..] == Mic(old(CK[..]), old(message))
    {
      hide Accum, CoefficientBlock, Reduce, WordBytes;
      Flush();
      ReduceInRange(accum);
      var val := WordBytes(Reduce(accum));
      forall i | 0 <= i < 4 {
        digest[i] := val[i];
      }
    }

    lemma Positioned()
      requires Valid()
      ensures position == |message| && Shape()
    {
    }
  }

  // ----- packets -----

  const SNAP: seq<byte> := [0xAA, 0xAA, 0x03, 0x00, 0x40, 0x96, 0x00, 0x02]
  const IAPP_SNAP: seq<byte> := [0xAA, 0xAA, 0x03, 0x00, 0x40, 0x96, 0x00, 0x00]

  /** The bytes the code of a packet runs over; n is the length of the encapsulated payload. */
  function MicInput(da: seq<byte>, sa: seq<byte>, n: nat, sq: seq<byte>, data: seq<byte>): seq<byte> {
    da + sa + TwoBytes(n) + SNAP + sq + data
  }

  /** The order of the fields, each byte in its place. */
  lemma MicInputLayout(da: seq<byte>, sa: seq<byte>, n: nat, sq: seq<byte>, data: seq<byte>)
    requires |da| == |sa| == 6 && |sq| == 4
    ensures var m := MicInput(da, sa, n, sq, data);
            && |m| == 26 + |data| && m[..6] == da && m[6..12] == sa
            && 256 * Num(m[12]) + Num(m[13]) == n % 65536
            && m[14..22] == [0xaa, 0xaa, 0x03, 0x00] + [0x40, 0x96, 0x00, 0x02] && m[22..26] == sq && m[26..] == data
  {
    hide Num, TwoBytes;
    TwoBytesValue(n);
  }

  /** Different addresses, lengths, sequence numbers or data never give the same bytes. */
  lemma MicInputInjective(da: seq<byte>, sa: seq<byte>, n: nat, sq: seq<byte>, data: seq<byte>,
                          da': seq<byte>, sa': seq<byte>, n': nat, sq': seq<byte>, data': seq<byte>)
    requires |da| == |da'| == |sa| == |sa'| == 6 && |sq| == |sq'| == 4
    ensures MicInput(da, sa, n, sq, data) == MicInput(da', sa', n', sq', data')
       <==> da == da' && sa == sa' && TwoBytes(n) == TwoBytes(n') && sq == sq' && data == data'
  {
    hide TwoBytes;
    var h, h' := da + sa + TwoBytes(n), da' + sa' + TwoBytes(n');
    PiecesEqual(da, sa, TwoBytes(n), da', sa', TwoBytes(n'));
    PiecesEqual(h, SNAP, sq + data, h', SNAP, sq' + data');
    assert MicInput(da, sa, n, sq, data) == h + SNAP + (sq + data);
    assert MicInput(da', sa', n', sq', data') == h' + SNAP + (sq' + data');
    PiecesEqual([], sq, data, [], sq', data');
    assert [] + sq + data == sq + data && [] + sq' + data' == sq' + data';
  }

  /** Addresses, length, SNAP header and sequence number, as both directions take them in. */
  method FeedHeader(ctx: MicContext, da: array<byte>, sa: array<byte>, n: nat, snap: array<byte>,
                    sq: array<byte>, so: nat)
    requires ctx.Valid() && ctx.message == []
    requires da.Length == 6 && sa.Length == 6 && snap.Length >= 8 && snap[..8] == SNAP && so + 4 <= sq.Length
    requires {da, sa, snap, sq} !! {ctx.CK, ctx.part, ctx.coefficient}
    modifies ctx, ctx.part, ctx.coefficient
    ensures ctx.Valid() && ctx.CK[..] == old(ctx.CK[..])
    ensures ctx.message == MicInput(da[..], sa[..], n, sq[so..so + 4], [])
  {
    hide MicContext.Valid, MicContext.Shape, TwoBytes;
    var length := new byte[2](i requires 0 <= i < 2 => TwoBytes(n)[i]);
    assert length[0..0 + 2] == TwoBytes(n) && da[0..0 + 6] == da[..] && sa[0..0 + 6] == sa[..];
    ctx.Positioned();
    ctx.Update(da, 0, 6);
    ctx.Positioned();
    ctx.Update(sa, 0, 6);
    ctx.Positioned();
    ctx.Update(length, 0, 2);
    ctx.Positioned();
    ctx.Update(snap, 0, 8);
    ctx.Positioned();
    ctx.Update(sq, so, 4);
  }

  /** The MIC of a packet: the length counts SNAP header, MIC and sequence number besides the data. */
  function PacketMic(key: seq<byte>, da: seq<byte>, sa: seq<byte>, n: nat, sq: seq<byte>, data: seq<byte>)
    : (d: seq<byte>)
    requires Key(key)
    ensures |d| == 4
  {
    Mic(key, MicInput(da, sa, n, sq, data))
  }

  /** The MIC the receiver computes for a payload whose stated length is n. */
  function Recomputed(key: seq<byte>, da: seq<byte>, sa: seq<byte>, f: seq<byte>, n: nat): (d: seq<byte>)
    requires Key(key) && |f| >= 16 && n <= |f|
    ensures |d| == 4
  {
    PacketMic(key, da, sa, n, f[12..16], f[16..if n < 16 then 16 else n])
  }

  /** What the receiver answers. */
  function Verdict(key: seq<byte>, da: seq<byte>, sa: seq<byte>, f: seq<byte>, n: nat): int
    requires Key(key) && |f| >= 8 && n <= |f| && (f[..8] == SNAP ==> |f| >= 16)
  {
    if f[..8] != SNAP then (if f[..8] != IAPP_SNAP then 0 else -1)
    else if f[8..12] == Recomputed(key, da, sa, f, n) then 1
    else 0
  }

  /** SNAP header, MIC, sequence number, data. */
  function Encapsulate(mic: seq<byte>, sq: seq<byte>, data: seq<byte>): (f: seq<byte>)
    requires |mic| == 4 && |sq| == 4
    ensures |f| == 16 + |data| && f[..8] == SNAP
  {
    SNAP + mic + sq + data
  }

  /** The receiver accepts an encapsulated packet exactly when its MIC is the computed one. */
  lemma CheckAcceptsComputed(key: seq<byte>, da: seq<byte>, sa: seq<byte>,
                             mic: seq<byte>, sq: seq<byte>, data: seq<byte>)
    requires Key(key) && |mic| == 4 && |sq| == 4
    ensures var f := Encapsulate(mic, sq, data);
            Verdict(key, da, sa, f, |f|) == 1 <==> mic == PacketMic(key, da, sa, 16 + |data|, sq, data)
  {
    hide PacketMic;
    var f := Encapsulate(mic, sq, data);
    assert f[8..12] == mic && f[12..16] == sq && f[16..|f|] == data;
  }

  /** Data after the header, then the end. */
  method Finish(ctx: MicContext, digest: array<byte>)
    requires ctx.Valid() && |ctx.message| + 3 < 0x8000_0000
    requires digest.Length == 4 && digest !in {ctx.CK, ctx.part, ctx.coefficient}
    modifies ctx, ctx.part, ctx.coefficient, digest
    ensures digest[..] == Mic(old(ctx.CK[..]), old(ctx.message))
  {
    ctx.Positioned();
    ctx.Final(digest);
  }

  /** The payload in its one or two pieces. */
  method FeedPayload(ctx: MicContext, payload: array<byte>, pl: nat, p2: array?<byte>, l2: nat)
    requires ctx.Valid() && pl <= payload.Length && (p2 != null ==> l2 <= p2.Length)
    requires payload !in {ctx.CK, ctx.part, ctx.coefficient} && p2 !in {ctx.CK, ctx.part, ctx.coefficient}
    requires |ctx.message| + pl + l2 < 0x8000_0000
    modifies ctx, ctx.part, ctx.coefficient
    ensures ctx.Valid() && ctx.CK[..] == old(ctx.CK[..])
    ensures ctx.message == old(ctx.message) + (payload[..pl] + if p2 != null && l2 != 0 then p2[..l2] else [])
  {
    hide MicContext.Valid, MicContext.Shape;
    assert payload[0..0 + pl] == payload[..pl];
    ctx.Positioned();
    ctx.Update(payload, 0, pl);
    if p2 != null && l2 != 0 {
      ctx.Positioned();
      assert p2[0..0 + l2] == p2[..l2];
      ctx.Update(p2, 0, l2);
    }
  }

  /** wsec_ckip_mic_compute. */
  method Compute(CK: array<byte>, da: array<byte>, sa: array<byte>, sq: array<byte>, payload: array<byte>, pl: nat,
                 p2: array?<byte>, l2: nat, pMIC: array<byte>) returns (rc: int)
    requires CK.Length == 16 && da.Length == 6 && sa.Length == 6 && sq.Length == 4 && pMIC.Length >= 4
    requires pl <= payload.Length && (p2 != null ==> l2 <= p2.Length) && pl + l2 + 64 < 0x8000_0000
    modifies pMIC
    ensures rc == 1
    ensures pMIC[..] == Splice(old(pMIC[..]), 0,
              PacketMic(old(CK[..]), old(da[..]), old(sa[..]), pl + l2 + 16, old(sq[..]),
                        old(payload[..pl]) + if p2 != null && l2 != 0 then old(p2[..l2]) else []))
  {
    hide MicContext.Valid, MicContext.Shape, TwoBytes, Mic, Splice;
    var snap := new byte[8](i requires 0 <= i < 8 => SNAP[i]);
    assert snap[..8] == SNAP && sq[0..0 + 4] == sq[..];
    var ctx := new MicContext();
    ctx.Init(CK);
    FeedHeader(ctx, da, sa, pl + l2 + 16, snap, sq, 0);
    FeedPayload(ctx, payload, pl, p2, l2);
    MicInputParts(da[..], sa[..], pl + l2 + 16, sq[..], payload[..pl] + if p2 != null && l2 != 0 then p2[..l2] else []);
    var calcmic := new byte[4];
    Finish(ctx, calcmic);
    assert calcmic[0..0 + 4] == calcmic[..];
    Memcpy(pMIC, 0, calcmic, 0, 4);
    return 1;
  }

  lemma MicInputParts(da: seq<byte>, sa: seq<byte>, n: nat, sq: seq<byte>, data: seq<byte>)
    ensures MicInput(da, sa, n, sq, []) + data == MicInput(da, sa, n, sq, data)
  {
    hide TwoBytes;
  }

  /** wsec_ckip_mic_check on a payload of stated length pl; on a mismatch mic receives the computed code. */
  method Check(CK: array<byte>, da: array<byte>, sa: array<byte>, payload: array<byte>, pl: nat, mic: array<byte>)
    returns (rc: int)
    requires CK.Length == 16 && da.Length == 6 && sa.Length == 6 && mic.Length >= 4
    requires payload.Length >= 8 && pl <= payload.Length && pl + 64 < 0x8000_0000
    requires payload[..8] == SNAP ==> payload.Length >= 16
    modifies mic
    ensures rc == Verdict(old(CK[..]), old(da[..]), old(sa[..]), old(payload[..]), pl)
    ensures mic[..] == if rc == 0 && old(payload[..8]) == SNAP then
        Splice(old(mic[..]), 0, Recomputed(old(CK[..]), old(da[..]), old(sa[..]), old(payload[..]), pl))
      else old(mic[..])
  {
    hide MicContext.Valid, MicContext.Shape, TwoBytes, Mic, Splice;
    assert payload[..][..8] == payload[..8];
    if payload[..8] != SNAP {
      return if payload[..8] != IAPP_SNAP then 0 else -1;
    }
    ghost var f, out := payload[..], mic[..];
    var ctx := new MicContext();
    ctx.Init(CK);
    FeedHeader(ctx, da, sa, pl, payload, payload, 12);
    var n := if pl < 16 then 0 else pl - 16;
    ctx.Positioned();
    ctx.Update(payload, 16, n);
    assert payload[12..12 + 4] == f[12..16] && payload[16..16 + n] == f[16..if pl < 16 then 16 else pl];
    MicInputParts(da[..], sa[..], pl, f[12..16], payload[16..16 + n]);
    var calcmic := new byte[4];
    Finish(ctx, calcmic);
    assert mic[..] == out && calcmic[0..0 + 4] == calcmic[..];
    if payload[8..12] != calcmic[..] {
      Memcpy(mic, 0, calcmic, 0, 4);
      return 0;
    }
    return 1;
  }

  /** The block in the buffer is still the right one for every word but the first of four. */
  lemma OldBlock(key: seq<byte>, m: seq<byte>, n: nat, part: seq<byte>, coefficient: seq<byte>, accum: nat)
    requires Key(key) && |part| == 4 && |m| == 4 * n + 4 && Kept(key, m, n, 4, part, coefficient, accum)
    ensures n % 4 != 0 ==> coefficient == CoefficientBlock(key, n / 4)
  {
    hide Accum, CoefficientBlock;
    if n % 4 != 0 {
      SameBlock(n);
    }
  }

  lemma SameBlock(w: nat)
    requires w % 4 != 0
    ensures (w - 1) / 4 == w / 4
  {
  }

  lemma WordOfPart(m: seq<byte>, p: seq<byte>, i: nat)
    requires |p| == 4 && i + 4 <= |m| && p == m[i..i + 4]
    ensures Big32(m, i) == Big32(p, 0)
  {
    hide Num;
  }
}
