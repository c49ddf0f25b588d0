/**
  Bytes, big-endian 32-bit words and byte strings, as the C code packs and unpacks them.
 */
module Words {

  type byte = bv8
  type word = bv32

  const TWO32 := 0x1_0000_0000
  const TWO64 := 0x1_0000_0000_0000_0000

  datatype Option<T> = None | Some(value: T)

  /** The word whose bytes are b0..b3, most significant first. */
  function Pack(b0: byte, b1: byte, b2: byte, b3: byte): word {
    (b0 as word << 24) | (b1 as word << 16) | (b2 as word << 8) | (b3 as word)
  }

  function B0(w: word): byte { (w >> 24) as byte }
  function B1(w: word): byte { ((w >> 16) & 0xff) as byte }
  function B2(w: word): byte { ((w >> 8) & 0xff) as byte }
  function B3(w: word): byte { (w & 0xff) as byte }

  /** Exclusive or of words, named so that proofs about sums of words stay algebraic. */
  function Xor32(v: word, w: word): word { v ^ w }

  /** Addition modulo 2^32. */
  function Add32(x: word, y: word): word { x + y }

  function Xor8(x: byte, y: byte): byte { x ^ y }

  lemma Xor32Assoc(a: word, b: word, c: word)
    ensures Xor32(Xor32(a, b), c) == Xor32(a, Xor32(b, c))
  {
    assert Xor32(Xor32(a, b), c) == Xor32(a ^ b, c) == (a ^ b) ^ c;
    assert Xor32(a, Xor32(b, c)) == Xor32(a, b ^ c) == a ^ (b ^ c);
  }

  lemma Xor32Comm(a: word, b: word)
    ensures Xor32(a, b) == Xor32(b, a)
  {
  }

  lemma Xor32Cancels(a: word, b: word)
    ensures Xor32(Xor32(a, b), b) == a
  {
  }

  lemma XorLane0(v: word, w: word)
    ensures B0(Xor32(v, w)) == Xor8(B0(v), B0(w))
  {
  }

  lemma XorLane1(v: word, w: word)
    ensures B1(Xor32(v, w)) == Xor8(B1(v), B1(w))
  {
  }

  lemma XorLane2(v: word, w: word)
    ensures B2(Xor32(v, w)) == Xor8(B2(v), B2(w))
  {
  }

  lemma XorLane3(v: word, w: word)
    ensures B3(Xor32(v, w)) == Xor8(B3(v), B3(w))
  {
  }

  function Rotl(w: word, n: bv32): word
    requires 0 < n < 32
  {
    (w << n) | (w >> (32 - n))
  }

  lemma PackBytes(b0: byte, b1: byte, b2: byte, b3: byte)
    ensures var w := Pack(b0, b1, b2, b3);
            B0(w) == b0 && B1(w) == b1 && B2(w) == b2 && B3(w) == b3
  {
  }

  lemma BytesPack(w: word)
    ensures Pack(B0(w), B1(w), B2(w), B3(w)) == w
  {
  }

  /** Two words with the same four bytes are the same word. */
  lemma SameBytes(v: word, w: word)
    requires B0(v) == B0(w) && B1(v) == B1(w) && B2(v) == B2(w) && B3(v) == B3(w)
    ensures v == w
  {
    BytesPack(v);
    BytesPack(w);
  }

  /** The word at byte offset i of s, big endian. */
  function Get32(s: seq<byte>, i: nat): word
    requires i + 4 <= |s|
  {
    Pack(s[i], s[i + 1], s[i + 2], s[i + 3])
  }

  function Put32(w: word): (s: seq<byte>)
    ensures |s| == 4
  {
    [B0(w), B1(w), B2(w), B3(w)]
  }

  /** A little-endian sixteen-bit field. */
  function Get16(p: seq<byte>, i: nat): bv16
    requires i + 2 <= |p|
  {
    ((p[i + 1] as bv16) << 8) | (p[i] as bv16)
  }

  function Put16(v: bv16): (s: seq<byte>)
    ensures |s| == 2
  {
    [(v & 0xff) as byte, ((v >> 8) & 0xff) as byte]
  }

  /** Byte-by-byte exclusive or. */
  function Xor(a: seq<byte>, b: seq<byte>): (c: seq<byte>)
    requires |a| == |b|
    ensures |c| == |a|
  {
    seq(|a|, i requires 0 <= i < |a| => a[i] ^ b[i])
  }

  lemma XorZero(x: byte)
    ensures x ^ 0 == x
  {
  }

  lemma XorByte(x: byte, y: byte)
    ensures (x ^ y) ^ y == x
  {
  }

  /** A byte as a number. */
  function Num(x: byte): nat { x as nat }

  lemma NumBound(x: byte)
    ensures Num(x) <= 255
  {
  }

  lemma ByteOfNat(n: nat)
    requires n < 256
    ensures Num(n as byte) == n
  {
  }

  lemma NumInjective(x: byte, y: byte)
    requires Num(x) == Num(y)
    ensures x == y
  {
    assert (x as nat) as byte == x && (y as nat) as byte == y;
  }

  /** x++ on a byte. */
  function Next(x: byte): byte { x + 1 }

  lemma ByteIncrement(x: byte)
    ensures Num(Next(x)) == if Num(x) == 255 then 0 else Num(x) + 1
    ensures Num(x) <= 255 && (Num(x) == 255 <==> Next(x) == 0)
  {
    assert x as nat == 255 <==> x == 0xff;
  }

  function Zeros(n: nat): (z: seq<byte>)
    ensures |z| == n
  {
    seq(n, _ => 0)
  }

  /** A 32-bit number as four bytes, the shifts and casts by which the code stores one. */
  function WordBytes(n: nat): (s: seq<byte>)
    ensures |s| == 4
  {
    [((n / 0x1000000) % 256) as byte, ((n / 0x10000) % 256) as byte, ((n / 0x100) % 256) as byte, (n % 256) as byte]
  }

  /** A sequence from its end to its start. */
  function Backwards<T>(s: seq<T>): (r: seq<T>)
    ensures |r| == |s|
  {
    seq(|s|, i requires 0 <= i < |s| => s[|s| - 1 - i])
  }

  /** A number below 2^16, or its residue, as two bytes, most significant first. */
  function TwoBytes(n: nat): (s: seq<byte>)
    ensures |s| == 2
  {
    [((n / 256) % 256) as byte, (n % 256) as byte]
  }

  lemma TwoDigits(n: nat)
    ensures 256 * ((n / 256) % 256) + n % 256 == n % 65536
  {
  }

  lemma TwoBytesValue(n: nat)
    ensures 256 * Num(TwoBytes(n)[0]) + Num(TwoBytes(n)[1]) == n % 65536
  {
    hide Num;
    ByteOfNat((n / 256) % 256);
    ByteOfNat(n % 256);
    TwoDigits(n);
  }

  lemma FourDigits(n: nat)
    ensures n % TWO32 == 0x1000000 * ((n / 0x1000000) % 256) + 0x10000 * ((n / 0x10000) % 256)
                       + 0x100 * ((n / 0x100) % 256) + n % 256
  {
    var m := n / 65536;
    TwoDigits(n);
    TwoDigits(m);
    assert m / 256 == n / 0x1000000;
    assert n % TWO32 == 65536 * (m % 65536) + n % 65536;
  }

  lemma WordBytesInjective(m: nat, n: nat)
    requires WordBytes(m) == WordBytes(n)
    ensures m % TWO32 == n % TWO32
  {
    hide Num;
    WordBytesDigits(m);
    WordBytesDigits(n);
    FourDigits(m);
    FourDigits(n);
  }

  lemma WordBytesDigits(n: nat)
    ensures Num(WordBytes(n)[0]) == (n / 0x1000000) % 256 && Num(WordBytes(n)[1]) == (n / 0x10000) % 256
    ensures Num(WordBytes(n)[2]) == (n / 0x100) % 256 && Num(WordBytes(n)[3]) == n % 256
  {
    hide Num;
    ByteOfNat((n / 0x1000000) % 256);
    ByteOfNat((n / 0x10000) % 256);
    ByteOfNat((n / 0x100) % 256);
    ByteOfNat(n % 256);
  }

  lemma TwoBytesInjective(m: nat, n: nat)
    requires TwoBytes(m) == TwoBytes(n)
    ensures m % 65536 == n % 65536
  {
    hide Num, TwoBytes;
    TwoBytesValue(m);
    TwoBytesValue(n);
  }

  lemma Put16Injective(v: bv16, w: bv16)
    requires Put16(v) == Put16(w)
    ensures v == w
  {
    assert Put16(v)[0] == Put16(w)[0] && Put16(v)[1] == Put16(w)[1];
  }

  /** Fixed-length pieces behind each other are equal exactly when they are equal one by one. */
  lemma PiecesEqual(a: seq<byte>, b: seq<byte>, c: seq<byte>, a': seq<byte>, b': seq<byte>, c': seq<byte>)
    requires |a| == |a'| && |b| == |b'|
    ensures a + b + c == a' + b' + c' <==> a == a' && b == b' && c == c'
  {
    if a + b + c == a' + b' + c' {
      var s, s' := a + b + c, a' + b' + c';
      assert a == s[..|a|] == s'[..|a|] == a';
      assert b == s[|a|..|a| + |b|] == s'[|a|..|a| + |b|] == b';
      assert c == s[|a| + |b|..] == s'[|a| + |b|..] == c';
    }
  }

  function Pow256(k: nat): (p: nat)
    ensures p >= 1 && (k > 0 ==> p >= 256)
  {
    if k == 0 then 1 else 256 * Pow256(k - 1)
  }

  /** The big-endian number a byte string holds. */
  function BigEndian(s: seq<byte>): nat {
    if s == [] then 0 else 256 * BigEndian(s[..|s| - 1]) + Num(s[|s| - 1])
  }
}
