/**
  The MD5 block function: the 64 operations of section 3.4 of RFC 1321 as a recurrence, and the
  unrolled operations of Transform with their rotating names.
 */
module Md5Block {
  import opened Words
  import opened WordBits
  import opened HashBlocks

  datatype Quad = Quad(a: word, b: word, c: word, d: word)

  const INIT := Quad(0x67452301, 0xefcdab89, 0x98badcfe, 0x10325476)

  // ----- the standard -----

  function F(x: word, y: word, z: word): word { (x & y) | (!x & z) }
  function G(x: word, y: word, z: word): word { (x & z) | (y & !z) }
  function H(x: word, y: word, z: word): word { x ^ y ^ z }
  function I(x: word, y: word, z: word): word { y ^ (x | !z) }

  /** The auxiliary function of operation n. */
  function Aux(n: nat, x: word, y: word, z: word): word {
    if n < 16 then F(x, y, z) else if n < 32 then G(x, y, z) else if n < 48 then H(x, y, z) else I(x, y, z)
  }

  /** The message word operation n uses. */
  function Index(n: nat): (k: nat)
    ensures k < 16
  {
    if n < 16 then n else if n < 32 then (5 * n + 1) % 16 else if n < 48 then (3 * n + 5) % 16 else (7 * n) % 16
  }

  /** The rotation of operation n. */
  function Amount(n: nat): (s: word)
    ensures 0 < s < 32
  {
    if n < 16 then Turn(n, 7, 12, 17, 22) else if n < 32 then Turn(n, 5, 9, 14, 20)
    else if n < 48 then Turn(n, 4, 11, 16, 23) else Turn(n, 6, 10, 15, 21)
  }

  /** One of four rotations in turn. */
  function Turn(n: nat, s1: word, s2: word, s3: word, s4: word): word {
    if n % 4 == 0 then s1 else if n % 4 == 1 then s2 else if n % 4 == 2 then s3 else s4
  }

  /** The additive constant of operation n. */
  function T(n: nat): word
    requires n < 64
  {
    (if n < 32 then
     (if n < 16 then
      (if n < 8 then
       (if n < 4 then
        (if n == 0 then 3614090360 else if n == 1 then 3905402710 else if n == 2 then 606105819 else 3250441966)
       else
        (if n == 4 then 4118548399 else if n == 5 then 1200080426 else if n == 6 then 2821735955 else 4249261313))
      else
       (if n < 12 then
        (if n == 8 then 1770035416 else if n == 9 then 2336552879 else if n == 10 then 4294925233 else 2304563134)
       else
        (if n == 12 then 1804603682 else if n == 13 then 4254626195 else if n == 14 then 2792965006 else 1236535329)))
     else
      (if n < 24 then
       (if n < 20 then
        (if n == 16 then 4129170786 else if n == 17 then 3225465664 else if n == 18 then 643717713 else 3921069994)
       else
        (if n == 20 then 3593408605 else if n == 21 then 38016083 else if n == 22 then 3634488961 else 3889429448))
      else
       (if n < 28 then
        (if n == 24 then 568446438 else if n == 25 then 3275163606 else if n == 26 then 4107603335 else 1163531501)
       else
        (if n == 28 then 2850285829 else if n == 29 then 4243563512 else if n == 30 then 1735328473 else 2368359562))))
    else
     (if n < 48 then
      (if n < 40 then
       (if n < 36 then
        (if n == 32 then 4294588738 else if n == 33 then 2272392833 else if n == 34 then 1839030562 else 4259657740)
       else
        (if n == 36 then 2763975236 else if n == 37 then 1272893353 else if n == 38 then 4139469664 else 3200236656))
      else
       (if n < 44 then
        (if n == 40 then 681279174 else if n == 41 then 3936430074 else if n == 42 then 3572445317 else 76029189)
       else
        (if n == 44 then 3654602809 else if n == 45 then 3873151461 else if n == 46 then 530742520 else 3299628645)))
     else
      (if n < 56 then
       (if n < 52 then
        (if n == 48 then 4096336452 else if n == 49 then 1126891415 else if n == 50 then 2878612391 else 4237533241)
       else
        (if n == 52 then 1700485571 else if n == 53 then 2399980690 else if n == 54 then 4293915773 else 2240044497))
      else
       (if n < 60 then
        (if n == 56 then 1873313359 else if n == 57 then 4264355552 else if n == 58 then 2734768916 else 1309151649)
       else
        (if n == 60 then 4149444226 else if n == 61 then 3174756917 else if n == 62 then 718787259 else 3951481745)))))
  }

  /** b + ((a + f + x + t) <<< s). */
  function Sum(a: word, b: word, f: word, x: word, s: word, t: word): word
    requires 0 < s < 32
  {
    Add32(Rotl(Add32(a, Add32(Add32(f, x), t)), s), b)
  }

  /** The four words after n operations, in the order in which the next operation names them. */
  function Steps(x: seq<word>, q: Quad, n: nat): Quad
    requires |x| == 16 && n <= 64
  {
    if n == 0 then q else
      var p := Steps(x, q, n - 1);
      Quad(p.d, Sum(p.a, p.b, Aux(n - 1, p.b, p.c, p.d), x[Index(n - 1)], Amount(n - 1), T(n - 1)), p.b, p.c)
  }

  function AddQuad(p: Quad, q: Quad): Quad {
    Quad(Add32(p.a, q.a), Add32(p.b, q.b), Add32(p.c, q.c), Add32(p.d, q.d))
  }

  /** The block function on sixteen words. */
  function TransformWords(q: Quad, x: seq<word>): Quad
    requires |x| == 16
  {
    AddQuad(q, Steps(x, q, 64))
  }

  /** The word at offset i, low byte first. */
  function GetLittle(m: seq<byte>, i: nat): word
    requires i + 4 <= |m|
  {
    Pack(m[i + 3], m[i + 2], m[i + 1], m[i])
  }

  function BlockWords(b: Block64): (x: seq<word>)
    ensures |x| == 16
  {
    seq(16, i requires 0 <= i < 16 => GetLittle(b, 4 * i))
  }

  function Compress(q: Quad, b: Block64): Quad { TransformWords(q, BlockWords(b)) }

  // ----- what the word functions compute -----

  /** F chooses by x, G by z; H is the parity; I differs from y where x is set or z is not. */
  lemma AuxBits(x: word, y: word, z: word, i: byte)
    requires i < 32
    ensures Bit(F(x, y, z), i) == if Bit(x, i) then Bit(y, i) else Bit(z, i)
    ensures Bit(G(x, y, z), i) == if Bit(z, i) then Bit(x, i) else Bit(y, i)
    ensures Bit(H(x, y, z), i) == ((Bit(x, i) != Bit(y, i)) != Bit(z, i))
    ensures Bit(I(x, y, z), i) == (Bit(y, i) != (Bit(x, i) || !Bit(z, i)))
  {
    hide Bit, F, G, H, I;
    FBit(x, y, z, i);
    GBit(x, y, z, i);
    HBit(x, y, z, i);
    IBit(x, y, z, i);
  }

  /** Bit i of a word lies in the byte i / 8 places from the first. */
  lemma GetLittleBit(m: seq<byte>, o: nat, i: nat)
    requires o + 4 <= |m| && i < 32
    ensures Bit(GetLittle(m, o), i as byte) == Bit8(m[o + i / 8], (i % 8) as byte)
  {
    hide Bit, Bit8, Pack;
    PackAt(m[o + 3], m[o + 2], m[o + 1], m[o], (i % 8) as byte, GetLittle(m, o));
  }

  /** The four chaining words grow by the results of the operations, each modulo 2^32. */
  lemma AddQuadIsModular(p: Quad, q: Quad)
    ensures var r := AddQuad(p, q);
            && Value(r.a) == (Value(p.a) + Value(q.a)) % TWO32 && Value(r.b) == (Value(p.b) + Value(q.b)) % TWO32
            && Value(r.c) == (Value(p.c) + Value(q.c)) % TWO32 && Value(r.d) == (Value(p.d) + Value(q.d)) % TWO32
  {
    hide Value, Add32;
    AddIsModular(p.a, q.a);
    AddIsModular(p.b, q.b);
    AddIsModular(p.c, q.c);
    AddIsModular(p.d, q.d);
  }

  lemma FBit(x: word, y: word, z: word, i: byte)
    requires i < 32
    ensures Bit(F(x, y, z), i) == if Bit(x, i) then Bit(y, i) else Bit(z, i)
  {
    hide Bit;
    ChooseAt(x, y, z, i, F(x, y, z));
  }

  lemma GBit(x: word, y: word, z: word, i: byte)
    requires i < 32
    ensures Bit(G(x, y, z), i) == if Bit(z, i) then Bit(x, i) else Bit(y, i)
  {
    hide Bit;
    GAt(x, y, z, i, G(x, y, z));
  }

  lemma GAt(x: word, y: word, z: word, i: byte, v: word)
    requires i < 32 && v == (x & z) | (y & !z)
    ensures Bit(v, i) == if Bit(z, i) then Bit(x, i) else Bit(y, i)
  {
  }

  lemma HBit(x: word, y: word, z: word, i: byte)
    requires i < 32
    ensures Bit(H(x, y, z), i) == ((Bit(x, i) != Bit(y, i)) != Bit(z, i))
  {
    hide Bit;
    ParityAt(x, y, z, i, H(x, y, z));
  }

  lemma IBit(x: word, y: word, z: word, i: byte)
    requires i < 32
    ensures Bit(I(x, y, z), i) == (Bit(y, i) != (Bit(x, i) || !Bit(z, i)))
  {
    hide Bit;
    IAt(x, y, z, i, I(x, y, z));
  }

  lemma IAt(x: word, y: word, z: word, i: byte, v: word)
    requires i < 32 && v == y ^ (x | !z)
    ensures Bit(v, i) == (Bit(y, i) != (Bit(x, i) || !Bit(z, i)))
  {
  }

  /** The sums of an operation, before and after its rotation, as sums of numbers. */
  lemma SumIsModular(a: word, b: word, f: word, x: word, s: word, t: word)
    requires 0 < s < 32
    ensures var m := Add32(a, Add32(Add32(f, x), t));
            && Value(m) == (Value(a) + Value(f) + Value(x) + Value(t)) % TWO32
            && Value(Sum(a, b, f, x, s, t)) == (Value(Rotl(m, s)) + Value(b)) % TWO32
  {
    hide Add32, Value, Rotl;
    var m := Add32(a, Add32(Add32(f, x), t));
    AddIsModular(f, x);
    AddsOn(Add32(f, x), Value(f) + Value(x), t);
    AddIsModular(a, Add32(Add32(f, x), t));
    ModAdd(Value(f) + Value(x) + Value(t), Value(a));
    AddIsModular(Rotl(m, s), b);
  }

  // ----- the code -----

  /** FF, GG, HH or II: operation n, which replaces the word named a. */
  method Op(n: nat, a: word, b: word, c: word, d: word, f: word, x: word, s: word, ac: word,
            ghost m: seq<word>, ghost q: Quad) returns (a': word)
    requires |m| == 16 && n < 64 && Quad(a, b, c, d) == Steps(m, q, n)
    requires f == Aux(n, b, c, d) && x == m[Index(n)] && s == Amount(n) && ac == T(n)
    ensures Quad(d, a', b, c) == Steps(m, q, n + 1)
  {
    hide Rotl, Add32, Aux, Index, Amount, T;
    a' := Add32(a, Add32(Add32(f, x), ac));
    a' := Rotl(a', s);
    a' := Add32(a', b);
  }

  /** Four FF operations in a row, which turn the names once around. */
  method FF4(n: nat, p: Quad, x0: word, x1: word, x2: word, x3: word, t0: word, t1: word, t2: word, t3: word,
             ghost m: seq<word>, ghost q: Quad) returns (r: Quad)
    requires |m| == 16 && 0 <= n && n + 4 <= 16 && n % 4 == 0 && p == Steps(m, q, n)
    requires x0 == m[Index(n)] && x1 == m[Index(n + 1)] && x2 == m[Index(n + 2)] && x3 == m[Index(n + 3)]
    requires t0 == T(n) && t1 == T(n + 1) && t2 == T(n + 2) && t3 == T(n + 3)
    ensures r == Steps(m, q, n + 4)
  {
    hide F, Steps, T, Index;
    var a, b, c, d := p.a, p.b, p.c, p.d;
    a := Op(n, a, b, c, d, F(b, c, d), x0, 7, t0, m, q);
    d := Op(n + 1, d, a, b, c, F(a, b, c), x1, 12, t1, m, q);
    c := Op(n + 2, c, d, a, b, F(d, a, b), x2, 17, t2, m, q);
    b := Op(n + 3, b, c, d, a, F(c, d, a), x3, 22, t3, m, q);
    r := Quad(a, b, c, d);
  }

  /** Round 1. */
  method FirstRound(x: array<word>, p: Quad, ghost q: Quad) returns (r: Quad)
    requires x.Length == 16 && p == Steps(x[..], q, 0)
    ensures r == Steps(x[..], q, 16)
  {
    hide Steps, T, Index;
    Round1Table();
    ghost var m := x[..];
    r := FF4(0, p, x[0], x[1], x[2], x[3], 3614090360, 3905402710, 606105819, 3250441966, m, q);
    r := FF4(4, r, x[4], x[5], x[6], x[7], 4118548399, 1200080426, 2821735955, 4249261313, m, q);
    r := FF4(8, r, x[8], x[9], x[10], x[11], 1770035416, 2336552879, 4294925233, 2304563134, m, q);
    r := FF4(12, r, x[12], x[13], x[14], x[15], 1804603682, 4254626195, 2792965006, 1236535329, m, q);
  }

  /** The literals of round 1 are the indices and constants of the standard. */
  lemma Round1Table()
    ensures Index(0) == 0 && T(0) == 3614090360 && Index(1) == 1 && T(1) == 3905402710
    ensures Index(2) == 2 && T(2) == 606105819 && Index(3) == 3 && T(3) == 3250441966
    ensures Index(4) == 4 && T(4) == 4118548399 && Index(5) == 5 && T(5) == 1200080426
    ensures Index(6) == 6 && T(6) == 2821735955 && Index(7) == 7 && T(7) == 4249261313
    ensures Index(8) == 8 && T(8) == 1770035416 && Index(9) == 9 && T(9) == 2336552879
    ensures Index(10) == 10 && T(10) == 4294925233 && Index(11) == 11 && T(11) == 2304563134
    ensures Index(12) == 12 && T(12) == 1804603682 && Index(13) == 13 && T(13) == 4254626195
    ensures Index(14) == 14 && T(14) == 2792965006 && Index(15) == 15 && T(15) == 1236535329
  {
  }

  /** Four GG operations in a row, which turn the names once around. */
  method GG4(n: nat, p: Quad, x0: word, x1: word, x2: word, x3: word, t0: word, t1: word, t2: word, t3: word,
             ghost m: seq<word>, ghost q: Quad) returns (r: Quad)
    requires |m| == 16 && 16 <= n && n + 4 <= 32 && n % 4 == 0 && p == Steps(m, q, n)
    requires x0 == m[Index(n)] && x1 == m[Index(n + 1)] && x2 == m[Index(n + 2)] && x3 == m[Index(n + 3)]
    requires t0 == T(n) && t1 == T(n + 1) && t2 == T(n + 2) && t3 == T(n + 3)
    ensures r == Steps(m, q, n + 4)
  {
    hide G, Steps, T, Index;
    var a, b, c, d := p.a, p.b, p.c, p.d;
    a := Op(n, a, b, c, d, G(b, c, d), x0, 5, t0, m, q);
    d := Op(n + 1, d, a, b, c, G(a, b, c), x1, 9, t1, m, q);
    c := Op(n + 2, c, d, a, b, G(d, a, b), x2, 14, t2, m, q);
    b := Op(n + 3, b, c, d, a, G(c, d, a), x3, 20, t3, m, q);
    r := Quad(a, b, c, d);
  }

  /** Round 2. */
  method SecondRound(x: array<word>, p: Quad, ghost q: Quad) returns (r: Quad)
    requires x.Length == 16 && p == Steps(x[..], q, 16)
    ensures r == Steps(x[..], q, 32)
  {
    hide Steps, T, Index;
    Round2Table();
    ghost var m := x[..];
    r := GG4(16, p, x[1], x[6], x[11], x[0], 4129170786, 3225465664, 643717713, 3921069994, m, q);
    r := GG4(20, r, x[5], x[10], x[15], x[4], 3593408605, 38016083, 3634488961, 3889429448, m, q);
    r := GG4(24, r, x[9], x[14], x[3], x[8], 568446438, 3275163606, 4107603335, 1163531501, m, q);
    r := GG4(28, r, x[13], x[2], x[7], x[12], 2850285829, 4243563512, 1735328473, 2368359562, m, q);
  }

  /** The literals of round 2 are the indices and constants of the standard. */
  lemma Round2Table()
    ensures Index(16) == 1 && T(16) == 4129170786 && Index(17) == 6 && T(17) == 3225465664
    ensures Index(18) == 11 && T(18) == 643717713 && Index(19) == 0 && T(19) == 3921069994
    ensures Index(20) == 5 && T(20) == 3593408605 && Index(21) == 10 && T(21) == 38016083
    ensures Index(22) == 15 && T(22) == 3634488961 && Index(23) == 4 && T(23) == 3889429448
    ensures Index(24) == 9 && T(24) == 568446438 && Index(25) == 14 && T(25) == 3275163606
    ensures Index(26) == 3 && T(26) == 4107603335 && Index(27) == 8 && T(27) == 1163531501
    ensures Index(28) == 13 && T(28) == 2850285829 && Index(29) == 2 && T(29) == 4243563512
    ensures Index(30) == 7 && T(30) == 1735328473 && Index(31) == 12 && T(31) == 2368359562
  {
  }

  /** Four HH operations in a row, which turn the names once around. */
  method HH4(n: nat, p: Quad, x0: word, x1: word, x2: word, x3: word, t0: word, t1: word, t2: word, t3: word,
             ghost m: seq<word>, ghost q: Quad) returns (r: Quad)
    requires |m| == 16 && 32 <= n && n + 4 <= 48 && n % 4 == 0 && p == Steps(m, q, n)
    requires x0 == m[Index(n)] && x1 == m[Index(n + 1)] && x2 == m[Index(n + 2)] && x3 == m[Index(n + 3)]
    requires t0 == T(n) && t1 == T(n + 1) && t2 == T(n + 2) && t3 == T(n + 3)
    ensures r == Steps(m, q, n + 4)
  {
    hide H, Steps, T, Index;
    var a, b, c, d := p.a, p.b, p.c, p.d;
    a := Op(n, a, b, c, d, H(b, c, d), x0, 4, t0, m, q);
    d := Op(n + 1, d, a, b, c, H(a, b, c), x1, 11, t1, m, q);
    c := Op(n + 2, c, d, a, b, H(d, a, b), x2, 16, t2, m, q);
    b := Op(n + 3, b, c, d, a, H(c, d, a), x3, 23, t3, m, q);
    r := Quad(a, b, c, d);
  }

  /** Round 3. */
  method ThirdRound(x: array<word>, p: Quad, ghost q: Quad) returns (r: Quad)
    requires x.Length == 16 && p == Steps(x[..], q, 32)
    ensures r == Steps(x[..], q, 48)
  {
    hide Steps, T, Index;
    Round3Table();
    ghost var m := x[..];
    r := HH4(32, p, x[5], x[8], x[11], x[14], 4294588738, 2272392833, 1839030562, 4259657740, m, q);
    r := HH4(36, r, x[1], x[4], x[7], x[10], 2763975236, 1272893353, 4139469664, 3200236656, m, q);
    r := HH4(40, r, x[13], x[0], x[3], x[6], 681279174, 3936430074, 3572445317, 76029189, m, q);
    r := HH4(44, r, x[9], x[12], x[15], x[2], 3654602809, 3873151461, 530742520, 3299628645, m, q);
  }

  /** The literals of round 3 are the indices and constants of the standard. */
  lemma Round3Table()
    ensures Index(32) == 5 && T(32) == 4294588738 && Index(33) == 8 && T(33) == 2272392833
    ensures Index(34) == 11 && T(34) == 1839030562 && Index(35) == 14 && T(35) == 4259657740
    ensures Index(36) == 1 && T(36) == 2763975236 && Index(37) == 4 && T(37) == 1272893353
    ensures Index(38) == 7 && T(38) == 4139469664 && Index(39) == 10 && T(39) == 3200236656
    ensures Index(40) == 13 && T(40) == 681279174 && Index(41) == 0 && T(41) == 3936430074
    ensures Index(42) == 3 && T(42) == 3572445317 && Index(43) == 6 && T(43) == 76029189
    ensures Index(44) == 9 && T(44) == 3654602809 && Index(45) == 12 && T(45) == 3873151461
    ensures Index(46) == 15 && T(46) == 530742520 && Index(47) == 2 && T(47) == 3299628645
  {
  }

  /** Four II operations in a row, which turn the names once around. */
  method II4(n: nat, p: Quad, x0: word, x1: word, x2: word, x3: word, t0: word, t1: word, t2: word, t3: word,
             ghost m: seq<word>, ghost q: Quad) returns (r: Quad)
    requires |m| == 16 && 48 <= n && n + 4 <= 64 && n % 4 == 0 && p == Steps(m, q, n)
    requires x0 == m[Index(n)] && x1 == m[Index(n + 1)] && x2 == m[Index(n + 2)] && x3 == m[Index(n + 3)]
    requires t0 == T(n) && t1 == T(n + 1) && t2 == T(n + 2) && t3 == T(n + 3)
    ensures r == Steps(m, q, n + 4)
  {
    hide I, Steps, T, Index;
    var a, b, c, d := p.a, p.b, p.c, p.d;
    a := Op(n, a, b, c, d, I(b, c, d), x0, 6, t0, m, q);
    d := Op(n + 1, d, a, b, c, I(a, b, c), x1, 10, t1, m, q);
    c := Op(n + 2, c, d, a, b, I(d, a, b), x2, 15, t2, m, q);
    b := Op(n + 3, b, c, d, a, I(c, d, a), x3, 21, t3, m, q);
    r := Quad(a, b, c, d);
  }

  /** Round 4. */
  method FourthRound(x: array<word>, p: Quad, ghost q: Quad) returns (r: Quad)
    requires x.Length == 16 && p == Steps(x[..], q, 48)
    ensures r == Steps(x[..], q, 64)
  {
    hide Steps, T, Index;
    Round4Table();
    ghost var m := x[..];
    r := II4(48, p, x[0], x[7], x[14], x[5], 4096336452, 1126891415, 2878612391, 4237533241, m, q);
    r := II4(52, r, x[12], x[3], x[10], x[1], 1700485571, 2399980690, 4293915773, 2240044497, m, q);
    r := II4(56, r, x[8], x[15], x[6], x[13], 1873313359, 4264355552, 2734768916, 1309151649, m, q);
    r := II4(60, r, x[4], x[11], x[2], x[9], 4149444226, 3174756917, 718787259, 3951481745, m, q);
  }

  /** The literals of round 4 are the indices and constants of the standard. */
  lemma Round4Table()
    ensures Index(48) == 0 && T(48) == 4096336452 && Index(49) == 7 && T(49) == 1126891415
    ensures Index(50) == 14 && T(50) == 2878612391 && Index(51) == 5 && T(51) == 4237533241
    ensures Index(52) == 12 && T(52) == 1700485571 && Index(53) == 3 && T(53) == 2399980690
    ensures Index(54) == 10 && T(54) == 4293915773 && Index(55) == 1 && T(55) == 2240044497
    ensures Index(56) == 8 && T(56) == 1873313359 && Index(57) == 15 && T(57) == 4264355552
    ensures Index(58) == 6 && T(58) == 2734768916 && Index(59) == 13 && T(59) == 1309151649
    ensures Index(60) == 4 && T(60) == 4149444226 && Index(61) == 11 && T(61) == 3174756917
    ensures Index(62) == 2 && T(62) == 718787259 && Index(63) == 9 && T(63) == 3951481745
  {
  }

  /** Transform. */
  method Transform(buf: Quad, x: array<word>) returns (r: Quad)
    requires x.Length == 16
    ensures r == TransformWords(buf, x[..])
  {
    hide Steps, AddQuad;
    NoSteps(x[..], buf);
    var p := FirstRound(x, buf, buf);
    p := SecondRound(x, p, buf);
    p := ThirdRound(x, p, buf);
    p := FourthRound(x, p, buf);
    r := AddQuad(buf, p);
  }

  lemma NoSteps(x: seq<word>, q: Quad)
    requires |x| == 16
    ensures Steps(x, q, 0) == q
  {
  }
}
