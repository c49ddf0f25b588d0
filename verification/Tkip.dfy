/**
  TKIP key mixing of tkhash.c: phase 1 over the transmitter address and the upper IV, phase 2
  over the lower IV, and the keyed permutation that the two make together.
 */
module Tkip {
  import opened Words
  import GaloisField
  import SBox
  import WordBits

  type word16 = bv16

  // ----- sixteen-bit arithmetic -----

  function Plus(x: word16, y: word16): word16 { x + y }

  function Minus(x: word16, y: word16): word16 { x - y }

  function Xor16(x: word16, y: word16): word16 { x ^ y }

  lemma MinusUndoesPlus(x: word16, y: word16)
    ensures Minus(Plus(x, y), y) == x
  {
    assert Minus(Plus(x, y), y) == Minus(x + y, y) == (x + y) - y;
  }

  lemma PlusUndoesMinus(x: word16, y: word16)
    ensures Plus(Minus(x, y), y) == x
  {
    assert Plus(Minus(x, y), y) == Plus(x - y, y) == (x - y) + y;
  }

  lemma PlusCommutes(x: word16, y: word16)
    ensures Plus(x, y) == Plus(y, x)
  {
  }

  lemma PlusMinus(x: word16, y: word16)
    ensures Minus(Plus(x, y), y) == x && Plus(Minus(x, y), y) == x
  {
    hide Plus, Minus;
    MinusUndoesPlus(x, y);
    PlusUndoesMinus(x, y);
  }

  function Lo8(v: word16): byte { (v & 0xff) as byte }

  function Hi8(v: word16): byte { ((v >> 8) & 0xff) as byte }

  function Mk16(hi: byte, lo: byte): word16 { (lo as word16) ^ ((hi as word16) << 8) }

  lemma Halves(v: word16)
    ensures Mk16(Hi8(v), Lo8(v)) == v
  {
  }

  lemma Joined(hi: byte, lo: byte)
    ensures Hi8(Mk16(hi, lo)) == hi && Lo8(Mk16(hi, lo)) == lo
  {
  }

  function Lo16(v: word): word16 { (v & 0xffff) as word16 }

  function Hi16(v: word): word16 { ((v >> 16) & 0xffff) as word16 }

  function Mk32(hi: word16, lo: word16): word { ((hi as word) << 16) | (lo as word) }

  lemma Halves32(v: word)
    ensures Mk32(Hi16(v), Lo16(v)) == v
  {
  }

  lemma Joined32(hi: word16, lo: word16)
    ensures Hi16(Mk32(hi, lo)) == hi && Lo16(Mk32(hi, lo)) == lo
  {
  }

  function RotR1(v: word16): word16 { ((v >> 1) & 0x7FFF) ^ ((v & 1) << 15) }

  // ----- the S-box and the key words -----

  /** The two table columns that are taken from Te0. */
  function Sbox0(x: byte): word16 { var s := SBox.S(x); Mk16(GaloisField.Xtime(s), GaloisField.Mul3(s)) }

  function Sbox1(x: byte): word16 { var s := SBox.S(x); Mk16(GaloisField.Mul3(s), GaloisField.Xtime(s)) }

  /** _S_. */
  function S(v: word16): word16 { Xor16(Sbox0(Lo8(v)), Sbox1(Hi8(v))) }

  predicate Key(tk: seq<byte>) { |tk| == 16 }

  function TK16(tk: seq<byte>, n: nat): word16
    requires Key(tk) && n < 8
  {
    Mk16(tk[2 * n + 1], tk[2 * n])
  }

  /** The amount an S-box step adds. */
  function Mixed(tk: seq<byte>, v: word16, n: nat): word16
    requires Key(tk) && n < 8
  {
    S(Xor16(v, TK16(tk, n)))
  }

  lemma XorOfPairs(p: byte, q: byte, r: byte, s: byte)
    ensures Xor16(Mk16(p, q), Mk16(r, s)) == Mk16(GaloisField.Add(p, r), GaloisField.Add(q, s))
  {
  }

  /** The matrix (2 3; 3 2) over the field of AES, which is its own inverse. */
  function Mixed2(a: byte, b: byte): byte { GaloisField.Add(GaloisField.Xtime(a), GaloisField.Mul3(b)) }

  lemma MatrixInverse(a: byte, b: byte)
    ensures Mixed2(Mixed2(a, b), Mixed2(b, a)) == a
  {
    hide GaloisField.Xtime, GaloisField.Mul3, GaloisField.Add;
    var xa, xb, ma, mb := GaloisField.Xtime(a), GaloisField.Xtime(b), GaloisField.Mul3(a), GaloisField.Mul3(b);
    GaloisField.XtimeAdd(xa, mb);
    GaloisField.MulsAdd(xb, ma);
    AddCommutes(GaloisField.Mul3(xb), GaloisField.Mul3(ma));
    GaloisField.AddPairs(GaloisField.Xtime(xa), GaloisField.Xtime(mb), GaloisField.Mul3(ma), GaloisField.Mul3(xb));
    Squares(a);
    Squares(b);
    AddZero(a);
  }

  lemma AddZero(a: byte)
    ensures GaloisField.Add(a, 0) == a
  {
  }

  /** 2 * 2 + 3 * 3 is one and 2 * 3 + 3 * 2 is nothing. */
  lemma Squares(b: byte)
    ensures GaloisField.Add(GaloisField.Xtime(GaloisField.Xtime(b)), GaloisField.Mul3(GaloisField.Mul3(b))) == b
    ensures GaloisField.Add(GaloisField.Xtime(GaloisField.Mul3(b)), GaloisField.Mul3(GaloisField.Xtime(b))) == 0
  {
  }

  lemma SIsMatrix(v: word16)
    ensures var a, b := SBox.S(Lo8(v)), SBox.S(Hi8(v)); S(v) == Mk16(Mixed2(a, b), Mixed2(b, a))
  {
    hide Lo8, Hi8, Mk16, Xor16, SBox.S, GaloisField.Xtime, GaloisField.Mul3, GaloisField.Add;
    var a, b := SBox.S(Lo8(v)), SBox.S(Hi8(v));
    XorOfPairs(GaloisField.Xtime(a), GaloisField.Mul3(a), GaloisField.Mul3(b), GaloisField.Xtime(b));
    AddCommutes(GaloisField.Mul3(a), GaloisField.Xtime(b));
  }

  lemma AddCommutes(x: byte, y: byte)
    ensures GaloisField.Add(x, y) == GaloisField.Add(y, x)
  {
  }

  function Unsbox(w: word16): word16 {
    var h, l := Hi8(w), Lo8(w);
    Mk16(SBox.Si(Mixed2(l, h)), SBox.Si(Mixed2(h, l)))
  }

  /** _S_ permutes the sixteen-bit words. */
  lemma SIsPermutation(v: word16)
    ensures Unsbox(S(v)) == v && S(Unsbox(v)) == v
  {
    hide S, Lo8, Hi8, Mk16, SBox.S, SBox.Si, Mixed2;
    var a, b := SBox.S(Lo8(v)), SBox.S(Hi8(v));
    SIsMatrix(v);
    Joined(Mixed2(a, b), Mixed2(b, a));
    MatrixInverse(a, b);
    MatrixInverse(b, a);
    SBox.SboxInverse(Lo8(v));
    SBox.SboxInverse(Hi8(v));
    Halves(v);
    var h, l := Hi8(v), Lo8(v);
    SIsMatrix(Unsbox(v));
    Joined(SBox.Si(Mixed2(l, h)), SBox.Si(Mixed2(h, l)));
    SBox.SboxInverse(Mixed2(l, h));
    SBox.SboxInverse(Mixed2(h, l));
    MatrixInverse(h, l);
    MatrixInverse(l, h);
  }

  lemma Xor16Cancels(v: word16, x: word16, y: word16)
    ensures Xor16(v, x) == Xor16(v, y) <==> x == y
  {
  }

  /** Step n of an S-box sweep depends on key word n, and on no other byte of the key. */
  lemma MixedUsesWord(tk: seq<byte>, tk': seq<byte>, v: word16, n: nat)
    requires Key(tk) && Key(tk') && n < 8
    ensures Mixed(tk, v, n) == Mixed(tk', v, n) <==> tk[2 * n..2 * n + 2] == tk'[2 * n..2 * n + 2]
  {
    hide S, Unsbox, Xor16, Mk16, Hi8, Lo8;
    var x, y := TK16(tk, n), TK16(tk', n);
    SIsPermutation(Xor16(v, x));
    SIsPermutation(Xor16(v, y));
    Xor16Cancels(v, x, y);
    Joined(tk[2 * n + 1], tk[2 * n]);
    Joined(tk'[2 * n + 1], tk'[2 * n]);
    assert tk[2 * n..2 * n + 2] == [tk[2 * n], tk[2 * n + 1]];
    assert tk'[2 * n..2 * n + 2] == [tk'[2 * n], tk'[2 * n + 1]];
  }

  // ----- phase 1 -----

  datatype Five = Five(a: word16, b: word16, c: word16, d: word16, e: word16)

  /** The loop counter as a word. */
  function Counter(i: nat): word16
    requires i < 8
  {
    i as word16
  }

  function Round(tk: seq<byte>, p: Five, i: nat): Five
    requires Key(tk) && i < 8
  {
    var a := Plus(p.a, Mixed(tk, p.e, i % 2));
    var b := Plus(p.b, Mixed(tk, a, i % 2 + 2));
    var c := Plus(p.c, Mixed(tk, b, i % 2 + 4));
    var d := Plus(p.d, Mixed(tk, c, i % 2 + 6));
    var e := Plus(Plus(p.e, Mixed(tk, d, i % 2)), Counter(i));
    Five(a, b, c, d, e)
  }

  function Unround(tk: seq<byte>, q: Five, i: nat): Five
    requires Key(tk) && i < 8
  {
    var e := Minus(Minus(q.e, Counter(i)), Mixed(tk, q.d, i % 2));
    var d := Minus(q.d, Mixed(tk, q.c, i % 2 + 6));
    var c := Minus(q.c, Mixed(tk, q.b, i % 2 + 4));
    var b := Minus(q.b, Mixed(tk, q.a, i % 2 + 2));
    var a := Minus(q.a, Mixed(tk, e, i % 2));
    Five(a, b, c, d, e)
  }

  lemma RoundInverse(tk: seq<byte>, p: Five, i: nat)
    requires Key(tk) && i < 8
    ensures Unround(tk, Round(tk, p, i), i) == p && Round(tk, Unround(tk, p, i), i) == p
  {
    hide Plus, Minus, Mixed, Counter;
    var q := Round(tk, p, i);
    PlusMinus(Plus(p.e, Mixed(tk, q.d, i % 2)), Counter(i));
    PlusMinus(p.e, Mixed(tk, q.d, i % 2));
    PlusMinus(p.d, Mixed(tk, q.c, i % 2 + 6));
    PlusMinus(p.c, Mixed(tk, q.b, i % 2 + 4));
    PlusMinus(p.b, Mixed(tk, q.a, i % 2 + 2));
    PlusMinus(p.a, Mixed(tk, p.e, i % 2));
    var u := Unround(tk, p, i);
    PlusMinus(p.e, Counter(i));
    PlusMinus(Minus(p.e, Counter(i)), Mixed(tk, p.d, i % 2));
    PlusMinus(p.d, Mixed(tk, p.c, i % 2 + 6));
    PlusMinus(p.c, Mixed(tk, p.b, i % 2 + 4));
    PlusMinus(p.b, Mixed(tk, p.a, i % 2 + 2));
    PlusMinus(p.a, Mixed(tk, u.e, i % 2));
  }

  function Rounds(tk: seq<byte>, p: Five, n: nat): Five
    requires Key(tk) && n <= 8
  {
    if n == 0 then p else Round(tk, Rounds(tk, p, n - 1), n - 1)
  }

  function Unrounds(tk: seq<byte>, q: Five, n: nat): Five
    requires Key(tk) && n <= 8
    decreases n
  {
    if n == 0 then q else Unrounds(tk, Unround(tk, q, n - 1), n - 1)
  }

  lemma {:induction false} RoundsInverse(tk: seq<byte>, p: Five, n: nat)
    requires Key(tk) && n <= 8
    ensures Unrounds(tk, Rounds(tk, p, n), n) == p && Rounds(tk, Unrounds(tk, p, n), n) == p
    decreases n
  {
    hide Round, Unround;
    if n > 0 {
      RoundInverse(tk, Rounds(tk, p, n - 1), n - 1);
      RoundsInverse(tk, p, n - 1);
      RoundInverse(tk, p, n - 1);
      RoundsInverse(tk, Unround(tk, p, n - 1), n - 1);
    }
  }

  /** What must differ between two packets under one key. */
  datatype Packet = Packet(a0: byte, a1: byte, a2: byte, a3: byte, a4: byte, a5: byte, iv32: word, iv16: word16)

  function Start(x: Packet): Five {
    Five(Lo16(x.iv32), Hi16(x.iv32), Mk16(x.a1, x.a0), Mk16(x.a3, x.a2), Mk16(x.a5, x.a4))
  }

  function Unstart(p: Five, iv16: word16): Packet {
    Packet(Lo8(p.c), Hi8(p.c), Lo8(p.d), Hi8(p.d), Lo8(p.e), Hi8(p.e), Mk32(p.b, p.a), iv16)
  }

  lemma StartInverse(x: Packet, p: Five)
    ensures Unstart(Start(x), x.iv16) == x && Start(Unstart(p, x.iv16)) == p
  {
    hide Lo8, Hi8, Mk16, Lo16, Hi16, Mk32;
    Joined(x.a1, x.a0);
    Joined(x.a3, x.a2);
    Joined(x.a5, x.a4);
    Halves32(x.iv32);
    Halves(p.c);
    Halves(p.d);
    Halves(p.e);
    Joined32(p.b, p.a);
  }

  /** The phase-1 key. */
  function Phase1(tk: seq<byte>, x: Packet): Five
    requires Key(tk)
  {
    Rounds(tk, Start(x), 8)
  }

  // ----- phase 2 -----

  datatype Six = Six(a: word16, b: word16, c: word16, d: word16, e: word16, f: word16)

  /** Six words, each raised by an amount that depends on its predecessor. */
  function SboxSweep(tk: seq<byte>, p: Six): Six
    requires Key(tk)
  {
    var a := Plus(p.a, Mixed(tk, p.f, 0));
    var b := Plus(p.b, Mixed(tk, a, 1));
    var c := Plus(p.c, Mixed(tk, b, 2));
    var d := Plus(p.d, Mixed(tk, c, 3));
    var e := Plus(p.e, Mixed(tk, d, 4));
    var f := Plus(p.f, Mixed(tk, e, 5));
    Six(a, b, c, d, e, f)
  }

  function UndoSboxSweep(tk: seq<byte>, q: Six): Six
    requires Key(tk)
  {
    var f := Minus(q.f, Mixed(tk, q.e, 5));
    var e := Minus(q.e, Mixed(tk, q.d, 4));
    var d := Minus(q.d, Mixed(tk, q.c, 3));
    var c := Minus(q.c, Mixed(tk, q.b, 2));
    var b := Minus(q.b, Mixed(tk, q.a, 1));
    var a := Minus(q.a, Mixed(tk, f, 0));
    Six(a, b, c, d, e, f)
  }

  lemma SboxSweepInverse(tk: seq<byte>, p: Six)
    requires Key(tk)
    ensures UndoSboxSweep(tk, SboxSweep(tk, p)) == p && SboxSweep(tk, UndoSboxSweep(tk, p)) == p
  {
    hide Plus, Minus, Mixed;
    var q := SboxSweep(tk, p);
    PlusMinus(p.f, Mixed(tk, q.e, 5));
    PlusMinus(p.e, Mixed(tk, q.d, 4));
    PlusMinus(p.d, Mixed(tk, q.c, 3));
    PlusMinus(p.c, Mixed(tk, q.b, 2));
    PlusMinus(p.b, Mixed(tk, q.a, 1));
    PlusMinus(p.a, Mixed(tk, p.f, 0));
    var u := UndoSboxSweep(tk, p);
    PlusMinus(p.f, Mixed(tk, p.e, 5));
    PlusMinus(p.e, Mixed(tk, p.d, 4));
    PlusMinus(p.d, Mixed(tk, p.c, 3));
    PlusMinus(p.c, Mixed(tk, p.b, 2));
    PlusMinus(p.b, Mixed(tk, p.a, 1));
    PlusMinus(p.a, Mixed(tk, u.f, 0));
  }

  function RotateSweep(tk: seq<byte>, p: Six): Six
    requires Key(tk)
  {
    var a := Plus(p.a, RotR1(Xor16(p.f, TK16(tk, 6))));
    var b := Plus(p.b, RotR1(Xor16(a, TK16(tk, 7))));
    var c := Plus(p.c, RotR1(b));
    var d := Plus(p.d, RotR1(c));
    var e := Plus(p.e, RotR1(d));
    var f := Plus(p.f, RotR1(e));
    Six(a, b, c, d, e, f)
  }

  function UndoRotateSweep(tk: seq<byte>, q: Six): Six
    requires Key(tk)
  {
    var f := Minus(q.f, RotR1(q.e));
    var e := Minus(q.e, RotR1(q.d));
    var d := Minus(q.d, RotR1(q.c));
    var c := Minus(q.c, RotR1(q.b));
    var b := Minus(q.b, RotR1(Xor16(q.a, TK16(tk, 7))));
    var a := Minus(q.a, RotR1(Xor16(f, TK16(tk, 6))));
    Six(a, b, c, d, e, f)
  }

  lemma RotateSweepInverse(tk: seq<byte>, p: Six)
    requires Key(tk)
    ensures UndoRotateSweep(tk, RotateSweep(tk, p)) == p && RotateSweep(tk, UndoRotateSweep(tk, p)) == p
  {
    hide Plus, Minus, RotR1, Xor16, TK16;
    var q := RotateSweep(tk, p);
    PlusMinus(p.f, RotR1(q.e));
    PlusMinus(p.e, RotR1(q.d));
    PlusMinus(p.d, RotR1(q.c));
    PlusMinus(p.c, RotR1(q.b));
    PlusMinus(p.b, RotR1(Xor16(q.a, TK16(tk, 7))));
    PlusMinus(p.a, RotR1(Xor16(p.f, TK16(tk, 6))));
    var u := UndoRotateSweep(tk, p);
    PlusMinus(p.f, RotR1(p.e));
    PlusMinus(p.e, RotR1(p.d));
    PlusMinus(p.d, RotR1(p.c));
    PlusMinus(p.c, RotR1(p.b));
    PlusMinus(p.b, RotR1(Xor16(p.a, TK16(tk, 7))));
    PlusMinus(p.a, RotR1(Xor16(u.f, TK16(tk, 6))));
  }

  /** The phase-1 key with the lower IV added in as a sixth word. */
  function Widen(p: Five, iv16: word16): Six { Six(p.a, p.b, p.c, p.d, p.e, Plus(p.e, iv16)) }

  /** The 96 bits that phase 2 makes of a phase-1 key. */
  function Ppk(tk: seq<byte>, p: Five, iv16: word16): Six
    requires Key(tk)
  {
    RotateSweep(tk, SboxSweep(tk, Widen(p, iv16)))
  }

  // ----- the keyed permutation -----

  function Mix(tk: seq<byte>, x: Packet): Six
    requires Key(tk)
  {
    Ppk(tk, Phase1(tk, x), x.iv16)
  }

  function Unmix(tk: seq<byte>, q: Six): Packet
    requires Key(tk)
  {
    var w := UndoSboxSweep(tk, UndoRotateSweep(tk, q));
    Unstart(Unrounds(tk, Five(w.a, w.b, w.c, w.d, w.e), 8), Minus(w.f, w.e))
  }

  lemma WidenInverse(p: Five, iv16: word16, w: Six)
    ensures Minus(Widen(p, iv16).f, p.e) == iv16
    ensures Widen(Five(w.a, w.b, w.c, w.d, w.e), Minus(w.f, w.e)) == w
  {
    hide Plus, Minus;
    PlusCommutes(p.e, iv16);
    PlusMinus(iv16, p.e);
    PlusCommutes(w.e, Minus(w.f, w.e));
    PlusMinus(w.f, w.e);
  }

  /** Under a fixed temporal key the mixing permutes the 96 bits of address and IV. */
  lemma MixIsPermutation(tk: seq<byte>, x: Packet, q: Six)
    requires Key(tk)
    ensures Unmix(tk, Mix(tk, x)) == x && Mix(tk, Unmix(tk, q)) == q
  {
    hide Mix, Unmix;
    UnmixUndoesMix(tk, x);
    MixUndoesUnmix(tk, q);
  }

  lemma UnmixUndoesMix(tk: seq<byte>, x: Packet)
    requires Key(tk)
    ensures Unmix(tk, Mix(tk, x)) == x
  {
    hide Plus, Minus, SboxSweep, UndoSboxSweep, RotateSweep, UndoRotateSweep, Rounds, Unrounds, Start, Unstart;
    var p := Phase1(tk, x);
    var w := Widen(p, x.iv16);
    RotateSweepInverse(tk, SboxSweep(tk, w));
    SboxSweepInverse(tk, w);
    WidenInverse(p, x.iv16, w);
    assert Five(w.a, w.b, w.c, w.d, w.e) == p;
    RoundsInverse(tk, Start(x), 8);
    StartInverse(x, p);
  }

  lemma MixUndoesUnmix(tk: seq<byte>, q: Six)
    requires Key(tk)
    ensures Mix(tk, Unmix(tk, q)) == q
  {
    hide Plus, Minus, SboxSweep, UndoSboxSweep, RotateSweep, UndoRotateSweep, Rounds, Unrounds, Start;
    var w := UndoSboxSweep(tk, UndoRotateSweep(tk, q));
    var f := Five(w.a, w.b, w.c, w.d, w.e);
    RotateSweepInverse(tk, q);
    SboxSweepInverse(tk, UndoRotateSweep(tk, q));
    RoundsInverse(tk, f, 8);
    StartInverse(Unmix(tk, q), Unrounds(tk, f, 8));
    WidenInverse(f, Minus(w.f, w.e), w);
  }

  // ----- the RC4 key -----

  /** The second byte, kept away from weak keys. */
  function Seed(hi: byte): byte { (hi | 0x20) & 0x7F }

  function Check(v: word16): byte { Lo8(v >> 1) }

  /** The three clear bytes, the check byte, and the 96 mixed bits. */
  function Rc4Key(tk: seq<byte>, p: Five, iv16: word16): (k: seq<byte>)
    requires Key(tk)
    ensures |k| == 16
  {
    var q := Ppk(tk, p, iv16);
    [Hi8(iv16), Seed(Hi8(iv16)), Lo8(iv16), Check(Xor16(q.f, TK16(tk, 0)))] + Bytes(q)
  }

  /** The second byte repeats the first, but for bit 5, which is set, and bit 7, which is clear. */
  lemma SeedBit(hi: byte, i: byte)
    requires i < 8
    ensures WordBits.Bit8(Seed(hi), i) == (i == 5 || (i != 7 && WordBits.Bit8(hi, i)))
  {
  }

  /** The check byte holds bits 1 to 8 of the last word, as the key word 0 changes them. */
  lemma CheckBit(v: word16, k: word16, i: byte)
    requires i < 8
    ensures WordBits.Bit8(Check(Xor16(v, k)), i) == (WordBits.Bit16(v, i + 1) != WordBits.Bit16(k, i + 1))
  {
  }

  lemma HalfBit(v: word16, i: byte)
    requires i < 8
    ensures WordBits.Bit8(Lo8(v), i) == WordBits.Bit16(v, i) && WordBits.Bit8(Hi8(v), i) == WordBits.Bit16(v, i + 8)
  {
  }

  /** Rotation to the right by one place. */
  lemma RotR1Bit(v: word16, i: byte)
    requires i < 16
    ensures WordBits.Bit16(RotR1(v), i) == WordBits.Bit16(v, if i == 15 then 0 else i + 1)
  {
  }

  /** Six words, low byte first. */
  function Bytes(q: Six): (s: seq<byte>)
    ensures |s| == 12
  {
    Two(q.a) + Two(q.b) + Two(q.c) + Two(q.d) + Two(q.e) + Two(q.f)
  }

  function Two(v: word16): (s: seq<byte>)
    ensures |s| == 2
  {
    [Lo8(v), Hi8(v)]
  }

  lemma SixPairs(a: seq<byte>, b: seq<byte>, c: seq<byte>, d: seq<byte>, e: seq<byte>, f: seq<byte>, i: nat)
    requires |a| == |b| == |c| == |d| == |e| == |f| == 2 && i < 6
    ensures var p := if i == 0 then a else if i == 1 then b else if i == 2 then c else if i == 3 then d
                     else if i == 4 then e else f;
            var s := a + b + c + d + e + f;
            s[2 * i] == p[0] && s[2 * i + 1] == p[1]
  {
  }

  /** Word i of the six. */
  function Nth(q: Six, i: nat): word16
    requires i < 6
  {
    if i == 0 then q.a else if i == 1 then q.b else if i == 2 then q.c
    else if i == 3 then q.d else if i == 4 then q.e else q.f
  }

  lemma BytesAt(q: Six, i: nat)
    requires i < 6
    ensures Bytes(q)[2 * i] == Lo8(Nth(q, i)) && Bytes(q)[2 * i + 1] == Hi8(Nth(q, i))
  {
    hide Two, Lo8, Hi8;
    SixPairs(Two(q.a), Two(q.b), Two(q.c), Two(q.d), Two(q.e), Two(q.f), i);
    assert Bytes(q)[2 * i] == Two(Nth(q, i))[0] && Bytes(q)[2 * i + 1] == Two(Nth(q, i))[1];
    TwoBytes(Nth(q, i));
  }

  lemma TwoBytes(v: word16)
    ensures Two(v)[0] == Lo8(v) && Two(v)[1] == Hi8(v)
  {
    hide Lo8, Hi8;
  }

  lemma BytesInjective(q: Six, r: Six)
    requires Bytes(q) == Bytes(r)
    ensures q == r
  {
    hide Lo8, Hi8, Mk16, Bytes;
    forall i | 0 <= i < 6
      ensures Nth(q, i) == Nth(r, i)
    {
      BytesAt(q, i);
      BytesAt(r, i);
      Halves(Nth(q, i));
      Halves(Nth(r, i));
    }
    assert Nth(q, 0) == Nth(r, 0) && Nth(q, 1) == Nth(r, 1) && Nth(q, 2) == Nth(r, 2);
    assert Nth(q, 3) == Nth(r, 3) && Nth(q, 4) == Nth(r, 4) && Nth(q, 5) == Nth(r, 5);
  }

  /** The RC4 key of a packet. */
  function PacketKey(tk: seq<byte>, x: Packet): (k: seq<byte>)
    requires Key(tk)
    ensures |k| == 16
  {
    Rc4Key(tk, Phase1(tk, x), x.iv16)
  }

  /** No two packets that differ in address or IV share an RC4 key; its last twelve bytes already differ. */
  lemma KeysAreUnique(tk: seq<byte>, x: Packet, y: Packet)
    requires Key(tk)
    ensures PacketKey(tk, x)[4..] == PacketKey(tk, y)[4..] <==> x == y
  {
    hide Bytes, Ppk, Phase1, Lo8, Hi8, Xor16, TK16, Unmix;
    KeyTail(tk, x);
    KeyTail(tk, y);
    if PacketKey(tk, x)[4..] == PacketKey(tk, y)[4..] {
      BytesInjective(Mix(tk, x), Mix(tk, y));
      UnmixUndoesMix(tk, x);
      UnmixUndoesMix(tk, y);
    }
  }

  lemma KeyTail(tk: seq<byte>, x: Packet)
    requires Key(tk)
    ensures PacketKey(tk, x)[4..] == Bytes(Mix(tk, x))
  {
    hide Bytes, Ppk, Phase1, Lo8, Hi8, Xor16, TK16;
  }

  /** The bits of the first four bytes: the two bytes of the IV, its upper byte as a seed, and the check byte. */
  lemma KeyHead(tk: seq<byte>, x: Packet, i: byte)
    requires Key(tk) && i < 8
    ensures var k := PacketKey(tk, x);
            && WordBits.Bit8(k[0], i) == WordBits.Bit16(x.iv16, i + 8)
            && WordBits.Bit8(k[1], i) == (i == 5 || (i != 7 && WordBits.Bit16(x.iv16, i + 8)))
            && WordBits.Bit8(k[2], i) == WordBits.Bit16(x.iv16, i)
            && WordBits.Bit8(k[3], i) == (WordBits.Bit16(Mix(tk, x).f, i + 1) != WordBits.Bit16(TK16(tk, 0), i + 1))
  {
    hide WordBits.Bit8, WordBits.Bit16, Bytes, Ppk, Phase1, Lo8, Hi8, Xor16, TK16, Seed, Check;
    HalfBit(x.iv16, i);
    SeedBit(Hi8(x.iv16), i);
    CheckBit(Mix(tk, x).f, TK16(tk, 0), i);
  }

  // ----- the code -----

  /** tkhash_phase1. */
  method TkhashPhase1(P1K: array<word16>, TK: array<byte>, TA: array<byte>, iv32: word, ghost x: Packet)
    requires P1K.Length == 5 && TK.Length == 16 && TA.Length == 6
    requires TA[..] == [x.a0, x.a1, x.a2, x.a3, x.a4, x.a5] && iv32 == x.iv32
    modifies P1K
    ensures Five(P1K[0], P1K[1], P1K[2], P1K[3], P1K[4]) == Phase1(TK[..], x)
  {
    hide Plus, S, Xor16, TK16, Counter, Mk16, Lo16, Hi16;
    assert TA[0] == TA[..][0] && TA[1] == TA[..][1] && TA[2] == TA[..][2];
    assert TA[3] == TA[..][3] && TA[4] == TA[..][4] && TA[5] == TA[..][5];
    P1K[0] := Lo16(iv32);
    P1K[1] := Hi16(iv32);
    P1K[2] := Mk16(TA[1], TA[0]);
    P1K[3] := Mk16(TA[3], TA[2]);
    P1K[4] := Mk16(TA[5], TA[4]);
    var i := 0;
    while i < 8
      invariant 0 <= i <= 8
      invariant Five(P1K[0], P1K[1], P1K[2], P1K[3], P1K[4]) == Rounds(TK[..], Start(x), i)
    {
      FeistelRound(P1K, TK, i);
      i := i + 1;
    }
  }

  /** One round of the phase-1 loop. */
  method FeistelRound(P1K: array<word16>, TK: array<byte>, i: nat)
    requires P1K.Length == 5 && TK.Length == 16 && i < 8
    modifies P1K
    ensures Five(P1K[0], P1K[1], P1K[2], P1K[3], P1K[4])
         == Round(TK[..], old(Five(P1K[0], P1K[1], P1K[2], P1K[3], P1K[4])), i)
  {
    hide Plus, Mixed, Counter;
    P1K[0] := Plus(P1K[0], Mixed(TK[..], P1K[4], i % 2));
    P1K[1] := Plus(P1K[1], Mixed(TK[..], P1K[0], i % 2 + 2));
    P1K[2] := Plus(P1K[2], Mixed(TK[..], P1K[1], i % 2 + 4));
    P1K[3] := Plus(P1K[3], Mixed(TK[..], P1K[2], i % 2 + 6));
    P1K[4] := Plus(P1K[4], Mixed(TK[..], P1K[3], i % 2));
    P1K[4] := Plus(P1K[4], Counter(i));
  }

  /** Copy, add in the IV, and the two sweeps. */
  method MakePpk(TK: array<byte>, P1K: array<word16>, iv16: word16) returns (PPK: array<word16>)
    requires TK.Length == 16 && P1K.Length == 5
    ensures fresh(PPK) && PPK.Length == 6
    ensures SixOf(PPK) == Ppk(TK[..], Five(P1K[0], P1K[1], P1K[2], P1K[3], P1K[4]), iv16)
  {
    hide Plus, SboxSweep, RotateSweep;
    PPK := new word16[6];
    PPK[0], PPK[1], PPK[2], PPK[3], PPK[4] := P1K[0], P1K[1], P1K[2], P1K[3], P1K[4];
    PPK[5] := Plus(P1K[4], iv16);
    SweepWithSbox(PPK, TK);
    SweepWithRotations(PPK, TK);
  }

  /** tkhash_phase2. */
  method TkhashPhase2(RC4KEY: array<byte>, TK: array<byte>, P1K: array<word16>, iv16: word16)
    requires RC4KEY.Length == 16 && TK.Length == 16 && P1K.Length == 5 && RC4KEY != TK
    modifies RC4KEY
    ensures RC4KEY[..] == Rc4Key(TK[..], Five(P1K[0], P1K[1], P1K[2], P1K[3], P1K[4]), iv16)
  {
    hide Ppk, Xor16, TK16, Lo8, Hi8, Seed, Check, Bytes;
    var PPK := MakePpk(TK, P1K, iv16);
    ghost var q := SixOf(PPK);
    RC4KEY[0] := Hi8(iv16);
    RC4KEY[1] := Seed(Hi8(iv16));
    RC4KEY[2] := Lo8(iv16);
    RC4KEY[3] := Check(Xor16(PPK[5], TK16(TK[..], 0)));
    ghost var head := RC4KEY[..4];
    StoreKey(RC4KEY, PPK);
    assert RC4KEY[..] == head + Bytes(q);
  }

  /** The last loop: six words into bytes 4 to 15, low byte first. */
  method StoreKey(RC4KEY: array<byte>, PPK: array<word16>)
    requires RC4KEY.Length == 16 && PPK.Length == 6
    modifies RC4KEY
    ensures RC4KEY[..] == old(RC4KEY[..4]) + Bytes(SixOf(PPK))
  {
    hide Lo8, Hi8, Bytes;
    ghost var q := SixOf(PPK);
    var i := 0;
    while i < 6
      invariant 0 <= i <= 6
      invariant RC4KEY[..4] == old(RC4KEY[..4])
      invariant forall j :: 0 <= j < 2 * i ==> RC4KEY[4 + j] == Bytes(q)[j]
    {
      BytesAt(q, i);
      RC4KEY[4 + 2 * i] := Lo8(PPK[i]);
      RC4KEY[5 + 2 * i] := Hi8(PPK[i]);
      i := i + 1;
    }
  }

  ghost function SixOf(a: array<word16>): Six
    requires a.Length == 6
    reads a
  {
    Six(a[0], a[1], a[2], a[3], a[4], a[5])
  }

  method SweepWithSbox(PPK: array<word16>, TK: array<byte>)
    requires PPK.Length == 6 && TK.Length == 16
    modifies PPK
    ensures SixOf(PPK) == SboxSweep(TK[..], old(SixOf(PPK)))
  {
    hide Plus, Mixed;
    PPK[0] := Plus(PPK[0], Mixed(TK[..], PPK[5], 0));
    PPK[1] := Plus(PPK[1], Mixed(TK[..], PPK[0], 1));
    PPK[2] := Plus(PPK[2], Mixed(TK[..], PPK[1], 2));
    PPK[3] := Plus(PPK[3], Mixed(TK[..], PPK[2], 3));
    PPK[4] := Plus(PPK[4], Mixed(TK[..], PPK[3], 4));
    PPK[5] := Plus(PPK[5], Mixed(TK[..], PPK[4], 5));
  }

  method SweepWithRotations(PPK: array<word16>, TK: array<byte>)
    requires PPK.Length == 6 && TK.Length == 16
    modifies PPK
    ensures SixOf(PPK) == RotateSweep(TK[..], old(SixOf(PPK)))
  {
    hide Plus, RotR1, Xor16, TK16;
    PPK[0] := Plus(PPK[0], RotR1(Xor16(PPK[5], TK16(TK[..], 6))));
    PPK[1] := Plus(PPK[1], RotR1(Xor16(PPK[0], TK16(TK[..], 7))));
    PPK[2] := Plus(PPK[2], RotR1(PPK[1]));
    PPK[3] := Plus(PPK[3], RotR1(PPK[2]));
    PPK[4] := Plus(PPK[4], RotR1(PPK[3]));
    PPK[5] := Plus(PPK[5], RotR1(PPK[4]));
  }
}
