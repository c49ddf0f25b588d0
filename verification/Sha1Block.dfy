/**
  The SHA-1 compression of one block: the recurrences of section 6.1 of RFC 3174 and the loops of
  SHA1ProcessMessageBlock.
 */
module Sha1Block {
  import opened Words
  import opened WordBits

  /** Five chaining words. */
  datatype Chain = Chain(a: word, b: word, c: word, d: word, e: word)

  const INIT := Chain(0x67452301, 0xEFCDAB89, 0x98BADCFE, 0x10325476, 0xC3D2E1F0)

  function K(t: nat): word {
    if t < 20 then 0x5A827999 else if t < 40 then 0x6ED9EBA1 else if t < 60 then 0x8F1BBCDC else 0xCA62C1D6
  }

  function Choose(b: word, c: word, d: word): word { (b & c) | (!b & d) }
  function Parity(b: word, c: word, d: word): word { b ^ c ^ d }
  function Majority(b: word, c: word, d: word): word { (b & c) | (b & d) | (c & d) }

  function F(t: nat, b: word, c: word, d: word): word {
    if t < 20 then Choose(b, c, d) else if t < 40 then Parity(b, c, d)
    else if t < 60 then Majority(b, c, d) else Parity(b, c, d)
  }

  function Sum(a: word, f: word, e: word, w: word, k: word): word {
    Add32(Add32(Add32(Add32(Rotl(a, 5), f), e), w), k)
  }

  /** One round: a sum into A, the rest moved along. */
  function Step(s: Chain, f: word, w: word, k: word): Chain {
    Chain(Sum(s.a, f, s.e, w, k), s.a, Rotl(s.b, 30), s.c, s.d)
  }

  /** Word t of the message schedule. */
  function W(block: seq<byte>, t: nat): word
    requires |block| == 64
  {
    if t < 16 then Get32(block, 4 * t)
    else Rotl(Mix(W(block, t - 3), W(block, t - 8), W(block, t - 14), W(block, t - 16)), 1)
  }

  function Mix(a: word, b: word, c: word, d: word): word { a ^ b ^ c ^ d }

  /** The working variables after t rounds. */
  function Rounds(block: seq<byte>, h: Chain, t: nat): Chain
    requires |block| == 64
  {
    if t == 0 then h else
      var s := Rounds(block, h, t - 1);
      Step(s, F(t - 1, s.b, s.c, s.d), W(block, t - 1), K(t - 1))
  }

  function AddChain(x: Chain, y: Chain): Chain {
    Chain(Add32(x.a, y.a), Add32(x.b, y.b), Add32(x.c, y.c), Add32(x.d, y.d), Add32(x.e, y.e))
  }

  function Compress(h: Chain, block: seq<byte>): Chain
    requires |block| == 64
  {
    AddChain(h, Rounds(block, h, 80))
  }

  // ----- what the word functions compute -----

  /** The bit of c where b has one, and that of d elsewhere. */
  lemma ChooseBit(b: word, c: word, d: word, i: byte)
    requires i < 32
    ensures Bit(Choose(b, c, d), i) == if Bit(b, i) then Bit(c, i) else Bit(d, i)
  {
    hide Bit;
    ChooseAt(b, c, d, i, Choose(b, c, d));
  }

  /** A bit that at least two of the three have. */
  lemma MostBit(b: word, c: word, d: word, i: byte)
    requires i < 32
    ensures Bit(Majority(b, c, d), i) == Most(Bit(b, i), Bit(c, i), Bit(d, i))
  {
    hide Bit;
    MajorityAt(b, c, d, i, Majority(b, c, d));
  }

  lemma ParityBit(b: word, c: word, d: word, i: byte)
    requires i < 32
    ensures Bit(Parity(b, c, d), i) == ((Bit(b, i) != Bit(c, i)) != Bit(d, i))
  {
    hide Bit;
    ParityAt(b, c, d, i, Parity(b, c, d));
  }

  lemma MixBit(a: word, b: word, c: word, d: word, i: byte)
    requires i < 32
    ensures Bit(Mix(a, b, c, d), i) == (((Bit(a, i) != Bit(b, i)) != Bit(c, i)) != Bit(d, i))
  {
    hide Bit;
    FourAt(a, b, c, d, i, Mix(a, b, c, d));
  }

  /** The sum of a round, as a sum of numbers. */
  lemma SumIsModular(a: word, f: word, e: word, w: word, k: word)
    ensures Value(Sum(a, f, e, w, k)) == (Value(Rotl(a, 5)) + Value(f) + Value(e) + Value(w) + Value(k)) % TWO32
  {
    hide Add32, Rotl, Value;
    var r := Rotl(a, 5);
    AddIsModular(r, f);
    AddsOn(Add32(r, f), Value(r) + Value(f), e);
    AddsOn(Add32(Add32(r, f), e), Value(r) + Value(f) + Value(e), w);
    AddsOn(Add32(Add32(Add32(r, f), e), w), Value(r) + Value(f) + Value(e) + Value(w), k);
  }

  /** The chaining words add up one by one. */
  lemma AddChainIsModular(x: Chain, y: Chain)
    ensures var z := AddChain(x, y);
            && Value(z.a) == (Value(x.a) + Value(y.a)) % TWO32 && Value(z.b) == (Value(x.b) + Value(y.b)) % TWO32
            && Value(z.c) == (Value(x.c) + Value(y.c)) % TWO32 && Value(z.d) == (Value(x.d) + Value(y.d)) % TWO32
            && Value(z.e) == (Value(x.e) + Value(y.e)) % TWO32
  {
    hide Add32, Value;
    AddIsModular(x.a, y.a);
    AddIsModular(x.b, y.b);
    AddIsModular(x.c, y.c);
    AddIsModular(x.d, y.d);
    AddIsModular(x.e, y.e);
  }

  /** The round constants are the square roots of 2, 3, 5 and 10, in units of 2^-30. */
  lemma ConstantsAreRoots(t: nat)
    ensures var k, p := K(t) as nat, if t < 20 then 2 else if t < 40 then 3 else if t < 60 then 5 else 10;
            k * k <= p * 0x1000_0000_0000_0000 < (k + 1) * (k + 1)
  {
  }

  // ----- the code -----

  method Schedule(block: array<byte>) returns (w: array<word>)
    requires block.Length == 64
    ensures fresh(w) && w.Length == 80
    ensures forall t :: 0 <= t < 80 ==> w[t] == W(block[..], t)
  {
    hide Mix, Rotl, Get32;
    ghost var b := block[..];
    w := new word[80];
    var t := 0;
    while t < 16
      invariant 0 <= t <= 16 && block[..] == b
      invariant forall i :: 0 <= i < t ==> w[i] == W(b, i)
    {
      w[t] := Get32(block[..], 4 * t);
      t := t + 1;
    }
    while t < 80
      invariant 16 <= t <= 80 && block[..] == b
      invariant forall i :: 0 <= i < t ==> w[i] == W(b, i)
    {
      w[t] := Rotl(Mix(w[t - 3], w[t - 8], w[t - 14], w[t - 16]), 1);
      t := t + 1;
    }
  }

  lemma OneRound(block: seq<byte>, h: Chain, t: nat, s: Chain, f: word, k: word)
    requires |block| == 64 && s == Rounds(block, h, t) && f == F(t, s.b, s.c, s.d) && k == K(t)
    ensures Rounds(block, h, t + 1) == Chain(Sum(s.a, f, s.e, W(block, t), k), s.a, Rotl(s.b, 30), s.c, s.d)
  {
    hide F, K, Sum, Rotl, W;
  }

  /** Which function and constant each stretch of rounds uses. */
  lemma RoundKinds()
    ensures forall t: nat, b, c, d :: t < 20 ==> F(t, b, c, d) == Choose(b, c, d)
    ensures forall t: nat, b, c, d :: 20 <= t < 40 || 60 <= t < 80 ==> F(t, b, c, d) == Parity(b, c, d)
    ensures forall t: nat, b, c, d :: 40 <= t < 60 ==> F(t, b, c, d) == Majority(b, c, d)
    ensures forall t: nat :: t < 20 ==> K(t) == 0x5A827999
    ensures forall t: nat :: 20 <= t < 40 ==> K(t) == 0x6ED9EBA1
    ensures forall t: nat :: 40 <= t < 60 ==> K(t) == 0x8F1BBCDC
    ensures forall t: nat :: 60 <= t < 80 ==> K(t) == 0xCA62C1D6
  {
    hide Choose, Parity, Majority;
  }

  /** The first two round loops. */
  method FirstForty(w: array<word>, s: Chain, ghost b: seq<byte>, ghost h: Chain) returns (r: Chain)
    requires |b| == 64 && w.Length == 80 && forall t :: 0 <= t < 80 ==> w[t] == W(b, t)
    requires s == Rounds(b, h, 0)
    ensures r == Rounds(b, h, 40)
  {
    hide Choose, Parity, Majority, F, K, Rotl, W, Sum, Rounds;
    RoundKinds();
    var A, B, C, D, E' := s.a, s.b, s.c, s.d, s.e;
    var t := 0;
    while t < 20
      invariant 0 <= t <= 20 && Chain(A, B, C, D, E') == Rounds(b, h, t)
    {
      OneRound(b, h, t, Chain(A, B, C, D, E'), Choose(B, C, D), 0x5A827999);
      var temp := Sum(A, Choose(B, C, D), E', w[t], 0x5A827999);
      E', D, C, B, A := D, C, Rotl(B, 30), A, temp;
      t := t + 1;
    }
    while t < 40
      invariant 20 <= t <= 40 && Chain(A, B, C, D, E') == Rounds(b, h, t)
    {
      OneRound(b, h, t, Chain(A, B, C, D, E'), Parity(B, C, D), 0x6ED9EBA1);
      var temp := Sum(A, Parity(B, C, D), E', w[t], 0x6ED9EBA1);
      E', D, C, B, A := D, C, Rotl(B, 30), A, temp;
      t := t + 1;
    }
    r := Chain(A, B, C, D, E');
  }

  /** The last two round loops. */
  method LastForty(w: array<word>, s: Chain, ghost b: seq<byte>, ghost h: Chain) returns (r: Chain)
    requires |b| == 64 && w.Length == 80 && forall t :: 0 <= t < 80 ==> w[t] == W(b, t)
    requires s == Rounds(b, h, 40)
    ensures r == Rounds(b, h, 80)
  {
    hide Choose, Parity, Majority, F, K, Rotl, W, Sum, Rounds;
    RoundKinds();
    var A, B, C, D, E' := s.a, s.b, s.c, s.d, s.e;
    var t := 40;
    while t < 60
      invariant 40 <= t <= 60 && Chain(A, B, C, D, E') == Rounds(b, h, t)
    {
      OneRound(b, h, t, Chain(A, B, C, D, E'), Majority(B, C, D), 0x8F1BBCDC);
      var temp := Sum(A, Majority(B, C, D), E', w[t], 0x8F1BBCDC);
      E', D, C, B, A := D, C, Rotl(B, 30), A, temp;
      t := t + 1;
    }
    while t < 80
      invariant 60 <= t <= 80 && Chain(A, B, C, D, E') == Rounds(b, h, t)
    {
      OneRound(b, h, t, Chain(A, B, C, D, E'), Parity(B, C, D), 0xCA62C1D6);
      var temp := Sum(A, Parity(B, C, D), E', w[t], 0xCA62C1D6);
      E', D, C, B, A := D, C, Rotl(B, 30), A, temp;
      t := t + 1;
    }
    r := Chain(A, B, C, D, E');
  }

  /** SHA1ProcessMessageBlock on its chaining words and block buffer. */
  method ProcessBlock(h: Chain, block: array<byte>) returns (h': Chain)
    requires block.Length == 64
    ensures h' == Compress(h, block[..])
  {
    hide Rounds, W, AddChain;
    ghost var b := block[..];
    var w := Schedule(block);
    NoRounds(b, h);
    var s := FirstForty(w, h, b, h);
    s := LastForty(w, s, b, h);
    assert block[..] == b;
    h' := AddChain(h, s);
  }

  lemma NoRounds(block: seq<byte>, h: Chain)
    requires |block| == 64
    ensures Rounds(block, h, 0) == h
  {
  }
}
