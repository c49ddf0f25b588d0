/**
  The SHA-256 block function in its two forms, the rolled loop with a circular word buffer and
  the unrolled one with rotating names, against the schedule and rounds of section 6.2.2 of
  FIPS 180-4.
 */
module Sha256Block {
  import opened Words
  import opened WordBits
  import opened Sha256Tables

  datatype State = State(a: word, b: word, c: word, d: word, e: word, f: word, g: word, h: word)

  // ----- the standard -----

  function BigSigma0(x: word): word { Xor32(Xor32(Rotl(x, 30), Rotl(x, 19)), Rotl(x, 10)) }
  function BigSigma1(x: word): word { Xor32(Xor32(Rotl(x, 26), Rotl(x, 21)), Rotl(x, 7)) }
  function SmallSigma0(x: word): word { Xor32(Xor32(Rotl(x, 25), Rotl(x, 14)), Shr(x, 3)) }
  function SmallSigma1(x: word): word { Xor32(Xor32(Rotl(x, 15), Rotl(x, 13)), Shr(x, 10)) }
  function Ch(x: word, y: word, z: word): word { (x & y) ^ (!x & z) }
  function Maj(x: word, y: word, z: word): word { (x & y) ^ (x & z) ^ (y & z) }

  /** Word t of the message schedule. */
  function W(x: seq<word>, t: nat): word
    requires |x| == 16
  {
    if t < 16 then x[t]
    else
      Add32(Add32(Add32(SmallSigma1(W(x, t - 2)), W(x, t - 7)), SmallSigma0(W(x, t - 15))), W(x, t - 16))
  }

  function T1(s: State, w: word, k: word): word {
    Add32(Add32(Add32(Add32(s.h, BigSigma1(s.e)), Ch(s.e, s.f, s.g)), k), w)
  }

  function T2(s: State): word { Add32(BigSigma0(s.a), Maj(s.a, s.b, s.c)) }

  function Round(s: State, w: word, k: word): State {
    var t1 := T1(s, w, k);
    State(Add32(t1, T2(s)), s.a, s.b, s.c, Add32(s.d, t1), s.e, s.f, s.g)
  }

  function Rounds(x: seq<word>, s: State, t: nat): State
    requires |x| == 16 && t <= 64
  {
    if t == 0 then s else Round(Rounds(x, s, t - 1), W(x, t - 1), K(t - 1))
  }

  function AddState(s: State, t: State): State {
    State(Add32(s.a, t.a), Add32(s.b, t.b), Add32(s.c, t.c), Add32(s.d, t.d),
          Add32(s.e, t.e), Add32(s.f, t.f), Add32(s.g, t.g), Add32(s.h, t.h))
  }

  function Compress(s: State, x: seq<word>): State
    requires |x| == 16
  {
    AddState(s, Rounds(x, s, 64))
  }

  /** A word of the input: big endian, or in the order of a little-endian host. */
  function Input(m: seq<byte>, i: nat, host: bool): word
    requires i + 4 <= |m|
  {
    if host then Pack(m[i + 3], m[i + 2], m[i + 1], m[i]) else Get32(m, i)
  }

  function BlockWords(m: seq<byte>, o: nat, host: bool): (x: seq<word>)
    requires o + 64 <= |m|
    ensures |x| == 16
  {
    seq(16, i requires 0 <= i < 16 => Input(m, o + 4 * i, host))
  }

  /** The state after the first n blocks. */
  function Blocks(s: State, m: seq<byte>, n: nat, host: bool): State
    requires 64 * n <= |m|
  {
    if n == 0 then s else Compress(Blocks(s, m, n - 1, host), BlockWords(m, 64 * (n - 1), host))
  }

  // ----- what the word functions compute -----

  lemma ChBit(x: word, y: word, z: word, i: byte)
    requires i < 32
    ensures Bit(Ch(x, y, z), i) == if Bit(x, i) then Bit(y, i) else Bit(z, i)
  {
    hide Bit;
    ChooseXorAt(x, y, z, i, Ch(x, y, z));
  }

  lemma MajBit(x: word, y: word, z: word, i: byte)
    requires i < 32
    ensures Bit(Maj(x, y, z), i) == Most(Bit(x, i), Bit(y, i), Bit(z, i))
  {
    hide Bit;
    MajorityXorAt(x, y, z, i, Maj(x, y, z));
  }

  /** Rotations to the right by 2, 13 and 22 (section 4.1.2 of FIPS 180-4). */
  lemma BigSigma0Bit(x: word, i: byte)
    requires i < 32
    ensures Bit(BigSigma0(x), i) == ((Bit(x, Around(i, 2)) != Bit(x, Around(i, 13))) != Bit(x, Around(i, 22)))
  {
    hide Bit, Rotl, Xor32, Around;
    var p, q, r := Rotl(x, 30), Rotl(x, 19), Rotl(x, 10);
    XorBit(p, q, i);
    XorBit(Xor32(p, q), r, i);
    RotlFrom(x, 30, i);
    RotlFrom(x, 19, i);
    RotlFrom(x, 10, i);
  }

  /** Rotations by 6, 11 and 25. */
  lemma BigSigma1Bit(x: word, i: byte)
    requires i < 32
    ensures Bit(BigSigma1(x), i) == ((Bit(x, Around(i, 6)) != Bit(x, Around(i, 11))) != Bit(x, Around(i, 25)))
  {
    hide Bit, Rotl, Xor32, Around;
    var p, q, r := Rotl(x, 26), Rotl(x, 21), Rotl(x, 7);
    XorBit(p, q, i);
    XorBit(Xor32(p, q), r, i);
    RotlFrom(x, 26, i);
    RotlFrom(x, 21, i);
    RotlFrom(x, 7, i);
  }

  /** Rotations by 7 and 18, and a shift by 3. */
  lemma SmallSigma0Bit(x: word, i: byte)
    requires i < 32
    ensures Bit(SmallSigma0(x), i)
         == ((Bit(x, Around(i, 7)) != Bit(x, Around(i, 18))) != (i + 3 < 32 && Bit(x, i + 3)))
  {
    hide Bit, Rotl, Shr, Xor32, Around;
    var p, q, r := Rotl(x, 25), Rotl(x, 14), Shr(x, 3);
    XorBit(p, q, i);
    XorBit(Xor32(p, q), r, i);
    RotlFrom(x, 25, i);
    RotlFrom(x, 14, i);
    ShrBit(x, 3, i);
  }

  /** Rotations by 17 and 19, and a shift by 10. */
  lemma SmallSigma1Bit(x: word, i: byte)
    requires i < 32
    ensures Bit(SmallSigma1(x), i)
         == ((Bit(x, Around(i, 17)) != Bit(x, Around(i, 19))) != (i + 10 < 32 && Bit(x, i + 10)))
  {
    hide Bit, Rotl, Shr, Xor32, Around;
    var p, q, r := Rotl(x, 15), Rotl(x, 13), Shr(x, 10);
    XorBit(p, q, i);
    XorBit(Xor32(p, q), r, i);
    RotlFrom(x, 15, i);
    RotlFrom(x, 13, i);
    ShrBit(x, 10, i);
  }

  /** The two sums of a round, as sums of numbers. */
  lemma RoundSumsAreModular(s: State, w: word, k: word)
    ensures Value(T1(s, w, k))
         == (Value(s.h) + Value(BigSigma1(s.e)) + Value(Ch(s.e, s.f, s.g)) + Value(k) + Value(w)) % TWO32
    ensures Value(T2(s)) == (Value(BigSigma0(s.a)) + Value(Maj(s.a, s.b, s.c))) % TWO32
  {
    hide Add32, Value, BigSigma0, BigSigma1, Ch, Maj;
    var b, c := BigSigma1(s.e), Ch(s.e, s.f, s.g);
    AddIsModular(s.h, b);
    AddsOn(Add32(s.h, b), Value(s.h) + Value(b), c);
    AddsOn(Add32(Add32(s.h, b), c), Value(s.h) + Value(b) + Value(c), k);
    AddsOn(Add32(Add32(Add32(s.h, b), c), k), Value(s.h) + Value(b) + Value(c) + Value(k), w);
    AddIsModular(BigSigma0(s.a), Maj(s.a, s.b, s.c));
  }

  /** The sum of the schedule. */
  lemma ScheduleIsModular(x: seq<word>, t: nat)
    requires |x| == 16 && t >= 16
    ensures var s1, s0 := SmallSigma1(W(x, t - 2)), SmallSigma0(W(x, t - 15));
            Value(W(x, t)) == (Value(s1) + Value(W(x, t - 7)) + Value(s0) + Value(W(x, t - 16))) % TWO32
  {
    hide Add32, Value, SmallSigma0, SmallSigma1;
    var s1, s0 := SmallSigma1(W(x, t - 2)), SmallSigma0(W(x, t - 15));
    AddIsModular(s1, W(x, t - 7));
    AddsOn(Add32(s1, W(x, t - 7)), Value(s1) + Value(W(x, t - 7)), s0);
    AddsOn(Add32(Add32(s1, W(x, t - 7)), s0), Value(s1) + Value(W(x, t - 7)) + Value(s0), W(x, t - 16));
  }

  // ----- the order of the sums -----

  /** The eight chaining words grow by the results of the rounds, each modulo 2^32. */
  lemma AddStateIsModular(s: State, t: State)
    ensures var r := AddState(s, t);
            && Value(r.a) == (Value(s.a) + Value(t.a)) % TWO32 && Value(r.b) == (Value(s.b) + Value(t.b)) % TWO32
            && Value(r.c) == (Value(s.c) + Value(t.c)) % TWO32 && Value(r.d) == (Value(s.d) + Value(t.d)) % TWO32
            && Value(r.e) == (Value(s.e) + Value(t.e)) % TWO32 && Value(r.f) == (Value(s.f) + Value(t.f)) % TWO32
            && Value(r.g) == (Value(s.g) + Value(t.g)) % TWO32 && Value(r.h) == (Value(s.h) + Value(t.h)) % TWO32
  {
    hide Value, Add32;
    AddIsModular(s.a, t.a);
    AddIsModular(s.b, t.b);
    AddIsModular(s.c, t.c);
    AddIsModular(s.d, t.d);
    AddIsModular(s.e, t.e);
    AddIsModular(s.f, t.f);
    AddIsModular(s.g, t.g);
    AddIsModular(s.h, t.h);
  }

  /** Bit i of an input word: from the byte i / 8 places before the last, or behind the first in host order. */
  lemma InputBit(m: seq<byte>, o: nat, host: bool, i: nat)
    requires o + 4 <= |m| && i < 32
    ensures Bit(Input(m, o, host), i as byte) == Bit8(m[if host then o + i / 8 else o + 3 - i / 8], (i % 8) as byte)
  {
    hide Bit, Bit8, Pack, Get32;
    Get32Bit(m, o, i);
    PackAt(m[o + 3], m[o + 2], m[o + 1], m[o], (i % 8) as byte, Pack(m[o + 3], m[o + 2], m[o + 1], m[o]));
  }

  lemma Commutes(x: word, y: word)
    ensures Add32(x, y) == Add32(y, x)
  {
  }

  lemma Associates(x: word, y: word, z: word)
    ensures Add32(Add32(x, y), z) == Add32(x, Add32(y, z))
  {
    assert Add32(Add32(x, y), z) == Add32(x + y, z) == (x + y) + z;
    assert Add32(x, Add32(y, z)) == Add32(x, y + z) == x + (y + z);
  }

  lemma ScheduleSum(w16: word, s0: word, s1: word, w7: word)
    ensures Add32(w16, Add32(Add32(s0, s1), w7)) == Add32(Add32(Add32(s1, w7), s0), w16)
  {
    hide Add32;
    Commutes(w16, Add32(Add32(s0, s1), w7));
    Commutes(s0, s1);
    Associates(s1, s0, w7);
    Commutes(s0, w7);
    Associates(s1, w7, s0);
  }

  /** The amount both forms of the code add to T1. */
  function Rest(s: State, k: word): word {
    Add32(Add32(Add32(s.h, BigSigma1(s.e)), Ch(s.e, s.f, s.g)), k)
  }

  /** One round as the rolled loop computes it. */
  lemma RolledRound(s: State, w: word, k: word)
    ensures var t1 := Add32(w, Rest(s, k));
            Round(s, w, k) == State(Add32(t1, T2(s)), s.a, s.b, s.c, Add32(s.d, t1), s.e, s.f, s.g)
  {
    hide Add32, BigSigma0, BigSigma1, Ch, Maj;
    Commutes(w, Rest(s, k));
  }

  /** One round as the macro computes it: only d and h change, and the names move on instead. */
  lemma UnrolledRound(s: State, w: word, k: word)
    ensures var t1 := Add32(w, Rest(s, k));
            Round(s, w, k) == State(Add32(T2(s), t1), s.a, s.b, s.c, Add32(s.d, t1), s.e, s.f, s.g)
  {
    hide Add32, Rest, T1, T2;
    RolledRound(s, w, k);
    Commutes(T2(s), Add32(w, Rest(s, k)));
  }

  // ----- the circular buffer -----

  /** The number of the latest schedule word below i that is kept in slot j. */
  function Latest(i: nat, j: nat): (t: nat)
    requires i >= 16 && j < 16
    ensures i - 16 <= t < i && t % 16 == j
  {
    i - 1 - (i - 1 - j) % 16
  }

  /** The sixteen slots hold the sixteen latest schedule words below i. */
  ghost predicate Circular(buffer: seq<word>, x: seq<word>, i: nat)
    requires |buffer| == 16 && |x| == 16 && i >= 16
  {
    forall j :: 0 <= j < 16 ==> buffer[j] == W(x, Latest(i, j))
  }

  lemma LatestIs(i: nat, k: nat)
    requires i >= 16 && k < 16
    ensures Latest(i, (i + k) % 16) == i - 16 + k
  {
  }

  lemma LatestMoves(i: nat, j: nat)
    requires i >= 16 && j < 16
    ensures Latest(i + 1, j) == if j == i % 16 then i else Latest(i, j)
  {
    var r := i % 16;
    assert (i - j) % 16 == if j <= r then r - j else r + 16 - j;
    assert (i - 1 - j) % 16 == if j < r then r - 1 - j else r + 15 - j;
  }

  lemma Slot(buffer: seq<word>, x: seq<word>, i: nat, k: nat)
    requires |buffer| == 16 && |x| == 16 && i >= 16 && k < 16 && Circular(buffer, x, i)
    ensures buffer[(i + k) % 16] == W(x, i - 16 + k)
  {
    hide W, Latest;
    LatestIs(i, k);
  }

  lemma Replace(buffer: seq<word>, x: seq<word>, i: nat)
    requires |buffer| == 16 && |x| == 16 && i >= 16 && Circular(buffer, x, i)
    ensures Circular(buffer[i % 16 := W(x, i)], x, i + 1)
  {
    hide W, Latest;
    var renewed := buffer[i % 16 := W(x, i)];
    forall j | 0 <= j < 16
      ensures renewed[j] == W(x, Latest(i + 1, j))
    {
      LatestMoves(i, j);
    }
  }

  /** The new value of slot i, from four slots of the buffer. */
  function Renewed(buffer: seq<word>, i: nat): word
    requires |buffer| == 16
  {
    var s0 := SmallSigma0(buffer[(i + 1) % 16]);
    var s1 := SmallSigma1(buffer[(i + 14) % 16]);
    Add32(buffer[i % 16], Add32(Add32(s0, s1), buffer[(i + 9) % 16]))
  }

  lemma NextScheduleWord(buffer: seq<word>, x: seq<word>, i: nat)
    requires |buffer| == 16 && |x| == 16 && i >= 16 && Circular(buffer, x, i)
    ensures Renewed(buffer, i) == W(x, i)
  {
    hide Add32, SmallSigma0, SmallSigma1, Circular;
    Slot(buffer, x, i, 0);
    Slot(buffer, x, i, 1);
    Slot(buffer, x, i, 9);
    Slot(buffer, x, i, 14);
    assert (i + 0) % 16 == i % 16;
    ScheduleSum(W(x, i - 16), SmallSigma0(W(x, i - 15)), SmallSigma1(W(x, i - 2)), W(x, i - 7));
  }

  lemma FirstSixteen(x: seq<word>)
    requires |x| == 16
    ensures Circular(x, x, 16)
  {
    forall j | 0 <= j < 16
      ensures Latest(16, j) == j
    {
      LatestIs(16, j);
    }
  }

  // ----- the rolled form -----

  /** The schedule half of a round from 16 on, in the buffer. */
  method Renew(X: array<word>, i: nat, ghost x: seq<word>) returns (w: word)
    requires X.Length == 16 && |x| == 16 && i >= 16 && Circular(X[..], x, i)
    modifies X
    ensures w == W(x, i) && Circular(X[..], x, i + 1)
  {
    hide Add32, SmallSigma0, SmallSigma1, Circular, W;
    ghost var buffer := X[..];
    NextScheduleWord(buffer, x, i);
    Replace(buffer, x, i);
    var s0 := SmallSigma0(X[(i + 1) % 16]);
    var s1 := SmallSigma1(X[(i + 14) % 16]);
    X[i % 16] := Add32(X[i % 16], Add32(Add32(s0, s1), X[(i + 9) % 16]));
    w := X[i % 16];
    assert X[..] == buffer[i % 16 := W(x, i)];
  }

  /** The working variables of the rolled form through all 64 rounds. */
  method RolledRounds(X: array<word>, data: array<byte>, o: nat, host: bool, s: State) returns (r: State)
    requires X.Length == 16 && o + 64 <= data.Length
    modifies X
    ensures r == Rounds(BlockWords(data[..], o, host), s, 64)
  {
    hide Add32, BigSigma0, BigSigma1, Ch, Maj, W, Circular, Input, Rest, T2, Round, K;
    ghost var x := BlockWords(data[..], o, host);
    var a, b, c, d, e, f, g, h := s.a, s.b, s.c, s.d, s.e, s.f, s.g, s.h;
    var i := 0;
    while i < 16
      invariant 0 <= i <= 16
      invariant forall j :: 0 <= j < i ==> X[j] == x[j]
      invariant State(a, b, c, d, e, f, g, h) == Rounds(x, s, i)
    {
      FirstWords(x, i);
      ghost var q := State(a, b, c, d, e, f, g, h);
      RolledRound(q, x[i], K(i));
      X[i] := Input(data[..], o + 4 * i, host);
      var t1 := Add32(X[i], Rest(State(a, b, c, d, e, f, g, h), K(i)));
      var t2 := T2(State(a, b, c, d, e, f, g, h));
      h, g, f, e, d, c, b, a := g, f, e, Add32(d, t1), c, b, a, Add32(t1, t2);
      i := i + 1;
    }
    assert X[..] == x;
    FirstSixteen(x);
    r := RolledTail(X, x, s, State(a, b, c, d, e, f, g, h));
  }

  lemma FirstWords(x: seq<word>, i: nat)
    requires |x| == 16 && i < 16
    ensures W(x, i) == x[i]
  {
  }

  method RolledTail(X: array<word>, ghost x: seq<word>, ghost s: State, q: State) returns (r: State)
    requires X.Length == 16 && |x| == 16 && Circular(X[..], x, 16) && q == Rounds(x, s, 16)
    modifies X
    ensures r == Rounds(x, s, 64)
  {
    hide Add32, BigSigma0, BigSigma1, Ch, Maj, W, Circular, Rest, T2, Round, K;
    var a, b, c, d, e, f, g, h := q.a, q.b, q.c, q.d, q.e, q.f, q.g, q.h;
    var i := 16;
    while i < 64
      invariant 16 <= i <= 64 && Circular(X[..], x, i)
      invariant State(a, b, c, d, e, f, g, h) == Rounds(x, s, i)
    {
      var w := Renew(X, i, x);
      RolledRound(State(a, b, c, d, e, f, g, h), w, K(i));
      var t1 := Add32(w, Rest(State(a, b, c, d, e, f, g, h), K(i)));
      var t2 := T2(State(a, b, c, d, e, f, g, h));
      h, g, f, e, d, c, b, a := g, f, e, Add32(d, t1), c, b, a, Add32(t1, t2);
      i := i + 1;
    }
    r := State(a, b, c, d, e, f, g, h);
  }

  /** sha256_block, small-footprint form, on num blocks of data. */
  method BlockRolled(s: State, data: array<byte>, num: nat, host: bool) returns (r: State)
    requires 64 * num <= data.Length
    ensures r == Blocks(s, data[..], num, host)
  {
    hide Rounds, AddState, BlockWords;
    var X := new word[16];
    r := s;
    var k := 0;
    while k < num
      invariant 0 <= k <= num && r == Blocks(s, data[..], k, host)
    {
      var q := RolledRounds(X, data, 64 * k, host, r);
      r := AddState(r, q);
      k := k + 1;
    }
  }

  // ----- the unrolled form -----

  /** ROUND_00_15: d and h are replaced, the caller turns the names. */
  method Macro(i: nat, a: word, b: word, c: word, d: word, e: word, f: word, g: word, h: word, T1: word,
               ghost x: seq<word>, ghost s: State) returns (d': word, h': word)
    requires |x| == 16 && i < 64 && T1 == W(x, i) && State(a, b, c, d, e, f, g, h) == Rounds(x, s, i)
    ensures State(h', a, b, c, d', e, f, g) == Rounds(x, s, i + 1)
  {
    hide Add32, BigSigma0, BigSigma1, Ch, Maj, W, Rest, T2, Round, K;
    var q := State(a, b, c, d, e, f, g, h);
    UnrolledRound(q, T1, K(i));
    var t1 := Add32(T1, Rest(q, K(i)));
    h' := T2(q);
    d' := Add32(d, t1);
    h' := Add32(h', t1);
  }

  /** T1 = X[i] = the next input word. */
  method Fetch(X: array<word>, data: array<byte>, o: nat, host: bool, i: nat) returns (w: word)
    requires X.Length == 16 && o + 64 <= data.Length && i < 16
    requires X[..i] == BlockWords(data[..], o, host)[..i]
    modifies X
    ensures w == W(BlockWords(data[..], o, host), i)
    ensures X[..i + 1] == BlockWords(data[..], o, host)[..i + 1]
  {
    hide Input, W;
    FirstWords(BlockWords(data[..], o, host), i);
    X[i] := Input(data[..], o + 4 * i, host);
    w := X[i];
    assert X[..i + 1] == X[..i] + [w];
  }

  /** Eight macro calls with the names turned once around, in the first sixteen rounds. */
  method EightFirst(X: array<word>, data: array<byte>, o: nat, host: bool, i: nat, q: State, ghost s: State)
    returns (r: State)
    requires X.Length == 16 && o + 64 <= data.Length && i + 8 <= 16
    requires X[..i] == BlockWords(data[..], o, host)[..i]
    requires q == Rounds(BlockWords(data[..], o, host), s, i)
    modifies X
    ensures r == Rounds(BlockWords(data[..], o, host), s, i + 8)
    ensures X[..i + 8] == BlockWords(data[..], o, host)[..i + 8]
  {
    hide Rounds, W, Input, BlockWords;
    ghost var x := BlockWords(data[..], o, host);
    var a, b, c, d, e, f, g, h := q.a, q.b, q.c, q.d, q.e, q.f, q.g, q.h;
    var w;
    w := Fetch(X, data, o, host, i);
    d, h := Macro(i, a, b, c, d, e, f, g, h, w, x, s);
    w := Fetch(X, data, o, host, i + 1);
    c, g := Macro(i + 1, h, a, b, c, d, e, f, g, w, x, s);
    w := Fetch(X, data, o, host, i + 2);
    b, f := Macro(i + 2, g, h, a, b, c, d, e, f, w, x, s);
    w := Fetch(X, data, o, host, i + 3);
    a, e := Macro(i + 3, f, g, h, a, b, c, d, e, w, x, s);
    w := Fetch(X, data, o, host, i + 4);
    h, d := Macro(i + 4, e, f, g, h, a, b, c, d, w, x, s);
    w := Fetch(X, data, o, host, i + 5);
    g, c := Macro(i + 5, d, e, f, g, h, a, b, c, w, x, s);
    w := Fetch(X, data, o, host, i + 6);
    f, b := Macro(i + 6, c, d, e, f, g, h, a, b, w, x, s);
    w := Fetch(X, data, o, host, i + 7);
    e, a := Macro(i + 7, b, c, d, e, f, g, h, a, w, x, s);
    r := State(a, b, c, d, e, f, g, h);
  }

  /** Eight macro calls in the later rounds. */
  method EightLater(X: array<word>, i: nat, q: State, ghost x: seq<word>, ghost s: State) returns (r: State)
    requires X.Length == 16 && |x| == 16 && 16 <= i && i + 8 <= 64 && Circular(X[..], x, i)
    requires q == Rounds(x, s, i)
    modifies X
    ensures r == Rounds(x, s, i + 8) && Circular(X[..], x, i + 8)
  {
    hide Rounds, W, Circular;
    var a, b, c, d, e, f, g, h := q.a, q.b, q.c, q.d, q.e, q.f, q.g, q.h;
    var w;
    w := Renew(X, i, x);
    d, h := Macro(i, a, b, c, d, e, f, g, h, w, x, s);
    w := Renew(X, i + 1, x);
    c, g := Macro(i + 1, h, a, b, c, d, e, f, g, w, x, s);
    w := Renew(X, i + 2, x);
    b, f := Macro(i + 2, g, h, a, b, c, d, e, f, w, x, s);
    w := Renew(X, i + 3, x);
    a, e := Macro(i + 3, f, g, h, a, b, c, d, e, w, x, s);
    w := Renew(X, i + 4, x);
    h, d := Macro(i + 4, e, f, g, h, a, b, c, d, w, x, s);
    w := Renew(X, i + 5, x);
    g, c := Macro(i + 5, d, e, f, g, h, a, b, c, w, x, s);
    w := Renew(X, i + 6, x);
    f, b := Macro(i + 6, c, d, e, f, g, h, a, b, w, x, s);
    w := Renew(X, i + 7, x);
    e, a := Macro(i + 7, b, c, d, e, f, g, h, a, w, x, s);
    r := State(a, b, c, d, e, f, g, h);
  }

  /** The unrolled rounds of one block. */
  method UnrolledRounds(X: array<word>, data: array<byte>, o: nat, host: bool, s: State) returns (r: State)
    requires X.Length == 16 && o + 64 <= data.Length
    modifies X
    ensures r == Rounds(BlockWords(data[..], o, host), s, 64)
  {
    hide Rounds, W, BlockWords, Circular;
    ghost var x := BlockWords(data[..], o, host);
    NoRounds(x, s);
    assert X[..0] == x[..0];
    r := EightFirst(X, data, o, host, 0, s, s);
    r := EightFirst(X, data, o, host, 8, r, s);
    assert X[..16] == X[..] && x[..16] == x;
    FirstSixteen(x);
    r := UnrolledTail(X, x, s, r);
  }

  lemma NoRounds(x: seq<word>, s: State)
    requires |x| == 16
    ensures Rounds(x, s, 0) == s
  {
  }

  method UnrolledTail(X: array<word>, ghost x: seq<word>, ghost s: State, q: State) returns (r: State)
    requires X.Length == 16 && |x| == 16 && Circular(X[..], x, 16) && q == Rounds(x, s, 16)
    modifies X
    ensures r == Rounds(x, s, 64)
  {
    hide Rounds, Circular;
    r := q;
    var i := 16;
    while i < 64
      invariant 16 <= i <= 64 && i % 8 == 0 && Circular(X[..], x, i)
      invariant r == Rounds(x, s, i)
    {
      r := EightLater(X, i, r, x, s);
      i := i + 8;
    }
  }

  /** sha256_block, unrolled form: the same state as the rolled form, for any number of blocks. */
  method BlockUnrolled(s: State, data: array<byte>, num: nat, host: bool) returns (r: State)
    requires 64 * num <= data.Length
    ensures r == Blocks(s, data[..], num, host)
  {
    hide Rounds, AddState, BlockWords;
    var X := new word[16];
    r := s;
    var k := 0;
    while k < num
      invariant 0 <= k <= num && r == Blocks(s, data[..], k, host)
    {
      var q := UnrolledRounds(X, data, 64 * k, host, r);
      r := AddState(r, q);
      k := k + 1;
    }
  }
}
