/**
  DES of des.c: the word-swapping permutations around sixteen Feistel rounds, and the key
  schedule built bit by bit.
 */
module Des {
  import opened Words
  import opened DesTables

  // ----- the round function -----

  /** One subkey: the 6-bit chunks of the odd and of the even S-boxes. */
  datatype SubKey = SubKey(odd: word, even: word)

  function RotR4(r: word): word { (r >> 4) | (r << 28) }

  function Byte(w: word, n: bv8): word
    requires n < 32
  {
    (w >> n) & 0x3f
  }

  /** The eight table words that macro F exclusive-ors into the other half. */
  function Terms(r: word, key: SubKey): (t: seq<word>)
    ensures |t| == 8
  {
    var u := Xor32(RotR4(r), key.odd);
    var v := Xor32(r, key.even);
    [Sp6(Byte(u, 0)), Sp4(Byte(u, 8)), Sp2(Byte(u, 16)), Sp0(Byte(u, 24))]
    + [Sp7(Byte(v, 0)), Sp5(Byte(v, 8)), Sp3(Byte(v, 16)), Sp1(Byte(v, 24))]
  }

  /** l exclusive-ored with the first n terms, one after the other. */
  function Fold(l: word, t: seq<word>, n: nat): word
    requires n <= |t|
  {
    if n == 0 then l else Xor32(Fold(l, t, n - 1), t[n - 1])
  }

  /** The new value of l after F(l, r, key). */
  function F(l: word, r: word, key: SubKey): word { Fold(l, Terms(r, key), 8) }

  lemma {:induction false} FoldFromZero(l: word, t: seq<word>, n: nat)
    requires n <= |t|
    ensures Fold(l, t, n) == Xor32(l, Fold(0, t, n))
  {
    hide Xor32;
    if n == 0 {
      XorNothing(l);
    } else {
      FoldFromZero(l, t, n - 1);
      Xor32Assoc(l, Fold(0, t, n - 1), t[n - 1]);
    }
  }

  lemma XorNothing(l: word)
    ensures Xor32(l, 0) == l
  {
  }

  /** Applied twice with the same r and key, F leaves l as it was. */
  lemma FTwice(l: word, r: word, key: SubKey)
    ensures F(F(l, r, key), r, key) == l
  {
    hide Xor32, Fold, Terms;
    var t := Terms(r, key);
    FoldFromZero(l, t, 8);
    FoldFromZero(Fold(l, t, 8), t, 8);
    Xor32Cancels(l, Fold(0, t, 8));
  }

  // ----- the rounds -----

  datatype Pair = Pair(l: word, r: word)

  function Swap(p: Pair): Pair { Pair(p.r, p.l) }

  /** One round, with the halves moved on. */
  function Round(p: Pair, key: SubKey): Pair { Pair(p.r, F(p.l, p.r, key)) }

  function Rounds(p: Pair, ks: seq<SubKey>, n: nat): Pair
    requires n <= |ks|
  {
    if n == 0 then p else Round(Rounds(p, ks, n - 1), ks[n - 1])
  }

  lemma RoundUndone(p: Pair, key: SubKey)
    ensures Round(Swap(Round(p, key)), key) == Swap(p)
  {
    hide F;
    FTwice(p.l, p.r, key);
  }

  /** The first n rounds under the reversed keys undo the last n rounds. */
  lemma {:induction false} RoundsUndone(p: Pair, ks: seq<SubKey>, n: nat)
    requires n <= |ks|
    ensures Rounds(Swap(Rounds(p, ks, |ks|)), Backwards(ks), n) == Swap(Rounds(p, ks, |ks| - n))
  {
    hide Round, Swap;
    if n > 0 {
      RoundsUndone(p, ks, n - 1);
      RoundUndone(Rounds(p, ks, |ks| - n), ks[|ks| - n]);
    }
  }

  // ----- Hoey's permutations -----

  /** Exchange, under a mask, of bits n places apart: the lower ones of a with those of b. */
  function Work(a: word, b: word, n: bv8, m: word): word
    requires n < 32
  {
    ((a >> n) ^ b) & m
  }

  function Lift(w: word, n: bv8): word
    requires n < 32
  {
    w << n
  }

  /** (a, b) after one exchange. */
  function Delta(p: Pair, n: bv8, m: word): Pair
    requires n < 32
  {
    var work := Work(p.l, p.r, n, m);
    Pair(Xor32(p.l, Lift(work, n)), Xor32(p.r, work))
  }

  /** The four exchanges of the permutations. */
  predicate Exchange(n: bv8, m: word) {
    || (n == 4 && m == 0x0f0f0f0f)
    || (n == 16 && m == 0xffff)
    || (n == 2 && m == 0x33333333)
    || (n == 8 && m == 0xff00ff)
  }

  lemma WorkAgain4(a: word, b: word)
    ensures var w := Work(a, b, 4, 0x0f0f0f0f);
            Work(Xor32(a, Lift(w, 4)), Xor32(b, w), 4, 0x0f0f0f0f) == w
  {
  }

  lemma WorkAgain16(a: word, b: word)
    ensures var w := Work(a, b, 16, 0xffff);
            Work(Xor32(a, Lift(w, 16)), Xor32(b, w), 16, 0xffff) == w
  {
  }

  lemma WorkAgain2(a: word, b: word)
    ensures var w := Work(a, b, 2, 0x33333333);
            Work(Xor32(a, Lift(w, 2)), Xor32(b, w), 2, 0x33333333) == w
  {
  }

  lemma WorkAgain8(a: word, b: word)
    ensures var w := Work(a, b, 8, 0xff00ff);
            Work(Xor32(a, Lift(w, 8)), Xor32(b, w), 8, 0xff00ff) == w
  {
  }

  /** The exchanged bits differ in the same places afterwards. */
  lemma WorkAgain(a: word, b: word, n: bv8, m: word)
    requires n < 32 && Exchange(n, m)
    ensures var w := Work(a, b, n, m);
            Work(Xor32(a, Lift(w, n)), Xor32(b, w), n, m) == w
  {
    hide Work, Lift, Xor32;
    if n == 4 {
      WorkAgain4(a, b);
    } else if n == 16 {
      WorkAgain16(a, b);
    } else if n == 2 {
      WorkAgain2(a, b);
    } else {
      WorkAgain8(a, b);
    }
  }

  /** An exchange done twice is nothing. */
  lemma DeltaTwice(p: Pair, n: bv8, m: word)
    requires n < 32 && Exchange(n, m)
    ensures Delta(Delta(p, n, m), n, m) == p
  {
    hide Work, Lift, Xor32, Exchange;
    var w := Work(p.l, p.r, n, m);
    WorkAgain(p.l, p.r, n, m);
    Xor32Cancels(p.l, Lift(w, n));
    Xor32Cancels(p.r, w);
  }

  /** The exchange of every other bit, without a shift. */
  function Weave(p: Pair): Pair {
    var work := Odd(p.l, p.r);
    Pair(Xor32(p.l, work), Xor32(p.r, work))
  }

  function Odd(a: word, b: word): word { (a ^ b) & 0xaaaaaaaa }

  lemma OddAgain(a: word, b: word)
    ensures var w := Odd(a, b);
            Odd(Xor32(a, w), Xor32(b, w)) == w
  {
  }

  lemma WeaveTwice(p: Pair)
    ensures Weave(Weave(p)) == p
  {
    hide Odd, Xor32;
    var w := Odd(p.l, p.r);
    OddAgain(p.l, p.r);
    Xor32Cancels(p.l, w);
    Xor32Cancels(p.r, w);
  }

  function Left1(w: word): word { (w << 1) | (w >> 31) }

  function Right1(w: word): word { (w >> 1) | (w << 31) }

  lemma RotateBack(w: word)
    ensures Right1(Left1(w)) == w && Left1(Right1(w)) == w
  {
  }

  /** Exchanges with the roles of the halves turned around. */
  function DeltaR(p: Pair, n: bv8, m: word): Pair
    requires n < 32
  {
    Swap(Delta(Swap(p), n, m))
  }

  /** The middle of the input permutation: an exchange of alternate bits between two rotations. */
  function Turn(p: Pair): Pair {
    var w := Weave(Pair(p.l, Left1(p.r)));
    Pair(Left1(w.l), w.r)
  }

  function TurnBack(p: Pair): Pair {
    var w := Weave(Pair(p.l, Right1(p.r)));
    Pair(Right1(w.l), w.r)
  }

  lemma WeaveSwapped(p: Pair)
    ensures Weave(Swap(p)) == Swap(Weave(p))
  {
    hide Odd, Xor32;
    OddCommutes(p.l, p.r);
  }

  lemma OddCommutes(a: word, b: word)
    ensures Odd(a, b) == Odd(b, a)
  {
  }

  lemma TurnUndone(p: Pair)
    ensures Swap(TurnBack(Swap(Turn(p)))) == p
    ensures Turn(Swap(TurnBack(Swap(p)))) == p
  {
    hide Weave, Left1, Right1;
    var x := Pair(p.l, Left1(p.r));
    var w := Weave(x);
    RotateBack(w.l);
    RotateBack(p.r);
    WeaveSwapped(w);
    WeaveTwice(x);
    var y := Pair(p.r, Right1(p.l));
    var v := Weave(y);
    RotateBack(v.l);
    RotateBack(p.l);
    WeaveSwapped(v);
    WeaveTwice(y);
  }

  /** The input permutation. */
  function Enter(p: Pair): Pair {
    Turn(DeltaR(DeltaR(Delta(Delta(p, 4, 0x0f0f0f0f), 16, 0xffff), 2, 0x33333333), 8, 0xff00ff))
  }

  /** The output permutation: the same steps in the opposite order. */
  function Leave(p: Pair): Pair {
    DeltaR(DeltaR(Delta(Delta(TurnBack(p), 8, 0xff00ff), 2, 0x33333333), 16, 0xffff), 4, 0x0f0f0f0f)
  }

  /** With the halves swapped before and after, the output permutation undoes the input permutation. */
  lemma LeaveUndoesEnter(p: Pair)
    ensures Swap(Leave(Swap(Enter(p)))) == p
  {
    hide Delta, Turn, TurnBack;
    var a := Delta(p, 4, 0x0f0f0f0f);
    var b := Delta(a, 16, 0xffff);
    var c := DeltaR(b, 2, 0x33333333);
    var d := DeltaR(c, 8, 0xff00ff);
    TurnUndone(d);
    DeltaTwice(Swap(c), 8, 0xff00ff);
    DeltaTwice(Swap(b), 2, 0x33333333);
    DeltaTwice(a, 16, 0xffff);
    DeltaTwice(p, 4, 0x0f0f0f0f);
    assert TurnBack(Swap(Turn(d))) == Swap(d);
    assert Delta(Swap(d), 8, 0xff00ff) == Swap(c);
    assert Delta(Swap(c), 2, 0x33333333) == Swap(b);
    DeltaTwice(a, 16, 0xffff);
    assert DeltaR(Swap(b), 16, 0xffff) == Swap(Delta(b, 16, 0xffff));
  }

  /** ... and the input permutation undoes the output permutation. */
  lemma EnterUndoesLeave(p: Pair)
    ensures Enter(Swap(Leave(Swap(p)))) == p
  {
    hide Delta, Turn, TurnBack;
    var t := TurnBack(Swap(p));
    var a := Delta(t, 8, 0xff00ff);
    var b := Delta(a, 2, 0x33333333);
    var c := DeltaR(b, 16, 0xffff);
    var d := DeltaR(c, 4, 0x0f0f0f0f);
    TurnUndone(p);
    DeltaTwice(Swap(c), 4, 0x0f0f0f0f);
    DeltaTwice(Swap(b), 16, 0xffff);
    DeltaTwice(a, 2, 0x33333333);
    DeltaTwice(t, 8, 0xff00ff);
    assert Delta(Swap(d), 4, 0x0f0f0f0f) == Swap(c);
    assert Delta(Swap(c), 16, 0xffff) == Swap(b);
    assert DeltaR(Swap(b), 2, 0x33333333) == Swap(a);
    assert DeltaR(Swap(a), 8, 0xff00ff) == Swap(t);
  }

  // ----- blocks -----

  /** des: the block under sixteen subkeys, with the final swap. */
  function Crypt(ks: seq<SubKey>, p: Pair): Pair
    requires |ks| == 16
  {
    Swap(Leave(Rounds(Enter(p), ks, 16)))
  }

  /** Under the reversed subkeys des undoes what it did, whatever the subkeys are. */
  lemma ReversedKeysUndo(ks: seq<SubKey>, p: Pair)
    requires |ks| == 16
    ensures Crypt(Backwards(ks), Crypt(ks, p)) == p
  {
    hide Enter, Leave, Rounds;
    var q := Rounds(Enter(p), ks, 16);
    EnterUndoesLeave(Swap(q));
    RoundsUndone(Enter(p), ks, 16);
    NoRounds(Enter(p), ks);
    LeaveUndoesEnter(p);
    assert Enter(Crypt(ks, p)) == Swap(q);
  }

  lemma NoRounds(p: Pair, ks: seq<SubKey>)
    ensures Rounds(p, ks, 0) == p
  {
  }

  // ----- the code -----

  /** The subkeys in a schedule array. */
  function KeysOf(ks: array2<word>): (r: seq<SubKey>)
    requires ks.Length0 == 16 && ks.Length1 == 2
    reads ks
    ensures |r| == 16
  {
    seq(16, i requires 0 <= i < 16 reads ks => SubKey(ks[i, 0], ks[i, 1]))
  }

  function LoadPair(b: seq<byte>): Pair
    requires |b| == 8
  {
    Pair(Get32(b, 0), Get32(b, 4))
  }

  /** The first macro steps of F, on a local copy of the half. */
  method MacroF(l: word, r: word, key0: word, key1: word) returns (l': word)
    ensures l' == F(l, r, SubKey(key0, key1))
  {
    hide Xor32, RotR4, Byte, Sp0, Sp1, Sp2, Sp3, Sp4, Sp5, Sp6, Sp7;
    var key := SubKey(key0, key1);
    var work := Xor32(RotR4(r), key0);
    l' := Xor32(l, Sp6(Byte(work, 0)));
    l' := Xor32(l', Sp4(Byte(work, 8)));
    l' := Xor32(l', Sp2(Byte(work, 16)));
    l' := Xor32(l', Sp0(Byte(work, 24)));
    FoldFour(l, r, key);
    work := Xor32(r, key1);
    l' := Xor32(l', Sp7(Byte(work, 0)));
    l' := Xor32(l', Sp5(Byte(work, 8)));
    l' := Xor32(l', Sp3(Byte(work, 16)));
    l' := Xor32(l', Sp1(Byte(work, 24)));
    FoldEight(l, r, key);
  }

  lemma FoldFour(l: word, r: word, key: SubKey)
    ensures var t := Terms(r, key);
            Fold(l, t, 4) == Xor32(Xor32(Xor32(Xor32(l, t[0]), t[1]), t[2]), t[3])
  {
    hide Xor32, Terms;
    var t := Terms(r, key);
    assert Fold(l, t, 1) == Xor32(Fold(l, t, 0), t[0]);
    assert Fold(l, t, 2) == Xor32(Fold(l, t, 1), t[1]);
    assert Fold(l, t, 3) == Xor32(Fold(l, t, 2), t[2]);
  }

  lemma FoldEight(l: word, r: word, key: SubKey)
    ensures var t := Terms(r, key);
            F(l, r, key) == Xor32(Xor32(Xor32(Xor32(Fold(l, t, 4), t[4]), t[5]), t[6]), t[7])
  {
    hide Xor32, Terms;
    var t := Terms(r, key);
    assert Fold(l, t, 5) == Xor32(Fold(l, t, 4), t[4]);
    assert Fold(l, t, 6) == Xor32(Fold(l, t, 5), t[5]);
    assert Fold(l, t, 7) == Xor32(Fold(l, t, 6), t[6]);
  }

  /** The round loop, two rounds a turn. */
  method RoundLoop(ks: array2<word>, l: word, r: word) returns (left: word, right: word)
    requires ks.Length0 == 16 && ks.Length1 == 2
    ensures Pair(left, right) == Rounds(Pair(l, r), KeysOf(ks), 16)
  {
    hide F;
    left, right := l, r;
    var round := 0;
    while round < 16
      invariant 0 <= round <= 16 && round % 2 == 0
      invariant Pair(left, right) == Rounds(Pair(l, r), KeysOf(ks), round)
    {
      left := MacroF(left, right, ks[round, 0], ks[round, 1]);
      right := MacroF(right, left, ks[round + 1, 0], ks[round + 1, 1]);
      round := round + 2;
    }
  }

  /** The statements of the input permutation. */
  method InputPermutation(l: word, r: word) returns (left: word, right: word)
    ensures Pair(left, right) == Enter(Pair(l, r))
  {
    hide Xor32, Work, Lift, Odd, Left1;
    left, right := l, r;
    var work := Work(left, right, 4, 0x0f0f0f0f);
    right := Xor32(right, work);
    left := Xor32(left, Lift(work, 4));
    work := Work(left, right, 16, 0xffff);
    right := Xor32(right, work);
    left := Xor32(left, Lift(work, 16));
    work := Work(right, left, 2, 0x33333333);
    left := Xor32(left, work);
    right := Xor32(right, Lift(work, 2));
    work := Work(right, left, 8, 0xff00ff);
    left := Xor32(left, work);
    right := Xor32(right, Lift(work, 8));
    right := Left1(right);
    work := Odd(left, right);
    left := Xor32(left, work);
    right := Xor32(right, work);
    left := Left1(left);
  }

  /** The statements of the output permutation. */
  method OutputPermutation(l: word, r: word) returns (left: word, right: word)
    ensures Pair(left, right) == Leave(Pair(l, r))
  {
    hide Xor32, Work, Lift, Odd, Right1;
    left, right := l, r;
    right := Right1(right);
    var work := Odd(left, right);
    left := Xor32(left, work);
    right := Xor32(right, work);
    left := Right1(left);
    work := Work(left, right, 8, 0xff00ff);
    right := Xor32(right, work);
    left := Xor32(left, Lift(work, 8));
    work := Work(left, right, 2, 0x33333333);
    right := Xor32(right, work);
    left := Xor32(left, Lift(work, 2));
    work := Work(right, left, 16, 0xffff);
    left := Xor32(left, work);
    right := Xor32(right, Lift(work, 16));
    work := Work(right, left, 4, 0x0f0f0f0f);
    left := Xor32(left, work);
    right := Xor32(right, Lift(work, 4));
  }

  /** des in place. */
  method DesBlock(ks: array2<word>, block: array<byte>)
    requires ks.Length0 == 16 && ks.Length1 == 2 && block.Length == 8
    modifies block
    ensures LoadPair(block[..]) == Crypt(KeysOf(ks), old(LoadPair(block[..])))
  {
    hide Enter, Leave, Rounds, Get32, Put32;
    ghost var keys := KeysOf(ks);
    var left, right := Get32(block[..], 0), Get32(block[..], 4);
    left, right := InputPermutation(left, right);
    left, right := RoundLoop(ks, left, right);
    left, right := OutputPermutation(left, right);
    StorePair(block, right, left);
    assert KeysOf(ks) == keys;
  }

  /** Two words back into the block, most significant byte first. */
  method StorePair(block: array<byte>, l: word, r: word)
    requires block.Length == 8
    modifies block
    ensures LoadPair(block[..]) == Pair(l, r)
  {
    hide Pack, B0, B1, B2, B3;
    block[0], block[1], block[2], block[3] := B0(l), B1(l), B2(l), B3(l);
    block[4], block[5], block[6], block[7] := B0(r), B1(r), B2(r), B3(r);
    BytesPack(l);
    BytesPack(r);
  }

  // ----- the key schedule -----

  /** Bit n of a byte string, counted from the left. */
  predicate KeyBit(key: seq<byte>, n: nat)
    requires |key| == 8 && n < 64
  {
    key[n / 8] & ByteBit(n % 8) != 0
  }

  /** bytebit. */
  function ByteBit(m: nat): byte
    requires m < 8
  {
    if m == 0 then 0x80 else if m == 1 then 0x40 else if m == 2 then 0x20 else if m == 3 then 0x10
    else if m == 4 then 0x08 else if m == 5 then 0x04 else if m == 6 then 0x02 else 0x01
  }

  /** The 56 chosen key bits: C0 and D0 of the standard. */
  function Chosen(key: seq<byte>): (b: seq<bool>)
    requires |key| == 8
    ensures |b| == 56
  {
    seq(56, j requires 0 <= j < 56 => KeyBit(key, Pc1(j) - 1))
  }

  /** Both halves rotated left by n. */
  function RotateHalves(b: seq<bool>, n: nat): (r: seq<bool>)
    requires |b| == 56
    ensures |r| == 56
  {
    seq(56, j requires 0 <= j < 56 => if j < 28 then b[(j + n) % 28] else b[28 + (j - 28 + n) % 28])
  }

  /** The shifts of the standard: one place in rounds 1, 2, 9 and 16, two otherwise. */
  function Shifts(i: nat): nat { if i == 0 || i == 1 || i == 8 || i == 15 then 1 else 2 }

  /** C and D of round i (from 0). */
  function Halves(key: seq<byte>, i: nat): (b: seq<bool>)
    requires |key| == 8
    ensures |b| == 56
  {
    RotateHalves(if i == 0 then Chosen(key) else Halves(key, i - 1), Shifts(i))
  }

  lemma RotateTwice(b: seq<bool>, m: nat, n: nat)
    requires |b| == 56
    ensures RotateHalves(RotateHalves(b, m), n) == RotateHalves(b, m + n)
  {
  }

  /** totrot adds up the shifts. */
  lemma {:induction false} HalvesByTotal(key: seq<byte>, i: nat)
    requires |key| == 8 && i < 16
    ensures Halves(key, i) == RotateHalves(Chosen(key), TotRot(i))
  {
    hide Chosen, RotateHalves;
    if i > 0 {
      HalvesByTotal(key, i - 1);
      RotateTwice(Chosen(key), TotRot(i - 1), Shifts(i));
      TotalStep(i);
    }
  }

  lemma TotalStep(i: nat)
    requires 0 < i < 16
    ensures TotRot(i) == TotRot(i - 1) + Shifts(i)
  {
  }

  /** The bits of a round's subkey. */
  function Selected(key: seq<byte>, i: nat): (b: seq<bool>)
    requires |key| == 8
    ensures |b| == 48
  {
    seq(48, j requires 0 <= j < 48 => Halves(key, i)[Pc2(j) - 1])
  }

  /** The first n bits of the 6-bit chunk c. */
  function Chunk(b: seq<bool>, c: nat, n: nat): byte
    requires |b| == 48 && c < 8 && n <= 6
  {
    if n == 0 then 0
    else if b[6 * c + n - 1] then SetBit(Chunk(b, c, n - 1), n - 1) else Chunk(b, c, n - 1)
  }

  function SetBit(x: byte, l: nat): byte
    requires l < 6
  {
    x | (ByteBit(l) >> 2)
  }

  function SubKeyOf(b: seq<bool>): SubKey
    requires |b| == 48
  {
    SubKey(Pack(Chunk(b, 0, 6), Chunk(b, 2, 6), Chunk(b, 4, 6), Chunk(b, 6, 6)),
           Pack(Chunk(b, 1, 6), Chunk(b, 3, 6), Chunk(b, 5, 6), Chunk(b, 7, 6)))
  }

  /** The sixteen subkeys of the standard. */
  function Schedule(key: seq<byte>): (ks: seq<SubKey>)
    requires |key| == 8
    ensures |ks| == 16
  {
    seq(16, i requires 0 <= i < 16 => SubKeyOf(Selected(key, i)))
  }

  /** The first loop of deskey. */
  method ChooseBits(key: array<byte>) returns (pc1m: array<bool>)
    requires key.Length == 8
    ensures fresh(pc1m) && pc1m.Length == 56 && pc1m[..] == Chosen(key[..])
  {
    hide Pc1, ByteBit;
    pc1m := new bool[56];
    var j := 0;
    while j < 56
      invariant 0 <= j <= 56
      invariant forall i :: 0 <= i < j ==> pc1m[i] == Chosen(key[..])[i]
    {
      var l := Pc1(j) - 1;
      var m := l % 8;
      pc1m[j] := key[l / 8] & ByteBit(m) != 0;
      j := j + 1;
    }
  }

  /** Both halves of pc1m, rotated left by tot into pcr. */
  method RotateBits(pc1m: array<bool>, pcr: array<bool>, tot: nat)
    requires pc1m.Length == pcr.Length == 56 && pc1m != pcr && tot <= 28
    modifies pcr
    ensures pcr[..] == RotateHalves(pc1m[..], tot)
  {
    var j := 0;
    while j < 56
      invariant 0 <= j <= 56
      invariant forall i :: 0 <= i < j ==> pcr[i] == RotateHalves(pc1m[..], tot)[i]
    {
      var l := j + tot;
      pcr[j] := pc1m[if l < (if j < 28 then 28 else 56) then l else l - 28];
      j := j + 1;
    }
  }

  /** The 48 bits pc2 picks out of 56. */
  function Picked(b: seq<bool>): (p: seq<bool>)
    requires |b| == 56
    ensures |p| == 48
  {
    seq(48, j requires 0 <= j < 48 => b[Pc2(j) - 1])
  }

  /** The selection loop: bit j goes into chunk j / 6. */
  method SelectBits(pcr: array<bool>, ks: array<byte>)
    requires pcr.Length == 56 && ks.Length == 8
    modifies ks
    ensures forall c :: 0 <= c < 8 ==> ks[c] == Chunk(Picked(pcr[..]), c, 6)
  {
    hide Pc2, SetBit;
    ghost var bits, b := pcr[..], Picked(pcr[..]);
    forall c | 0 <= c < 8 {
      ks[c] := 0;
    }
    var j := 0;
    while j < 48
      invariant 0 <= j <= 48 && pcr[..] == bits
      invariant forall c :: 0 <= c < 8 ==>
        ks[c] == Chunk(b, c, if c < j / 6 then 6 else if c == j / 6 then j % 6 else 0)
    {
      var c, l := j / 6, j % 6;
      assert b[6 * c + l] == pcr[Pc2(j) - 1];
      assert Chunk(b, c, l + 1) == if b[6 * c + l] then SetBit(Chunk(b, c, l), l) else Chunk(b, c, l);
      if pcr[Pc2(j) - 1] {
        ks[c] := SetBit(ks[c], l);
      }
      NextBit(j);
      j := j + 1;
    }
  }

  lemma NextBit(j: nat)
    ensures if j % 6 == 5 then (j + 1) / 6 == j / 6 + 1 && (j + 1) % 6 == 0
            else (j + 1) / 6 == j / 6 && (j + 1) % 6 == j % 6 + 1
  {
  }

  /** deskey: the schedule of the standard, in the opposite order for decryption. */
  method DesKey(k: array2<word>, key: array<byte>, decrypt: bool)
    requires k.Length0 == 16 && k.Length1 == 2 && key.Length == 8
    modifies k
    ensures KeysOf(k) == if decrypt then Backwards(Schedule(key[..])) else Schedule(key[..])
  {
    hide Chosen, RotateHalves, Halves, TotRot, Picked, Chunk, Pack;
    var pc1m := ChooseBits(key);
    ghost var bits := key[..];
    var pcr, ks := new bool[56], new byte[8];
    var i := 0;
    while i < 16
      invariant 0 <= i <= 16 && key[..] == bits && pc1m[..] == Chosen(bits)
      invariant forall r :: 0 <= r < i ==>
        SubKey(k[r, 0], k[r, 1]) == SubKeyOf(Selected(bits, if decrypt then 15 - r else r))
    {
      var n := if decrypt then 15 - i else i;
      RotateBits(pc1m, pcr, TotRot(n));
      HalvesByTotal(bits, n);
      SelectBits(pcr, ks);
      PickedIsSelected(bits, n);
      k[i, 0] := Pack(ks[0], ks[2], ks[4], ks[6]);
      k[i, 1] := Pack(ks[1], ks[3], ks[5], ks[7]);
      i := i + 1;
    }
  }

  lemma PickedIsSelected(key: seq<byte>, i: nat)
    requires |key| == 8
    ensures Picked(Halves(key, i)) == Selected(key, i)
  {
    hide Pc2, Halves;
  }
}
