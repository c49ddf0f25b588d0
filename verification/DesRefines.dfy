/**
  The word operations of des.c against FIPS 46-3: with each half kept rotated left by one bit,
  the exchanges are the initial permutation, the table look-ups are f, and des is DES.
 */
module DesRefines {
  import opened Words
  import opened WordBits
  import opened DesTables
  import T = DesStandardTables
  import opened DesStandard
  import D = Des

  // ----- bits of words -----

  /** The shift that brings bit k from the left to the bottom. */
  function Pos(k: nat): (p: byte)
    requires k < 32
    ensures p < 32
  {
    ByteOfNat(31 - k);
    (31 - k) as byte
  }

  /** Bit k from the left. */
  predicate At(w: word, k: nat)
    requires k < 32
  {
    Bit(w, Pos(k))
  }

  lemma XorAt(a: word, b: word, k: nat)
    requires k < 32
    ensures At(Xor32(a, b), k) == (At(a, k) != At(b, k))
  {
    hide Bit, Pos, Xor32;
    XorBit(a, b, Pos(k));
  }

  lemma LeftBit(w: word, i: byte)
    requires i < 32
    ensures Bit(D.Left1(w), i) == Bit(w, if i == 0 then 31 else i - 1)
  {
  }

  lemma PosNext(k: nat)
    requires k < 32
    ensures if k == 31 then Pos(k) == 0 && Pos(0) == 31 else Pos(k) != 0 && Pos(k + 1) == Pos(k) - 1
  {
    hide Pos;
    PosEnds();
    if k < 31 {
      PosStep(k);
    }
  }

  lemma PosEnds()
    ensures Pos(31) == 0 && Pos(0) == 31
  {
  }

  lemma PosStep(k: nat)
    requires k < 31
    ensures Pos(k) != 0 && Pos(k + 1) == Pos(k) - 1
  {
    hide Num;
    ByteOfNat(31 - k);
    ByteOfNat(30 - k);
    Predecessor((31 - k) as byte);
    NumInjective((31 - k) as byte - 1, (30 - k) as byte);
  }

  lemma Predecessor(x: byte)
    requires Num(x) > 0
    ensures x != 0 && Num(x - 1) == Num(x) - 1
  {
  }

  lemma LeftAt(w: word, k: nat)
    requires k < 32
    ensures At(D.Left1(w), k) == At(w, (k + 1) % 32)
  {
    hide Bit, Pos, D.Left1;
    LeftBit(w, Pos(k));
    PosNext(k);
  }

  // ----- the exchanges, bit by bit -----

  /** Bit k of a pair of words, the left one first. */
  predicate PairAt(p: D.Pair, k: nat)
    requires k < 64
  {
    if k < 32 then At(p.l, k) else At(p.r, k - 32)
  }

  lemma PosTests(k: nat)
    requires k < 32
    ensures (Pos(k) & 4 != 0) <==> k % 8 < 4
    ensures (Pos(k) & 16 != 0) <==> k < 16
  {
  }

  lemma PosTests2(k: nat)
    requires k < 32
    ensures (Pos(k) & 2 != 0) <==> k % 4 < 2
    ensures (Pos(k) & 8 != 0) <==> k % 16 < 8
  {
  }

  lemma PosTest1(k: nat)
    requires k < 32
    ensures (Pos(k) & 1 != 0) <==> k % 2 == 0
  {
  }

  lemma WorkBit4(a: word, b: word, i: byte)
    requires i < 32
    ensures Bit(D.Work(a, b, 4, 0x0f0f0f0f), i) == (i & 4 == 0 && Bit(a, i + 4) != Bit(b, i))
  {
  }

  lemma LiftBit4(w: word, i: byte)
    requires i < 32
    ensures Bit(D.Lift(w, 4), i) == (i >= 4 && Bit(w, i - 4))
  {
  }

  lemma Below4(i: byte)
    requires i < 32
    ensures i & 4 != 0 ==> i >= 4 && (i - 4) & 4 == 0 && (i - 4) + 4 == i
    ensures i & 4 == 0 && i >= 4 ==> (i - 4) & 4 != 0
  {
  }

  lemma Exchange4(p: D.Pair, i: byte)
    requires i < 32
    ensures var q := D.Delta(p, 4, 0x0f0f0f0f);
            && Bit(q.l, i) == (if i & 4 != 0 then Bit(p.r, i - 4) else Bit(p.l, i))
            && Bit(q.r, i) == (if i & 4 == 0 then Bit(p.l, i + 4) else Bit(p.r, i))
  {
    hide Bit, Xor32, D.Work, D.Lift;
    var w := D.Work(p.l, p.r, 4, 0x0f0f0f0f);
    XorBit(p.l, D.Lift(w, 4), i);
    XorBit(p.r, w, i);
    LiftBit4(w, i);
    WorkBit4(p.l, p.r, i);
    Below4(i);
    if i >= 4 {
      WorkBit4(p.l, p.r, i - 4);
    }
  }

  lemma WorkBit16(a: word, b: word, i: byte)
    requires i < 32
    ensures Bit(D.Work(a, b, 16, 0xffff), i) == (i & 16 == 0 && Bit(a, i + 16) != Bit(b, i))
  {
  }

  lemma LiftBit16(w: word, i: byte)
    requires i < 32
    ensures Bit(D.Lift(w, 16), i) == (i >= 16 && Bit(w, i - 16))
  {
  }

  lemma Below16(i: byte)
    requires i < 32
    ensures i & 16 != 0 ==> i >= 16 && (i - 16) & 16 == 0 && (i - 16) + 16 == i
    ensures i & 16 == 0 && i >= 16 ==> (i - 16) & 16 != 0
  {
  }

  lemma Exchange16(p: D.Pair, i: byte)
    requires i < 32
    ensures var q := D.Delta(p, 16, 0xffff);
            && Bit(q.l, i) == (if i & 16 != 0 then Bit(p.r, i - 16) else Bit(p.l, i))
            && Bit(q.r, i) == (if i & 16 == 0 then Bit(p.l, i + 16) else Bit(p.r, i))
  {
    hide Bit, Xor32, D.Work, D.Lift;
    var w := D.Work(p.l, p.r, 16, 0xffff);
    XorBit(p.l, D.Lift(w, 16), i);
    XorBit(p.r, w, i);
    LiftBit16(w, i);
    WorkBit16(p.l, p.r, i);
    Below16(i);
    if i >= 16 {
      WorkBit16(p.l, p.r, i - 16);
    }
  }

  lemma WorkBit2(a: word, b: word, i: byte)
    requires i < 32
    ensures Bit(D.Work(a, b, 2, 0x33333333), i) == (i & 2 == 0 && Bit(a, i + 2) != Bit(b, i))
  {
  }

  lemma LiftBit2(w: word, i: byte)
    requires i < 32
    ensures Bit(D.Lift(w, 2), i) == (i >= 2 && Bit(w, i - 2))
  {
  }

  lemma Below2(i: byte)
    requires i < 32
    ensures i & 2 != 0 ==> i >= 2 && (i - 2) & 2 == 0 && (i - 2) + 2 == i
    ensures i & 2 == 0 && i >= 2 ==> (i - 2) & 2 != 0
  {
  }

  lemma Exchange2(p: D.Pair, i: byte)
    requires i < 32
    ensures var q := D.Delta(p, 2, 0x33333333);
            && Bit(q.l, i) == (if i & 2 != 0 then Bit(p.r, i - 2) else Bit(p.l, i))
            && Bit(q.r, i) == (if i & 2 == 0 then Bit(p.l, i + 2) else Bit(p.r, i))
  {
    hide Bit, Xor32, D.Work, D.Lift;
    var w := D.Work(p.l, p.r, 2, 0x33333333);
    XorBit(p.l, D.Lift(w, 2), i);
    XorBit(p.r, w, i);
    LiftBit2(w, i);
    WorkBit2(p.l, p.r, i);
    Below2(i);
    if i >= 2 {
      WorkBit2(p.l, p.r, i - 2);
    }
  }

  lemma WorkBit8(a: word, b: word, i: byte)
    requires i < 32
    ensures Bit(D.Work(a, b, 8, 0xff00ff), i) == (i & 8 == 0 && Bit(a, i + 8) != Bit(b, i))
  {
  }

  lemma LiftBit8(w: word, i: byte)
    requires i < 32
    ensures Bit(D.Lift(w, 8), i) == (i >= 8 && Bit(w, i - 8))
  {
  }

  lemma Below8(i: byte)
    requires i < 32
    ensures i & 8 != 0 ==> i >= 8 && (i - 8) & 8 == 0 && (i - 8) + 8 == i
    ensures i & 8 == 0 && i >= 8 ==> (i - 8) & 8 != 0
  {
  }

  lemma Exchange8(p: D.Pair, i: byte)
    requires i < 32
    ensures var q := D.Delta(p, 8, 0xff00ff);
            && Bit(q.l, i) == (if i & 8 != 0 then Bit(p.r, i - 8) else Bit(p.l, i))
            && Bit(q.r, i) == (if i & 8 == 0 then Bit(p.l, i + 8) else Bit(p.r, i))
  {
    hide Bit, Xor32, D.Work, D.Lift;
    var w := D.Work(p.l, p.r, 8, 0xff00ff);
    XorBit(p.l, D.Lift(w, 8), i);
    XorBit(p.r, w, i);
    LiftBit8(w, i);
    WorkBit8(p.l, p.r, i);
    Below8(i);
    if i >= 8 {
      WorkBit8(p.l, p.r, i - 8);
    }
  }

  lemma PosMoves(k: nat, n: nat)
    requires n <= 16 && k + n < 32
    ensures Pos(k) >= Shift(n) && Pos(k + n) == Pos(k) - Shift(n)
    decreases n
  {
    hide Pos;
    if n == 0 {
      ShiftZero();
    } else {
      PosMoves(k, n - 1);
      PosStep(k + n - 1);
      ShiftStep(n - 1);
      BackOne(Pos(k), Shift(n - 1), Shift(n));
    }
  }

  /** A small distance as a shift count. */
  function Shift(n: nat): (s: byte)
    requires n <= 16
  {
    n as byte
  }

  lemma ShiftZero()
    ensures Shift(0) == 0
  {
  }

  lemma ShiftStep(n: nat)
    requires n < 16
    ensures Shift(n + 1) == Shift(n) + 1
  {
    hide Num;
    ByteOfNat(n);
    ByteOfNat(n + 1);
    ByteIncrement(n as byte);
    NumInjective(Next(n as byte), (n + 1) as byte);
  }

  lemma BackOne(p: byte, s: byte, t: byte)
    requires p >= s && p - s != 0 && t == s + 1 && p < 32 && s < 32
    ensures p >= t && p - t == (p - s) - 1
  {
  }

  // ----- the input permutation as an index map -----

  /** Where bit k of a pair comes from in an exchange of distance n. */
  function Moved(n: nat, k: nat): (m: nat)
    requires (n == 2 || n == 4 || n == 8 || n == 16) && k < 64
    ensures m < 64
  {
    if k < 32 then (if Lower(n, k) then 32 + k + n else k)
    else if !Lower(n, k - 32) then k - 32 - n else k
  }

  /** k is in the first half of its stretch of 2 n. */
  predicate Lower(n: nat, k: nat)
    requires (n == 2 || n == 4 || n == 8 || n == 16) && k < 32
    ensures Lower(n, k) ==> k + n < 32
    ensures !Lower(n, k) ==> k >= n
  {
    if n == 2 then k % 4 < 2 else if n == 4 then k % 8 < 4 else if n == 8 then k % 16 < 8 else k < 16
  }

  /** The same bit with the halves turned around. */
  function Flip(k: nat): (f: nat)
    requires k < 64
    ensures f < 64
  {
    if k < 32 then k + 32 else k - 32
  }

  function MovedR(n: nat, k: nat): (m: nat)
    requires (n == 2 || n == 4 || n == 8 || n == 16) && k < 64
    ensures m < 64
  {
    Flip(Moved(n, Flip(k)))
  }

  lemma SwapAt(p: D.Pair, k: nat)
    requires k < 64
    ensures PairAt(D.Swap(p), k) == PairAt(p, Flip(k))
  {
    hide At;
  }

  lemma ShiftValues()
    ensures Shift(2) == 2 && Shift(4) == 4 && Shift(8) == 8 && Shift(16) == 16
  {
  }

  lemma DeltaAt4(p: D.Pair, k: nat)
    requires k < 64
    ensures PairAt(D.Delta(p, 4, 0x0f0f0f0f), k) == PairAt(p, Moved(4, k))
  {
    hide Bit, Pos, Shift, D.Delta;
    ShiftValues();
    if k < 32 {
      Exchange4(p, Pos(k));
      PosTests(k);
      if k % 8 < 4 {
        PosMoves(k, 4);
      }
    } else {
      Exchange4(p, Pos(k - 32));
      PosTests(k - 32);
      if (k - 32) % 8 >= 4 {
        PosMoves(k - 32 - 4, 4);
      }
    }
  }

  lemma DeltaAt16(p: D.Pair, k: nat)
    requires k < 64
    ensures PairAt(D.Delta(p, 16, 0xffff), k) == PairAt(p, Moved(16, k))
  {
    hide Bit, Pos, Shift, D.Delta;
    ShiftValues();
    if k < 32 {
      Exchange16(p, Pos(k));
      PosTests(k);
      if k % 32 < 16 {
        PosMoves(k, 16);
      }
    } else {
      Exchange16(p, Pos(k - 32));
      PosTests(k - 32);
      if (k - 32) % 32 >= 16 {
        PosMoves(k - 32 - 16, 16);
      }
    }
  }

  lemma DeltaAt2(p: D.Pair, k: nat)
    requires k < 64
    ensures PairAt(D.Delta(p, 2, 0x33333333), k) == PairAt(p, Moved(2, k))
  {
    hide Bit, Pos, Shift, D.Delta;
    ShiftValues();
    if k < 32 {
      Exchange2(p, Pos(k));
      PosTests2(k);
      if k % 4 < 2 {
        PosMoves(k, 2);
      }
    } else {
      Exchange2(p, Pos(k - 32));
      PosTests2(k - 32);
      if (k - 32) % 4 >= 2 {
        PosMoves(k - 32 - 2, 2);
      }
    }
  }

  lemma DeltaAt8(p: D.Pair, k: nat)
    requires k < 64
    ensures PairAt(D.Delta(p, 8, 0xff00ff), k) == PairAt(p, Moved(8, k))
  {
    hide Bit, Pos, Shift, D.Delta;
    ShiftValues();
    if k < 32 {
      Exchange8(p, Pos(k));
      PosTests2(k);
      if k % 16 < 8 {
        PosMoves(k, 8);
      }
    } else {
      Exchange8(p, Pos(k - 32));
      PosTests2(k - 32);
      if (k - 32) % 16 >= 8 {
        PosMoves(k - 32 - 8, 8);
      }
    }
  }

  lemma OddBit(a: word, b: word, i: byte)
    requires i < 32
    ensures Bit(D.Odd(a, b), i) == (i & 1 != 0 && Bit(a, i) != Bit(b, i))
  {
  }

  /** The exchange of alternate bits. */
  lemma WeaveAt(p: D.Pair, k: nat)
    requires k < 32
    ensures At(D.Weave(p).l, k) == At(if k % 2 == 0 then p.r else p.l, k)
    ensures At(D.Weave(p).r, k) == At(if k % 2 == 0 then p.l else p.r, k)
  {
    hide Bit, Pos, Xor32, D.Odd;
    var w := D.Odd(p.l, p.r);
    XorBit(p.l, w, Pos(k));
    XorBit(p.r, w, Pos(k));
    OddBit(p.l, p.r, Pos(k));
    PosTest1(k);
  }

  /** Where bit k comes from in the exchange of alternate bits between two rotations. */
  function Turned(k: nat): (m: nat)
    requires k < 64
    ensures m < 64
  {
    if k < 32 then
      var k1 := (k + 1) % 32;
      if k1 % 2 == 0 then 32 + (k1 + 1) % 32 else k1
    else
      var j := k - 32;
      if j % 2 == 0 then j else 32 + (j + 1) % 32
  }

  lemma TurnAt(p: D.Pair, k: nat)
    requires k < 64
    ensures PairAt(D.Turn(p), k) == PairAt(p, Turned(k))
  {
    hide At, D.Weave, D.Left1;
    var x := D.Pair(p.l, D.Left1(p.r));
    var w := D.Weave(x);
    var j := if k < 32 then (k + 1) % 32 else k - 32;
    WeaveAt(x, j);
    LeftAt(p.r, j);
    if k < 32 {
      LeftAt(w.l, k);
    }
  }

  /** Where bit k of the permuted pair comes from. */
  function Origin(k: nat): (m: nat)
    requires k < 64
    ensures m < 64
  {
    Moved(4, Moved(16, MovedR(2, MovedR(8, Turned(k)))))
  }

  lemma EnterAt(p: D.Pair, k: nat)
    requires k < 64
    ensures PairAt(D.Enter(p), k) == PairAt(p, Origin(k))
  {
    hide PairAt, D.Delta, D.Turn, D.Swap, Moved, Flip, Turned;
    var a := D.Delta(p, 4, 0x0f0f0f0f);
    var b := D.Delta(a, 16, 0xffff);
    var c := D.DeltaR(b, 2, 0x33333333);
    var d := D.DeltaR(c, 8, 0xff00ff);
    var k1 := Turned(k);
    TurnAt(d, k);
    SwapAt(D.Delta(D.Swap(c), 8, 0xff00ff), k1);
    DeltaAt8(D.Swap(c), Flip(k1));
    SwapAt(c, Moved(8, Flip(k1)));
    var k2 := MovedR(8, k1);
    SwapAt(D.Delta(D.Swap(b), 2, 0x33333333), k2);
    DeltaAt2(D.Swap(b), Flip(k2));
    SwapAt(b, Moved(2, Flip(k2)));
    var k3 := MovedR(2, k2);
    DeltaAt16(a, k3);
    DeltaAt4(p, Moved(16, k3));
  }

  /** The bit of the standard's block that bit k of the rotated halves stands for. */
  function Target(k: nat): (t: nat)
    requires k < 64
    ensures t < 64 && (k < 32 ==> t < 32)
  {
    if k < 32 then (k + 1) % 32 else 32 + (k - 31) % 32
  }

  /** A bit position by the half and the five binary digits of its place there. */
  function V(h: nat, a: nat, b: nat, c: nat, d: nat, e: nat): (k: nat)
    requires h <= 1 && a <= 1 && b <= 1 && c <= 1 && d <= 1 && e <= 1
    ensures k < 64
  {
    32 * h + 16 * a + 8 * b + 4 * c + 2 * d + e
  }

  /** Each exchange swaps and complements the half and one digit. */
  lemma Moved4(h: nat, a: nat, b: nat, c: nat, d: nat, e: nat)
    requires h <= 1 && a <= 1 && b <= 1 && c <= 1 && d <= 1 && e <= 1
    ensures Moved(4, V(h, a, b, c, d, e)) == V(1 - c, a, b, 1 - h, d, e)
  {
  }

  lemma Moved16(h: nat, a: nat, b: nat, c: nat, d: nat, e: nat)
    requires h <= 1 && a <= 1 && b <= 1 && c <= 1 && d <= 1 && e <= 1
    ensures Moved(16, V(h, a, b, c, d, e)) == V(1 - a, 1 - h, b, c, d, e)
  {
  }

  lemma Moved8(h: nat, a: nat, b: nat, c: nat, d: nat, e: nat)
    requires h <= 1 && a <= 1 && b <= 1 && c <= 1 && d <= 1 && e <= 1
    ensures Moved(8, V(h, a, b, c, d, e)) == V(1 - b, a, 1 - h, c, d, e)
  {
  }

  lemma Moved2(h: nat, a: nat, b: nat, c: nat, d: nat, e: nat)
    requires h <= 1 && a <= 1 && b <= 1 && c <= 1 && d <= 1 && e <= 1
    ensures Moved(2, V(h, a, b, c, d, e)) == V(1 - d, a, b, c, 1 - h, e)
  {
  }

  lemma FlipDigits(h: nat, a: nat, b: nat, c: nat, d: nat, e: nat)
    requires h <= 1 && a <= 1 && b <= 1 && c <= 1 && d <= 1 && e <= 1
    ensures Flip(V(h, a, b, c, d, e)) == V(1 - h, a, b, c, d, e)
  {
  }

  /** With the halves turned around, it only swaps them. */
  lemma MovedR8(h: nat, a: nat, b: nat, c: nat, d: nat, e: nat)
    requires h <= 1 && a <= 1 && b <= 1 && c <= 1 && d <= 1 && e <= 1
    ensures MovedR(8, V(h, a, b, c, d, e)) == V(b, a, h, c, d, e)
  {
    hide V, Flip, Moved;
    FlipDigits(h, a, b, c, d, e);
    Moved8(1 - h, a, b, c, d, e);
    FlipDigits(1 - b, a, h, c, d, e);
  }

  lemma MovedR2(h: nat, a: nat, b: nat, c: nat, d: nat, e: nat)
    requires h <= 1 && a <= 1 && b <= 1 && c <= 1 && d <= 1 && e <= 1
    ensures MovedR(2, V(h, a, b, c, d, e)) == V(d, a, b, c, h, e)
  {
    hide V, Flip, Moved;
    FlipDigits(h, a, b, c, d, e);
    Moved2(1 - h, a, b, c, d, e);
    FlipDigits(1 - d, a, b, c, h, e);
  }

  lemma TurnedDigits(k: nat, h: nat, a: nat, b: nat, c: nat, d: nat, e: nat)
    requires h <= 1 && a <= 1 && b <= 1 && c <= 1 && d <= 1 && e <= 1
    requires k < 64 && Target(k) == V(h, a, b, c, d, e)
    ensures Turned(k) == V(1 - e, a, b, c, d, 1 - h)
  {
    hide Turned, Target;
    TurnedByTarget(k);
    LastDigit(h, a, b, c, d, e);
  }

  lemma TurnedByTarget(k: nat)
    requires k < 64
    ensures var t := Target(k);
            Turned(k) == if t % 2 == 0 then (if t < 32 then t + 33 else t) else if t < 32 then t else t - 33
  {
  }

  lemma LastDigit(h: nat, a: nat, b: nat, c: nat, d: nat, e: nat)
    requires h <= 1 && a <= 1 && b <= 1 && c <= 1 && d <= 1 && e <= 1
    ensures V(h, a, b, c, d, e) % 2 == e
  {
    assert V(h, a, b, c, d, e) == 2 * (16 * h + 8 * a + 4 * b + 2 * c + d) + e;
  }

  /** Row and column of the table: even bits first, each row eight apart going down. */
  lemma IpTable(h: nat, row: nat, column: nat)
    requires h <= 1 && row < 4 && column < 8
    ensures T.Ip(32 * h + 8 * row + column) == 58 + 2 * row - 8 * column - h
  {
  }

  /** The initial permutation moves the six digits around and complements four of them. */
  lemma IpDigits(h: nat, a: nat, b: nat, c: nat, d: nat, e: nat)
    requires h <= 1 && a <= 1 && b <= 1 && c <= 1 && d <= 1 && e <= 1
    ensures T.Ip(V(h, a, b, c, d, e)) - 1 == V(1 - c, 1 - d, 1 - e, a, b, 1 - h)
  {
    hide V;
    VDigits(h, a, b, c, d, e);
    VDigits(1 - c, 1 - d, 1 - e, a, b, 1 - h);
    IpTable(h, 2 * a + b, 4 * c + 2 * d + e);
  }

  lemma VDigits(h: nat, a: nat, b: nat, c: nat, d: nat, e: nat)
    requires h <= 1 && a <= 1 && b <= 1 && c <= 1 && d <= 1 && e <= 1
    ensures V(h, a, b, c, d, e) == 2 * (2 * (2 * (2 * (2 * h + a) + b) + c) + d) + e
  {
  }

  /** With both halves one place further left, the input permutation is the initial permutation. */
  lemma OriginIsIp(k: nat)
    requires k < 64
    ensures Origin(k) == T.Ip(Target(k)) - 1
  {
    hide Moved, MovedR, Turned, Target, V, T.Ip;
    var t := Target(k);
    var e, q1 := t % 2, t / 2;
    var d, q2 := q1 % 2, q1 / 2;
    var c, q3 := q2 % 2, q2 / 2;
    var b, q4 := q3 % 2, q3 / 2;
    var a, h := q4 % 2, q4 / 2;
    VDigits(h, a, b, c, d, e);
    TurnedDigits(k, h, a, b, c, d, e);
    MovedR8(1 - e, a, b, c, d, 1 - h);
    MovedR2(b, a, 1 - e, c, d, 1 - h);
    Moved16(d, a, 1 - e, c, b, 1 - h);
    Moved4(1 - a, 1 - d, 1 - e, c, b, 1 - h);
    IpDigits(h, a, b, c, d, e);
  }

  // ----- the look-ups -----

  /** A four-bit S-box output through P and one place to the left: four bits of a word. */
  function Place0(n: byte): word {
    (if n & 8 != 0 then 0x01000000 else 0) | (if n & 4 != 0 then 0x00010000 else 0)
    | (if n & 2 != 0 then 0x00000400 else 0) | (if n & 1 != 0 then 0x00000004 else 0)
  }

  function Place1(n: byte): word {
    (if n & 8 != 0 then 0x00100000 else 0) | (if n & 4 != 0 then 0x00000020 else 0)
    | (if n & 2 != 0 then 0x80000000 else 0) | (if n & 1 != 0 then 0x00008000 else 0)
  }

  function Place2(n: byte): word {
    (if n & 8 != 0 then 0x00000200 else 0) | (if n & 4 != 0 then 0x00020000 else 0)
    | (if n & 2 != 0 then 0x00000008 else 0) | (if n & 1 != 0 then 0x08000000 else 0)
  }

  function Place3(n: byte): word {
    (if n & 8 != 0 then 0x00000080 else 0) | (if n & 4 != 0 then 0x00002000 else 0)
    | (if n & 2 != 0 then 0x00800000 else 0) | (if n & 1 != 0 then 0x00000001 else 0)
  }

  function Place4(n: byte): word {
    (if n & 8 != 0 then 0x02000000 else 0) | (if n & 4 != 0 then 0x00080000 else 0)
    | (if n & 2 != 0 then 0x00000100 else 0) | (if n & 1 != 0 then 0x40000000 else 0)
  }

  function Place5(n: byte): word {
    (if n & 8 != 0 then 0x20000000 else 0) | (if n & 4 != 0 then 0x00000010 else 0)
    | (if n & 2 != 0 then 0x00400000 else 0) | (if n & 1 != 0 then 0x00004000 else 0)
  }

  function Place6(n: byte): word {
    (if n & 8 != 0 then 0x00000002 else 0) | (if n & 4 != 0 then 0x00200000 else 0)
    | (if n & 2 != 0 then 0x00000800 else 0) | (if n & 1 != 0 then 0x04000000 else 0)
  }

  function Place7(n: byte): word {
    (if n & 8 != 0 then 0x10000000 else 0) | (if n & 4 != 0 then 0x00000040 else 0)
    | (if n & 2 != 0 then 0x00040000 else 0) | (if n & 1 != 0 then 0x00001000 else 0)
  }

  function Low6(x: word): byte { (x & 0x3f) as byte }

  // Each combined table is its S-box followed by P.

  lemma Table0(x: word)
    ensures Sp0(x) == Place0(T.S0(RowColumn(Low6(x))))
  {
  }

  lemma Table1(x: word)
    ensures Sp1(x) == Place1(T.S1(RowColumn(Low6(x))))
  {
  }

  lemma Table2(x: word)
    ensures Sp2(x) == Place2(T.S2(RowColumn(Low6(x))))
  {
  }

  lemma Table3(x: word)
    ensures Sp3(x) == Place3(T.S3(RowColumn(Low6(x))))
  {
  }

  lemma Table4(x: word)
    ensures Sp4(x) == Place4(T.S4(RowColumn(Low6(x))))
  {
  }

  lemma Table5(x: word)
    ensures Sp5(x) == Place5(T.S5(RowColumn(Low6(x))))
  {
  }

  lemma Table6(x: word)
    ensures Sp6(x) == Place6(T.S6(RowColumn(Low6(x))))
  {
  }

  lemma Table7(x: word)
    ensures Sp7(x) == Place7(T.S7(RowColumn(Low6(x))))
  {
  }

  lemma PlaceBits0(n: byte, i: byte)
    requires i < 32
    ensures Bit(Place0(n), i) ==
            ((i == 24 && n & 8 != 0) || (i == 16 && n & 4 != 0) || (i == 10 && n & 2 != 0) || (i == 2 && n & 1 != 0))
  {
  }

  lemma Source0(k: nat)
    requires k < 32
    ensures (T.P32(Target(k)) - 1 == 0 <==> k == 7) && (T.P32(Target(k)) - 1 == 1 <==> k == 15)
    ensures (T.P32(Target(k)) - 1 == 2 <==> k == 21) && (T.P32(Target(k)) - 1 == 3 <==> k == 29)
  {
  }

  lemma PlaceBits1(n: byte, i: byte)
    requires i < 32
    ensures Bit(Place1(n), i) ==
            ((i == 20 && n & 8 != 0) || (i == 5 && n & 4 != 0) || (i == 31 && n & 2 != 0) || (i == 15 && n & 1 != 0))
  {
  }

  lemma Source1(k: nat)
    requires k < 32
    ensures (T.P32(Target(k)) - 1 == 4 <==> k == 11) && (T.P32(Target(k)) - 1 == 5 <==> k == 26)
    ensures (T.P32(Target(k)) - 1 == 6 <==> k == 0) && (T.P32(Target(k)) - 1 == 7 <==> k == 16)
  {
  }

  lemma PlaceBits2(n: byte, i: byte)
    requires i < 32
    ensures Bit(Place2(n), i) ==
            ((i == 9 && n & 8 != 0) || (i == 17 && n & 4 != 0) || (i == 3 && n & 2 != 0) || (i == 27 && n & 1 != 0))
  {
  }

  lemma Source2(k: nat)
    requires k < 32
    ensures (T.P32(Target(k)) - 1 == 8 <==> k == 22) && (T.P32(Target(k)) - 1 == 9 <==> k == 14)
    ensures (T.P32(Target(k)) - 1 == 10 <==> k == 28) && (T.P32(Target(k)) - 1 == 11 <==> k == 4)
  {
  }

  lemma PlaceBits3(n: byte, i: byte)
    requires i < 32
    ensures Bit(Place3(n), i) ==
            ((i == 7 && n & 8 != 0) || (i == 13 && n & 4 != 0) || (i == 23 && n & 2 != 0) || (i == 0 && n & 1 != 0))
  {
  }

  lemma Source3(k: nat)
    requires k < 32
    ensures (T.P32(Target(k)) - 1 == 12 <==> k == 24) && (T.P32(Target(k)) - 1 == 13 <==> k == 18)
    ensures (T.P32(Target(k)) - 1 == 14 <==> k == 8) && (T.P32(Target(k)) - 1 == 15 <==> k == 31)
  {
  }

  lemma PlaceBits4(n: byte, i: byte)
    requires i < 32
    ensures Bit(Place4(n), i) ==
            ((i == 25 && n & 8 != 0) || (i == 19 && n & 4 != 0) || (i == 8 && n & 2 != 0) || (i == 30 && n & 1 != 0))
  {
  }

  lemma Source4(k: nat)
    requires k < 32
    ensures (T.P32(Target(k)) - 1 == 16 <==> k == 6) && (T.P32(Target(k)) - 1 == 17 <==> k == 12)
    ensures (T.P32(Target(k)) - 1 == 18 <==> k == 23) && (T.P32(Target(k)) - 1 == 19 <==> k == 1)
  {
  }

  lemma PlaceBits5(n: byte, i: byte)
    requires i < 32
    ensures Bit(Place5(n), i) ==
            ((i == 29 && n & 8 != 0) || (i == 4 && n & 4 != 0) || (i == 22 && n & 2 != 0) || (i == 14 && n & 1 != 0))
  {
  }

  lemma Source5(k: nat)
    requires k < 32
    ensures (T.P32(Target(k)) - 1 == 20 <==> k == 2) && (T.P32(Target(k)) - 1 == 21 <==> k == 27)
    ensures (T.P32(Target(k)) - 1 == 22 <==> k == 9) && (T.P32(Target(k)) - 1 == 23 <==> k == 17)
  {
  }

  lemma PlaceBits6(n: byte, i: byte)
    requires i < 32
    ensures Bit(Place6(n), i) ==
            ((i == 1 && n & 8 != 0) || (i == 21 && n & 4 != 0) || (i == 11 && n & 2 != 0) || (i == 26 && n & 1 != 0))
  {
  }

  lemma Source6(k: nat)
    requires k < 32
    ensures (T.P32(Target(k)) - 1 == 24 <==> k == 30) && (T.P32(Target(k)) - 1 == 25 <==> k == 10)
    ensures (T.P32(Target(k)) - 1 == 26 <==> k == 20) && (T.P32(Target(k)) - 1 == 27 <==> k == 5)
  {
  }

  lemma PlaceBits7(n: byte, i: byte)
    requires i < 32
    ensures Bit(Place7(n), i) ==
            ((i == 28 && n & 8 != 0) || (i == 6 && n & 4 != 0) || (i == 18 && n & 2 != 0) || (i == 12 && n & 1 != 0))
  {
  }

  lemma Source7(k: nat)
    requires k < 32
    ensures (T.P32(Target(k)) - 1 == 28 <==> k == 3) && (T.P32(Target(k)) - 1 == 29 <==> k == 25)
    ensures (T.P32(Target(k)) - 1 == 30 <==> k == 13) && (T.P32(Target(k)) - 1 == 31 <==> k == 19)
  {
  }

  /** P puts bit q of the S-box outputs at place k of the rotated word. */
  predicate Fed(c: nat, n: byte, k: nat)
    requires c < 8 && k < 32
  {
    var q := T.P32(Target(k)) - 1;
    q / 4 == c && NibbleBit(n, q % 4)
  }

  lemma PosIs(k: nat, j: nat)
    requires k < 32 && j < 32
    ensures Pos(k) == Pos(j) <==> k == j
  {
    ByteOfNat(31 - k);
    ByteOfNat(31 - j);
  }

  lemma PosTable()
    ensures Pos(0) == 31 && Pos(1) == 30 && Pos(2) == 29 && Pos(3) == 28 && Pos(4) == 27 && Pos(5) == 26
    ensures Pos(6) == 25 && Pos(7) == 24 && Pos(8) == 23 && Pos(9) == 22 && Pos(10) == 21 && Pos(11) == 20
    ensures Pos(12) == 19 && Pos(13) == 18 && Pos(14) == 17 && Pos(15) == 16 && Pos(16) == 15 && Pos(17) == 14
    ensures Pos(18) == 13 && Pos(19) == 12 && Pos(20) == 11 && Pos(21) == 10 && Pos(22) == 9 && Pos(23) == 8
    ensures Pos(24) == 7 && Pos(25) == 6 && Pos(26) == 5 && Pos(27) == 4 && Pos(28) == 3 && Pos(29) == 2
    ensures Pos(30) == 1 && Pos(31) == 0
  {
  }

  lemma PlaceAt0(n: byte, k: nat)
    requires k < 32
    ensures At(Place0(n), k) == Fed(0, n, k)
  {
    hide Bit, Pos, Place0, T.P32, Target;
    PlaceBits0(n, Pos(k));
    Source0(k);
    PosTable();
    PosIs(k, 7);
    PosIs(k, 15);
    PosIs(k, 21);
    PosIs(k, 29);
  }

  lemma PlaceAt1(n: byte, k: nat)
    requires k < 32
    ensures At(Place1(n), k) == Fed(1, n, k)
  {
    hide Bit, Pos, Place1, T.P32, Target;
    PlaceBits1(n, Pos(k));
    Source1(k);
    PosTable();
    PosIs(k, 11);
    PosIs(k, 26);
    PosIs(k, 0);
    PosIs(k, 16);
  }

  lemma PlaceAt2(n: byte, k: nat)
    requires k < 32
    ensures At(Place2(n), k) == Fed(2, n, k)
  {
    hide Bit, Pos, Place2, T.P32, Target;
    PlaceBits2(n, Pos(k));
    Source2(k);
    PosTable();
    PosIs(k, 22);
    PosIs(k, 14);
    PosIs(k, 28);
    PosIs(k, 4);
  }

  lemma PlaceAt3(n: byte, k: nat)
    requires k < 32
    ensures At(Place3(n), k) == Fed(3, n, k)
  {
    hide Bit, Pos, Place3, T.P32, Target;
    PlaceBits3(n, Pos(k));
    Source3(k);
    PosTable();
    PosIs(k, 24);
    PosIs(k, 18);
    PosIs(k, 8);
    PosIs(k, 31);
  }

  lemma PlaceAt4(n: byte, k: nat)
    requires k < 32
    ensures At(Place4(n), k) == Fed(4, n, k)
  {
    hide Bit, Pos, Place4, T.P32, Target;
    PlaceBits4(n, Pos(k));
    Source4(k);
    PosTable();
    PosIs(k, 6);
    PosIs(k, 12);
    PosIs(k, 23);
    PosIs(k, 1);
  }

  lemma PlaceAt5(n: byte, k: nat)
    requires k < 32
    ensures At(Place5(n), k) == Fed(5, n, k)
  {
    hide Bit, Pos, Place5, T.P32, Target;
    PlaceBits5(n, Pos(k));
    Source5(k);
    PosTable();
    PosIs(k, 2);
    PosIs(k, 27);
    PosIs(k, 9);
    PosIs(k, 17);
  }

  lemma PlaceAt6(n: byte, k: nat)
    requires k < 32
    ensures At(Place6(n), k) == Fed(6, n, k)
  {
    hide Bit, Pos, Place6, T.P32, Target;
    PlaceBits6(n, Pos(k));
    Source6(k);
    PosTable();
    PosIs(k, 30);
    PosIs(k, 10);
    PosIs(k, 20);
    PosIs(k, 5);
  }

  lemma PlaceAt7(n: byte, k: nat)
    requires k < 32
    ensures At(Place7(n), k) == Fed(7, n, k)
  {
    hide Bit, Pos, Place7, T.P32, Target;
    PlaceBits7(n, Pos(k));
    Source7(k);
    PosTable();
    PosIs(k, 3);
    PosIs(k, 25);
    PosIs(k, 13);
    PosIs(k, 19);
  }

  // ----- what enters the look-ups -----

  /** Half w holds the bits b one place further left. */
  ghost predicate Holds(w: word, b: Bits)
    requires |b| == 32
  {
    forall k :: 0 <= k < 32 ==> At(w, k) == b[(k + 1) % 32]
  }

  /** The six bits at shift n, as the code masks them. */
  function Sixth(u: word, n: byte): byte
    requires n < 32
  {
    D.Byte(u, n) as byte
  }

  lemma ByteSix(u: word, n: byte)
    requires n <= 24 && (n == 0 || n == 8 || n == 16 || n == 24)
    ensures Sixth(u, n)
         == Six(Bit(u, n + 5), Bit(u, n + 4), Bit(u, n + 3), Bit(u, n + 2), Bit(u, n + 1), Bit(u, n))
  {
  }

  lemma RotBit(r: word, i: byte)
    requires i < 32
    ensures Bit(D.RotR4(r), i) == Bit(r, if i < 28 then i + 4 else i - 28)
  {
  }

  lemma SixXor(a0: bool, a1: bool, a2: bool, a3: bool, a4: bool, a5: bool,
               b0: bool, b1: bool, b2: bool, b3: bool, b4: bool, b5: bool)
    ensures Xor8(Six(a0, a1, a2, a3, a4, a5), Six(b0, b1, b2, b3, b4, b5))
         == Six(a0 != b0, a1 != b1, a2 != b2, a3 != b3, a4 != b4, a5 != b5)
  {
  }

  lemma RawSixthXor(u: word, v: word, n: byte)
    requires n <= 24
    ensures Sixth(u ^ v, n) == Sixth(u, n) ^ Sixth(v, n)
  {
  }

  lemma ByteXor(u: word, v: word, n: byte)
    requires n <= 24 && (n == 0 || n == 8 || n == 16 || n == 24)
    ensures Sixth(Xor32(u, v), n) == Xor8(Sixth(u, n), Sixth(v, n))
  {
    hide Sixth;
    RawSixthXor(u, v, n);
    assert Sixth(Xor32(u, v), n) == Sixth(u ^ v, n);
  }

  function Mask6(x: byte): byte { x & 0x3f }

  lemma BytePack(a: byte, b: byte, c: byte, d: byte)
    ensures Sixth(Pack(a, b, c, d), 24) == Mask6(a) && Sixth(Pack(a, b, c, d), 16) == Mask6(b)
    ensures Sixth(Pack(a, b, c, d), 8) == Mask6(c) && Sixth(Pack(a, b, c, d), 0) == Mask6(d)
  {
  }

  lemma ChunkIsSix(b: seq<bool>, c: nat)
    requires |b| == 48 && c < 8
    ensures Mask6(D.Chunk(b, c, 6)) == SixAt(b, c)
  {
    hide D.Chunk, Six, Mask6, Appended;
    SetBits(b[6 * c], b[6 * c + 1], b[6 * c + 2], b[6 * c + 3], b[6 * c + 4], b[6 * c + 5]);
    ChunkUnrolled(b, c);
  }

  lemma ChunkUnrolled(b: seq<bool>, c: nat)
    requires |b| == 48 && c < 8
    ensures D.Chunk(b, c, 6) == Appended(Appended(Appended(Appended(Appended(Appended(0,
              b[6 * c], 0), b[6 * c + 1], 1), b[6 * c + 2], 2), b[6 * c + 3], 3), b[6 * c + 4], 4), b[6 * c + 5], 5)
  {
    hide D.SetBit;
    assert D.Chunk(b, c, 1) == Appended(D.Chunk(b, c, 0), b[6 * c], 0);
    assert D.Chunk(b, c, 2) == Appended(D.Chunk(b, c, 1), b[6 * c + 1], 1);
    assert D.Chunk(b, c, 3) == Appended(D.Chunk(b, c, 2), b[6 * c + 2], 2);
    assert D.Chunk(b, c, 4) == Appended(D.Chunk(b, c, 3), b[6 * c + 3], 3);
    assert D.Chunk(b, c, 5) == Appended(D.Chunk(b, c, 4), b[6 * c + 4], 4);
    assert D.Chunk(b, c, 6) == Appended(D.Chunk(b, c, 5), b[6 * c + 5], 5);
  }

  function Appended(x: byte, b: bool, l: nat): byte
    requires l < 6
  {
    if b then D.SetBit(x, l) else x
  }

  lemma SetBits(b0: bool, b1: bool, b2: bool, b3: bool, b4: bool, b5: bool)
    ensures
      Mask6(Appended(Appended(Appended(Appended(Appended(Appended(0, b0, 0), b1, 1), b2, 2), b3, 3), b4, 4), b5, 5))
         == Six(b0, b1, b2, b3, b4, b5)
  {
  }

  lemma ExpandIs(c: nat, t: nat)
    requires c < 8 && t < 6
    ensures T.Ei(6 * c + t) - 1 == (4 * c + t + 31) % 32
  {
  }

  lemma ExpandedSix(b: Bits, c: nat)
    requires |b| == 32 && c < 8
    ensures SixAt(Expand(b), c) == Six(b[(4 * c + 31) % 32], b[(4 * c + 32) % 32], b[(4 * c + 33) % 32],
                                       b[(4 * c + 34) % 32], b[(4 * c + 35) % 32], b[(4 * c + 36) % 32])
  {
    hide T.Ei, Six;
    ExpandIs(c, 0);
    ExpandIs(c, 1);
    ExpandIs(c, 2);
    ExpandIs(c, 3);
    ExpandIs(c, 4);
    ExpandIs(c, 5);
  }

  lemma Input0(r: word, b: Bits)
    requires |b| == 32 && Holds(r, b)
    ensures Sixth(D.RotR4(r), 24) == SixAt(Expand(b), 0)
  {
    hide Bit, Pos, Six, Sixth, D.RotR4, SixAt, Expand;
    ByteSix(D.RotR4(r), 24);
    ExpandedSix(b, 0);
    PosTable();
    RotBit(r, 29);
    assert At(r, 30) == b[31];
    RotBit(r, 28);
    assert At(r, 31) == b[0];
    RotBit(r, 27);
    assert At(r, 0) == b[1];
    RotBit(r, 26);
    assert At(r, 1) == b[2];
    RotBit(r, 25);
    assert At(r, 2) == b[3];
    RotBit(r, 24);
    assert At(r, 3) == b[4];
  }

  lemma Input1(r: word, b: Bits)
    requires |b| == 32 && Holds(r, b)
    ensures Sixth(r, 24) == SixAt(Expand(b), 1)
  {
    hide Bit, Pos, Six, Sixth, D.RotR4, SixAt, Expand;
    ByteSix(r, 24);
    ExpandedSix(b, 1);
    PosTable();
    assert At(r, 2) == b[3];
    assert At(r, 3) == b[4];
    assert At(r, 4) == b[5];
    assert At(r, 5) == b[6];
    assert At(r, 6) == b[7];
    assert At(r, 7) == b[8];
  }

  lemma Input2(r: word, b: Bits)
    requires |b| == 32 && Holds(r, b)
    ensures Sixth(D.RotR4(r), 16) == SixAt(Expand(b), 2)
  {
    hide Bit, Pos, Six, Sixth, D.RotR4, SixAt, Expand;
    ByteSix(D.RotR4(r), 16);
    ExpandedSix(b, 2);
    PosTable();
    RotBit(r, 21);
    assert At(r, 6) == b[7];
    RotBit(r, 20);
    assert At(r, 7) == b[8];
    RotBit(r, 19);
    assert At(r, 8) == b[9];
    RotBit(r, 18);
    assert At(r, 9) == b[10];
    RotBit(r, 17);
    assert At(r, 10) == b[11];
    RotBit(r, 16);
    assert At(r, 11) == b[12];
  }

  lemma Input3(r: word, b: Bits)
    requires |b| == 32 && Holds(r, b)
    ensures Sixth(r, 16) == SixAt(Expand(b), 3)
  {
    hide Bit, Pos, Six, Sixth, D.RotR4, SixAt, Expand;
    ByteSix(r, 16);
    ExpandedSix(b, 3);
    PosTable();
    assert At(r, 10) == b[11];
    assert At(r, 11) == b[12];
    assert At(r, 12) == b[13];
    assert At(r, 13) == b[14];
    assert At(r, 14) == b[15];
    assert At(r, 15) == b[16];
  }

  lemma Input4(r: word, b: Bits)
    requires |b| == 32 && Holds(r, b)
    ensures Sixth(D.RotR4(r), 8) == SixAt(Expand(b), 4)
  {
    hide Bit, Pos, Six, Sixth, D.RotR4, SixAt, Expand;
    ByteSix(D.RotR4(r), 8);
    ExpandedSix(b, 4);
    PosTable();
    RotBit(r, 13);
    assert At(r, 14) == b[15];
    RotBit(r, 12);
    assert At(r, 15) == b[16];
    RotBit(r, 11);
    assert At(r, 16) == b[17];
    RotBit(r, 10);
    assert At(r, 17) == b[18];
    RotBit(r, 9);
    assert At(r, 18) == b[19];
    RotBit(r, 8);
    assert At(r, 19) == b[20];
  }

  lemma Input5(r: word, b: Bits)
    requires |b| == 32 && Holds(r, b)
    ensures Sixth(r, 8) == SixAt(Expand(b), 5)
  {
    hide Bit, Pos, Six, Sixth, D.RotR4, SixAt, Expand;
    ByteSix(r, 8);
    ExpandedSix(b, 5);
    PosTable();
    assert At(r, 18) == b[19];
    assert At(r, 19) == b[20];
    assert At(r, 20) == b[21];
    assert At(r, 21) == b[22];
    assert At(r, 22) == b[23];
    assert At(r, 23) == b[24];
  }

  lemma Input6(r: word, b: Bits)
    requires |b| == 32 && Holds(r, b)
    ensures Sixth(D.RotR4(r), 0) == SixAt(Expand(b), 6)
  {
    hide Bit, Pos, Six, Sixth, D.RotR4, SixAt, Expand;
    ByteSix(D.RotR4(r), 0);
    ExpandedSix(b, 6);
    PosTable();
    RotBit(r, 5);
    assert At(r, 22) == b[23];
    RotBit(r, 4);
    assert At(r, 23) == b[24];
    RotBit(r, 3);
    assert At(r, 24) == b[25];
    RotBit(r, 2);
    assert At(r, 25) == b[26];
    RotBit(r, 1);
    assert At(r, 26) == b[27];
    RotBit(r, 0);
    assert At(r, 27) == b[28];
  }

  lemma Input7(r: word, b: Bits)
    requires |b| == 32 && Holds(r, b)
    ensures Sixth(r, 0) == SixAt(Expand(b), 7)
  {
    hide Bit, Pos, Six, Sixth, D.RotR4, SixAt, Expand;
    ByteSix(r, 0);
    ExpandedSix(b, 7);
    PosTable();
    assert At(r, 26) == b[27];
    assert At(r, 27) == b[28];
    assert At(r, 28) == b[29];
    assert At(r, 29) == b[30];
    assert At(r, 30) == b[31];
    assert At(r, 31) == b[0];
  }

  lemma SixAtXor(a: Bits, b: Bits, c: nat)
    requires |a| == |b| == 48 && c < 8
    ensures Xor8(SixAt(a, c), SixAt(b, c)) == SixAt(XorBits(a, b), c)
  {
    hide Xor8, Six;
    SixXor(a[6 * c], a[6 * c + 1], a[6 * c + 2], a[6 * c + 3], a[6 * c + 4], a[6 * c + 5],
           b[6 * c], b[6 * c + 1], b[6 * c + 2], b[6 * c + 3], b[6 * c + 4], b[6 * c + 5]);
  }

  lemma Low6Byte(u: word, n: byte)
    requires n < 32
    ensures Low6(D.Byte(u, n)) == Sixth(u, n)
  {
  }

  /** The bits that enter the S-boxes. */
  function Keyed(b: Bits, key: Bits): (x: Bits)
    requires |b| == 32 && |key| == 48
    ensures |x| == 48
  {
    XorBits(Expand(b), key)
  }

  lemma Term0(r: word, b: Bits, key: Bits, k: nat)
    requires |b| == 32 && |key| == 48 && Holds(r, b) && k < 32
    ensures At(Sp0(D.Byte(Xor32(D.RotR4(r), D.SubKeyOf(key).odd), 24)), k)
         == Fed(0, SBox(0, SixAt(Keyed(b, key), 0)), k)
  {
    hide At, Xor32, Xor8, Sixth, Low6, D.Byte, D.RotR4, D.Chunk, Pack, Mask6, SixAt, Expand, XorBits, RowColumn,
         T.S0, Sp0, Place0, Fed, Holds;
    var w := D.SubKeyOf(key).odd;
    var u := Xor32(D.RotR4(r), w);
    ByteXor(D.RotR4(r), w, 24);
    Input0(r, b);
    BytePack(D.Chunk(key, 0, 6), D.Chunk(key, 2, 6), D.Chunk(key, 4, 6), D.Chunk(key, 6, 6));
    ChunkIsSix(key, 0);
    SixAtXor(Expand(b), key, 0);
    Low6Byte(u, 24);
    Table0(D.Byte(u, 24));
    PlaceAt0(T.S0(RowColumn(Sixth(u, 24))), k);
  }

  lemma Term1(r: word, b: Bits, key: Bits, k: nat)
    requires |b| == 32 && |key| == 48 && Holds(r, b) && k < 32
    ensures At(Sp1(D.Byte(Xor32(r, D.SubKeyOf(key).even), 24)), k) == Fed(1, SBox(1, SixAt(Keyed(b, key), 1)), k)
  {
    hide At, Xor32, Xor8, Sixth, Low6, D.Byte, D.RotR4, D.Chunk, Pack, Mask6, SixAt, Expand, XorBits, RowColumn,
         T.S1, Sp1, Place1, Fed, Holds;
    var w := D.SubKeyOf(key).even;
    var u := Xor32(r, w);
    ByteXor(r, w, 24);
    Input1(r, b);
    BytePack(D.Chunk(key, 1, 6), D.Chunk(key, 3, 6), D.Chunk(key, 5, 6), D.Chunk(key, 7, 6));
    ChunkIsSix(key, 1);
    SixAtXor(Expand(b), key, 1);
    Low6Byte(u, 24);
    Table1(D.Byte(u, 24));
    PlaceAt1(T.S1(RowColumn(Sixth(u, 24))), k);
  }

  lemma Term2(r: word, b: Bits, key: Bits, k: nat)
    requires |b| == 32 && |key| == 48 && Holds(r, b) && k < 32
    ensures At(Sp2(D.Byte(Xor32(D.RotR4(r), D.SubKeyOf(key).odd), 16)), k)
         == Fed(2, SBox(2, SixAt(Keyed(b, key), 2)), k)
  {
    hide At, Xor32, Xor8, Sixth, Low6, D.Byte, D.RotR4, D.Chunk, Pack, Mask6, SixAt, Expand, XorBits, RowColumn,
         T.S2, Sp2, Place2, Fed, Holds;
    var w := D.SubKeyOf(key).odd;
    var u := Xor32(D.RotR4(r), w);
    ByteXor(D.RotR4(r), w, 16);
    Input2(r, b);
    BytePack(D.Chunk(key, 0, 6), D.Chunk(key, 2, 6), D.Chunk(key, 4, 6), D.Chunk(key, 6, 6));
    ChunkIsSix(key, 2);
    SixAtXor(Expand(b), key, 2);
    Low6Byte(u, 16);
    Table2(D.Byte(u, 16));
    PlaceAt2(T.S2(RowColumn(Sixth(u, 16))), k);
  }

  lemma Term3(r: word, b: Bits, key: Bits, k: nat)
    requires |b| == 32 && |key| == 48 && Holds(r, b) && k < 32
    ensures At(Sp3(D.Byte(Xor32(r, D.SubKeyOf(key).even), 16)), k) == Fed(3, SBox(3, SixAt(Keyed(b, key), 3)), k)
  {
    hide At, Xor32, Xor8, Sixth, Low6, D.Byte, D.RotR4, D.Chunk, Pack, Mask6, SixAt, Expand, XorBits, RowColumn,
         T.S3, Sp3, Place3, Fed, Holds;
    var w := D.SubKeyOf(key).even;
    var u := Xor32(r, w);
    ByteXor(r, w, 16);
    Input3(r, b);
    BytePack(D.Chunk(key, 1, 6), D.Chunk(key, 3, 6), D.Chunk(key, 5, 6), D.Chunk(key, 7, 6));
    ChunkIsSix(key, 3);
    SixAtXor(Expand(b), key, 3);
    Low6Byte(u, 16);
    Table3(D.Byte(u, 16));
    PlaceAt3(T.S3(RowColumn(Sixth(u, 16))), k);
  }

  lemma Term4(r: word, b: Bits, key: Bits, k: nat)
    requires |b| == 32 && |key| == 48 && Holds(r, b) && k < 32
    ensures At(Sp4(D.Byte(Xor32(D.RotR4(r), D.SubKeyOf(key).odd), 8)), k) == Fed(4, SBox(4, SixAt(Keyed(b, key), 4)), k)
  {
    hide At, Xor32, Xor8, Sixth, Low6, D.Byte, D.RotR4, D.Chunk, Pack, Mask6, SixAt, Expand, XorBits, RowColumn,
         T.S4, Sp4, Place4, Fed, Holds;
    var w := D.SubKeyOf(key).odd;
    var u := Xor32(D.RotR4(r), w);
    ByteXor(D.RotR4(r), w, 8);
    Input4(r, b);
    BytePack(D.Chunk(key, 0, 6), D.Chunk(key, 2, 6), D.Chunk(key, 4, 6), D.Chunk(key, 6, 6));
    ChunkIsSix(key, 4);
    SixAtXor(Expand(b), key, 4);
    Low6Byte(u, 8);
    Table4(D.Byte(u, 8));
    PlaceAt4(T.S4(RowColumn(Sixth(u, 8))), k);
  }

  lemma Term5(r: word, b: Bits, key: Bits, k: nat)
    requires |b| == 32 && |key| == 48 && Holds(r, b) && k < 32
    ensures At(Sp5(D.Byte(Xor32(r, D.SubKeyOf(key).even), 8)), k) == Fed(5, SBox(5, SixAt(Keyed(b, key), 5)), k)
  {
    hide At, Xor32, Xor8, Sixth, Low6, D.Byte, D.RotR4, D.Chunk, Pack, Mask6, SixAt, Expand, XorBits, RowColumn,
         T.S5, Sp5, Place5, Fed, Holds;
    var w := D.SubKeyOf(key).even;
    var u := Xor32(r, w);
    ByteXor(r, w, 8);
    Input5(r, b);
    BytePack(D.Chunk(key, 1, 6), D.Chunk(key, 3, 6), D.Chunk(key, 5, 6), D.Chunk(key, 7, 6));
    ChunkIsSix(key, 5);
    SixAtXor(Expand(b), key, 5);
    Low6Byte(u, 8);
    Table5(D.Byte(u, 8));
    PlaceAt5(T.S5(RowColumn(Sixth(u, 8))), k);
  }

  lemma Term6(r: word, b: Bits, key: Bits, k: nat)
    requires |b| == 32 && |key| == 48 && Holds(r, b) && k < 32
    ensures At(Sp6(D.Byte(Xor32(D.RotR4(r), D.SubKeyOf(key).odd), 0)), k) == Fed(6, SBox(6, SixAt(Keyed(b, key), 6)), k)
  {
    hide At, Xor32, Xor8, Sixth, Low6, D.Byte, D.RotR4, D.Chunk, Pack, Mask6, SixAt, Expand, XorBits, RowColumn,
         T.S6, Sp6, Place6, Fed, Holds;
    var w := D.SubKeyOf(key).odd;
    var u := Xor32(D.RotR4(r), w);
    ByteXor(D.RotR4(r), w, 0);
    Input6(r, b);
    BytePack(D.Chunk(key, 0, 6), D.Chunk(key, 2, 6), D.Chunk(key, 4, 6), D.Chunk(key, 6, 6));
    ChunkIsSix(key, 6);
    SixAtXor(Expand(b), key, 6);
    Low6Byte(u, 0);
    Table6(D.Byte(u, 0));
    PlaceAt6(T.S6(RowColumn(Sixth(u, 0))), k);
  }

  lemma Term7(r: word, b: Bits, key: Bits, k: nat)
    requires |b| == 32 && |key| == 48 && Holds(r, b) && k < 32
    ensures At(Sp7(D.Byte(Xor32(r, D.SubKeyOf(key).even), 0)), k) == Fed(7, SBox(7, SixAt(Keyed(b, key), 7)), k)
  {
    hide At, Xor32, Xor8, Sixth, Low6, D.Byte, D.RotR4, D.Chunk, Pack, Mask6, SixAt, Expand, XorBits, RowColumn,
         T.S7, Sp7, Place7, Fed, Holds;
    var w := D.SubKeyOf(key).even;
    var u := Xor32(r, w);
    ByteXor(r, w, 0);
    Input7(r, b);
    BytePack(D.Chunk(key, 1, 6), D.Chunk(key, 3, 6), D.Chunk(key, 5, 6), D.Chunk(key, 7, 6));
    ChunkIsSix(key, 7);
    SixAtXor(Expand(b), key, 7);
    Low6Byte(u, 0);
    Table7(D.Byte(u, 0));
    PlaceAt7(T.S7(RowColumn(Sixth(u, 0))), k);
  }

  /** f of the standard at the place bit k stands for. */
  lemma FeistelAt(b: Bits, key: Bits, k: nat)
    requires |b| == 32 && |key| == 48 && k < 32
    ensures var c := (T.P32(Target(k)) - 1) / 4;
            Feistel(b, key)[Target(k)] == Fed(c, SBox(c, SixAt(Keyed(b, key), c)), k)
  {
    hide SBox, SixAt, NibbleBit, T.P32, Expand, XorBits;
  }

  /** Whether an odd number of the first n terms has bit k set. */
  predicate Parity(t: seq<word>, n: nat, k: nat)
    requires n <= |t| && k < 32
  {
    n > 0 && Parity(t, n - 1, k) != At(t[n - 1], k)
  }

  lemma {:induction false} FoldAt(l: word, t: seq<word>, n: nat, k: nat)
    requires n <= |t| && k < 32
    ensures At(D.Fold(l, t, n), k) == (At(l, k) != Parity(t, n, k))
  {
    hide At, Xor32;
    if n > 0 {
      FoldAt(l, t, n - 1, k);
      XorAt(D.Fold(l, t, n - 1), t[n - 1], k);
    }
  }

  /** Eight terms of which only one can have the bit. */
  lemma ParityOfOne(t: seq<word>, k: nat, c: nat, v: bool)
    requires |t| == 8 && k < 32 && c < 8
    requires At(t[0], k) == (c == 6 && v) && At(t[1], k) == (c == 4 && v)
    requires At(t[2], k) == (c == 2 && v) && At(t[3], k) == (c == 0 && v)
    requires At(t[4], k) == (c == 7 && v) && At(t[5], k) == (c == 5 && v)
    requires At(t[6], k) == (c == 3 && v) && At(t[7], k) == (c == 1 && v)
    ensures Parity(t, 8, k) == v
  {
    hide At;
    assert Parity(t, 1, k) == (c == 6 && v);
    assert Parity(t, 2, k) == ((c == 6 || c == 4) && v);
    assert Parity(t, 3, k) == ((c == 6 || c == 4 || c == 2) && v);
    assert Parity(t, 4, k) == ((c == 6 || c == 4 || c == 2 || c == 0) && v);
    assert Parity(t, 5, k) == (c != 5 && c != 3 && c != 1 && v);
    assert Parity(t, 6, k) == (c != 3 && c != 1 && v);
    assert Parity(t, 7, k) == (c != 1 && v);
  }

  /** Macro F exclusive-ors f of the standard into the other half. */
  lemma FAt(l: word, r: word, b: Bits, key: Bits, k: nat)
    requires |b| == 32 && |key| == 48 && Holds(r, b) && k < 32
    ensures At(D.F(l, r, D.SubKeyOf(key)), k) == (At(l, k) != Feistel(b, key)[Target(k)])
  {
    hide At, Xor32, D.Byte, D.RotR4, D.SubKeyOf, SBox, SixAt, Keyed, Holds, Feistel, NibbleBit, T.P32, Target,
         Sp0, Sp1, Sp2, Sp3, Sp4, Sp5, Sp6, Sp7, Parity, D.Fold;
    var t := D.Terms(r, D.SubKeyOf(key));
    var c := (T.P32(Target(k)) - 1) / 4;
    var v := Feistel(b, key)[Target(k)];
    FeistelAt(b, key, k);
    Term0(r, b, key, k);
    Term1(r, b, key, k);
    Term2(r, b, key, k);
    Term3(r, b, key, k);
    Term4(r, b, key, k);
    Term5(r, b, key, k);
    Term6(r, b, key, k);
    Term7(r, b, key, k);
    ParityOfOne(t, k, c, v);
    FoldAt(l, t, 8, k);
  }

  // ----- the whole cipher -----

  ghost predicate Related(p: D.Pair, h: Halves)
    requires Wide(h)
  {
    Holds(p.l, h.l) && Holds(p.r, h.r)
  }

  lemma RoundRelated(p: D.Pair, h: Halves, key: Bits)
    requires Wide(h) && |key| == 48 && Related(p, h)
    ensures Related(D.Round(p, D.SubKeyOf(key)), Halves(h.r, XorBits(h.l, Feistel(h.r, key))))
  {
    hide At, D.F, D.SubKeyOf, Feistel;
    forall k | 0 <= k < 32
      ensures At(D.F(p.l, p.r, D.SubKeyOf(key)), k) == XorBits(h.l, Feistel(h.r, key))[(k + 1) % 32]
    {
      FAt(p.l, p.r, h.r, key, k);
    }
  }

  /** The packed subkeys of 48-bit keys. */
  function Packed(ks: seq<Bits>): (r: seq<D.SubKey>)
    requires KeyBits(ks)
    ensures |r| == |ks|
  {
    seq(|ks|, i requires 0 <= i < |ks| => D.SubKeyOf(ks[i]))
  }

  lemma {:induction false} RoundsRelated(p: D.Pair, h: Halves, ks: seq<Bits>, n: nat)
    requires Wide(h) && KeyBits(ks) && n <= |ks| && Related(p, h)
    ensures Related(D.Rounds(p, Packed(ks), n), StandardRounds(h, ks, n))
  {
    hide Related, D.Round, XorBits, Feistel, D.SubKeyOf;
    if n > 0 {
      RoundsRelated(p, h, ks, n - 1);
      RoundRelated(D.Rounds(p, Packed(ks), n - 1), StandardRounds(h, ks, n - 1), ks[n - 1]);
    }
  }

  /** The 64 bits of a pair of words. */
  function PairBits(p: D.Pair): (b: Bits)
    ensures |b| == 64
  {
    seq(64, k requires 0 <= k < 64 => PairAt(p, k))
  }

  /** The input permutation, with its rotations, is the initial permutation. */
  lemma EnterRelated(p: D.Pair)
    ensures var b := InitialPermutation(PairBits(p));
            Related(D.Enter(p), Halves(b[..32], b[32..]))
  {
    hide At, D.Enter, Origin, T.Ip;
    var b, q := InitialPermutation(PairBits(p)), D.Enter(p);
    forall k | 0 <= k < 32
      ensures At(q.l, k) == b[..32][(k + 1) % 32] && At(q.r, k) == b[32..][(k + 1) % 32]
    {
      EnterAt(p, k);
      OriginIsIp(k);
      EnterAt(p, k + 32);
      OriginIsIp(k + 32);
    }
  }

  lemma HoldsOne(w: word, a: Bits, b: Bits)
    requires |a| == |b| == 32 && Holds(w, a) && Holds(w, b)
    ensures a == b
  {
    hide At;
    forall j | 0 <= j < 32
      ensures a[j] == b[j]
    {
      var k := (j + 31) % 32;
      assert (k + 1) % 32 == j;
      assert At(w, k) == a[(k + 1) % 32];
    }
  }

  /** des is DES: under sixteen subkeys the code computes the cipher of the standard. */
  lemma DesIsStandard(ks: seq<Bits>, p: D.Pair)
    requires |ks| == 16 && KeyBits(ks)
    ensures PairBits(D.Crypt(Packed(ks), p)) == StandardDes(PairBits(p), ks)
  {
    hide Holds, D.Enter, D.Leave, D.Rounds, StandardRounds, InitialPermutation, FinalPermutation, PairBits;
    var start := InitialPermutation(PairBits(p));
    var h0 := Halves(start[..32], start[32..]);
    EnterRelated(p);
    RoundsRelated(D.Enter(p), h0, ks, 16);
    var q, h := D.Rounds(D.Enter(p), Packed(ks), 16), StandardRounds(h0, ks, 16);
    var out := D.Crypt(Packed(ks), p);
    D.EnterUndoesLeave(D.Swap(q));
    assert D.Enter(out) == D.Swap(q);
    var last := InitialPermutation(PairBits(out));
    EnterRelated(out);
    HoldsOne(q.r, h.r, last[..32]);
    HoldsOne(q.l, h.l, last[32..]);
    assert last == h.r + h.l;
    FinalUndoesInitial(PairBits(out));
  }

  lemma PackBit0(a: byte, b: byte, c: byte, d: byte, i: byte)
    requires 24 <= i < 32
    ensures Bit(Pack(a, b, c, d), i) == (a & (1 << (i & 7)) != 0)
  {
  }

  lemma PackBit1(a: byte, b: byte, c: byte, d: byte, i: byte)
    requires 16 <= i < 24
    ensures Bit(Pack(a, b, c, d), i) == (b & (1 << (i & 7)) != 0)
  {
  }

  lemma PackBit2(a: byte, b: byte, c: byte, d: byte, i: byte)
    requires 8 <= i < 16
    ensures Bit(Pack(a, b, c, d), i) == (c & (1 << (i & 7)) != 0)
  {
  }

  lemma PackBit3(a: byte, b: byte, c: byte, d: byte, i: byte)
    requires 0 <= i < 8
    ensures Bit(Pack(a, b, c, d), i) == (d & (1 << (i & 7)) != 0)
  {
  }

  lemma PackBit(a: byte, b: byte, c: byte, d: byte, i: byte)
    requires i < 32
    ensures Bit(Pack(a, b, c, d), i)
         == ((if i >= 24 then a else if i >= 16 then b else if i >= 8 then c else d) & (1 << (i & 7)) != 0)
  {
    hide Bit, Pack;
    if i >= 24 {
      PackBit0(a, b, c, d, i);
    } else if i >= 16 {
      PackBit1(a, b, c, d, i);
    } else if i >= 8 {
      PackBit2(a, b, c, d, i);
    } else {
      PackBit3(a, b, c, d, i);
    }
  }

  lemma PosByte(k: nat)
    requires k < 32
    ensures 1 << (Pos(k) & 7) == D.ByteBit(k % 8)
    ensures (Pos(k) >= 24 <==> k < 8) && (Pos(k) >= 16 <==> k < 16) && (Pos(k) >= 8 <==> k < 24)
  {
    PosTable();
  }

  /** The bits of the words are the bits of the block's bytes, from the left. */
  lemma PairBitsOfBlock(block: seq<byte>, k: nat)
    requires |block| == 8 && k < 64
    ensures PairBits(D.LoadPair(block))[k] == D.KeyBit(block, k)
  {
    hide Bit, Pos, Pack, D.ByteBit;
    var j := if k < 32 then k else k - 32;
    var o := if k < 32 then 0 else 4;
    PackBit(block[o], block[o + 1], block[o + 2], block[o + 3], Pos(j));
    PosByte(j);
  }
}
