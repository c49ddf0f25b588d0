/**
  The CKIP replay window of bcmccx.c: a 32-bit bitmap that slides over 31-bit sequence numbers,
  against a window over unbounded numbers that remembers everything it accepted.
 */
module CkipReplay {
  import opened Words

  const WIN := 32
  const TARGET := 23
  const MASK := 0x7fff_ffff
  const RANGE := 0x8000_0000

  // ----- the window over unbounded numbers -----

  /** The number the window starts at, and every number accepted so far. */
  datatype Window = Window(first: int, accepted: set<int>)

  /** How far ahead of the start a received counter lies, on the circle of 31-bit numbers. */
  function Offset(w: Window, seqOdd: nat): (o: nat)
    ensures o < RANGE
  {
    (seqOdd / 2 - w.first) % RANGE
  }

  /** The unbounded number a received counter stands for. */
  function Number(w: Window, seqOdd: nat): int { w.first + Offset(w, seqOdd) }

  predicate Accepts(w: Window, seqOdd: nat) {
    seqOdd % 2 == 1 && Offset(w, seqOdd) <= MASK / 2 && Number(w, seqOdd) !in w.accepted
  }

  /** An accepted number beyond the window pulls the window up until it sits at the target bit. */
  function Step(w: Window, seqOdd: nat): Window {
    if !Accepts(w, seqOdd) then w
    else
      var first := if Offset(w, seqOdd) < WIN then w.first else Number(w, seqOdd) - TARGET;
      Window(first, w.accepted + {Number(w, seqOdd)})
  }

  function Run(w: Window, seqs: seq<nat>): Window
    decreases |seqs|
  {
    if seqs == [] then w else Run(Step(w, seqs[0]), seqs[1..])
  }

  /** The numbers a run accepts, in order. */
  function Delivered(w: Window, seqs: seq<nat>): seq<int>
    decreases |seqs|
  {
    if seqs == [] then []
    else (if Accepts(w, seqs[0]) then [Number(w, seqs[0])] else []) + Delivered(Step(w, seqs[0]), seqs[1..])
  }

  /** Over every run the start never moves back, and nothing accepted is forgotten. */
  lemma {:induction false} StartNeverFalls(w: Window, seqs: seq<nat>)
    ensures Run(w, seqs).first >= w.first && w.accepted <= Run(w, seqs).accepted
    decreases |seqs|
  {
    hide Accepts;
    if seqs != [] {
      StartNeverFalls(Step(w, seqs[0]), seqs[1..]);
    }
  }

  /** Over every run no number is delivered twice, nor one that had been accepted before. */
  lemma {:induction false} NeverTwice(w: Window, seqs: seq<nat>)
    ensures forall i :: 0 <= i < |Delivered(w, seqs)| ==> Delivered(w, seqs)[i] !in w.accepted
    ensures forall i, j :: 0 <= i < j < |Delivered(w, seqs)| ==> Delivered(w, seqs)[i] != Delivered(w, seqs)[j]
    decreases |seqs|
  {
    if seqs != [] {
      NeverTwice(Step(w, seqs[0]), seqs[1..]);
      StepAccepted(w, seqs[0]);
    }
  }

  lemma StepAccepted(w: Window, s: nat)
    ensures w.accepted <= Step(w, s).accepted
    ensures Accepts(w, s) ==> Number(w, s) !in w.accepted && Number(w, s) in Step(w, s).accepted
  {
  }

  /** The counter that carries number n from the access point. */
  function Wire(n: int): nat { 2 * (n % RANGE) + 1 }

  lemma WireOffset(w: Window, n: int)
    requires 0 <= n - w.first < RANGE
    ensures Offset(w, Wire(n)) == n - w.first && Number(w, Wire(n)) == n
  {
    var d := n - w.first;
    SameResidue(n, w.first);
    assert Wire(n) / 2 == n % RANGE;
  }

  lemma SameResidue(n: int, f: int)
    requires 0 <= n - f < RANGE
    ensures (n % RANGE - f) % RANGE == n - f
  {
    var q := n / RANGE;
    assert n % RANGE - f == (n - f) + RANGE * (-q);
    AddMultiple(n - f, -q);
  }

  lemma AddMultiple(d: int, q: int)
    requires 0 <= d < RANGE
    ensures (d + RANGE * q) % RANGE == d
  {
  }

  /** Every number from the start to half the range ahead that was not accepted yet is accepted. */
  lemma FreshIsAccepted(w: Window, n: int)
    requires w.first <= n <= w.first + MASK / 2
    ensures Accepts(w, Wire(n)) <==> n !in w.accepted
    ensures Accepts(w, Wire(n)) ==> Step(w, Wire(n)).accepted == w.accepted + {n}
  {
    WireOffset(w, n);
  }

  /** Every number from half the range back to the start is refused. */
  lemma OldIsRefused(w: Window, n: int)
    requires w.first - RANGE / 2 <= n < w.first
    ensures !Accepts(w, Wire(n))
  {
    WireOffset(w, n + RANGE);
    assert (n + RANGE) % RANGE == n % RANGE;
  }

  // ----- the bitmap -----

  function At(b: bv32, i: byte): bool
    requires i < 32
  {
    (b >> i) & 1 == 1
  }

  lemma OrAt(b: bv32, j: byte, i: byte)
    requires i < 32 && j < 32
    ensures At(b | (1 << j), i) <==> At(b, i) || i == j
  {
  }

  function Plus(x: byte, y: byte): byte { x + y }

  function Shr(b: bv32, n: byte): bv32
    requires n < 32
  {
    b >> n
  }

  lemma ShiftSum(b: bv32, n: byte, i: byte)
    requires i < 32 && n < 32 && i + n < 32
    ensures At(b >> n, i) == At(b, i + n)
  {
  }

  lemma ShiftAt(b: bv32, n: byte, i: byte)
    requires i < 32 && n < 32 && Plus(i, n) < 32
    ensures At(Shr(b, n), i) <==> At(b, Plus(i, n))
  {
    hide At;
    ShiftSum(b, n, i);
  }

  lemma ShiftedOut(b: bv32, n: byte, i: byte)
    requires i < 32 && n < 32 && n >= 32 - i
    ensures !At(Shr(b, n), i)
  {
  }

  lemma AndAt(b: bv32, j: byte)
    requires j < 32
    ensures b & (1 << j) != 0 <==> At(b, j)
  {
  }

  lemma ZeroAt(i: byte)
    requires i < 32
    ensures !At(0, i)
  {
  }

  /** Small numbers as shift counts. */
  function Shift(i: nat): (s: byte)
    requires i < 32
    ensures s < 32
  {
    ByteOfNat(i);
    i as byte
  }

  lemma ShiftInjective(i: nat, j: nat)
    requires i < 32 && j < 32 && Shift(i) == Shift(j)
    ensures i == j
  {
    ByteOfNat(i);
    ByteOfNat(j);
  }

  lemma {:induction false} ShiftAdds(i: nat, j: nat)
    requires i + j < 32
    ensures Plus(Shift(i), Shift(j)) == Shift(i + j)
  {
    if j == 0 {
    } else {
      ShiftAdds(i, j - 1);
      ShiftNext(j - 1);
      ShiftNext(i + j - 1);
    }
  }

  lemma ShiftNext(k: nat)
    requires k + 1 < 32
    ensures Shift(k + 1) == Shift(k) + 1
  {
    hide Num;
    ByteOfNat(k);
    ByteOfNat(k + 1);
    ByteIncrement(k as byte);
    NumInjective(Next(k as byte), (k + 1) as byte);
  }

  /** Bit i is set. */
  predicate Has(b: bv32, i: nat) { i < 32 && At(b, Shift(i)) }

  /** b | (1 << j). */
  function SetBit(b: bv32, j: nat): bv32
    requires j < 32
  {
    b | (1 << Shift(j))
  }

  /** b >> n. */
  function Lower(b: bv32, n: nat): bv32
    requires n < 32
  {
    Shr(b, Shift(n))
  }

  /** b & (1 << j). */
  predicate Tests(b: bv32, j: nat)
    requires j < 32
  {
    b & (1 << Shift(j)) != 0
  }

  lemma HasSetBit(b: bv32, j: nat, i: nat)
    requires j < 32
    ensures Has(SetBit(b, j), i) <==> (Has(b, i) || i == j)
  {
    hide At, Shift;
    if i < 32 {
      OrAt(b, Shift(j), Shift(i));
      if Shift(i) == Shift(j) {
        ShiftInjective(i, j);
      }
    }
  }

  lemma HasLower(b: bv32, n: nat, i: nat)
    requires n < 32
    ensures Has(Lower(b, n), i) <==> Has(b, i + n)
  {
    hide Has, Lower;
    if i + n < 32 {
      LowerInside(b, n, i);
    } else {
      LowerOutside(b, n, i);
    }
  }

  lemma LowerInside(b: bv32, n: nat, i: nat)
    requires i + n < 32
    ensures Has(Lower(b, n), i) <==> Has(b, i + n)
  {
    hide At, Shift, Plus, Shr;
    ShiftAdds(i, n);
    ShiftAt(b, Shift(n), Shift(i));
  }

  lemma LowerOutside(b: bv32, n: nat, i: nat)
    requires n < 32 && i + n >= 32
    ensures !Has(Lower(b, n), i) && !Has(b, i + n)
  {
    hide At, Shift;
    if i < 32 {
      ShiftsTooFar(i, n);
      ShiftedOut(b, Shift(n), Shift(i));
    }
  }

  lemma ShiftsTooFar(i: nat, n: nat)
    requires i < 32 && n < 32 && i + n >= 32
    ensures Shift(n) >= 32 - Shift(i)
  {
    hide Num;
    ByteOfNat(i);
    ByteOfNat(n);
    ByteSum(i as byte, n as byte);
  }

  lemma ByteSum(x: byte, y: byte)
    requires x < 32 && y < 32 && Num(x) + Num(y) >= 32
    ensures y >= 32 - x
  {
  }

  lemma TestsIsHas(b: bv32, j: nat)
    requires j < 32
    ensures Tests(b, j) <==> Has(b, j)
  {
    AndAt(b, Shift(j));
  }

  lemma NothingSet(i: nat)
    ensures !Has(0, i)
  {
    if i < 32 {
      ZeroAt(Shift(i));
    }
  }

  // ----- the code -----

  /** Bit i stands for number first + i, and nothing further ahead has been accepted. */
  ghost predicate Holds(b: bv32, w: Window) {
    && (forall i: nat :: i < WIN ==> (Has(b, i) <==> w.first + i in w.accepted))
    && forall n :: n in w.accepted ==> n < w.first + WIN
  }

  /** The base and bitmap a caller keeps for one peer. */
  class RxSeq {
    var base: nat
    var bitmap: bv32

    /** The unbounded window the two stand for. */
    ghost var window: Window

    ghost predicate Valid()
      reads this
    {
      base < TWO32 && base == window.first % TWO32 && Holds(bitmap, window)
    }

    /** A window that starts at a counter value with nothing accepted. */
    constructor (first: nat)
      requires first < TWO32
      ensures Valid() && window == Window(first, {})
    {
      base, bitmap := first, 0;
      window := Window(first, {});
      new;
      forall i: nat
        ensures !Has(0, i)
      {
        NothingSet(i);
      }
    }

    /** bcm_ckip_rxseq_check. */
    method Check(seqOdd: nat) returns (ok: bool)
      requires Valid() && seqOdd < TWO32
      modifies this
      ensures Valid() && window == Step(old(window), seqOdd) && ok == Accepts(old(window), seqOdd)
    {
      hide Has, Tests, SetBit, Lower;
      if seqOdd % 2 == 0 {
        return false;
      }
      var s := seqOdd / 2;
      WrappedOffset(s, window.first, base);
      var offset := (s - base) % TWO32 % RANGE;
      if offset < WIN {
        TestsIsHas(bitmap, offset);
        if Tests(bitmap, offset) {
          return false;
        }
        SetInWindow(bitmap, window, offset);
        bitmap := SetBit(bitmap, offset);
        window := Step(window, seqOdd);
        return true;
      } else if offset <= MASK / 2 {
        var diff := offset - TARGET;
        SlideWindow(bitmap, window, offset);
        if diff < 32 {
          bitmap := Lower(bitmap, diff);
        } else {
          bitmap := 0;
        }
        WrappedAdd(window.first, base, diff);
        base := (base + diff) % TWO32;
        bitmap := SetBit(bitmap, TARGET);
        window := Step(window, seqOdd);
        return true;
      }
      return false;
    }
  }

  /** Subtraction of 32-bit words, masked to 31 bits, is subtraction on the circle of 31 bits. */
  lemma WrappedOffset(s: nat, first: int, base: nat)
    requires base == first % TWO32
    ensures (s - base) % TWO32 % RANGE == (s - first) % RANGE
  {
    var q := first / TWO32;
    assert base == first - 2 * RANGE * q;
    HalfRange(s - base);
    Residue(s - first, 2 * q);
  }

  lemma HalfRange(x: int)
    ensures x % TWO32 % RANGE == x % RANGE
  {
    var q := x / TWO32;
    assert x == TWO32 * q + x % TWO32;
    Residue(x % TWO32, 2 * q);
  }

  lemma Residue(x: int, q: int)
    ensures (x + RANGE * q) % RANGE == x % RANGE
  {
    var y := x / RANGE;
    AddMultiple(x % RANGE, y + q);
    assert x + RANGE * q == x % RANGE + RANGE * (y + q);
  }

  lemma WrappedAdd(first: int, base: nat, d: nat)
    requires base == first % TWO32
    ensures (base + d) % TWO32 == (first + d) % TWO32
  {
  }

  lemma SetInWindow(b: bv32, w: Window, o: nat)
    requires Holds(b, w) && o < WIN
    ensures Holds(SetBit(b, o), Window(w.first, w.accepted + {w.first + o}))
  {
    hide Has, SetBit;
    forall i: nat | i < WIN
      ensures Has(SetBit(b, o), i) <==> w.first + i in w.accepted + {w.first + o}
    {
      HasSetBit(b, o, i);
    }
  }

  lemma SlideWindow(b: bv32, w: Window, o: nat)
    requires Holds(b, w) && o >= WIN
    ensures w.first + o !in w.accepted
    ensures var diff := o - TARGET;
            var slid := if diff < 32 then Lower(b, diff) else 0;
            Holds(SetBit(slid, TARGET), Window(w.first + diff, w.accepted + {w.first + o}))
  {
    hide Has, SetBit, Lower;
    var diff := o - TARGET;
    var slid := if diff < 32 then Lower(b, diff) else 0;
    forall i: nat | i < WIN
      ensures Has(SetBit(slid, TARGET), i) <==> w.first + diff + i in w.accepted + {w.first + o}
    {
      HasSetBit(slid, TARGET, i);
      NothingSet(i);
      if diff < 32 {
        HasLower(b, diff, i);
        HasBound(b, i + diff);
      }
      if i + diff < WIN {
        assert w.first + (i + diff) == w.first + diff + i;
      }
    }
  }

  lemma HasBound(b: bv32, i: nat)
    ensures Has(b, i) ==> i < 32
  {
  }
}
