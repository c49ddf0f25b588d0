/**
  The key schedule of des.c against that of FIPS 46-3, DES under a key, and which keys have the
  same schedule.
 */
module DesKeyRefines {
  import opened Words
  import opened DesStandard
  import opened DesRefines
  import D = Des
  import T = DesTables
  import S = DesStandardTables

  /** The 64 bits of a key, from the left. */
  function KeyBitsOf(key: seq<byte>): (b: Bits)
    requires |key| == 8
    ensures |b| == 64
  {
    seq(64, n requires 0 <= n < 64 => D.KeyBit(key, n))
  }

  /** Bit m of a byte, from the left, is its place 7 - m from the right. */
  lemma ByteBitIsShift(m: nat)
    requires m < 8
    ensures D.ByteBit(m) == 1 << (7 - m)
  {
  }

  /** pc1 is PC-1 and pc2 is PC-2. */
  lemma TablesAgree(j: nat)
    ensures j < 28 ==> T.Pc1(j) == S.PcC(j)
    ensures 28 <= j < 56 ==> T.Pc1(j) == S.PcD(j - 28)
    ensures j < 48 ==> T.Pc2(j) == S.PcK(j)
  {
  }

  /** PC-1 in closed form: columns of the key from the bottom up, without the parity bits. */
  lemma Pc1Closed(j: nat)
    requires j < 56
    ensures T.Pc1(j) == if j < 28 then 57 - 8 * (j % 8) + j / 8
                        else if j < 52 then 63 - 8 * ((j - 28) % 8) - (j - 28) / 8
                        else 28 - 8 * (j - 52)
  {
  }

  /** Both halves of the standard, behind each other. */
  function Joined(h: Halves): Bits { h.l + h.r }

  lemma ChosenIsStandard(key: seq<byte>)
    requires |key| == 8
    ensures D.Chosen(key) == Joined(ChosenHalves(KeyBitsOf(key)))
  {
    hide T.Pc1, S.PcC, S.PcD, D.KeyBit;
    forall j | 0 <= j < 56
      ensures D.Chosen(key)[j] == Joined(ChosenHalves(KeyBitsOf(key)))[j]
    {
      TablesAgree(j);
    }
  }

  lemma RotatedIsTurned(h: Halves, n: nat)
    requires |h.l| == |h.r| == 28 && n <= 28
    ensures D.RotateHalves(Joined(h), n) == Joined(Halves(TurnLeft(h.l, n), TurnLeft(h.r, n)))
  {
    var a, b := D.RotateHalves(Joined(h), n), Joined(Halves(TurnLeft(h.l, n), TurnLeft(h.r, n)));
    forall j | 0 <= j < 56
      ensures a[j] == b[j]
    {
    }
  }

  lemma {:induction false} HalvesAreStandard(key: seq<byte>, i: nat)
    requires |key| == 8 && i < 16
    ensures D.Halves(key, i) == Joined(KeyHalves(KeyBitsOf(key), i + 1))
  {
    hide ChosenHalves, D.Chosen, KeyBitsOf, D.RotateHalves, Joined, TurnLeft;
    var h := KeyHalves(KeyBitsOf(key), i);
    if i == 0 {
      ChosenIsStandard(key);
    } else {
      HalvesAreStandard(key, i - 1);
    }
    RotatedIsTurned(h, S.LeftShifts(i + 1));
  }

  /** The bits deskey picks in round i are K_{i+1}. */
  lemma SelectedIsRoundKey(key: seq<byte>, i: nat)
    requires |key| == 8 && i < 16
    ensures D.Selected(key, i) == RoundKey(KeyBitsOf(key), i + 1)
  {
    hide T.Pc2, S.PcK, D.Halves, KeyHalves;
    HalvesAreStandard(key, i);
    forall j | 0 <= j < 48
      ensures D.Selected(key, i)[j] == RoundKey(KeyBitsOf(key), i + 1)[j]
    {
      TablesAgree(j);
    }
  }

  /** The schedule deskey writes is the key schedule of the standard, packed into chunks. */
  lemma ScheduleIsStandard(key: seq<byte>)
    requires |key| == 8
    ensures D.Schedule(key) == Packed(StandardKeys(KeyBitsOf(key)))
  {
    hide D.Selected, RoundKey, D.SubKeyOf;
    forall i | 0 <= i < 16
      ensures D.Selected(key, i) == StandardKeys(KeyBitsOf(key))[i]
    {
      SelectedIsRoundKey(key, i);
    }
  }

  /** Under the schedule of a key des is DES under that key. */
  lemma DesOfKey(key: seq<byte>, p: D.Pair)
    requires |key| == 8
    ensures PairBits(D.Crypt(D.Schedule(key), p)) == StandardDes(PairBits(p), StandardKeys(KeyBitsOf(key)))
  {
    hide D.Crypt, D.Schedule, StandardDes, StandardKeys, PairBits;
    ScheduleIsStandard(key);
    DesIsStandard(StandardKeys(KeyBitsOf(key)), p);
  }

  // ----- which keys have the same schedule -----

  /** The eight places of C and D that PC-2 leaves out. */
  predicate Omitted(q: nat) { q == 8 || q == 17 || q == 21 || q == 24 || q == 34 || q == 37 || q == 42 || q == 53 }

  /** Where PC-2 puts place q. */
  function Place(k: nat): (r: nat)
    requires k < 56
    ensures r < 48
  {
    (if k < 28 then
     (if k < 16 then
      (if k < 8 then
       (if k < 4 then
        (if k == 0 then 4 else if k == 1 then 23 else if k == 2 then 6 else 15)
       else
        (if k == 4 then 5 else if k == 5 then 9 else if k == 6 then 19 else 17))
      else
       (if k < 12 then
        (if k == 8 then 0 else if k == 9 then 11 else if k == 10 then 2 else 14)
       else
        (if k == 12 then 22 else if k == 13 then 0 else if k == 14 then 8 else 18)))
     else
      (if k < 24 then
       (if k < 20 then
        (if k == 16 then 1 else if k == 17 then 0 else if k == 18 then 13 else 21)
       else
        (if k == 20 then 10 else if k == 21 then 0 else if k == 22 then 12 else 3))
      else
       (if k == 24 then 0 else if k == 25 then 16 else if k == 26 then 20 else 7)))
    else
     (if k < 44 then
      (if k < 36 then
       (if k < 32 then
        (if k == 28 then 46 else if k == 29 then 30 else if k == 30 then 26 else 47)
       else
        (if k == 32 then 34 else if k == 33 then 40 else if k == 34 then 0 else 45))
      else
       (if k < 40 then
        (if k == 36 then 27 else if k == 37 then 0 else if k == 38 then 38 else 31)
       else
        (if k == 40 then 24 else if k == 41 then 43 else if k == 42 then 0 else 36)))
     else
      (if k < 52 then
       (if k < 48 then
        (if k == 44 then 33 else if k == 45 then 42 else if k == 46 then 28 else 35)
       else
        (if k == 48 then 37 else if k == 49 then 44 else if k == 50 then 32 else 25))
      else
       (if k == 52 then 41 else if k == 53 then 0 else if k == 54 then 29 else 39))))
  }

  lemma PlaceFound(q: nat)
    requires q < 56 && !Omitted(q)
    ensures T.Pc2(Place(q)) - 1 == q
  {
  }

  /** Where PC-1 takes up key bit n, which is no parity bit. */
  function Taken(n: nat): (j: nat)
    requires n < 64 && n % 8 != 7
    ensures j < 56
  {
    var row, column := n / 8, n % 8;
    if column < 3 || (column == 3 && row >= 4) then 8 * column + 7 - row
    else if column == 3 then 55 - row
    else 28 + 8 * (6 - column) + 7 - row
  }

  lemma TakenFound(n: nat)
    requires n < 64 && n % 8 != 7
    ensures T.Pc1(Taken(n)) - 1 == n
  {
    hide T.Pc1;
    var row, column := n / 8, n % 8;
    Digits(column, 7 - row);
    Digits(6 - column, 7 - row);
    Pc1Closed(Taken(n));
  }

  lemma Digits(c: nat, r: nat)
    requires r < 8
    ensures (8 * c + r) / 8 == c && (8 * c + r) % 8 == r
  {
  }

  lemma NoParityTaken(j: nat)
    requires j < 56
    ensures (T.Pc1(j) - 1) % 8 != 7
  {
    hide T.Pc1;
    Pc1Closed(j);
    if j < 28 {
      Digits(7 - j % 8, j / 8);
    } else if j < 52 {
      Digits(7 - (j - 28) % 8, 6 - (j - 28) / 8);
    } else {
      Digits(55 - j, 3);
    }
  }

  /** Two keys agree in all bits but the parity bits. */
  ghost predicate SameButParity(key: seq<byte>, key': seq<byte>)
    requires |key| == |key'| == 8
  {
    forall n: nat :: n < 64 && n % 8 != 7 ==> D.KeyBit(key, n) == D.KeyBit(key', n)
  }

  lemma SameChosen(key: seq<byte>, key': seq<byte>)
    requires |key| == |key'| == 8
    ensures D.Chosen(key) == D.Chosen(key') <==> SameButParity(key, key')
  {
    hide T.Pc1, D.KeyBit;
    if SameButParity(key, key') {
      forall j | 0 <= j < 56
        ensures D.Chosen(key)[j] == D.Chosen(key')[j]
      {
        NoParityTaken(j);
      }
    }
    if D.Chosen(key) == D.Chosen(key') {
      forall n: nat | n < 64 && n % 8 != 7
        ensures D.KeyBit(key, n) == D.KeyBit(key', n)
      {
        TakenFound(n);
        assert D.Chosen(key)[Taken(n)] == D.Chosen(key')[Taken(n)];
      }
    }
  }

  // ----- the packing of a round key -----

  lemma SixInjective(a0: bool, a1: bool, a2: bool, a3: bool, a4: bool, a5: bool,
                     b0: bool, b1: bool, b2: bool, b3: bool, b4: bool, b5: bool)
    requires Six(a0, a1, a2, a3, a4, a5) == Six(b0, b1, b2, b3, b4, b5)
    ensures a0 == b0 && a1 == b1 && a2 == b2 && a3 == b3 && a4 == b4 && a5 == b5
  {
  }

  lemma SameChunk(b: seq<bool>, b': seq<bool>, c: nat)
    requires |b| == |b'| == 48 && c < 8 && D.Chunk(b, c, 6) == D.Chunk(b', c, 6)
    ensures b[6 * c] == b'[6 * c] && b[6 * c + 1] == b'[6 * c + 1] && b[6 * c + 2] == b'[6 * c + 2]
    ensures b[6 * c + 3] == b'[6 * c + 3] && b[6 * c + 4] == b'[6 * c + 4] && b[6 * c + 5] == b'[6 * c + 5]
  {
    hide D.Chunk, Six, Mask6;
    ChunkIsSix(b, c);
    ChunkIsSix(b', c);
    SixInjective(b[6 * c], b[6 * c + 1], b[6 * c + 2], b[6 * c + 3], b[6 * c + 4], b[6 * c + 5],
                 b'[6 * c], b'[6 * c + 1], b'[6 * c + 2], b'[6 * c + 3], b'[6 * c + 4], b'[6 * c + 5]);
  }

  lemma PackInjective(a: byte, b: byte, c: byte, d: byte, a': byte, b': byte, c': byte, d': byte)
    requires Pack(a, b, c, d) == Pack(a', b', c', d')
    ensures a == a' && b == b' && c == c' && d == d'
  {
    hide Pack, B0, B1, B2, B3;
    PackBytes(a, b, c, d);
    PackBytes(a', b', c', d');
  }

  lemma SameSubKey(b: seq<bool>, b': seq<bool>)
    requires |b| == |b'| == 48 && D.SubKeyOf(b) == D.SubKeyOf(b')
    ensures b == b'
  {
    hide D.Chunk, Pack;
    PackInjective(D.Chunk(b, 0, 6), D.Chunk(b, 2, 6), D.Chunk(b, 4, 6), D.Chunk(b, 6, 6),
                  D.Chunk(b', 0, 6), D.Chunk(b', 2, 6), D.Chunk(b', 4, 6), D.Chunk(b', 6, 6));
    PackInjective(D.Chunk(b, 1, 6), D.Chunk(b, 3, 6), D.Chunk(b, 5, 6), D.Chunk(b, 7, 6),
                  D.Chunk(b', 1, 6), D.Chunk(b', 3, 6), D.Chunk(b', 5, 6), D.Chunk(b', 7, 6));
    forall j | 0 <= j < 48
      ensures b[j] == b'[j]
    {
      var c := j / 6;
      assert c == 0 || c == 1 || c == 2 || c == 3 || c == 4 || c == 5 || c == 6 || c == 7;
      SameChunk(b, b', c);
      assert j == 6 * c || j == 6 * c + 1 || j == 6 * c + 2 || j == 6 * c + 3 || j == 6 * c + 4 || j == 6 * c + 5;
    }
  }

  // ----- from the first two round keys back to the key -----

  /** Place m of C_0 or D_0 after a rotation by n. */
  function Before(m: nat, n: nat): (q: nat)
    requires m < 56 && n <= 28
    ensures q < 56
  {
    if m < 28 then (m + 28 - n) % 28 else 28 + (m - n) % 28
  }

  lemma BeforeFound(b: seq<bool>, m: nat, n: nat)
    requires |b| == 56 && m < 56 && 1 <= n <= 2
    ensures D.RotateHalves(b, n)[Before(m, n)] == b[m]
  {
  }

  /** PC-2 never leaves out two neighbours. */
  lemma OneOfTwo(m: nat)
    requires m < 56
    ensures !Omitted(Before(m, 1)) || !Omitted(Before(m, 2))
  {
  }

  lemma BitFromRound(key: seq<byte>, key': seq<byte>, i: nat, m: nat)
    requires |key| == |key'| == 8 && i < 2 && m < 56 && D.Selected(key, i) == D.Selected(key', i)
    requires !Omitted(Before(m, i + 1))
    ensures D.Chosen(key)[m] == D.Chosen(key')[m]
  {
    hide T.Pc2, D.Chosen, D.Halves, D.RotateHalves, Place, Before;
    var q := Before(m, i + 1);
    PlaceFound(q);
    D.HalvesByTotal(key, i);
    D.HalvesByTotal(key', i);
    BeforeFound(D.Chosen(key), m, i + 1);
    BeforeFound(D.Chosen(key'), m, i + 1);
    assert D.Selected(key, i)[Place(q)] == D.Halves(key, i)[q];
    assert D.Selected(key', i)[Place(q)] == D.Halves(key', i)[q];
  }

  /** Two keys have the same schedule exactly when they agree outside their parity bits. */
  lemma SameSchedule(key: seq<byte>, key': seq<byte>)
    requires |key| == |key'| == 8
    ensures D.Schedule(key) == D.Schedule(key') <==> SameButParity(key, key')
  {
    hide D.Chosen, D.Selected, D.SubKeyOf, SameButParity, Before, Omitted;
    SameChosen(key, key');
    if D.Chosen(key) == D.Chosen(key') {
      forall i | 0 <= i < 16
        ensures D.Selected(key, i) == D.Selected(key', i)
      {
        SameRound(key, key', i);
      }
    }
    if D.Schedule(key) == D.Schedule(key') {
      assert D.Schedule(key)[0] == D.Schedule(key')[0] && D.Schedule(key)[1] == D.Schedule(key')[1];
      SameSubKey(D.Selected(key, 0), D.Selected(key', 0));
      SameSubKey(D.Selected(key, 1), D.Selected(key', 1));
      forall m | 0 <= m < 56
        ensures D.Chosen(key)[m] == D.Chosen(key')[m]
      {
        OneOfTwo(m);
        BitFromRound(key, key', if Omitted(Before(m, 1)) then 1 else 0, m);
      }
    }
  }

  lemma SameRound(key: seq<byte>, key': seq<byte>, i: nat)
    requires |key| == |key'| == 8 && i < 16 && D.Chosen(key) == D.Chosen(key')
    ensures D.Selected(key, i) == D.Selected(key', i)
  {
    hide D.Chosen, D.Halves, D.RotateHalves, T.Pc2;
    D.HalvesByTotal(key, i);
    D.HalvesByTotal(key', i);
  }
}
