/**
  The AES round transformations, key expansion and cipher on a state of four columns of bytes,
  in the terms of section 5 of FIPS 197, and the theorem that its two ciphers undo each other.
 */
module AesSpec {
  import opened Words
  import opened GaloisField
  import opened SBox

  /** One column of the state, row 0 first. */
  datatype Column = Column(r0: byte, r1: byte, r2: byte, r3: byte)

  datatype State = State(c0: Column, c1: Column, c2: Column, c3: Column)

  function AddColumn(v: Column, w: Column): Column {
    Column(Add(v.r0, w.r0), Add(v.r1, w.r1), Add(v.r2, w.r2), Add(v.r3, w.r3))
  }

  function AddRoundKey(s: State, k: State): State {
    State(AddColumn(s.c0, k.c0), AddColumn(s.c1, k.c1), AddColumn(s.c2, k.c2), AddColumn(s.c3, k.c3))
  }

  function SubColumn(c: Column): Column { Column(S(c.r0), S(c.r1), S(c.r2), S(c.r3)) }

  function InvSubColumn(c: Column): Column { Column(Si(c.r0), Si(c.r1), Si(c.r2), Si(c.r3)) }

  function SubBytes(s: State): State {
    State(SubColumn(s.c0), SubColumn(s.c1), SubColumn(s.c2), SubColumn(s.c3))
  }

  function InvSubBytes(s: State): State {
    State(InvSubColumn(s.c0), InvSubColumn(s.c1), InvSubColumn(s.c2), InvSubColumn(s.c3))
  }

  function Diagonal(a: Column, b: Column, c: Column, d: Column): Column {
    Column(a.r0, b.r1, c.r2, d.r3)
  }

  function ShiftRows(s: State): State {
    State(Diagonal(s.c0, s.c1, s.c2, s.c3), Diagonal(s.c1, s.c2, s.c3, s.c0),
          Diagonal(s.c2, s.c3, s.c0, s.c1), Diagonal(s.c3, s.c0, s.c1, s.c2))
  }

  function InvShiftRows(s: State): State {
    State(Diagonal(s.c0, s.c3, s.c2, s.c1), Diagonal(s.c1, s.c0, s.c3, s.c2),
          Diagonal(s.c2, s.c1, s.c0, s.c3), Diagonal(s.c3, s.c2, s.c1, s.c0))
  }

  function MixColumn(w: Column): Column {
    var Column(a, b, c, d) := w;
    Column(Add4(Xtime(a), Mul3(b), c, d), Add4(a, Xtime(b), Mul3(c), d),
           Add4(a, b, Xtime(c), Mul3(d)), Add4(Mul3(a), b, c, Xtime(d)))
  }

  function InvMixColumn(w: Column): Column {
    var Column(a, b, c, d) := w;
    Column(Add4(MulE(a), MulB(b), MulD(c), Mul9(d)), Add4(Mul9(a), MulE(b), MulB(c), MulD(d)),
           Add4(MulD(a), Mul9(b), MulE(c), MulB(d)), Add4(MulB(a), MulD(b), Mul9(c), MulE(d)))
  }

  function MixColumns(s: State): State {
    State(MixColumn(s.c0), MixColumn(s.c1), MixColumn(s.c2), MixColumn(s.c3))
  }

  function InvMixColumns(s: State): State {
    State(InvMixColumn(s.c0), InvMixColumn(s.c1), InvMixColumn(s.c2), InvMixColumn(s.c3))
  }

  lemma RotatedRows(w: Column)
    ensures var Column(a, b, c, d) := w;
            MixColumn(w) == Column(MixColumn(w).r0, MixColumn(Column(b, c, d, a)).r0,
                                   MixColumn(Column(c, d, a, b)).r0, MixColumn(Column(d, a, b, c)).r0)
    ensures var Column(a, b, c, d) := w;
            InvMixColumn(w) == Column(InvMixColumn(w).r0, InvMixColumn(Column(b, c, d, a)).r0,
                                      InvMixColumn(Column(c, d, a, b)).r0, InvMixColumn(Column(d, a, b, c)).r0)
  {
    var Column(a, b, c, d) := w;
    AddRotate(a, Xtime(b), Mul3(c), d);
    AddRotate(a, b, Xtime(c), Mul3(d));
    AddRotate(b, Xtime(c), Mul3(d), a);
    AddRotate(Mul3(a), b, c, Xtime(d));
    AddRotate(b, c, Xtime(d), Mul3(a));
    AddRotate(c, Xtime(d), Mul3(a), b);
    AddRotate(Mul9(a), MulE(b), MulB(c), MulD(d));
    AddRotate(MulD(a), Mul9(b), MulE(c), MulB(d));
    AddRotate(Mul9(b), MulE(c), MulB(d), MulD(a));
    AddRotate(MulB(a), MulD(b), Mul9(c), MulE(d));
    AddRotate(MulD(b), Mul9(c), MulE(d), MulB(a));
    AddRotate(Mul9(c), MulE(d), MulB(a), MulD(b));
  }

  /** Rotating a column rotates its image. */
  lemma MixRotates(w: Column)
    ensures var m, m' := MixColumn(w), MixColumn(Column(w.r1, w.r2, w.r3, w.r0));
            m' == Column(m.r1, m.r2, m.r3, m.r0)
    ensures var m, m' := InvMixColumn(w), InvMixColumn(Column(w.r1, w.r2, w.r3, w.r0));
            m' == Column(m.r1, m.r2, m.r3, m.r0)
  {
    RotatedRows(w);
    RotatedRows(Column(w.r1, w.r2, w.r3, w.r0));
  }

  lemma InvMixUndoesMixRow0(w: Column)
    ensures InvMixColumn(MixColumn(w)).r0 == w.r0
    ensures MixColumn(InvMixColumn(w)).r0 == w.r0
  {
    InverseOfMixRow(w.r0, w.r1, w.r2, w.r3);
    MixOfInverseRow(w.r0, w.r1, w.r2, w.r3);
  }

  lemma MixColumnInverse(w: Column)
    ensures InvMixColumn(MixColumn(w)) == w
    ensures MixColumn(InvMixColumn(w)) == w
  {
    var w1 := Column(w.r1, w.r2, w.r3, w.r0);
    var w2 := Column(w1.r1, w1.r2, w1.r3, w1.r0);
    var w3 := Column(w2.r1, w2.r2, w2.r3, w2.r0);
    MixRotates(w); MixRotates(w1); MixRotates(w2);
    MixRotates(MixColumn(w)); MixRotates(MixColumn(w1)); MixRotates(MixColumn(w2));
    MixRotates(InvMixColumn(w)); MixRotates(InvMixColumn(w1)); MixRotates(InvMixColumn(w2));
    InvMixUndoesMixRow0(w); InvMixUndoesMixRow0(w1); InvMixUndoesMixRow0(w2); InvMixUndoesMixRow0(w3);
  }

  lemma InvMixColumnAdds(v: Column, w: Column)
    ensures InvMixColumn(AddColumn(v, w)) == AddColumn(InvMixColumn(v), InvMixColumn(w))
  {
    MulsAdd(v.r0, w.r0); MulsAdd(v.r1, w.r1); MulsAdd(v.r2, w.r2); MulsAdd(v.r3, w.r3);
    Add4Pairs(MulE(v.r0), MulB(v.r1), MulD(v.r2), Mul9(v.r3), MulE(w.r0), MulB(w.r1), MulD(w.r2), Mul9(w.r3));
    Add4Pairs(Mul9(v.r0), MulE(v.r1), MulB(v.r2), MulD(v.r3), Mul9(w.r0), MulE(w.r1), MulB(w.r2), MulD(w.r3));
    Add4Pairs(MulD(v.r0), Mul9(v.r1), MulE(v.r2), MulB(v.r3), MulD(w.r0), Mul9(w.r1), MulE(w.r2), MulB(w.r3));
    Add4Pairs(MulB(v.r0), MulD(v.r1), Mul9(v.r2), MulE(v.r3), MulB(w.r0), MulD(w.r1), Mul9(w.r2), MulE(w.r3));
  }

  // ----- the ciphers -----

  function SubShift(s: State): State { ShiftRows(SubBytes(s)) }

  function InvSubShift(s: State): State { InvShiftRows(InvSubBytes(s)) }

  function Round(s: State, k: State): State { AddRoundKey(MixColumns(SubShift(s)), k) }

  function InvRound(s: State, k: State): State { AddRoundKey(InvMixColumns(InvSubShift(s)), k) }

  function LastRound(s: State, k: State): State { AddRoundKey(SubShift(s), k) }

  function InvLastRound(s: State, k: State): State { AddRoundKey(InvSubShift(s), k) }

  /** The state after the initial key addition and r full rounds (section 5.1). */
  function Rounds(keys: seq<State>, r: nat, s: State): State
    requires r < |keys|
  {
    if r == 0 then AddRoundKey(s, keys[0]) else Round(Rounds(keys, r - 1, s), keys[r])
  }

  /** The cipher of section 5.1: the last round has no MixColumns. */
  function Cipher(keys: seq<State>, s: State): State
    requires |keys| >= 2
  {
    var nr := |keys| - 1;
    LastRound(Rounds(keys, nr - 1, s), keys[nr])
  }

  /** The state after r full rounds of the equivalent inverse cipher (section 5.3.5). */
  function InvRounds(keys: seq<State>, r: nat, s: State): State
    requires r < |keys|
  {
    if r == 0 then AddRoundKey(s, keys[0]) else InvRound(InvRounds(keys, r - 1, s), keys[r])
  }

  function EqInvCipher(keys: seq<State>, s: State): State
    requires |keys| >= 2
  {
    var nr := |keys| - 1;
    InvLastRound(InvRounds(keys, nr - 1, s), keys[nr])
  }

  /** The decryption schedule: reversed, with InvMixColumns on every key but the outer two. */
  function DecryptionKeys(keys: seq<State>): (d: seq<State>)
    ensures |d| == |keys|
  {
    var nr := |keys| - 1;
    seq(|keys|, r requires 0 <= r < |keys| =>
      if r == 0 || r == nr then keys[nr - r] else InvMixColumns(keys[nr - r]))
  }

  // ----- the transformations undo each other -----

  lemma AddTwice(x: byte, k: byte)
    ensures Add(Add(x, k), k) == x
  {
  }

  lemma AddColumnTwice(c: Column, k: Column)
    ensures AddColumn(AddColumn(c, k), k) == c
  {
    AddTwice(c.r0, k.r0);
    AddTwice(c.r1, k.r1);
    AddTwice(c.r2, k.r2);
    AddTwice(c.r3, k.r3);
  }

  lemma AddRoundKeyTwice(s: State, k: State)
    ensures AddRoundKey(AddRoundKey(s, k), k) == s
  {
    AddColumnTwice(s.c0, k.c0);
    AddColumnTwice(s.c1, k.c1);
    AddColumnTwice(s.c2, k.c2);
    AddColumnTwice(s.c3, k.c3);
  }

  lemma SubColumnInverse(c: Column)
    ensures InvSubColumn(SubColumn(c)) == c
    ensures SubColumn(InvSubColumn(c)) == c
  {
    SboxInverse(c.r0);
    SboxInverse(c.r1);
    SboxInverse(c.r2);
    SboxInverse(c.r3);
  }

  lemma SubBytesInverse(s: State)
    ensures InvSubBytes(SubBytes(s)) == s
    ensures SubBytes(InvSubBytes(s)) == s
  {
    SubColumnInverse(s.c0);
    SubColumnInverse(s.c1);
    SubColumnInverse(s.c2);
    SubColumnInverse(s.c3);
  }

  lemma ShiftRowsInverse(s: State)
    ensures InvShiftRows(ShiftRows(s)) == s
    ensures ShiftRows(InvShiftRows(s)) == s
  {
  }

  /** Substitution works byte by byte, so it commutes with moving the bytes. */
  lemma SubShiftCommute(s: State)
    ensures InvShiftRows(InvSubBytes(s)) == InvSubBytes(InvShiftRows(s))
  {
  }

  lemma SubShiftInverse(s: State)
    ensures InvSubShift(SubShift(s)) == s
    ensures SubShift(InvSubShift(s)) == s
  {
    SubShiftCommute(ShiftRows(SubBytes(s)));
    ShiftRowsInverse(SubBytes(s));
    SubBytesInverse(s);
    SubShiftCommute(s);
    SubBytesInverse(InvShiftRows(s));
    ShiftRowsInverse(s);
  }

  lemma MixColumnsInverse(s: State)
    ensures InvMixColumns(MixColumns(s)) == s
    ensures MixColumns(InvMixColumns(s)) == s
  {
    MixColumnInverse(s.c0);
    MixColumnInverse(s.c1);
    MixColumnInverse(s.c2);
    MixColumnInverse(s.c3);
  }

  lemma InvMixColumnsAdds(s: State, k: State)
    ensures InvMixColumns(AddRoundKey(s, k)) == AddRoundKey(InvMixColumns(s), InvMixColumns(k))
  {
    InvMixColumnAdds(s.c0, k.c0);
    InvMixColumnAdds(s.c1, k.c1);
    InvMixColumnAdds(s.c2, k.c2);
    InvMixColumnAdds(s.c3, k.c3);
  }

  /** A full round and the inverse round under the mixed key cancel, up to SubBytes and ShiftRows. */
  lemma RoundInverse(s: State, k: State)
    ensures InvRound(SubShift(Round(s, k)), InvMixColumns(k)) == SubShift(s)
    ensures Round(InvSubShift(InvRound(s, InvMixColumns(k))), k) == InvSubShift(s)
  {
    hide AddRoundKey, MixColumns, InvMixColumns, SubShift, InvSubShift;
    var mixed := MixColumns(SubShift(s));
    SubShiftInverse(Round(s, k));
    InvMixColumnsAdds(mixed, k);
    AddRoundKeyTwice(InvMixColumns(mixed), InvMixColumns(k));
    MixColumnsInverse(SubShift(s));
    var unmixed := InvSubShift(s);
    SubShiftInverse(InvRound(s, InvMixColumns(k)));
    InvMixColumnsAdds(unmixed, k);
    MixColumnsInverse(AddRoundKey(unmixed, k));
    AddRoundKeyTwice(unmixed, k);
  }

  lemma LastRoundInverse(s: State, k: State)
    ensures AddRoundKey(LastRound(s, k), k) == SubShift(s)
    ensures AddRoundKey(InvLastRound(s, k), k) == InvSubShift(s)
    ensures InvLastRound(SubShift(AddRoundKey(s, k)), k) == s
    ensures LastRound(InvSubShift(AddRoundKey(s, k)), k) == s
  {
    hide AddRoundKey, SubShift, InvSubShift;
    AddRoundKeyTwice(SubShift(s), k);
    AddRoundKeyTwice(InvSubShift(s), k);
    SubShiftInverse(AddRoundKey(s, k));
    AddRoundKeyTwice(s, k);
  }

  // ----- the round-by-round invariants -----

  /** r inverse rounds on a ciphertext leave the substituted and shifted state of round nr-1-r. */
  lemma {:induction false} InvRoundsOfCipher(keys: seq<State>, r: nat, s: State)
    requires |keys| >= 2 && r <= |keys| - 2
    ensures InvRounds(DecryptionKeys(keys), r, Cipher(keys, s)) == SubShift(Rounds(keys, |keys| - 2 - r, s))
  {
    hide Round, InvRound, LastRound, InvLastRound, AddRoundKey, InvMixColumns, SubShift, InvSubShift;
    var nr := |keys| - 1;
    if r == 0 {
      LastRoundInverse(Rounds(keys, nr - 1, s), keys[nr]);
    } else {
      InvRoundsOfCipher(keys, r - 1, s);
      RoundInverse(Rounds(keys, nr - 1 - r, s), keys[nr - r]);
    }
  }

  /** r rounds on a decrypted block retrace the inverse rounds backwards. */
  lemma {:induction false} RoundsOfInverse(keys: seq<State>, r: nat, s: State)
    requires |keys| >= 2 && r <= |keys| - 2
    ensures var d := DecryptionKeys(keys);
            Rounds(keys, r, EqInvCipher(d, s)) == InvSubShift(InvRounds(d, |keys| - 2 - r, s))
  {
    hide Round, InvRound, LastRound, InvLastRound, AddRoundKey, InvMixColumns, SubShift, InvSubShift;
    var nr := |keys| - 1;
    var d := DecryptionKeys(keys);
    if r == 0 {
      LastRoundInverse(InvRounds(d, nr - 1, s), keys[0]);
    } else {
      RoundsOfInverse(keys, r - 1, s);
      RoundInverse(InvRounds(d, nr - 1 - r, s), keys[r]);
    }
  }

  /** For every round-key sequence the two ciphers are two-sided inverses of each other. */
  lemma CipherInverse(keys: seq<State>, s: State)
    requires |keys| >= 2
    ensures EqInvCipher(DecryptionKeys(keys), Cipher(keys, s)) == s
    ensures Cipher(keys, EqInvCipher(DecryptionKeys(keys), s)) == s
  {
    hide Round, InvRound, LastRound, InvLastRound, AddRoundKey, InvMixColumns, SubShift, InvSubShift;
    var nr := |keys| - 1;
    InvRoundsOfCipher(keys, nr - 1, s);
    LastRoundInverse(s, keys[0]);
    RoundsOfInverse(keys, nr - 1, s);
    LastRoundInverse(s, keys[nr]);
  }
}
