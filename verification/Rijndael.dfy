/**
  The table-driven cipher of rijndael-alg-fst.c (the looped form), its two key set-ups, and
  the proof that it computes the ciphers of AesSpec.
 */
module Rijndael {
  import opened Words
  import opened GaloisField
  import opened SBox
  import opened AesSpec

  // ----- tables, by the equations that head the source file -----

  function Te0(x: byte): word { var s := S(x); Pack(Xtime(s), s, s, Mul3(s)) }
  function Te1(x: byte): word { var s := S(x); Pack(Mul3(s), Xtime(s), s, s) }
  function Te2(x: byte): word { var s := S(x); Pack(s, Mul3(s), Xtime(s), s) }
  function Te3(x: byte): word { var s := S(x); Pack(s, s, Mul3(s), Xtime(s)) }
  function Te4(x: byte): word { var s := S(x); Pack(s, s, s, s) }
  function Td0(x: byte): word { var s := Si(x); Pack(MulE(s), Mul9(s), MulD(s), MulB(s)) }
  function Td1(x: byte): word { var s := Si(x); Pack(MulB(s), MulE(s), Mul9(s), MulD(s)) }
  function Td2(x: byte): word { var s := Si(x); Pack(MulD(s), MulB(s), MulE(s), Mul9(s)) }
  function Td3(x: byte): word { var s := Si(x); Pack(Mul9(s), MulD(s), MulB(s), MulE(s)) }
  function Td4(x: byte): word { var s := Si(x); Pack(s, s, s, s) }

  // ----- words as columns -----

  function Col(w: word): Column { Column(B0(w), B1(w), B2(w), B3(w)) }

  lemma ColPack(b0: byte, b1: byte, b2: byte, b3: byte)
    ensures Col(Pack(b0, b1, b2, b3)) == Column(b0, b1, b2, b3)
  {
  }

  lemma ColInjective(v: word, w: word)
    requires Col(v) == Col(w)
    ensures v == w
  {
    SameBytes(v, w);
  }

  lemma ColXor(v: word, w: word)
    ensures Col(Xor32(v, w)) == AddColumn(Col(v), Col(w))
  {
  }

  lemma AddAssoc(a: byte, b: byte, c: byte)
    ensures Add(Add(a, b), c) == Add(a, Add(b, c))
  {
    assert Add(Add(a, b), c) == Add(a ^ b, c) == (a ^ b) ^ c;
    assert Add(a, Add(b, c)) == Add(a, b ^ c) == a ^ (b ^ c);
  }

  lemma AddColumnAssoc(x: Column, y: Column, z: Column)
    ensures AddColumn(AddColumn(x, y), z) == AddColumn(x, AddColumn(y, z))
  {
    AddAssoc(x.r0, y.r0, z.r0);
    AddAssoc(x.r1, y.r1, z.r1);
    AddAssoc(x.r2, y.r2, z.r2);
    AddAssoc(x.r3, y.r3, z.r3);
  }

  // ----- one word of a table round -----

  /** The five-term sums in which every table round is written. */
  function Sum5(a: word, b: word, c: word, d: word, k: word): word {
    Xor32(Xor32(Xor32(Xor32(a, b), c), d), k)
  }

  lemma ColSum5(a: word, b: word, c: word, d: word, k: word)
    ensures Col(Sum5(a, b, c, d, k))
         == AddColumn(AddColumn(AddColumn(Col(a), Col(b)), AddColumn(Col(c), Col(d))), Col(k))
  {
    hide Col, AddColumn, Xor32;
    ColXor(Xor32(Xor32(Xor32(a, b), c), d), k);
    ColXor(Xor32(Xor32(a, b), c), d);
    ColXor(Xor32(a, b), c);
    ColXor(a, b);
    AddColumnAssoc(AddColumn(Col(a), Col(b)), Col(c), Col(d));
  }

  /** The masks of the last rounds keep one byte lane of a table entry. */
  function Lane0(w: word): word { w & 0xff000000 }
  function Lane1(w: word): word { w & 0x00ff0000 }
  function Lane2(w: word): word { w & 0x0000ff00 }
  function Lane3(w: word): word { w & 0x000000ff }

  /** One word of an encryption round, from the four words its bytes are picked out of. */
  function EncWord(a: word, b: word, c: word, d: word, k: word): word {
    Sum5(Te0(B0(a)), Te1(B1(b)), Te2(B2(c)), Te3(B3(d)), k)
  }

  function DecWord(a: word, b: word, c: word, d: word, k: word): word {
    Sum5(Td0(B0(a)), Td1(B1(b)), Td2(B2(c)), Td3(B3(d)), k)
  }

  function EncLastWord(a: word, b: word, c: word, d: word, k: word): word {
    Sum5(Lane0(Te4(B0(a))), Lane1(Te4(B1(b))), Lane2(Te4(B2(c))), Lane3(Te4(B3(d))), k)
  }

  function DecLastWord(a: word, b: word, c: word, d: word, k: word): word {
    Sum5(Lane0(Td4(B0(a))), Lane1(Td4(B1(b))), Lane2(Td4(B2(c))), Lane3(Td4(B3(d))), k)
  }

  lemma EncWordIsMixColumn(a: word, b: word, c: word, d: word, k: word)
    ensures Col(EncWord(a, b, c, d, k))
         == AddColumn(MixColumn(SubColumn(Diagonal(Col(a), Col(b), Col(c), Col(d)))), Col(k))
  {
    hide Pack, B0, B1, B2, B3, S, Sum5, Xtime, Add;
    var s0, s1, s2, s3 := S(B0(a)), S(B1(b)), S(B2(c)), S(B3(d));
    ColSum5(Te0(B0(a)), Te1(B1(b)), Te2(B2(c)), Te3(B3(d)), k);
    ColPack(Xtime(s0), s0, s0, Mul3(s0));
    ColPack(Mul3(s1), Xtime(s1), s1, s1);
    ColPack(s2, Mul3(s2), Xtime(s2), s2);
    ColPack(s3, s3, Mul3(s3), Xtime(s3));
  }

  lemma DecWordIsInvMixColumn(a: word, b: word, c: word, d: word, k: word)
    ensures Col(DecWord(a, b, c, d, k))
         == AddColumn(InvMixColumn(InvSubColumn(Diagonal(Col(a), Col(b), Col(c), Col(d)))), Col(k))
  {
    hide Pack, B0, B1, B2, B3, Si, Sum5, Mul9, MulB, MulD, MulE, Add;
    var s0, s1, s2, s3 := Si(B0(a)), Si(B1(b)), Si(B2(c)), Si(B3(d));
    ColSum5(Td0(B0(a)), Td1(B1(b)), Td2(B2(c)), Td3(B3(d)), k);
    ColPack(MulE(s0), Mul9(s0), MulD(s0), MulB(s0));
    ColPack(MulB(s1), MulE(s1), Mul9(s1), MulD(s1));
    ColPack(MulD(s2), MulB(s2), MulE(s2), Mul9(s2));
    ColPack(Mul9(s3), MulD(s3), MulB(s3), MulE(s3));
  }

  /** Masking the replicated byte leaves it in one row only. */
  lemma ColMask(s: byte)
    ensures var w := Pack(s, s, s, s);
            && Col(Lane0(w)) == Column(s, 0, 0, 0) && Col(Lane1(w)) == Column(0, s, 0, 0)
            && Col(Lane2(w)) == Column(0, 0, s, 0) && Col(Lane3(w)) == Column(0, 0, 0, s)
  {
  }

  lemma SingleRows(s0: byte, s1: byte, s2: byte, s3: byte)
    ensures AddColumn(AddColumn(Column(s0, 0, 0, 0), Column(0, s1, 0, 0)),
                      AddColumn(Column(0, 0, s2, 0), Column(0, 0, 0, s3))) == Column(s0, s1, s2, s3)
  {
    var c := Column(s0, s1, s2, s3);
    assert Add(c.r0, 0) == c.r0 && Add(0, c.r1) == c.r1 && Add(c.r2, 0) == c.r2 && Add(0, c.r3) == c.r3;
    assert Add(0, 0) == 0;
    assert Add(0, c.r2) == c.r2 && Add(c.r1, 0) == c.r1;
  }

  lemma LastWordIsSubShift(a: word, b: word, c: word, d: word, k: word)
    ensures Col(EncLastWord(a, b, c, d, k)) == AddColumn(SubColumn(Diagonal(Col(a), Col(b), Col(c), Col(d))), Col(k))
    ensures Col(DecLastWord(a, b, c, d, k)) == AddColumn(InvSubColumn(Diagonal(Col(a), Col(b), Col(c), Col(d))), Col(k))
  {
    hide Pack, B0, B1, B2, B3, S, Si, Sum5, AddColumn;
    EncLastTerms(a, b, c, d, k);
    DecLastTerms(a, b, c, d, k);
    SingleRows(S(B0(a)), S(B1(b)), S(B2(c)), S(B3(d)));
    SingleRows(Si(B0(a)), Si(B1(b)), Si(B2(c)), Si(B3(d)));
  }

  lemma EncLastTerms(a: word, b: word, c: word, d: word, k: word)
    ensures Col(EncLastWord(a, b, c, d, k))
         == AddColumn(AddColumn(AddColumn(Column(S(B0(a)), 0, 0, 0), Column(0, S(B1(b)), 0, 0)),
                                AddColumn(Column(0, 0, S(B2(c)), 0), Column(0, 0, 0, S(B3(d))))), Col(k))
  {
    hide Pack, Col, B0, B1, B2, B3, S, Sum5, AddColumn, Lane0, Lane1, Lane2, Lane3;
    ColSum5(Lane0(Te4(B0(a))), Lane1(Te4(B1(b))), Lane2(Te4(B2(c))), Lane3(Te4(B3(d))), k);
    ColMask(S(B0(a)));
    ColMask(S(B1(b)));
    ColMask(S(B2(c)));
    ColMask(S(B3(d)));
  }

  lemma DecLastTerms(a: word, b: word, c: word, d: word, k: word)
    ensures Col(DecLastWord(a, b, c, d, k))
         == AddColumn(AddColumn(AddColumn(Column(Si(B0(a)), 0, 0, 0), Column(0, Si(B1(b)), 0, 0)),
                                AddColumn(Column(0, 0, Si(B2(c)), 0), Column(0, 0, 0, Si(B3(d))))), Col(k))
  {
    hide Pack, Col, B0, B1, B2, B3, Si, Sum5, AddColumn, Lane0, Lane1, Lane2, Lane3;
    ColSum5(Lane0(Td4(B0(a))), Lane1(Td4(B1(b))), Lane2(Td4(B2(c))), Lane3(Td4(B3(d))), k);
    ColMask(Si(B0(a)));
    ColMask(Si(B1(b)));
    ColMask(Si(B2(c)));
    ColMask(Si(B3(d)));
  }

  // ----- four words at a time -----

  function Words4(w0: word, w1: word, w2: word, w3: word): State {
    State(Col(w0), Col(w1), Col(w2), Col(w3))
  }

  lemma EncWordsAreRound(s0: word, s1: word, s2: word, s3: word, k0: word, k1: word, k2: word, k3: word)
    ensures Words4(EncWord(s0, s1, s2, s3, k0), EncWord(s1, s2, s3, s0, k1),
                   EncWord(s2, s3, s0, s1, k2), EncWord(s3, s0, s1, s2, k3))
         == Round(Words4(s0, s1, s2, s3), Words4(k0, k1, k2, k3))
  {
    hide Col, EncWord, MixColumn, AddColumn, S;
    EncWordIsMixColumn(s0, s1, s2, s3, k0);
    EncWordIsMixColumn(s1, s2, s3, s0, k1);
    EncWordIsMixColumn(s2, s3, s0, s1, k2);
    EncWordIsMixColumn(s3, s0, s1, s2, k3);
  }

  lemma DecWordsAreInvRound(s0: word, s1: word, s2: word, s3: word, k0: word, k1: word, k2: word, k3: word)
    ensures Words4(DecWord(s0, s3, s2, s1, k0), DecWord(s1, s0, s3, s2, k1),
                   DecWord(s2, s1, s0, s3, k2), DecWord(s3, s2, s1, s0, k3))
         == InvRound(Words4(s0, s1, s2, s3), Words4(k0, k1, k2, k3))
  {
    hide Col, DecWord, InvMixColumn, AddColumn, Si;
    DecWordIsInvMixColumn(s0, s3, s2, s1, k0);
    DecWordIsInvMixColumn(s1, s0, s3, s2, k1);
    DecWordIsInvMixColumn(s2, s1, s0, s3, k2);
    DecWordIsInvMixColumn(s3, s2, s1, s0, k3);
  }

  lemma EncLastWordsAreLastRound(t0: word, t1: word, t2: word, t3: word, k0: word, k1: word, k2: word, k3: word)
    ensures Words4(EncLastWord(t0, t1, t2, t3, k0), EncLastWord(t1, t2, t3, t0, k1),
                   EncLastWord(t2, t3, t0, t1, k2), EncLastWord(t3, t0, t1, t2, k3))
         == LastRound(Words4(t0, t1, t2, t3), Words4(k0, k1, k2, k3))
  {
    hide Col, EncLastWord, DecLastWord, AddColumn, S;
    LastWordIsSubShift(t0, t1, t2, t3, k0);
    LastWordIsSubShift(t1, t2, t3, t0, k1);
    LastWordIsSubShift(t2, t3, t0, t1, k2);
    LastWordIsSubShift(t3, t0, t1, t2, k3);
  }

  lemma DecLastWordsAreInvLastRound(t0: word, t1: word, t2: word, t3: word, k0: word, k1: word, k2: word, k3: word)
    ensures Words4(DecLastWord(t0, t3, t2, t1, k0), DecLastWord(t1, t0, t3, t2, k1),
                   DecLastWord(t2, t1, t0, t3, k2), DecLastWord(t3, t2, t1, t0, k3))
         == InvLastRound(Words4(t0, t1, t2, t3), Words4(k0, k1, k2, k3))
  {
    hide Col, EncLastWord, DecLastWord, AddColumn, Si;
    LastWordIsSubShift(t0, t3, t2, t1, k0);
    LastWordIsSubShift(t1, t0, t3, t2, k1);
    LastWordIsSubShift(t2, t1, t0, t3, k2);
    LastWordIsSubShift(t3, t2, t1, t0, k3);
  }

  // ----- the ciphers -----

  /** Round key r of a schedule of words. */
  function RoundKey(w: seq<word>, r: nat): State
    requires 4 * r + 4 <= |w|
  {
    Words4(w[4 * r], w[4 * r + 1], w[4 * r + 2], w[4 * r + 3])
  }

  function RoundKeys(w: seq<word>, nr: nat): (keys: seq<State>)
    requires 4 * (nr + 1) <= |w|
    ensures |keys| == nr + 1
  {
    seq(nr + 1, r requires 0 <= r <= nr => RoundKey(w, r))
  }

  /** The state a block of sixteen bytes is mapped to, column by column. */
  function Load(b: seq<byte>): State
    requires |b| == 16
  {
    State(Column(b[0], b[1], b[2], b[3]), Column(b[4], b[5], b[6], b[7]),
          Column(b[8], b[9], b[10], b[11]), Column(b[12], b[13], b[14], b[15]))
  }

  function RowOf(c: Column, r: nat): byte
    requires r < 4
  {
    if r == 0 then c.r0 else if r == 1 then c.r1 else if r == 2 then c.r2 else c.r3
  }

  function ByteOf(s: State, i: nat): byte
    requires i < 16
  {
    if i < 4 then RowOf(s.c0, i) else if i < 8 then RowOf(s.c1, i - 4)
    else if i < 12 then RowOf(s.c2, i - 8) else RowOf(s.c3, i - 12)
  }

  function Store(s: State): (b: seq<byte>)
    ensures |b| == 16
  {
    seq(16, i requires 0 <= i < 16 => ByteOf(s, i))
  }

  lemma LoadStore(s: State, b: seq<byte>)
    requires |b| == 16
    ensures Load(Store(s)) == s
    ensures Store(Load(b)) == b
  {
  }

  lemma ColGet32(b: seq<byte>, i: nat)
    requires i + 4 <= |b|
    ensures Col(Get32(b, i)) == Column(b[i], b[i + 1], b[i + 2], b[i + 3])
  {
    ColPack(b[i], b[i + 1], b[i + 2], b[i + 3]);
  }

  lemma LoadWords(b: seq<byte>, k: seq<word>)
    requires |b| == 16 && |k| >= 4
    ensures Words4(Xor32(Get32(b, 0), k[0]), Xor32(Get32(b, 4), k[1]),
                   Xor32(Get32(b, 8), k[2]), Xor32(Get32(b, 12), k[3]))
         == AddRoundKey(Load(b), RoundKey(k, 0))
  {
    hide Col, Get32, AddColumn, Xor32;
    ColGet32(b, 0); ColGet32(b, 4); ColGet32(b, 8); ColGet32(b, 12);
    ColXor(Get32(b, 0), k[0]);
    ColXor(Get32(b, 4), k[1]);
    ColXor(Get32(b, 8), k[2]);
    ColXor(Get32(b, 12), k[3]);
  }

  function EncryptBlock(keys: seq<State>, b: seq<byte>): (c: seq<byte>)
    requires |keys| >= 2 && |b| == 16
    ensures |c| == 16
  {
    Store(Cipher(keys, Load(b)))
  }

  function DecryptBlock(keys: seq<State>, b: seq<byte>): (c: seq<byte>)
    requires |keys| >= 2 && |b| == 16
    ensures |c| == 16
  {
    Store(EqInvCipher(keys, Load(b)))
  }

  // ----- one step of each loop -----

  lemma FirstStep(b: seq<byte>, w: seq<word>, nr: nat)
    requires |b| == 16 && 4 * (nr + 1) <= |w|
    ensures Words4(Xor32(Get32(b, 0), w[0]), Xor32(Get32(b, 4), w[1]),
                   Xor32(Get32(b, 8), w[2]), Xor32(Get32(b, 12), w[3]))
         == Rounds(RoundKeys(w, nr), 0, Load(b)) == InvRounds(RoundKeys(w, nr), 0, Load(b))
  {
    hide Words4, Get32, Xor32, Load, AddRoundKey;
    LoadWords(b, w);
  }

  lemma EncStep(w: seq<word>, nr: nat, r: nat, input: State, s0: word, s1: word, s2: word, s3: word)
    requires 4 * (nr + 1) <= |w| && r < nr
    requires Words4(s0, s1, s2, s3) == Rounds(RoundKeys(w, nr), r, input)
    ensures Words4(EncWord(s0, s1, s2, s3, w[4 * r + 4]), EncWord(s1, s2, s3, s0, w[4 * r + 5]),
                   EncWord(s2, s3, s0, s1, w[4 * r + 6]), EncWord(s3, s0, s1, s2, w[4 * r + 7]))
         == Rounds(RoundKeys(w, nr), r + 1, input)
  {
    hide Words4, EncWord, Round;
    EncWordsAreRound(s0, s1, s2, s3, w[4 * r + 4], w[4 * r + 5], w[4 * r + 6], w[4 * r + 7]);
  }

  lemma DecStep(w: seq<word>, nr: nat, r: nat, input: State, s0: word, s1: word, s2: word, s3: word)
    requires 4 * (nr + 1) <= |w| && r < nr
    requires Words4(s0, s1, s2, s3) == InvRounds(RoundKeys(w, nr), r, input)
    ensures Words4(DecWord(s0, s3, s2, s1, w[4 * r + 4]), DecWord(s1, s0, s3, s2, w[4 * r + 5]),
                   DecWord(s2, s1, s0, s3, w[4 * r + 6]), DecWord(s3, s2, s1, s0, w[4 * r + 7]))
         == InvRounds(RoundKeys(w, nr), r + 1, input)
  {
    hide Words4, DecWord, InvRound;
    DecWordsAreInvRound(s0, s1, s2, s3, w[4 * r + 4], w[4 * r + 5], w[4 * r + 6], w[4 * r + 7]);
  }

  lemma EncLastStep(w: seq<word>, nr: nat, input: State, t0: word, t1: word, t2: word, t3: word)
    requires 4 * (nr + 1) <= |w| && nr >= 1
    requires Words4(t0, t1, t2, t3) == Rounds(RoundKeys(w, nr), nr - 1, input)
    ensures Words4(EncLastWord(t0, t1, t2, t3, w[4 * nr]), EncLastWord(t1, t2, t3, t0, w[4 * nr + 1]),
                   EncLastWord(t2, t3, t0, t1, w[4 * nr + 2]), EncLastWord(t3, t0, t1, t2, w[4 * nr + 3]))
         == Cipher(RoundKeys(w, nr), input)
  {
    hide Words4, EncLastWord, LastRound, Rounds;
    EncLastWordsAreLastRound(t0, t1, t2, t3, w[4 * nr], w[4 * nr + 1], w[4 * nr + 2], w[4 * nr + 3]);
  }

  lemma DecLastStep(w: seq<word>, nr: nat, input: State, t0: word, t1: word, t2: word, t3: word)
    requires 4 * (nr + 1) <= |w| && nr >= 1
    requires Words4(t0, t1, t2, t3) == InvRounds(RoundKeys(w, nr), nr - 1, input)
    ensures Words4(DecLastWord(t0, t3, t2, t1, w[4 * nr]), DecLastWord(t1, t0, t3, t2, w[4 * nr + 1]),
                   DecLastWord(t2, t1, t0, t3, w[4 * nr + 2]), DecLastWord(t3, t2, t1, t0, w[4 * nr + 3]))
         == EqInvCipher(RoundKeys(w, nr), input)
  {
    hide Words4, DecLastWord, InvLastRound, InvRounds;
    DecLastWordsAreInvLastRound(t0, t1, t2, t3, w[4 * nr], w[4 * nr + 1], w[4 * nr + 2], w[4 * nr + 3]);
  }

  // ----- the code -----

  /** Stores a word big endian at an offset of a block. */
  method PutU32(b: array<byte>, i: nat, w: word)
    requires i + 4 <= b.Length
    modifies b
    ensures forall r :: 0 <= r < 4 ==> b[i + r] == RowOf(Col(w), r)
    ensures forall j :: 0 <= j < b.Length && !(i <= j < i + 4) ==> b[j] == old(b[j])
  {
    b[i], b[i + 1], b[i + 2], b[i + 3] := B0(w), B1(w), B2(w), B3(w);
  }

  /** The four stores that end both ciphers. */
  method PutState(b: array<byte>, s0: word, s1: word, s2: word, s3: word)
    requires b.Length == 16
    modifies b
    ensures b[..] == Store(Words4(s0, s1, s2, s3))
  {
    hide Col, RowOf;
    PutU32(b, 0, s0);
    PutU32(b, 4, s1);
    PutU32(b, 8, s2);
    PutU32(b, 12, s3);
    forall i | 0 <= i < 16
      ensures b[i] == ByteOf(Words4(s0, s1, s2, s3), i)
    {
      assert b[i - i % 4 + i % 4] == b[i];
    }
  }

  method RijndaelEncrypt(rk: array<word>, nr: nat, pt: array<byte>, ct: array<byte>)
    requires nr >= 2 && nr % 2 == 0 && rk.Length >= 4 * (nr + 1)
    requires pt.Length == 16 && ct.Length == 16
    modifies ct
    ensures ct[..] == EncryptBlock(RoundKeys(rk[..], nr), old(pt[..]))
  {
    hide Words4, Get32, Xor32, Load, Store, EncWord, EncLastWord, RoundKeys, Rounds, Cipher;
    ghost var w, input := rk[..], Load(pt[..]);
    var s0, s1, s2, s3 := Xor32(Get32(pt[..], 0), rk[0]), Xor32(Get32(pt[..], 4), rk[1]),
                          Xor32(Get32(pt[..], 8), rk[2]), Xor32(Get32(pt[..], 12), rk[3]);
    FirstStep(pt[..], w, nr);
    var t0, t1, t2, t3: word;
    var p := 0;
    var r := nr / 2;
    while true
      invariant 1 <= r <= nr / 2 && p == 4 * (nr - 2 * r)
      invariant Words4(s0, s1, s2, s3) == Rounds(RoundKeys(w, nr), nr - 2 * r, input)
      decreases r
    {
      EncStep(w, nr, nr - 2 * r, input, s0, s1, s2, s3);
      t0 := EncWord(s0, s1, s2, s3, rk[p + 4]);
      t1 := EncWord(s1, s2, s3, s0, rk[p + 5]);
      t2 := EncWord(s2, s3, s0, s1, rk[p + 6]);
      t3 := EncWord(s3, s0, s1, s2, rk[p + 7]);
      p := p + 8;
      r := r - 1;
      if r == 0 {
        break;
      }
      EncStep(w, nr, nr - 2 * r - 1, input, t0, t1, t2, t3);
      s0 := EncWord(t0, t1, t2, t3, rk[p]);
      s1 := EncWord(t1, t2, t3, t0, rk[p + 1]);
      s2 := EncWord(t2, t3, t0, t1, rk[p + 2]);
      s3 := EncWord(t3, t0, t1, t2, rk[p + 3]);
    }
    EncLastStep(w, nr, input, t0, t1, t2, t3);
    PutState(ct, EncLastWord(t0, t1, t2, t3, rk[p]), EncLastWord(t1, t2, t3, t0, rk[p + 1]),
             EncLastWord(t2, t3, t0, t1, rk[p + 2]), EncLastWord(t3, t0, t1, t2, rk[p + 3]));
  }

  method RijndaelDecrypt(rk: array<word>, nr: nat, ct: array<byte>, pt: array<byte>)
    requires nr >= 2 && nr % 2 == 0 && rk.Length >= 4 * (nr + 1)
    requires pt.Length == 16 && ct.Length == 16
    modifies pt
    ensures pt[..] == DecryptBlock(RoundKeys(rk[..], nr), old(ct[..]))
  {
    hide Words4, Get32, Xor32, Load, Store, DecWord, DecLastWord, RoundKeys, InvRounds, EqInvCipher;
    ghost var w, input := rk[..], Load(ct[..]);
    var s0, s1, s2, s3 := Xor32(Get32(ct[..], 0), rk[0]), Xor32(Get32(ct[..], 4), rk[1]),
                          Xor32(Get32(ct[..], 8), rk[2]), Xor32(Get32(ct[..], 12), rk[3]);
    FirstStep(ct[..], w, nr);
    var t0, t1, t2, t3: word;
    var p := 0;
    var r := nr / 2;
    while true
      invariant 1 <= r <= nr / 2 && p == 4 * (nr - 2 * r)
      invariant Words4(s0, s1, s2, s3) == InvRounds(RoundKeys(w, nr), nr - 2 * r, input)
      decreases r
    {
      DecStep(w, nr, nr - 2 * r, input, s0, s1, s2, s3);
      t0 := DecWord(s0, s3, s2, s1, rk[p + 4]);
      t1 := DecWord(s1, s0, s3, s2, rk[p + 5]);
      t2 := DecWord(s2, s1, s0, s3, rk[p + 6]);
      t3 := DecWord(s3, s2, s1, s0, rk[p + 7]);
      p := p + 8;
      r := r - 1;
      if r == 0 {
        break;
      }
      DecStep(w, nr, nr - 2 * r - 1, input, t0, t1, t2, t3);
      s0 := DecWord(t0, t3, t2, t1, rk[p]);
      s1 := DecWord(t1, t0, t3, t2, rk[p + 1]);
      s2 := DecWord(t2, t1, t0, t3, rk[p + 2]);
      s3 := DecWord(t3, t2, t1, t0, rk[p + 3]);
    }
    DecLastStep(w, nr, input, t0, t1, t2, t3);
    PutState(pt, DecLastWord(t0, t3, t2, t1, rk[p]), DecLastWord(t1, t0, t3, t2, rk[p + 1]),
             DecLastWord(t2, t1, t0, t3, rk[p + 2]), DecLastWord(t3, t2, t1, t0, rk[p + 3]));
  }
}
