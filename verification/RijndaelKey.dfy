/**
  The key set-ups of rijndael-alg-fst.c: three unrolled expansion loops proved to write the
  recurrence of section 5.2 of FIPS 197, and the in-place rewriting of that schedule into the
  one the equivalent inverse cipher of section 5.3.5 needs.
 */
module RijndaelKey {
  import opened Words
  import opened GaloisField
  import opened SBox
  import opened AesSpec
  import opened Rijndael

  // ----- section 5.2 of FIPS 197 -----

  function SubWord(w: word): word { Pack(S(B0(w)), S(B1(w)), S(B2(w)), S(B3(w))) }

  function RotWord(w: word): word { Pack(B1(w), B2(w), B3(w), B0(w)) }

  function RconByte(j: nat): byte {
    if j <= 1 then 1 else Xtime(RconByte(j - 1))
  }

  function Rcon(j: nat): word { Pack(RconByte(j), 0, 0, 0) }

  /** Word i of the expansion of a key of nk words. */
  function W(key: seq<byte>, nk: nat, i: nat): word
    requires nk >= 1 && |key| >= 4 * nk
    decreases i
  {
    if i < nk then Get32(key, 4 * i) else
      var t := W(key, nk, i - 1);
      Xor32(W(key, nk, i - nk),
            if i % nk == 0 then Xor32(SubWord(RotWord(t)), Rcon(i / nk))
            else if nk > 6 && i % nk == 4 then SubWord(t) else t)
  }

  function ExpandedKey(key: seq<byte>, nk: nat, nr: nat): (w: seq<word>)
    requires nk >= 1 && |key| >= 4 * nk
    ensures |w| == 4 * (nr + 1)
  {
    seq(4 * (nr + 1), i requires 0 <= i < 4 * (nr + 1) => W(key, nk, i))
  }

  // ----- the table expressions of the key loops -----

  /** The six-term sum with which every expansion step starts. */
  function KeyWord(k: word, b0: byte, b1: byte, b2: byte, b3: byte, rc: word): word {
    Xor32(Xor32(Xor32(Xor32(Xor32(k, Lane0(Te4(b0))), Lane1(Te4(b1))), Lane2(Te4(b2))), Lane3(Te4(b3))), rc)
  }

  lemma LanesPack(s0: byte, s1: byte, s2: byte, s3: byte)
    ensures Xor32(Xor32(Xor32(Lane0(Pack(s0, s0, s0, s0)), Lane1(Pack(s1, s1, s1, s1))), Lane2(Pack(s2, s2, s2, s2))),
                  Lane3(Pack(s3, s3, s3, s3))) == Pack(s0, s1, s2, s3)
  {
    var l0, l1 := Lane0(Pack(s0, s0, s0, s0)), Lane1(Pack(s1, s1, s1, s1));
    var l2, l3 := Lane2(Pack(s2, s2, s2, s2)), Lane3(Pack(s3, s3, s3, s3));
    hide Col, Pack, AddColumn, Lane0, Lane1, Lane2, Lane3, Xor32;
    ColMask(s0); ColMask(s1); ColMask(s2); ColMask(s3);
    ColXor(l0, l1);
    ColXor(Xor32(l0, l1), l2);
    ColXor(Xor32(Xor32(l0, l1), l2), l3);
    AddColumnAssoc(AddColumn(Col(l0), Col(l1)), Col(l2), Col(l3));
    SingleRows(s0, s1, s2, s3);
    ColPack(s0, s1, s2, s3);
    ColInjective(Xor32(Xor32(Xor32(l0, l1), l2), l3), Pack(s0, s1, s2, s3));
  }

  lemma KeyWordIsSubWord(k: word, b0: byte, b1: byte, b2: byte, b3: byte, rc: word)
    ensures KeyWord(k, b0, b1, b2, b3, rc) == Xor32(k, Xor32(Pack(S(b0), S(b1), S(b2), S(b3)), rc))
  {
    hide S, Pack, Lane0, Lane1, Lane2, Lane3, Xor32;
    var l0, l1, l2, l3 := Lane0(Te4(b0)), Lane1(Te4(b1)), Lane2(Te4(b2)), Lane3(Te4(b3));
    Xor32Assoc(k, l0, l1);
    Xor32Assoc(k, Xor32(l0, l1), l2);
    Xor32Assoc(k, Xor32(Xor32(l0, l1), l2), l3);
    Xor32Assoc(k, Xor32(Xor32(Xor32(l0, l1), l2), l3), rc);
    LanesPack(S(b0), S(b1), S(b2), S(b3));
  }

  /** The rotated form, with a round constant. */
  function RotatedKeyWord(k: word, t: word, rc: word): word { KeyWord(k, B1(t), B2(t), B3(t), B0(t), rc) }

  /** The plain form that a 256-bit key needs half way through a step. */
  function PlainKeyWord(k: word, t: word): word {
    Xor32(Xor32(Xor32(Xor32(k, Lane0(Te4(B0(t)))), Lane1(Te4(B1(t)))), Lane2(Te4(B2(t)))), Lane3(Te4(B3(t))))
  }

  lemma RotatedKeyWordIsSubRot(k: word, t: word, rc: word)
    ensures RotatedKeyWord(k, t, rc) == Xor32(k, Xor32(SubWord(RotWord(t)), rc))
  {
    hide S, Pack, B0, B1, B2, B3, KeyWord, Xor32;
    KeyWordIsSubWord(k, B1(t), B2(t), B3(t), B0(t), rc);
    PackBytes(B1(t), B2(t), B3(t), B0(t));
  }

  lemma PlainKeyWordIsSub(k: word, t: word)
    ensures PlainKeyWord(k, t) == Xor32(k, SubWord(t))
  {
    hide S, Pack, B0, B1, B2, B3, Lane0, Lane1, Lane2, Lane3, Xor32;
    var l0, l1, l2, l3 := Lane0(Te4(B0(t))), Lane1(Te4(B1(t))), Lane2(Te4(B2(t))), Lane3(Te4(B3(t)));
    Xor32Assoc(k, l0, l1);
    Xor32Assoc(k, Xor32(l0, l1), l2);
    Xor32Assoc(k, Xor32(Xor32(l0, l1), l2), l3);
    LanesPack(S(B0(t)), S(B1(t)), S(B2(t)), S(B3(t)));
  }

  /** The rcon table. */
  function RconTable(i: nat): word
    requires i < 10
  {
    if i == 0 then 0x01000000 else if i == 1 then 0x02000000 else if i == 2 then 0x04000000
    else if i == 3 then 0x08000000 else if i == 4 then 0x10000000 else if i == 5 then 0x20000000
    else if i == 6 then 0x40000000 else if i == 7 then 0x80000000 else if i == 8 then 0x1B000000
    else 0x36000000
  }

  /** The ten literals are the successive powers of x. */
  lemma RconTableIsRcon(i: nat)
    requires i < 10
    ensures RconTable(i) == Rcon(i + 1)
  {
    assert RconByte(1) == 1 && RconByte(2) == 2 && RconByte(3) == 4 && RconByte(4) == 8 && RconByte(5) == 0x10;
    assert RconByte(6) == 0x20 && RconByte(7) == 0x40 && RconByte(8) == 0x80;
    assert RconByte(9) == 0x1b && RconByte(10) == 0x36;
  }

  // ----- the recurrence, step by step -----

  /** The key lengths of the standard, in words. */
  predicate KeyLength(nk: nat) { nk == 4 || nk == 6 || nk == 8 }

  lemma Divided(nk: nat, i: nat, p: nat, c: nat)
    requires KeyLength(nk) && p == nk * i && c < nk
    ensures (p + nk + c) % nk == c
    ensures (p + nk) / nk == i + 1
  {
    if nk == 4 {
      Divided4(i + 1, c);
      Divided4(i + 1, 0);
    } else if nk == 6 {
      Divided6(i + 1, c);
      Divided6(i + 1, 0);
    } else {
      Divided8(i + 1, c);
      Divided8(i + 1, 0);
    }
  }

  lemma Divided4(q: nat, c: nat)
    requires c < 4
    ensures (4 * q + c) % 4 == c && (4 * q + c) / 4 == q
  {
  }

  lemma Divided6(q: nat, c: nat)
    requires c < 6
    ensures (6 * q + c) % 6 == c && (6 * q + c) / 6 == q
  {
  }

  lemma Divided8(q: nat, c: nat)
    requires c < 8
    ensures (8 * q + c) % 8 == c && (8 * q + c) / 8 == q
  {
  }

  lemma FirstWord(key: seq<byte>, nk: nat, i: nat, p: nat)
    requires KeyLength(nk) && |key| >= 4 * nk && i < 10 && p == nk * i
    ensures W(key, nk, p + nk) == RotatedKeyWord(W(key, nk, p), W(key, nk, p + nk - 1), RconTable(i))
  {
    hide RotatedKeyWord, Xor32, SubWord, RotWord, Rcon, RconTable, Get32;
    RotatedKeyWordIsSubRot(W(key, nk, p), W(key, nk, p + nk - 1), RconTable(i));
    RconTableIsRcon(i);
    Divided(nk, i, p, 0);
  }

  lemma OtherWord(key: seq<byte>, nk: nat, i: nat, p: nat, c: nat)
    requires KeyLength(nk) && |key| >= 4 * nk && 0 < c < nk && p == nk * i
    requires !(nk > 6 && c == 4)
    ensures W(key, nk, p + nk + c) == Xor32(W(key, nk, p + c), W(key, nk, p + nk + c - 1))
  {
    hide Xor32, SubWord, RotWord, Rcon, Get32;
    Divided(nk, i, p, c);
  }

  lemma MiddleWord(key: seq<byte>, i: nat, p: nat)
    requires |key| >= 32 && p == 8 * i
    ensures W(key, 8, p + 12) == PlainKeyWord(W(key, 8, p + 4), W(key, 8, p + 11))
  {
    hide PlainKeyWord, Xor32, SubWord, RotWord, Rcon, Get32;
    Divided(8, i, p, 4);
    PlainKeyWordIsSub(W(key, 8, p + 4), W(key, 8, p + 11));
  }

  // ----- rijndaelKeySetupEnc -----

  /** The first n words of rk are those of the expansion. */
  ghost predicate Expanded(rk: array<word>, key: seq<byte>, nk: nat, n: nat)
    requires nk >= 1 && |key| >= 4 * nk
    reads rk
  {
    n <= rk.Length && forall j :: 0 <= j < n ==> rk[j] == W(key, nk, j)
  }

  /** Writes the next word of the expansion. */
  method StoreNext(rk: array<word>, n: nat, w: word, ghost key: seq<byte>, ghost nk: nat)
    requires nk >= 1 && |key| >= 4 * nk && n < rk.Length
    requires Expanded(rk, key, nk, n) && w == W(key, nk, n)
    modifies rk
    ensures Expanded(rk, key, nk, n + 1)
  {
    hide W;
    rk[n] := w;
  }

  /** The first four words of a step, common to the three key sizes. */
  method FirstFour(rk: array<word>, nk: nat, i: nat, p: nat, ghost key: seq<byte>)
    requires KeyLength(nk) && |key| >= 4 * nk && i < 10 && p == nk * i && p + nk + 4 <= rk.Length
    requires Expanded(rk, key, nk, p + nk)
    modifies rk
    ensures Expanded(rk, key, nk, p + nk + 4)
  {
    hide RotatedKeyWord, Xor32, RconTable, W;
    FirstWord(key, nk, i, p);
    StoreNext(rk, p + nk, RotatedKeyWord(rk[p], rk[p + nk - 1], RconTable(i)), key, nk);
    OtherWord(key, nk, i, p, 1);
    StoreNext(rk, p + nk + 1, Xor32(rk[p + 1], rk[p + nk]), key, nk);
    OtherWord(key, nk, i, p, 2);
    StoreNext(rk, p + nk + 2, Xor32(rk[p + 2], rk[p + nk + 1]), key, nk);
    OtherWord(key, nk, i, p, 3);
    StoreNext(rk, p + nk + 3, Xor32(rk[p + 3], rk[p + nk + 2]), key, nk);
  }

  method ExpandKey128(rk: array<word>, ghost key: seq<byte>)
    requires rk.Length >= 44 && |key| >= 16
    requires Expanded(rk, key, 4, 4)
    modifies rk
    ensures Expanded(rk, key, 4, 44)
  {
    hide W;
    var i, p := 0, 0;
    while true
      invariant 0 <= i < 10 && p == 4 * i
      invariant Expanded(rk, key, 4, p + 4)
      decreases 10 - i
    {
      FirstFour(rk, 4, i, p, key);
      i := i + 1;
      if i == 10 {
        break;
      }
      p := p + 4;
    }
  }

  method ExpandKey192(rk: array<word>, ghost key: seq<byte>)
    requires rk.Length >= 52 && |key| >= 24
    requires Expanded(rk, key, 6, 6)
    modifies rk
    ensures Expanded(rk, key, 6, 52)
  {
    hide Xor32, W;
    var i, p := 0, 0;
    while true
      invariant 0 <= i < 8 && p == 6 * i
      invariant Expanded(rk, key, 6, p + 6)
      decreases 8 - i
    {
      FirstFour(rk, 6, i, p, key);
      i := i + 1;
      if i == 8 {
        break;
      }
      OtherWord(key, 6, i - 1, p, 4);
      StoreNext(rk, p + 10, Xor32(rk[p + 4], rk[p + 9]), key, 6);
      OtherWord(key, 6, i - 1, p, 5);
      StoreNext(rk, p + 11, Xor32(rk[p + 5], rk[p + 10]), key, 6);
      p := p + 6;
    }
  }

  /** The other four words of a step for 256-bit keys. */
  method LastFour(rk: array<word>, i: nat, p: nat, ghost key: seq<byte>)
    requires |key| >= 32 && i < 10 && p == 8 * i && p + 16 <= rk.Length
    requires Expanded(rk, key, 8, p + 12)
    modifies rk
    ensures Expanded(rk, key, 8, p + 16)
  {
    hide PlainKeyWord, Xor32, W;
    MiddleWord(key, i, p);
    StoreNext(rk, p + 12, PlainKeyWord(rk[p + 4], rk[p + 11]), key, 8);
    OtherWord(key, 8, i, p, 5);
    StoreNext(rk, p + 13, Xor32(rk[p + 5], rk[p + 12]), key, 8);
    OtherWord(key, 8, i, p, 6);
    StoreNext(rk, p + 14, Xor32(rk[p + 6], rk[p + 13]), key, 8);
    OtherWord(key, 8, i, p, 7);
    StoreNext(rk, p + 15, Xor32(rk[p + 7], rk[p + 14]), key, 8);
  }

  method ExpandKey256(rk: array<word>, ghost key: seq<byte>)
    requires rk.Length >= 60 && |key| >= 32
    requires Expanded(rk, key, 8, 8)
    modifies rk
    ensures Expanded(rk, key, 8, 60)
  {
    hide Expanded;
    var i, p := 0, 0;
    while true
      invariant 0 <= i < 7 && p == 8 * i
      invariant Expanded(rk, key, 8, p + 8)
      decreases 7 - i
    {
      FirstFour(rk, 8, i, p, key);
      i := i + 1;
      if i == 7 {
        break;
      }
      LastFour(rk, i - 1, p, key);
      p := p + 8;
    }
  }

  /** The number of rounds the key size asks for, 0 for a size the code does not know. */
  function RoundsFor(keyBits: int): nat {
    if keyBits == 128 then 10 else if keyBits == 192 then 12 else if keyBits == 256 then 14 else 0
  }

  method RijndaelKeySetupEnc(rk: array<word>, cipherKey: array<byte>, keyBits: int) returns (nr: nat)
    requires rk.Length >= 60
    requires cipherKey.Length >= if keyBits == 128 then 16 else if keyBits == 192 then 24 else 32
    modifies rk
    ensures nr == RoundsFor(keyBits)
    ensures nr != 0 ==> Expanded(rk, cipherKey[..], keyBits / 32, 4 * (nr + 1))
  {
    hide Get32, Xor32, SubWord, RotWord, Rcon;
    ghost var key := cipherKey[..];
    rk[0], rk[1], rk[2], rk[3] := Get32(cipherKey[..], 0), Get32(cipherKey[..], 4),
                                  Get32(cipherKey[..], 8), Get32(cipherKey[..], 12);
    if keyBits == 128 {
      ExpandKey128(rk, key);
      return 10;
    }
    rk[4], rk[5] := Get32(cipherKey[..], 16), Get32(cipherKey[..], 20);
    if keyBits == 192 {
      ExpandKey192(rk, key);
      return 12;
    }
    rk[6], rk[7] := Get32(cipherKey[..], 24), Get32(cipherKey[..], 28);
    if keyBits == 256 {
      ExpandKey256(rk, key);
      return 14;
    }
    return 0;
  }

  // ----- rijndaelKeySetupDec -----

  /** The round keys the encryption schedule of a key holds. */
  function KeySchedule(key: seq<byte>, nk: nat, nr: nat): (keys: seq<State>)
    requires nk >= 1 && |key| >= 4 * nk
    ensures |keys| == nr + 1
  {
    RoundKeys(ExpandedKey(key, nk, nr), nr)
  }

  /** Round key q as it stands in the array. */
  ghost function KeyAt(rk: array<word>, q: nat): State
    requires 4 * q + 4 <= rk.Length
    reads rk
  {
    Words4(rk[4 * q], rk[4 * q + 1], rk[4 * q + 2], rk[4 * q + 3])
  }

  /** A schedule word through Te4 and the Td tables, as the code applies InvMixColumn. */
  function MixedKeyWord(w: word): word {
    Xor32(Xor32(Xor32(Td0(B3(Te4(B0(w)))), Td1(B3(Te4(B1(w))))), Td2(B3(Te4(B2(w))))), Td3(B3(Te4(B3(w)))))
  }

  lemma MixedKeyWordIsInvMixColumn(w: word)
    ensures Col(MixedKeyWord(w)) == InvMixColumn(Col(w))
  {
    hide Pack, B0, B1, B2, B3, S, Si, AddColumn, Mul9, MulB, MulD, MulE, Add, Xor32;
    Te4Low(B0(w)); Te4Low(B1(w)); Te4Low(B2(w)); Te4Low(B3(w));
    SboxInverse(B0(w)); SboxInverse(B1(w)); SboxInverse(B2(w)); SboxInverse(B3(w));
    InvMixTerms(B0(w), B1(w), B2(w), B3(w));
  }

  lemma Te4Low(x: byte)
    ensures B3(Te4(x)) == S(x)
  {
    hide S;
    PackBytes(S(x), S(x), S(x), S(x));
  }

  /** The four Td columns of already substituted bytes add up to InvMixColumn. */
  lemma InvMixTerms(a: byte, b: byte, c: byte, d: byte)
    ensures Col(Xor32(Xor32(Xor32(Td0(S(a)), Td1(S(b))), Td2(S(c))), Td3(S(d)))) == InvMixColumn(Column(a, b, c, d))
  {
    hide Pack, Col, S, Si, Mul9, MulB, MulD, MulE, Add, Xor32;
    var t0, t1, t2, t3 := Td0(S(a)), Td1(S(b)), Td2(S(c)), Td3(S(d));
    SboxInverse(a); SboxInverse(b); SboxInverse(c); SboxInverse(d);
    ColPack(MulE(a), Mul9(a), MulD(a), MulB(a));
    ColPack(MulB(b), MulE(b), Mul9(b), MulD(b));
    ColPack(MulD(c), MulB(c), MulE(c), Mul9(c));
    ColPack(Mul9(d), MulD(d), MulB(d), MulE(d));
    ColXor(t0, t1);
    ColXor(Xor32(t0, t1), t2);
    ColXor(Xor32(Xor32(t0, t1), t2), t3);
    AddColumnAssoc(AddColumn(Col(t0), Col(t1)), Col(t2), Col(t3));
  }

  method SwapWord(rk: array<word>, i: nat, j: nat)
    requires i < j < rk.Length
    modifies rk
    ensures rk[i] == old(rk[j]) && rk[j] == old(rk[i])
    ensures forall x :: 0 <= x < rk.Length && x != i && x != j ==> rk[x] == old(rk[x])
  {
    rk[i], rk[j] := rk[j], rk[i];
  }

  /** The four swaps of one turn of the reversal loop. */
  method SwapWords(rk: array<word>, i: nat, j: nat)
    requires i + 4 <= j && j + 4 <= rk.Length
    modifies rk
    ensures rk[i] == old(rk[j]) && rk[i + 1] == old(rk[j + 1])
    ensures rk[i + 2] == old(rk[j + 2]) && rk[i + 3] == old(rk[j + 3])
    ensures rk[j] == old(rk[i]) && rk[j + 1] == old(rk[i + 1])
    ensures rk[j + 2] == old(rk[i + 2]) && rk[j + 3] == old(rk[i + 3])
    ensures forall x :: 0 <= x < rk.Length && !(i <= x < i + 4) && !(j <= x < j + 4) ==> rk[x] == old(rk[x])
  {
    SwapWord(rk, i, j);
    SwapWord(rk, i + 1, j + 1);
    SwapWord(rk, i + 2, j + 2);
    SwapWord(rk, i + 3, j + 3);
  }

  method SwapKeys(rk: array<word>, i: nat, j: nat, ghost a: nat, ghost b: nat)
    requires i == 4 * a && j == 4 * b && a < b && j + 4 <= rk.Length
    modifies rk
    ensures KeyAt(rk, a) == old(KeyAt(rk, b)) && KeyAt(rk, b) == old(KeyAt(rk, a))
    ensures forall q: nat :: q != a && q != b && 4 * q + 4 <= rk.Length ==> KeyAt(rk, q) == old(KeyAt(rk, q))
  {
    hide Words4;
    SwapWords(rk, i, j);
  }

  /** One turn of the InvMixColumn loop. */
  method MixWords(rk: array<word>, p: nat)
    requires p + 4 <= rk.Length
    modifies rk
    ensures rk[p] == MixedKeyWord(old(rk[p])) && rk[p + 1] == MixedKeyWord(old(rk[p + 1]))
    ensures rk[p + 2] == MixedKeyWord(old(rk[p + 2])) && rk[p + 3] == MixedKeyWord(old(rk[p + 3]))
    ensures forall x :: 0 <= x < rk.Length && !(p <= x < p + 4) ==> rk[x] == old(rk[x])
  {
    hide MixedKeyWord;
    rk[p] := MixedKeyWord(rk[p]);
    rk[p + 1] := MixedKeyWord(rk[p + 1]);
    rk[p + 2] := MixedKeyWord(rk[p + 2]);
    rk[p + 3] := MixedKeyWord(rk[p + 3]);
  }

  method MixKey(rk: array<word>, p: nat, ghost q: nat)
    requires p == 4 * q && p + 4 <= rk.Length
    modifies rk
    ensures KeyAt(rk, q) == InvMixColumns(old(KeyAt(rk, q)))
    ensures forall r: nat :: r != q && 4 * r + 4 <= rk.Length ==> KeyAt(rk, r) == old(KeyAt(rk, r))
  {
    hide Col, MixedKeyWord, InvMixColumn;
    MixedKeyWordIsInvMixColumn(rk[p]);
    MixedKeyWordIsInvMixColumn(rk[p + 1]);
    MixedKeyWordIsInvMixColumn(rk[p + 2]);
    MixedKeyWordIsInvMixColumn(rk[p + 3]);
    MixWords(rk, p);
  }

  /** The reversal loop. */
  method ReverseKeys(rk: array<word>, nr: nat)
    requires 4 * (nr + 1) <= rk.Length
    modifies rk
    ensures forall q :: 0 <= q <= nr ==> KeyAt(rk, q) == old(KeyAt(rk, nr - q))
  {
    hide KeyAt;
    ghost var a := 0;
    var i, j := 0, 4 * nr;
    while i < j
      invariant i == 4 * a && j == 4 * (nr - a) && 2 * a <= nr + 1
      invariant forall q :: 0 <= q <= nr && !(a <= q <= nr - a) ==> KeyAt(rk, q) == old(KeyAt(rk, nr - q))
      invariant forall q :: a <= q <= nr - a ==> KeyAt(rk, q) == old(KeyAt(rk, q))
    {
      SwapKeys(rk, i, j, a, nr - a);
      a := a + 1;
      i, j := i + 4, j - 4;
    }
  }

  /** The InvMixColumn loop. */
  method MixMiddleKeys(rk: array<word>, nr: nat)
    requires 4 * (nr + 1) <= rk.Length
    modifies rk
    ensures forall q :: 0 <= q <= nr ==>
      KeyAt(rk, q) == if 1 <= q < nr then InvMixColumns(old(KeyAt(rk, q))) else old(KeyAt(rk, q))
  {
    hide KeyAt, InvMixColumns;
    var i, p := 1, 0;
    while i < nr
      invariant 1 <= i && (i == 1 || i <= nr) && p == 4 * (i - 1)
      invariant forall q :: 0 <= q <= nr ==>
        KeyAt(rk, q) == if 1 <= q < i then InvMixColumns(old(KeyAt(rk, q))) else old(KeyAt(rk, q))
    {
      p := p + 4;
      MixKey(rk, p, i);
      i := i + 1;
    }
  }

  method RijndaelKeySetupDec(rk: array<word>, cipherKey: array<byte>, keyBits: int) returns (nr: nat)
    requires rk.Length >= 60
    requires cipherKey.Length >= if keyBits == 128 then 16 else if keyBits == 192 then 24 else 32
    modifies rk
    ensures nr == RoundsFor(keyBits)
    ensures nr != 0 ==> RoundKeys(rk[..], nr) == DecryptionKeys(KeySchedule(cipherKey[..], keyBits / 32, nr))
  {
    hide KeyAt, InvMixColumns, KeySchedule, Expanded;
    nr := RijndaelKeySetupEnc(rk, cipherKey, keyBits);
    ghost var key, keys := cipherKey[..], RoundKeys(rk[..], nr);
    KeysInArray(rk, nr);
    if nr != 0 {
      ExpandedKeys(rk, key, keyBits / 32, nr);
    }
    ReverseKeys(rk, nr);
    MixMiddleKeys(rk, nr);
    KeysInArray(rk, nr);
    assert RoundKeys(rk[..], nr) == DecryptionKeys(keys);
  }

  lemma KeysInArray(rk: array<word>, nr: nat)
    requires 4 * (nr + 1) <= rk.Length
    ensures forall q :: 0 <= q <= nr ==> RoundKeys(rk[..], nr)[q] == KeyAt(rk, q)
  {
    hide Words4;
  }

  lemma ExpandedKeys(rk: array<word>, key: seq<byte>, nk: nat, nr: nat)
    requires nk >= 1 && |key| >= 4 * nk && Expanded(rk, key, nk, 4 * (nr + 1))
    ensures RoundKeys(rk[..], nr) == KeySchedule(key, nk, nr)
  {
    hide Words4, W;
  }
}