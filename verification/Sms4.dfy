/**
  The SMS4 block cipher: its transforms, encryption and decryption over in-place rotated words,
  and the key expansion.
 */
module Sms4 {
  import opened Words
  import opened Sms4Tables

  const RK_WORDS := 32

  // ----- transforms -----

  function Tau(a: word): word { Pack(S(B0(a)), S(B1(a)), S(B2(a)), S(B3(a))) }

  /** The factored form of the code. */
  function L(b: word): word {
    var ba := Xor32(b, Rotl(b, 24));
    Xor32(ba, Rotl(Xor32(Rotl(ba, 16), b), 2))
  }

  function T(x: word): word { L(Tau(x)) }

  function Lprime(b: word): word { Xor32(Xor32(b, Rotl(b, 13)), Rotl(b, 23)) }

  function Tprime(x: word): word { Lprime(Tau(x)) }

  lemma RotlXor2(a: word, b: word)
    ensures Rotl(Xor32(a, b), 2) == Xor32(Rotl(a, 2), Rotl(b, 2))
  {
  }

  lemma RotlXor16(a: word, b: word)
    ensures Rotl(Xor32(a, b), 16) == Xor32(Rotl(a, 16), Rotl(b, 16))
  {
  }

  lemma Rotate24And16(b: word)
    ensures Rotl(Rotl(b, 24), 16) == Rotl(b, 8)
  {
  }

  lemma Rotate16And2(b: word)
    ensures Rotl(Rotl(b, 16), 2) == Rotl(b, 18)
  {
  }

  lemma Rotate8And2(b: word)
    ensures Rotl(Rotl(b, 8), 2) == Rotl(b, 10)
  {
  }

  lemma Rearrange(a: word, b: word, c: word, d: word, e: word)
    ensures Xor32(Xor32(a, e), Xor32(Xor32(d, c), b)) == Xor32(Xor32(Xor32(Xor32(a, b), c), d), e)
  {
    hide Xor32;
    var t := Xor32(Xor32(d, c), b);
    Xor32Assoc(a, e, t);
    Xor32Comm(e, t);
    Xor32Assoc(a, t, e);
    Xor32Comm(Xor32(d, c), b);
    Xor32Assoc(a, b, Xor32(d, c));
    Xor32Comm(d, c);
    Xor32Assoc(Xor32(a, b), c, d);
  }

  /** The factored form is the five-term form of the standard. */
  lemma LIsFiveTerms(b: word)
    ensures L(b) == Xor32(Xor32(Xor32(Xor32(b, Rotl(b, 2)), Rotl(b, 10)), Rotl(b, 18)), Rotl(b, 24))
  {
    hide Rotl, Xor32;
    var ba := Xor32(b, Rotl(b, 24));
    RotlXor16(b, Rotl(b, 24));
    Rotate24And16(b);
    Rotate16And2(b);
    Rotate8And2(b);
    assert Rotl(ba, 16) == Xor32(Rotl(b, 16), Rotl(b, 8));
    RotlXor2(Rotl(ba, 16), b);
    RotlXor2(Rotl(b, 16), Rotl(b, 8));
    Rearrange(b, Rotl(b, 2), Rotl(b, 10), Rotl(b, 18), Rotl(b, 24));
  }

  // ----- the rounds -----

  datatype Quad = Quad(a: word, b: word, c: word, d: word)

  function Mix(b: word, c: word, d: word, k: word): word { T(Xor32(Xor32(Xor32(b, c), d), k)) }

  /** Four consecutive words of the sequence X_{i+4} = X_i ^ T(X_{i+1} ^ X_{i+2} ^ X_{i+3} ^ rk_i), moved on by one. */
  function Round(q: Quad, k: word): Quad { Quad(q.b, q.c, q.d, Xor32(q.a, Mix(q.b, q.c, q.d, k))) }

  function Rounds(q: Quad, rk: seq<word>, n: nat): Quad
    requires n <= |rk|
  {
    if n == 0 then q else Round(Rounds(q, rk, n - 1), rk[n - 1])
  }

  function Reversed(q: Quad): Quad { Quad(q.d, q.c, q.b, q.a) }

  function Encrypt(q: Quad, rk: seq<word>): Quad { Reversed(Rounds(q, rk, |rk|)) }

  function Decrypt(q: Quad, rk: seq<word>): Quad { Encrypt(q, Backwards(rk)) }

  lemma MixReversed(b: word, c: word, d: word, k: word)
    ensures Mix(d, c, b, k) == Mix(b, c, d, k)
  {
    hide Xor32, T;
    Xor32Comm(d, c);
    Xor32Comm(Xor32(c, d), b);
    Xor32Assoc(b, c, d);
  }

  /** A round read backwards undoes itself under the same key. */
  lemma RoundUndone(q: Quad, k: word)
    ensures Round(Reversed(Round(q, k)), k) == Reversed(q)
  {
    hide Mix, Xor32;
    MixReversed(q.b, q.c, q.d, k);
    Xor32Cancels(q.a, Mix(q.b, q.c, q.d, k));
  }

  /** The first n of the reversed rounds undo the last n of the rounds. */
  lemma {:induction false} RoundsUndone(q: Quad, rk: seq<word>, n: nat)
    requires n <= |rk|
    ensures Rounds(Reversed(Rounds(q, rk, |rk|)), Backwards(rk), n) == Reversed(Rounds(q, rk, |rk| - n))
  {
    hide Round, Reversed;
    if n > 0 {
      RoundsUndone(q, rk, n - 1);
      RoundUndone(Rounds(q, rk, |rk| - n), rk[|rk| - n]);
    }
  }

  /** Decryption undoes encryption, and encryption decryption, under any round keys. */
  lemma DecryptInvertsEncrypt(q: Quad, rk: seq<word>)
    ensures Decrypt(Encrypt(q, rk), rk) == q
    ensures Encrypt(Decrypt(q, rk), rk) == q
  {
    hide Round;
    RoundsUndone(q, rk, |rk|);
    RoundsUndone(q, Backwards(rk), |rk|);
    assert Backwards(Backwards(rk)) == rk;
  }

  // ----- the code -----

  function QuadOf(x: seq<word>): Quad
    requires |x| == 4
  {
    Quad(x[0], x[1], x[2], x[3])
  }

  /** sms4_enc in its looped form; X and Y may be the same. */
  method Sms4Enc(Y: array<word>, X: array<word>, RK: array<word>)
    requires X.Length == 4 && Y.Length == 4 && RK.Length == RK_WORDS && Y != RK
    modifies Y
    ensures QuadOf(Y[..]) == Encrypt(old(QuadOf(X[..])), RK[..])
  {
    hide Mix, Xor32;
    ghost var q, rk := QuadOf(X[..]), RK[..];
    var z0, z1, z2, z3 := X[0], X[1], X[2], X[3];
    var i := 0;
    while i < RK_WORDS
      invariant 0 <= i <= RK_WORDS && i % 4 == 0
      invariant Quad(z0, z1, z2, z3) == Rounds(q, rk, i)
    {
      FourRounds(q, rk, i);
      z0 := Xor32(z0, Mix(z1, z2, z3, RK[i]));
      z1 := Xor32(z1, Mix(z2, z3, z0, RK[i + 1]));
      z2 := Xor32(z2, Mix(z3, z0, z1, RK[i + 2]));
      z3 := Xor32(z3, Mix(z0, z1, z2, RK[i + 3]));
      i := i + 4;
    }
    Y[0], Y[1], Y[2], Y[3] := z3, z2, z1, z0;
  }

  lemma FourRounds(q: Quad, rk: seq<word>, i: nat)
    requires i + 4 <= |rk|
    ensures Rounds(q, rk, i + 4)
         == Round(Round(Round(Round(Rounds(q, rk, i), rk[i]), rk[i + 1]), rk[i + 2]), rk[i + 3])
  {
    hide Round;
    assert Rounds(q, rk, i + 2) == Round(Rounds(q, rk, i + 1), rk[i + 1]);
    assert Rounds(q, rk, i + 3) == Round(Rounds(q, rk, i + 2), rk[i + 2]);
  }

  /** sms4_dec: the same rounds with the keys taken from the end. */
  method Sms4Dec(Y: array<word>, X: array<word>, RK: array<word>)
    requires X.Length == 4 && Y.Length == 4 && RK.Length == RK_WORDS && Y != RK
    modifies Y
    ensures QuadOf(Y[..]) == Decrypt(old(QuadOf(X[..])), RK[..])
  {
    hide Mix, Xor32, Backwards;
    ghost var q, rk := QuadOf(X[..]), Backwards(RK[..]);
    var z0, z1, z2, z3 := X[0], X[1], X[2], X[3];
    var p, i := 32, 0;
    while i < RK_WORDS
      invariant 0 <= i <= RK_WORDS && i % 4 == 0 && p == 32 - i
      invariant Quad(z0, z1, z2, z3) == Rounds(q, rk, i)
    {
      FourRounds(q, rk, i);
      FourKeysBack(RK[..], i);
      z0 := Xor32(z0, Mix(z1, z2, z3, RK[p - 1]));
      z1 := Xor32(z1, Mix(z2, z3, z0, RK[p - 2]));
      z2 := Xor32(z2, Mix(z3, z0, z1, RK[p - 3]));
      z3 := Xor32(z3, Mix(z0, z1, z2, RK[p - 4]));
      p := p - 4;
      i := i + 4;
    }
    Y[0], Y[1], Y[2], Y[3] := z3, z2, z1, z0;
  }

  lemma FourKeysBack(rk: seq<word>, i: nat)
    requires |rk| == RK_WORDS && i + 4 <= RK_WORDS
    ensures var r, p := Backwards(rk), RK_WORDS - i;
            r[i] == rk[p - 1] && r[i + 1] == rk[p - 2] && r[i + 2] == rk[p - 3] && r[i + 3] == rk[p - 4]
  {
  }

  // ----- key expansion -----

  /** Byte j of constant CK_i is (4i + j) * 7 modulo 256. */
  lemma CkBytes(i: nat)
    requires i < RK_WORDS
    ensures Num(B0(CK(i))) == 28 * i % 256 && Num(B1(CK(i))) == (28 * i + 7) % 256
    ensures Num(B2(CK(i))) == (28 * i + 14) % 256 && Num(B3(CK(i))) == (28 * i + 21) % 256
  {
    hide CK, B0, B1, B2, B3, Num;
    if i < 16 {
      EarlyCkBytes(i);
    } else {
      LateCkBytes(i);
    }
  }

  lemma EarlyCkBytes(i: nat)
    requires i < 16
    ensures Num(B0(CK(i))) == 28 * i % 256 && Num(B1(CK(i))) == (28 * i + 7) % 256
    ensures Num(B2(CK(i))) == (28 * i + 14) % 256 && Num(B3(CK(i))) == (28 * i + 21) % 256
  {
  }

  lemma LateCkBytes(i: nat)
    requires 16 <= i < RK_WORDS
    ensures Num(B0(CK(i))) == 28 * i % 256 && Num(B1(CK(i))) == (28 * i + 7) % 256
    ensures Num(B2(CK(i))) == (28 * i + 14) % 256 && Num(B3(CK(i))) == (28 * i + 21) % 256
  {
  }

  /** One word of the key schedule from the four before it. */
  function NextKey(a: word, b: word, c: word, d: word, ck: word): word {
    Xor32(a, Tprime(Xor32(Xor32(Xor32(b, c), d), ck)))
  }

  /** K_i of the key schedule. */
  function K(mk: seq<word>, i: nat): word
    requires |mk| == 4 && i < RK_WORDS + 4
  {
    if i < 4 then Xor32(mk[i], FK(i))
    else NextKey(K(mk, i - 4), K(mk, i - 3), K(mk, i - 2), K(mk, i - 1), CK(i - 4))
  }

  lemma KeyWord(mk: seq<word>, i: nat)
    requires |mk| == 4 && i < RK_WORDS + 4
    ensures K(mk, i) == if i < 4 then Xor32(mk[i], FK(i))
      else NextKey(K(mk, i - 4), K(mk, i - 3), K(mk, i - 2), K(mk, i - 1), CK(i - 4))
  {
    hide NextKey, Xor32, FK, CK;
  }

  function RoundKeys(mk: seq<word>): (rk: seq<word>)
    requires |mk| == 4
    ensures |rk| == RK_WORDS
  {
    seq(RK_WORDS, i requires 0 <= i < RK_WORDS => K(mk, i + 4))
  }

  /** sms4_key_exp. */
  method Sms4KeyExp(MK: array<word>, RK: array<word>)
    requires MK.Length == 4 && RK.Length == RK_WORDS && MK != RK
    modifies RK
    ensures RK[..] == RoundKeys(MK[..])
  {
    hide K, NextKey, Xor32, FK, CK;
    ghost var mk := MK[..];
    var k := new word[36];
    var i := 0;
    while i < 4
      invariant 0 <= i <= 4
      invariant forall j :: 0 <= j < i ==> k[j] == K(mk, j)
    {
      KeyWord(mk, i);
      k[i] := Xor32(MK[i], FK(i));
      i := i + 1;
    }
    i := 0;
    while i < RK_WORDS
      invariant 0 <= i <= RK_WORDS && MK[..] == mk
      invariant forall j :: 0 <= j < i + 4 ==> k[j] == K(mk, j)
      invariant forall j :: 0 <= j < i ==> RK[j] == K(mk, j + 4)
    {
      KeyWord(mk, i + 4);
      k[i + 4] := NextKey(k[i], k[i + 1], k[i + 2], k[i + 3], CK(i));
      RK[i] := k[i + 4];
      i := i + 1;
    }
  }
}
