/**
  The generator of the ten AES tables in aes.c: every entry it stores is the one the table
  equations of the cipher define.
 */
module AesTables {
  import opened Words
  import opened GaloisField
  import SB = SBox
  import R = Rijndael

  /** The tables in the order of the structure: Te0 to Te4, then Td0 to Td4. */
  function Entry(i: nat, x: byte): word
    requires i < 10
  {
    if i == 0 then R.Te0(x) else if i == 1 then R.Te1(x) else if i == 2 then R.Te2(x)
    else if i == 3 then R.Te3(x) else if i == 4 then R.Te4(x) else if i == 5 then R.Td0(x)
    else if i == 6 then R.Td1(x) else if i == 7 then R.Td2(x) else if i == 8 then R.Td3(x)
    else R.Td4(x)
  }

  lemma RotatePack8(a: byte, b: byte, c: byte, d: byte)
    ensures Rotl(Pack(a, b, c, d), 8) == Pack(b, c, d, a)
  {
  }

  lemma RotatePack16(a: byte, b: byte, c: byte, d: byte)
    ensures Rotl(Pack(a, b, c, d), 16) == Pack(c, d, a, b)
  {
  }

  lemma RotatePack24(a: byte, b: byte, c: byte, d: byte)
    ensures Rotl(Pack(a, b, c, d), 24) == Pack(d, a, b, c)
  {
  }

  /** The multiples of the inverse S-box value, as the code chains them. */
  lemma ChainedMultiples(b: byte)
    ensures var b2, b4 := Xtime(b), Xtime(Xtime(b));
            var b8 := Xtime(b4);
            var b9 := Add(b8, b);
            b9 == Mul9(b) && Add(b9, b2) == MulB(b) && Add(Add(b8, b4), b) == MulD(b) && Add(Add(b8, b4), b2) == MulE(b)
  {
    hide Xtime, Add;
    var b2, b4 := Xtime(b), Xtime(Xtime(b));
    var b8 := Xtime(b4);
    R.AddAssoc(b8, b, b2);
    R.AddAssoc(b8, b4, b);
    R.AddAssoc(b8, b4, b2);
    AddCommutes(b, b2);
  }

  lemma AddCommutes(x: byte, y: byte)
    ensures Add(x, y) == Add(y, x)
  {
  }

  lemma Tripled(b: byte)
    ensures Add(Xtime(b), b) == Mul3(b)
  {
  }

  /** XTIME. */
  function XTime(b: byte): byte { if b & 0x80 != 0 then (b << 1) ^ 0x1b else b << 1 }

  lemma XTimeIsXtime(b: byte)
    ensures XTime(b) == Xtime(b)
  {
    hide Xtime;
    XtimeConditional(b);
  }

  lemma EncodedEntries(x: byte)
    ensures Entry(0, x) == R.Te0(x) && Entry(1, x) == R.Te1(x) && Entry(2, x) == R.Te2(x)
    ensures Entry(3, x) == R.Te3(x) && Entry(4, x) == R.Te4(x)
  {
    hide R.Te0, R.Te1, R.Te2, R.Te3, R.Te4, R.Td0, R.Td1, R.Td2, R.Td3, R.Td4;
  }

  /** The five encryption words of one index. */
  method EncEntries(x: byte, s: byte) returns (w: seq<word>)
    requires s == SB.S(x)
    ensures |w| == 5 && forall i :: 0 <= i < 5 ==> w[i] == Entry(i, x)
  {
    hide Xtime, XTime, Add, Mul3, SB.S, Pack, Rotl, Entry;
    XTimeIsXtime(s);
    Tripled(s);
    EncodedEntries(x);
    var s2 := XTime(s);
    var s3 := Add(s2, s);
    RotatePack24(s2, s, s, s3);
    RotatePack16(s2, s, s, s3);
    RotatePack8(s2, s, s, s3);
    var te0 := Pack(s2, s, s, s3);
    w := [te0, Rotl(te0, 24), Rotl(te0, 16), Rotl(te0, 8), Pack(s, s, s, s)];
  }

  /** The five decryption words of one index. */
  method DecEntries(x: byte, s: byte) returns (w: seq<word>)
    requires s == SB.Si(x)
    ensures |w| == 5 && forall i :: 0 <= i < 5 ==> w[i] == Entry(5 + i, x)
  {
    hide Xtime, XTime, Add, Mul9, MulB, MulD, MulE, SB.Si, Pack, Rotl, R.Te0, R.Te1, R.Te2, R.Te3, R.Te4;
    XTimeIsXtime(s);
    var s2 := XTime(s);
    XTimeIsXtime(s2);
    var s4 := XTime(s2);
    XTimeIsXtime(s4);
    var s8 := XTime(s4);
    var s9 := Add(s8, s);
    var sb := Add(s9, s2);
    var sd := Add(Add(s8, s4), s);
    var se := Add(Add(s8, s4), s2);
    ChainedMultiples(s);
    RotatePack24(se, s9, sd, sb);
    RotatePack16(se, s9, sd, sb);
    RotatePack8(se, s9, sd, sb);
    var td0 := Pack(se, s9, sd, sb);
    w := [td0, Rotl(td0, 24), Rotl(td0, 16), Rotl(td0, 8), Pack(s, s, s, s)];
  }

  /** The substitution tables hold the S-box and its inverse. */
  ghost predicate Boxes(S: array<byte>, Si: array<byte>)
    reads S, Si
  {
    S.Length == Si.Length == 256 && forall k :: 0 <= k < 256 ==> S[k] == SB.S(k as byte) && Si[k] == SB.Si(k as byte)
  }

  /** Ten table pointers; those that are not null have room, and no two are the same table. */
  ghost predicate Tables(at: seq<array?<word>>) {
    && |at| == 10
    && (forall i :: 0 <= i < 10 && at[i] != null ==> at[i].Length == 256)
    && forall i, j :: 0 <= i < j < 10 && at[i] != null ==> at[i] != at[j]
  }

  /** The first k entries of the tables from..to are right. */
  ghost predicate Filled(at: seq<array?<word>>, from: nat, to: nat, k: nat)
    requires Tables(at) && to <= 10 && k <= 256
    reads set t: array<word> | t in at
  {
    forall i, j :: from <= i < to && at[i] != null && 0 <= j < k ==> at[i][j] == Entry(i, j as byte)
  }

  /** Entry k of the tables that are wanted. */
  method StoreEntries(at: seq<array?<word>>, k: nat, w: seq<word>)
    requires Tables(at) && k < 256 && Filled(at, 0, 10, k)
    requires |w| == 10 && forall i :: 0 <= i < 10 ==> w[i] == Entry(i, k as byte)
    modifies set t: array<word> | t in at
    ensures Filled(at, 0, 10, k + 1)
  {
    hide Entry;
    var i := 0;
    while i < 10
      invariant 0 <= i <= 10
      invariant Filled(at, 0, i, k + 1) && Filled(at, i, 10, k)
    {
      if at[i] != null {
        at[i][k] := w[i];
      }
      i := i + 1;
    }
  }

  /** aes_gen_tables: each table that is not null receives its 256 entries. */
  method AesGenTables(S: array<byte>, Si: array<byte>, at: seq<array?<word>>)
    requires Boxes(S, Si) && Tables(at)
    modifies set t: array<word> | t in at
    ensures Filled(at, 0, 10, 256)
  {
    hide Entry, SB.S, SB.Si;
    var k := 0;
    while k < 256
      invariant 0 <= k <= 256 && Boxes(S, Si) && Filled(at, 0, 10, k)
    {
      var te := EncEntries(k as byte, S[k]);
      var td := DecEntries(k as byte, Si[k]);
      StoreEntries(at, k, te + td);
      k := k + 1;
    }
  }
}
