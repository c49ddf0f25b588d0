/**
  SMS4 as a block function, and the two WPI modes of sms4.c: CBC-MAC over additional data and
  payload, and output feedback in place.
 */
module Sms4Wpi {
  import opened Words
  import opened BlockCipher
  import opened CbcMac
  import S4 = Sms4

  const MAX_MPDU_LEN := 2278
  const SUCCESS := 0
  const CBC_MAC_ERROR := -3
  const OFB_ERROR := -4

  // ----- SMS4 on blocks of bytes -----

  function Load(b: seq<byte>): S4.Quad
    requires |b| == 16
  {
    S4.Quad(Get32(b, 0), Get32(b, 4), Get32(b, 8), Get32(b, 12))
  }

  function Store(q: S4.Quad): Block { Put32(q.a) + Put32(q.b) + (Put32(q.c) + Put32(q.d)) }

  /** Word j of the four. */
  function Lane(q: S4.Quad, j: nat): word
    requires j < 4
  {
    if j == 0 then q.a else if j == 1 then q.b else if j == 2 then q.c else q.d
  }

  lemma StoreByte(q: S4.Quad, k: nat)
    requires k < 16
    ensures Store(q)[k] == Put32(Lane(q, k / 4))[k % 4]
  {
    hide Put32;
  }

  lemma LoadLane(q: S4.Quad, j: nat)
    requires j < 4
    ensures Get32(Store(q), 4 * j) == Lane(q, j)
  {
    hide B0, B1, B2, B3, Pack, Store;
    StoreByte(q, 4 * j);
    StoreByte(q, 4 * j + 1);
    StoreByte(q, 4 * j + 2);
    StoreByte(q, 4 * j + 3);
    BytesPack(Lane(q, j));
  }

  lemma LoadStore(q: S4.Quad)
    ensures Load(Store(q)) == q
  {
    hide Store, Get32;
    LoadLane(q, 0);
    LoadLane(q, 1);
    LoadLane(q, 2);
    LoadLane(q, 3);
  }

  /** Four words whose bytes are those of b. */
  lemma StoreLoad(b: Block)
    ensures Store(Load(b)) == b
  {
    hide B0, B1, B2, B3, Pack, Store;
    forall k | 0 <= k < 16
      ensures Store(Load(b))[k] == b[k]
    {
      StoreByte(Load(b), k);
      var j := k / 4;
      PackBytes(b[4 * j], b[4 * j + 1], b[4 * j + 2], b[4 * j + 3]);
    }
  }

  /** The block function of a set of round keys. */
  function Fn(rk: seq<word>): BlockFn { (b: Block) => Store(S4.Encrypt(Load(b), rk)) }

  /** The round keys of a sixteen-byte key. */
  function Keys(key: Block): (rk: seq<word>)
    ensures |rk| == S4.RK_WORDS
  {
    var q := Load(key);
    S4.RoundKeys([q.a, q.b, q.c, q.d])
  }

  /** SMS4 under a key. */
  function Cipher(key: Block): BlockFn { Fn(Keys(key)) }

  function XorQuad(p: S4.Quad, q: S4.Quad): S4.Quad {
    S4.Quad(Xor32(p.a, q.a), Xor32(p.b, q.b), Xor32(p.c, q.c), Xor32(p.d, q.d))
  }

  lemma PutXor(v: word, w: word, i: nat)
    requires i < 4
    ensures Put32(Xor32(v, w))[i] == Xor8(Put32(v)[i], Put32(w)[i])
  {
    hide B0, B1, B2, B3, Xor8, Xor32;
    XorLane0(v, w);
    XorLane1(v, w);
    XorLane2(v, w);
    XorLane3(v, w);
  }

  /** Adding words adds bytes. */
  lemma XorQuadIsXorBlock(p: S4.Quad, q: S4.Quad)
    ensures Store(XorQuad(p, q)) == XorBlock(Store(p), Store(q))
  {
    hide Store, Put32, Xor32;
    forall k | 0 <= k < 16
      ensures Store(XorQuad(p, q))[k] == XorBlock(Store(p), Store(q))[k]
    {
      StoreByte(p, k);
      StoreByte(q, k);
      StoreByte(XorQuad(p, q), k);
      PutXor(Lane(p, k / 4), Lane(q, k / 4), k % 4);
    }
  }

  // ----- the code -----

  /** X[k] = ntoh32(src + 4 k). */
  method LoadBlock(X: array<word>, src: array<byte>, o: nat)
    requires X.Length == 4 && o + 16 <= src.Length
    modifies X
    ensures S4.QuadOf(X[..]) == Load(src[o..o + 16])
  {
    hide Get32;
    ghost var b := src[o..o + 16];
    var i := 0;
    while i < 4
      invariant 0 <= i <= 4
      invariant forall j :: 0 <= j < i ==> X[j] == Get32(b, 4 * j)
    {
      SliceWord(src[..], o, 4 * i);
      X[i] := Get32(src[..], o + 4 * i);
      i := i + 1;
    }
  }

  lemma SliceWord(s: seq<byte>, o: nat, i: nat)
    requires o + 16 <= |s| && i + 4 <= 16
    ensures Get32(s, o + i) == Get32(s[o..o + 16], i)
  {
    hide Pack;
  }

  /** X[k] = Y[k] ^ ntoh32(src + 4 k). */
  method MixBlock(X: array<word>, Y: array<word>, src: array<byte>, o: nat)
    requires X.Length == 4 && Y.Length == 4 && X != Y && o + 16 <= src.Length
    modifies X
    ensures Store(S4.QuadOf(X[..])) == XorBlock(Store(S4.QuadOf(Y[..])), src[o..o + 16])
  {
    hide Get32, Xor32, Store;
    ghost var b, y := src[o..o + 16], S4.QuadOf(Y[..]);
    var i := 0;
    while i < 4
      invariant 0 <= i <= 4 && S4.QuadOf(Y[..]) == y
      invariant forall j :: 0 <= j < i ==> X[j] == Xor32(Y[j], Get32(b, 4 * j))
    {
      SliceWord(src[..], o, 4 * i);
      X[i] := Xor32(Y[i], Get32(src[..], o + 4 * i));
      i := i + 1;
    }
    assert S4.QuadOf(X[..]) == XorQuad(y, Load(b));
    XorQuadIsXorBlock(y, Load(b));
    StoreLoad(b);
  }

  /** The round keys of sixteen key bytes. */
  method PrepareKeys(key: array<byte>) returns (RK: array<word>)
    requires key.Length == 16
    ensures fresh(RK) && RK.Length == S4.RK_WORDS && RK[..] == Keys(key[..])
  {
    hide Get32, Load, S4.K;
    var X := new word[4];
    LoadBlock(X, key, 0);
    assert key[0..0 + 16] == key[..];
    RK := new word[S4.RK_WORDS];
    assert X[..] == [X[0], X[1], X[2], X[3]];
    S4.Sms4KeyExp(X, RK);
  }

  /** One link of the chain: mix in sixteen bytes, encipher. */
  method ChainBlock(RK: array<word>, X: array<word>, Y: array<word>, src: array<byte>, o: nat)
    requires X.Length == 4 && Y.Length == 4 && RK.Length == S4.RK_WORDS && X != Y && RK !in {X, Y}
    requires o + 16 <= src.Length
    modifies X, Y
    ensures Store(S4.QuadOf(Y[..])) == Fn(RK[..])(XorBlock(old(Store(S4.QuadOf(Y[..]))), src[o..o + 16]))
  {
    hide Store, Load, S4.Encrypt, XorBlock;
    ghost var rk := RK[..];
    MixBlock(X, Y, src, o);
    LoadStore(S4.QuadOf(X[..]));
    assert RK[..] == rk;
    S4.Sms4Enc(Y, X, RK);
  }

  /** The chain over whole blocks. */
  method ChainWhole(RK: array<word>, X: array<word>, Y: array<word>, src: array<byte>, o: nat, n: nat)
    requires X.Length == 4 && Y.Length == 4 && RK.Length == S4.RK_WORDS && X != Y && RK !in {X, Y}
    requires o + 16 * n <= src.Length
    modifies X, Y
    ensures Store(S4.QuadOf(Y[..])) == Cbc(Fn(RK[..]), old(Store(S4.QuadOf(Y[..]))), src[o..o + 16 * n])
  {
    hide Store, Cbc, Fn, XorBlock, S4.QuadOf;
    ghost var E, y, rk := Fn(RK[..]), Store(S4.QuadOf(Y[..])), RK[..];
    CbcNothing(E, y);
    assert src[o..o] == [];
    var j := 0;
    while j < n
      invariant 0 <= j <= n && RK[..] == rk
      invariant Store(S4.QuadOf(Y[..])) == Cbc(E, y, src[o..o + 16 * j])
    {
      CbcStep(E, y, src[o..o + 16 * j], src[o + 16 * j..o + 16 * j + 16]);
      assert src[o..o + 16 * (j + 1)] == src[o..o + 16 * j] + src[o + 16 * j..o + 16 * j + 16];
      ChainBlock(RK, X, Y, src, o + 16 * j);
      j := j + 1;
    }
  }

  /** The zero-padded chain over a stretch of n bytes. */
  method ChainStretch(RK: array<word>, X: array<word>, Y: array<word>, src: array<byte>, o: nat, n: nat)
    requires X.Length == 4 && Y.Length == 4 && RK.Length == S4.RK_WORDS && X != Y && RK !in {X, Y}
    requires o + n <= src.Length
    modifies X, Y
    ensures Store(S4.QuadOf(Y[..])) == Cbc(Fn(RK[..]), old(Store(S4.QuadOf(Y[..]))), ZeroPad(src[o..o + n]))
  {
    hide Store, Cbc, Fn, XorBlock, S4.QuadOf, ZeroPad;
    ghost var y, m, rk := Store(S4.QuadOf(Y[..])), src[o..o + n], RK[..];
    var k, rem := n - n % 16, n % 16;
    assert 16 * (n / 16) == k;
    ChainWhole(RK, X, Y, src, o, n / 16);
    assert RK[..] == rk && src[o..o + k] == m[..k];
    ghost var z, words := Store(S4.QuadOf(Y[..])), Y[..];
    if rem != 0 {
      var tmp := new byte[16];
      forall i | 0 <= i < 16 {
        tmp[i] := if i < rem then src[o + k + i] else 0;
      }
      ghost var last := tmp[0..0 + 16];
      assert Y[..] == words;
      PaddedParts(m, k, last);
      CbcStep(Fn(rk), y, m[..k], last);
      ChainBlock(RK, X, Y, tmp, 0);
      assert RK[..] == rk && src[o..o + n] == m;
      assert tmp[0..0 + 16] == last;
      assert Store(S4.QuadOf(Y[..])) == Fn(rk)(XorBlock(z, last));
    } else {
      WholeIsPadded(m);
      assert m[..k] == m;
    }
  }

  lemma PaddedParts(m: seq<byte>, k: nat, last: seq<byte>)
    requires k % 16 == 0 && k < |m| < k + 16 && |last| == 16
    requires forall i :: 0 <= i < 16 ==> last[i] == if k + i < |m| then m[k + i] else 0
    ensures ZeroPad(m) == m[..k] + last
  {
  }

  lemma WholeIsPadded(m: seq<byte>)
    requires |m| % 16 == 0
    ensures ZeroPad(m) == m
  {
  }

  // ----- CBC-MAC over packet number, additional data and payload -----

  /** CBC-MAC of the packet number, the zero-padded additional data and the zero-padded payload. */
  function WpiMac(E: BlockFn, pn: Block, aad: seq<byte>, data: seq<byte>): Block {
    Cbc(E, Zeros(16), pn + (ZeroPad(aad) + ZeroPad(data)))
  }

  /** The three stretches one after the other. */
  lemma WpiMacParts(E: BlockFn, pn: Block, aad: seq<byte>, data: seq<byte>)
    ensures WpiMac(E, pn, aad, data) == Cbc(E, Cbc(E, E(pn), ZeroPad(aad)), ZeroPad(data))
  {
    hide XorBlock, ZeroPad;
    var a, d := ZeroPad(aad), ZeroPad(data);
    CbcConcat(E, Zeros(16), pn, a + d);
    CbcConcat(E, E(pn), a, d);
    CbcStep(E, Zeros(16), [], pn);
    CbcNothing(E, Zeros(16));
    XorBlockZeroLeft(pn);
    assert [] + pn == pn;
  }

  lemma XorBlockZeroLeft(b: Block)
    ensures XorBlock(Zeros(16), b) == b
  {
    forall i | 0 <= i < 16
      ensures XorBlock(Zeros(16), b)[i] == b[i]
    {
      ZeroXor(b[i]);
    }
  }

  lemma ZeroXor(x: byte)
    ensures 0 ^ x == x
  {
  }

  /** The length in the last two bytes of the additional data. */
  function LengthField(aad: seq<byte>): nat
    requires |aad| >= 2
  {
    256 * Num(aad[|aad| - 2]) + Num(aad[|aad| - 1])
  }

  /** hton32_ua_store of four words. */
  method StoreBlock(Y: array<word>, p: array<byte>, o: nat)
    requires Y.Length == 4 && o + 16 <= p.Length
    modifies p
    ensures p[..] == Splice(old(p[..]), o, Store(S4.QuadOf(Y[..])))
  {
    hide Store;
    var b := Store(S4.QuadOf(Y[..]));
    forall i | 0 <= i < 16 {
      p[o + i] := b[i];
    }
  }

  /** The chain itself, from the enciphered packet number. */
  method ChainAll(RK: array<word>, pn: array<byte>, al: nat, aad: array<byte>, p: array<byte>, o: nat, dl: nat)
    returns (Y: array<word>)
    requires RK.Length == S4.RK_WORDS && pn.Length == 16 && al <= aad.Length && o + dl <= p.Length
    ensures fresh(Y) && Y.Length == 4
    ensures Store(S4.QuadOf(Y[..])) == WpiMac(Fn(RK[..]), pn[..], aad[..al], p[o..o + dl])
  {
    hide Store, Load, Cbc, S4.Encrypt, S4.QuadOf, ZeroPad, WpiMac;
    ghost var rk, a, d := RK[..], aad[..al], p[o..o + dl];
    var X := new word[4];
    Y := new word[4];
    LoadBlock(X, pn, 0);
    assert pn[0..0 + 16] == pn[..];
    S4.Sms4Enc(Y, X, RK);
    assert RK[..] == rk && aad[0..0 + al] == a;
    ChainStretch(RK, X, Y, aad, 0, al);
    assert RK[..] == rk && p[o..o + dl] == d && aad[0..0 + al] == a;
    ChainStretch(RK, X, Y, p, o, dl);
    assert RK[..] == rk && p[o..o + dl] == d && aad[..al] == a;
    WpiMacParts(Fn(rk), pn[..], a, d);
  }

  /** sms4_wpi_cbc_mac: the MAC goes behind the payload. */
  method Sms4WpiCbcMac(ick: array<byte>, pn: array<byte>, al: nat, aad: array<byte>, p: array<byte>, o: nat)
    returns (rc: int)
    requires ick.Length == 16 && pn.Length == 16 && 2 <= al <= aad.Length
    requires LengthField(aad[..al]) <= MAX_MPDU_LEN ==> o + LengthField(aad[..al]) + 16 <= p.Length
    modifies p
    ensures rc == if LengthField(old(aad[..al])) > MAX_MPDU_LEN then CBC_MAC_ERROR else SUCCESS
    ensures rc != SUCCESS ==> p[..] == old(p[..])
    ensures rc == SUCCESS ==>
      var dl := LengthField(old(aad[..al]));
      p[..] == Splice(old(p[..]), o + dl, WpiMac(Cipher(old(ick[..])), old(pn[..]), old(aad[..al]), old(p[o..o + dl])))
  {
    hide Num, Splice, WpiMac, Keys, Fn, Store;
    assert aad[..al][al - 2] == aad[al - 2] && aad[..al][al - 1] == aad[al - 1];
    var dl := 256 * Num(aad[al - 2]) + Num(aad[al - 1]);
    if dl > MAX_MPDU_LEN {
      return CBC_MAC_ERROR;
    }
    ghost var was := p[..];
    var RK := PrepareKeys(ick);
    var Y := ChainAll(RK, pn, al, aad, p, o, dl);
    assert p[..] == was;
    StoreBlock(Y, p, o + dl);
    return SUCCESS;
  }

  // ----- output feedback -----

  /** The packet number enciphered k times over. */
  function Feedback(E: BlockFn, pn: Block, k: nat): Block {
    if k == 0 then pn else E(Feedback(E, pn, k - 1))
  }

  function Ofb(E: BlockFn, pn: Block, data: seq<byte>): (r: seq<byte>)
    ensures |r| == |data|
  {
    seq(|data|, i requires 0 <= i < |data| => data[i] ^ Feedback(E, pn, i / 16 + 1)[i % 16])
  }

  /** Output feedback undoes itself. */
  lemma OfbTwice(E: BlockFn, pn: Block, data: seq<byte>)
    ensures Ofb(E, pn, Ofb(E, pn, data)) == data
  {
    forall i | 0 <= i < |data|
      ensures Ofb(E, pn, Ofb(E, pn, data))[i] == data[i]
    {
      XorByte(data[i], Feedback(E, pn, i / 16 + 1)[i % 16]);
    }
  }

  /** The output bytes of (part of) block k. */
  lemma FeedbackBlock(E: BlockFn, pn: Block, n: nat, k: nat)
    requires 16 * k + 16 <= n
    ensures Ofb(E, pn, Zeros(n))[16 * k..16 * k + 16] == Feedback(E, pn, k + 1)
  {
    hide Feedback;
    var z, b := Ofb(E, pn, Zeros(n)), Feedback(E, pn, k + 1);
    forall i | 0 <= i < 16
      ensures z[16 * k..16 * k + 16][i] == b[i]
    {
      assert (16 * k + i) / 16 == k && (16 * k + i) % 16 == i;
      ZeroXor(b[i]);
    }
  }

  lemma {:induction false} FeedbackInjective(E: BlockFn, D: BlockFn, pn: Block, pn': Block, k: nat)
    requires Inverses(E, D)
    ensures Feedback(E, pn, k) == Feedback(E, pn', k) <==> pn == pn'
  {
    if k > 0 {
      FeedbackInjective(E, D, pn, pn', k - 1);
      var f, f' := Feedback(E, pn, k - 1), Feedback(E, pn', k - 1);
      assert D(E(f)) == f && D(E(f')) == f';
    }
  }

  /** Under an invertible cipher two packet numbers give keystreams that differ in every block. */
  lemma PacketNumberMatters(E: BlockFn, D: BlockFn, pn: Block, pn': Block, n: nat, k: nat)
    requires Inverses(E, D) && 16 * k + 16 <= n
    ensures Ofb(E, pn, Zeros(n))[16 * k..16 * k + 16] == Ofb(E, pn', Zeros(n))[16 * k..16 * k + 16] <==> pn == pn'
  {
    hide Ofb, Feedback;
    FeedbackBlock(E, pn, n, k);
    FeedbackBlock(E, pn', n, k);
    FeedbackInjective(E, D, pn, pn', k + 1);
  }

  /** Each keystream block but the first is the cipher of the one before it. */
  lemma KeystreamFeeds(E: BlockFn, pn: Block, n: nat, k: nat)
    requires 16 * k + 32 <= n
    ensures var z := Ofb(E, pn, Zeros(n));
            z[..16] == E(pn) && z[16 * k + 16..16 * k + 32] == E(z[16 * k..16 * k + 16])
  {
    hide Ofb;
    FeedbackBlock(E, pn, n, 0);
    FeedbackBlock(E, pn, n, k);
    FeedbackBlock(E, pn, n, k + 1);
    assert Feedback(E, pn, 0) == pn;
  }

  lemma OfbBlock(E: BlockFn, pn: Block, data: seq<byte>, k: nat, m: nat)
    requires m <= 16 && 16 * k + m <= |data|
    ensures Ofb(E, pn, data)[16 * k..16 * k + m] == Xor(data[16 * k..16 * k + m], Feedback(E, pn, k + 1)[..m])
  {
    hide Feedback;
    var r := Ofb(E, pn, data)[16 * k..16 * k + m];
    forall i | 0 <= i < m
      ensures r[i] == data[16 * k + i] ^ Feedback(E, pn, k + 1)[i]
    {
      assert (16 * k + i) / 16 == k && (16 * k + i) % 16 == i;
    }
  }

  /** One (whole or partial) block in place. */
  method OfbStep(RK: array<word>, X: array<word>, tmp: array<byte>, p: array<byte>, o: nat, k: nat, m: nat,
                 ghost pn: Block, ghost data: seq<byte>, ghost out: seq<byte>)
    requires RK.Length == S4.RK_WORDS && X.Length == 4 && X != RK && tmp.Length == 16 && tmp != p
    requires m <= 16 && 16 * k + m <= |data| && o + |data| <= |out| && out[o..o + |data|] == data
    requires Store(S4.QuadOf(X[..])) == Feedback(Fn(RK[..]), pn, k)
    requires p[..] == Splice(out, o, Ofb(Fn(RK[..]), pn, data)[..16 * k])
    modifies X, tmp, p
    ensures Store(S4.QuadOf(X[..])) == Feedback(Fn(RK[..]), pn, k + 1)
    ensures p[..] == Splice(out, o, Ofb(Fn(RK[..]), pn, data)[..16 * k + m])
  {
    hide Splice, Ofb, Xor, Store, Load, S4.Encrypt, S4.QuadOf;
    ghost var E, r, now, rk := Fn(RK[..]), Ofb(Fn(RK[..]), pn, data), p[..], RK[..];
    LoadStore(S4.QuadOf(X[..]));
    S4.Sms4Enc(X, X, RK);
    ghost var key := Store(S4.QuadOf(X[..]));
    StoreBlock(X, tmp, 0);
    SplicePrefix(old(tmp[..]), key);
    assert tmp[0..0 + m] == key[..m] && p[..] == now && RK[..] == rk;
    OfbBlock(E, pn, data, k, m);
    RestOfData(out, o, data, r, 16 * k, m);
    assert p[o + 16 * k..o + 16 * k + m] == now[o + 16 * k..o + 16 * k + m];
    SpliceTwice(out, o, r[..16 * k], r[16 * k..16 * k + m]);
    assert r[..16 * k] + r[16 * k..16 * k + m] == r[..16 * k + m];
    XorInto(p, o + 16 * k, p, o + 16 * k, tmp, 0, m);
    assert RK[..] == rk;
  }

  /** What follows the stretch already replaced is still data. */
  lemma RestOfData(out: seq<byte>, o: nat, data: seq<byte>, r: seq<byte>, n: nat, m: nat)
    requires o + |data| <= |out| && out[o..o + |data|] == data && |r| == |data| && n + m <= |data|
    ensures Splice(out, o, r[..n])[o + n..o + n + m] == data[n..n + m]
  {
    assert Splice(out, o, r[..n])[o + n..o + n + m] == out[o + n..o + n + m];
    var a, b := out[o + n..o + n + m], out[o..o + |data|];
    forall i | 0 <= i < m
      ensures a[i] == b[n..n + m][i]
    {
      assert b[n + i] == out[o + (n + i)];
    }
  }

  /** sms4_ofb_crypt in place on dl bytes of p from offset o. */
  method Sms4OfbCrypt(ek: array<byte>, pn: array<byte>, dl: nat, p: array<byte>, o: nat) returns (rc: int)
    requires ek.Length == 16 && pn.Length == 16 && o + dl <= p.Length
    modifies p
    ensures rc == if dl > MAX_MPDU_LEN then OFB_ERROR else SUCCESS
    ensures rc != SUCCESS ==> p[..] == old(p[..])
    ensures rc == SUCCESS ==>
      p[..] == Splice(old(p[..]), o, Ofb(Cipher(old(ek[..])), old(pn[..]), old(p[o..o + dl])))
  {
    hide Splice, Ofb, Store, Load, Keys, Fn, S4.QuadOf;
    if dl > MAX_MPDU_LEN {
      return OFB_ERROR;
    }
    ghost var out, data, iv: Block := p[..], p[o..o + dl], pn[..];
    var RK := PrepareKeys(ek);
    var X, tmp := new word[4], new byte[16];
    LoadBlock(X, pn, 0);
    assert pn[0..0 + 16] == iv;
    StoreLoad(iv);
    OfbLoop(RK, X, tmp, p, o, dl, iv, data);
    return SUCCESS;
  }

  method OfbLoop(RK: array<word>, X: array<word>, tmp: array<byte>, p: array<byte>, o: nat, dl: nat,
                 ghost pn: Block, ghost data: seq<byte>)
    requires RK.Length == S4.RK_WORDS && X.Length == 4 && X != RK && tmp.Length == 16 && tmp != p
    requires o + dl <= p.Length && p[o..o + dl] == data && Store(S4.QuadOf(X[..])) == pn
    modifies X, tmp, p
    ensures p[..] == Splice(old(p[..]), o, Ofb(Fn(RK[..]), pn, data))
  {
    hide Splice, Ofb, Store, Fn, S4.QuadOf;
    ghost var out, r, rk := p[..], Ofb(Fn(RK[..]), pn, data), RK[..];
    SpliceNothing(out, o);
    assert r[..16 * 0] == [] && r[..dl] == r;
    var k := 0;
    while k < dl / 16
      invariant 0 <= k <= dl / 16 && RK[..] == rk
      invariant Store(S4.QuadOf(X[..])) == Feedback(Fn(rk), pn, k)
      invariant p[..] == Splice(out, o, r[..16 * k])
    {
      OfbStep(RK, X, tmp, p, o, k, 16, pn, data, out);
      k := k + 1;
    }
    if dl % 16 != 0 {
      OfbStep(RK, X, tmp, p, o, k, dl % 16, pn, data, out);
    }
  }
}
