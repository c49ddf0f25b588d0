/**
  CCM as aes.c composes it: a CBC-MAC over formatted blocks and counter mode over the data and
  the MAC.
 */
module Ccm {
  import opened Words
  import opened BlockCipher
  import opened CbcMac
  import opened Ctr

  const NONCE_LEN := 13
  const AUTH_LEN := 8
  const AAD_MAX_LEN := 0xFEFF
  const AUTH_FLAGS: byte := 0x19
  const AAD_FLAG: byte := 0x40
  const CRYPT_FLAGS: byte := 0x01

  /** Flags, nonce, and two final octets: the shape of B_0 and of the counter blocks. */
  function Formatted(flags: byte, nonce: seq<byte>, last: seq<byte>): Block
    requires |nonce| == NONCE_LEN && |last| == 2
  {
    [flags] + nonce + last
  }

  function B0Block(nonce: seq<byte>, la: nat, len: nat): Block
    requires |nonce| == NONCE_LEN
  {
    Formatted(if la > 0 then AUTH_FLAGS | AAD_FLAG else AUTH_FLAGS, nonce, TwoBytes(len))
  }

  /** The blocks of the additional data: its length, the data, zeros (section 2.2 of RFC 3610). */
  function AadStream(aad: seq<byte>): seq<byte> {
    if aad == [] then [] else TwoBytes(|aad|) + aad
  }

  /** B_1 to B_n of section 2.2 of RFC 3610. */
  function MacBlocks(aad: seq<byte>, data: seq<byte>): (b: seq<byte>)
    ensures |b| % 16 == 0
  {
    var a, d := ZeroPad(AadStream(aad)), ZeroPad(data);
    MultiplesAdd(|a|, |d|);
    a + d
  }

  lemma MultiplesAdd(a: nat, b: nat)
    requires a % 16 == 0 && b % 16 == 0
    ensures (a + b) % 16 == 0
  {
  }

  /** The last chaining value over B_0, the additional data and the message. */
  function CbcMacValue(E: BlockFn, nonce: seq<byte>, aad: seq<byte>, data: seq<byte>): Block
    requires |nonce| == NONCE_LEN
  {
    Cbc(E, E(B0Block(nonce, |aad|, |data|)), MacBlocks(aad, data))
  }

  function Mac(E: BlockFn, nonce: seq<byte>, aad: seq<byte>, data: seq<byte>): (t: seq<byte>)
    requires |nonce| == NONCE_LEN
    ensures |t| == AUTH_LEN
  {
    CbcMacValue(E, nonce, aad, data)[..AUTH_LEN]
  }

  /** The counter block A_n. */
  function CounterStart(nonce: seq<byte>, n: byte): Block
    requires |nonce| == NONCE_LEN
  {
    Formatted(CRYPT_FLAGS, nonce, [0, n])
  }

  predicate LengthsOk(la: nat, len: nat) { la <= AAD_MAX_LEN && len <= 16 * MAX_BLOCKS }

  /** What aes_ccm_encrypt produces: the encrypted data followed by the encrypted MAC. */
  function Seal(E: BlockFn, nonce: seq<byte>, aad: seq<byte>, data: seq<byte>): (c: seq<byte>)
    requires |nonce| == NONCE_LEN
    ensures |c| == |data| + AUTH_LEN
  {
    Crypt(E, CounterStart(nonce, 1), data) + Crypt(E, CounterStart(nonce, 0), Mac(E, nonce, aad, data))
  }

  /** The decrypted data and MAC that aes_ccm_decrypt leaves in the buffer. */
  function Unseal(E: BlockFn, nonce: seq<byte>, c: seq<byte>): (d: seq<byte>)
    requires |nonce| == NONCE_LEN && |c| >= AUTH_LEN
    ensures |d| == |c|
  {
    Crypt(E, CounterStart(nonce, 1), c[..|c| - AUTH_LEN]) + Crypt(E, CounterStart(nonce, 0), c[|c| - AUTH_LEN..])
  }

  /** What aes_ccm_decrypt accepts and returns. */
  function Open(E: BlockFn, nonce: seq<byte>, aad: seq<byte>, c: seq<byte>): Option<seq<byte>>
    requires |nonce| == NONCE_LEN
  {
    if |c| < AUTH_LEN || !LengthsOk(|aad|, |c| - AUTH_LEN) then None else
      var d := Unseal(E, nonce, c);
      var data := d[..|c| - AUTH_LEN];
      if Mac(E, nonce, aad, data) == d[|c| - AUTH_LEN..] then Some(data) else None
  }

  /** Opening accepts exactly the sealings, and gives back what was sealed. */
  lemma OpenIffSealed(E: BlockFn, nonce: seq<byte>, aad: seq<byte>, data: seq<byte>, c: seq<byte>)
    requires |nonce| == NONCE_LEN && LengthsOk(|aad|, |data|)
    ensures Open(E, nonce, aad, c) == Some(data) <==> c == Seal(E, nonce, aad, data)
  {
    hide Crypt, Mac;
    var a0, a1 := CounterStart(nonce, 0), CounterStart(nonce, 1);
    var t := Mac(E, nonce, aad, data);
    CryptTwice(E, a1, data);
    CryptTwice(E, a0, t);
    if c == Seal(E, nonce, aad, data) {
      assert c[..|c| - AUTH_LEN] == Crypt(E, a1, data) && c[|c| - AUTH_LEN..] == Crypt(E, a0, t);
    }
    if Open(E, nonce, aad, c) == Some(data) {
      var c1, c0 := c[..|c| - AUTH_LEN], c[|c| - AUTH_LEN..];
      CryptTwice(E, a1, c1);
      CryptTwice(E, a0, c0);
      assert c == c1 + c0;
    }
  }

  /** The two length octets carry the length exactly when it fits sixteen bits. */
  lemma LengthExact(n: nat)
    ensures Value(TwoBytes(n)[0], TwoBytes(n)[1]) == n <==> n < 65536
  {
    hide Num, TwoBytes;
    TwoBytesValue(n);
    assert n < 65536 ==> n % 65536 == n;
  }

  // ----- the formatting loses nothing -----

  lemma B0Parts(nonce: seq<byte>, la: nat, len: nat)
    requires |nonce| == NONCE_LEN
    ensures var b := B0Block(nonce, la, len);
            && b[0] == (if la > 0 then AUTH_FLAGS | AAD_FLAG else AUTH_FLAGS)
            && b[1..14] == nonce && b[14..] == TwoBytes(len)
  {
    hide TwoBytes;
  }

  /** The flags octet of section 2.2 of RFC 3610 for an eight-octet MAC and a two-octet length. */
  lemma FlagsOfRfc(nonce: seq<byte>, la: nat, len: nat)
    requires |nonce| == NONCE_LEN
    ensures Num(B0Block(nonce, la, len)[0]) == (if la > 0 then 64 else 0) + 8 * ((AUTH_LEN - 2) / 2) + (2 - 1)
    ensures CounterStart(nonce, 0)[0] == 2 - 1
  {
    assert Num(AUTH_FLAGS) == 25 && Num(AUTH_FLAGS | AAD_FLAG) == 89;
  }

  lemma SplitMacBlocks(aad: seq<byte>, data: seq<byte>)
    ensures var l := |ZeroPad(AadStream(aad))|;
            MacBlocks(aad, data)[..l] == ZeroPad(AadStream(aad)) && MacBlocks(aad, data)[l..] == ZeroPad(data)
    ensures aad != [] ==> |MacBlocks(aad, data)| >= 2 && MacBlocks(aad, data)[..2] == TwoBytes(|aad|)
  {
    hide ZeroPad, TwoBytes;
    PadPrefix(AadStream(aad));
    if aad != [] {
      assert ZeroPad(AadStream(aad))[..2] == AadStream(aad)[..2] == TwoBytes(|aad|) by {
        assert ZeroPad(AadStream(aad))[..2] == ZeroPad(AadStream(aad))[..|AadStream(aad)|][..2];
      }
    }
  }

  /** The blocks of the additional data determine them. */
  lemma SameMacBlocks(a: seq<byte>, d: seq<byte>, a': seq<byte>, d': seq<byte>)
    requires |a| <= AAD_MAX_LEN && |a'| <= AAD_MAX_LEN && (a == [] <==> a' == [])
    requires MacBlocks(a, d) == MacBlocks(a', d')
    ensures a == a' && ZeroPad(d) == ZeroPad(d')
  {
    hide ZeroPad, TwoBytes, MacBlocks, AadStream;
    SplitMacBlocks(a, d);
    SplitMacBlocks(a', d');
    if a == [] {
      assert AadStream(a) == AadStream(a');
    } else {
      TwoBytesInjective(|a|, |a'|);
      SameLengthStream(a, a');
    }
  }

  lemma SameLengthStream(a: seq<byte>, a': seq<byte>)
    requires |a| == |a'| > 0
    ensures |ZeroPad(AadStream(a))| == |ZeroPad(AadStream(a'))|
    ensures ZeroPad(AadStream(a)) == ZeroPad(AadStream(a')) ==> a == a'
  {
    hide ZeroPad, TwoBytes;
    PadPrefix(AadStream(a));
    PadPrefix(AadStream(a'));
    if ZeroPad(AadStream(a)) == ZeroPad(AadStream(a')) {
      assert a == AadStream(a)[2..] && a' == AadStream(a')[2..];
    }
  }

  /** Different nonces, additional data or data never give the same blocks B_0 to B_n (section 2.2 of RFC 3610). */
  lemma FormattingInjective(n: seq<byte>, a: seq<byte>, d: seq<byte>, n': seq<byte>, a': seq<byte>, d': seq<byte>)
    requires |n| == |n'| == NONCE_LEN && |a| <= AAD_MAX_LEN && |a'| <= AAD_MAX_LEN
    ensures B0Block(n, |a|, |d|) + MacBlocks(a, d) == B0Block(n', |a'|, |d'|) + MacBlocks(a', d')
       <==> n == n' && a == a' && d == d'
  {
    hide ZeroPad, TwoBytes, MacBlocks, B0Block;
    var b, b' := B0Block(n, |a|, |d|), B0Block(n', |a'|, |d'|);
    var s, s' := b + MacBlocks(a, d), b' + MacBlocks(a', d');
    if s == s' {
      assert b == s[..16] == s'[..16] == b';
      assert MacBlocks(a, d) == s[16..] == s'[16..] == MacBlocks(a', d');
      B0Parts(n, |a|, |d|);
      B0Parts(n', |a'|, |d'|);
      FlagsDiffer();
      SameMacBlocks(a, d, a', d');
      TwoBytesInjective(|d|, |d'|);
      PadInjective(d, d');
    }
  }

  lemma FlagsDiffer()
    ensures AUTH_FLAGS | AAD_FLAG != AUTH_FLAGS
  {
  }

  /** The counter blocks of section 2.3 of RFC 3610: flags, nonce, and the number of the block, big endian. */
  lemma CounterFormat(nonce: seq<byte>, k: nat)
    requires |nonce| == NONCE_LEN
    ensures CounterAt(CounterStart(nonce, 0), k)[..14] == [CRYPT_FLAGS] + nonce
    ensures CounterValue(CounterAt(CounterStart(nonce, 0), k)) == k % 65536
  {
    hide CounterAt, Value;
    var a0 := CounterStart(nonce, 0);
    CounterAdds(a0, k);
    ZeroValue();
    assert a0[..14] == [CRYPT_FLAGS] + nonce;
  }

  lemma ZeroValue()
    ensures Value(0, 0) == 0
  {
  }

  /**
    Data use the counter blocks from A_1 on and the MAC uses A_0. The two stay apart exactly up to
    16 * 65535 bytes of data, one block short of what LengthsOk allows.
   */
  lemma MacCounterApart(nonce: seq<byte>, len: nat)
    requires |nonce| == NONCE_LEN
    ensures (forall k: nat | 16 * k < len :: CounterAt(CounterStart(nonce, 1), k) != CounterStart(nonce, 0))
       <==> len <= 16 * (MAX_BLOCKS - 1)
  {
    hide CounterAt, Value;
    forall k: nat
      ensures CounterAt(CounterStart(nonce, 1), k) == CounterStart(nonce, 0) <==> k % 65536 == 65535
    {
      DataCounter(nonce, k);
    }
    if len > 16 * (MAX_BLOCKS - 1) {
      assert CounterAt(CounterStart(nonce, 1), 65535) == CounterStart(nonce, 0);
    }
  }

  lemma FirstCounter(nonce: seq<byte>)
    requires |nonce| == NONCE_LEN
    ensures Bump(CounterStart(nonce, 0)) == CounterStart(nonce, 1)
  {
    assert Next(0) == 1;
  }

  /** Counter block k of the data is A_{k+1}, which is A_0 again when k + 1 is a multiple of 2^16. */
  lemma DataCounter(nonce: seq<byte>, k: nat)
    requires |nonce| == NONCE_LEN
    ensures CounterAt(CounterStart(nonce, 1), k) == CounterStart(nonce, 0) <==> k % 65536 == 65535
  {
    hide Bump;
    var a0 := CounterStart(nonce, 0);
    FirstCounter(nonce);
    CounterShifted(a0, k);
    CountersDistinct(a0, k + 1, 0);
  }

  // ----- the code -----

  /** Exclusive-ors one byte into the chaining buffer, enciphering it when it is complete. */
  method AbsorbOne(E: BlockFn, X: array<byte>, k: nat, c: byte, ghost x: Block, ghost s: seq<byte>) returns (k': nat)
    requires X.Length == 16 && k == |s| % 16 && X[..] == Absorb(E, x, s)
    modifies X
    ensures k' == (|s| + 1) % 16 && X[..] == Absorb(E, x, s + [c])
  {
    hide Absorb;
    AbsorbByte(E, x, s, c);
    X[k] := X[k] ^ c;
    k' := k + 1;
    if k' == 16 {
      ApplyBlock(E, X, X);
      k' := 0;
    }
  }

  /** The AAD loop of aes_ccm_mac: length octets, then the data, byte by byte. */
  method AbsorbAad(E: BlockFn, X: array<byte>, aad: array<byte>, aadLen: nat)
    requires X.Length == 16 && X != aad && aadLen <= aad.Length
    modifies X
    ensures X[..] == Cbc(E, old(X[..]), ZeroPad(AadStream(old(aad[..aadLen]))))
  {
    hide Absorb, Cbc, ZeroPad;
    ghost var x: Block, a := X[..], aad[..aadLen];
    if aadLen != 0 {
      var high, low := ((aadLen / 256) % 256) as byte, (aadLen % 256) as byte;
      AbsorbShort(E, x, []);
      XorBlockNothing(x);
      assert [] + [high] == [high] && [high] + [low] == TwoBytes(aadLen);
      var k := AbsorbOne(E, X, 0, high, x, []);
      k := AbsorbOne(E, X, k, low, x, [high]);
      ghost var s := TwoBytes(aadLen);
      var j := 0;
      while j < aadLen
        invariant 0 <= j <= aadLen
        invariant k == |s| % 16 && |s| == 2 + j && s == TwoBytes(aadLen) + a[..j]
        invariant X[..] == Absorb(E, x, s)
      {
        k := AbsorbOne(E, X, k, aad[j], x, s);
        s := s + [a[j]];
        j := j + 1;
      }
      assert s == AadStream(a);
      AbsorbIsCbc(E, x, s);
      if k % 16 != 0 {
        ApplyBlock(E, X, X);
      }
    } else {
      ZeroPadEmpty();
      assert AadStream(a) == [];
      CbcNothing(E, x);
    }
  }

  /** The whole-block loop of aes_ccm_mac. */
  method AbsorbBlocks(E: BlockFn, X: array<byte>, ptxt: array<byte>, po: nat, n: nat)
    requires X.Length == 16 && X != ptxt && po + 16 * n <= ptxt.Length
    modifies X
    ensures X[..] == Absorb(E, old(X[..]), old(ptxt[po..po + 16 * n]))
  {
    hide Absorb, XorBlock;
    ghost var x: Block, d, source := X[..], ptxt[po..po + 16 * n], ptxt[..];
    var k := 0;
    AbsorbShort(E, x, []);
    XorBlockNothing(x);
    assert d[..0] == [];
    while k < n
      invariant 0 <= k <= n
      invariant X[..] == Absorb(E, x, d[..16 * k])
    {
      AbsorbBlock(E, x, d[..16 * k], d[16 * k..16 * k + 16]);
      assert d[..16 * k] + d[16 * k..16 * k + 16] == d[..16 * (k + 1)];
      StretchOf(source, po, 16 * n, 16 * k);
      assert ptxt[..] == source && ptxt[po + 16 * k..po + 16 * k + 16] == d[16 * k..16 * k + 16];
      AbsorbWhole(E, X, ptxt, po + 16 * k);
      k := k + 1;
    }
    assert d[..16 * n] == d;
  }

  lemma StretchOf(s: seq<byte>, o: nat, n: nat, i: nat)
    requires o + n <= |s| && i + 16 <= n
    ensures s[o..o + n][i..i + 16] == s[o + i..o + i + 16]
  {
    var a, b := s[o..o + n][i..i + 16], s[o + i..o + i + 16];
    forall k | 0 <= k < 16
      ensures a[k] == b[k]
    {
      assert a[k] == s[o..o + n][i + k] == s[o + i + k];
    }
  }

  /** One whole block: exclusive or, then encipher. */
  method AbsorbWhole(E: BlockFn, X: array<byte>, ptxt: array<byte>, o: nat)
    requires X.Length == 16 && X != ptxt && o + 16 <= ptxt.Length
    modifies X
    ensures X[..] == E(XorBlock(old(X[..]), old(ptxt[o..o + 16])))
  {
    hide XorBlock;
    XorBlockIsXor(X[..], ptxt[o..o + 16]);
    XorInto(X, 0, X, 0, ptxt, o, 16);
    ApplyBlock(E, X, X);
  }

  /** The loop over the bytes of a partial last block. */
  method AbsorbRest(E: BlockFn, X: array<byte>, ptxt: array<byte>, o: nat, m: nat, ghost x: Block, ghost s: seq<byte>)
    requires X.Length == 16 && X != ptxt && o + m <= ptxt.Length && m < 16
    requires |s| % 16 == 0 && X[..] == Absorb(E, x, s)
    modifies X
    ensures X[..] == Absorb(E, x, s + old(ptxt[o..o + m]))
  {
    hide Absorb;
    ghost var d := ptxt[o..o + m];
    var k := 0;
    assert s + d[..0] == s;
    while k < m
      invariant 0 <= k <= m
      invariant X[..] == Absorb(E, x, s + d[..k])
    {
      AbsorbByte(E, x, s + d[..k], d[k]);
      assert s + d[..k] + [d[k]] == s + d[..k + 1];
      X[k] := X[k] ^ ptxt[o + k];
      k := k + 1;
    }
    assert d[..m] == d;
  }

  /** The message part of aes_ccm_mac: whole blocks, then the bytes of a partial one. */
  method AbsorbData(E: BlockFn, X: array<byte>, ptxt: array<byte>, po: nat, dataLen: nat)
    requires X.Length == 16 && X != ptxt && po + dataLen <= ptxt.Length
    modifies X
    ensures X[..] == Cbc(E, old(X[..]), ZeroPad(old(ptxt[po..po + dataLen])))
  {
    hide Absorb, Cbc, ZeroPad, XorBlock;
    ghost var x: Block, d := X[..], ptxt[po..po + dataLen];
    var n, m := dataLen / 16, dataLen % 16;
    assert ptxt[po..po + 16 * n] + ptxt[po + 16 * n..po + 16 * n + m] == d;
    AbsorbBlocks(E, X, ptxt, po, n);
    AbsorbRest(E, X, ptxt, po + 16 * n, m, x, d[..16 * n]);
    AbsorbIsCbc(E, x, d);
    if m != 0 {
      ApplyBlock(E, X, X);
    }
  }

  lemma XorBlockIsXor(x: Block, b: seq<byte>)
    requires |b| == 16
    ensures Splice(x, 0, Xor(x[0..0 + 16], b)) == XorBlock(x, b)
  {
  }

  method SetB0(B_0: array<byte>, nonce: array<byte>, aadLen: nat, dataLen: nat)
    requires B_0.Length == 16 && nonce.Length == NONCE_LEN && B_0 != nonce
    modifies B_0
    ensures B_0[..] == B0Block(old(nonce[..]), aadLen, dataLen)
  {
    B_0[0] := AUTH_FLAGS;
    if aadLen != 0 {
      B_0[0] := B_0[0] | AAD_FLAG;
    }
    forall i | 0 <= i < NONCE_LEN {
      B_0[1 + i] := nonce[i];
    }
    B_0[14], B_0[15] := ((dataLen / 256) % 256) as byte, (dataLen % 256) as byte;
    assert B_0[..] == B0Block(nonce[..], aadLen, dataLen);
  }

  method AesCcmMac(E: BlockFn, nonce: array<byte>, aadLen: nat, aad: array<byte>,
                   dataLen: nat, ptxt: array<byte>, po: nat, mac: array<byte>) returns (rc: int)
    requires nonce.Length == NONCE_LEN && aadLen <= aad.Length && po + dataLen <= ptxt.Length && mac.Length >= AUTH_LEN
    modifies mac
    ensures rc == if aadLen <= AAD_MAX_LEN then 0 else -1
    ensures rc == -1 ==> mac[..] == old(mac[..])
    ensures rc == 0 ==>
      mac[..] == Splice(old(mac[..]), 0, Mac(E, old(nonce[..]), old(aad[..aadLen]), old(ptxt[po..po + dataLen])))
  {
    hide Cbc, ZeroPad, AadStream, Splice, B0Block;
    if aadLen > AAD_MAX_LEN {
      return -1;
    }
    ghost var n, a, d, out := nonce[..], aad[..aadLen], ptxt[po..po + dataLen], mac[..];
    var B_0, X := new byte[16], new byte[16];
    SetB0(B_0, nonce, aadLen, dataLen);
    ApplyBlock(E, B_0, X);
    AbsorbAad(E, X, aad, aadLen);
    AbsorbData(E, X, ptxt, po, dataLen);
    CbcConcat(E, E(B0Block(n, aadLen, dataLen)), ZeroPad(AadStream(a)), ZeroPad(d));
    assert aad[..aadLen] == a && ptxt[po..po + dataLen] == d;
    assert X[0..0 + AUTH_LEN] == Mac(E, n, a, d);
    assert mac[..] == out;
    Memcpy(mac, 0, X, 0, AUTH_LEN);
    rc := 0;
  }

  /** The initial counter: flags, nonce, and a small block number. */
  method SetCounter(A: array<byte>, nonce: array<byte>, n: byte)
    requires A.Length == 16 && nonce.Length == NONCE_LEN && A != nonce
    modifies A
    ensures A[..] == CounterStart(old(nonce[..]), n)
  {
    A[0] := CRYPT_FLAGS;
    forall i | 0 <= i < NONCE_LEN {
      A[1 + i] := nonce[i];
    }
    A[14], A[15] := 0, n;
    assert A[..] == CounterStart(nonce[..], n);
  }

  /** The MAC of the plaintext, encrypted under counter block 0, in the first bytes of X. */
  method EncryptedMac(E: BlockFn, A: array<byte>, nonce: array<byte>, aadLen: nat, aad: array<byte>,
                      dataLen: nat, ptxt: array<byte>, po: nat, X: array<byte>) returns (rc: int)
    requires A.Length == 16 && X.Length == 16 && A != X && X != nonce && X != aad && X != ptxt
    requires nonce.Length == NONCE_LEN && aadLen <= aad.Length && po + dataLen <= ptxt.Length
    requires A[..] == CounterStart(nonce[..], 0)
    modifies X
    ensures rc == if aadLen <= AAD_MAX_LEN then 0 else -1
    ensures rc == 0 ==>
      X[..AUTH_LEN] == Crypt(E, CounterStart(nonce[..], 0), Mac(E, nonce[..], aad[..aadLen], ptxt[po..po + dataLen]))
  {
    hide Crypt, Mac, Splice;
    ghost var t, x := Mac(E, nonce[..], aad[..aadLen], ptxt[po..po + dataLen]), X[..];
    rc := AesCcmMac(E, nonce, aadLen, aad, dataLen, ptxt, po, X);
    if rc == 0 {
      SplicePrefix(x, t);
      assert X[0..0 + AUTH_LEN] == t;
      x := X[..];
      rc := AesCtrCrypt(E, A, AUTH_LEN, X, 0, X, 0);
      SplicePrefix(x, Crypt(E, CounterStart(nonce[..], 0), t));
    }
  }

  lemma StretchKept(s: seq<byte>, o: nat, t: seq<byte>, p: nat, n: nat)
    requires o + |t| <= |s|
    ensures p + n <= o ==> Splice(s, o, t)[p..p + n] == s[p..p + n]
    ensures o + |t| <= p && p + n <= |s| ==> Splice(s, o, t)[p..p + n] == s[p..p + n]
  {
    if p + n <= o || (o + |t| <= p && p + n <= |s|) {
      var a, b := Splice(s, o, t)[p..p + n], s[p..p + n];
      forall i | 0 <= i < n
        ensures a[i] == b[i]
      {
        assert Splice(s, o, t)[p + i] == s[p + i];
      }
    }
  }

  /**
    aes_ccm_encrypt. The data may be encrypted in place; the MAC goes outside both data ranges,
    and is there already when the data turn out to be too long.
   */
  method AesCcmEncrypt(E: BlockFn, nonce: array<byte>, aadLen: nat, aad: array<byte>,
                       dataLen: nat, ptxt: array<byte>, po: nat, ctxt: array<byte>, co: nat,
                       mac: array<byte>, mo: nat) returns (rc: int)
    requires nonce.Length == NONCE_LEN && aadLen <= aad.Length
    requires po + dataLen <= ptxt.Length && co + dataLen <= ctxt.Length && mo + AUTH_LEN <= mac.Length
    requires ptxt == ctxt ==> po == co
    requires mac == ptxt ==> po + dataLen <= mo
    requires mac == ctxt ==> co + dataLen <= mo
    requires nonce != ctxt && nonce != mac && aad != ctxt && aad != mac
    modifies ctxt, mac
    ensures rc == if LengthsOk(aadLen, dataLen) then 0 else -1
    ensures aadLen > AAD_MAX_LEN ==> ctxt[..] == old(ctxt[..]) && mac[..] == old(mac[..])
    ensures rc == -1 && aadLen <= AAD_MAX_LEN ==>
      var c := Seal(E, old(nonce[..]), old(aad[..aadLen]), old(ptxt[po..po + dataLen]));
      mac[..] == Splice(old(mac[..]), mo, c[dataLen..]) && (ctxt != mac ==> ctxt[..] == old(ctxt[..]))
    ensures rc == 0 ==>
      var c := Seal(E, old(nonce[..]), old(aad[..aadLen]), old(ptxt[po..po + dataLen]));
      if ctxt == mac then
        ctxt[..] == Splice(Splice(old(ctxt[..]), mo, c[dataLen..]), co, c[..dataLen])
      else
        ctxt[..] == Splice(old(ctxt[..]), co, c[..dataLen]) && mac[..] == Splice(old(mac[..]), mo, c[dataLen..])
  {
    hide Crypt, Mac, Splice;
    ghost var n, a, d := nonce[..], aad[..aadLen], ptxt[po..po + dataLen];
    ghost var out, out' := ctxt[..], mac[..];
    var A, X := new byte[16], new byte[16];
    SetCounter(A, nonce, 0);
    rc := EncryptedMac(E, A, nonce, aadLen, aad, dataLen, ptxt, po, X);
    if rc != 0 {
      return -1;
    }
    assert X[0..0 + AUTH_LEN] == Seal(E, n, a, d)[dataLen..];
    assert ctxt[..] == out && mac[..] == out';
    Memcpy(mac, mo, X, 0, AUTH_LEN);
    StretchKept(out', mo, Seal(E, n, a, d)[dataLen..], po, dataLen);
    assert ptxt[po..po + dataLen] == d;
    A[15] := 1;
    assert A[..] == CounterStart(n, 1);
    ghost var middle := mac[..];
    rc := AesCtrCrypt(E, A, dataLen, ptxt, po, ctxt, co);
    if ctxt != mac {
      assert mac[..] == middle;
    }
  }

  /**
    aes_ccm_decrypt; dataLen includes the MAC, which is decrypted after the data. A dataLen
    shorter than the MAC wraps around in the code to a length that counter mode refuses.
   */
  method AesCcmDecrypt(E: BlockFn, nonce: array<byte>, aadLen: nat, aad: array<byte>,
                       dataLen: nat, ctxt: array<byte>, co: nat, ptxt: array<byte>, po: nat) returns (rc: int)
    requires nonce.Length == NONCE_LEN && aadLen <= aad.Length
    requires co + dataLen <= ctxt.Length && po + dataLen <= ptxt.Length
    requires ctxt == ptxt ==> co == po
    requires nonce != ptxt && aad != ptxt
    modifies ptxt
    ensures rc == if Open(E, old(nonce[..]), old(aad[..aadLen]), old(ctxt[co..co + dataLen])).Some? then 0 else -1
    ensures ptxt[..] ==
      if AUTH_LEN <= dataLen <= 16 * MAX_BLOCKS + AUTH_LEN then
        Splice(old(ptxt[..]), po, Unseal(E, old(nonce[..]), old(ctxt[co..co + dataLen])))
      else old(ptxt[..])
  {
    hide Crypt, Mac, Splice;
    ghost var n, a, c, out := nonce[..], aad[..aadLen], ctxt[co..co + dataLen], ptxt[..];
    if dataLen < AUTH_LEN {
      return -1;
    }
    var len := dataLen - AUTH_LEN;
    ghost var d := Unseal(E, n, c);
    var A, X := new byte[16], new byte[16];
    SetCounter(A, nonce, 1);
    assert ctxt[co..co + len] == c[..len] && ctxt[co + len..co + len + AUTH_LEN] == c[len..] && ptxt[..] == out;
    ghost var source := ctxt[..];
    rc := AesCtrCrypt(E, A, len, ctxt, co, ptxt, po);
    if rc != 0 {
      return -1;
    }
    assert ptxt[..] == Splice(out, po, d[..len]);
    StretchKept(out, po, d[..len], co + len, AUTH_LEN);
    assert ctxt[co + len..co + len + AUTH_LEN] == c[len..] by {
      if ctxt != ptxt {
        assert ctxt[..] == source;
      }
    }
    A[14], A[15] := 0, 0;
    assert A[..] == CounterStart(n, 0);
    rc := AesCtrCrypt(E, A, AUTH_LEN, ctxt, co + len, ptxt, po + len);
    SpliceTwice(out, po, d[..len], d[len..]);
    assert d[..len] + d[len..] == d;
    assert ptxt[..] == Splice(out, po, d);
    SpliceParts(out, po, d);
    assert ptxt[po..po + len] == d[..len] && ptxt[po + len..po + dataLen] == d[len..];
    ghost var x := X[..];
    rc := AesCcmMac(E, nonce, aadLen, aad, len, ptxt, po, X);
    if rc != 0 {
      return -1;
    }
    SplicePrefix(x, Mac(E, n, a, d[..len]));
    return if X[..AUTH_LEN] == ptxt[po + len..po + dataLen] then 0 else -1;
  }

  lemma SpliceParts(s: seq<byte>, o: nat, t: seq<byte>)
    requires o + |t| <= |s|
    ensures forall k :: 0 <= k <= |t| ==>
      Splice(s, o, t)[o..o + k] == t[..k] && Splice(s, o, t)[o + k..o + |t|] == t[k..]
  {
  }
}
