/**
  hmac_sha1, PRF and fPRF of prf.c, against HMAC as in section 2 of RFC 2104 and the
  pseudo-random function of IEEE 802.11i.
 */
module Prf {
  import opened Words
  import opened BlockCipher
  import opened Sha1

  const PRF_MAX_I_D_LEN := 128
  const PRF_MAX_KEY_LEN := 64

  /** The key of RFC 2104: a long one is hashed first. */
  function EffectiveKey(H: HashFn, key: seq<byte>): (k: seq<byte>)
    ensures |k| <= 64
  {
    if |key| > PRF_MAX_KEY_LEN then H(key) else key
  }

  /** The key, filled up with zeros, exclusive-ored with a repeated byte. */
  function Pad(key: seq<byte>, c: byte): (p: seq<byte>)
    requires |key| <= 64
    ensures |p| == 64
  {
    seq(64, i requires 0 <= i < 64 => Xor8(if i < |key| then key[i] else 0, c))
  }

  /** HMAC (section 2 of RFC 2104) over a hash of 64-byte blocks; HMAC-SHA1 when that is Digest. */
  function Hmac(H: HashFn, key: seq<byte>, text: seq<byte>): D20 {
    var k := EffectiveKey(H, key);
    H(Pad(k, 0x5c) + H(Pad(k, 0x36) + text))
  }

  /** The formula of section 2 of RFC 2104: the key padded with zeros to a block, plus each repeated pad byte. */
  lemma HmacIsRfc(H: HashFn, key: seq<byte>, text: seq<byte>)
    ensures var k := if |key| <= 64 then key else H(key);
            var k0 := k + Zeros(64 - |k|);
            Hmac(H, key, text) == H(Xor(k0, Repeated(0x5c)) + H(Xor(k0, Repeated(0x36)) + text))
  {
    var k := EffectiveKey(H, key);
    PadIsXor(k, 0x5c);
    PadIsXor(k, 0x36);
  }

  function Repeated(c: byte): (s: seq<byte>)
    ensures |s| == 64
  {
    seq(64, _ => c)
  }

  lemma PadIsXor(k: seq<byte>, c: byte)
    requires |k| <= 64
    ensures Pad(k, c) == Xor(k + Zeros(64 - |k|), Repeated(c))
  {
  }

  /** What hmac_sha1 leaves in the caller's key buffer: a long key has its own hash written over it. */
  function Overwritten(H: HashFn, key: seq<byte>): (k: seq<byte>)
    ensures |k| == |key|
  {
    if |key| > PRF_MAX_KEY_LEN then H(key) + key[20..] else key
  }

  /** The key buffer after n calls. */
  function KeyAfter(H: HashFn, key: seq<byte>, n: nat): (k: seq<byte>)
    ensures |k| == |key|
  {
    if n == 0 then key else Overwritten(H, KeyAfter(H, key, n - 1))
  }

  /** The concatenation that precedes the count octet: an empty prefix leaves out the zero octet too. */
  function PrfInput(prefix: seq<byte>, data: seq<byte>): (s: seq<byte>)
    ensures |s| == (if prefix == [] then 0 else |prefix| + 1) + |data|
  {
    (if prefix == [] then [] else prefix + [0]) + data
  }

  /** No two pairs of a label without a zero octet and data make the same input. */
  lemma PrfInputInjective(prefix: seq<byte>, data: seq<byte>, prefix': seq<byte>, data': seq<byte>)
    requires prefix != [] && prefix' != [] && 0 !in prefix && 0 !in prefix'
    ensures PrfInput(prefix, data) == PrfInput(prefix', data') <==> prefix == prefix' && data == data'
  {
    var s, s' := PrfInput(prefix, data), PrfInput(prefix', data');
    assert s[|prefix|] == 0 && s'[|prefix'|] == 0;
    assert |prefix| < |prefix'| ==> s'[|prefix|] == prefix'[|prefix|];
    assert |prefix'| < |prefix| ==> s[|prefix'|] == prefix[|prefix'|];
    if s == s' {
      assert s[..|prefix|] == prefix && s'[..|prefix'|] == prefix';
      assert s[|prefix| + 1..] == data && s'[|prefix'| + 1..] == data';
    }
  }

  /** The count octet of block i, which starts at 0 and wraps. */
  function Count(i: nat): byte {
    if i == 0 then 0 else Next(Count(i - 1))
  }

  lemma {:induction false} CountIsModulo(i: nat)
    ensures Num(Count(i)) == i % 256
  {
    hide Num, Next;
    if i == 0 {
      ByteOfNat(0);
      assert Num(0 as byte) == 0;
    } else {
      CountIsModulo(i - 1);
      ByteIncrement(Count(i - 1));
    }
  }

  /** The first n blocks of the PRF under one key. */
  function PrfBlocks(H: HashFn, key: seq<byte>, input: seq<byte>, n: nat): (r: seq<byte>)
    ensures |r| == 20 * n
  {
    if n == 0 then [] else PrfBlocks(H, key, input, n - 1) + Hmac(H, key, input + [Count(n - 1)])
  }

  /** The first n blocks with the key buffer overwritten between blocks. */
  function DriftingBlocks(H: HashFn, key: seq<byte>, input: seq<byte>, n: nat): (r: seq<byte>)
    ensures |r| == 20 * n
  {
    if n == 0 then []
    else DriftingBlocks(H, key, input, n - 1) + Hmac(H, KeyAfter(H, key, n - 1), input + [Count(n - 1)])
  }

  lemma {:induction false} ShortKeyStays(H: HashFn, key: seq<byte>, n: nat)
    requires |key| <= 64
    ensures KeyAfter(H, key, n) == key
  {
    if n > 0 {
      ShortKeyStays(H, key, n - 1);
    }
  }

  lemma {:induction false} ShortKeyBlocks(H: HashFn, key: seq<byte>, input: seq<byte>, n: nat)
    requires |key| <= 64 || n <= 1
    ensures DriftingBlocks(H, key, input, n) == PrfBlocks(H, key, input, n)
  {
    hide Hmac, Count;
    if n > 0 {
      ShortKeyBlocks(H, key, input, n - 1);
      if |key| <= 64 {
        ShortKeyStays(H, key, n - 1);
      }
    }
  }

  // ----- a hash that tells the two versions apart -----

  /** Counts up to three; higher values stay what they are. */
  function Up(x: byte): byte { if x < 3 then x + 1 else x }

  /** A hash that looks at the first byte of its message only. */
  function FirstByteUp(m: seq<byte>): D20 { [if m == [] then 0 else Up(m[0])] + Zeros(19) }

  /** Under this hash an HMAC begins with the inner pad byte of the effective key's first byte. */
  lemma FirstByteOfHmac(key: seq<byte>, text: seq<byte>)
    requires |key| > 64
    ensures Hmac(FirstByteUp, key, text)[0] == Up(Xor8(Up(key[0]), 0x5c))
  {
    hide Up, Xor8;
    var k := EffectiveKey(FirstByteUp, key);
    assert (Pad(k, 0x5c) + FirstByteUp(Pad(k, 0x36) + text))[0] == Pad(k, 0x5c)[0] == Xor8(k[0], 0x5c);
  }

  /** A long key of zeros drifts through keys that begin with 1, 2, and then 3 for good. */
  lemma {:induction false} DriftingKey(kl: nat, n: nat)
    requires kl > 64
    ensures KeyAfter(FirstByteUp, Zeros(kl), n)[0]
         == if n == 0 then 0 else if n == 1 then 1 else if n == 2 then 2 else 3
  {
    if n > 0 {
      DriftingKey(kl, n - 1);
    }
  }

  /** With a key of more than 64 zeros and two blocks or more, the two versions differ under this hash. */
  lemma {:induction false} LongKeyDiffers(kl: nat, m: seq<byte>, n: nat)
    requires kl > 64 && n >= 2
    ensures DriftingBlocks(FirstByteUp, Zeros(kl), m, n) != PrfBlocks(FirstByteUp, Zeros(kl), m, n)
  {
    hide Hmac, Count, KeyAfter;
    var d, p := DriftingBlocks(FirstByteUp, Zeros(kl), m, n), PrfBlocks(FirstByteUp, Zeros(kl), m, n);
    var k, t := KeyAfter(FirstByteUp, Zeros(kl), n - 1), m + [Count(n - 1)];
    if n == 2 {
      DriftingKey(kl, 1);
      FirstByteOfHmac(k, t);
      FirstByteOfHmac(Zeros(kl), t);
      assert d[20] == Hmac(FirstByteUp, k, t)[0] && p[20] == Hmac(FirstByteUp, Zeros(kl), t)[0];
    } else {
      LongKeyDiffers(kl, m, n - 1);
      assert d[..20 * (n - 1)] == DriftingBlocks(FirstByteUp, Zeros(kl), m, n - 1);
      assert p[..20 * (n - 1)] == PrfBlocks(FirstByteUp, Zeros(kl), m, n - 1);
    }
  }

  /** Whatever the hash, PRF and fPRF agree on all keys of a length exactly up to 64 bytes, or up to one block. */
  lemma VersionsAgree(kl: nat, n: nat)
    ensures (kl <= 64 || n <= 1) <==>
      forall H: HashFn, key: seq<byte>, m: seq<byte> | |key| == kl ::
        DriftingBlocks(H, key, m, n) == PrfBlocks(H, key, m, n)
  {
    if kl <= 64 || n <= 1 {
      forall H: HashFn, key: seq<byte>, m: seq<byte> | |key| == kl
        ensures DriftingBlocks(H, key, m, n) == PrfBlocks(H, key, m, n)
      {
        ShortKeyBlocks(H, key, m, n);
      }
    } else {
      LongKeyDiffers(kl, [], n);
    }
  }

  // ----- the code -----

  /** A word exclusive-ored with four copies of c, whatever order its bytes are in. */
  lemma XorWordIsBytes(b0: byte, b1: byte, b2: byte, b3: byte, mask: word, c: byte)
    requires B0(mask) == B1(mask) == B2(mask) == B3(mask) == c
    ensures var w := Xor32(Pack(b0, b1, b2, b3), mask);
            B0(w) == Xor8(b0, c) && B1(w) == Xor8(b1, c) && B2(w) == Xor8(b2, c) && B3(w) == Xor8(b3, c)
  {
    hide B0, B1, B2, B3, Pack, Xor8, Xor32;
    var v := Pack(b0, b1, b2, b3);
    PackBytes(b0, b1, b2, b3);
    XorLane0(v, mask);
    XorLane1(v, mask);
    XorLane2(v, mask);
    XorLane3(v, mask);
  }

  /** Word i of the pad exclusive-ored with four copies of c. */
  method XorWord(pad: array<byte>, i: nat, mask: word, ghost c: byte)
    requires pad.Length == 68 && i < 16
    requires B0(mask) == B1(mask) == B2(mask) == B3(mask) == c
    modifies pad
    ensures forall j :: 4 * i <= j < 4 * i + 4 ==> pad[j] == Xor8(old(pad[j]), c)
    ensures forall j :: 0 <= j < 4 * i || 4 * i + 4 <= j < 68 ==> pad[j] == old(pad[j])
  {
    hide B0, B1, B2, B3, Pack, Xor8, Xor32;
    XorWordIsBytes(pad[4 * i], pad[4 * i + 1], pad[4 * i + 2], pad[4 * i + 3], mask, c);
    var w := Xor32(Get32(pad[..], 4 * i), mask);
    pad[4 * i], pad[4 * i + 1], pad[4 * i + 2], pad[4 * i + 3] := B0(w), B1(w), B2(w), B3(w);
  }

  /** The loop over the sixteen words. */
  method XorPad(pad: array<byte>, mask: word, ghost c: byte)
    requires pad.Length == 68
    requires B0(mask) == B1(mask) == B2(mask) == B3(mask) == c
    modifies pad
    ensures forall j :: 0 <= j < 64 ==> pad[j] == Xor8(old(pad[j]), c)
  {
    hide B0, B1, B2, B3, Xor8;
    var i := 0;
    while i < 16
      invariant 0 <= i <= 16
      invariant forall j :: 0 <= j < 4 * i ==> pad[j] == Xor8(old(pad[j]), c)
      invariant forall j :: 4 * i <= j < 68 ==> pad[j] == old(pad[j])
    {
      XorWord(pad, i, mask, c);
      i := i + 1;
    }
  }

  /** The key in the pad, zeros behind it, and the mask over its first sixteen words. */
  method FillPad(key: array<byte>, kl: nat, pad: array<byte>, mask: word, ghost c: byte)
    requires kl <= 64 && kl <= key.Length && pad.Length == 68 && pad != key
    requires B0(mask) == B1(mask) == B2(mask) == B3(mask) == c
    modifies pad
    ensures pad[..64] == Pad(key[..kl], c)
  {
    hide B0, B1, B2, B3, Xor8;
    forall i | 0 <= i < 65 {
      pad[i] := if i < kl then key[i] else 0;
    }
    XorPad(pad, mask, c);
  }

  lemma HashedKey(was: seq<byte>, kl: nat, d: seq<byte>)
    requires |d| == 20 <= kl <= |was|
    ensures var now := Splice(was, 0, d);
            now[..20] == d && now[..kl] == d + was[..kl][20..] && now[kl..] == was[kl..]
  {
  }

  /** A key of more than 64 bytes is replaced, in the caller's buffer, by its hash. */
  method ShortenKey(key: array<byte>, kl: nat) returns (n: nat)
    requires kl <= key.Length && kl < 0x8000_0000
    modifies key
    ensures n <= 64 && n <= kl && key[..n] == EffectiveKey(Digest, old(key[..kl]))
    ensures key[..kl] == Overwritten(Digest, old(key[..kl])) && key[kl..] == old(key[kl..])
  {
    hide Digest, Splice, SHA1Context.Streaming, SHA1Context.Finished;
    n := kl;
    if kl > PRF_MAX_KEY_LEN {
      ghost var was := key[..];
      var c := new SHA1Context();
      var rc := c.Input(key, 0, kl);
      assert c.message == was[0..0 + kl] == was[..kl];
      c.StreamingMeans();
      rc := c.Result(key, 0);
      n := 20;
      HashedKey(was, kl, Digest(was[..kl]));
    }
  }

  /** Both pads of a key. */
  method MakePads(key: array<byte>, kl: nat) returns (ipad: array<byte>, opad: array<byte>)
    requires kl <= key.Length && kl < 0x8000_0000
    modifies key
    ensures fresh(ipad) && fresh(opad) && ipad.Length == opad.Length == 68 && ipad != opad
    ensures ipad[..64] == Pad(EffectiveKey(Digest, old(key[..kl])), 0x36)
    ensures opad[..64] == Pad(EffectiveKey(Digest, old(key[..kl])), 0x5c)
    ensures key[..kl] == Overwritten(Digest, old(key[..kl])) && key[kl..] == old(key[kl..])
  {
    hide Pad, EffectiveKey, Overwritten;
    var n := ShortenKey(key, kl);
    ghost var k, all := key[..n], key[..];
    ipad, opad := new byte[68], new byte[68];
    FillPad(key, n, ipad, 0x36363636, 0x36);
    assert key[..] == all;
    FillPad(key, n, opad, 0x5c5c5c5c, 0x5c);
    assert key[..] == all;
  }

  /** SHA1Input and SHA1Result in one go; the text may be where the digest goes. */
  method FinishWith(context: SHA1Context, text: array<byte>, to: nat, tl: nat, digest: array<byte>, off: nat)
    requires context.Streaming() && |context.message| == 64
    requires text != context.block && digest != context.block
    requires to + tl <= text.Length && tl < 0x8000_0000 && off + 20 <= digest.Length
    modifies context, context.block, digest
    ensures digest[..] == Splice(old(digest[..]), off, Digest(old(context.message) + old(text[to..to + tl])))
  {
    hide Digest, Splice;
    ghost var was := digest[..];
    var rc := context.Input(text, to, tl);
    assert digest[..] == was;
    rc := context.Result(digest, off);
  }

  /** The two hashes, from contexts that already hold the pads. */
  method InnerOuter(icontext: SHA1Context, ocontext: SHA1Context, text: array<byte>, tl: nat,
                    digest: array<byte>, off: nat)
    requires icontext.Streaming() && |icontext.message| == 64 && ocontext.Streaming() && |ocontext.message| == 64
    requires icontext != ocontext && icontext.block != ocontext.block
    requires text !in {icontext.block, ocontext.block} && digest !in {icontext.block, ocontext.block}
    requires tl <= text.Length && tl < 0x8000_0000 && off + 20 <= digest.Length
    modifies icontext, icontext.block, ocontext, ocontext.block, digest
    ensures digest[..] == Splice(old(digest[..]), off,
              Digest(old(ocontext.message) + Digest(old(icontext.message) + old(text[..tl]))))
  {
    hide Digest, Splice;
    ghost var was, outer := digest[..], ocontext.message;
    ghost var d := Digest(icontext.message + text[0..tl]);
    assert text[0..tl] == text[..tl];
    FinishWith(icontext, text, 0, tl, digest, off);
    SpliceSlice(was, off, d);
    assert digest[off..off + 20] == d;
    FinishWith(ocontext, digest, off, 20, digest, off);
    SpliceOver(was, off, d, Digest(outer + d));
  }

  /** The pad of one block as the first input. */
  method TakePad(context: SHA1Context, pad: array<byte>)
    requires context.Streaming() && context.message == [] && pad.Length == 68 && pad != context.block
    modifies context, context.block
    ensures context.Streaming() && context.message == pad[..64]
  {
    hide ChainOf;
    var rc := context.Input(pad, 0, 64);
    assert pad[0..64] == pad[..64];
  }

  /** Fresh contexts that have taken the two pads. */
  method PadContexts(ipad: array<byte>, opad: array<byte>) returns (icontext: SHA1Context, ocontext: SHA1Context)
    requires ipad.Length == opad.Length == 68
    ensures fresh(icontext) && fresh(icontext.block) && fresh(ocontext) && fresh(ocontext.block)
    ensures icontext != ocontext && icontext.block != ocontext.block
    ensures icontext.Streaming() && icontext.message == ipad[..64]
    ensures ocontext.Streaming() && ocontext.message == opad[..64]
  {
    hide SHA1Context.Streaming, SHA1Context.Finished;
    icontext := new SHA1Context();
    ocontext := new SHA1Context();
    ocontext.StreamingMeans();
    ocontext.CopyFrom(icontext);
    TakePad(icontext, ipad);
    TakePad(ocontext, opad);
  }

  /** hmac_sha1. */
  method HmacSha1(text: array<byte>, tl: nat, key: array<byte>, kl: nat, digest: array<byte>, off: nat)
    requires tl <= text.Length && tl < 0x8000_0000 && kl <= key.Length && kl < 0x8000_0000
    requires off + 20 <= digest.Length && key != text && key != digest
    modifies key, digest
    ensures digest[..] == Splice(old(digest[..]), off, Hmac(Digest, old(key[..kl]), old(text[..tl])))
    ensures key[..kl] == Overwritten(Digest, old(key[..kl])) && key[kl..] == old(key[kl..])
  {
    hide Digest, Splice, Pad, EffectiveKey, Overwritten;
    ghost var d, t := digest[..], text[..tl];
    var ipad, opad := MakePads(key, kl);
    ghost var k := key[..];
    var icontext, ocontext := PadContexts(ipad, opad);
    assert digest[..] == d && text[..tl] == t && key[..] == k;
    InnerOuter(icontext, ocontext, text, tl, digest, off);
    assert key[..] == k;
  }

  /** The loop count (len + 19) / 20. */
  function Blocks(len: nat): nat { (len + 19) / 20 }

  /** As many blocks as hold the length asked for, and no more. */
  lemma BlocksCover(len: nat)
    ensures len <= 20 * Blocks(len) < len + 20
  {
  }

  /** The concatenated input of both PRF versions, with the count octet at 0. */
  method BuildInput(prefix: array<byte>, pl: nat, data: array<byte>, dl: nat)
    returns (input: array<byte>, total: nat)
    requires pl <= prefix.Length && dl <= data.Length
    requires (if pl == 0 then 0 else pl + 1) + dl + 1 <= PRF_MAX_I_D_LEN
    ensures fresh(input) && input.Length == PRF_MAX_I_D_LEN && 0 < total <= PRF_MAX_I_D_LEN
    ensures input[..total] == PrfInput(prefix[..pl], data[..dl]) + [0]
  {
    input := new byte[PRF_MAX_I_D_LEN];
    var offset := 0;
    if pl != 0 {
      CopyBytes(input, 0, prefix, pl);
      input[pl] := 0;
      offset := pl + 1;
      assert input[..offset] == prefix[..pl] + [0];
    }
    ghost var head := input[..offset];
    assert head == if prefix[..pl] == [] then [] else prefix[..pl] + [0];
    CopyBytes(input, offset, data, dl);
    total := offset + dl;
    input[total] := 0;
    total := total + 1;
    assert input[..total] == head + data[..dl] + [0];
  }

  /**
    The length check of both versions counts one octet beside prefix and data. Of the lengths it
    lets through, the input fits its buffer except when a prefix comes with a sum that meets the
    limit: the zero octet behind the prefix then takes the place of the count.
   */
  lemma InputFits(prefix: seq<byte>, data: seq<byte>)
    requires |prefix| + |data| + 1 <= PRF_MAX_I_D_LEN
    ensures |PrfInput(prefix, data) + [Count(0)]| <= PRF_MAX_I_D_LEN
       <==> prefix == [] || |prefix| + |data| + 1 != PRF_MAX_I_D_LEN
  {
    hide Count;
    assert |PrfInput(prefix, data)| == (if prefix == [] then 0 else |prefix| + 1) + |data|;
  }

  /** One prefix byte and 126 data bytes pass the check and make an input of 129 bytes. */
  lemma InputOverflows()
    ensures var prefix, data := Zeros(1), Zeros(126);
            && |prefix| + |data| + 1 <= PRF_MAX_I_D_LEN
            && |PrfInput(prefix, data) + [Count(0)]| == PRF_MAX_I_D_LEN + 1
  {
    hide Count;
    var prefix, data := Zeros(1), Zeros(126);
    assert prefix != [] && |PrfInput(prefix, data)| == 128;
  }

  /** memcpy, seen as an extension of what precedes it. */
  method CopyBytes(dst: array<byte>, to: nat, src: array<byte>, n: nat)
    requires to + n <= dst.Length && n <= src.Length && src != dst
    modifies dst
    ensures dst[..to + n] == old(dst[..to]) + src[..n]
  {
    forall i | 0 <= i < n {
      dst[to + i] := src[i];
    }
  }

  /** PRF. */
  method PRF(key: array<byte>, kl: nat, prefix: array<byte>, pl: nat, data: array<byte>, dl: nat,
             output: array<byte>, len: nat) returns (rc: int)
    requires kl <= key.Length && kl < 0x8000_0000 && pl <= prefix.Length && dl <= data.Length
    requires 20 * Blocks(len) <= output.Length && key != output
    requires pl == 0 || pl + dl + 1 != PRF_MAX_I_D_LEN
    modifies key, output
    ensures rc == if pl + dl + 1 > PRF_MAX_I_D_LEN then -1 else 0
    ensures rc == -1 ==> key[..] == old(key[..]) && output[..] == old(output[..])
    ensures rc == 0 ==> output[..] == Splice(old(output[..]), 0,
              DriftingBlocks(Digest, old(key[..kl]), PrfInput(old(prefix[..pl]), old(data[..dl])), Blocks(len)))
    ensures rc == 0 ==> key[..kl] == KeyAfter(Digest, old(key[..kl]), Blocks(len)) && key[kl..] == old(key[kl..])
  {
    hide Splice, Hmac, Overwritten, PrfInput;
    if pl + dl + 1 > PRF_MAX_I_D_LEN {
      return -1;
    }
    var input, total := BuildInput(prefix, pl, data, dl);
    ghost var k, m, out := key[..], PrfInput(prefix[..pl], data[..dl]), output[..];
    SpliceNothing(out, 0);
    assert key[..kl] == k[..kl];
    var i := 0;
    while i < Blocks(len)
      invariant 0 <= i <= Blocks(len)
      invariant input[..total] == m + [Count(i)]
      invariant key[..kl] == KeyAfter(Digest, k[..kl], i) && key[kl..] == k[kl..]
      invariant output[..] == Splice(out, 0, DriftingBlocks(Digest, k[..kl], m, i))
    {
      SpliceTwice(out, 0, DriftingBlocks(Digest, k[..kl], m, i), Hmac(Digest, key[..kl], m + [Count(i)]));
      HmacSha1(input, total, key, kl, output, 20 * i);
      BumpCount(input, total, m, i);
      i := i + 1;
    }
    rc := 0;
  }

  /** input[total - 1]++. */
  method BumpCount(input: array<byte>, total: nat, ghost m: seq<byte>, ghost i: nat)
    requires 0 < total <= input.Length && input[..total] == m + [Count(i)]
    modifies input
    ensures input[..total] == m + [Count(i + 1)]
  {
    hide Next;
    assert input[total - 1] == Count(i) by {
      assert input[..total][total - 1] == Count(i);
    }
    assert m == input[..total - 1];
    input[total - 1] := Next(input[total - 1]);
  }

  /** fPRF: the pads are taken in once, and each block starts from copies of those contexts. */
  method FPRF(key: array<byte>, kl: nat, prefix: array<byte>, pl: nat, data: array<byte>, dl: nat,
              output: array<byte>, len: nat) returns (rc: int)
    requires kl <= key.Length && kl < 0x8000_0000 && pl <= prefix.Length && dl <= data.Length
    requires 20 * Blocks(len) <= output.Length && key != output
    requires pl == 0 || pl + dl + 1 != PRF_MAX_I_D_LEN
    modifies key, output
    ensures rc == if pl + dl + 1 > PRF_MAX_I_D_LEN then -1 else 0
    ensures rc == -1 ==> key[..] == old(key[..]) && output[..] == old(output[..])
    ensures rc == 0 ==> output[..] == Splice(old(output[..]), 0,
              PrfBlocks(Digest, old(key[..kl]), PrfInput(old(prefix[..pl]), old(data[..dl])), Blocks(len)))
    ensures rc == 0 ==> key[..kl] == Overwritten(Digest, old(key[..kl])) && key[kl..] == old(key[kl..])
  {
    hide Splice, Hmac, Overwritten, PrfInput, Pad, EffectiveKey, PrfBlocks, SHA1Context.Streaming;
    if pl + dl + 1 > PRF_MAX_I_D_LEN {
      return -1;
    }
    var input, total := BuildInput(prefix, pl, data, dl);
    ghost var m, out, K := PrfInput(prefix[..pl], data[..dl]), output[..], key[..kl];
    var ipad, opad := MakePads(key, kl);
    var reficontext, refocontext := PadContexts(ipad, opad);
    assert output[..] == out && input[..total] == m + [0];
    FastBlocks(reficontext, refocontext, input, total, output, Blocks(len), K, m);
    rc := 0;
  }

  /** One block of fPRF: working copies of the reference contexts take in the two messages. */
  method FastBlock(reficontext: SHA1Context, refocontext: SHA1Context, icontext: SHA1Context,
                   ocontext: SHA1Context, input: array<byte>, total: nat,
                   output: array<byte>, off: nat, ghost key: seq<byte>)
    requires reficontext.Streaming() && reficontext.message == Pad(EffectiveKey(Digest, key), 0x36)
    requires refocontext.Streaming() && refocontext.message == Pad(EffectiveKey(Digest, key), 0x5c)
    requires icontext.block.Length == ocontext.block.Length == 64
    requires icontext != ocontext && icontext.block != ocontext.block
    requires {icontext, ocontext} !! {reficontext, refocontext}
    requires {icontext.block, ocontext.block} !! {reficontext.block, refocontext.block, input, output}
    requires output !in {input, reficontext.block, refocontext.block}
    requires total <= input.Length && total < 0x8000_0000 && off + 20 <= output.Length
    modifies icontext, icontext.block, ocontext, ocontext.block, output
    ensures output[..] == Splice(old(output[..]), off, Hmac(Digest, key, input[..total]))
  {
    hide Splice, Pad, EffectiveKey, Digest;
    ghost var out, t := output[..], input[..total];
    icontext.CopyFrom(reficontext);
    ocontext.CopyFrom(refocontext);
    assert output[..] == out && input[..total] == t;
    InnerOuter(icontext, ocontext, input, total, output, off);
  }

  /** The loop of fPRF. */
  method FastBlocks(reficontext: SHA1Context, refocontext: SHA1Context, input: array<byte>, total: nat,
                    output: array<byte>, n: nat, ghost key: seq<byte>, ghost m: seq<byte>)
    requires reficontext.Streaming() && reficontext.message == Pad(EffectiveKey(Digest, key), 0x36)
    requires refocontext.Streaming() && refocontext.message == Pad(EffectiveKey(Digest, key), 0x5c)
    requires {input, output} !! {reficontext.block, refocontext.block} && input != output
    requires 0 < total <= input.Length && input[..total] == m + [0] && total < 0x8000_0000
    requires 20 * n <= output.Length
    modifies input, output
    ensures output[..] == Splice(old(output[..]), 0, PrfBlocks(Digest, key, m, n))
  {
    hide Splice, Pad, EffectiveKey, Hmac, SHA1Context.Streaming;
    ghost var out := output[..];
    SpliceNothing(out, 0);
    var icontext := new SHA1Context();
    var ocontext := new SHA1Context();
    var i := 0;
    while i < n
      invariant 0 <= i <= n
      invariant reficontext.Streaming() && refocontext.Streaming()
      invariant input[..total] == m + [Count(i)]
      invariant output[..] == Splice(out, 0, PrfBlocks(Digest, key, m, i))
    {
      SpliceTwice(out, 0, PrfBlocks(Digest, key, m, i), Hmac(Digest, key, m + [Count(i)]));
      FastBlock(reficontext, refocontext, icontext, ocontext, input, total, output, 20 * i, key);
      BumpCount(input, total, m, i);
      i := i + 1;
    }
  }
}
