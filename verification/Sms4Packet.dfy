/**
  WPI packet protection in place: the additional data and packet number that sms4.c derives from
  an 802.11 header, and the packet round trip.
 */
module Sms4Packet {
  import opened Words
  import opened BlockCipher
  import opened CbcMac
  import opened Dot11
  import opened Sms4Wpi
  import WordBits

  const IV_LEN := 18
  const MAC_LEN := 16
  const FC_MASK: bv16 := 0xC78F

  const ENCRYPT_ERROR := -1
  const DECRYPT_ERROR := -2

  // ----- what the header determines -----

  function Fc(p: seq<byte>): bv16
    requires |p| >= 2
  {
    Get16(p, 0)
  }

  function HeaderLen(p: seq<byte>): (n: nat)
    requires |p| >= 2
    ensures A3_HDR_LEN + IV_LEN <= n
  {
    A3_HDR_LEN + IV_LEN + AddLen(Fc(p))
  }

  predicate HasHeader(p: seq<byte>) { |p| >= 2 && |p| >= HeaderLen(p) }

  /** A protected data frame of n bytes, MAC included, with some payload. */
  predicate Carries(p: seq<byte>, n: nat)
    requires |p| >= 2
  {
    Data(Fc(p)) && Protected(Fc(p)) && n > HeaderLen(p) + MAC_LEN
  }

  /** The frames both directions accept: payload and MAC fit an MPDU. */
  predicate WellFormed(p: seq<byte>) {
    |p| >= 2 && Carries(p, |p|) && |p| - HeaderLen(p) <= MAX_MPDU_LEN
  }

  function Header(p: seq<byte>): (h: seq<byte>)
    requires HasHeader(p)
    ensures HasHeader(h) && |h| == HeaderLen(p) == HeaderLen(h)
  {
    p[..HeaderLen(p)]
  }

  /** The frame-control bits that enter the additional data. */
  function MaskFc(v: bv16): bv16 { v & FC_MASK }

  /** Only the fragment number of the sequence control is protected. */
  function MaskSeq(v: bv16): bv16 { v & 0x000f }

  /** Masked frame control, A1, A2, masked sequence control, A3. */
  function FixedPart(h: seq<byte>): (a: seq<byte>)
    requires HasHeader(h)
    ensures |a| == 22
  {
    Put16(MaskFc(Fc(h))) + h[4..16] + Put16(MaskSeq(Get16(h, 22))) + h[16..22]
  }

  /** The fourth address, or six zeros. */
  function AddressPart(h: seq<byte>): (a: seq<byte>)
    requires HasHeader(h)
    ensures |a| == 6
  {
    if Wds(Fc(h)) then h[24..30] else Zeros(6)
  }

  function QosPart(h: seq<byte>): seq<byte>
    requires HasHeader(h)
  {
    var o := if Wds(Fc(h)) then A4_HDR_LEN else A3_HDR_LEN;
    if Qos(Fc(h)) then h[o..o + 2] else []
  }

  /** Key index, reserved byte and payload length. */
  function LastPart(h: seq<byte>, n: nat): (a: seq<byte>)
    requires HasHeader(h)
    ensures |a| == 4
  {
    var iv := A3_HDR_LEN + AddLen(Fc(h));
    [h[iv], h[iv + 1]] + TwoBytes(n)
  }

  /** The additional data for a payload of n bytes. */
  function Aad(h: seq<byte>, n: nat): (a: seq<byte>)
    requires HasHeader(h)
    ensures 32 <= |a| <= 34
  {
    FixedPart(h) + AddressPart(h) + QosPart(h) + LastPart(h, n)
  }

  /** The packet number, last byte first. */
  function Pn(h: seq<byte>): Block
    requires HasHeader(h)
  {
    var iv := A3_HDR_LEN + AddLen(Fc(h));
    seq(16, i requires 0 <= i < 16 => h[iv + 17 - i])
  }

  /** Two-byte truncation of the payload length in the additional data. */
  lemma AadLength(h: seq<byte>, n: nat)
    requires HasHeader(h)
    ensures LengthField(Aad(h, n)) == n % 65536
  {
    hide FixedPart, AddressPart, QosPart, Num, HeaderLen, TwoBytes, AddLen;
    TwoBytesValue(n);
    var b := FixedPart(h) + AddressPart(h) + QosPart(h);
    assert LastPart(h, n)[2] == TwoBytes(n)[0] && LastPart(h, n)[3] == TwoBytes(n)[1];
    assert Aad(h, n) == b + LastPart(h, n);
  }

  /** Octet k of the packet number lands in place 15 - k. */
  lemma PnAt(h: seq<byte>, k: nat)
    requires HasHeader(h) && k < 16
    ensures Pn(h)[15 - k] == h[A3_HDR_LEN + AddLen(Fc(h)) + 2 + k]
  {
    hide AddLen;
  }

  /** The mask clears the subtype bits but the highest, and Retry, PwrMgmt and MoreData. */
  lemma MaskedBits(v: bv16, i: byte)
    requires i < 16
    ensures WordBits.Bit16(MaskFc(v), i) == (WordBits.Bit16(v, i) && !(4 <= i <= 6) && !(11 <= i <= 13))
    ensures WordBits.Bit16(MaskSeq(v), i) == (WordBits.Bit16(v, i) && i < 4)
  {
  }

  /** Where the fields of the additional data come from, octet by octet. */
  lemma AadLayout(h: seq<byte>, n: nat, k: nat)
    requires HasHeader(h) && k < 12
    ensures var a, fc, iv := Aad(h, n), Fc(h), A3_HDR_LEN + AddLen(Fc(h));
            && Get16(a, 0) == MaskFc(fc) && a[2 + k] == h[4 + k] && Get16(a, 14) == MaskSeq(Get16(h, 22))
            && (k < 6 ==> a[16 + k] == h[16 + k] && a[22 + k] == if Wds(fc) then h[24 + k] else 0)
            && (Qos(fc) ==> a[28] == h[iv - 2] && a[29] == h[iv - 1])
            && a[|a| - 4] == h[iv] && a[|a| - 3] == h[iv + 1]
  {
    hide MaskFc, MaskSeq, Put16, Get16, Wds, Qos, TwoBytes;
    var a, o := Aad(h, n), if Wds(Fc(h)) then A4_HDR_LEN else A3_HDR_LEN;
    assert Qos(Fc(h)) ==> a[28] == QosPart(h)[0] == h[o] && a[29] == QosPart(h)[1] == h[o + 1];
    WordBits.Field16At(a, 0, MaskFc(Fc(h)));
    WordBits.Field16At(a, 14, MaskSeq(Get16(h, 22)));
  }

  // ----- packets -----

  /** What a header contributes to the protection of a payload: packet number and additional data. */
  datatype Params = Params(pn: Block, aad: seq<byte>)

  function ParamsOf(h: seq<byte>, n: nat): Params
    requires HasHeader(h)
  {
    Params(Pn(h), Aad(h, n))
  }

  /**
    Two headers agree in what protection covers: the masked frame control, A1 and A2, the fragment
    number, A3, a fourth address and a QoS control where present, key index and reserved octet,
    and the packet number.
   */
  predicate SameProtected(h: seq<byte>, h': seq<byte>)
    requires HasHeader(h) && HasHeader(h') && |h| == |h'|
  {
    var iv, o := A3_HDR_LEN + AddLen(Fc(h)), if Wds(Fc(h)) then A4_HDR_LEN else A3_HDR_LEN;
    && MaskFc(Fc(h)) == MaskFc(Fc(h')) && h[4..16] == h'[4..16]
    && MaskSeq(Get16(h, 22)) == MaskSeq(Get16(h', 22)) && h[16..22] == h'[16..22]
    && (Wds(Fc(h)) ==> h[24..30] == h'[24..30])
    && (Qos(Fc(h)) ==> h[o..o + 2] == h'[o..o + 2])
    && h[iv..iv + 2] == h'[iv..iv + 2] && h[iv + 2..iv + 18] == h'[iv + 2..iv + 18]
  }

  lemma PnAgrees(h: seq<byte>, h': seq<byte>)
    requires HasHeader(h) && HasHeader(h') && |h| == |h'| && AddLen(Fc(h')) == AddLen(Fc(h))
    ensures var iv := A3_HDR_LEN + AddLen(Fc(h));
            (Pn(h') == Pn(h)) <==> (h[iv + 2..iv + 18] == h'[iv + 2..iv + 18])
  {
    hide AddLen, Fc;
    var iv := A3_HDR_LEN + AddLen(Fc(h));
    if Pn(h') == Pn(h) {
      var p, p' := h[iv + 2..iv + 18], h'[iv + 2..iv + 18];
      forall k | 0 <= k < 16
        ensures p[k] == p'[k]
      {
        assert Pn(h)[15 - k] == h[iv + 17 - (15 - k)] && Pn(h')[15 - k] == h'[iv + 17 - (15 - k)];
      }
    }
    if h[iv + 2..iv + 18] == h'[iv + 2..iv + 18] {
      forall i | 0 <= i < 16
        ensures Pn(h')[i] == Pn(h)[i]
      {
        assert h[iv + 2..iv + 18][15 - i] == h'[iv + 2..iv + 18][15 - i];
      }
    }
  }

  lemma MaskedPieces(f: bv16, a: seq<byte>, v: bv16, b: seq<byte>, f': bv16, a': seq<byte>, v': bv16, b': seq<byte>)
    requires |a| == |a'| && |b| == |b'|
    ensures Put16(f) + a + Put16(v) + b == Put16(f') + a' + Put16(v') + b' <==> f == f' && a == a' && v == v' && b == b'
  {
    hide Put16;
    var s, s' := Put16(f) + a + Put16(v), Put16(f') + a' + Put16(v');
    PiecesEqual(s, b, [], s', b', []);
    assert s + b + [] == s + b && s' + b' + [] == s' + b';
    PiecesEqual(Put16(f), a, Put16(v), Put16(f'), a', Put16(v'));
    if Put16(f) == Put16(f') {
      Put16Injective(f, f');
    }
    if Put16(v) == Put16(v') {
      Put16Injective(v, v');
    }
  }

  lemma FixedAgrees(h: seq<byte>, h': seq<byte>)
    requires HasHeader(h) && HasHeader(h')
    ensures FixedPart(h') == FixedPart(h)
       <==> && MaskFc(Fc(h')) == MaskFc(Fc(h)) && h'[4..16] == h[4..16]
            && MaskSeq(Get16(h', 22)) == MaskSeq(Get16(h, 22)) && h'[16..22] == h[16..22]
  {
    hide Fc, Get16, Put16, MaskFc, MaskSeq, HeaderLen;
    MaskedPieces(MaskFc(Fc(h')), h'[4..16], MaskSeq(Get16(h', 22)), h'[16..22],
                 MaskFc(Fc(h)), h[4..16], MaskSeq(Get16(h, 22)), h[16..22]);
  }

  lemma LastAgrees(h: seq<byte>, h': seq<byte>, n: nat)
    requires HasHeader(h) && HasHeader(h') && |h| == |h'| && AddLen(Fc(h')) == AddLen(Fc(h))
    ensures var iv := A3_HDR_LEN + AddLen(Fc(h));
            (LastPart(h', n) == LastPart(h, n)) <==> (h[iv..iv + 2] == h'[iv..iv + 2])
  {
    hide AddLen, Fc, TwoBytes;
    var iv := A3_HDR_LEN + AddLen(Fc(h));
    var a, a' := [h[iv], h[iv + 1]], [h'[iv], h'[iv + 1]];
    PiecesEqual(a, TwoBytes(n), [], a', TwoBytes(n), []);
    assert LastPart(h, n) == a + TwoBytes(n) + [] && LastPart(h', n) == a' + TwoBytes(n) + [];
    assert h[iv..iv + 2] == a && h'[iv..iv + 2] == a';
  }

  lemma AadAgrees(h: seq<byte>, h': seq<byte>, n: nat)
    requires HasHeader(h) && HasHeader(h') && |h| == |h'|
    requires Wds(Fc(h')) == Wds(Fc(h)) && Qos(Fc(h')) == Qos(Fc(h))
    ensures Aad(h', n) == Aad(h, n)
       <==> && FixedPart(h') == FixedPart(h) && AddressPart(h') == AddressPart(h)
            && QosPart(h') == QosPart(h) && LastPart(h', n) == LastPart(h, n)
  {
    hide Fc, Wds, Qos, FixedPart, AddressPart, LastPart, HeaderLen;
    var s, s' := FixedPart(h) + AddressPart(h) + QosPart(h), FixedPart(h') + AddressPart(h') + QosPart(h');
    PiecesEqual(s, LastPart(h, n), [], s', LastPart(h', n), []);
    assert Aad(h, n) == s + LastPart(h, n) + [] && Aad(h', n) == s' + LastPart(h', n) + [];
    PiecesEqual(FixedPart(h), AddressPart(h), QosPart(h), FixedPart(h'), AddressPart(h'), QosPart(h'));
  }

  lemma SameShape(h: seq<byte>, h': seq<byte>)
    requires HasHeader(h) && HasHeader(h') && HeaderLen(h) == HeaderLen(h')
    ensures Wds(Fc(h')) == Wds(Fc(h)) && Qos(Fc(h')) == Qos(Fc(h)) && AddLen(Fc(h')) == AddLen(Fc(h))
  {
    hide Wds, Qos, Get16;
  }

  /**
    Two headers of a length give the same packet number and additional data exactly when they agree
    in what is protected.
   */
  lemma ParametersAgree(h: seq<byte>, h': seq<byte>, n: nat)
    requires HasHeader(h) && HasHeader(h') && |h| == |h'| == HeaderLen(h) == HeaderLen(h')
    ensures ParamsOf(h', n) == ParamsOf(h, n) <==> SameProtected(h, h')
  {
    hide Fc, Get16, MaskFc, MaskSeq, Wds, Qos, AddLen, Pn, Aad, FixedPart, LastPart, HeaderLen;
    SameShape(h, h');
    PnAgrees(h, h');
    AadAgrees(h, h', n);
    FixedAgrees(h, h');
    LastAgrees(h, h', n);
  }

  /** What the MAC of a payload is computed over. */
  function MacInput(h: seq<byte>, data: seq<byte>): (s: seq<byte>)
    requires HasHeader(h)
    ensures |s| % 16 == 0
  {
    MacBlocks(Pn(h), Aad(h, |data|), data)
  }

  function MacBlocks(pn: Block, aad: seq<byte>, data: seq<byte>): (s: seq<byte>)
    ensures |s| % 16 == 0
  {
    pn + (ZeroPad(aad) + ZeroPad(data))
  }

  lemma QosLength(h: seq<byte>)
    requires HasHeader(h)
    ensures |QosPart(h)| == if Qos(Fc(h)) then 2 else 0
  {
    hide Fc, Qos, Wds;
    QosInHeader(h);
  }

  /** The additional data fill two blocks, or three when they end in a QoS control, which they say themselves. */
  lemma AadBlocks(h: seq<byte>, n: nat)
    requires HasHeader(h)
    ensures |Aad(h, n)| == (if Qos(Fc(h)) then 34 else 32) && |ZeroPad(Aad(h, n))| == if Qos(Fc(h)) then 48 else 32
    ensures ZeroPad(Aad(h, n))[..22] == FixedPart(h)
  {
    hide Fc, Qos, Wds, FixedPart, AddressPart, LastPart, ZeroPad, HeaderLen;
    QosLength(h);
    assert |Aad(h, n)| == |FixedPart(h)| + |AddressPart(h)| + |QosPart(h)| + |LastPart(h, n)|;
    PadPrefix(Aad(h, n));
    assert Aad(h, n)[..22] == FixedPart(h);
    assert ZeroPad(Aad(h, n))[..22] == ZeroPad(Aad(h, n))[..|Aad(h, n)|][..22];
  }

  lemma MaskKeepsQos(v: bv16, w: bv16)
    requires MaskFc(v) == MaskFc(w)
    ensures Qos(v) == Qos(w)
  {
  }

  lemma SameQos(h: seq<byte>, h': seq<byte>)
    requires HasHeader(h) && HasHeader(h') && FixedPart(h) == FixedPart(h')
    ensures Qos(Fc(h)) == Qos(Fc(h'))
  {
    hide Fc, Qos, MaskFc, MaskSeq, FixedPart, HeaderLen;
    FixedAgrees(h, h');
    MaskKeepsQos(Fc(h), Fc(h'));
  }

  lemma SamePaddedAad(h: seq<byte>, n: nat, h': seq<byte>, n': nat)
    requires HasHeader(h) && HasHeader(h') && ZeroPad(Aad(h, n)) == ZeroPad(Aad(h', n'))
    ensures Aad(h, n) == Aad(h', n') && n % 65536 == n' % 65536
  {
    hide Fc, Qos, MaskFc, MaskSeq, ZeroPad, Aad, FixedPart, HeaderLen, LengthField;
    AadBlocks(h, n);
    AadBlocks(h', n');
    SameQos(h, h');
    PadPrefix(Aad(h, n));
    PadPrefix(Aad(h', n'));
    AadLength(h, n);
    AadLength(h', n');
  }

  /** Different packet numbers, additional data or payloads never give the same blocks under the MAC. */
  lemma MacInputInjective(h: seq<byte>, d: seq<byte>, h': seq<byte>, d': seq<byte>)
    requires HasHeader(h) && HasHeader(h')
    ensures MacInput(h, d) == MacInput(h', d') <==> Pn(h) == Pn(h') && Aad(h, |d|) == Aad(h', |d'|) && d == d'
  {
    hide Pn, Aad, ZeroPad, FixedPart, Qos, Fc, HeaderLen;
    var a, a' := ZeroPad(Aad(h, |d|)), ZeroPad(Aad(h', |d'|));
    AadBlocks(h, |d|);
    AadBlocks(h', |d'|);
    if MacInput(h, d) == MacInput(h', d') {
      assert FixedPart(h) == MacInput(h, d)[16..38] && FixedPart(h') == MacInput(h', d')[16..38];
      SameQos(h, h');
      PiecesEqual(Pn(h), a, ZeroPad(d), Pn(h'), a', ZeroPad(d'));
      assert MacInput(h, d) == Pn(h) + a + ZeroPad(d) && MacInput(h', d') == Pn(h') + a' + ZeroPad(d');
      assert |a| == |a'| && a == a' && ZeroPad(d) == ZeroPad(d');
      SamePaddedAad(h, |d|, h', |d'|);
      PadInjective(d, d');
    }
  }

  /** The MAC is the CBC-MAC of that input. */
  lemma PacketMacIs(Ei: BlockFn, h: seq<byte>, data: seq<byte>)
    requires HasHeader(h)
    ensures PacketMac(Ei, ParamsOf(h, |data|), data) == CbcMacOf(Ei, MacInput(h, data))
  {
    hide Pn, Aad, ZeroPad, Cbc;
  }

  function CbcMacOf(Ei: BlockFn, s: seq<byte>): Block
    requires |s| % 16 == 0
  {
    Cbc(Ei, Zeros(16), s)
  }

  /** The MAC of a payload under the parameters of its frame. */
  function PacketMac(Ei: BlockFn, g: Params, data: seq<byte>): Block { WpiMac(Ei, g.pn, g.aad, data) }

  /** The payload of a frame, without header and MAC. */
  function Payload(p: seq<byte>): (d: seq<byte>)
    requires HasHeader(p) && |p| >= HeaderLen(p) + MAC_LEN
    ensures |d| == |p| - HeaderLen(p) - MAC_LEN
  {
    p[HeaderLen(p)..|p| - MAC_LEN]
  }

  /** Payload and MAC under the keystream. */
  function SealedBody(Ek: BlockFn, Ei: BlockFn, g: Params, data: seq<byte>): (r: seq<byte>)
    ensures |r| == |data| + MAC_LEN
  {
    Ofb(Ek, g.pn, data + PacketMac(Ei, g, data))
  }

  /** The frame sms4_wpi_pkt_encrypt leaves: header as it was, payload and MAC under the keystream. */
  function Seal(Ek: BlockFn, Ei: BlockFn, p: seq<byte>): (q: seq<byte>)
    requires WellFormed(p)
    ensures |q| == |p|
  {
    var h := Header(p);
    h + SealedBody(Ek, Ei, ParamsOf(h, |Payload(p)|), Payload(p))
  }

  /** The body of a frame with the keystream taken off. */
  function Revealed(Ek: BlockFn, q: seq<byte>): (b: seq<byte>)
    requires WellFormed(q)
    ensures |b| == |q| - HeaderLen(q)
  {
    Ofb(Ek, Pn(Header(q)), q[HeaderLen(q)..])
  }

  /** The payload part of a revealed body. */
  function PayloadPart(b: seq<byte>): (d: seq<byte>)
    requires |b| >= MAC_LEN
    ensures |d| == |b| - MAC_LEN
  {
    b[..|b| - MAC_LEN]
  }

  /** Whether the MAC behind a revealed payload is the payload's. */
  predicate Matches(Ei: BlockFn, g: Params, b: seq<byte>)
    requires |b| >= MAC_LEN
  {
    b[|b| - MAC_LEN..] == PacketMac(Ei, g, PayloadPart(b))
  }

  /** A revealed payload with its own MAC in place of the one received. */
  function Rechecked(Ei: BlockFn, g: Params, b: seq<byte>): (r: seq<byte>)
    requires |b| >= MAC_LEN
    ensures |r| == |b|
  {
    PayloadPart(b) + PacketMac(Ei, g, PayloadPart(b))
  }

  /** The payload recovered from a frame. */
  function Opened(Ek: BlockFn, q: seq<byte>): (d: seq<byte>)
    requires WellFormed(q)
  {
    PayloadPart(Revealed(Ek, q))
  }

  /** Whether the MAC in the frame is the one of the recovered payload. */
  predicate Authentic(Ek: BlockFn, Ei: BlockFn, q: seq<byte>)
    requires WellFormed(q)
  {
    Matches(Ei, ParamsOf(Header(q), |Opened(Ek, q)|), Revealed(Ek, q))
  }

  /** Whether a frame passes, and with what payload, does not depend on the rest of its header. */
  lemma HeaderChangesTolerated(Ek: BlockFn, Ei: BlockFn, q: seq<byte>, h': seq<byte>)
    requires WellFormed(q) && HasHeader(h') && |h'| == HeaderLen(h') == HeaderLen(q)
    requires SameProtected(Header(q), h')
    ensures var q' := h' + q[|h'|..];
            WellFormed(q') ==> Opened(Ek, q') == Opened(Ek, q) && (Authentic(Ek, Ei, q') <==> Authentic(Ek, Ei, q))
  {
    hide SameProtected, ParamsOf, Matches, Ofb, Data, Protected, HeaderLen;
    HeaderPrefix(h', q[|h'|..]);
    ParametersAgree(Header(q), h', |q| - |h'| - MAC_LEN);
    SamePn(Header(q), h', |q| - |h'| - MAC_LEN);
  }

  lemma SamePn(h: seq<byte>, h': seq<byte>, n: nat)
    requires HasHeader(h) && HasHeader(h') && ParamsOf(h, n) == ParamsOf(h', n)
    ensures Pn(h) == Pn(h')
  {
    hide Pn, Aad;
  }

  lemma HeaderPrefix(h: seq<byte>, t: seq<byte>)
    requires HasHeader(h) && |h| == HeaderLen(h)
    ensures HasHeader(h + t) && HeaderLen(h + t) == |h| && Header(h + t) == h && (h + t)[|h|..] == t
    ensures Fc(h + t) == Fc(h)
  {
    hide Wds, Qos;
    assert Get16(h + t, 0) == Get16(h, 0);
  }

  /** Every frame that can be encrypted is accepted by the receiver, with its payload and header back. */
  lemma SealThenOpen(Ek: BlockFn, Ei: BlockFn, p: seq<byte>)
    requires WellFormed(p)
    ensures var q := Seal(Ek, Ei, p);
            WellFormed(q) && Authentic(Ek, Ei, q) && Opened(Ek, q) == Payload(p) && Header(q) == Header(p)
  {
    hide Pn, PacketMac, Ofb, Header, HeaderLen, Data, Protected;
    var h := Header(p);
    var g := ParamsOf(h, |Payload(p)|);
    var b := Payload(p) + PacketMac(Ei, g, Payload(p));
    HeaderPrefix(h, Ofb(Ek, Pn(h), b));
    HeaderPrefix(h, p[|h|..]);
    assert p == h + p[|h|..] by { HeaderIsPrefix(p); }
    OfbTwice(Ek, Pn(h), b);
    assert b[..|b| - MAC_LEN] == Payload(p) && b[|b| - MAC_LEN..] == PacketMac(Ei, g, Payload(p));
  }

  lemma HeaderIsPrefix(p: seq<byte>)
    requires HasHeader(p)
    ensures p == Header(p) + p[|Header(p)|..]
  {
    hide HeaderLen;
  }

  /** A frame is authentic exactly when it is the sealing of its header and recovered payload. */
  lemma AuthenticIffSealed(Ek: BlockFn, Ei: BlockFn, q: seq<byte>, tail: seq<byte>)
    requires WellFormed(q) && |tail| == MAC_LEN
    ensures var p := Header(q) + Opened(Ek, q) + tail;
            WellFormed(p) && (Authentic(Ek, Ei, q) <==> q == Seal(Ek, Ei, p))
  {
    hide Pn, PacketMac, Ofb, Header, HeaderLen, Data, Protected;
    var h, d := Header(q), Opened(Ek, q);
    var p := h + d + tail;
    assert p == h + (d + tail);
    HeaderPrefix(h, d + tail);
    HeaderPrefix(h, q[|h|..]);
    HeaderIsPrefix(q);
    var body, b := q[|h|..], Revealed(Ek, q);
    assert Payload(p) == d;
    OfbTwice(Ek, Pn(h), body);
    assert b == d + b[|b| - MAC_LEN..];
    if q == Seal(Ek, Ei, p) {
      var m := d + PacketMac(Ei, ParamsOf(h, |d|), d);
      assert body == Seal(Ek, Ei, p)[|h|..] == Ofb(Ek, Pn(h), m);
      OfbTwice(Ek, Pn(h), m);
      assert b == m;
    }
  }

  // ----- the code -----

  method FillFixed(h: seq<byte>, aad: array<byte>)
    requires HasHeader(h) && aad.Length == 34
    modifies aad
    ensures aad[..22] == FixedPart(h)
  {
    hide Get16, Put16, MaskFc, MaskSeq, HeaderLen;
    var fc, sc := Put16(MaskFc(Fc(h))), Put16(MaskSeq(Get16(h, 22)));
    var o := Append(aad, 0, fc, []);
    assert [] + fc == fc;
    o := Append(aad, o, h[4..16], fc);
    o := Append(aad, o, sc, fc + h[4..16]);
    o := Append(aad, o, h[16..22], fc + h[4..16] + sc);
  }

  method AppendAddress(h: seq<byte>, aad: array<byte>)
    requires HasHeader(h) && aad.Length == 34 && aad[..22] == FixedPart(h)
    modifies aad
    ensures aad[..28] == FixedPart(h) + AddressPart(h)
  {
    hide Wds, Get16, HeaderLen, FixedPart;
    ghost var a := FixedPart(h);
    if Wds(Fc(h)) {
      var o := Append(aad, 22, h[24..30], a);
    } else {
      var o := Append(aad, 22, Zeros(6), a);
    }
  }

  method AppendQos(h: seq<byte>, aad: array<byte>, ghost a: seq<byte>) returns (o: nat)
    requires HasHeader(h) && aad.Length == 34 && |a| == 28 && aad[..28] == a
    modifies aad
    ensures o <= 30 && aad[..o] == a + QosPart(h)
  {
    hide Wds, Qos, Get16, HeaderLen;
    o := 28;
    var at := if Wds(Fc(h)) then A4_HDR_LEN else A3_HDR_LEN;
    if Qos(Fc(h)) {
      assert at + 2 <= |h| by { QosInHeader(h); }
      o := Append(aad, 28, h[at..at + 2], a);
    }
  }

  lemma QosInHeader(h: seq<byte>)
    requires HasHeader(h)
    ensures A4_HDR_LEN + 2 <= |h|
  {
  }

  method FillAad(h: seq<byte>, n: nat, aad: array<byte>) returns (al: nat)
    requires HasHeader(h) && aad.Length == 34
    modifies aad
    ensures 32 <= al <= 34 && aad[..al] == Aad(h, n)
  {
    hide HeaderLen, FixedPart, AddressPart, QosPart, LastPart;
    FillFixed(h, aad);
    AppendAddress(h, aad);
    al := AppendQos(h, aad, FixedPart(h) + AddressPart(h));
    al := Append(aad, al, LastPart(h, n), FixedPart(h) + AddressPart(h) + QosPart(h));
    assert |aad[..al]| == |Aad(h, n)|;
  }

  method FillPn(h: seq<byte>, tmp: array<byte>)
    requires HasHeader(h) && tmp.Length == 16
    modifies tmp
    ensures tmp[..] == Pn(h)
  {
    hide Get16;
    var iv := A3_HDR_LEN + AddLen(Fc(h));
    forall k | 0 <= k < 16 {
      tmp[15 - k] := h[iv + 2 + k];
    }
    forall i | 0 <= i < 16
      ensures tmp[i] == Pn(h)[i]
    {
      assert tmp[15 - (15 - i)] == h[iv + 2 + (15 - i)];
    }
  }

  /**
    What a body too long for output feedback is left as: a MAC may already stand behind the
    first dl % 2^16 bytes.
   */
  function MacOnly(Ei: BlockFn, p: seq<byte>, hl: nat, dl: nat, g: Params): (q: seq<byte>)
    requires hl + dl + MAC_LEN <= |p|
    ensures |q| == |p|
  {
    var k := dl % 65536;
    if k <= MAX_MPDU_LEN then Splice(p, hl + k, PacketMac(Ei, g, p[hl..hl + k])) else p
  }

  /** Additional data and packet number are those of a payload of dl bytes. */
  ghost predicate Prepared(aad: seq<byte>, pn: seq<byte>, g: Params, dl: nat) {
    aad == g.aad && pn == g.pn && |aad| >= 2 && LengthField(aad) == dl % 65536
  }

  /** The body of sms4_wpi_pkt_encrypt after the checks. */
  method SealBody(ek: array<byte>, ick: array<byte>, n: nat, p: array<byte>, aad: array<byte>, al: nat,
                  tmp: array<byte>, hl: nat, ghost g: Params) returns (rc: int)
    requires ek.Length == 16 && ick.Length == 16 && p !in {ek, ick, tmp, aad} && tmp.Length == 16
    requires hl + MAC_LEN < n <= p.Length && al <= aad.Length && Prepared(aad[..al], tmp[..], g, n - hl - MAC_LEN)
    modifies p
    ensures rc == if n - hl <= MAX_MPDU_LEN then 0 else ENCRYPT_ERROR
    ensures rc == 0 ==>
      p[..] == Splice(old(p[..]), hl, SealedBody(Cipher(old(ek[..])), Cipher(old(ick[..])), g, old(p[hl..n - MAC_LEN])))
    ensures rc != 0 ==> p[..] == MacOnly(Cipher(old(ick[..])), old(p[..]), hl, n - hl - MAC_LEN, g)
  {
    hide SealedBody, Keys, Fn, Splice, Ofb, MacOnly, LengthField;
    ghost var was := p[..];
    rc := AppendMac(ick, n, p, aad, al, tmp, hl, g);
    if rc != 0 {
      return ENCRYPT_ERROR;
    }
    ghost var now := p[..];
    rc := Sms4OfbCrypt(ek, tmp, n - hl, p, hl);
    if rc != 0 {
      return ENCRYPT_ERROR;
    }
    SealedInPlace(Cipher(ek[..]), Cipher(ick[..]), was, hl, n, g);
    assert now[hl..hl + (n - hl)] == now[hl..n];
  }

  /** Keystream over a payload with its MAC behind it is the sealed body. */
  lemma SealedInPlace(Ek: BlockFn, Ei: BlockFn, p: seq<byte>, hl: nat, n: nat, g: Params)
    requires hl + MAC_LEN < n <= |p| && n - hl <= MAX_MPDU_LEN
    ensures var q := MacOnly(Ei, p, hl, n - hl - MAC_LEN, g);
            Splice(q, hl, Ofb(Ek, g.pn, q[hl..n])) == Splice(p, hl, SealedBody(Ek, Ei, g, p[hl..n - MAC_LEN]))
  {
    hide PacketMac, Splice, Ofb, MacOnly;
    var data := p[hl..n - MAC_LEN];
    var mac := PacketMac(Ei, g, data);
    MacBehindPayload(Ei, p, hl, n, g);
    BodyWithMac(p, hl, data, mac, Ofb(Ek, g.pn, data + mac));
  }

  /** The MAC over what the length field states, behind it. */
  method AppendMac(ick: array<byte>, n: nat, p: array<byte>, aad: array<byte>, al: nat, tmp: array<byte>,
                   hl: nat, ghost g: Params) returns (rc: int)
    requires ick.Length == 16 && p !in {ick, tmp, aad} && tmp.Length == 16
    requires hl + MAC_LEN < n <= p.Length && al <= aad.Length && Prepared(aad[..al], tmp[..], g, n - hl - MAC_LEN)
    modifies p
    ensures rc == 0 <==> (n - hl - MAC_LEN) % 65536 <= MAX_MPDU_LEN
    ensures p[..] == MacOnly(Cipher(old(ick[..])), old(p[..]), hl, n - hl - MAC_LEN, g)
  {
    hide WpiMac, Keys, Fn, Splice, LengthField;
    rc := Sms4WpiCbcMac(ick, tmp, al, aad, p, hl);
  }

  /** With a payload that is not truncated, the MAC stands behind the whole of it. */
  lemma MacBehindPayload(Ei: BlockFn, p: seq<byte>, hl: nat, n: nat, g: Params)
    requires hl + MAC_LEN < n <= |p| && n - hl <= MAX_MPDU_LEN
    ensures var data := p[hl..n - MAC_LEN];
            MacOnly(Ei, p, hl, n - hl - MAC_LEN, g) == Splice(p, hl + |data|, PacketMac(Ei, g, data))
  {
    hide PacketMac, Splice;
  }

  /** Payload and MAC behind each other, and then both replaced. */
  lemma BodyWithMac(was: seq<byte>, hl: nat, data: seq<byte>, mac: seq<byte>, c: seq<byte>)
    requires hl + |data| + |mac| <= |was| && was[hl..hl + |data|] == data && |c| == |data| + |mac|
    ensures Splice(was, hl + |data|, mac)[hl..hl + |data| + |mac|] == data + mac
    ensures Splice(Splice(was, hl + |data|, mac), hl, c) == Splice(was, hl, c)
  {
  }

  lemma PrefixHeader(out: seq<byte>, n: nat)
    requires 2 <= n <= |out|
    ensures Fc(out[..n]) == Fc(out) && HeaderLen(out[..n]) == HeaderLen(out)
    ensures n >= HeaderLen(out) ==> Header(out[..n]) == Header(out)
  {
    hide Wds, Qos;
    assert Get16(out, 0) == Get16(out[..n], 0);
  }

  lemma SealedFrame(Ek: BlockFn, Ei: BlockFn, out: seq<byte>, n: nat)
    requires n <= |out| && WellFormed(out[..n])
    ensures var p, hl := out[..n], HeaderLen(out[..n]);
            Splice(out, hl, SealedBody(Ek, Ei, ParamsOf(Header(p), n - hl - MAC_LEN), out[hl..n - MAC_LEN]))
              == Splice(out, 0, Seal(Ek, Ei, p))
  {
    hide HeaderLen, SealedBody, ParamsOf, Data, Protected;
    var p, hl := out[..n], HeaderLen(out[..n]);
    assert Payload(p) == out[hl..n - MAC_LEN];
  }

  /**
    The checks and parameters both directions start with: additional data and packet number of
    a frame that carries a protected payload.
   */
  method CalParams(p: array<byte>, hl: nat, n: nat) returns (aad: array<byte>, al: nat, tmp: array<byte>)
    requires HasHeader(p[..]) && hl == HeaderLen(p[..])
    ensures fresh(aad) && fresh(tmp) && aad.Length == 34 && tmp.Length == 16 && 32 <= al <= 34
    ensures Prepared(aad[..al], tmp[..], ParamsOf(Header(p[..]), n), n)
  {
    hide HeaderLen, Aad, Pn;
    var h := p[..hl];
    assert h == Header(p[..]);
    aad, tmp := new byte[34], new byte[16];
    al := FillAad(h, n, aad);
    FillPn(h, tmp);
    AadLength(h, n);
  }

  /** sms4_wpi_pkt_encrypt on a frame of n bytes, header and MAC room included. */
  method PktEncrypt(ek: array<byte>, ick: array<byte>, n: nat, p: array<byte>) returns (rc: int)
    requires ek.Length == 16 && ick.Length == 16 && p !in {ek, ick} && n <= p.Length && p.Length >= 2
    modifies p
    ensures rc == if WellFormed(old(p[..n])) then 0 else ENCRYPT_ERROR
    ensures rc == 0 ==>
      p[..] == Splice(old(p[..]), 0, Seal(Cipher(old(ek[..])), Cipher(old(ick[..])), old(p[..n])))
    ensures rc != 0 && !Carries(old(p[..]), n) ==> p[..] == old(p[..])
    ensures rc != 0 && Carries(old(p[..]), n) ==>
      var hl := HeaderLen(old(p[..]));
      var dl := n - hl - MAC_LEN;
      p[..] == MacOnly(Cipher(old(ick[..])), old(p[..]), hl, dl, ParamsOf(Header(old(p[..])), dl))
  {
    hide AddLen, Get16, Data, Protected, ParamsOf, Prepared, Keys, Fn, Splice, SealedBody, Seal, MacOnly;
    ghost var out := p[..];
    var fc := Fc(p[..]);
    var hl := A3_HDR_LEN + IV_LEN + AddLen(fc);
    if n >= 2 {
      PrefixHeader(out, n);
    }
    if !Data(fc) || !Protected(fc) || n <= hl + MAC_LEN {
      return ENCRYPT_ERROR;
    }
    var aad, al, tmp := CalParams(p, hl, n - hl - MAC_LEN);
    assert p[..] == out;
    rc := SealBody(ek, ick, n, p, aad, al, tmp, hl, ParamsOf(Header(out), n - hl - MAC_LEN));
    if rc == 0 {
      SealedFrame(Cipher(ek[..]), Cipher(ick[..]), out, n);
    }
  }

  /** What decryption leaves of a frame: the recovered payload and the MAC computed over it. */
  function Unsealed(Ek: BlockFn, Ei: BlockFn, q: seq<byte>): (p: seq<byte>)
    requires WellFormed(q)
    ensures |p| == |q|
  {
    Header(q) + Rechecked(Ei, ParamsOf(Header(q), |Opened(Ek, q)|), Revealed(Ek, q))
  }

  /** MAC aside, MAC recomputed in its place, and the comparison, on a revealed body b. */
  method VerifyMac(ick: array<byte>, n: nat, p: array<byte>, aad: array<byte>, al: nat, tmp: array<byte>,
                   hl: nat, ghost g: Params, ghost was: seq<byte>, ghost b: seq<byte>) returns (rc: int)
    requires ick.Length == 16 && p !in {ick, tmp, aad} && tmp.Length == 16 && p.Length == |was|
    requires hl + MAC_LEN < n <= p.Length && n - hl <= MAX_MPDU_LEN && |b| == n - hl
    requires al <= aad.Length && Prepared(aad[..al], tmp[..], g, n - hl - MAC_LEN) && p[..] == Splice(was, hl, b)
    modifies p
    ensures p[..] == Splice(was, hl, Rechecked(Cipher(old(ick[..])), g, b))
    ensures rc == if Matches(Cipher(old(ick[..])), g, b) then 0 else CBC_MAC_ERROR
  {
    hide PacketMac, Keys, Fn, Splice;
    ghost var now, dl := p[..], n - hl - MAC_LEN;
    ghost var d := b[..dl];
    BodyParts(was, hl, b, dl);
    assert now[hl..hl + dl] == d && now[n - MAC_LEN..n] == b[dl..];
    var MAC := p[n - MAC_LEN..n];
    RecomputeMac(ick, n, p, aad, al, tmp, hl, g, d);
    ghost var mac := PacketMac(Cipher(ick[..]), g, d);
    NewMac(was, hl, b, dl, mac);
    assert p[n - MAC_LEN..n] == mac;
    if p[n - MAC_LEN..n] != MAC {
      return CBC_MAC_ERROR;
    }
    return SUCCESS;
  }

  /** Keystream off, MAC aside, MAC recomputed in its place, and the comparison. */
  method OpenBody(ek: array<byte>, ick: array<byte>, n: nat, p: array<byte>, aad: array<byte>, al: nat,
                  tmp: array<byte>, hl: nat, ghost g: Params) returns (rc: int)
    requires ek.Length == 16 && ick.Length == 16 && p !in {ek, ick, tmp, aad} && tmp.Length == 16
    requires hl + MAC_LEN < n <= p.Length && al <= aad.Length && Prepared(aad[..al], tmp[..], g, n - hl - MAC_LEN)
    modifies p
    ensures rc == DECRYPT_ERROR <==> n - hl > MAX_MPDU_LEN
    ensures rc == DECRYPT_ERROR ==> p[..] == old(p[..])
    ensures rc != DECRYPT_ERROR ==>
      var b := Ofb(Cipher(old(ek[..])), g.pn, old(p[hl..n]));
      && p[..] == Splice(old(p[..]), hl, Rechecked(Cipher(old(ick[..])), g, b))
      && rc == if Matches(Cipher(old(ick[..])), g, b) then 0 else CBC_MAC_ERROR
  {
    hide Matches, Rechecked, Keys, Fn, Splice, Ofb;
    ghost var was := p[..];
    rc := Sms4OfbCrypt(ek, tmp, n - hl, p, hl);
    if rc != 0 {
      return DECRYPT_ERROR;
    }
    rc := VerifyMac(ick, n, p, aad, al, tmp, hl, g, was, Ofb(Cipher(ek[..]), g.pn, was[hl..n]));
  }

  /** The MAC of a payload short enough for the length field, behind it. */
  method RecomputeMac(ick: array<byte>, n: nat, p: array<byte>, aad: array<byte>, al: nat, tmp: array<byte>,
                      hl: nat, ghost g: Params, ghost d: seq<byte>)
    requires ick.Length == 16 && p !in {ick, tmp, aad} && tmp.Length == 16
    requires hl + MAC_LEN < n <= p.Length && n - hl <= MAX_MPDU_LEN
    requires |d| == n - hl - MAC_LEN && p[hl..hl + |d|] == d
    requires al <= aad.Length && Prepared(aad[..al], tmp[..], g, |d|)
    modifies p
    ensures p[..] == Splice(old(p[..]), hl + |d|, PacketMac(Cipher(old(ick[..])), g, d))
  {
    hide WpiMac, Keys, Fn, Splice, LengthField;
    var rc := Sms4WpiCbcMac(ick, tmp, al, aad, p, hl);
  }

  lemma BodyParts(was: seq<byte>, hl: nat, b: seq<byte>, dl: nat)
    requires hl + |b| <= |was| && dl <= |b|
    ensures Splice(was, hl, b)[hl..hl + dl] == b[..dl]
    ensures Splice(was, hl, b)[hl + dl..hl + |b|] == b[dl..]
  {
  }

  lemma NewMac(was: seq<byte>, hl: nat, b: seq<byte>, dl: nat, mac: seq<byte>)
    requires hl + |b| <= |was| && dl + |mac| == |b|
    ensures Splice(Splice(was, hl, b), hl + dl, mac) == Splice(was, hl, b[..dl] + mac)
    ensures Splice(was, hl, b[..dl] + mac)[hl + dl..hl + |b|] == mac
  {
  }

  lemma OpenedFrame(Ek: BlockFn, Ei: BlockFn, out: seq<byte>, n: nat)
    requires n <= |out| && WellFormed(out[..n])
    ensures var q, hl := out[..n], HeaderLen(out[..n]);
            var g := ParamsOf(Header(q), n - hl - MAC_LEN);
            var b := Ofb(Ek, g.pn, out[hl..n]);
            && (Authentic(Ek, Ei, q) <==> Matches(Ei, g, b))
            && Splice(out, hl, Rechecked(Ei, g, b)) == Splice(out, 0, Unsealed(Ek, Ei, q))
  {
    hide HeaderLen, Rechecked, Matches, Ofb, Pn, Data, Protected;
    var q, hl := out[..n], HeaderLen(out[..n]);
    assert q[hl..] == out[hl..n];
  }

  /** sms4_wpi_pkt_decrypt on a frame of n bytes, header and MAC included. */
  method PktDecrypt(ek: array<byte>, ick: array<byte>, n: nat, p: array<byte>) returns (rc: int)
    requires ek.Length == 16 && ick.Length == 16 && p !in {ek, ick} && n <= p.Length && p.Length >= 2
    modifies p
    ensures rc == DECRYPT_ERROR <==> !WellFormed(old(p[..n]))
    ensures rc == DECRYPT_ERROR ==> p[..] == old(p[..])
    ensures rc != DECRYPT_ERROR ==>
      && rc == (if Authentic(Cipher(old(ek[..])), Cipher(old(ick[..])), old(p[..n])) then 0 else CBC_MAC_ERROR)
      && p[..] == Splice(old(p[..]), 0, Unsealed(Cipher(old(ek[..])), Cipher(old(ick[..])), old(p[..n])))
  {
    hide AddLen, Get16, Data, Protected, ParamsOf, Prepared, Keys, Fn, Splice;
    hide Authentic, Unsealed, Matches, Rechecked, Ofb;
    ghost var out := p[..];
    var fc := Fc(p[..]);
    var hl := A3_HDR_LEN + IV_LEN + AddLen(fc);
    if n >= 2 {
      PrefixHeader(out, n);
    }
    if !Data(fc) || !Protected(fc) || n <= hl + MAC_LEN {
      return DECRYPT_ERROR;
    }
    var aad, al, tmp := CalParams(p, hl, n - hl - MAC_LEN);
    assert p[..] == out && p[hl..n] == out[hl..n];
    rc := OpenBody(ek, ick, n, p, aad, al, tmp, hl, ParamsOf(Header(out), n - hl - MAC_LEN));
    if rc != DECRYPT_ERROR {
      OpenedFrame(Cipher(ek[..]), Cipher(ick[..]), out, n);
    }
  }
}
