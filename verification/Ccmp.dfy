/**
  CCMP packet protection in place: the nonce and additional data that aes.c derives from an
  802.11 header, and the packet round trip over CCM.
 */
module Ccmp {
  import opened Words
  import opened BlockCipher
  import opened Dot11
  import opened Ctr
  import opened Ccm
  import WordBits

  const IV_LEN := 8
  const AAD_MIN_LEN := 22

  /** The compile-time switches that widen the frame-control mask. */
  datatype Build = Build(staCcx: bool, mfp: bool)

  /** The length of the header with its CCMP extended IV. */
  function HeaderLen(p: seq<byte>): (n: nat)
    requires |p| >= 2
    ensures n >= A3_HDR_LEN + IV_LEN
  {
    A3_HDR_LEN + IV_LEN + AddLen(Get16(p, 0))
  }

  predicate HasHeader(p: seq<byte>) { |p| >= 2 && |p| >= HeaderLen(p) }

  const FC_MASK: bv16 := 0xC78F
  const LEGACY_FC_MASK: bv16 := 0xF7FF

  /** Which frame-control bits enter the additional data. */
  function FcMask(build: Build, legacy: bool, nonce1: byte): bv16 {
    if legacy then LEGACY_FC_MASK
    else if build.staCcx && nonce1 == 0xff then 0xF0 | FC_MASK
    else if build.mfp && nonce1 & 0x10 != 0 then 0xF0 | FC_MASK
    else FC_MASK
  }

  /** The frame control as it enters the additional data. */
  function MaskFc(v: bv16, build: Build, legacy: bool, nonce1: byte): bv16 { v & FcMask(build, legacy, nonce1) }

  /** Only the fragment number of the sequence control is protected, and nothing in legacy mode. */
  function MaskSeq(v: bv16, legacy: bool): bv16 { if legacy then 0 else v & 0x000f }

  /** Only the traffic identifier of the QoS control is protected, all of it in legacy mode. */
  function MaskQos(v: bv16, legacy: bool): bv16 { if legacy then v & 0xffff else v & 0x000f }

  function Nonce(p: seq<byte>, nonce1: byte): (n: seq<byte>)
    requires HasHeader(p)
    ensures |n| == NONCE_LEN
  {
    var iv := A3_HDR_LEN + AddLen(Get16(p, 0));
    [nonce1] + p[10..16] + [p[iv + 7], p[iv + 6], p[iv + 5], p[iv + 4], p[iv + 1], p[iv]]
  }

  /** Masked frame control, the three addresses, and the masked sequence control. */
  function FixedPart(build: Build, p: seq<byte>, legacy: bool, nonce1: byte): (a: seq<byte>)
    requires HasHeader(p)
    ensures |a| == AAD_MIN_LEN
  {
    Put16(MaskFc(Get16(p, 0), build, legacy, nonce1)) + p[4..22]
    + Put16(MaskSeq(Get16(p, 22), legacy))
  }

  function AddressPart(p: seq<byte>): seq<byte>
    requires HasHeader(p)
  {
    if Wds(Get16(p, 0)) then p[24..30] else []
  }

  function QosPart(p: seq<byte>, legacy: bool): seq<byte>
    requires HasHeader(p)
  {
    var fc := Get16(p, 0);
    if Qos(fc) then
      Put16(MaskQos(Get16(p, if Wds(fc) then A4_HDR_LEN else A3_HDR_LEN), legacy))
    else []
  }

  function Aad(build: Build, p: seq<byte>, legacy: bool, nonce1: byte): (a: seq<byte>)
    requires HasHeader(p)
    ensures |a| == AAD_MIN_LEN + AddLen(Get16(p, 0))
  {
    FixedPart(build, p, legacy, nonce1) + AddressPart(p) + QosPart(p, legacy)
  }

  /** Octet k of the six of the packet number: two before the key identifier, four behind it. */
  function PnOctet(p: seq<byte>, k: nat): byte
    requires HasHeader(p) && k < 6
  {
    p[A3_HDR_LEN + AddLen(Get16(p, 0)) + if k < 2 then k else k + 2]
  }

  /** The nonce ends in the packet number, its highest octet first. */
  lemma NonceOrder(p: seq<byte>, nonce1: byte, k: nat)
    requires HasHeader(p) && k < 6
    ensures Nonce(p, nonce1)[12 - k] == PnOctet(p, k)
  {
    hide AddLen, Get16;
  }

  /** Which frame-control bits the masks keep: not Retry, and outside legacy mode neither PwrMgmt nor MoreData. */
  lemma MaskedBits(v: bv16, i: byte, build: Build, legacy: bool, nonce1: byte)
    requires i < 16
    ensures var whole := (build.staCcx && nonce1 == 0xff) || (build.mfp && nonce1 & 0x10 != 0);
            WordBits.Bit16(MaskFc(v, build, legacy, nonce1), i)
              == (WordBits.Bit16(v, i) && i != 11 && (legacy || (i != 12 && i != 13 && (whole || !(4 <= i <= 6)))))
  {
  }

  /** Of the sequence control the fragment number stays, of the QoS control the traffic identifier. */
  lemma MaskedControls(v: bv16, i: byte, legacy: bool)
    requires i < 16
    ensures WordBits.Bit16(MaskSeq(v, legacy), i) == (WordBits.Bit16(v, i) && i < 4 && !legacy)
    ensures WordBits.Bit16(MaskQos(v, legacy), i) == (WordBits.Bit16(v, i) && (i < 4 || legacy))
  {
  }

  /** Where the fields of the additional data come from, octet by octet. */
  lemma AadLayout(build: Build, p: seq<byte>, legacy: bool, nonce1: byte, k: nat)
    requires HasHeader(p) && k < 18
    ensures var a, fc := Aad(build, p, legacy, nonce1), Get16(p, 0);
            && Get16(a, 0) == MaskFc(fc, build, legacy, nonce1) && a[2 + k] == p[4 + k]
            && Get16(a, 20) == MaskSeq(Get16(p, 22), legacy)
            && (Wds(fc) && k < 6 ==> a[22 + k] == p[24 + k])
            && (Qos(fc) ==> Get16(a, |a| - 2) == MaskQos(Get16(p, A3_HDR_LEN + AddLen(fc) - 2), legacy))
  {
    hide MaskFc, MaskSeq, MaskQos, Put16, Get16, Wds, Qos;
    var a, fc := Aad(build, p, legacy, nonce1), Get16(p, 0);
    WordBits.Field16At(a, 0, MaskFc(fc, build, legacy, nonce1));
    WordBits.Field16At(a, 20, MaskSeq(Get16(p, 22), legacy));
    if Qos(fc) {
      WordBits.Field16At(a, |a| - 2, MaskQos(Get16(p, A3_HDR_LEN + AddLen(fc) - 2), legacy));
    }
  }

  // ----- packets -----

  /** The header of a packet, from which everything else is derived. */
  function Header(p: seq<byte>): (h: seq<byte>)
    requires HasHeader(p)
    ensures HasHeader(h) && |h| == HeaderLen(p) == HeaderLen(h)
  {
    p[..HeaderLen(p)]
  }

  /** The packet aes_ccmp_encrypt leaves: the header as it was, the sealed body behind it. */
  function Protect(E: BlockFn, build: Build, legacy: bool, nonce1: byte, p: seq<byte>): (q: seq<byte>)
    requires HasHeader(p)
    ensures |q| == |p| + AUTH_LEN
  {
    var h := Header(p);
    h + Seal(E, Nonce(h, nonce1), Aad(build, h, legacy, nonce1), p[|h|..])
  }

  /** The packet aes_ccmp_decrypt recovers, when it reports success. */
  function Unprotect(E: BlockFn, build: Build, legacy: bool, nonce1: byte, q: seq<byte>): Option<seq<byte>>
    requires HasHeader(q)
  {
    var h := Header(q);
    match Open(E, Nonce(h, nonce1), Aad(build, h, legacy, nonce1), q[|h|..])
    case None => None
    case Some(data) => Some(h + data)
  }

  lemma HeaderPrefix(h: seq<byte>, t: seq<byte>)
    requires HasHeader(h) && |h| == HeaderLen(h)
    ensures HasHeader(h + t) && Header(h + t) == h && (h + t)[|h|..] == t
  {
    hide Wds, Qos;
    assert Get16(h + t, 0) == Get16(h, 0);
  }

  /** A packet opens to p exactly when it is the protection of p: header, body and MAC. */
  lemma UnprotectIffProtected(E: BlockFn, build: Build, legacy: bool, nonce1: byte, p: seq<byte>, q: seq<byte>)
    requires HasHeader(p) && HasHeader(q) && |p| - HeaderLen(p) <= 16 * MAX_BLOCKS
    ensures Unprotect(E, build, legacy, nonce1, q) == Some(p) <==> q == Protect(E, build, legacy, nonce1, p)
  {
    hide Nonce, Aad, Seal, Open, Header, HeaderLen;
    var h, h' := Header(p), Header(q);
    var n, a, data := Nonce(h, nonce1), Aad(build, h, legacy, nonce1), p[|h|..];
    Split(p);
    Split(q);
    HeaderPrefix(h, Seal(E, n, a, data));
    OpenIffSealed(E, n, a, data, q[|h'|..]);
    match Open(E, Nonce(h', nonce1), Aad(build, h', legacy, nonce1), q[|h'|..])
    case None =>
    case Some(d) =>
      HeaderPrefix(h', d);
  }

  lemma Split(p: seq<byte>)
    requires HasHeader(p)
    ensures p == Header(p) + p[|Header(p)|..]
  {
  }

  /**
    Whatever header h' travels in front of the sealed body, the packet opens
    with that header whenever h' gives the nonce and the additional data of the original.
   */
  lemma ProtectedHeader(E: BlockFn, build: Build, legacy: bool, nonce1: byte, p: seq<byte>, h': seq<byte>)
    requires HasHeader(p) && |p| - HeaderLen(p) <= 16 * MAX_BLOCKS
    requires HasHeader(h') && |h'| == HeaderLen(h') == HeaderLen(p)
    requires Nonce(h', nonce1) == Nonce(Header(p), nonce1)
    requires Aad(build, h', legacy, nonce1) == Aad(build, Header(p), legacy, nonce1)
    ensures var q := h' + Protect(E, build, legacy, nonce1, p)[|h'|..];
            HasHeader(q) && Unprotect(E, build, legacy, nonce1, q) == Some(h' + p[|h'|..])
  {
    hide Nonce, Aad, Seal, Open, Header, HeaderLen;
    var h := Header(p);
    var a := Aad(build, h, legacy, nonce1);
    var sealed := Seal(E, Nonce(h, nonce1), a, p[|h|..]);
    assert Protect(E, build, legacy, nonce1, p)[|h|..] == sealed;
    HeaderPrefix(h', sealed);
    OpenIffSealed(E, Nonce(h, nonce1), a, p[|h|..], sealed);
  }

  // ----- the parts of the header that are protected -----

  /**
    Two headers that agree in what protection covers: frame control under its mask, the three
    addresses, the sequence and QoS controls under theirs, a fourth address, and the packet number.
   */
  predicate SameProtected(build: Build, legacy: bool, nonce1: byte, h: seq<byte>, h': seq<byte>)
    requires HasHeader(h) && HasHeader(h') && |h| == |h'|
  {
    var fc, fc' := Get16(h, 0), Get16(h', 0);
    var iv, qc := A3_HDR_LEN + AddLen(fc), if Wds(fc) then A4_HDR_LEN else A3_HDR_LEN;
    && MaskFc(fc, build, legacy, nonce1) == MaskFc(fc', build, legacy, nonce1)
    && h[4..22] == h'[4..22]
    && MaskSeq(Get16(h, 22), legacy) == MaskSeq(Get16(h', 22), legacy)
    && (Wds(fc) ==> h[24..30] == h'[24..30])
    && (Qos(fc) ==> MaskQos(Get16(h, qc), legacy) == MaskQos(Get16(h', qc), legacy))
    && h[iv..iv + 2] == h'[iv..iv + 2] && h[iv + 4..iv + 8] == h'[iv + 4..iv + 8]
  }

  /** The masks keep the bits that shape the header. */
  lemma MaskKeepsShape(build: Build, legacy: bool, nonce1: byte, f: bv16, g: bv16)
    requires MaskFc(f, build, legacy, nonce1) == MaskFc(g, build, legacy, nonce1)
    ensures Wds(f) == Wds(g) && Qos(f) == Qos(g)
  {
    assert f & FC_MASK == g & FC_MASK;
  }

  lemma NonceAgrees(h: seq<byte>, h': seq<byte>, nonce1: byte)
    requires HasHeader(h) && HasHeader(h') && |h| == |h'| && AddLen(Get16(h', 0)) == AddLen(Get16(h, 0))
    ensures var iv := A3_HDR_LEN + AddLen(Get16(h, 0));
            (Nonce(h', nonce1) == Nonce(h, nonce1)) <==>
              (h'[10..16] == h[10..16] && h'[iv..iv + 2] == h[iv..iv + 2] && h'[iv + 4..iv + 8] == h[iv + 4..iv + 8])
  {
    hide Wds, Qos, Get16;
    var iv := A3_HDR_LEN + AddLen(Get16(h, 0));
    var t := [h[iv + 7], h[iv + 6], h[iv + 5], h[iv + 4], h[iv + 1], h[iv]];
    var t' := [h'[iv + 7], h'[iv + 6], h'[iv + 5], h'[iv + 4], h'[iv + 1], h'[iv]];
    PiecesEqual([nonce1], h[10..16], t, [nonce1], h'[10..16], t');
    PacketNumbers(h, h', iv);
  }

  lemma PacketNumbers(h: seq<byte>, h': seq<byte>, iv: nat)
    requires iv + 8 <= |h| == |h'|
    ensures [h[iv + 7], h[iv + 6], h[iv + 5], h[iv + 4], h[iv + 1], h[iv]]
         == [h'[iv + 7], h'[iv + 6], h'[iv + 5], h'[iv + 4], h'[iv + 1], h'[iv]]
       <==> h'[iv..iv + 2] == h[iv..iv + 2] && h'[iv + 4..iv + 8] == h[iv + 4..iv + 8]
  {
    var a, a', b, b' := h[iv..iv + 2], h'[iv..iv + 2], h[iv + 4..iv + 8], h'[iv + 4..iv + 8];
    assert a == [h[iv], h[iv + 1]] && a' == [h'[iv], h'[iv + 1]];
    assert b == [h[iv + 4], h[iv + 5], h[iv + 6], h[iv + 7]] && b' == [h'[iv + 4], h'[iv + 5], h'[iv + 6], h'[iv + 7]];
  }

  lemma FixedAgrees(build: Build, legacy: bool, nonce1: byte, h: seq<byte>, h': seq<byte>)
    requires HasHeader(h) && HasHeader(h')
    ensures FixedPart(build, h', legacy, nonce1) == FixedPart(build, h, legacy, nonce1)
       <==> && MaskFc(Get16(h', 0), build, legacy, nonce1) == MaskFc(Get16(h, 0), build, legacy, nonce1)
            && h'[4..22] == h[4..22] && MaskSeq(Get16(h', 22), legacy) == MaskSeq(Get16(h, 22), legacy)
  {
    hide Get16, Put16, MaskFc, MaskSeq, HeaderLen;
    MaskedPieces(MaskFc(Get16(h', 0), build, legacy, nonce1), h'[4..22], MaskSeq(Get16(h', 22), legacy),
                 MaskFc(Get16(h, 0), build, legacy, nonce1), h[4..22], MaskSeq(Get16(h, 22), legacy));
  }

  lemma MaskedPieces(f: bv16, a: seq<byte>, v: bv16, f': bv16, a': seq<byte>, v': bv16)
    requires |a| == |a'|
    ensures Put16(f) + a + Put16(v) == Put16(f') + a' + Put16(v') <==> f == f' && a == a' && v == v'
  {
    hide Put16;
    PiecesEqual(Put16(f), a, Put16(v), Put16(f'), a', Put16(v'));
    if Put16(f) == Put16(f') {
      Put16Injective(f, f');
    }
    if Put16(v) == Put16(v') {
      Put16Injective(v, v');
    }
  }

  lemma QosAgrees(legacy: bool, h: seq<byte>, h': seq<byte>)
    requires HasHeader(h) && HasHeader(h') && |h| == |h'|
    requires Wds(Get16(h', 0)) == Wds(Get16(h, 0)) && Qos(Get16(h', 0)) == Qos(Get16(h, 0))
    ensures var fc := Get16(h, 0);
            var qc := if Wds(fc) then A4_HDR_LEN else A3_HDR_LEN;
            (QosPart(h', legacy) == QosPart(h, legacy)) <==>
              (Qos(fc) ==> MaskQos(Get16(h', qc), legacy) == MaskQos(Get16(h, qc), legacy))
  {
    hide Get16, Put16, MaskQos, Wds, Qos;
    var qc := if Wds(Get16(h, 0)) then A4_HDR_LEN else A3_HDR_LEN;
    if Qos(Get16(h, 0)) && QosPart(h', legacy) == QosPart(h, legacy) {
      Put16Injective(MaskQos(Get16(h', qc), legacy), MaskQos(Get16(h, qc), legacy));
    }
  }

  /** Two headers of a length give the same nonce and additional data exactly when they agree in what is protected. */
  lemma ParametersAgree(build: Build, legacy: bool, nonce1: byte, h: seq<byte>, h': seq<byte>)
    requires HasHeader(h) && HasHeader(h') && |h| == |h'| == HeaderLen(h) == HeaderLen(h')
    ensures Nonce(h', nonce1) == Nonce(h, nonce1) && Aad(build, h', legacy, nonce1) == Aad(build, h, legacy, nonce1)
       <==> SameProtected(build, legacy, nonce1, h, h')
  {
    hide Get16, MaskSeq, MaskQos, MaskFc, Wds, Qos, Nonce, FixedPart, QosPart, Aad;
    assert Wds(Get16(h', 0)) == Wds(Get16(h, 0)) && Qos(Get16(h', 0)) == Qos(Get16(h, 0));
    NonceAgrees(h, h', nonce1);
    FixedAgrees(build, legacy, nonce1, h, h');
    QosAgrees(legacy, h, h');
    AadAgrees(build, legacy, nonce1, h, h');
    if h'[4..22] == h[4..22] {
      SecondAddress(h, h');
    }
  }

  lemma AadAgrees(build: Build, legacy: bool, nonce1: byte, h: seq<byte>, h': seq<byte>)
    requires HasHeader(h) && HasHeader(h') && Wds(Get16(h', 0)) == Wds(Get16(h, 0))
    ensures Aad(build, h', legacy, nonce1) == Aad(build, h, legacy, nonce1)
       <==> && FixedPart(build, h', legacy, nonce1) == FixedPart(build, h, legacy, nonce1)
            && (Wds(Get16(h, 0)) ==> h'[24..30] == h[24..30])
            && QosPart(h', legacy) == QosPart(h, legacy)
  {
    hide Get16, Wds, Qos, FixedPart, QosPart, HeaderLen;
    PiecesEqual(FixedPart(build, h', legacy, nonce1), AddressPart(h'), QosPart(h', legacy),
                FixedPart(build, h, legacy, nonce1), AddressPart(h), QosPart(h, legacy));
  }

  lemma SecondAddress(h: seq<byte>, h': seq<byte>)
    requires |h| >= 22 && |h'| >= 22 && h'[4..22] == h[4..22]
    ensures h'[10..16] == h[10..16]
  {
    assert h[10..16] == h[4..22][6..12] && h'[10..16] == h'[4..22][6..12];
  }

  /** Changes in transit outside the protected parts do not stop the receiver from recovering the body. */
  lemma HeaderChangesTolerated(E: BlockFn, build: Build, legacy: bool, nonce1: byte, p: seq<byte>, h': seq<byte>)
    requires HasHeader(p) && |p| - HeaderLen(p) <= 16 * MAX_BLOCKS
    requires HasHeader(h') && |h'| == HeaderLen(h') == HeaderLen(p)
    requires SameProtected(build, legacy, nonce1, Header(p), h')
    ensures var q := h' + Protect(E, build, legacy, nonce1, p)[|h'|..];
            HasHeader(q) && Unprotect(E, build, legacy, nonce1, q) == Some(h' + p[|h'|..])
  {
    hide Nonce, Aad, SameProtected, Protect, Unprotect;
    ParametersAgree(build, legacy, nonce1, Header(p), h');
    ProtectedHeader(E, build, legacy, nonce1, p, h');
  }

  /** The bits a retransmission may change: Retry, and outside legacy mode PwrMgmt and MoreData too. */
  function Muted(legacy: bool): bv16 { if legacy then 0x0800 else 0x3800 }

  /** Two headers that differ in muted bits only. */
  predicate SameButMuted(legacy: bool, h: seq<byte>, h': seq<byte>)
    requires |h| >= 2
  {
    |h'| == |h| && (Get16(h, 0) ^ Get16(h', 0)) & !Muted(legacy) == 0 && h[2..] == h'[2..]
  }

  lemma MutedBits(build: Build, legacy: bool, nonce1: byte, f: bv16, g: bv16)
    requires (f ^ g) & !Muted(legacy) == 0
    ensures MaskFc(f, build, legacy, nonce1) == MaskFc(g, build, legacy, nonce1)
  {
  }

  lemma SameTail(h: seq<byte>, h': seq<byte>)
    requires |h| == |h'| >= 2 && h[2..] == h'[2..]
    ensures forall i :: 2 <= i < |h| ==> h'[i] == h[i]
  {
    forall i | 2 <= i < |h|
      ensures h'[i] == h[i]
    {
      assert h'[2..][i - 2] == h[2..][i - 2];
    }
  }

  lemma MutedIsProtected(build: Build, legacy: bool, nonce1: byte, h: seq<byte>, h': seq<byte>)
    requires HasHeader(h) && |h| == HeaderLen(h) && SameButMuted(legacy, h, h')
    ensures HasHeader(h') && HeaderLen(h') == |h'| == |h| && SameProtected(build, legacy, nonce1, h, h')
  {
    hide Get16, Muted, MaskFc, MaskSeq, MaskQos, Wds, Qos;
    MutedBits(build, legacy, nonce1, Get16(h, 0), Get16(h', 0));
    MaskKeepsShape(build, legacy, nonce1, Get16(h, 0), Get16(h', 0));
    SameTail(h, h');
    SameHalves(h, h', 22);
    SameHalves(h, h', 24);
    SameHalves(h, h', 30);
  }

  lemma SameHalves(h: seq<byte>, h': seq<byte>, i: nat)
    requires |h| == |h'| && forall k :: 2 <= k < |h| ==> h'[k] == h[k]
    ensures 2 <= i <= |h| - 2 ==> Get16(h', i) == Get16(h, i)
  {
  }

  /** Flipping muted bits in transit does not stop the receiver from recovering the body. */
  lemma MutedBitsTolerated(E: BlockFn, build: Build, legacy: bool, nonce1: byte, p: seq<byte>, h': seq<byte>)
    requires HasHeader(p) && |p| - HeaderLen(p) <= 16 * MAX_BLOCKS
    requires SameButMuted(legacy, Header(p), h')
    ensures var q := h' + Protect(E, build, legacy, nonce1, p)[|h'|..];
            HasHeader(q) && Unprotect(E, build, legacy, nonce1, q) == Some(h' + p[|h'|..])
  {
    hide SameButMuted, SameProtected, Protect, Unprotect, Get16;
    MutedIsProtected(build, legacy, nonce1, Header(p), h');
    HeaderChangesTolerated(E, build, legacy, nonce1, p, h');
  }

  // ----- the code -----

  /** The nonce half of aes_ccmp_cal_params: priority octet, A2, and the packet number reversed. */
  method FillNonce(h: seq<byte>, nonce1: byte, nonce: array<byte>)
    requires HasHeader(h) && |h| == HeaderLen(h) && nonce.Length == NONCE_LEN
    modifies nonce
    ensures nonce[..] == Nonce(h, nonce1)
  {
    hide Get16;
    var iv := A3_HDR_LEN + AddLen(Get16(h, 0));
    var o := Append(nonce, 0, [nonce1], []);
    o := Append(nonce, o, h[10..16], [nonce1]);
    assert [] + [nonce1] == [nonce1];
    o := Append(nonce, o, [h[iv + 7], h[iv + 6], h[iv + 5], h[iv + 4], h[iv + 1], h[iv]], [nonce1] + h[10..16]);
    assert nonce[..o] == nonce[..];
  }

  method FillFixed(build: Build, h: seq<byte>, legacy: bool, nonce1: byte, aad: array<byte>)
    requires HasHeader(h) && aad.Length == 30
    modifies aad
    ensures aad[..AAD_MIN_LEN] == FixedPart(build, h, legacy, nonce1)
  {
    hide Get16, Put16, MaskFc, MaskSeq, HeaderLen;
    var fc := Put16(MaskFc(Get16(h, 0), build, legacy, nonce1));
    var la := Append(aad, 0, fc, []);
    assert [] + fc == fc;
    la := Append(aad, la, h[4..22], fc);
    la := Append(aad, la, Put16(MaskSeq(Get16(h, 22), legacy)), fc + h[4..22]);
  }

  method AppendAddress(h: seq<byte>, aad: array<byte>, la: nat, ghost a: seq<byte>) returns (la': nat)
    requires HasHeader(h) && la == |a| && la + 6 <= aad.Length && aad[..la] == a
    modifies aad
    ensures la' <= la + 6 && aad[..la'] == a + AddressPart(h)
  {
    hide Wds, Get16, HeaderLen;
    la' := la;
    if Wds(Get16(h, 0)) {
      la' := Append(aad, la, h[24..30], a);
    }
  }

  method AppendQos(h: seq<byte>, legacy: bool, aad: array<byte>, la: nat, ghost a: seq<byte>) returns (la': nat)
    requires HasHeader(h) && la == |a| && la + 2 <= aad.Length && aad[..la] == a
    modifies aad
    ensures la' <= la + 2 && aad[..la'] == a + QosPart(h, legacy)
  {
    hide Wds, Qos, Get16, Put16, MaskQos, HeaderLen;
    la' := la;
    var fc := Get16(h, 0);
    if Qos(fc) {
      var qc := Get16(h, if Wds(fc) then A4_HDR_LEN else A3_HDR_LEN);
      la' := Append(aad, la, Put16(MaskQos(qc, legacy)), a);
    }
  }

  /** The additional-data half. */
  method FillAad(build: Build, h: seq<byte>, legacy: bool, nonce1: byte, aad: array<byte>) returns (la: nat)
    requires HasHeader(h) && aad.Length == 30
    modifies aad
    ensures la <= 30 && aad[..la] == Aad(build, h, legacy, nonce1)
  {
    hide HeaderLen, FixedPart, AddressPart, QosPart, Aad;
    FillFixed(build, h, legacy, nonce1, aad);
    la := AppendAddress(h, aad, AAD_MIN_LEN, FixedPart(build, h, legacy, nonce1));
    la := AppendQos(h, legacy, aad, la, FixedPart(build, h, legacy, nonce1) + AddressPart(h));
    AadParts(build, h, legacy, nonce1);
  }

  lemma AadParts(build: Build, h: seq<byte>, legacy: bool, nonce1: byte)
    requires HasHeader(h)
    ensures Aad(build, h, legacy, nonce1)
         == FixedPart(build, h, legacy, nonce1) + AddressPart(h) + QosPart(h, legacy)
  {
    hide FixedPart, AddressPart, QosPart;
  }

  /** aes_ccmp_cal_params. */
  method CalParams(build: Build, p: array<byte>, legacy: bool, nonce1: byte, nonce: array<byte>, aad: array<byte>)
    returns (la: nat, lh: nat)
    requires HasHeader(p[..]) && nonce.Length == NONCE_LEN && aad.Length == 30
    requires nonce != aad && nonce != p && aad != p
    modifies nonce, aad
    ensures lh == HeaderLen(p[..])
    ensures nonce[..] == Nonce(Header(p[..]), nonce1)
    ensures la <= 30 && aad[..la] == Aad(build, Header(p[..]), legacy, nonce1)
  {
    hide HeaderLen, Nonce, Aad;
    lh := HeaderLen(p[..]);
    var h := p[..lh];
    assert h == Header(p[..]);
    FillNonce(h, nonce1, nonce);
    la := FillAad(build, h, legacy, nonce1, aad);
  }

  const ENCRYPT_ERROR := -1
  const MIC_FAIL := -2

  /**
    aes_ccmp_encrypt on an MPDU of dataLen bytes, header included, with tailroom for the MAC,
    which is there already when the body turns out to be too long.
   */
  method AesCcmpEncrypt(E: BlockFn, build: Build, dataLen: nat, p: array<byte>, legacy: bool, nonce1: byte)
    returns (rc: int)
    requires dataLen + AUTH_LEN <= p.Length && HasHeader(p[..dataLen])
    modifies p
    ensures rc == if dataLen - HeaderLen(old(p[..dataLen])) <= 16 * MAX_BLOCKS then 0 else ENCRYPT_ERROR
    ensures rc == 0 ==> p[..] == Splice(old(p[..]), 0, Protect(E, build, legacy, nonce1, old(p[..dataLen])))
    ensures rc != 0 ==>
      p[..] == Splice(old(p[..]), dataLen, Protect(E, build, legacy, nonce1, old(p[..dataLen]))[dataLen..])
  {
    hide HeaderLen, Nonce, Aad, Seal, Splice;
    ghost var packet, out := p[..dataLen], p[..];
    HeaderOfPrefix(out, dataLen);
    var nonce, aad := new byte[NONCE_LEN], new byte[30];
    assert p[..] == out;
    var la, lh := CalParams(build, p, legacy, nonce1, nonce, aad);
    assert p[..] == out && p[lh..lh + (dataLen - lh)] == packet[lh..];
    ghost var c := Seal(E, Nonce(Header(packet), nonce1), Aad(build, Header(packet), legacy, nonce1), packet[lh..]);
    rc := AesCcmEncrypt(E, nonce, la, aad, dataLen - lh, p, lh, p, lh, p, dataLen);
    if rc == 0 {
      SealedPacket(out, dataLen, lh, c);
    }
    assert (Header(packet) + c)[dataLen..] == c[dataLen - lh..];
  }

  lemma HeaderOfPrefix(out: seq<byte>, n: nat)
    requires n <= |out| && HasHeader(out[..n])
    ensures HasHeader(out) && HeaderLen(out) == HeaderLen(out[..n]) && Header(out) == Header(out[..n])
  {
    hide Wds, Qos;
    assert Get16(out, 0) == Get16(out[..n], 0);
  }

  /** The MAC spliced in behind the data, then the data over itself, leave header and sealed body. */
  lemma SealedPacket(out: seq<byte>, n: nat, lh: nat, c: seq<byte>)
    requires lh <= n && n + AUTH_LEN <= |out| && |c| == n - lh + AUTH_LEN
    ensures Splice(Splice(out, n, c[n - lh..]), lh, c[..n - lh]) == Splice(out, 0, out[..n][..lh] + c)
  {
  }

  /** What aes_ccmp_decrypt leaves of a packet, authentic or not: body and MAC deciphered, if their length allows. */
  function Decrypted(E: BlockFn, nonce1: byte, q: seq<byte>): (p: seq<byte>)
    ensures |p| == |q|
  {
    if HasHeader(q) && AUTH_LEN <= |q| - HeaderLen(q) <= 16 * MAX_BLOCKS + AUTH_LEN then
      Header(q) + Unseal(E, Nonce(Header(q), nonce1), q[HeaderLen(q)..])
    else q
  }

  /**
    aes_ccmp_decrypt on dataLen bytes, header and MAC included. A dataLen shorter than the header
    wraps around in the code to a length that counter mode refuses.
   */
  method AesCcmpDecrypt(E: BlockFn, build: Build, dataLen: nat, p: array<byte>, legacy: bool, nonce1: byte)
    returns (rc: int)
    requires dataLen <= p.Length && HasHeader(p[..])
    modifies p
    ensures rc == 0 || rc == MIC_FAIL
    ensures rc == 0 <==> HasHeader(old(p[..dataLen])) && Unprotect(E, build, legacy, nonce1, old(p[..dataLen])).Some?
    ensures p[..] == Splice(old(p[..]), 0, Decrypted(E, nonce1, old(p[..dataLen])))
    ensures rc == 0 ==>
      dataLen >= AUTH_LEN && p[..dataLen - AUTH_LEN] == Unprotect(E, build, legacy, nonce1, old(p[..dataLen])).value
  {
    hide HeaderLen, Nonce, Aad, Open, Unseal, Splice, Decrypted;
    ghost var packet, out := p[..dataLen], p[..];
    HeaderOfWhole(out, dataLen);
    DecryptedPacket(E, nonce1, out, dataLen);
    var nonce, aad := new byte[NONCE_LEN], new byte[30];
    assert p[..] == out;
    var la, lh := CalParams(build, p, legacy, nonce1, nonce, aad);
    if dataLen < lh {
      return MIC_FAIL;
    }
    HeaderOfPrefix(out, dataLen);
    assert p[..] == out && p[lh..lh + (dataLen - lh)] == packet[lh..];
    ghost var n, a := Nonce(Header(packet), nonce1), Aad(build, Header(packet), legacy, nonce1);
    rc := AesCcmDecrypt(E, nonce, la, aad, dataLen - lh, p, lh, p, lh);
    if rc == 0 {
      OpenedPacket(E, n, a, out, dataLen, lh);
      assert Header(packet) == packet[..lh];
    } else {
      rc := MIC_FAIL;
    }
  }

  lemma DecryptedPacket(E: BlockFn, nonce1: byte, out: seq<byte>, n: nat)
    requires n <= |out|
    ensures var q := out[..n];
            Splice(out, 0, Decrypted(E, nonce1, q))
              == if HasHeader(q) && AUTH_LEN <= n - HeaderLen(q) <= 16 * MAX_BLOCKS + AUTH_LEN then
                   Splice(out, HeaderLen(q), Unseal(E, Nonce(Header(q), nonce1), q[HeaderLen(q)..]))
                 else out
  {
    hide HeaderLen, Nonce, Unseal;
  }

  lemma HeaderOfWhole(out: seq<byte>, n: nat)
    requires n <= |out| && HasHeader(out)
    ensures HasHeader(out[..n]) <==> n >= HeaderLen(out)
  {
    hide Wds, Qos;
    if n >= 2 {
      assert Get16(out, 0) == Get16(out[..n], 0);
    }
  }

  lemma OpenedPacket(E: BlockFn, nonce: seq<byte>, aad: seq<byte>, out: seq<byte>, n: nat, lh: nat)
    requires |nonce| == NONCE_LEN && lh <= n <= |out|
    requires Open(E, nonce, aad, out[..n][lh..]).Some?
    ensures AUTH_LEN <= n - lh <= 16 * MAX_BLOCKS + AUTH_LEN
    ensures Splice(out, lh, Unseal(E, nonce, out[..n][lh..]))[..n - AUTH_LEN]
         == out[..n][..lh] + Open(E, nonce, aad, out[..n][lh..]).value
  {
    hide Unseal, Mac;
  }
}
