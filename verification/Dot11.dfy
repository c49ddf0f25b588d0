/**
  The fields of an 802.11 frame-control word that packet protection looks at.
 */
module Dot11 {
  import WordBits

  const A3_HDR_LEN := 24
  const A4_HDR_LEN := 30

  /** Both distribution-system bits: the header carries a fourth address. */
  predicate Wds(fc: bv16) { fc & 0x300 == 0x300 }

  /** A data frame. */
  predicate Data(fc: bv16) { (fc & 0xC) >> 2 == 2 }

  /** A data frame whose subtype has the QoS bit. */
  predicate Qos(fc: bv16) { Data(fc) && ((fc & 0xF0) >> 4) & 8 != 0 }

  /** The Protected flag. */
  predicate Protected(fc: bv16) { fc & 0x4000 != 0 }

  /** Which bits of the frame control decide: type 2 in bits 2 and 3, then bits 7, 8, 9 and 14. */
  lemma FieldBits(fc: bv16)
    ensures Data(fc) == (WordBits.Bit16(fc, 3) && !WordBits.Bit16(fc, 2))
    ensures Qos(fc) == (Data(fc) && WordBits.Bit16(fc, 7))
    ensures Wds(fc) == (WordBits.Bit16(fc, 8) && WordBits.Bit16(fc, 9))
    ensures Protected(fc) == WordBits.Bit16(fc, 14)
  {
  }

  /** The bytes that a fourth address and a QoS field add to the header. */
  function AddLen(fc: bv16): nat {
    (if Wds(fc) then 6 else 0) + (if Qos(fc) then 2 else 0)
  }
}
