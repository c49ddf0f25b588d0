/**
  The first known answer of sms4_vectors.h, worked out key by key and round by round: the plaintext
  0123456789abcdeffedcba9876543210 under itself as the key.
 */
module Sms4Answer {
  import opened Words
  import opened Sms4
  import opened Sms4Tables

  function Key(): (mk: seq<word>)
    ensures |mk| == 4
  {
    [0x01234567, 0x89abcdef, 0xfedcba98, 0x76543210]
  }

  /** The words of the key schedule. */
  function KeyAt(i: nat): word
    requires i < 36
  {
    if i == 0 then 0xa292ffa1 else if i == 1 then 0xdf01febf else if i == 2 then 0x99a12b0f
    else if i == 3 then 0xc42410cc else if i == 4 then 0xf12186f9 else if i == 5 then 0x41662b61
    else if i == 6 then 0x5a6ab19a else if i == 7 then 0x7ba92077 else if i == 8 then 0x367360f4
    else if i == 9 then 0x776a0c61 else if i == 10 then 0xb6bb89b3 else if i == 11 then 0x24763151
    else if i == 12 then 0xa520307c else if i == 13 then 0xb7584dbd else if i == 14 then 0xc30753ed
    else if i == 15 then 0x7ee55b57 else if i == 16 then 0x6988608c else if i == 17 then 0x30d895b7
    else if i == 18 then 0x44ba14af else if i == 19 then 0x104495a1 else if i == 20 then 0xd120b428
    else if i == 21 then 0x73b55fa3 else if i == 22 then 0xcc874966 else if i == 23 then 0x92244439
    else if i == 24 then 0xe89e641f else if i == 25 then 0x98ca015a else if i == 26 then 0xc7159060
    else if i == 27 then 0x99e1fd2e else if i == 28 then 0xb79bd80c else if i == 29 then 0x1d2115b0
    else if i == 30 then 0x0e228aeb else if i == 31 then 0xf1780c81 else if i == 32 then 0x428d3654
    else if i == 33 then 0x62293496 else if i == 34 then 0x01cf72e5 else 0x9124a012
  }

  /** The words of the rounds. */
  function TextAt(i: nat): word
    requires i < 36
  {
    if i == 0 then 0x01234567 else if i == 1 then 0x89abcdef else if i == 2 then 0xfedcba98
    else if i == 3 then 0x76543210 else if i == 4 then 0x27fad345 else if i == 5 then 0xa18b4cb2
    else if i == 6 then 0x11c1e22a else if i == 7 then 0xcc13e2ee else if i == 8 then 0xf87c5bd5
    else if i == 9 then 0x33220757 else if i == 10 then 0x77f4c297 else if i == 11 then 0x7a96f2eb
    else if i == 12 then 0x27dac07f else if i == 13 then 0x42dd0f19 else if i == 14 then 0xb8a5da02
    else if i == 15 then 0x907127fa else if i == 16 then 0x8b952b83 else if i == 17 then 0xd42b7c59
    else if i == 18 then 0x2ffc5831 else if i == 19 then 0xf69e6888 else if i == 20 then 0xaf2432c4
    else if i == 21 then 0xed1ec85e else if i == 22 then 0x55a3ba22 else if i == 23 then 0x124b18aa
    else if i == 24 then 0x6ae7725f else if i == 25 then 0xf4cba1f9 else if i == 26 then 0x1dcdfa10
    else if i == 27 then 0x2ff60603 else if i == 28 then 0xeff24fdc else if i == 29 then 0x6fe46b75
    else if i == 30 then 0x893450ad else if i == 31 then 0x7b938f4c else if i == 32 then 0x536e4246
    else if i == 33 then 0x86b3e94f else if i == 34 then 0xd206965e else 0x681edf34
  }

  lemma KeyTaus0()
    ensures Tau(0x8283cb69) == 0x8ad24122 && Tau(0xb087970b) == 0xd5b555c2
         && Tau(0x4c5cfb19) == 0xe6703e44 && Tau(0xbe767e6b) == 0x5b27c83b
         && Tau(0x10d2c409) == 0x2b31bbb6 && Tau(0x9b236bb8) == 0x30f43b03
         && Tau(0x921ffa5f) == 0x5d995f35 && Tau(0x336937ff) == 0xa9229548
  {
  }

  lemma KeySteps0(i: nat)
    requires 0 <= i < 8
    ensures NextKey(KeyAt(i), KeyAt(i + 1), KeyAt(i + 2), KeyAt(i + 3), CK(i)) == KeyAt(i + 4)
  {
    hide Tau;
    KeyTaus0();
  }

  lemma KeyTaus8()
    ensures Tau(0x05405a76) == 0xe1470f27 && Tau(0xcbee828f) == 0x41c68aa1
         && Tau(0x2e116abd) == 0xac677c6c && Tau(0xe5446c65) == 0x96f30158
         && Tau(0x5aed1b62) == 0x0f6e260e && Tau(0xb81912b7) == 0x03449a2f
         && Tau(0xaf3a38f1) == 0x6f9480f0 && Tau(0xb941532d) == 0xff07b2cf
  {
  }

  lemma KeySteps8(i: nat)
    requires 8 <= i < 16
    ensures NextKey(KeyAt(i), KeyAt(i + 1), KeyAt(i + 2), KeyAt(i + 3), CK(i)) == KeyAt(i + 4)
  {
    hide Tau;
    KeyTaus8();
  }

  lemma KeyTaus16()
    ensures Tau(0xa4e1da6c) == 0x8269d001 && Tau(0x593ddfd7) == 0xeb8fb0bd
         && Tau(0x4a2e7827) == 0x3cac4c7a && Tau(0x7a0980c4) == 0x02b6eabb
         && Tau(0x1d216cb9) == 0x864201ff && Tau(0xfa6e3321) == 0x5f78a942
         && Tau(0x8a1f5701) == 0xf2998b90 && Tau(0x33ca67bc) == 0xa95ca26d
  {
  }

  lemma KeySteps16(i: nat)
    requires 16 <= i < 24
    ensures NextKey(KeyAt(i), KeyAt(i + 1), KeyAt(i + 2), KeyAt(i + 3), CK(i)) == KeyAt(i + 4)
  {
    hide Tau;
    KeyTaus16();
  }

  lemma KeyTaus24()
    ensures Tau(0x6699c2a1) == 0xd193aff6 && Tau(0x55ac7f93) == 0x640d9ea4
         && Tau(0xeb84d67f) == 0x09407b9e && Tau(0x5063455e) == 0x685e739d
         && Tau(0xf26c8dff) == 0x7d016148 && Tau(0x91e48a7f) == 0xae0cf29e
         && Tau(0x9993581e) == 0x93a4f806 && Tau(0x4500025e) == 0x73d6e99d
  {
  }

  lemma KeySteps24(i: nat)
    requires 24 <= i < 32
    ensures NextKey(KeyAt(i), KeyAt(i + 1), KeyAt(i + 2), KeyAt(i + 3), CK(i)) == KeyAt(i + 4)
  {
    hide Tau;
    KeyTaus24();
  }

  lemma TextTaus0()
    ensures Tau(0xf002c39e) == 0x18e992b1 && Tau(0xee1470ac) == 0xc62ad40d
         && Tau(0xaa4f1c7d) == 0x23a849c4 && Tau(0xec195daa) == 0xc5445623
         && Tau(0x4a2a2c82) == 0x3c0bed8a && Tau(0x52c45770) == 0x81bb8bd4
         && Tau(0xb1f637df) == 0xdb4d95b0 && Tau(0x98dcaf44) == 0xadb86ff3
  {
  }

  lemma TextSteps0(i: nat)
    requires 0 <= i < 8
    ensures Xor32(TextAt(i), Mix(TextAt(i + 1), TextAt(i + 2), TextAt(i + 3), KeyAt(i + 4))) == TextAt(i + 4)
  {
    hide Tau;
    TextTaus0();
  }

  lemma TextTaus8()
    ensures Tau(0x9b600757) == 0x301eb78b && Tau(0x9de0bdbe) == 0x8c896c5b
         && Tau(0xdc966e60) == 0xb81a781e && Tau(0xa3474e33) == 0x2eba4fa9
         && Tau(0x0381926d) == 0xfebf5d21 && Tau(0x939943cc) == 0xa493fc1f
         && Tau(0x8b75648f) == 0xced363a1 && Tau(0x60069a4a) == 0x1e3d323c
  {
  }

  lemma TextSteps8(i: nat)
    requires 8 <= i < 16
    ensures Xor32(TextAt(i), Mix(TextAt(i + 1), TextAt(i + 2), TextAt(i + 3), KeyAt(i + 4))) == TextAt(i + 4)
  {
    hide Tau;
    TextTaus8();
  }

  lemma TextTaus16()
    ensures Tau(0xdc69f8c8) == 0xb8227911 && Tau(0x05f35dde) == 0xe1ec56b4
         && Tau(0x7823db74) == 0x4cf4129f && Tau(0x85bd0481) == 0xc76cccbf
         && Tau(0x42680ec9) == 0xa7252cd9 && Tau(0xb5c5d18d) == 0xfdddc161
         && Tau(0x4b725b6c) == 0x19464b01 && Tau(0x1a00d498) == 0x13d6a5ad
  {
  }

  lemma TextSteps16(i: nat)
    requires 16 <= i < 24
    ensures Xor32(TextAt(i), Mix(TextAt(i + 1), TextAt(i + 2), TextAt(i + 3), KeyAt(i + 4))) == TextAt(i + 4)
  {
    hide Tau;
    TextTaus16();
  }

  lemma TextTaus24()
    ensures Tau(0x716b85e6) == 0x003bc777 && Tau(0xc0e8a67f) == 0x8d65ca9e
         && Tau(0xa1c2a841) == 0xf6afc007 && Tau(0xf85a7885) == 0x790f4cc7
         && Tau(0xdfce82c0) == 0xb05a8a8d && Tau(0xc3e0a931) == 0x928929b3
         && Tau(0xaf8156a0) == 0x6fbfda1d && Tau(0x96ff9d45) == 0x1a488c73
  {
  }

  lemma TextSteps24(i: nat)
    requires 24 <= i < 32
    ensures Xor32(TextAt(i), Mix(TextAt(i + 1), TextAt(i + 2), TextAt(i + 3), KeyAt(i + 4))) == TextAt(i + 4)
  {
    hide Tau;
    TextTaus24();
  }

  lemma {:induction false} KeysAre(i: nat)
    requires i < RK_WORDS + 4
    ensures K(Key(), i) == KeyAt(i)
  {
    KeyWord(Key(), i);
    if i >= 4 {
      hide K, NextKey, KeyAt, CK, Key;
      KeysAre(i - 4);
      KeysAre(i - 3);
      KeysAre(i - 2);
      KeysAre(i - 1);
      if i < 12 {
        KeySteps0(i - 4);
      } else if i < 20 {
        KeySteps8(i - 4);
      } else if i < 28 {
        KeySteps16(i - 4);
      } else {
        KeySteps24(i - 4);
      }
    }
  }

  function TextQuad(n: nat): Quad
    requires n <= RK_WORDS
  {
    Quad(TextAt(n), TextAt(n + 1), TextAt(n + 2), TextAt(n + 3))
  }

  lemma TextStep(i: nat)
    requires i < RK_WORDS
    ensures Xor32(TextAt(i), Mix(TextAt(i + 1), TextAt(i + 2), TextAt(i + 3), KeyAt(i + 4))) == TextAt(i + 4)
  {
    hide Xor32, Mix, TextAt, KeyAt;
    if i < 8 {
      TextSteps0(i);
    } else if i < 16 {
      TextSteps8(i);
    } else if i < 24 {
      TextSteps16(i);
    } else {
      TextSteps24(i);
    }
  }

  lemma QuadStep(i: nat)
    requires i < RK_WORDS
    ensures Round(TextQuad(i), KeyAt(i + 4)) == TextQuad(i + 1)
  {
    hide Xor32, Mix, TextAt, KeyAt;
    TextStep(i);
  }

  lemma NoRounds(q: Quad, rk: seq<word>)
    ensures Rounds(q, rk, 0) == q
  {
  }

  lemma NextRound(q: Quad, mk: seq<word>, n: nat)
    requires |mk| == 4 && n < RK_WORDS
    ensures Rounds(q, RoundKeys(mk), n + 1) == Round(Rounds(q, RoundKeys(mk), n), K(mk, n + 4))
  {
    hide Round, K;
  }

  lemma RoundGoesOn(q: Quad, mk: seq<word>, n: nat)
    requires |mk| == 4 && n < RK_WORDS
    requires Rounds(q, RoundKeys(mk), n) == TextQuad(n) && K(mk, n + 4) == KeyAt(n + 4)
    ensures Rounds(q, RoundKeys(mk), n + 1) == TextQuad(n + 1)
  {
    hide *;
    NextRound(q, mk, n);
    QuadStep(n);
  }

  lemma {:induction false} RoundsAre(n: nat)
    requires n <= RK_WORDS
    ensures Rounds(TextQuad(0), RoundKeys(Key()), n) == TextQuad(n)
  {
    hide *;
    if n == 0 {
      NoRounds(TextQuad(0), RoundKeys(Key()));
    } else {
      RoundsAre(n - 1);
      KeysAre(n + 3);
      RoundGoesOn(TextQuad(0), Key(), n - 1);
    }
  }

  /** The ciphertext of the vector. */
  lemma CipherOfVector()
    ensures Encrypt(QuadOf(Key()), RoundKeys(Key())) == Quad(0x681edf34, 0xd206965e, 0x86b3e94f, 0x536e4246)
  {
    hide Rounds, RoundKeys;
    RoundsAre(RK_WORDS);
  }
}
