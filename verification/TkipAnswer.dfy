/**
  A test vector of the temporal key hash in the key mixing annex of IEEE 802.11, worked out round by round: temporal
  key 63893B250840B8AE0BD0FA7E61D2783E, address 64F2EAEDDC25, packet number 20DCFD43FFFF.
 */
module TkipAnswer {
  import opened Words
  import opened Tkip

  function Tk(): (tk: seq<byte>)
    ensures |tk| == 16
  {
    [0x63, 0x89, 0x3b, 0x25, 0x08, 0x40, 0xb8, 0xae] + [0x0b, 0xd0, 0xfa, 0x7e, 0x61, 0xd2, 0x78, 0x3e]
  }

  function Sent(): Packet { Packet(0x64, 0xf2, 0xea, 0xed, 0xdc, 0x25, 0x20dcfd43, 0xffff) }

  lemma KeyWords()
    ensures TK16(Tk(), 0) == 0x8963 && TK16(Tk(), 1) == 0x253b
         && TK16(Tk(), 2) == 0x4008 && TK16(Tk(), 3) == 0xaeb8
         && TK16(Tk(), 4) == 0xd00b && TK16(Tk(), 5) == 0x7efa
         && TK16(Tk(), 6) == 0xd261 && TK16(Tk(), 7) == 0x3e78
  {
  }

  /** The phase-1 words before round i. */
  function Before(i: nat): Five
    requires i <= 8
  {
    if i == 0 then Five(0xfd43, 0x20dc, 0xf264, 0xedea, 0x25dc)
    else if i == 1 then Five(0xb564, 0xb203, 0x7783, 0x0fa9, 0x49f0)
    else if i == 2 then Five(0x83e5, 0x9d82, 0xc880, 0x53f0, 0xc042)
    else if i == 3 then Five(0x304f, 0x45db, 0x6744, 0x6ee0, 0x2460)
    else if i == 4 then Five(0x2702, 0x472d, 0x917a, 0xd44b, 0x7f0d)
    else if i == 5 then Five(0x0a40, 0x0c6e, 0x9d3a, 0xb9a3, 0xe2ee)
    else if i == 6 then Five(0x61d2, 0x8d77, 0x4b37, 0x6959, 0x17aa)
    else if i == 7 then Five(0x1e3c, 0x660f, 0x78c8, 0xbb86, 0xe3e6)
    else Five(0x7c67, 0x49d7, 0x9724, 0xb5e9, 0xb4f1)
  }

  lemma Boxes0()
    ensures S(0xacbf) == 0xb821 && S(0xf56c) == 0x9127
         && S(0x6208) == 0x851f && S(0xa5e2) == 0x21bf
         && S(0x86ca) == 0x2414 && S(0x6ccb) == 0xce81
         && S(0x2d5d) == 0xeb7f && S(0xe378) == 0x50fd
         && S(0xf6f8) == 0x4447 && S(0x76cb) == 0x7651
  {
  }

  lemma Boxes2()
    ensures S(0x4921) == 0xac6a && S(0x7047) == 0xa859
         && S(0x95d0) == 0x9ec4 && S(0xb525) == 0x1af0
         && S(0xe783) == 0x641c && S(0x015b) == 0xf6b3
         && S(0x89ba) == 0x0152 && S(0x39d7) == 0x2a36
         && S(0xaf02) == 0x656b && S(0xf170) == 0x5aaa
  {
  }

  lemma Boxes4()
    ensures S(0xf66e) == 0xe33e && S(0x4a48) == 0xc541
         && S(0xdc65) == 0x0bc0 && S(0x4f5b) == 0xe558
         && S(0x30c0) == 0x63dd && S(0xc7d5) == 0x5792
         && S(0xcf6a) == 0x8109 && S(0xf38d) == 0xadfd
         && S(0x754f) == 0xafb6 && S(0x4c62) == 0x34b7
  {
  }

  lemma Boxes6()
    ensures S(0x9ec9) == 0xbc6a && S(0x5e34) == 0xd898
         && S(0xb604) == 0x2d91 && S(0xaaa9) == 0x522d
         && S(0x32e5) == 0xcc36 && S(0xc6dd) == 0x5e2b
         && S(0xd2df) == 0xe3c8 && S(0x372d) == 0x1e5c
         && S(0xa95c) == 0xfa63 && S(0x90d2) == 0xd104
  {
  }

  lemma Boxes8()
    ensures S(0x3d93) == 0xca31 && S(0x63a3) == 0x02f3
         && S(0x0cc2) == 0x5388 && S(0x4414) == 0xc223
         && S(0xa807) == 0xcccb && S(0xff46) == 0x8ec2
  {
  }

  lemma Round0(i: nat)
    requires 0 <= i < 2
    ensures Round(Tk(), Before(i), i) == Before(i + 1)
  {
    hide S, TK16, Tk;
    KeyWords();
    Boxes0();
  }

  lemma Round2(i: nat)
    requires 2 <= i < 4
    ensures Round(Tk(), Before(i), i) == Before(i + 1)
  {
    hide S, TK16, Tk;
    KeyWords();
    Boxes2();
  }

  lemma Round4(i: nat)
    requires 4 <= i < 6
    ensures Round(Tk(), Before(i), i) == Before(i + 1)
  {
    hide S, TK16, Tk;
    KeyWords();
    Boxes4();
  }

  lemma Round6(i: nat)
    requires 6 <= i < 8
    ensures Round(Tk(), Before(i), i) == Before(i + 1)
  {
    hide S, TK16, Tk;
    KeyWords();
    Boxes6();
  }

  lemma {:induction false} RoundsAre(n: nat)
    requires n <= 8
    ensures Rounds(Tk(), Start(Sent()), n) == Before(n)
  {
    if n > 0 {
      hide Round, Tk, Before, Start, Sent;
      RoundsAre(n - 1);
      if n <= 2 {
        Round0(n - 1);
      } else if n <= 4 {
        Round2(n - 1);
      } else if n <= 6 {
        Round4(n - 1);
      } else {
        Round6(n - 1);
      }
    }
  }

  lemma SboxSwept()
    ensures SboxSweep(Tk(), Widen(Before(8), 0xffff)) == Six(0x4698, 0x4cca, 0xeaac, 0x780c, 0x81bc, 0x43b2)
  {
    hide S, TK16, Tk;
    KeyWords();
    Boxes8();
  }

  lemma RotateSwept()
    ensures RotateSweep(Tk(), Six(0x4698, 0x4cca, 0xeaac, 0x780c, 0x81bc, 0x43b2))
         == Six(0x0f81, 0xe5c6, 0x5d8f, 0x26d3, 0x1525, 0xce44)
  {
    hide TK16, Tk;
    KeyWords();
  }

  lemma LastBytes()
    ensures Bytes(Six(0x0f81, 0xe5c6, 0x5d8f, 0x26d3, 0x1525, 0xce44))
         == [0x81, 0x0f, 0xc6, 0xe5, 0x8f, 0x5d] + [0xd3, 0x26, 0x25, 0x15, 0x44, 0xce]
  {
  }

  /** The phase-1 key and the RC4 key of the vector. */
  lemma KeyOfVector()
    ensures Phase1(Tk(), Sent()) == Five(0x7c67, 0x49d7, 0x9724, 0xb5e9, 0xb4f1)
    ensures PacketKey(Tk(), Sent()) == [0xff, 0x7f, 0xff, 0x93]
      + [0x81, 0x0f, 0xc6, 0xe5, 0x8f, 0x5d]
      + [0xd3, 0x26, 0x25, 0x15, 0x44, 0xce]
  {
    hide Rounds, SboxSweep, RotateSweep, Widen, Bytes, Tk, TK16, Start;
    RoundsAre(8);
    SboxSwept();
    RotateSwept();
    KeyWords();
    LastBytes();
  }
}
