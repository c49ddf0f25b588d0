/**
  DES as FIPS 46-3 states it, on sequences of bits counted from the left.
 */
module DesStandard {
  import opened DesStandardTables

  type Bits = seq<bool>

  function XorBits(a: Bits, b: Bits): (c: Bits)
    requires |a| == |b|
    ensures |c| == |a|
  {
    seq(|a|, i requires 0 <= i < |a| => a[i] != b[i])
  }

  function InitialPermutation(b: Bits): (c: Bits)
    requires |b| == 64
    ensures |c| == 64
  {
    seq(64, k requires 0 <= k < 64 => b[Ip(k) - 1])
  }

  function FinalPermutation(b: Bits): (c: Bits)
    requires |b| == 64
    ensures |c| == 64
  {
    seq(64, k requires 0 <= k < 64 => b[Fp(k) - 1])
  }

  function Expand(r: Bits): (e: Bits)
    requires |r| == 32
    ensures |e| == 48
  {
    seq(48, k requires 0 <= k < 48 => r[Ei(k) - 1])
  }

  /** Six bits as a number. */
  function Six(b0: bool, b1: bool, b2: bool, b3: bool, b4: bool, b5: bool): bv8 {
    (if b0 then 0x20 else 0) | (if b1 then 0x10 else 0) | (if b2 then 0x08 else 0)
    | (if b3 then 0x04 else 0) | (if b4 then 0x02 else 0) | (if b5 then 0x01 else 0)
  }

  /** The outer two bits choose the row, the inner four the column. */
  function RowColumn(x: bv8): bv8 { (x & 0x20) | ((x & 1) << 4) | ((x >> 1) & 0xf) }

  function SBox(c: nat, x: bv8): bv8
    requires c < 8
  {
    var i := RowColumn(x);
    if c == 0 then S0(i) else if c == 1 then S1(i) else if c == 2 then S2(i) else if c == 3 then S3(i)
    else if c == 4 then S4(i) else if c == 5 then S5(i) else if c == 6 then S6(i) else S7(i)
  }

  /** Bit j, from the left, of a four-bit number. */
  predicate NibbleBit(n: bv8, j: nat)
    requires j < 4
  {
    if j == 0 then n & 8 != 0 else if j == 1 then n & 4 != 0 else if j == 2 then n & 2 != 0 else n & 1 != 0
  }

  /** The six bits that enter S-box c. */
  function SixAt(x: Bits, c: nat): bv8
    requires |x| == 48 && c < 8
  {
    Six(x[6 * c], x[6 * c + 1], x[6 * c + 2], x[6 * c + 3], x[6 * c + 4], x[6 * c + 5])
  }

  function Substitute(x: Bits): (s: Bits)
    requires |x| == 48
    ensures |s| == 32
  {
    seq(32, k requires 0 <= k < 32 => NibbleBit(SBox(k / 4, SixAt(x, k / 4)), k % 4))
  }

  function PermuteP(s: Bits): (p: Bits)
    requires |s| == 32
    ensures |p| == 32
  {
    seq(32, k requires 0 <= k < 32 => s[P32(k) - 1])
  }

  /** f(R, K). */
  function Feistel(r: Bits, k: Bits): (f: Bits)
    requires |r| == 32 && |k| == 48
    ensures |f| == 32
  {
    PermuteP(Substitute(XorBits(Expand(r), k)))
  }

  datatype Halves = Halves(l: Bits, r: Bits)

  predicate Wide(h: Halves) { |h.l| == 32 && |h.r| == 32 }

  predicate KeyBits(ks: seq<Bits>) { forall i :: 0 <= i < |ks| ==> |ks[i]| == 48 }

  /** L_n R_n. */
  function StandardRounds(h: Halves, ks: seq<Bits>, n: nat): (g: Halves)
    requires Wide(h) && KeyBits(ks) && n <= |ks|
    ensures Wide(g)
  {
    if n == 0 then h else
      var p := StandardRounds(h, ks, n - 1);
      Halves(p.r, XorBits(p.l, Feistel(p.r, ks[n - 1])))
  }

  /** The 64-bit block under sixteen 48-bit keys. */
  function StandardDes(b: Bits, ks: seq<Bits>): (c: Bits)
    requires |b| == 64 && |ks| == 16 && KeyBits(ks)
    ensures |c| == 64
  {
    var start := InitialPermutation(b);
    var h := StandardRounds(Halves(start[..32], start[32..]), ks, 16);
    FinalPermutation(h.r + h.l)
  }

  // ----- the key schedule -----

  /** C_0 and D_0. */
  function ChosenHalves(key: Bits): (h: Halves)
    requires |key| == 64
    ensures |h.l| == |h.r| == 28
  {
    Halves(seq(28, k requires 0 <= k < 28 => key[PcC(k) - 1]), seq(28, k requires 0 <= k < 28 => key[PcD(k) - 1]))
  }

  function TurnLeft(b: Bits, n: nat): (c: Bits)
    requires n <= |b|
    ensures |c| == |b|
  {
    b[n..] + b[..n]
  }

  /** C_n and D_n. */
  function KeyHalves(key: Bits, n: nat): (h: Halves)
    requires |key| == 64
    ensures |h.l| == |h.r| == 28
  {
    if n == 0 then ChosenHalves(key) else
      var h := KeyHalves(key, n - 1);
      Halves(TurnLeft(h.l, LeftShifts(n)), TurnLeft(h.r, LeftShifts(n)))
  }

  /** K_n. */
  function RoundKey(key: Bits, n: nat): (k: Bits)
    requires |key| == 64
    ensures |k| == 48
  {
    var h := KeyHalves(key, n);
    seq(48, j requires 0 <= j < 48 => (h.l + h.r)[PcK(j) - 1])
  }

  /** K_1 to K_16. */
  function StandardKeys(key: Bits): (ks: seq<Bits>)
    requires |key| == 64
    ensures |ks| == 16 && KeyBits(ks)
  {
    seq(16, i requires 0 <= i < 16 => RoundKey(key, i + 1))
  }

  // ----- the permutations -----

  /** The two permutations undo each other. */
  lemma FinalUndoesInitial(b: Bits)
    requires |b| == 64
    ensures FinalPermutation(InitialPermutation(b)) == b
  {
    forall k | 0 <= k < 64
      ensures FinalPermutation(InitialPermutation(b))[k] == b[k]
    {
      PermutationsMatch(k);
    }
  }

  lemma PermutationsMatch(k: nat)
    requires k < 64
    ensures Ip(Fp(k) - 1) - 1 == k
  {
  }
}
