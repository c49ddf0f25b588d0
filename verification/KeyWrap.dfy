/**
  The key wrap of aeskeywrap.c over an arbitrary block function: the in-place loops, the value
  they compute, its two-sided inverse, and how far it agrees with RFC 3394.
 */
module KeyWrap {
  import opened Words
  import opened BlockCipher

  const MAX_WRAP_LEN := 384
  const WRAP_IV: seq<byte> := [0xa6, 0xa6, 0xa6, 0xa6, 0xa6, 0xa6, 0xa6, 0xa6]

  /** The registers: A of eight bytes and R of eight bytes a slot. */
  datatype Registers = Registers(a: seq<byte>, r: seq<byte>) {
    predicate Valid(n: nat) { |a| == 8 && |r| == 8 * n }
  }

  function Slot(r: seq<byte>, i: nat): (s: seq<byte>)
    requires 8 * i + 8 <= |r|
    ensures |s| == 8
  {
    r[8 * i..8 * i + 8]
  }

  /** The code exclusive-ors the step number into the last byte of A only. */
  function XorStep(a: seq<byte>, t: nat): (a': seq<byte>)
    requires |a| == 8
    ensures |a'| == 8
  {
    a[7 := a[7] ^ (t % 256) as byte]
  }

  function Step(E: BlockFn, i: nat, t: nat, s: Registers): (s': Registers)
    requires |s.a| == 8 && 8 * i + 8 <= |s.r|
    ensures |s'.a| == 8 && |s'.r| == |s.r|
  {
    var b := E(s.a + Slot(s.r, i));
    Registers(XorStep(b[..8], t), Splice(s.r, 8 * i, b[8..]))
  }

  function UnStep(D: BlockFn, i: nat, t: nat, s: Registers): (s': Registers)
    requires |s.a| == 8 && 8 * i + 8 <= |s.r|
    ensures |s'.a| == 8 && |s'.r| == |s.r|
  {
    var b := D(XorStep(s.a, t) + Slot(s.r, i));
    Registers(b[..8], Splice(s.r, 8 * i, b[8..]))
  }

  /** The first i steps of pass j over n slots. */
  function Pass(E: BlockFn, n: nat, j: nat, i: nat, s: Registers): (s': Registers)
    requires s.Valid(n) && i <= n
    ensures s'.Valid(n)
  {
    if i == 0 then s else Step(E, i - 1, n * j + i, Pass(E, n, j, i - 1, s))
  }

  function Passes(E: BlockFn, n: nat, j: nat, s: Registers): (s': Registers)
    requires s.Valid(n)
    ensures s'.Valid(n)
  {
    if j == 0 then s else Pass(E, n, j - 1, n, Passes(E, n, j - 1, s))
  }

  /** Undoes the steps of pass j from the last slot down to slot i. */
  function UnPass(D: BlockFn, n: nat, j: nat, i: nat, s: Registers): (s': Registers)
    requires s.Valid(n) && i <= n
    ensures s'.Valid(n)
    decreases n - i
  {
    if i == n then s else UnStep(D, i, n * j + i + 1, UnPass(D, n, j, i + 1, s))
  }

  /** Undoes the passes from the sixth down to pass j. */
  function UnPasses(D: BlockFn, n: nat, j: nat, s: Registers): (s': Registers)
    requires s.Valid(n) && j <= 6
    ensures s'.Valid(n)
    decreases 6 - j
  {
    if j == 6 then s else UnPass(D, n, j, 0, UnPasses(D, n, j + 1, s))
  }

  /** What aes_wrap writes for an input of whole eight-byte slots. */
  function Wrap(E: BlockFn, p: seq<byte>): (c: seq<byte>)
    requires |p| % 8 == 0
    ensures |c| == |p| + 8
  {
    var s := Passes(E, |p| / 8, 6, Registers(WRAP_IV, p));
    s.a + s.r
  }

  /** What aes_unwrap makes of an input of at least one slot; None is its integrity failure. */
  function Unwrap(D: BlockFn, c: seq<byte>): (p: Option<seq<byte>>)
    requires |c| % 8 == 0 && |c| >= 8
    ensures p.Some? ==> |p.value| == |c| - 8
  {
    var s := UnPasses(D, |c| / 8 - 1, 0, Registers(c[..8], c[8..]));
    if s.a == WRAP_IV then Some(s.r) else None
  }

  // ----- unwrapping undoes wrapping, step by step -----

  lemma XorStepTwice(a: seq<byte>, t: nat)
    requires |a| == 8
    ensures XorStep(XorStep(a, t), t) == a
  {
    XorByte(a[7], (t % 256) as byte);
  }

  lemma StepInverse(E: BlockFn, D: BlockFn, i: nat, t: nat, s: Registers)
    requires Inverses(E, D) && |s.a| == 8 && 8 * i + 8 <= |s.r|
    ensures UnStep(D, i, t, Step(E, i, t, s)) == s
    ensures Step(E, i, t, UnStep(D, i, t, s)) == s
  {
    var b: Block := s.a + Slot(s.r, i);
    var e := E(b);
    XorStepTwice(e[..8], t);
    assert Slot(Splice(s.r, 8 * i, e[8..]), i) == e[8..];
    assert e[..8] + e[8..] == e;
    assert b[..8] == s.a && b[8..] == Slot(s.r, i);
    assert Splice(Splice(s.r, 8 * i, e[8..]), 8 * i, Slot(s.r, i)) == s.r;
    var c: Block := XorStep(s.a, t) + Slot(s.r, i);
    var d := D(c);
    XorStepTwice(s.a, t);
    assert Slot(Splice(s.r, 8 * i, d[8..]), i) == d[8..];
    assert d[..8] + d[8..] == d;
    assert c[..8] == XorStep(s.a, t) && c[8..] == Slot(s.r, i);
    assert Splice(Splice(s.r, 8 * i, d[8..]), 8 * i, Slot(s.r, i)) == s.r;
  }

  lemma {:induction false} UnPassOfPass(E: BlockFn, D: BlockFn, n: nat, j: nat, i: nat, s: Registers)
    requires Inverses(E, D) && s.Valid(n) && i <= n
    ensures UnPass(D, n, j, i, Pass(E, n, j, n, s)) == Pass(E, n, j, i, s)
    decreases n - i
  {
    hide Step, UnStep, Inverses;
    if i < n {
      UnPassOfPass(E, D, n, j, i + 1, s);
      StepInverse(E, D, i, n * j + i + 1, Pass(E, n, j, i, s));
    }
  }

  lemma {:induction false} PassOfUnPass(E: BlockFn, D: BlockFn, n: nat, j: nat, i: nat, s: Registers)
    requires Inverses(E, D) && s.Valid(n) && i <= n
    ensures Pass(E, n, j, i, UnPass(D, n, j, 0, s)) == UnPass(D, n, j, i, s)
  {
    hide Step, UnStep, Inverses;
    if i > 0 {
      PassOfUnPass(E, D, n, j, i - 1, s);
      StepInverse(E, D, i - 1, n * j + i, UnPass(D, n, j, i, s));
    }
  }

  lemma {:induction false} UnPassesOfPasses(E: BlockFn, D: BlockFn, n: nat, j: nat, s: Registers)
    requires Inverses(E, D) && s.Valid(n) && j <= 6
    ensures UnPasses(D, n, j, Passes(E, n, 6, s)) == Passes(E, n, j, s)
    decreases 6 - j
  {
    hide Step, UnStep, Inverses;
    if j < 6 {
      UnPassesOfPasses(E, D, n, j + 1, s);
      UnPassOfPass(E, D, n, j, 0, Passes(E, n, j, s));
    }
  }

  lemma {:induction false} PassesOfUnPasses(E: BlockFn, D: BlockFn, n: nat, j: nat, s: Registers)
    requires Inverses(E, D) && s.Valid(n) && j <= 6
    ensures Passes(E, n, j, UnPasses(D, n, 0, s)) == UnPasses(D, n, j, s)
  {
    hide Step, UnStep, Inverses;
    if j > 0 {
      PassesOfUnPasses(E, D, n, j - 1, s);
      PassOfUnPass(E, D, n, j - 1, n, UnPasses(D, n, j, s));
    }
  }

  /** Unwrapping accepts exactly the wrappings, and gives back what was wrapped. */
  lemma UnwrapIffWrapped(E: BlockFn, D: BlockFn, c: seq<byte>, p: seq<byte>)
    requires Inverses(E, D)
    requires |c| % 8 == 0 && |c| >= 8 && |p| % 8 == 0
    ensures Unwrap(D, c) == Some(p) <==> c == Wrap(E, p)
  {
    hide Pass, UnPass, Inverses;
    var n := |c| / 8 - 1;
    var s := Registers(c[..8], c[8..]);
    if c == Wrap(E, p) {
      UnPassesOfPasses(E, D, n, 0, Registers(WRAP_IV, p));
      var w := Passes(E, n, 6, Registers(WRAP_IV, p));
      assert c[..8] == w.a && c[8..] == w.r;
    }
    if Unwrap(D, c) == Some(p) {
      PassesOfUnPasses(E, D, n, 6, s);
      assert c == c[..8] + c[8..];
    }
  }

  // ----- agreement with RFC 3394 -----

  /** The step number as the 64-bit big-endian integer of section 2.2.1 of RFC 3394. */
  function StepNumber(t: nat): (s: seq<byte>)
    ensures |s| == 8
  {
    seq(8, k requires 0 <= k < 8 => NumberByte(t, 7 - k))
  }

  /** Byte k of a number, counting from the least significant. */
  function NumberByte(t: nat, k: nat): byte {
    ((t / Pow256(k)) % 256) as byte
  }

  function RfcStep(E: BlockFn, i: nat, t: nat, s: Registers): (s': Registers)
    requires |s.a| == 8 && 8 * i + 8 <= |s.r|
    ensures |s'.a| == 8 && |s'.r| == |s.r|
  {
    var b := E(s.a + Slot(s.r, i));
    Registers(Xor(b[..8], StepNumber(t)), Splice(s.r, 8 * i, b[8..]))
  }

  function RfcPass(E: BlockFn, n: nat, j: nat, i: nat, s: Registers): (s': Registers)
    requires s.Valid(n) && i <= n
    ensures s'.Valid(n)
  {
    if i == 0 then s else RfcStep(E, i - 1, n * j + i, RfcPass(E, n, j, i - 1, s))
  }

  function RfcPasses(E: BlockFn, n: nat, j: nat, s: Registers): (s': Registers)
    requires s.Valid(n)
    ensures s'.Valid(n)
  {
    if j == 0 then s else RfcPass(E, n, j - 1, n, RfcPasses(E, n, j - 1, s))
  }

  /** The default initial value of section 2.2.3.1 of RFC 3394. */
  function RfcIv(): (a: seq<byte>)
    ensures |a| == 8
  {
    seq(8, _ => 0xa6)
  }

  function RfcWrap(E: BlockFn, p: seq<byte>): (c: seq<byte>)
    requires |p| % 8 == 0
    ensures |c| == |p| + 8
  {
    var s := RfcPasses(E, |p| / 8, 6, Registers(RfcIv(), p));
    s.a + s.r
  }

  /** One byte is enough for a step number below 256. */
  lemma SmallStepNumber(a: seq<byte>, t: nat)
    requires |a| == 8 && t < 256
    ensures Xor(a, StepNumber(t)) == XorStep(a, t)
  {
    forall k | 0 <= k < 8
      ensures Xor(a, StepNumber(t))[k] == XorStep(a, t)[k]
    {
      if k < 7 {
        HighBytesZero(t, 7 - k);
        XorZero(a[k]);
      } else {
        assert t / Pow256(0) == t;
      }
    }
  }

  lemma HighBytesZero(t: nat, k: nat)
    requires t < 256 && k > 0
    ensures NumberByte(t, k) == 0
  {
    assert t < Pow256(k);
    Quotient(t, Pow256(k));
  }

  lemma Quotient(t: nat, p: nat)
    requires t < p
    ensures t / p == 0
  {
  }

  lemma {:induction false} PassAgrees(E: BlockFn, n: nat, j: nat, i: nat, s: Registers)
    requires s.Valid(n) && i <= n && n * j + i < 256
    ensures RfcPass(E, n, j, i, s) == Pass(E, n, j, i, s)
  {
    hide XorStep, Xor, Splice, Slot, StepNumber;
    if i > 0 {
      PassAgrees(E, n, j, i - 1, s);
      var before := Pass(E, n, j, i - 1, s);
      SmallStepNumber(E(before.a + Slot(before.r, i - 1))[..8], n * j + i);
    }
  }

  lemma {:induction false} PassesAgree(E: BlockFn, n: nat, j: nat, s: Registers)
    requires s.Valid(n) && n * j < 256
    ensures RfcPasses(E, n, j, s) == Passes(E, n, j, s)
  {
    if j > 0 {
      assert n * j == n * (j - 1) + n;
      PassesAgree(E, n, j - 1, s);
      PassAgrees(E, n, j - 1, n, Passes(E, n, j - 1, s));
    }
  }

  // ----- the identity as block function shows every later length to differ -----

  const IDENTITY: BlockFn := (b: Block) => b

  /** The parity of the step numbers of 256 and above among the first c. */
  predicate OddLarge(c: nat) { c >= 256 && (c - 255) % 2 == 1 }

  lemma IdentityStep(i: nat, t: nat, s: Registers)
    requires |s.a| == 8 && 8 * i + 8 <= |s.r|
    ensures var s' := Step(IDENTITY, i, t, s);
            s'.r == s.r && s'.a[6] == s.a[6]
    ensures var s' := RfcStep(IDENTITY, i, t, s);
            s'.r == s.r && s'.a[6] == s.a[6] ^ NumberByte(t, 1)
  {
    var b: Block := s.a + Slot(s.r, i);
    assert b[..8] == s.a && b[8..] == Slot(s.r, i);
    assert Splice(s.r, 8 * i, b[8..]) == s.r;
  }

  lemma SecondByte(t: nat, x: byte)
    requires 0 < t < 512 && x == if OddLarge(t - 1) then 0xa7 else 0xa6
    ensures x ^ NumberByte(t, 1) == if OddLarge(t) then 0xa7 else 0xa6
  {
    assert Pow256(1) == 256;
    if t < 256 {
      assert NumberByte(t, 1) == 0;
    } else {
      assert t / 256 == 1;
      assert NumberByte(t, 1) == 1;
    }
  }

  lemma {:induction false} IdentityPass(n: nat, j: nat, i: nat, s: Registers, s': Registers)
    requires s.Valid(n) && s'.Valid(n) && i <= n && n * j + n < 512
    requires s.r == s'.r && s.a[6] == 0xa6
    requires s'.a[6] == if OddLarge(n * j) then 0xa7 else 0xa6
    ensures var q, q' := Pass(IDENTITY, n, j, i, s), RfcPass(IDENTITY, n, j, i, s');
            && q.r == q'.r && q.a[6] == 0xa6
            && q'.a[6] == if OddLarge(n * j + i) then 0xa7 else 0xa6
  {
    hide Step, RfcStep, NumberByte, OddLarge;
    if i > 0 {
      IdentityPass(n, j, i - 1, s, s');
      var q, q' := Pass(IDENTITY, n, j, i - 1, s), RfcPass(IDENTITY, n, j, i - 1, s');
      IdentityStep(i - 1, n * j + i, q);
      IdentityStep(i - 1, n * j + i, q');
      SecondByte(n * j + i, q'.a[6]);
    }
  }

  lemma {:induction false} IdentityPasses(n: nat, j: nat, s: Registers)
    requires s.Valid(n) && n * j < 512 && s.a[6] == 0xa6
    ensures var q, q' := Passes(IDENTITY, n, j, s), RfcPasses(IDENTITY, n, j, s);
            && q.r == q'.r && q.a[6] == 0xa6
            && q'.a[6] == if OddLarge(n * j) then 0xa7 else 0xa6
  {
    hide Pass, RfcPass;
    if j > 0 {
      assert n * j == n * (j - 1) + n;
      IdentityPasses(n, j - 1, s);
      IdentityPass(n, j - 1, n, Passes(IDENTITY, n, j - 1, s), RfcPasses(IDENTITY, n, j - 1, s));
    }
  }

  /**
    For every length the code accepts: the wrap is that of RFC 3394 under every block function
    exactly when the last step number still fits the byte it is added to.
   */
  lemma AgreesWithRfc(len: nat)
    requires len % 8 == 0 && len <= MAX_WRAP_LEN
    ensures 6 * (len / 8) < 256 <==>
            forall E: BlockFn, p: seq<byte> | |p| == len :: Wrap(E, p) == RfcWrap(E, p)
  {
    hide Passes, RfcPasses;
    var n := len / 8;
    assert RfcIv() == WRAP_IV;
    if 6 * n < 256 {
      forall E: BlockFn, p: seq<byte> | |p| == len
        ensures Wrap(E, p) == RfcWrap(E, p)
      {
        PassesAgree(E, n, 6, Registers(WRAP_IV, p));
      }
    } else {
      var p: seq<byte> := seq(len, _ => 0);
      IdentityPasses(n, 6, Registers(WRAP_IV, p));
      assert Wrap(IDENTITY, p)[6] != RfcWrap(IDENTITY, p)[6];
    }
  }

  // ----- the code -----

  predicate KeyLengthOk(kl: nat) { kl == 16 || kl == 24 || kl == 32 }

  /** The registers as the buffers hold them. */
  ghost function Held(A: array<byte>, R: array<byte>, len: nat): (s: Registers)
    requires A.Length == 16 && len <= R.Length
    reads A, R
    ensures |s.a| == 8 && |s.r| == len
  {
    Registers(A[..8], R[..len])
  }

  /** The body of the wrapping loop: encrypt A and a slot, split the result, add the step number. */
  method WrapStep(E: BlockFn, A: array<byte>, R: array<byte>, B: array<byte>, len: nat, i: nat, t: nat)
    requires A.Length == 16 && B.Length == 16 && A != R && B != A && B != R
    requires 8 * i + 8 <= len <= R.Length
    modifies A, R, B
    ensures Held(A, R, len) == Step(E, i, t, old(Held(A, R, len)))
  {
    hide XorStep;
    ghost var s := Held(A, R, len);
    Memcpy(A, 8, R, 8 * i, 8);
    assert A[..] == s.a + Slot(s.r, i);
    ApplyBlock(E, A, B);
    ghost var b := B[..];
    Memcpy(R, 8 * i, B, 8, 8);
    assert R[..len] == Splice(s.r, 8 * i, b[8..]);
    Memcpy(A, 0, B, 0, 8);
    assert A[..8] == b[..8];
    A[7] := A[7] ^ (t % 256) as byte;
    assert A[..8] == XorStep(b[..8], t) by { LastByte(b[..8], t); }
  }

  lemma LastByte(a: seq<byte>, t: nat)
    requires |a| == 8
    ensures XorStep(a, t) == a[..7] + [a[7] ^ (t % 256) as byte]
  {
  }

  method UnwrapStep(D: BlockFn, A: array<byte>, R: array<byte>, B: array<byte>, len: nat, i: nat, t: nat)
    requires A.Length == 16 && B.Length == 16 && A != R && B != A && B != R
    requires 8 * i + 8 <= len <= R.Length
    modifies A, R, B
    ensures Held(A, R, len) == UnStep(D, i, t, old(Held(A, R, len)))
  {
    hide XorStep;
    ghost var s := Held(A, R, len);
    A[7] := A[7] ^ (t % 256) as byte;
    assert A[..8] == XorStep(s.a, t) by { LastByte(s.a, t); }
    Memcpy(A, 8, R, 8 * i, 8);
    assert A[..] == XorStep(s.a, t) + Slot(s.r, i);
    ApplyBlock(D, A, B);
    ghost var b := B[..];
    Memcpy(A, 0, B, 0, 8);
    Memcpy(R, 8 * i, B, 8, 8);
    assert R[..len] == Splice(s.r, 8 * i, b[8..]);
    assert A[..8] == b[..8];
  }

  /** The six passes of aes_wrap over n slots. */
  method WrapLoops(E: BlockFn, A: array<byte>, R: array<byte>, B: array<byte>, n: nat)
    requires A.Length == 16 && B.Length == 16 && A != R && B != A && B != R && 8 * n <= R.Length
    modifies A, R, B
    ensures Held(A, R, 8 * n) == Passes(E, n, 6, old(Held(A, R, 8 * n)))
  {
    hide Step, Held;
    ghost var start := Held(A, R, 8 * n);
    var j := 0;
    while j < 6
      invariant 0 <= j <= 6
      invariant Held(A, R, 8 * n) == Passes(E, n, j, start)
    {
      var i := 0;
      while i < n
        invariant 0 <= i <= n
        invariant Held(A, R, 8 * n) == Pass(E, n, j, i, Passes(E, n, j, start))
      {
        WrapStep(E, A, R, B, 8 * n, i, n * j + i + 1);
        i := i + 1;
      }
      j := j + 1;
    }
  }

  /** The six passes of aes_unwrap, last pass and last slot first. */
  method UnwrapLoops(D: BlockFn, A: array<byte>, R: array<byte>, B: array<byte>, n: nat)
    requires A.Length == 16 && B.Length == 16 && A != R && B != A && B != R && 8 * n <= R.Length
    modifies A, R, B
    ensures Held(A, R, 8 * n) == UnPasses(D, n, 0, old(Held(A, R, 8 * n)))
  {
    hide UnStep, Held;
    ghost var start := Held(A, R, 8 * n);
    var j := 5;
    while j >= 0
      invariant -1 <= j <= 5
      invariant Held(A, R, 8 * n) == UnPasses(D, n, j + 1, start)
    {
      var i := n - 1;
      while i >= 0
        invariant -1 <= i <= n - 1
        invariant Held(A, R, 8 * n) == UnPass(D, n, j, i + 1, UnPasses(D, n, j + 1, start))
      {
        UnwrapStep(D, A, R, B, 8 * n, i, n * j + i + 1);
        i := i - 1;
      }
      j := j - 1;
    }
  }

  /** aes_wrap, with the scheduled key as a block function; input and output may be the same buffer. */
  method AesWrap(E: BlockFn, kl: nat, il: nat, input: array<byte>, output: array<byte>) returns (rc: int)
    requires il <= input.Length && il + 8 <= output.Length
    modifies output
    ensures rc == if KeyLengthOk(kl) && il <= MAX_WRAP_LEN && il % 8 == 0 then 0 else 1
    ensures rc == 0 ==> output[..] == Splice(old(output[..]), 0, Wrap(E, old(input[..il])))
    ensures rc == 1 ==> output[..] == old(output[..])
  {
    hide Passes, Splice;
    if !KeyLengthOk(kl) || il > MAX_WRAP_LEN || il % 8 != 0 {
      return 1;
    }
    var n := il / 8;
    ghost var out, p := output[..], input[..il];
    var A, B, R := new byte[16], new byte[16], new byte[MAX_WRAP_LEN];
    forall k | 0 <= k < 8 {
      A[k] := WRAP_IV[k];
    }
    assert input[0..0 + il] == p;
    SplicePrefix(R[..], p);
    Memcpy(R, 0, input, 0, il);
    assert Held(A, R, 8 * n) == Registers(WRAP_IV, p) by {
      assert A[..8] == WRAP_IV && R[..il] == p;
    }
    WrapLoops(E, A, R, B, n);
    ghost var a, r := A[..8], R[..il];
    assert a + r == Wrap(E, p);
    assert A[0..0 + 8] == a && output[..] == out;
    Memcpy(output, 0, A, 0, 8);
    assert R[0..0 + il] == r;
    Memcpy(output, 8, R, 0, il);
    SpliceTwice(out, 0, a, r);
    rc := 0;
  }

  /** ol of aes_unwrap, computed in an unsigned word before any check. */
  function OutputLength(il: nat): (ol: nat)
    requires il < TWO32
  {
    (il + TWO32 - 8) % TWO32
  }

  /**
    Of the lengths the checks of aes_unwrap let through, the output length fits the register
    buffer, and is eight less than the input, exactly for those that are not zero.
   */
  lemma OutputLengthFits(il: nat)
    requires il <= MAX_WRAP_LEN + 8 && il % 8 == 0
    ensures OutputLength(il) <= MAX_WRAP_LEN <==> il != 0
    ensures OutputLength(il) == il - 8 <==> il != 0
    ensures OutputLength(0) == TWO32 - 8
  {
    if il != 0 {
      assert il >= 8;
      assert (il - 8) + TWO32 == il + TWO32 - 8;
    }
  }

  /** aes_unwrap, wherever OutputLength is not used after it has wrapped around. */
  method AesUnwrap(D: BlockFn, kl: nat, il: nat, input: array<byte>, output: array<byte>) returns (rc: int)
    requires il <= input.Length && il <= output.Length + 8 && (il == 0 ==> !KeyLengthOk(kl))
    modifies output
    ensures rc == 0 <==> KeyLengthOk(kl) && il <= MAX_WRAP_LEN + 8 && il % 8 == 0 && Unwrap(D, old(input[..il])).Some?
    ensures rc == 0 ==> output[..] == Splice(old(output[..]), 0, Unwrap(D, old(input[..il])).value)
    ensures rc != 0 ==> rc == 1 && output[..] == old(output[..])
  {
    hide UnPasses, Splice;
    if !KeyLengthOk(kl) || il > MAX_WRAP_LEN + 8 || il % 8 != 0 {
      return 1;
    }
    var ol := il - 8;
    ghost var c := input[..il];
    var A, B, R := new byte[16], new byte[16], new byte[MAX_WRAP_LEN + 8];
    assert input[0..0 + 8] == c[..8] && input[8..8 + ol] == c[8..];
    SplicePrefix(A[..], c[..8]);
    Memcpy(A, 0, input, 0, 8);
    SplicePrefix(R[..], c[8..]);
    Memcpy(R, 0, input, 8, ol);
    assert Held(A, R, 8 * (ol / 8)) == Registers(c[..8], c[8..]) by {
      assert A[..8] == c[..8] && R[..ol] == c[8..];
    }
    UnwrapLoops(D, A, R, B, ol / 8);
    assert Unwrap(D, c) == if A[..8] == WRAP_IV then Some(R[..ol]) else None;
    if A[..8] == WRAP_IV {
      Memcpy(output, 0, R, 0, ol);
      return 0;
    }
    return 1;
  }
}
