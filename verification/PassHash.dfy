/**
  The passphrase hash of passhash.c, in one go and in slices, against PBKDF2 of section 5.2 of
  RFC 8018 with HMAC-SHA1, 4096 iterations and two blocks.
 */
module PassHash {
  import opened Words
  import opened BlockCipher
  import opened Sha1
  import opened Prf

  const ITERATIONS := 4096
  const TWO31 := 0x8000_0000

  // ----- PBKDF2 -----

  /** U_j of block c. */
  function U(H: HashFn, p: seq<byte>, s: seq<byte>, c: nat, j: nat): D20
    requires j >= 1
  {
    if j == 1 then Hmac(H, p, s + WordBytes(c)) else Hmac(H, p, U(H, p, s, c, j - 1))
  }

  /** U_1 xor ... xor U_n of block c. */
  function T(H: HashFn, p: seq<byte>, s: seq<byte>, c: nat, n: nat): D20
    requires n >= 1
  {
    if n == 1 then U(H, p, s, c, 1) else Xor(T(H, p, s, c, n - 1), U(H, p, s, c, n))
  }

  function Pbkdf2(H: HashFn, p: seq<byte>, s: seq<byte>): (k: seq<byte>)
    ensures |k| == 40
  {
    T(H, p, s, 1, ITERATIONS) + T(H, p, s, 2, ITERATIONS)
  }

  // ----- the same, with the password buffer overwritten by every HMAC -----

  function CodedU(H: HashFn, p: seq<byte>, s: seq<byte>, c: nat, j: nat): D20
    requires j >= 1
  {
    if j == 1 then Hmac(H, p, s + WordBytes(c)) else Hmac(H, KeyAfter(H, p, j - 1), CodedU(H, p, s, c, j - 1))
  }

  function CodedT(H: HashFn, p: seq<byte>, s: seq<byte>, c: nat, n: nat): D20
    requires n >= 1
  {
    if n == 1 then CodedU(H, p, s, c, 1) else Xor(CodedT(H, p, s, c, n - 1), CodedU(H, p, s, c, n))
  }

  /** The second block starts with what the first has left in the buffer. */
  function CodedPbkdf2(H: HashFn, p: seq<byte>, s: seq<byte>): (k: seq<byte>)
    ensures |k| == 40
  {
    CodedT(H, p, s, 1, ITERATIONS) + CodedT(H, KeyAfter(H, p, ITERATIONS), s, 2, ITERATIONS)
  }

  lemma {:induction false} ShortPassword(H: HashFn, p: seq<byte>, s: seq<byte>, c: nat, n: nat)
    requires |p| <= 64 && n >= 1
    ensures CodedU(H, p, s, c, n) == U(H, p, s, c, n) && CodedT(H, p, s, c, n) == T(H, p, s, c, n)
  {
    hide Hmac, Xor;
    if n > 1 {
      ShortPassword(H, p, s, c, n - 1);
      ShortKeyStays(H, p, n - 1);
    }
  }

  /** Under a hash that looks at first bytes only, the blocks of a password of zeros begin like this. */
  lemma {:induction false} FirstByteOfT(pl: nat, s: seq<byte>, c: nat, n: nat)
    requires pl > 64 && n >= 1
    ensures U(FirstByteUp, Zeros(pl), s, c, n)[0] == 0x5d
    ensures T(FirstByteUp, Zeros(pl), s, c, n)[0] == if n % 2 == 0 then 0 else 0x5d
  {
    hide Hmac, FirstByteUp;
    var z := Zeros(pl);
    if n == 1 {
      FirstByteOfHmac(z, s + WordBytes(c));
    } else {
      FirstByteOfHmac(z, U(FirstByteUp, z, s, c, n - 1));
      FirstByteOfT(pl, s, c, n - 1);
    }
  }

  lemma PadValues()
    ensures Up(Xor8(Up(0), 0x5c)) == 0x5d && Up(Xor8(Up(1), 0x5c)) == 0x5e
    ensures Up(Xor8(Up(2), 0x5c)) == 0x5f && Up(Xor8(Up(3), 0x5c)) == 0x5f
  {
  }

  /** And like this when the password drifts. */
  lemma {:induction false} FirstByteOfCodedT(pl: nat, s: seq<byte>, c: nat, n: nat)
    requires pl > 64 && n >= 1
    ensures CodedU(FirstByteUp, Zeros(pl), s, c, n)[0] == if n == 1 then 0x5d else if n == 2 then 0x5e else 0x5f
    ensures CodedT(FirstByteUp, Zeros(pl), s, c, n)[0] == if n == 1 then 0x5d else if n % 2 == 0 then 3 else 0x5c
  {
    hide Hmac, FirstByteUp, KeyAfter, Up, Xor8;
    var z := Zeros(pl);
    PadValues();
    if n == 1 {
      FirstByteOfHmac(z, s + WordBytes(c));
    } else {
      DriftingKey(pl, n - 1);
      FirstByteOfHmac(KeyAfter(FirstByteUp, z, n - 1), CodedU(FirstByteUp, z, s, c, n - 1));
      FirstByteOfCodedT(pl, s, c, n - 1);
    }
  }

  /**
    Whatever the hash, a block is that of PBKDF2 for all passwords of a length exactly up to 64,
    or with one iteration.
   */
  lemma BlockAgrees(pl: nat, n: nat)
    requires n >= 1
    ensures (pl <= 64 || n == 1) <==>
      forall H: HashFn, p: seq<byte>, s: seq<byte>, c: nat | |p| == pl :: CodedT(H, p, s, c, n) == T(H, p, s, c, n)
  {
    if pl <= 64 || n == 1 {
      forall H: HashFn, p: seq<byte>, s: seq<byte>, c: nat | |p| == pl
        ensures CodedT(H, p, s, c, n) == T(H, p, s, c, n)
      {
        if pl <= 64 {
          ShortPassword(H, p, s, c, n);
        }
      }
    } else {
      FirstByteOfT(pl, [], 1, n);
      FirstByteOfCodedT(pl, [], 1, n);
      assert CodedT(FirstByteUp, Zeros(pl), [], 1, n) != T(FirstByteUp, Zeros(pl), [], 1, n);
    }
  }

  /** Whatever the hash, the code computes PBKDF2 for all passwords of a length exactly up to 64. */
  lemma PasswordLengths(pl: nat)
    ensures pl <= 64 <==>
      forall H: HashFn, p: seq<byte>, s: seq<byte> | |p| == pl :: CodedPbkdf2(H, p, s) == Pbkdf2(H, p, s)
  {
    hide T, CodedT;
    if pl <= 64 {
      forall H: HashFn, p: seq<byte>, s: seq<byte> | |p| == pl
        ensures CodedPbkdf2(H, p, s) == Pbkdf2(H, p, s)
      {
        ShortPassword(H, p, s, 1, ITERATIONS);
        ShortPassword(H, p, s, 2, ITERATIONS);
        ShortKeyStays(H, p, ITERATIONS);
      }
    } else {
      FirstByteOfT(pl, [], 1, ITERATIONS);
      FirstByteOfCodedT(pl, [], 1, ITERATIONS);
      var coded, standard := CodedPbkdf2(FirstByteUp, Zeros(pl), []), Pbkdf2(FirstByteUp, Zeros(pl), []);
      assert coded[0] == CodedT(FirstByteUp, Zeros(pl), [], 1, ITERATIONS)[0];
      assert standard[0] == T(FirstByteUp, Zeros(pl), [], 1, ITERATIONS)[0];
    }
  }

  /** The bytes of the network name that count: at most 32. */
  function Salt(ssid: seq<byte>): (s: seq<byte>)
    ensures |s| <= 32
  {
    if |ssid| > 32 then ssid[..32] else ssid
  }

  // ----- the password buffer -----

  /** A buffer whose first pl bytes are the password, after k HMACs under it. */
  function Buffer(w: seq<byte>, pl: nat, k: nat): (b: seq<byte>)
    requires pl <= |w|
    ensures |b| == |w|
  {
    KeyAfter(Digest, w[..pl], k) + w[pl..]
  }

  lemma BufferKey(w: seq<byte>, pl: nat, k: nat)
    requires pl <= |w|
    ensures Buffer(w, pl, k)[..pl] == KeyAfter(Digest, w[..pl], k) && Buffer(w, pl, k)[pl..] == w[pl..]
    ensures Buffer(w, pl, 0) == w
  {
    hide Digest;
    assert KeyAfter(Digest, w[..pl], 0) == w[..pl];
  }

  lemma BufferNext(w: seq<byte>, pl: nat, k: nat, b: seq<byte>)
    requires pl <= |w| == |b| && b[..pl] == Overwritten(Digest, KeyAfter(Digest, w[..pl], k)) && b[pl..] == w[pl..]
    ensures b == Buffer(w, pl, k + 1)
  {
    hide Digest, Overwritten;
    assert b == b[..pl] + b[pl..];
  }

  lemma {:induction false} BufferAdds(w: seq<byte>, pl: nat, j: nat, k: nat)
    requires pl <= |w|
    ensures Buffer(Buffer(w, pl, j), pl, k) == Buffer(w, pl, j + k)
  {
    hide Digest, Overwritten;
    BufferKey(w, pl, j);
    BufferKey(Buffer(w, pl, j), pl, 0);
    if k > 0 {
      BufferAdds(w, pl, j, k - 1);
      BufferKey(w, pl, j + k - 1);
      BufferKey(Buffer(w, pl, j), pl, k - 1);
    }
  }

  // ----- the pieces both versions share -----

  /** The first HMAC of a block: salt and block number under the password. */
  method FirstHmac(password: array<byte>, passlen: nat, ssid: array<byte>, ssidlength: nat, count: nat,
                   output: array<byte>, off: nat)
    requires passlen <= password.Length && passlen < TWO31 && ssidlength <= ssid.Length
    requires off + 20 <= output.Length && password != output
    modifies password, output
    ensures output[..] == Splice(old(output[..]), off,
              CodedU(Digest, old(password[..passlen]), old(Salt(ssid[..ssidlength])), count, 1))
    ensures password[..] == Buffer(old(password[..]), passlen, 1)
  {
    hide Digest, Hmac, Splice, Overwritten, WordBytes;
    ghost var s, w := Salt(ssid[..ssidlength]), password[..];
    var digest := new byte[36];
    var n := if ssidlength > 32 then 32 else ssidlength;
    CopyBytes(digest, 0, ssid, n);
    assert digest[..n] == s;
    var c := WordBytes(count);
    digest[n], digest[n + 1], digest[n + 2], digest[n + 3] := c[0], c[1], c[2], c[3];
    assert digest[..n + 4] == s + c;
    HmacSha1(digest, n + 4, password, passlen, output, off);
    BufferKey(w, passlen, 0);
    BufferNext(w, passlen, 0, password[..]);
  }

  /** output[j] ^= digest[j] for 20 bytes. */
  method XorDigest(output: array<byte>, off: nat, digest: array<byte>)
    requires off + 20 <= output.Length && digest.Length >= 20 && output != digest
    modifies output
    ensures output[..] == Splice(old(output[..]), off, Xor(old(output[off..off + 20]), digest[..20]))
  {
    forall j | 0 <= j < 20 {
      output[off + j] := output[off + j] ^ digest[j];
    }
  }

  /** hmac_sha1 of the latest U, under the password as it is by then. */
  method HmacOfLast(password: array<byte>, passlen: nat, last: array<byte>, digest: array<byte>,
                    ghost w: seq<byte>, ghost j: nat)
    requires passlen <= password.Length == |w| && passlen < TWO31 && password[..] == Buffer(w, passlen, j)
    requires last.Length >= 20 && digest.Length >= 20 && password !in {last, digest} && last != digest
    modifies password, digest
    ensures digest[..20] == Hmac(Digest, KeyAfter(Digest, w[..passlen], j), last[..20])
    ensures password[..] == Buffer(w, passlen, j + 1)
  {
    hide Digest, Hmac, Splice, Overwritten;
    BufferKey(w, passlen, j);
    ghost var u := Hmac(Digest, KeyAfter(Digest, w[..passlen], j), last[..20]);
    SplicePrefix(digest[..], u);
    assert password[..passlen] == password[..][..passlen] && password[passlen..] == password[..][passlen..];
    HmacSha1(last, 20, password, passlen, digest, 0);
    BufferNext(w, passlen, j, password[..]);
  }

  /** One iteration: the next U, and its exclusive or into the output. */
  method NextU(password: array<byte>, passlen: nat, last: array<byte>, digest: array<byte>,
               output: array<byte>, off: nat,
               ghost w: seq<byte>, ghost s: seq<byte>, ghost c: nat, ghost j: nat, ghost out: seq<byte>)
    requires passlen <= password.Length == |w| && passlen < TWO31 && password[..] == Buffer(w, passlen, j)
    requires last.Length >= 20 && digest.Length >= 20 && off + 20 <= output.Length == |out|
    requires password !in {last, digest, output} && last != digest && output !in {last, digest}
    requires j >= 1 && last[..20] == CodedU(Digest, w[..passlen], s, c, j)
    requires output[..] == Splice(out, off, CodedT(Digest, w[..passlen], s, c, j))
    modifies password, last, digest, output
    ensures last[..20] == CodedU(Digest, w[..passlen], s, c, j + 1)
    ensures output[..] == Splice(out, off, CodedT(Digest, w[..passlen], s, c, j + 1))
    ensures password[..] == Buffer(w, passlen, j + 1) && last[20..] == old(last[20..])
  {
    hide Digest, Hmac, Splice, Xor, KeyAfter, Buffer;
    ghost var o, p := output[..], w[..passlen];
    ghost var u := CodedU(Digest, p, s, c, j + 1);
    HmacOfLast(password, passlen, last, digest, w, j);
    assert digest[..20] == u && output[..] == o;
    SpliceSlice(out, off, CodedT(Digest, p, s, c, j));
    SpliceOver(out, off, CodedT(Digest, p, s, c, j), CodedT(Digest, p, s, c, j + 1));
    ghost var b := password[..];
    forall i | 0 <= i < 20 {
      last[i] := digest[i];
    }
    assert last[..20] == digest[..20] == u;
    assert output[..] == o && output[off..off + 20] == o[off..off + 20];
    XorDigest(output, off, digest);
    assert password[..] == b;
  }

  // ----- in one go -----

  /** F: one block of the hash, of at least one iteration. */
  method F(password: array<byte>, passlen: nat, ssid: array<byte>, ssidlength: nat, iterations: int, count: nat,
           output: array<byte>, off: nat)
    requires passlen <= password.Length && passlen < TWO31 && ssidlength <= ssid.Length
    requires off + 20 <= output.Length && password != output
    modifies password, output
    ensures var n := if iterations < 1 then 1 else iterations;
            && output[..] == Splice(old(output[..]), off,
                 CodedT(Digest, old(password[..passlen]), old(Salt(ssid[..ssidlength])), count, n))
            && password[..] == Buffer(old(password[..]), passlen, n)
  {
    hide Digest, Splice, CodedU, Salt, Buffer;
    ghost var w, s, out := password[..], Salt(ssid[..ssidlength]), output[..];
    ghost var p := w[..passlen];
    assert p == password[..passlen];
    var digest, digest1 := new byte[36], new byte[20];
    FirstHmac(password, passlen, ssid, ssidlength, count, output, off);
    SpliceSlice(out, off, CodedU(Digest, p, s, count, 1));
    forall i | 0 <= i < 20 {
      digest1[i] := output[off + i];
    }
    assert digest1[..20] == output[off..off + 20];
    var i := 1;
    while i < iterations
      invariant 1 <= i && (i == 1 || i <= iterations) && password[..] == Buffer(w, passlen, i)
      invariant digest1[..20] == CodedU(Digest, p, s, count, i)
      invariant output[..] == Splice(out, off, CodedT(Digest, p, s, count, i))
    {
      NextU(password, passlen, digest1, digest, output, off, w, s, count, i, out);
      i := i + 1;
    }
  }

  /** strlen: the bytes before the terminator. */
  function StrLen(s: seq<byte>): (n: nat)
    requires 0 in s
    ensures n < |s| && s[n] == 0 && 0 !in s[..n]
  {
    if s[0] == 0 then 0 else
      assert s == [s[0]] + s[1..];
      var n := 1 + StrLen(s[1..]);
      assert s[..n] == [s[0]] + s[1..][..n - 1];
      n
  }

  /** passhash. The length it checks is that of the string; passlen need not be the same. */
  method Passhash(password: array<byte>, passlen: nat, ssid: array<byte>, ssidlen: nat,
                  output: array<byte>) returns (rc: int)
    requires 0 in password[..]
    requires passlen <= password.Length && passlen < TWO31 && ssidlen <= ssid.Length
    requires output.Length >= 40 && ssid != password && output !in {password, ssid}
    modifies password, output
    ensures var length := StrLen(old(password[..]));
            rc == if length < 8 || length > 63 || ssidlen > 32 then 1 else 0
    ensures rc == 1 ==> output[..] == old(output[..]) && password[..] == old(password[..])
    ensures rc == 0 ==>
      && output[..] == Splice(old(output[..]), 0, CodedPbkdf2(Digest, old(password[..passlen]), old(ssid[..ssidlen])))
      && password[..] == Buffer(old(password[..]), passlen, 2 * ITERATIONS)
  {
    hide Digest, Splice, CodedT, Buffer;
    var strlen := StrLen(password[..]);
    if strlen < 8 || strlen > 63 || ssidlen > 32 {
      return 1;
    }
    ghost var w, s, out, id := password[..], ssid[..ssidlen], output[..], ssid[..];
    assert password[..passlen] == w[..passlen];
    F(password, passlen, ssid, ssidlen, ITERATIONS, 1, output, 0);
    ghost var w', p' := password[..], KeyAfter(Digest, w[..passlen], ITERATIONS);
    BufferKey(w, passlen, ITERATIONS);
    assert password[..passlen] == w'[..passlen] == p' && ssid[..ssidlen] == id[..ssidlen];
    SpliceTwice(out, 0, CodedT(Digest, w[..passlen], s, 1, ITERATIONS), CodedT(Digest, p', s, 2, ITERATIONS));
    F(password, passlen, ssid, ssidlen, ITERATIONS, 2, output, 20);
    BufferAdds(w, passlen, ITERATIONS, ITERATIONS);
    return 0;
  }

  // ----- the bookkeeping of slices -----

  /** A finished block: how many HMACs came before it, and how many went into it. */
  datatype Block = Block(start: nat, length: nat)

  /**
    The counter iters of the block in progress, the HMACs computed in all, how many of them came
    before that block, and the blocks finished. The block is started over when iters is 0.
   */
  datatype Run = Run(iters: int, calls: nat, start: nat, finished: seq<Block>) {
    predicate Sane() {
      && |finished| <= 2 && iters < ITERATIONS && (|finished| == 2 ==> iters == 0)
      && (iters != 0 ==> start < calls) && forall i :: 0 <= i < |finished| ==> finished[i].length >= 1
    }
  }

  const START := Run(0, 0, 0, [])

  /** The first HMAC of a block. */
  function Begin(r: Run): Run {
    if r.iters == 0 then Run(1, r.calls + 1, r.calls, r.finished) else r
  }

  /** What is then left to do of a slice of n. */
  function Remaining(r: Run, n: int): int {
    var m := if r.iters == 0 then n - 1 else n;
    if Begin(r).iters + m > ITERATIONS then ITERATIONS - Begin(r).iters else m
  }

  /** The loop runs for positive m only, while iters takes any m. */
  function Continue(r: Run, m: int): Run {
    r.(iters := r.iters + m, calls := r.calls + if m > 0 then m else 0)
  }

  function Finish(r: Run): Run
    requires r.start <= r.calls
  {
    if r.iters == ITERATIONS then Run(0, r.calls, r.start, r.finished + [Block(r.start, r.calls - r.start)]) else r
  }

  /** One call of do_passhash. */
  function Step(r: Run, n: int): (r': Run)
    requires r.Sane()
    ensures r'.Sane()
  {
    if |r.finished| == 2 then r else Finish(Continue(Begin(r), Remaining(r, n)))
  }

  /** The HMACs that have gone into the block in progress beyond what iters says. */
  function Excess(r: Run): int {
    if r.iters == 0 then 0 else r.calls - r.start - r.iters
  }

  /** A slice keeps counter and HMACs in step unless it takes the counter down, and the block ends with the excess. */
  lemma ExcessAdds(r: Run, n: int)
    requires r.Sane() && |r.finished| < 2
    ensures var r', m := Step(r, n), Remaining(r, n);
            var e := Excess(r) + if m < 0 then -m else 0;
            if |r'.finished| > |r.finished| then r'.finished == r.finished + [Block(Begin(r).start, ITERATIONS + e)]
            else r'.finished == r.finished && (r'.iters != 0 ==> Excess(r') == e)
  {
  }

  /** Every HMAC so far belongs to its block, which the counter says. */
  predicate InStep(r: Run) {
    && Excess(r) == 0 && forall i :: 0 <= i < |r.finished| ==> r.finished[i].length == ITERATIONS
  }

  /** Slices keep it so exactly when they are not negative or take the counter to 0, where the block starts over. */
  lemma StaysInStep(r: Run, n: int)
    requires r.Sane() && InStep(r) && |r.finished| < 2
    ensures InStep(Step(r, n)) <==> n >= 0 || r.iters + n == 0
  {
    ExcessAdds(r, n);
  }

  /** A block that got two iterations, then minus one, and then the rest, ends with one too many. */
  lemma NegativeSlice()
    ensures Step(Step(Step(START, 2), -1), ITERATIONS - 1).finished == [Block(0, ITERATIONS + 1)]
  {
    var r1, r2 := Run(2, 2, 0, []), Run(1, 2, 0, []);
    assert Step(START, 2) == r1;
    assert Step(r1, -1) == r2;
    EndsBlock(r2, ITERATIONS - 1);
    hide Step;
  }

  /** The slice that fills the block. */
  lemma EndsBlock(r: Run, n: int)
    requires r.Sane() && |r.finished| < 2 && r.iters > 0 && n == ITERATIONS - r.iters >= 0
    ensures Step(r, n).finished == r.finished + [Block(r.start, r.calls + n - r.start)]
  {
  }

  /** Nothing lost and nothing repeated: block c starts after c whole blocks. */
  predicate Straight(r: Run) {
    && 0 <= r.iters && r.calls == Progress(r) && (r.iters > 0 ==> r.start == ITERATIONS * |r.finished|)
    && forall i :: 0 <= i < |r.finished| ==> r.finished[i] == Block(ITERATIONS * i, ITERATIONS)
  }

  /** The iterations of both blocks done so far, by the counters. */
  function Progress(r: Run): int { ITERATIONS * |r.finished| + r.iters }

  /** Where a slice of n iterations leads: no further than the end of the current block. */
  function Advance(progress: nat, n: nat): nat {
    var end := ITERATIONS * (progress / ITERATIONS + 1);
    if progress >= 2 * ITERATIONS then progress else if progress + n > end then end else progress + n
  }

  lemma AdvanceBounds(progress: nat, n: nat)
    requires progress < 2 * ITERATIONS && n > 0
    ensures progress < Advance(progress, n) <= progress + n
    ensures Advance(progress, n) <= 2 * ITERATIONS
  {
  }

  lemma AdvanceInBlock(c: nat, iters: nat, n: nat)
    requires c < 2 && iters < ITERATIONS
    ensures Advance(ITERATIONS * c + iters, n)
         == ITERATIONS * c + if iters + n > ITERATIONS then ITERATIONS else iters + n
  {
  }

  lemma StaysStraight(r: Run, n: nat)
    requires r.Sane() && Straight(r) && n > 0
    ensures Straight(Step(r, n)) && Progress(Step(r, n)) == Advance(Progress(r), n)
  {
    hide Advance;
    if |r.finished| == 2 {
      assert Advance(2 * ITERATIONS, n) == 2 * ITERATIONS by {
        AtEnd(n);
      }
    } else {
      AdvanceInBlock(|r.finished|, r.iters, n);
    }
  }

  lemma AtEnd(n: nat)
    ensures Advance(2 * ITERATIONS, n) == 2 * ITERATIONS
  {
  }

  /** The first k calls of a run, one after the other. */
  function AdvanceAll(slices: seq<nat>, k: nat): nat
    requires k <= |slices|
  {
    if k == 0 then 0 else Advance(AdvanceAll(slices, k - 1), slices[k - 1])
  }

  /**
    Slices of positive size reach the end: after as many calls as there are iterations at the
    latest, never past it, and never before the iterations asked for add up to all of them.
   */
  lemma {:induction false} SlicesFinish(slices: seq<nat>, k: nat)
    requires k <= |slices| && forall i :: 0 <= i < |slices| ==> slices[i] > 0
    ensures AdvanceAll(slices, k) <= 2 * ITERATIONS
    ensures k <= 2 * ITERATIONS ==> AdvanceAll(slices, k) >= k
    ensures k >= 2 * ITERATIONS ==> AdvanceAll(slices, k) == 2 * ITERATIONS
    ensures AdvanceAll(slices, k) <= Total(slices, k)
  {
    hide Advance;
    if k > 0 {
      SlicesFinish(slices, k - 1);
      var progress := AdvanceAll(slices, k - 1);
      if progress < 2 * ITERATIONS {
        AdvanceBounds(progress, slices[k - 1]);
      } else {
        AtEnd(slices[k - 1]);
      }
    }
  }

  // ----- what the buffers hold -----

  /** The bytes of a finished block c. */
  function BlockBytes(p: seq<byte>, s: seq<byte>, c: nat, b: Block): D20
    requires b.length >= 1
  {
    CodedT(Digest, KeyAfter(Digest, p, b.start), s, c, b.length)
  }

  /** Output and last digest in the middle of block c, with n HMACs in it after k before it. */
  ghost predicate InBlock(output: seq<byte>, digest: seq<byte>, p: seq<byte>, s: seq<byte>, c: int, k: nat, n: nat)
    requires |output| == 40 && 1 <= c <= 2 && n >= 1
  {
    && output[20 * (c - 1)..20 * c] == CodedT(Digest, KeyAfter(Digest, p, k), s, c, n)
    && digest == CodedU(Digest, KeyAfter(Digest, p, k), s, c, n)
  }

  /** Finished blocks are in place. */
  ghost predicate Done(output: seq<byte>, p: seq<byte>, s: seq<byte>, finished: seq<Block>)
    requires |output| == 40 && |finished| <= 2 && forall i :: 0 <= i < |finished| ==> finished[i].length >= 1
  {
    && (|finished| >= 1 ==> output[..20] == BlockBytes(p, s, 1, finished[0]))
    && (|finished| >= 2 ==> output[20..] == BlockBytes(p, s, 2, finished[1]))
  }

  /** And so is the one in progress. */
  ghost predicate Holds(output: seq<byte>, digest: seq<byte>, p: seq<byte>, s: seq<byte>, r: Run)
    requires |output| == 40 && r.Sane()
  {
    && Done(output, p, s, r.finished)
    && (r.iters != 0 ==> InBlock(output, digest, p, s, |r.finished| + 1, r.start, r.calls - r.start))
  }

  /** The end of a slice. */
  lemma HoldsFinished(output: seq<byte>, digest: seq<byte>, p: seq<byte>, s: seq<byte>, r: Run)
    requires |output| == 40 && |r.finished| <= 1 && r.start < r.calls && r.iters <= ITERATIONS
    requires forall i :: 0 <= i < |r.finished| ==> r.finished[i].length >= 1
    requires Done(output, p, s, r.finished)
    requires InBlock(output, digest, p, s, |r.finished| + 1, r.start, r.calls - r.start)
    ensures Finish(r).Sane() && Holds(output, digest, p, s, Finish(r))
  {
    hide CodedT, CodedU, KeyAfter, Digest;
    if |r.finished| == 1 {
      assert output[20..40] == output[20..];
    } else {
      assert output[0..20] == output[..20];
    }
  }

  // ----- in slices -----

  lemma SpliceBefore(s: seq<byte>, i: nat, t: seq<byte>)
    requires i + |t| <= |s|
    ensures Splice(s, i, t)[..i] == s[..i]
  {
  }

  lemma SpliceSelf(s: seq<byte>, i: nat)
    requires i + 20 <= |s|
    ensures Splice(s, i, s[i..i + 20]) == s
  {
  }

  /** do_F: some more iterations, none when their number is negative; w is the password buffer when the block began. */
  method DoF(password: array<byte>, passlen: nat, iterations: int, last: array<byte>, output: array<byte>, off: nat,
             ghost w: seq<byte>, ghost s: seq<byte>, ghost c: nat, ghost j: nat)
    requires passlen <= password.Length == |w| && passlen < TWO31 && password[..] == Buffer(w, passlen, j)
    requires last.Length == 20 && off + 20 <= output.Length && password !in {last, output} && last != output
    requires j >= 1 && last[..] == CodedU(Digest, w[..passlen], s, c, j)
    requires output[off..off + 20] == CodedT(Digest, w[..passlen], s, c, j)
    modifies password, last, output
    ensures var n := j + if iterations > 0 then iterations else 0;
            && last[..] == CodedU(Digest, w[..passlen], s, c, n)
            && output[..] == Splice(old(output[..]), off, CodedT(Digest, w[..passlen], s, c, n))
            && password[..] == Buffer(w, passlen, n)
  {
    hide Digest, Splice, CodedU, CodedT, Buffer;
    ghost var out, p := output[..], w[..passlen];
    SpliceSelf(out, off);
    assert last[..20] == last[..];
    var digest := new byte[20];
    var i := 0;
    while i < iterations
      invariant 0 <= i && (i <= iterations || i == 0) && password[..] == Buffer(w, passlen, j + i)
      invariant last[..20] == CodedU(Digest, p, s, c, j + i)
      invariant output[..] == Splice(out, off, CodedT(Digest, p, s, c, j + i))
    {
      NextU(password, passlen, last, digest, output, off, w, s, c, j + i, out);
      i := i + 1;
    }
    assert last[..20] == last[..];
  }

  class PassHash {
    const digest: array<byte>
    const output: array<byte>
    var count: nat
    var iters: int
    var password: array<byte>
    var passlen: nat
    var ssid: array<byte>
    var ssidlen: nat
    /** The password buffer when init_passhash was called, and what has happened since. */
    ghost var given: seq<byte>
    ghost var run: Run

    ghost predicate Shape()
      reads this
    {
      && digest.Length == 20 && output.Length == 40 && passlen <= password.Length == |given| && passlen < TWO31
      && ssidlen <= ssid.Length && digest != output
      && password !in {digest, output} && ssid !in {digest, output, password}
    }

    ghost function P(): seq<byte>
      requires Shape()
      reads this
    {
      given[..passlen]
    }

    ghost function S(): seq<byte>
      requires Shape()
      reads this, ssid
    {
      Salt(ssid[..ssidlen])
    }

    /** The counters are those of the run, and the buffers hold what its HMACs make. */
    ghost predicate Valid()
      reads this, digest, output, password, ssid
    {
      && Shape() && run.Sane() && iters == run.iters && count == |run.finished| + 1
      && password[..] == Buffer(given, passlen, run.calls)
      && Holds(output[..], digest[..], P(), S(), run)
    }

    /** The object before init_passhash. */
    constructor (password: array<byte>, ssid: array<byte>)
      ensures fresh(digest) && fresh(output) && digest.Length == 20 && output.Length == 40 && digest != output
    {
      digest, output := new byte[20], new byte[40];
      count, iters, passlen, ssidlen := 0, 0, 0, 0;
      this.password, this.ssid := password, ssid;
      given, run := [], START;
    }

    /** init_passhash. */
    method Init(password: array<byte>, passlen: nat, ssid: array<byte>, ssidlen: nat) returns (rc: int)
      requires 0 in password[..]
      requires digest.Length == 20 && output.Length == 40 && digest != output
      requires passlen <= password.Length && passlen < TWO31 && ssidlen <= ssid.Length
      requires password !in {digest, output} && ssid !in {digest, output, password}
      modifies this, digest, output
      ensures var length := StrLen(old(password[..]));
              rc == if length < 8 || length > 63 then -1 else 0
      ensures rc == -1 ==> unchanged(this) && unchanged(digest) && unchanged(output)
      ensures rc == 0 ==> Valid() && run == START && given == password[..]
      ensures rc == 0 ==> this.password == password && this.passlen == passlen
      ensures rc == 0 ==> this.ssid == ssid && this.ssidlen == ssidlen
    {
      hide Digest, Buffer, BlockBytes, InBlock, Salt, StrLen;
      var strlen := StrLen(password[..]);
      if strlen < 8 || strlen > 63 {
        return -1;
      }
      forall i | 0 <= i < 20 {
        digest[i] := 0;
      }
      forall i | 0 <= i < 40 {
        output[i] := 0;
      }
      iters := 0;
      count := 1;
      this.password, this.passlen := password, passlen;
      this.ssid, this.ssidlen := ssid, ssidlen;
      given, run := password[..], START;
      BufferKey(given, passlen, 0);
      return 0;
    }

    /** init_F and the copy of its digest: the first iteration of a block, after k HMACs before it. */
    method StartBlock(ghost k: nat)
      requires Shape() && 1 <= count <= 2 && password[..] == Buffer(given, passlen, k)
      modifies password, digest, output
      ensures password[..] == Buffer(given, passlen, k + 1)
      ensures InBlock(output[..], digest[..], P(), S(), count, k, 1)
      ensures count == 2 ==> output[..20] == old(output[..20])
    {
      hide Digest, CodedU, Salt, Splice, KeyAfter, Buffer;
      ghost var out, w, p, id := output[..], password[..], KeyAfter(Digest, P(), k), ssid[..];
      BufferKey(given, passlen, k);
      assert password[..passlen] == w[..passlen] == p;
      BufferAdds(given, passlen, k, 1);
      var off := 20 * (count - 1);
      FirstHmac(password, passlen, ssid, ssidlen, count, output, off);
      assert ssid[..] == id && ssid[..ssidlen] == id[..ssidlen];
      SpliceSlice(out, off, CodedU(Digest, p, S(), count, 1));
      SpliceBefore(out, off, CodedU(Digest, p, S(), count, 1));
      forall i | 0 <= i < 20 {
        digest[i] := output[off + i];
      }
      assert digest[..] == output[off..off + 20];
    }

    /** do_F on the block in progress. */
    method ContinueBlock(m: int, ghost k: nat, ghost n: nat)
      requires Shape() && 1 <= count <= 2 && n >= 1 && password[..] == Buffer(given, passlen, k + n)
      requires InBlock(output[..], digest[..], P(), S(), count, k, n)
      modifies password, digest, output
      ensures var n' := n + if m > 0 then m else 0;
              && password[..] == Buffer(given, passlen, k + n')
              && InBlock(output[..], digest[..], P(), S(), count, k, n')
      ensures count == 2 ==> output[..20] == old(output[..20])
    {
      hide Digest, CodedT, CodedU, Salt, Splice, KeyAfter, Buffer;
      ghost var out, w, id := output[..], Buffer(given, passlen, k), ssid[..];
      ghost var n', p := n + if m > 0 then m else 0, KeyAfter(Digest, P(), k);
      BufferKey(given, passlen, k);
      BufferAdds(given, passlen, k, n);
      BufferAdds(given, passlen, k, n');
      var off := 20 * (count - 1);
      DoF(password, passlen, m, digest, output, off, w, S(), count, n);
      assert ssid[..] == id && ssid[..ssidlen] == id[..ssidlen];
      SpliceSlice(out, off, CodedT(Digest, p, S(), count, n'));
      SpliceBefore(out, off, CodedT(Digest, p, S(), count, n'));
    }

    /** The HMACs of a slice: the first of a block when it starts one, and what remains of the slice. */
    method SliceOfBlock(iterations: int)
      requires Valid() && count <= 2 && -TWO31 < iterations && -TWO31 < iters + iterations < TWO31
      modifies this`iters, password, digest, output
      ensures var r := Continue(Begin(run), Remaining(run, iterations));
              && Shape() && r.start < r.calls && iters == r.iters <= ITERATIONS
              && password[..] == Buffer(given, passlen, r.calls)
              && Done(output[..], P(), S(), run.finished)
              && InBlock(output[..], digest[..], P(), S(), count, r.start, r.calls - r.start)
      ensures ssid[..] == old(ssid[..])
    {
      hide Digest, Salt, InBlock, Buffer, BlockBytes;
      ghost var id, r := ssid[..], Begin(run);
      var n := iterations;
      if iters == 0 {
        StartBlock(run.calls);
        iters := 1;
        n := n - 1;
      }
      assert ssid[..ssidlen] == id[..ssidlen];
      if iters + n > ITERATIONS {
        n := ITERATIONS - iters;
      }
      ContinueBlock(n, r.start, r.calls - r.start);
      assert ssid[..ssidlen] == id[..ssidlen];
      iters := iters + n;
    }

    /** do_passhash: one slice, of any size that does not overflow the C int. */
    method Do(iterations: int) returns (rc: int)
      requires Valid() && -TWO31 < iterations && -TWO31 < iters + iterations < TWO31
      modifies this`count, this`iters, this`run, password, digest, output
      ensures Valid() && run == Step(old(run), iterations) && ssid[..] == old(ssid[..])
      ensures rc == if |old(run).finished| == 2 then -1 else if |run.finished| == 2 then 0 else 1
      ensures |old(run).finished| == 2 ==> password[..] == old(password[..]) && output[..] == old(output[..])
    {
      hide Digest, Salt, InBlock, Done, Buffer, Remaining, Holds;
      if count > 2 {
        return -1;
      }
      SliceOfBlock(iterations);
      HoldsFinished(output[..], digest[..], P(), S(), Continue(Begin(run), Remaining(run, iterations)));
      run := Step(run, iterations);
      if iters == ITERATIONS {
        count := count + 1;
        iters := 0;
        if count > 2 {
          return 0;
        }
      }
      return 1;
    }

    lemma Counters()
      requires Valid()
      ensures run.Sane() && iters == run.iters && password[..] == Buffer(given, passlen, run.calls)
    {
    }

    /** get_passhash. */
    method Get(out: array<byte>, outlen: nat) returns (rc: int)
      requires Valid() && outlen <= out.Length && out != output
      modifies out
      ensures rc == if |run.finished| == 2 && outlen <= 40 then 0 else -1
      ensures rc == -1 ==> out[..] == old(out[..])
      ensures rc == 0 ==>
        var k := BlockBytes(P(), old(S()), 1, run.finished[0]) + BlockBytes(P(), old(S()), 2, run.finished[1]);
        out[..] == Splice(old(out[..]), 0, k[..outlen])
    {
      hide Digest, Splice, BlockBytes;
      if count > 2 && outlen <= 40 {
        assert output[..] == output[..20] + output[20..];
        assert output[0..0 + outlen] == output[..][..outlen];
        Memcpy(out, 0, output, 0, outlen);
        return 0;
      }
      return -1;
    }
  }

  /** Two blocks without loss or repetition are what passhash computes in one go. */
  lemma StraightBytes(p: seq<byte>, s: seq<byte>, r: Run)
    requires r.Sane() && Straight(r) && |r.finished| == 2
    ensures BlockBytes(p, s, 1, r.finished[0]) + BlockBytes(p, s, 2, r.finished[1]) == CodedPbkdf2(Digest, p, s)
  {
    hide Digest, CodedT;
    assert KeyAfter(Digest, p, 0) == p;
  }

  /**
    init_passhash, do_passhash for every slice, and get_passhash: the bytes that passhash writes,
    exactly when the password is of an accepted length and the slices reach the end.
   */
  method HashInSlices(password: array<byte>, passlen: nat, ssid: array<byte>, ssidlen: nat, slices: seq<nat>,
                      output: array<byte>) returns (rc: int)
    requires 0 in password[..]
    requires passlen <= password.Length && passlen < TWO31 && ssidlen <= ssid.Length
    requires output.Length >= 40 && ssid != password && output !in {password, ssid}
    requires forall i :: 0 <= i < |slices| ==> 0 < slices[i] < TWO31 - ITERATIONS
    modifies password, output
    ensures var length := StrLen(old(password[..]));
            rc == if 8 <= length <= 63 && AdvanceAll(slices, |slices|) == 2 * ITERATIONS then 0 else -1
    ensures rc == -1 ==> output[..] == old(output[..])
    ensures rc == 0 ==>
      output[..] == Splice(old(output[..]), 0,
        CodedPbkdf2(Digest, old(password[..passlen]), Salt(old(ssid[..ssidlen]))))
    ensures rc == 0 ==> password[..] == Buffer(old(password[..]), passlen, 2 * ITERATIONS)
  {
    hide Digest, Splice, Buffer, BlockBytes, PassHash.Valid, Step, Advance, CodedPbkdf2, Salt;
    ghost var out, w, id := output[..], password[..], ssid[..];
    var ph := new PassHash(password, ssid);
    rc := ph.Init(password, passlen, ssid, ssidlen);
    if rc != 0 {
      return -1;
    }
    var k := 0;
    while k < |slices|
      invariant 0 <= k <= |slices| && ph.Valid() && Straight(ph.run) && Progress(ph.run) == AdvanceAll(slices, k)
      invariant ph.password == password && ph.ssid == ssid && ph.passlen == passlen && ph.ssidlen == ssidlen
      invariant ph.given == w && ssid[..] == id && output[..] == out
    {
      ph.Counters();
      StaysStraight(ph.run, slices[k]);
      rc := ph.Do(slices[k]);
      k := k + 1;
    }
    ph.Counters();
    assert ssid[..ssidlen] == id[..ssidlen] && w[..passlen] == old(password[..passlen]);
    if |ph.run.finished| == 2 {
      StraightBytes(w[..passlen], Salt(id[..ssidlen]), ph.run);
      assert CodedPbkdf2(Digest, w[..passlen], Salt(id[..ssidlen]))[..40]
          == CodedPbkdf2(Digest, w[..passlen], Salt(id[..ssidlen]));
    }
    rc := ph.Get(output, 40);
  }
}
