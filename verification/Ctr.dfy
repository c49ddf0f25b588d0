/**
  The counter mode of aes.c: a sixteen-bit big-endian counter in the last two bytes of the nonce
  block, whole blocks first, then a partial one.
 */
module Ctr {
  import opened Words
  import opened BlockCipher

  const MAX_BLOCKS := 65536

  /** ctr[15]++, carried into ctr[14] when it wraps. */
  function Bump(ctr: Block): Block {
    var low := ctr[15 := Next(ctr[15])];
    if low[15] == 0 then low[14 := Next(low[14])] else low
  }

  /** The counter block for block k of the data. */
  function CounterAt(nonce: Block, k: nat): Block {
    if k == 0 then nonce else Bump(CounterAt(nonce, k - 1))
  }

  /** The keystream exclusive-ored onto the data. */
  function Crypt(E: BlockFn, nonce: Block, data: seq<byte>): (r: seq<byte>)
    ensures |r| == |data|
  {
    seq(|data|, i requires 0 <= i < |data| => data[i] ^ E(CounterAt(nonce, i / 16))[i % 16])
  }

  /** The same keystream undoes itself. */
  lemma CryptTwice(E: BlockFn, nonce: Block, data: seq<byte>)
    ensures Crypt(E, nonce, Crypt(E, nonce, data)) == data
  {
    forall i | 0 <= i < |data|
      ensures Crypt(E, nonce, Crypt(E, nonce, data))[i] == data[i]
    {
      XorByte(data[i], E(CounterAt(nonce, i / 16))[i % 16]);
    }
  }

  // ----- the counter -----

  /** The integer in a high and a low byte. */
  function Value(h: byte, l: byte): nat { 256 * Num(h) + Num(l) }

  /** The big-endian integer in the last two bytes of a block. */
  function CounterValue(b: Block): nat { Value(b[14], b[15]) }

  lemma ValueInjective(h: byte, l: byte, h': byte, l': byte)
    requires Value(h, l) == Value(h', l')
    ensures h == h' && l == l'
  {
    hide Num;
    ByteIncrement(h);
    ByteIncrement(l);
    ByteIncrement(h');
    ByteIncrement(l');
    NumInjective(h, h');
    NumInjective(l, l');
  }

  lemma ValueIncrement(h: byte, l: byte)
    ensures Value(if Next(l) == 0 then Next(h) else h, Next(l)) == (Value(h, l) + 1) % 65536
    ensures Value(h, l) < 65536
  {
    hide Num, Next;
    ByteIncrement(h);
    ByteIncrement(l);
  }

  lemma BumpAddsOne(b: Block)
    ensures CounterValue(Bump(b)) == (CounterValue(b) + 1) % 65536
    ensures Bump(b)[..14] == b[..14]
  {
    hide Value, Next;
    ValueIncrement(b[14], b[15]);
  }

  lemma {:induction false} CounterAdds(nonce: Block, k: nat)
    ensures CounterValue(CounterAt(nonce, k)) == (CounterValue(nonce) + k) % 65536
    ensures CounterAt(nonce, k)[..14] == nonce[..14]
  {
    hide Value, Bump;
    if k == 0 {
      ValueIncrement(nonce[14], nonce[15]);
    } else {
      CounterAdds(nonce, k - 1);
      BumpAddsOne(CounterAt(nonce, k - 1));
    }
  }

  lemma {:induction false} CounterShifted(nonce: Block, k: nat)
    ensures CounterAt(Bump(nonce), k) == CounterAt(nonce, k + 1)
  {
    hide Bump;
    if k > 0 {
      CounterShifted(nonce, k - 1);
    }
  }

  lemma SameResidue(v: nat, j: nat, k: nat)
    ensures (v + j) % 65536 == (v + k) % 65536 <==> j % 65536 == k % 65536
  {
  }

  /** Two counter blocks coincide exactly when their numbers agree modulo 2^16. */
  lemma CountersDistinct(nonce: Block, j: nat, k: nat)
    ensures CounterAt(nonce, j) == CounterAt(nonce, k) <==> j % 65536 == k % 65536
  {
    hide Value, CounterAt;
    var a, b := CounterAt(nonce, j), CounterAt(nonce, k);
    CounterAdds(nonce, j);
    CounterAdds(nonce, k);
    SameResidue(CounterValue(nonce), j, k);
    if j % 65536 == k % 65536 {
      ValueInjective(a[14], a[15], b[14], b[15]);
      assert a == a[..14] + [a[14], a[15]] && b == b[..14] + [b[14], b[15]];
    }
  }

  lemma InBlock(k: nat, i: nat)
    requires i < 16
    ensures (16 * k + i) / 16 == k && (16 * k + i) % 16 == i
  {
  }

  lemma KeystreamBlock(E: BlockFn, nonce: Block, n: nat, k: nat)
    requires 16 * k + 16 <= n
    ensures Crypt(E, nonce, Zeros(n))[16 * k..16 * k + 16] == E(CounterAt(nonce, k))
  {
    hide CounterAt;
    var z, b := Crypt(E, nonce, Zeros(n)), E(CounterAt(nonce, k));
    forall i | 0 <= i < 16
      ensures z[16 * k..16 * k + 16][i] == b[i]
    {
      InBlock(k, i);
      ZeroLeft(b[i]);
    }
  }

  lemma ZeroLeft(x: byte)
    ensures 0 ^ x == x
  {
  }

  /** Under an invertible cipher the keystream repeats a block exactly after every 2^16. */
  lemma KeystreamRepeats(E: BlockFn, D: BlockFn, nonce: Block, n: nat, j: nat, k: nat)
    requires Inverses(E, D) && 16 * j + 16 <= n && 16 * k + 16 <= n
    ensures var z := Crypt(E, nonce, Zeros(n));
            z[16 * j..16 * j + 16] == z[16 * k..16 * k + 16] <==> j % 65536 == k % 65536
  {
    hide Crypt, CounterAt;
    KeystreamBlock(E, nonce, n, j);
    KeystreamBlock(E, nonce, n, k);
    CountersDistinct(nonce, j, k);
    assert D(E(CounterAt(nonce, j))) == CounterAt(nonce, j) && D(E(CounterAt(nonce, k))) == CounterAt(nonce, k);
  }

  /** Two starting counters give different keystreams. */
  lemma NonceMatters(E: BlockFn, D: BlockFn, nonce: Block, nonce': Block, n: nat)
    requires Inverses(E, D) && n >= 16
    ensures Crypt(E, nonce, Zeros(n)) == Crypt(E, nonce', Zeros(n)) <==> nonce == nonce'
  {
    hide Crypt;
    KeystreamBlock(E, nonce, n, 0);
    KeystreamBlock(E, nonce', n, 0);
    assert CounterAt(nonce, 0) == nonce && CounterAt(nonce', 0) == nonce';
    assert D(E(nonce)) == nonce && D(E(nonce')) == nonce';
  }

  // ----- the code -----

  /** The output bytes of (part of) block k. */
  lemma CryptBlock(E: BlockFn, nonce: Block, data: seq<byte>, k: nat, m: nat)
    requires m <= 16 && 16 * k + m <= |data|
    ensures Crypt(E, nonce, data)[16 * k..16 * k + m]
         == Xor(data[16 * k..16 * k + m], E(CounterAt(nonce, k))[..m])
  {
    hide CounterAt;
    forall i | 0 <= i < m
      ensures Crypt(E, nonce, data)[16 * k + i] == data[16 * k + i] ^ E(CounterAt(nonce, k))[i]
    {
      InBlock(k, i);
    }
  }

  /** The state of the output buffer after the first n bytes. */
  ghost function Progress(out: seq<byte>, co: nat, r: seq<byte>, n: nat): (s: seq<byte>)
    requires n <= |r| && co + |r| <= |out|
    ensures |s| == |out|
  {
    Splice(out, co, r[..n])
  }

  lemma ProgressStep(out: seq<byte>, co: nat, r: seq<byte>, n: nat, m: nat)
    requires n + m <= |r| && co + |r| <= |out|
    ensures Splice(Progress(out, co, r, n), co + n, r[n..n + m]) == Progress(out, co, r, n + m)
  {
  }

  /** One (whole or partial) block: encrypt the counter and combine. */
  method CryptStep(E: BlockFn, ctr: array<byte>, tmp: array<byte>, ptxt: array<byte>, po: nat,
                   ctxt: array<byte>, co: nat, k: nat, m: nat,
                   ghost nonce: Block, ghost data: seq<byte>, ghost out: seq<byte>)
    requires ctr.Length == 16 && tmp.Length == 16 && ctr != tmp
    requires ctxt != ctr && ctxt != tmp && ptxt != tmp && (ptxt == ctxt ==> po == co)
    requires m <= 16 && 16 * k + m <= |data| && co + |data| <= |out| && po + |data| <= ptxt.Length
    requires ctr[..] == CounterAt(nonce, k)
    requires Unread(ptxt[..], po, 16 * k, data)
    requires ctxt[..] == Progress(out, co, Crypt(E, nonce, data), 16 * k)
    modifies tmp, ctxt
    ensures ctxt[..] == Progress(out, co, Crypt(E, nonce, data), 16 * k + m)
    ensures Unread(ptxt[..], po, 16 * k + m, data)
  {
    hide Progress, Splice, Crypt, Xor, Unread;
    ghost var source := ptxt[..];
    ghost var r := Crypt(E, nonce, data)[16 * k..16 * k + m];
    ApplyBlock(E, ctr, tmp);
    assert ptxt[..] == source;
    CryptBlock(E, nonce, data, k, m);
    ProgressStep(out, co, Crypt(E, nonce, data), 16 * k, m);
    assert tmp[0..0 + m] == E(CounterAt(nonce, k))[..m];
    UnreadSlice(source, po, 16 * k, m, data);
    UnreadAfterWrite(source, po, 16 * k, r, data);
    assert ptxt[po + 16 * k..po + 16 * k + m] == source[po + 16 * k..po + 16 * k + m];
    XorInto(ctxt, co + 16 * k, ptxt, po + 16 * k, tmp, 0, m);
    if ptxt != ctxt {
      assert ptxt[..] == source;
    }
  }

  /** The input from offset n of the data on is still in the buffer. */
  ghost predicate Unread(buffer: seq<byte>, po: nat, n: nat, data: seq<byte>)
    requires po + |data| <= |buffer|
  {
    forall x :: po + n <= x < po + |data| ==> buffer[x] == data[x - po]
  }

  lemma UnreadSlice(buffer: seq<byte>, po: nat, n: nat, m: nat, data: seq<byte>)
    requires po + |data| <= |buffer| && n + m <= |data|
    requires Unread(buffer, po, n, data)
    ensures buffer[po + n..po + n + m] == data[n..n + m]
    ensures Unread(buffer, po, n + m, data)
  {
  }

  /** Writing the output of a stretch over the stretch itself leaves what follows it alone. */
  lemma UnreadAfterWrite(buffer: seq<byte>, po: nat, n: nat, r: seq<byte>, data: seq<byte>)
    requires po + |data| <= |buffer| && n + |r| <= |data|
    requires Unread(buffer, po, n, data)
    ensures Unread(Splice(buffer, po + n, r), po, n + |r|, data)
  {
  }

  /** The counter increment between blocks. */
  method BumpInPlace(ctr: array<byte>)
    requires ctr.Length == 16
    modifies ctr
    ensures ctr[..] == Bump(old(ctr[..]))
  {
    ctr[15] := Next(ctr[15]);
    if ctr[15] == 0 {
      ctr[14] := Next(ctr[14]);
    }
  }

  /**
    aes_ctr_crypt on dataLen bytes of ptxt from offset po into ctxt at offset co; the two may be
    the same location.
   */
  method AesCtrCrypt(E: BlockFn, nonce: array<byte>, dataLen: nat, ptxt: array<byte>, po: nat,
                     ctxt: array<byte>, co: nat) returns (rc: int)
    requires nonce.Length == 16 && po + dataLen <= ptxt.Length && co + dataLen <= ctxt.Length
    requires ptxt == ctxt ==> po == co
    modifies ctxt
    ensures rc == if dataLen <= 16 * MAX_BLOCKS then 0 else -1
    ensures rc == -1 ==> ctxt[..] == old(ctxt[..])
    ensures rc == 0 ==>
      ctxt[..] == Splice(old(ctxt[..]), co, Crypt(E, old(nonce[..]), old(ptxt[po..po + dataLen])))
  {
    hide Splice, Crypt, Unread, Progress, Bump;
    if dataLen > 16 * MAX_BLOCKS {
      return -1;
    }
    ghost var iv: Block, data, out := nonce[..], ptxt[po..po + dataLen], ctxt[..];
    ghost var r := Crypt(E, iv, data);
    var ctr, tmp := new byte[16], new byte[16];
    forall i | 0 <= i < 16 {
      ctr[i] := nonce[i];
    }
    assert ctr[..] == iv;
    var k := 0;
    ProgressEnds(out, co, r);
    AllUnread(ptxt[..], po, data);
    while k < dataLen / 16
      invariant 0 <= k <= dataLen / 16
      invariant ctr[..] == CounterAt(iv, k)
      invariant ctxt[..] == Progress(out, co, r, 16 * k)
      invariant Unread(ptxt[..], po, 16 * k, data)
    {
      CryptStep(E, ctr, tmp, ptxt, po, ctxt, co, k, 16, iv, data, out);
      BumpInPlace(ctr);
      k := k + 1;
    }
    if dataLen % 16 != 0 {
      CryptStep(E, ctr, tmp, ptxt, po, ctxt, co, k, dataLen % 16, iv, data, out);
    }
    rc := 0;
  }

  lemma ProgressEnds(out: seq<byte>, co: nat, r: seq<byte>)
    requires co + |r| <= |out|
    ensures Progress(out, co, r, 0) == out
    ensures Progress(out, co, r, |r|) == Splice(out, co, r)
  {
    assert r[..|r|] == r;
  }

  lemma AllUnread(buffer: seq<byte>, po: nat, data: seq<byte>)
    requires po + |data| <= |buffer| && buffer[po..po + |data|] == data
    ensures Unread(buffer, po, 0, data)
  {
    forall x | po <= x < po + |data|
      ensures buffer[x] == data[x - po]
    {
      assert buffer[po..po + |data|][x - po] == buffer[x];
    }
  }
}
