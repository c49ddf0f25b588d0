/**
  Sixteen-byte blocks, block functions, and the small memory operations the modes share.
 */
module BlockCipher {
  import opened Words

  type Block = b: seq<byte> | |b| == 16 witness seq(16, _ => 0)

  /** What a key schedule turns aes_block_encrypt or aes_block_decrypt into. */
  type BlockFn = Block -> Block

  /** D undoes E on both sides. */
  ghost predicate Inverses(E: BlockFn, D: BlockFn) {
    forall b: Block :: D(E(b)) == b && E(D(b)) == b
  }

  const ZERO_BLOCK: Block := seq(16, _ => 0)

  /** s with the bytes from offset i on replaced by t. */
  function Splice(s: seq<byte>, i: nat, t: seq<byte>): (r: seq<byte>)
    requires i + |t| <= |s|
    ensures |r| == |s|
  {
    s[..i] + t + s[i + |t|..]
  }

  lemma SpliceNothing(s: seq<byte>, i: nat)
    requires i <= |s|
    ensures Splice(s, i, []) == s
  {
  }

  lemma SplicePrefix(s: seq<byte>, t: seq<byte>)
    requires |t| <= |s|
    ensures Splice(s, 0, t)[..|t|] == t
  {
  }

  lemma SpliceTwice(s: seq<byte>, i: nat, t: seq<byte>, u: seq<byte>)
    requires i + |t| + |u| <= |s|
    ensures Splice(Splice(s, i, t), i + |t|, u) == Splice(s, i, t + u)
  {
  }

  lemma SpliceSlice(s: seq<byte>, i: nat, t: seq<byte>)
    requires i + |t| <= |s|
    ensures Splice(s, i, t)[i..i + |t|] == t
  {
  }

  lemma SpliceOver(s: seq<byte>, i: nat, t: seq<byte>, u: seq<byte>)
    requires i + |t| <= |s| && |t| == |u|
    ensures Splice(Splice(s, i, t), i, u) == Splice(s, i, u)
  {
  }

  /** memcpy: n bytes of src from offset so to dst at offset to. */
  method Memcpy(dst: array<byte>, to: nat, src: array<byte>, so: nat, n: nat)
    requires to + n <= dst.Length && so + n <= src.Length
    modifies dst
    ensures dst[..] == Splice(old(dst[..]), to, old(src[so..so + n]))
  {
    forall i | 0 <= i < n {
      dst[to + i] := src[so + i];
    }
  }

  /** Appends bytes behind those already in the buffer. */
  method Append(buffer: array<byte>, o: nat, s: seq<byte>, ghost sofar: seq<byte>) returns (o': nat)
    requires o == |sofar| && o + |s| <= buffer.Length && buffer[..o] == sofar
    modifies buffer
    ensures o' == o + |s| && buffer[..o'] == sofar + s
  {
    forall i | 0 <= i < |s| {
      buffer[o + i] := s[i];
    }
    o' := o + |s|;
  }

  /** aes_block_encrypt or aes_block_decrypt on whole buffers; the two may be the same. */
  method ApplyBlock(E: BlockFn, input: array<byte>, output: array<byte>)
    requires input.Length == 16 && output.Length == 16
    modifies output
    ensures output[..] == E(old(input[..]))
  {
    var out := E(input[..]);
    forall i | 0 <= i < 16 {
      output[i] := out[i];
    }
  }

  /**
    xor_128bit_block and the partial-block loops beside it: n bytes of two sources into a
    destination, which may be the same location as either source.
   */
  method XorInto(dst: array<byte>, to: nat, a: array<byte>, ao: nat, b: array<byte>, bo: nat, n: nat)
    requires to + n <= dst.Length && ao + n <= a.Length && bo + n <= b.Length
    modifies dst
    ensures dst[..] == Splice(old(dst[..]), to, Xor(old(a[ao..ao + n]), old(b[bo..bo + n])))
  {
    forall i | 0 <= i < n {
      dst[to + i] := a[ao + i] ^ b[bo + i];
    }
  }
}
