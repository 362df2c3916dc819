/** Byte buffers and the little-endian words the wire and the NVOS blocks are made of. */
module Bytes {
  import opened Common

  /** The sentinel `NVRM_NONE_U32`. */
  const NONE: nat := 0xffff_ffff

  function Pow256(n: nat): (p: nat)
    ensures p > 0
  {
    if n == 0 then 1 else 256 * Pow256(n - 1)
  }

  /** The number a little-endian byte string stands for. */
  function Decode(s: seq<byte>): (v: nat)
  {
    if s == [] then 0 else s[0] + 256 * Decode(s[1..])
  }

  /** The `n` low bytes of `v`, lowest first. */
  function Encode(v: nat, n: nat): (s: seq<byte>)
    ensures |s| == n
  {
    if n == 0 then [] else [v % 256] + Encode(v / 256, n - 1)
  }

  lemma {:induction false} DecodeEncode(v: nat, n: nat)
    requires v < Pow256(n)
    ensures Decode(Encode(v, n)) == v
    decreases n
  {
    if n > 0 {
      DecodeEncode(v / 256, n - 1);
      assert Encode(v, n)[1..] == Encode(v / 256, n - 1);
    }
  }

  lemma {:induction false} EncodeDecode(s: seq<byte>)
    ensures Encode(Decode(s), |s|) == s
    ensures Decode(s) < Pow256(|s|)
    decreases |s|
  {
    if s != [] {
      EncodeDecode(s[1..]);
      assert Decode(s) % 256 == s[0] && Decode(s) / 256 == Decode(s[1..]);
      assert s == [s[0]] + s[1..];
    }
  }

  lemma Pow4And8()
    ensures Pow256(4) == U32 && Pow256(8) == U64
  {
    assert Pow256(2) == 65536;
    assert Pow256(4) == 256 * (256 * Pow256(2));
    assert Pow256(6) == 256 * (256 * Pow256(4));
    assert Pow256(8) == 256 * (256 * Pow256(6));
  }

  /** `nvrm_range_valid`: the `size` bytes at `offset` lie inside `total`. */
  predicate RangeValid(offset: nat, size: nat, total: nat) {
    offset <= total && size <= total - offset
  }

  function Rd32(b: seq<byte>, off: nat): (v: nat)
    requires off + 4 <= |b|
    ensures v < U32
  {
    EncodeDecode(b[off..off + 4]);
    Pow4And8();
    Decode(b[off..off + 4])
  }

  function Rd64(b: seq<byte>, off: nat): (v: nat)
    requires off + 8 <= |b|
    ensures v < U64
  {
    EncodeDecode(b[off..off + 8]);
    Pow4And8();
    Decode(b[off..off + 8])
  }

  /** A word written is the word read. */
  lemma Rd32OfEncode(b: seq<byte>, off: nat, v: nat)
    requires off + 4 <= |b| && v < U32 && b[off..off + 4] == Encode(v, 4)
    ensures Rd32(b, off) == v
  {
    Pow4And8();
    DecodeEncode(v, 4);
  }

  /** `memcpy(b + off, src, |src|)`. */
  function Splice(b: seq<byte>, off: nat, src: seq<byte>): (r: seq<byte>)
    requires off + |src| <= |b|
    ensures |r| == |b|
    ensures forall i :: 0 <= i < |b| ==> r[i] == if off <= i < off + |src| then src[i - off] else b[i]
  {
    seq(|b|, i requires 0 <= i < |b| => if off <= i < off + |src| then src[i - off] else b[i])
  }

  function Wr64(b: seq<byte>, off: nat, v: nat): (r: seq<byte>)
    requires off + 8 <= |b|
    ensures |r| == |b|
    ensures forall i :: 0 <= i < |b| ==> r[i] == if off <= i < off + 8 then Encode(v, 8)[i - off] else b[i]
  {
    Splice(b, off, Encode(v, 8))
  }

  /** Writing back the word that was read puts the very same bytes there. */
  lemma Wr64OfRd64(b: seq<byte>, off: nat, b0: seq<byte>, j: nat)
    requires off + 8 <= |b| && off + 8 <= |b0| && j < |b|
    ensures Wr64(b, off, Rd64(b0, off))[j] == if off <= j < off + 8 then b0[j] else b[j]
  {
    EncodeDecode(b0[off..off + 8]);
  }
}
