/**
 * The guest's ioctl interpreter: gather the buffers a request points at, and
 * write the reply back over them with every translated field restored.
 *
 * Card-address rewriting is off, as it is by default. A kernel caller's copies
 * never fault; it is the case in which every copy below succeeds.
 */
module Marshal {
  import opened Common
  import opened Bytes
  import opened Tables
  import opened Collect
  import opened Xlate
  import opened CallSpec
  import PageRuns

  // --------------------------------------------------------------- caller memory

  function Store(m: Mem, a: nat, s: seq<byte>): (r: Mem)
    ensures r.Keys == m.Keys
    ensures forall x :: x in m ==> r[x] == if a <= x < a + |s| then s[x - a] else m[x]
  {
    map x | x in m :: if a <= x < a + |s| then s[x - a] else m[x]
  }

  /** One copy to the caller: the bytes and where they go. */
  datatype Write = Write(at: nat, bytes: seq<byte>)

  /** The first `n` writes, in order. */
  function StoreUpTo(m: Mem, ws: seq<Write>, n: nat): (r: Mem)
    requires n <= |ws|
    ensures r.Keys == m.Keys
  {
    if n == 0 then m else Store(StoreUpTo(m, ws, n - 1), ws[n - 1].at, ws[n - 1].bytes)
  }

  /** How far a write-back got: all of it, or a fault in copy `n` after `k` bytes. */
  datatype Progress = Complete | Faulted(n: nat, k: nat)

  predicate Possible(ws: seq<Write>, p: Progress) {
    p.Faulted? ==> p.n < |ws| && p.k <= |ws[p.n].bytes|
  }

  /** Where a write-back leaves memory. */
  function Reached(m: Mem, ws: seq<Write>, p: Progress): (r: Mem)
    requires Possible(ws, p)
    ensures r.Keys == m.Keys
  {
    match p
    case Complete => StoreUpTo(m, ws, |ws|)
    case Faulted(n, k) => Store(StoreUpTo(m, ws, n), ws[n].at, ws[n].bytes[..k])
  }

  /** A copy to these addresses does not fault: they are mapped, and none of them is sealed against writing. */
  predicate CanWrite(m: Mem, sealed: set<nat>, a: nat, n: nat) {
    forall x :: a <= x < a + n ==> x in m && x !in sealed
  }

  predicate CanMake(m: Mem, sealed: set<nat>, w: Write) { CanWrite(m, sealed, w.at, |w.bytes|) }

  /** The first `n` writes were made, or those before the first one that faults and a part of that one. */
  predicate Wrote(m: Mem, sealed: set<nat>, m': Mem, ws: seq<Write>, n: nat, ok: bool, p: Progress) {
    && n <= |ws| && Possible(ws, p)
    && (if ok then p.Complete? && m' == StoreUpTo(m, ws, n) else p.Faulted? && p.n < n && m' == Reached(m, ws, p) && !CanMake(m, sealed, ws[p.n]))
    && forall i :: 0 <= i < n && (ok || i < p.n) ==> CanMake(m, sealed, ws[i])
  }

  /** What one copy out did to memory. */
  predicate Copied(m: Mem, sealed: set<nat>, m': Mem, w: Write, ok: bool, k: nat) {
    && (ok <==> CanMake(m, sealed, w))
    && (if ok then m' == Store(m, w.at, w.bytes) else k <= |w.bytes| && m' == Store(m, w.at, w.bytes[..k]))
  }

  /** One more write, or a part of it. */
  lemma WroteNext(m: Mem, sealed: set<nat>, m1: Mem, m2: Mem, ws: seq<Write>, n: nat, ok: bool, k: nat)
    requires n < |ws| && Wrote(m, sealed, m1, ws, n, true, Complete) && Copied(m1, sealed, m2, ws[n], ok, k)
    ensures Wrote(m, sealed, m2, ws, n + 1, ok, if ok then Complete else Faulted(n, k))
  {
    assert CanMake(m1, sealed, ws[n]) <==> CanMake(m, sealed, ws[n]);
  }

  /** A fault among the first writes is a fault among more of them. */
  lemma FaultStays(m: Mem, sealed: set<nat>, m': Mem, ws: seq<Write>, n: nat, more: nat, p: Progress)
    requires Wrote(m, sealed, m', ws, n, false, p) && n <= more <= |ws|
    ensures Wrote(m, sealed, m', ws, more, false, p)
  {
  }

  class Caller {
    var mem: Mem
    /** Addresses a copy out faults on, for whatever reason. */
    const sealed: set<nat>

    constructor (m: Mem, locked: set<nat>)
      ensures mem == m && sealed == locked
    {
      mem, sealed := m, locked;
    }

    method CopyIn(a: nat, n: nat) returns (r: Option<seq<byte>>)
      ensures r.Some? <==> Mapped(mem, a, n)
      ensures r.Some? ==> r.value == Fetch(mem, a, n)
    {
      r := if Mapped(mem, a, n) then Some(Fetch(mem, a, n)) else None;
    }

    /** A copy out that faults leaves some prefix behind, of bytes it could write. */
    method CopyOut(w: Write) returns (ok: bool, ghost k: nat)
      modifies this
      ensures Copied(old(mem), sealed, mem, w, ok, k)
      ensures !ok ==> CanWrite(old(mem), sealed, w.at, k)
    {
      ok := CanMake(mem, sealed, w);
      k := 0;
      if ok {
        mem := Store(mem, w.at, w.bytes);
      } else {
        var done: nat :| done <= |w.bytes| && CanWrite(mem, sealed, w.at, done);
        k := done;
        mem := Store(mem, w.at, w.bytes[..done]);
      }
    }
  }

  /** What came back from the host, of any length. */
  datatype Reply = Reply(inl: seq<byte>, aux: seq<byte>)

  // ------------------------------------------------------------- the gathered call

  datatype Nested = Nested(ptrOff: nat, auxOff: nat, len: nat, gva: nat)

  /** The fields of a call that gathering fills in. */
  datatype Blocks = Blocks(
    inl: seq<byte>, aux: seq<byte>, paramsLen: nat,
    embOff: nat, savedPtr: nat,
    fdOff: nat, fdOrig: seq<byte>,
    auxFdOff: nat, auxFdOrig: seq<byte>,
    nested: seq<Nested>,
    runCount: nat, pmemOrig: nat, limitOrig: nat)

  /** Offset of the buffer after the first `i` nested ones. */
  function NextOff(start: nat, ns: seq<Nested>): nat {
    if ns == [] then start else ns[|ns| - 1].auxOff + ns[|ns| - 1].len
  }

  /** Back to back behind the params. */
  predicate Packed(start: nat, ns: seq<Nested>) {
    forall i :: 0 <= i < |ns| ==> ns[i].auxOff == NextOff(start, ns[..i])
  }

  predicate InlineRead(q: Request, b: Blocks, g: Mem) {
    |b.inl| == q.size && Mapped(g, q.addr, q.size) && b.inl == Fetch(g, q.addr, q.size)
  }

  predicate FdRead(b: Blocks) {
    b.fdOff != NONE ==> b.fdOff + 4 <= |b.inl| && b.fdOrig == b.inl[b.fdOff..b.fdOff + 4]
  }

  predicate ParamsRead(b: Blocks, g: Mem) {
    && b.embOff + 8 <= |b.inl| && b.savedPtr == Rd64(b.inl, b.embOff) && b.savedPtr != 0
    && 0 < b.paramsLen <= |b.aux|
    && Mapped(g, b.savedPtr, b.paramsLen) && b.aux[..b.paramsLen] == Fetch(g, b.savedPtr, b.paramsLen)
  }

  predicate OneNestedRead(b: Blocks, n: Nested, g: Mem) {
    && n.ptrOff + 8 <= b.paramsLen <= n.auxOff && n.auxOff + n.len <= |b.aux|
    && n.gva == Rd64(b.aux, n.ptrOff)
    && Mapped(g, n.gva, n.len) && b.aux[n.auxOff..n.auxOff + n.len] == Fetch(g, n.gva, n.len)
  }

  predicate NestedRead(b: Blocks, g: Mem) {
    && Packed(b.paramsLen, b.nested)
    && forall i :: 0 <= i < |b.nested| ==> OneNestedRead(b, b.nested[i], g)
  }

  predicate AuxFdRead(b: Blocks) {
    b.auxFdOff != NONE ==>
      b.auxFdOff + |b.auxFdOrig| <= b.paramsLen <= |b.aux| && b.auxFdOrig == b.aux[b.auxFdOff..b.auxFdOff + |b.auxFdOrig|]
  }

  predicate OsdescRead(q: Request, b: Blocks) {
    b.runCount > 0 && !q.kern ==>
      && q.h.osdescPmemOff + 8 <= |b.inl| && q.h.osdescLimitOff + 8 <= |b.inl|
      && b.pmemOrig == Rd64(b.inl, q.h.osdescPmemOff) && b.limitOrig == Rd64(b.inl, q.h.osdescLimitOff)
  }

  /** Everything in `b` was read from caller memory `g`. */
  predicate Gathered(q: Request, b: Blocks, g: Mem) {
    && InlineRead(q, b, g) && FdRead(b) && OsdescRead(q, b)
    && (if b.embOff == NONE then b.nested == [] && b.auxFdOff == NONE && b.paramsLen == 0
        else ParamsRead(b, g) && NestedRead(b, g) && AuxFdRead(b))
    && |b.aux| <= q.h.maxAux
  }

  // -------------------------------------------------------------------- write back

  /** `memcpy` of a reply over a buffer, cut to the shorter of the two. */
  function Merge(b: seq<byte>, reply: seq<byte>): (r: seq<byte>)
    ensures |r| == |b|
    ensures forall i :: 0 <= i < |b| ==> r[i] == if i < |reply| then reply[i] else b[i]
  {
    seq(|b|, i requires 0 <= i < |b| => if i < |reply| then reply[i] else b[i])
  }

  predicate PtrsInside(ns: seq<Nested>, n: nat) {
    forall i :: 0 <= i < |ns| ==> ns[i].ptrOff + 8 <= n
  }

  /** The first `n` nested pointers put back. */
  function RestorePtrs(a: seq<byte>, ns: seq<Nested>, n: nat): (r: seq<byte>)
    requires PtrsInside(ns, |a|) && n <= |ns|
    ensures |r| == |a|
    decreases n
  {
    if n == 0 then a else Wr64(RestorePtrs(a, ns, n - 1), ns[n - 1].ptrOff, ns[n - 1].gva)
  }

  /** Nested pointers and the fd number put back into a reply's params. */
  function FinalAux(b: Blocks, a: seq<byte>): (r: seq<byte>)
    requires PtrsInside(b.nested, |a|) && (b.auxFdOff != NONE ==> b.auxFdOff + |b.auxFdOrig| <= |a|)
    ensures |r| == |a|
  {
    var r := RestorePtrs(a, b.nested, |b.nested|);
    if b.auxFdOff != NONE then Splice(r, b.auxFdOff, b.auxFdOrig) else r
  }

  predicate InlineFits(q: Request, b: Blocks, n: nat) {
    && (b.embOff != NONE ==> b.embOff + 8 <= n)
    && (b.runCount > 0 && !q.kern ==> q.h.osdescPmemOff + 8 <= n && q.h.osdescLimitOff + 8 <= n)
    && |b.fdOrig| == 4
  }

  function PutPtr(b: Blocks, i: seq<byte>): (r: seq<byte>)
    requires b.embOff != NONE ==> b.embOff + 8 <= |i|
    ensures |r| == |i|
  {
    if b.embOff != NONE && b.savedPtr != 0 then Wr64(i, b.embOff, b.savedPtr) else i
  }

  function PutFd(b: Blocks, i: seq<byte>): (r: seq<byte>)
    requires |b.fdOrig| == 4
    ensures |r| == |i|
  {
    if b.fdOff != NONE && RangeValid(b.fdOff, 4, |i|) then Splice(i, b.fdOff, b.fdOrig) else i
  }

  function PutOsdesc(q: Request, b: Blocks, i: seq<byte>): (r: seq<byte>)
    requires b.runCount > 0 && !q.kern ==> q.h.osdescPmemOff + 8 <= |i| && q.h.osdescLimitOff + 8 <= |i|
    ensures |r| == |i|
  {
    if b.runCount > 0 && !q.kern then Wr64(Wr64(i, q.h.osdescPmemOff, b.pmemOrig), q.h.osdescLimitOff, b.limitOrig) else i
  }

  /** The embedded pointer, the fd number and the OS-descriptor words put back into a reply's inline block. */
  function FinalInl(q: Request, b: Blocks, i: seq<byte>): (r: seq<byte>)
    requires InlineFits(q, b, |i|)
    ensures |r| == |i|
  {
    PutOsdesc(q, b, PutFd(b, PutPtr(b, i)))
  }

  predicate HasParams(b: Blocks) { b.embOff != NONE && b.savedPtr != 0 }

  /** Enough is known of the blocks to write them back. */
  predicate Shaped(q: Request, b: Blocks) {
    && |b.inl| == q.size && InlineFits(q, b, q.size)
    && (HasParams(b) ==>
          && b.paramsLen <= |b.aux| && PtrsInside(b.nested, b.paramsLen)
          && (b.auxFdOff != NONE ==> b.auxFdOff + |b.auxFdOrig| <= |b.aux|)
          && forall i :: 0 <= i < |b.nested| ==> b.paramsLen <= b.nested[i].auxOff && b.nested[i].auxOff + b.nested[i].len <= |b.aux|)
  }

  /** The copies a write-back makes: nested buffers, params, inline block. */
  function Copies(b: Blocks): nat { if HasParams(b) then |b.nested| + 2 else 1 }

  /** Where copy `i` goes, and how long it is. */
  function Target(q: Request, b: Blocks, i: nat): (nat, nat)
    requires i < Copies(b)
  {
    if i == Copies(b) - 1 then (q.addr, q.size)
    else if i == |b.nested| then (b.savedPtr, b.paramsLen)
    else (b.nested[i].gva, b.nested[i].len)
  }

  function Copy(q: Request, b: Blocks, reply: Reply, i: nat): (w: Write)
    requires Shaped(q, b) && i < Copies(b)
    ensures w.at == Target(q, b, i).0 && |w.bytes| == Target(q, b, i).1
  {
    if i == Copies(b) - 1 then Write(q.addr, FinalInl(q, b, Merge(b.inl, reply.inl)))
    else if i == |b.nested| then Write(b.savedPtr, FinalAux(b, Merge(b.aux, reply.aux))[..b.paramsLen])
    else Write(b.nested[i].gva, Merge(b.aux, reply.aux)[b.nested[i].auxOff..b.nested[i].auxOff + b.nested[i].len])
  }

  /** `ws` are the copies of a write-back, in order. */
  ghost predicate IsWriteBack(q: Request, b: Blocks, reply: Reply, ws: seq<Write>)
    requires Shaped(q, b)
  {
    && |ws| == Copies(b)
    && (forall i {:trigger Copy(q, b, reply, i)} :: 0 <= i < Copies(b) ==> ws[i] == Copy(q, b, reply, i))
  }

  // ------------------------------------------------------------ what is put back where

  /** Byte `j` belongs to one of the first `n` pointers. */
  predicate InPtr(ns: seq<Nested>, n: nat, j: nat)
    requires n <= |ns|
  {
    exists i :: 0 <= i < n && ns[i].ptrOff <= j < ns[i].ptrOff + 8
  }

  /** The pointers of `ns` were read from `orig`. */
  predicate PtrsFrom(ns: seq<Nested>, orig: seq<byte>) {
    PtrsInside(ns, |orig|) && forall i :: 0 <= i < |ns| ==> ns[i].gva == Rd64(orig, ns[i].ptrOff)
  }

  lemma {:induction false} RestorePtrsAt(a: seq<byte>, ns: seq<Nested>, orig: seq<byte>, n: nat, j: nat)
    requires PtrsFrom(ns, orig) && |orig| <= |a| && j < |a| && n <= |ns|
    ensures RestorePtrs(a, ns, n)[j] == if InPtr(ns, n, j) then orig[j] else a[j]
    decreases n
  {
    if n > 0 {
      RestorePtrsAt(a, ns, orig, n - 1, j);
      Wr64OfRd64(RestorePtrs(a, ns, n - 1), ns[n - 1].ptrOff, orig, j);
    }
  }

  /** Byte `j` of the params belongs to a translated field. */
  predicate KeptParam(b: Blocks, j: nat) {
    InPtr(b.nested, |b.nested|, j) || (b.auxFdOff != NONE && b.auxFdOff <= j < b.auxFdOff + |b.auxFdOrig|)
  }

  lemma NestedFrom(b: Blocks, g: Mem)
    requires ParamsRead(b, g) && NestedRead(b, g)
    ensures PtrsFrom(b.nested, b.aux) && PtrsInside(b.nested, b.paramsLen)
  {
    forall i | 0 <= i < |b.nested|
      ensures b.nested[i].ptrOff + 8 <= b.paramsLen && b.nested[i].gva == Rd64(b.aux, b.nested[i].ptrOff)
    {
      assert OneNestedRead(b, b.nested[i], g);
    }
  }

  /** In the written params a translated field holds its own bytes, any other byte the reply's. */
  lemma FinalAuxAt(b: Blocks, g: Mem, a: seq<byte>, j: nat)
    requires ParamsRead(b, g) && NestedRead(b, g) && AuxFdRead(b) && |a| == |b.aux| && j < |a|
    ensures PtrsInside(b.nested, |a|)
    ensures FinalAux(b, a)[j] == if KeptParam(b, j) then b.aux[j] else a[j]
  {
    NestedFrom(b, g);
    RestorePtrsAt(a, b.nested, b.aux, |b.nested|, j);
  }

  /** Byte `j` of the inline block belongs to a translated field. */
  predicate KeptInline(q: Request, b: Blocks, j: nat) {
    || (b.embOff != NONE && b.embOff <= j < b.embOff + 8)
    || (b.fdOff != NONE && b.fdOff <= j < b.fdOff + 4)
    || (b.runCount > 0 && !q.kern && (q.h.osdescPmemOff <= j < q.h.osdescPmemOff + 8 || q.h.osdescLimitOff <= j < q.h.osdescLimitOff + 8))
  }

  lemma PutPtrAt(b: Blocks, g: Mem, i: seq<byte>, j: nat)
    requires b.embOff != NONE ==> ParamsRead(b, g)
    requires |i| == |b.inl| && j < |i|
    ensures b.embOff != NONE ==> b.embOff + 8 <= |i|
    ensures PutPtr(b, i)[j] == if b.embOff != NONE && b.embOff <= j < b.embOff + 8 then b.inl[j] else i[j]
  {
    if b.embOff != NONE { Wr64OfRd64(i, b.embOff, b.inl, j); }
  }

  lemma PutOsdescAt(q: Request, b: Blocks, i: seq<byte>, j: nat)
    requires OsdescRead(q, b) && |i| == |b.inl| && j < |i|
    ensures PutOsdesc(q, b, i)[j] ==
      if b.runCount > 0 && !q.kern && (q.h.osdescPmemOff <= j < q.h.osdescPmemOff + 8 || q.h.osdescLimitOff <= j < q.h.osdescLimitOff + 8)
      then b.inl[j] else i[j]
  {
    if b.runCount > 0 && !q.kern {
      Wr64OfRd64(i, q.h.osdescPmemOff, b.inl, j);
      Wr64OfRd64(Wr64(i, q.h.osdescPmemOff, b.pmemOrig), q.h.osdescLimitOff, b.inl, j);
    }
  }

  lemma GatheredFits(q: Request, b: Blocks, g: Mem)
    requires Gathered(q, b, g) && |b.fdOrig| == 4
    ensures Shaped(q, b) && |b.inl| == q.size
  {
    if b.embOff != NONE {
      NestedFrom(b, g);
      forall i | 0 <= i < |b.nested|
        ensures b.paramsLen <= b.nested[i].auxOff && b.nested[i].auxOff + b.nested[i].len <= |b.aux|
      {
        assert OneNestedRead(b, b.nested[i], g);
      }
    }
  }

  /** In the written inline block a translated field holds its own bytes, any other byte the reply's. */
  lemma FinalInlAt(q: Request, b: Blocks, g: Mem, i: seq<byte>, j: nat)
    requires Gathered(q, b, g) && |b.fdOrig| == 4 && |i| == |b.inl| && j < |i|
    ensures InlineFits(q, b, |i|)
    ensures FinalInl(q, b, i)[j] == if KeptInline(q, b, j) then b.inl[j] else i[j]
  {
    GatheredFits(q, b, g);
    PutPtrAt(b, g, i, j);
    PutOsdescAt(q, b, PutFd(b, PutPtr(b, i)), j);
  }

  // --------------------------------------------------------------- stores in general

  predicate Hits(w: Write, x: nat) { w.at <= x < w.at + |w.bytes| }

  /** No write puts anything but `v` at `x`. */
  predicate Only(ws: seq<Write>, x: nat, v: byte) {
    forall i :: 0 <= i < |ws| && Hits(ws[i], x) ==> ws[i].bytes[x - ws[i].at] == v
  }

  lemma StoreOnly(m: Mem, w: Write, k: nat, x: nat)
    requires x in m && k <= |w.bytes| && (Hits(w, x) ==> w.bytes[x - w.at] == m[x])
    ensures Store(m, w.at, w.bytes[..k])[x] == m[x]
  {
  }

  lemma {:induction false} StoreUpToOnly(m: Mem, ws: seq<Write>, n: nat, x: nat)
    requires n <= |ws| && x in m && Only(ws, x, m[x])
    ensures StoreUpTo(m, ws, n)[x] == m[x]
    decreases n
  {
    if n > 0 {
      StoreUpToOnly(m, ws, n - 1, x);
      StoreOnly(StoreUpTo(m, ws, n - 1), ws[n - 1], |ws[n - 1].bytes|, x);
      assert ws[n - 1].bytes[..|ws[n - 1].bytes|] == ws[n - 1].bytes;
    }
  }

  /** A byte that every write leaves as it is survives any part of them. */
  lemma ReachedOnly(m: Mem, ws: seq<Write>, p: Progress, x: nat)
    requires Possible(ws, p) && x in m && Only(ws, x, m[x])
    ensures Reached(m, ws, p)[x] == m[x]
  {
    match p
    case Complete => StoreUpToOnly(m, ws, |ws|, x);
    case Faulted(n, k) =>
      StoreUpToOnly(m, ws, n, x);
      StoreOnly(StoreUpTo(m, ws, n), ws[n], k, x);
  }

  predicate Apart(ws: seq<Write>) {
    forall i, j :: 0 <= i < j < |ws| ==> ws[i].at + |ws[i].bytes| <= ws[j].at || ws[j].at + |ws[j].bytes| <= ws[i].at
  }

  /** Of writes that do not overlap each one arrives whole. */
  lemma {:induction false} StoreArrives(m: Mem, ws: seq<Write>, n: nat, i: nat, x: nat)
    requires Apart(ws) && i < n <= |ws| && Hits(ws[i], x) && x in m
    ensures StoreUpTo(m, ws, n)[x] == ws[i].bytes[x - ws[i].at]
    decreases n
  {
    if i < n - 1 {
      StoreArrives(m, ws, n - 1, i, x);
      assert !Hits(ws[n - 1], x);
    }
  }

  lemma OnlyHit(ws: seq<Write>, i: nat, x: nat, v: byte)
    requires Apart(ws) && i < |ws| && Hits(ws[i], x) && ws[i].bytes[x - ws[i].at] == v
    ensures Only(ws, x, v)
  {
    forall j | 0 <= j < |ws| && Hits(ws[j], x) ensures ws[j].bytes[x - ws[j].at] == v {
      assert j == i;
    }
  }

  // ------------------------------------------------------------------ the three promises

  /** Caller memory that gathering read. */
  predicate InGathered(q: Request, b: Blocks, x: nat) {
    exists i :: 0 <= i < Copies(b) && Target(q, b, i).0 <= x < Target(q, b, i).0 + Target(q, b, i).1
  }

  predicate Clear(r: (nat, nat), s: (nat, nat)) { r.0 + r.1 <= s.0 || s.0 + s.1 <= r.0 }

  /** The caller's buffers do not overlap. */
  predicate BuffersApart(q: Request, b: Blocks) {
    forall i, j :: 0 <= i < j < Copies(b) ==> Clear(Target(q, b, i), Target(q, b, j))
  }

  lemma WritesApart(q: Request, b: Blocks, reply: Reply, ws: seq<Write>)
    requires Shaped(q, b) && BuffersApart(q, b) && IsWriteBack(q, b, reply, ws)
    ensures Apart(ws)
  {
    forall i, j | 0 <= i < j < |ws|
      ensures ws[i].at + |ws[i].bytes| <= ws[j].at || ws[j].at + |ws[j].bytes| <= ws[i].at
    {
      TargetOf(q, b, reply, ws, i);
      TargetOf(q, b, reply, ws, j);
      assert Clear(Target(q, b, i), Target(q, b, j));
    }
  }

  lemma TargetOf(q: Request, b: Blocks, reply: Reply, ws: seq<Write>, i: nat)
    requires Shaped(q, b) && IsWriteBack(q, b, reply, ws) && i < Copies(b)
    ensures ws[i].at == Target(q, b, i).0 && |ws[i].bytes| == Target(q, b, i).1
  {
    assert ws[i] == Copy(q, b, reply, i);
  }

  /** Only caller memory that gathering read is written, however far the write-back gets. */
  lemma OnlyGatheredIsWritten(q: Request, b: Blocks, reply: Reply, ws: seq<Write>, m: Mem, p: Progress, x: nat)
    requires Shaped(q, b) && IsWriteBack(q, b, reply, ws) && Possible(ws, p) && x in m && !InGathered(q, b, x)
    ensures Reached(m, ws, p)[x] == m[x]
  {
    forall i | 0 <= i < |ws| ensures !Hits(ws[i], x) {
      TargetOf(q, b, reply, ws, i);
    }
    ReachedOnly(m, ws, p, x);
  }

  /** A byte of a fetched slice. */
  lemma SliceByte(s: seq<byte>, off: nat, n: nat, m: Mem, a: nat, j: nat)
    requires off + n <= |s| && j < n && Mapped(m, a, n) && s[off..off + n] == Fetch(m, a, n)
    ensures a + j in m && s[off + j] == m[a + j]
  {
    assert s[off..off + n][j] == s[off + j];
  }

  /** A byte of a reply laid over a fetched slice. */
  lemma MergedByte(s: seq<byte>, reply: seq<byte>, off: nat, n: nat, m: Mem, a: nat, j: nat)
    requires off + n <= |s| && j < n && Mapped(m, a, n) && s[off..off + n] == Fetch(m, a, n)
    ensures a + j in m
    ensures Merge(s, reply)[off..off + n][j] == if off + j >= |reply| then m[a + j] else reply[off + j]
  {
    SliceByte(s, off, n, m, a, j);
  }

  lemma InlineWritten(q: Request, b: Blocks, g: Mem, reply: Reply, ws: seq<Write>, j: nat)
    requires Gathered(q, b, g) && Shaped(q, b) && IsWriteBack(q, b, reply, ws) && j < q.size
    ensures q.addr + j in g
    ensures ws[Copies(b) - 1].at == q.addr && |ws[Copies(b) - 1].bytes| == q.size
    ensures ws[Copies(b) - 1].bytes[j] == if KeptInline(q, b, j) || j >= |reply.inl| then g[q.addr + j] else reply.inl[j]
  {
    assert ws[Copies(b) - 1] == Copy(q, b, reply, Copies(b) - 1);
    FinalInlAt(q, b, g, Merge(b.inl, reply.inl), j);
  }

  lemma ParamsWritten(q: Request, b: Blocks, g: Mem, reply: Reply, ws: seq<Write>, j: nat)
    requires Gathered(q, b, g) && Shaped(q, b) && IsWriteBack(q, b, reply, ws) && HasParams(b) && j < b.paramsLen
    ensures b.savedPtr + j in g
    ensures ws[|b.nested|].at == b.savedPtr && |ws[|b.nested|].bytes| == b.paramsLen
    ensures ws[|b.nested|].bytes[j] == if KeptParam(b, j) || j >= |reply.aux| then g[b.savedPtr + j] else reply.aux[j]
  {
    assert ws[|b.nested|] == Copy(q, b, reply, |b.nested|);
    ParamsByte(b, g, reply.aux, j);
  }

  lemma ParamsByte(b: Blocks, g: Mem, answer: seq<byte>, j: nat)
    requires ParamsRead(b, g) && NestedRead(b, g) && AuxFdRead(b) && j < b.paramsLen
    ensures b.savedPtr + j in g && PtrsInside(b.nested, |b.aux|)
    ensures FinalAux(b, Merge(b.aux, answer))[j] == if KeptParam(b, j) || j >= |answer| then g[b.savedPtr + j] else answer[j]
  {
    FinalAuxAt(b, g, Merge(b.aux, answer), j);
    assert b.aux[0..0 + b.paramsLen] == b.aux[..b.paramsLen];
    SliceByte(b.aux, 0, b.paramsLen, g, b.savedPtr, j);
  }

  lemma NestedAt(q: Request, b: Blocks, reply: Reply, ws: seq<Write>, i: nat)
    requires Shaped(q, b) && IsWriteBack(q, b, reply, ws) && HasParams(b) && i < |b.nested|
    ensures ws[i] == Write(b.nested[i].gva, Merge(b.aux, reply.aux)[b.nested[i].auxOff..b.nested[i].auxOff + b.nested[i].len])
  {
    assert ws[i] == Copy(q, b, reply, i);
  }

  lemma NestedWritten(q: Request, b: Blocks, g: Mem, reply: Reply, ws: seq<Write>, i: nat, j: nat)
    requires Gathered(q, b, g) && Shaped(q, b) && IsWriteBack(q, b, reply, ws) && HasParams(b)
    requires i < |b.nested| && j < b.nested[i].len
    ensures b.nested[i].gva + j in g
    ensures ws[i].at == b.nested[i].gva && |ws[i].bytes| == b.nested[i].len
    ensures ws[i].bytes[j] == if b.nested[i].auxOff + j >= |reply.aux| then g[b.nested[i].gva + j] else reply.aux[b.nested[i].auxOff + j]
  {
    NestedAt(q, b, reply, ws, i);
    assert OneNestedRead(b, b.nested[i], g);
    NestedByte(b, b.nested[i], g, reply.aux, j);
  }

  lemma NestedByte(b: Blocks, n: Nested, g: Mem, answer: seq<byte>, j: nat)
    requires OneNestedRead(b, n, g) && j < n.len
    ensures n.gva + j in g
    ensures Merge(b.aux, answer)[n.auxOff..n.auxOff + n.len][j] == if n.auxOff + j >= |answer| then g[n.gva + j] else answer[n.auxOff + j]
  {
    MergedByte(b.aux, answer, n.auxOff, n.len, g, n.gva, j);
  }

  /** Of buffers that do not overlap each copy arrives, and it is the only one at its addresses. */
  lemma CopyArrives(q: Request, b: Blocks, reply: Reply, ws: seq<Write>, m: Mem, i: nat, x: nat)
    requires Shaped(q, b) && BuffersApart(q, b) && IsWriteBack(q, b, reply, ws)
    requires i < Copies(b) && Target(q, b, i).0 <= x < Target(q, b, i).0 + Target(q, b, i).1
    ensures Hits(ws[i], x) && Only(ws, x, ws[i].bytes[x - ws[i].at])
    ensures x in m ==> Reached(m, ws, Complete)[x] == ws[i].bytes[x - ws[i].at]
  {
    WritesApart(q, b, reply, ws);
    TargetOf(q, b, reply, ws, i);
    OnlyHit(ws, i, x, ws[i].bytes[x - ws[i].at]);
    if x in m { StoreArrives(m, ws, |ws|, i, x); }
  }

  lemma InlineRestored(q: Request, b: Blocks, g: Mem, reply: Reply, ws: seq<Write>, j: nat)
    requires Gathered(q, b, g) && Shaped(q, b) && BuffersApart(q, b) && IsWriteBack(q, b, reply, ws)
    requires j < q.size && KeptInline(q, b, j)
    ensures q.addr + j in g && Only(ws, q.addr + j, g[q.addr + j])
  {
    InlineWritten(q, b, g, reply, ws, j);
    CopyArrives(q, b, reply, ws, g, Copies(b) - 1, q.addr + j);
  }

  lemma ParamsRestored(q: Request, b: Blocks, g: Mem, reply: Reply, ws: seq<Write>, j: nat)
    requires Gathered(q, b, g) && Shaped(q, b) && BuffersApart(q, b) && IsWriteBack(q, b, reply, ws)
    requires HasParams(b) && j < b.paramsLen && KeptParam(b, j)
    ensures b.savedPtr + j in g && Only(ws, b.savedPtr + j, g[b.savedPtr + j])
  {
    ParamsWritten(q, b, g, reply, ws, j);
    CopyArrives(q, b, reply, ws, g, |b.nested|, b.savedPtr + j);
  }

  /**
   * Whatever the reply says and wherever a copy faults, the embedded pointer, the
   * fd number and the OS-descriptor words in caller memory still hold the caller's values.
   */
  lemma InlineFieldsKept(q: Request, b: Blocks, g: Mem, reply: Reply, ws: seq<Write>, m: Mem, p: Progress, j: nat)
    requires Gathered(q, b, g) && Shaped(q, b) && BuffersApart(q, b) && IsWriteBack(q, b, reply, ws)
    requires j < q.size && KeptInline(q, b, j)
    requires Possible(ws, p) && q.addr + j in m && q.addr + j in g && m[q.addr + j] == g[q.addr + j]
    ensures Reached(m, ws, p)[q.addr + j] == g[q.addr + j]
  {
    InlineRestored(q, b, g, reply, ws, j);
    ReachedOnly(m, ws, p, q.addr + j);
  }

  /** The same of the nested pointers and the fd number inside the params buffer. */
  lemma ParamFieldsKept(q: Request, b: Blocks, g: Mem, reply: Reply, ws: seq<Write>, m: Mem, p: Progress, j: nat)
    requires Gathered(q, b, g) && Shaped(q, b) && BuffersApart(q, b) && IsWriteBack(q, b, reply, ws)
    requires HasParams(b) && j < b.paramsLen && KeptParam(b, j)
    requires Possible(ws, p) && b.savedPtr + j in m && b.savedPtr + j in g && m[b.savedPtr + j] == g[b.savedPtr + j]
    ensures Reached(m, ws, p)[b.savedPtr + j] == g[b.savedPtr + j]
  {
    ParamsRestored(q, b, g, reply, ws, j);
    ReachedOnly(m, ws, p, b.savedPtr + j);
  }

  /** A completed write-back delivers the reply: every other inline byte is the host's, or the request's where the reply is short. */
  lemma InlineReplyArrives(q: Request, b: Blocks, g: Mem, reply: Reply, ws: seq<Write>, m: Mem, j: nat)
    requires Gathered(q, b, g) && Shaped(q, b) && BuffersApart(q, b) && IsWriteBack(q, b, reply, ws)
    requires j < q.size && q.addr + j in m && !KeptInline(q, b, j)
    ensures q.addr + j in g
    ensures Reached(m, ws, Complete)[q.addr + j] == if j < |reply.inl| then reply.inl[j] else g[q.addr + j]
  {
    InlineWritten(q, b, g, reply, ws, j);
    CopyArrives(q, b, reply, ws, m, Copies(b) - 1, q.addr + j);
  }

  lemma ParamsReplyArrives(q: Request, b: Blocks, g: Mem, reply: Reply, ws: seq<Write>, m: Mem, j: nat)
    requires Gathered(q, b, g) && Shaped(q, b) && BuffersApart(q, b) && IsWriteBack(q, b, reply, ws) && HasParams(b)
    requires j < b.paramsLen && b.savedPtr + j in m && !KeptParam(b, j)
    ensures b.savedPtr + j in g
    ensures Reached(m, ws, Complete)[b.savedPtr + j] == if j < |reply.aux| then reply.aux[j] else g[b.savedPtr + j]
  {
    ParamsWritten(q, b, g, reply, ws, j);
    CopyArrives(q, b, reply, ws, m, |b.nested|, b.savedPtr + j);
  }

  lemma NestedReplyArrives(q: Request, b: Blocks, g: Mem, reply: Reply, ws: seq<Write>, m: Mem, i: nat, j: nat)
    requires Gathered(q, b, g) && Shaped(q, b) && BuffersApart(q, b) && IsWriteBack(q, b, reply, ws) && HasParams(b)
    requires i < |b.nested| && j < b.nested[i].len && b.nested[i].gva + j in m
    ensures b.nested[i].gva + j in g
    ensures Reached(m, ws, Complete)[b.nested[i].gva + j] ==
      if b.nested[i].auxOff + j < |reply.aux| then reply.aux[b.nested[i].auxOff + j] else g[b.nested[i].gva + j]
  {
    NestedWritten(q, b, g, reply, ws, i, j);
    CopyArrives(q, b, reply, ws, m, i, b.nested[i].gva + j);
  }

  // ------------------------------------------------------------------- over all of memory

  /** Nothing outside the gathered buffers differs. */
  ghost predicate OthersSame(q: Request, b: Blocks, m: Mem, m': Mem) {
    m.Keys == m'.Keys && forall x: nat :: x in m && !InGathered(q, b, x) ==> m'[x] == m[x]
  }

  /** No byte of a translated field differs. */
  ghost predicate FieldsSame(q: Request, b: Blocks, m: Mem, m': Mem) {
    && m.Keys == m'.Keys
    && (forall j: nat :: j < q.size && q.addr + j in m && KeptInline(q, b, j) ==> m'[q.addr + j] == m[q.addr + j])
    && (forall j: nat :: HasParams(b) && j < b.paramsLen && b.savedPtr + j in m && KeptParam(b, j) ==>
          m'[b.savedPtr + j] == m[b.savedPtr + j])
  }

  lemma OthersStay(q: Request, b: Blocks, reply: Reply, ws: seq<Write>, m: Mem, p: Progress)
    requires Shaped(q, b) && IsWriteBack(q, b, reply, ws) && Possible(ws, p)
    ensures OthersSame(q, b, m, Reached(m, ws, p))
  {
    forall x: nat | x in m && !InGathered(q, b, x) ensures Reached(m, ws, p)[x] == m[x] {
      OnlyGatheredIsWritten(q, b, reply, ws, m, p, x);
    }
  }

  lemma FieldsStay(q: Request, b: Blocks, reply: Reply, ws: seq<Write>, m: Mem, p: Progress)
    requires Gathered(q, b, m) && Shaped(q, b) && BuffersApart(q, b) && IsWriteBack(q, b, reply, ws) && Possible(ws, p)
    ensures FieldsSame(q, b, m, Reached(m, ws, p))
  {
    forall j: nat | j < q.size && q.addr + j in m && KeptInline(q, b, j)
      ensures Reached(m, ws, p)[q.addr + j] == m[q.addr + j]
    {
      InlineFieldsKept(q, b, m, reply, ws, m, p, j);
    }
    forall j: nat | HasParams(b) && j < b.paramsLen && b.savedPtr + j in m && KeptParam(b, j)
      ensures Reached(m, ws, p)[b.savedPtr + j] == m[b.savedPtr + j]
    {
      ParamFieldsKept(q, b, m, reply, ws, m, p, j);
    }
  }

  // ------------------------------------------------------------ planning nested buffers

  /** The planning loop: the live pointers of the rows in order, or the first refusal. */
  method PlanNested(rows: seq<NestedRow>, params: seq<byte>, maxAux: nat) returns (st: Status, plan: seq<Plan>)
    ensures st == PlanStatus(rows, params, maxAux, |rows|)
    ensures st.Done? ==> plan == LivePlans(rows, params, |rows|)
  {
    plan := [];
    var total := |params|;
    for i := 0 to |rows|
      invariant PlanStatus(rows, params, maxAux, i).Done? && plan == LivePlans(rows, params, i)
      invariant total == Extent(rows, params, i)
    {
      ExtentNext(rows, params, i);
      var r := PlanRow(rows[i], params);
      match r
      case Skip =>
      case Bad =>
        PlanStops(rows, params, maxAux, i + 1, |rows|);
        st := Failed(EINVAL);
        return;
      case Live(e) =>
        if e.len > maxAux || total + e.len > maxAux {
          PlanStops(rows, params, maxAux, i + 1, |rows|);
          st := Failed(EMSGSIZE);
          return;
        }
        plan := plan + [e];
        total := total + e.len;
    }
    st := Done;
  }

  // --------------------------------------------------------------- what gathering builds

  /** The nested blocks are the first ones of the plan, in order. */
  predicate Follows(ns: seq<Nested>, plan: seq<Plan>) {
    |ns| <= |plan| && forall k :: 0 <= k < |ns| ==> ns[k].ptrOff == plan[k].ptrOff && ns[k].gva == plan[k].gva && ns[k].len == plan[k].len
  }

  /** Some nested block carries what entry `e` points at. */
  predicate Carried(ns: seq<Nested>, e: Plan) {
    exists k :: 0 <= k < |ns| && ns[k].ptrOff == e.ptrOff && ns[k].gva == e.gva && ns[k].len == e.len
  }

  /** Every live second-level pointer travels with the call: none is forwarded as a bare guest address. */
  predicate AllCarried(q: Request, b: Blocks, params: seq<byte>) {
    forall i :: 0 <= i < |RowsOfCall(q, b.inl)| && PlanRow(RowsOfCall(q, b.inl)[i], params).Live? ==>
      Carried(b.nested, PlanRow(RowsOfCall(q, b.inl)[i], params).e)
  }

  /** The recorded blocks are the planned ones, all of them and in order. */
  predicate NestedAre(ns: seq<Nested>, plan: seq<Plan>) { |ns| == |plan| && Follows(ns, plan) }

  /** The recorded fd field is the one the tables name. */
  predicate FdIs(f: FdSpec, b: Blocks, params: seq<byte>) {
    match f
    case NoField => b.auxFdOff == NONE
    case Field(off, len) => off + len <= |params| && b.auxFdOff == off && b.auxFdOrig == params[off..off + len]
    case BadField(_) => false
  }

  /** The fields recorded for a call are the fields the tables name for it, no more and no fewer. */
  predicate TablesTaken(q: Request, b: Blocks, g: Mem) {
    var params := ParamsOf(q, b.inl, g);
    && b.fdOff == FdField(q)
    && match q.Decide(b.inl)
       case Take(off, _) =>
         b.embOff == off && NestedAre(b.nested, NestedPlan(q, b.inl, params)) && FdIs(AuxFd(q, b.inl, params), b, params)
       case _ => b.embOff == NONE && b.nested == [] && b.auxFdOff == NONE
  }

  /** The params lead the buffer. */
  predicate ParamsLead(b: Blocks, params: seq<byte>) {
    b.paramsLen == |params| <= |b.aux| && b.aux[..b.paramsLen] == params
  }

  /** The buffer is the kept params and then the runs of the pinned pages. */
  predicate RunsFollow(b: Blocks, pages: Pinned, keep: seq<byte>) {
    && pages.Some? && b.paramsLen == |keep|
    && b.runCount == |PageRuns.Coalesce(pages.value)| > 0
    && b.aux == keep + EncodeRuns(PageRuns.Coalesce(pages.value))
  }

  /** What travels behind the inline block, and the descriptor words saved for the way back. */
  predicate Travels(q: Request, b: Blocks, pages: Pinned, g: Mem) {
    var params := ParamsOf(q, b.inl, g);
    match FormOf(q, b.inl)
    case NoDescriptor => b.runCount == 0 && ParamsLead(b, params)
    case KernelForm =>
      && |params| >= OSDESC_PARAMS_SIZE && RunsFollow(b, pages, params[..OSDESC_PARAMS_SIZE])
      && b.pmemOrig == Rd64(params, OSDESC_DESCRIPTOR_OFF) && b.limitOrig == Rd64(params, OSDESC_LIMIT_OFF)
    case UserForm =>
      && DescriptorInside(q, |b.inl|) && RunsFollow(b, pages, [])
      && b.pmemOrig == Rd64(b.inl, q.h.osdescPmemOff) && b.limitOrig == Rd64(b.inl, q.h.osdescLimitOff)
    case NoForm(_) => false
  }

  /** The buffer ends where the last nested block ends. */
  predicate Full(b: Blocks) { |b.aux| == NextOff(b.paramsLen, b.nested) }

  function Added(b: Blocks, e: Plan, data: seq<byte>): Blocks {
    b.(aux := b.aux + data, nested := b.nested + [Nested(e.ptrOff, |b.aux|, e.len, e.gva)])
  }

  lemma AddedOne(b: Blocks, n: Nested, data: seq<byte>, nested': seq<Nested>, g: Mem)
    requires OneNestedRead(b, n, g)
    ensures OneNestedRead(b.(aux := b.aux + data, nested := nested'), n, g)
  {
    var aux' := b.aux + data;
    assert aux'[n.auxOff..n.auxOff + n.len] == b.aux[n.auxOff..n.auxOff + n.len];
    assert aux'[n.ptrOff..n.ptrOff + 8] == b.aux[n.ptrOff..n.ptrOff + 8];
  }

  lemma PrefixSlice(s: seq<byte>, t: seq<byte>, n: nat, i: nat, k: nat)
    requires i + k <= n <= |s|
    ensures (s + t)[i..i + k] == s[..n][i..i + k]
  {
    var l, r := (s + t)[i..i + k], s[..n][i..i + k];
    assert forall j :: 0 <= j < k ==> l[j] == s[i + j] && r[j] == s[i + j];
    assert l == r;
  }

  lemma AddedNew(b: Blocks, e: Plan, data: seq<byte>, g: Mem)
    requires 0 < b.paramsLen <= |b.aux| && Points(e, b.aux[..b.paramsLen])
    requires |data| == e.len && Mapped(g, e.gva, e.len) && data == Fetch(g, e.gva, e.len)
    ensures OneNestedRead(Added(b, e, data), Nested(e.ptrOff, |b.aux|, e.len, e.gva), g)
  {
    var aux' := b.aux + data;
    assert aux'[|b.aux|..|b.aux| + e.len] == data;
    PrefixSlice(b.aux, data, b.paramsLen, e.ptrOff, 8);
  }

  lemma AddedPacked(start: nat, ns: seq<Nested>, n: Nested)
    requires Packed(start, ns) && n.auxOff == NextOff(start, ns)
    ensures Packed(start, ns + [n]) && NextOff(start, ns + [n]) == n.auxOff + n.len
  {
    var ns' := ns + [n];
    forall i | 0 <= i < |ns'| ensures ns'[i].auxOff == NextOff(start, ns'[..i]) {
      assert ns'[..i] == ns[..i];
      if i == |ns| { assert ns[..i] == ns; }
    }
  }

  /** Reading one more nested buffer behind the ones already there. */
  lemma AddNested(b: Blocks, e: Plan, data: seq<byte>, g: Mem)
    requires ParamsRead(b, g) && NestedRead(b, g) && Full(b) && Points(e, b.aux[..b.paramsLen])
    requires |data| == e.len && Mapped(g, e.gva, e.len) && data == Fetch(g, e.gva, e.len)
    ensures ParamsRead(Added(b, e, data), g) && NestedRead(Added(b, e, data), g) && Full(Added(b, e, data))
    ensures Added(b, e, data).aux[..b.paramsLen] == b.aux[..b.paramsLen]
  {
    var b', n := Added(b, e, data), Nested(e.ptrOff, |b.aux|, e.len, e.gva);
    assert b'.aux[..b.paramsLen] == b.aux[..b.paramsLen];
    AddedPacked(b.paramsLen, b.nested, n);
    AddedNew(b, e, data, g);
    forall i | 0 <= i < |b'.nested| ensures OneNestedRead(b', b'.nested[i], g) {
      if i < |b.nested| { AddedOne(b, b.nested[i], data, b'.nested, g); }
    }
  }

  /** The plan so far has been read behind the params. */
  predicate Reading(b: Blocks, plan: seq<Plan>, params: seq<byte>, g: Mem) {
    && ParamsRead(b, g) && NestedRead(b, g) && Full(b) && Follows(b.nested, plan)
    && b.aux[..b.paramsLen] == params && |b.aux| == b.paramsLen + Total(plan, |b.nested|)
  }

  lemma ReadOne(b: Blocks, plan: seq<Plan>, e: Plan, params: seq<byte>, g: Mem)
    requires Reading(b, plan, params, g) && |b.nested| < |plan| && e == plan[|b.nested|] && Points(e, params) && Mapped(g, e.gva, e.len)
    ensures Reading(Added(b, e, Fetch(g, e.gva, e.len)), plan, params, g)
  {
    AddNested(b, e, Fetch(g, e.gva, e.len), g);
  }

  lemma ReadingMapped(b: Blocks, plan: seq<Plan>, params: seq<byte>, g: Mem)
    requires Reading(b, plan, params, g) && |b.nested| == |plan|
    ensures PlanMapped(g, plan)
  {
    forall k | 0 <= k < |plan| ensures Mapped(g, plan[k].gva, plan[k].len) {
      assert OneNestedRead(b, b.nested[k], g);
    }
  }

  // ------------------------------------------------------------------- OS descriptors

  /** What the interpreter takes for granted of its tables. */
  predicate TablesFit(q: Request) {
    && q.h.maxAux >= OSDESC_PARAMS_SIZE
    && (q.Desc().Some? && IsOsdesc(q.Desc().value.flags) ==> q.Desc().value.embPtrOff == NONE)
    && (q.Desc().Some? && q.Desc().value.embPtrOff != NONE && q.nr == ESC_ALLOC ==> q.Desc().value.cmdOff == NONE && q.Desc().value.embLenOff == HCLASS_OFF)
    && (ClassFor(q.p.classes, q.h.osdescClass).Some? ==> ClassFor(q.p.classes, q.h.osdescClass).value.fdOff == NONE)
  }

  /** The collected tables are such tables. */
  lemma CollectedTablesFit(r: Rules, q: Request)
    requires Collected(r, q.p) && q.h == HeaderFor(q.p, q.h.totalLen, q.h.checksum) && r.allocFd(0x71).None?
    ensures TablesFit(q)
  {
    assert IoctlFor(q.p.ioctls, q.dev, q.nr) == RowFor(r, q.dev, q.nr);
    assert ClassFor(q.p.classes, 0x71) == ClassRowFor(r, 0x71);
  }

  /** Runs as the wire carries them. */
  function EncodeRuns(rs: seq<PageRuns.Run>): (b: seq<byte>)
    ensures |b| == 16 * |rs|
  {
    if rs == [] then [] else EncodeRuns(rs[..|rs| - 1]) + Encode(rs[|rs| - 1].gpa, 8) + Encode(rs[|rs| - 1].len, 8)
  }

  /** The runs of the pinned pages, if they fit the space left. */
  method RunBytes(pages: Pinned, space: nat) returns (st: Status, runs: seq<byte>, n: nat)
    ensures st == RunStatus(pages, space)
    ensures st.Done? ==> n == |PageRuns.Coalesce(pages.value)| > 0 && |runs| == 16 * n <= space
    ensures st.Done? ==> runs == EncodeRuns(PageRuns.Coalesce(pages.value))
  {
    runs, n := [], 0;
    if pages.None? {
      return NoPin, runs, n;
    }
    var max := |pages.value|;
    if 16 * max > space {
      max := space / 16;
    }
    var found := new PageRuns.Run[max](_ => PageRuns.Run(0, 0));
    n := PageRuns.RunsFromPages(pages.value, found, max);
    RunsAtMost(pages.value);
    if n == 0 {
      return Failed(EMSGSIZE), runs, n;
    }
    runs := EncodeRuns(found[..n]);
    st := Done;
  }

  lemma {:induction false} RunsAtMost(pages: seq<PageRuns.pfn>)
    ensures |PageRuns.Coalesce(pages)| <= |pages| && (pages != [] ==> PageRuns.Coalesce(pages) != [])
    decreases |pages|
  {
    if pages != [] { RunsAtMost(pages[..|pages| - 1]); }
  }

  /** The first `n` bytes of gathered params are gathered params. */
  lemma ShorterParams(b: Blocks, b': Blocks, g: Mem)
    requires ParamsRead(b, g) && 0 < b'.paramsLen <= b.paramsLen
    requires b'.inl == b.inl && b'.embOff == b.embOff && b'.savedPtr == b.savedPtr
    requires b'.paramsLen <= |b'.aux| && b'.aux[..b'.paramsLen] == b.aux[..b'.paramsLen]
    ensures ParamsRead(b', g)
  {
    var n := b'.paramsLen;
    assert b.aux[..n] == b.aux[..b.paramsLen][..n];
    assert Fetch(g, b.savedPtr, n) == Fetch(g, b.savedPtr, b.paramsLen)[..n];
  }

  lemma KernelGathered(q: Request, b: Blocks, runs: seq<byte>, n: nat, desc: nat, limit: nat, g: Mem)
    requires q.kern && Gathered(q, b, g) && b.nested == [] && b.auxFdOff == NONE && b.paramsLen >= OSDESC_PARAMS_SIZE
    requires OSDESC_PARAMS_SIZE + |runs| <= q.h.maxAux
    ensures Gathered(q, b.(aux := b.aux[..OSDESC_PARAMS_SIZE] + runs, paramsLen := OSDESC_PARAMS_SIZE,
                           runCount := n, pmemOrig := desc, limitOrig := limit), g)
  {
    var b' := b.(aux := b.aux[..OSDESC_PARAMS_SIZE] + runs, paramsLen := OSDESC_PARAMS_SIZE,
                 runCount := n, pmemOrig := desc, limitOrig := limit);
    assert b'.aux[..OSDESC_PARAMS_SIZE] == b.aux[..OSDESC_PARAMS_SIZE];
    ShorterParams(b, b', g);
  }

  lemma UserGathered(q: Request, b: Blocks, runs: seq<byte>, n: nat, pmem: nat, limit: nat, g: Mem)
    requires Gathered(q, b, g) && b.embOff == NONE && |runs| <= q.h.maxAux
    requires q.h.osdescPmemOff + 8 <= |b.inl| && q.h.osdescLimitOff + 8 <= |b.inl|
    requires pmem == Rd64(b.inl, q.h.osdescPmemOff) && limit == Rd64(b.inl, q.h.osdescLimitOff)
    ensures Gathered(q, b.(aux := runs, paramsLen := 0, runCount := n, pmemOrig := pmem, limitOrig := limit), g)
  {
  }

  // ------------------------------------------------------- recorded fields and table fields

  /** The kernel form has no field inside its params that the guest translates. */
  lemma KernelHasNoFields(q: Request, inl: seq<byte>, params: seq<byte>)
    requires TablesFit(q) && FormOf(q, inl).KernelForm? && q.Decide(inl).Take?
    ensures RowsOfCall(q, inl) == [] && NestedPlan(q, inl, params) == [] && AuxFd(q, inl, params) == NoField
  {
    TakeMeans(q, inl);
  }

  /** The userspace form has no embedded pointer. */
  lemma UserHasNoPointer(q: Request, inl: seq<byte>)
    requires TablesFit(q) && FormOf(q, inl).UserForm?
    ensures q.Decide(inl) == Nothing && !q.kern
  {
  }

  /** The inline bytes that are put back are those the tables name. */
  lemma InlineFieldsAreTheTables(q: Request, b: Blocks, pages: Pinned, g: Mem, j: nat)
    requires TablesTaken(q, b, g) && Travels(q, b, pages, g)
    ensures KeptInline(q, b, j) <==> TableInline(q, b.inl, j)
  {
    TakeMeans(q, b.inl);
  }

  lemma PtrIsPlanned(ns: seq<Nested>, rows: seq<NestedRow>, params: seq<byte>, k: nat, j: nat)
    requires NestedAre(ns, LivePlans(rows, params, |rows|)) && k < |ns| && ns[k].ptrOff <= j < ns[k].ptrOff + 8
    ensures exists i :: 0 <= i < |rows| && PlanRow(rows[i], params).Live? && rows[i].ptrOff <= j < rows[i].ptrOff + 8
  {
    var e := LivePlans(rows, params, |rows|)[k];
    PlansAreLive(rows, params, |rows|, e);
    var i :| 0 <= i < |rows| && PlanRow(rows[i], params) == Live(e);
    assert rows[i].ptrOff == e.ptrOff;
  }

  lemma PlannedIsCarried(ns: seq<Nested>, rows: seq<NestedRow>, params: seq<byte>, i: nat)
    requires NestedAre(ns, LivePlans(rows, params, |rows|)) && i < |rows| && PlanRow(rows[i], params).Live?
    ensures Carried(ns, PlanRow(rows[i], params).e)
  {
    var plan, e := LivePlans(rows, params, |rows|), PlanRow(rows[i], params).e;
    PlansAreLive(rows, params, |rows|, e);
    var k :| 0 <= k < |plan| && plan[k] == e;
    assert ns[k].ptrOff == plan[k].ptrOff;
  }

  /** So are the bytes put back inside the params. */
  lemma ParamFieldsAreTheTables(q: Request, b: Blocks, g: Mem, j: nat)
    requires TablesTaken(q, b, g) && q.Decide(b.inl).Take?
    ensures KeptParam(b, j) <==> TableParam(q, b.inl, ParamsOf(q, b.inl, g), j)
  {
    var params, rows := ParamsOf(q, b.inl, g), RowsOfCall(q, b.inl);
    if InPtr(b.nested, |b.nested|, j) {
      var k :| 0 <= k < |b.nested| && b.nested[k].ptrOff <= j < b.nested[k].ptrOff + 8;
      PtrIsPlanned(b.nested, rows, params, k, j);
      var i :| 0 <= i < |rows| && PlanRow(rows[i], params).Live? && rows[i].ptrOff <= j < rows[i].ptrOff + 8;
      assert InLiveRow(q, b.inl, params, i, j);
    }
    if i :| 0 <= i < |rows| && InLiveRow(q, b.inl, params, i, j) {
      PlannedIsCarried(b.nested, rows, params, i);
    }
  }

  /** No live pointer below the first level is left behind. */
  lemma TakenCarriesAll(q: Request, b: Blocks, g: Mem)
    requires TablesTaken(q, b, g)
    ensures AllCarried(q, b, ParamsOf(q, b.inl, g))
  {
    var params, rows := ParamsOf(q, b.inl, g), RowsOfCall(q, b.inl);
    forall i | 0 <= i < |rows| && PlanRow(rows[i], params).Live? ensures Carried(b.nested, PlanRow(rows[i], params).e) {
      PlannedIsCarried(b.nested, rows, params, i);
    }
  }

  /** No inline byte differs that the tables name for this call. */
  ghost predicate TableInlineSame(q: Request, inl: seq<byte>, m: Mem, m': Mem) {
    forall j: nat :: j < q.size && TableInline(q, inl, j) ==> ByteSame(m, m', q.addr + j)
  }

  /** Nor a byte of the params. */
  ghost predicate TableParamsSame(q: Request, inl: seq<byte>, m: Mem, m': Mem) {
    q.Decide(inl).Take? ==>
      forall j: nat :: j < |ParamsOf(q, inl, m)| && TableParam(q, inl, ParamsOf(q, inl, m), j) ==> ByteSame(m, m', PtrOf(q, inl) + j)
  }

  /** No byte of a field that the tables name for this call differs. */
  ghost predicate TableFieldsSame(q: Request, m: Mem, m': Mem)
    requires Mapped(m, q.addr, q.size)
  {
    var inl := Fetch(m, q.addr, q.size);
    TableInlineSame(q, inl, m, m') && TableParamsSame(q, inl, m, m')
  }

  predicate ByteSame(m: Mem, m': Mem, x: nat) { x in m && x in m' && m'[x] == m[x] }

  lemma TableInlineStays(q: Request, b: Blocks, pages: Pinned, g: Mem, m': Mem, j: nat)
    requires InlineRead(q, b, g) && TablesTaken(q, b, g) && Travels(q, b, pages, g) && FieldsSame(q, b, g, m')
    requires j < q.size && TableInline(q, b.inl, j)
    ensures ByteSame(g, m', q.addr + j)
  {
    InlineFieldsAreTheTables(q, b, pages, g, j);
  }

  lemma TakenPtr(q: Request, b: Blocks, g: Mem)
    requires Gathered(q, b, g) && TablesTaken(q, b, g) && q.Decide(b.inl).Take?
    ensures b.embOff != NONE && b.savedPtr == PtrOf(q, b.inl)
  {
    TakeMeans(q, b.inl);
  }

  lemma TableParamStays(q: Request, b: Blocks, pages: Pinned, g: Mem, m': Mem, j: nat)
    requires TablesFit(q) && Gathered(q, b, g) && TablesTaken(q, b, g) && Travels(q, b, pages, g)
    requires FieldsSame(q, b, g, m') && q.Decide(b.inl).Take?
    requires j < |ParamsOf(q, b.inl, g)| && TableParam(q, b.inl, ParamsOf(q, b.inl, g), j)
    ensures ByteSame(g, m', b.savedPtr + j)
  {
    assert b.embOff != NONE by { TakenPtr(q, b, g); }
    assert KeptParam(b, j) by { ParamFieldsAreTheTables(q, b, g, j); }
    assert j < b.paramsLen by { FieldInsideParams(q, b, pages, g, j); }
    KeptParamStays(q, b, g, m', j);
  }

  lemma TableParamsStay(q: Request, b: Blocks, pages: Pinned, g: Mem, m': Mem)
    requires TablesFit(q) && Gathered(q, b, g) && TablesTaken(q, b, g) && Travels(q, b, pages, g) && FieldsSame(q, b, g, m')
    ensures TableParamsSame(q, b.inl, g, m')
  {
    if q.Decide(b.inl).Take? {
      var params, ptr := ParamsOf(q, b.inl, g), PtrOf(q, b.inl);
      TakenPtr(q, b, g);
      forall j: nat | j < |params| && TableParam(q, b.inl, params, j) ensures ByteSame(g, m', ptr + j) {
        TableParamStays(q, b, pages, g, m', j);
      }
    }
  }

  lemma TableInlinesStay(q: Request, b: Blocks, pages: Pinned, g: Mem, m': Mem)
    requires Gathered(q, b, g) && TablesTaken(q, b, g) && Travels(q, b, pages, g) && FieldsSame(q, b, g, m')
    ensures TableInlineSame(q, b.inl, g, m')
  {
    forall j: nat | j < q.size && TableInline(q, b.inl, j) ensures ByteSame(g, m', q.addr + j) {
      TableInlineStays(q, b, pages, g, m', j);
    }
  }

  /** Whatever keeps the recorded fields keeps the fields the tables name. */
  lemma TableFieldsStay(q: Request, b: Blocks, pages: Pinned, g: Mem, m': Mem)
    requires TablesFit(q) && Gathered(q, b, g) && TablesTaken(q, b, g) && Travels(q, b, pages, g) && FieldsSame(q, b, g, m')
    ensures TableFieldsSame(q, g, m')
  {
    TableInlinesStay(q, b, pages, g, m');
    TableParamsStay(q, b, pages, g, m');
  }

  lemma KeptParamStays(q: Request, b: Blocks, g: Mem, m': Mem, j: nat)
    requires Gathered(q, b, g) && FieldsSame(q, b, g, m') && b.embOff != NONE && j < b.paramsLen && KeptParam(b, j)
    ensures ByteSame(g, m', b.savedPtr + j)
  {
    SliceByte(b.aux, 0, b.paramsLen, g, b.savedPtr, j) by { assert b.aux[0..0 + b.paramsLen] == b.aux[..b.paramsLen]; }
  }

  /** A field inside the params is inside the part of them that is written back. */
  lemma FieldInsideParams(q: Request, b: Blocks, pages: Pinned, g: Mem, j: nat)
    requires TablesFit(q) && Travels(q, b, pages, g) && q.Decide(b.inl).Take?
    requires j < |ParamsOf(q, b.inl, g)| && TableParam(q, b.inl, ParamsOf(q, b.inl, g), j)
    ensures j < b.paramsLen
  {
    if FormOf(q, b.inl).KernelForm? {
      KernelHasNoFields(q, b.inl, ParamsOf(q, b.inl, g));
    } else if FormOf(q, b.inl).UserForm? {
      UserHasNoPointer(q, b.inl);
    }
  }

  // ----------------------------------------------------------- where the reply goes

  /** How much of the params is written back. */
  function ParamsBack(q: Request, inl: seq<byte>, params: seq<byte>): nat {
    if FormOf(q, inl).KernelForm? then OSDESC_PARAMS_SIZE else |params|
  }

  /** The caller's buffers in the order in which they are written: nested buffers, params, inline block. */
  function Buffers(q: Request, inl: seq<byte>, g: Mem): (bs: seq<(nat, nat)>)
    ensures bs != []
  {
    var params := ParamsOf(q, inl, g);
    var plan := NestedPlan(q, inl, params);
    if !q.Decide(inl).Take? then [(q.addr, q.size)]
    else
      seq(|plan|, k requires 0 <= k < |plan| => (plan[k].gva, plan[k].len))
      + [(PtrOf(q, inl), ParamsBack(q, inl, params)), (q.addr, q.size)]
  }

  predicate Disjoint(bs: seq<(nat, nat)>) { forall i, j :: 0 <= i < j < |bs| ==> Clear(bs[i], bs[j]) }

  predicate InBuffers(bs: seq<(nat, nat)>, x: nat) { exists i :: 0 <= i < |bs| && bs[i].0 <= x < bs[i].0 + bs[i].1 }

  function ByteAt(answer: seq<byte>, at: nat): Option<byte> { if at < |answer| then Some(answer[at]) else None }

  /** The byte of the reply meant for inline byte `j`; none where a field is kept or the reply is short. */
  function InlineReply(q: Request, inl: seq<byte>, reply: Reply, j: nat): Option<byte> {
    if TableInline(q, inl, j) then None else ByteAt(reply.inl, j)
  }

  function ParamReply(q: Request, inl: seq<byte>, params: seq<byte>, reply: Reply, j: nat): Option<byte> {
    if TableParam(q, inl, params, j) then None else ByteAt(reply.aux, j)
  }

  /** The same of byte `j` of buffer `i`; nested buffers come back to back behind the params. */
  function ReplyByte(q: Request, inl: seq<byte>, g: Mem, reply: Reply, i: nat, j: nat): Option<byte>
    requires i < |Buffers(q, inl, g)|
  {
    var params := ParamsOf(q, inl, g);
    var plan := NestedPlan(q, inl, params);
    if i == |Buffers(q, inl, g)| - 1 then InlineReply(q, inl, reply, j)
    else if i == |plan| then ParamReply(q, inl, params, reply, j)
    else ByteAt(reply.aux, |params| + Total(plan, i) + j)
  }

  /** Byte `j` of copy `i` had been written when the write-back got as far as `p`. */
  predicate Arrived(p: Progress, i: nat, j: nat) { p.Complete? || i < p.n || (i == p.n && j < p.k) }

  predicate LandedAt(q: Request, inl: seq<byte>, m: Mem, m': Mem, reply: Reply, p: Progress, i: nat, j: nat)
    requires i < |Buffers(q, inl, m)|
  {
    var x := Buffers(q, inl, m)[i].0 + j;
    && x in m && x in m'
    && m'[x] == match ReplyByte(q, inl, m, reply, i, j)
       case Some(v) => if Arrived(p, i, j) then v else m[x]
       case None => m[x]
  }

  /** Every byte of every buffer holds the reply's byte where it arrived, and what it held before everywhere else. */
  ghost predicate Landed(q: Request, m: Mem, m': Mem, reply: Reply, p: Progress)
    requires Mapped(m, q.addr, q.size)
  {
    var inl := Fetch(m, q.addr, q.size);
    var bs := Buffers(q, inl, m);
    forall i, j: nat :: 0 <= i < |bs| && j < bs[i].1 ==> LandedAt(q, inl, m, m', reply, p, i, j)
  }

  /** Everything a call records follows the tables. */
  predicate Ready(q: Request, b: Blocks, pages: Pinned, g: Mem) {
    TablesFit(q) && Gathered(q, b, g) && TablesTaken(q, b, g) && Travels(q, b, pages, g)
  }

  lemma TakenHasParams(q: Request, b: Blocks, pages: Pinned, g: Mem)
    requires Ready(q, b, pages, g)
    ensures HasParams(b) <==> q.Decide(b.inl).Take?
    ensures HasParams(b) ==>
      && b.savedPtr == PtrOf(q, b.inl) && b.paramsLen == ParamsBack(q, b.inl, ParamsOf(q, b.inl, g))
      && NestedAre(b.nested, NestedPlan(q, b.inl, ParamsOf(q, b.inl, g)))
  {
    if q.Decide(b.inl).Take? {
      TakenPtr(q, b, g);
      if FormOf(q, b.inl).UserForm? { UserHasNoPointer(q, b.inl); }
    }
  }

  lemma TargetsAreBuffers(q: Request, b: Blocks, pages: Pinned, g: Mem)
    requires Ready(q, b, pages, g)
    ensures |Buffers(q, b.inl, g)| == Copies(b)
    ensures forall i :: 0 <= i < Copies(b) ==> Buffers(q, b.inl, g)[i] == Target(q, b, i)
  {
    TakenHasParams(q, b, pages, g);
  }

  lemma DisjointApart(q: Request, b: Blocks, pages: Pinned, g: Mem)
    requires Ready(q, b, pages, g) && Disjoint(Buffers(q, b.inl, g))
    ensures BuffersApart(q, b)
  {
    TargetsAreBuffers(q, b, pages, g);
    var bs := Buffers(q, b.inl, g);
    forall i, j | 0 <= i < j < Copies(b) ensures Clear(Target(q, b, i), Target(q, b, j)) {
      assert Clear(bs[i], bs[j]);
    }
  }

  lemma BuffersAreGathered(q: Request, b: Blocks, pages: Pinned, g: Mem, x: nat)
    requires Ready(q, b, pages, g) && InGathered(q, b, x)
    ensures InBuffers(Buffers(q, b.inl, g), x)
  {
    TargetsAreBuffers(q, b, pages, g);
    var bs := Buffers(q, b.inl, g);
    var i :| 0 <= i < Copies(b) && Target(q, b, i).0 <= x < Target(q, b, i).0 + Target(q, b, i).1;
    assert bs[i] == Target(q, b, i);
  }

  lemma {:induction false} NestedOffset(start: nat, ns: seq<Nested>, plan: seq<Plan>, k: nat)
    requires Packed(start, ns) && NestedAre(ns, plan) && k <= |ns|
    ensures NextOff(start, ns[..k]) == start + Total(plan, k)
    decreases k
  {
    if k > 0 {
      NestedOffset(start, ns, plan, k - 1);
      assert ns[..k][k - 1] == ns[k - 1];
    }
  }

  lemma StoreMiss(m: Mem, w: Write, x: nat)
    requires x in m && !Hits(w, x)
    ensures Store(m, w.at, w.bytes)[x] == m[x]
  {
  }

  lemma {:induction false} StoreMisses(m: Mem, ws: seq<Write>, n: nat, x: nat)
    requires n <= |ws| && x in m && (forall i :: 0 <= i < n ==> !Hits(ws[i], x))
    ensures StoreUpTo(m, ws, n)[x] == m[x]
    decreases n
  {
    if n > 0 {
      StoreMisses(m, ws, n - 1, x);
      StoreMiss(StoreUpTo(m, ws, n - 1), ws[n - 1], x);
    }
  }

  /** Of writes that do not overlap a byte has been written exactly if its own write got that far. */
  lemma ReachedAt(m: Mem, ws: seq<Write>, p: Progress, i: nat, x: nat)
    requires Apart(ws) && Possible(ws, p) && i < |ws| && Hits(ws[i], x) && x in m
    ensures Reached(m, ws, p)[x] == if Arrived(p, i, x - ws[i].at) then ws[i].bytes[x - ws[i].at] else m[x]
  {
    forall k | 0 <= k < |ws| && k != i ensures !Hits(ws[k], x) {}
    match p
    case Complete => StoreArrives(m, ws, |ws|, i, x);
    case Faulted(n, k) =>
      if i < n { StoreArrives(m, ws, n, i, x); } else { StoreMisses(m, ws, n, x); }
      if i != n { assert !Hits(ws[n], x); }
  }

  /** Byte `j` of a copy `w` of buffer `i` is the reply's, or the caller's own. */
  predicate CarriesByte(q: Request, inl: seq<byte>, g: Mem, reply: Reply, w: Write, i: nat, j: nat) {
    && i < |Buffers(q, inl, g)| && w.at + j in g && j < |w.bytes|
    && w.bytes[j] == match ReplyByte(q, inl, g, reply, i, j) case Some(v) => v case None => g[w.at + j]
  }

  lemma WhichInline(q: Request, b: Blocks, pages: Pinned, g: Mem, reply: Reply, j: nat)
    requires Ready(q, b, pages, g)
    ensures |Buffers(q, b.inl, g)| == Copies(b) && ReplyByte(q, b.inl, g, reply, Copies(b) - 1, j) == InlineReply(q, b.inl, reply, j)
  {
    TargetsAreBuffers(q, b, pages, g);
  }

  lemma WhichParams(q: Request, b: Blocks, pages: Pinned, g: Mem, reply: Reply, j: nat)
    requires Ready(q, b, pages, g) && HasParams(b)
    ensures |Buffers(q, b.inl, g)| == Copies(b) && q.Decide(b.inl).Take?
    ensures ReplyByte(q, b.inl, g, reply, |b.nested|, j) == ParamReply(q, b.inl, ParamsOf(q, b.inl, g), reply, j)
  {
    TargetsAreBuffers(q, b, pages, g);
    TakenHasParams(q, b, pages, g);
  }

  lemma WhichNested(q: Request, b: Blocks, pages: Pinned, g: Mem, reply: Reply, i: nat, j: nat)
    requires Ready(q, b, pages, g) && HasParams(b) && i < |b.nested|
    ensures |Buffers(q, b.inl, g)| == Copies(b) && ReplyByte(q, b.inl, g, reply, i, j) == ByteAt(reply.aux, b.nested[i].auxOff + j)
  {
    TargetsAreBuffers(q, b, pages, g);
    TakenHasParams(q, b, pages, g);
    NestedPlace(q, b, pages, g, i);
  }

  lemma NestedPlace(q: Request, b: Blocks, pages: Pinned, g: Mem, i: nat)
    requires Ready(q, b, pages, g) && HasParams(b) && i < |b.nested|
    requires NestedAre(b.nested, NestedPlan(q, b.inl, ParamsOf(q, b.inl, g)))
    ensures b.nested[i].auxOff == |ParamsOf(q, b.inl, g)| + Total(NestedPlan(q, b.inl, ParamsOf(q, b.inl, g)), i)
  {
    var params := ParamsOf(q, b.inl, g);
    assert b.paramsLen == |params| by {
      TakenHasParams(q, b, pages, g);
      if FormOf(q, b.inl).KernelForm? { KernelHasNoFields(q, b.inl, params); }
    }
    NestedOffset(b.paramsLen, b.nested, NestedPlan(q, b.inl, params), i);
  }

  /** What a copy holds at `j`, given the reply's byte for it. */
  predicate Holds(w: Write, at: nat, j: nat, g: Mem, r: Option<byte>) {
    w.at == at && j < |w.bytes| && at + j in g && w.bytes[j] == match r case Some(v) => v case None => g[at + j]
  }

  lemma InlineHolds(q: Request, b: Blocks, pages: Pinned, g: Mem, reply: Reply, ws: seq<Write>, j: nat)
    requires Ready(q, b, pages, g) && Shaped(q, b) && IsWriteBack(q, b, reply, ws) && j < q.size
    ensures Holds(ws[Copies(b) - 1], q.addr, j, g, InlineReply(q, b.inl, reply, j))
  {
    assert KeptInline(q, b, j) <==> TableInline(q, b.inl, j) by { InlineFieldsAreTheTables(q, b, pages, g, j); }
    InlineWritten(q, b, g, reply, ws, j);
  }

  lemma ParamsHold(q: Request, b: Blocks, g: Mem, reply: Reply, ws: seq<Write>, j: nat)
    requires Gathered(q, b, g) && TablesTaken(q, b, g) && q.Decide(b.inl).Take?
    requires Shaped(q, b) && IsWriteBack(q, b, reply, ws) && HasParams(b) && j < b.paramsLen
    ensures Holds(ws[|b.nested|], b.savedPtr, j, g, ParamReply(q, b.inl, ParamsOf(q, b.inl, g), reply, j))
  {
    assert KeptParam(b, j) <==> TableParam(q, b.inl, ParamsOf(q, b.inl, g), j) by { ParamFieldsAreTheTables(q, b, g, j); }
    ParamsWritten(q, b, g, reply, ws, j);
  }

  lemma NestedHolds(q: Request, b: Blocks, g: Mem, reply: Reply, ws: seq<Write>, i: nat, j: nat)
    requires Gathered(q, b, g) && Shaped(q, b) && IsWriteBack(q, b, reply, ws) && HasParams(b) && i < |b.nested| && j < b.nested[i].len
    ensures Holds(ws[i], b.nested[i].gva, j, g, ByteAt(reply.aux, b.nested[i].auxOff + j))
  {
    NestedWritten(q, b, g, reply, ws, i, j);
  }

  lemma Carries(q: Request, inl: seq<byte>, g: Mem, reply: Reply, w: Write, i: nat, at: nat, j: nat, r: Option<byte>)
    requires i < |Buffers(q, inl, g)| && ReplyByte(q, inl, g, reply, i, j) == r && Holds(w, at, j, g, r)
    ensures CarriesByte(q, inl, g, reply, w, i, j)
  {
  }

  lemma InlineByte(q: Request, b: Blocks, pages: Pinned, g: Mem, reply: Reply, ws: seq<Write>, j: nat)
    requires Ready(q, b, pages, g) && Shaped(q, b) && IsWriteBack(q, b, reply, ws) && j < q.size
    ensures CarriesByte(q, b.inl, g, reply, ws[Copies(b) - 1], Copies(b) - 1, j)
  {
    WhichInline(q, b, pages, g, reply, j);
    InlineHolds(q, b, pages, g, reply, ws, j);
    Carries(q, b.inl, g, reply, ws[Copies(b) - 1], Copies(b) - 1, q.addr, j, InlineReply(q, b.inl, reply, j));
  }

  lemma ParamByte(q: Request, b: Blocks, pages: Pinned, g: Mem, reply: Reply, ws: seq<Write>, j: nat)
    requires Ready(q, b, pages, g) && Shaped(q, b) && IsWriteBack(q, b, reply, ws) && HasParams(b) && j < b.paramsLen
    ensures CarriesByte(q, b.inl, g, reply, ws[|b.nested|], |b.nested|, j)
  {
    WhichParams(q, b, pages, g, reply, j);
    ParamsHold(q, b, g, reply, ws, j);
    Carries(q, b.inl, g, reply, ws[|b.nested|], |b.nested|, b.savedPtr, j, ParamReply(q, b.inl, ParamsOf(q, b.inl, g), reply, j));
  }

  lemma NestedCopyByte(q: Request, b: Blocks, pages: Pinned, g: Mem, reply: Reply, ws: seq<Write>, i: nat, j: nat)
    requires Ready(q, b, pages, g) && Shaped(q, b) && IsWriteBack(q, b, reply, ws) && HasParams(b) && i < |b.nested| && j < b.nested[i].len
    ensures CarriesByte(q, b.inl, g, reply, ws[i], i, j)
  {
    WhichNested(q, b, pages, g, reply, i, j);
    NestedHolds(q, b, g, reply, ws, i, j);
    Carries(q, b.inl, g, reply, ws[i], i, b.nested[i].gva, j, ByteAt(reply.aux, b.nested[i].auxOff + j));
  }

  lemma CopyByte(q: Request, b: Blocks, pages: Pinned, g: Mem, reply: Reply, ws: seq<Write>, i: nat, j: nat)
    requires Ready(q, b, pages, g) && Shaped(q, b) && IsWriteBack(q, b, reply, ws)
    requires i < Copies(b) && j < Target(q, b, i).1
    ensures CarriesByte(q, b.inl, g, reply, ws[i], i, j)
  {
    if i == Copies(b) - 1 {
      InlineByte(q, b, pages, g, reply, ws, j);
    } else if i == |b.nested| {
      ParamByte(q, b, pages, g, reply, ws, j);
    } else {
      NestedCopyByte(q, b, pages, g, reply, ws, i, j);
    }
  }

  lemma ByteLands(q: Request, inl: seq<byte>, reply: Reply, ws: seq<Write>, g: Mem, p: Progress, i: nat, j: nat)
    requires Apart(ws) && Possible(ws, p) && i < |ws| && CarriesByte(q, inl, g, reply, ws[i], i, j)
    requires ws[i].at == Buffers(q, inl, g)[i].0
    ensures LandedAt(q, inl, g, Reached(g, ws, p), reply, p, i, j)
  {
    ReachedAt(g, ws, p, i, ws[i].at + j);
  }

  lemma CopyLands(q: Request, b: Blocks, pages: Pinned, reply: Reply, ws: seq<Write>, g: Mem, p: Progress, i: nat, j: nat)
    requires Ready(q, b, pages, g) && Shaped(q, b) && IsWriteBack(q, b, reply, ws) && Apart(ws) && Possible(ws, p)
    requires i < Copies(b) && j < Target(q, b, i).1
    ensures i < |Buffers(q, b.inl, g)| && LandedAt(q, b.inl, g, Reached(g, ws, p), reply, p, i, j)
  {
    assert Buffers(q, b.inl, g)[i].0 == ws[i].at by {
      TargetsAreBuffers(q, b, pages, g);
      TargetOf(q, b, reply, ws, i);
    }
    CopyByte(q, b, pages, g, reply, ws, i, j);
    ByteLands(q, b.inl, reply, ws, g, p, i, j);
  }

  /** Wherever a write-back stops, what has arrived is the reply and what has not is untouched. */
  lemma ReplyLands(q: Request, b: Blocks, pages: Pinned, reply: Reply, ws: seq<Write>, g: Mem, p: Progress)
    requires Ready(q, b, pages, g) && Shaped(q, b) && Disjoint(Buffers(q, b.inl, g)) && IsWriteBack(q, b, reply, ws) && Possible(ws, p)
    ensures Landed(q, g, Reached(g, ws, p), reply, p)
  {
    DisjointApart(q, b, pages, g);
    TargetsAreBuffers(q, b, pages, g);
    WritesApart(q, b, reply, ws);
    var bs := Buffers(q, b.inl, g);
    forall i, j: nat | 0 <= i < |bs| && j < bs[i].1 ensures LandedAt(q, b.inl, g, Reached(g, ws, p), reply, p, i, j) {
      CopyLands(q, b, pages, reply, ws, g, p, i, j);
    }
  }

  /** The write-back completes exactly if every buffer can be written. */
  predicate AllWritable(bs: seq<(nat, nat)>, m: Mem, sealed: set<nat>) {
    forall i :: 0 <= i < |bs| ==> CanWrite(m, sealed, bs[i].0, bs[i].1)
  }

  /** Where it stops, the buffer could not be written and all before it could. */
  predicate StopsAtFault(bs: seq<(nat, nat)>, m: Mem, sealed: set<nat>, p: Progress) {
    p.Faulted? ==>
      && p.n < |bs| && !CanWrite(m, sealed, bs[p.n].0, bs[p.n].1)
      && forall i :: 0 <= i < p.n ==> CanWrite(m, sealed, bs[i].0, bs[i].1)
  }

  lemma FaultIsReal(q: Request, b: Blocks, pages: Pinned, reply: Reply, ws: seq<Write>, g: Mem, sealed: set<nat>, m': Mem, ok: bool, p: Progress)
    requires Ready(q, b, pages, g) && Shaped(q, b) && IsWriteBack(q, b, reply, ws) && Wrote(g, sealed, m', ws, |ws|, ok, p)
    ensures ok <==> AllWritable(Buffers(q, b.inl, g), g, sealed)
    ensures StopsAtFault(Buffers(q, b.inl, g), g, sealed, p)
  {
    TargetsAreBuffers(q, b, pages, g);
    var bs := Buffers(q, b.inl, g);
    forall i | 0 <= i < |bs| ensures CanMake(g, sealed, ws[i]) <==> CanWrite(g, sealed, bs[i].0, bs[i].1) {
      TargetOf(q, b, reply, ws, i);
    }
    assert StopsAtFault(bs, g, sealed, p);
  }

  /** What a call promises about memory, for any record that follows the tables. */
  ghost predicate Promises(q: Request, inl: seq<byte>, reply: Reply, g: Mem, sealed: set<nat>, m': Mem, ok: bool, p: Progress)
    requires Mapped(g, q.addr, q.size)
  {
    var bs := Buffers(q, inl, g);
    && m'.Keys == g.Keys && (ok <==> p.Complete?) && (ok <==> AllWritable(bs, g, sealed)) && StopsAtFault(bs, g, sealed, p)
    && (forall x: nat :: x in g && !InBuffers(bs, x) ==> m'[x] == g[x])
    && (Disjoint(bs) ==> Landed(q, g, m', reply, p) && TableFieldsSame(q, g, m'))
  }

  lemma WholeCall(q: Request, b: Blocks, pages: Pinned, reply: Reply, ws: seq<Write>, g: Mem, sealed: set<nat>, m': Mem, ok: bool, p: Progress)
    requires Ready(q, b, pages, g) && Shaped(q, b) && IsWriteBack(q, b, reply, ws) && Wrote(g, sealed, m', ws, |ws|, ok, p)
    ensures Promises(q, b.inl, reply, g, sealed, m', ok, p)
    ensures AllCarried(q, b, ParamsOf(q, b.inl, g))
  {
    assert m' == Reached(g, ws, p);
    TakenCarriesAll(q, b, g);
    FaultIsReal(q, b, pages, reply, ws, g, sealed, m', ok, p);
    OthersStay(q, b, reply, ws, g, p);
    forall x: nat | x in g && !InBuffers(Buffers(q, b.inl, g), x) ensures m'[x] == g[x] {
      if InGathered(q, b, x) { BuffersAreGathered(q, b, pages, g, x); }
    }
    if Disjoint(Buffers(q, b.inl, g)) {
      DisjointApart(q, b, pages, g);
      ReplyLands(q, b, pages, reply, ws, g, p);
      FieldsStay(q, b, reply, ws, g, p);
      TableFieldsStay(q, b, pages, g, m');
    }
  }

  lemma SliceOfPrefix(s: seq<byte>, n: nat, i: nat, k: nat)
    requires i + k <= n <= |s|
    ensures s[i..i + k] == s[..n][i..i + k]
  {
    PrefixSlice(s, [], n, i, k);
    assert s + [] == s;
  }

  lemma FdIsRead(f: FdSpec, b: Blocks, params: seq<byte>)
    requires FdIs(f, b, params) && ParamsLead(b, params) && (f.Field? ==> f.off != NONE)
    ensures AuxFdRead(b)
  {
    if f.Field? { SliceOfPrefix(b.aux, b.paramsLen, f.off, f.len); }
  }

  /** What `gather_embedded` leaves behind. */
  predicate EmbeddedRead(q: Request, b: Blocks, g: Mem) {
    && TablesTaken(q, b, g) && ParamsLead(b, ParamsOf(q, b.inl, g))
    && (if b.embOff == NONE then b.aux == [] else ParamsRead(b, g) && NestedRead(b, g) && AuxFdRead(b))
    && |b.aux| <= q.h.maxAux
  }

  lemma EmbeddedGathered(q: Request, b: Blocks, g: Mem)
    requires EmbeddedRead(q, b, g) && InlineRead(q, b, g) && FdRead(b) && b.runCount == 0
    ensures Gathered(q, b, g)
  {
    TakeMeans(q, b.inl);
  }

  lemma KernelReady(q: Request, b: Blocks, runs: seq<byte>, n: nat, desc: nat, limit: nat, pages: Pinned, g: Mem)
    requires TablesFit(q) && Gathered(q, b, g) && TablesTaken(q, b, g) && ParamsLead(b, ParamsOf(q, b.inl, g)) && FormOf(q, b.inl).KernelForm?
    requires b.paramsLen >= OSDESC_PARAMS_SIZE && OSDESC_PARAMS_SIZE + |runs| <= q.h.maxAux
    requires pages.Some? && n == |PageRuns.Coalesce(pages.value)| > 0 && runs == EncodeRuns(PageRuns.Coalesce(pages.value))
    requires var params := ParamsOf(q, b.inl, g); desc == Rd64(params, OSDESC_DESCRIPTOR_OFF) && limit == Rd64(params, OSDESC_LIMIT_OFF)
    ensures var b' := b.(aux := b.aux[..OSDESC_PARAMS_SIZE] + runs, paramsLen := OSDESC_PARAMS_SIZE,
                         runCount := n, pmemOrig := desc, limitOrig := limit);
      Gathered(q, b', g) && TablesTaken(q, b', g) && Travels(q, b', pages, g)
  {
    var params := ParamsOf(q, b.inl, g);
    KernelHasNoFields(q, b.inl, params);
    KernelGathered(q, b, runs, n, desc, limit, g);
    assert b.aux[..OSDESC_PARAMS_SIZE] == params[..OSDESC_PARAMS_SIZE];
  }

  lemma UserReady(q: Request, b: Blocks, runs: seq<byte>, n: nat, pmem: nat, limit: nat, pages: Pinned, g: Mem)
    requires TablesFit(q) && Gathered(q, b, g) && TablesTaken(q, b, g) && FormOf(q, b.inl).UserForm?
    requires |runs| <= q.h.maxAux && DescriptorInside(q, |b.inl|)
    requires pages.Some? && n == |PageRuns.Coalesce(pages.value)| > 0 && runs == EncodeRuns(PageRuns.Coalesce(pages.value))
    requires pmem == Rd64(b.inl, q.h.osdescPmemOff) && limit == Rd64(b.inl, q.h.osdescLimitOff)
    ensures var b' := b.(aux := runs, paramsLen := 0, runCount := n, pmemOrig := pmem, limitOrig := limit);
      Gathered(q, b', g) && TablesTaken(q, b', g) && Travels(q, b', pages, g)
  {
    UserHasNoPointer(q, b.inl);
    UserGathered(q, b, runs, n, pmem, limit, g);
    assert [] + runs == runs;
  }

  // --------------------------------------------------------------------- the call

  /** Putting pointers back into the params leaves the nested buffers behind them alone. */
  lemma {:induction false} RestorePtrsBehind(a: seq<byte>, ns: seq<Nested>, n: nat, limit: nat)
    requires PtrsInside(ns, limit) && limit <= |a| && n <= |ns|
    ensures RestorePtrs(a, ns, n)[limit..] == a[limit..]
    decreases n
  {
    if n > 0 { RestorePtrsBehind(a, ns, n - 1, limit); }
  }

  /** Nested copy `i`, cut from the buffer with the earlier pointers already put back. */
  lemma NestedCopy(q: Request, b: Blocks, reply: Reply, ws: seq<Write>, i: nat)
    requires Shaped(q, b) && HasParams(b) && IsWriteBack(q, b, reply, ws) && i < |b.nested|
    ensures var n, r := b.nested[i], RestorePtrs(Merge(b.aux, reply.aux), b.nested, i);
      ws[i] == Write(n.gva, r[n.auxOff..n.auxOff + n.len])
  {
    var n, a := b.nested[i], Merge(b.aux, reply.aux);
    NestedAt(q, b, reply, ws, i);
    RestorePtrsBehind(a, b.nested, i, b.paramsLen);
    SameBehind(a, RestorePtrs(a, b.nested, i), b.paramsLen, n.auxOff, n.len);
  }

  /** One more pointer put back. */
  lemma NextRestored(q: Request, b: Blocks, answer: seq<byte>, i: nat)
    requires Shaped(q, b) && HasParams(b) && i < |b.nested|
    ensures var n, r := b.nested[i], RestorePtrs(Merge(b.aux, answer), b.nested, i);
      && n.ptrOff + 8 <= |r| && n.auxOff + n.len <= |r|
      && RestorePtrs(Merge(b.aux, answer), b.nested, i + 1) == Wr64(r, n.ptrOff, n.gva)
  {
  }

  lemma SameBehind(a: seq<byte>, r: seq<byte>, limit: nat, off: nat, len: nat)
    requires limit <= off && off + len <= |a| == |r| && a[limit..] == r[limit..]
    ensures a[off..off + len] == r[off..off + len]
  {
    assert a[off..off + len] == a[limit..][off - limit..off - limit + len];
    assert r[off..off + len] == r[limit..][off - limit..off - limit + len];
  }

  lemma CopiesExist(q: Request, b: Blocks, reply: Reply)
    requires Shaped(q, b)
    ensures exists ws :: IsWriteBack(q, b, reply, ws)
  {
    var ws := seq(Copies(b), i requires 0 <= i < Copies(b) => Copy(q, b, reply, i));
    assert IsWriteBack(q, b, reply, ws);
  }

  class Call {
    const q: Request
    var inl: seq<byte>
    var aux: seq<byte>
    var paramsLen: nat
    var embOff: nat
    var savedPtr: nat
    var fdOff: nat
    var fdOrig: seq<byte>
    var auxFdOff: nat
    var auxFdOrig: seq<byte>
    var nested: seq<Nested>
    var runCount: nat
    var pmemOrig: nat
    var limitOrig: nat
    /** Tokens sent in place of fd numbers. */
    var fdToken: Option<nat>
    var auxFdToken: Option<nat>

    ghost function Now(): Blocks
      reads this
    {
      Blocks(inl, aux, paramsLen, embOff, savedPtr, fdOff, fdOrig, auxFdOff, auxFdOrig, nested, runCount, pmemOrig, limitOrig)
    }

    constructor (request: Request)
      ensures q == request && Now() == Blocks([], [], 0, NONE, 0, NONE, [0, 0, 0, 0], NONE, [], [], 0, 0, 0)
    {
      q := request;
      inl, aux, paramsLen, embOff, savedPtr := [], [], 0, NONE, 0;
      fdOff, fdOrig, auxFdOff, auxFdOrig := NONE, [0, 0, 0, 0], NONE, [];
      nested, runCount, pmemOrig, limitOrig := [], 0, 0, 0;
      fdToken, auxFdToken := None, None;
    }

    /** Fetch the inline block. */
    method GatherInline(caller: Caller) returns (st: Status)
      modifies this`inl
      ensures st.Done? ==> InlineRead(q, Now(), caller.mem)
      ensures st == if Mapped(caller.mem, q.addr, q.size) then Done else Fault
    {
      var r := caller.CopyIn(q.addr, q.size);
      if r.None? {
        return Fault;
      }
      inl := r.value;
      st := Done;
    }

    /** Note the caller's fd number and look its file up. */
    method GatherFd(files: Files) returns (st: Status)
      requires |inl| == q.size && fdOff == NONE && |fdOrig| == 4
      modifies this`fdOff, this`fdOrig, this`fdToken
      ensures st == InlineFdStatus(q, files, inl)
      ensures st.Done? ==> FdRead(Now()) && |fdOrig| == 4 && fdOff == FdField(q)
      ensures st.Done? && fdOff != NONE ==> fdToken == TokenOf(files, fdOrig)
      ensures st.Done? && fdOff == NONE ==> Now() == old(Now()) && fdToken == old(fdToken)
    {
      var d := q.Desc();
      if q.kern || d.None? || d.value.fdOff == NONE {
        return Done;
      }
      if !RangeValid(d.value.fdOff, 4, q.size) {
        return Failed(EINVAL);
      }
      fdOrig := inl[d.value.fdOff..d.value.fdOff + 4];
      fdOff := d.value.fdOff;
      fdToken := TokenOf(files, fdOrig);
      st := if Signed(fdOrig) >= 0 && fdToken.None? then BadFd else Done;
    }

    /** The first-level buffer of `gather_embedded`. */
    method GatherParams(caller: Caller) returns (st: Status)
      requires |inl| == q.size && embOff == NONE && nested == [] && aux == []
      modifies this`aux, this`paramsLen, this`embOff, this`savedPtr
      ensures match q.Decide(inl)
        case Nothing => st.Done? && Now() == old(Now())
        case Fail(e) => st == Failed(e)
        case Take(off, len) =>
          if !Mapped(caller.mem, PtrOf(q, inl), len) then st.Fault?
          else st.Done? && embOff == off && aux == ParamsOf(q, inl, caller.mem) && FirstLevel(caller.mem)
    {
      var d := q.Decide(inl);
      match d
      case Nothing => return Done;
      case Fail(e) => return Failed(e);
      case Take(off, len) =>
        TakeMeans(q, inl);
        var r := caller.CopyIn(Rd64(inl, off), len);
        if r.None? {
          return Fault;
        }
        aux, paramsLen, embOff, savedPtr := r.value, len, off, Rd64(inl, off);
        assert aux[..paramsLen] == aux;
        return Done;
    }

    /** The params are there and nothing behind them. */
    ghost predicate FirstLevel(g: Mem)
      reads this
    {
      ParamsRead(Now(), g) && paramsLen == |aux| <= q.h.maxAux && nested == []
    }

    /** Fetch one planned buffer behind what is there. */
    method FetchOne(caller: Caller, e: Plan) returns (st: Status)
      modifies this`aux, this`nested
      ensures st == if Mapped(caller.mem, e.gva, e.len) then Done else Fault
      ensures st.Done? ==> Now() == Added(old(Now()), e, Fetch(caller.mem, e.gva, e.len))
    {
      var r := caller.CopyIn(e.gva, e.len);
      if r.None? {
        return Fault;
      }
      nested := nested + [Nested(e.ptrOff, |aux|, e.len, e.gva)];
      aux := aux + r.value;
      st := Done;
    }

    /** Fetch the planned nested buffers, back to back behind the params. */
    method GatherNested(caller: Caller, plan: seq<Plan>) returns (st: Status)
      requires FirstLevel(caller.mem)
      requires forall k :: 0 <= k < |plan| ==> Points(plan[k], aux)
      modifies this`aux, this`nested
      ensures st == if PlanMapped(caller.mem, plan) then Done else Fault
      ensures st.Done? ==> Reading(Now(), plan, old(aux), caller.mem) && |nested| == |plan|
    {
      ghost var params := aux;
      assert aux[..paramsLen] == params;
      for i := 0 to |plan|
        invariant Reading(Now(), plan, params, caller.mem) && |nested| == i
      {
        ghost var b := Now();
        st := FetchOne(caller, plan[i]);
        if !st.Done? {
          return;
        }
        ReadOne(b, plan, plan[i], params, caller.mem);
      }
      ReadingMapped(Now(), plan, params, caller.mem);
      st := Done;
    }

    /** Note an fd number inside the params: eight bytes of an allocation, four of a control. */
    method NoteAuxFd(files: Files, off: nat, len: nat, refuse: bool) returns (st: Status)
      requires off + len <= |aux|
      modifies this`auxFdOff, this`auxFdOrig, this`auxFdToken
      ensures auxFdOff == off && auxFdOrig == aux[off..off + len]
      ensures st == NoteStatus(files, refuse, aux[off..off + len])
      ensures st.Done? ==> auxFdToken == TokenOf(files, auxFdOrig)
    {
      auxFdOrig := aux[off..off + len];
      auxFdOff := off;
      auxFdToken := None;
      if Signed(auxFdOrig) < 0 {
        return Done;
      }
      if refuse {
        return BadFd;
      }
      auxFdToken := TokenOf(files, auxFdOrig);
      st := if auxFdToken.None? then BadFd else Done;
    }

    ghost predicate AuxTokenIs(files: Files)
      reads this
    {
      auxFdOff != NONE ==> auxFdToken == TokenOf(files, auxFdOrig)
    }

    /** The fd inside allocation params, if the class has one and its guard holds. */
    method GatherClassFd(files: Files, ghost params: seq<byte>) returns (st: Status)
      requires ParamsLead(Now(), params) && auxFdOff == NONE
      modifies this`auxFdOff, this`auxFdOrig, this`auxFdToken
      ensures st == FdStatus(ClassFd(q, inl, params), files, q.kern, params)
      ensures st.Done? ==> FdIs(ClassFd(q, inl, params), Now(), params) && AuxTokenIs(files)
      ensures st.Done? && ClassFd(q, inl, params).NoField? ==> Now() == old(Now()) && auxFdToken == old(auxFdToken)
    {
      var cls := ClassOfCall(q, inl);
      if cls.None? || cls.value.fdOff == NONE {
        return Done;
      }
      if !RangeValid(cls.value.fdOff, 8, paramsLen) {
        return Failed(EINVAL);
      }
      SliceOfPrefix(aux, paramsLen, cls.value.fdOff, 8);
      if cls.value.fdIfOff != NONE {
        if !RangeValid(cls.value.fdIfOff, 4, paramsLen) {
          return Failed(EINVAL);
        }
        SliceOfPrefix(aux, paramsLen, cls.value.fdIfOff, 4);
        if Rd32(aux, cls.value.fdIfOff) != cls.value.fdIfVal {
          return Done;   // a kernel-callback class: the field is a pointer
        }
      }
      st := NoteAuxFd(files, cls.value.fdOff, 8, q.kern);
    }

    /** The fd inside control params; there is one slot on the wire. */
    method GatherCtrlFd(files: Files, kthread: bool, ghost params: seq<byte>) returns (st: Status)
      requires ParamsLead(Now(), params)
      modifies this`auxFdOff, this`auxFdOrig, this`auxFdToken
      ensures st ==
        if CtrlFd(q, inl, params).Field? && old(auxFdOff) != NONE then Failed(EOPNOTSUPP)
        else FdStatus(CtrlFd(q, inl, params), files, q.kern && kthread, params)
      ensures st.Done? && CtrlFd(q, inl, params).NoField? ==> Now() == old(Now()) && auxFdToken == old(auxFdToken)
      ensures st.Done? && CtrlFd(q, inl, params).Field? ==> FdIs(CtrlFd(q, inl, params), Now(), params) && AuxTokenIs(files)
    {
      var ct := CtrlOfCall(q, inl);
      if ct.None? || !HasFd(ct.value.flags) || ct.value.fdOff == NONE {
        return Done;
      }
      if !RangeValid(ct.value.fdOff, 4, paramsLen) {
        return Failed(EINVAL);
      }
      if auxFdOff != NONE {
        return Failed(EOPNOTSUPP);
      }
      SliceOfPrefix(aux, paramsLen, ct.value.fdOff, 4);
      st := NoteAuxFd(files, ct.value.fdOff, 4, q.kern && kthread);
    }

    /** What is read behind the params follows the plan of the call. */
    ghost predicate SecondLevel(params: seq<byte>, g: Mem)
      reads this
    {
      && ParamsRead(Now(), g) && NestedRead(Now(), g) && |aux| <= q.h.maxAux
      && ParamsLead(Now(), params) && NestedAre(nested, NestedPlan(q, inl, params))
    }

    /** Plan and fetch the buffers of the call's nested rows. */
    method GatherRows(caller: Caller, rows: seq<NestedRow>) returns (st: Status)
      requires FirstLevel(caller.mem) && rows == RowsOfCall(q, inl)
      modifies this`aux, this`nested
      ensures var s := PlanStatus(rows, old(aux), q.h.maxAux, |rows|);
        st == if !s.Done? then s else if PlanMapped(caller.mem, NestedPlan(q, inl, old(aux))) then Done else Fault
      ensures st.Done? ==> SecondLevel(old(aux), caller.mem)
    {
      ghost var params := aux;
      var plan;
      st, plan := PlanNested(rows, aux, q.h.maxAux);
      if !st.Done? {
        return;
      }
      PlanDoneIff(rows, params, q.h.maxAux, |rows|);
      forall k | 0 <= k < |plan| ensures Points(plan[k], params) {
        PlansAreLive(rows, params, |rows|, plan[k]);
      }
      st := GatherNested(caller, plan);
    }

    /** The second-level part of `gather_embedded`. */
    method GatherSecond(caller: Caller) returns (st: Status)
      requires FirstLevel(caller.mem)
      modifies this`aux, this`nested
      ensures st == SecondStatus(q, inl, old(aux), caller.mem)
      ensures st.Done? ==> SecondLevel(old(aux), caller.mem)
    {
      assert aux[..paramsLen] == aux;
      var ct := CtrlOfCall(q, inl);
      if ct.None? || ct.value.count == 0 {
        assert RowsOfCall(q, inl) == [];
        return Done;
      }
      if ct.value.count > MAX_NESTED || !RangeValid(ct.value.first, ct.value.count, |q.p.nested|) {
        return Protocol;
      }
      st := GatherRows(caller, q.p.nested[ct.value.first..ct.value.first + ct.value.count]);
    }

    /** The fd inside the params, from the class row or from the control row. */
    method GatherAuxFd(files: Files, kthread: bool, ghost params: seq<byte>) returns (st: Status)
      requires ParamsLead(Now(), params) && auxFdOff == NONE
      modifies this`auxFdOff, this`auxFdOrig, this`auxFdToken
      ensures st == AuxFdStatus(q, files, kthread, inl, params)
      ensures st.Done? ==> FdIs(AuxFd(q, inl, params), Now(), params) && AuxTokenIs(files)
    {
      st := GatherClassFd(files, params);
      if !st.Done? {
        return;
      }
      st := GatherCtrlFd(files, kthread, params);
    }

    /** Everything that hangs off the params. */
    method GatherBehind(caller: Caller, files: Files, kthread: bool) returns (st: Status)
      requires FirstLevel(caller.mem) && auxFdOff == NONE
      modifies this`aux, this`nested, this`auxFdOff, this`auxFdOrig, this`auxFdToken
      ensures var s := SecondStatus(q, inl, old(aux), caller.mem);
        st == if !s.Done? then s else AuxFdStatus(q, files, kthread, inl, old(aux))
      ensures st.Done? ==> SecondLevel(old(aux), caller.mem) && FdIs(AuxFd(q, inl, old(aux)), Now(), old(aux)) && AuxTokenIs(files)
      ensures st.Done? ==> AuxFdRead(Now())
    {
      ghost var params := aux;
      st := GatherSecond(caller);
      if !st.Done? {
        return;
      }
      st := GatherAuxFd(files, kthread, params);
      if st.Done? { FdIsRead(AuxFd(q, inl, params), Now(), params); }
    }

    /** `gather_embedded`. */
    method GatherEmbedded(caller: Caller, files: Files, kthread: bool) returns (st: Status)
      requires |inl| == q.size && embOff == NONE && nested == [] && aux == [] && paramsLen == 0 && auxFdOff == NONE
      requires fdOff == FdField(q)
      modifies this`aux, this`paramsLen, this`embOff, this`savedPtr, this`nested, this`auxFdOff, this`auxFdOrig, this`auxFdToken
      ensures st == EmbeddedStatus(q, files, kthread, inl, caller.mem)
      ensures st.Done? ==> EmbeddedRead(q, Now(), caller.mem) && AuxTokenIs(files)
    {
      st := GatherParams(caller);
      if !st.Done? || embOff == NONE {
        return;
      }
      st := GatherBehind(caller, files, kthread);
    }

    /** The kernel form's checks on its params. */
    method KernelDescriptor(ghost params: seq<byte>) returns (st: Status, desc: nat, limit: nat)
      requires ParamsLead(Now(), params)
      ensures st == KernelCheck(params)
      ensures st.Done? ==> desc == Rd64(params, OSDESC_DESCRIPTOR_OFF) && limit == Rd64(params, OSDESC_LIMIT_OFF)
    {
      desc, limit := 0, 0;
      if paramsLen < OSDESC_PARAMS_SIZE {
        return Failed(EINVAL), desc, limit;
      }
      SliceOfPrefix(aux, paramsLen, OSDESC_DESCRIPTOR_OFF, 8);
      SliceOfPrefix(aux, paramsLen, OSDESC_LIMIT_OFF, 8);
      SliceOfPrefix(aux, paramsLen, OSDESC_TYPE_OFF, 4);
      desc := Rd64(aux, OSDESC_DESCRIPTOR_OFF);
      limit := Rd64(aux, OSDESC_LIMIT_OFF);
      if Rd32(aux, OSDESC_TYPE_OFF) != OSDESC_DMA_BUF {
        return Failed(EOPNOTSUPP), desc, limit;
      }
      st := if desc == 0 then Failed(EINVAL) else Done;
    }

    /** Replace what is behind the first `keep` bytes of the params by runs. */
    method AttachRuns(runs: seq<byte>, n: nat, keep: nat, pmem: nat, limit: nat)
      requires keep <= |aux|
      modifies this`aux, this`paramsLen, this`runCount, this`pmemOrig, this`limitOrig
      ensures Now() == old(Now()).(aux := old(aux)[..keep] + runs, paramsLen := keep, runCount := n, pmemOrig := pmem, limitOrig := limit)
    {
      aux := aux[..keep] + runs;
      paramsLen, runCount, pmemOrig, limitOrig := keep, n, pmem, limit;
    }

    /** The call is gathered up to its OS descriptor. */
    ghost predicate BeforeOsdesc(g: Mem)
      reads this
    {
      TablesFit(q) && Gathered(q, Now(), g) && TablesTaken(q, Now(), g) && ParamsLead(Now(), ParamsOf(q, inl, g)) && runCount == 0
    }

    /** The kernel form: params first, then the runs of an imported buffer. */
    method GatherOsdescKernel(pages: Pinned, ghost g: Mem) returns (st: Status)
      requires BeforeOsdesc(g) && FormOf(q, inl).KernelForm?
      modifies this`aux, this`paramsLen, this`runCount, this`pmemOrig, this`limitOrig
      ensures st == OsdescStatus(q, inl, ParamsOf(q, inl, g), pages)
      ensures st.Done? ==> Ready(q, Now(), pages, g)
    {
      ghost var b, params := Now(), ParamsOf(q, inl, g);
      var desc, limit;
      st, desc, limit := KernelDescriptor(params);
      if !st.Done? {
        return;
      }
      var runs, n;
      st, runs, n := RunBytes(pages, q.h.maxAux - OSDESC_PARAMS_SIZE);
      if !st.Done? {
        return;
      }
      AttachRuns(runs, n, OSDESC_PARAMS_SIZE, desc, limit);
      KernelReady(q, b, runs, n, desc, limit, pages, g);
    }

    /** The userspace form's checks on its inline block. */
    method UserDescriptor() returns (st: Status, pmem: nat, limit: nat)
      requires |inl| == q.size
      ensures st == UserCheck(q, inl)
      ensures st.Done? ==> pmem == Rd64(inl, q.h.osdescPmemOff) && limit == Rd64(inl, q.h.osdescLimitOff)
    {
      pmem, limit := 0, 0;
      if !RangeValid(0, 4, q.size) || !RangeValid(q.h.osdescPmemOff, 8, q.size) || !RangeValid(q.h.osdescLimitOff, 8, q.size)
         || !RangeValid(q.h.osdescStatusOff, 4, q.size) || !RangeValid(q.h.osdescHandleOff, 4, q.size) {
        return Failed(EINVAL), pmem, limit;
      }
      pmem := Rd64(inl, q.h.osdescPmemOff);
      limit := Rd64(inl, q.h.osdescLimitOff);
      var dlen := if limit + 1 < U64 then limit + 1 else 0;   // the sum wraps
      st := if pmem == 0 || dlen == 0 || dlen % PageRuns.PAGE != 0 || pmem % PageRuns.PAGE != 0 then Failed(EINVAL) else Done;
    }

    /** The userspace form: only runs, no params. */
    method GatherOsdescUser(pages: Pinned, ghost g: Mem) returns (st: Status)
      requires BeforeOsdesc(g) && FormOf(q, inl).UserForm?
      modifies this`aux, this`paramsLen, this`runCount, this`pmemOrig, this`limitOrig
      ensures st == OsdescStatus(q, inl, ParamsOf(q, inl, g), pages)
      ensures st.Done? ==> Ready(q, Now(), pages, g)
    {
      ghost var b := Now();
      var pmem, limit;
      st, pmem, limit := UserDescriptor();
      if !st.Done? {
        return;
      }
      var runs, n;
      st, runs, n := RunBytes(pages, q.h.maxAux);
      if !st.Done? {
        return;
      }
      AttachRuns(runs, n, 0, pmem, limit);
      assert old(aux)[..0] + runs == runs;
      UserReady(q, b, runs, n, pmem, limit, pages, g);
    }

    /** `gather_osdesc`. */
    method GatherOsdesc(pages: Pinned, ghost g: Mem) returns (st: Status)
      requires BeforeOsdesc(g)
      modifies this`aux, this`paramsLen, this`runCount, this`pmemOrig, this`limitOrig
      ensures st == OsdescStatus(q, inl, ParamsOf(q, inl, g), pages)
      ensures st.Done? && FormOf(q, inl).NoDescriptor? ==> Now() == old(Now())
      ensures st.Done? ==> Ready(q, Now(), pages, g)
    {
      var d := q.Desc();
      if q.kern && d.Some? && q.nr == ESC_ALLOC && HCLASS_OFF + 4 <= q.size && Rd32(inl, HCLASS_OFF) == q.h.osdescClass {
        st := GatherOsdescKernel(pages, g);
        return;
      }
      if d.None? || !IsOsdesc(d.value.flags) {
        return Done;
      }
      if !RangeValid(d.value.embLenOff, 4, q.size) {
        return Failed(EINVAL);
      }
      if Rd32(inl, d.value.embLenOff) != q.h.osdescClass {
        return Done;
      }
      if q.kern {
        return Failed(EOPNOTSUPP);
      }
      st := GatherOsdescUser(pages, g);
    }

    /** Nothing has been gathered yet. */
    ghost predicate Fresh()
      reads this
    {
      Now() == Blocks([], [], 0, NONE, 0, NONE, [0, 0, 0, 0], NONE, [], [], 0, 0, 0)
    }

    /** The inline block is there with its fd, and nothing else. */
    ghost predicate InlineOnly(files: Files, g: Mem)
      reads this
    {
      && InlineRead(q, Now(), g) && FdRead(Now()) && |fdOrig| == 4 && fdOff == FdField(q)
      && (fdOff != NONE ==> fdToken == TokenOf(files, fdOrig))
      && embOff == NONE && nested == [] && aux == [] && paramsLen == 0 && auxFdOff == NONE && runCount == 0
    }

    /** Steps 1 and 2. */
    method GatherFirst(caller: Caller, files: Files) returns (st: Status)
      requires Fresh()
      modifies this`inl, this`fdOff, this`fdOrig, this`fdToken
      ensures st == if !Mapped(caller.mem, q.addr, q.size) then Fault else InlineFdStatus(q, files, Fetch(caller.mem, q.addr, q.size))
      ensures st.Done? ==> InlineOnly(files, caller.mem)
    {
      st := GatherInline(caller);
      if !st.Done? {
        return;
      }
      st := GatherFd(files);
    }

    /** Steps 3 and 4. */
    method GatherRest(caller: Caller, files: Files, kthread: bool, pages: Pinned) returns (st: Status)
      requires TablesFit(q) && InlineOnly(files, caller.mem)
      modifies this`aux, this`paramsLen, this`embOff, this`savedPtr, this`nested, this`auxFdOff, this`auxFdOrig, this`auxFdToken,
               this`runCount, this`pmemOrig, this`limitOrig
      ensures var s := EmbeddedStatus(q, files, kthread, inl, caller.mem);
        st == if !s.Done? then s else OsdescStatus(q, inl, ParamsOf(q, inl, caller.mem), pages)
      ensures st.Done? ==> Ready(q, Now(), pages, caller.mem) && AuxTokenIs(files)
    {
      st := GatherEmbedded(caller, files, kthread);
      if !st.Done? {
        return;
      }
      EmbeddedGathered(q, Now(), caller.mem);
      st := GatherOsdesc(pages, caller.mem);
    }

    /**
     * Steps 1 to 4 of `nvrm_call_run`: the refusal is the first one the tables ask for, and
     * otherwise everything the tables name, and nothing else, was read from the caller.
     */
    method Gather(caller: Caller, files: Files, kthread: bool, pages: Pinned) returns (st: Status)
      requires TablesFit(q) && Fresh()
      modifies this
      ensures st == GatherStatus(q, files, kthread, pages, caller.mem)
      ensures st.Done? ==> Ready(q, Now(), pages, caller.mem) && Shaped(q, Now())
      ensures st.Done? ==> AuxTokenIs(files) && (fdOff != NONE ==> fdToken == TokenOf(files, fdOrig))
    {
      st := GatherFirst(caller, files);
      if !st.Done? {
        return;
      }
      st := GatherRest(caller, files, kthread, pages);
      if st.Done? { GatheredFits(q, Now(), caller.mem); }
    }

    /** The reply is in `aux`, with the first `i` nested pointers put back. */
    ghost predicate Restoring(b: Blocks, answer: seq<byte>, i: nat)
      reads this
    {
      Shaped(q, b) && HasParams(b) && nested == b.nested && i <= |b.nested| && aux == RestorePtrs(Merge(b.aux, answer), b.nested, i)
    }

    /** One nested buffer out, its pointer back into the params. */
    method WriteOne(caller: Caller, i: nat, ghost w: Write) returns (ok: bool, ghost k: nat)
      requires i < |nested| && nested[i].auxOff + nested[i].len <= |aux| && nested[i].ptrOff + 8 <= |aux|
      requires w == Write(nested[i].gva, aux[nested[i].auxOff..nested[i].auxOff + nested[i].len])
      modifies this`aux, caller
      ensures ok ==> aux == Wr64(old(aux), nested[i].ptrOff, nested[i].gva)
      ensures Copied(old(caller.mem), caller.sealed, caller.mem, w, ok, k)
    {
      ok, k := caller.CopyOut(Write(nested[i].gva, aux[nested[i].auxOff..nested[i].auxOff + nested[i].len]));
      if ok {
        aux := Wr64(aux, nested[i].ptrOff, nested[i].gva);
      }
    }

    /** Steps 1 and 2 of `write_back`. */
    method WriteNested(caller: Caller, reply: Reply, ghost b: Blocks, ghost ws: seq<Write>)
      returns (ok: bool, ghost p: Progress)
      requires Restoring(b, reply.aux, 0) && IsWriteBack(q, b, reply, ws)
      modifies this`aux, caller
      ensures Wrote(old(caller.mem), caller.sealed, caller.mem, ws, |b.nested|, ok, p)
      ensures ok ==> Restoring(b, reply.aux, |b.nested|)
    {
      ok, p := true, Complete;
      for i := 0 to |nested|
        invariant Restoring(b, reply.aux, i)
        invariant ok && Wrote(old(caller.mem), caller.sealed, caller.mem, ws, i, ok, p)
      {
        NestedCopy(q, b, reply, ws, i);
        NextRestored(q, b, reply.aux, i);
        ghost var k, m: Mem := 0, caller.mem;
        ok, k := WriteOne(caller, i, ws[i]);
        p := if ok then Complete else Faulted(i, k);
        WroteNext(old(caller.mem), caller.sealed, m, caller.mem, ws, i, ok, k);
        if !ok {
          return;
        }
      }
    }

    /** Steps 3 and 4: the fd number back into the params, the params out. */
    method WriteParams(caller: Caller, reply: Reply, ghost b: Blocks, ghost ws: seq<Write>)
      returns (ok: bool, ghost k: nat)
      requires Restoring(b, reply.aux, |b.nested|) && IsWriteBack(q, b, reply, ws)
      requires savedPtr == b.savedPtr && paramsLen == b.paramsLen && auxFdOff == b.auxFdOff && auxFdOrig == b.auxFdOrig
      modifies this`aux, caller
      ensures Copied(old(caller.mem), caller.sealed, caller.mem, ws[|b.nested|], ok, k)
    {
      if auxFdOff != NONE {
        aux := Splice(aux, auxFdOff, auxFdOrig);
      }
      assert ws[|b.nested|] == Copy(q, b, reply, |b.nested|);
      ok, k := caller.CopyOut(Write(savedPtr, aux[..paramsLen]));
    }

    /** The fd number and the OS-descriptor words back into the inline block. */
    method RestoreInline()
      requires InlineFits(q, Now(), |inl|) && |inl| == q.size
      modifies this`inl
      ensures inl == PutOsdesc(q, old(Now()), PutFd(old(Now()), old(inl)))
    {
      if fdOff != NONE && RangeValid(fdOff, 4, q.size) {
        inl := Splice(inl, fdOff, fdOrig);
      }
      if runCount > 0 && !q.kern {
        inl := Wr64(inl, q.h.osdescPmemOff, pmemOrig);
        inl := Wr64(inl, q.h.osdescLimitOff, limitOrig);
      }
    }

    /** The last copy: the inline block with its fields back. */
    method WriteInline(caller: Caller, ghost w: Write) returns (ok: bool, ghost k: nat)
      requires InlineFits(q, Now(), |inl|) && |inl| == q.size
      requires w == Write(q.addr, PutOsdesc(q, Now(), PutFd(Now(), inl)))
      modifies this`inl, caller
      ensures inl == w.bytes
      ensures Copied(old(caller.mem), caller.sealed, caller.mem, w, ok, k)
    {
      RestoreInline();
      ok, k := caller.CopyOut(Write(q.addr, inl));
    }

    /** All copies but the inline block. */
    method WriteBehind(caller: Caller, reply: Reply, ghost b: Blocks, ghost ws: seq<Write>)
      returns (ok: bool, ghost p: Progress)
      requires Restoring(b, reply.aux, 0) && IsWriteBack(q, b, reply, ws)
      requires savedPtr == b.savedPtr && paramsLen == b.paramsLen && auxFdOff == b.auxFdOff && auxFdOrig == b.auxFdOrig
      modifies this`aux, caller
      ensures Wrote(old(caller.mem), caller.sealed, caller.mem, ws, |b.nested| + 1, ok, p)
    {
      ok, p := WriteNested(caller, reply, b, ws);
      if !ok {
        FaultStays(old(caller.mem), caller.sealed, caller.mem, ws, |b.nested|, |b.nested| + 1, p);
        return;
      }
      ghost var k, m: Mem := 0, caller.mem;
      ok, k := WriteParams(caller, reply, b, ws);
      p := if ok then Complete else Faulted(|b.nested|, k);
      WroteNext(old(caller.mem), caller.sealed, m, caller.mem, ws, |b.nested|, ok, k);
    }

    /** `write_back`: exactly the copies of `Copy`, in order, up to the first fault. */
    method WriteBack(caller: Caller, reply: Reply) returns (ok: bool, ghost ws: seq<Write>, ghost p: Progress)
      requires Shaped(q, Now())
      modifies this, caller
      ensures IsWriteBack(q, old(Now()), reply, ws) && Wrote(old(caller.mem), caller.sealed, caller.mem, ws, |ws|, ok, p)
      ensures ok ==> inl == FinalInl(q, old(Now()), Merge(old(inl), reply.inl))
    {
      ghost var b := Now();
      CopiesExist(q, b, reply);
      ws :| IsWriteBack(q, b, reply, ws);
      inl := Merge(inl, reply.inl);
      aux := Merge(aux, reply.aux);
      p := Complete;
      if embOff != NONE && savedPtr != 0 {
        ok, p := WriteBehind(caller, reply, b, ws);
        if !ok {
          FaultStays(old(caller.mem), caller.sealed, caller.mem, ws, |b.nested| + 1, |ws|, p);
          return;
        }
        inl := Wr64(inl, embOff, savedPtr);
      }
      ghost var last, k, m: Mem := Copies(b) - 1, 0, caller.mem;
      assert inl == PutPtr(b, Merge(b.inl, reply.inl));
      assert ws[last] == Copy(q, b, reply, last);
      ok, k := WriteInline(caller, ws[last]);
      p := if ok then Complete else Faulted(last, k);
      WroteNext(old(caller.mem), caller.sealed, m, caller.mem, ws, last, ok, k);
    }

    /**
     * A whole call, whatever the host replies.  It is refused exactly as the tables say, and a refusal
     * leaves the caller's memory alone.  Otherwise only the caller's own buffers change.  Where these do
     * not overlap every byte holds the reply's byte as far as the write-back got, a field that the tables
     * name for this call never does, and the write-back fails exactly at the first buffer that cannot be
     * written.
     */
    method Run(caller: Caller, files: Files, kthread: bool, pages: Pinned, reply: Reply)
      returns (st: Status, ok: bool, ghost b: Blocks, ghost p: Progress)
      requires TablesFit(q) && Fresh()
      modifies this, caller
      ensures st == GatherStatus(q, files, kthread, pages, old(caller.mem))
      ensures caller.mem.Keys == old(caller.mem.Keys)
      ensures !st.Done? ==> caller.mem == old(caller.mem)
      ensures st.Done? ==> Ready(q, b, pages, old(caller.mem)) && AllCarried(q, b, ParamsOf(q, b.inl, old(caller.mem)))
      ensures st.Done? ==> Promises(q, b.inl, reply, old(caller.mem), caller.sealed, caller.mem, ok, p)
    {
      ok, p := false, Complete;
      st := Gather(caller, files, kthread, pages);
      b := Now();
      if !st.Done? {
        return;
      }
      ghost var g, ws := caller.mem, [];
      ok, ws, p := WriteBack(caller, reply);
      WholeCall(q, b, pages, reply, ws, g, caller.sealed, caller.mem, ok, p);
    }
  }
}
