/**
 * The descriptor-table stream: the host serialises four row lists behind a
 * checksummed header, the guest parses the bytes in place.
 */
module Tables {
  import opened Common
  import opened Bytes

  const HDR_LEN: nat := 96
  const HDR_WORDS: nat := 24
  const MAGIC: u32 := 0x5452564e
  const VERSION: u32 := 1
  const MAX_NESTED: nat := 4
  const MAX_PAYLOAD: nat := 16384
  const MAX_AUX: nat := 1048576
  const XFER_HEADER_MAX: nat := 64

  datatype IoctlDesc = IoctlDesc(
    dev: u32, nr: u32, size: u32, fdOff: u32, embPtrOff: u32, embLenKind: u32,
    embLenOff: u32, cmdOff: u32, rightsOff: u32, rightsIfSize: u32, handleOff: u32, flags: u32)

  datatype ClassDesc = ClassDesc(hclass: u32, paramSize: u32, fdOff: u32, flags: u32, fdIfOff: u32, fdIfVal: u32)

  datatype CtrlDesc = CtrlDesc(cmd: u32, first: u32, count: u32, flags: u32, fdOff: u32)

  datatype NestedRow = NestedRow(ptrOff: u32, lenKind: u32, lenOff: u32, elem: u32)

  datatype Parts = Parts(ioctls: seq<IoctlDesc>, classes: seq<ClassDesc>, ctrls: seq<CtrlDesc>, nested: seq<NestedRow>)

  datatype Header = Header(
    magic: u32, version: u32, totalLen: u32, checksum: u32,
    nIoctl: u32, nClass: u32, nCtrl: u32, nNested: u32,
    xferNr: u32, xferStructLen: u32, xferCmdOff: u32, xferSizeOff: u32, xferPtrOff: u32, maxIoctlSize: u32,
    osdescClass: u32, osdescPmemOff: u32, osdescLimitOff: u32, osdescStatusOff: u32, osdescHandleOff: u32,
    maxInline: u32, maxAux: u32, maxNested: u32, pad0: u32, pad1: u32)

  // ------------------------------------------------------------ words on the wire

  function PutWords(ws: seq<u32>): (b: seq<byte>)
    ensures |b| == 4 * |ws|
  {
    if ws == [] then [] else Encode(ws[0], 4) + PutWords(ws[1..])
  }

  function GetWords(b: seq<byte>, off: nat, n: nat): (ws: seq<u32>)
    requires off + 4 * n <= |b|
    ensures |ws| == n
    decreases |b| - off
  {
    if n == 0 then [] else [Rd32(b, off)] + GetWords(b, off + 4, n - 1)
  }

  /** A slice that starts with `x` and goes on with `y`. */
  lemma Cut<T>(s: seq<T>, off: nat, x: seq<T>, y: seq<T>)
    requires off + |x| + |y| <= |s| && s[off..off + |x| + |y|] == x + y
    ensures s[off..off + |x|] == x && s[off + |x|..off + |x| + |y|] == y
  {
    assert s[off..off + |x|] == s[off..off + |x| + |y|][..|x|];
    assert s[off + |x|..off + |x| + |y|] == s[off..off + |x| + |y|][|x|..];
  }

  /** Words written at `off` are read back there. */
  lemma {:induction false} GetPut(b: seq<byte>, off: nat, ws: seq<u32>)
    requires off + 4 * |ws| <= |b| && b[off..off + 4 * |ws|] == PutWords(ws)
    ensures GetWords(b, off, |ws|) == ws
    decreases |ws|
  {
    if ws != [] {
      Cut(b, off, Encode(ws[0], 4), PutWords(ws[1..]));
      Rd32OfEncode(b, off, ws[0]);
      GetPut(b, off + 4, ws[1..]);
    }
  }

  /** Bytes read as words and written again are the same bytes. */
  lemma {:induction false} PutGet(b: seq<byte>, off: nat, n: nat)
    requires off + 4 * n <= |b|
    ensures PutWords(GetWords(b, off, n)) == b[off..off + 4 * n]
    decreases n
  {
    if n > 0 {
      PutGet(b, off + 4, n - 1);
      assert GetWords(b, off, n)[1..] == GetWords(b, off + 4, n - 1);
      EncodeDecode(b[off..off + 4]);
      assert b[off..off + 4 * n] == b[off..off + 4] + b[off + 4..off + 4 + 4 * (n - 1)];
    }
  }

  lemma {:induction false} PutWordsAppend(v: seq<u32>, w: seq<u32>)
    ensures PutWords(v + w) == PutWords(v) + PutWords(w)
    decreases |v|
  {
    if v == [] {
      assert v + w == w;
    } else {
      assert (v + w)[1..] == v[1..] + w;
      PutWordsAppend(v[1..], w);
    }
  }

  /** The words of a piece are the piece of the words. */
  lemma {:induction false} GetWordsSlice(b: seq<byte>, off: nat, n: nat, k: nat, m: nat)
    requires off + 4 * n <= |b| && k + m <= n
    ensures GetWords(b, off, n)[k..k + m] == GetWords(b, off + 4 * k, m)
    decreases n
  {
    if k > 0 {
      GetWordsSlice(b, off + 4, n - 1, k - 1, m);
      assert GetWords(b, off, n)[k..k + m] == GetWords(b, off + 4, n - 1)[k - 1..k - 1 + m];
    } else if m > 0 {
      GetWordsSlice(b, off + 4, n - 1, 0, m - 1);
      assert GetWords(b, off, n)[..m] == [Rd32(b, off)] + GetWords(b, off + 4, n - 1)[..m - 1];
    }
  }

  // ---------------------------------------------------------------- rows of words

  predicate Width<T>(rows: seq<seq<T>>, w: nat) {
    forall i :: 0 <= i < |rows| ==> |rows[i]| == w
  }

  function Flat<T>(rows: seq<seq<T>>): seq<T> {
    if rows == [] then [] else rows[0] + Flat(rows[1..])
  }

  /** Where row `i` of a table of `w`-word rows starts. */
  function RowOff(w: nat, i: nat): nat {
    if i == 0 then 0 else RowOff(w, i - 1) + w
  }

  lemma {:induction false} RowOffs(w: nat, i: nat, n: nat)
    requires i < n
    ensures RowOff(w, i) + w <= RowOff(w, n)
    decreases n
  {
    if i < n - 1 { RowOffs(w, i, n - 1); }
  }

  lemma {:induction false} RowOffIs(w: nat, i: nat)
    ensures RowOff(w, i) == w * i
    decreases i
  {
    if i > 0 {
      RowOffIs(w, i - 1);
      assert w * i == w * (i - 1) + w;
    }
  }

  lemma {:induction false} FlatLength<T>(rows: seq<seq<T>>, w: nat)
    requires Width(rows, w)
    ensures |Flat(rows)| == RowOff(w, |rows|)
    decreases |rows|
  {
    if rows != [] { FlatLength(rows[1..], w); }
  }

  function Chop<T>(s: seq<T>, w: nat, n: nat): (rows: seq<seq<T>>)
    requires |s| == RowOff(w, n)
    ensures |rows| == n && Width(rows, w)
    decreases n
  {
    if n == 0 then [] else [s[..w]] + Chop(s[w..], w, n - 1)
  }

  /** A view indexes the words directly. */
  lemma {:induction false} ChopAt<T>(s: seq<T>, w: nat, n: nat, i: nat)
    requires |s| == RowOff(w, n) && i < n
    ensures RowOff(w, i) + w <= |s| && Chop(s, w, n)[i] == s[RowOff(w, i)..RowOff(w, i) + w]
    decreases n
  {
    RowOffs(w, i, n);
    if i > 0 {
      ChopAt(s[w..], w, n - 1, i - 1);
      var o := RowOff(w, i - 1);
      SubSlice(s, w, |s|, o, w);
      assert s[w..] == s[w..|s|];
    }
  }

  /** A slice of a slice. */
  lemma SubSlice<T>(s: seq<T>, a: nat, b: nat, k: nat, n: nat)
    requires a <= b <= |s| && k + n <= b - a
    ensures s[a..b][k..k + n] == s[a + k..a + k + n]
  {
    var l, r := s[a..b][k..k + n], s[a + k..a + k + n];
    assert forall j :: 0 <= j < n ==> l[j] == s[a + k + j] && r[j] == s[a + k + j];
    assert l == r;
  }

  lemma {:induction false} ChopFlat<T>(rows: seq<seq<T>>, w: nat)
    requires Width(rows, w)
    ensures |Flat(rows)| == RowOff(w, |rows|) && Chop(Flat(rows), w, |rows|) == rows
    decreases |rows|
  {
    FlatLength(rows, w);
    if rows != [] {
      ChopFlat(rows[1..], w);
      assert Flat(rows)[..w] == rows[0] && Flat(rows)[w..] == Flat(rows[1..]);
    }
  }

  lemma {:induction false} FlatChop<T>(s: seq<T>, w: nat, n: nat)
    requires |s| == RowOff(w, n)
    ensures Flat(Chop(s, w, n)) == s
    decreases n
  {
    if n > 0 {
      FlatChop(s[w..], w, n - 1);
      assert s == s[..w] + s[w..];
    }
  }

  // --------------------------------------------------------- records as word rows

  function IoctlWords(d: IoctlDesc): (ws: seq<u32>)
    ensures |ws| == 12
  {
    [d.dev, d.nr, d.size, d.fdOff, d.embPtrOff, d.embLenKind, d.embLenOff, d.cmdOff, d.rightsOff, d.rightsIfSize, d.handleOff, d.flags]
  }

  function IoctlOf(ws: seq<u32>): IoctlDesc
    requires |ws| == 12
  {
    IoctlDesc(ws[0], ws[1], ws[2], ws[3], ws[4], ws[5], ws[6], ws[7], ws[8], ws[9], ws[10], ws[11])
  }

  function ClassWords(c: ClassDesc): (ws: seq<u32>)
    ensures |ws| == 6
  {
    [c.hclass, c.paramSize, c.fdOff, c.flags, c.fdIfOff, c.fdIfVal]
  }

  function ClassOf(ws: seq<u32>): ClassDesc
    requires |ws| == 6
  {
    ClassDesc(ws[0], ws[1], ws[2], ws[3], ws[4], ws[5])
  }

  function CtrlWords(c: CtrlDesc): (ws: seq<u32>)
    ensures |ws| == 5
  {
    [c.cmd, c.first, c.count, c.flags, c.fdOff]
  }

  function CtrlOf(ws: seq<u32>): CtrlDesc
    requires |ws| == 5
  {
    CtrlDesc(ws[0], ws[1], ws[2], ws[3], ws[4])
  }

  function NestedWords(n: NestedRow): (ws: seq<u32>)
    ensures |ws| == 4
  {
    [n.ptrOff, n.lenKind, n.lenOff, n.elem]
  }

  function NestedOf(ws: seq<u32>): NestedRow
    requires |ws| == 4
  {
    NestedRow(ws[0], ws[1], ws[2], ws[3])
  }

  function IoctlRows(ds: seq<IoctlDesc>): (r: seq<seq<u32>>)
    ensures |r| == |ds| && Width(r, 12)
  {
    seq(|ds|, i requires 0 <= i < |ds| => IoctlWords(ds[i]))
  }

  function ClassRows(ds: seq<ClassDesc>): (r: seq<seq<u32>>)
    ensures |r| == |ds| && Width(r, 6)
  {
    seq(|ds|, i requires 0 <= i < |ds| => ClassWords(ds[i]))
  }

  function CtrlRows(ds: seq<CtrlDesc>): (r: seq<seq<u32>>)
    ensures |r| == |ds| && Width(r, 5)
  {
    seq(|ds|, i requires 0 <= i < |ds| => CtrlWords(ds[i]))
  }

  function NestedRows(ds: seq<NestedRow>): (r: seq<seq<u32>>)
    ensures |r| == |ds| && Width(r, 4)
  {
    seq(|ds|, i requires 0 <= i < |ds| => NestedWords(ds[i]))
  }

  function Ioctls(rows: seq<seq<u32>>): (ds: seq<IoctlDesc>)
    requires Width(rows, 12)
    ensures |ds| == |rows| && forall i :: 0 <= i < |rows| ==> ds[i] == IoctlOf(rows[i])
  {
    seq(|rows|, i requires 0 <= i < |rows| => IoctlOf(rows[i]))
  }

  function Classes(rows: seq<seq<u32>>): (ds: seq<ClassDesc>)
    requires Width(rows, 6)
    ensures |ds| == |rows| && forall i :: 0 <= i < |rows| ==> ds[i] == ClassOf(rows[i])
  {
    seq(|rows|, i requires 0 <= i < |rows| => ClassOf(rows[i]))
  }

  function Ctrls(rows: seq<seq<u32>>): (ds: seq<CtrlDesc>)
    requires Width(rows, 5)
    ensures |ds| == |rows| && forall i :: 0 <= i < |rows| ==> ds[i] == CtrlOf(rows[i])
  {
    seq(|rows|, i requires 0 <= i < |rows| => CtrlOf(rows[i]))
  }

  function Nesteds(rows: seq<seq<u32>>): (ds: seq<NestedRow>)
    requires Width(rows, 4)
    ensures |ds| == |rows| && forall i :: 0 <= i < |rows| ==> ds[i] == NestedOf(rows[i])
  {
    seq(|rows|, i requires 0 <= i < |rows| => NestedOf(rows[i]))
  }

  /** The four tables as bare words. */
  datatype Raw = Raw(i: seq<seq<u32>>, c: seq<seq<u32>>, t: seq<seq<u32>>, n: seq<seq<u32>>) {
    predicate Shaped() { Width(i, 12) && Width(c, 6) && Width(t, 5) && Width(n, 4) }
  }

  function RawOf(p: Parts): (r: Raw)
    ensures r.Shaped()
  {
    Raw(IoctlRows(p.ioctls), ClassRows(p.classes), CtrlRows(p.ctrls), NestedRows(p.nested))
  }

  function Typed(r: Raw): Parts
    requires r.Shaped()
  {
    Parts(Ioctls(r.i), Classes(r.c), Ctrls(r.t), Nesteds(r.n))
  }

  lemma TypedRaw(p: Parts)
    ensures Typed(RawOf(p)) == p
  {
    assert Ioctls(IoctlRows(p.ioctls)) == p.ioctls;
    assert Classes(ClassRows(p.classes)) == p.classes;
    assert Ctrls(CtrlRows(p.ctrls)) == p.ctrls;
    assert Nesteds(NestedRows(p.nested)) == p.nested;
  }

  lemma RawTyped(r: Raw)
    requires r.Shaped()
    ensures RawOf(Typed(r)) == r
  {
    forall k | 0 <= k < |r.i| ensures IoctlRows(Ioctls(r.i))[k] == r.i[k] { assert IoctlWords(IoctlOf(r.i[k])) == r.i[k]; }
    forall k | 0 <= k < |r.c| ensures ClassRows(Classes(r.c))[k] == r.c[k] { assert ClassWords(ClassOf(r.c[k])) == r.c[k]; }
    forall k | 0 <= k < |r.t| ensures CtrlRows(Ctrls(r.t))[k] == r.t[k] { assert CtrlWords(CtrlOf(r.t[k])) == r.t[k]; }
    forall k | 0 <= k < |r.n| ensures NestedRows(Nesteds(r.n))[k] == r.n[k] { assert NestedWords(NestedOf(r.n[k])) == r.n[k]; }
  }

  function HeaderWords(h: Header): (ws: seq<u32>)
    ensures |ws| == HDR_WORDS
  {
    [h.magic, h.version, h.totalLen, h.checksum, h.nIoctl, h.nClass, h.nCtrl, h.nNested,
     h.xferNr, h.xferStructLen, h.xferCmdOff, h.xferSizeOff, h.xferPtrOff, h.maxIoctlSize,
     h.osdescClass, h.osdescPmemOff, h.osdescLimitOff, h.osdescStatusOff, h.osdescHandleOff,
     h.maxInline, h.maxAux, h.maxNested, h.pad0, h.pad1]
  }

  function HeaderOf(ws: seq<u32>): Header
    requires |ws| == HDR_WORDS
  {
    Header(ws[0], ws[1], ws[2], ws[3], ws[4], ws[5], ws[6], ws[7], ws[8], ws[9], ws[10], ws[11],
           ws[12], ws[13], ws[14], ws[15], ws[16], ws[17], ws[18], ws[19], ws[20], ws[21], ws[22], ws[23])
  }

  // ------------------------------------------------------------------ the stream

  function Xor(h: u32, x: byte): u32 {
    h - h % 256 + ((h % 256) as bv8 ^ x as bv8) as int
  }

  function FnvStep(h: u32, x: byte): u32 { (Xor(h, x) * 0x01000193) % U32 }

  /** FNV-1a, 32 bit. */
  function Checksum(b: seq<byte>): u32 {
    if b == [] then 0x811c9dc5 else FnvStep(Checksum(b[..|b| - 1]), b[|b| - 1])
  }

  /** `x as u32`. */
  function Low32(n: nat): u32 { if n < U32 then n else n % U32 }

  function RawBody(r: Raw): seq<u32> {
    Flat(r.i) + Flat(r.c) + Flat(r.t) + Flat(r.n)
  }

  function Body(p: Parts): seq<byte> { PutWords(RawBody(RawOf(p))) }

  function HeaderFor(p: Parts, totalLen: u32, checksum: u32): Header {
    Header(MAGIC, VERSION, totalLen, checksum,
           Low32(|p.ioctls|), Low32(|p.classes|), Low32(|p.ctrls|), Low32(|p.nested|),
           211, 16, 0, 4, 8, 16384,
           0x71, 24, 32, 40, 8,
           MAX_PAYLOAD, MAX_AUX, MAX_NESTED, 0, 0)
  }

  /** A header in front of a body. */
  function Framed(h: Header, body: seq<byte>): seq<byte> { PutWords(HeaderWords(h)) + body }

  function StreamHeader(p: Parts): Header { HeaderFor(p, Low32(HDR_LEN + |Body(p)|), Checksum(Body(p))) }

  function Stream(p: Parts): seq<byte> { Framed(StreamHeader(p), Body(p)) }

  function HeaderAt(b: seq<byte>): Header
    requires |b| >= HDR_LEN
  {
    HeaderOf(GetWords(b, 0, HDR_WORDS))
  }

  // Word offsets of the views, and of the end of the stream.

  function ClassesOff(h: Header): nat { HDR_WORDS + RowOff(12, h.nIoctl) }

  function CtrlsOff(h: Header): nat { ClassesOff(h) + RowOff(6, h.nClass) }

  function NestedOff(h: Header): nat { CtrlsOff(h) + RowOff(5, h.nCtrl) }

  function End(h: Header): nat { NestedOff(h) + RowOff(4, h.nNested) }

  /** The four views of a stream's words. */
  function RawAt(ws: seq<u32>, h: Header): (r: Raw)
    requires End(h) == |ws|
    ensures r.Shaped() && |r.i| == h.nIoctl && |r.c| == h.nClass && |r.t| == h.nCtrl && |r.n| == h.nNested
  {
    Raw(Chop(ws[HDR_WORDS..ClassesOff(h)], 12, h.nIoctl), Chop(ws[ClassesOff(h)..CtrlsOff(h)], 6, h.nClass),
        Chop(ws[CtrlsOff(h)..NestedOff(h)], 5, h.nCtrl), Chop(ws[NestedOff(h)..End(h)], 4, h.nNested))
  }

  /** The counts in the header agree with the length of the stream. */
  predicate Whole(b: seq<byte>) {
    |b| >= HDR_LEN && 4 * End(HeaderAt(b)) == |b|
  }

  /** The rows the guest's four views show. */
  function Lists(b: seq<byte>): Parts
    requires Whole(b)
  {
    Typed(RawAt(GetWords(b, 0, End(HeaderAt(b))), HeaderAt(b)))
  }

  datatype Verdict =
    | Accepted | TooShort | WrongMagic | UnknownVersion | WrongLength | WrongCounts | WrongChecksum
    | TooManyNested | LimitsTooBig | BadXfer | BadControl

  predicate CtrlFits(c: CtrlDesc, maxNested: nat, nNested: nat) {
    c.count <= maxNested && RangeValid(c.first, c.count, nNested)
  }

  predicate CtrlsFit(p: Parts, maxNested: nat) {
    forall i :: 0 <= i < |p.ctrls| ==> CtrlFits(p.ctrls[i], maxNested, |p.nested|)
  }

  predicate LimitsFit(h: Header) {
    h.maxInline <= MAX_PAYLOAD && h.maxIoctlSize <= MAX_PAYLOAD && h.maxAux <= MAX_AUX
  }

  predicate XferFits(h: Header) {
    && h.xferStructLen <= XFER_HEADER_MAX
    && RangeValid(h.xferCmdOff, 4, h.xferStructLen)
    && RangeValid(h.xferSizeOff, 4, h.xferStructLen)
    && RangeValid(h.xferPtrOff, 8, h.xferStructLen)
  }

  /** What the parser says of any byte string. */
  function Judge(b: seq<byte>): Verdict {
    if |b| < HDR_LEN then TooShort
    else
      var h := HeaderAt(b);
      if h.magic != MAGIC then WrongMagic
      else if h.version != VERSION then UnknownVersion
      else if h.totalLen != |b| then WrongLength
      else if 4 * End(h) != |b| then WrongCounts
      else if Checksum(b[HDR_LEN..]) != h.checksum then WrongChecksum
      else if h.maxNested > MAX_NESTED then TooManyNested
      else if !LimitsFit(h) then LimitsTooBig
      else if !XferFits(h) then BadXfer
      else if !CtrlsFit(Lists(b), h.maxNested) then BadControl
      else Accepted
  }

  // ------------------------------------------------------------------ round trips

  lemma Pieces<T>(s: seq<T>, h: seq<T>, i: seq<T>, c: seq<T>, t: seq<T>, n: seq<T>)
    requires s == h + (i + c + t + n)
    ensures s[|h|..|h| + |i|] == i
    ensures s[|h| + |i|..|h| + |i| + |c|] == c
    ensures s[|h| + |i| + |c|..|h| + |i| + |c| + |t|] == t
    ensures s[|h| + |i| + |c| + |t|..|h| + |i| + |c| + |t| + |n|] == n
  {
  }

  lemma Rejoin<T>(s: seq<T>, h: nat, i: nat, c: nat, t: nat)
    requires h <= i <= c <= t <= |s|
    ensures s[h..] == s[h..i] + s[i..c] + s[c..t] + s[t..|s|]
  {
  }

  /** A header whose counts are those of `r`. */
  predicate Counts(h: Header, r: Raw) {
    h.nIoctl == |r.i| && h.nClass == |r.c| && h.nCtrl == |r.t| && h.nNested == |r.n|
  }

  /** Any header with the right counts in front of a body shows the body's rows. */
  lemma RawBack(h: Header, head: seq<u32>, r: Raw)
    requires r.Shaped() && Counts(h, r) && |head| == HDR_WORDS
    ensures End(h) == |head + RawBody(r)| && RawAt(head + RawBody(r), h) == r
  {
    ChopFlat(r.i, 12);
    ChopFlat(r.c, 6);
    ChopFlat(r.t, 5);
    ChopFlat(r.n, 4);
    Pieces(head + RawBody(r), head, Flat(r.i), Flat(r.c), Flat(r.t), Flat(r.n));
  }

  lemma RawForth(ws: seq<u32>, h: Header)
    requires End(h) == |ws|
    ensures RawBody(RawAt(ws, h)) == ws[HDR_WORDS..]
  {
    FlatChop(ws[HDR_WORDS..ClassesOff(h)], 12, h.nIoctl);
    FlatChop(ws[ClassesOff(h)..CtrlsOff(h)], 6, h.nClass);
    FlatChop(ws[CtrlsOff(h)..NestedOff(h)], 5, h.nCtrl);
    FlatChop(ws[NestedOff(h)..End(h)], 4, h.nNested);
    Rejoin(ws, HDR_WORDS, ClassesOff(h), CtrlsOff(h), NestedOff(h));
  }

  lemma {:induction false} RowOffAtLeast(w: nat, n: nat)
    requires w > 0
    ensures n <= RowOff(w, n)
    decreases n
  {
    if n > 0 { RowOffAtLeast(w, n - 1); }
  }

  /** Lists of this size are written without truncating a count. */
  predicate FitsStream(p: Parts) { HDR_LEN + |Body(p)| < U32 }

  lemma CountsFit(r: Raw)
    requires r.Shaped() && |RawBody(r)| < U32
    ensures |r.i| < U32 && |r.c| < U32 && |r.t| < U32 && |r.n| < U32
  {
    FlatLength(r.i, 12);
    FlatLength(r.c, 6);
    FlatLength(r.t, 5);
    FlatLength(r.n, 4);
    RowOffAtLeast(12, |r.i|);
    RowOffAtLeast(6, |r.c|);
    RowOffAtLeast(5, |r.t|);
    RowOffAtLeast(4, |r.n|);
  }

  lemma HeaderWordsOf(ws: seq<u32>)
    requires |ws| == HDR_WORDS
    ensures HeaderWords(HeaderOf(ws)) == ws
  {
  }

  /** A byte string made of words, read back. */
  lemma WordsBack(head: seq<u32>, body: seq<u32>)
    ensures |PutWords(head) + PutWords(body)| == 4 * (|head| + |body|)
    ensures GetWords(PutWords(head) + PutWords(body), 0, |head| + |body|) == head + body
  {
    PutWordsAppend(head, body);
    var all := PutWords(head + body);
    assert all[0..0 + 4 * |head + body|] == all;
    GetPut(all, 0, head + body);
  }

  lemma HeadBack(head: seq<u32>, rest: seq<byte>)
    ensures GetWords(PutWords(head) + rest, 0, |head|) == head
  {
    var b := PutWords(head) + rest;
    assert b[0..0 + 4 * |head|] == PutWords(head);
    GetPut(b, 0, head);
  }

  lemma HeaderBack(h: Header, rest: seq<byte>)
    ensures HeaderAt(Framed(h, rest)) == h
  {
    HeadBack(HeaderWords(h), rest);
  }

  /** The views behind a header with the right counts show the lists of the body. */
  lemma ViewsShow(h: Header, p: Parts, b: seq<byte>)
    requires Counts(h, RawOf(p)) && b == Framed(h, Body(p))
    ensures Whole(b) && HeaderAt(b) == h && Lists(b) == p
  {
    var r := RawOf(p);
    HeaderBack(h, Body(p));
    WordsBack(HeaderWords(h), RawBody(r));
    RawBack(h, HeaderWords(h), r);
    TypedRaw(p);
  }

  /** The guest's views of a written stream show exactly the lists it was written from. */
  lemma StreamShows(p: Parts)
    requires FitsStream(p)
    ensures Whole(Stream(p)) && Lists(Stream(p)) == p
    ensures HeaderAt(Stream(p)) == HeaderFor(p, |Stream(p)|, Checksum(Body(p)))
  {
    CountsFit(RawOf(p));
    ViewsShow(StreamHeader(p), p, Stream(p));
  }

  /** Every stream written from lists that fit 32 bits is judged by its controls alone. */
  lemma SerializedIsParsed(p: Parts)
    requires FitsStream(p)
    ensures Judge(Stream(p)) == if CtrlsFit(p, MAX_NESTED) then Accepted else BadControl
    ensures Whole(Stream(p)) && Lists(Stream(p)) == p
  {
    StreamShows(p);
    assert Stream(p)[HDR_LEN..] == Body(p);
  }

  /** The other way round: the rows of an accepted stream write its body, byte for byte. */
  lemma ParsedIsSerialized(b: seq<byte>)
    requires Judge(b).Accepted?
    ensures Body(Lists(b)) == b[HDR_LEN..]
  {
    var h := HeaderAt(b);
    var ws := GetWords(b, 0, End(h));
    RawTyped(RawAt(ws, h));
    RawForth(ws, h);
    TailForth(b, HDR_WORDS, End(h));
  }

  lemma TailForth(b: seq<byte>, k: nat, n: nat)
    requires k <= n && 4 * n == |b|
    ensures PutWords(GetWords(b, 0, n)[k..]) == b[4 * k..]
  {
    GetWordsSlice(b, 0, n, k, n - k);
    assert GetWords(b, 0, n)[k..] == GetWords(b, 0, n)[k..k + (n - k)];
    PutGet(b, 4 * k, n - k);
    assert b[4 * k..] == b[4 * k..4 * k + 4 * (n - k)];
  }

  lemma HeaderForth(b: seq<byte>)
    requires |b| >= HDR_LEN
    ensures b[..HDR_LEN] == PutWords(HeaderWords(HeaderAt(b)))
  {
    PutGet(b, 0, HDR_WORDS);
    HeaderWordsOf(GetWords(b, 0, HDR_WORDS));
  }

  lemma Halves<T>(s: seq<T>, t: seq<T>, n: nat)
    requires n <= |s| && n <= |t| && s[..n] == t[..n] && s[n..] == t[n..]
    ensures s == t
  {
    assert s == s[..n] + s[n..] && t == t[..n] + t[n..];
  }

  /** Two accepted streams with equal headers and equal rows are the same bytes. */
  lemma AcceptedIsDetermined(b: seq<byte>, c: seq<byte>)
    requires Judge(b).Accepted? && Judge(c).Accepted? && HeaderAt(b) == HeaderAt(c) && Lists(b) == Lists(c)
    ensures b == c
  {
    ParsedIsSerialized(b);
    ParsedIsSerialized(c);
    HeaderForth(b);
    HeaderForth(c);
    Halves(b, c, HDR_LEN);
  }

  // ------------------------------------------------------------- lookups in a list

  function IoctlFor(ds: seq<IoctlDesc>, dev: u32, nr: u32): Option<IoctlDesc> {
    if ds == [] then None
    else if ds[0].dev == dev && ds[0].nr == nr then Some(ds[0])
    else IoctlFor(ds[1..], dev, nr)
  }

  function ClassFor(cs: seq<ClassDesc>, hclass: u32): Option<ClassDesc> {
    if cs == [] then None else if cs[0].hclass == hclass then Some(cs[0]) else ClassFor(cs[1..], hclass)
  }

  function CtrlFor(cs: seq<CtrlDesc>, cmd: u32): Option<CtrlDesc> {
    if cs == [] then None else if cs[0].cmd == cmd then Some(cs[0]) else CtrlFor(cs[1..], cmd)
  }

  // -------------------------------------------------------------- the host's writer

  lemma {:induction false} FlatOne<T>(rows: seq<seq<T>>, row: seq<T>)
    ensures Flat(rows + [row]) == Flat(rows) + row
    decreases |rows|
  {
    if rows == [] {
      assert [row][1..] == [];
    } else {
      assert (rows + [row])[1..] == rows[1..] + [row];
      FlatOne(rows[1..], row);
    }
  }

  method PushRow(v: seq<byte>, row: seq<u32>) returns (r: seq<byte>)
    ensures r == v + PutWords(row)
  {
    r := v;
    for i := 0 to |row|
      invariant r == v + PutWords(row[..i])
    {
      assert row[..i + 1] == row[..i] + [row[i]] && [row[i]][1..] == [];
      PutWordsAppend(row[..i], [row[i]]);
      r := r + Encode(row[i], 4);
    }
    assert row[..|row|] == row;
  }

  method PushRows(v: seq<byte>, rows: seq<seq<u32>>) returns (r: seq<byte>)
    ensures r == v + PutWords(Flat(rows))
  {
    r := v;
    for i := 0 to |rows|
      invariant r == v + PutWords(Flat(rows[..i]))
    {
      assert rows[..i + 1] == rows[..i] + [rows[i]];
      FlatOne(rows[..i], rows[i]);
      PutWordsAppend(Flat(rows[..i]), rows[i]);
      r := PushRow(r, rows[i]);
    }
    assert rows[..|rows|] == rows;
  }

  method Fnv1a32(b: seq<byte>) returns (h: u32)
    ensures h == Checksum(b)
  {
    h := 0x811c9dc5;
    for i := 0 to |b|
      invariant h == Checksum(b[..i])
    {
      assert b[..i + 1][..i] == b[..i];
      h := FnvStep(h, b[i]);
    }
    assert b[..|b|] == b;
  }

  lemma BodyIs(r: Raw)
    ensures PutWords(RawBody(r)) == PutWords(Flat(r.i)) + PutWords(Flat(r.c)) + PutWords(Flat(r.t)) + PutWords(Flat(r.n))
  {
    PutWordsAppend(Flat(r.i), Flat(r.c));
    PutWordsAppend(Flat(r.i) + Flat(r.c), Flat(r.t));
    PutWordsAppend(Flat(r.i) + Flat(r.c) + Flat(r.t), Flat(r.n));
  }

  method WriteBody(r: Raw) returns (body: seq<byte>)
    ensures body == PutWords(RawBody(r))
  {
    body := PushRows([], r.i);
    body := PushRows(body, r.c);
    body := PushRows(body, r.t);
    body := PushRows(body, r.n);
    BodyIs(r);
  }

  method Serialize(p: Parts) returns (bytes: seq<byte>, checksum: u32)
    ensures bytes == Stream(p) && checksum == Checksum(Body(p))
  {
    var body := WriteBody(RawOf(p));
    checksum := Fnv1a32(body);
    bytes := WriteFramed(HeaderFor(p, Low32(HDR_LEN + |body|), checksum), body);
  }

  method WriteFramed(h: Header, body: seq<byte>) returns (bytes: seq<byte>)
    ensures bytes == Framed(h, body)
  {
    var words := HeaderWords(h);
    bytes := PushRow([], words);
    bytes := bytes + body;
  }

  // ------------------------------------------------------------- the guest's reader

  function IoctlAt(b: seq<byte>, off: nat): IoctlDesc
    requires off + 48 <= |b|
  {
    IoctlOf(GetWords(b, off, 12))
  }

  function ClassAt(b: seq<byte>, off: nat): ClassDesc
    requires off + 24 <= |b|
  {
    ClassOf(GetWords(b, off, 6))
  }

  function CtrlAt(b: seq<byte>, off: nat): CtrlDesc
    requires off + 20 <= |b|
  {
    CtrlOf(GetWords(b, off, 5))
  }

  /** Row `i` of the table at word `o`, read in place. */
  lemma RowInPlace(b: seq<byte>, end: nat, o: nat, w: nat, n: nat, i: nat)
    requires 4 * end <= |b| && o + RowOff(w, n) <= end && i < n
    ensures RowOff(w, i) + w <= RowOff(w, n)
    ensures GetWords(b, 4 * (o + RowOff(w, i)), w) == Chop(GetWords(b, 0, end)[o..o + RowOff(w, n)], w, n)[i]
  {
    var ws := GetWords(b, 0, end);
    var k := RowOff(w, i);
    ChopAt(ws[o..o + RowOff(w, n)], w, n, i);
    SubSlice(ws, o, o + RowOff(w, n), k, w);
    GetWordsSlice(b, 0, end, o + k, w);
  }

  /** Its byte offset, by multiplication. */
  lemma ViewAt(b: seq<byte>, end: nat, o: nat, w: nat, n: nat, i: nat, off: nat)
    requires 4 * end <= |b| && o + RowOff(w, n) <= end && i < n && off == 4 * o + 4 * (w * i)
    ensures off + 4 * w <= |b| && GetWords(b, off, w) == Chop(GetWords(b, 0, end)[o..o + RowOff(w, n)], w, n)[i]
  {
    RowInPlace(b, end, o, w, n, i);
    RowOffIs(w, i);
    assert off == 4 * (o + RowOff(w, i));
  }

  /** Indexing a view never leaves the blob and gives the row of the list. */
  lemma IoctlView(b: seq<byte>, i: nat)
    requires Whole(b) && i < HeaderAt(b).nIoctl
    ensures HDR_LEN + 48 * i + 48 <= |b| && IoctlAt(b, HDR_LEN + 48 * i) == Lists(b).ioctls[i]
  {
    var h := HeaderAt(b);
    ViewAt(b, End(h), HDR_WORDS, 12, h.nIoctl, i, HDR_LEN + 48 * i);
  }

  lemma ClassView(b: seq<byte>, i: nat)
    requires Whole(b) && i < HeaderAt(b).nClass
    ensures 4 * ClassesOff(HeaderAt(b)) + 24 * i + 24 <= |b|
    ensures ClassAt(b, 4 * ClassesOff(HeaderAt(b)) + 24 * i) == Lists(b).classes[i]
  {
    var h := HeaderAt(b);
    ViewAt(b, End(h), ClassesOff(h), 6, h.nClass, i, 4 * ClassesOff(h) + 24 * i);
  }

  lemma CtrlView(b: seq<byte>, i: nat)
    requires Whole(b) && i < HeaderAt(b).nCtrl
    ensures 4 * CtrlsOff(HeaderAt(b)) + 20 * i + 20 <= |b|
    ensures CtrlAt(b, 4 * CtrlsOff(HeaderAt(b)) + 20 * i) == Lists(b).ctrls[i]
  {
    var h := HeaderAt(b);
    ViewAt(b, End(h), CtrlsOff(h), 5, h.nCtrl, i, 4 * CtrlsOff(h) + 20 * i);
  }

  /** The nested rows a control of an accepted stream names lie inside the blob. */
  lemma NestedInside(b: seq<byte>, i: nat, k: nat)
    requires Judge(b).Accepted? && i < |Lists(b).ctrls| && k < Lists(b).ctrls[i].count
    ensures k < MAX_NESTED && Lists(b).ctrls[i].first + k < |Lists(b).nested|
    ensures 4 * NestedOff(HeaderAt(b)) + 16 * (Lists(b).ctrls[i].first + k) + 16 <= |b|
  {
    var h := HeaderAt(b);
    assert CtrlFits(Lists(b).ctrls[i], h.maxNested, |Lists(b).nested|);
    var j := Lists(b).ctrls[i].first + k;
    RowOffs(4, j, h.nNested);
    RowOffIs(4, j);
  }

  class Views {
    const blob: seq<byte>
    var hdr: Header
    /** Byte offsets of the four views. */
    var ioctls: nat
    var classes: nat
    var ctrls: nat
    var nested: nat

    ghost predicate Ready()
      reads this
    {
      && Judge(blob).Accepted?
      && hdr == HeaderAt(blob)
      && ioctls == HDR_LEN && classes == 4 * ClassesOff(hdr) && ctrls == 4 * CtrlsOff(hdr) && nested == 4 * NestedOff(hdr)
    }

    constructor (b: seq<byte>)
      ensures blob == b
    {
      blob := b;
      hdr := Header(0, 0, 0, 0, 0, 0, 0, 0, 0, 0, 0, 0, 0, 0, 0, 0, 0, 0, 0, 0, 0, 0, 0, 0);
      ioctls, classes, ctrls, nested := 0, 0, 0, 0;
    }

    /** `nvrm_tables_parse`. */
    method Parse() returns (v: Verdict)
      modifies this
      ensures v == Judge(blob)
      ensures v.Accepted? ==> Ready()
    {
      if |blob| < HDR_LEN {
        return TooShort;
      }
      hdr := HeaderAt(blob);
      if hdr.magic != MAGIC {
        return WrongMagic;
      }
      if hdr.version != VERSION {
        return UnknownVersion;
      }
      if hdr.totalLen != |blob| {
        return WrongLength;
      }
      RowOffIs(12, hdr.nIoctl);
      RowOffIs(6, hdr.nClass);
      RowOffIs(5, hdr.nCtrl);
      RowOffIs(4, hdr.nNested);
      if HDR_LEN + 48 * hdr.nIoctl + 24 * hdr.nClass + 20 * hdr.nCtrl + 16 * hdr.nNested != |blob| {
        return WrongCounts;
      }
      v := Limits();
      if !v.Accepted? {
        return;
      }
      ioctls := HDR_LEN;
      classes := ioctls + 48 * hdr.nIoctl;
      ctrls := classes + 24 * hdr.nClass;
      nested := ctrls + 20 * hdr.nCtrl;
      var ok := Controls();
      v := if ok then Accepted else BadControl;
    }

    /** The checks between the counts and the control rows. */
    method Limits() returns (v: Verdict)
      requires |blob| >= HDR_LEN
      ensures v ==
        if Checksum(blob[HDR_LEN..]) != hdr.checksum then WrongChecksum
        else if hdr.maxNested > MAX_NESTED then TooManyNested
        else if !LimitsFit(hdr) then LimitsTooBig
        else if !XferFits(hdr) then BadXfer
        else Accepted
    {
      var sum := Fnv1a32(blob[HDR_LEN..]);
      if sum != hdr.checksum {
        return WrongChecksum;
      }
      if hdr.maxNested > MAX_NESTED {
        return TooManyNested;
      }
      if hdr.maxInline > MAX_PAYLOAD || hdr.maxIoctlSize > MAX_PAYLOAD || hdr.maxAux > MAX_AUX {
        return LimitsTooBig;
      }
      if hdr.xferStructLen > XFER_HEADER_MAX || !RangeValid(hdr.xferCmdOff, 4, hdr.xferStructLen)
         || !RangeValid(hdr.xferSizeOff, 4, hdr.xferStructLen) || !RangeValid(hdr.xferPtrOff, 8, hdr.xferStructLen) {
        return BadXfer;
      }
      return Accepted;
    }

    method Controls() returns (ok: bool)
      requires Whole(blob) && hdr == HeaderAt(blob) && ctrls == 4 * CtrlsOff(hdr)
      ensures ok <==> CtrlsFit(Lists(blob), hdr.maxNested)
    {
      var i := 0;
      while i < hdr.nCtrl
        invariant i <= hdr.nCtrl
        invariant forall j :: 0 <= j < i ==> CtrlFits(Lists(blob).ctrls[j], hdr.maxNested, hdr.nNested)
      {
        CtrlView(blob, i);
        var c := CtrlAt(blob, ctrls + 20 * i);
        if c.count > hdr.maxNested || !RangeValid(c.first, c.count, hdr.nNested) {
          assert !CtrlFits(Lists(blob).ctrls[i], hdr.maxNested, hdr.nNested);
          return false;
        }
        i := i + 1;
      }
      return true;
    }

    /** `find_ioctl`. */
    method FindIoctl(dev: u32, nr: u32) returns (r: Option<IoctlDesc>)
      requires Ready()
      ensures r == IoctlFor(Lists(blob).ioctls, dev, nr)
    {
      ghost var all := Lists(blob).ioctls;
      for i := 0 to hdr.nIoctl
        invariant IoctlFor(all, dev, nr) == IoctlFor(all[i..], dev, nr)
      {
        IoctlView(blob, i);
        var d := IoctlAt(blob, ioctls + 48 * i);
        if d.dev == dev && d.nr == nr {
          return Some(d);
        }
      }
      return None;
    }

    /** `find_class`. */
    method FindClass(hclass: u32) returns (r: Option<ClassDesc>)
      requires Ready()
      ensures r == ClassFor(Lists(blob).classes, hclass)
    {
      ghost var all := Lists(blob).classes;
      for i := 0 to hdr.nClass
        invariant ClassFor(all, hclass) == ClassFor(all[i..], hclass)
      {
        ClassView(blob, i);
        var c := ClassAt(blob, classes + 24 * i);
        if c.hclass == hclass {
          return Some(c);
        }
      }
      return None;
    }

    /** `find_ctrl`. */
    method FindCtrl(cmd: u32) returns (r: Option<CtrlDesc>)
      requires Ready()
      ensures r == CtrlFor(Lists(blob).ctrls, cmd)
    {
      ghost var all := Lists(blob).ctrls;
      for i := 0 to hdr.nCtrl
        invariant CtrlFor(all, cmd) == CtrlFor(all[i..], cmd)
      {
        CtrlView(blob, i);
        var c := CtrlAt(blob, ctrls + 20 * i);
        if c.cmd == cmd {
          return Some(c);
        }
      }
      return None;
    }
  }
}
