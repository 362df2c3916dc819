/**
 * Two readings of the same translation rules: the host's direct match on the
 * request, and the guest's interpretation of the rows collected from them.
 */
module Xlate {
  import opened Common
  import opened Bytes
  import opened Tables
  import opened Collect

  // ------------------------------------------------------------ the direct rules

  datatype Embedded = NoPointer | Pointer(off: u32, len: u32) | Refused

  predicate IsUvm(dev: u32) { dev == UVM || dev == UVM_TOOLS }

  predicate IsFrontend(dev: u32) { dev == CTL || dev == GPU }

  /** The primary embedded pointer of a request, read off the payload. */
  function EmbeddedPtr(r: Rules, dev: u32, nr: u32, buf: seq<byte>): Embedded {
    if IsUvm(dev) then NoPointer
    else if nr == ESC_CONTROL && |buf| >= 32 then
      if Rd64(buf, 16) == 0 || Rd32(buf, 24) == 0 then NoPointer else Pointer(16, Rd32(buf, 24))
    else if nr == ESC_ALLOC && (|buf| == 48 || |buf| == 32) then
      if Rd64(buf, 16) == 0 then NoPointer
      else if |buf| == 48 && Rd64(buf, 24) != 0 then Refused
      else match r.allocSize(Rd32(buf, 12))
        case Some(len) => Pointer(16, len)
        case None => Refused
    else if nr == ESC_GET_EVENT_DATA && |buf| >= 16 then
      if Rd64(buf, 0) == 0 then NoPointer else Pointer(0, 16)
    else NoPointer
  }

  predicate Accepts(e: Envelope, size: nat) {
    match e
    case FixedSize(n) => size == n
    case ArrayOf(n) => if n == 0 then size == 0 else size % n == 0
    case Allocation => size == 32 || size == 48
  }

  /** Requests the host takes: any UVM request, and a frontend request with its reviewed size. */
  predicate Accepted(r: Rules, dev: u32, nr: u32, size: nat) {
    || IsUvm(dev)
    || (IsFrontend(dev) && r.envelope(nr).Some? && Accepts(r.envelope(nr).value, size))
  }

  /** The three envelopes that carry a pointer; escapes are 8 bit. */
  ghost predicate Envelopes(r: Rules) {
    && r.envelope(ESC_CONTROL) == Some(FixedSize(32))
    && r.envelope(ESC_ALLOC) == Some(Allocation)
    && r.envelope(ESC_GET_EVENT_DATA) == Some(FixedSize(16))
    && forall nr: u32 :: r.envelope(nr).Some? ==> nr <= FRONTEND_SCAN_MAX
  }

  /** Every sized class is 16 bit and has parameters. */
  predicate ClassFits(r: Rules, c: u32) {
    r.allocSize(c).Some? ==> c <= CLASS_SCAN_MAX && r.allocSize(c).value != 0
  }

  // ----------------------------------------------------------- the guest's reading

  datatype Errno = EINVAL | EPERM | EOPNOTSUPP | EMSGSIZE

  datatype Decision = Nothing | Take(off: u32, len: u32) | Fail(e: Errno)

  /** The control row a payload names, if its descriptor has a command field. */
  function CtrlOfPayload(p: Parts, d: IoctlDesc, inl: seq<byte>): Option<CtrlDesc> {
    if d.cmdOff != NONE && RangeValid(d.cmdOff, 4, |inl|) then CtrlFor(p.ctrls, Rd32(inl, d.cmdOff)) else None
  }

  /** The length the descriptor gives for the buffer behind a non-null pointer. */
  function GuestLength(p: Parts, maxAux: nat, d: IoctlDesc, inl: seq<byte>): Decision {
    if d.embLenKind == EMB_LEN_FIELD then
      if !RangeValid(d.embLenOff, 4, |inl|) then Fail(EINVAL) else Sized(d.embPtrOff, Rd32(inl, d.embLenOff), maxAux)
    else if d.embLenKind == EMB_LEN_CLASS then
      if !RangeValid(d.embLenOff, 4, |inl|) then Fail(EINVAL)
      else match ClassFor(p.classes, Rd32(inl, d.embLenOff))
        case None => Fail(EOPNOTSUPP)
        case Some(c) =>
          if d.rightsOff != NONE && |inl| == d.rightsIfSize then
            if !RangeValid(d.rightsOff, 8, |inl|) then Fail(EINVAL)
            else if Rd64(inl, d.rightsOff) != 0 then Fail(EOPNOTSUPP)
            else Sized(d.embPtrOff, c.paramSize, maxAux)
          else Sized(d.embPtrOff, c.paramSize, maxAux)
    else if d.embLenKind == EMB_LEN_FIXED then Sized(d.embPtrOff, d.embLenOff, maxAux)
    else Nothing
  }

  function Sized(off: u32, len: u32, maxAux: nat): Decision {
    if len == 0 then Nothing else if len > maxAux then Fail(EMSGSIZE) else Take(off, len)
  }

  /** The embedded-pointer part of `gather_embedded`, over parsed rows. */
  function GuestDecision(p: Parts, maxAux: nat, dev: u32, nr: u32, inl: seq<byte>): Decision {
    match IoctlFor(p.ioctls, dev, nr)
    case None => Nothing
    case Some(d) =>
      if d.embPtrOff == NONE then Nothing
      else if !RangeValid(d.embPtrOff, 8, |inl|) then Fail(EINVAL)
      else if CtrlOfPayload(p, d, inl).Some? && HasBlock(CtrlOfPayload(p, d, inl).value.flags) then Fail(EPERM)
      else if Rd64(inl, d.embPtrOff) == 0 then Nothing
      else GuestLength(p, maxAux, d, inl)
  }

  // ------------------------------------------------------------------- agreement

  /** The rows say what the rules say. */
  ghost predicate Collected(r: Rules, p: Parts) {
    && (forall dev: u32, nr: u32 :: IoctlFor(p.ioctls, dev, nr) == RowFor(r, dev, nr))
    && (forall c: u32 :: ClassFor(p.classes, c) == if c <= CLASS_SCAN_MAX then ClassRowFor(r, c) else None)
    && (forall cmd: u32 :: CtrlFor(p.ctrls, cmd).Some? <==> Listed(r, cmd))
    && (forall cmd: u32 :: CtrlSaysSo(r, p, cmd))
  }

  /** The row found for a command: its flags, its fd field and its own nested rows. */
  ghost predicate CtrlSaysSo(r: Rules, p: Parts, cmd: u32) {
    CtrlFor(p.ctrls, cmd).Some? ==> RowSaysSo(r, p, CtrlFor(p.ctrls, cmd).value, cmd)
  }

  ghost predicate RowSaysSo(r: Rules, p: Parts, c: CtrlDesc, cmd: u32) {
    && (HasBlock(c.flags) <==> cmd in r.blocked)
    && (HasFd(c.flags) <==> cmd in r.fdCmds)
    && c.fdOff == (if cmd in r.fdCmds then OrNone(r.fdOffset(cmd)) else NONE)
    && c.first + c.count <= |p.nested|
    && p.nested[c.first..c.first + c.count] == if cmd in r.nestedCmds then NestedRowsOf(r.nested(cmd)) else []
  }

  lemma {:induction false} CtrlForFinds(cs: seq<CtrlDesc>, cmd: u32)
    ensures CtrlFor(cs, cmd).Some? <==> HasRow(cs, cmd)
    ensures CtrlFor(cs, cmd).Some? ==> exists i :: 0 <= i < |cs| && cs[i].cmd == cmd && cs[i] == CtrlFor(cs, cmd).value
    decreases |cs|
  {
    if cs != [] {
      CtrlForFinds(cs[1..], cmd);
      if cs[0].cmd != cmd && CtrlFor(cs, cmd).Some? {
        var i :| 0 <= i < |cs[1..]| && cs[1..][i].cmd == cmd && cs[1..][i] == CtrlFor(cs, cmd).value;
        assert cs[i + 1] == cs[1..][i];
      }
      if HasRow(cs, cmd) && cs[0].cmd != cmd {
        var i :| 0 <= i < |cs| && cs[i].cmd == cmd;
        assert cs[1..][i - 1] == cs[i];
      }
    }
  }

  lemma LeadSaysSo(r: Rules, p: Parts, i: nat)
    requires Leads(r, p.ctrls, |r.nestedCmds|) && p.nested == AllNested(r, r.nestedCmds) && i < |r.nestedCmds|
    requires p.ctrls[i] == CtrlRow(r, p.ctrls[i].cmd, p.ctrls[i].first, p.ctrls[i].count, p.ctrls[i].cmd in r.fdCmds)
    ensures RowSaysSo(r, p, p.ctrls[i], p.ctrls[i].cmd)
  {
    FlagBits(p.ctrls[i].cmd in r.blocked, p.ctrls[i].cmd in r.fdCmds);
    RangeIs(r, p.ctrls, i);
  }

  lemma ExtraIsNoLead(r: Rules, cs: seq<CtrlDesc>, i: nat)
    requires Leads(r, cs, |r.nestedCmds|) && Extras(cs, |r.nestedCmds|) && |r.nestedCmds| <= i < |cs|
    ensures cs[i].cmd !in r.nestedCmds
  {
    forall j | 0 <= j < |r.nestedCmds| ensures r.nestedCmds[j] != cs[i].cmd {
      assert cs[j].cmd == r.nestedCmds[j];
    }
  }

  lemma ExtraSaysSo(r: Rules, p: Parts, i: nat)
    requires Leads(r, p.ctrls, |r.nestedCmds|) && Extras(p.ctrls, |r.nestedCmds|) && |r.nestedCmds| <= i < |p.ctrls|
    requires p.ctrls[i] == CtrlRow(r, p.ctrls[i].cmd, p.ctrls[i].first, p.ctrls[i].count, p.ctrls[i].cmd in r.fdCmds)
    ensures RowSaysSo(r, p, p.ctrls[i], p.ctrls[i].cmd)
  {
    FlagBits(p.ctrls[i].cmd in r.blocked, p.ctrls[i].cmd in r.fdCmds);
    ExtraIsNoLead(r, p.ctrls, i);
  }

  lemma FoundSaysSo(r: Rules, p: Parts, cmd: u32)
    requires Leads(r, p.ctrls, |r.nestedCmds|) && Extras(p.ctrls, |r.nestedCmds|) && p.nested == AllNested(r, r.nestedCmds)
    requires forall i :: 0 <= i < |p.ctrls| ==>
      p.ctrls[i] == CtrlRow(r, p.ctrls[i].cmd, p.ctrls[i].first, p.ctrls[i].count, p.ctrls[i].cmd in r.fdCmds)
    ensures CtrlSaysSo(r, p, cmd)
  {
    CtrlForFinds(p.ctrls, cmd);
    if CtrlFor(p.ctrls, cmd).Some? {
      var i :| 0 <= i < |p.ctrls| && p.ctrls[i].cmd == cmd && p.ctrls[i] == CtrlFor(p.ctrls, cmd).value;
      if i < |r.nestedCmds| { LeadSaysSo(r, p, i); } else { ExtraSaysSo(r, p, i); }
    }
  }

  /** `collect`: whatever the rules, the lists it builds say the same. */
  method CollectAll(r: Rules) returns (p: Parts)
    requires WellFormed(r)
    ensures Collected(r, p)
    ensures FitsStream(p) && (forall cmd :: cmd in r.nestedCmds ==> |r.nested(cmd)| <= MAX_NESTED) ==>
      Judge(Stream(p)).Accepted? && Lists(Stream(p)) == p
  {
    var ioctls := CollectIoctls(r);
    var classes := CollectClasses(r);
    var ctrls, nested := CollectCtrls(r);
    p := Parts(ioctls, classes, ctrls, nested);
    forall cmd: u32 ensures CtrlSaysSo(r, p, cmd) && (CtrlFor(p.ctrls, cmd).Some? <==> Listed(r, cmd)) {
      FoundSaysSo(r, p, cmd);
      CtrlForFinds(p.ctrls, cmd);
      assert HasRow(ctrls, cmd) <==> Listed(r, cmd);
    }
    if FitsStream(p) { CollectedIsAccepted(r, p); }
  }

  /** A control the host refuses; the guest refuses it early. */
  predicate BlockedControl(r: Rules, dev: u32, nr: u32, buf: seq<byte>) {
    IsFrontend(dev) && nr == ESC_CONTROL && |buf| == 32 && Rd32(buf, 8) in r.blocked
  }

  /** What the direct rules ask of the guest, with its two extra refusals. */
  function Wanted(r: Rules, maxAux: nat, dev: u32, nr: u32, buf: seq<byte>): Decision {
    if BlockedControl(r, dev, nr, buf) then Fail(EPERM)
    else match EmbeddedPtr(r, dev, nr, buf)
      case Refused => Fail(EOPNOTSUPP)
      case NoPointer => Nothing
      case Pointer(off, len) => if len > maxAux then Fail(EMSGSIZE) else Take(off, len)
  }

  lemma ControlAgrees(r: Rules, p: Parts, maxAux: nat, dev: u32, buf: seq<byte>)
    requires Collected(r, p) && IsFrontend(dev) && |buf| == 32
    ensures GuestDecision(p, maxAux, dev, ESC_CONTROL, buf) == Wanted(r, maxAux, dev, ESC_CONTROL, buf)
  {
    var d := RowFor(r, dev, ESC_CONTROL).value;
    assert IoctlFor(p.ioctls, dev, ESC_CONTROL) == Some(d);
    assert CtrlSaysSo(r, p, Rd32(buf, 8));
    assert CtrlFor(p.ctrls, Rd32(buf, 8)).Some? <==> Listed(r, Rd32(buf, 8));
  }

  lemma AllocAgrees(r: Rules, p: Parts, maxAux: nat, dev: u32, buf: seq<byte>)
    requires Collected(r, p) && IsFrontend(dev) && (|buf| == 32 || |buf| == 48) && ClassFits(r, Rd32(buf, 12))
    ensures GuestDecision(p, maxAux, dev, ESC_ALLOC, buf) == Wanted(r, maxAux, dev, ESC_ALLOC, buf)
  {
    var d := RowFor(r, dev, ESC_ALLOC).value;
    assert IoctlFor(p.ioctls, dev, ESC_ALLOC) == Some(d);
    var c := Rd32(buf, 12);
    assert ClassFor(p.classes, c) == if c <= CLASS_SCAN_MAX then ClassRowFor(r, c) else None;
  }

  lemma EventAgrees(r: Rules, p: Parts, maxAux: nat, dev: u32, buf: seq<byte>)
    requires Collected(r, p) && IsFrontend(dev) && |buf| == 16
    ensures GuestDecision(p, maxAux, dev, ESC_GET_EVENT_DATA, buf) == Wanted(r, maxAux, dev, ESC_GET_EVENT_DATA, buf)
  {
    var d := RowFor(r, dev, ESC_GET_EVENT_DATA).value;
    assert IoctlFor(p.ioctls, dev, ESC_GET_EVENT_DATA) == Some(d);
  }

  lemma OthersAgree(r: Rules, p: Parts, maxAux: nat, dev: u32, nr: u32, buf: seq<byte>)
    requires Collected(r, p) && (IsUvm(dev) || (IsFrontend(dev) && nr != ESC_CONTROL && nr != ESC_ALLOC && nr != ESC_GET_EVENT_DATA))
    ensures GuestDecision(p, maxAux, dev, nr, buf) == Wanted(r, maxAux, dev, nr, buf) == Nothing
  {
    assert IoctlFor(p.ioctls, dev, nr) == RowFor(r, dev, nr);
  }

  /**
   * For every device, request, payload and accepted size the guest's reading of
   * the collected rows is the direct rule: the same offset and length, the same
   * "none", the same refusals, and two more for blocked controls and long buffers.
   */
  lemma GuestAgrees(r: Rules, p: Parts, maxAux: nat, dev: u32, nr: u32, buf: seq<byte>)
    requires Collected(r, p) && Envelopes(r) && (forall c: u32 :: ClassFits(r, c))
    requires Accepted(r, dev, nr, |buf|)
    ensures GuestDecision(p, maxAux, dev, nr, buf) == Wanted(r, maxAux, dev, nr, buf)
  {
    if IsUvm(dev) {
      OthersAgree(r, p, maxAux, dev, nr, buf);
    } else if nr == ESC_CONTROL {
      ControlAgrees(r, p, maxAux, dev, buf);
    } else if nr == ESC_ALLOC {
      AllocAgrees(r, p, maxAux, dev, buf);
    } else if nr == ESC_GET_EVENT_DATA {
      EventAgrees(r, p, maxAux, dev, buf);
    } else {
      OthersAgree(r, p, maxAux, dev, nr, buf);
    }
  }

  // ------------------------------------------- the condition on the class table is exact

  function Zeros(n: nat): (s: seq<byte>)
    ensures |s| == n
  {
    seq(n, _ => 0)
  }

  /** An NVOS21 ALLOC of class `c` with a non-null parameter pointer. */
  function AllocRequest(c: u32): (b: seq<byte>)
    ensures |b| == 32 && Rd32(b, 12) == c && Rd64(b, 16) == 1
  {
    var b := Zeros(12) + Encode(c, 4) + Encode(1, 8) + Zeros(8);
    assert b[12..16] == Encode(c, 4) && b[16..24] == Encode(1, 8);
    Pow4And8();
    DecodeEncode(c, 4);
    DecodeEncode(1, 8);
    b
  }

  /** A class of size zero or beyond 16 bits would be read differently by the two sides. */
  lemma MisfitDisagrees(r: Rules, p: Parts, maxAux: nat, dev: u32, c: u32)
    requires Collected(r, p) && IsFrontend(dev) && !ClassFits(r, c)
    ensures GuestDecision(p, maxAux, dev, ESC_ALLOC, AllocRequest(c)) != Wanted(r, maxAux, dev, ESC_ALLOC, AllocRequest(c))
  {
    var buf := AllocRequest(c);
    var d := RowFor(r, dev, ESC_ALLOC).value;
    assert IoctlFor(p.ioctls, dev, ESC_ALLOC) == Some(d);
    assert ClassFor(p.classes, c) == if c <= CLASS_SCAN_MAX then ClassRowFor(r, c) else None;
  }

  // ------------------------------------------------------------ second-level lengths

  /** `LenSource::resolve` on a parameter buffer. */
  function Resolve(l: LenSource, params: seq<byte>): Option<u32> {
    match l
    case Fixed(n) => Some(n)
    case Field(off, elem) =>
      if off + 4 >= U32 || off + 4 > |params| then None
      else Mul(Rd32(params, off), elem)
  }

  function Mul(a: u32, b: u32): (r: Option<u32>)
    ensures r == if a * b < U32 then Some(a * b) else None
  {
    Product(a, b);
    if a * b < U32 then Some(a * b) else None
  }

  lemma Product(a: nat, b: nat)
    ensures 0 <= a * b
  {
  }

  /** The guest's length of a nested buffer, from its row. */
  function NestedLength(row: NestedRow, params: seq<byte>): Option<u32> {
    if row.lenKind == NLEN_FIXED then Some(row.lenOff)
    else if !RangeValid(row.lenOff, 4, |params|) then None
    else Mul(Rd32(params, row.lenOff), row.elem)
  }

  /**
   * The nested rows the guest finds for a control give, pointer by pointer, the
   * offsets and lengths of the direct rules, on every parameter buffer.
   */
  lemma NestedAgrees(r: Rules, p: Parts, cmd: u32, i: nat, params: seq<byte>)
    requires Collected(r, p) && cmd in r.nestedCmds && i < |r.nested(cmd)| && |params| < U32
    ensures CtrlFor(p.ctrls, cmd).Some?
    ensures var c := CtrlFor(p.ctrls, cmd).value;
      && c.count == |r.nested(cmd)| && c.first + i < |p.nested|
      && p.nested[c.first + i].ptrOff == r.nested(cmd)[i].ptrOff
      && NestedLength(p.nested[c.first + i], params) == Resolve(r.nested(cmd)[i].len, params)
  {
    assert CtrlFor(p.ctrls, cmd).Some? <==> Listed(r, cmd);
    assert CtrlSaysSo(r, p, cmd);
    var c := CtrlFor(p.ctrls, cmd).value;
    assert p.nested[c.first..c.first + c.count][i] == NestedRowOf(r.nested(cmd)[i]);
    assert p.nested[c.first..c.first + c.count][i] == p.nested[c.first + i];
    SameLength(r.nested(cmd)[i], params);
  }

  lemma SameLength(q: NestedPtr, params: seq<byte>)
    requires |params| < U32
    ensures NestedLength(NestedRowOf(q), params) == Resolve(q.len, params)
  {
  }
}
