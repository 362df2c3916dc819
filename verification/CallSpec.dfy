/**
 * What the tables say of one call, before anything is gathered: which fields
 * are translated, what travels along, and which refusal comes first.
 */
module CallSpec {
  import opened Common
  import opened Bytes
  import opened Tables
  import opened Collect
  import opened Xlate
  import PageRuns

  // --------------------------------------------------------------- caller memory

  type Mem = map<nat, byte>

  predicate Mapped(m: Mem, a: nat, n: nat) {
    forall x :: a <= x < a + n ==> x in m
  }

  function Fetch(m: Mem, a: nat, n: nat): (s: seq<byte>)
    requires Mapped(m, a, n)
    ensures |s| == n && forall i :: 0 <= i < n ==> s[i] == m[a + i]
  {
    seq(n, i requires 0 <= i < n => m[a + i])
  }

  /** What the call came with. */
  datatype Request = Request(p: Parts, h: Header, dev: u32, nr: u32, kern: bool, addr: nat, size: nat) {
    function Desc(): Option<IoctlDesc> { IoctlFor(p.ioctls, dev, nr) }

    function Decide(inl: seq<byte>): Decision { GuestDecision(p, h.maxAux, dev, nr, inl) }
  }

  /** How gathering ended: done, a memory fault, an error of the interpreter, a bad fd, no pinned pages. */
  datatype Status = Done | Fault | Failed(e: Errno) | Protocol | BadFd | NoPin

  /** The files of a process by number, as tokens. */
  type Files = int -> Option<nat>

  /** The pages the kernel pinned for the call, if it could. */
  type Pinned = Option<seq<PageRuns.pfn>>

  // ------------------------------------------------------------------- fd fields

  /** A little-endian two's complement number. */
  function Signed(s: seq<byte>): int {
    if 2 * Decode(s) < Pow256(|s|) then Decode(s) else Decode(s) - Pow256(|s|)
  }

  /** The token of an fd field: the file with the low 32 bits for a number, none for a negative field. */
  function TokenOf(files: Files, s: seq<byte>): Option<nat> {
    if Signed(s) < 0 || |s| < 4 then None else files(Signed(s[..4]))
  }

  /** A number that is not negative must name a file, and the caller must have files to name. */
  function NoteStatus(files: Files, refuse: bool, s: seq<byte>): Status {
    if Signed(s) < 0 then Done else if refuse || TokenOf(files, s).None? then BadFd else Done
  }

  /** The inline fd field of a request; a kernel caller has none. */
  function FdField(q: Request): nat {
    if q.kern || q.Desc().None? then NONE else q.Desc().value.fdOff
  }

  function InlineFdStatus(q: Request, files: Files, inl: seq<byte>): Status {
    if FdField(q) == NONE then Done
    else if !RangeValid(FdField(q), 4, |inl|) then Failed(EINVAL)
    else NoteStatus(files, false, inl[FdField(q)..FdField(q) + 4])
  }

  datatype FdSpec = NoField | Field(off: nat, len: nat) | BadField(e: Errno)

  /** The class row of an ALLOC. */
  function ClassOfCall(q: Request, inl: seq<byte>): Option<ClassDesc> {
    if q.Desc().Some? && q.Desc().value.embLenKind == EMB_LEN_CLASS && RangeValid(q.Desc().value.embLenOff, 4, |inl|)
    then ClassFor(q.p.classes, Rd32(inl, q.Desc().value.embLenOff)) else None
  }

  /** The control row of a CONTROL. */
  function CtrlOfCall(q: Request, inl: seq<byte>): Option<CtrlDesc> {
    if q.Desc().Some? then CtrlOfPayload(q.p, q.Desc().value, inl) else None
  }

  /** Eight bytes of allocation params, unless the class has a guard and the params fail it. */
  function ClassFd(q: Request, inl: seq<byte>, params: seq<byte>): (f: FdSpec)
    ensures f.Field? ==> f.off != NONE && f.off + f.len <= |params| && f.len == 8
  {
    match ClassOfCall(q, inl)
    case None => NoField
    case Some(c) =>
      if c.fdOff == NONE then NoField
      else if !RangeValid(c.fdOff, 8, |params|) then BadField(EINVAL)
      else if c.fdIfOff == NONE then FdSpec.Field(c.fdOff, 8)
      else if !RangeValid(c.fdIfOff, 4, |params|) then BadField(EINVAL)
      else if Rd32(params, c.fdIfOff) != c.fdIfVal then NoField
      else FdSpec.Field(c.fdOff, 8)
  }

  /** Four bytes of control params. */
  function CtrlFd(q: Request, inl: seq<byte>, params: seq<byte>): (f: FdSpec)
    ensures f.Field? ==> f.off != NONE && f.off + f.len <= |params| && f.len == 4
  {
    match CtrlOfCall(q, inl)
    case None => NoField
    case Some(c) =>
      if !HasFd(c.flags) || c.fdOff == NONE then NoField
      else if !RangeValid(c.fdOff, 4, |params|) then BadField(EINVAL)
      else FdSpec.Field(c.fdOff, 4)
  }

  /** The fd field inside the params; the wire carries one, so a second one is refused. */
  function AuxFd(q: Request, inl: seq<byte>, params: seq<byte>): (f: FdSpec)
    ensures f.Field? ==> f.off != NONE && f.off + f.len <= |params| && f.len >= 4
  {
    var c, t := ClassFd(q, inl, params), CtrlFd(q, inl, params);
    if c.BadField? || t.NoField? then c
    else if t.BadField? || c.NoField? then t
    else BadField(EOPNOTSUPP)
  }

  function FdStatus(f: FdSpec, files: Files, refuse: bool, params: seq<byte>): Status
    requires f.Field? ==> f.off + f.len <= |params|
  {
    match f
    case NoField => Done
    case BadField(e) => Failed(e)
    case Field(off, len) => NoteStatus(files, refuse, params[off..off + len])
  }

  /** No kernel caller names a file in an allocation, and no kernel thread in a control. */
  function AuxFdStatus(q: Request, files: Files, kthread: bool, inl: seq<byte>, params: seq<byte>): Status {
    var c, t := ClassFd(q, inl, params), CtrlFd(q, inl, params);
    var first := FdStatus(c, files, q.kern, params);
    if !first.Done? then first
    else if c.Field? && t.Field? then Failed(EOPNOTSUPP)
    else FdStatus(t, files, q.kern && kthread, params)
  }

  // -------------------------------------------------------------- nested buffers

  datatype Plan = Plan(ptrOff: nat, gva: nat, len: nat)

  datatype RowPlan = Skip | Bad | Live(e: Plan)

  /** What one nested row means for these params. */
  function PlanRow(row: NestedRow, params: seq<byte>): RowPlan {
    if !RangeValid(row.ptrOff, 8, |params|) then Skip
    else match NestedLength(row, params)
      case None => Bad
      case Some(len) =>
        if Rd64(params, row.ptrOff) == 0 || len == 0 then Skip
        else Live(Plan(row.ptrOff, Rd64(params, row.ptrOff), len))
  }

  /** The live pointers of the first `n` rows, in order. */
  function LivePlans(rows: seq<NestedRow>, params: seq<byte>, n: nat): (plan: seq<Plan>)
    requires n <= |rows|
    ensures |plan| <= n
    decreases n
  {
    if n == 0 then []
    else match PlanRow(rows[n - 1], params)
      case Live(e) => LivePlans(rows, params, n - 1) + [e]
      case _ => LivePlans(rows, params, n - 1)
  }

  /** The bytes of the first `n` entries. */
  function Total(plan: seq<Plan>, n: nat): nat
    requires n <= |plan|
  {
    if n == 0 then 0 else Total(plan, n - 1) + plan[n - 1].len
  }

  lemma {:induction false} TotalPrefix(plan: seq<Plan>, e: Plan, n: nat)
    requires n <= |plan|
    ensures Total(plan + [e], n) == Total(plan, n)
    decreases n
  {
    if n > 0 { TotalPrefix(plan, e, n - 1); }
  }

  /** The params and the live buffers of the first `n` rows. */
  function Extent(rows: seq<NestedRow>, params: seq<byte>, n: nat): nat
    requires n <= |rows|
  {
    |params| + Total(LivePlans(rows, params, n), |LivePlans(rows, params, n)|)
  }

  lemma ExtentNext(rows: seq<NestedRow>, params: seq<byte>, n: nat)
    requires n < |rows|
    ensures var r := PlanRow(rows[n], params);
      Extent(rows, params, n + 1) == Extent(rows, params, n) + (if r.Live? then r.e.len else 0)
  {
    var plan, r := LivePlans(rows, params, n), PlanRow(rows[n], params);
    if r.Live? { TotalPrefix(plan, r.e, |plan|); }
  }

  /** The first row that cannot be planned decides. */
  function PlanStatus(rows: seq<NestedRow>, params: seq<byte>, maxAux: nat, n: nat): Status
    requires n <= |rows|
    decreases n
  {
    if n == 0 then Done
    else
      var before := PlanStatus(rows, params, maxAux, n - 1);
      if !before.Done? then before
      else match PlanRow(rows[n - 1], params)
        case Skip => Done
        case Bad => Failed(EINVAL)
        case Live(_) => if Extent(rows, params, n) > maxAux then Failed(EMSGSIZE) else Done
  }

  /** Planning succeeds exactly when every length can be read and everything fits together. */
  lemma {:induction false} PlanDoneIff(rows: seq<NestedRow>, params: seq<byte>, maxAux: nat, n: nat)
    requires n <= |rows| && |params| <= maxAux
    ensures PlanStatus(rows, params, maxAux, n).Done? <==>
      (forall i :: 0 <= i < n ==> !PlanRow(rows[i], params).Bad?) && Extent(rows, params, n) <= maxAux
    decreases n
  {
    if n > 0 {
      PlanDoneIff(rows, params, maxAux, n - 1);
      ExtentNext(rows, params, n - 1);
    }
  }

  lemma {:induction false} PlanStops(rows: seq<NestedRow>, params: seq<byte>, maxAux: nat, i: nat, n: nat)
    requires i <= n <= |rows| && !PlanStatus(rows, params, maxAux, i).Done?
    ensures PlanStatus(rows, params, maxAux, n) == PlanStatus(rows, params, maxAux, i)
    decreases n
  {
    if i < n { PlanStops(rows, params, maxAux, i, n - 1); }
  }

  /** An entry names a live pointer inside the params. */
  predicate Points(e: Plan, params: seq<byte>) {
    e.ptrOff + 8 <= |params| && e.gva == Rd64(params, e.ptrOff) && e.gva != 0 && e.len > 0
  }

  /** The plan holds the live rows and nothing else. */
  lemma {:induction false} PlansAreLive(rows: seq<NestedRow>, params: seq<byte>, n: nat, e: Plan)
    requires n <= |rows|
    ensures e in LivePlans(rows, params, n) <==> exists i :: 0 <= i < n && PlanRow(rows[i], params) == Live(e)
    ensures e in LivePlans(rows, params, n) ==> Points(e, params)
    decreases n
  {
    if n > 0 {
      PlansAreLive(rows, params, n - 1, e);
      if PlanRow(rows[n - 1], params) == Live(e) {
        assert e in LivePlans(rows, params, n);
      } else if e in LivePlans(rows, params, n) {
        assert e in LivePlans(rows, params, n - 1);
      }
    }
  }

  /** The nested rows that apply to a call: those of the control its inline block names. */
  function RowsOfCall(q: Request, inl: seq<byte>): seq<NestedRow> {
    match CtrlOfCall(q, inl)
    case None => []
    case Some(c) => if RangeValid(c.first, c.count, |q.p.nested|) then q.p.nested[c.first..c.first + c.count] else []
  }

  function NestedPlan(q: Request, inl: seq<byte>, params: seq<byte>): seq<Plan> {
    LivePlans(RowsOfCall(q, inl), params, |RowsOfCall(q, inl)|)
  }

  function NestedStatus(q: Request, inl: seq<byte>, params: seq<byte>): Status {
    match CtrlOfCall(q, inl)
    case None => Done
    case Some(c) =>
      if c.count == 0 then Done
      else if c.count > MAX_NESTED || !RangeValid(c.first, c.count, |q.p.nested|) then Protocol
      else PlanStatus(RowsOfCall(q, inl), params, q.h.maxAux, |RowsOfCall(q, inl)|)
  }

  predicate PlanMapped(g: Mem, plan: seq<Plan>) {
    forall k :: 0 <= k < |plan| ==> Mapped(g, plan[k].gva, plan[k].len)
  }

  // ------------------------------------------------------------ the whole embedded part

  /** A pointer the guest takes along is inside the block, not null, and has a length within the limit. */
  lemma TakeMeans(q: Request, inl: seq<byte>)
    ensures var t := q.Decide(inl);
      t.Take? ==>
        && t.off != NONE && t.off + 8 <= |inl| && Rd64(inl, t.off) != 0 && 0 < t.len <= q.h.maxAux
        && q.Desc().Some? && q.Desc().value.embPtrOff == t.off
  {
  }

  /** The embedded pointer of a call that takes one along. */
  function PtrOf(q: Request, inl: seq<byte>): nat
    requires q.Decide(inl).Take?
  {
    TakeMeans(q, inl);
    Rd64(inl, q.Decide(inl).off)
  }

  /** The params buffer behind the embedded pointer, empty if there is none or it cannot be read. */
  function ParamsOf(q: Request, inl: seq<byte>, g: Mem): seq<byte> {
    if q.Decide(inl).Take? && Mapped(g, PtrOf(q, inl), q.Decide(inl).len) then Fetch(g, PtrOf(q, inl), q.Decide(inl).len) else []
  }

  /** The buffers one level down: planned first, then read. */
  function SecondStatus(q: Request, inl: seq<byte>, params: seq<byte>, g: Mem): Status {
    if !NestedStatus(q, inl, params).Done? then NestedStatus(q, inl, params)
    else if !PlanMapped(g, NestedPlan(q, inl, params)) then Fault
    else Done
  }

  function EmbeddedStatus(q: Request, files: Files, kthread: bool, inl: seq<byte>, g: Mem): Status {
    match q.Decide(inl)
    case Nothing => Done
    case Fail(e) => Failed(e)
    case Take(_, len) =>
      var params := ParamsOf(q, inl, g);
      if !Mapped(g, PtrOf(q, inl), len) then Fault
      else if !SecondStatus(q, inl, params, g).Done? then SecondStatus(q, inl, params, g)
      else AuxFdStatus(q, files, kthread, inl, params)
  }

  // ------------------------------------------------------------------- OS descriptors

  const OSDESC_PARAMS_SIZE: nat := 40
  const OSDESC_DESCRIPTOR_OFF: nat := 16
  const OSDESC_LIMIT_OFF: nat := 24
  const OSDESC_TYPE_OFF: nat := 32
  const OSDESC_DMA_BUF: nat := 5
  const HCLASS_OFF: nat := 12

  predicate IsOsdesc(flags: u32) { flags / 2 % 2 == 1 }

  datatype OsForm = NoDescriptor | KernelForm | UserForm | NoForm(e: Errno)

  /** Whether a call hands memory to the host by descriptor, and in which of the two forms. */
  function FormOf(q: Request, inl: seq<byte>): OsForm {
    if q.Desc().None? then NoDescriptor
    else if q.kern && q.nr == ESC_ALLOC && HCLASS_OFF + 4 <= |inl| && Rd32(inl, HCLASS_OFF) == q.h.osdescClass then KernelForm
    else
      var d := q.Desc().value;
      if !IsOsdesc(d.flags) then NoDescriptor
      else if !RangeValid(d.embLenOff, 4, |inl|) then NoForm(EINVAL)
      else if Rd32(inl, d.embLenOff) != q.h.osdescClass then NoDescriptor
      else if q.kern then NoForm(EOPNOTSUPP)
      else UserForm
  }

  /** All words of the descriptor are there. */
  predicate DescriptorInside(q: Request, n: nat) {
    && RangeValid(0, 4, n) && RangeValid(q.h.osdescPmemOff, 8, n) && RangeValid(q.h.osdescLimitOff, 8, n)
    && RangeValid(q.h.osdescStatusOff, 4, n) && RangeValid(q.h.osdescHandleOff, 4, n)
  }

  /** Whole pages from a page boundary, the last byte not the last there is. */
  predicate WholePages(pmem: nat, limit: nat) {
    pmem != 0 && pmem % PageRuns.PAGE == 0 && limit + 1 < U64 && (limit + 1) % PageRuns.PAGE == 0
  }

  function RunStatus(pages: Pinned, space: nat): Status {
    if pages.None? then NoPin
    else if pages.value == [] || 16 * |PageRuns.Coalesce(pages.value)| > space then Failed(EMSGSIZE)
    else Done
  }

  /** The userspace form's checks on its inline block. */
  function UserCheck(q: Request, inl: seq<byte>): Status {
    if !DescriptorInside(q, |inl|) || !WholePages(Rd64(inl, q.h.osdescPmemOff), Rd64(inl, q.h.osdescLimitOff)) then Failed(EINVAL) else Done
  }

  /** The kernel form's checks on its params. */
  function KernelCheck(params: seq<byte>): Status {
    if |params| < OSDESC_PARAMS_SIZE then Failed(EINVAL)
    else if Rd32(params, OSDESC_TYPE_OFF) != OSDESC_DMA_BUF then Failed(EOPNOTSUPP)
    else if Rd64(params, OSDESC_DESCRIPTOR_OFF) == 0 then Failed(EINVAL)
    else Done
  }

  function OsdescStatus(q: Request, inl: seq<byte>, params: seq<byte>, pages: Pinned): Status
    requires q.h.maxAux >= OSDESC_PARAMS_SIZE
  {
    match FormOf(q, inl)
    case NoDescriptor => Done
    case NoForm(e) => Failed(e)
    case KernelForm =>
      if !KernelCheck(params).Done? then KernelCheck(params) else RunStatus(pages, q.h.maxAux - OSDESC_PARAMS_SIZE)
    case UserForm =>
      if !UserCheck(q, inl).Done? then UserCheck(q, inl) else RunStatus(pages, q.h.maxAux)
  }

  // ----------------------------------------------------------------- the whole call

  /** How gathering ends, in the order in which a call is taken apart. */
  function GatherStatus(q: Request, files: Files, kthread: bool, pages: Pinned, g: Mem): Status
    requires q.h.maxAux >= OSDESC_PARAMS_SIZE
  {
    if !Mapped(g, q.addr, q.size) then Fault
    else
      var inl := Fetch(g, q.addr, q.size);
      if !InlineFdStatus(q, files, inl).Done? then InlineFdStatus(q, files, inl)
      else if !EmbeddedStatus(q, files, kthread, inl, g).Done? then EmbeddedStatus(q, files, kthread, inl, g)
      else OsdescStatus(q, inl, ParamsOf(q, inl, g), pages)
  }

  /** Inline byte `j` belongs to a field that does not travel as it is. */
  predicate TableInline(q: Request, inl: seq<byte>, j: nat) {
    || (q.Decide(inl).Take? && q.Decide(inl).off <= j < q.Decide(inl).off + 8)
    || (FdField(q) != NONE && FdField(q) <= j < FdField(q) + 4)
    || (FormOf(q, inl).UserForm?
        && (q.h.osdescPmemOff <= j < q.h.osdescPmemOff + 8 || q.h.osdescLimitOff <= j < q.h.osdescLimitOff + 8))
  }

  /** Row `i` of the call is a live pointer, and params byte `j` is in it. */
  predicate InLiveRow(q: Request, inl: seq<byte>, params: seq<byte>, i: nat, j: nat) {
    && i < |RowsOfCall(q, inl)| && PlanRow(RowsOfCall(q, inl)[i], params).Live?
    && RowsOfCall(q, inl)[i].ptrOff <= j < RowsOfCall(q, inl)[i].ptrOff + 8
  }

  /** So does params byte `j`. */
  predicate TableParam(q: Request, inl: seq<byte>, params: seq<byte>, j: nat) {
    || (exists i :: 0 <= i < |RowsOfCall(q, inl)| && InLiveRow(q, inl, params, i, j))
    || (AuxFd(q, inl, params).Field? && AuxFd(q, inl, params).off <= j < AuxFd(q, inl, params).off + AuxFd(q, inl, params).len)
  }
}
