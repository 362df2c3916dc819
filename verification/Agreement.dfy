/**
 * The fields the guest translates, read off the request by the translation
 * rules alone, and read off the collected rows: the two name the same bytes.
 */
module Agreement {
  import opened Common
  import opened Bytes
  import opened Tables
  import opened Collect
  import opened Xlate
  import opened CallSpec
  import PageRuns

  /** The rules of a table whose offsets are offsets: none of them is the word that stands for "no field". */
  ghost predicate RealOffsets(r: Rules) {
    && (forall c: u32 :: r.allocFd(c) != Some(NONE))
    && (forall c: u32 :: r.allocFdGuard(c).Some? ==> r.allocFdGuard(c).value.0 != NONE)
    && (forall cmd: u32 :: r.fdOffset(cmd) != Some(NONE))
  }

  /** A request the host takes, over tables collected from the rules. */
  ghost predicate Ruled(r: Rules, q: Request, inl: seq<byte>) {
    && WellFormed(r) && RealOffsets(r) && Collected(r, q.p) && Envelopes(r) && (forall c: u32 :: ClassFits(r, c))
    && Xlate.Accepted(r, q.dev, q.nr, |inl|)
  }

  // -------------------------------------------------------------- the inline fd

  /** A UVM request that carries an fd but has no size, and so no row. */
  predicate Unsized(r: Rules, dev: u32, nr: u32) {
    IsUvm(dev) && FdFieldOffset(dev, nr).Some? && r.uvmSize(nr).None?
  }

  /** For a userspace caller the row's fd field is the rule's, exactly when the request has a size; a kernel caller has none. */
  lemma InlineFdAgrees(r: Rules, q: Request, inl: seq<byte>)
    requires Ruled(r, q, inl)
    ensures q.kern ==> FdField(q) == NONE
    ensures !q.kern ==> (FdField(q) == OrNone(FdFieldOffset(q.dev, q.nr)) <==> !Unsized(r, q.dev, q.nr))
    ensures !q.kern && Unsized(r, q.dev, q.nr) ==> FdField(q) == NONE && q.Desc().None?
  {
    assert IoctlFor(q.p.ioctls, q.dev, q.nr) == RowFor(r, q.dev, q.nr);
  }

  /** Which requests have a row, and what its size and marks say. */
  lemma RowsAgree(r: Rules, q: Request)
    requires Collected(r, q.p)
    ensures q.Desc().Some? <==>
      || (IsUvm(q.dev) && UvmScanned(q.nr) && r.uvmSize(q.nr).Some?)
      || (IsFrontend(q.dev) && q.nr <= FRONTEND_SCAN_MAX
          && (r.envelope(q.nr).Some? || q.nr in {ESC_CONTROL, ESC_ALLOC, ESC_FREE, ESC_ALLOC_MEMORY, ESC_XFER, ESC_GET_EVENT_DATA}))
    ensures q.Desc().Some? ==>
      var d := q.Desc().value;
      && (d.flags / F_FREE % 2 == 1 <==> IsFrontend(q.dev) && q.nr == ESC_FREE)
      && (d.flags / F_OSDESC % 2 == 1 <==> IsFrontend(q.dev) && q.nr == ESC_ALLOC_MEMORY)
      && (d.flags / F_XFER % 2 == 1 <==> IsFrontend(q.dev) && q.nr == ESC_XFER)
      && Some(d.size) == if IsUvm(q.dev) then r.uvmSize(q.nr) else Some(SIZE_FROM_IOC)
  {
    assert IoctlFor(q.p.ioctls, q.dev, q.nr) == RowFor(r, q.dev, q.nr);
  }

  // ----------------------------------------------------------- the fd in the params

  /** `alloc_fd_field` and `alloc_fd_guard` of the class an ALLOC names. */
  function AllocFd(r: Rules, c: u32, params: seq<byte>): FdSpec {
    match r.allocFd(c)
    case None => NoField
    case Some(off) =>
      if !RangeValid(off, 8, |params|) then BadField(EINVAL)
      else match r.allocFdGuard(c)
        case None => FdSpec.Field(off, 8)
        case Some((at, v)) =>
          if !RangeValid(at, 4, |params|) then BadField(EINVAL)
          else if Rd32(params, at) == v then FdSpec.Field(off, 8) else NoField
  }

  /** `ctrl_fd_offset` of the command a CONTROL names. */
  function ControlFd(r: Rules, cmd: u32, params: seq<byte>): FdSpec {
    match r.fdOffset(cmd)
    case None => NoField
    case Some(off) => if !RangeValid(off, 4, |params|) then BadField(EINVAL) else FdSpec.Field(off, 4)
  }

  /** The fd inside the params, by the rules. */
  function RuleFd(r: Rules, dev: u32, nr: u32, inl: seq<byte>, params: seq<byte>): (f: FdSpec)
    ensures f.Field? ==> f.off + f.len <= |params|
  {
    if !IsFrontend(dev) then NoField
    else if nr == ESC_ALLOC && |inl| >= 16 then
      (if r.allocSize(Rd32(inl, 12)).Some? then AllocFd(r, Rd32(inl, 12), params) else NoField)
    else if nr == ESC_CONTROL && |inl| >= 12 then ControlFd(r, Rd32(inl, 8), params)
    else NoField
  }

  lemma AllocFdAgrees(r: Rules, q: Request, inl: seq<byte>, params: seq<byte>)
    requires Ruled(r, q, inl) && IsFrontend(q.dev) && q.nr == ESC_ALLOC
    ensures AuxFd(q, inl, params) == RuleFd(r, q.dev, q.nr, inl, params)
  {
    assert IoctlFor(q.p.ioctls, q.dev, q.nr) == RowFor(r, q.dev, q.nr);
    var c := Rd32(inl, 12);
    assert ClassFits(r, c);
    assert ClassFor(q.p.classes, c) == if c <= CLASS_SCAN_MAX then ClassRowFor(r, c) else None;
  }

  lemma ControlFdAgrees(r: Rules, q: Request, inl: seq<byte>, params: seq<byte>)
    requires Ruled(r, q, inl) && IsFrontend(q.dev) && q.nr == ESC_CONTROL
    ensures AuxFd(q, inl, params) == RuleFd(r, q.dev, q.nr, inl, params)
  {
    assert IoctlFor(q.p.ioctls, q.dev, q.nr) == RowFor(r, q.dev, q.nr);
    var cmd := Rd32(inl, 8);
    assert r.fdOffset(cmd).Some? <==> cmd in r.fdCmds;
    assert CtrlFor(q.p.ctrls, cmd).Some? <==> Listed(r, cmd);
    assert CtrlSaysSo(r, q.p, cmd);
  }

  /**
   * For every accepted request and every params buffer the one fd field the
   * rows name inside the params is the rule's, guards and ranges included; a
   * request with two of them does not occur.
   */
  lemma AuxFdAgrees(r: Rules, q: Request, inl: seq<byte>, params: seq<byte>)
    requires Ruled(r, q, inl)
    ensures AuxFd(q, inl, params) == RuleFd(r, q.dev, q.nr, inl, params) != BadField(EOPNOTSUPP)
  {
    if IsFrontend(q.dev) && q.nr == ESC_ALLOC {
      AllocFdAgrees(r, q, inl, params);
    } else if IsFrontend(q.dev) && q.nr == ESC_CONTROL {
      ControlFdAgrees(r, q, inl, params);
    } else {
      assert IoctlFor(q.p.ioctls, q.dev, q.nr) == RowFor(r, q.dev, q.nr);
    }
  }

  // ---------------------------------------------------------------- nested pointers

  /** What the rules say of one nested pointer on these params. */
  function RulePlan(p: NestedPtr, params: seq<byte>): RowPlan {
    if p.ptrOff + 8 > |params| then Skip
    else match Resolve(p.len, params)
      case None => Bad
      case Some(len) =>
        if Rd64(params, p.ptrOff) != 0 && len != 0 then Live(Plan(p.ptrOff, Rd64(params, p.ptrOff), len)) else Skip
  }

  function RulePointers(r: Rules, dev: u32, nr: u32, inl: seq<byte>): seq<NestedPtr> {
    if IsFrontend(dev) && nr == ESC_CONTROL && |inl| >= 12 && Rd32(inl, 8) in r.nestedCmds then r.nested(Rd32(inl, 8)) else []
  }

  /** The nested rows of a call are the rules' pointers, one by one: the same are live, the same are skipped, the same fail. */
  lemma NestedPlanAgrees(r: Rules, q: Request, inl: seq<byte>, params: seq<byte>)
    requires Ruled(r, q, inl) && |params| < U32
    ensures var rows, ps := RowsOfCall(q, inl), RulePointers(r, q.dev, q.nr, inl);
      |rows| == |ps| && forall i :: 0 <= i < |ps| ==> PlanRow(rows[i], params) == RulePlan(ps[i], params) && rows[i].ptrOff == ps[i].ptrOff
  {
    assert IoctlFor(q.p.ioctls, q.dev, q.nr) == RowFor(r, q.dev, q.nr);
    if IsFrontend(q.dev) && q.nr == ESC_CONTROL {
      var cmd := Rd32(inl, 8);
      assert CtrlFor(q.p.ctrls, cmd).Some? <==> Listed(r, cmd);
      assert CtrlSaysSo(r, q.p, cmd);
      forall i | 0 <= i < |RulePointers(r, q.dev, q.nr, inl)| ensures PlanRow(RowsOfCall(q, inl)[i], params) == RulePlan(r.nested(cmd)[i], params)
      {
        SameLength(r.nested(cmd)[i], params);
      }
    }
  }

  // ----------------------------------------------------------------- OS descriptors

  /** A userspace ALLOC_MEMORY of the OS-descriptor class. */
  predicate RuleOsdesc(q: Request, inl: seq<byte>) {
    !q.kern && IsFrontend(q.dev) && q.nr == ESC_ALLOC_MEMORY && |inl| >= 16 && Rd32(inl, 12) == q.h.osdescClass
  }

  lemma OsdescAgrees(r: Rules, q: Request, inl: seq<byte>)
    requires Ruled(r, q, inl)
    ensures FormOf(q, inl).UserForm? <==> RuleOsdesc(q, inl)
    ensures FormOf(q, inl).KernelForm? <==>
      q.kern && q.nr == ESC_ALLOC && q.Desc().Some? && |inl| >= 16 && Rd32(inl, 12) == q.h.osdescClass
  {
    assert IoctlFor(q.p.ioctls, q.dev, q.nr) == RowFor(r, q.dev, q.nr);
  }

  // ------------------------------------------------------------------ all of them

  /** Inline byte `j` must not reach the host as it is, by the rules. */
  predicate RuleInline(r: Rules, q: Request, inl: seq<byte>, j: nat) {
    || (Wanted(r, q.h.maxAux, q.dev, q.nr, inl).Take?
        && var off := Wanted(r, q.h.maxAux, q.dev, q.nr, inl).off; off <= j < off + 8)
    || (!q.kern && FdFieldOffset(q.dev, q.nr).Some? && FdFieldOffset(q.dev, q.nr).value <= j < FdFieldOffset(q.dev, q.nr).value + 4)
    || (RuleOsdesc(q, inl)
        && (q.h.osdescPmemOff <= j < q.h.osdescPmemOff + 8 || q.h.osdescLimitOff <= j < q.h.osdescLimitOff + 8))
  }

  /** Nor params byte `j`. */
  predicate RuleParam(r: Rules, q: Request, inl: seq<byte>, params: seq<byte>, j: nat) {
    || (exists i :: 0 <= i < |RulePointers(r, q.dev, q.nr, inl)| && InLivePointer(RulePointers(r, q.dev, q.nr, inl)[i], params, j))
    || (var f := RuleFd(r, q.dev, q.nr, inl, params); f.Field? && f.off <= j < f.off + f.len)
  }

  predicate InLivePointer(p: NestedPtr, params: seq<byte>, j: nat) {
    RulePlan(p, params).Live? && p.ptrOff <= j < p.ptrOff + 8
  }

  /** The inline bytes the tables name are those of the rules. */
  lemma InlineFieldsAreTheRules(r: Rules, q: Request, inl: seq<byte>, j: nat)
    requires Ruled(r, q, inl) && !Unsized(r, q.dev, q.nr)
    ensures TableInline(q, inl, j) <==> RuleInline(r, q, inl, j)
  {
    GuestAgrees(r, q.p, q.h.maxAux, q.dev, q.nr, inl);
    InlineFdAgrees(r, q, inl);
    OsdescAgrees(r, q, inl);
  }

  /** So are the params bytes. */
  lemma ParamFieldsAreTheRules(r: Rules, q: Request, inl: seq<byte>, params: seq<byte>, j: nat)
    requires Ruled(r, q, inl) && |params| < U32
    ensures TableParam(q, inl, params, j) <==> RuleParam(r, q, inl, params, j)
  {
    AuxFdAgrees(r, q, inl, params);
    NestedPlanAgrees(r, q, inl, params);
    var rows, ps := RowsOfCall(q, inl), RulePointers(r, q.dev, q.nr, inl);
    forall i | 0 <= i < |ps| ensures InLiveRow(q, inl, params, i, j) <==> InLivePointer(ps[i], params, j) {
      assert PlanRow(rows[i], params) == RulePlan(ps[i], params);
    }
  }

  // ------------------------------------------------------------- when a call is sent

  /** An fd field that holds no number, or the number of a file its caller may name. */
  predicate FdUsable(files: Files, refuse: bool, s: seq<byte>) { Signed(s) < 0 || (!refuse && TokenOf(files, s).Some?) }

  predicate InlineFdUsable(q: Request, files: Files, inl: seq<byte>) {
    var f := FdFieldOffset(q.dev, q.nr);
    q.kern || f.None? || (f.value + 4 <= |inl| && FdUsable(files, false, inl[f.value..f.value + 4]))
  }

  predicate AuxFdUsable(r: Rules, q: Request, files: Files, kthread: bool, inl: seq<byte>, params: seq<byte>) {
    var f := RuleFd(r, q.dev, q.nr, inl, params);
    !f.BadField? && (f.Field? ==> FdUsable(files, q.kern && (q.nr == ESC_ALLOC || kthread), params[f.off..f.off + f.len]))
  }

  /** The bytes behind the live ones of the first `n` pointers. */
  function LiveBytes(ps: seq<NestedPtr>, params: seq<byte>, n: nat): nat
    requires n <= |ps|
  {
    if n == 0 then 0
    else LiveBytes(ps, params, n - 1) + (if RulePlan(ps[n - 1], params).Live? then RulePlan(ps[n - 1], params).e.len else 0)
  }

  /** Few enough pointers, each with a length, the live ones readable, and all of it together within the limit. */
  predicate PointersUsable(ps: seq<NestedPtr>, params: seq<byte>, maxAux: nat, g: Mem) {
    && |ps| <= MAX_NESTED && |params| + LiveBytes(ps, params, |ps|) <= maxAux
    && forall i :: 0 <= i < |ps| ==> PointerUsable(ps[i], params, g)
  }

  predicate PointerUsable(p: NestedPtr, params: seq<byte>, g: Mem) {
    match RulePlan(p, params)
    case Skip => true
    case Bad => false
    case Live(e) => Mapped(g, e.gva, e.len)
  }

  predicate PagesUsable(pages: Pinned, space: nat) {
    pages.Some? && pages.value != [] && 16 * |PageRuns.Coalesce(pages.value)| <= space
  }

  /** No OS descriptor, or one in the form its caller may use, with pinned pages whose runs fit. */
  predicate OsdescUsable(q: Request, inl: seq<byte>, params: seq<byte>, pages: Pinned)
    requires q.h.maxAux >= OSDESC_PARAMS_SIZE
  {
    if q.kern && q.nr == ESC_ALLOC then
      q.Desc().Some? && |inl| >= 16 && Rd32(inl, 12) == q.h.osdescClass ==>
        && |params| >= OSDESC_PARAMS_SIZE && Rd32(params, OSDESC_TYPE_OFF) == OSDESC_DMA_BUF
        && Rd64(params, OSDESC_DESCRIPTOR_OFF) != 0 && PagesUsable(pages, q.h.maxAux - OSDESC_PARAMS_SIZE)
    else
      IsFrontend(q.dev) && q.nr == ESC_ALLOC_MEMORY ==>
        && |inl| >= 16
        && (Rd32(inl, 12) == q.h.osdescClass ==>
              && !q.kern && DescriptorInside(q, |inl|)
              && WholePages(Rd64(inl, q.h.osdescPmemOff), Rd64(inl, q.h.osdescLimitOff)) && PagesUsable(pages, q.h.maxAux))
  }

  /** What the rules ask of a call before it is sent to the host. */
  predicate Sendable(r: Rules, q: Request, files: Files, kthread: bool, pages: Pinned, g: Mem)
    requires q.h.maxAux >= OSDESC_PARAMS_SIZE
  {
    && Mapped(g, q.addr, q.size)
    && var inl := Fetch(g, q.addr, q.size);
    && InlineFdUsable(q, files, inl)
    && match Wanted(r, q.h.maxAux, q.dev, q.nr, inl)
       case Fail(_) => false
       case Nothing => OsdescUsable(q, inl, [], pages)
       case Take(off, len) =>
         && off + 8 <= |inl| && Mapped(g, Rd64(inl, off), len)
         && var params := Fetch(g, Rd64(inl, off), len);
         && PointersUsable(RulePointers(r, q.dev, q.nr, inl), params, q.h.maxAux, g)
         && AuxFdUsable(r, q, files, kthread, inl, params) && OsdescUsable(q, inl, params, pages)
  }

  lemma InlineFdDoneIff(r: Rules, q: Request, files: Files, inl: seq<byte>)
    requires Ruled(r, q, inl) && !Unsized(r, q.dev, q.nr)
    ensures InlineFdStatus(q, files, inl).Done? <==> InlineFdUsable(q, files, inl)
  {
    InlineFdAgrees(r, q, inl);
  }

  lemma AuxFdDoneIff(r: Rules, q: Request, files: Files, kthread: bool, inl: seq<byte>, params: seq<byte>)
    requires Ruled(r, q, inl)
    ensures AuxFdStatus(q, files, kthread, inl, params).Done? <==> AuxFdUsable(r, q, files, kthread, inl, params)
  {
    AuxFdAgrees(r, q, inl, params);
    assert IoctlFor(q.p.ioctls, q.dev, q.nr) == RowFor(r, q.dev, q.nr);
  }

  lemma {:induction false} ExtentIsLiveBytes(rows: seq<NestedRow>, ps: seq<NestedPtr>, params: seq<byte>, n: nat)
    requires n <= |rows| == |ps| && forall i :: 0 <= i < |ps| ==> PlanRow(rows[i], params) == RulePlan(ps[i], params)
    ensures Extent(rows, params, n) == |params| + LiveBytes(ps, params, n)
    decreases n
  {
    if n > 0 {
      ExtentIsLiveBytes(rows, ps, params, n - 1);
      ExtentNext(rows, params, n - 1);
    }
  }

  /** The planned buffers can be read exactly if every live row's can. */
  lemma PlanMappedIff(rows: seq<NestedRow>, params: seq<byte>, g: Mem)
    ensures PlanMapped(g, LivePlans(rows, params, |rows|)) <==>
      forall i :: 0 <= i < |rows| && PlanRow(rows[i], params).Live? ==> Mapped(g, PlanRow(rows[i], params).e.gva, PlanRow(rows[i], params).e.len)
  {
    var plan := LivePlans(rows, params, |rows|);
    if PlanMapped(g, plan) {
      forall i | 0 <= i < |rows| && PlanRow(rows[i], params).Live?
        ensures Mapped(g, PlanRow(rows[i], params).e.gva, PlanRow(rows[i], params).e.len)
      {
        PlansAreLive(rows, params, |rows|, PlanRow(rows[i], params).e);
        var k :| 0 <= k < |plan| && plan[k] == PlanRow(rows[i], params).e;
        assert Mapped(g, plan[k].gva, plan[k].len);
      }
    } else {
      var k :| 0 <= k < |plan| && !Mapped(g, plan[k].gva, plan[k].len);
      PlansAreLive(rows, params, |rows|, plan[k]);
    }
  }

  lemma NestedStatusIs(r: Rules, q: Request, inl: seq<byte>, params: seq<byte>)
    requires Ruled(r, q, inl) && |params| < U32
    ensures var rows := RowsOfCall(q, inl);
      NestedStatus(q, inl, params) == if |rows| > MAX_NESTED then Protocol else PlanStatus(rows, params, q.h.maxAux, |rows|)
  {
    assert IoctlFor(q.p.ioctls, q.dev, q.nr) == RowFor(r, q.dev, q.nr);
    if IsFrontend(q.dev) && q.nr == ESC_CONTROL {
      var cmd := Rd32(inl, 8);
      assert CtrlFor(q.p.ctrls, cmd).Some? <==> Listed(r, cmd);
      assert CtrlSaysSo(r, q.p, cmd);
    }
  }

  lemma SecondDoneIff(r: Rules, q: Request, inl: seq<byte>, params: seq<byte>, g: Mem)
    requires Ruled(r, q, inl) && |params| < U32 && |params| <= q.h.maxAux
    ensures SecondStatus(q, inl, params, g).Done? <==> PointersUsable(RulePointers(r, q.dev, q.nr, inl), params, q.h.maxAux, g)
  {
    var rows, ps := RowsOfCall(q, inl), RulePointers(r, q.dev, q.nr, inl);
    NestedPlanAgrees(r, q, inl, params);
    NestedStatusIs(r, q, inl, params);
    PlanDoneIff(rows, params, q.h.maxAux, |rows|);
    ExtentIsLiveBytes(rows, ps, params, |rows|);
    PlanMappedIff(rows, params, g);
    UsableIff(rows, ps, params, g);
  }

  lemma UsableIff(rows: seq<NestedRow>, ps: seq<NestedPtr>, params: seq<byte>, g: Mem)
    requires |rows| == |ps| && forall i :: 0 <= i < |ps| ==> PlanRow(rows[i], params) == RulePlan(ps[i], params)
    ensures (forall i :: 0 <= i < |ps| ==> PointerUsable(ps[i], params, g)) <==>
      && (forall i :: 0 <= i < |rows| ==> !PlanRow(rows[i], params).Bad?)
      && (forall i :: 0 <= i < |rows| && PlanRow(rows[i], params).Live? ==> Mapped(g, PlanRow(rows[i], params).e.gva, PlanRow(rows[i], params).e.len))
  {
    forall i | 0 <= i < |ps|
      ensures PointerUsable(ps[i], params, g) <==>
        && !PlanRow(rows[i], params).Bad?
        && (PlanRow(rows[i], params).Live? ==> Mapped(g, PlanRow(rows[i], params).e.gva, PlanRow(rows[i], params).e.len))
    {
    }
  }

  lemma OsdescDoneIff(r: Rules, q: Request, inl: seq<byte>, params: seq<byte>, pages: Pinned)
    requires Ruled(r, q, inl) && q.h.maxAux >= OSDESC_PARAMS_SIZE
    ensures OsdescStatus(q, inl, params, pages).Done? <==> OsdescUsable(q, inl, params, pages)
  {
    assert IoctlFor(q.p.ioctls, q.dev, q.nr) == RowFor(r, q.dev, q.nr);
  }

  /** A call over collected tables is sent if and only if the rules find nothing wrong with it. */
  lemma SentIffSendable(r: Rules, q: Request, files: Files, kthread: bool, pages: Pinned, g: Mem)
    requires q.h.maxAux >= OSDESC_PARAMS_SIZE && q.h.maxAux < U32 && !Unsized(r, q.dev, q.nr)
    requires Mapped(g, q.addr, q.size) ==> Ruled(r, q, Fetch(g, q.addr, q.size))
    ensures GatherStatus(q, files, kthread, pages, g).Done? <==> Sendable(r, q, files, kthread, pages, g)
  {
    if Mapped(g, q.addr, q.size) {
      var inl := Fetch(g, q.addr, q.size);
      GuestAgrees(r, q.p, q.h.maxAux, q.dev, q.nr, inl);
      InlineFdDoneIff(r, q, files, inl);
      TakeMeans(q, inl);
      if q.Decide(inl).Take? && Mapped(g, PtrOf(q, inl), q.Decide(inl).len) {
        var params := ParamsOf(q, inl, g);
        SecondDoneIff(r, q, inl, params, g);
        AuxFdDoneIff(r, q, files, kthread, inl, params);
        OsdescDoneIff(r, q, inl, params, pages);
      } else {
        OsdescDoneIff(r, q, inl, [], pages);
      }
    }
  }
}
