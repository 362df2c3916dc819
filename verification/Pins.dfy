/** Which replies prove that the host let go of an object (nvrm_identity.h). */
module Identity {
  import opened Common
  import opened Bytes

  datatype Key = Key(client: nat, handle: nat)

  datatype OsdescResult = Unknown | Rejected | Created(handle: nat)

  const KSIZE_FREE := 16
  const NVOS00_HROOT_OFF := 0
  const NVOS00_HOBJECTOLD_OFF := 8
  const NVOS00_STATUS_OFF := 12

  /** `nvrm_free_reply`: the object an acknowledged FREE names. */
  function FreeReply(reply: seq<byte>, ret: int): (key: Option<Key>)
    ensures key.Some? <==> ret == 0 && KSIZE_FREE <= |reply| && Rd32(reply, NVOS00_STATUS_OFF) == 0
    ensures key.Some? ==> key.value.client == Rd32(reply, NVOS00_HROOT_OFF) && key.value.handle == Rd32(reply, NVOS00_HOBJECTOLD_OFF)
  {
    if ret != 0 || |reply| < KSIZE_FREE then None
    else if Rd32(reply, NVOS00_STATUS_OFF) != 0 then None
    else Some(Key(Rd32(reply, NVOS00_HROOT_OFF), Rd32(reply, NVOS00_HOBJECTOLD_OFF)))
  }

  /** `nvrm_osdesc_reply`: what a reply proves about an OS-descriptor allocation. */
  function OsdescReply(reply: seq<byte>, ret: int, statusOff: nat, handleOff: nat): (r: OsdescResult)
    ensures !r.Unknown? <==> ret == 0 && statusOff + 4 <= |reply| && handleOff + 4 <= |reply|
    ensures r.Rejected? ==> Rd32(reply, statusOff) != 0
    ensures r.Created? ==> Rd32(reply, statusOff) == 0 && r.handle == Rd32(reply, handleOff)
  {
    if ret != 0 || |reply| < 4 || statusOff > |reply| - 4 || handleOff > |reply| - 4 then Unknown
    else if Rd32(reply, statusOff) != 0 then Rejected
    else Created(Rd32(reply, handleOff))
  }

  /** An NVOS00 block as the host returns it. */
  function FreeBlock(root: nat, parent: nat, obj: nat, status: nat): (b: seq<byte>)
    ensures |b| == KSIZE_FREE
  {
    Encode(root, 4) + Encode(parent, 4) + Encode(obj, 4) + Encode(status, 4)
  }

  /** Reading a returned block gives the object it names, exactly when call and status say it is gone. */
  lemma FreeReplyReadsBlock(root: nat, parent: nat, obj: nat, status: nat, tail: seq<byte>, ret: int)
    requires root < U32 && parent < U32 && obj < U32 && status < U32
    ensures FreeReply(FreeBlock(root, parent, obj, status) + tail, ret) ==
      if ret == 0 && status == 0 then Some(Key(root, obj)) else None
  {
    var b := FreeBlock(root, parent, obj, status) + tail;
    assert b[0..4] == Encode(root, 4) && b[8..12] == Encode(obj, 4) && b[12..16] == Encode(status, 4);
    Rd32OfEncode(b, 0, root);
    Rd32OfEncode(b, 8, obj);
    Rd32OfEncode(b, 12, status);
  }

  /** A reply that stops short proves nothing, and cutting anything behind the block changes nothing. */
  lemma FreeReplyCut(reply: seq<byte>, n: nat, ret: int)
    requires n <= |reply|
    ensures FreeReply(reply[..n], ret) == if n < KSIZE_FREE then None else FreeReply(reply, ret)
  {
    if n >= KSIZE_FREE {
      var cut := reply[..n];
      assert cut[0..4] == reply[0..4] && cut[8..12] == reply[8..12] && cut[12..16] == reply[12..16];
    }
  }

  /** A reply carrying these two words rejects on any status but zero, and otherwise created that handle. */
  lemma OsdescReplyReads(reply: seq<byte>, statusOff: nat, handleOff: nat, status: nat, handle: nat)
    requires status < U32 && handle < U32 && statusOff + 4 <= |reply| && handleOff + 4 <= |reply|
    requires reply[statusOff..statusOff + 4] == Encode(status, 4) && reply[handleOff..handleOff + 4] == Encode(handle, 4)
    ensures OsdescReply(reply, 0, statusOff, handleOff) == if status != 0 then Rejected else Created(handle)
  {
    Rd32OfEncode(reply, statusOff, status);
    Rd32OfEncode(reply, handleOff, handle);
  }

  /** A shorter reply may prove nothing, but never something else: neither a failure nor a handle comes from missing bytes. */
  lemma OsdescReplyCut(reply: seq<byte>, n: nat, ret: int, statusOff: nat, handleOff: nat)
    requires n <= |reply|
    ensures OsdescReply(reply[..n], ret, statusOff, handleOff) ==
      if statusOff + 4 <= n && handleOff + 4 <= n then OsdescReply(reply, ret, statusOff, handleOff) else Unknown
  {
    if statusOff + 4 <= n && handleOff + 4 <= n {
      assert reply[..n][statusOff..statusOff + 4] == reply[statusOff..statusOff + 4];
      assert reply[..n][handleOff..handleOff + 4] == reply[handleOff..handleOff + 4];
    }
  }

  /** `nvrm_object_freed`: a FREE of the client root takes its children along. */
  predicate ObjectFreed(obj: Key, freed: Key) {
    obj.client == freed.client && (obj.handle == freed.handle || freed.handle == freed.client)
  }
}

/**
 * The lifetime of guest pages the host may reach, and the quota they are
 * charged to, over every run.
 *
 * Contexts run in parallel; calls on one context are serialised by its mutex.
 * The quota counters are updated one atomic operation at a time, so every
 * intermediate value is a state.  Host replies are arbitrary bytes.
 */
module Pins {
  import opened Common
  import opened Bytes
  import opened Identity

  type CtxId = nat

  datatype Kind = Pin | Pool

  /** Why pages the host had been told about were released. */
  datatype Why =
    | NeverSubmitted
    | ByReply(k: nat)                     // reply k rejected the allocation or acknowledged a FREE
    | ByClose(k: nat, stoppingSeen: bool) // reply k acknowledged the CLOSE
    | ByUnmap                             // pools: the last mapping went away

  datatype Phase =
    | Overdrawn        // charged past the limit, about to be taken back
    | Reserved         // charged, pages not yet held
    | Owned            // pages held by a call that has not submitted them
    | InFlight         // submitted, no answer yet
    | Listed           // pins: the host created the object; on the context's list
    | Mapped           // pools: the host accepted the backing
    | Leaving(why: Why)   // being unpinned, still charged
    | Dropped(why: Why)   // unpinned and uncharged
    | Retained         // moved to the quarantine list, not yet counted there
    | Quarantined

  /** `born` numbers the reply that created the host object, if one did. */
  datatype Backing = Backing(kind: Kind, pages: nat, ctx: CtxId, phase: Phase, submitted: bool, key: Key, born: Option<nat>)

  datatype CallPhase =
    | Gathering
    | Submitted
    | Answered(k: nat)   // reply k is being written back
    | Scanning(k: nat)   // reply k acknowledged a FREE: releasing what it names
    | Exit               // the common exit

  datatype Life =
    | Idle
    | Call(phase: CallPhase, pin: Option<nat>, isFree: bool, size: nat)
    | Closing(k: nat)
    | Closed

  datatype Ctx = Ctx(uncertain: bool, life: Life)

  /** What the host answered, and what the context knew when it did. */
  datatype Entry =
    | Reply(ctx: CtxId, pin: Option<nat>, isFree: bool, size: nat, ret: int, body: seq<byte>, certain: bool)
    | CloseReply(ctx: CtxId, ret: int, certain: bool)

  datatype State = State(
    limit: nat,
    statusOff: nat,
    handleOff: nat,
    objs: seq<Backing>,
    ctxs: map<CtxId, Ctx>,
    stopping: bool,
    held: int,
    quarantined: int,
    log: seq<Entry>)

  function Initial(limit: nat, statusOff: nat, handleOff: nat): State {
    State(limit, statusOff, handleOff, [], map[], false, 0, 0, [])
  }

  /** Steps that change one object. */
  datatype ObjStep =
    | GiveBack          // overdrawn, or an error before the pages are held
    | ScanTake          // the FREE scan takes a pin off the list
    | CloseTake         // the CLOSE scan takes a pin off the list
    | PoolHeld | PoolSubmit | PoolAnswer(ok: bool) | PoolFail | PoolUnmap
    | Uncharge
    | CountQuarantine

  /** Steps of `nvrm_call_run` and of the release of a context. */
  datatype CtxStep =
    | Begin(isFree: bool, size: nat)
    | PinTaken(i: nat, client: nat)    // the pages are held and belong to the call
    | FailBefore                       // any error up to and including an unsubmitted transfer
    | Submit
    | Lost                             // transport error, abandonment or malformed reply
    | Answer(ret: int, body: seq<byte>)
    | WriteBack(ok: bool)
    | ScanEnd
    | ExitPin
    | End
    | Close(ret: int)
    | CloseEnd

  datatype Action =
    | Open(c: CtxId)
    | Charge(c: CtxId, kind: Kind, pages: nat)   // nvrm_charge: one atomic add and compare
    | ObjAct(i: nat, o: ObjStep)
    | CtxAct(c: CtxId, x: CtxStep)
    | SetStopping

  /** The object a FREE acknowledged by entry `e` names, read from reply bytes only. */
  function FreedKey(e: Entry): Option<Key>
  {
    if e.Reply? && e.isFree then
      FreeReply(e.body[..if |e.body| < e.size then |e.body| else e.size], e.ret)
    else None
  }

  // ------------------------------------------------- steps of one object

  /** The pin is named by the FREE the context is scanning for. */
  predicate Named(o: Backing, x: Ctx, log: seq<Entry>) {
    && x.life.Call? && x.life.phase.Scanning? && x.life.phase.k < |log|
    && var key := FreedKey(log[x.life.phase.k]);
       key.Some? && ObjectFreed(o.key, key.value)
  }

  predicate ObjMay(o: Backing, x: Ctx, log: seq<Entry>, step: ObjStep) {
    match step
    case GiveBack => o.phase.Overdrawn? || o.phase.Reserved?
    case ScanTake => o.phase.Listed? && Named(o, x, log)
    case CloseTake => o.phase.Listed? && x.life.Closing? && x.life.k < |log| && log[x.life.k].CloseReply?
    case PoolHeld => o.kind.Pool? && o.phase.Reserved?
    case PoolSubmit => o.kind.Pool? && o.phase.Owned?
    case PoolAnswer(_) => o.kind.Pool? && o.phase.InFlight?
    case PoolFail => o.kind.Pool? && o.phase.Owned?
    case PoolUnmap => o.phase.Mapped?
    case Uncharge => o.phase.Leaving?
    case CountQuarantine => o.phase.Retained?
  }

  function ObjNext(o: Backing, x: Ctx, log: seq<Entry>, stopping: bool, step: ObjStep): Backing
    requires ObjMay(o, x, log, step)
  {
    match step
    case GiveBack => o.(phase := Dropped(NeverSubmitted))
    case ScanTake => o.(phase := Leaving(ByReply(x.life.phase.k)))
    case CloseTake =>
      o.(phase := if log[x.life.k].ret != 0 || x.uncertain || stopping then Retained
                  else Leaving(ByClose(x.life.k, stopping)))
    case PoolHeld => o.(phase := Owned)
    case PoolSubmit => o.(phase := InFlight, submitted := true)
    case PoolAnswer(ok) => o.(phase := if ok then Mapped else Retained)
    case PoolFail => o.(phase := Leaving(NeverSubmitted))
    case PoolUnmap => o.(phase := Leaving(ByUnmap))
    case Uncharge => o.(phase := Dropped(o.phase.why))
    case CountQuarantine => o.(phase := Quarantined)
  }

  // ------------------------------------------------ steps of one context

  /** The object a step of the context's call is about. */
  function Subject(x: Ctx, step: CtxStep): Option<nat> {
    if step.PinTaken? then Some(step.i) else if x.life.Call? then x.life.pin else None
  }

  /** Whether the context is where the step starts from. */
  predicate CtxMay(x: Ctx, step: CtxStep, log: seq<Entry>) {
    match step
    case Begin(_, _) => x.life.Idle?
    case PinTaken(_, _) => x.life.Call? && x.life.phase.Gathering? && x.life.pin.None? && !x.life.isFree
    case FailBefore => x.life.Call? && x.life.phase.Gathering?
    case Submit => x.life.Call? && x.life.phase.Gathering?
    case Lost => x.life.Call? && x.life.phase.Submitted?
    case Answer(_, _) => x.life.Call? && x.life.phase.Submitted?
    case WriteBack(_) => x.life.Call? && x.life.phase.Answered? && x.life.phase.k < |log|
    case ScanEnd => x.life.Call? && x.life.phase.Scanning?
    case ExitPin => x.life.Call? && x.life.phase.Exit? && x.life.pin.Some?
    case End => x.life.Call? && x.life.phase.Exit? && x.life.pin.None?
    case Close(_) => x.life.Idle?
    case CloseEnd => x.life.Closing?
  }

  function Verdict(x: Ctx, step: CtxStep, statusOff: nat, handleOff: nat): OsdescResult
    requires step.Answer?
  {
    OsdescReply(step.body, step.ret, statusOff, handleOff)
  }

  function CtxNext(x: Ctx, step: CtxStep, log: seq<Entry>, statusOff: nat, handleOff: nat): Ctx
    requires CtxMay(x, step, log)
  {
    match step
    case Begin(isFree, size) => x.(life := Call(Gathering, None, isFree, size))
    case PinTaken(i, _) => x.(life := x.life.(pin := Some(i)))
    case FailBefore => x.(life := x.life.(phase := Exit))
    case Submit => x.(life := x.life.(phase := Submitted))
    case Lost => Ctx(true, x.life.(phase := Exit))
    case Answer(_, _) =>
      if x.life.pin.None? then x.(life := x.life.(phase := Answered(|log|)))
      else if Verdict(x, step, statusOff, handleOff).Unknown? then Ctx(true, x.life.(phase := Answered(|log|)))
      else x.(life := x.life.(phase := Answered(|log|), pin := None))
    case WriteBack(ok) =>
      if ok && !x.uncertain && FreedKey(log[x.life.phase.k]).Some?
      then x.(life := x.life.(phase := Scanning(x.life.phase.k)))
      else x.(life := x.life.(phase := Exit))
    case ScanEnd => x.(life := x.life.(phase := Exit))
    case ExitPin => x.(life := x.life.(pin := None))
    case End => x.(life := Idle)
    case Close(_) => x.(life := Closing(|log|))
    case CloseEnd => x.(life := Closed)
  }

  /** What the step does to the object it is about. */
  function SubjectNext(o: Backing, step: CtxStep, k: nat, statusOff: nat, handleOff: nat): Backing {
    match step
    case PinTaken(_, client) => o.(phase := Owned, key := Key(client, 0))
    case Submit => o.(phase := InFlight, submitted := true)
    case Answer(ret, body) =>
      (match OsdescReply(body, ret, statusOff, handleOff)
       case Created(h) => o.(phase := Listed, key := Key(o.key.client, h), born := Some(k))
       case Rejected => o.(phase := Leaving(ByReply(k)))
       case Unknown => o)
    case ExitPin => o.(phase := if o.submitted then Retained else Leaving(NeverSubmitted))
    case _ => o
  }

  function LogNext(c: CtxId, x: Ctx, step: CtxStep, log: seq<Entry>, statusOff: nat, handleOff: nat): seq<Entry> {
    if step.Answer? && x.life.Call? then
      var certain := !x.uncertain && !(x.life.pin.Some? && Verdict(x, step, statusOff, handleOff).Unknown?);
      log + [Reply(c, x.life.pin, x.life.isFree, x.life.size, step.ret, step.body, certain)]
    else if step.Close? then log + [CloseReply(c, step.ret, !x.uncertain)]
    else log
  }

  // ------------------------------------------------------- the whole system

  predicate Enabled(s: State, a: Action) {
    match a
    case Open(c) => c !in s.ctxs
    case Charge(c, kind, pages) =>
      && c in s.ctxs
      && (kind.Pin? ==> s.ctxs[c].life.Call? && s.ctxs[c].life.phase.Gathering?)
    case ObjAct(i, step) =>
      && i < |s.objs| && s.objs[i].ctx in s.ctxs
      && ObjMay(s.objs[i], s.ctxs[s.objs[i].ctx], s.log, step)
    case CtxAct(c, step) =>
      && c in s.ctxs && CtxMay(s.ctxs[c], step, s.log)
      && (Subject(s.ctxs[c], step).Some? ==> Subject(s.ctxs[c], step).value < |s.objs|)
      && (step.PinTaken? ==> s.objs[step.i].kind.Pin? && s.objs[step.i].phase.Reserved? && s.objs[step.i].ctx == c)
      && (step.Submit? ==> !s.stopping)
      // the scans run over the whole list
      && (step.ScanEnd? ==>
            forall i :: 0 <= i < |s.objs| && s.objs[i].ctx == c && s.objs[i].phase.Listed? ==> !Named(s.objs[i], s.ctxs[c], s.log))
      && (step.CloseEnd? ==> forall i :: 0 <= i < |s.objs| && s.objs[i].ctx == c ==> !s.objs[i].phase.Listed?)
      // a call does not return with a reservation of its own half made
      && (step.End? ==>
            forall i :: 0 <= i < |s.objs| && s.objs[i].ctx == c && s.objs[i].kind.Pin?
              ==> !s.objs[i].phase.Reserved? && !s.objs[i].phase.Overdrawn?)
    case SetStopping => !s.stopping
  }

  function Apply(s: State, a: Action): (s': State)
    requires Enabled(s, a)
  {
    match a
    case Open(c) => s.(ctxs := s.ctxs[c := Ctx(false, Idle)])
    case Charge(c, kind, pages) =>
      var phase := if s.held + pages > s.limit then Overdrawn else Reserved;
      s.(held := s.held + pages, objs := s.objs + [Backing(kind, pages, c, phase, false, Key(0, 0), None)])
    case ObjAct(i, step) =>
      var o := s.objs[i];
      s.(objs := s.objs[i := ObjNext(o, s.ctxs[o.ctx], s.log, s.stopping, step)],
         held := if step.GiveBack? || step.Uncharge? then s.held - o.pages else s.held,
         quarantined := if step.CountQuarantine? then s.quarantined + o.pages else s.quarantined)
    case CtxAct(c, step) =>
      var x := s.ctxs[c];
      var subject := Subject(x, step);
      s.(ctxs := s.ctxs[c := CtxNext(x, step, s.log, s.statusOff, s.handleOff)],
         objs := if subject.None? then s.objs
                 else s.objs[subject.value := SubjectNext(s.objs[subject.value], step, |s.log|, s.statusOff, s.handleOff)],
         log := LogNext(c, x, step, s.log, s.statusOff, s.handleOff))
    case SetStopping => s.(stopping := true)
  }

  predicate Run(s: State, acts: seq<Action>)
    decreases |acts|
  {
    acts == [] || (Enabled(s, acts[0]) && Run(Apply(s, acts[0]), acts[1..]))
  }

  function After(s: State, acts: seq<Action>): State
    requires Run(s, acts)
    decreases |acts|
  {
    if acts == [] then s else After(Apply(s, acts[0]), acts[1..])
  }

  // -------------------------------------------------------------- invariant

  /** Reply `c` created the host object of pin `i` under its present handle. */
  predicate CreatedBy(i: nat, o: Backing, c: nat, log: seq<Entry>, statusOff: nat, handleOff: nat) {
    && c < |log| && log[c].Reply? && log[c].ctx == o.ctx && log[c].pin == Some(i) && !log[c].isFree
    && OsdescReply(log[c].body, log[c].ret, statusOff, handleOff) == Created(o.key.handle)
  }

  predicate BornBefore(o: Backing, k: nat) { o.born.Some? && o.born.value < k }

  /** An object on the list is there by a reply that precedes whatever its context is acting on. */
  predicate BornInv(i: nat, o: Backing, ctx: Ctx, log: seq<Entry>, statusOff: nat, handleOff: nat) {
    && (o.born.Some? ==> CreatedBy(i, o, o.born.value, log, statusOff, handleOff))
    && (o.phase.Overdrawn? || o.phase.Reserved? || o.phase.Owned? || o.phase.InFlight? ==> o.born.None?)
    && (o.phase.Listed? ==>
          && o.born.Some?
          && (ctx.life.Call? && ctx.life.phase.Answered? ==> o.born.value <= ctx.life.phase.k)
          && (ctx.life.Call? && ctx.life.phase.Scanning? ==> o.born.value < ctx.life.phase.k)
          && (ctx.life.Closing? ==> o.born.value < ctx.life.k))
  }

  /** Why the pages could go: the host's own words, read while the context was certain. */
  predicate Justified(i: nat, o: Backing, why: Why, log: seq<Entry>, statusOff: nat, handleOff: nat) {
    match why
    case NeverSubmitted => !o.submitted
    case ByReply(k) =>
      && k < |log| && log[k].Reply? && log[k].ctx == o.ctx
      && (|| (log[k].pin == Some(i) && OsdescReply(log[k].body, log[k].ret, statusOff, handleOff).Rejected?)
          || (log[k].certain && FreedKey(log[k]).Some? && ObjectFreed(o.key, FreedKey(log[k]).value) && BornBefore(o, k)))
    case ByClose(k, stoppingSeen) =>
      && k < |log| && log[k].CloseReply? && log[k].ctx == o.ctx
      && log[k].ret == 0 && log[k].certain && !stoppingSeen && BornBefore(o, k)
    case ByUnmap => o.kind.Pool?
  }

  /** One backing object, given its context. */
  predicate ObjInv(i: nat, o: Backing, ctx: Ctx, log: seq<Entry>, statusOff: nat, handleOff: nat) {
    && BornInv(i, o, ctx, log, statusOff, handleOff)
    && (o.phase.Overdrawn? || o.phase.Reserved? || o.phase.Owned? ==> !o.submitted)
    && (o.phase.InFlight? || o.phase.Listed? || o.phase.Mapped? || o.phase.Retained? || o.phase.Quarantined? ==> o.submitted)
    && (o.phase.Leaving? || o.phase.Dropped? ==>
          && Justified(i, o, o.phase.why, log, statusOff, handleOff)
          && (!o.submitted ==> o.phase.why.NeverSubmitted?))
    && (o.kind.Pool? ==> !o.phase.Listed? && !(ctx.life.Call? && ctx.life.pin == Some(i)))
    && (o.kind.Pin? ==>
          && !o.phase.Mapped?
          && (o.phase.Overdrawn? || o.phase.Reserved? ==> ctx.life.Call?)
          && (o.phase.Listed? ==> !ctx.life.Closed?)
          && (ctx.life.Call? && ctx.life.pin == Some(i) <==> o.phase.Owned? || o.phase.InFlight?)
          && (o.phase.Owned? ==> ctx.life.phase.Gathering? || ctx.life.phase.Exit?)
          && (o.phase.InFlight? ==> !ctx.life.phase.Gathering?))
  }

  /** One context, given the log. */
  predicate CtxInv(c: CtxId, x: Ctx, log: seq<Entry>, nobjs: nat) {
    match x.life
    case Call(p, pin, isFree, size) =>
      && (pin.Some? ==> pin.value < nobjs && !isFree)
      && (p.Answered? ==> p.k < |log| && log[p.k].Reply? && log[p.k].ctx == c && log[p.k].certain == !x.uncertain)
      && (p.Scanning? ==>
            && p.k < |log| && log[p.k].Reply? && log[p.k].ctx == c && log[p.k].certain
            && FreedKey(log[p.k]).Some?)
    case Closing(k) => k < |log| && log[k].CloseReply? && log[k].ctx == c && log[k].certain == !x.uncertain
    case _ => true
  }

  predicate ObjOk(s: State, i: nat)
    requires i < |s.objs|
  {
    s.objs[i].ctx in s.ctxs && ObjInv(i, s.objs[i], s.ctxs[s.objs[i].ctx], s.log, s.statusOff, s.handleOff)
  }

  predicate OwnershipInv(s: State) {
    && (forall i :: 0 <= i < |s.objs| ==> ObjOk(s, i))
    && (forall c :: c in s.ctxs ==> CtxInv(c, s.ctxs[c], s.log, |s.objs|))
    && (forall c :: c in s.ctxs && s.ctxs[c].life.Call? && s.ctxs[c].life.pin.Some? ==>
          && s.ctxs[c].life.pin.value < |s.objs|
          && s.objs[s.ctxs[c].life.pin.value].ctx == c)
  }

  lemma ObjStepLocal(i: nat, o: Backing, x: Ctx, log: seq<Entry>, stopping: bool, step: ObjStep, c: CtxId, n: nat,
                     statusOff: nat, handleOff: nat)
    requires ObjInv(i, o, x, log, statusOff, handleOff) && CtxInv(c, x, log, n) && o.ctx == c
    requires ObjMay(o, x, log, step)
    ensures ObjInv(i, ObjNext(o, x, log, stopping, step), x, log, statusOff, handleOff)
  {
  }

  lemma CtxStepLocal(c: CtxId, x: Ctx, step: CtxStep, log: seq<Entry>, n: nat, statusOff: nat, handleOff: nat)
    requires CtxInv(c, x, log, n) && CtxMay(x, step, log)
    requires Subject(x, step).Some? ==> Subject(x, step).value < n
    ensures CtxInv(c, CtxNext(x, step, log, statusOff, handleOff), LogNext(c, x, step, log, statusOff, handleOff), n)
  {
  }

  /** The object the step is about. */
  lemma SubjectLocal(i: nat, o: Backing, c: CtxId, x: Ctx, step: CtxStep, log: seq<Entry>, n: nat, statusOff: nat, handleOff: nat)
    requires ObjInv(i, o, x, log, statusOff, handleOff) && CtxInv(c, x, log, n) && CtxMay(x, step, log) && o.ctx == c
    requires Subject(x, step) == Some(i)
    requires step.PinTaken? ==> o.kind.Pin? && o.phase.Reserved?
    ensures ObjInv(i, SubjectNext(o, step, |log|, statusOff, handleOff), CtxNext(x, step, log, statusOff, handleOff),
                   LogNext(c, x, step, log, statusOff, handleOff), statusOff, handleOff)
  {
  }

  /** The context's other objects. */
  lemma BystanderLocal(i: nat, o: Backing, c: CtxId, x: Ctx, step: CtxStep, log: seq<Entry>, n: nat, statusOff: nat, handleOff: nat)
    requires ObjInv(i, o, x, log, statusOff, handleOff) && CtxInv(c, x, log, n) && CtxMay(x, step, log) && o.ctx == c
    requires Subject(x, step) != Some(i)
    requires step.CloseEnd? ==> !o.phase.Listed?
    requires step.End? && o.kind.Pin? ==> !o.phase.Reserved? && !o.phase.Overdrawn?
    ensures ObjInv(i, o, CtxNext(x, step, log, statusOff, handleOff),
                   LogNext(c, x, step, log, statusOff, handleOff), statusOff, handleOff)
  {
  }

  /** A longer log proves no less. */
  lemma LongerLogObj(i: nat, o: Backing, x: Ctx, c: CtxId, x1: Ctx, step: CtxStep, log: seq<Entry>, statusOff: nat, handleOff: nat)
    requires ObjInv(i, o, x, log, statusOff, handleOff)
    ensures ObjInv(i, o, x, LogNext(c, x1, step, log, statusOff, handleOff), statusOff, handleOff)
  {
  }

  lemma LongerLogCtx(d: CtxId, x: Ctx, c: CtxId, x1: Ctx, step: CtxStep, log: seq<Entry>, n: nat, statusOff: nat, handleOff: nat)
    requires CtxInv(d, x, log, n)
    ensures CtxInv(d, x, LogNext(c, x1, step, log, statusOff, handleOff), n)
  {
  }

  lemma ObjActKeepsOwnership(s: State, i: nat, step: ObjStep)
    requires OwnershipInv(s) && Enabled(s, ObjAct(i, step))
    ensures OwnershipInv(Apply(s, ObjAct(i, step)))
  {
    var s' := Apply(s, ObjAct(i, step));
    forall j | 0 <= j < |s'.objs| ensures ObjOk(s', j) {
      assert ObjOk(s, j);
      if j == i {
        var o := s.objs[i];
        ObjStepLocal(i, o, s.ctxs[o.ctx], s.log, s.stopping, step, o.ctx, |s.objs|, s.statusOff, s.handleOff);
      }
    }
  }

  lemma CtxActKeepsObjects(s: State, c: CtxId, step: CtxStep, j: nat)
    requires OwnershipInv(s) && Enabled(s, CtxAct(c, step)) && j < |s.objs|
    ensures ObjOk(Apply(s, CtxAct(c, step)), j)
  {
    assert ObjOk(s, j);
    var o, x := s.objs[j], s.ctxs[c];
    assert CtxInv(c, x, s.log, |s.objs|);
    if o.ctx != c {
      LongerLogObj(j, o, s.ctxs[o.ctx], c, x, step, s.log, s.statusOff, s.handleOff);
    } else if Subject(x, step) == Some(j) {
      SubjectLocal(j, o, c, x, step, s.log, |s.objs|, s.statusOff, s.handleOff);
    } else {
      BystanderLocal(j, o, c, x, step, s.log, |s.objs|, s.statusOff, s.handleOff);
    }
  }

  lemma CtxActKeepsContexts(s: State, c: CtxId, step: CtxStep, d: CtxId)
    requires OwnershipInv(s) && Enabled(s, CtxAct(c, step)) && d in s.ctxs
    ensures var s' := Apply(s, CtxAct(c, step)); CtxInv(d, s'.ctxs[d], s'.log, |s'.objs|)
  {
    if d == c {
      CtxStepLocal(c, s.ctxs[c], step, s.log, |s.objs|, s.statusOff, s.handleOff);
    } else {
      LongerLogCtx(d, s.ctxs[d], c, s.ctxs[c], step, s.log, |s.objs|, s.statusOff, s.handleOff);
    }
  }

  lemma CtxActKeepsOwnership(s: State, c: CtxId, step: CtxStep)
    requires OwnershipInv(s) && Enabled(s, CtxAct(c, step))
    ensures OwnershipInv(Apply(s, CtxAct(c, step)))
  {
    var s' := Apply(s, CtxAct(c, step));
    forall j | 0 <= j < |s'.objs| ensures ObjOk(s', j) {
      CtxActKeepsObjects(s, c, step, j);
    }
    forall d | d in s'.ctxs ensures CtxInv(d, s'.ctxs[d], s'.log, |s'.objs|) {
      CtxActKeepsContexts(s, c, step, d);
    }
  }

  lemma OtherKeepsOwnership(s: State, a: Action)
    requires OwnershipInv(s) && Enabled(s, a) && (a.Open? || a.Charge? || a.SetStopping?)
    ensures OwnershipInv(Apply(s, a))
  {
    var s' := Apply(s, a);
    forall i | 0 <= i < |s'.objs| ensures ObjOk(s', i) {
      if i < |s.objs| { assert ObjOk(s, i); }
      else if s.ctxs[a.c].life.Call? { assert CtxInv(a.c, s.ctxs[a.c], s.log, |s.objs|); }
    }
    forall c | c in s'.ctxs ensures CtxInv(c, s'.ctxs[c], s'.log, |s'.objs|) {
      if c in s.ctxs { assert CtxInv(c, s.ctxs[c], s.log, |s.objs|); }
    }
  }

  // ------------------------------------------------------------------ quota

  function Sum(objs: seq<Backing>, weight: Backing -> nat): nat {
    if objs == [] then 0 else weight(objs[0]) + Sum(objs[1..], weight)
  }

  lemma {:induction false} SumUpdate(objs: seq<Backing>, weight: Backing -> nat, i: nat, o: Backing)
    requires i < |objs|
    ensures Sum(objs[i := o], weight) == Sum(objs, weight) - weight(objs[i]) + weight(o)
    decreases |objs|
  {
    if i == 0 {
      assert objs[i := o][1..] == objs[1..];
    } else {
      assert objs[i := o][1..] == objs[1..][i - 1 := o];
      SumUpdate(objs[1..], weight, i - 1, o);
    }
  }

  lemma {:induction false} SumAppend(objs: seq<Backing>, weight: Backing -> nat, o: Backing)
    ensures Sum(objs + [o], weight) == Sum(objs, weight) + weight(o)
    decreases |objs|
  {
    if objs == [] {
      assert objs + [o] == [o];
    } else {
      assert (objs + [o])[1..] == objs[1..] + [o];
      SumAppend(objs[1..], weight, o);
    }
  }

  lemma {:induction false} SumMonotone(objs: seq<Backing>, v: Backing -> nat, w: Backing -> nat)
    requires forall o :: v(o) <= w(o)
    ensures Sum(objs, v) <= Sum(objs, w)
    decreases |objs|
  {
    if objs != [] { SumMonotone(objs[1..], v, w); }
  }

  /** Pages charged to the quota: everything not yet uncharged. */
  function ChargedPages(o: Backing): nat {
    if o.phase.Dropped? then 0 else o.pages
  }

  /** Pages of charges that were granted. */
  function GrantedPages(o: Backing): nat {
    if o.phase.Overdrawn? then 0 else ChargedPages(o)
  }

  function QuarantinedPages(o: Backing): nat {
    if o.phase.Quarantined? then o.pages else 0
  }

  predicate QuotaInv(s: State) {
    && s.held == Sum(s.objs, ChargedPages)
    && s.quarantined == Sum(s.objs, QuarantinedPages)
    && Sum(s.objs, GrantedPages) <= s.limit
  }

  lemma ObjActKeepsQuota(s: State, i: nat, step: ObjStep)
    requires QuotaInv(s) && Enabled(s, ObjAct(i, step))
    ensures QuotaInv(Apply(s, ObjAct(i, step)))
  {
    var o' := Apply(s, ObjAct(i, step)).objs[i];
    SumUpdate(s.objs, ChargedPages, i, o');
    SumUpdate(s.objs, QuarantinedPages, i, o');
    SumUpdate(s.objs, GrantedPages, i, o');
  }

  lemma CtxActKeepsQuota(s: State, c: CtxId, step: CtxStep)
    requires QuotaInv(s) && OwnershipInv(s) && Enabled(s, CtxAct(c, step))
    ensures QuotaInv(Apply(s, CtxAct(c, step)))
  {
    var subject := Subject(s.ctxs[c], step);
    if subject.Some? {
      var i := subject.value;
      assert ObjOk(s, i);
      var o' := Apply(s, CtxAct(c, step)).objs[i];
      SumUpdate(s.objs, ChargedPages, i, o');
      SumUpdate(s.objs, QuarantinedPages, i, o');
      SumUpdate(s.objs, GrantedPages, i, o');
    }
  }

  lemma OtherKeepsQuota(s: State, a: Action)
    requires QuotaInv(s) && Enabled(s, a) && (a.Open? || a.Charge? || a.SetStopping?)
    ensures QuotaInv(Apply(s, a))
  {
    if a.Charge? {
      var s' := Apply(s, a);
      var o := s'.objs[|s.objs|];
      SumAppend(s.objs, ChargedPages, o);
      SumAppend(s.objs, QuarantinedPages, o);
      SumAppend(s.objs, GrantedPages, o);
      SumMonotone(s.objs, GrantedPages, ChargedPages);
    }
  }

  predicate Inv(s: State) {
    OwnershipInv(s) && QuotaInv(s)
  }

  lemma StepKeepsInv(s: State, a: Action)
    requires Inv(s) && Enabled(s, a)
    ensures Inv(Apply(s, a))
  {
    match a
    case ObjAct(i, step) =>
      ObjActKeepsOwnership(s, i, step);
      ObjActKeepsQuota(s, i, step);
    case CtxAct(c, step) =>
      CtxActKeepsOwnership(s, c, step);
      CtxActKeepsQuota(s, c, step);
    case _ =>
      OtherKeepsOwnership(s, a);
      OtherKeepsQuota(s, a);
  }

  lemma {:induction false} RunKeepsInv(s: State, acts: seq<Action>)
    requires Inv(s) && Run(s, acts)
    ensures Inv(After(s, acts))
    decreases |acts|
  {
    if acts != [] {
      StepKeepsInv(s, acts[0]);
      RunKeepsInv(Apply(s, acts[0]), acts[1..]);
    }
  }

  predicate Released(o: Backing) {
    o.phase.Leaving? || o.phase.Dropped?
  }

  // ------------------------------------------------------- what a run has done

  /** What the latest call of a context began as, and the pin it took. */
  datatype Latest = Latest(pin: Option<nat>, isFree: bool, size: nat)

  function LatestCall(acts: seq<Action>, c: CtxId): Latest {
    if acts == [] then Latest(None, false, 0)
    else
      var before, a := LatestCall(acts[..|acts| - 1], c), acts[|acts| - 1];
      if !a.CtxAct? || a.c != c then before
      else match a.x
        case Begin(isFree, size) => Latest(None, isFree, size)
        case PinTaken(i, _) => before.(pin := Some(i))
        case _ => before
  }

  /** After `acts`, action `a` leaves it open what the host did: a lost request, or an answer that does not decide an allocation. */
  predicate Doubts(acts: seq<Action>, a: Action, c: CtxId, statusOff: nat, handleOff: nat) {
    && a.CtxAct? && a.c == c
    && (|| a.x.Lost?
        || (a.x.Answer? && LatestCall(acts, c).pin.Some? && OsdescReply(a.x.body, a.x.ret, statusOff, handleOff).Unknown?))
  }

  predicate Doubted(acts: seq<Action>, c: CtxId, statusOff: nat, handleOff: nat) {
    exists n :: 0 <= n < |acts| && Doubts(acts[..n], acts[n], c, statusOff, handleOff)
  }

  /** Answers of the host, to calls and to closes. */
  function Answers(acts: seq<Action>): nat {
    if acts == [] then 0
    else
      var a := acts[|acts| - 1];
      Answers(acts[..|acts| - 1]) + if a.CtxAct? && (a.x.Answer? || a.x.Close?) then 1 else 0
  }

  /** Action `n` brought entry `k` of the log, for the call or close it says. */
  predicate LoggedAt(acts: seq<Action>, n: nat, k: nat, e: Entry)
    requires n < |acts|
  {
    && Answers(acts[..n]) == k && acts[n].CtxAct? && acts[n].c == e.ctx
    && match e
       case Reply(c, pin, isFree, size, ret, body, _) =>
         acts[n].x == Answer(ret, body) && LatestCall(acts[..n], c) == Latest(pin, isFree, size)
       case CloseReply(_, ret, _) => acts[n].x == Close(ret)
  }

  predicate EntryRecorded(acts: seq<Action>, s: State, k: nat)
    requires k < |s.log|
  {
    exists n :: 0 <= n < |acts| && LoggedAt(acts, n, k, s.log[k])
      && (s.log[k].certain <==> !Doubted(acts[..n + 1], s.log[k].ctx, s.statusOff, s.handleOff))
  }

  predicate CtxIs(acts: seq<Action>, x: Ctx, c: CtxId, statusOff: nat, handleOff: nat) {
    && (x.uncertain <==> Doubted(acts, c, statusOff, handleOff))
    && (x.life.Call? ==>
          var m := LatestCall(acts, c);
          x.life.isFree == m.isFree && x.life.size == m.size && (x.life.phase.Gathering? || x.life.phase.Submitted? ==> x.life.pin == m.pin))
  }

  predicate CtxRecorded(acts: seq<Action>, s: State, c: CtxId) {
    if c in s.ctxs then CtxIs(acts, s.ctxs[c], c, s.statusOff, s.handleOff) else !Doubted(acts, c, s.statusOff, s.handleOff)
  }

  predicate CloseRecorded(acts: seq<Action>, o: Backing, i: nat) {
    Released(o) && o.phase.why.ByClose? ==> TakenBeforeStop(acts, i)
  }

  /** The flags and the log say what the actions so far did. */
  ghost predicate Recorded(acts: seq<Action>, s: State) {
    && (s.stopping <==> SetStopping in acts)
    && |s.log| == Answers(acts)
    && (forall c: CtxId :: CtxRecorded(acts, s, c))
    && (forall k :: 0 <= k < |s.log| ==> EntryRecorded(acts, s, k))
    && (forall i :: 0 <= i < |s.objs| ==> CloseRecorded(acts, s.objs[i], i))
  }

  lemma PrefixOfMore(acts: seq<Action>, a: Action, n: nat)
    requires n <= |acts|
    ensures (acts + [a])[..n] == acts[..n]
  {
  }

  lemma DoubtedNext(acts: seq<Action>, a: Action, c: CtxId, statusOff: nat, handleOff: nat)
    ensures Doubted(acts + [a], c, statusOff, handleOff) <==>
      Doubted(acts, c, statusOff, handleOff) || Doubts(acts, a, c, statusOff, handleOff)
  {
    var more := acts + [a];
    assert more[..|acts|] == acts;
    if n :| 0 <= n < |acts| && Doubts(acts[..n], acts[n], c, statusOff, handleOff) {
      PrefixOfMore(acts, a, n);
      assert Doubts(more[..n], more[n], c, statusOff, handleOff);
    }
    if Doubts(acts, a, c, statusOff, handleOff) { assert Doubts(more[..|acts|], more[|acts|], c, statusOff, handleOff); }
    if n :| 0 <= n < |more| && Doubts(more[..n], more[n], c, statusOff, handleOff) {
      PrefixOfMore(acts, a, n);
      assert n < |acts| ==> Doubts(acts[..n], acts[n], c, statusOff, handleOff);
    }
  }

  lemma LatestNext(acts: seq<Action>, a: Action, c: CtxId)
    ensures Answers(acts + [a]) == Answers(acts) + if a.CtxAct? && (a.x.Answer? || a.x.Close?) then 1 else 0
    ensures LatestCall(acts + [a], c) ==
      if !a.CtxAct? || a.c != c then LatestCall(acts, c)
      else match a.x
        case Begin(isFree, size) => Latest(None, isFree, size)
        case PinTaken(i, _) => LatestCall(acts, c).(pin := Some(i))
        case _ => LatestCall(acts, c)
  {
    assert (acts + [a])[..|acts|] == acts;
  }

  lemma CtxStaysRecorded(acts: seq<Action>, s: State, a: Action, c: CtxId)
    requires Enabled(s, a) && CtxRecorded(acts, s, c)
    ensures CtxRecorded(acts + [a], Apply(s, a), c)
  {
    DoubtedNext(acts, a, c, s.statusOff, s.handleOff);
    LatestNext(acts, a, c);
    if a.CtxAct? && a.c == c { OwnStepStaysRecorded(acts, s.ctxs[c], a.x, c, s.log, s.statusOff, s.handleOff); }
  }

  lemma OwnStepStaysRecorded(acts: seq<Action>, x: Ctx, step: CtxStep, c: CtxId, log: seq<Entry>, statusOff: nat, handleOff: nat)
    requires CtxMay(x, step, log) && CtxIs(acts, x, c, statusOff, handleOff)
    ensures CtxIs(acts + [CtxAct(c, step)], CtxNext(x, step, log, statusOff, handleOff), c, statusOff, handleOff)
  {
    DoubtedNext(acts, CtxAct(c, step), c, statusOff, handleOff);
    LatestNext(acts, CtxAct(c, step), c);
  }

  lemma OldEntryStaysRecorded(acts: seq<Action>, s: State, a: Action, k: nat)
    requires Enabled(s, a) && k < |s.log| && EntryRecorded(acts, s, k)
    ensures k < |Apply(s, a).log| && EntryRecorded(acts + [a], Apply(s, a), k)
  {
    var s', more := Apply(s, a), acts + [a];
    assert s'.log[k] == s.log[k];
    var n :| 0 <= n < |acts| && LoggedAt(acts, n, k, s.log[k])
      && (s.log[k].certain <==> !Doubted(acts[..n + 1], s.log[k].ctx, s.statusOff, s.handleOff));
    PrefixOfMore(acts, a, n);
    PrefixOfMore(acts, a, n + 1);
    assert LoggedAt(more, n, k, s'.log[k]);
  }

  lemma NewEntryIsRecorded(acts: seq<Action>, s: State, a: Action)
    requires Enabled(s, a) && a.CtxAct? && (a.x.Answer? || a.x.Close?) && CtxRecorded(acts, s, a.c) && |s.log| == Answers(acts)
    ensures |Apply(s, a).log| == |s.log| + 1 && EntryRecorded(acts + [a], Apply(s, a), |s.log|)
  {
    var s', more, k := Apply(s, a), acts + [a], |s.log|;
    assert more[..|acts|] == acts && more[..|acts| + 1] == more;
    DoubtedNext(acts, a, a.c, s.statusOff, s.handleOff);
    assert LoggedAt(more, |acts|, k, s'.log[k]);
  }

  lemma CloseStaysRecorded(acts: seq<Action>, s: State, a: Action, i: nat)
    requires Inv(s) && Enabled(s, a) && i < |Apply(s, a).objs| && (i < |s.objs| ==> CloseRecorded(acts, s.objs[i], i))
    requires s.stopping <==> SetStopping in acts
    ensures CloseRecorded(acts + [a], Apply(s, a).objs[i], i)
  {
    var more := acts + [a];
    if i < |s.objs| {
      assert ObjOk(s, i);
      if a.CtxAct? { assert CtxInv(a.c, s.ctxs[a.c], s.log, |s.objs|); }
      if TakenBeforeStop(acts, i) {
        var n :| 0 <= n < |acts| && acts[n] == ObjAct(i, CloseTake) && SetStopping !in acts[..n];
        PrefixOfMore(acts, a, n);
        assert more[n] == ObjAct(i, CloseTake) && SetStopping !in more[..n];
      }
      if a == ObjAct(i, CloseTake) && !s.stopping {
        PrefixOfMore(acts, a, |acts|);
        assert more[|acts|] == ObjAct(i, CloseTake) && SetStopping !in more[..|acts|];
      }
    }
  }

  lemma StepStaysRecorded(acts: seq<Action>, s: State, a: Action)
    requires Inv(s) && Recorded(acts, s) && Enabled(s, a)
    ensures Recorded(acts + [a], Apply(s, a))
  {
    var s', more := Apply(s, a), acts + [a];
    LatestNext(acts, a, 0);
    forall c: CtxId ensures CtxRecorded(more, s', c) { CtxStaysRecorded(acts, s, a, c); }
    forall k | 0 <= k < |s'.log| ensures EntryRecorded(more, s', k) {
      if k < |s.log| { OldEntryStaysRecorded(acts, s, a, k); } else { NewEntryIsRecorded(acts, s, a); }
    }
    forall i | 0 <= i < |s'.objs| ensures CloseRecorded(more, s'.objs[i], i) { CloseStaysRecorded(acts, s, a, i); }
  }

  lemma {:induction false} RunSnoc(s: State, acts: seq<Action>, a: Action)
    ensures Run(s, acts + [a]) <==> Run(s, acts) && Enabled(After(s, acts), a)
    ensures Run(s, acts + [a]) ==> After(s, acts + [a]) == Apply(After(s, acts), a)
    decreases |acts|
  {
    if acts == [] {
      assert acts + [a] == [a];
    } else {
      assert (acts + [a])[1..] == acts[1..] + [a];
      if Enabled(s, acts[0]) { RunSnoc(Apply(s, acts[0]), acts[1..], a); }
    }
  }

  /** In every run the flags and the log are a record of its actions. */
  lemma {:induction false} HistoryIsRecorded(s0: State, acts: seq<Action>)
    requires s0 == Initial(s0.limit, s0.statusOff, s0.handleOff) && Run(s0, acts)
    ensures Recorded(acts, After(s0, acts))
    decreases |acts|
  {
    if acts != [] {
      var n := |acts| - 1;
      assert acts == acts[..n] + [acts[n]];
      RunSnoc(s0, acts[..n], acts[n]);
      RunKeepsInv(s0, acts[..n]);
      HistoryIsRecorded(s0, acts[..n]);
      StepStaysRecorded(acts[..n], After(s0, acts[..n]), acts[n]);
    }
  }

  lemma RecordedCertain(acts: seq<Action>, s: State, k: nat)
    requires Recorded(acts, s) && k < |s.log|
    ensures s.log[k].certain <==> CertainAt(acts, s, k)
  {
    assert EntryRecorded(acts, s, k);
    var n :| 0 <= n < |acts| && LoggedAt(acts, n, k, s.log[k])
      && (s.log[k].certain <==> !Doubted(acts[..n + 1], s.log[k].ctx, s.statusOff, s.handleOff));
    if CertainAt(acts, s, k) {
      var m :| 0 <= m < |acts| && LoggedAt(acts, m, k, s.log[k]) && !Doubted(acts[..m + 1], s.log[k].ctx, s.statusOff, s.handleOff);
      OneAnswerEach(acts, n, m);
    }
  }

  lemma {:induction false} AnswersGrow(acts: seq<Action>, n: nat, m: nat)
    requires n <= m <= |acts|
    ensures Answers(acts[..n]) <= Answers(acts[..m])
    decreases m
  {
    if n < m {
      assert acts[..m][..m - 1] == acts[..m - 1];
      AnswersGrow(acts, n, m - 1);
    }
  }

  /** No two actions bring the same entry. */
  lemma OneAnswerEach(acts: seq<Action>, n: nat, m: nat)
    requires n < |acts| && m < |acts| && Answers(acts[..n]) == Answers(acts[..m])
    requires acts[n].CtxAct? && (acts[n].x.Answer? || acts[n].x.Close?) && acts[m].CtxAct? && (acts[m].x.Answer? || acts[m].x.Close?)
    ensures n == m
  {
    var lo, hi := if n < m then n else m, if n < m then m else n;
    if lo < hi {
      assert acts[..lo + 1][..lo] == acts[..lo];
      AnswersGrow(acts, lo + 1, hi);
    }
  }

  /**
   * In every run a context is uncertain if and only if one of its requests was
   * lost, or an answer left open whether an allocation was made.
   */
  lemma UncertainIffDoubted(s0: State, acts: seq<Action>, c: CtxId)
    requires s0 == Initial(s0.limit, s0.statusOff, s0.handleOff) && Run(s0, acts) && c in After(s0, acts).ctxs
    ensures After(s0, acts).ctxs[c].uncertain <==> Doubted(acts, c, s0.statusOff, s0.handleOff)
  {
    HistoryIsRecorded(s0, acts);
    SettingsStay(s0, acts);
    assert CtxRecorded(acts, After(s0, acts), c);
  }

  // ----------------------------------------------------------- the promises

  /** A reply in the log that rejects allocation `i`. */
  predicate RejectedBy(s: State, i: nat, e: Entry) {
    e.Reply? && e.pin == Some(i) && OsdescReply(e.body, e.ret, s.statusOff, s.handleOff).Rejected?
  }

  /** A FREE acknowledged on `o`'s own context that names it or its client root. */
  predicate FreedBy(o: Backing, e: Entry) {
    e.Reply? && e.ctx == o.ctx && FreedKey(e).Some? && ObjectFreed(o.key, FreedKey(e).value)
  }

  /** A CLOSE of `o`'s context that was acknowledged. */
  predicate ClosedBy(o: Backing, e: Entry) { e.CloseReply? && e.ctx == o.ctx && e.ret == 0 }

  /** The host object of pin `i` had been created, under its present handle, by a reply before number `k`. */
  predicate CreatedBefore(s: State, i: nat, k: nat)
    requires i < |s.objs|
  {
    exists c :: 0 <= c < k && CreatedBy(i, s.objs[i], c, s.log, s.statusOff, s.handleOff)
  }

  /** When reply `k` came, nothing that had happened on its context was in doubt. */
  predicate CertainAt(acts: seq<Action>, s: State, k: nat)
    requires k < |s.log|
  {
    exists n :: 0 <= n < |acts| && LoggedAt(acts, n, k, s.log[k]) && !Doubted(acts[..n + 1], s.log[k].ctx, s.statusOff, s.handleOff)
  }

  /** The close of its context took the pin off the list before the device began to stop. */
  predicate TakenBeforeStop(acts: seq<Action>, i: nat) {
    exists n :: 0 <= n < |acts| && acts[n] == ObjAct(i, CloseTake) && SetStopping !in acts[..n]
  }

  /** Reply `k` proves that the host no longer reaches the pages of pin `i`. */
  predicate Proves(acts: seq<Action>, s: State, i: nat, k: nat)
    requires i < |s.objs| && k < |s.log|
  {
    || RejectedBy(s, i, s.log[k])
    || (FreedBy(s.objs[i], s.log[k]) && CreatedBefore(s, i, k) && CertainAt(acts, s, k))
    || (ClosedBy(s.objs[i], s.log[k]) && CreatedBefore(s, i, k) && CertainAt(acts, s, k) && TakenBeforeStop(acts, i))
  }

  /**
   * In every run, pages the host had been told about are released only on the
   * host's own word about that very object: a FREE or CLOSE counts only if the
   * object had been created before it, so a reused handle proves nothing, and
   * only if no request of the context had been lost or left in doubt by then.
   */
  lemma ReleasedOnlyOnProof(s0: State, acts: seq<Action>, i: nat)
    requires s0 == Initial(s0.limit, s0.statusOff, s0.handleOff) && Run(s0, acts)
    requires i < |After(s0, acts).objs|
    ensures var s := After(s0, acts);
      s.objs[i].kind.Pin? && s.objs[i].submitted && Released(s.objs[i]) ==> exists k :: 0 <= k < |s.log| && Proves(acts, s, i, k)
  {
    RunKeepsInv(s0, acts);
    HistoryIsRecorded(s0, acts);
    var s := After(s0, acts);
    var o := s.objs[i];
    assert ObjOk(s, i);
    if o.kind.Pin? && o.submitted && Released(o) {
      var k := if o.phase.why.ByReply? || o.phase.why.ByClose? then o.phase.why.k else 0;
      assert o.born.Some? ==> CreatedBy(i, o, o.born.value, s.log, s.statusOff, s.handleOff);
      if s.log[k].certain { RecordedCertain(acts, s, k); }
      assert Proves(acts, s, i, k);
    }
  }

  lemma {:induction false} SettingsStay(s: State, acts: seq<Action>)
    requires Run(s, acts)
    ensures var t := After(s, acts); t.statusOff == s.statusOff && t.handleOff == s.handleOff && t.limit == s.limit
    decreases |acts|
  {
    if acts != [] { SettingsStay(Apply(s, acts[0]), acts[1..]); }
  }

  /**
   * Every outcome is decided: once a context has been released, each of its
   * pins is quarantined if the host had been told about it, or released, and a
   * pin it was never told about is always released.
   */
  lemma EveryPinIsDecided(s0: State, acts: seq<Action>, i: nat)
    requires s0 == Initial(s0.limit, s0.statusOff, s0.handleOff) && Run(s0, acts)
    requires i < |After(s0, acts).objs|
    ensures var s := After(s0, acts);
            var o := s.objs[i];
      o.kind.Pin? && o.ctx in s.ctxs ==>
        && (s.ctxs[o.ctx].life.Idle? ==> o.phase.Listed? || o.phase.Retained? || o.phase.Quarantined? || Released(o))
        && (s.ctxs[o.ctx].life.Closed? ==> o.phase.Retained? || o.phase.Quarantined? || Released(o))
        && (o.phase.Listed? || o.phase.Retained? || o.phase.Quarantined? ==> o.submitted)
  {
    RunKeepsInv(s0, acts);
    assert ObjOk(After(s0, acts), i);
  }

  // ------------------------------------------------------- proof is acted on

  /** Released pages stay released, what an object was created by does not change, and only reply `n` creates one now. */
  predicate Moves(o: Backing, o': Backing, n: nat) {
    && o'.ctx == o.ctx && o'.kind == o.kind
    && (Released(o) ==> Released(o'))
    && (o.born.Some? ==> o'.born == o.born && o'.key == o.key)
    && (o'.phase.Listed? && !o.phase.Listed? ==> o'.born == Some(n))
  }

  lemma SubjectMoves(i: nat, o: Backing, c: CtxId, x: Ctx, step: CtxStep, log: seq<Entry>, n: nat, statusOff: nat, handleOff: nat)
    requires ObjInv(i, o, x, log, statusOff, handleOff) && CtxInv(c, x, log, n) && CtxMay(x, step, log) && o.ctx == c
    requires Subject(x, step) == Some(i)
    requires step.PinTaken? ==> o.kind.Pin? && o.phase.Reserved?
    ensures Moves(o, SubjectNext(o, step, |log|, statusOff, handleOff), |log|)
    ensures SubjectNext(o, step, |log|, statusOff, handleOff).phase.Listed? && !o.phase.Listed? ==> step.Answer?
  {
  }

  lemma StepKeepsObject(s: State, a: Action, i: nat)
    requires Inv(s) && Enabled(s, a) && i < |s.objs|
    ensures i < |Apply(s, a).objs| && Moves(s.objs[i], Apply(s, a).objs[i], |s.log|)
    ensures Apply(s, a).objs[i].phase.Listed? && !s.objs[i].phase.Listed? ==> |Apply(s, a).log| > |s.log|
  {
    assert ObjOk(s, i);
    if a.CtxAct? && Subject(s.ctxs[a.c], a.x) == Some(i) {
      assert CtxInv(a.c, s.ctxs[a.c], s.log, |s.objs|);
      SubjectMoves(i, s.objs[i], a.c, s.ctxs[a.c], a.x, s.log, |s.objs|, s.statusOff, s.handleOff);
    }
  }

  /** A reply is about an object that exists, and one that rejects its allocation has had the pages released. */
  predicate EntryDone(s: State, k: nat)
    requires k < |s.log|
  {
    s.log[k].Reply? && s.log[k].pin.Some? ==>
      && s.log[k].pin.value < |s.objs|
      && (RejectedBy(s, s.log[k].pin.value, s.log[k]) ==> Released(s.objs[s.log[k].pin.value]))
      && CreatedIsKept(s, s.log[k].pin.value, k)
  }

  /** A created object is on the list until the pages are released or its context is closed. */
  predicate CreatedIsKept(s: State, i: nat, k: nat)
    requires i < |s.objs| && k < |s.log|
  {
    s.log[k].Reply? && OsdescReply(s.log[k].body, s.log[k].ret, s.statusOff, s.handleOff).Created? ==>
      var o := s.objs[i];
      && o.born == Some(k) && o.key.handle == OsdescReply(s.log[k].body, s.log[k].ret, s.statusOff, s.handleOff).handle
      && ListedOrGone(s, o)
  }

  predicate ListedOrGone(s: State, o: Backing) {
    o.ctx in s.ctxs && (o.phase.Listed? || Released(o) || s.ctxs[o.ctx].life.Closing? || s.ctxs[o.ctx].life.Closed?)
  }

  lemma StepKeepsListed(s: State, a: Action, i: nat)
    requires Inv(s) && Enabled(s, a) && i < |s.objs| && ListedOrGone(s, s.objs[i])
    ensures ListedOrGone(Apply(s, a), Apply(s, a).objs[i])
  {
    assert ObjOk(s, i);
    if a.CtxAct? { assert CtxInv(a.c, s.ctxs[a.c], s.log, |s.objs|); }
  }

  lemma StepKeepsCreated(s: State, a: Action, i: nat, k: nat)
    requires Inv(s) && Enabled(s, a) && i < |s.objs| && k < |s.log| && CreatedIsKept(s, i, k)
    ensures i < |Apply(s, a).objs| && k < |Apply(s, a).log| && CreatedIsKept(Apply(s, a), i, k)
  {
    assert Apply(s, a).log[k] == s.log[k];
    StepKeepsObject(s, a, i);
    if ListedOrGone(s, s.objs[i]) { StepKeepsListed(s, a, i); }
  }

  lemma NewEntryDone(s: State, a: Action)
    requires Inv(s) && Enabled(s, a) && |Apply(s, a).log| > |s.log|
    ensures EntryDone(Apply(s, a), |s.log|)
  {
    assert CtxInv(a.c, s.ctxs[a.c], s.log, |s.objs|);
    var life := s.ctxs[a.c].life;
    if life.Call? && life.pin.Some? { assert ObjOk(s, life.pin.value); }
  }

  lemma StepKeepsEntries(s: State, a: Action, k: nat)
    requires Inv(s) && Enabled(s, a) && k < |Apply(s, a).log| && (k < |s.log| ==> EntryDone(s, k))
    ensures EntryDone(Apply(s, a), k)
  {
    if k < |s.log| {
      assert Apply(s, a).log[k] == s.log[k];
      if s.log[k].Reply? && s.log[k].pin.Some? {
        StepKeepsObject(s, a, s.log[k].pin.value);
        StepKeepsCreated(s, a, s.log[k].pin.value, k);
      }
    } else {
      NewEntryDone(s, a);
    }
  }

  lemma {:induction false} EntriesDone(s: State, acts: seq<Action>, k: nat)
    requires Inv(s) && Run(s, acts) && (forall j :: 0 <= j < |s.log| ==> EntryDone(s, j)) && k < |After(s, acts).log|
    ensures EntryDone(After(s, acts), k)
    decreases |acts|
  {
    if acts != [] {
      var s' := Apply(s, acts[0]);
      forall j | 0 <= j < |s'.log| ensures EntryDone(s', j) { StepKeepsEntries(s, acts[0], j); }
      StepKeepsInv(s, acts[0]);
      EntriesDone(s', acts[1..], k);
    }
  }

  /** In every run, a reply that rejects an allocation has had its pages released, for good. */
  lemma RejectionReleases(s0: State, acts: seq<Action>, k: nat, i: nat)
    requires s0 == Initial(s0.limit, s0.statusOff, s0.handleOff) && Run(s0, acts)
    requires k < |After(s0, acts).log| && RejectedBy(After(s0, acts), i, After(s0, acts).log[k])
    ensures i < |After(s0, acts).objs| && Released(After(s0, acts).objs[i])
  {
    EntriesDone(s0, acts, k);
  }

  /**
   * In every run, a pin whose allocation a reply confirmed is on its context's
   * list under the handle of that reply, until its pages are released or the
   * context is closed.
   */
  lemma CreatedIsListed(s0: State, acts: seq<Action>, k: nat, i: nat, handle: nat)
    requires s0 == Initial(s0.limit, s0.statusOff, s0.handleOff) && Run(s0, acts) && k < |After(s0, acts).log|
    requires After(s0, acts).log[k].Reply? && After(s0, acts).log[k].pin == Some(i)
    requires OsdescReply(After(s0, acts).log[k].body, After(s0, acts).log[k].ret, s0.statusOff, s0.handleOff) == Created(handle)
    ensures var s := After(s0, acts);
      && i < |s.objs| && s.objs[i].key.handle == handle
      && ListedOrGone(s, s.objs[i])
  {
    EntriesDone(s0, acts, k);
    SettingsStay(s0, acts);
  }

  /** Every listed pin of `c` that a FREE of `key` names was created after reply `k`. */
  predicate Cleared(s: State, c: CtxId, key: Key, k: nat) {
    forall i :: 0 <= i < |s.objs| && s.objs[i].ctx == c && s.objs[i].phase.Listed? && ObjectFreed(s.objs[i].key, key) ==>
      s.objs[i].born.Some? && s.objs[i].born.value > k
  }

  predicate ScanningFor(s: State, c: CtxId, k: nat) {
    c in s.ctxs && s.ctxs[c].life.Call? && s.ctxs[c].life.phase == Scanning(k)
  }

  lemma StepKeepsCleared(s: State, a: Action, c: CtxId, key: Key, k: nat)
    requires Inv(s) && Enabled(s, a) && k < |s.log| && Cleared(s, c, key, k)
    ensures Cleared(Apply(s, a), c, key, k)
  {
    var s' := Apply(s, a);
    forall i | 0 <= i < |s'.objs| && s'.objs[i].ctx == c && s'.objs[i].phase.Listed? && ObjectFreed(s'.objs[i].key, key)
      ensures s'.objs[i].born.Some? && s'.objs[i].born.value > k
    {
      if i < |s.objs| {
        StepKeepsObject(s, a, i);
        assert ObjOk(s, i);
      }
    }
  }

  lemma StepEndsScan(s: State, a: Action, c: CtxId, key: Key, k: nat)
    requires Inv(s) && Enabled(s, a) && ScanningFor(s, c, k) && k < |s.log| && FreedKey(s.log[k]) == Some(key)
    ensures ScanningFor(Apply(s, a), c, k) || Cleared(Apply(s, a), c, key, k)
  {
    var s' := Apply(s, a);
    if !ScanningFor(s', c, k) {
      assert a == CtxAct(c, ScanEnd);
      assert CtxInv(c, s.ctxs[c], s.log, |s.objs|);
      forall i | 0 <= i < |s'.objs| && s'.objs[i].ctx == c && s'.objs[i].phase.Listed?
        ensures !ObjectFreed(s'.objs[i].key, key)
      {
        StepKeepsObject(s, a, i);
        assert !Named(s.objs[i], s.ctxs[c], s.log);
      }
    }
  }

  lemma {:induction false} ScanThenCleared(s: State, acts: seq<Action>, c: CtxId, key: Key, k: nat)
    requires Inv(s) && Run(s, acts) && k < |s.log| && FreedKey(s.log[k]) == Some(key)
    requires ScanningFor(s, c, k) || Cleared(s, c, key, k)
    ensures ScanningFor(After(s, acts), c, k) || Cleared(After(s, acts), c, key, k)
    decreases |acts|
  {
    if acts != [] {
      StepKeepsInv(s, acts[0]);
      StepExtendsLog(s, acts[0]);
      if ScanningFor(s, c, k) { StepEndsScan(s, acts[0], c, key, k); } else { StepKeepsCleared(s, acts[0], c, key, k); }
      ScanThenCleared(Apply(s, acts[0]), acts[1..], c, key, k);
    }
  }

  lemma StepExtendsLog(s: State, a: Action)
    requires Enabled(s, a)
    ensures s.log <= Apply(s, a).log
  {
  }

  /**
   * In every run, once a call whose reply `k` acknowledged a FREE on a certain
   * context has been written back and its scan is over, no pin of that context
   * that the FREE names is left on the list: whatever is listed under such a
   * handle was created later.
   */
  lemma AcknowledgedFreeReleases(s0: State, before: seq<Action>, c: CtxId, after: seq<Action>, k: nat, i: nat)
    requires s0 == Initial(s0.limit, s0.statusOff, s0.handleOff) && Run(s0, before)
    requires var s1 := After(s0, before);
      && Run(s1, [CtxAct(c, WriteBack(true))] + after)
      && s1.ctxs[c].life.phase == Answered(k) && !Doubted(before, c, s0.statusOff, s0.handleOff) && FreedKey(s1.log[k]).Some?
    requires var s2 := After(After(s0, before), [CtxAct(c, WriteBack(true))] + after);
      !ScanningFor(s2, c, k) && i < |s2.objs| && s2.objs[i].ctx == c && s2.objs[i].phase.Listed?
      && ObjectFreed(s2.objs[i].key, FreedKey(After(s0, before).log[k]).value)
    ensures var s2 := After(After(s0, before), [CtxAct(c, WriteBack(true))] + after);
      exists d :: d > k && CreatedBy(i, s2.objs[i], d, s2.log, s2.statusOff, s2.handleOff)
  {
    var s1, step := After(s0, before), CtxAct(c, WriteBack(true));
    var s2 := After(s1, [step] + after);
    RunKeepsInv(s0, before);
    UncertainIffDoubted(s0, before, c);
    RunKeepsInv(s1, [step] + after);
    assert ([step] + after)[1..] == after;
    StepKeepsInv(s1, step);
    ScanThenCleared(Apply(s1, step), after, c, FreedKey(s1.log[k]).value, k);
    assert ObjOk(s2, i);
    assert CreatedBy(i, s2.objs[i], s2.objs[i].born.value, s2.log, s2.statusOff, s2.handleOff);
  }

  /** Whether the device was stopping when the first CloseTake of pin `i` in `acts` came, if one came. */
  function StoppingAtTake(acts: seq<Action>, i: nat, stopping: bool): Option<bool>
    decreases |acts|
  {
    if acts == [] then None
    else if acts[0] == ObjAct(i, CloseTake) then Some(stopping)
    else StoppingAtTake(acts[1..], i, stopping || acts[0].SetStopping?)
  }

  /** A pin listed at the CLOSE is still waiting for the scan. */
  predicate Waiting(s: State, c: CtxId, i: nat, good: bool) {
    && c in s.ctxs && i < |s.objs| && s.objs[i].ctx == c && s.objs[i].kind.Pin? && s.objs[i].phase.Listed?
    && s.ctxs[c].life.Closing? && s.ctxs[c].life.k < |s.log|
    && (good <==> s.log[s.ctxs[c].life.k].CloseReply? && s.log[s.ctxs[c].life.k].ret == 0 && !s.ctxs[c].uncertain)
  }

  /** It went the way that was decided. */
  predicate Settled(s: State, i: nat, released: bool) {
    i < |s.objs| && s.objs[i].kind.Pin? && if released then Released(s.objs[i]) else s.objs[i].phase.Retained? || s.objs[i].phase.Quarantined?
  }

  lemma StepWaits(s: State, a: Action, c: CtxId, i: nat, good: bool)
    requires Inv(s) && Enabled(s, a) && Waiting(s, c, i, good)
    ensures if a == ObjAct(i, CloseTake) then Settled(Apply(s, a), i, good && !s.stopping) else Waiting(Apply(s, a), c, i, good)
  {
    assert ObjOk(s, i);
    assert CtxInv(c, s.ctxs[c], s.log, |s.objs|);
    if a.CtxAct? { assert CtxInv(a.c, s.ctxs[a.c], s.log, |s.objs|); }
  }

  lemma StepStaysSettled(s: State, a: Action, i: nat, released: bool)
    requires Inv(s) && Enabled(s, a) && Settled(s, i, released)
    ensures Settled(Apply(s, a), i, released)
  {
    assert ObjOk(s, i);
    if a.CtxAct? { assert CtxInv(a.c, s.ctxs[a.c], s.log, |s.objs|); }
  }

  lemma {:induction false} RunStaysSettled(s: State, acts: seq<Action>, i: nat, released: bool)
    requires Inv(s) && Run(s, acts) && Settled(s, i, released)
    ensures Settled(After(s, acts), i, released)
    decreases |acts|
  {
    if acts != [] {
      StepStaysSettled(s, acts[0], i, released);
      StepKeepsInv(s, acts[0]);
      RunStaysSettled(Apply(s, acts[0]), acts[1..], i, released);
    }
  }

  lemma {:induction false} RunSettles(s: State, acts: seq<Action>, c: CtxId, i: nat, good: bool)
    requires Inv(s) && Run(s, acts) && Waiting(s, c, i, good)
    ensures match StoppingAtTake(acts, i, s.stopping)
      case None => Waiting(After(s, acts), c, i, good)
      case Some(stopping) => Settled(After(s, acts), i, good && !stopping)
    decreases |acts|
  {
    if acts != [] {
      var s' := Apply(s, acts[0]);
      StepWaits(s, acts[0], c, i, good);
      StepKeepsInv(s, acts[0]);
      if acts[0] == ObjAct(i, CloseTake) {
        RunStaysSettled(s', acts[1..], i, good && !s.stopping);
      } else {
        RunSettles(s', acts[1..], c, i, good);
      }
    }
  }

  /**
   * In every run, a pin listed when its context is closed has been taken by the
   * scan once the close is over, and it is released if and only if the CLOSE was
   * acknowledged, no request of the context had been lost or left in doubt, and
   * the device was not stopping when the scan took it; otherwise it is kept.
   */
  lemma CloseReleasesIff(s0: State, before: seq<Action>, c: CtxId, ret: int, after: seq<Action>, i: nat)
    requires s0 == Initial(s0.limit, s0.statusOff, s0.handleOff) && Run(s0, before)
    requires Run(After(s0, before), [CtxAct(c, Close(ret))] + after)
    requires var s1 := After(s0, before); i < |s1.objs| && s1.objs[i].ctx == c && s1.objs[i].phase.Listed?
    requires var s2 := After(After(s0, before), [CtxAct(c, Close(ret))] + after);
      c in s2.ctxs && s2.ctxs[c].life.Closed?
    ensures var s2 := After(After(s0, before), [CtxAct(c, Close(ret))] + after);
            var stopping := StoppingAtTake(after, i, SetStopping in before);
      && i < |s2.objs| && stopping.Some?
      && (Released(s2.objs[i]) <==> ret == 0 && !Doubted(before, c, s0.statusOff, s0.handleOff) && !stopping.value)
      && (Released(s2.objs[i]) || s2.objs[i].phase.Retained? || s2.objs[i].phase.Quarantined?)
  {
    var s1, step := After(s0, before), CtxAct(c, Close(ret));
    RunKeepsInv(s0, before);
    HistoryIsRecorded(s0, before);
    UncertainIffDoubted(s0, before, c);
    assert ObjOk(s1, i);
    assert ([step] + after)[1..] == after;
    StepKeepsInv(s1, step);
    RunSettles(Apply(s1, step), after, c, i, ret == 0 && !s1.ctxs[c].uncertain);
  }

  /** In every run, a charge is granted if and only if it and everything charged already fit the limit. */
  lemma ChargeIsGrantedIff(s0: State, acts: seq<Action>, c: CtxId, kind: Kind, pages: nat)
    requires s0 == Initial(s0.limit, s0.statusOff, s0.handleOff) && Run(s0, acts) && Enabled(After(s0, acts), Charge(c, kind, pages))
    ensures var s := After(s0, acts);
            var o := Apply(s, Charge(c, kind, pages)).objs[|s.objs|];
      o.pages == pages && o.ctx == c && o.kind == kind
      && (o.phase.Reserved? <==> Sum(s.objs, ChargedPages) + pages <= s0.limit) && (o.phase.Reserved? || o.phase.Overdrawn?)
  {
    RunKeepsInv(s0, acts);
    SettingsStay(s0, acts);
  }

  /**
   * The quota is exact in every state of every run, error paths included:
   * `held_pages` is the pages of everything live, quarantined or reserved,
   * `quarantined_pages` is the counted quarantine, and the granted charges
   * never exceed the limit.
   */
  lemma QuotaIsExact(s0: State, acts: seq<Action>)
    requires s0 == Initial(s0.limit, s0.statusOff, s0.handleOff) && Run(s0, acts)
    ensures var s := After(s0, acts);
      && s.held == Sum(s.objs, ChargedPages)
      && s.quarantined == Sum(s.objs, QuarantinedPages)
      && Sum(s.objs, GrantedPages) <= s0.limit
      && s.quarantined <= s.held
  {
    RunKeepsInv(s0, acts);
    SettingsStay(s0, acts);
    SumMonotone(After(s0, acts).objs, QuarantinedPages, ChargedPages);
  }
}
