/**
 * The life of one virtqueue request, under every interleaving.
 *
 * Four parties share a request: the thread that waits for it (`nvrm_xfer_run`),
 * the completion callback (`nvrm_vq_cb`), device removal (`nvrm_transport_stop`)
 * and the release work that frees abandoned requests.  They meet on `vq_lock`,
 * on the request's `done` and `abandoned` fields, and on the queue itself.
 *
 * Every shared access is a step of its own, so a run is any interleaving of the
 * parties' steps.  The host is the step that marks a posted buffer used.
 */
module Transport {

  type ReqId = nat

  /** Who holds `vq_lock`. */
  datatype Lock = Free | Waiter(x: ReqId) | Callback | Stop

  /** Where the waiting thread of one request stands. */
  datatype WaiterPc =
    | Fresh          // allocated, nothing tried yet
    | AtLock         // top of the submit loop, wants the lock
    | InLock         // holds the lock, has not looked at `stopping`
    | Checked        // holds the lock, saw `stopping` clear
    | Added          // holds the lock, the buffer is in the queue
    | Counted        // holds the lock, `inflight` was raised
    | Full           // holds the lock, the queue had no room
    | Refused        // holds the lock, will return an error
    | WaitSpace      // sleeps until a descriptor is free
    | Waiting        // sleeps until `done`, a fatal signal or the timeout
    | KillAtLock     // woken by a signal or the timeout, wants the lock
    | KillInLock     // holds the lock, has not looked at `done`
    | GaveUp         // holds the lock, set `abandoned`
    | LostRace       // holds the lock, the reply had arrived after all
    | BarrierAtLock  // saw `done`, wants the lock once more
    | BarrierInLock  // holds it: no callback can still be using the request
    | Returned       // the caller owns the request again
    | Freed          // the caller freed it
    | Gone           // returned without it: the release work frees

  datatype Request = Request(
    pc: WaiterPc,
    submitted: bool,
    done: bool,
    abandoned: bool,
    transportError: bool,
    callerFrees: nat,
    workFrees: nat)

  /** The loop variable of whichever completion loop holds the lock. */
  datatype Hand =
    | Empty
    | Got(x: ReqId)    // taken out of the queue
    | Done(x: ReqId)   // `done` is set and visible
    | Sent(x: ReqId)   // woken or handed to the release work

  datatype CallbackPc = CIdle | CAtLock | CLoop

  datatype StopPc =
    | SIdle | SAtLock | SIn | SSet   // first critical section
    | SReset                         // lock released, device not yet reset
    | SSync                          // reset; a callback may still be running
    | SAtLock2 | SLoop               // second critical section
    | SDrain                         // waits for the release work
    | SFinished

  datatype State = State(
    reqs: map<ReqId, Request>,
    lock: Lock,
    posted: set<ReqId>,    // in the queue, the host has not answered
    used: set<ReqId>,      // in the queue, answered
    hand: Hand,
    cb: CallbackPc,
    stop: StopPc,
    stopping: bool,
    work: set<ReqId>,      // queued release work
    inflight: int)

  const INITIAL := State(map[], Free, {}, {}, Empty, CIdle, SIdle, false, {}, 0)

  datatype WaiterStep =
    | Enter | TakeLock | CheckStopping | AddOk | AddFull | AddError | CountUp | Unlock
    | SpaceWake | SpaceGiveUp | SeeDone | Kill | CheckDone | ReadReply | CallerFree

  datatype CallbackStep = CbStart | CbLock | CbUnlock

  datatype StopStep = StopStart | StopLock | StopSet | StopUnlock | StopReset | StopSynced | StopDrained

  /** Whose completion loop it is. */
  datatype Party = ByCallback | ByRemoval

  /** One turn of a completion loop. */
  datatype CompleteStep = Take(x: ReqId) | SetDone(x: ReqId) | Dispatch | CountDown

  datatype Action =
    | Alloc(x: ReqId)
    | W(x: ReqId, w: WaiterStep)
    | C(c: CallbackStep)
    | S(t: StopStep)
    | Complete(who: Party, k: CompleteStep)
    | HostAnswer(x: ReqId)
    | WorkFree(x: ReqId)

  // ------------------------------------------------------------- the waiter

  predicate Holds(pc: WaiterPc) {
    || pc.InLock? || pc.Checked? || pc.Added? || pc.Counted? || pc.Full? || pc.Refused?
    || pc.KillInLock? || pc.GaveUp? || pc.LostRace? || pc.BarrierInLock?
  }

  predicate WaiterMay(r: Request, w: WaiterStep) {
    match w
    case Enter => r.pc.Fresh?
    case TakeLock => r.pc.AtLock? || r.pc.KillAtLock? || r.pc.BarrierAtLock?
    case CheckStopping => r.pc.InLock?
    case AddOk => r.pc.Checked?
    case AddFull => r.pc.Checked?
    case AddError => r.pc.Checked?
    case CountUp => r.pc.Added?
    case Unlock =>
      r.pc.Counted? || r.pc.Full? || r.pc.Refused? || r.pc.GaveUp? || r.pc.LostRace? || r.pc.BarrierInLock?
    case SpaceWake => r.pc.WaitSpace?
    case SpaceGiveUp => r.pc.WaitSpace?
    case SeeDone => r.pc.Waiting? && r.done
    case Kill => r.pc.Waiting?
    case CheckDone => r.pc.KillInLock?
    case ReadReply => r.pc.Returned? && r.submitted
    case CallerFree => r.pc.Returned? || r.pc.Fresh?
  }

  function WaiterNext(r: Request, w: WaiterStep, stopping: bool): Request {
    match w
    case Enter => r.(pc := AtLock)
    case TakeLock =>
      r.(pc := if r.pc.AtLock? then InLock else if r.pc.KillAtLock? then KillInLock else BarrierInLock)
    case CheckStopping => r.(pc := if stopping then Refused else Checked)
    case AddOk => r.(pc := Added, submitted := true)
    case AddFull => r.(pc := Full)
    case AddError => r.(pc := Refused)
    case CountUp => r.(pc := Counted)
    case Unlock =>
      r.(pc := match r.pc
               case Counted => Waiting
               case Full => WaitSpace
               case GaveUp => Gone
               case LostRace => BarrierAtLock
               case _ => Returned)
    case SpaceWake => r.(pc := AtLock)
    case SpaceGiveUp => r.(pc := Returned)
    case SeeDone => r.(pc := BarrierAtLock)
    case Kill => r.(pc := KillAtLock)
    case CheckDone => if r.done then r.(pc := LostRace) else r.(pc := GaveUp, abandoned := true)
    case ReadReply => r
    case CallerFree => r.(pc := Freed, callerFrees := r.callerFrees + 1)
  }

  // ----------------------------------------------------------- the whole run

  /** Callbacks may start until removal has waited for the running one. */
  predicate CallbacksMayStart(pc: StopPc) {
    pc.SIdle? || pc.SAtLock? || pc.SIn? || pc.SSet? || pc.SReset? || pc.SSync?
  }

  predicate StopHolds(pc: StopPc) {
    pc.SIn? || pc.SSet? || pc.SLoop?
  }

  predicate InLoop(s: State, who: Party) {
    match who
    case ByCallback => s.cb.CLoop?
    case ByRemoval => s.stop.SLoop?
  }

  /** The callback gets what the host answered; removal detaches whatever is left. */
  predicate CompleteMay(s: State, who: Party, k: CompleteStep) {
    match k
    case Take(x) => s.hand.Empty? && (x in s.used || (who.ByRemoval? && x in s.posted))
    case SetDone(x) => s.hand == Got(x) && x in s.reqs
    case Dispatch => s.hand.Done? && s.hand.x in s.reqs
    case CountDown => s.hand.Sent?
  }

  predicate Enabled(s: State, a: Action) {
    match a
    case Alloc(x) => x !in s.reqs
    case W(x, w) => x in s.reqs && WaiterMay(s.reqs[x], w) && (w.TakeLock? ==> s.lock.Free?)
    case C(CbStart) => s.cb.CIdle? && CallbacksMayStart(s.stop)
    case C(CbLock) => s.cb.CAtLock? && s.lock.Free?
    case C(CbUnlock) => s.cb.CLoop? && s.hand.Empty?
    case S(StopStart) => s.stop.SIdle?
    case S(StopLock) => s.lock.Free? && (s.stop.SAtLock? || s.stop.SAtLock2?)
    case S(StopSet) => s.stop.SIn?
    case S(StopUnlock) =>
      || s.stop.SSet?
      || (s.stop.SLoop? && s.hand.Empty? && s.posted == {} && s.used == {})  // nothing left to detach
    case S(StopReset) => s.stop.SReset?
    case S(StopSynced) => s.stop.SSync? && s.cb.CIdle?
    case S(StopDrained) => s.stop.SDrain? && s.work == {}
    case Complete(who, k) => InLoop(s, who) && CompleteMay(s, who, k)
    case HostAnswer(x) => x in s.posted && CallbacksMayStart(s.stop) && !s.stop.SSync?
    case WorkFree(x) => x in s.work && x in s.reqs
  }

  function Apply(s: State, a: Action): (s': State)
    requires Enabled(s, a)
  {
    match a
    case Alloc(x) => s.(reqs := s.reqs[x := Request(Fresh, false, false, false, false, 0, 0)])
    case W(x, w) =>
      s.(reqs := s.reqs[x := WaiterNext(s.reqs[x], w, s.stopping)],
         lock := if w.TakeLock? then Waiter(x) else if w.Unlock? then Free else s.lock,
         posted := if w.AddOk? then s.posted + {x} else s.posted,
         inflight := if w.CountUp? then s.inflight + 1 else s.inflight)
    case C(CbStart) => s.(cb := CAtLock)
    case C(CbLock) => s.(cb := CLoop, lock := Callback)
    case C(CbUnlock) => s.(cb := CIdle, lock := Free)
    case S(StopStart) => s.(stop := SAtLock)
    case S(StopLock) => s.(stop := if s.stop.SAtLock? then SIn else SLoop, lock := Stop)
    case S(StopSet) => s.(stop := SSet, stopping := true)
    case S(StopUnlock) => s.(stop := if s.stop.SSet? then SReset else SDrain, lock := Free)
    case S(StopReset) => s.(stop := SSync)
    case S(StopSynced) => s.(stop := SAtLock2)
    case S(StopDrained) => s.(stop := SFinished)
    case Complete(_, Take(x)) => s.(hand := Got(x), posted := s.posted - {x}, used := s.used - {x})
    case Complete(who, SetDone(x)) =>
      s.(hand := Done(x),
         reqs := s.reqs[x := s.reqs[x].(done := true, transportError := s.reqs[x].transportError || who.ByRemoval?)])
    case Complete(_, Dispatch) =>
      s.(hand := Sent(s.hand.x),
         work := if s.reqs[s.hand.x].abandoned then s.work + {s.hand.x} else s.work)
    case Complete(_, CountDown) => s.(hand := Empty, inflight := s.inflight - 1)
    case HostAnswer(x) => s.(posted := s.posted - {x}, used := s.used + {x})
    case WorkFree(x) =>
      s.(work := s.work - {x},
         reqs := s.reqs[x := s.reqs[x].(workFrees := s.reqs[x].workFrees + 1)])
  }

  /** The requests whose memory a step reads or writes. */
  function Touches(s: State, a: Action): set<ReqId> {
    match a
    case W(x, w) =>
      // entering, taking the lock and the early unlocks use the device only;
      // the unlock after the barrier goes on to read transport_error and rsp_len
      if w.Enter? || w.TakeLock? || w.CheckStopping? || w.CountUp? || w.SpaceWake? || w.SpaceGiveUp? then {}
      else if w.Unlock? then (if x in s.reqs && s.reqs[x].pc.BarrierInLock? then {x} else {})
      else {x}
    case Complete(_, Take(x)) => {x}
    case Complete(_, SetDone(x)) => {x}
    case Complete(_, Dispatch) => if s.hand.Done? then {s.hand.x} else {}
    case HostAnswer(x) => {x}
    case WorkFree(x) => {x}
    case _ => {}
  }

  predicate Run(s: State, acts: seq<Action>)
    decreases |acts|
  {
    acts == [] || (Enabled(s, acts[0]) && Run(Apply(s, acts[0]), acts[1..]))
  }

  function After(s: State, acts: seq<Action>): State
    requires Run(s, acts)
    decreases |acts|
  {
    if acts == [] then s else After(Apply(s, acts[0]), acts[1..])
  }

  // -------------------------------------------------------------- invariant

  predicate BeforeSubmit(pc: WaiterPc) {
    pc.Fresh? || pc.AtLock? || pc.InLock? || pc.Checked? || pc.Full? || pc.Refused? || pc.WaitSpace?
  }

  /**
   * What holds of one request, given where it is:
   * `queued`, just taken out and not done (`got`), done and about to be handed
   * on (`held`), or waiting in the release work (`work`).
   */
  predicate RequestInv(r: Request, stopping: bool, queued: bool, got: bool, held: bool, work: bool) {
    && (r.submitted ==> !BeforeSubmit(r.pc))
    && (!r.submitted ==> (BeforeSubmit(r.pc) || r.pc.Returned? || r.pc.Freed?) && !r.done)
    && (r.pc.Checked? ==> !stopping)
    && (r.pc.Added? || r.pc.Counted? ==> queued)
    && (r.pc.LostRace? || r.pc.BarrierAtLock? || r.pc.BarrierInLock? ==> r.done)
    && (r.pc.Returned? || r.pc.Freed? ==> r.submitted == r.done)
    && (r.abandoned <==> r.pc.GaveUp? || r.pc.Gone?)
    && (r.submitted && !r.done <==> queued || got)
    && !(queued && got)
    && (held ==> r.submitted && r.done && !r.pc.BarrierInLock? && !r.pc.Returned? && !r.pc.Freed?)
    && (work ==> r.abandoned && r.done && !held)
    && r.callerFrees == (if r.pc.Freed? then 1 else 0)
    && r.workFrees == (if r.abandoned && r.done && !work && !held then 1 else 0)
  }

  predicate RequestOk(s: State, x: ReqId)
    requires x in s.reqs
  {
    RequestInv(s.reqs[x], s.stopping, x in s.posted || x in s.used, s.hand == Got(x), s.hand == Done(x), x in s.work)
  }

  predicate LockInv(s: State) {
    && (s.cb.CLoop? <==> s.lock.Callback?)
    && (StopHolds(s.stop) <==> s.lock.Stop?)
    && (!s.hand.Empty? ==> s.cb.CLoop? || s.stop.SLoop?)
    && (s.lock.Waiter? ==> s.lock.x in s.reqs)
    && (forall x :: x in s.reqs ==> (Holds(s.reqs[x].pc) <==> s.lock == Waiter(x)))
  }

  predicate StopInv(s: State) {
    && (s.stopping <==> !(s.stop.SIdle? || s.stop.SAtLock? || s.stop.SIn?))
    && (!CallbacksMayStart(s.stop) ==> s.cb.CIdle?)
    && (s.stop.SDrain? || s.stop.SFinished? ==> s.posted == {} && s.used == {})
    && (s.stop.SFinished? ==> s.work == {})
  }

  predicate QueueInv(s: State) {
    && s.posted !! s.used
    && s.posted <= s.reqs.Keys
    && s.used <= s.reqs.Keys
    && s.work <= s.reqs.Keys
    && (s.hand.Got? || s.hand.Done? ==> s.hand.x in s.reqs)
  }

  /** `inflight` is the queue's content, corrected for a step in progress under the lock. */
  predicate CountInv(s: State) {
    s.inflight + (if s.lock.Waiter? && s.lock.x in s.reqs && s.reqs[s.lock.x].pc.Added? then 1 else 0)
    == |s.posted| + |s.used| + (if s.hand.Empty? then 0 else 1)
  }

  predicate Inv(s: State) {
    && LockInv(s)
    && StopInv(s)
    && QueueInv(s)
    && CountInv(s)
    && (forall x :: x in s.reqs ==> RequestOk(s, x))
  }

  // ---------------------------------------------------- every step keeps it

  /** The waiter's own steps, request-local: the lock keeps `got` and `held` away from a holder. */
  lemma WaiterKeepsRequest(r: Request, w: WaiterStep, stopping: bool, queued: bool, got: bool, held: bool, work: bool)
    requires RequestInv(r, stopping, queued, got, held, work)
    requires WaiterMay(r, w)
    requires Holds(r.pc) || w.TakeLock? ==> !got && !held
    ensures RequestInv(WaiterNext(r, w, stopping), stopping, queued || w.AddOk?, got, held, work)
    ensures w.AddOk? ==> !queued
    ensures !w.TakeLock? && !w.Unlock? ==> (Holds(WaiterNext(r, w, stopping).pc) <==> Holds(r.pc))
    ensures w.TakeLock? ==> !Holds(r.pc) && Holds(WaiterNext(r, w, stopping).pc)
    ensures w.Unlock? ==> Holds(r.pc) && !Holds(WaiterNext(r, w, stopping).pc)
  {
  }

  lemma WaiterKeepsLock(s: State, x: ReqId, w: WaiterStep)
    requires Inv(s) && Enabled(s, W(x, w))
    ensures LockInv(Apply(s, W(x, w)))
  {
    assert RequestOk(s, x);
    WaiterKeepsRequest(s.reqs[x], w, s.stopping, x in s.posted || x in s.used, s.hand == Got(x), s.hand == Done(x), x in s.work);
  }

  lemma WaiterKeepsQueue(s: State, x: ReqId, w: WaiterStep)
    requires Inv(s) && Enabled(s, W(x, w))
    ensures var s' := Apply(s, W(x, w)); StopInv(s') && QueueInv(s')
  {
    assert RequestOk(s, x);
    WaiterKeepsRequest(s.reqs[x], w, s.stopping, x in s.posted || x in s.used, s.hand == Got(x), s.hand == Done(x), x in s.work);
  }

  lemma WaiterKeepsCount(s: State, x: ReqId, w: WaiterStep)
    requires Inv(s) && Enabled(s, W(x, w))
    ensures CountInv(Apply(s, W(x, w)))
  {
    assert RequestOk(s, x);
    assert w.AddOk? ==> x !in s.posted;
  }

  lemma WaiterKeepsInv(s: State, x: ReqId, w: WaiterStep)
    requires Inv(s) && Enabled(s, W(x, w))
    ensures Inv(Apply(s, W(x, w)))
  {
    WaiterKeepsLock(s, x, w);
    WaiterKeepsQueue(s, x, w);
    WaiterKeepsCount(s, x, w);
    var s' := Apply(s, W(x, w));
    forall y | y in s'.reqs ensures RequestOk(s', y) {
      assert RequestOk(s, y);
      if y == x {
        WaiterKeepsRequest(s.reqs[x], w, s.stopping, x in s.posted || x in s.used, s.hand == Got(x), s.hand == Done(x), x in s.work);
      }
    }
  }

  lemma AllocKeepsInv(s: State, x: ReqId)
    requires Inv(s) && Enabled(s, Alloc(x))
    ensures Inv(Apply(s, Alloc(x)))
  {
    var s' := Apply(s, Alloc(x));
    forall y | y in s'.reqs ensures RequestOk(s', y) {
      if y != x { assert RequestOk(s, y); }
    }
  }

  lemma CallbackKeepsInv(s: State, c: CallbackStep)
    requires Inv(s) && Enabled(s, C(c))
    ensures Inv(Apply(s, C(c)))
  {
    var s' := Apply(s, C(c));
    forall y | y in s'.reqs ensures RequestOk(s', y) {
      assert RequestOk(s, y);
    }
  }

  lemma StopKeepsInv(s: State, t: StopStep)
    requires Inv(s) && Enabled(s, S(t))
    ensures Inv(Apply(s, S(t)))
  {
    var s' := Apply(s, S(t));
    forall y | y in s'.reqs ensures RequestOk(s', y) {
      assert RequestOk(s, y);
    }
  }

  lemma CompleteKeepsQueue(s: State, who: Party, k: CompleteStep)
    requires LockInv(s) && StopInv(s) && QueueInv(s) && Enabled(s, Complete(who, k))
    ensures var s' := Apply(s, Complete(who, k)); LockInv(s') && StopInv(s') && QueueInv(s')
  {
  }

  /** Taking one element out of two disjoint sets. */
  lemma OneLess(a: set<ReqId>, b: set<ReqId>, x: ReqId)
    requires a !! b && (x in a || x in b)
    ensures |a - {x}| + |b - {x}| + 1 == |a| + |b|
  {
    if x in a {
      assert b - {x} == b;
    } else {
      assert a - {x} == a;
    }
  }

  lemma CompleteKeepsCount(s: State, who: Party, k: CompleteStep)
    requires LockInv(s) && QueueInv(s) && CountInv(s) && Enabled(s, Complete(who, k))
    ensures CountInv(Apply(s, Complete(who, k)))
  {
    if k.Take? { OneLess(s.posted, s.used, k.x); }
  }

  lemma CompleteKeepsRequest(s: State, who: Party, k: CompleteStep, y: ReqId)
    requires Inv(s) && Enabled(s, Complete(who, k)) && y in s.reqs
    ensures RequestOk(Apply(s, Complete(who, k)), y)
  {
    assert RequestOk(s, y);
  }

  lemma CompleteKeepsInv(s: State, who: Party, k: CompleteStep)
    requires Inv(s) && Enabled(s, Complete(who, k))
    ensures Inv(Apply(s, Complete(who, k)))
  {
    CompleteKeepsQueue(s, who, k);
    CompleteKeepsCount(s, who, k);
    var s' := Apply(s, Complete(who, k));
    forall y | y in s'.reqs ensures RequestOk(s', y) {
      CompleteKeepsRequest(s, who, k, y);
    }
  }

  lemma HostKeepsInv(s: State, x: ReqId)
    requires Inv(s) && Enabled(s, HostAnswer(x))
    ensures Inv(Apply(s, HostAnswer(x)))
  {
    var s' := Apply(s, HostAnswer(x));
    forall y | y in s'.reqs ensures RequestOk(s', y) {
      assert RequestOk(s, y);
    }
  }

  lemma WorkKeepsInv(s: State, x: ReqId)
    requires Inv(s) && Enabled(s, WorkFree(x))
    ensures Inv(Apply(s, WorkFree(x)))
  {
    var s' := Apply(s, WorkFree(x));
    forall y | y in s'.reqs ensures RequestOk(s', y) {
      assert RequestOk(s, y);
    }
  }

  lemma StepKeepsInv(s: State, a: Action)
    requires Inv(s) && Enabled(s, a)
    ensures Inv(Apply(s, a))
  {
    match a
    case Alloc(x) => AllocKeepsInv(s, x);
    case W(x, w) => WaiterKeepsInv(s, x, w);
    case C(c) => CallbackKeepsInv(s, c);
    case S(t) => StopKeepsInv(s, t);
    case Complete(who, k) => CompleteKeepsInv(s, who, k);
    case HostAnswer(x) => HostKeepsInv(s, x);
    case WorkFree(x) => WorkKeepsInv(s, x);
  }

  lemma {:induction false} RunKeepsInv(s: State, acts: seq<Action>)
    requires Inv(s) && Run(s, acts)
    ensures Inv(After(s, acts))
    decreases |acts|
  {
    if acts != [] {
      StepKeepsInv(s, acts[0]);
      RunKeepsInv(Apply(s, acts[0]), acts[1..]);
    }
  }

  // ----------------------------------------------------------- the promises

  predicate Frees(a: Action, x: ReqId) {
    a == W(x, CallerFree) || a == WorkFree(x)
  }

  /** How often a run frees request `x`. */
  function FreeCount(acts: seq<Action>, x: ReqId): nat
    decreases |acts|
  {
    if acts == [] then 0 else (if Frees(acts[0], x) then 1 else 0) + FreeCount(acts[1..], x)
  }

  function FreesOf(s: State, x: ReqId): nat {
    if x in s.reqs then s.reqs[x].callerFrees + s.reqs[x].workFrees else 0
  }

  lemma {:induction false} FreesAreCounted(s: State, acts: seq<Action>, x: ReqId)
    requires Run(s, acts)
    ensures FreesOf(After(s, acts), x) == FreesOf(s, x) + FreeCount(acts, x)
    decreases |acts|
  {
    if acts != [] {
      FreesAreCounted(Apply(s, acts[0]), acts[1..], x);
    }
  }

  /**
   * No run frees a request twice.  A request freed by its caller was not
   * abandoned, one freed by the release work was; and once removal has finished
   * and the waiter is through, it has been freed exactly once.
   */
  lemma FreedExactlyOnce(acts: seq<Action>, x: ReqId)
    requires Run(INITIAL, acts)
    ensures FreeCount(acts, x) <= 1
    ensures var s := After(INITIAL, acts);
      x in s.reqs ==>
        && FreeCount(acts, x) == s.reqs[x].callerFrees + s.reqs[x].workFrees
        && (s.reqs[x].callerFrees == 1 ==> !s.reqs[x].abandoned)
        && (s.reqs[x].workFrees == 1 ==> s.reqs[x].abandoned && s.reqs[x].done)
        && (s.stop.SFinished? && (s.reqs[x].pc.Freed? || s.reqs[x].pc.Gone?) ==> FreeCount(acts, x) == 1)
  {
    RunKeepsInv(INITIAL, acts);
    FreesAreCounted(INITIAL, acts, x);
    var s := After(INITIAL, acts);
    if x in s.reqs { assert RequestOk(s, x); }
  }

  /** Whatever the next step is, the requests it uses have not been freed. */
  lemma NeverTouchedAfterFree(acts: seq<Action>, a: Action, x: ReqId)
    requires Run(INITIAL, acts)
    requires Enabled(After(INITIAL, acts), a) && x in Touches(After(INITIAL, acts), a)
    ensures x in After(INITIAL, acts).reqs && FreeCount(acts, x) == 0
  {
    RunKeepsInv(INITIAL, acts);
    FreesAreCounted(INITIAL, acts, x);
    var s := After(INITIAL, acts);
    assert x in s.reqs;
    assert RequestOk(s, x);
  }

  /** Requests put into the queue and not yet completed. */
  function Outstanding(s: State): set<ReqId> {
    s.posted + s.used + (if s.hand.Got? || s.hand.Done? || s.hand.Sent? then {s.hand.x} else {})
  }

  /** Outside the critical sections `inflight` is exactly what was submitted and not completed. */
  lemma InflightIsExact(acts: seq<Action>)
    requires Run(INITIAL, acts)
    ensures var s := After(INITIAL, acts);
      s.lock.Free? ==>
        && s.inflight == |Outstanding(s)|
        && (forall x :: x in s.reqs ==> (x in Outstanding(s) <==> s.reqs[x].submitted && !s.reqs[x].done))
  {
    RunKeepsInv(INITIAL, acts);
    var s := After(INITIAL, acts);
    if s.lock.Free? {
      assert Outstanding(s) == s.posted + s.used;
      forall x | x in s.reqs ensures x in Outstanding(s) <==> s.reqs[x].submitted && !s.reqs[x].done {
        assert RequestOk(s, x);
      }
    }
  }

  /** A step that puts a buffer into the queue finds `stopping` clear. */
  lemma AddSeesNoStop(acts: seq<Action>, x: ReqId)
    requires Run(INITIAL, acts) && Enabled(After(INITIAL, acts), W(x, AddOk))
    ensures !After(INITIAL, acts).stopping
  {
    RunKeepsInv(INITIAL, acts);
    assert RequestOk(After(INITIAL, acts), x);
  }

  lemma {:induction false} StoppingStays(s: State, acts: seq<Action>)
    requires Inv(s) && Run(s, acts) && s.stopping
    ensures forall i, x :: 0 <= i < |acts| ==> acts[i] != W(x, AddOk)
    decreases |acts|
  {
    if acts != [] {
      StepKeepsInv(s, acts[0]);
      StoppingStays(Apply(s, acts[0]), acts[1..]);
      if acts[0].W? { assert RequestOk(s, acts[0].x); }
      forall i, x | 0 <= i < |acts| ensures acts[i] != W(x, AddOk) {
        if i > 0 { assert acts[i] == acts[1..][i - 1]; }
      }
    }
  }

  /** Nothing is submitted after removal has set `stopping`. */
  lemma {:induction false} NothingSubmittedOnceStopping(s: State, acts: seq<Action>, i: nat, j: nat, x: ReqId)
    requires Inv(s) && Run(s, acts)
    requires i < j < |acts| && acts[i] == S(StopSet)
    ensures acts[j] != W(x, AddOk)
    decreases |acts|
  {
    StepKeepsInv(s, acts[0]);
    var s' := Apply(s, acts[0]);
    assert acts[j] == acts[1..][j - 1];
    if i == 0 {
      StoppingStays(s', acts[1..]);
    } else {
      assert acts[i] == acts[1..][i - 1];
      NothingSubmittedOnceStopping(s', acts[1..], i - 1, j - 1, x);
    }
  }

  /**
   * Removal leaves nothing behind: the queue and the release work are empty,
   * nobody sleeps on an answer that cannot come, and every abandoned request
   * has been freed.
   */
  lemma RemovalCompletesEverything(acts: seq<Action>)
    requires Run(INITIAL, acts) && After(INITIAL, acts).stop.SFinished?
    ensures var s := After(INITIAL, acts);
      && s.inflight == 0 && s.work == {}
      && (forall x :: x in s.reqs ==>
            && (s.reqs[x].submitted ==> s.reqs[x].done)
            && (s.reqs[x].pc.Waiting? ==> Enabled(s, W(x, SeeDone)))
            && (s.reqs[x].abandoned ==> s.reqs[x].workFrees == 1))
  {
    RunKeepsInv(INITIAL, acts);
    var s := After(INITIAL, acts);
    forall x | x in s.reqs
      ensures s.reqs[x].submitted ==> s.reqs[x].done
      ensures s.reqs[x].pc.Waiting? ==> Enabled(s, W(x, SeeDone))
      ensures s.reqs[x].abandoned ==> s.reqs[x].workFrees == 1
    {
      assert RequestOk(s, x);
    }
    if s.lock.Waiter? { assert RequestOk(s, s.lock.x); }
  }

  // --------------------------------------------------- what the caller is told

  /** Somebody's completion loop marked the request done. */
  predicate CompletedBy(acts: seq<Action>, who: Party, x: ReqId) { Complete(who, SetDone(x)) in acts }

  /** The submit loop looked at `stopping` after removal had set it. */
  predicate SawStopping(acts: seq<Action>, x: ReqId) {
    exists n :: 0 <= n < |acts| && acts[n] == W(x, CheckStopping) && S(StopSet) in acts[..n]
  }

  /** Why a submission was given up. */
  predicate TurnedAway(acts: seq<Action>, x: ReqId) {
    W(x, AddError) in acts || W(x, SpaceGiveUp) in acts || SawStopping(acts, x)
  }

  /** What is recorded of a request is what the actions so far did to it. */
  predicate RequestTold(acts: seq<Action>, r: Request, x: ReqId) {
    && (r.submitted <==> W(x, AddOk) in acts)
    && (r.done <==> CompletedBy(acts, ByCallback, x) || CompletedBy(acts, ByRemoval, x))
    && (r.transportError <==> CompletedBy(acts, ByRemoval, x))
    && (CompletedBy(acts, ByCallback, x) ==> HostAnswer(x) in acts && !r.transportError)
    && (r.pc.Refused? || (r.pc.Returned? && !r.submitted) ==> TurnedAway(acts, x))
    && (r.pc.Freed? && !r.submitted ==> TurnedAway(acts, x) || W(x, Enter) !in acts)
    && (r.pc.Fresh? ==> W(x, Enter) !in acts)
    && (r.abandoned ==> W(x, Kill) in acts)
    && (r.pc.KillAtLock? || r.pc.KillInLock? ==> W(x, Kill) in acts)
  }

  predicate Told(acts: seq<Action>, s: State, x: ReqId) {
    && (s.stopping <==> S(StopSet) in acts)
    && (x in s.used || (s.hand == Got(x) && s.cb.CLoop?) ==> HostAnswer(x) in acts)
    && if x in s.reqs then RequestTold(acts, s.reqs[x], x)
       else !CompletedBy(acts, ByCallback, x) && !CompletedBy(acts, ByRemoval, x) && forall w :: W(x, w) !in acts
  }

  lemma SawStoppingNext(acts: seq<Action>, a: Action, x: ReqId)
    ensures SawStopping(acts, x) ==> SawStopping(acts + [a], x)
    ensures a == W(x, CheckStopping) && S(StopSet) in acts ==> SawStopping(acts + [a], x)
  {
    var more := acts + [a];
    if SawStopping(acts, x) {
      var n :| 0 <= n < |acts| && acts[n] == W(x, CheckStopping) && S(StopSet) in acts[..n];
      assert more[..n] == acts[..n];
      assert more[n] == acts[n];
    }
    if a == W(x, CheckStopping) && S(StopSet) in acts {
      assert more[..|acts|] == acts;
      assert more[|acts|] == a;
    }
  }

  lemma StepTells(acts: seq<Action>, s: State, a: Action, x: ReqId)
    requires Inv(s) && Told(acts, s, x) && Enabled(s, a)
    ensures Told(acts + [a], Apply(s, a), x)
  {
    SawStoppingNext(acts, a, x);
    if a.W? && a.x == x {
      WaiterTells(acts, s, a.w, x);
    } else if a.Complete? && a.k == SetDone(x) {
      assert RequestOk(s, x);
    } else if x in s.reqs {
      OtherTells(acts, s, a, x);
    }
  }

  lemma WaiterTells(acts: seq<Action>, s: State, w: WaiterStep, x: ReqId)
    requires Inv(s) && Told(acts, s, x) && Enabled(s, W(x, w))
    ensures Told(acts + [W(x, w)], Apply(s, W(x, w)), x)
  {
    assert RequestOk(s, x);
    SawStoppingNext(acts, W(x, w), x);
    WaiterTold(acts, s.reqs[x], w, s.stopping, x);
  }

  lemma WaiterTold(acts: seq<Action>, r: Request, w: WaiterStep, stopping: bool, x: ReqId)
    requires RequestTold(acts, r, x) && WaiterMay(r, w) && (stopping <==> S(StopSet) in acts)
    requires !r.submitted ==> BeforeSubmit(r.pc) || r.pc.Returned? || r.pc.Freed?
    requires r.submitted ==> !BeforeSubmit(r.pc)
    ensures RequestTold(acts + [W(x, w)], WaiterNext(r, w, stopping), x)
  {
    SawStoppingNext(acts, W(x, w), x);
  }

  /** Any other step leaves what is recorded of the request alone. */
  lemma RequestStays(s: State, a: Action, x: ReqId)
    requires Enabled(s, a) && x in s.reqs && !(a.W? && a.x == x) && !(a.Complete? && a.k == SetDone(x))
    ensures x in Apply(s, a).reqs
    ensures var r, r' := s.reqs[x], Apply(s, a).reqs[x]; r' == r.(workFrees := r'.workFrees)
  {
  }

  lemma QueueTells(acts: seq<Action>, s: State, a: Action, x: ReqId)
    requires Inv(s) && Told(acts, s, x) && Enabled(s, a)
    ensures var s', more := Apply(s, a), acts + [a];
      && (s'.stopping <==> S(StopSet) in more)
      && (x in s'.used || (s'.hand == Got(x) && s'.cb.CLoop?) ==> HostAnswer(x) in more)
  {
  }

  lemma OtherTells(acts: seq<Action>, s: State, a: Action, x: ReqId)
    requires Inv(s) && Told(acts, s, x) && Enabled(s, a) && x in s.reqs
    requires !(a.W? && a.x == x) && !(a.Complete? && a.k == SetDone(x))
    ensures Told(acts + [a], Apply(s, a), x)
  {
    QueueTells(acts, s, a, x);
    RequestStays(s, a, x);
    StillTold(acts, a, s.reqs[x], Apply(s, a).reqs[x], x);
  }

  lemma StillTold(acts: seq<Action>, a: Action, r: Request, r': Request, x: ReqId)
    requires RequestTold(acts, r, x) && r' == r.(workFrees := r'.workFrees)
    requires !(a.W? && a.x == x) && !(a.Complete? && a.k == SetDone(x))
    ensures RequestTold(acts + [a], r', x)
  {
    SawStoppingNext(acts, a, x);
    assert CompletedBy(acts + [a], ByCallback, x) <==> CompletedBy(acts, ByCallback, x);
    assert CompletedBy(acts + [a], ByRemoval, x) <==> CompletedBy(acts, ByRemoval, x);
  }

  lemma {:induction false} RunSnoc(s: State, acts: seq<Action>, a: Action)
    ensures Run(s, acts + [a]) <==> Run(s, acts) && Enabled(After(s, acts), a)
    ensures Run(s, acts + [a]) ==> After(s, acts + [a]) == Apply(After(s, acts), a)
    decreases |acts|
  {
    if acts == [] {
      assert acts + [a] == [a];
    } else {
      assert (acts + [a])[1..] == acts[1..] + [a];
      if Enabled(s, acts[0]) { RunSnoc(Apply(s, acts[0]), acts[1..], a); }
    }
  }

  lemma {:induction false} RunTells(acts: seq<Action>, x: ReqId)
    requires Run(INITIAL, acts)
    ensures Told(acts, After(INITIAL, acts), x)
    decreases |acts|
  {
    if acts != [] {
      var n := |acts| - 1;
      assert acts == acts[..n] + [acts[n]];
      RunSnoc(INITIAL, acts[..n], acts[n]);
      RunKeepsInv(INITIAL, acts[..n]);
      RunTells(acts[..n], x);
      StepTells(acts[..n], After(INITIAL, acts[..n]), acts[n], x);
    }
  }

  /**
   * What `nvrm_xfer_run` reports is what happened.  A request is done exactly
   * when one of the two loops completed it, and never by both: by the callback,
   * without an error, only if the host answered it; by removal, with an error,
   * only once the device was stopping.  A request comes back unsubmitted only
   * if the loop saw the stop, a queue error or a give-up, and is abandoned only
   * on a signal or a timeout.
   */
  lemma OutcomeIsTrue(acts: seq<Action>, x: ReqId)
    requires Run(INITIAL, acts) && x in After(INITIAL, acts).reqs
    ensures var r := After(INITIAL, acts).reqs[x];
      && (r.submitted <==> W(x, AddOk) in acts)
      && (r.done <==> CompletedBy(acts, ByCallback, x) || CompletedBy(acts, ByRemoval, x))
      && !(CompletedBy(acts, ByCallback, x) && CompletedBy(acts, ByRemoval, x))
      && (r.transportError <==> CompletedBy(acts, ByRemoval, x))
      && (r.done && !r.transportError ==> HostAnswer(x) in acts)
      && (r.transportError ==> S(StopSet) in acts)
      && (r.pc.Returned? && !r.submitted ==> TurnedAway(acts, x))
      && (r.abandoned ==> W(x, Kill) in acts)
  {
    RunTells(acts, x);
    RunKeepsInv(INITIAL, acts);
    if CompletedBy(acts, ByRemoval, x) { ErrorsOnlyStopping(acts, x); }
  }

  lemma {:induction false} ErrorsOnlyStopping(acts: seq<Action>, x: ReqId)
    requires Run(INITIAL, acts) && CompletedBy(acts, ByRemoval, x)
    ensures S(StopSet) in acts
    decreases |acts|
  {
    var n := |acts| - 1;
    assert acts == acts[..n] + [acts[n]];
    RunSnoc(INITIAL, acts[..n], acts[n]);
    if CompletedBy(acts[..n], ByRemoval, x) {
      ErrorsOnlyStopping(acts[..n], x);
    } else {
      RunKeepsInv(INITIAL, acts[..n]);
      RunTells(acts[..n], x);
    }
  }
}
