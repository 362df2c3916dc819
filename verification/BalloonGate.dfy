/**
 * The gate between the balloon and the guest's processes, and what it buys.
 *
 * A process holds the gate for reading around its VIDMEM allocation; the
 * balloon holds it for writing while it frees chunks and asks again for NVKMS.
 * The host serves requests in submission order from one byte ledger, so what
 * matters is the order in which requests are submitted, over every
 * interleaving of processes, NVKMS callers and the refill worker.
 */
module BalloonGate {

  type Pid = nat
  /** One call of `balloon_after_alloc`. */
  type Episode = nat

  datatype Request =
    | ProcessAlloc(p: Pid, bytes: nat)        // gated: waits for the balloon's write lock
    | NvkmsAlloc(bytes: nat)                  // not gated
    | Release(bytes: nat)                     // somebody's free, gated by nothing
    | Refill(bytes: nat)                      // a chunk asked for by the worker
    | BalloonFree(e: Episode, bytes: nat)
    | BalloonFreeLost(e: Episode)             // the transport failed: the ledger never saw it
    | Retry(e: Episode, bytes: nat)

  datatype ProcessPc = Gated | Sent
  datatype EpisodePc = WantGate | WantBalloon | Freeing(got: nat) | Asked | Released

  datatype State = State(
    procs: map<Pid, ProcessPc>,       // the readers of balloon_gate
    writer: set<Episode>,             // who holds it for writing: at most one
    balloonLock: set<Episode>,        // who holds balloon_lock, the worker excluded
    worker: bool,                     // the worker holds balloon_lock
    episodes: map<Episode, EpisodePc>,
    log: seq<Request>)

  const INITIAL := State(map[], {}, {}, false, map[], [])

  datatype Action =
    | ProcEnter(p: Pid)               // down_read
    | ProcSubmit(p: Pid, bytes: nat)
    | ProcLeave(p: Pid)               // answered, refused before submission, or killed: up_read
    | Other(bytes: nat)               // an NVKMS allocation
    | Free(bytes: nat)
    | Begin(e: Episode)               // NVKMS was refused a display buffer
    | TakeGate(e: Episode)            // down_write
    | TakeBalloon(e: Episode)
    | FreeChunk(e: Episode, bytes: nat, arrives: bool)
    | Ask(e: Episode, bytes: nat)
    | Refused(e: Episode)
    | Finish(e: Episode)
    | WorkerLock | WorkerFill(bytes: nat) | WorkerUnlock

  predicate Enabled(s: State, a: Action) {
    match a
    case ProcEnter(p) => p !in s.procs && s.writer == {}
    case ProcSubmit(p, _) => p in s.procs && s.procs[p].Gated?
    case ProcLeave(p) => p in s.procs
    case Other(_) => true
    case Free(_) => true
    case Begin(e) => e !in s.episodes
    case TakeGate(e) => e in s.episodes && s.episodes[e].WantGate? && s.procs == map[] && s.writer == {}
    case TakeBalloon(e) => e in s.episodes && s.episodes[e].WantBalloon? && s.balloonLock == {} && !s.worker
    case FreeChunk(e, _, _) => e in s.episodes && s.episodes[e].Freeing?
    case Ask(e, _) => e in s.episodes && s.episodes[e].Freeing? && s.episodes[e].got > 0
    case Refused(e) => e in s.episodes && s.episodes[e].Asked?
    case Finish(e) => e in s.episodes && (s.episodes[e].Freeing? || s.episodes[e].Asked?)
    case WorkerLock => s.balloonLock == {} && !s.worker
    case WorkerFill(_) => s.worker
    case WorkerUnlock => s.worker
  }

  function Apply(s: State, a: Action): State
    requires Enabled(s, a)
  {
    match a
    case ProcEnter(p) => s.(procs := s.procs[p := Gated])
    case ProcSubmit(p, bytes) => s.(procs := s.procs[p := Sent], log := s.log + [ProcessAlloc(p, bytes)])
    case ProcLeave(p) => s.(procs := s.procs - {p})
    case Other(bytes) => s.(log := s.log + [NvkmsAlloc(bytes)])
    case Free(bytes) => s.(log := s.log + [Release(bytes)])
    case Begin(e) => s.(episodes := s.episodes[e := WantGate])
    case TakeGate(e) => s.(writer := {e}, episodes := s.episodes[e := WantBalloon])
    case TakeBalloon(e) => s.(balloonLock := {e}, episodes := s.episodes[e := Freeing(0)])
    case FreeChunk(e, bytes, arrives) =>
      if arrives then
        s.(episodes := s.episodes[e := Freeing(s.episodes[e].got + bytes)], log := s.log + [BalloonFree(e, bytes)])
      else s.(log := s.log + [BalloonFreeLost(e)])
    case Ask(e, bytes) => s.(episodes := s.episodes[e := Asked], log := s.log + [Retry(e, bytes)])
    case Refused(e) => s.(episodes := s.episodes[e := Freeing(0)])
    case Finish(e) => s.(writer := {}, balloonLock := {}, episodes := s.episodes[e := Released])
    case WorkerLock => s.(worker := true)
    case WorkerFill(bytes) => s.(log := s.log + [Refill(bytes)])
    case WorkerUnlock => s.(worker := false)
  }

  predicate Run(s: State, acts: seq<Action>)
    decreases |acts|
  {
    acts == [] || (Enabled(s, acts[0]) && Run(Apply(s, acts[0]), acts[1..]))
  }

  function After(s: State, acts: seq<Action>): State
    requires Run(s, acts)
    decreases |acts|
  {
    if acts == [] then s else After(Apply(s, acts[0]), acts[1..])
  }

  // ------------------------------------------------------------- invariant

  predicate Mine(r: Request, e: Episode) {
    (r.BalloonFree? || r.BalloonFreeLost? || r.Retry?) && r.e == e
  }

  /** A request that would take, or belongs to those who take, the room just freed. */
  predicate Takes(r: Request) {
    r.ProcessAlloc? || r.Refill?
  }

  /** Between two requests of one episode nobody who is gated got in. */
  ghost predicate Closed(log: seq<Request>) {
    forall e, i, m, j :: 0 <= i < m < j < |log| && Mine(log[i], e) && Mine(log[j], e) ==> !Takes(log[m])
  }

  /** Since the first request of episode `e` nobody who is gated got in. */
  ghost predicate StillOpen(log: seq<Request>, e: Episode) {
    forall i, m :: 0 <= i < m < |log| && Mine(log[i], e) ==> !Takes(log[m])
  }

  predicate Inside(pc: EpisodePc) {
    pc.Freeing? || pc.Asked?
  }

  ghost predicate LockInv(s: State) {
    && (forall e :: e in s.writer <==> e in s.episodes && (s.episodes[e].WantBalloon? || Inside(s.episodes[e])))
    && (forall e :: e in s.balloonLock <==> e in s.episodes && Inside(s.episodes[e]))
    && (forall e, f :: e in s.writer && f in s.writer ==> e == f)
    && (s.writer != {} ==> s.procs == map[])
    && (s.worker ==> s.balloonLock == {})
  }

  ghost predicate LogInv(s: State) {
    // an episode's requests are submitted inside its critical section
    && (forall e, i :: 0 <= i < |s.log| && Mine(s.log[i], e) ==>
          e in s.episodes && (Inside(s.episodes[e]) || s.episodes[e].Released?))
    && (forall e :: e in s.episodes && Inside(s.episodes[e]) ==> StillOpen(s.log, e))
    && Closed(s.log)
  }

  ghost predicate Inv(s: State) {
    LockInv(s) && LogInv(s)
  }

  lemma StepKeepsLocks(s: State, a: Action)
    requires LockInv(s) && Enabled(s, a)
    ensures LockInv(Apply(s, a))
  {
  }

  /** A request nobody is waiting behind may follow anything. */
  lemma AppendHarmless(log: seq<Request>, r: Request)
    requires Closed(log) && !Takes(r) && (forall e :: Mine(r, e) ==> StillOpen(log, e))
    ensures Closed(log + [r])
    ensures forall e :: StillOpen(log, e) ==> StillOpen(log + [r], e)
  {
  }

  /** A request that takes room closes no episode: it must not belong to one that is inside. */
  lemma AppendTaking(log: seq<Request>, r: Request)
    requires Closed(log) && Takes(r)
    ensures Closed(log + [r])
  {
  }

  lemma StepKeepsLog(s: State, a: Action)
    requires Inv(s) && Enabled(s, a)
    ensures LogInv(Apply(s, a))
  {
    var s' := Apply(s, a);
    if s'.log != s.log {
      var r := s'.log[|s.log|];
      assert s'.log == s.log + [r];
      if Takes(r) {
        AppendTaking(s.log, r);
        forall e ensures !(e in s'.episodes && Inside(s'.episodes[e])) {
          assert e in s.balloonLock <==> e in s.episodes && Inside(s.episodes[e]);
          assert e in s.writer <==> e in s.episodes && (s.episodes[e].WantBalloon? || Inside(s.episodes[e]));
        }
      } else {
        AppendHarmless(s.log, r);
      }
    }
  }

  lemma {:induction false} RunKeepsInv(s: State, acts: seq<Action>)
    requires Inv(s) && Run(s, acts)
    ensures Inv(After(s, acts))
    decreases |acts|
  {
    if acts != [] {
      StepKeepsLocks(s, acts[0]);
      StepKeepsLog(s, acts[0]);
      RunKeepsInv(Apply(s, acts[0]), acts[1..]);
    }
  }

  // ------------------------------------------------------------ the promises

  /** No process allocation and no refill is submitted between a balloon free and the retry it is for. */
  lemma NobodySlipsBetween(acts: seq<Action>, e: Episode, i: nat, m: nat, j: nat)
    requires Run(INITIAL, acts)
    requires i < m < j < |After(INITIAL, acts).log|
    requires var log := After(INITIAL, acts).log; log[i].BalloonFree? && log[i].e == e && log[j].Retry? && log[j].e == e
    ensures var r := After(INITIAL, acts).log[m]; !r.ProcessAlloc? && !r.Refill?
  {
    RunKeepsInv(INITIAL, acts);
    var log := After(INITIAL, acts).log;
    assert Mine(log[i], e) && Mine(log[j], e);
  }

  /** The ledger after serving `log` in order, from `free` bytes: an allocation is granted when it fits. */
  function Ledger(free: nat, log: seq<Request>): nat
    decreases |log|
  {
    if log == [] then free
    else
      var before := Ledger(free, log[..|log| - 1]);
      match log[|log| - 1]
      case ProcessAlloc(_, n) => if n <= before then before - n else before
      case NvkmsAlloc(n) => if n <= before then before - n else before
      case Refill(n) => if n <= before then before - n else before
      case Retry(_, n) => if n <= before then before - n else before
      case Release(n) => before + n
      case BalloonFree(_, n) => before + n
      case BalloonFreeLost(_) => before
  }

  /** What episode `e` gave back from position `from` on. */
  function Given(log: seq<Request>, e: Episode, from: nat): nat
    requires from <= |log|
    decreases |log|
  {
    if |log| == from then 0
    else
      var r := log[|log| - 1];
      Given(log[..|log| - 1], e, from) + (if r.BalloonFree? && r.e == e then r.bytes else 0)
  }

  /** Only frees from `from` on: what was given back is there. */
  lemma {:induction false} GivenIsFree(free: nat, log: seq<Request>, e: Episode, from: nat)
    requires from <= |log|
    requires forall m :: from <= m < |log| ==> !Takes(log[m]) && !log[m].NvkmsAlloc? && !log[m].Retry?
    ensures Ledger(free, log) >= Given(log, e, from)
    decreases |log|
  {
    if |log| > from {
      GivenIsFree(free, log[..|log| - 1], e, from);
    }
  }

  /**
   * If the chunks given back since position `i` cover the buffer, and no other
   * NVKMS allocation was submitted meanwhile, the retry is granted: no process
   * can have taken the room.
   */
  lemma RetryIsGranted(acts: seq<Action>, free: nat, e: Episode, i: nat, j: nat)
    requires Run(INITIAL, acts)
    requires i < j < |After(INITIAL, acts).log|
    requires var log := After(INITIAL, acts).log;
      && log[i].BalloonFree? && log[i].e == e && log[j].Retry? && log[j].e == e
      && (forall m :: i < m < j ==> !log[m].NvkmsAlloc? && !log[m].Retry?)
      && log[j].bytes <= Given(log[..j], e, i)
    ensures var log := After(INITIAL, acts).log;
      Ledger(free, log[..j + 1]) + log[j].bytes == Ledger(free, log[..j])
  {
    var log := After(INITIAL, acts).log;
    forall m | i <= m < j ensures !Takes(log[m]) {
      if m > i { NobodySlipsBetween(acts, e, i, m, j); }
    }
    GivenIsFree(free, log[..j], e, i);
    assert log[..j + 1][..j] == log[..j];
  }
}
