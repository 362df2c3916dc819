/**
 * From the event queue to a fate: the interrupt callback fills the ring, the
 * work item empties it, and every firing ends delivered or in one drop counter.
 *
 * Steps are serialised. The worker's local record is the field `hand`, so other
 * steps may fall between taking a record off the ring and firing it.
 */
module EventDelivery {
  import opened Common
  import opened EventRing
  import Callbacks

  const CLASS_OS_EVENT: nat := 0x79

  datatype Fate = Delivered | NoSlot | Filtered | BadClass

  datatype Decided = Decided(event: Event, fate: Fate)

  /** The key of a file in the context index; a token above 32 bits is not indexed. */
  function Key(proc: nat, token: nat): Option<nat> {
    if token >= U32 then None else Some(proc * U32 + token)
  }

  /** Two indexed files never share a key. */
  lemma KeyIsInjective(p: nat, t: nat, q: nat, u: nat)
    requires Key(p, t).Some? && Key(p, t) == Key(q, u)
    ensures p == q && t == u
  {
  }

  /** The file an OS event names, if it is still open. */
  function Woken(ctxs: map<nat, bool>, e: Event): Option<nat> {
    match Key(e.proc, e.token)
    case Some(k) => if k in ctxs then Some(k) else None
    case None => None
  }

  /** An OS event marks the file it names, and no other, as having something to poll. */
  function Pending(ctxs: map<nat, bool>, e: Event): map<nat, bool> {
    if e.cls == CLASS_OS_EVENT && Woken(ctxs, e).Some? then ctxs[Woken(ctxs, e).value := true] else ctxs
  }

  function FateOf(ctxs: map<nat, bool>, t: Callbacks.Table, e: Event): Fate {
    if e.cls == CLASS_OS_EVENT then
      if Woken(ctxs, e).Some? then Delivered else NoSlot
    else match Callbacks.Step(t, Callbacks.Fire(e)).1
      case DropClass => BadClass
      case DropNoSlot => NoSlot
      case DropFiltered => Filtered
      case _ => Delivered
  }

  /** The index holds these open files, by process and 32-bit token. */
  ghost predicate Indexes(ctxs: map<nat, bool>, files: set<(nat, nat)>) {
    forall proc: nat, token: nat :: (proc, token) in files <==> token < U32 && proc * U32 + token in ctxs
  }

  /** An OS event is delivered exactly if the file of its process and token is open, and then to that file alone. */
  lemma WakesExactlyItsFile(ctxs: map<nat, bool>, files: set<(nat, nat)>, t: Callbacks.Table, e: Event, proc: nat, token: nat)
    requires Indexes(ctxs, files) && e.cls == CLASS_OS_EVENT && (proc, token) in files
    ensures FateOf(ctxs, t, e) == if (e.proc, e.token) in files then Delivered else NoSlot
    ensures Key(proc, token).Some? && Key(proc, token).value in ctxs
    ensures var k := Key(proc, token).value;
      k in Pending(ctxs, e) && Pending(ctxs, e)[k] == (ctxs[k] || (proc == e.proc && token == e.token))
  {
    assert (e.proc, e.token) in files <==> e.token < U32 && e.proc * U32 + e.token in ctxs;
    if Key(proc, token) == Key(e.proc, e.token) { KeyIsInjective(proc, token, e.proc, e.token); }
  }

  function Handled(log: seq<Decided>): (s: seq<Event>)
    ensures |s| == |log| && forall i :: 0 <= i < |log| ==> s[i] == log[i].event
  {
    seq(|log|, i requires 0 <= i < |log| => log[i].event)
  }

  function Tally(log: seq<Decided>, f: Fate): nat {
    if log == [] then 0 else Tally(log[..|log| - 1], f) + (if log[|log| - 1].fate == f then 1 else 0)
  }

  lemma TallyOne(log: seq<Decided>, d: Decided, f: Fate)
    ensures Tally(log + [d], f) == Tally(log, f) + (if d.fate == f then 1 else 0)
  {
    assert (log + [d])[..|log|] == log;
  }

  /** The fates partition the log. */
  lemma {:induction false} TallyTotal(log: seq<Decided>)
    ensures Tally(log, Delivered) + Tally(log, NoSlot) + Tally(log, Filtered) + Tally(log, BadClass) == |log|
    decreases |log|
  {
    if log != [] { TallyTotal(log[..|log| - 1]); }
  }

  function Hand(hand: Option<Event>): seq<Event> {
    match hand case Some(e) => [e] case None => []
  }

  class Device {
    const ring: Ring
    const registry: Callbacks.Registry
    /** Open files by key, with their pending flag. */
    var ctxs: map<nat, bool>
    /** The record the worker has copied out of the ring. */
    var hand: Option<Event>
    var delivered: nat
    var dropped: nat
    var dropRingFull: nat
    var dropNoSlot: nat
    var dropFiltered: nat
    var dropClass: nat

    /** Well-formed firings seen so far, those the ring took, and what became of those handled. */
    ghost var received: nat
    ghost var accepted: seq<Event>
    ghost var log: seq<Decided>

    ghost predicate Valid()
      reads this, ring, ring.cells, registry
    {
      && ring.Valid() && registry.Valid()
      && accepted == Handled(log) + Hand(hand) + ring.Contents()
      && received == |accepted| + dropRingFull
      && delivered == Tally(log, Delivered)
      && dropNoSlot == Tally(log, NoSlot)
      && dropFiltered == Tally(log, Filtered)
      && dropClass == Tally(log, BadClass)
      && dropped == dropRingFull + dropNoSlot + dropFiltered + dropClass
    }

    constructor (start: nat, blank: Event)
      requires start < U32
      ensures Valid() && received == 0 && hand.None? && ctxs == map[]
      ensures fresh(ring) && fresh(ring.cells) && fresh(registry) && fresh(registry.cb) && fresh(registry.sem)
    {
      ring := new Ring(start, blank);
      registry := new Callbacks.Registry();
      ctxs, hand := map[], None;
      delivered, dropped, dropRingFull, dropNoSlot, dropFiltered, dropClass := 0, 0, 0, 0, 0, 0;
      received, accepted, log := 0, [], [];
    }

    /** Nothing is lost and nothing is counted twice. */
    lemma EveryFiringIsAccounted()
      requires Valid()
      ensures received == |ring.Contents()| + |Hand(hand)| + delivered + dropped
      ensures dropped == dropRingFull + dropNoSlot + dropFiltered + dropClass
      ensures |Hand(hand)| <= 1 && |ring.Contents()| <= RING
    {
      TallyTotal(log);
    }

    /** One buffer of `nvrm_evq_cb`. */
    method Receive(wellFormed: bool, e: Event)
      requires Valid()
      modifies this`received, this`accepted, this`dropped, this`dropRingFull, ring, ring.cells
      ensures Valid()
      ensures received == old(received) + (if wellFormed then 1 else 0)
      ensures ring.Contents() ==
        if wellFormed && |old(ring.Contents())| < RING then old(ring.Contents()) + [e] else old(ring.Contents())
      ensures dropRingFull == old(dropRingFull) + (if wellFormed && |old(ring.Contents())| == RING then 1 else 0)
    {
      if wellFormed {
        var queued := ring.Push(e);
        received := received + 1;
        if queued {
          accepted := accepted + [e];
        } else {
          dropped, dropRingFull := dropped + 1, dropRingFull + 1;
        }
      }
    }

    /** The locked half of one turn of `nvrm_events_work`. */
    method Take() returns (more: bool)
      requires Valid() && hand.None?
      modifies this`hand, ring`head
      ensures Valid()
      ensures more <==> old(ring.Contents()) != []
      ensures more ==> hand == Some(old(ring.Contents())[0]) && ring.Contents() == old(ring.Contents())[1..]
      ensures !more ==> hand.None? && ring.Contents() == []
    {
      hand := ring.Pop();
      more := hand.Some?;
    }

    ghost method Decide(d: Decided)
      modifies this`log
      ensures log == old(log) + [d] && Handled(log) == Handled(old(log)) + [d.event]
      ensures forall f :: Tally(log, f) == Tally(old(log), f) + (if d.fate == f then 1 else 0)
    {
      log := log + [d];
      forall f ensures Tally(log, f) == Tally(old(log), f) + (if d.fate == f then 1 else 0) {
        TallyOne(old(log), d, f);
      }
    }

    /** `event_fire_wakeup`: wake the file (proc, token) and no other. */
    method Wakeup(e: Event) returns (woken: bool)
      modifies this`ctxs
      ensures woken <==> Woken(old(ctxs), e).Some?
      ensures ctxs == if woken then old(ctxs)[Woken(old(ctxs), e).value := true] else old(ctxs)
    {
      woken := false;
      var key := Key(e.proc, e.token);
      if key.Some? && key.value in ctxs {
        ctxs := ctxs[key.value := true];
        woken := true;
      }
    }

    /** Hand a record to the file or callback it names. */
    method Dispatch(e: Event) returns (fate: Fate)
      requires registry.Valid()
      modifies this`ctxs, registry`waiters, registry.sem
      ensures fate == FateOf(old(ctxs), old(registry.Now()), e)
      ensures ctxs == Pending(old(ctxs), e)
      ensures registry.Now() ==
        if e.cls == CLASS_OS_EVENT then old(registry.Now())
        else Callbacks.Step(old(registry.Now()), Callbacks.Fire(e)).0
    {
      if e.cls == CLASS_OS_EVENT {
        var woken := Wakeup(e);
        return if woken then Delivered else NoSlot;
      }
      var o := registry.FireCallback(e);
      match o
      case DropClass => fate := BadClass;
      case DropNoSlot => fate := NoSlot;
      case DropFiltered => fate := Filtered;
      case _ => fate := Delivered;
    }

    /** The counters a fate moves. */
    method Count(fate: Fate)
      modifies this`delivered, this`dropped, this`dropNoSlot, this`dropFiltered, this`dropClass
      ensures delivered == old(delivered) + (if fate.Delivered? then 1 else 0)
      ensures dropNoSlot == old(dropNoSlot) + (if fate.NoSlot? then 1 else 0)
      ensures dropFiltered == old(dropFiltered) + (if fate.Filtered? then 1 else 0)
      ensures dropClass == old(dropClass) + (if fate.BadClass? then 1 else 0)
      ensures dropped + delivered == old(dropped + delivered) + 1
    {
      match fate
      case Delivered => delivered := delivered + 1;
      case NoSlot => dropped, dropNoSlot := dropped + 1, dropNoSlot + 1;
      case Filtered => dropped, dropFiltered := dropped + 1, dropFiltered + 1;
      case BadClass => dropped, dropClass := dropped + 1, dropClass + 1;
    }

    /** The unlocked half of a turn: exactly one counter moves. */
    method Fire()
      requires Valid() && hand.Some?
      modifies this, registry`waiters, registry.sem
      ensures Valid() && hand.None? && ring.Contents() == old(ring.Contents())
      ensures received == old(received) && dropRingFull == old(dropRingFull) && accepted == old(accepted)
      ensures ctxs == Pending(old(ctxs), old(hand).value)
      ensures log == old(log) + [Decided(old(hand).value, FateOf(old(ctxs), old(registry.Now()), old(hand).value))]
      ensures registry.Now() ==
        if old(hand).value.cls == CLASS_OS_EVENT then old(registry.Now())
        else Callbacks.Step(old(registry.Now()), Callbacks.Fire(old(hand).value)).0
    {
      var e := hand.value;
      var fate := Dispatch(e);
      hand := None;
      Count(fate);
      Decide(Decided(e, fate));
    }

    /** `nvrm_events_work` left alone: everything the ring took is decided, in arrival order. */
    method Drain()
      requires Valid() && hand.None?
      modifies this, ring`head, registry`waiters, registry.sem
      ensures Valid() && hand.None? && ring.Contents() == []
      ensures Handled(log) == accepted == old(accepted)
      ensures received == delivered + dropped
    {
      var more := true;
      while more
        invariant Valid() && hand.None? && accepted == old(accepted)
        invariant more || ring.Contents() == []
        decreases more, |ring.Contents()|
      {
        more := Take();
        if more { Fire(); }
      }
      EveryFiringIsAccounted();
    }
  }
}
