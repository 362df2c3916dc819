/**
 * The two tables of guest kernel callbacks: persistent event callbacks (class
 * 0x7e) and one-shot semaphore-surface waiters.
 *
 * Every operation runs under `event_cb_lock`, so an interleaving of NVKMS
 * callers, the event worker and session teardown is a sequence of operations.
 */
module Callbacks {
  import opened Common
  import opened EventRing

  const SLOTS: nat := 64
  const CLASS_KERNEL_CALLBACK_EX: nat := 0x7e
  const NOTIFY_INDEX_MASK: nat := 0x10000   // notifyIndex is read modulo this
  const NOTIFIER_DP_IRQ: nat := 0x7
  const NOTIFIER_LPWR_DIFR_PREFETCH: nat := 0xa2
  const NOTIFIER_HDMI_FRL_RETRAIN: nat := 0xb2

  /** One registered event callback; handle 0 = free. */
  datatype Slot = Slot(client: nat, handle: nat, notify: nat, proc: nat, kc: nat)

  /** One armed waiter; `id` numbers the armings. */
  datatype Waiter = Waiter(used: bool, client: nat, proc: nat, kc: nat, id: nat)

  datatype Table = Table(cb: seq<Slot>, sem: seq<Waiter>, registered: nat, waiters: nat, armings: nat)

  const FREE_SLOT := Slot(0, 0, 0, 0, 0)
  const FREE_WAITER := Waiter(false, 0, 0, 0, 0)

  datatype Outcome =
    | Silent
    | Invoked(slot: Slot)       // the 0x7e callback runs
    | Woken(waiter: Waiter)     // the waiter's callback runs
    | DropClass | DropNoSlot | DropFiltered

  datatype Op =
    | Register(slot: Slot)              // event_cb_after_alloc, after a granted ALLOC
    | Fence(client: nat, handle: nat)   // event_cb_free, before FREE is forwarded
    | DropCallbacks                     // event_cb_drop_all
    | Arm(client: nat, proc: nat, kc: nat)   // semsurf_before_control, before submission
    | Disarm(client: nat, kc: nat)      // refused registration, or UNREGISTER completed
    | DropWaiters                       // semsurf_drop_all
    | Fire(e: Event)                    // event_fire_callback

  // -------------------------------------------------------- searching slots

  /** The first element that satisfies `p`, or the length. */
  function Find<T>(s: seq<T>, p: T -> bool): (i: nat)
    ensures i <= |s| && (forall j :: 0 <= j < i ==> !p(s[j])) && (i < |s| ==> p(s[i]))
  {
    FindFrom(s, p, 0)
  }

  function FindFrom<T>(s: seq<T>, p: T -> bool, from: nat): (i: nat)
    requires from <= |s|
    ensures from <= i <= |s| && (forall j :: from <= j < i ==> !p(s[j])) && (i < |s| ==> p(s[i]))
    decreases |s| - from
  {
    if from == |s| || p(s[from]) then from else FindFrom(s, p, from + 1)
  }

  lemma {:induction false} FindIs<T>(s: seq<T>, p: T -> bool, i: nat)
    requires i <= |s| && (forall j :: 0 <= j < i ==> !p(s[j])) && (i < |s| ==> p(s[i]))
    ensures Find(s, p) == i
  {
    var f := Find(s, p);
  }

  function Count<T>(s: seq<T>, p: T -> bool): nat {
    if s == [] then 0 else (if p(s[0]) then 1 else 0) + Count(s[1..], p)
  }

  lemma {:induction false} CountUpdate<T>(s: seq<T>, p: T -> bool, i: nat, x: T)
    requires i < |s|
    ensures Count(s[i := x], p) == Count(s, p) - (if p(s[i]) then 1 else 0) + (if p(x) then 1 else 0)
    decreases |s|
  {
    if i == 0 {
      assert s[i := x][1..] == s[1..];
    } else {
      assert s[i := x][1..] == s[1..][i - 1 := x];
      CountUpdate(s[1..], p, i - 1, x);
    }
  }

  lemma {:induction false} CountZero<T>(s: seq<T>, p: T -> bool)
    ensures Count(s, p) == 0 <==> forall i :: 0 <= i < |s| ==> !p(s[i])
    decreases |s|
  {
    if s != [] {
      CountZero(s[1..], p);
      if Count(s, p) == 0 {
        forall i | 0 <= i < |s| ensures !p(s[i]) {
          if i > 0 { assert s[i] == s[1..][i - 1]; }
        }
      }
    }
  }

  lemma {:induction false} CountPrefix<T>(s: seq<T>, n: nat, p: T -> bool)
    requires n < |s|
    ensures Count(s[..n + 1], p) == Count(s[..n], p) + (if p(s[n]) then 1 else 0)
    decreases |s|
  {
    if n == 0 {
      assert s[..1][1..] == [];
    } else {
      assert s[..n + 1][1..] == s[1..][..n] && s[..n][1..] == s[1..][..n - 1];
      CountPrefix(s[1..], n - 1, p);
    }
  }

  // ----------------------------------------------------------- the operations

  predicate Taken(s: Slot) { s.handle != 0 }

  predicate Vacant(s: Slot) { !Taken(s) }

  predicate Armed(w: Waiter) { w.used }

  predicate Idle(w: Waiter) { !w.used }

  /** The slots a FREE of (client, handle) names: the object's, or all of a client's. */
  predicate Names(client: nat, handle: nat, s: Slot) {
    Taken(s) && handle != 0 && s.client == client && (s.handle == handle || handle == client)
  }

  predicate Matches(e: Event, s: Slot) {
    Taken(s) && s.handle == e.handle && s.client == e.client && s.proc == e.proc
  }

  predicate Of(client: nat, kc: nat, w: Waiter) {
    w.used && w.client == client && w.kc == kc
  }

  predicate Wakes(e: Event, w: Waiter) {
    w.used && w.kc == e.kc && w.client == e.client && w.proc == e.proc
  }

  function NamesP(client: nat, handle: nat): Slot -> bool { s => Names(client, handle, s) }

  function MatchesP(e: Event): Slot -> bool { s => Matches(e, s) }

  function OfP(client: nat, kc: nat): Waiter -> bool { w => Of(client, kc, w) }

  function WakesP(e: Event): Waiter -> bool { w => Wakes(e, w) }

  /** Notifiers whose handlers read a payload that a substituted OS event does not carry. */
  predicate Filtered(notify: nat) {
    var i := notify % NOTIFY_INDEX_MASK;
    i == NOTIFIER_DP_IRQ || i == NOTIFIER_LPWR_DIFR_PREFETCH || i == NOTIFIER_HDMI_FRL_RETRAIN
  }

  function Cleared(s: seq<Slot>, client: nat, handle: nat): (r: seq<Slot>)
    ensures |r| == |s| && forall i :: 0 <= i < |s| ==> r[i] == if Names(client, handle, s[i]) then FREE_SLOT else s[i]
  {
    seq(|s|, i requires 0 <= i < |s| => if Names(client, handle, s[i]) then FREE_SLOT else s[i])
  }

  function Blank<T>(n: nat, x: T): (r: seq<T>)
    ensures |r| == n && forall i :: 0 <= i < n ==> r[i] == x
  {
    seq(n, _ => x)
  }

  function Less(n: nat, k: nat): nat {
    if k <= n then n - k else 0
  }

  /** `semsurf_slot_del`: the first waiter of (client, kc), if any. */
  function Deleted(t: Table, client: nat, kc: nat): Table {
    var i := Find(t.sem, OfP(client, kc));
    if i == |t.sem| then t
    else t.(sem := t.sem[i := t.sem[i].(used := false)], waiters := Less(t.waiters, 1))
  }

  function FireWaiter(t: Table, e: Event): (Table, Outcome) {
    var i := Find(t.sem, WakesP(e));
    if i == |t.sem| then (t, DropNoSlot)
    else (t.(sem := t.sem[i := t.sem[i].(used := false)], waiters := Less(t.waiters, 1)), Woken(t.sem[i]))
  }

  function FireSlot(t: Table, e: Event): Outcome {
    var i := Find(t.cb, MatchesP(e));
    if i == |t.cb| then DropNoSlot
    else if t.cb[i].kc != e.kc then DropNoSlot   // the handle was reused: the pointer is stale
    else if Filtered(t.cb[i].notify) then DropFiltered
    else Invoked(t.cb[i])
  }

  function Step(t: Table, op: Op): (Table, Outcome) {
    match op
    case Register(slot) =>
      var i := Find(t.cb, Vacant);
      if i == |t.cb| || !Taken(slot) then (t, Silent)
      else (t.(cb := t.cb[i := slot], registered := t.registered + 1), Silent)
    case Fence(client, handle) =>
      (t.(cb := Cleared(t.cb, client, handle),
          registered := Less(t.registered, Count(t.cb, NamesP(client, handle)))), Silent)
    case DropCallbacks => (t.(cb := Blank(|t.cb|, FREE_SLOT), registered := 0), Silent)
    case Arm(client, proc, kc) =>
      var i := Find(t.sem, Idle);
      if i == |t.sem| then (t, Silent)
      else (t.(sem := t.sem[i := Waiter(true, client, proc, kc, t.armings)], waiters := t.waiters + 1, armings := t.armings + 1), Silent)
    case Disarm(client, kc) => (Deleted(t, client, kc), Silent)
    case DropWaiters => (t.(sem := Blank(|t.sem|, FREE_WAITER), waiters := 0), Silent)
    case Fire(e) =>
      if e.cls != CLASS_KERNEL_CALLBACK_EX then (t, DropClass)
      else if e.handle == 0 then FireWaiter(t, e)   // no event object: a semaphore waiter
      else (t, FireSlot(t, e))
  }

  const EMPTY := Table(Blank(SLOTS, FREE_SLOT), Blank(SLOTS, FREE_WAITER), 0, 0, 0)

  /** The tables after any interleaving of operations. */
  function After(ops: seq<Op>): Table
    decreases |ops|
  {
    if ops == [] then EMPTY else Step(After(ops[..|ops| - 1]), ops[|ops| - 1]).0
  }

  /** What operation `j` of an interleaving did. */
  function Result(ops: seq<Op>, j: nat): Outcome
    requires j < |ops|
  {
    Step(After(ops[..j]), ops[j]).1
  }

  lemma AfterNext(ops: seq<Op>, n: nat)
    requires n < |ops|
    ensures After(ops[..n + 1]) == Step(After(ops[..n]), ops[n]).0
  {
    assert ops[..n + 1][..n] == ops[..n];
  }

  // ---------------------------------------------------- persistent callbacks

  /** The operation takes `slot` out of the table. */
  predicate Clears(op: Op, slot: Slot) {
    op.DropCallbacks? || (op.Fence? && Names(op.client, op.handle, slot))
  }

  /** Registered at `i` and not cleared up to `n`. */
  ghost predicate RegisteredSince(ops: seq<Op>, slot: Slot, i: nat, n: nat)
    requires n <= |ops|
  {
    i < n && ops[i] == Register(slot) && forall k :: i < k < n ==> !Clears(ops[k], slot)
  }

  /** A taken slot was there before and survived, or has just been registered. */
  lemma SlotHistory(t: Table, op: Op, k: nat)
    requires k < |Step(t, op).0.cb| && Taken(Step(t, op).0.cb[k])
    ensures |Step(t, op).0.cb| == |t.cb|
    ensures var slot := Step(t, op).0.cb[k];
      (t.cb[k] == slot && !Clears(op, slot)) || op == Register(slot)
  {
  }

  lemma {:induction false} TakenMeansRegistered(ops: seq<Op>, n: nat, k: nat)
    requires n <= |ops| && k < |After(ops[..n]).cb| && Taken(After(ops[..n]).cb[k])
    ensures exists i :: RegisteredSince(ops, After(ops[..n]).cb[k], i, n)
  {
    if n > 0 {
      AfterNext(ops, n - 1);
      SlotHistory(After(ops[..n - 1]), ops[n - 1], k);
      var slot := After(ops[..n]).cb[k];
      if ops[n - 1] == Register(slot) {
        assert RegisteredSince(ops, slot, n - 1, n);
      } else {
        TakenMeansRegistered(ops, n - 1, k);
        var i :| RegisteredSince(ops, slot, i, n - 1);
        assert RegisteredSince(ops, slot, i, n);
      }
    }
  }

  /**
   * A 0x7e callback runs only for a slot that was registered for exactly this
   * client, handle and session and not fenced since, and with the pointer that
   * slot was registered with.
   */
  lemma CallbackOnlyWhileRegistered(ops: seq<Op>, j: nat)
    requires j < |ops| && Result(ops, j).Invoked?
    ensures ops[j].Fire?
    ensures var slot, e := Result(ops, j).slot, ops[j].e;
      && slot.kc == e.kc && slot.client == e.client && slot.handle == e.handle && slot.proc == e.proc
      && !Filtered(slot.notify)
      && exists i :: RegisteredSince(ops, slot, i, j)
  {
    var t := After(ops[..j]);
    var k := Find(t.cb, MatchesP(ops[j].e));
    TakenMeansRegistered(ops, j, k);
  }

  // ------------------------------------------------- what is registered, without the table

  function Filter<T>(s: seq<T>, p: T -> bool): (r: seq<T>)
    ensures |r| <= |s|
  {
    if s == [] then [] else (if p(s[0]) then [s[0]] else []) + Filter(s[1..], p)
  }

  lemma {:induction false} FilterCounts<T>(s: seq<T>, p: T -> bool, x: T)
    ensures multiset(Filter(s, p))[x] == if p(x) then multiset(s)[x] else 0
    decreases |s|
  {
    if s != [] {
      assert s == [s[0]] + s[1..];
      FilterCounts(s[1..], p, x);
    }
  }

  lemma {:induction false} FilterAll<T>(s: seq<T>, p: T -> bool)
    ensures |Filter(s, p)| == |s| <==> forall i :: 0 <= i < |s| ==> p(s[i])
    decreases |s|
  {
    if s != [] {
      FilterAll(s[1..], p);
      assert forall i :: 0 < i < |s| ==> s[i] == s[1..][i - 1];
      if forall i :: 0 <= i < |s| ==> p(s[i]) {
        assert forall i :: 0 <= i < |s| - 1 ==> s[1..][i] == s[i + 1];
      }
    }
  }

  /** The callbacks registered and not fenced since, in the order of their registration; at most as many as there are slots. */
  function Registered(ops: seq<Op>): seq<Slot> {
    if ops == [] then [] else NextRegistered(Registered(ops[..|ops| - 1]), ops[|ops| - 1])
  }

  function NextRegistered(before: seq<Slot>, op: Op): seq<Slot> {
    match op
    case Register(slot) => if Taken(slot) && |before| < SLOTS then before + [slot] else before
    case Fence(client, handle) => Filter(before, s => !Names(client, handle, s))
    case DropCallbacks => []
    case _ => before
  }

  /** The table holds those callbacks and no others, each as often. */
  ghost predicate Holds(cb: seq<Slot>, live: seq<Slot>) {
    |cb| == SLOTS && forall x: Slot :: multiset(live)[x] == if Taken(x) then multiset(cb)[x] else 0
  }

  lemma HoldsRoom(cb: seq<Slot>, live: seq<Slot>)
    requires Holds(cb, live)
    ensures |live| <= SLOTS && (|live| < SLOTS <==> Find(cb, Vacant) < |cb|)
  {
    var taken := Filter(cb, Taken);
    forall x: Slot ensures multiset(taken)[x] == multiset(live)[x] { FilterCounts(cb, Taken, x); }
    assert multiset(taken) == multiset(live);
    assert |taken| == |multiset(taken)| && |live| == |multiset(live)|;
    FilterAll(cb, Taken);
    var i := Find(cb, Vacant);
    if i < |cb| { assert Vacant(cb[i]); }
    else { forall j | 0 <= j < |cb| ensures Taken(cb[j]) { assert !Vacant(cb[j]); } }
  }

  lemma HoldsRegister(cb: seq<Slot>, live: seq<Slot>, slot: Slot, i: nat)
    requires Holds(cb, live) && Taken(slot) && i < |cb| && Vacant(cb[i])
    ensures Holds(cb[i := slot], live + [slot])
  {
    assert cb == cb[..i] + [cb[i]] + cb[i + 1..];
    assert cb[i := slot] == cb[..i] + [slot] + cb[i + 1..];
  }

  lemma {:induction false} ClearedCounts(s: seq<Slot>, client: nat, handle: nat, x: Slot)
    requires Taken(x)
    ensures multiset(Cleared(s, client, handle))[x] == if Names(client, handle, x) then 0 else multiset(s)[x]
    decreases |s|
  {
    if s != [] {
      var c := Cleared(s, client, handle);
      assert c[1..] == Cleared(s[1..], client, handle);
      assert s == [s[0]] + s[1..] && c == [c[0]] + c[1..];
      ClearedCounts(s[1..], client, handle, x);
    }
  }

  lemma HoldsFence(cb: seq<Slot>, live: seq<Slot>, client: nat, handle: nat)
    requires Holds(cb, live)
    ensures Holds(Cleared(cb, client, handle), Filter(live, s => !Names(client, handle, s)))
  {
    var keep := (s: Slot) => !Names(client, handle, s);
    forall x: Slot
      ensures multiset(Filter(live, keep))[x] == if Taken(x) then multiset(Cleared(cb, client, handle))[x] else 0
    {
      FilterCounts(live, keep, x);
      if Taken(x) { ClearedCounts(cb, client, handle, x); }
    }
  }

  lemma HoldsNothing()
    ensures Holds(Blank(SLOTS, FREE_SLOT), [])
  {
    var blank := Blank(SLOTS, FREE_SLOT);
    forall x: Slot | Taken(x) ensures multiset(blank)[x] == 0 {
      assert x !in blank;
    }
  }

  lemma StepHolds(t: Table, live: seq<Slot>, op: Op)
    requires Holds(t.cb, live)
    ensures Holds(Step(t, op).0.cb, NextRegistered(live, op))
  {
    match op
    case Register(slot) =>
      HoldsRoom(t.cb, live);
      if Taken(slot) && |live| < SLOTS { HoldsRegister(t.cb, live, slot, Find(t.cb, Vacant)); }
    case Fence(client, handle) => HoldsFence(t.cb, live, client, handle);
    case DropCallbacks => HoldsNothing();
    case _ => assert Step(t, op).0.cb == t.cb;
  }

  /** After any interleaving the table holds exactly what is registered. */
  lemma {:induction false} TableIsRegistered(ops: seq<Op>)
    ensures Holds(After(ops).cb, Registered(ops))
    decreases |ops|
  {
    if ops == [] {
      HoldsNothing();
    } else {
      var before := ops[..|ops| - 1];
      TableIsRegistered(before);
      StepHolds(After(before), Registered(before), ops[|ops| - 1]);
    }
  }

  lemma HoldsMember(cb: seq<Slot>, live: seq<Slot>, x: Slot)
    requires Holds(cb, live)
    ensures x in live <==> Taken(x) && x in cb
  {
    assert x in live <==> multiset(live)[x] > 0;
    assert x in cb <==> multiset(cb)[x] > 0;
  }

  /** No registered callback but `slot` is for this event object of this client and session. */
  predicate OnlyMatch(live: seq<Slot>, e: Event, slot: Slot) {
    slot in live && Matches(e, slot) && forall s :: s in live && Matches(e, s) ==> s == slot
  }

  /**
   * The converse, in every interleaving: a firing for the one callback that is
   * registered for its client, handle and session runs it, unless the pointer
   * is stale or the notifier filtered; a firing for no such callback is dropped.
   */
  lemma RegisteredCallbackRuns(ops: seq<Op>, j: nat, slot: Slot)
    requires j < |ops| && ops[j].Fire? && ops[j].e.cls == CLASS_KERNEL_CALLBACK_EX && ops[j].e.handle != 0
    ensures OnlyMatch(Registered(ops[..j]), ops[j].e, slot) ==>
      Result(ops, j) == if slot.kc != ops[j].e.kc then DropNoSlot else if Filtered(slot.notify) then DropFiltered else Invoked(slot)
    ensures (forall s :: s in Registered(ops[..j]) ==> !Matches(ops[j].e, s)) ==> Result(ops, j) == DropNoSlot
  {
    var t, live, e := After(ops[..j]), Registered(ops[..j]), ops[j].e;
    TableIsRegistered(ops[..j]);
    var i := Find(t.cb, MatchesP(e));
    if slot in live && Matches(e, slot) { MatchIsFound(t.cb, live, e, slot); }
    if i < |t.cb| {
      assert MatchesP(e)(t.cb[i]);
      HoldsMember(t.cb, live, t.cb[i]);
    }
  }

  lemma MatchIsFound(cb: seq<Slot>, live: seq<Slot>, e: Event, slot: Slot)
    requires Holds(cb, live) && slot in live && Matches(e, slot)
    ensures Find(cb, MatchesP(e)) < |cb|
  {
    HoldsMember(cb, live, slot);
    var k :| 0 <= k < |cb| && cb[k] == slot;
    assert MatchesP(e)(cb[k]);
  }

  /** A registration that found room is registered until an operation clears it. */
  lemma {:induction false} StaysRegistered(ops: seq<Op>, slot: Slot, i: nat, n: nat)
    requires n <= |ops| && RegisteredSince(ops, slot, i, n) && Taken(slot) && |Registered(ops[..i])| < SLOTS
    ensures slot in Registered(ops[..n])
    decreases n
  {
    assert ops[..n][..n - 1] == ops[..n - 1];
    if i < n - 1 {
      assert RegisteredSince(ops, slot, i, n - 1);
      StaysRegistered(ops, slot, i, n - 1);
      if ops[n - 1].Fence? { FilterKeeps(Registered(ops[..n - 1]), s => !Names(ops[n - 1].client, ops[n - 1].handle, s), slot); }
    }
  }

  lemma FilterKeeps<T>(s: seq<T>, p: T -> bool, x: T)
    requires x in s && p(x)
    ensures x in Filter(s, p)
  {
    FilterCounts(s, p, x);
    assert multiset(s)[x] > 0;
    assert multiset(Filter(s, p))[x] > 0;
  }

  /** The two together: registered at `i` while there was room, not cleared since, alone for its event: it runs. */
  lemma RegisteredSinceRuns(ops: seq<Op>, slot: Slot, i: nat, j: nat)
    requires j < |ops| && RegisteredSince(ops, slot, i, j) && |Registered(ops[..i])| < SLOTS
    requires ops[j].Fire? && ops[j].e.cls == CLASS_KERNEL_CALLBACK_EX && ops[j].e.handle != 0
    requires Matches(ops[j].e, slot) && slot.kc == ops[j].e.kc
    requires forall s :: s in Registered(ops[..j]) && Matches(ops[j].e, s) ==> s == slot
    ensures Result(ops, j) == if Filtered(slot.notify) then DropFiltered else Invoked(slot)
  {
    StaysRegistered(ops, slot, i, j);
    RegisteredCallbackRuns(ops, j, slot);
  }

  // ---------------------------------------------------------- one-shot waiters

  /** Live waiters carry distinct numbers, all given out already. */
  predicate IdsInv(t: Table) {
    && (forall i :: 0 <= i < |t.sem| && t.sem[i].used ==> t.sem[i].id < t.armings)
    && (forall i, j :: 0 <= i < j < |t.sem| && t.sem[i].used && t.sem[j].used ==> t.sem[i].id != t.sem[j].id)
  }

  lemma StepKeepsIds(t: Table, op: Op)
    requires IdsInv(t)
    ensures IdsInv(Step(t, op).0) && t.armings <= Step(t, op).0.armings && |Step(t, op).0.sem| == |t.sem|
  {
  }

  lemma {:induction false} IdsHold(ops: seq<Op>)
    ensures IdsInv(After(ops))
    decreases |ops|
  {
    if ops != [] {
      IdsHold(ops[..|ops| - 1]);
      StepKeepsIds(After(ops[..|ops| - 1]), ops[|ops| - 1]);
    }
  }

  /** Number `d` has been given out and is not live. */
  predicate Spent(t: Table, d: nat) {
    d < t.armings && forall i :: 0 <= i < |t.sem| && t.sem[i].used ==> t.sem[i].id != d
  }

  lemma StepKeepsSpent(t: Table, op: Op, d: nat)
    requires IdsInv(t) && Spent(t, d)
    ensures Spent(Step(t, op).0, d)
    ensures Step(t, op).1.Woken? ==> Step(t, op).1.waiter.id != d
  {
  }

  lemma FiringSpends(t: Table, op: Op)
    requires IdsInv(t) && Step(t, op).1.Woken?
    ensures Spent(Step(t, op).0, Step(t, op).1.waiter.id)
  {
  }

  lemma {:induction false} StaysSpent(ops: seq<Op>, m: nat, n: nat, d: nat)
    requires m <= n <= |ops| && Spent(After(ops[..m]), d)
    ensures Spent(After(ops[..n]), d)
    decreases n
  {
    if m < n {
      StaysSpent(ops, m, n - 1, d);
      IdsHold(ops[..n - 1]);
      AfterNext(ops, n - 1);
      StepKeepsSpent(After(ops[..n - 1]), ops[n - 1], d);
    }
  }

  /** One arming fires at most once, in any interleaving. */
  lemma WaiterFiresOnce(ops: seq<Op>, i: nat, j: nat)
    requires i < j < |ops| && Result(ops, i).Woken? && Result(ops, j).Woken?
    ensures Result(ops, i).waiter.id != Result(ops, j).waiter.id
  {
    IdsHold(ops[..i]);
    FiringSpends(After(ops[..i]), ops[i]);
    AfterNext(ops, i);
    StaysSpent(ops, i + 1, j, Result(ops, i).waiter.id);
    IdsHold(ops[..j]);
    StepKeepsSpent(After(ops[..j]), ops[j], Result(ops, i).waiter.id);
  }

  /** UNREGISTER removes one live arming of the pointer, if there is one. */
  lemma DisarmRemovesOne(t: Table, client: nat, kc: nat)
    ensures Count(Deleted(t, client, kc).sem, OfP(client, kc)) == Less(Count(t.sem, OfP(client, kc)), 1)
  {
    var i := Find(t.sem, OfP(client, kc));
    if i == |t.sem| {
      CountZero(t.sem, OfP(client, kc));
    } else {
      CountUpdate(t.sem, OfP(client, kc), i, t.sem[i].(used := false));
      CountZero(t.sem, OfP(client, kc));
    }
  }

  predicate NoneLive(t: Table, client: nat, kc: nat) {
    forall i :: 0 <= i < |t.sem| ==> !Of(client, kc, t.sem[i])
  }

  lemma NoneLiveIfNone(t: Table, client: nat, kc: nat)
    requires Count(t.sem, OfP(client, kc)) == 0
    ensures NoneLive(t, client, kc)
  {
    CountZero(t.sem, OfP(client, kc));
    forall i | 0 <= i < |t.sem| ensures !Of(client, kc, t.sem[i]) {
      assert !OfP(client, kc)(t.sem[i]);
    }
  }

  lemma StepKeepsNoneLive(t: Table, op: Op, client: nat, kc: nat)
    requires NoneLive(t, client, kc) && !(op.Arm? && op.client == client && op.kc == kc)
    ensures NoneLive(Step(t, op).0, client, kc)
    ensures Step(t, op).1.Woken? ==> !Of(client, kc, Step(t, op).1.waiter)
  {
  }

  lemma {:induction false} StaysDead(ops: seq<Op>, m: nat, n: nat, client: nat, kc: nat)
    requires m <= n <= |ops| && NoneLive(After(ops[..m]), client, kc)
    requires forall k :: m <= k < n ==> !(ops[k].Arm? && ops[k].client == client && ops[k].kc == kc)
    ensures NoneLive(After(ops[..n]), client, kc)
    decreases n
  {
    if m < n {
      StaysDead(ops, m, n - 1, client, kc);
      AfterNext(ops, n - 1);
      StepKeepsNoneLive(After(ops[..n - 1]), ops[n - 1], client, kc);
    }
  }

  /**
   * After UNREGISTER has completed, its callback does not fire until the
   * pointer is armed again, provided at most one arming of it was live.
   */
  lemma NeverAfterUnregister(ops: seq<Op>, i: nat, j: nat)
    requires i < j < |ops| && ops[i].Disarm?
    requires Count(After(ops[..i]).sem, OfP(ops[i].client, ops[i].kc)) <= 1
    requires forall k :: i < k < j ==> !(ops[k].Arm? && ops[k].client == ops[i].client && ops[k].kc == ops[i].kc)
    ensures Result(ops, j).Woken? ==> !Of(ops[i].client, ops[i].kc, Result(ops, j).waiter)
  {
    var client, kc := ops[i].client, ops[i].kc;
    DisarmRemovesOne(After(ops[..i]), client, kc);
    AfterNext(ops, i);
    NoneLiveIfNone(After(ops[..i + 1]), client, kc);
    StaysDead(ops, i + 1, j, client, kc);
    if !(ops[j].Arm?) { StepKeepsNoneLive(After(ops[..j]), ops[j], client, kc); }
  }

  /**
   * The proviso is exact: with two live armings the pointer is still armed
   * after UNREGISTER, and a firing for the remaining one runs the callback.
   */
  lemma SecondArmingStillFires(t: Table, client: nat, kc: nat)
    requires Count(t.sem, OfP(client, kc)) >= 2
    ensures exists e: Event :: e.client == client && e.kc == kc && Step(Step(t, Disarm(client, kc)).0, Fire(e)).1.Woken?
  {
    DisarmRemovesOne(t, client, kc);
    var t' := Deleted(t, client, kc);
    CountZero(t'.sem, OfP(client, kc));
    var k :| 0 <= k < |t'.sem| && OfP(client, kc)(t'.sem[k]);
    var e := Event(CLASS_KERNEL_CALLBACK_EX, client, 0, kc, t'.sem[k].proc, 0, 0, 0);
    assert WakesP(e)(t'.sem[k]);
    assert Step(t', Fire(e)).1.Woken?;
    assert Step(t, Disarm(client, kc)).0 == t';
  }

  /** The operation may take a waiter of this client, session and pointer out of the table. */
  predicate Takes(op: Op, client: nat, proc: nat, kc: nat) {
    match op
    case DropWaiters => true
    case Disarm(c, k) => c == client && k == kc
    case Fire(e) => e.cls == CLASS_KERNEL_CALLBACK_EX && e.handle == 0 && e.client == client && e.proc == proc && e.kc == kc
    case _ => false
  }

  predicate Live(t: Table, w: Waiter) { w.used && w in t.sem }

  lemma ArmMakesLive(t: Table, client: nat, proc: nat, kc: nat)
    requires exists k :: 0 <= k < |t.sem| && Idle(t.sem[k])
    ensures Live(Step(t, Arm(client, proc, kc)).0, Waiter(true, client, proc, kc, t.armings))
  {
    var i := Find(t.sem, Idle);
    assert i < |t.sem|;
    assert Step(t, Arm(client, proc, kc)).0.sem[i] == Waiter(true, client, proc, kc, t.armings);
  }

  lemma StepKeepsLive(t: Table, op: Op, w: Waiter)
    requires Live(t, w) && !Takes(op, w.client, w.proc, w.kc)
    ensures Live(Step(t, op).0, w)
  {
    var k :| 0 <= k < |t.sem| && t.sem[k] == w;
    var t' := Step(t, op).0;
    if op.Arm? { assert Find(t.sem, Idle) != k; }
    if op.Disarm? { assert !OfP(op.client, op.kc)(w); }
    if op.Fire? && op.e.cls == CLASS_KERNEL_CALLBACK_EX && op.e.handle == 0 { assert !WakesP(op.e)(w); }
    assert t'.sem[k] == w;
  }

  lemma {:induction false} StaysLive(ops: seq<Op>, w: Waiter, m: nat, n: nat)
    requires m <= n <= |ops| && Live(After(ops[..m]), w)
    requires forall k :: m <= k < n ==> !Takes(ops[k], w.client, w.proc, w.kc)
    ensures Live(After(ops[..n]), w)
    decreases n
  {
    if m < n {
      StaysLive(ops, w, m, n - 1);
      AfterNext(ops, n - 1);
      StepKeepsLive(After(ops[..n - 1]), ops[n - 1], w);
    }
  }

  /**
   * In every interleaving a waiter armed while there was a free slot, and not
   * taken out since, is woken by the firing for its client, session and pointer:
   * that very arming, or another one of the same three if more than one is live.
   */
  lemma ArmedWaiterIsWoken(ops: seq<Op>, i: nat, j: nat)
    requires i < j < |ops| && ops[i].Arm?
    requires exists k :: 0 <= k < |After(ops[..i]).sem| && Idle(After(ops[..i]).sem[k])
    requires forall k :: i < k < j ==> !Takes(ops[k], ops[i].client, ops[i].proc, ops[i].kc)
    requires ops[j].Fire? && Takes(ops[j], ops[i].client, ops[i].proc, ops[i].kc)
    ensures Result(ops, j).Woken? && Wakes(ops[j].e, Result(ops, j).waiter)
    ensures (forall w :: w in After(ops[..j]).sem && Wakes(ops[j].e, w) ==> w.id == After(ops[..i]).armings) ==>
      Result(ops, j).waiter.id == After(ops[..i]).armings
  {
    var w := Waiter(true, ops[i].client, ops[i].proc, ops[i].kc, After(ops[..i]).armings);
    ArmMakesLive(After(ops[..i]), w.client, w.proc, w.kc);
    AfterNext(ops, i);
    StaysLive(ops, w, i + 1, j);
    var t, e := After(ops[..j]), ops[j].e;
    var k :| 0 <= k < |t.sem| && t.sem[k] == w;
    assert WakesP(e)(t.sem[k]);
    assert WakesP(e)(t.sem[Find(t.sem, WakesP(e))]);
  }

  // --------------------------------------------------------------- counters

  ghost predicate CountersInv(t: Table) {
    t.registered == Count(t.cb, Taken) && t.waiters == Count(t.sem, Armed)
  }

  lemma {:induction false} ClearedCount(s: seq<Slot>, client: nat, handle: nat)
    ensures Count(Cleared(s, client, handle), Taken) + Count(s, NamesP(client, handle)) == Count(s, Taken)
    decreases |s|
  {
    if s != [] {
      assert Cleared(s, client, handle)[1..] == Cleared(s[1..], client, handle);
      ClearedCount(s[1..], client, handle);
    }
  }

  lemma StepKeepsCounters(t: Table, op: Op)
    requires CountersInv(t)
    ensures CountersInv(Step(t, op).0)
  {
    var t' := Step(t, op).0;
    match op
    case Register(slot) =>
      var i := Find(t.cb, Vacant);
      if i < |t.cb| { CountUpdate(t.cb, Taken, i, slot); }
    case Fence(client, handle) => ClearedCount(t.cb, client, handle);
    case DropCallbacks => CountZero(t'.cb, Taken);
    case Arm(client, proc, kc) =>
      var i := Find(t.sem, Idle);
      if i < |t.sem| { CountUpdate(t.sem, Armed, i, t'.sem[i]); }
    case Disarm(client, kc) => UnarmCount(t.sem, Find(t.sem, OfP(client, kc)));
    case DropWaiters => CountZero(t'.sem, Armed);
    case Fire(e) => UnarmCount(t.sem, Find(t.sem, WakesP(e)));
  }

  lemma UnarmCount(s: seq<Waiter>, i: nat)
    ensures i < |s| && s[i].used ==> Count(s[i := s[i].(used := false)], Armed) == Count(s, Armed) - 1
  {
    if i < |s| { CountUpdate(s, Armed, i, s[i].(used := false)); }
  }

  /** The published counters are the occupied slots, after any interleaving. */
  lemma {:induction false} CountersAreExact(ops: seq<Op>)
    ensures CountersInv(After(ops))
    decreases |ops|
  {
    if ops == [] {
      CountZero(EMPTY.cb, Taken);
      CountZero(EMPTY.sem, Armed);
    } else {
      CountersAreExact(ops[..|ops| - 1]);
      StepKeepsCounters(After(ops[..|ops| - 1]), ops[|ops| - 1]);
    }
  }

  // ------------------------------------------------- the tables as the module keeps them

  datatype Command = RegisterWaiter | UnregisterWaiter | OtherControl

  /** What a CONTROL remembers between submission and reply. */
  datatype Pending = Pending(armed: bool, unreg: bool, client: nat, kc: nat)

  const U32_MAX: nat := 0xffffffff

  /** Only kernel pointers need a slot: zero and 32-bit values are native OS-event ids. */
  predicate NeedsSlot(cmd: Command, kc: Option<nat>) {
    !cmd.OtherControl? && kc.Some? && kc.value > U32_MAX
  }

  class Registry {
    const cb: array<Slot>
    const sem: array<Waiter>
    var registered: nat
    var waiters: nat
    var armings: nat

    ghost predicate Valid()
      reads this
    {
      cb.Length == SLOTS && sem.Length == SLOTS
    }

    ghost function Now(): Table
      reads this, cb, sem
    {
      Table(cb[..], sem[..], registered, waiters, armings)
    }

    constructor ()
      ensures Valid() && Now() == EMPTY && fresh(cb) && fresh(sem)
    {
      cb := new Slot[SLOTS](_ => FREE_SLOT);
      sem := new Waiter[SLOTS](_ => FREE_WAITER);
      registered, waiters, armings := 0, 0, 0;
      new;
      assert cb[..] == EMPTY.cb && sem[..] == EMPTY.sem;
    }

    /** `event_cb_after_alloc`: register when the host granted the event object. */
    method AfterAlloc(armed: bool, granted: bool, slot: Slot)
      requires Valid()
      modifies this`registered, cb
      ensures Now() == if armed && granted then Step(old(Now()), Register(slot)).0 else old(Now())
    {
      if !armed || !granted || slot.handle == 0 {
        return;
      }
      var i := 0;
      while i < SLOTS && cb[i].handle != 0
        invariant i <= SLOTS
        invariant forall j :: 0 <= j < i ==> !Vacant(cb[j])
      {
        i := i + 1;
      }
      FindIs(cb[..], Vacant, i);
      if i < SLOTS {
        cb[i] := slot;
        registered := registered + 1;
      }
    }

    /** `event_cb_free`: fence before the FREE is forwarded. */
    method Free(client: nat, handle: nat)
      requires Valid()
      modifies this`registered, cb
      ensures Now() == Step(old(Now()), Op.Fence(client, handle)).0
    {
      ghost var was := cb[..];
      if handle == 0 {
        CountZero(was, NamesP(client, handle));
        assert Cleared(was, client, handle) == was;
        return;
      }
      for i := 0 to SLOTS
        invariant forall j :: 0 <= j < i ==> cb[j] == Cleared(was, client, handle)[j]
        invariant forall j :: i <= j < SLOTS ==> cb[j] == was[j]
        invariant registered == Less(old(registered), Count(was[..i], NamesP(client, handle)))
      {
        CountPrefix(was, i, NamesP(client, handle));
        if cb[i].handle != 0 && cb[i].client == client {
          if cb[i].handle == handle || handle == client {
            cb[i] := FREE_SLOT;
            if registered > 0 { registered := registered - 1; }
          }
        }
      }
      assert was[..SLOTS] == was;
      assert cb[..] == Cleared(was, client, handle);
    }

    /** `event_cb_drop_all`. */
    method DropAll()
      requires Valid()
      modifies this`registered, cb
      ensures Now() == Step(old(Now()), DropCallbacks).0
    {
      for i := 0 to SLOTS
        invariant forall j :: 0 <= j < i ==> cb[j] == FREE_SLOT
      {
        cb[i] := FREE_SLOT;
      }
      registered := 0;
      assert cb[..] == Blank(SLOTS, FREE_SLOT);
    }

    /** `semsurf_before_control`: arm before the registration is submitted. */
    method BeforeControl(cmd: Command, client: nat, kc: Option<nat>, proc: nat) returns (p: Pending)
      requires Valid()
      modifies this`waiters, this`armings, sem
      ensures Now() == if NeedsSlot(cmd, kc) && cmd.RegisterWaiter? then Step(old(Now()), Arm(client, proc, kc.value)).0 else old(Now())
      ensures p.armed <==> Now() != old(Now())
      ensures p.unreg <==> NeedsSlot(cmd, kc) && cmd.UnregisterWaiter?
      ensures p.armed || p.unreg ==> kc.Some? && p.client == client && p.kc == kc.value
    {
      p := Pending(false, false, 0, 0);
      if cmd.OtherControl? || kc.None? || kc.value <= U32_MAX {
        return;
      }
      p := p.(client := client, kc := kc.value);
      if cmd.UnregisterWaiter? {
        p := p.(unreg := true);
        return;
      }
      var i := 0;
      while i < SLOTS && sem[i].used
        invariant i <= SLOTS
        invariant forall j :: 0 <= j < i ==> !Idle(sem[j])
      {
        i := i + 1;
      }
      FindIs(sem[..], Idle, i);
      if i < SLOTS {
        sem[i] := Waiter(true, client, proc, kc.value, armings);
        waiters, armings := waiters + 1, armings + 1;
        p := p.(armed := true);
      }
    }

    /** `semsurf_slot_del`. */
    method Delete(client: nat, kc: nat)
      requires Valid()
      modifies this`waiters, sem
      ensures Now() == Deleted(old(Now()), client, kc)
    {
      for i := 0 to SLOTS
        invariant forall j :: 0 <= j < i ==> !Of(client, kc, sem[j])
        invariant Now() == old(Now())
      {
        if sem[i].used && sem[i].client == client && sem[i].kc == kc {
          FindIs(sem[..], OfP(client, kc), i);
          sem[i] := sem[i].(used := false);
          if waiters > 0 { waiters := waiters - 1; }
          return;
        }
      }
      FindIs(sem[..], OfP(client, kc), SLOTS);
    }

    /** `semsurf_after_control`: a refused registration and every cancellation give the slot back. */
    method AfterControl(p: Pending, ok: bool)
      requires Valid()
      modifies this`waiters, sem
      ensures Now() == if (p.armed && !ok) || p.unreg then Step(old(Now()), Disarm(p.client, p.kc)).0 else old(Now())
    {
      if p.armed && !ok {
        Delete(p.client, p.kc);
      } else if p.unreg {
        Delete(p.client, p.kc);
      }
    }

    /** `semsurf_drop_all`. */
    method DropWaiting()
      requires Valid()
      modifies this`waiters, sem
      ensures Now() == Step(old(Now()), DropWaiters).0
    {
      for i := 0 to SLOTS
        invariant forall j :: 0 <= j < i ==> sem[j] == FREE_WAITER
      {
        sem[i] := FREE_WAITER;
      }
      waiters := 0;
      assert sem[..] == Blank(SLOTS, FREE_WAITER);
    }

    /** `semsurf_fire`: the slot is given back before the callback runs. */
    method FireSemaphore(e: Event) returns (o: Outcome)
      requires Valid()
      modifies this`waiters, sem
      ensures (Now(), o) == FireWaiter(old(Now()), e)
    {
      for i := 0 to SLOTS
        invariant forall j :: 0 <= j < i ==> !Wakes(e, sem[j])
        invariant Now() == old(Now())
      {
        if sem[i].used && sem[i].kc == e.kc && sem[i].client == e.client && sem[i].proc == e.proc {
          FindIs(sem[..], WakesP(e), i);
          o := Woken(sem[i]);
          sem[i] := sem[i].(used := false);
          if waiters > 0 { waiters := waiters - 1; }
          return;
        }
      }
      FindIs(sem[..], WakesP(e), SLOTS);
      o := DropNoSlot;
    }

    /** `event_fire_callback`. */
    method FireCallback(e: Event) returns (o: Outcome)
      requires Valid()
      modifies this`waiters, sem
      ensures (Now(), o) == Step(old(Now()), Fire(e))
    {
      if e.cls != CLASS_KERNEL_CALLBACK_EX {
        return DropClass;
      }
      if e.handle == 0 {
        o := FireSemaphore(e);
        return;
      }
      for i := 0 to SLOTS
        invariant forall j :: 0 <= j < i ==> !Matches(e, cb[j])
        invariant Now() == old(Now())
      {
        if cb[i].handle != 0 && cb[i].handle == e.handle && cb[i].client == e.client && cb[i].proc == e.proc {
          FindIs(cb[..], MatchesP(e), i);
          if cb[i].kc != e.kc {
            return DropNoSlot;
          }
          if Filtered(cb[i].notify) {
            return DropFiltered;
          }
          return Invoked(cb[i]);
        }
      }
      FindIs(cb[..], MatchesP(e), SLOTS);
      o := DropNoSlot;
    }
  }
}
