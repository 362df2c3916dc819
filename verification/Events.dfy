/** The pending-event ring: a power-of-two array with free-running 32-bit indices. */
module EventRing {
  import opened Common

  const RING: nat := 8192

  /** One KIND_EVENT_FIRED record, by the role of its fields. */
  datatype Event = Event(cls: nat, client: nat, handle: nat, kc: nat, proc: nat, token: nat, data: nat, status: nat)

  /** `tail - head` in unsigned 32-bit arithmetic. */
  function Filled(head: nat, tail: nat): nat
    requires head < U32 && tail < U32
  {
    if tail >= head then tail - head else tail + U32 - head
  }

  /** Index `n` after `k` increments. */
  function Advance(n: nat, k: nat): nat
    requires n < U32 && k <= U32
  {
    if n + k < U32 then n + k else n + k - U32
  }

  /** The cell of the event `i` places behind index `n`: `(n + i) & (RING - 1)`. */
  function Cell(n: nat, i: nat): (c: nat)
    ensures c < RING
  {
    (n + i) % RING
  }

  /** The `n` events from index `head` on, oldest first. */
  function Queued(cells: seq<Event>, head: nat, n: nat): (q: seq<Event>)
    requires |cells| == RING
    ensures |q| == n && forall i :: 0 <= i < n ==> q[i] == cells[Cell(head, i)]
  {
    seq(n, i requires 0 <= i => cells[Cell(head, i)])
  }

  /** The mask does not notice the wrap: RING divides 2^32. */
  lemma MaskAcrossWrap(n: nat, k: nat)
    requires n < U32 && k <= U32
    ensures Advance(n, k) % RING == Cell(n, k)
  {
    assert U32 == 524288 * RING;
  }

  /** Nearby positions fall into different cells. */
  lemma CellsDistinct(n: nat, i: nat, j: nat)
    requires i < RING && j < RING && Cell(n, i) == Cell(n, j)
    ensures i == j
  {
  }

  class Ring {
    const cells: array<Event>
    var head: nat
    var tail: nat

    ghost predicate Valid()
      reads this
    {
      cells.Length == RING && head < U32 && tail < U32 && Filled(head, tail) <= RING
    }

    /** The queued events, oldest first. */
    ghost function Contents(): seq<Event>
      requires Valid()
      reads this, cells
    {
      Queued(cells[..], head, Filled(head, tail))
    }

    /** Any starting index will do; the module starts at zero. */
    constructor (start: nat, blank: Event)
      requires start < U32
      ensures Valid() && Contents() == [] && fresh(cells)
    {
      cells := new Event[RING](_ => blank);
      head, tail := start, start;
    }

    /** `nvrm_evq_cb`: append, or report that the ring is full. */
    method Push(e: Event) returns (queued: bool)
      requires Valid()
      modifies this`tail, cells
      ensures Valid()
      ensures queued <==> |old(Contents())| < RING
      ensures Contents() == if queued then old(Contents()) + [e] else old(Contents())
    {
      queued := Filled(head, tail) < RING;
      if queued {
        ghost var n := Filled(head, tail);
        MaskAcrossWrap(head, n);
        cells[tail % RING] := e;
        tail := Advance(tail, 1);
        assert Filled(head, tail) == n + 1;
        forall i | 0 <= i < n ensures cells[Cell(head, i)] == old(cells[Cell(head, i)]) {
          if Cell(head, i) == Cell(head, n) { CellsDistinct(head, i, n); }
        }
        assert Contents() == old(Contents()) + [e];
      } else {
        assert Contents() == old(Contents());
      }
    }

    /** One turn of `nvrm_events_work`: take the oldest. */
    method Pop() returns (e: Option<Event>)
      requires Valid()
      modifies this`head
      ensures Valid()
      ensures old(Contents()) == [] ==> e.None? && Contents() == []
      ensures old(Contents()) != [] ==> e == Some(old(Contents())[0]) && Contents() == old(Contents())[1..]
    {
      if head == tail {
        return None;
      }
      ghost var n := Filled(head, tail);
      e := Some(cells[head % RING]);
      assert e.value == Contents()[0];
      ghost var first := head;
      head := Advance(head, 1);
      assert Filled(head, tail) == n - 1;
      forall i | 0 <= i < n - 1 ensures Cell(head, i) == Cell(first, i + 1) {
        SameCell(head, first, i);
      }
      assert Contents() == old(Contents())[1..];
    }
  }

  lemma SameCell(head: nat, first: nat, i: nat)
    requires first < U32 && head == Advance(first, 1)
    ensures Cell(head, i) == Cell(first, i + 1)
  {
    if first + 1 == U32 {
      assert first + 1 + i == 524288 * RING + i;
    }
  }
}
