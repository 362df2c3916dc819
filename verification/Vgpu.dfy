/**
 * Framebuffer profiles: what one VM costs a card, which sizes get a name, and
 * why no set of admitted VMs can exceed the heap, whatever the rounding does.
 *
 * Sizes are u64 byte counts.  `Fits` names the inputs on which none of the
 * source's additions and multiplications wraps.
 */
module Vgpu {
  import opened Common

  const MIB: nat := 0x10_0000
  const GIB: nat := 0x4000_0000

  datatype Profile = Profile(
    maxInstance: nat,
    profileSize: nat,
    reservation: int,
    fbLength: nat,
    segments: nat,
    encoderCapacity: nat)

  // ---------------------------------------------------------------- rounding

  function DivCeil(n: nat, d: nat): (q: nat)
    requires d > 0
  {
    if n % d == 0 then n / d else n / d + 1
  }

  function AlignUp(v: nat, a: nat): (r: nat) {
    if a == 0 then v else DivCeil(v, a) * a
  }

  function AlignDown(v: nat, a: nat): (r: nat) {
    if a == 0 then v else (v / a) * a
  }

  function SatSub(a: nat, b: nat): nat {
    if a < b then 0 else a - b
  }

  /** The least quotient that covers `n`. */
  lemma DivCeilIsLeast(n: nat, d: nat, q: nat)
    requires d > 0
    ensures DivCeil(n, d) * d >= n
    ensures n <= q * d ==> DivCeil(n, d) <= q
  {
    DivMod(n, d);
    var c := DivCeil(n, d);
    if n % d == 0 {
      assert c * d == n;
    } else {
      assert c * d == (n / d) * d + d;
    }
    if n <= q * d && c > q {
      MulMono(q, c - 1, d);
      assert false;
    }
  }

  /** The least multiple of `a` at or above `v`. */
  lemma AlignUpIsLeast(v: nat, a: nat, m: nat)
    requires a > 0
    ensures AlignUp(v, a) >= v && AlignUp(v, a) % a == 0
    ensures v <= m * a ==> AlignUp(v, a) <= m * a
  {
    DivCeilIsLeast(v, a, m);
    MulModZero(DivCeil(v, a), a);
    if v <= m * a { MulMono(DivCeil(v, a), m, a); }
  }

  lemma MulModZero(q: nat, d: nat)
    requires d > 0
    ensures (q * d) % d == 0
  {
    DivMod(q * d, d);
    NoMultipleBetween(q - (q * d) / d, d, (q * d) % d);
  }

  lemma NoMultipleBetween(k: int, d: nat, r: nat)
    requires d > 0 && k * d == r && r < d
    ensures k == 0
  {
  }

  /** The greatest multiple of `a` at or below `v`. */
  lemma AlignDownIsBelow(v: nat, a: nat)
    requires a > 0
    ensures AlignDown(v, a) <= v < AlignDown(v, a) + a && AlignDown(v, a) % a == 0
  {
    DivMod(v, a);
    MulModZero(v / a, a);
  }

  // --------------------------------------------------------------- one card

  /** The card's numbers; the derived profiles are kept beside it. */
  datatype Card = Card(total: nat, usable: nat, segment: nat, overhead: nat)

  /** vGPU's `totalAvailableFb`. */
  function Available(c: Card): (r: nat) {
    if c.segment == 0 then c.total else AlignUp(c.total, 8 * c.segment)
  }

  function CarveOut(c: Card): nat {
    SatSub(c.total, c.usable)
  }

  /** What the VMs may use in sum: `available - (total - usable)`. */
  function Heap(c: Card): nat {
    SatSub(Available(c), CarveOut(c))
  }

  function EncoderShare(fbLength: nat, total: nat): (r: nat)
    ensures total > 0 ==> 1 <= r <= 100
  {
    if total == 0 then 0
    else
      var share := 100 * fbLength / total;
      if share < 1 then 1 else if share > 100 then 100 else share
  }

  /** The whole percentage of the card, but never 0 and never above 100. */
  lemma EncoderShareIsPercentage(fbLength: nat, total: nat)
    requires total > 0
    ensures var r := EncoderShare(fbLength, total);
      if fbLength > total then r == 100 else if 100 * fbLength < total then r == 1 else r * total <= 100 * fbLength < (r + 1) * total
  {
    DivMod(100 * fbLength, total);
    QuotientIs(100 * fbLength, total, 100);
    QuotientIs(100 * fbLength, total, 101);
    QuotientIs(100 * fbLength, total, 1);
  }

  lemma QuotientIs(n: nat, d: nat, k: nat)
    requires d > 0
    ensures k <= n / d <==> k * d <= n
  {
    DivMod(n, d);
    if k <= n / d { MulMono(k, n / d, d); } else { MulMono(n / d + 1, k, d); }
  }

  /** `as u64`. */
  function Narrow64(v: nat): nat {
    if v < U64 then v else v % U64
  }

  /** `as u32`. */
  function Narrow32(v: nat): nat {
    if v < U32 then v else v % U32
  }

  /** What `need` bytes of a heap of `heap` bytes cost of `avail`: rounded up, narrowed, up to a MiB. */
  function Charge(need: nat, avail: nat, heap: nat): nat
    requires heap > 0
  {
    AlignUp(Narrow64(DivCeil(need * avail, heap)), MIB)
  }

  function Cost(c: Card, fbLength: nat): nat
    requires Heap(c) > 0
  {
    Charge(fbLength + c.overhead, Available(c), Heap(c))
  }

  function MakeProfile(avail: nat, segment: nat, total: nat, fbLength: nat, cost: nat): Profile
    requires cost > 0
  {
    Profile(Narrow32(avail / cost), cost, cost - fbLength, fbLength,
            if segment == 0 then 0 else fbLength / segment, EncoderShare(fbLength, total))
  }

  /** `Catalogue::profile_for`; a division by a zero cost would stop the program. */
  function ProfileFor(c: Card, fbLength: nat): Option<Profile> {
    if CarveOut(c) > Available(c) || fbLength + c.overhead >= U64 then None
    else if fbLength == 0 || fbLength + c.overhead > Heap(c) || Cost(c, fbLength) == 0 then None
    else Some(MakeProfile(Available(c), c.segment, c.total, fbLength, Cost(c, fbLength)))
  }

  /** No addition or multiplication of the source wraps on this card. */
  predicate Fits(c: Card) {
    && c.usable < U64
    && 8 * c.segment < U64
    && 2 * Available(c) + c.overhead + c.segment + MIB < U64
    && Available(c) / MIB < U32
  }

  // -------------------------------------------------------------- one charge

  lemma CancelMul(a: nat, b: nat, c: nat)
    requires c > 0 && a * c <= b * c
    ensures a <= b
  {
    if a > b {
      MulMono(b + 1, a, c);
      assert false;
    }
  }

  /** The share of `avail` that `need` of `heap` takes, rounded up: it covers the exact ratio. */
  lemma ShareRoundedUp(need: nat, avail: nat, heap: nat)
    requires 0 < need <= heap <= avail
    ensures var q := DivCeil(need * avail, heap); need <= q <= avail && q * heap >= need * avail
  {
    var q := DivCeil(need * avail, heap);
    MulMono(need, heap, avail);
    DivCeilIsLeast(need * avail, heap, avail);
    MulMono(heap, avail, need);
    CancelMul(need, q, heap);
  }

  lemma HeapBelowAvailable(c: Card)
    ensures Heap(c) <= Available(c)
    ensures c.segment > 0 ==> c.total <= Available(c) && Available(c) % (8 * c.segment) == 0
  {
    if c.segment > 0 { AlignUpIsLeast(c.total, 8 * c.segment, 0); }
  }

  /** A VM's charge covers its exact share, and narrowing it to u64 loses nothing. */
  lemma ChargeCoversShare(need: nat, avail: nat, heap: nat)
    requires 0 < need <= heap <= avail < U64
    ensures DivCeil(need * avail, heap) < U64
    ensures Charge(need, avail, heap) >= need && Charge(need, avail, heap) >= MIB
    ensures Charge(need, avail, heap) * heap >= need * avail
  {
    ShareRoundedUp(need, avail, heap);
    var raw := DivCeil(need * avail, heap);
    AtLeastOne(raw);
    MulMono(raw, Charge(need, avail, heap), heap);
  }

  /** No whole number of MiB that covers the share is less than the charge. */
  lemma ChargeIsLeast(need: nat, avail: nat, heap: nat, m: nat)
    requires 0 < need <= heap <= avail < U64 && (m * MIB) * heap >= need * avail
    ensures Charge(need, avail, heap) <= m * MIB
  {
    ShareRoundedUp(need, avail, heap);
    DivCeilIsLeast(need * avail, heap, m * MIB);
    AlignUpIsLeast(DivCeil(need * avail, heap), MIB, m);
  }

  /** A framebuffer gets a profile exactly if it and its overhead fit the heap. */
  lemma ProfileForIff(c: Card, fbLength: nat)
    requires Fits(c)
    ensures ProfileFor(c, fbLength).Some? <==> 0 < fbLength && fbLength + c.overhead <= Heap(c)
  {
    HeapBelowAvailable(c);
    if 0 < fbLength && fbLength + c.overhead <= Heap(c) { ChargeCoversShare(fbLength + c.overhead, Available(c), Heap(c)); }
  }

  lemma AtLeastOne(raw: nat)
    requires raw > 0
    ensures AlignUp(raw, MIB) >= raw && AlignUp(raw, MIB) >= MIB
  {
  }

  // -------------------------------------------------------------- admission

  /** What the live VMs cost, as `admits` sums it. */
  function CostSum(c: Card, live: seq<nat>): nat
    requires Heap(c) > 0
  {
    if live == [] then 0 else Cost(c, live[0]) + CostSum(c, live[1..])
  }

  /** What the live VMs really take: framebuffer plus host overhead. */
  function NeedSum(c: Card, live: seq<nat>): nat {
    if live == [] then 0 else live[0] + c.overhead + NeedSum(c, live[1..])
  }

  /** `Catalogue::admits` for a VM whose profile `profile_for` made. */
  predicate Admits(c: Card, live: seq<nat>, fbLength: nat)
    requires Heap(c) > 0
  {
    ProfileFor(c, fbLength).Some? && CostSum(c, live) + ProfileFor(c, fbLength).value.profileSize <= Available(c)
  }

  datatype Event = Start(fbLength: nat) | Stop(i: nat)

  predicate Happens(c: Card, live: seq<nat>, e: Event)
    requires Heap(c) > 0
  {
    match e
    case Start(fb) => Admits(c, live, fb)
    case Stop(i) => i < |live|
  }

  function Next(c: Card, live: seq<nat>, e: Event): seq<nat>
    requires Heap(c) > 0 && Happens(c, live, e)
  {
    match e
    case Start(fb) => [fb] + live
    case Stop(i) => live[..i] + live[i + 1..]
  }

  /** VMs come and go; each that comes was admitted beside those running. */
  predicate Run(c: Card, live: seq<nat>, events: seq<Event>)
    requires Heap(c) > 0
    decreases |events|
  {
    events == [] || (Happens(c, live, events[0]) && Run(c, Next(c, live, events[0]), events[1..]))
  }

  function Live(c: Card, live: seq<nat>, events: seq<Event>): seq<nat>
    requires Heap(c) > 0 && Run(c, live, events)
    decreases |events|
  {
    if events == [] then live else Live(c, Next(c, live, events[0]), events[1..])
  }

  /** Every live VM has a profile, and together they were within the card. */
  predicate Within(c: Card, live: seq<nat>)
    requires Heap(c) > 0
  {
    && (forall i :: 0 <= i < |live| ==> 0 < live[i] && live[i] + c.overhead <= Heap(c))
    && CostSum(c, live) <= Available(c)
  }

  lemma {:induction false} CostSumWithout(c: Card, live: seq<nat>, i: nat)
    requires Heap(c) > 0 && i < |live|
    ensures CostSum(c, live[..i] + live[i + 1..]) <= CostSum(c, live)
    decreases |live|
  {
    if i == 0 {
      assert live[..i] + live[i + 1..] == live[1..];
    } else {
      assert (live[..i] + live[i + 1..])[1..] == live[1..][..i - 1] + live[1..][i..];
      CostSumWithout(c, live[1..], i - 1);
    }
  }

  lemma {:induction false} RunStaysWithin(c: Card, live: seq<nat>, events: seq<Event>)
    requires Heap(c) > 0 && Within(c, live) && Run(c, live, events)
    ensures Within(c, Live(c, live, events))
    decreases |events|
  {
    if events != [] {
      var e := events[0];
      if e.Start? {
        assert ([e.fbLength] + live)[1..] == live;
      } else {
        CostSumWithout(c, live, e.i);
      }
      RunStaysWithin(c, Next(c, live, e), events[1..]);
    }
  }

  /** The charges, scaled to the heap, cover the needs. */
  lemma {:induction false} NeedsBelowCosts(c: Card, live: seq<nat>)
    requires Fits(c) && Heap(c) > 0
    requires forall i :: 0 <= i < |live| ==> 0 < live[i] && live[i] + c.overhead <= Heap(c)
    ensures NeedSum(c, live) * Available(c) <= CostSum(c, live) * Heap(c)
    decreases |live|
  {
    if live != [] {
      NeedsBelowCosts(c, live[1..]);
      HeapBelowAvailable(c);
      ChargeCoversShare(live[0] + c.overhead, Available(c), Heap(c));
      Distribute(live[0] + c.overhead, NeedSum(c, live[1..]), Available(c));
      Distribute(Cost(c, live[0]), CostSum(c, live[1..]), Heap(c));
    }
  }

  lemma Distribute(a: nat, b: nat, m: nat)
    ensures (a + b) * m == a * m + b * m
  {
  }

  /**
   * However VMs come and go, what the running ones take in sum never exceeds
   * `available - (total - usable)`; on a card of whole eighths of segments that
   * is the usable heap itself.
   */
  lemma NeverOversubscribed(c: Card, events: seq<Event>)
    requires Fits(c) && Heap(c) > 0 && Run(c, [], events)
    ensures NeedSum(c, Live(c, [], events)) <= Heap(c)
    ensures c.segment > 0 && c.total % (8 * c.segment) == 0 && c.usable <= c.total ==> Heap(c) == c.usable
  {
    RunStaysWithin(c, [], events);
    var live := Live(c, [], events);
    NeedsBelowCosts(c, live);
    MulMono(CostSum(c, live), Available(c), Heap(c));
    HeapBelowAvailable(c);
    CancelMul(NeedSum(c, live), Heap(c), Available(c));
    if c.segment > 0 && c.total % (8 * c.segment) == 0 {
      DivMod(c.total, 8 * c.segment);
    }
  }

  // ---------------------------------------------------------------- the catalogue

  const COUNTS: seq<nat> := [1, 2, 4, 8, 16]

  /** The framebuffer of a named type that divides the card by `count`, 0 if there is none. */
  function NamedFb(c: Card, count: nat): nat
    requires count > 0 && Available(c) > 0
  {
    var share := Available(c) / count;
    if share % GIB != 0 || share == 0 then 0
    else
      var reserved := DivCeil(CarveOut(c) * share, Available(c));
      var fb := if c.segment == 0 then 0
                else AlignDown(SatSub(share, AlignUp(reserved + c.overhead, c.segment)), c.segment);
      if fb * count > c.usable then 0 else fb
  }

  /** Whole segments that leave the share its part of the carve-out and the overhead, each rounded up. */
  predicate Candidate(c: Card, count: nat, m: nat)
    requires count > 0 && Available(c) > 0
  {
    var share := Available(c) / count;
    && share % GIB == 0 && share > 0 && c.segment > 0 && m > 0 && m % c.segment == 0
    && m + AlignUp(DivCeil(CarveOut(c) * share, Available(c)) + c.overhead, c.segment) <= share
  }

  ghost predicate Largest(c: Card, count: nat, m: nat)
    requires count > 0 && Available(c) > 0
  {
    Candidate(c, count, m) && forall k: nat :: Candidate(c, count, k) ==> k <= m
  }

  lemma BelowAlignDown(v: nat, a: nat, m: nat)
    requires a > 0 && m % a == 0 && m <= v
    ensures m <= AlignDown(v, a)
  {
    DivMod(m, a);
    DivMod(v, a);
    if m / a > v / a {
      MulMono(v / a + 1, m / a, a);
      assert false;
    }
    MulMono(m / a, v / a, a);
  }

  /**
   * A named framebuffer is the largest that leaves its share what it owes; there
   * is none exactly if no whole segment does, or if `count` of the largest would
   * exceed the usable heap.
   */
  lemma NamedFbIsLargest(c: Card, count: nat)
    requires count > 0 && Available(c) > 0
    ensures var fb := NamedFb(c, count);
      if fb > 0 then Largest(c, count, fb) && fb * count <= c.usable
      else (forall m: nat :: !Candidate(c, count, m)) || (exists m: nat :: Largest(c, count, m) && m * count > c.usable)
  {
    var share := Available(c) / count;
    if share % GIB == 0 && share > 0 && c.segment > 0 {
      var kept := AlignUp(DivCeil(CarveOut(c) * share, Available(c)) + c.overhead, c.segment);
      var fb := AlignDown(SatSub(share, kept), c.segment);
      AlignDownIsBelow(SatSub(share, kept), c.segment);
      forall k: nat | Candidate(c, count, k) ensures k <= fb { BelowAlignDown(SatSub(share, kept), c.segment, k); }
      if fb > 0 { assert Largest(c, count, fb); }
    }
  }

  /** What a named type promises of its profile. */
  predicate Sound(avail: nat, segment: nat, overhead: nat, count: nat, p: Profile)
    requires count > 0
  {
    && p.fbLength > 0 && segment > 0 && p.fbLength % segment == 0
    && p.profileSize <= avail / count
    && p.maxInstance >= count
    && p.maxInstance * p.profileSize <= avail < (p.maxInstance + 1) * p.profileSize
    && p.segments * segment == p.fbLength
    && p.fbLength + overhead <= p.profileSize
    && p.reservation == p.profileSize - p.fbLength
  }

  /** Rounded up, the carve-out's share leaves at most the heap's share. */
  lemma ShareLeaves(carve: nat, share: nat, avail: nat)
    requires carve <= avail && 0 < share <= avail
    ensures var reserved := DivCeil(carve * share, avail);
      reserved <= share && (share - reserved) * avail <= share * (avail - carve) && share - reserved <= avail - carve
  {
    var reserved := DivCeil(carve * share, avail);
    MulMono(carve, avail, share);
    DivCeilIsLeast(carve * share, avail, share);
    Distribute(share - reserved, reserved, avail);
    Distribute(avail - carve, carve, share);
    assert (share - reserved) * avail <= (avail - carve) * share;
    MulMono(share, avail, avail - carve);
    CancelMul(share - reserved, avail - carve, avail);
  }

  /** The charge stays within `share` when the exact ratio does. */
  lemma ChargeWithinShare(need: nat, avail: nat, heap: nat, share: nat)
    requires 0 < need <= heap <= avail < U64 && share % MIB == 0 && need * avail <= share * heap
    ensures Charge(need, avail, heap) <= share
  {
    DivCeilIsLeast(need * avail, heap, share);
    ShareRoundedUp(need, avail, heap);
    DivMod(share, MIB);
    AlignUpIsLeast(DivCeil(need * avail, heap), MIB, share / MIB);
  }

  lemma QuotientAtLeast(avail: nat, cost: nat, count: nat)
    requires cost > 0 && count > 0 && cost <= avail / count
    ensures avail / cost >= count
  {
    MulMono(cost, avail / count, count);
    DivMod(avail, count);
    assert cost * count <= avail;
    DivMod(avail, cost);
    if avail / cost < count {
      MulMono(avail / cost + 1, count, cost);
      assert false;
    }
  }

  lemma GibIsMib(share: nat)
    requires share % GIB == 0
    ensures share % MIB == 0
  {
    DivMod(share, GIB);
    assert share == (share / GIB) * 1024 * MIB;
    MulModZero((share / GIB) * 1024, MIB);
  }

  /** What the two roundings leave of a share. */
  lemma NamedFbLeaves(c: Card, count: nat)
    requires c.segment > 0 && c.total > 0 && count > 0 && Available(c) > 0 && NamedFb(c, count) > 0
    ensures var fb, share := NamedFb(c, count), Available(c) / count;
      && fb % c.segment == 0 && share % GIB == 0
      && fb + c.overhead <= Heap(c)
      && (fb + c.overhead) * Available(c) <= share * Heap(c)
  {
    var avail, carve := Available(c), CarveOut(c);
    var share := avail / count;
    HeapBelowAvailable(c);
    QuotientShrinks(avail, 1, count);
    ShareLeaves(carve, share, avail);
    var reserved := DivCeil(carve * share, avail);
    AlignUpIsLeast(reserved + c.overhead, c.segment, 0);
    AlignDownIsBelow(SatSub(share, AlignUp(reserved + c.overhead, c.segment)), c.segment);
    MulMono(NamedFb(c, count) + c.overhead, share - reserved, avail);
  }

  /**
   * Every named framebuffer gets a profile, segment-aligned, within its share
   * of the card, and at least `count` of them fit: for any segment size.
   */
  lemma NamedTypesAreSound(c: Card, count: nat)
    requires Fits(c) && c.segment > 0 && c.total > 0 && count > 0 && Available(c) > 0 && NamedFb(c, count) > 0
    ensures ProfileFor(c, NamedFb(c, count)).Some?
    ensures ProfileFor(c, NamedFb(c, count)).value.fbLength == NamedFb(c, count)
    ensures Sound(Available(c), c.segment, c.overhead, count, ProfileFor(c, NamedFb(c, count)).value)
  {
    NamedFbLeaves(c, count);
    HeapBelowAvailable(c);
    var fb := NamedFb(c, count);
    ProfileIsSound(fb, c.overhead, fb + c.overhead, Available(c), Heap(c), c.segment, c.total, count, Available(c) / count);
  }

  /** The same on bare numbers; the instance count is not truncated, since a charge is at least a MiB. */
  lemma ProfileIsSound(fb: nat, overhead: nat, need: nat, avail: nat, heap: nat, segment: nat, total: nat, count: nat, share: nat)
    requires 0 < fb && need == fb + overhead && need <= heap <= avail < U64 && avail / MIB < U32
    requires segment > 0 && fb % segment == 0 && count > 0
    requires share == avail / count && share % GIB == 0 && need * avail <= share * heap
    ensures var cost := Charge(need, avail, heap);
      cost > 0 && Sound(avail, segment, overhead, count, MakeProfile(avail, segment, total, fb, cost))
  {
    ChargeBounds(need, avail, heap, share);
    ProfileOfCharge(fb, overhead, avail, segment, total, count, Charge(need, avail, heap));
  }

  lemma ChargeBounds(need: nat, avail: nat, heap: nat, share: nat)
    requires 0 < need <= heap <= avail < U64 && share % GIB == 0 && need * avail <= share * heap
    ensures MIB <= Charge(need, avail, heap) <= share && need <= Charge(need, avail, heap)
  {
    GibIsMib(share);
    ChargeWithinShare(need, avail, heap, share);
    ChargeCoversShare(need, avail, heap);
  }

  lemma ProfileOfCharge(fb: nat, overhead: nat, avail: nat, segment: nat, total: nat, count: nat, cost: nat)
    requires 0 < fb && avail / MIB < U32 && segment > 0 && fb % segment == 0 && count > 0
    requires MIB <= cost <= avail / count && fb + overhead <= cost
    ensures Sound(avail, segment, overhead, count, MakeProfile(avail, segment, total, fb, cost))
  {
    QuotientAtLeast(avail, cost, count);
    QuotientShrinks(avail, MIB, cost);
    DivMod(avail, cost);
  }

  lemma QuotientShrinks(n: nat, d: nat, e: nat)
    requires 0 < d <= e
    ensures n / e <= n / d
  {
    DivMod(n, d);
    DivMod(n, e);
    if n / e > n / d {
      MulMono(n / d + 1, n / e, d);
      MulMono(d, e, n / e);
      assert false;
    }
  }

  function Times(fb: nat, n: nat): (live: seq<nat>)
    ensures |live| == n
  {
    if n == 0 then [] else [fb] + Times(fb, n - 1)
  }

  lemma {:induction false} CostOfTimes(c: Card, fb: nat, n: nat)
    requires Heap(c) > 0
    ensures CostSum(c, Times(fb, n)) == n * Cost(c, fb)
    decreases n
  {
    if n > 0 {
      assert Times(fb, n)[1..] == Times(fb, n - 1);
      CostOfTimes(c, fb, n - 1);
      Distribute(n - 1, 1, Cost(c, fb));
    }
  }

  /** As many VMs of a named type as it divides the card by are admitted, one after the other. */
  lemma NamedTypesAreAdmitted(c: Card, count: nat, n: nat)
    requires Fits(c) && c.segment > 0 && c.total > 0 && count > 0 && Available(c) > 0 && NamedFb(c, count) > 0 && n < count
    ensures Heap(c) > 0 && Admits(c, Times(NamedFb(c, count), n), NamedFb(c, count))
  {
    var fb := NamedFb(c, count);
    NamedTypesAreSound(c, count);
    NamedFbLeaves(c, count);
    CostOfTimes(c, fb, n);
    var p := ProfileFor(c, fb).value;
    Distribute(n, 1, p.profileSize);
    MulMono(n + 1, p.maxInstance, p.profileSize);
  }

  /** The row for one divisor: what `profile_for` makes of its framebuffer, if there is one. */
  function NamedRow(c: Card, count: nat): seq<Profile>
    requires count > 0 && Available(c) > 0
  {
    if NamedFb(c, count) == 0 then []
    else match ProfileFor(c, NamedFb(c, count))
      case Some(p) => [p]
      case None => []
  }

  /** The catalogue after the first `n` divisors. */
  function NamedRows(c: Card, n: nat): seq<Profile>
    requires n <= |COUNTS| && Available(c) > 0
  {
    if n == 0 then [] else NamedRows(c, n - 1) + NamedRow(c, COUNTS[n - 1])
  }

  /** `p` keeps the promises of the type that divides the card by `count`. */
  predicate SoundFor(c: Card, p: Profile, count: nat) {
    count in COUNTS && Sound(Available(c), c.segment, c.overhead, count, p)
  }

  /** Every row is sound for its divisor, and no divisor with a framebuffer lacks its row. */
  lemma {:induction false} NamedRowsAreSound(c: Card, n: nat)
    requires Fits(c) && c.segment > 0 && c.total > 0 && Available(c) > 0 && n <= |COUNTS|
    ensures forall p :: p in NamedRows(c, n) ==> exists count :: SoundFor(c, p, count)
    ensures forall i :: 0 <= i < n && NamedFb(c, COUNTS[i]) > 0 ==>
      exists p :: p in NamedRows(c, n) && p.fbLength == NamedFb(c, COUNTS[i]) && SoundFor(c, p, COUNTS[i])
    decreases n
  {
    if n > 0 {
      NamedRowsAreSound(c, n - 1);
      NamedRowIsSound(c, COUNTS[n - 1]);
    }
  }

  lemma NamedRowIsSound(c: Card, count: nat)
    requires Fits(c) && c.segment > 0 && c.total > 0 && Available(c) > 0 && count in COUNTS
    ensures forall p :: p in NamedRow(c, count) ==> SoundFor(c, p, count)
    ensures NamedFb(c, count) > 0 ==> exists p :: p in NamedRow(c, count) && p.fbLength == NamedFb(c, count) && SoundFor(c, p, count)
  {
    if NamedFb(c, count) > 0 {
      NamedTypesAreSound(c, count);
      var p := ProfileFor(c, NamedFb(c, count)).value;
      assert NamedRow(c, count) == [p] && SoundFor(c, p, count);
    }
  }

  /** `Catalogue::derive`: one named type per power of two that leaves a whole share. */
  method Derive(c: Card) returns (profiles: seq<Profile>)
    requires Fits(c)
    ensures c.segment == 0 || c.total == 0 ==> profiles == []
    ensures c.segment > 0 && c.total > 0 ==> Available(c) > 0 && profiles == NamedRows(c, |COUNTS|)
    ensures forall p :: p in profiles ==> exists count :: SoundFor(c, p, count)
  {
    profiles := [];
    if c.segment == 0 || c.total == 0 {
      return;
    }
    HeapBelowAvailable(c);
    for i := 0 to |COUNTS|
      invariant profiles == NamedRows(c, i)
    {
      var fb := NamedFb(c, COUNTS[i]);
      if fb == 0 {
        continue;
      }
      var row := ProfileFor(c, fb);
      if row.Some? {
        profiles := profiles + [row.value];
      }
    }
    NamedRowsAreSound(c, |COUNTS|);
  }
}
