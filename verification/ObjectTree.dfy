/**
 * Free-order tracking for RM objects: parent edges plus explicit dependencies,
 * any graph at all, cycles and self edges included.
 */
module ObjectTree {

  type Handle = nat

  datatype Object = Object(handle: Handle, parent: Handle, cls: nat, dependants: set<Handle>)

  type Graph = map<Handle, Object>

  // ---------------------------------------------------------- reachability

  /** The objects that use `h` and must be freed before it. */
  function Dependants(g: Graph, h: Handle): set<Handle> {
    if h in g then g[h].dependants else {}
  }

  ghost predicate IsPath(g: Graph, p: seq<Handle>) {
    && p != []
    && forall i :: 0 <= i < |p| - 1 ==> p[i + 1] in Dependants(g, p[i])
  }

  /** `b` is `a` or uses it, directly or through others. */
  ghost predicate Reaches(g: Graph, a: Handle, b: Handle) {
    exists p :: IsPath(g, p) && p[0] == a && p[|p| - 1] == b
  }

  lemma ReachesSelf(g: Graph, a: Handle)
    ensures Reaches(g, a, a)
  {
    assert IsPath(g, [a]);
  }

  lemma ReachesEdge(g: Graph, a: Handle, b: Handle)
    requires b in Dependants(g, a)
    ensures Reaches(g, a, b)
  {
    assert IsPath(g, [a, b]);
  }

  lemma ReachesTransitive(g: Graph, a: Handle, b: Handle, c: Handle)
    requires Reaches(g, a, b) && Reaches(g, b, c)
    ensures Reaches(g, a, c)
  {
    var p :| IsPath(g, p) && p[0] == a && p[|p| - 1] == b;
    var q :| IsPath(g, q) && q[0] == b && q[|q| - 1] == c;
    var r := p + q[1..];
    forall i | 0 <= i < |r| - 1 ensures r[i + 1] in Dependants(g, r[i]) {
      if i >= |p| - 1 {
        assert r[i] == q[i - (|p| - 1)] && r[i + 1] == q[i + 1 - (|p| - 1)];
      }
    }
    assert IsPath(g, r) && r[|r| - 1] == c;
  }

  /** A set that is closed under dependants holds whatever its members reach. */
  lemma {:induction false} ClosedHoldsPath(g: Graph, s: set<Handle>, p: seq<Handle>)
    requires IsPath(g, p) && p[0] in s
    requires forall x :: x in s ==> Dependants(g, x) <= s
    ensures p[|p| - 1] in s
    decreases |p|
  {
    if |p| > 1 {
      assert p[0 + 1] in Dependants(g, p[0]);
      var q := p[1..];
      assert IsPath(g, q) by {
        forall i | 0 <= i < |q| - 1 ensures q[i + 1] in Dependants(g, q[i]) {
          assert p[(i + 1) + 1] in Dependants(g, p[i + 1]);
        }
      }
      ClosedHoldsPath(g, s, q);
    }
  }

  // ------------------------------------------------------------- free order

  predicate Distinct(s: seq<Handle>) {
    forall i, j :: 0 <= i < j < |s| ==> s[i] != s[j]
  }

  function Elements(s: seq<Handle>): set<Handle> {
    set i | 0 <= i < |s| :: s[i]
  }

  /** From position `from` on, every object comes after those that use it, unless they use each other. */
  ghost predicate DependantsFirst(g: Graph, out: seq<Handle>, from: nat) {
    forall i, d :: from <= i < |out| && d in Dependants(g, out[i]) ==> d in out[..i] || Reaches(g, d, out[i])
  }

  /** What one call of `visit` adds to `seen` and `out`. */
  ghost predicate Visited(g: Graph, h: Handle, seen: set<Handle>, out: seq<Handle>, seen': set<Handle>, out': seq<Handle>) {
    && out <= out'
    && Distinct(out')
    && Elements(out') <= seen'
    && seen' == seen + Elements(out'[|out|..])
    && seen !! Elements(out'[|out|..])
    && h in seen'
    && (forall i :: |out| <= i < |out'| ==> Reaches(g, h, out'[i]) && Dependants(g, out'[i]) <= seen')
    && DependantsFirst(g, out', |out|)
  }

  ghost predicate StackReaches(g: Graph, seen: set<Handle>, out: seq<Handle>, h: Handle) {
    forall x :: x in seen && x !in out ==> Reaches(g, x, h)
  }

  /** `out` frees everything that depends on `root`, once each, `root` last. */
  ghost predicate IsFreeOrder(g: Graph, root: Handle, out: seq<Handle>) {
    && Distinct(out)
    && (forall x :: x in out <==> Reaches(g, root, x))
    && out != [] && out[|out| - 1] == root
    && DependantsFirst(g, out, 0)
  }

  // ---------------------------------------------------------- graph updates

  /** Every edge points at a tracked object. */
  predicate EdgesTracked(g: Graph) {
    forall h :: h in g ==> g[h].dependants <= g.Keys
  }

  /** `g` without the objects of `gone` and without the edges to them. */
  function Without(g: Graph, gone: set<Handle>): (r: Graph)
    ensures EdgesTracked(g) ==> EdgesTracked(r)
  {
    map h | h in g && h !in gone :: g[h].(dependants := g[h].dependants - gone)
  }

  lemma WithoutMore(g: Graph, a: set<Handle>, b: set<Handle>)
    ensures Without(Without(g, a), b) == Without(g, a + b)
  {
    var l, r := Without(Without(g, a), b), Without(g, a + b);
    forall h | h in l ensures l[h] == r[h] {
      assert g[h].dependants - a - b == g[h].dependants - (a + b);
    }
    assert l.Keys == r.Keys;
  }

  lemma WithoutNone(g: Graph)
    ensures Without(g, Elements([])) == g
  {
    assert Elements([]) == {};
    forall h | h in g ensures Without(g, {})[h] == g[h] {
      assert g[h].dependants - {} == g[h].dependants;
    }
  }

  lemma WithoutOneMore(g: Graph, freed: seq<Handle>, h: Handle)
    ensures Without(Without(g, Elements(freed)), {h}) == Without(g, Elements(freed + [h]))
  {
    WithoutMore(g, Elements(freed), {h});
    ElementsConcat(freed, [h]);
    assert Elements([h]) == {h} by { assert [h][0] == h; }
  }

  /** Tracking `obj`: a reused handle starts afresh, then the parent learns of it. */
  function Inserted(g: Graph, obj: Object): Graph {
    var g1 := (if obj.handle in g then Without(g, {obj.handle}) else g)[obj.handle := obj];
    if obj.parent in g1
    then g1[obj.parent := g1[obj.parent].(dependants := g1[obj.parent].dependants + {obj.handle})]
    else g1
  }

  /**
   * A reused handle loses its former edges: the only one that leads to it
   * afterwards is its parent's (or its own, if it names itself); and the edges
   * stay tracked exactly when the new object names tracked dependants.
   */
  predicate FreshEdges(g: Graph, obj: Object, r: Graph) {
    && r.Keys == g.Keys + {obj.handle}
    && r[obj.handle].parent == obj.parent && r[obj.handle].cls == obj.cls
    && r[obj.handle].dependants == obj.dependants + (if obj.parent == obj.handle then {obj.handle} else {})
    && (forall h :: h in r && h != obj.handle ==>
          && r[h].parent == g[h].parent && r[h].cls == g[h].cls
          && r[h].dependants - {obj.handle} == g[h].dependants - {obj.handle}
          && (obj.handle in r[h].dependants <==> h == obj.parent))
  }

  lemma InsertedEdges(g: Graph, obj: Object)
    requires EdgesTracked(g)
    ensures FreshEdges(g, obj, Inserted(g, obj))
    ensures EdgesTracked(Inserted(g, obj)) <==> obj.dependants <= Inserted(g, obj).Keys
  {
  }

  /** The tracked objects and every edge between them. */
  class Tracker {
    var objs: Graph

    constructor ()
      ensures objs == map[]
    {
      objs := map[];
    }

    /** Track a new object. */
    method Insert(obj: Object)
      modifies this
      ensures objs == Inserted(old(objs), obj)
      ensures EdgesTracked(old(objs)) ==> FreshEdges(old(objs), obj, objs)
      ensures EdgesTracked(old(objs)) && obj.dependants <= objs.Keys ==> EdgesTracked(objs)
    {
      if EdgesTracked(objs) { InsertedEdges(objs, obj); }
      if obj.handle in objs {
        Remove(obj.handle);
      }
      objs := objs[obj.handle := obj];
      if obj.parent in objs {
        objs := objs[obj.parent := objs[obj.parent].(dependants := objs[obj.parent].dependants + {obj.handle})];
      }
    }

    /** Record that `dependant` uses `on`, if both are tracked. */
    method AddDependant(on: Handle, dependant: Handle)
      modifies this
      ensures objs.Keys == old(objs).Keys
      ensures forall h :: h in objs ==>
        objs[h] == if h == on && dependant in old(objs)
                   then old(objs)[h].(dependants := old(objs)[h].dependants + {dependant}) else old(objs)[h]
      ensures EdgesTracked(old(objs)) ==> EdgesTracked(objs)
    {
      if dependant in objs {
        if on in objs {
          objs := objs[on := objs[on].(dependants := objs[on].dependants + {dependant})];
        }
      }
    }

    /** Forget an object and every edge to it. */
    method Remove(h: Handle)
      modifies this
      ensures objs == Without(old(objs), {h})
    {
      objs := objs - {h};
      var todo := objs.Keys;
      while todo != {}
        invariant objs.Keys == old(objs).Keys - {h}
        invariant todo <= objs.Keys
        invariant forall x :: x in objs ==>
          objs[x] == if x in todo then old(objs)[x] else old(objs)[x].(dependants := old(objs)[x].dependants - {h})
        decreases todo
      {
        var x :| x in todo;
        objs := objs[x := objs[x].(dependants := objs[x].dependants - {h})];
        todo := todo - {x};
      }
    }

    /** Dependants first, `root` last, on any graph. */
    method FreeOrder(root: Handle) returns (out: seq<Handle>)
      ensures IsFreeOrder(objs, root, out)
    {
      ghost var universe := {root} + objs.Keys + (set h, d | h in objs && d in objs[h].dependants :: d);
      var seen;
      seen, out := Visit(root, {}, [], universe);
      WalkIsFreeOrder(objs, root, seen, out);
    }

    /** The recursive walk of `visit`; `universe` bounds what there is to see. */
    method Visit(h: Handle, seen: set<Handle>, out: seq<Handle>, ghost universe: set<Handle>)
      returns (seen': set<Handle>, out': seq<Handle>)
      requires h in universe && seen <= universe
      requires forall x :: x in universe ==> Dependants(objs, x) <= universe
      requires Distinct(out) && Elements(out) <= seen
      requires StackReaches(objs, seen, out, h)
      ensures Visited(objs, h, seen, out, seen', out')
      ensures seen' <= universe
      ensures h !in seen ==> |out'| > |out| && out'[|out'| - 1] == h
      decreases |universe - seen|, 1
    {
      seen', out' := seen, out;
      if h in seen {
        return;
      }
      seen' := seen' + {h};
      Shrinks(universe - seen', universe - seen);
      if h in objs {
        seen', out' := VisitEach(h, objs[h].dependants, seen, out, seen', out', universe);
      }
      WalkEnds(objs, h, seen, out, seen', out');
      out' := out' + [h];
    }

    /** The loop over the dependants, in whatever order the hash set yields them. */
    method VisitEach(h: Handle, dependants: set<Handle>, ghost seen: set<Handle>, ghost out: seq<Handle>,
                     seen1: set<Handle>, out1: seq<Handle>, ghost universe: set<Handle>)
      returns (seen': set<Handle>, out': seq<Handle>)
      requires dependants <= Dependants(objs, h)
      requires Walking(objs, h, seen, out, seen1, out1)
      requires h in universe && seen1 <= universe
      requires forall x :: x in universe ==> Dependants(objs, x) <= universe
      ensures Walking(objs, h, seen, out, seen', out')
      ensures dependants <= seen' && seen1 <= seen' <= universe
      decreases |universe - seen1|, 2
    {
      seen', out' := seen1, out1;
      var todo := dependants;
      while todo != {}
        invariant todo <= dependants
        invariant Walking(objs, h, seen, out, seen', out')
        invariant dependants - todo <= seen' && seen1 <= seen' <= universe
        decreases todo
      {
        var d :| d in todo;
        StackReachesNext(objs, h, seen, out, seen', out', d);
        ghost var seen2, out2 := seen', out';
        Shrinks(universe - seen2, universe - seen1);
        seen', out' := Visit(d, seen', out', universe);
        WalkStep(objs, h, seen, out, d, seen2, out2, seen', out');
        todo := todo - {d};
      }
    }
  }

  lemma Shrinks(a: set<Handle>, b: set<Handle>)
    requires a <= b
    ensures |a| <= |b|
    ensures a < b ==> |a| < |b|
  {
    assert b == a + (b - a);
  }

  /** Inside a visit of `h`: `h` is on the stack, the rest of what was seen is out. */
  ghost predicate Walking(g: Graph, h: Handle, seen: set<Handle>, out: seq<Handle>, seen': set<Handle>, out': seq<Handle>) {
    && out <= out'
    && Distinct(out')
    && Elements(out') <= seen'
    && h !in seen && h !in out'
    && seen' == seen + {h} + Elements(out'[|out|..])
    && seen !! Elements(out'[|out|..])
    && (forall i :: |out| <= i < |out'| ==> Reaches(g, h, out'[i]) && Dependants(g, out'[i]) <= seen')
    && DependantsFirst(g, out', |out|)
    && StackReaches(g, seen, out, h)
  }

  lemma StackReachesNext(g: Graph, h: Handle, seen: set<Handle>, out: seq<Handle>, seen': set<Handle>, out': seq<Handle>, d: Handle)
    requires Walking(g, h, seen, out, seen', out') && d in Dependants(g, h)
    ensures StackReaches(g, seen', out', d)
  {
    ReachesEdge(g, h, d);
    forall x | x in seen' && x !in out' ensures Reaches(g, x, d) {
      if x != h {
        assert x in seen && x !in out;
        ReachesTransitive(g, x, h, d);
      }
    }
  }

  lemma WalkStep(g: Graph, h: Handle, seen: set<Handle>, out: seq<Handle>, d: Handle,
                 seen1: set<Handle>, out1: seq<Handle>, seen2: set<Handle>, out2: seq<Handle>)
    requires Walking(g, h, seen, out, seen1, out1)
    requires d in Dependants(g, h)
    requires Visited(g, d, seen1, out1, seen2, out2)
    ensures Walking(g, h, seen, out, seen2, out2)
  {
    ReachesEdge(g, h, d);
    assert out2[|out|..] == out1[|out|..] + out2[|out1|..];
    assert Elements(out2[|out|..]) == Elements(out1[|out|..]) + Elements(out2[|out1|..]) by {
      ElementsConcat(out1[|out|..], out2[|out1|..]);
    }
    forall i | |out| <= i < |out2| ensures Reaches(g, h, out2[i]) && Dependants(g, out2[i]) <= seen2 {
      if i < |out1| { assert out2[i] == out1[i]; } else { ReachesTransitive(g, h, d, out2[i]); }
    }
    forall i, e | |out| <= i < |out2| && e in Dependants(g, out2[i]) ensures e in out2[..i] || Reaches(g, e, out2[i]) {
      if i < |out1| { assert out2[..i] == out1[..i] && out2[i] == out1[i]; }
    }
    assert h !in out2[|out1|..];
  }

  lemma ElementsConcat(a: seq<Handle>, b: seq<Handle>)
    ensures Elements(a + b) == Elements(a) + Elements(b)
  {
    forall x ensures x in Elements(a + b) <==> x in Elements(a) + Elements(b) {
      if x in Elements(a) {
        var i :| 0 <= i < |a| && a[i] == x;
        assert (a + b)[i] == x;
      }
      if x in Elements(b) {
        var i :| 0 <= i < |b| && b[i] == x;
        assert (a + b)[|a| + i] == x;
      }
    }
  }

  /** Every dependant of `h` has been walked: `h` itself may go out. */
  lemma WalkEnds(g: Graph, h: Handle, seen: set<Handle>, out: seq<Handle>, seen': set<Handle>, out': seq<Handle>)
    requires Walking(g, h, seen, out, seen', out')
    requires Dependants(g, h) <= seen'
    ensures Visited(g, h, seen, out, seen', out' + [h])
  {
    var end := out' + [h];
    ReachesSelf(g, h);
    assert end[|out|..] == out'[|out|..] + [h];
    ElementsConcat(out'[|out|..], [h]);
    ElementsConcat(out', [h]);
    assert Elements([h]) == {h} by { assert [h][0] == h; }
    forall i, d | |out| <= i < |end| && d in Dependants(g, end[i]) ensures d in end[..i] || Reaches(g, d, end[i]) {
      if i < |out'| {
        assert end[..i] == out'[..i] && end[i] == out'[i];
      } else {
        assert end[..i] == out';
        if d !in out' {
          if d != h { assert d in seen && d !in out; }
        }
      }
    }
  }

  lemma InElements(s: seq<Handle>)
    ensures forall x :: x in Elements(s) <==> x in s
  {
  }

  lemma WalkIsFreeOrder(g: Graph, root: Handle, seen: set<Handle>, out: seq<Handle>)
    requires Visited(g, root, {}, [], seen, out) && out != [] && out[|out| - 1] == root
    ensures IsFreeOrder(g, root, out)
  {
    assert out[0..] == out;
    InElements(out);
    forall x | Reaches(g, root, x) ensures x in out {
      var p :| IsPath(g, p) && p[0] == root && p[|p| - 1] == x;
      forall y | y in seen ensures Dependants(g, y) <= seen {
        var i :| 0 <= i < |out| && out[i] == y;
      }
      ClosedHoldsPath(g, seen, p);
    }
  }

  // ------------------------------------------- when dependants can go first

  /** No object reachable from `root` is used by something that it uses itself. */
  ghost predicate Acyclic(g: Graph, root: Handle) {
    forall x, d :: Reaches(g, root, x) && d in Dependants(g, x) ==> !Reaches(g, d, x)
  }

  /** Every object strictly after all its dependants. */
  ghost predicate StrictlyFirst(g: Graph, out: seq<Handle>) {
    forall i, d :: 0 <= i < |out| && d in Dependants(g, out[i]) ==> d in out[..i]
  }

  /** In an order with all dependants first, whatever `p[0]` reaches stands no later than it. */
  lemma {:induction false} PathGoesBack(g: Graph, out: seq<Handle>, p: seq<Handle>, i: nat)
    requires StrictlyFirst(g, out) && IsPath(g, p) && i < |out| && out[i] == p[0]
    ensures exists j :: 0 <= j <= i && out[j] == p[|p| - 1]
    decreases |p|
  {
    if |p| > 1 {
      assert p[0 + 1] in Dependants(g, p[0]);
      assert p[1] in out[..i];
      var k :| 0 <= k < i && out[k] == p[1];
      var q := p[1..];
      assert IsPath(g, q) by {
        forall n | 0 <= n < |q| - 1 ensures q[n + 1] in Dependants(g, q[n]) {
          assert p[(n + 1) + 1] in Dependants(g, p[n + 1]);
        }
      }
      PathGoesBack(g, out, q, k);
    }
  }

  /** The free order puts every dependant first exactly when the reachable graph has no cycle. */
  lemma DependantsFirstIffAcyclic(g: Graph, root: Handle, out: seq<Handle>)
    requires IsFreeOrder(g, root, out)
    ensures StrictlyFirst(g, out) <==> Acyclic(g, root)
  {
    if Acyclic(g, root) {
      forall i, d | 0 <= i < |out| && d in Dependants(g, out[i]) ensures d in out[..i] {
        assert out[i] in out;
      }
    }
    if StrictlyFirst(g, out) {
      forall x, d | Reaches(g, root, x) && d in Dependants(g, x) ensures !Reaches(g, d, x) {
        if Reaches(g, d, x) {
          assert x in out;
          var i :| 0 <= i < |out| && out[i] == x;
          assert d in out[..i];
          var k :| 0 <= k < i && out[k] == d;
          var p :| IsPath(g, p) && p[0] == d && p[|p| - 1] == x;
          PathGoesBack(g, out, p, k);
          assert false;
        }
      }
    }
  }

  // ------------------------------------------------------------ RmClient::free

  /** One `NV_ESC_RM_FREE` as it is issued. */
  datatype FreeCall = FreeCall(parent: Handle, handle: Handle)

  class Client {
    const root: Handle
    const tracker: Tracker
    var issued: seq<FreeCall>

    constructor (root: Handle)
      ensures this.root == root && fresh(tracker) && tracker.objs == map[] && issued == []
    {
      this.root := root;
      tracker := new Tracker();
      issued := [];
    }

    /**
     * Free `handle` and everything that uses it, dependants first.  `accepts`
     * is the driver's answer to the n-th call; the first refusal ends the loop.
     */
    method Free(handle: Handle, accepts: nat -> bool) returns (ok: bool, freed: seq<Handle>)
      modifies this, tracker
      ensures tracker.objs == Without(old(tracker.objs), Elements(freed))
      ensures ok ==> IsFreeOrder(old(tracker.objs), handle, freed)
      ensures !ok ==> exists order :: IsFreeOrder(old(tracker.objs), handle, order) && freed < order
      ensures forall h :: ok ==> (h in tracker.objs <==> h in old(tracker.objs) && !Reaches(old(tracker.objs), handle, h))
      ensures |issued| == |old(issued)| + |freed| + (if ok then 0 else 1) && old(issued) <= issued
      ensures forall i :: 0 <= i < |freed| ==>
        issued[|old(issued)| + i] == FreeCall(
          if freed[i] in old(tracker.objs) then old(tracker.objs)[freed[i]].parent else root, freed[i])
    {
      var order := tracker.FreeOrder(handle);
      ghost var before, log := tracker.objs, issued;
      freed := [];
      WithoutNone(before);
      while |freed| < |order|
        invariant freed <= order
        invariant tracker.objs == Without(before, Elements(freed))
        invariant |issued| == |log| + |freed| && log <= issued
        invariant forall i :: 0 <= i < |freed| ==>
          issued[|log| + i] == FreeCall(if freed[i] in before then before[freed[i]].parent else root, freed[i])
      {
        var h := order[|freed|];
        InElements(freed);
        var parent := if h in tracker.objs then tracker.objs[h].parent else root;
        issued := issued + [FreeCall(parent, h)];
        if !accepts(|freed|) {
          return false, freed;
        }
        tracker.Remove(h);
        WithoutOneMore(before, freed, h);
        freed := freed + [h];
      }
      InElements(freed);
      return true, freed;
    }
  }
}
