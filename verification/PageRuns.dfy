/** Coalescing a list of pinned pages into runs of contiguous guest-physical memory. */
module PageRuns {

  const PAGE: nat := 4096

  /** Page frame numbers of a machine; their byte addresses, and the end of the last page, fit 64 bits. */
  type pfn = x: int | 0 <= x < 0x8_0000_0000_0000

  datatype Run = Run(gpa: nat, len: nat)

  function Gpa(p: pfn): nat { p * PAGE }

  /** The byte address behind a run. */
  function End(r: Run): nat { r.gpa + r.len }

  /** The runs of a page list, page by page. */
  function Coalesce(pages: seq<pfn>): seq<Run> {
    if pages == [] then []
    else Extend(Coalesce(pages[..|pages| - 1]), pages[|pages| - 1])
  }

  /** One page more: the last run grows, or a new one starts. */
  function Extend(rs: seq<Run>, p: pfn): (r: seq<Run>)
    ensures |rs| <= |r| <= |rs| + 1 && r != []
  {
    var n := |rs|;
    if n > 0 && End(rs[n - 1]) == Gpa(p) then rs[..n - 1] + [Run(rs[n - 1].gpa, rs[n - 1].len + PAGE)]
    else rs + [Run(Gpa(p), PAGE)]
  }

  lemma CoalesceNext(pages: seq<pfn>, i: nat)
    requires i < |pages|
    ensures Coalesce(pages[..i + 1]) == Extend(Coalesce(pages[..i]), pages[i])
  {
    assert pages[..i + 1][..i] == pages[..i];
  }

  lemma {:induction false} CoalesceGrows(pages: seq<pfn>, i: nat)
    requires i <= |pages|
    ensures |Coalesce(pages[..i])| <= |Coalesce(pages)|
    decreases |pages| - i
  {
    if i < |pages| {
      CoalesceNext(pages, i);
      CoalesceGrows(pages, i + 1);
    } else {
      assert pages[..i] == pages;
    }
  }

  // ------------------------------------------------------- what the runs stand for

  predicate Whole(r: Run) { r.gpa % PAGE == 0 && r.len % PAGE == 0 && r.len > 0 }

  predicate AllWhole(rs: seq<Run>) { forall i :: 0 <= i < |rs| ==> Whole(rs[i]) }

  /** The addresses of the pages in a stretch of `n` pages. */
  function Stretch(gpa: nat, n: nat): (s: seq<nat>)
    ensures |s| == n
  {
    if n == 0 then [] else Stretch(gpa, n - 1) + [gpa + (n - 1) * PAGE]
  }

  function Expand(rs: seq<Run>): seq<nat> {
    if rs == [] then []
    else Expand(rs[..|rs| - 1]) + Stretch(rs[|rs| - 1].gpa, rs[|rs| - 1].len / PAGE)
  }

  function Addresses(pages: seq<pfn>): (s: seq<nat>)
    ensures |s| == |pages| && forall i :: 0 <= i < |pages| ==> s[i] == Gpa(pages[i])
  {
    seq(|pages|, i requires 0 <= i < |pages| => Gpa(pages[i]))
  }

  lemma ExpandOne(rs: seq<Run>, r: Run)
    ensures Expand(rs + [r]) == Expand(rs) + Stretch(r.gpa, r.len / PAGE)
  {
    assert (rs + [r])[..|rs|] == rs;
  }

  /** Growing a whole run by a page appends the address behind it. */
  lemma StretchOne(r: Run)
    requires Whole(r)
    ensures Stretch(r.gpa, (r.len + PAGE) / PAGE) == Stretch(r.gpa, r.len / PAGE) + [End(r)]
  {
    assert (r.len + PAGE) / PAGE == r.len / PAGE + 1;
    assert (r.len / PAGE) * PAGE == r.len;
  }

  lemma FirstStretch(gpa: nat)
    ensures Stretch(gpa, PAGE / PAGE) == [gpa]
  {
    assert Stretch(gpa, 0) == [];
  }

  lemma GrowExpands(rs: seq<Run>, r: Run)
    requires Whole(r)
    ensures Whole(Run(r.gpa, r.len + PAGE))
    ensures Expand(rs + [Run(r.gpa, r.len + PAGE)]) == Expand(rs + [r]) + [End(r)]
  {
    ExpandOne(rs, r);
    ExpandOne(rs, Run(r.gpa, r.len + PAGE));
    StretchOne(r);
  }

  lemma ExtendExpands(rs: seq<Run>, p: pfn)
    requires AllWhole(rs)
    ensures AllWhole(Extend(rs, p)) && Expand(Extend(rs, p)) == Expand(rs) + [Gpa(p)]
  {
    var n := |rs|;
    if n > 0 && End(rs[n - 1]) == Gpa(p) {
      assert rs == rs[..n - 1] + [rs[n - 1]];
      GrowExpands(rs[..n - 1], rs[n - 1]);
    } else {
      ExpandOne(rs, Run(Gpa(p), PAGE));
      FirstStretch(Gpa(p));
    }
  }

  /** Expanding the runs gives the page sequence back, in order. */
  lemma {:induction false} ExpandCoalesce(pages: seq<pfn>)
    ensures AllWhole(Coalesce(pages)) && Expand(Coalesce(pages)) == Addresses(pages)
    decreases |pages|
  {
    if pages != [] {
      var n := |pages| - 1;
      ExpandCoalesce(pages[..n]);
      ExtendExpands(Coalesce(pages[..n]), pages[n]);
      assert Addresses(pages) == Addresses(pages[..n]) + [Gpa(pages[n])];
    }
  }

  // --------------------------------------------------------- as few runs as possible

  /** No run starts where the one before it ends. */
  predicate Apart(rs: seq<Run>) {
    forall i :: 0 < i < |rs| ==> End(rs[i - 1]) != rs[i].gpa
  }

  lemma ExtendApart(rs: seq<Run>, p: pfn)
    requires Apart(rs)
    ensures Apart(Extend(rs, p))
  {
  }

  lemma {:induction false} CoalescedApart(pages: seq<pfn>)
    ensures Apart(Coalesce(pages))
    decreases |pages|
  {
    if pages != [] {
      CoalescedApart(pages[..|pages| - 1]);
      ExtendApart(Coalesce(pages[..|pages| - 1]), pages[|pages| - 1]);
    }
  }

  /** The last page of a run list taken off again. */
  function Shrink(rs: seq<Run>): seq<Run>
    requires rs != [] && Whole(rs[|rs| - 1])
  {
    var n := |rs| - 1;
    if rs[n].len == PAGE then rs[..n] else rs[..n] + [Run(rs[n].gpa, rs[n].len - PAGE)]
  }

  lemma ShrinkExtends(rs: seq<Run>, p: pfn)
    requires rs != [] && AllWhole(rs) && Apart(rs) && End(rs[|rs| - 1]) == Gpa(p) + PAGE
    ensures AllWhole(Shrink(rs)) && Apart(Shrink(rs)) && Extend(Shrink(rs), p) == rs
  {
    var n := |rs| - 1;
    assert rs == rs[..n] + [rs[n]];
    if rs[n].len == PAGE {
      assert n > 0 ==> End(rs[n - 1]) != rs[n].gpa;
    } else {
      assert rs[n].len >= 2 * PAGE;
    }
  }

  lemma ExpandLast(rs: seq<Run>)
    requires rs != [] && AllWhole(rs)
    ensures Expand(rs) != [] && Expand(rs)[|Expand(rs)| - 1] == End(rs[|rs| - 1]) - PAGE
  {
    var r := rs[|rs| - 1];
    assert (r.len / PAGE) * PAGE == r.len && r.len / PAGE >= 1;
  }

  lemma {:induction false} ExpandSome(rs: seq<Run>)
    requires AllWhole(rs) && Expand(rs) == []
    ensures rs == []
  {
    if rs != [] { ExpandLast(rs); }
  }

  /** The coalesced runs are the only maximal ones: whatever expands to the pages and has no mergeable neighbours is them. */
  lemma {:induction false} MaximalRunsAreUnique(rs: seq<Run>, pages: seq<pfn>)
    requires AllWhole(rs) && Apart(rs) && Expand(rs) == Addresses(pages)
    ensures rs == Coalesce(pages)
    decreases |pages|
  {
    if pages == [] {
      ExpandSome(rs);
    } else {
      var n := |pages| - 1;
      LastPage(rs, pages);
      ShrinkExtends(rs, pages[n]);
      ExtendExpands(Shrink(rs), pages[n]);
      OneLess(Expand(Shrink(rs)), Gpa(pages[n]), Addresses(pages));
      assert Addresses(pages[..n]) == Addresses(pages)[..n];
      MaximalRunsAreUnique(Shrink(rs), pages[..n]);
    }
  }

  lemma LastPage(rs: seq<Run>, pages: seq<pfn>)
    requires AllWhole(rs) && pages != [] && Expand(rs) == Addresses(pages)
    ensures rs != [] && End(rs[|rs| - 1]) == Gpa(pages[|pages| - 1]) + PAGE
  {
    assert rs != [];
    ExpandLast(rs);
  }

  lemma OneLess(s: seq<nat>, x: nat, t: seq<nat>)
    requires s + [x] == t
    ensures s == t[..|t| - 1]
  {
  }

  // ----------------------------------------------------------------- counting first

  predicate Starts(pages: seq<pfn>, i: nat)
    requires i < |pages|
  {
    i == 0 || Gpa(pages[i]) != Gpa(pages[i - 1]) + PAGE
  }

  /** How many of the first `n` pages start a run. */
  function CountStarts(pages: seq<pfn>, n: nat): nat
    requires n <= |pages|
  {
    if n == 0 then 0 else CountStarts(pages, n - 1) + (if Starts(pages, n - 1) then 1 else 0)
  }

  lemma {:induction false} LastEnds(pages: seq<pfn>)
    requires pages != []
    ensures Coalesce(pages) != []
    ensures End(Coalesce(pages)[|Coalesce(pages)| - 1]) == Gpa(pages[|pages| - 1]) + PAGE
  {
  }

  /** A page starts a run exactly when the runs so far cannot take it. */
  lemma StartsAddRun(pages: seq<pfn>, i: nat)
    requires i < |pages|
    ensures |Coalesce(pages[..i + 1])| == |Coalesce(pages[..i])| + (if Starts(pages, i) then 1 else 0)
  {
    CoalesceNext(pages, i);
    if i > 0 {
      LastEnds(pages[..i]);
      assert pages[..i][i - 1] == pages[i - 1];
    }
  }

  /** The counting pass gives the number the building pass needs. */
  lemma {:induction false} CountIsLength(pages: seq<pfn>, n: nat)
    requires n <= |pages|
    ensures CountStarts(pages, n) == |Coalesce(pages[..n])|
    decreases n
  {
    if n > 0 {
      CountIsLength(pages, n - 1);
      StartsAddRun(pages, n - 1);
    }
  }

  // ------------------------------------------------------------------- the two users

  /** One page of the filling loops, where there is room for it. */
  method AddPage(runs: array<Run>, n: nat, p: pfn) returns (m: nat)
    requires n <= runs.Length && |Extend(runs[..n], p)| <= runs.Length
    modifies runs
    ensures m <= runs.Length && runs[..m] == Extend(old(runs[..n]), p)
  {
    m := n;
    if n > 0 && End(runs[n - 1]) == Gpa(p) {
      runs[n - 1] := Run(runs[n - 1].gpa, runs[n - 1].len + PAGE);
    } else {
      runs[n] := Run(Gpa(p), PAGE);
      m := n + 1;
    }
  }

  /** `nvrm_runs_from_pages`: all the runs, or zero when they do not fit. */
  method RunsFromPages(pages: seq<pfn>, runs: array<Run>, max: nat) returns (n: nat)
    requires max <= runs.Length
    modifies runs
    ensures |Coalesce(pages)| <= max ==> n == |Coalesce(pages)| && runs[..n] == Coalesce(pages)
    ensures |Coalesce(pages)| > max ==> n == 0
  {
    n := 0;
    for i := 0 to |pages|
      invariant n <= max && runs[..n] == Coalesce(pages[..i])
    {
      CoalesceNext(pages, i);
      if !(n > 0 && End(runs[n - 1]) == Gpa(pages[i])) && n >= max {
        CoalesceGrows(pages, i + 1);
        return 0;
      }
      n := AddPage(runs, n, pages[i]);
    }
    assert pages[..|pages|] == pages;
  }

  /** The first pass of `do_va2gpa`. */
  method CountRuns(pages: seq<pfn>) returns (count: nat)
    ensures count == |Coalesce(pages)|
  {
    count := 0;
    for i := 0 to |pages|
      invariant count == CountStarts(pages, i)
    {
      if i > 0 && Gpa(pages[i]) == Gpa(pages[i - 1]) + PAGE {
        continue;
      }
      count := count + 1;
    }
    CountIsLength(pages, |pages|);
    assert pages[..|pages|] == pages;
  }

  /** Its second pass: an array of exactly the counted size, and no check before a write. */
  method FillRuns(pages: seq<pfn>, runs: array<Run>)
    requires runs.Length == |Coalesce(pages)|
    modifies runs
    ensures runs[..] == Coalesce(pages)
  {
    var n: nat := 0;
    for i := 0 to |pages|
      invariant n <= runs.Length && runs[..n] == Coalesce(pages[..i])
    {
      CoalesceNext(pages, i);
      CoalesceGrows(pages, i + 1);
      n := AddPage(runs, n, pages[i]);
    }
    assert pages[..|pages|] == pages;
  }

  datatype Answer = NoSpace(need: nat) | Runs(runs: array<Run>)

  /** `do_va2gpa` after pinning. */
  method VaToGpa(pages: seq<pfn>, runsMax: nat) returns (a: Answer)
    ensures a.NoSpace? <==> |Coalesce(pages)| > runsMax
    ensures a.NoSpace? ==> a.need == |Coalesce(pages)|
    ensures a.Runs? ==> fresh(a.runs) && a.runs[..] == Coalesce(pages)
  {
    var count := CountRuns(pages);
    if count > runsMax {
      return NoSpace(count);
    }
    var runs := new Run[count](_ => Run(0, 0));
    FillRuns(pages, runs);
    return Runs(runs);
  }
}
