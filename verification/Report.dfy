/**
 The aggregating passes of crates/neomacs-diagnostics/src/report.rs over folded
 text, each proved against a count defined stack by stack. Percentages are exact
 reals; sums are assumed to fit in u64.
 */
module Report {
  import opened Text
  import opened Folded
  import opened Ranking

  // ------------------------------------------------------------------- counts

  function Leaf(s: Stack): Bytes
    requires s.frames != []
  {
    s.frames[|s.frames| - 1]
  }

  ghost predicate Counted(ss: seq<Stack>)
  {
    forall i :: 0 <= i < |ss| ==> WellFormed(ss[i], U64)
  }

  /** All samples. */
  function Grand(ss: seq<Stack>): int
  {
    if ss == [] then 0 else Grand(ss[..|ss| - 1]) + ss[|ss| - 1].count
  }

  /** Samples where `f` is the leaf. */
  function SelfOf(ss: seq<Stack>, f: Bytes): int
    requires Counted(ss)
  {
    if ss == [] then 0
    else
      var init, s := ss[..|ss| - 1], ss[|ss| - 1];
      assert WellFormed(s, U64);
      SelfOf(init, f) + (if Leaf(s) == f then s.count else 0)
  }

  /** Samples of stacks with `f` anywhere, each stack once. */
  function TotalOf(ss: seq<Stack>, f: Bytes): int
  {
    if ss == [] then 0
    else
      var init, s := ss[..|ss| - 1], ss[|ss| - 1];
      TotalOf(init, f) + (if f in s.frames then s.count else 0)
  }

  /** Samples of one stack for each time `g` directly follows `f` among its
      first `k` frames. */
  function EdgeIn(s: Stack, k: nat, f: Bytes, g: Bytes): int
    requires k <= |s.frames|
  {
    if k <= 1 then 0
    else EdgeIn(s, k - 1, f, g) + (if s.frames[k - 2] == f && s.frames[k - 1] == g then s.count else 0)
  }

  /** Samples along the call edge from `f` to `g`, counting every occurrence. */
  function EdgeOf(ss: seq<Stack>, f: Bytes, g: Bytes): int
  {
    if ss == [] then 0
    else
      var init, s := ss[..|ss| - 1], ss[|ss| - 1];
      EdgeOf(init, f, g) + EdgeIn(s, |s.frames|, f, g)
  }

  /** `g` directly follows `f` somewhere among the first `k` frames. */
  predicate Calls(frames: seq<Bytes>, k: nat, f: Bytes, g: Bytes)
    requires k <= |frames|
  {
    exists i :: 1 <= i < k && frames[i - 1] == f && frames[i] == g
  }

  predicate HasEdge(ss: seq<Stack>, f: Bytes, g: Bytes)
  {
    exists i :: 0 <= i < |ss| && Calls(ss[i].frames, |ss[i].frames|, f, g)
  }

  predicate Appears(ss: seq<Stack>, f: Bytes)
  {
    exists i :: 0 <= i < |ss| && f in ss[i].frames
  }

  // ---------------------------------------------------------------- hash maps

  function Get(m: map<Bytes, int>, f: Bytes): int { if f in m then m[f] else 0 }

  /** `*map.entry(f).or_default() += n`. */
  function Bump(m: map<Bytes, int>, f: Bytes, n: int): map<Bytes, int>
  {
    m[f := Get(m, f) + n]
  }

  ghost predicate IsSelf(m: map<Bytes, int>, ss: seq<Stack>)
    requires Counted(ss)
  {
    forall f :: Get(m, f) == SelfOf(ss, f)
  }

  /** Exactly the functions on some stack, with their totals. */
  ghost predicate IsTotal(m: map<Bytes, int>, ss: seq<Stack>)
  {
    forall f :: (f in m <==> Appears(ss, f)) && Get(m, f) == TotalOf(ss, f)
  }

  lemma {:induction false} SnocCounts(ss: seq<Stack>, s: Stack, f: Bytes)
    requires Counted(ss) && WellFormed(s, U64)
    ensures Counted(ss + [s])
    ensures Grand(ss + [s]) == Grand(ss) + s.count
    ensures SelfOf(ss + [s], f) == SelfOf(ss, f) + (if Leaf(s) == f then s.count else 0)
    ensures TotalOf(ss + [s], f) == TotalOf(ss, f) + (if f in s.frames then s.count else 0)
    ensures Appears(ss + [s], f) <==> Appears(ss, f) || f in s.frames
  {
    var t := ss + [s];
    assert t[..|ss|] == ss && t[|ss|] == s;
    if Appears(ss, f) {
      var i :| 0 <= i < |ss| && f in ss[i].frames;
      assert f in t[i].frames;
    }
    if f in s.frames { assert f in t[|ss|].frames; }
  }

  /** `m` after one stack: each distinct frame accrues the count once. */
  function WithTotals(m: map<Bytes, int>, s: Stack): map<Bytes, int>
  {
    map f | f in m.Keys + (set x | x in s.frames) :: Get(m, f) + (if f in s.frames then s.count else 0)
  }

  /** The maps the passes build, stack by stack. */
  function SelfMap(ss: seq<Stack>): map<Bytes, int>
    requires Counted(ss)
  {
    if ss == [] then map[]
    else
      var s := ss[|ss| - 1];
      assert WellFormed(s, U64);
      Bump(SelfMap(ss[..|ss| - 1]), Leaf(s), s.count)
  }

  function TotalMap(ss: seq<Stack>): map<Bytes, int>
  {
    if ss == [] then map[] else WithTotals(TotalMap(ss[..|ss| - 1]), ss[|ss| - 1])
  }

  lemma {:induction false} SelfMapMeaning(ss: seq<Stack>)
    requires Counted(ss)
    ensures IsSelf(SelfMap(ss), ss)
  {
    if ss != [] {
      var init, s := ss[..|ss| - 1], ss[|ss| - 1];
      assert WellFormed(s, U64);
      SelfMapMeaning(init);
    }
  }

  lemma {:induction false} TotalMapMeaning(ss: seq<Stack>)
    requires Counted(ss)
    ensures IsTotal(TotalMap(ss), ss)
  {
    if ss != [] {
      var init, s := ss[..|ss| - 1], ss[|ss| - 1];
      TotalMapMeaning(init);
      assert ss == init + [s] && WellFormed(s, U64);
      forall f ensures (f in TotalMap(ss) <==> Appears(ss, f)) && Get(TotalMap(ss), f) == TotalOf(ss, f) {
        SnocCounts(init, s, f);
      }
    }
  }

  /** The inner loop of both passes: a recursive frame counts once. */
  method AddTotals(m: map<Bytes, int>, s: Stack) returns (r: map<Bytes, int>)
    ensures r == WithTotals(m, s)
  {
    r := m;
    var seen: set<Bytes> := {};
    for j := 0 to |s.frames|
      invariant forall f :: f in seen <==> f in s.frames[..j]
      invariant r.Keys == m.Keys + seen
      invariant forall f :: f in r ==> r[f] == Get(m, f) + (if f in seen then s.count else 0)
    {
      var frame := s.frames[j];
      assert forall f :: f in s.frames[..j + 1] <==> f in s.frames[..j] || f == frame;
      if frame !in seen {
        seen := seen + {frame};
        r := Bump(r, frame, s.count);
      }
    }
    assert s.frames[..|s.frames|] == s.frames;
  }

  ghost predicate Tallied(selfC: map<Bytes, int>, totalC: map<Bytes, int>, grand: int, ss: seq<Stack>)
  {
    Counted(ss) && selfC == SelfMap(ss) && totalC == TotalMap(ss) && grand == Grand(ss)
  }

  lemma {:induction false} TallyStep(ss: seq<Stack>, s: Stack)
    requires Counted(ss) && WellFormed(s, U64)
    ensures Tallied(Bump(SelfMap(ss), Leaf(s), s.count), WithTotals(TotalMap(ss), s), Grand(ss) + s.count, ss + [s])
  {
    assert (ss + [s])[..|ss|] == ss;
  }

  /** One more stack. */
  method TallyOne(self0: map<Bytes, int>, total0: map<Bytes, int>, grand0: int, s: Stack, ghost ss: seq<Stack>)
    returns (selfC: map<Bytes, int>, totalC: map<Bytes, int>, grand: int)
    requires Tallied(self0, total0, grand0, ss) && WellFormed(s, U64)
    ensures Tallied(selfC, totalC, grand, ss + [s])
  {
    TallyStep(ss, s);
    grand := grand0 + s.count;
    totalC := AddTotals(total0, s);
    selfC := Bump(self0, Leaf(s), s.count);
  }

  /** `self_total_maps`. */
  method SelfTotalMaps(folded: Bytes) returns (selfC: map<Bytes, int>, totalC: map<Bytes, int>, grand: int)
    ensures Tallied(selfC, totalC, grand, Parse(folded, U64))
  {
    selfC, totalC, grand := map[], map[], 0;
    var lines := ParseLines(Lines(folded), U64);
    for i := 0 to |lines|
      invariant Tallied(selfC, totalC, grand, Stacks(lines, i))
    {
      match lines[i] {
        case None =>
        case Some(s) =>
          selfC, totalC, grand := TallyOne(selfC, totalC, grand, s, Stacks(lines, i));
      }
    }
  }

  // -------------------------------------------------------------- CPU report

  datatype Hotspot = Hotspot(name: Bytes, selfSamples: int, totalSamples: int, selfPct: real, totalPct: real)

  datatype CpuReport = CpuReport(totalSamples: int, distinctStacks: nat, top: seq<Hotspot>)

  function Pct(n: int, total: int): real
  {
    if total == 0 then 0.0 else n as real / total as real * 100.0
  }

  ghost function HotspotOf(ss: seq<Stack>, f: Bytes): Hotspot
    requires Counted(ss)
  {
    Hotspot(f, SelfOf(ss, f), TotalOf(ss, f), Pct(SelfOf(ss, f), Grand(ss)), Pct(TotalOf(ss, f), Grand(ss)))
  }

  function HotspotRank(bySelf: bool): Hotspot -> Rank
  {
    (h: Hotspot) =>
      if bySelf then Rank(h.selfSamples as real, h.totalSamples as real, h.name)
      else Rank(h.totalSamples as real, h.selfSamples as real, h.name)
  }

  /** The complete ranking: one true row for each function seen, in rank order. */
  ghost predicate IsCpuRanking(rows: seq<Hotspot>, ss: seq<Stack>, bySelf: bool)
  {
    && Counted(ss) && Ranked(rows, HotspotRank(bySelf))
    && (forall h :: h in rows <==> Appears(ss, h.name) && h == HotspotOf(ss, h.name))
  }

  /** `truncate(n)`. */
  function Truncate<T>(rows: seq<T>, n: nat): seq<T> { if n < |rows| then rows[..n] else rows }

  /** The keys of a hash map, in whatever order it iterates. */
  method Keys(m: map<Bytes, int>) returns (keys: seq<Bytes>)
    ensures forall f :: f in keys <==> f in m
    ensures forall i, j :: 0 <= i < j < |keys| ==> keys[i] != keys[j]
  {
    keys := [];
    var left := m.Keys;
    while left != {}
      invariant left <= m.Keys
      invariant forall f :: f in keys <==> f in m && f !in left
      invariant forall i, j :: 0 <= i < j < |keys| ==> keys[i] != keys[j]
      decreases left
    {
      var k :| k in left;
      assert k !in keys;
      keys := keys + [k];
      left := left - {k};
    }
  }

  method Hotspots(selfC: map<Bytes, int>, totalC: map<Bytes, int>, grand: int, ghost ss: seq<Stack>)
    returns (rows: seq<Hotspot>)
    requires Tallied(selfC, totalC, grand, ss)
    ensures forall h :: h in rows <==> Appears(ss, h.name) && h == HotspotOf(ss, h.name)
    ensures forall i, j :: 0 <= i < j < |rows| ==> rows[i].name != rows[j].name
  {
    SelfMapMeaning(ss);
    TotalMapMeaning(ss);
    var keys := Keys(totalC);
    rows := [];
    for i := 0 to |keys|
      invariant |rows| == i
      invariant forall k :: 0 <= k < i ==> rows[k] == HotspotOf(ss, keys[k])
    {
      var f := keys[i];
      var own, total := Get(selfC, f), totalC[f];
      assert total == Get(totalC, f) == TotalOf(ss, f) && own == SelfOf(ss, f);
      rows := rows + [Hotspot(f, own, total, Pct(own, grand), Pct(total, grand))];
    }
    forall h ensures h in rows <==> Appears(ss, h.name) && h == HotspotOf(ss, h.name) {
      if Appears(ss, h.name) && h == HotspotOf(ss, h.name) {
        assert h.name in keys;
        var k :| 0 <= k < |keys| && keys[k] == h.name;
        assert rows[k] == h;
      }
      if h in rows {
        var k :| 0 <= k < |rows| && rows[k] == h;
        assert h.name == keys[k] && keys[k] in keys;
      }
    }
  }

  method RankHotspots(selfC: map<Bytes, int>, totalC: map<Bytes, int>, grand: int, bySelf: bool,
                      ghost ss: seq<Stack>) returns (sorted: seq<Hotspot>)
    requires Tallied(selfC, totalC, grand, ss)
    ensures IsCpuRanking(sorted, ss, bySelf)
  {
    var rows := Hotspots(selfC, totalC, grand, ss);
    sorted := Sort(rows, HotspotRank(bySelf));
    SameMembers(sorted, rows);
  }

  method TallyStacks(folded: Bytes)
    returns (selfC: map<Bytes, int>, totalC: map<Bytes, int>, grand: int, distinct: nat)
    ensures Tallied(selfC, totalC, grand, Parse(folded, U64)) && distinct == |Parse(folded, U64)|
  {
    selfC, totalC, grand, distinct := map[], map[], 0, 0;
    var lines := ParseLines(Lines(folded), U64);
    for i := 0 to |lines|
      invariant Tallied(selfC, totalC, grand, Stacks(lines, i))
      invariant distinct == |Stacks(lines, i)|
    {
      match lines[i] {
        case None =>
        case Some(s) =>
          distinct := distinct + 1;
          selfC, totalC, grand := TallyOne(selfC, totalC, grand, s, Stacks(lines, i));
      }
    }
  }

  /** `cpu_report_from_folded`. */
  method CpuReportFromFolded(folded: Bytes, topN: nat, sortBySelf: bool)
    returns (r: CpuReport)
    ensures var ss := Parse(folded, U64);
      && r.totalSamples == Grand(ss) && r.distinctStacks == |ss|
      && exists ranking :: IsCpuRanking(ranking, ss, sortBySelf) && r.top == Truncate(ranking, topN)
  {
    var selfC, totalC, grand, distinct := TallyStacks(folded);
    var sorted := RankHotspots(selfC, totalC, grand, sortBySelf, Parse(folded, U64));
    r := CpuReport(grand, distinct, Truncate(sorted, topN));
  }

  lemma {:induction false} SameMembers<T>(a: seq<T>, b: seq<T>)
    requires multiset(a) == multiset(b)
    ensures forall x :: x in a <==> x in b
  {
    forall x ensures x in a <==> x in b {
      assert x in a <==> x in multiset(a);
      assert x in b <==> x in multiset(b);
    }
  }

  /** The ranking, and so every top-N list, does not depend on the order the
      hash map was iterated in. */
  lemma {:induction false} CpuRankingUnique(a: seq<Hotspot>, b: seq<Hotspot>, ss: seq<Stack>, bySelf: bool)
    requires IsCpuRanking(a, ss, bySelf) && IsCpuRanking(b, ss, bySelf)
    ensures a == b
  {
    forall h ensures h in a <==> h in b { }
    RankingIsUnique(a, b, HotspotRank(bySelf));
  }

  // ------------------------------------------------------- callers and callees

  datatype CallEdge = CallEdge(name: Bytes, samples: int)

  datatype CallersReport = CallersReport(name: Bytes, totalSamples: int, callers: seq<CallEdge>, callees: seq<CallEdge>)

  function EdgeRank(e: CallEdge): Rank { Rank(e.samples as real, 0.0, e.name) }

  /** The weight of the edge between `fn` and another function, by direction. */
  function Weight(ss: seq<Stack>, fn: Bytes, other: Bytes, callers: bool): int
  {
    if callers then EdgeOf(ss, other, fn) else EdgeOf(ss, fn, other)
  }

  predicate Linked(ss: seq<Stack>, fn: Bytes, other: Bytes, callers: bool)
  {
    if callers then HasEdge(ss, other, fn) else HasEdge(ss, fn, other)
  }

  /** Exactly the functions with an edge to (or from) `fn`, with their weights. */
  ghost predicate IsEdges(m: map<Bytes, int>, ss: seq<Stack>, fn: Bytes, callers: bool)
  {
    forall h :: (h in m <==> Linked(ss, fn, h, callers)) && Get(m, h) == Weight(ss, fn, h, callers)
  }

  ghost predicate IsEdgeRanking(rows: seq<CallEdge>, ss: seq<Stack>, fn: Bytes, callers: bool)
  {
    && Ranked(rows, EdgeRank)
    && forall e :: e in rows <==> Linked(ss, fn, e.name, callers) && e.samples == Weight(ss, fn, e.name, callers)
  }

  lemma {:induction false} SnocEdges(ss: seq<Stack>, s: Stack, f: Bytes, g: Bytes)
    ensures EdgeOf(ss + [s], f, g) == EdgeOf(ss, f, g) + EdgeIn(s, |s.frames|, f, g)
    ensures HasEdge(ss + [s], f, g) <==> HasEdge(ss, f, g) || Calls(s.frames, |s.frames|, f, g)
  {
    var t := ss + [s];
    assert t[..|ss|] == ss && t[|ss|] == s;
    if HasEdge(ss, f, g) {
      var i :| 0 <= i < |ss| && Calls(ss[i].frames, |ss[i].frames|, f, g);
      assert Calls(t[i].frames, |t[i].frames|, f, g);
    }
    if Calls(s.frames, |s.frames|, f, g) { assert Calls(t[|ss|].frames, |t[|ss|].frames|, f, g); }
  }

  /** `m` with the edges among the first `k` frames of `s` added. */
  function WithEdges(m: map<Bytes, int>, s: Stack, k: nat, fn: Bytes, callers: bool): map<Bytes, int>
    requires k <= |s.frames|
  {
    if k <= 1 then m
    else
      var before := WithEdges(m, s, k - 1, fn, callers);
      var mine, other := if callers then k - 1 else k - 2, if callers then k - 2 else k - 1;
      if s.frames[mine] == fn then Bump(before, s.frames[other], s.count) else before
  }

  function EdgeMap(ss: seq<Stack>, fn: Bytes, callers: bool): map<Bytes, int>
  {
    if ss == [] then map[]
    else
      var s := ss[|ss| - 1];
      WithEdges(EdgeMap(ss[..|ss| - 1], fn, callers), s, |s.frames|, fn, callers)
  }

  lemma {:induction false} WithEdgesMeaning(m: map<Bytes, int>, s: Stack, k: nat, fn: Bytes, h: Bytes, callers: bool)
    requires k <= |s.frames|
    ensures var r, f, g := WithEdges(m, s, k, fn, callers), if callers then h else fn, if callers then fn else h;
      (h in r <==> h in m || Calls(s.frames, k, f, g)) && Get(r, h) == Get(m, h) + EdgeIn(s, k, f, g)
  {
    if k > 1 {
      WithEdgesMeaning(m, s, k - 1, fn, h, callers);
      var f, g := if callers then h else fn, if callers then fn else h;
      assert Calls(s.frames, k, f, g)
        <==> Calls(s.frames, k - 1, f, g) || (s.frames[k - 2] == f && s.frames[k - 1] == g);
    }
  }

  lemma {:induction false} EdgeMapMeaning(ss: seq<Stack>, fn: Bytes, callers: bool)
    ensures IsEdges(EdgeMap(ss, fn, callers), ss, fn, callers)
  {
    if ss != [] {
      var init, s := ss[..|ss| - 1], ss[|ss| - 1];
      assert ss == init + [s];
      EdgeMapMeaning(init, fn, callers);
      var m, r := EdgeMap(init, fn, callers), EdgeMap(ss, fn, callers);
      forall h ensures (h in r <==> Linked(ss, fn, h, callers)) && Get(r, h) == Weight(ss, fn, h, callers) {
        WithEdgesMeaning(m, s, |s.frames|, fn, h, callers);
        SnocEdges(init, s, fn, h);
        SnocEdges(init, s, h, fn);
      }
    }
  }

  /** One stack: every occurrence of `fn` feeds its caller and its callee. */
  method AddEdges(callers0: map<Bytes, int>, callees0: map<Bytes, int>, s: Stack, fn: Bytes)
    returns (callers: map<Bytes, int>, callees: map<Bytes, int>, hit: bool)
    requires s.frames != []
    ensures callers == WithEdges(callers0, s, |s.frames|, fn, true)
    ensures callees == WithEdges(callees0, s, |s.frames|, fn, false)
    ensures hit <==> fn in s.frames
  {
    callers, callees, hit := callers0, callees0, false;
    var n := |s.frames|;
    for i := 0 to n
      invariant callers == WithEdges(callers0, s, i, fn, true)
      invariant callees == WithEdges(callees0, s, if i < n then i + 1 else n, fn, false)
      invariant hit <==> fn in s.frames[..i]
    {
      assert s.frames[..i + 1] == s.frames[..i] + [s.frames[i]];
      if s.frames[i] == fn {
        hit := true;
        if i > 0 {
          callers := Bump(callers, s.frames[i - 1], s.count);
        }
        if i + 1 < n {
          callees := Bump(callees, s.frames[i + 1], s.count);
        }
      }
    }
    assert s.frames[..n] == s.frames;
  }

  method SortEdges(m: map<Bytes, int>, ghost ss: seq<Stack>, ghost fn: Bytes, ghost callers: bool)
    returns (edges: seq<CallEdge>)
    requires IsEdges(m, ss, fn, callers)
    ensures IsEdgeRanking(edges, ss, fn, callers)
  {
    var keys := Keys(m);
    var rows: seq<CallEdge> := [];
    for i := 0 to |keys|
      invariant |rows| == i
      invariant forall k :: 0 <= k < i ==> rows[k] == CallEdge(keys[k], m[keys[k]])
    {
      rows := rows + [CallEdge(keys[i], m[keys[i]])];
    }
    edges := Sort(rows, EdgeRank);
    SameMembers(edges, rows);
    forall e ensures e in edges <==> Linked(ss, fn, e.name, callers) && e.samples == Weight(ss, fn, e.name, callers) {
      if e.name in m && e.samples == Get(m, e.name) {
        assert e.name in keys;
        var k :| 0 <= k < |keys| && keys[k] == e.name;
        assert rows[k] == e;
      }
      if e in rows {
        var k :| 0 <= k < |rows| && rows[k] == e;
        assert keys[k] in keys;
      }
    }
  }

  /** The accumulators of the callers pass over the stacks so far. */
  ghost predicate Traced(callers: map<Bytes, int>, callees: map<Bytes, int>, total: int, ss: seq<Stack>, fn: Bytes)
  {
    callers == EdgeMap(ss, fn, true) && callees == EdgeMap(ss, fn, false) && total == TotalOf(ss, fn)
  }

  lemma {:induction false} TraceStep(ss: seq<Stack>, s: Stack, fn: Bytes)
    ensures Traced(WithEdges(EdgeMap(ss, fn, true), s, |s.frames|, fn, true),
                   WithEdges(EdgeMap(ss, fn, false), s, |s.frames|, fn, false),
                   TotalOf(ss, fn) + (if fn in s.frames then s.count else 0), ss + [s], fn)
  {
    assert (ss + [s])[..|ss|] == ss;
  }

  method TraceStacks(folded: Bytes, fn: Bytes)
    returns (callers: map<Bytes, int>, callees: map<Bytes, int>, total: int)
    ensures Traced(callers, callees, total, Parse(folded, U64), fn)
  {
    callers, callees, total := map[], map[], 0;
    var lines := ParseLines(Lines(folded), U64);
    for i := 0 to |lines|
      invariant Traced(callers, callees, total, Stacks(lines, i), fn)
    {
      match lines[i] {
        case None =>
        case Some(s) =>
          TraceStep(Stacks(lines, i), s, fn);
          var hit;
          callers, callees, hit := AddEdges(callers, callees, s, fn);
          if hit { total := total + s.count; }
      }
    }
  }

  /** `callers_report_from_folded`. */
  method CallersReportFromFolded(folded: Bytes, fn: Bytes) returns (r: CallersReport)
    ensures var ss := Parse(folded, U64);
      && r.name == fn && r.totalSamples == TotalOf(ss, fn)
      && IsEdgeRanking(r.callers, ss, fn, true) && IsEdgeRanking(r.callees, ss, fn, false)
  {
    var callers, callees, total := TraceStacks(folded, fn);
    EdgeMapMeaning(Parse(folded, U64), fn, true);
    EdgeMapMeaning(Parse(folded, U64), fn, false);
    var up := SortEdges(callers, Parse(folded, U64), fn, true);
    var down := SortEdges(callees, Parse(folded, U64), fn, false);
    r := CallersReport(fn, total, up, down);
  }

  // --------------------------------------------------------------------- diff

  datatype FnDelta = FnDelta(name: Bytes, before: real, after: real, delta: real)

  datatype DiffReport = DiffReport(beforeTotal: int, afterTotal: int, top: seq<FnDelta>)

  function SelfPct(ss: seq<Stack>, f: Bytes): real
    requires Counted(ss)
  {
    Pct(SelfOf(ss, f), Grand(ss))
  }

  ghost function DeltaOf(b: seq<Stack>, a: seq<Stack>, f: Bytes): FnDelta
    requires Counted(b) && Counted(a)
  {
    FnDelta(f, SelfPct(b, f), SelfPct(a, f), SelfPct(a, f) - SelfPct(b, f))
  }

  function DeltaRank(d: FnDelta): Rank
  {
    Rank(if d.delta < 0.0 then -d.delta else d.delta, 0.0, d.name)
  }

  ghost predicate IsDiffRanking(rows: seq<FnDelta>, b: seq<Stack>, a: seq<Stack>)
  {
    && Counted(b) && Counted(a) && Ranked(rows, DeltaRank)
    && forall d :: d in rows <==> (Appears(b, d.name) || Appears(a, d.name)) && d == DeltaOf(b, a, d.name)
  }

  method Deltas(selfB: map<Bytes, int>, totalB: map<Bytes, int>, grandB: int,
                selfA: map<Bytes, int>, totalA: map<Bytes, int>, grandA: int,
                ghost b: seq<Stack>, ghost a: seq<Stack>) returns (rows: seq<FnDelta>)
    requires Tallied(selfB, totalB, grandB, b) && Tallied(selfA, totalA, grandA, a)
    ensures forall d :: d in rows <==> (Appears(b, d.name) || Appears(a, d.name)) && d == DeltaOf(b, a, d.name)
    ensures forall i, j :: 0 <= i < j < |rows| ==> rows[i].name != rows[j].name
  {
    SelfMapMeaning(b);
    SelfMapMeaning(a);
    TotalMapMeaning(b);
    TotalMapMeaning(a);
    var names := Keys(totalB + totalA);
    rows := [];
    for i := 0 to |names|
      invariant |rows| == i
      invariant forall k :: 0 <= k < i ==> rows[k] == DeltaOf(b, a, names[k])
    {
      var name := names[i];
      assert Get(selfB, name) == SelfOf(b, name) && Get(selfA, name) == SelfOf(a, name);
      var pctB, pctA := Pct(Get(selfB, name), grandB), Pct(Get(selfA, name), grandA);
      rows := rows + [FnDelta(name, pctB, pctA, pctA - pctB)];
    }
    forall d ensures d in rows <==> (Appears(b, d.name) || Appears(a, d.name)) && d == DeltaOf(b, a, d.name) {
      assert d.name in names <==> Appears(b, d.name) || Appears(a, d.name);
      if d.name in names && d == DeltaOf(b, a, d.name) {
        var k :| 0 <= k < |names| && names[k] == d.name;
        assert rows[k] == d;
      }
      if d in rows {
        var k :| 0 <= k < |rows| && rows[k] == d;
        assert names[k] in names;
      }
    }
  }

  method RankDeltas(selfB: map<Bytes, int>, totalB: map<Bytes, int>, grandB: int,
                    selfA: map<Bytes, int>, totalA: map<Bytes, int>, grandA: int,
                    ghost b: seq<Stack>, ghost a: seq<Stack>) returns (sorted: seq<FnDelta>)
    requires Tallied(selfB, totalB, grandB, b) && Tallied(selfA, totalA, grandA, a)
    ensures IsDiffRanking(sorted, b, a)
  {
    var rows := Deltas(selfB, totalB, grandB, selfA, totalA, grandA, b, a);
    sorted := Sort(rows, DeltaRank);
    SameMembers(sorted, rows);
  }

  /** `diff_from_folded`. */
  method DiffFromFolded(before: Bytes, after: Bytes, topN: nat)
    returns (r: DiffReport)
    ensures var b, a := Parse(before, U64), Parse(after, U64);
      && r.beforeTotal == Grand(b) && r.afterTotal == Grand(a)
      && exists ranking :: IsDiffRanking(ranking, b, a) && r.top == Truncate(ranking, topN)
  {
    var selfB, totalB, grandB := SelfTotalMaps(before);
    var selfA, totalA, grandA := SelfTotalMaps(after);
    var sorted := RankDeltas(selfB, totalB, grandB, selfA, totalA, grandA, Parse(before, U64), Parse(after, U64));
    r := DiffReport(grandB, grandA, Truncate(sorted, topN));
  }
}
