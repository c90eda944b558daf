/**
 Laws of the profile reports: what the rows of a complete ranking add up to, and
 how the reports of different functions agree.
 */
module ReportLaws {
  import opened Text
  import opened Folded
  import opened Ranking
  import opened Report

  function Occurrences(names: seq<Bytes>, f: Bytes): nat
  {
    if names == [] then 0
    else Occurrences(names[..|names| - 1], f) + (if names[|names| - 1] == f then 1 else 0)
  }

  ghost predicate Distinct(names: seq<Bytes>)
  {
    forall i, j :: 0 <= i < j < |names| ==> names[i] != names[j]
  }

  lemma {:induction false} OccursOnce(names: seq<Bytes>, f: Bytes)
    requires Distinct(names)
    ensures Occurrences(names, f) == if f in names then 1 else 0
  {
    if names != [] {
      var init, last := names[..|names| - 1], names[|names| - 1];
      assert names == init + [last] && last !in init;
      OccursOnce(init, f);
    }
  }

  // ------------------------------------------------------------ self and total

  lemma {:induction false} SelfTotalGrand(ss: seq<Stack>, f: Bytes)
    requires Counted(ss)
    ensures 0 <= SelfOf(ss, f) <= TotalOf(ss, f) <= Grand(ss)
  {
    if ss != [] {
      assert WellFormed(ss[|ss| - 1], U64);
      SelfTotalGrand(ss[..|ss| - 1], f);
    }
  }

  function SelfSum(ss: seq<Stack>, names: seq<Bytes>): int
    requires Counted(ss)
  {
    if names == [] then 0 else SelfSum(ss, names[..|names| - 1]) + SelfOf(ss, names[|names| - 1])
  }

  lemma {:induction false} SelfSumStep(ss: seq<Stack>, names: seq<Bytes>)
    requires Counted(ss) && ss != []
    ensures var init, s := ss[..|ss| - 1], ss[|ss| - 1];
      s.frames != [] && SelfSum(ss, names) == SelfSum(init, names) + s.count * Occurrences(names, Leaf(s))
  {
    var s := ss[|ss| - 1];
    assert WellFormed(s, U64);
    if names != [] {
      SelfSumStep(ss, names[..|names| - 1]);
      Distribute(s.count, Occurrences(names[..|names| - 1], Leaf(s)), if names[|names| - 1] == Leaf(s) then 1 else 0);
    }
  }

  lemma {:induction false} Distribute(c: int, a: int, b: int)
    ensures c * (a + b) == c * a + c * b
  {
  }

  /** Self samples over all functions sum to the grand total. */
  lemma {:induction false} SelfSumsToGrand(ss: seq<Stack>, names: seq<Bytes>)
    requires Counted(ss) && Distinct(names)
    requires forall i :: 0 <= i < |ss| ==> forall f :: f in ss[i].frames ==> f in names
    ensures SelfSum(ss, names) == Grand(ss)
  {
    if ss == [] {
      NoSelf(names);
    } else {
      var init, s := ss[..|ss| - 1], ss[|ss| - 1];
      assert WellFormed(s, U64) && Leaf(s) in s.frames;
      SelfSumsToGrand(init, names);
      SelfSumStep(ss, names);
      OccursOnce(names, Leaf(s));
    }
  }

  lemma {:induction false} NoSelf(names: seq<Bytes>)
    ensures SelfSum([], names) == 0
  {
    if names != [] { NoSelf(names[..|names| - 1]); }
  }

  // ---------------------------------------------------------- complete rankings

  /** The names in a list of rows. */
  function NamesOf<T>(rows: seq<T>, name: T -> Bytes): (r: seq<Bytes>)
    ensures |r| == |rows| && forall i :: 0 <= i < |rows| ==> r[i] == name(rows[i])
  {
    seq(|rows|, i requires 0 <= i < |rows| => name(rows[i]))
  }

  function Names(rows: seq<Hotspot>): seq<Bytes> { NamesOf(rows, (h: Hotspot) => h.name) }

  function RowSum(rows: seq<Hotspot>): int
  {
    if rows == [] then 0 else RowSum(rows[..|rows| - 1]) + rows[|rows| - 1].selfSamples
  }

  lemma {:induction false} RowSumIsSelfSum(rows: seq<Hotspot>, ss: seq<Stack>)
    requires Counted(ss) && forall i :: 0 <= i < |rows| ==> rows[i] == HotspotOf(ss, rows[i].name)
    ensures RowSum(rows) == SelfSum(ss, Names(rows))
  {
    if rows != [] {
      var init := rows[..|rows| - 1];
      RowSumIsSelfSum(init, ss);
      assert Names(rows)[..|rows| - 1] == Names(init);
    }
  }

  lemma {:induction false} RankingNames(rows: seq<Hotspot>, ss: seq<Stack>, bySelf: bool)
    requires IsCpuRanking(rows, ss, bySelf)
    ensures Distinct(Names(rows))
    ensures forall i :: 0 <= i < |ss| ==> forall f :: f in ss[i].frames ==> f in Names(rows)
    ensures forall i :: 0 <= i < |rows| ==> rows[i] == HotspotOf(ss, rows[i].name)
  {
    forall i | 0 <= i < |rows| ensures rows[i] == HotspotOf(ss, rows[i].name) {
      assert rows[i] in rows;
    }
    forall i, j | 0 <= i < j < |rows| ensures rows[i].name != rows[j].name {
      var rank := HotspotRank(bySelf);
      if rows[i].name == rows[j].name {
        assert Before(rank(rows[i]), rank(rows[j]));
        BeforeAsymmetric(rank(rows[i]), rank(rows[j]));
        assert false;
      }
    }
    forall i, f | 0 <= i < |ss| && f in ss[i].frames ensures f in Names(rows) {
      var h := HotspotOf(ss, f);
      assert h in rows;
      var k :| 0 <= k < |rows| && rows[k] == h;
      assert Names(rows)[k] == f;
    }
  }

  /** In the complete ranking the self column adds up to the total line, and in
      every row self <= total <= grand. */
  lemma {:induction false} CpuReportConserves(rows: seq<Hotspot>, ss: seq<Stack>, bySelf: bool)
    requires IsCpuRanking(rows, ss, bySelf)
    ensures RowSum(rows) == Grand(ss)
    ensures forall h :: h in rows ==> 0 <= h.selfSamples <= h.totalSamples <= Grand(ss)
  {
    RankingNames(rows, ss, bySelf);
    RowSumIsSelfSum(rows, ss);
    SelfSumsToGrand(ss, Names(rows));
    forall h | h in rows ensures 0 <= h.selfSamples <= h.totalSamples <= Grand(ss) {
      SelfTotalGrand(ss, h.name);
    }
  }

  // ------------------------------------------------------------------ call edges

  /** Samples of one stack for each occurrence of `f` among its first `k` frames. */
  function OccursIn(s: Stack, k: nat, f: Bytes): int
    requires k <= |s.frames|
  {
    if k == 0 then 0 else OccursIn(s, k - 1, f) + (if s.frames[k - 1] == f then s.count else 0)
  }

  lemma {:induction false} OccursInIsProduct(s: Stack, k: nat, f: Bytes)
    requires k <= |s.frames|
    ensures OccursIn(s, k, f) == s.count * Occurrences(s.frames[..k], f)
  {
    if k > 0 {
      OccursInIsProduct(s, k - 1, f);
      assert s.frames[..k][..k - 1] == s.frames[..k - 1];
      Distribute(s.count, Occurrences(s.frames[..k - 1], f), if s.frames[k - 1] == f then 1 else 0);
    }
  }

  /** Over all stacks, the count times the number of occurrences of `f`. */
  function OccurrencesOf(ss: seq<Stack>, f: Bytes): int
  {
    if ss == [] then 0
    else OccurrencesOf(ss[..|ss| - 1], f) + ss[|ss| - 1].count * Occurrences(ss[|ss| - 1].frames, f)
  }

  function CalleesIn(s: Stack, k: nat, f: Bytes, names: seq<Bytes>): int
    requires k <= |s.frames|
  {
    if names == [] then 0
    else CalleesIn(s, k, f, names[..|names| - 1]) + EdgeIn(s, k, f, names[|names| - 1])
  }

  function CalleeSum(ss: seq<Stack>, f: Bytes, names: seq<Bytes>): int
  {
    if names == [] then 0
    else CalleeSum(ss, f, names[..|names| - 1]) + EdgeOf(ss, f, names[|names| - 1])
  }

  lemma {:induction false} CalleesInStep(s: Stack, k: nat, f: Bytes, names: seq<Bytes>)
    requires 2 <= k <= |s.frames|
    ensures CalleesIn(s, k, f, names) == CalleesIn(s, k - 1, f, names)
      + (if s.frames[k - 2] == f then s.count * Occurrences(names, s.frames[k - 1]) else 0)
  {
    if names != [] {
      var init, g := names[..|names| - 1], names[|names| - 1];
      CalleesInStep(s, k, f, init);
      Distribute(s.count, Occurrences(init, s.frames[k - 1]), if g == s.frames[k - 1] then 1 else 0);
    }
  }

  lemma {:induction false} NoCallees(s: Stack, f: Bytes, names: seq<Bytes>)
    requires s.frames != []
    ensures CalleesIn(s, 1, f, names) == 0
  {
    if names != [] { NoCallees(s, f, names[..|names| - 1]); }
  }

  /** Every occurrence of `f` is either the last frame seen or calls the next. */
  lemma {:induction false} FlowInStack(s: Stack, k: nat, f: Bytes, names: seq<Bytes>)
    requires 1 <= k <= |s.frames| && Distinct(names)
    requires forall i :: 1 <= i < |s.frames| && s.frames[i - 1] == f ==> s.frames[i] in names
    ensures CalleesIn(s, k, f, names) + (if s.frames[k - 1] == f then s.count else 0) == OccursIn(s, k, f)
  {
    if k == 1 {
      NoCallees(s, f, names);
      assert OccursIn(s, 0, f) == 0;
    } else {
      FlowInStack(s, k - 1, f, names);
      CalleesInStep(s, k, f, names);
      OccursOnce(names, s.frames[k - 1]);
    }
  }

  lemma {:induction false} CalleeSumStep(ss: seq<Stack>, f: Bytes, names: seq<Bytes>)
    requires ss != []
    ensures var init, s := ss[..|ss| - 1], ss[|ss| - 1];
      CalleeSum(ss, f, names) == CalleeSum(init, f, names) + CalleesIn(s, |s.frames|, f, names)
  {
    if names != [] { CalleeSumStep(ss, f, names[..|names| - 1]); }
  }

  lemma {:induction false} NoCalleeSum(f: Bytes, names: seq<Bytes>)
    ensures CalleeSum([], f, names) == 0
  {
    if names != [] { NoCalleeSum(f, names[..|names| - 1]); }
  }

  /** Flow through a function is conserved: what it passes to its callees plus
      its own samples is its count-weighted number of occurrences. */
  lemma {:induction false} FlowConserved(ss: seq<Stack>, f: Bytes, names: seq<Bytes>)
    requires Counted(ss) && Distinct(names)
    requires forall g :: HasEdge(ss, f, g) ==> g in names
    ensures CalleeSum(ss, f, names) + SelfOf(ss, f) == OccurrencesOf(ss, f)
  {
    if ss == [] {
      NoCalleeSum(f, names);
    } else {
      var init, s := ss[..|ss| - 1], ss[|ss| - 1];
      var n := |s.frames|;
      assert WellFormed(s, U64) && ss == init + [s];
      forall g | HasEdge(init, f, g) ensures g in names { SnocEdges(init, s, f, g); }
      forall i | 1 <= i < n && s.frames[i - 1] == f ensures s.frames[i] in names {
        assert Calls(s.frames, n, f, s.frames[i]);
        SnocEdges(init, s, f, s.frames[i]);
      }
      FlowConserved(init, f, names);
      CalleeSumStep(ss, f, names);
      FlowInStack(s, n, f, names);
      OccursInIsProduct(s, n, f);
      assert s.frames[..n] == s.frames;
    }
  }

  function EdgeNames(rows: seq<CallEdge>): seq<Bytes> { NamesOf(rows, (e: CallEdge) => e.name) }

  function EdgeRowSum(rows: seq<CallEdge>): int
  {
    if rows == [] then 0 else EdgeRowSum(rows[..|rows| - 1]) + rows[|rows| - 1].samples
  }

  lemma {:induction false} EdgeRowSumIsCalleeSum(rows: seq<CallEdge>, ss: seq<Stack>, f: Bytes)
    requires forall i :: 0 <= i < |rows| ==> rows[i].samples == EdgeOf(ss, f, rows[i].name)
    ensures EdgeRowSum(rows) == CalleeSum(ss, f, EdgeNames(rows))
  {
    if rows != [] {
      EdgeRowSumIsCalleeSum(rows[..|rows| - 1], ss, f);
      assert EdgeNames(rows)[..|rows| - 1] == EdgeNames(rows[..|rows| - 1]);
    }
  }

  /** The callees column of a report, plus the function's self samples. */
  lemma {:induction false} CallersReportConserves(callees: seq<CallEdge>, ss: seq<Stack>, f: Bytes)
    requires Counted(ss) && IsEdgeRanking(callees, ss, f, false)
    ensures EdgeRowSum(callees) + SelfOf(ss, f) == OccurrencesOf(ss, f)
  {
    forall i | 0 <= i < |callees| ensures callees[i].samples == EdgeOf(ss, f, callees[i].name) {
      assert callees[i] in callees;
    }
    EdgeRowSumIsCalleeSum(callees, ss, f);
    var names := EdgeNames(callees);
    forall i, j | 0 <= i < j < |names| ensures names[i] != names[j] {
      if names[i] == names[j] {
        assert Before(EdgeRank(callees[i]), EdgeRank(callees[j]));
        BeforeAsymmetric(EdgeRank(callees[i]), EdgeRank(callees[j]));
        assert false;
      }
    }
    forall g | HasEdge(ss, f, g) ensures g in names {
      assert CallEdge(g, EdgeOf(ss, f, g)) in callees;
      var k :| 0 <= k < |callees| && callees[k] == CallEdge(g, EdgeOf(ss, f, g));
      assert names[k] == g;
    }
    FlowConserved(ss, f, names);
  }

  /** A call edge weighs the same from both ends: `g` among the callees of `f`
      exactly as `f` among the callers of `g`. */
  lemma {:induction false} CallEdgeSymmetry(callees: seq<CallEdge>, callers: seq<CallEdge>, ss: seq<Stack>,
                                            f: Bytes, g: Bytes, w: int)
    requires IsEdgeRanking(callees, ss, f, false) && IsEdgeRanking(callers, ss, g, true)
    ensures CallEdge(g, w) in callees <==> CallEdge(f, w) in callers
  {
  }

  lemma {:induction false} EdgeRankingUnique(a: seq<CallEdge>, b: seq<CallEdge>, ss: seq<Stack>, f: Bytes,
                                             callers: bool)
    requires IsEdgeRanking(a, ss, f, callers) && IsEdgeRanking(b, ss, f, callers)
    ensures a == b
  {
    forall e ensures e in a <==> e in b { }
    RankingIsUnique(a, b, EdgeRank);
  }

  // ------------------------------------------------------------------------ diff

  lemma {:induction false} PctAdd(m: int, n: int, total: int)
    ensures Pct(m, total) + Pct(n, total) == Pct(m + n, total)
  {
    if total != 0 {
      var t := total as real;
      assert (m + n) as real == m as real + n as real;
      assert (m as real + n as real) / t == m as real / t + n as real / t;
    }
  }

  lemma {:induction false} PctWhole(n: int)
    ensures Pct(n, n) == if n == 0 then 0.0 else 100.0
  {
    if n != 0 { assert n as real / n as real == 1.0; }
  }

  function PctSum(ss: seq<Stack>, names: seq<Bytes>): real
    requires Counted(ss)
  {
    if names == [] then 0.0 else PctSum(ss, names[..|names| - 1]) + SelfPct(ss, names[|names| - 1])
  }

  lemma {:induction false} PctSumIsPct(ss: seq<Stack>, names: seq<Bytes>)
    requires Counted(ss)
    ensures PctSum(ss, names) == Pct(SelfSum(ss, names), Grand(ss))
  {
    if names != [] {
      var init, f := names[..|names| - 1], names[|names| - 1];
      PctSumIsPct(ss, init);
      PctAdd(SelfSum(ss, init), SelfOf(ss, f), Grand(ss));
    }
  }

  /** The self percentages of a capture add up to 100, or to 0 without samples. */
  lemma {:induction false} PctSumsToWhole(ss: seq<Stack>, names: seq<Bytes>)
    requires Counted(ss) && Distinct(names)
    requires forall i :: 0 <= i < |ss| ==> forall f :: f in ss[i].frames ==> f in names
    ensures PctSum(ss, names) == if Grand(ss) == 0 then 0.0 else 100.0
  {
    PctSumIsPct(ss, names);
    SelfSumsToGrand(ss, names);
    PctWhole(Grand(ss));
  }

  function DeltaNames(rows: seq<FnDelta>): seq<Bytes> { NamesOf(rows, (d: FnDelta) => d.name) }

  function DeltaSum(rows: seq<FnDelta>): real
  {
    if rows == [] then 0.0 else DeltaSum(rows[..|rows| - 1]) + rows[|rows| - 1].delta
  }

  lemma {:induction false} DeltaSumIsDifference(rows: seq<FnDelta>, b: seq<Stack>, a: seq<Stack>)
    requires Counted(b) && Counted(a)
    requires forall i :: 0 <= i < |rows| ==> rows[i] == DeltaOf(b, a, rows[i].name)
    ensures DeltaSum(rows) == PctSum(a, DeltaNames(rows)) - PctSum(b, DeltaNames(rows))
  {
    if rows != [] {
      DeltaSumIsDifference(rows[..|rows| - 1], b, a);
      assert DeltaNames(rows)[..|rows| - 1] == DeltaNames(rows[..|rows| - 1]);
    }
  }

  lemma {:induction false} DiffNames(rows: seq<FnDelta>, b: seq<Stack>, a: seq<Stack>)
    requires IsDiffRanking(rows, b, a)
    ensures Distinct(DeltaNames(rows))
    ensures forall f :: Appears(b, f) || Appears(a, f) ==> f in DeltaNames(rows)
    ensures forall i :: 0 <= i < |rows| ==> rows[i] == DeltaOf(b, a, rows[i].name)
  {
    forall i | 0 <= i < |rows| ensures rows[i] == DeltaOf(b, a, rows[i].name) {
      assert rows[i] in rows;
    }
    forall i, j | 0 <= i < j < |rows| ensures rows[i].name != rows[j].name {
      if rows[i].name == rows[j].name {
        assert Before(DeltaRank(rows[i]), DeltaRank(rows[j]));
        BeforeAsymmetric(DeltaRank(rows[i]), DeltaRank(rows[j]));
        assert false;
      }
    }
    forall f | Appears(b, f) || Appears(a, f) ensures f in DeltaNames(rows) {
      var d := DeltaOf(b, a, f);
      assert d in rows;
      var k :| 0 <= k < |rows| && rows[k] == d;
      assert DeltaNames(rows)[k] == f;
    }
  }

  /** The deltas of a complete diff add up to what the whole captures differ by:
      zero exactly when both captures have samples or neither has. */
  lemma {:induction false} DeltasSumToZero(rows: seq<FnDelta>, b: seq<Stack>, a: seq<Stack>)
    requires IsDiffRanking(rows, b, a)
    ensures DeltaSum(rows) == (if Grand(a) == 0 then 0.0 else 100.0) - (if Grand(b) == 0 then 0.0 else 100.0)
    ensures DeltaSum(rows) == 0.0 <==> (Grand(a) == 0 <==> Grand(b) == 0)
  {
    DiffNames(rows, b, a);
    DeltaSumIsDifference(rows, b, a);
    var names := DeltaNames(rows);
    forall i, f | 0 <= i < |b| && f in b[i].frames ensures f in names { assert Appears(b, f); }
    forall i, f | 0 <= i < |a| && f in a[i].frames ensures f in names { assert Appears(a, f); }
    PctSumsToWhole(b, names);
    PctSumsToWhole(a, names);
  }

  lemma {:induction false} DiffRankingUnique(x: seq<FnDelta>, y: seq<FnDelta>, b: seq<Stack>, a: seq<Stack>)
    requires IsDiffRanking(x, b, a) && IsDiffRanking(y, b, a)
    ensures x == y
  {
    forall d ensures d in x <==> d in y { }
    RankingIsUnique(x, y, DeltaRank);
  }

  // ----------------------------------------------------------------- what rows say

  /** The first row of a CPU ranking has the most samples of the kind that is sorted by. */
  lemma {:induction false} TopIsHottest(rows: seq<Hotspot>, ss: seq<Stack>, bySelf: bool, f: Bytes)
    requires IsCpuRanking(rows, ss, bySelf) && Appears(ss, f)
    ensures rows != [] && (if bySelf then SelfOf(ss, f) <= SelfOf(ss, rows[0].name)
                           else TotalOf(ss, f) <= TotalOf(ss, rows[0].name))
  {
    var h := HotspotOf(ss, f);
    assert h in rows && rows[0] in rows;
    var j :| 0 <= j < |rows| && rows[j] == h;
    if j > 0 { RankedDescends(rows, HotspotRank(bySelf), 0, j); }
  }

  /** A row gives the samples of its function, and their share of all samples times one
      hundred; without samples the share is zero. */
  lemma {:induction false} RowMeaning(rows: seq<Hotspot>, ss: seq<Stack>, bySelf: bool, h: Hotspot)
    requires IsCpuRanking(rows, ss, bySelf) && h in rows
    ensures h.selfSamples == SelfOf(ss, h.name) && h.totalSamples == TotalOf(ss, h.name)
    ensures var all := Grand(ss) as real;
      if all == 0.0 then h.selfPct == h.totalPct == 0.0
      else h.selfPct * all == 100.0 * h.selfSamples as real && h.totalPct * all == 100.0 * h.totalSamples as real
  {
    ShareMeaning(SelfOf(ss, h.name), Grand(ss));
    ShareMeaning(TotalOf(ss, h.name), Grand(ss));
    hide Pct, SelfOf, TotalOf, Grand, Ranked;
  }

  lemma {:induction false} ShareMeaning(n: int, all: int)
    ensures if all == 0 then Pct(n, all) == 0.0 else Pct(n, all) * all as real == 100.0 * n as real
  {
    if all != 0 {
      var share := n as real / all as real;
      assert share * all as real == n as real;
      assert share * 100.0 * all as real == share * all as real * 100.0;
    }
  }

  /** The callers and callees of a function come heaviest first. */
  lemma {:induction false} HeaviestEdgeFirst(rows: seq<CallEdge>, ss: seq<Stack>, fn: Bytes, callers: bool, i: nat,
                                             j: nat)
    requires IsEdgeRanking(rows, ss, fn, callers) && i < j < |rows|
    ensures rows[i].samples >= rows[j].samples
  {
    RankedDescends(rows, EdgeRank, i, j);
  }

  /** The largest change comes first, in either direction; it is the share afterwards
      less the share before. */
  lemma {:induction false} LargestChangeFirst(rows: seq<FnDelta>, b: seq<Stack>, a: seq<Stack>, i: nat, j: nat)
    requires IsDiffRanking(rows, b, a) && i < j < |rows|
    ensures -rows[i].delta <= rows[j].delta <= rows[i].delta || rows[i].delta <= rows[j].delta <= -rows[i].delta
  {
    RankedDescends(rows, DeltaRank, i, j);
  }

  /** A function that only the second capture has at a leaf has grown by its share there,
      and one that only the first has has shrunk by it. */
  lemma {:induction false} ChangeHasSign(rows: seq<FnDelta>, b: seq<Stack>, a: seq<Stack>, d: FnDelta)
    requires IsDiffRanking(rows, b, a) && d in rows
    ensures SelfOf(b, d.name) == 0 && SelfOf(a, d.name) > 0 ==> d.delta > 0.0 && d.delta == d.after && d.before == 0.0
    ensures SelfOf(a, d.name) == 0 && SelfOf(b, d.name) > 0 ==> d.delta < 0.0 && d.delta == -d.before && d.after == 0.0
  {
    SelfTotalGrand(a, d.name);
    SelfTotalGrand(b, d.name);
    ShareOfNone(Grand(a));
    ShareOfNone(Grand(b));
    if SelfOf(a, d.name) > 0 { ShareIsPositive(SelfOf(a, d.name), Grand(a)); }
    if SelfOf(b, d.name) > 0 { ShareIsPositive(SelfOf(b, d.name), Grand(b)); }
  }

  lemma {:induction false} ShareOfNone(all: int)
    ensures Pct(0, all) == 0.0
  {
  }

  lemma {:induction false} ShareIsPositive(n: int, all: int)
    requires 0 < n <= all
    ensures Pct(n, all) > 0.0
  {
    assert n as real / all as real > 0.0;
  }
}
