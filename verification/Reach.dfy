/**
 The safepoint reachability of tools/gc-audit/reach.py: reverse edges of a call
 graph keyed by function name, and a worklist that grows from the seeds.
 Sets are visited in an arbitrary order.
 */
module Reach {

  type Name = string
  type Graph = map<Name, set<Name>>

  const SEEDS: set<Name> := {
    "gc_safe_point", "gc_safe_point_exact", "gc_collect_from_current_roots",
    "gc_collect_from_current_roots_impl", "maybe_gc_and_quit",
    "bytecode_branch_maybe_gc_and_quit",
    "eval_sub", "apply_internal", "apply_with_frame_function"
  }

  predicate Calls(calls: Graph, caller: Name, callee: Name)
  {
    caller in calls && callee in calls[caller]
  }

  /** A chain of calls, first caller first. */
  ghost predicate CallPath(calls: Graph, path: seq<Name>)
  {
    path != [] && forall i :: 0 < i < |path| ==> Calls(calls, path[i - 1], path[i])
  }

  ghost predicate PathTo(calls: Graph, path: seq<Name>, n: Name, s: Name)
  {
    CallPath(calls, path) && path[0] == n && path[|path| - 1] == s
  }

  /** A seed is present when it is defined somewhere or called by something. */
  ghost predicate Present(defs: set<Name>, calls: Graph, s: Name)
  {
    s in defs || exists caller :: Calls(calls, caller, s)
  }

  ghost predicate ReachesSeed(defs: set<Name>, calls: Graph, seeds: set<Name>, n: Name)
  {
    exists path, s :: s in seeds && Present(defs, calls, s) && PathTo(calls, path, n, s)
  }

  // ----------------------------------------------------------- reverse edges

  function Lookup(rev: Graph, n: Name): set<Name> { if n in rev then rev[n] else {} }

  predicate NoEmptyEntry(rev: Graph) { forall callee :: callee in rev ==> rev[callee] != {} }

  /** `rev` holds exactly the edges of `calls` turned around, and no other key. */
  ghost predicate Reversed(calls: Graph, rev: Graph)
  {
    && (forall caller, callee :: caller in Lookup(rev, callee) <==> Calls(calls, caller, callee))
    && NoEmptyEntry(rev)
  }

  /** `rev` is `before` with the edges from `caller` to `callees` turned around. */
  ghost predicate Extended(before: Graph, caller: Name, callees: set<Name>, rev: Graph)
  {
    forall n, callee ::
      n in Lookup(rev, callee) <==> n in Lookup(before, callee) || (n == caller && callee in callees)
  }

  lemma {:induction false} ExtendedByOne(before: Graph, caller: Name, done: set<Name>, c: Name, rev: Graph)
    requires Extended(before, caller, done, rev)
    ensures Extended(before, caller, done + {c}, rev[c := Lookup(rev, c) + {caller}])
  {
    var next := rev[c := Lookup(rev, c) + {caller}];
    forall n, callee
      ensures n in Lookup(next, callee)
              <==> n in Lookup(before, callee) || (n == caller && callee in done + {c})
    {
      assert n in Lookup(rev, callee) <==> n in Lookup(before, callee) || (n == caller && callee in done);
    }
  }

  /** The reverse edges of `caller`'s calls, added to those of `before`. */
  method AddCaller(before: Graph, caller: Name, callees: set<Name>) returns (rev: Graph)
    requires NoEmptyEntry(before)
    ensures Extended(before, caller, callees, rev) && NoEmptyEntry(rev)
  {
    rev := before;
    var rest := callees;
    ghost var done: set<Name> := {};
    while rest != {}
      invariant rest !! done && rest + done == callees
      invariant Extended(before, caller, done, rev) && NoEmptyEntry(rev)
      decreases |rest|
    {
      var c :| c in rest;
      ExtendedByOne(before, caller, done, c, rev);
      rest, done := rest - {c}, done + {c};
      rev := rev[c := Lookup(rev, c) + {caller}];
    }
  }

  method ReverseEdges(calls: Graph) returns (rev: Graph)
    ensures Reversed(calls, rev)
  {
    rev := map[];
    var rest := calls.Keys;
    while rest != {}
      invariant rest <= calls.Keys
      invariant forall caller, callee :: caller in Lookup(rev, callee) <==>
                  caller !in rest && Calls(calls, caller, callee)
      invariant NoEmptyEntry(rev)
      decreases |rest|
    {
      var caller :| caller in rest;
      rest := rest - {caller};
      rev := AddCaller(rev, caller, calls[caller]);
    }
  }

  // ---------------------------------------------------------------- worklist

  /** Adds every caller, appending the new ones to the worklist. */
  method Visit(callers: set<Name>, reach: set<Name>, work: seq<Name>)
    returns (reach': set<Name>, work': seq<Name>)
    ensures reach' == reach + callers
    ensures reach' == reach ==> work' == work
    ensures forall m :: m in work' <==> m in work || m in callers - reach
  {
    reach', work' := reach, work;
    var rest := callers;
    while rest != {}
      invariant rest <= callers
      invariant reach' == reach + (callers - rest)
      invariant reach' == reach ==> work' == work
      invariant forall m :: m in work' <==> m in work || m in (callers - rest) - reach
      decreases |rest|
    {
      var caller :| caller in rest;
      rest := rest - {caller};
      if caller !in reach' {
        reach' := reach' + {caller};
        work' := work' + [caller];
      }
    }
  }

  method Enumerate(s: set<Name>) returns (r: seq<Name>)
    ensures forall n :: n in r <==> n in s
  {
    r := [];
    var rest := s;
    while rest != {}
      invariant rest <= s
      invariant forall n :: n in r <==> n in s - rest
      decreases |rest|
    {
      var n :| n in rest;
      rest := rest - {n};
      r := r + [n];
    }
  }

  /** The set holds the callers of every name in it. */
  ghost predicate ClosedUnder(rev: Graph, s: set<Name>)
  {
    forall n :: n in s ==> Lookup(rev, n) <= s
  }

  lemma {:induction false} Smaller(a: set<Name>, b: set<Name>)
    requires a <= b
    ensures |a| <= |b|
  {
    if a != {} {
      var x :| x in a;
      Smaller(a - {x}, b - {x});
    }
  }

  lemma {:induction false} Shrinks(universe: set<Name>, a: set<Name>, b: set<Name>)
    requires a < b <= universe
    ensures |universe - b| < |universe - a|
  {
    var x :| x in b && x !in a;
    Smaller(universe - b, universe - a - {x});
  }

  /** What is not waiting in `work` has its callers in `reach`. */
  ghost predicate Waiting(rev: Graph, reach: set<Name>, work: seq<Name>)
  {
    (forall n :: n in work ==> n in reach)
    && (forall n :: n in reach ==> n in work || Lookup(rev, n) <= reach)
  }

  lemma {:induction false} VisitKeeps(rev: Graph, n: Name, reach: set<Name>, work: seq<Name>, reach': set<Name>,
                                      work': seq<Name>)
    requires Waiting(rev, reach, work) && work != [] && work[|work| - 1] == n
    requires reach' == reach + Lookup(rev, n)
    requires forall m :: m in work' <==> m in work[..|work| - 1] || m in Lookup(rev, n) - reach
    ensures Waiting(rev, reach', work')
  {
    assert work == work[..|work| - 1] + [n];
  }

  /** The worklist loop: it terminates on every graph, cyclic or not, with the
      smallest closed set around `initial`. */
  method Grow(rev: Graph, initial: set<Name>, ghost closed: set<Name>) returns (reach: set<Name>)
    requires initial <= closed && ClosedUnder(rev, closed)
    ensures initial <= reach <= closed && ClosedUnder(rev, reach)
  {
    reach := initial;
    var work := Enumerate(reach);
    while work != []
      invariant initial <= reach <= closed
      invariant Waiting(rev, reach, work)
      decreases |closed - reach|, |work|
    {
      var n := work[|work| - 1];
      var rest := work[..|work| - 1];
      var reach', work' := Visit(Lookup(rev, n), reach, rest);
      VisitKeeps(rev, n, reach, work, reach', work');
      assert n in reach;
      if reach' != reach { Shrinks(closed, reach, reach'); }
      reach, work := reach', work';
    }
  }

  // ------------------------------------------------------------- exact result

  lemma {:induction false} CallerReaches(defs: set<Name>, calls: Graph, seeds: set<Name>, caller: Name, n: Name)
    requires Calls(calls, caller, n) && ReachesSeed(defs, calls, seeds, n)
    ensures ReachesSeed(defs, calls, seeds, caller)
  {
    var path, s :| s in seeds && Present(defs, calls, s) && PathTo(calls, path, n, s);
    assert PathTo(calls, [caller] + path, caller, s);
  }

  lemma {:induction false} ClosedUnderPaths(calls: Graph, rev: Graph, closed: set<Name>, path: seq<Name>)
    requires Reversed(calls, rev) && ClosedUnder(rev, closed)
    requires CallPath(calls, path) && path[|path| - 1] in closed
    ensures path[0] in closed
  {
    if |path| > 1 {
      var tail := path[1..];
      forall i | 0 < i < |tail| ensures Calls(calls, tail[i - 1], tail[i]) {
        assert Calls(calls, path[i + 1 - 1], path[i + 1]);
      }
      ClosedUnderPaths(calls, rev, closed, tail);
      assert Calls(calls, path[1 - 1], path[1]);
      assert path[0] in Lookup(rev, path[1]);
    }
  }

  /** Every set that holds the present seeds and is closed under callers holds all
      names that reach a seed. */
  lemma {:induction false} LeastClosed(defs: set<Name>, calls: Graph, seeds: set<Name>, rev: Graph,
                                       closed: set<Name>, n: Name)
    requires Reversed(calls, rev) && ClosedUnder(rev, closed)
    requires forall s :: s in seeds && Present(defs, calls, s) ==> s in closed
    requires ReachesSeed(defs, calls, seeds, n)
    ensures n in closed
  {
    var path, s :| s in seeds && Present(defs, calls, s) && PathTo(calls, path, n, s);
    ClosedUnderPaths(calls, rev, closed, path);
  }

  /** The script's membership test for seeds is presence. */
  lemma {:induction false} PresentSeeds(defs: set<Name>, calls: Graph, rev: Graph, s: Name)
    requires Reversed(calls, rev)
    ensures Present(defs, calls, s) <==> s in defs || s in rev
  {
    if s in rev {
      var caller :| caller in rev[s];
      assert caller in Lookup(rev, s);
    }
    if caller :| Calls(calls, caller, s) { assert caller in Lookup(rev, s); }
  }

  /** The names that reach a seed form a finite closed set around the present seeds. */
  lemma {:induction false} ReachingNames(defs: set<Name>, calls: Graph, seeds: set<Name>, rev: Graph,
                                         initial: set<Name>)
    returns (names: set<Name>)
    requires Reversed(calls, rev)
    requires forall s :: s in initial <==> s in seeds && Present(defs, calls, s)
    ensures initial <= names && ClosedUnder(rev, names)
    ensures forall n :: n in names <==> ReachesSeed(defs, calls, seeds, n)
  {
    names := set n | n in initial + calls.Keys && ReachesSeed(defs, calls, seeds, n);
    forall s | s in initial ensures s in names {
      assert PathTo(calls, [s], s, s);
    }
    forall n, caller | n in names && caller in Lookup(rev, n) ensures caller in names {
      CallerReaches(defs, calls, seeds, caller, n);
    }
    forall n | ReachesSeed(defs, calls, seeds, n) ensures n in names {
      var path, s :| s in seeds && Present(defs, calls, s) && PathTo(calls, path, n, s);
      assert |path| > 1 ==> Calls(calls, path[1 - 1], path[1]);
    }
  }

  /** The names that reach a safepoint: exactly those with a chain of calls to a
      seed that is present. */
  method Reachable(defs: set<Name>, calls: Graph, seeds: set<Name>) returns (reach: set<Name>)
    ensures forall n :: n in reach <==> ReachesSeed(defs, calls, seeds, n)
  {
    var rev := ReverseEdges(calls);
    var initial := set s | s in seeds && (s in defs || s in rev);
    forall s ensures Present(defs, calls, s) <==> s in defs || s in rev { PresentSeeds(defs, calls, rev, s); }
    ghost var names := ReachingNames(defs, calls, seeds, rev, initial);
    reach := Grow(rev, initial, names);
    forall n | n in names ensures n in reach { LeastClosed(defs, calls, seeds, rev, reach, n); }
  }

  /** The script's own run. */
  method SafepointNames(defs: set<Name>, calls: Graph) returns (reach: set<Name>)
    ensures forall n :: n in reach <==> ReachesSeed(defs, calls, SEEDS, n)
  {
    reach := Reachable(defs, calls, SEEDS);
  }
}
