/**
 Deterministic ranking of rows taken from a hash map: descending by two keys,
 ties broken by name. A ranking is determined by the set of its rows.
 */
module Ranking {
  import opened Text

  datatype Rank = Rank(primary: real, secondary: real, name: Bytes)

  /** The `sort_by` comparator: higher keys first, then names ascending. */
  predicate Before(a: Rank, b: Rank)
  {
    || a.primary > b.primary
    || (a.primary == b.primary && a.secondary > b.secondary)
    || (a.primary == b.primary && a.secondary == b.secondary && LexLess(a.name, b.name))
  }

  lemma {:induction false} BeforeTotal(a: Rank, b: Rank)
    ensures a == b || Before(a, b) || Before(b, a)
  {
    LexTotal(a.name, b.name);
  }

  lemma {:induction false} BeforeTransitive(a: Rank, b: Rank, c: Rank)
    requires Before(a, b) && Before(b, c)
    ensures Before(a, c)
  {
    if LexLess(a.name, b.name) && LexLess(b.name, c.name) { LexTransitive(a.name, b.name, c.name); }
  }

  lemma {:induction false} BeforeAsymmetric(a: Rank, b: Rank)
    requires Before(a, b)
    ensures !Before(b, a)
  {
    if Before(b, a) {
      BeforeTransitive(a, b, a);
      LexIrreflexive(a.name);
      assert false;
    }
  }

  ghost predicate Ranked<T>(rows: seq<T>, rank: T -> Rank)
  {
    forall i, j :: 0 <= i < j < |rows| ==> Before(rank(rows[i]), rank(rows[j]))
  }

  function Insert<T>(rows: seq<T>, row: T, rank: T -> Rank): seq<T>
  {
    if rows == [] || Before(rank(row), rank(rows[0])) then [row] + rows
    else [rows[0]] + Insert(rows[1..], row, rank)
  }

  lemma {:induction false} InsertMember<T>(rows: seq<T>, row: T, rank: T -> Rank)
    ensures multiset(Insert(rows, row, rank)) == multiset(rows) + multiset{row}
  {
    if rows == [] || Before(rank(row), rank(rows[0])) {
    } else {
      InsertMember(rows[1..], row, rank);
      assert rows == [rows[0]] + rows[1..];
    }
  }

  lemma {:induction false} InsertRanked<T>(rows: seq<T>, row: T, rank: T -> Rank)
    requires Ranked(rows, rank)
    requires forall i :: 0 <= i < |rows| ==> rank(rows[i]) != rank(row)
    ensures Ranked(Insert(rows, row, rank), rank)
  {
    if rows == [] {
    } else if Before(rank(row), rank(rows[0])) {
      forall j | 0 < j < |rows| ensures Before(rank(row), rank(rows[j])) {
        BeforeTransitive(rank(row), rank(rows[0]), rank(rows[j]));
      }
    } else {
      var rest := Insert(rows[1..], row, rank);
      InsertRanked(rows[1..], row, rank);
      InsertMember(rows[1..], row, rank);
      BeforeTotal(rank(row), rank(rows[0]));
      forall j | 0 <= j < |rest| ensures Before(rank(rows[0]), rank(rest[j])) {
        assert rest[j] in multiset(rest);
        if rest[j] != row {
          assert rest[j] in rows[1..];
        }
      }
    }
  }

  /** Sorting rows whose ranks are all different. */
  method Sort<T(!new)>(rows: seq<T>, rank: T -> Rank) returns (sorted: seq<T>)
    requires forall i, j :: 0 <= i < j < |rows| ==> rank(rows[i]) != rank(rows[j])
    ensures Ranked(sorted, rank) && multiset(sorted) == multiset(rows)
  {
    sorted := [];
    for i := 0 to |rows|
      invariant Ranked(sorted, rank) && multiset(sorted) == multiset(rows[..i])
    {
      forall k | 0 <= k < |sorted| ensures rank(sorted[k]) != rank(rows[i]) {
        assert sorted[k] in multiset(sorted);
        assert sorted[k] in rows[..i];
      }
      InsertRanked(sorted, rows[i], rank);
      InsertMember(sorted, rows[i], rank);
      assert rows[..i + 1] == rows[..i] + [rows[i]];
      sorted := Insert(sorted, rows[i], rank);
    }
    assert rows[..|rows|] == rows;
  }

  /** Whatever order the rows came in, their ranking is the same. */
  lemma {:induction false} RankingIsUnique<T>(a: seq<T>, b: seq<T>, rank: T -> Rank)
    requires Ranked(a, rank) && Ranked(b, rank)
    requires forall x :: x in a <==> x in b
    ensures a == b
  {
    assert (a != [] ==> a[0] in a) && (b != [] ==> b[0] in b);
    if a != [] && b != [] {
      var i :| 0 <= i < |b| && b[i] == a[0];
      var j :| 0 <= j < |a| && a[j] == b[0];
      if i > 0 && j > 0 { BeforeAsymmetric(rank(a[0]), rank(b[0])); assert false; }
      assert a[0] == b[0];
      RankedHead(a, rank);
      RankedHead(b, rank);
      forall x ensures x in a[1..] <==> x in b[1..] {
        assert x in a <==> x == a[0] || x in a[1..] by { assert a == [a[0]] + a[1..]; }
        assert x in b <==> x == b[0] || x in b[1..] by { assert b == [b[0]] + b[1..]; }
      }
      RankingIsUnique(a[1..], b[1..], rank);
      assert a == [a[0]] + a[1..] && b == [b[0]] + b[1..];
    }
  }

  lemma {:induction false} RankedHead<T>(a: seq<T>, rank: T -> Rank)
    requires a != [] && Ranked(a, rank)
    ensures a[0] !in a[1..] && Ranked(a[1..], rank)
  {
    forall k | 1 <= k < |a| ensures a[k] != a[0] {
      if a[k] == a[0] { BeforeAsymmetric(rank(a[0]), rank(a[k])); assert false; }
    }
  }

  /** `a` is a proper beginning of `b`, or has the smaller byte where they first differ. */
  predicate FirstDiffers(a: Bytes, b: Bytes, k: nat)
  {
    k <= |a| && k < |b| && (forall j :: 0 <= j < k ==> a[j] == b[j]) && (k == |a| || a[k] < b[k])
  }

  lemma {:induction false} LexMeaning(a: Bytes, b: Bytes)
    ensures LexLess(a, b) <==> exists k: nat :: FirstDiffers(a, b, k)
  {
    if a != [] && b != [] && a[0] == b[0] {
      LexMeaning(a[1..], b[1..]);
      forall k: nat ensures FirstDiffers(a[1..], b[1..], k) <==> FirstDiffers(a, b, k + 1) {
        DiffersLater(a, b, k);
      }
      if LexLess(a, b) {
        var k: nat :| FirstDiffers(a[1..], b[1..], k);
        assert FirstDiffers(a, b, k + 1);
      }
      if k: nat :| FirstDiffers(a, b, k) { assert FirstDiffers(a[1..], b[1..], k - 1); }
    } else if LexLess(a, b) {
      assert FirstDiffers(a, b, 0);
    }
  }

  lemma {:induction false} DiffersLater(a: Bytes, b: Bytes, k: nat)
    requires a != [] && b != [] && a[0] == b[0]
    ensures FirstDiffers(a[1..], b[1..], k) <==> FirstDiffers(a, b, k + 1)
  {
    if FirstDiffers(a[1..], b[1..], k) {
      forall j | 0 <= j < k + 1 ensures a[j] == b[j] { assert j > 0 ==> a[1..][j - 1] == b[1..][j - 1]; }
    }
  }

  /** In a ranking the first keys descend; rows of the same first key have descending
      second keys, and rows of the same keys have ascending names. */
  lemma {:induction false} RankedDescends<T>(rows: seq<T>, rank: T -> Rank, i: nat, j: nat)
    requires Ranked(rows, rank) && i < j < |rows|
    ensures var a, b := rank(rows[i]), rank(rows[j]);
      && a.primary >= b.primary
      && (a.primary == b.primary ==> a.secondary >= b.secondary)
      && (a.primary == b.primary && a.secondary == b.secondary ==> exists k: nat :: FirstDiffers(a.name, b.name, k))
  {
    LexMeaning(rank(rows[i]).name, rank(rows[j]).name);
  }
}
