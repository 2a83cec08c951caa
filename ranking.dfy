/** Ordering a generation by fitness: the ranking `sorted(range(n),
    key=lambda i: fitnesses[i], reverse=True)` that picks the elites, and the
    argmax `max(range(n), key=lambda i: fitnesses[i])` that picks the
    individual recorded in the history. */
module Ranking {

  /** Index `i` comes before index `j` in the descending ranking. Python's sort
      is stable even with `reverse=True`, so indices of equal fitness keep
      their ascending order. */
  predicate Precedes(fit: seq<real>, i: nat, j: nat) {
    && i < |fit|
    && j < |fit|
    && (fit[i] > fit[j] || (fit[i] == fit[j] && i < j))
  }

  /** `r` lists indices of `fit` in strictly `Precedes` order (so without
      repetition). */
  predicate SortedBy(fit: seq<real>, r: seq<nat>) {
    && (forall a :: 0 <= a < |r| ==> r[a] < |fit|)
    && (forall a, b :: 0 <= a < b < |r| ==> Precedes(fit, r[a], r[b]))
  }

  /** `r` is the result of the stable descending sort of `range(len(fit))`:
      every index exactly once, in `Precedes` order. */
  predicate IsRanking(fit: seq<real>, r: seq<nat>) {
    && |r| == |fit|
    && SortedBy(fit, r)
    && (forall i :: 0 <= i < |fit| ==> i in r)
  }

  /** Inserts the index `x` at its place in the ranked indices `r`. */
  function Insert(fit: seq<real>, x: nat, r: seq<nat>): (s: seq<nat>)
    requires x < |fit| && x !in r && SortedBy(fit, r)
    ensures |s| == |r| + 1
    ensures forall y :: y in s <==> y == x || y in r
    ensures SortedBy(fit, s)
  {
    if r == [] then [x]
    else if Precedes(fit, x, r[0]) then [x] + r
    else
      assert SortedBy(fit, r[1..]) by {
        forall a, b | 0 <= a < b < |r[1..]|
          ensures Precedes(fit, r[1..][a], r[1..][b])
        {
          assert r[1..][a] == r[a + 1] && r[1..][b] == r[b + 1];
        }
      }
      var rest := Insert(fit, x, r[1..]);
      assert forall b :: 0 <= b < |rest| ==> Precedes(fit, r[0], rest[b]) by {
        forall b | 0 <= b < |rest|
          ensures Precedes(fit, r[0], rest[b])
        {
          assert rest[b] in rest;
          if rest[b] != x {
            assert rest[b] in r[1..];
            var c :| 0 <= c < |r[1..]| && r[1..][c] == rest[b];
            assert r[c + 1] == rest[b];
          }
        }
      }
      [r[0]] + rest
  }

  /** The ranking of the indices `0 .. n-1`. */
  function RankPrefix(fit: seq<real>, n: nat): (r: seq<nat>)
    requires n <= |fit|
    ensures |r| == n
    ensures SortedBy(fit, r)
    ensures forall y :: y in r <==> 0 <= y < n
  {
    if n == 0 then []
    else
      var r := RankPrefix(fit, n - 1);
      var s := Insert(fit, n - 1, r);
      assert forall y :: y in s <==> 0 <= y < n by {
        forall y
          ensures y in s <==> 0 <= y < n
        {
          assert y in s <==> y == n - 1 || y in r;
        }
      }
      s
  }

  /** `sorted(range(len(fit)), key=lambda i: fit[i], reverse=True)`. */
  function RankByFitness(fit: seq<real>): (r: seq<nat>)
    ensures IsRanking(fit, r)
  {
    RankPrefix(fit, |fit|)
  }

  /** Two index lists sorted by `Precedes` with the same members are equal. */
  lemma {:induction false} SortedUnique(fit: seq<real>, r1: seq<nat>, r2: seq<nat>)
    requires SortedBy(fit, r1) && SortedBy(fit, r2)
    requires forall y :: y in r1 <==> y in r2
    ensures r1 == r2
  {
    assert r2 != [] ==> r2[0] in r2;
    if r1 == [] {
    } else {
      assert r1[0] in r1;
      assert r2 != [];
      assert r2[0] in r2;
      if r1[0] != r2[0] {
        assert false;
      }
      forall y
        ensures y in r1[1..] <==> y in r2[1..]
      {
        if y in r1[1..] {
          var a :| 0 <= a < |r1[1..]| && r1[1..][a] == y;
          assert r1[a + 1] == y && Precedes(fit, r1[0], y);
          assert y in r2;
          var b :| 0 <= b < |r2| && r2[b] == y;
          assert b != 0;
          assert r2[1..][b - 1] == y;
        }
        if y in r2[1..] {
          var b :| 0 <= b < |r2[1..]| && r2[1..][b] == y;
          assert r2[b + 1] == y && Precedes(fit, r2[0], y);
          assert y in r1;
          var a :| 0 <= a < |r1| && r1[a] == y;
          assert a != 0;
          assert r1[1..][a - 1] == y;
        }
      }
      SortedTail(fit, r1);
      SortedTail(fit, r2);
      SortedUnique(fit, r1[1..], r2[1..]);
      assert r1 == [r1[0]] + r1[1..];
      assert r2 == [r2[0]] + r2[1..];
    }
  }

  lemma SortedTail(fit: seq<real>, r: seq<nat>)
    requires SortedBy(fit, r) && r != []
    ensures SortedBy(fit, r[1..])
  {
  }

  /** The ranking is unique: any stable descending sort of the indices
      yields `RankByFitness(fit)`. */
  lemma RankingUnique(fit: seq<real>, r: seq<nat>)
    requires IsRanking(fit, r)
    ensures r == RankByFitness(fit)
  {
    var s := RankByFitness(fit);
    forall y
      ensures y in r <==> y in s
    {
      if y in r {
        var a :| 0 <= a < |r| && r[a] == y;
      }
      if y in s {
        var a :| 0 <= a < |s| && s[a] == y;
      }
    }
    SortedUnique(fit, r, s);
  }

  /** `max(range(len(fit)), key=lambda i: fit[i])`: Python's `max` scans left
      to right and replaces its candidate only on a strictly greater key, so
      the result is the first index of greatest fitness. Python raises
      `ValueError` on an empty range. */
  function FirstArgMax(fit: seq<real>): (m: nat)
    requires |fit| > 0
    ensures m < |fit|
    ensures forall j :: 0 <= j < |fit| ==> fit[j] <= fit[m]
    ensures forall j :: 0 <= j < m ==> fit[j] < fit[m]
  {
    if |fit| == 1 then 0
    else
      var m := FirstArgMax(fit[..|fit| - 1]);
      assert forall j :: 0 <= j < |fit| - 1 ==> fit[..|fit| - 1][j] == fit[j];
      if fit[|fit| - 1] > fit[m] then |fit| - 1 else m
  }

  /** The greatest fitness of a non-empty generation. */
  function MaxFitness(fit: seq<real>): (r: real)
    requires |fit| > 0
    ensures r in fit
    ensures forall j :: 0 <= j < |fit| ==> fit[j] <= r
  {
    fit[FirstArgMax(fit)]
  }

  /** The head of the ranking is the first index of greatest fitness, the
      same individual `max` picks. */
  lemma RankHeadIsFirstArgMax(fit: seq<real>, r: seq<nat>)
    requires |fit| > 0
    requires IsRanking(fit, r)
    ensures r[0] == FirstArgMax(fit)
  {
    var m := FirstArgMax(fit);
    assert m in r;
    var p :| 0 <= p < |r| && r[p] == m;
    assert p == 0 || Precedes(fit, r[0], r[p]);
  }

  /** The first `e` ranked indices are the `e` best: no index outside them
      has greater fitness than any of them, and among them fitness does not
      increase. */
  lemma {:induction false} ElitesAreBest(fit: seq<real>, r: seq<nat>, e: nat)
    requires IsRanking(fit, r)
    requires e <= |r|
    ensures forall a, b :: 0 <= a < b < e ==> fit[r[b]] <= fit[r[a]]
    ensures forall a, j :: 0 <= a < e && 0 <= j < |fit| && j !in r[..e] ==> fit[j] <= fit[r[a]]
  {
    forall a, j | 0 <= a < e && 0 <= j < |fit| && j !in r[..e]
      ensures fit[j] <= fit[r[a]]
    {
      assert j in r;
      var p :| 0 <= p < |r| && r[p] == j;
      if p < e {
        assert false;
      }
      assert Precedes(fit, r[a], r[p]);
    }
  }
}
