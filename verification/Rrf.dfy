/** Reciprocal rank fusion of ranked id lists. */
module Rrf {
  import opened Basics
  import opened Ranking

  /** What the entry at index `i` contributes; ranks are 1-based. */
  function Contribution(k: nat, i: nat): real {
    1.0 / (k as real + (i + 1) as real)
  }

  /** The accumulated score of `id` over one list, repeats included. */
  function ScoreIn(list: seq<Id>, id: Id, k: nat): real {
    if list == [] then 0.0
    else
      var n := |list| - 1;
      ScoreIn(list[..n], id, k) + if list[n] == id then Contribution(k, n) else 0.0
  }

  function ScoreOf(lists: seq<seq<Id>>, id: Id, k: nat): real {
    if lists == [] then 0.0
    else ScoreOf(lists[..|lists| - 1], id, k) + ScoreIn(lists[|lists| - 1], id, k)
  }

  ghost predicate Listed(lists: seq<seq<Id>>, id: Id) {
    exists l :: l in lists && id in l
  }

  /** `results` is the fusion of `lists`: each listed id once, with its score, best first. */
  ghost predicate IsFusion(lists: seq<seq<Id>>, k: nat, results: seq<(Id, real)>) {
    && DistinctIds(results)
    && (forall id :: Listed(lists, id) <==> exists i :: 0 <= i < |results| && results[i].0 == id)
    && (forall i :: 0 <= i < |results| ==> results[i].1 == ScoreOf(lists, results[i].0, k))
    && Descending(Keys(results, PairScore))
  }

  // ----- the accumulation -----

  /** The score map of some lists. */
  ghost predicate Accumulated(lists: seq<seq<Id>>, k: nat, scores: map<Id, real>) {
    && (forall id :: id in scores <==> Listed(lists, id))
    && (forall id :: id in scores ==> scores[id] == ScoreOf(lists, id, k))
  }

  lemma {:induction false} ScoreInAbsent(list: seq<Id>, id: Id, k: nat)
    requires id !in list
    ensures ScoreIn(list, id, k) == 0.0
  {
    if list != [] {
      var n := |list| - 1;
      assert list[n] in list;
      assert forall x :: x in list[..n] ==> x in list;
      ScoreInAbsent(list[..n], id, k);
    }
  }

  lemma {:induction false} ScoreOfAbsent(lists: seq<seq<Id>>, id: Id, k: nat)
    requires !Listed(lists, id)
    ensures ScoreOf(lists, id, k) == 0.0
  {
    if lists != [] {
      var n := |lists| - 1;
      assert lists[n] in lists;
      assert forall l :: l in lists[..n] ==> l in lists;
      ScoreOfAbsent(lists[..n], id, k);
      ScoreInAbsent(lists[n], id, k);
    }
  }

  /** One more entry of the last list. */
  lemma AccumulateOne(done: seq<seq<Id>>, list: seq<Id>, i: nat, k: nat, scores: map<Id, real>)
    requires i < |list| && Accumulated(done + [list[..i]], k, scores)
    ensures var id := list[i];
      Accumulated(done + [list[..i + 1]], k,
        scores[id := (if id in scores then scores[id] else 0.0) + Contribution(k, i)])
  {
    hide Contribution;
    var a, b := done + [list[..i]], done + [list[..i + 1]];
    var x := list[i];
    assert a[..|done|] == done && b[..|done|] == done;
    assert list[..i + 1][..i] == list[..i];
    forall id ensures ScoreOf(b, id, k) == ScoreOf(a, id, k) + if id == x then Contribution(k, i) else 0.0 {}
    forall id ensures Listed(b, id) <==> id == x || Listed(a, id) {
      ListedLast(done, list[..i], id);
      ListedLast(done, list[..i + 1], id);
    }
    if x !in scores {
      ScoreOfAbsent(a, x, k);
    }
  }

  lemma ListedLast(done: seq<seq<Id>>, last: seq<Id>, id: Id)
    ensures Listed(done + [last], id) <==> Listed(done, id) || id in last
  {
    if Listed(done, id) {
      var l :| l in done && id in l;
      assert l in done + [last];
    }
    if id in last {
      assert last in done + [last];
    }
  }

  /** An empty list adds nothing. */
  lemma AccumulateEmpty(done: seq<seq<Id>>, k: nat, scores: map<Id, real>)
    requires Accumulated(done, k, scores)
    ensures Accumulated(done + [[]], k, scores)
  {
    assert (done + [[]])[..|done|] == done;
    forall id: Id ensures ScoreOf(done + [[]], id, k) == ScoreOf(done, id, k) && (Listed(done + [[]], id) <==> Listed(done, id)) {
      ListedLast(done, [], id);
    }
  }

  method AccumulateList(scores: map<Id, real>, list: seq<Id>, k: nat, ghost done: seq<seq<Id>>)
    returns (r: map<Id, real>)
    requires Accumulated(done, k, scores)
    ensures Accumulated(done + [list], k, r)
  {
    hide Accumulated, Contribution;
    r := scores;
    AccumulateEmpty(done, k, r);
    assert list[..0] == [];
    for i := 0 to |list|
      invariant Accumulated(done + [list[..i]], k, r)
    {
      AccumulateOne(done, list, i, k, r);
      var id := list[i];
      r := r[id := (if id in r then r[id] else 0.0) + Contribution(k, i)];
    }
    assert list[..|list|] == list;
  }

  lemma SortedFusion(lists: seq<seq<Id>>, k: nat, scores: map<Id, real>, pairs: seq<(Id, real)>)
    requires Accumulated(lists, k, scores) && DistinctIds(pairs)
    requires forall p :: p in pairs <==> p.0 in scores && scores[p.0] == p.1
    ensures IsFusion(lists, k, SortDesc(pairs, PairScore))
  {
    var r := SortDesc(pairs, PairScore);
    SortDescSorted(pairs, PairScore);
    forall p ensures p in r <==> p in pairs {
      assert p in r <==> p in multiset(r);
      assert p in pairs <==> p in multiset(pairs);
    }
    DistinctPermutation(pairs, r);
    forall id ensures Listed(lists, id) <==> exists i :: 0 <= i < |r| && r[i].0 == id {
      if id in scores {
        assert (id, scores[id]) in r;
      }
      if i :| 0 <= i < |r| && r[i].0 == id {
        assert r[i] in r;
      }
    }
    forall i | 0 <= i < |r| ensures r[i].1 == ScoreOf(lists, r[i].0, k) {
      assert r[i] in r;
    }
  }

  function IdsOf(results: seq<(Id, real)>): (r: seq<Id>)
    ensures |r| == |results|
  {
    seq(|results|, i requires 0 <= i < |results| => results[i].0)
  }

  method MergeRrf(dense: seq<(Id, real)>, sparse: seq<(Id, real)>, k: nat) returns (results: seq<(Id, real)>)
    ensures IsFusion([IdsOf(dense), IdsOf(sparse)], k, results)
  {
    hide Accumulated, IsFusion;
    var scores: map<Id, real> := map[];
    NothingAccumulated(k);
    scores := AccumulateList(scores, IdsOf(dense), k, []);
    assert [] + [IdsOf(dense)] == [IdsOf(dense)];
    scores := AccumulateList(scores, IdsOf(sparse), k, [IdsOf(dense)]);
    var pairs := Drain(scores);
    assert [IdsOf(dense)] + [IdsOf(sparse)] == [IdsOf(dense), IdsOf(sparse)];
    SortedFusion([IdsOf(dense), IdsOf(sparse)], k, scores, pairs);
    results := SortDesc(pairs, PairScore);
  }

  lemma NothingAccumulated(k: nat)
    ensures Accumulated([], k, map[])
  {}

  // ----- conservation -----

  ghost function Total(n: nat, k: nat): real {
    if n == 0 then 0.0 else Total(n - 1, k) + Contribution(k, n - 1)
  }

  ghost function TotalOf(lists: seq<seq<Id>>, k: nat): real {
    if lists == [] then 0.0 else TotalOf(lists[..|lists| - 1], k) + Total(|lists[|lists| - 1]|, k)
  }

  ghost function SumScores(results: seq<(Id, real)>): real {
    if results == [] then 0.0 else SumScores(results[..|results| - 1]) + results[|results| - 1].1
  }

  ghost function SumOver(ids: seq<Id>, lists: seq<seq<Id>>, k: nat): real {
    if ids == [] then 0.0 else SumOver(ids[..|ids| - 1], lists, k) + ScoreOf(lists, ids[|ids| - 1], k)
  }

  ghost function SumIn(ids: seq<Id>, list: seq<Id>, k: nat): real {
    if ids == [] then 0.0 else SumIn(ids[..|ids| - 1], list, k) + ScoreIn(list, ids[|ids| - 1], k)
  }

  lemma {:induction false} SumInEmpty(ids: seq<Id>, k: nat)
    ensures SumIn(ids, [], k) == 0.0
  {
    if ids != [] { SumInEmpty(ids[..|ids| - 1], k); }
  }

  /** Growing a list by `x` adds one contribution to the sum over ids that hold `x` once, and
      nothing to a sum over ids without `x`. */
  lemma {:induction false} SumInGrows(ids: seq<Id>, list: seq<Id>, k: nat)
    requires Distinct(ids) && list != []
    ensures var n := |list| - 1;
      SumIn(ids, list, k) == SumIn(ids, list[..n], k) + if list[n] in ids then Contribution(k, n) else 0.0
  {
    hide Contribution;
    if ids != [] {
      var m := |ids| - 1;
      assert ids == ids[..m] + [ids[m]];
      SumInGrows(ids[..m], list, k);
      assert ids[m] !in ids[..m];
    }
  }

  lemma {:induction false} SumInTotal(ids: seq<Id>, list: seq<Id>, k: nat)
    requires Distinct(ids) && forall x :: x in list ==> x in ids
    ensures SumIn(ids, list, k) == Total(|list|, k)
    decreases |list|
  {
    hide Contribution;
    if list == [] {
      SumInEmpty(ids, k);
    } else {
      var n := |list| - 1;
      assert list[n] in list;
      assert forall x :: x in list[..n] ==> x in list;
      SumInTotal(ids, list[..n], k);
      SumInGrows(ids, list, k);
    }
  }

  lemma {:induction false} SumOverSplits(ids: seq<Id>, lists: seq<seq<Id>>, k: nat)
    requires lists != []
    ensures var n := |lists| - 1; SumOver(ids, lists, k) == SumOver(ids, lists[..n], k) + SumIn(ids, lists[n], k)
  {
    if ids != [] { SumOverSplits(ids[..|ids| - 1], lists, k); }
  }

  lemma {:induction false} SumOverNothing(ids: seq<Id>, k: nat)
    ensures SumOver(ids, [], k) == 0.0
  {
    if ids != [] { SumOverNothing(ids[..|ids| - 1], k); }
  }

  lemma {:induction false} SumOverTotal(ids: seq<Id>, lists: seq<seq<Id>>, k: nat)
    requires Distinct(ids) && forall id :: Listed(lists, id) ==> id in ids
    ensures SumOver(ids, lists, k) == TotalOf(lists, k)
    decreases |lists|
  {
    if lists == [] {
      SumOverNothing(ids, k);
    } else {
      var n := |lists| - 1;
      assert lists == lists[..n] + [lists[n]];
      forall id | Listed(lists[..n], id) || id in lists[n] ensures id in ids {
        ListedLast(lists[..n], lists[n], id);
      }
      SumOverTotal(ids, lists[..n], k);
      SumOverSplits(ids, lists, k);
      SumInTotal(ids, lists[n], k);
    }
  }

  lemma {:induction false} SumScoresOver(results: seq<(Id, real)>, lists: seq<seq<Id>>, k: nat)
    requires forall i :: 0 <= i < |results| ==> results[i].1 == ScoreOf(lists, results[i].0, k)
    ensures SumScores(results) == SumOver(IdsOf(results), lists, k)
  {
    if results != [] {
      var n := |results| - 1;
      SumScoresOver(results[..n], lists, k);
      assert IdsOf(results)[..n] == IdsOf(results[..n]);
    }
  }

  /** The scores of a fusion add up to the contributions of all ranks of all lists. */
  lemma MassConserved(lists: seq<seq<Id>>, k: nat, results: seq<(Id, real)>)
    requires IsFusion(lists, k, results)
    ensures SumScores(results) == TotalOf(lists, k)
  {
    var ids := IdsOf(results);
    SumScoresOver(results, lists, k);
    forall id | Listed(lists, id) ensures id in ids {
      var i :| 0 <= i < |results| && results[i].0 == id;
      assert ids[i] == id;
    }
    SumOverTotal(ids, lists, k);
  }

  /** Swapping the two lists changes nothing but, possibly, the order of ties. */
  lemma FusionSymmetric(a: seq<Id>, b: seq<Id>, k: nat, results: seq<(Id, real)>)
    ensures IsFusion([a, b], k, results) <==> IsFusion([b, a], k, results)
  {
    forall id ensures ScoreOf([a, b], id, k) == ScoreOf([b, a], id, k) && (Listed([a, b], id) <==> Listed([b, a], id)) {
      PairScoreOf(a, b, id, k);
      PairScoreOf(b, a, id, k);
    }
  }

  lemma PairScoreOf(a: seq<Id>, b: seq<Id>, id: Id, k: nat)
    ensures ScoreOf([a, b], id, k) == ScoreIn(a, id, k) + ScoreIn(b, id, k)
    ensures Listed([a, b], id) <==> id in a || id in b
  {
    assert [a, b][..1] == [a] && [a][..0] == [];
    assert ScoreOf([a], id, k) == ScoreIn(a, id, k);
    if id in a { assert a in [a, b]; }
    if id in b { assert b in [a, b]; }
  }

  // ----- the threshold -----

  lemma {:induction false} ScoreInAt(list: seq<Id>, i: nat, k: nat)
    requires Distinct(list) && i < |list|
    ensures ScoreIn(list, list[i], k) == Contribution(k, i)
    decreases |list|
  {
    hide Contribution;
    var n := |list| - 1;
    if i == n {
      ScoreInAbsent(list[..n], list[n], k);
    } else {
      ScoreInAt(list[..n], i, k);
    }
  }

  lemma ContributionBounds(k: nat, i: nat, j: nat)
    ensures i <= k ==> 2.0 * Contribution(k, i) > Contribution(k, j)
    ensures i == k + 1 && j == 0 ==> 2.0 * Contribution(k, i) == Contribution(k, j)
  {
    var p, q := k as real + (i + 1) as real, k as real + (j + 1) as real;
    InverseOrder(p, q);
  }

  lemma InverseOrder(p: real, q: real)
    requires p > 0.0 && q > 0.0
    ensures p < 2.0 * q ==> 2.0 * (1.0 / p) > 1.0 / q
    ensures p == 2.0 * q ==> 2.0 * (1.0 / p) == 1.0 / q
  {
    var a, b := 1.0 / p, 1.0 / q;
    assert a * p == 1.0 && b * q == 1.0 && a > 0.0 && b > 0.0;
    assert p < 2.0 * q ==> a * (2.0 * q - p) > 0.0;
    assert 2.0 * a <= b ==> b * q >= 2.0 * a * q;
    if p == 2.0 * q {
      assert a * (2.0 * q) == 1.0;
      assert (2.0 * a - b) * q == 0.0;
    }
  }

  /** The share of an id that is listed once, at index `i`, is one over `k` plus its 1-based rank. */
  lemma ShareIs(list: seq<Id>, id: Id, k: nat)
    requires Distinct(list)
    ensures id !in list ==> ScoreIn(list, id, k) == 0.0
    ensures forall i :: 0 <= i < |list| && list[i] == id ==> ScoreIn(list, id, k) == 1.0 / (k + i + 1) as real
  {
    if id !in list { ScoreInAbsent(list, id, k); }
    forall i | 0 <= i < |list| && list[i] == id ensures ScoreIn(list, id, k) == 1.0 / (k + i + 1) as real {
      ScoreInAt(list, i, k);
      assert k as real + (i + 1) as real == (k + i + 1) as real;
    }
  }

  /** A fusion of two lists without repeats, entry by entry: an id's shares from the lists that
      have it, never rising. */
  lemma FusionScores(a: seq<Id>, b: seq<Id>, k: nat, results: seq<(Id, real)>)
    requires Distinct(a) && Distinct(b) && IsFusion([a, b], k, results)
    ensures forall i, j :: 0 <= i < j < |results| ==> results[i].0 != results[j].0 && results[i].1 >= results[j].1
    ensures forall id :: (exists i :: 0 <= i < |results| && results[i].0 == id) <==> id in a || id in b
    ensures forall i, m, n :: 0 <= i < |results| && 0 <= m < |a| && 0 <= n < |b| && a[m] == b[n] == results[i].0 ==>
      results[i].1 == 1.0 / (k + m + 1) as real + 1.0 / (k + n + 1) as real
    ensures forall i, m :: 0 <= i < |results| && 0 <= m < |a| && a[m] == results[i].0 && results[i].0 !in b ==>
      results[i].1 == 1.0 / (k + m + 1) as real
    ensures forall i, n :: 0 <= i < |results| && 0 <= n < |b| && b[n] == results[i].0 && results[i].0 !in a ==>
      results[i].1 == 1.0 / (k + n + 1) as real
  {
    forall i | 0 <= i < |results|
      ensures results[i].1 == ScoreIn(a, results[i].0, k) + ScoreIn(b, results[i].0, k)
    {
      PairScoreOf(a, b, results[i].0, k);
    }
    forall id: Id ensures Listed([a, b], id) <==> id in a || id in b { PairScoreOf(a, b, id, k); }
    forall i | 0 <= i < |results|
      ensures results[i].0 !in a ==> ScoreIn(a, results[i].0, k) == 0.0
      ensures results[i].0 !in b ==> ScoreIn(b, results[i].0, k) == 0.0
      ensures forall m :: 0 <= m < |a| && a[m] == results[i].0 ==> ScoreIn(a, results[i].0, k) == 1.0 / (k + m + 1) as real
      ensures forall n :: 0 <= n < |b| && b[n] == results[i].0 ==> ScoreIn(b, results[i].0, k) == 1.0 / (k + n + 1) as real
    {
      ShareIs(a, results[i].0, k);
      ShareIs(b, results[i].0, k);
    }
    var ks := Keys(results, PairScore);
    forall i, j | 0 <= i < j < |results| ensures results[i].1 >= results[j].1 {
      assert AtLeast(ks[i], ks[j]);
    }
    hide ScoreOf, ScoreIn, Distinct, Descending;
  }

  /** An id within the first K + 1 ranks of both lists outscores every id found in only one. */
  lemma BothBeatOne(a: seq<Id>, b: seq<Id>, k: nat, i: nat, j: nat, y: Id)
    requires Distinct(a) && Distinct(b)
    requires i < |a| && j < |b| && a[i] == b[j] && i <= k && j <= k
    requires y in a <==> y !in b
    ensures ScoreOf([a, b], a[i], k) > ScoreOf([a, b], y, k)
  {
    hide Contribution;
    PairScoreOf(a, b, a[i], k);
    PairScoreOf(a, b, y, k);
    ScoreInAt(a, i, k);
    ScoreInAt(b, j, k);
    var l := if y in a then a else b;
    var m :| 0 <= m < |l| && l[m] == y;
    ScoreInAt(l, m, k);
    ScoreInAbsent(if y in a then b else a, y, k);
    ContributionBounds(k, i, m);
    ContributionBounds(k, j, m);
  }

  /** K + 1 is tight: at rank K + 2 in both lists an id only ties with the top of one list. */
  lemma ThresholdTight(a: seq<Id>, b: seq<Id>, k: nat)
    requires Distinct(a) && Distinct(b) && k + 1 < |a| && k + 1 < |b|
    requires a[k + 1] == b[k + 1] && a[0] !in b
    ensures ScoreOf([a, b], a[k + 1], k) == ScoreOf([a, b], a[0], k)
  {
    hide Contribution;
    PairScoreOf(a, b, a[k + 1], k);
    PairScoreOf(a, b, a[0], k);
    ScoreInAt(a, k + 1, k);
    ScoreInAt(b, k + 1, k);
    ScoreInAt(a, 0, k);
    ScoreInAbsent(b, a[0], k);
    ContributionBounds(k, k + 1, 0);
  }
}
