/** The bookkeeping around the approximate nearest-neighbour graph: id maps, tombstones, search
    filtering and the exact-scan fallback. The graph itself is an arbitrary walk result. */
module Hnsw {
  import opened Basics
  import opened Ranking

  type Vector = seq<real>

  const SCAN_FALLBACK_MAX_ELEMENTS: nat := 1024

  datatype IndexState = IndexState(idToIdx: map<Id, nat>, idxToId: map<nat, Id>, nextIdx: nat,
                                   tombstones: set<Id>, tombstoneCount: nat, points: seq<(Vector, nat)>)

  const EMPTY: IndexState := IndexState(map[], map[], 0, {}, 0, [])

  function Place(s: IndexState, id: Id, v: Vector): IndexState {
    s.(idToIdx := s.idToIdx[id := s.nextIdx], idxToId := s.idxToId[s.nextIdx := id],
      nextIdx := s.nextIdx + 1, points := s.points + [(v, s.nextIdx)])
  }

  /** An id that is already mapped is skipped, tombstoned or not. */
  function InsertInto(s: IndexState, id: Id, v: Vector): IndexState {
    if id in s.idToIdx then s else Place(s, id, v)
  }

  function RemoveFrom(s: IndexState, id: Id): IndexState {
    if id !in s.idToIdx || id in s.tombstones then s
    else s.(tombstones := s.tombstones + {id}, tombstoneCount := s.tombstoneCount + 1)
  }

  /** Rebuilding inserts without looking for duplicates. */
  function Rebuilt(live: seq<(Id, Vector)>): IndexState {
    if live == [] then EMPTY
    else
      var n := |live| - 1;
      Place(Rebuilt(live[..n]), live[n].0, live[n].1)
  }

  /** The id maps are inverse bijections with the slots below `nextIdx`, tombstones are mapped
      ids and counted, and every slot has its point. */
  ghost predicate Consistent(s: IndexState) {
    && (forall id :: id in s.idToIdx ==> s.idToIdx[id] in s.idxToId && s.idxToId[s.idToIdx[id]] == id)
    && (forall i :: i in s.idxToId ==> s.idxToId[i] in s.idToIdx && s.idToIdx[s.idxToId[i]] == i)
    && (forall i: nat :: i in s.idxToId <==> i < s.nextIdx)
    && s.tombstones <= s.idToIdx.Keys && s.tombstoneCount == |s.tombstones|
    && |s.points| == s.nextIdx && forall j :: 0 <= j < |s.points| ==> s.points[j].1 == j
  }

  lemma {:induction false} UpdatesConsistent(s: IndexState, id: Id, v: Vector)
    requires Consistent(s)
    ensures Consistent(InsertInto(s, id, v)) && Consistent(RemoveFrom(s, id))
  {}

  ghost predicate DistinctLive(live: seq<(Id, Vector)>) {
    forall i, j :: 0 <= i < j < |live| ==> live[i].0 != live[j].0
  }

  /** The maps after rebuilding: slot `i` holds the `i`-th live entry. */
  ghost predicate Holds(s: IndexState, live: seq<(Id, Vector)>) {
    && s.nextIdx == |live| && |s.points| == |live| && s.tombstones == {} && s.tombstoneCount == 0
    && (forall i: nat :: i in s.idxToId <==> i < |live|)
    && (forall i :: 0 <= i < |live| ==> s.idxToId[i] == live[i].0 && s.points[i] == (live[i].1, i))
    && (forall id :: id in s.idToIdx ==> s.idToIdx[id] < |live| && live[s.idToIdx[id]].0 == id)
    && (forall i :: 0 <= i < |live| ==> live[i].0 in s.idToIdx)
  }

  lemma PlaceHolds(s: IndexState, live: seq<(Id, Vector)>, next: (Id, Vector))
    requires Holds(s, live)
    ensures Holds(Place(s, next.0, next.1), live + [next])
  {
    var r, all := Place(s, next.0, next.1), live + [next];
    forall i | 0 <= i < |all| ensures all[i].0 in r.idToIdx && r.idxToId[i] == all[i].0 && r.points[i] == (all[i].1, i) {
      if i < |live| { assert all[i] == live[i]; }
    }
    forall id | id in r.idToIdx ensures r.idToIdx[id] < |all| && all[r.idToIdx[id]].0 == id {
      if id != next.0 { assert id in s.idToIdx; }
    }
  }

  lemma {:induction false} RebuiltMaps(live: seq<(Id, Vector)>)
    ensures Holds(Rebuilt(live), live)
  {
    if live != [] {
      var n := |live| - 1;
      RebuiltMaps(live[..n]);
      assert live == live[..n] + [live[n]];
      hide Holds;
      PlaceHolds(Rebuilt(live[..n]), live[..n], live[n]);
    }
  }

  /** A rebuild leaves consistent maps exactly when its input lists no id twice. */
  lemma RebuildConsistentIff(live: seq<(Id, Vector)>)
    ensures Consistent(Rebuilt(live)) <==> DistinctLive(live)
  {
    RebuiltMaps(live);
    hide Rebuilt;
    var s := Rebuilt(live);
    if Consistent(s) {
      forall i, j | 0 <= i < j < |live| ensures live[i].0 != live[j].0 {
        assert s.idToIdx[s.idxToId[i]] == i && s.idToIdx[s.idxToId[j]] == j;
      }
    }
    if DistinctLive(live) {
      forall i | i in s.idxToId ensures s.idToIdx[s.idxToId[i]] == i {
        var k := s.idToIdx[live[i].0];
        assert live[k].0 == live[i].0;
      }
    }
  }

  // ----- search -----

  /** The ids a search may return. */
  ghost function LiveIds(s: IndexState): set<Id> {
    s.idToIdx.Keys - s.tombstones
  }

  function Live(s: IndexState): nat {
    if |s.idToIdx| <= s.tombstoneCount then 0 else |s.idToIdx| - s.tombstoneCount
  }

  lemma {:induction false} LiveCounts(s: IndexState)
    requires Consistent(s)
    ensures Live(s) == |LiveIds(s)|
  {
    assert s.idToIdx.Keys == LiveIds(s) + s.tombstones;
    assert |s.idToIdx.Keys| == |s.idToIdx|;
  }

  /** The slots of the walk that map to a live id, with similarity one minus distance. */
  function FilterWalk(s: IndexState, walk: seq<(nat, real)>): seq<(Id, real)> {
    if walk == [] then []
    else
      var n := |walk| - 1;
      var (idx, distance) := walk[n];
      FilterWalk(s, walk[..n]) + (
        if idx in s.idxToId && s.idxToId[idx] !in s.tombstones then [(s.idxToId[idx], 1.0 - distance)] else [])
  }

  /** Every live point with its exact similarity. */
  function ScanPoints(s: IndexState, points: seq<(Vector, nat)>, similarity: Vector -> real): seq<(Id, real)> {
    if points == [] then []
    else
      var n := |points| - 1;
      var (v, idx) := points[n];
      ScanPoints(s, points[..n], similarity) + (
        if idx in s.idxToId && s.idxToId[idx] !in s.tombstones then [(s.idxToId[idx], similarity(v))] else [])
  }

  ghost predicate DistinctSlots(walk: seq<(nat, real)>) {
    forall i, j :: 0 <= i < j < |walk| ==> walk[i].0 != walk[j].0
  }

  /** The `i`-th neighbour of the walk sits in a slot mapped to an id without a tombstone. */
  predicate Lives(s: IndexState, walk: seq<(nat, real)>, i: nat)
    requires i < |walk|
  {
    walk[i].0 in s.idxToId && s.idxToId[walk[i].0] !in s.tombstones
  }

  /** A neighbour of the walk as it is answered: its id, and one minus its distance. */
  ghost predicate Found(s: IndexState, walk: seq<(nat, real)>, p: (Id, real)) {
    exists i :: 0 <= i < |walk| && Lives(s, walk, i) && p == (s.idxToId[walk[i].0], 1.0 - walk[i].1)
  }

  lemma FilterLast(s: IndexState, head: seq<(nat, real)>, last: (nat, real))
    ensures FilterWalk(s, head + [last]) == FilterWalk(s, head) +
      (if last.0 in s.idxToId && s.idxToId[last.0] !in s.tombstones then [(s.idxToId[last.0], 1.0 - last.1)] else [])
  {
    assert (head + [last])[..|head|] == head;
  }

  lemma FoundLast(s: IndexState, head: seq<(nat, real)>, last: (nat, real), p: (Id, real))
    ensures Found(s, head + [last], p) <==> (Found(s, head, p) ||
      (last.0 in s.idxToId && s.idxToId[last.0] !in s.tombstones && p == (s.idxToId[last.0], 1.0 - last.1)))
  {
    var walk, n := head + [last], |head|;
    assert Lives(s, walk, n) <==> last.0 in s.idxToId && s.idxToId[last.0] !in s.tombstones;
    if i :| 0 <= i < n && Lives(s, head, i) && p == (s.idxToId[head[i].0], 1.0 - head[i].1) {
      assert Lives(s, walk, i);
    }
    if i :| 0 <= i < n && Lives(s, walk, i) && p == (s.idxToId[walk[i].0], 1.0 - walk[i].1) {
      assert Lives(s, head, i);
    }
  }

  /** Filtering keeps every neighbour of the walk whose slot is mapped to an id without a
      tombstone, under that id and with one minus its distance, and nothing else. */
  lemma {:induction false} FilterMeaning(s: IndexState, walk: seq<(nat, real)>, p: (Id, real))
    ensures p in FilterWalk(s, walk) <==> Found(s, walk, p)
  {
    if walk != [] {
      var n := |walk| - 1;
      FilterMeaning(s, walk[..n], p);
      assert walk == walk[..n] + [walk[n]];
      hide FilterWalk, Found;
      FilterLast(s, walk[..n], walk[n]);
      FoundLast(s, walk[..n], walk[n], p);
    }
  }

  /** A walk over distinct slots filters to distinct live ids, as many as it has live slots. */
  lemma {:induction false} WalkFiltered(s: IndexState, walk: seq<(nat, real)>)
    requires Consistent(s) && DistinctSlots(walk)
    ensures DistinctIds(FilterWalk(s, walk)) && forall p :: p in FilterWalk(s, walk) ==> p.0 in LiveIds(s)
    ensures |FilterWalk(s, walk)| == |set i: nat | i < |walk| && Lives(s, walk, i)| <= |walk|
    ensures forall p :: p in FilterWalk(s, walk) <==> Found(s, walk, p)
  {
    forall p ensures p in FilterWalk(s, walk) <==> Found(s, walk, p) {
      FilterMeaning(s, walk, p);
    }
    FilterDistinct(s, walk);
    FilterCount(s, walk);
  }

  lemma SlotsApart(s: IndexState, a: nat, b: nat)
    requires Consistent(s) && a in s.idxToId && b in s.idxToId && a != b
    ensures s.idxToId[a] != s.idxToId[b]
  {
    assert s.idToIdx[s.idxToId[a]] == a && s.idToIdx[s.idxToId[b]] == b;
  }

  lemma FoundApart(s: IndexState, walk: seq<(nat, real)>, p: (Id, real))
    requires Consistent(s) && DistinctSlots(walk) && walk != [] && Lives(s, walk, |walk| - 1) && Found(s, walk[..|walk| - 1], p)
    ensures p.0 != s.idxToId[walk[|walk| - 1].0]
  {
    var n, head := |walk| - 1, walk[..|walk| - 1];
    hide Consistent;
    var i :| 0 <= i < n && Lives(s, head, i) && p == (s.idxToId[head[i].0], 1.0 - head[i].1);
    SlotsApart(s, walk[i].0, walk[n].0);
  }

  lemma {:induction false} FilterDistinct(s: IndexState, walk: seq<(nat, real)>)
    requires Consistent(s) && DistinctSlots(walk)
    ensures DistinctIds(FilterWalk(s, walk))
  {
    if walk != [] {
      var n := |walk| - 1;
      var head := walk[..n];
      assert forall i :: 0 <= i < n ==> head[i] == walk[i];
      FilterDistinct(s, head);
      assert walk == head + [walk[n]];
      FilterLast(s, head, walk[n]);
      hide FilterWalk, Consistent, Found, DistinctIds;
      if Lives(s, walk, n) {
        forall p | p in FilterWalk(s, head) ensures p.0 != s.idxToId[walk[n].0] {
          FilterMeaning(s, head, p);
          FoundApart(s, walk, p);
        }
        DistinctPlus(FilterWalk(s, head), (s.idxToId[walk[n].0], 1.0 - walk[n].1));
      }
    }
  }

  lemma DistinctPlus(pairs: seq<(Id, real)>, p: (Id, real))
    requires DistinctIds(pairs) && forall q :: q in pairs ==> q.0 != p.0
    ensures DistinctIds(pairs + [p])
  {
    assert forall j :: 0 <= j < |pairs| ==> pairs[j] in pairs;
  }

  lemma {:induction false} FilterCount(s: IndexState, walk: seq<(nat, real)>)
    ensures |FilterWalk(s, walk)| == |set i: nat | i < |walk| && Lives(s, walk, i)| <= |walk|
  {
    if walk != [] {
      var n := |walk| - 1;
      FilterCount(s, walk[..n]);
      var a, b := set i: nat | i < n && Lives(s, walk[..n], i), set i: nat | i < |walk| && Lives(s, walk, i);
      assert b == a + (if Lives(s, walk, n) then {n} else {});
    }
  }

  lemma {:induction false} PointsScanned(s: IndexState, m: nat, similarity: Vector -> real)
    requires Consistent(s) && m <= |s.points|
    ensures var r := ScanPoints(s, s.points[..m], similarity);
      && DistinctIds(r)
      && (forall p :: p in r <==> p.0 in LiveIds(s) && s.idToIdx[p.0] < m && p.1 == similarity(s.points[s.idToIdx[p.0]].0))
  {
    if m > 0 {
      PointsScanned(s, m - 1, similarity);
      assert s.points[..m][..m - 1] == s.points[..m - 1];
      var q, r := ScanPoints(s, s.points[..m - 1], similarity), ScanPoints(s, s.points[..m], similarity);
      var id := s.idxToId[m - 1];
      forall j | 0 <= j < |q| ensures q[j].0 != id {
        assert q[j] in q;
      }
      forall p ensures p in r <==> p.0 in LiveIds(s) && s.idToIdx[p.0] < m && p.1 == similarity(s.points[s.idToIdx[p.0]].0) {
        if p.0 in s.idToIdx && s.idToIdx[p.0] == m - 1 {
          assert p.0 == id;
        }
      }
    }
  }

  lemma {:induction false} DistinctCount(pairs: seq<(Id, real)>)
    requires DistinctIds(pairs)
    ensures |set p | p in pairs :: p.0| == |pairs|
  {
    if pairs != [] {
      var n := |pairs| - 1;
      DistinctCount(pairs[..n]);
      assert (set p | p in pairs :: p.0) == (set p | p in pairs[..n] :: p.0) + {pairs[n].0} by {
        assert pairs == pairs[..n] + [pairs[n]];
      }
      assert pairs[n].0 !in (set p | p in pairs[..n] :: p.0);
    }
  }

  /** Distinct live ids, best first. */
  ghost predicate LiveRanking(s: IndexState, results: seq<(Id, real)>) {
    && DistinctIds(results)
    && (forall j :: 0 <= j < |results| ==> results[j].0 in LiveIds(s))
    && Descending(Keys(results, PairScore))
  }

  lemma SortedLive(s: IndexState, r: seq<(Id, real)>)
    requires DistinctIds(r) && forall j :: 0 <= j < |r| ==> r[j].0 in LiveIds(s)
    ensures LiveRanking(s, SortDesc(r, PairScore)) && |SortDesc(r, PairScore)| == |r| <= |LiveIds(s)|
  {
    SortDescSorted(r, PairScore);
    var q := SortDesc(r, PairScore);
    DistinctPermutation(r, q);
    forall j | 0 <= j < |q| ensures q[j].0 in LiveIds(s) {
      assert q[j] in multiset(q);
      assert q[j] in multiset(r);
    }
    DistinctCount(r);
    SubsetCount(set p | p in r :: p.0, LiveIds(s));
  }

  /** The exact scan: all live points once, its result a true top-k of them. */
  lemma {:induction false} ExactScan(s: IndexState, similarity: Vector -> real, k: nat)
    requires Consistent(s)
    ensures var all := ScanPoints(s, s.points, similarity);
      var r := Truncate(SortDesc(all, PairScore), k);
      && IsTopK(all, SortDesc(r, PairScore), PairScore, k)
      && LiveRanking(s, SortDesc(r, PairScore)) && |SortDesc(r, PairScore)| == Min(k, |LiveIds(s)|)
      && (forall p :: p in all <==> p.0 in LiveIds(s) && p.1 == similarity(s.points[s.idToIdx[p.0]].0))
  {
    var all := ScanPoints(s, s.points, similarity);
    assert s.points[..|s.points|] == s.points;
    PointsScanned(s, |s.points|, similarity);
    var r := Truncate(SortDesc(all, PairScore), k);
    SortTruncateTopK(all, PairScore, k);
    ResortTopK(all, r, k);
    DistinctCount(all);
    ScannedIds(s, all, similarity);
    SelectedLive(s, all, r, k);
    SortedLive(s, r);
  }

  lemma ScannedIds(s: IndexState, all: seq<(Id, real)>, similarity: Vector -> real)
    requires Consistent(s)
    requires forall p :: p in all <==> p.0 in LiveIds(s) && p.1 == similarity(s.points[s.idToIdx[p.0]].0)
    ensures (set p | p in all :: p.0) == LiveIds(s)
  {
    forall id | id in LiveIds(s) ensures id in (set p | p in all :: p.0) {
      assert (id, similarity(s.points[s.idToIdx[id]].0)) in all;
    }
  }

  lemma SelectedLive(s: IndexState, all: seq<(Id, real)>, r: seq<(Id, real)>, k: nat)
    requires DistinctIds(all) && (forall p :: p in all ==> p.0 in LiveIds(s)) && r == Truncate(SortDesc(all, PairScore), k)
    ensures DistinctIds(r) && (forall j :: 0 <= j < |r| ==> r[j].0 in LiveIds(s)) && |r| == Min(k, |all|)
  {
    SortDescSorted(all, PairScore);
    var q := SortDesc(all, PairScore);
    DistinctPermutation(all, q);
    hide LiveIds, SortDesc;
    forall j | 0 <= j < |q| ensures q[j].0 in LiveIds(s) {
      assert q[j] in multiset(q);
      assert q[j] in multiset(all);
    }
  }

  lemma ResortTopK(all: seq<(Id, real)>, r: seq<(Id, real)>, k: nat)
    requires IsTopK(all, r, PairScore, k)
    ensures IsTopK(all, SortDesc(r, PairScore), PairScore, k)
  {
    var rest :| Selects(all, r, rest, PairScore, k);
    SortDescSorted(r, PairScore);
    var q := SortDesc(r, PairScore);
    forall x, y | x in q && y in rest ensures AtLeast(PairScore(x), PairScore(y)) {
      assert x in multiset(q);
      assert x in multiset(r);
    }
    assert Selects(all, q, rest, PairScore, k);
  }

  /** Distinct mapped ids without tombstone, scores falling. */
  ghost predicate Answers(s: IndexState, results: seq<(Id, real)>) {
    && DistinctIds(results)
    && (forall j :: 0 <= j < |results| ==> results[j].0 in s.idToIdx && results[j].0 !in s.tombstones)
    && forall i, j :: 0 <= i < j < |results| ==> results[i].1 >= results[j].1
  }

  lemma RankingAnswers(s: IndexState, results: seq<(Id, real)>)
    requires LiveRanking(s, results)
    ensures Answers(s, results)
  {
    var ks := Keys(results, PairScore);
    forall i, j | 0 <= i < j < |results| ensures results[i].1 >= results[j].1 {
      assert AtLeast(ks[i], ks[j]);
    }
  }

  /** What the search answers when the walk found enough. */
  lemma WalkAnswer(s: IndexState, walk: seq<(nat, real)>)
    requires Consistent(s) && DistinctSlots(walk)
    ensures var results := SortDesc(FilterWalk(s, walk), PairScore);
      && Answers(s, results) && |results| == |FilterWalk(s, walk)| <= |LiveIds(s)| && |results| <= |walk|
      && (forall p :: p in results <==> Found(s, walk, p))
    ensures |FilterWalk(s, walk)| == |set i: nat | i < |walk| && Lives(s, walk, i)|
  {
    var found := FilterWalk(s, walk);
    WalkFiltered(s, walk);
    hide LiveIds, Consistent, SortDesc, FilterWalk, Lives, DistinctIds;
    assert forall j :: 0 <= j < |found| ==> found[j] in found;
    SortedLive(s, found);
    SortDescSorted(found, PairScore);
    RankingAnswers(s, SortDesc(found, PairScore));
    SamePairs(found, SortDesc(found, PairScore));
  }

  lemma SamePairs(a: seq<(Id, real)>, b: seq<(Id, real)>)
    requires multiset(a) == multiset(b)
    ensures forall p :: p in a <==> p in b
  {
    assert forall p :: (p in a <==> p in multiset(a)) && (p in b <==> p in multiset(b));
  }

  /** What it answers when it scans: the best of all live ids, each with its similarity. */
  lemma ScanAnswer(s: IndexState, similarity: Vector -> real, k: nat)
    requires Consistent(s)
    ensures var results := SortDesc(Truncate(SortDesc(ScanPoints(s, s.points, similarity), PairScore), k), PairScore);
      && Answers(s, results) && |results| == Min(k, |LiveIds(s)|)
      && (forall p :: p in results ==> p.1 == similarity(s.points[s.idToIdx[p.0]].0))
      && (forall id :: id in s.idToIdx && id !in s.tombstones ==>
        forall p :: p in results && (forall q :: q in results ==> q.0 != id) ==> p.1 >= similarity(s.points[s.idToIdx[id]].0))
  {
    var all := ScanPoints(s, s.points, similarity);
    var results := SortDesc(Truncate(SortDesc(all, PairScore), k), PairScore);
    ExactScan(s, similarity, k);
    hide SortDesc, ScanPoints, Truncate, IsTopK;
    RankingAnswers(s, results);
    var rest := TopPairs(all, results, k);
    forall p | p in results ensures p in all {}
    forall id, p | id in s.idToIdx && id !in s.tombstones && p in results && (forall q :: q in results ==> q.0 != id)
      ensures p.1 >= similarity(s.points[s.idToIdx[id]].0)
    {
      var r := (id, similarity(s.points[s.idToIdx[id]].0));
      assert r in all && r in rest;
    }
  }

  lemma NothingLive(s: IndexState, walk: seq<(nat, real)>)
    requires Consistent(s) && |LiveIds(s)| == 0
    ensures forall i :: 0 <= i < |walk| ==> !Lives(s, walk, i)
    ensures (set i: nat | i < |walk| && Lives(s, walk, i)) == {}
  {
    assert LiveIds(s) == {};
    forall id | id in s.idToIdx ensures id in s.tombstones {
      assert id in LiveIds(s) || id in s.tombstones;
    }
  }

  class HnswIndex {
    var idToIdx: map<Id, nat>
    var idxToId: map<nat, Id>
    var nextIdx: nat
    var tombstones: set<Id>
    var tombstoneCount: nat
    var points: seq<(Vector, nat)>

    ghost function State(): IndexState
      reads this
    {
      IndexState(idToIdx, idxToId, nextIdx, tombstones, tombstoneCount, points)
    }

    ghost predicate Valid()
      reads this
    {
      Consistent(State())
    }

    constructor ()
      ensures State() == EMPTY && Valid()
    {
      idToIdx, idxToId, nextIdx, tombstones, tombstoneCount, points := map[], map[], 0, {}, 0, [];
    }

    method Insert(id: Id, v: Vector)
      modifies this
      ensures State() == InsertInto(old(State()), id, v)
    {
      if id in idToIdx {
        return;
      }
      var idx := nextIdx;
      nextIdx := nextIdx + 1;
      idToIdx := idToIdx[id := idx];
      idxToId := idxToId[idx := id];
      points := points + [(v, idx)];
    }

    method Remove(id: Id)
      modifies this
      ensures State() == RemoveFrom(old(State()), id)
    {
      if id !in idToIdx {
        return;
      }
      if id !in tombstones {
        tombstoneCount := tombstoneCount + 1;
      }
      tombstones := tombstones + {id};
    }

    method Rebuild(live: seq<(Id, Vector)>)
      modifies this
      ensures State() == Rebuilt(live)
    {
      idToIdx, idxToId, tombstones, tombstoneCount, nextIdx, points := map[], map[], {}, 0, 0, [];
      for i := 0 to |live|
        invariant State() == Rebuilt(live[..i])
      {
        assert live[..i + 1][..i] == live[..i];
        var idx := nextIdx;
        nextIdx := nextIdx + 1;
        idToIdx := idToIdx[live[i].0 := idx];
        idxToId := idxToId[idx := live[i].0];
        points := points + [(live[i].1, idx)];
      }
      assert live[..|live|] == live;
    }

    /** `walk` is whatever up to `k` distinct points the graph returned, with distances. The
        answer ranks distinct live ids. It is what the walk found of them, or, when that is fewer
        than it could be and at most 1024 ids are live, the best of all live ids. */
    method SearchWithEf(walk: seq<(nat, real)>, k: nat, similarity: Vector -> real)
      returns (results: seq<(Id, real)>, ghost scanned: bool)
      requires Valid() && DistinctSlots(walk) && |walk| <= k
      ensures |results| <= k && DistinctIds(results)
      ensures forall j :: 0 <= j < |results| ==> results[j].0 in idToIdx && results[j].0 !in tombstones
      ensures forall i, j :: 0 <= i < j < |results| ==> results[i].1 >= results[j].1
      ensures |LiveIds(State())| <= 1024 ==> |results| == Min(k, |LiveIds(State())|)
      ensures scanned == (0 < |LiveIds(State())| <= 1024
                          && |set i: nat | i < |walk| && Lives(State(), walk, i)| < Min(k, |LiveIds(State())|))
      ensures scanned ==> forall p :: p in results ==> p.1 == similarity(points[idToIdx[p.0]].0)
      ensures scanned ==> forall id :: id in idToIdx && id !in tombstones ==>
        forall p :: p in results && (forall q :: q in results ==> q.0 != id) ==> p.1 >= similarity(points[idToIdx[id]].0)
      ensures !scanned ==> forall p :: p in results <==> (
        exists i :: 0 <= i < |walk| && walk[i].0 in idxToId && idxToId[walk[i].0] !in tombstones &&
          p == (idxToId[walk[i].0], 1.0 - walk[i].1))
    {
      hide LiveIds, Consistent, SortDesc, ScanPoints, FilterWalk, DistinctIds, Truncate;
      ghost var s := State();
      LiveCounts(s);
      WalkAnswer(s, walk);
      ScanAnswer(s, similarity, k);
      var snapshot := IndexState(idToIdx, idxToId, nextIdx, tombstones, tombstoneCount, points);
      var live := Live(snapshot);
      scanned := false;
      if live == 0 {
        NothingLive(s, walk);
        return [], false;
      }
      results := FilterWalk(snapshot, walk);
      if |results| < Min(k, live) && live <= SCAN_FALLBACK_MAX_ELEMENTS {
        scanned := true;
        results := Truncate(SortDesc(ScanPoints(snapshot, points, similarity), PairScore), k);
      }
      results := SortDesc(results, PairScore);
    }
  }
}
