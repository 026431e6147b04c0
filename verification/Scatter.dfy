/** Merging the partial results of several nodes. */
module Scatter {
  import opened Basics
  import opened Ranking
  import Rrf

  datatype Cell = Text(s: string) | Other

  datatype Row = Row(values: map<string, Cell>, score: Option<real>)

  datatype QueryResult = QueryResult(columns: seq<string>, rows: seq<Row>, elapsed: nat, scanned: nat)

  const EMPTY_RESULT: QueryResult := QueryResult([], [], 0, 0)

  function RowScore(r: Row): Score {
    match r.score
    case None => NegInf
    case Some(s) => Fin(s)
  }

  function RowsOf(results: seq<QueryResult>): seq<seq<Row>> {
    if results == [] then [] else RowsOf(results[..|results| - 1]) + [results[|results| - 1].rows]
  }

  // ----- statistics -----

  function TotalScanned(results: seq<QueryResult>): nat {
    if results == [] then 0 else TotalScanned(results[..|results| - 1]) + results[|results| - 1].scanned
  }

  function LongestElapsed(results: seq<QueryResult>): nat {
    if results == [] then 0
    else
      var n := |results| - 1;
      var rest := LongestElapsed(results[..n]);
      if results[n].elapsed > rest then results[n].elapsed else rest
  }

  /** The columns of the first result that has any. */
  function FirstColumns(results: seq<QueryResult>): seq<string> {
    if results == [] then []
    else
      var n := |results| - 1;
      var rest := FirstColumns(results[..n]);
      if rest == [] then results[n].columns else rest
  }

  /** The scanned rows of a merge add up. */
  lemma ScannedAddsUp(results: seq<QueryResult>, more: QueryResult)
    ensures TotalScanned(results + [more]) == TotalScanned(results) + more.scanned && TotalScanned([]) == 0
  {
    assert (results + [more])[..|results|] == results;
  }

  /** Its time is that of the slowest node. */
  lemma {:induction false} SlowestNode(results: seq<QueryResult>)
    ensures forall r :: r in results ==> r.elapsed <= LongestElapsed(results)
    ensures if results == [] then LongestElapsed(results) == 0
      else exists r :: r in results && r.elapsed == LongestElapsed(results)
  {
    if results != [] {
      var head, last := results[..|results| - 1], results[|results| - 1];
      SlowestNode(head);
      assert results == head + [last];
      assert last in results;
      if last.elapsed <= LongestElapsed(head) && head != [] {
        var r :| r in head && r.elapsed == LongestElapsed(head);
        assert r in results;
      }
    }
  }

  /** Its columns are those of the first node that has any. */
  lemma {:induction false} ColumnsOfFirst(results: seq<QueryResult>, i: nat)
    requires i < |results| && forall j :: 0 <= j < i ==> results[j].columns == []
    ensures results[i].columns != [] || i == |results| - 1 ==> FirstColumns(results) == results[i].columns
    decreases |results|
  {
    var n := |results| - 1;
    if i < n {
      ColumnsOfFirst(results[..n], i);
    } else if n > 0 {
      ColumnsOfFirst(results[..n], n - 1);
    }
  }

  // ----- dense merge -----

  /** Up to `limit` of all rows, with the others left over: no row stands behind one with a lower
      score, nor behind one without, and none left over belongs before one that is returned. */
  ghost predicate Leaves(all: seq<Row>, rows: seq<Row>, rest: seq<Row>, limit: nat) {
    && multiset(rows) + multiset(rest) == multiset(all)
    && |rows| <= limit && (rest != [] ==> |rows| == limit)
    && (forall i, j :: 0 <= i < j < |rows| && rows[j].score.Some? ==>
      rows[i].score.Some? && rows[i].score.value >= rows[j].score.value)
    && (forall x, y :: x in rows && y in rest && y.score.Some? ==> x.score.Some? && x.score.value >= y.score.value)
  }

  ghost predicate BestRows(all: seq<Row>, rows: seq<Row>, limit: nat) {
    exists rest :: Leaves(all, rows, rest, limit)
  }

  /** A top-k by the sort's key is the best rows by their own scores, unscored ones last. */
  lemma BestRowsIff(all: seq<Row>, rows: seq<Row>, limit: nat)
    ensures IsTopK(all, rows, RowScore, limit) <==> BestRows(all, rows, limit)
  {
    if rest :| Selects(all, rows, rest, RowScore, limit) { SelectsLeaves(all, rows, rest, limit); }
    if rest :| Leaves(all, rows, rest, limit) { SelectsLeaves(all, rows, rest, limit); }
  }

  lemma SelectsLeaves(all: seq<Row>, rows: seq<Row>, rest: seq<Row>, limit: nat)
    ensures Selects(all, rows, rest, RowScore, limit) <==> Leaves(all, rows, rest, limit)
  {
    if multiset(rows) + multiset(rest) == multiset(all) {
      assert |multiset(rows) + multiset(rest)| == |rows| + |rest| && |multiset(all)| == |all|;
      var ks := Keys(rows, RowScore);
      hide Keys;
      DescendingScores(rows, ks);
      hide Descending;
      assert forall x, y :: AtLeast(RowScore(x), RowScore(y)) <==> (y.score.Some? ==> x.score.Some? && x.score.value >= y.score.value);
    }
  }

  lemma DescendingScores(rows: seq<Row>, ks: seq<Score>)
    requires |ks| == |rows| && forall i :: 0 <= i < |rows| ==> ks[i] == RowScore(rows[i])
    ensures Descending(ks) <==> forall i, j :: 0 <= i < j < |rows| && rows[j].score.Some? ==>
      rows[i].score.Some? && rows[i].score.value >= rows[j].score.value
  {
    if Descending(ks) {
      forall i, j | 0 <= i < j < |rows| && rows[j].score.Some?
        ensures rows[i].score.Some? && rows[i].score.value >= rows[j].score.value
      {
        assert AtLeast(ks[i], ks[j]);
      }
    }
  }

  method MergeDenseResults(results: seq<QueryResult>, limit: nat) returns (r: QueryResult, ghost rest: seq<Row>)
    ensures results == [] ==> r == EMPTY_RESULT
    ensures r.scanned == TotalScanned(results) && r.elapsed == LongestElapsed(results) && r.columns == FirstColumns(results)
    ensures multiset(r.rows) + multiset(rest) == multiset(Flatten(RowsOf(results)))
    ensures |r.rows| <= limit && (rest != [] ==> |r.rows| == limit)
    ensures forall i, j :: 0 <= i < j < |r.rows| && r.rows[j].score.Some? ==>
      r.rows[i].score.Some? && r.rows[i].score.value >= r.rows[j].score.value
    ensures forall x, y :: x in r.rows && y in rest && y.score.Some? ==> x.score.Some? && x.score.value >= y.score.value
  {
    if results == [] {
      return EMPTY_RESULT, [];
    }
    var allRows: seq<Row> := [];
    var totalScanned, columns, maxElapsed := 0, [], 0;
    for i := 0 to |results|
      invariant allRows == Flatten(RowsOf(results[..i]))
      invariant totalScanned == TotalScanned(results[..i]) && maxElapsed == LongestElapsed(results[..i])
      invariant columns == FirstColumns(results[..i])
    {
      assert results[..i + 1][..i] == results[..i];
      FlattenNext(RowsOf(results[..i]), results[i].rows);
      totalScanned := totalScanned + results[i].scanned;
      if columns == [] {
        columns := results[i].columns;
      }
      if results[i].elapsed > maxElapsed {
        maxElapsed := results[i].elapsed;
      }
      allRows := allRows + results[i].rows;
    }
    assert results[..|results|] == results;
    r := QueryResult(columns, Truncate(SortDesc(allRows, RowScore), limit), maxElapsed, totalScanned);
    rest := LeftOver(allRows, limit);
  }

  lemma LeftOver(all: seq<Row>, limit: nat) returns (rest: seq<Row>)
    ensures Leaves(all, Truncate(SortDesc(all, RowScore), limit), rest, limit)
  {
    SortTruncateTopK(all, RowScore, limit);
    BestRowsIff(all, Truncate(SortDesc(all, RowScore), limit), limit);
    rest :| Leaves(all, Truncate(SortDesc(all, RowScore), limit), rest, limit);
  }

  lemma FlattenNext<T>(parts: seq<seq<T>>, last: seq<T>)
    ensures Flatten(parts + [last]) == Flatten(parts) + last
  {
    assert (parts + [last])[..|parts|] == parts;
  }

  ghost predicate EachBest(shards: seq<seq<Row>>, answers: seq<seq<Row>>, limit: nat) {
    |answers| == |shards| && forall i :: 0 <= i < |shards| ==> BestRows(shards[i], answers[i], limit)
  }

  lemma EachBestTopK(shards: seq<seq<Row>>, answers: seq<seq<Row>>, limit: nat)
    requires EachBest(shards, answers, limit)
    ensures EachTopK(shards, answers, RowScore, limit)
  {
    hide BestRows, IsTopK;
    forall i | 0 <= i < |shards| ensures IsTopK(shards[i], answers[i], RowScore, limit) {
      BestRowsIff(shards[i], answers[i], limit);
    }
  }

  /** When every node answers with its own best rows, the merge at the same limit gives the best
      of all rows of all shards. */
  lemma ShardsToGlobalTopK(shards: seq<seq<Row>>, results: seq<QueryResult>, merged: seq<Row>, limit: nat)
    requires EachBest(shards, RowsOf(results), limit)
    requires BestRows(Flatten(RowsOf(results)), merged, limit)
    ensures BestRows(Flatten(shards), merged, limit)
  {
    hide BestRows, IsTopK, EachBest;
    EachBestTopK(shards, RowsOf(results), limit);
    BestRowsIff(Flatten(RowsOf(results)), merged, limit);
    BestRowsIff(Flatten(shards), merged, limit);
    assert Flatten(RowsOf(results)) + [] == Flatten(RowsOf(results));
    assert Flatten(shards) + [] == Flatten(shards);
    MergeTopK([], shards, RowsOf(results), merged, RowScore, limit);
  }

  function FlattenEach<T>(groups: seq<seq<seq<T>>>): (r: seq<seq<T>>)
    ensures |r| == |groups| && forall i :: 0 <= i < |groups| ==> r[i] == Flatten(groups[i])
  {
    seq(|groups|, i requires 0 <= i < |groups| => Flatten(groups[i]))
  }

  lemma {:induction false} FlattenConcat<T>(a: seq<seq<T>>, b: seq<seq<T>>)
    ensures Flatten(a + b) == Flatten(a) + Flatten(b)
    decreases |b|
  {
    if b == [] {
      assert a + b == a;
    } else {
      var n := |b| - 1;
      assert (a + b)[..|a| + n] == a + b[..n];
      FlattenConcat(a, b[..n]);
    }
  }

  lemma {:induction false} FlattenTwice<T>(groups: seq<seq<seq<T>>>)
    ensures Flatten(FlattenEach(groups)) == Flatten(Flatten(groups))
  {
    if groups != [] {
      var n := |groups| - 1;
      FlattenTwice(groups[..n]);
      assert FlattenEach(groups)[..n] == FlattenEach(groups[..n]);
      FlattenConcat(Flatten(groups[..n]), groups[n]);
    }
  }

  /** Merging groups first and then their merges shows the same scores as merging at once. */
  lemma StagedMergeSameScores(groups: seq<seq<seq<Row>>>, stage: seq<seq<Row>>, staged: seq<Row>, once: seq<Row>, limit: nat)
    requires EachBest(FlattenEach(groups), stage, limit)
    requires BestRows(Flatten(stage), staged, limit)
    requires BestRows(Flatten(Flatten(groups)), once, limit)
    ensures |staged| == |once| && forall i :: 0 <= i < |staged| ==> staged[i].score == once[i].score
  {
    hide BestRows, IsTopK, EachBest;
    EachBestTopK(FlattenEach(groups), stage, limit);
    BestRowsIff(Flatten(stage), staged, limit);
    BestRowsIff(Flatten(Flatten(groups)), once, limit);
    FlattenTwice(groups);
    var all := Flatten(FlattenEach(groups));
    assert Flatten(stage) + [] == Flatten(stage) && all + [] == all;
    MergeTopK([], FlattenEach(groups), stage, staged, RowScore, limit);
    TopKScoresUnique(all, Flatten(Flatten(groups)), staged, once, RowScore, limit);
    var a, b := Keys(staged, RowScore), Keys(once, RowScore);
    assert |a| == |b|;
    forall i | 0 <= i < |staged| ensures staged[i].score == once[i].score {
      assert a[i] == b[i];
    }
  }

  // ----- hybrid merge -----

  const K: nat := 60

  function ExtractRowId(r: Row): Option<Id> {
    if "id" in r.values && r.values["id"].Text? then Some(r.values["id"].s) else None
  }

  function Digits(n: nat): string {
    (if n < 10 then "" else Digits(n / 10)) + ["0123456789"[n % 10]]
  }

  function AnonymousKey(n: nat): Id {
    "__anon_" + Digits(n)
  }

  /** The keys of some rows, and the counter of rows without an id after them. */
  function KeysOfRows(rows: seq<Row>, counter: nat): (seq<Id>, nat) {
    if rows == [] then ([], counter)
    else
      var n := |rows| - 1;
      var (keys, c) := KeysOfRows(rows[..n], counter);
      match ExtractRowId(rows[n])
      case Some(id) => (keys + [id], c)
      case None => (keys + [AnonymousKey(c + 1)], c + 1)
  }

  function KeyLists(results: seq<QueryResult>): (seq<seq<Id>>, nat) {
    if results == [] then ([], 0)
    else
      var n := |results| - 1;
      var (lists, c) := KeyLists(results[..n]);
      var (keys, c') := KeysOfRows(results[n].rows, c);
      (lists + [keys], c')
  }

  lemma {:induction false} KeysPerRow(rows: seq<Row>, counter: nat)
    ensures |KeysOfRows(rows, counter).0| == |rows|
  {
    if rows != [] { KeysPerRow(rows[..|rows| - 1], counter); }
  }

  /** Every key is represented by the first row whose key it is, and by nothing else. */
  ghost predicate FirstRows(reps: map<Id, Row>, keys: seq<Id>, rows: seq<Row>) {
    && |keys| == |rows|
    && (forall i :: 0 <= i < |keys| ==> keys[i] in reps)
    && (forall key :: key in reps ==> exists i :: FirstAt(keys, i, key) && reps[key] == rows[i])
  }

  ghost predicate FirstAt(keys: seq<Id>, i: int, key: Id) {
    0 <= i < |keys| && keys[i] == key && forall j :: 0 <= j < i ==> keys[j] != key
  }

  ghost predicate Represents(reps: map<Id, Row>, scores: map<Id, real>, keys: seq<Id>, rows: seq<Row>) {
    reps.Keys == scores.Keys && FirstRows(reps, keys, rows)
  }

  /** The fused order of keys with their representative rows, cut to the limit. */
  ghost predicate Presents(rows: seq<Row>, fused: seq<(Id, real)>, reps: map<Id, Row>, limit: nat) {
    && |rows| == Min(limit, |fused|)
    && forall i :: 0 <= i < |rows| ==>
      fused[i].0 in reps && rows[i] == reps[fused[i].0].(score := Some(fused[i].1))
  }

  method MergeHybridResults(results: seq<QueryResult>, limit: nat)
    returns (r: QueryResult, ghost fused: seq<(Id, real)>, ghost reps: map<Id, Row>)
    ensures results == [] ==> r == EMPTY_RESULT
    ensures r.scanned == TotalScanned(results) && r.elapsed == LongestElapsed(results) && r.columns == FirstColumns(results)
    ensures Rrf.IsFusion(KeyLists(results).0, 60, fused)
    ensures Presents(r.rows, fused, reps, limit)
    ensures FirstRows(reps, Flatten(KeyLists(results).0), Flatten(RowsOf(results)))
  {
    if results == [] {
      NothingFused();
      return EMPTY_RESULT, [], map[];
    }
    hide Rrf.Accumulated, Rrf.IsFusion, Represents, Presents;
    var scores: map<Id, real>, rows: map<Id, Row> := map[], map[];
    var anonCounter, totalScanned, columns, maxElapsed := 0, 0, [], 0;
    Rrf.NothingAccumulated(K);
    NothingRepresented();
    for i := 0 to |results|
      invariant totalScanned == TotalScanned(results[..i]) && maxElapsed == LongestElapsed(results[..i])
      invariant columns == FirstColumns(results[..i])
      invariant Rrf.Accumulated(KeyLists(results[..i]).0, K, scores) && anonCounter == KeyLists(results[..i]).1
      invariant Represents(rows, scores, Flatten(KeyLists(results[..i]).0), Flatten(RowsOf(results[..i])))
    {
      assert results[..i + 1][..i] == results[..i];
      FlattenNext(RowsOf(results[..i]), results[i].rows);
      FlattenNext(KeyLists(results[..i]).0, KeysOfRows(results[i].rows, anonCounter).0);
      totalScanned := totalScanned + results[i].scanned;
      if columns == [] {
        columns := results[i].columns;
      }
      if results[i].elapsed > maxElapsed {
        maxElapsed := results[i].elapsed;
      }
      scores, rows, anonCounter := RankRows(results[i].rows, scores, rows, anonCounter,
        KeyLists(results[..i]).0, Flatten(KeyLists(results[..i]).0), Flatten(RowsOf(results[..i])));
    }
    assert results[..|results|] == results;
    var pairs := Drain(scores);
    Rrf.SortedFusion(KeyLists(results).0, K, scores, pairs);
    var sorted := SortDesc(pairs, PairScore);
    RepresentedKeys(rows, scores, Flatten(KeyLists(results).0), Flatten(RowsOf(results)));
    SortedIds(pairs, sorted);
    var out := Present(sorted, rows, limit);
    fused, reps := sorted, rows;
    r := QueryResult(columns, out, maxElapsed, totalScanned);
  }

  lemma NothingRepresented()
    ensures Represents(map[], map[], [], [])
  {}

  lemma NothingFused()
    ensures KeyLists([]).0 == [] && Rrf.IsFusion([], K, [])
  {
    Rrf.NothingAccumulated(K);
    Rrf.SortedFusion([], K, map[], []);
  }

  lemma RepresentedKeys(reps: map<Id, Row>, scores: map<Id, real>, keys: seq<Id>, rows: seq<Row>)
    requires Represents(reps, scores, keys, rows)
    ensures reps.Keys == scores.Keys && FirstRows(reps, keys, rows)
  {}

  /** The closing map from fused keys to rows that carry their fused score. */
  method Present(sorted: seq<(Id, real)>, reps: map<Id, Row>, limit: nat) returns (out: seq<Row>)
    requires forall i :: 0 <= i < |sorted| ==> sorted[i].0 in reps
    ensures Presents(out, sorted, reps, limit)
  {
    var shown := Truncate(sorted, limit);
    out := [];
    for i := 0 to |shown|
      invariant |out| == i
      invariant forall j :: 0 <= j < i ==> out[j] == reps[sorted[j].0].(score := Some(sorted[j].1))
    {
      out := out + [reps[shown[i].0].(score := Some(shown[i].1))];
    }
  }

  lemma SortedIds(pairs: seq<(Id, real)>, sorted: seq<(Id, real)>)
    requires sorted == SortDesc(pairs, PairScore)
    ensures forall i :: 0 <= i < |sorted| ==> sorted[i] in pairs
  {
    SortDescSorted(pairs, PairScore);
    forall i | 0 <= i < |sorted| ensures sorted[i] in pairs {
      assert sorted[i] in multiset(sorted);
      assert sorted[i] in multiset(pairs);
    }
  }

  /** The inner loop over the rows of one node; `keys` are those of the rows seen before. */
  method RankRows(nodeRows: seq<Row>, scores0: map<Id, real>, reps0: map<Id, Row>, counter0: nat,
                  ghost done: seq<seq<Id>>, ghost keys: seq<Id>, ghost seen: seq<Row>)
    returns (scores: map<Id, real>, reps: map<Id, Row>, counter: nat)
    requires Rrf.Accumulated(done, K, scores0) && Represents(reps0, scores0, keys, seen)
    ensures Rrf.Accumulated(done + [KeysOfRows(nodeRows, counter0).0], K, scores)
    ensures counter == KeysOfRows(nodeRows, counter0).1
    ensures Represents(reps, scores, keys + KeysOfRows(nodeRows, counter0).0, seen + nodeRows)
  {
    hide Rrf.Accumulated, Rrf.Contribution, Represents;
    scores, reps, counter := scores0, reps0, counter0;
    Rrf.AccumulateEmpty(done, K, scores);
    ghost var ranked := KeysOfRows(nodeRows, counter0).0;
    KeysPrefix(nodeRows, 0, counter0);
    assert seen + nodeRows[..0] == seen && keys + ranked[..0] == keys;
    for i := 0 to |nodeRows|
      invariant |ranked| == |nodeRows|
      invariant Rrf.Accumulated(done + [ranked[..i]], K, scores)
      invariant counter == KeysOfRows(nodeRows[..i], counter0).1
      invariant Represents(reps, scores, keys + ranked[..i], seen + nodeRows[..i])
    {
      var row := nodeRows[i];
      KeyOfRow(nodeRows, i, counter0);
      var key: Id;
      match ExtractRowId(row) {
        case Some(id) => key := id;
        case None =>
          counter := counter + 1;
          key := AnonymousKey(counter);
      }
      Rrf.AccumulateOne(done, ranked, i, K, scores);
      ghost var reps', scores' := reps, scores;
      if key !in reps {
        reps := reps[key := row];
      }
      scores := scores[key := (if key in scores then scores[key] else 0.0) + Rrf.Contribution(K, i)];
      RepresentsStep(reps', scores', keys + ranked[..i], seen + nodeRows[..i], key, row, scores[key]);
      assert (keys + ranked[..i]) + [key] == keys + ranked[..i + 1];
      assert (seen + nodeRows[..i]) + [row] == seen + nodeRows[..i + 1];
    }
    assert nodeRows[..|nodeRows|] == nodeRows && ranked[..|nodeRows|] == ranked;
  }

  lemma RepresentsStep(reps: map<Id, Row>, scores: map<Id, real>, keys: seq<Id>, rows: seq<Row>, key: Id, row: Row, s: real)
    requires Represents(reps, scores, keys, rows)
    ensures Represents(if key in reps then reps else reps[key := row], scores[key := s], keys + [key], rows + [row])
  {
    var reps', keys', rows' := if key in reps then reps else reps[key := row], keys + [key], rows + [row];
    forall k | k in reps' ensures exists i :: FirstAt(keys', i, k) && reps'[k] == rows'[i] {
      if k in reps {
        var i :| FirstAt(keys, i, k) && reps[k] == rows[i];
        assert FirstAt(keys', i, k) && rows'[i] == rows[i];
      } else {
        assert FirstAt(keys', |keys|, k);
      }
    }
  }

  /** The key of row `i` and the counter after it. */
  lemma KeyOfRow(rows: seq<Row>, i: nat, counter: nat)
    requires i < |rows|
    ensures |KeysOfRows(rows, counter).0| == |rows|
    ensures var c := KeysOfRows(rows[..i], counter).1;
      match ExtractRowId(rows[i])
      case Some(id) => KeysOfRows(rows, counter).0[i] == id && KeysOfRows(rows[..i + 1], counter).1 == c
      case None => KeysOfRows(rows, counter).0[i] == AnonymousKey(c + 1) && KeysOfRows(rows[..i + 1], counter).1 == c + 1
  {
    hide ExtractRowId, AnonymousKey;
    KeysPrefix(rows, i + 1, counter);
    KeysPerRow(rows[..i], counter);
    assert rows[..i + 1][..i] == rows[..i];
    assert KeysOfRows(rows, counter).0[i] == KeysOfRows(rows, counter).0[..i + 1][i];
  }

  lemma {:induction false} KeysPrefix(rows: seq<Row>, i: nat, counter: nat)
    requires i <= |rows|
    ensures |KeysOfRows(rows, counter).0| == |rows| && |KeysOfRows(rows[..i], counter).0| == i
    ensures KeysOfRows(rows, counter).0[..i] == KeysOfRows(rows[..i], counter).0
    decreases |rows|
  {
    hide ExtractRowId, AnonymousKey;
    KeysPerRow(rows, counter);
    KeysPerRow(rows[..i], counter);
    if i == |rows| {
      assert rows[..i] == rows;
    } else {
      var n := |rows| - 1;
      KeysPrefix(rows[..n], i, counter);
      assert rows[..n][..i] == rows[..i];
      assert KeysOfRows(rows, counter).0[..n] == KeysOfRows(rows[..n], counter).0;
      assert KeysOfRows(rows, counter).0[..i] == KeysOfRows(rows, counter).0[..n][..i];
    }
  }

  // ----- when rows without an id are kept apart -----

  lemma {:induction false} DigitsInjective(m: nat, n: nat)
    ensures Digits(m) == Digits(n) <==> m == n
  {
    LastDigit(m);
    LastDigit(n);
    LastDigit(m / 10);
    LastDigit(n / 10);
    if Digits(m) == Digits(n) {
      var k := |Digits(m)| - 1;
      assert m % 10 == n % 10 by { DigitCharacters(m % 10, n % 10); }
      assert Digits(m)[..k] == Digits(n)[..k];
      if m >= 10 && n >= 10 {
        DigitsInjective(m / 10, n / 10);
      }
    }
  }

  lemma LastDigit(n: nat)
    ensures |Digits(n)| > 0
    ensures Digits(n)[|Digits(n)| - 1] == "0123456789"[n % 10]
    ensures Digits(n)[..|Digits(n)| - 1] == if n < 10 then "" else Digits(n / 10)
  {}

  lemma DigitCharacters(a: nat, b: nat)
    requires a < 10 && b < 10 && "0123456789"[a] == "0123456789"[b]
    ensures a == b
  {}

  lemma AnonymousInjective(m: nat, n: nat)
    ensures AnonymousKey(m) == AnonymousKey(n) <==> m == n
  {
    DigitsInjective(m, n);
    assert AnonymousKey(m)[7..] == Digits(m) && AnonymousKey(n)[7..] == Digits(n);
  }

  /** The keys of all nodes' rows in order are those of the rows as one list. */
  lemma {:induction false} KeysFlatten(results: seq<QueryResult>)
    ensures KeysOfRows(Flatten(RowsOf(results)), 0) == (Flatten(KeyLists(results).0), KeyLists(results).1)
  {
    if results != [] {
      var n := |results| - 1;
      KeysFlatten(results[..n]);
      var (lists, c) := KeyLists(results[..n]);
      FlattenNext(RowsOf(results[..n]), results[n].rows);
      FlattenNext(lists, KeysOfRows(results[n].rows, c).0);
      KeysConcat(Flatten(RowsOf(results[..n])), results[n].rows, 0);
      hide KeysOfRows;
    }
  }

  lemma {:induction false} KeysConcat(a: seq<Row>, b: seq<Row>, counter: nat)
    ensures var (keys, c) := KeysOfRows(a, counter);
      KeysOfRows(a + b, counter) == (keys + KeysOfRows(b, c).0, KeysOfRows(b, c).1)
    decreases |b|
  {
    hide ExtractRowId, AnonymousKey;
    var (keys, c) := KeysOfRows(a, counter);
    if b == [] {
      assert a + b == a && keys + [] == keys;
    } else {
      var n := |b| - 1;
      assert (a + b)[..|a| + n] == a + b[..n];
      KeysConcat(a, b[..n], counter);
      var (rest, d) := KeysOfRows(b[..n], c);
      forall key: Id ensures (keys + rest) + [key] == keys + (rest + [key]) {}
    }
  }

  /** The key of a row: its id, or the synthetic key of its number among the rows without one. */
  lemma KeyIs(rows: seq<Row>, i: nat)
    requires i < |rows|
    ensures |KeysOfRows(rows, 0).0| == |rows|
    ensures var n := KeysOfRows(rows[..i], 0).1 + 1;
      KeysOfRows(rows, 0).0[i] == match ExtractRowId(rows[i]) case Some(id) => id case None => AnonymousKey(n)
  {
    hide ExtractRowId, AnonymousKey, KeysOfRows;
    KeyOfRow(rows, i, 0);
  }

  lemma {:induction false} CounterGrows(rows: seq<Row>, i: nat, j: nat)
    requires i <= j <= |rows|
    ensures KeysOfRows(rows[..i], 0).1 <= KeysOfRows(rows[..j], 0).1
    ensures i < j && ExtractRowId(rows[i]).None? ==> KeysOfRows(rows[..i], 0).1 < KeysOfRows(rows[..j], 0).1
    decreases j
  {
    hide ExtractRowId, AnonymousKey, KeysOfRows;
    if i < j {
      CounterGrows(rows, i, j - 1);
      KeyOfRow(rows, j - 1, 0);
    }
  }

  /** The row that takes number `n` among the rows without an id. */
  lemma {:induction false} NumberTaken(rows: seq<Row>, n: nat) returns (i: nat)
    requires 1 <= n <= KeysOfRows(rows, 0).1
    ensures i < |rows| && ExtractRowId(rows[i]).None? && KeysOfRows(rows[..i], 0).1 + 1 == n
  {
    hide ExtractRowId, AnonymousKey, KeysOfRows;
    assert KeysOfRows([], 0).1 == 0 by { NoKeys(); }
    i := |rows| - 1;
    assert rows != [];
    KeyOfRow(rows, i, 0);
    assert rows[..i + 1] == rows;
    if ExtractRowId(rows[i]).Some? || KeysOfRows(rows[..i], 0).1 >= n {
      i := NumberTaken(rows[..i], n);
      assert rows[..|rows| - 1][..i] == rows[..i];
    }
  }

  lemma NoKeys()
    ensures KeysOfRows([], 0).1 == 0
  {}

  /** Every row without an id has a key no other row has. */
  ghost predicate KeptApart(keys: seq<Id>, rows: seq<Row>)
    requires |keys| == |rows|
  {
    forall i, j :: 0 <= i < |rows| && 0 <= j < |rows| && i != j && ExtractRowId(rows[i]).None? ==> keys[i] != keys[j]
  }

  /** No row's id is spelled like one of the first `c` synthetic keys. */
  ghost predicate NoSyntheticId(rows: seq<Row>, c: nat) {
    forall j, n :: 0 <= j < |rows| && 1 <= n <= c ==> ExtractRowId(rows[j]) != Some(AnonymousKey(n))
  }

  /** Over all results, the rows without an id stay unique exactly when no id is spelled like
      the synthetic key of one of them. */
  lemma AnonymousApartIff(results: seq<QueryResult>)
    ensures var keys, rows := Flatten(KeyLists(results).0), Flatten(RowsOf(results));
      |keys| == |rows| && (KeptApart(keys, rows) <==> NoSyntheticId(rows, KeyLists(results).1))
  {
    var rows := Flatten(RowsOf(results));
    KeysFlatten(results);
    RowsApartIff(rows);
  }

  lemma RowsApartIff(rows: seq<Row>)
    ensures var (keys, c) := KeysOfRows(rows, 0);
      |keys| == |rows| && (KeptApart(keys, rows) <==> NoSyntheticId(rows, c))
  {
    hide ExtractRowId, AnonymousKey, KeysOfRows, KeptApart, NoSyntheticId;
    KeysPrefix(rows, 0, 0);
    if NoSyntheticId(rows, KeysOfRows(rows, 0).1) {
      Apart(rows);
    } else {
      NotApart(rows);
    }
  }

  lemma Apart(rows: seq<Row>)
    requires NoSyntheticId(rows, KeysOfRows(rows, 0).1) && |KeysOfRows(rows, 0).0| == |rows|
    ensures KeptApart(KeysOfRows(rows, 0).0, rows)
  {
    hide ExtractRowId, AnonymousKey, KeysOfRows;
    var (keys, c) := KeysOfRows(rows, 0);
    forall i, j | 0 <= i < |rows| && 0 <= j < |rows| && i != j && ExtractRowId(rows[i]).None? ensures keys[i] != keys[j] {
      KeyIs(rows, i);
      KeyIs(rows, j);
      var m, n := KeysOfRows(rows[..i], 0).1 + 1, KeysOfRows(rows[..j], 0).1 + 1;
      CounterGrows(rows, i, |rows|);
      assert rows[..|rows|] == rows && m <= c;
      if ExtractRowId(rows[j]).None? {
        if i < j { CounterGrows(rows, i, j); } else { CounterGrows(rows, j, i); }
        AnonymousInjective(m, n);
      } else {
        assert ExtractRowId(rows[j]) != Some(AnonymousKey(m));
      }
    }
  }

  lemma NotApart(rows: seq<Row>)
    requires !NoSyntheticId(rows, KeysOfRows(rows, 0).1) && |KeysOfRows(rows, 0).0| == |rows|
    ensures !KeptApart(KeysOfRows(rows, 0).0, rows)
  {
    hide ExtractRowId, AnonymousKey, KeysOfRows;
    var (keys, c) := KeysOfRows(rows, 0);
    var j, n :| 0 <= j < |rows| && 1 <= n <= c && ExtractRowId(rows[j]) == Some(AnonymousKey(n));
    var i := NumberTaken(rows, n);
    KeyIs(rows, i);
    KeyIs(rows, j);
    assert keys[i] == keys[j];
  }

  /** A row without an id is not always kept apart: an id spelled like a synthetic key fuses
      with it. */
  lemma AnonymousCollision(columns: seq<string>)
    ensures var named := Row(map["id" := Text("__anon_1")], None);
      var nameless := Row(map[], None);
      KeyLists([QueryResult(columns, [named], 0, 0), QueryResult(columns, [nameless], 0, 0)]).0
        == [["__anon_1"], ["__anon_1"]]
  {
    var named, nameless := Row(map["id" := Text("__anon_1")], None), Row(map[], None);
    var a, b := QueryResult(columns, [named], 0, 0), QueryResult(columns, [nameless], 0, 0);
    OneRow(named, 0);
    OneRow(nameless, 0);
    AnonymousOne();
    assert [a, b][..1] == [a] && [a][..0] == [];
    assert KeyLists([a]) == ([] + [["__anon_1"]], 0);
    assert [] + [["__anon_1"]] + [["__anon_1"]] == [["__anon_1"], ["__anon_1"]];
  }

  lemma AnonymousOne()
    ensures AnonymousKey(1) == "__anon_1"
  {
    assert Digits(1) == "" + ["0123456789"[1]] == "1";
    assert "__anon_" + "1" == "__anon_1";
  }

  lemma OneRow(r: Row, counter: nat)
    ensures KeysOfRows([r], counter) == match ExtractRowId(r)
      case Some(id) => ([id], counter)
      case None => ([AnonymousKey(counter + 1)], counter + 1)
  {
    hide ExtractRowId, AnonymousKey;
    assert [r][..0] == [];
    var nothing: seq<Id> := [];
    assert KeysOfRows([], counter) == (nothing, counter);
    match ExtractRowId(r) {
      case Some(id) => assert nothing + [id] == [id];
      case None => assert nothing + [AnonymousKey(counter + 1)] == [AnonymousKey(counter + 1)];
    }
  }
}
