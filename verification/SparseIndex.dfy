/** The inverted index over sparse vectors. */
module SparseIndex {
  import opened Basics
  import opened Ranking

  const MIN_WEIGHT: real := 0.001

  type Vector = seq<(nat, real)>

  type Postings = map<nat, seq<(Id, real)>>

  predicate Indexed(weight: real) {
    weight >= MIN_WEIGHT || -weight >= MIN_WEIGHT
  }

  /** The posting list of a dimension; an absent one is empty. */
  function ListOf(postings: Postings, dim: nat): seq<(Id, real)> {
    if dim in postings then postings[dim] else []
  }

  // ----- what the two updates compute -----

  function InsertOne(postings: Postings, id: Id, dim: nat, weight: real): Postings {
    if Indexed(weight) then postings[dim := ListOf(postings, dim) + [(id, weight)]] else postings
  }

  function InsertAll(postings: Postings, id: Id, v: Vector): Postings {
    if v == [] then postings
    else
      var n := |v| - 1;
      InsertOne(InsertAll(postings, id, v[..n]), id, v[n].0, v[n].1)
  }

  /** Everything in the list but the entries of `id`, in order. */
  function Without(list: seq<(Id, real)>, id: Id): seq<(Id, real)> {
    if list == [] then []
    else
      var n := |list| - 1;
      if list[n].0 == id then Without(list[..n], id) else Without(list[..n], id) + [list[n]]
  }

  function RemoveOne(postings: Postings, id: Id, dim: nat): Postings {
    var list := Without(ListOf(postings, dim), id);
    if dim !in postings then postings
    else if list == [] then postings - {dim}
    else postings[dim := list]
  }

  function RemoveAll(postings: Postings, id: Id, v: Vector): Postings {
    if v == [] then postings
    else
      var n := |v| - 1;
      RemoveOne(RemoveAll(postings, id, v[..n]), id, v[n].0)
  }

  // ----- the brute-force meaning -----

  /** The weights of `id` in a posting list, in order. */
  function WeightsIn(list: seq<(Id, real)>, id: Id): seq<real> {
    if list == [] then []
    else
      var n := |list| - 1;
      WeightsIn(list[..n], id) + if list[n].0 == id then [list[n].1] else []
  }

  /** The weights a vector has in a dimension, leaving out those too small to index. */
  function WeightsAt(v: Vector, dim: nat): seq<real> {
    if v == [] then []
    else
      var n := |v| - 1;
      WeightsAt(v[..n], dim) + if v[n].0 == dim && Indexed(v[n].1) then [v[n].1] else []
  }

  function Weighted(ws: seq<real>, q: real): real {
    if ws == [] then 0.0 else Weighted(ws[..|ws| - 1], q) + Mul(q, ws[|ws| - 1])
  }

  /** The dot product of a query and a vector over indexed weights. */
  function Dot(query: Vector, v: Vector): real {
    if query == [] then 0.0
    else
      var n := |query| - 1;
      Dot(query[..n], v) + Weighted(WeightsAt(v, query[n].0), query[n].1)
  }

  /** Query and vector share a dimension in which the vector is indexed. */
  ghost predicate Shares(query: Vector, v: Vector) {
    exists i :: 0 <= i < |query| && WeightsAt(v, query[i].0) != []
  }

  /** Only weights of magnitude at least one thousandth count. */
  lemma {:induction false} WeightsAtMeaning(v: Vector, dim: nat, w: real)
    ensures w in WeightsAt(v, dim) <==> (dim, w) in v && (w >= 0.001 || w <= -0.001)
  {
    if v != [] {
      WeightsAtMeaning(v[..|v| - 1], dim, w);
      assert v == v[..|v| - 1] + [v[|v| - 1]];
    }
  }

  lemma {:induction false} WeightsAtConcat(a: Vector, b: Vector, dim: nat)
    ensures WeightsAt(a + b, dim) == WeightsAt(a, dim) + WeightsAt(b, dim)
    decreases |b|
  {
    if b == [] {
      assert a + b == a;
    } else {
      assert (a + b)[..|a + b| - 1] == a + b[..|b| - 1];
      WeightsAtConcat(a, b[..|b| - 1], dim);
    }
  }

  lemma {:induction false} WeightedConcat(a: seq<real>, b: seq<real>, q: real)
    ensures Weighted(a + b, q) == Weighted(a, q) + Weighted(b, q)
    decreases |b|
  {
    if b == [] {
      assert a + b == a;
    } else {
      assert (a + b)[..|a + b| - 1] == a + b[..|b| - 1];
      WeightedConcat(a, b[..|b| - 1], q);
    }
  }

  /** The dot product is additive in the query and in the vector, and for single entries it is the
      product of the weights if the dimensions agree and the vector's weight counts: this
      determines it. */
  lemma {:induction false} DotBilinear(p: Vector, q: Vector, v: Vector, w: Vector)
    ensures Dot(p + q, v) == Dot(p, v) + Dot(q, v)
    ensures Dot(p, v + w) == Dot(p, v) + Dot(p, w)
    decreases |p| + |q|
  {
    hide WeightsAt, Weighted;
    if p != [] {
      var n := |p| - 1;
      DotBilinear(p[..n], [], v, w);
      WeightsAtConcat(v, w, p[n].0);
      WeightedConcat(WeightsAt(v, p[n].0), WeightsAt(w, p[n].0), p[n].1);
    }
    if q == [] {
      assert p + q == p;
    } else {
      assert (p + q)[..|p + q| - 1] == p + q[..|q| - 1];
      DotBilinear(p, q[..|q| - 1], v, w);
    }
  }

  lemma DotSingle(d: nat, q: real, e: nat, w: real)
    ensures Dot([(d, q)], [(e, w)]) == if d == e && (w >= 0.001 || w <= -0.001) then q * w else 0.0
    ensures Dot([], [(e, w)]) == 0.0 == Dot([(d, q)], [])
  {
    assert [(d, q)][..0] == [] && [(e, w)][..0] == [];
    assert WeightsAt([(e, w)], d) == if d == e && (w >= 0.001 || w <= -0.001) then [w] else [];
    assert [w][..0] == [];
    assert Weighted([w], q) == Weighted([], q) + Mul(q, w);
  }

  /** Query and vector share a dimension when both have an entry there and the vector's counts. */
  lemma SharesIff(query: Vector, v: Vector)
    ensures Shares(query, v) <==>
      exists i, j :: 0 <= i < |query| && 0 <= j < |v| && query[i].0 == v[j].0 && (v[j].1 >= 0.001 || v[j].1 <= -0.001)
  {
    hide WeightsAt;
    if i :| 0 <= i < |query| && WeightsAt(v, query[i].0) != [] {
      var w := WeightsAt(v, query[i].0)[0];
      WeightsAtMeaning(v, query[i].0, w);
      var j :| 0 <= j < |v| && v[j] == (query[i].0, w);
      assert query[i].0 == v[j].0;
    }
    if i, j :| 0 <= i < |query| && 0 <= j < |v| && query[i].0 == v[j].0 && (v[j].1 >= 0.001 || v[j].1 <= -0.001) {
      WeightsAtMeaning(v, query[i].0, v[j].1);
      assert v[j] in v && v[j].1 in WeightsAt(v, query[i].0);
    }
  }

  /** The weights a document set puts under a dimension and an id. */
  ghost function Expected(docs: map<Id, Vector>, dim: nat, id: Id): seq<real> {
    if id in docs then WeightsAt(docs[id], dim) else []
  }

  ghost predicate NoEmptyList(postings: Postings) {
    forall dim :: dim in postings ==> postings[dim] != []
  }

  /** The postings are those of the documents: per dimension and id the document's weights, and
      no empty posting list. */
  ghost predicate Holds(postings: Postings, docs: map<Id, Vector>) {
    NoEmptyList(postings)
    && forall dim, id :: WeightsIn(ListOf(postings, dim), id) == Expected(docs, dim, id)
  }

  lemma {:induction false} InsertHolds(postings: Postings, docs: map<Id, Vector>, id: Id, v: Vector)
    requires Holds(postings, docs) && id !in docs
    ensures Holds(InsertAll(postings, id, v), docs[id := v])
    decreases |v|
  {
    if v == [] {
      forall dim, x ensures Expected(docs[id := v], dim, x) == Expected(docs, dim, x) {}
    } else {
      var n := |v| - 1;
      InsertHolds(postings, docs, id, v[..n]);
      var p := InsertAll(postings, id, v[..n]);
      forall dim, x
        ensures WeightsIn(ListOf(InsertOne(p, id, v[n].0, v[n].1), dim), x) == Expected(docs[id := v], dim, x)
      {
        InsertOneAt(p, id, v[n].0, v[n].1, dim, x);
        ExpectedGrows(docs, id, v, dim, x);
      }
    }
  }

  lemma InsertOneAt(p: Postings, id: Id, d: nat, w: real, dim: nat, x: Id)
    ensures WeightsIn(ListOf(InsertOne(p, id, d, w), dim), x)
      == WeightsIn(ListOf(p, dim), x) + if dim == d && x == id && Indexed(w) then [w] else []
  {
    var list := ListOf(p, dim);
    assert (list + [(id, w)])[..|list|] == list;
  }

  lemma ExpectedGrows(docs: map<Id, Vector>, id: Id, v: Vector, dim: nat, x: Id)
    requires v != []
    ensures var n := |v| - 1;
      Expected(docs[id := v], dim, x) == Expected(docs[id := v[..n]], dim, x)
        + if dim == v[n].0 && x == id && Indexed(v[n].1) then [v[n].1] else []
  {}

  lemma {:induction false} WithoutWeights(list: seq<(Id, real)>, id: Id, x: Id)
    ensures WeightsIn(Without(list, id), x) == if x == id then [] else WeightsIn(list, x)
  {
    if list != [] {
      var n := |list| - 1;
      WithoutWeights(list[..n], id, x);
      var rest := Without(list[..n], id);
      assert (rest + [list[n]])[..|rest|] == rest;
    }
  }

  /** The expected weights once `id` is cleared from the dimensions of `cleared`. */
  ghost function Remaining(docs: map<Id, Vector>, id: Id, cleared: Vector, dim: nat, x: Id): seq<real> {
    if x == id && InDims(cleared, dim) then [] else Expected(docs, dim, x)
  }

  ghost predicate InDims(v: Vector, dim: nat) {
    exists i :: 0 <= i < |v| && v[i].0 == dim
  }

  lemma InDimsLast(v: Vector, dim: nat)
    requires v != []
    ensures InDims(v, dim) <==> InDims(v[..|v| - 1], dim) || v[|v| - 1].0 == dim
  {
    var n := |v| - 1;
    if i :| 0 <= i < |v| && v[i].0 == dim {
      assert i == n || v[..n][i].0 == dim;
    }
    if i :| 0 <= i < n && v[..n][i].0 == dim {
      assert v[i].0 == dim;
    }
  }

  lemma {:induction false} RemoveClears(postings: Postings, docs: map<Id, Vector>, id: Id, v: Vector)
    requires Holds(postings, docs)
    ensures NoEmptyList(RemoveAll(postings, id, v))
    ensures forall dim, x :: WeightsIn(ListOf(RemoveAll(postings, id, v), dim), x) == Remaining(docs, id, v, dim, x)
    decreases |v|
  {
    hide Expected;
    if v != [] {
      var n := |v| - 1;
      RemoveClears(postings, docs, id, v[..n]);
      var p := RemoveAll(postings, id, v[..n]);
      forall dim, x ensures WeightsIn(ListOf(RemoveOne(p, id, v[n].0), dim), x) == Remaining(docs, id, v, dim, x) {
        InDimsLast(v, dim);
        RemoveOneAt(p, id, v[n].0, dim, x);
      }
    }
  }

  lemma RemoveOneAt(p: Postings, id: Id, d: nat, dim: nat, x: Id)
    ensures WeightsIn(ListOf(RemoveOne(p, id, d), dim), x) == if dim == d && x == id then [] else WeightsIn(ListOf(p, dim), x)
  {
    WithoutWeights(ListOf(p, dim), id, x);
  }

  lemma {:induction false} WeightsNeedDim(v: Vector, dim: nat)
    requires !InDims(v, dim)
    ensures WeightsAt(v, dim) == []
  {
    if v != [] {
      InDimsLast(v, dim);
      WeightsNeedDim(v[..|v| - 1], dim);
    }
  }

  /** Removing an entity with the vector it was inserted with takes exactly its postings out. */
  lemma {:induction false} RemoveHolds(postings: Postings, docs: map<Id, Vector>, id: Id)
    requires Holds(postings, docs) && id in docs
    ensures Holds(RemoveAll(postings, id, docs[id]), docs - {id})
  {
    hide WeightsIn, InDims;
    var v := docs[id];
    RemoveClears(postings, docs, id, v);
    forall dim, x ensures WeightsIn(ListOf(RemoveAll(postings, id, v), dim), x) == Expected(docs - {id}, dim, x) {
      RemainingIsRest(docs, id, dim, x);
    }
  }

  lemma RemainingIsRest(docs: map<Id, Vector>, id: Id, dim: nat, x: Id)
    requires id in docs
    ensures Remaining(docs, id, docs[id], dim, x) == Expected(docs - {id}, dim, x)
  {
    if !InDims(docs[id], dim) { WeightsNeedDim(docs[id], dim); }
  }

  // ----- insert then remove -----

  lemma {:induction false} WithoutAbsent(list: seq<(Id, real)>, id: Id)
    requires WeightsIn(list, id) == []
    ensures Without(list, id) == list
  {
    if list != [] { WithoutAbsent(list[..|list| - 1], id); }
  }

  /** Inserting `id` only appends entries of `id`. */
  lemma {:induction false} InsertAppends(postings: Postings, id: Id, v: Vector, dim: nat)
    requires WeightsIn(ListOf(postings, dim), id) == []
    ensures Without(ListOf(InsertAll(postings, id, v), dim), id) == ListOf(postings, dim)
    ensures dim in postings ==> dim in InsertAll(postings, id, v)
    ensures !InDims(v, dim) ==> (dim in InsertAll(postings, id, v) <==> dim in postings)
    ensures !InDims(v, dim) ==> ListOf(InsertAll(postings, id, v), dim) == ListOf(postings, dim)
    decreases |v|
  {
    hide Indexed;
    if v == [] {
      WithoutAbsent(ListOf(postings, dim), id);
    } else {
      var n := |v| - 1;
      InsertAppends(postings, id, v[..n], dim);
      InDimsLast(v, dim);
      var list := ListOf(InsertAll(postings, id, v[..n]), dim);
      assert (list + [(id, v[n].1)])[..|list|] == list;
    }
  }

  lemma {:induction false} WithoutTwice(list: seq<(Id, real)>, id: Id)
    ensures Without(Without(list, id), id) == Without(list, id)
  {
    WithoutWeights(list, id, id);
    WithoutAbsent(Without(list, id), id);
  }

  lemma {:induction false} RemoveEffect(p: Postings, id: Id, v: Vector, dim: nat)
    ensures var q := RemoveAll(p, id, v);
      if InDims(v, dim) && dim in p then
        && (dim in q <==> Without(p[dim], id) != [])
        && (dim in q ==> q[dim] == Without(p[dim], id))
      else (dim in q <==> dim in p) && (dim in q ==> q[dim] == p[dim])
    decreases |v|
  {
    if v != [] {
      var n := |v| - 1;
      RemoveEffect(p, id, v[..n], dim);
      InDimsLast(v, dim);
      if dim in p { WithoutTwice(p[dim], id); }
    }
  }

  /** Inserting an absent entity and removing it with the same vector restores the postings. */
  lemma InsertRemoveRestores(postings: Postings, id: Id, v: Vector)
    requires NoEmptyList(postings)
    requires forall dim :: WeightsIn(ListOf(postings, dim), id) == []
    ensures RemoveAll(InsertAll(postings, id, v), id, v) == postings
  {
    var mid := InsertAll(postings, id, v);
    var after := RemoveAll(mid, id, v);
    forall dim ensures (dim in after <==> dim in postings) && (dim in postings ==> after[dim] == postings[dim]) {
      InsertAppends(postings, id, v, dim);
      RemoveEffect(mid, id, v, dim);
    }
  }

  // ----- runs -----

  datatype Op = Add(id: Id, v: Vector) | Drop(id: Id)

  /** An entity is absent before each insert and present before each removal. */
  ghost predicate LegalRun(ops: seq<Op>) {
    ops == [] || (
      var n := |ops| - 1;
      LegalRun(ops[..n]) && match ops[n]
        case Add(id, _) => id !in DocsAfter(ops[..n])
        case Drop(id) => id in DocsAfter(ops[..n]))
  }

  ghost function DocsAfter(ops: seq<Op>): map<Id, Vector> {
    if ops == [] then map[]
    else
      var docs := DocsAfter(ops[..|ops| - 1]);
      match ops[|ops| - 1]
      case Add(id, v) => docs[id := v]
      case Drop(id) => docs - {id}
  }

  /** The postings after a run; each removal passes the vector that was inserted. */
  ghost function PostingsAfter(ops: seq<Op>): Postings {
    if ops == [] then map[]
    else
      var p, docs := PostingsAfter(ops[..|ops| - 1]), DocsAfter(ops[..|ops| - 1]);
      match ops[|ops| - 1]
      case Add(id, v) => InsertAll(p, id, v)
      case Drop(id) => if id in docs then RemoveAll(p, id, docs[id]) else p
  }

  lemma {:induction false} RunHolds(ops: seq<Op>)
    requires LegalRun(ops)
    ensures Holds(PostingsAfter(ops), DocsAfter(ops))
    decreases |ops|
  {
    if ops != [] {
      var n := |ops| - 1;
      RunHolds(ops[..n]);
      var p, docs := PostingsAfter(ops[..n]), DocsAfter(ops[..n]);
      match ops[n] {
        case Add(id, v) => InsertHolds(p, docs, id, v);
        case Drop(id) => RemoveHolds(p, docs, id);
      }
    }
  }

  // ----- search -----

  /** What the scan of one posting list adds to the score of `id`. */
  ghost function ListScore(list: seq<(Id, real)>, id: Id, q: real): real {
    Weighted(WeightsIn(list, id), q)
  }

  ghost function ScanScore(postings: Postings, query: Vector, id: Id): real {
    if query == [] then 0.0
    else
      var n := |query| - 1;
      ScanScore(postings, query[..n], id) + ListScore(ListOf(postings, query[n].0), id, query[n].1)
  }

  ghost predicate ScanHit(postings: Postings, query: Vector, id: Id) {
    exists i :: 0 <= i < |query| && WeightsIn(ListOf(postings, query[i].0), id) != []
  }

  /** The score map after the query prefix `done` and the list prefix `part` of weight `q`. */
  ghost predicate Scored(scores: map<Id, real>, postings: Postings, done: Vector, part: seq<(Id, real)>, q: real) {
    forall id :: ScoredAt(scores, postings, done, part, q, id)
  }

  ghost predicate ScoredAt(scores: map<Id, real>, postings: Postings, done: Vector, part: seq<(Id, real)>, q: real, id: Id) {
    && (id in scores <==> ScanHit(postings, done, id) || WeightsIn(part, id) != [])
    && (id in scores ==> scores[id] == ScanScore(postings, done, id) + ListScore(part, id, q))
  }

  lemma {:induction false} NoHitNoScore(postings: Postings, query: Vector, id: Id)
    requires !ScanHit(postings, query, id)
    ensures ScanScore(postings, query, id) == 0.0
  {
    if query != [] {
      var n := |query| - 1;
      assert WeightsIn(ListOf(postings, query[n].0), id) == [];
      assert forall i :: 0 <= i < n ==> query[..n][i] == query[i];
      NoHitNoScore(postings, query[..n], id);
    }
  }

  lemma ScoreEntry(scores: map<Id, real>, postings: Postings, done: Vector, list: seq<(Id, real)>, j: nat, q: real)
    requires j < |list| && Scored(scores, postings, done, list[..j], q)
    ensures var (id, w) := list[j];
      Scored(scores[id := (if id in scores then scores[id] else 0.0) + Mul(q, w)], postings, done, list[..j + 1], q)
  {
    hide Mul, ScanHit, ScanScore, WeightsIn, Weighted;
    var (id, w) := list[j];
    var next := scores[id := (if id in scores then scores[id] else 0.0) + Mul(q, w)];
    var part := list[..j + 1];
    forall x ensures ScoredAt(next, postings, done, part, q, x) {
      assert ScoredAt(scores, postings, done, list[..j], q, x);
      EntryScore(list, j, x, q);
      if x == id && x !in scores {
        NoHitNoScore(postings, done, x);
        NoWeights();
      }
    }
  }

  lemma EntryScore(list: seq<(Id, real)>, j: nat, x: Id, q: real)
    requires j < |list|
    ensures list[j].0 == x ==> WeightsIn(list[..j + 1], x) != []
    ensures list[j].0 == x ==> ListScore(list[..j + 1], x, q) == ListScore(list[..j], x, q) + Mul(q, list[j].1)
    ensures list[j].0 != x ==> WeightsIn(list[..j + 1], x) == WeightsIn(list[..j], x)
    ensures list[j].0 != x ==> ListScore(list[..j + 1], x, q) == ListScore(list[..j], x, q)
  {
    hide Mul;
    assert list[..j + 1][..j] == list[..j];
    var ws := WeightsIn(list[..j], x);
    assert (ws + [list[j].1])[..|ws|] == ws;
    assert ws + [] == ws;
  }

  lemma ScoreList(scores: map<Id, real>, postings: Postings, query: Vector, i: nat)
    requires i < |query| && Scored(scores, postings, query[..i], ListOf(postings, query[i].0), query[i].1)
    ensures Scored(scores, postings, query[..i + 1], [], 0.0)
  {
    hide Weighted, WeightsIn, ListScore, ScanHit, ScanScore;
    var done := query[..i + 1];
    forall id ensures ScoredAt(scores, postings, done, [], 0.0, id) {
      assert ScoredAt(scores, postings, query[..i], ListOf(postings, query[i].0), query[i].1, id);
      QueryEntry(postings, query, i, id);
      NoEntries(id, 0.0);
    }
  }

  lemma QueryEntry(postings: Postings, query: Vector, i: nat, id: Id)
    requires i < |query|
    ensures ScanHit(postings, query[..i + 1], id) <==>
      ScanHit(postings, query[..i], id) || WeightsIn(ListOf(postings, query[i].0), id) != []
    ensures ScanScore(postings, query[..i + 1], id) ==
      ScanScore(postings, query[..i], id) + ListScore(ListOf(postings, query[i].0), id, query[i].1)
  {
    hide WeightsIn, ListScore;
    var a, b := query[..i], query[..i + 1];
    assert b[..i] == a;
    if k :| 0 <= k < |b| && WeightsIn(ListOf(postings, b[k].0), id) != [] {
      assert k == i || a[k] == b[k];
    }
    if k :| 0 <= k < |a| && WeightsIn(ListOf(postings, a[k].0), id) != [] {
      assert b[k] == a[k];
    }
    if WeightsIn(ListOf(postings, query[i].0), id) != [] {
      assert b[i] == query[i];
    }
  }

  lemma NoWeights()
    ensures forall q :: Weighted([], q) == 0.0
  {}

  lemma NoEntries(id: Id, q: real)
    ensures WeightsIn([], id) == [] && ListScore([], id, q) == 0.0
  {}

  lemma ScoredRestart(scores: map<Id, real>, postings: Postings, done: Vector, q: real)
    requires Scored(scores, postings, done, [], 0.0)
    ensures Scored(scores, postings, done, [], q)
  {
    hide ScanHit, ScanScore, WeightsIn, ListScore;
    forall id ensures ScoredAt(scores, postings, done, [], q, id) {
      assert ScoredAt(scores, postings, done, [], 0.0, id);
      NoEntries(id, 0.0);
      NoEntries(id, q);
    }
  }

  /** Each hit entity once, with its accumulated score. */
  ghost predicate Hits(postings: Postings, query: Vector, pairs: seq<(Id, real)>) {
    && DistinctIds(pairs)
    && forall p :: p in pairs <==> ScanHit(postings, query, p.0) && p.1 == ScanScore(postings, query, p.0)
  }

  ghost predicate Answers(postings: Postings, query: Vector, k: nat, results: seq<(Id, real)>) {
    exists pairs :: Hits(postings, query, pairs) && IsTopK(pairs, results, PairScore, k)
  }

  class SparseIndex {
    var postings: Postings

    constructor ()
      ensures postings == map[]
    {
      postings := map[];
    }

    method Insert(id: Id, v: Vector)
      modifies this
      ensures postings == InsertAll(old(postings), id, v)
    {
      for i := 0 to |v|
        invariant postings == InsertAll(old(postings), id, v[..i])
      {
        assert v[..i + 1][..i] == v[..i];
        var (dim, weight) := v[i];
        if Indexed(weight) {
          postings := postings[dim := ListOf(postings, dim) + [(id, weight)]];
        }
      }
      assert v[..|v|] == v;
    }

    method Remove(id: Id, v: Vector)
      modifies this
      ensures postings == RemoveAll(old(postings), id, v)
    {
      for i := 0 to |v|
        invariant postings == RemoveAll(old(postings), id, v[..i])
      {
        assert v[..i + 1][..i] == v[..i];
        var dim := v[i].0;
        if dim in postings {
          var kept := Without(postings[dim], id);
          postings := if kept == [] then postings - {dim} else postings[dim := kept];
        }
      }
      assert v[..|v|] == v;
    }

    /** `pairs` are all ids met by the scan with their accumulated scores. */
    method Search(query: Vector, k: nat) returns (results: seq<(Id, real)>)
      ensures Answers(postings, query, k, results)
    {
      hide ScanHit, ScanScore, Weighted, WeightsIn, Mul, Scored;
      var scores: map<Id, real> := map[];
      NothingScored(postings);
      assert query[..0] == [];
      for i := 0 to |query|
        invariant Scored(scores, postings, query[..i], [], 0.0)
      {
        var (dim, queryWeight) := query[i];
        ScoredRestart(scores, postings, query[..i], queryWeight);
        var list := ListOf(postings, dim);
        assert list[..0] == [];
        for j := 0 to |list|
          invariant Scored(scores, postings, query[..i], list[..j], queryWeight)
        {
          ScoreEntry(scores, postings, query[..i], list, j, queryWeight);
          var (id, w) := list[j];
          scores := scores[id := (if id in scores then scores[id] else 0.0) + Mul(queryWeight, w)];
        }
        assert list[..|list|] == list;
        ScoreList(scores, postings, query, i);
      }
      assert query[..|query|] == query;
      AllScored(scores, postings, query);
      var drained := Drain(scores);
      assert Hits(postings, query, drained);
      SortTruncateTopK(drained, PairScore, k);
      results := Truncate(SortDesc(drained, PairScore), k);
    }
  }

  lemma NothingScored(postings: Postings)
    ensures Scored(map[], postings, [], [], 0.0)
  {}

  lemma AllScored(scores: map<Id, real>, postings: Postings, query: Vector)
    requires Scored(scores, postings, query, [], 0.0)
    ensures forall id :: id in scores <==> ScanHit(postings, query, id)
    ensures forall id :: id in scores ==> scores[id] == ScanScore(postings, query, id)
  {
    hide ScanHit, ScanScore, WeightsIn, ListScore;
    forall id
      ensures (id in scores <==> ScanHit(postings, query, id)) && (id in scores ==> scores[id] == ScanScore(postings, query, id))
    {
      assert ScoredAt(scores, postings, query, [], 0.0, id);
      NoEntries(id, 0.0);
    }
  }

  lemma {:induction false} ScanIsDot(postings: Postings, docs: map<Id, Vector>, query: Vector, id: Id)
    requires Holds(postings, docs) && id in docs
    ensures ScanScore(postings, query, id) == Dot(query, docs[id])
  {
    hide Weighted, WeightsIn, WeightsAt;
    if query != [] {
      ScanIsDot(postings, docs, query[..|query| - 1], id);
    }
  }

  /** On the postings of a document set the scan meets exactly the documents that share an
      indexed dimension with the query, and scores each with its brute-force dot product. */
  lemma {:induction false} SearchIsBruteForce(postings: Postings, docs: map<Id, Vector>, query: Vector, id: Id)
    requires Holds(postings, docs)
    ensures ScanHit(postings, query, id) <==> id in docs && Shares(query, docs[id])
    ensures id in docs ==> ScanScore(postings, query, id) == Dot(query, docs[id])
  {
    hide WeightsIn, WeightsAt;
    if id in docs {
      ScanIsDot(postings, docs, query, id);
    }
  }

  /** After any legal run an answer shows distinct documents that are present and share an indexed
      dimension with the query, each with its dot product, in falling order: all of them or `k`, and
      none left out scores more. */
  lemma SearchAfterRun(ops: seq<Op>, query: Vector, results: seq<(Id, real)>, k: nat)
    requires LegalRun(ops) && Answers(PostingsAfter(ops), query, k, results)
    ensures var docs := DocsAfter(ops);
      && |results| <= k
      && (forall p :: p in results ==> p.0 in docs && Shares(query, docs[p.0]) && p.1 == Dot(query, docs[p.0]))
      && (forall i, j :: 0 <= i < j < |results| ==> results[i].0 != results[j].0 && results[i].1 >= results[j].1)
      && (forall id :: id in docs && Shares(query, docs[id]) && (forall p :: p in results ==> p.0 != id) ==>
        |results| == k && forall p :: p in results ==> p.1 >= Dot(query, docs[id]))
    ensures NoEmptyList(PostingsAfter(ops))
  {
    RunHolds(ops);
    var postings, docs := PostingsAfter(ops), DocsAfter(ops);
    var pairs :| Hits(postings, query, pairs) && IsTopK(pairs, results, PairScore, k);
    forall p: (Id, real) ensures p in pairs <==> p.0 in docs && Shares(query, docs[p.0]) && p.1 == Dot(query, docs[p.0]) {
      SearchIsBruteForce(postings, docs, query, p.0);
      hide ScanHit, ScanScore, Dot, Shares;
    }
    DistinctTop(pairs, results, k);
    hide IsTopK, Hits, Dot, Shares, DistinctIds;
    var rest := TopPairs(pairs, results, k);
    forall id | id in docs && Shares(query, docs[id]) && (forall p :: p in results ==> p.0 != id)
      ensures |results| == k && forall p :: p in results ==> p.1 >= Dot(query, docs[id])
    {
      var q := (id, Dot(query, docs[id]));
      assert q in pairs && q in rest;
    }
  }

  lemma DistinctTop(pairs: seq<(Id, real)>, results: seq<(Id, real)>, k: nat)
    requires DistinctIds(pairs) && IsTopK(pairs, results, PairScore, k)
    ensures forall i, j :: 0 <= i < j < |results| ==> results[i].0 != results[j].0
    ensures |results| == k || forall p :: p in pairs ==> p in results
  {
    var rest :| Selects(pairs, results, rest, PairScore, k);
    assert multiset(results + rest) == multiset(pairs);
    DistinctPermutation(pairs, results + rest);
    forall i, j | 0 <= i < j < |results| ensures results[i].0 != results[j].0 {
      assert (results + rest)[i] == results[i] && (results + rest)[j] == results[j];
    }
    assert |multiset(pairs)| == |pairs| && |multiset(results) + multiset(rest)| == |results| + |rest|;
    if |results| != k {
      assert rest == [];
      forall p | p in pairs ensures p in results {
        assert p in multiset(pairs);
        assert p in multiset(results);
      }
    }
  }
}
