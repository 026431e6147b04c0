/** Sorting by descending score and what it means for a result to be a top-k. */
module Ranking {
  import opened Basics

  /** A score; a missing one compares as minus infinity. */
  datatype Score = NegInf | Fin(value: real)

  predicate AtLeast(a: Score, b: Score) {
    b.NegInf? || (a.Fin? && a.value >= b.value)
  }

  function Keys<T>(xs: seq<T>, key: T -> Score): (r: seq<Score>)
    ensures |r| == |xs| && forall i :: 0 <= i < |xs| ==> r[i] == key(xs[i])
  {
    seq(|xs|, i requires 0 <= i < |xs| => key(xs[i]))
  }

  ghost predicate Descending(s: seq<Score>) {
    forall i, j :: 0 <= i < j < |s| ==> AtLeast(s[i], s[j])
  }

  /** The library's stable sort by descending score: ties keep their order. */
  function SortDesc<T>(xs: seq<T>, key: T -> Score): seq<T> {
    if xs == [] then [] else InsertDesc(xs[0], SortDesc(xs[1..], key), key)
  }

  function InsertDesc<T>(x: T, sorted: seq<T>, key: T -> Score): seq<T> {
    if sorted == [] || AtLeast(key(x), key(sorted[0])) then [x] + sorted
    else [sorted[0]] + InsertDesc(x, sorted[1..], key)
  }

  function Truncate<T>(xs: seq<T>, k: nat): seq<T> {
    if |xs| <= k then xs else xs[..k]
  }

  function Min(a: nat, b: nat): nat {
    if a <= b then a else b
  }

  lemma {:induction false} InsertDescPermutes<T>(x: T, sorted: seq<T>, key: T -> Score)
    ensures multiset(InsertDesc(x, sorted, key)) == multiset{x} + multiset(sorted)
  {
    if sorted != [] && !AtLeast(key(x), key(sorted[0])) {
      InsertDescPermutes(x, sorted[1..], key);
      assert sorted == [sorted[0]] + sorted[1..];
    }
  }

  lemma {:induction false} InsertDescSorted<T>(x: T, sorted: seq<T>, key: T -> Score)
    requires Descending(Keys(sorted, key))
    ensures Descending(Keys(InsertDesc(x, sorted, key), key))
  {
    hide Keys;
    var s := Keys(sorted, key);
    if sorted == [] || AtLeast(key(x), key(sorted[0])) {
      assert Keys([x] + sorted, key) == [key(x)] + s;
      PrependDescending(key(x), s);
    } else {
      var tail := sorted[1..];
      assert Keys(tail, key) == s[1..];
      InsertDescSorted(x, tail, key);
      InsertDescPermutes(x, tail, key);
      var rest := InsertDesc(x, tail, key);
      assert Keys([sorted[0]] + rest, key) == [s[0]] + Keys(rest, key);
      forall j | 0 <= j < |rest| ensures AtLeast(s[0], key(rest[j])) {
        assert rest[j] in multiset(rest);
        if rest[j] != x {
          assert rest[j] in multiset(tail);
          var i :| 0 <= i < |tail| && tail[i] == rest[j];
          assert s[i + 1] == key(rest[j]);
        }
      }
      PrependBelow(s[0], Keys(rest, key));
    }
  }

  lemma PrependDescending(a: Score, s: seq<Score>)
    requires Descending(s) && (s != [] ==> AtLeast(a, s[0]))
    ensures Descending([a] + s)
  {
    forall j | 0 <= j < |s| ensures AtLeast(a, s[j]) {
      if j > 0 { assert AtLeast(s[0], s[j]); }
    }
  }

  lemma PrependBelow(a: Score, s: seq<Score>)
    requires Descending(s) && forall j :: 0 <= j < |s| ==> AtLeast(a, s[j])
    ensures Descending([a] + s)
  {}

  lemma {:induction false} SortDescSorted<T>(xs: seq<T>, key: T -> Score)
    ensures Descending(Keys(SortDesc(xs, key), key))
    ensures multiset(SortDesc(xs, key)) == multiset(xs)
    ensures |SortDesc(xs, key)| == |xs|
  {
    if xs != [] {
      SortDescSorted(xs[1..], key);
      InsertDescSorted(xs[0], SortDesc(xs[1..], key), key);
      InsertDescPermutes(xs[0], SortDesc(xs[1..], key), key);
      assert xs == [xs[0]] + xs[1..];
      assert |multiset(SortDesc(xs, key))| == |multiset(xs)|;
    }
  }

  /** Nothing in `rest` scores above anything in `res`. */
  ghost predicate Above<T>(res: seq<T>, rest: seq<T>, key: T -> Score) {
    forall x, y :: x in res && y in rest ==> AtLeast(key(x), key(y))
  }

  /** `res` with `rest` left over is a top-k selection of `all`. */
  ghost predicate Selects<T>(all: seq<T>, res: seq<T>, rest: seq<T>, key: T -> Score, k: nat) {
    && |res| == Min(k, |all|)
    && Descending(Keys(res, key))
    && multiset(res) + multiset(rest) == multiset(all)
    && Above(res, rest, key)
  }

  ghost predicate IsTopK<T(!new)>(all: seq<T>, res: seq<T>, key: T -> Score, k: nat) {
    exists rest :: Selects(all, res, rest, key, k)
  }

  lemma SplitAbove<T>(s: seq<T>, n: nat, key: T -> Score)
    requires Descending(Keys(s, key)) && n <= |s|
    ensures Above(s[..n], s[n..], key) && Descending(Keys(s[..n], key))
  {
    var ks := Keys(s, key);
    hide Keys, AtLeast;
    var res, rest := s[..n], s[n..];
    assert Keys(res, key) == ks[..n];
    forall x, y | x in res && y in rest ensures AtLeast(key(x), key(y)) {
      var i :| 0 <= i < |res| && res[i] == x;
      var j :| 0 <= j < |rest| && rest[j] == y;
      assert AtLeast(ks[i], ks[n + j]);
    }
  }

  /** Sorting and truncating yields a top-k. */
  lemma SortTruncateTopK<T(!new)>(xs: seq<T>, key: T -> Score, k: nat)
    ensures IsTopK(xs, Truncate(SortDesc(xs, key), k), key, k)
  {
    SortDescSorted(xs, key);
    var s := SortDesc(xs, key);
    var n := Min(k, |s|);
    SplitAbove(s, n, key);
    hide SortDesc, Above, Descending;
    assert s == s[..n] + s[n..];
    assert Truncate(s, k) == s[..n];
    assert Selects(xs, s[..n], s[n..], key, k);
  }

  // ----- the scores of a top-k are determined -----

  lemma {:induction false} DescendingUnique(s: seq<Score>, t: seq<Score>)
    requires Descending(s) && Descending(t) && multiset(s) == multiset(t)
    ensures s == t
    decreases |s|
  {
    assert |s| == |multiset(s)| == |multiset(t)| == |t|;
    if s != [] {
      SameHead(s, t);
      assert Descending(s[1..]) && Descending(t[1..]);
      hide Descending;
      assert s == [s[0]] + s[1..] && t == [t[0]] + t[1..];
      assert multiset(s[1..]) == multiset(s) - multiset{s[0]};
      assert multiset(t[1..]) == multiset(t) - multiset{s[0]};
      DescendingUnique(s[1..], t[1..]);
    }
  }

  lemma SameHead(s: seq<Score>, t: seq<Score>)
    requires Descending(s) && Descending(t) && multiset(s) == multiset(t) && s != [] && t != []
    ensures s[0] == t[0]
  {
    assert s[0] in multiset(t) && t[0] in multiset(s);
    var i :| 0 <= i < |t| && t[i] == s[0];
    var j :| 0 <= j < |s| && s[j] == t[0];
    assert i > 0 ==> AtLeast(t[0], t[i]);
    assert j > 0 ==> AtLeast(s[0], s[j]);
  }

  function Drop<T>(xs: seq<T>, j: nat): seq<T>
    requires j < |xs|
  {
    xs[..j] + xs[j + 1..]
  }

  lemma DropOne<T>(xs: seq<T>, j: nat)
    requires j < |xs|
    ensures |Drop(xs, j)| == |xs| - 1 && multiset(Drop(xs, j)) == multiset(xs) - multiset{xs[j]}
    ensures multiset(xs) == multiset(Drop(xs, j)) + multiset{xs[j]}
  {
    assert xs == xs[..j] + [xs[j]] + xs[j + 1..];
  }

  lemma KeysDropOne<T>(xs: seq<T>, j: nat, key: T -> Score)
    requires j < |xs|
    ensures multiset(Keys(xs, key)) == multiset(Keys(Drop(xs, j), key)) + multiset{key(xs[j])}
  {
    DropOne(Keys(xs, key), j);
    assert Keys(Drop(xs, j), key) == Drop(Keys(xs, key), j);
  }

  lemma {:induction false} KeysOfPermutation<T>(xs: seq<T>, ys: seq<T>, key: T -> Score)
    requires multiset(xs) == multiset(ys)
    ensures multiset(Keys(xs, key)) == multiset(Keys(ys, key))
    decreases |xs|
  {
    hide Drop;
    assert |xs| == |multiset(xs)| == |multiset(ys)| == |ys|;
    if xs != [] {
      assert xs[0] in multiset(ys);
      var j :| 0 <= j < |ys| && ys[j] == xs[0];
      DropOne(xs, 0);
      DropOne(ys, j);
      KeysOfPermutation(Drop(xs, 0), Drop(ys, j), key);
      KeysDropOne(xs, 0, key);
      KeysDropOne(ys, j, key);
    }
  }

  /** Any two top-k selections of the same rows show the same scores. */
  lemma TopKScoresUnique<T(!new)>(a: seq<T>, b: seq<T>, r: seq<T>, q: seq<T>, key: T -> Score, k: nat)
    requires multiset(a) == multiset(b) && IsTopK(a, r, key, k) && IsTopK(b, q, key, k)
    ensures Keys(r, key) == Keys(q, key)
  {
    hide SortDesc, Above, AtLeast, Drop;
    assert |a| == |multiset(a)| == |multiset(b)| == |b|;
    var s :| Selects(a, r, s, key, k);
    var t :| Selects(b, q, t, key, k);
    var u, v := r + SortDesc(s, key), q + SortDesc(t, key);
    SelectedSorted(a, r, s, key, k);
    SelectedSorted(b, q, t, key, k);
    KeysOfPermutation(u, v, key);
    DescendingUnique(Keys(u, key), Keys(v, key));
    assert Keys(u, key)[..|r|] == Keys(r, key) && Keys(v, key)[..|q|] == Keys(q, key);
  }

  lemma SelectedSorted<T>(all: seq<T>, res: seq<T>, rest: seq<T>, key: T -> Score, k: nat)
    requires Selects(all, res, rest, key, k)
    ensures Descending(Keys(res + SortDesc(rest, key), key))
    ensures multiset(res + SortDesc(rest, key)) == multiset(all)
  {
    SortDescSorted(rest, key);
    var s := SortDesc(rest, key);
    var a, b := Keys(res, key), Keys(s, key);
    hide SortDesc, AtLeast, Keys;
    assert Keys(res + s, key) == a + b;
    forall i, j | 0 <= i < |a| && 0 <= j < |b| ensures AtLeast(a[i], b[j]) {
      assert s[j] in multiset(s);
      assert s[j] in rest && res[i] in res;
    }
    ConcatDescending(a, b);
  }

  lemma ConcatDescending(a: seq<Score>, b: seq<Score>)
    requires Descending(a) && Descending(b)
    requires forall i, j :: 0 <= i < |a| && 0 <= j < |b| ==> AtLeast(a[i], b[j])
    ensures Descending(a + b)
  {
    hide AtLeast;
  }

  // ----- merging -----

  function Flatten<T>(parts: seq<seq<T>>): seq<T> {
    if parts == [] then [] else Flatten(parts[..|parts| - 1]) + parts[|parts| - 1]
  }

  lemma SubmultisetSize<T>(a: multiset<T>, b: multiset<T>)
    ensures a <= b ==> |a| <= |b|
  {
    assert a <= b ==> b == a + (b - a);
  }

  /** If `x` is only in the smaller of two multisets, something else is in the other more often. */
  lemma Pigeonhole<T(!new)>(t: multiset<T>, r: multiset<T>, x: T) returns (z: T)
    requires |t| >= |r| && x in r && x !in t
    ensures t[z] > r[z]
  {
    SubmultisetSize(t + multiset{x}, r);
    assert |t + multiset{x}| == |t| + 1;
    z :| (t + multiset{x})[z] > r[z];
  }

  lemma MultisetRegroup<T>(a: multiset<T>, b: multiset<T>, c: multiset<T>)
    ensures (a + b) + c == a + (b + c)
  {}

  /** Truncating one part to its own top-k loses nothing from a top-k of the whole. */
  lemma ReplacePart<T(!new)>(before: seq<T>, part: seq<T>, top: seq<T>, res: seq<T>, key: T -> Score, k: nat)
    requires IsTopK(part, top, key, k)
    requires IsTopK(before + top, res, key, k)
    ensures IsTopK(before + part, res, key, k)
  {
    var lost :| Selects(part, top, lost, key, k);
    var rest :| Selects(before + top, res, rest, key, k);
    assert multiset(before + part) == multiset(before) + multiset(part);
    assert multiset(before + top) == multiset(before) + multiset(top);
    assert |multiset(part)| == |part| && |multiset(top) + multiset(lost)| == |top| + |lost|;
    assert |before + part| == |before| + |part| && |before + top| == |before| + |top|;
    forall x, y | x in res && y in rest + lost ensures AtLeast(key(x), key(y)) {
      if y !in rest {
        LostBelow(before, part, top, lost, res, rest, key, k, x, y);
      }
    }
    assert multiset(rest + lost) == multiset(rest) + multiset(lost);
    MultisetRegroup(multiset(res), multiset(rest), multiset(lost));
    MultisetRegroup(multiset(before), multiset(top), multiset(lost));
    assert Selects(before + part, res, rest + lost, key, k);
  }

  lemma LostBelow<T(!new)>(before: seq<T>, part: seq<T>, top: seq<T>, lost: seq<T>, res: seq<T>, rest: seq<T>,
                     key: T -> Score, k: nat, x: T, y: T)
    requires Selects(part, top, lost, key, k) && Selects(before + top, res, rest, key, k)
    requires x in res && y in lost
    ensures AtLeast(key(x), key(y))
  {
    var t, r, q := multiset(top), multiset(res), multiset(rest);
    assert |multiset(part)| == |part| && |t + multiset(lost)| == |top| + |lost|;
    assert |top| == k >= |res|;
    if x in t {
      assert x in top;
    } else {
      assert |r| == |res|;
      var z := Pigeonhole(t, r, x);
      assert r + q == multiset(before + top) == multiset(before) + t;
      assert (r + q)[z] == r[z] + q[z] && (multiset(before) + t)[z] == multiset(before)[z] + t[z];
      assert t[z] <= r[z] + q[z];
      assert z in top && z in rest;
      assert AtLeast(key(x), key(z)) && AtLeast(key(z), key(y));
    }
  }

  ghost predicate EachTopK<T(!new)>(parts: seq<seq<T>>, tops: seq<seq<T>>, key: T -> Score, k: nat) {
    |tops| == |parts| && forall i :: 0 <= i < |parts| ==> IsTopK(parts[i], tops[i], key, k)
  }

  lemma TopKOfPermutation<T(!new)>(a: seq<T>, b: seq<T>, res: seq<T>, key: T -> Score, k: nat)
    requires multiset(a) == multiset(b) && IsTopK(a, res, key, k)
    ensures IsTopK(b, res, key, k)
  {
    assert |a| == |multiset(a)| == |multiset(b)| == |b|;
    var rest :| Selects(a, res, rest, key, k);
    assert Selects(b, res, rest, key, k);
  }

  /** A top-k of the parts' own top-ks is a top-k of everything. */
  lemma {:induction false} MergeTopK<T(!new)>(extra: seq<T>, parts: seq<seq<T>>, tops: seq<seq<T>>, res: seq<T>,
                                             key: T -> Score, k: nat)
    requires EachTopK(parts, tops, key, k)
    requires IsTopK(Flatten(tops) + extra, res, key, k)
    ensures IsTopK(Flatten(parts) + extra, res, key, k)
    decreases |parts|
  {
    if parts != [] {
      var n := |parts| - 1;
      var fp, ft := Flatten(parts[..n]), Flatten(tops[..n]);
      assert (ft + tops[n]) + extra == ft + (tops[n] + extra);
      MergeTopK(tops[n] + extra, parts[..n], tops[..n], res, key, k);
      TopKOfPermutation(fp + (tops[n] + extra), (fp + extra) + tops[n], res, key, k);
      ReplacePart(fp + extra, parts[n], tops[n], res, key, k);
      TopKOfPermutation((fp + extra) + parts[n], (fp + parts[n]) + extra, res, key, k);
    }
  }

  // ----- scored ids out of a hash map -----

  function PairScore(p: (Id, real)): Score {
    Fin(p.1)
  }

  ghost predicate DistinctIds(results: seq<(Id, real)>) {
    forall i, j :: 0 <= i < j < |results| ==> results[i].0 != results[j].0
  }

  /** A top-k of scored pairs, by the scores themselves: none left out scores more than one taken,
      and those taken come in falling order. */
  lemma TopPairs(all: seq<(Id, real)>, results: seq<(Id, real)>, k: nat) returns (rest: seq<(Id, real)>)
    requires IsTopK(all, results, PairScore, k)
    ensures forall p :: p in all <==> p in results || p in rest
    ensures forall p, q :: p in results && q in rest ==> p.1 >= q.1
    ensures |results| == Min(k, |all|) && forall i, j :: 0 <= i < j < |results| ==> results[i].1 >= results[j].1
  {
    rest :| Selects(all, results, rest, PairScore, k);
    forall p ensures p in all <==> p in results || p in rest {
      assert p in all <==> p in multiset(all);
      assert p in multiset(all) <==> p in multiset(results) || p in multiset(rest);
    }
    forall p, q | p in results && q in rest ensures p.1 >= q.1 {
      assert AtLeast(PairScore(p), PairScore(q));
    }
    var ks := Keys(results, PairScore);
    forall i, j | 0 <= i < j < |results| ensures results[i].1 >= results[j].1 {
      assert AtLeast(ks[i], ks[j]);
    }
  }

  /** Draining a hash map: its pairs in some order. */
  method Drain(scores: map<Id, real>) returns (pairs: seq<(Id, real)>)
    ensures DistinctIds(pairs)
    ensures forall p :: p in pairs <==> p.0 in scores && scores[p.0] == p.1
  {
    pairs := [];
    var todo := scores.Keys;
    while todo != {}
      invariant todo <= scores.Keys && DistinctIds(pairs)
      invariant forall p :: p in pairs <==> p.0 in scores && p.0 !in todo && scores[p.0] == p.1
      decreases |todo|
    {
      var id :| id in todo;
      forall i | 0 <= i < |pairs| ensures pairs[i].0 != id {
        assert pairs[i] in pairs;
      }
      pairs := pairs + [(id, scores[id])];
      todo := todo - {id};
    }
  }

  lemma DistinctPermutation(pairs: seq<(Id, real)>, r: seq<(Id, real)>)
    requires DistinctIds(pairs) && multiset(pairs) == multiset(r)
    ensures DistinctIds(r)
  {
    forall i, j | 0 <= i < j < |r| ensures r[i].0 != r[j].0 {
      if r[i].0 == r[j].0 {
        assert r[i] in multiset(pairs) && r[j] in multiset(pairs);
        var a :| 0 <= a < |pairs| && pairs[a] == r[i];
        var b :| 0 <= b < |pairs| && pairs[b] == r[j];
        assert a == b;
        TwoCopies(r, i, j);
        OneCopy(pairs, a);
      }
    }
  }

  lemma TwoCopies(r: seq<(Id, real)>, i: nat, j: nat)
    requires i < j < |r| && r[i] == r[j]
    ensures multiset(r)[r[i]] >= 2
  {
    assert r == r[..i] + [r[i]] + r[i + 1..j] + [r[j]] + r[j + 1..];
  }

  lemma OneCopy(pairs: seq<(Id, real)>, a: nat)
    requires a < |pairs| && DistinctIds(pairs)
    ensures multiset(pairs)[pairs[a]] == 1
  {
    assert pairs == pairs[..a] + [pairs[a]] + pairs[a + 1..];
    assert pairs[a] !in pairs[..a] && pairs[a] !in pairs[a + 1..];
  }
}
