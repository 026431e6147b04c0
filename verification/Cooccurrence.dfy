/** Co-occurrence scores between pairs of entities: recording result lists and decaying. */
module Cooccurrence {
  import opened Basics

  type Pair = (Id, Id)

  type Scores = map<Pair, real>

  // ----- canonical keys -----

  /** Lexicographic order on identifiers. */
  predicate TextAtMost(a: Id, b: Id) {
    a == [] || (b != [] && (a[0] < b[0] || (a[0] == b[0] && TextAtMost(a[1..], b[1..]))))
  }

  function CanonicalPair(a: Id, b: Id): Pair {
    if TextAtMost(a, b) then (a, b) else (b, a)
  }

  predicate Canonical(p: Pair) {
    TextAtMost(p.0, p.1)
  }

  lemma {:induction false} TextTotal(a: Id, b: Id)
    ensures TextAtMost(a, b) || TextAtMost(b, a)
    ensures TextAtMost(a, b) && TextAtMost(b, a) ==> a == b
  {
    if a != [] && b != [] {
      TextTotal(a[1..], b[1..]);
      if a[0] == b[0] && a[1..] == b[1..] {
        assert a == [a[0]] + a[1..] && b == [b[0]] + b[1..];
      }
    }
  }

  /** One key for both orders of a pair, and no other pair shares it. */
  lemma CanonicalKey(a: Id, b: Id, c: Id, d: Id)
    ensures Canonical(CanonicalPair(a, b))
    ensures CanonicalPair(a, b) == CanonicalPair(c, d) <==> (a == c && b == d) || (a == d && b == c)
  {
    TextTotal(a, b);
    TextTotal(c, d);
    hide TextAtMost;
  }

  // ----- sums over a score map -----

  ghost function Sum(m: Scores, f: Pair -> bool): real
    decreases |m|
  {
    if m == map[] then 0.0
    else
      var k :| k in m;
      (if f(k) then m[k] else 0.0) + Sum(m - {k}, f)
  }

  lemma {:induction false} SumTake(m: Scores, f: Pair -> bool, k: Pair)
    requires k in m
    ensures Sum(m, f) == (if f(k) then m[k] else 0.0) + Sum(m - {k}, f)
    decreases |m|
  {
    var j :| j in m && Sum(m, f) == (if f(j) then m[j] else 0.0) + Sum(m - {j}, f);
    if j != k {
      SumTake(m - {j}, f, k);
      SumTake(m - {k}, f, j);
      assert m - {j} - {k} == m - {k} - {j};
    }
  }

  /** Adding to one pair's score, entering the pair if it is new. */
  function Bump(m: Scores, k: Pair, x: real): Scores {
    m[k := (if k in m then m[k] else 0.0) + x]
  }

  lemma SumBump(m: Scores, f: Pair -> bool, k: Pair, x: real)
    ensures Sum(Bump(m, k, x), f) == Sum(m, f) + (if f(k) then x else 0.0)
  {
    var after := Bump(m, k, x);
    SumTake(after, f, k);
    assert after - {k} == m - {k};
    if k in m {
      SumTake(m, f, k);
    } else {
      assert m - {k} == m;
    }
  }

  // ----- recording one result list -----

  /** Row `i` of the pair loop, up to but not including column `j`. */
  function RowRecorded(m: Scores, results: seq<Id>, i: nat, j: nat, x: real): Scores
    requires i < j <= |results|
    decreases j
  {
    if j == i + 1 then m
    else Bump(RowRecorded(m, results, i, j - 1, x), CanonicalPair(results[i], results[j - 1]), x)
  }

  function RowsRecorded(m: Scores, results: seq<Id>, i: nat, x: real): Scores
    requires i <= |results|
  {
    if i == 0 then m else RowRecorded(RowsRecorded(m, results, i - 1, x), results, i - 1, |results|, x)
  }

  function Increment(n: nat): real
    requires n >= 2
  {
    1.0 / (n - 1) as real
  }

  function Recorded(m: Scores, results: seq<Id>): Scores {
    if |results| < 2 then m else RowsRecorded(m, results, |results|, Increment(|results|))
  }

  function Times(x: real, k: nat): real {
    if k == 0 then 0.0 else x + Times(x, k - 1)
  }

  lemma {:induction false} TimesProduct(x: real, k: nat)
    ensures Times(x, k) == x * k as real
  {
    if k > 0 {
      TimesProduct(x, k - 1);
      assert x * k as real == x + x * (k - 1) as real;
    }
  }

  lemma {:induction false} TimesPlus(x: real, j: nat, k: nat)
    ensures Times(x, j + k) == Times(x, j) + Times(x, k)
  {
    if k > 0 { TimesPlus(x, j, k - 1); }
  }

  // ----- conservation: total mass -----

  function AnyPair(p: Pair): bool { true }

  lemma NoMass(f: Pair -> bool)
    ensures Sum(map[], f) == 0.0
  {}

  ghost function TotalMass(m: Scores): real {
    Sum(m, AnyPair)
  }

  lemma {:induction false} RowMass(m: Scores, results: seq<Id>, i: nat, j: nat, x: real)
    requires i < j <= |results|
    ensures TotalMass(RowRecorded(m, results, i, j, x)) == TotalMass(m) + Times(x, j - i - 1)
    decreases j
  {
    if j > i + 1 {
      RowMass(m, results, i, j - 1, x);
      SumBump(RowRecorded(m, results, i, j - 1, x), AnyPair, CanonicalPair(results[i], results[j - 1]), x);
    }
  }

  /** The number of pairs in the first `i` rows of `n`. */
  function PairCount(n: nat, i: nat): nat
    requires i <= n
  {
    if i == 0 then 0 else PairCount(n, i - 1) + (n - i)
  }

  lemma {:induction false} PairCountClosed(n: nat, i: nat)
    requires i <= n
    ensures 2 * PairCount(n, i) == i * (2 * n - i - 1)
  {
    if i > 0 {
      PairCountClosed(n, i - 1);
      assert i * (2 * n - i - 1) == (i - 1) * (2 * n - (i - 1) - 1) + 2 * (n - i);
    }
  }

  lemma {:induction false} RowsMass(m: Scores, results: seq<Id>, i: nat, x: real)
    requires i <= |results|
    ensures TotalMass(RowsRecorded(m, results, i, x)) == TotalMass(m) + Times(x, PairCount(|results|, i))
  {
    if i > 0 {
      RowsMass(m, results, i - 1, x);
      RowMass(RowsRecorded(m, results, i - 1, x), results, i - 1, |results|, x);
      TimesPlus(x, PairCount(|results|, i - 1), |results| - i);
    }
  }

  /** Recording `n >= 2` results adds exactly `n / 2` to the total score, duplicates or not. */
  lemma RecordedMass(m: Scores, results: seq<Id>)
    ensures TotalMass(Recorded(m, results))
      == TotalMass(m) + (if |results| < 2 then 0.0 else |results| as real / 2.0)
  {
    var n := |results|;
    if n >= 2 {
      var x := Increment(n);
      RowsMass(m, results, n, x);
      PairCountClosed(n, n);
      TimesProduct(x, PairCount(n, n));
      HalfOf(n, PairCount(n, n));
    }
  }

  lemma HalfOf(n: nat, pairs: nat)
    requires n >= 2 && 2 * pairs == n * (2 * n - n - 1)
    ensures Increment(n) * pairs as real == n as real / 2.0
  {
    var d := (n - 1) as real;
    assert pairs as real == n as real / 2.0 * d by {
      assert 2 * pairs == n * (n - 1);
      assert (2 * pairs) as real == n as real * d by { IntProduct(n, n - 1); }
    }
    Cancel(n as real / 2.0, d);
  }

  lemma IntProduct(a: int, b: int)
    ensures (a * b) as real == a as real * b as real
  {}

  lemma Cancel(y: real, d: real)
    requires d > 0.0
    ensures (1.0 / d) * (y * d) == y
  {
    var inv := 1.0 / d;
    assert inv * d == 1.0;
    assert inv * (y * d) == y * (inv * d);
  }

  // ----- conservation: each entity's share -----

  function Involves(e: Id): Pair -> bool {
    (p: Pair) => p.0 == e || p.1 == e
  }

  ghost function MassOf(m: Scores, e: Id): real {
    Sum(m, Involves(e))
  }

  /** `p` is the only position of `e`, or the length when `e` is absent. */
  ghost predicate OnlyAt(results: seq<Id>, e: Id, p: nat) {
    && p <= |results| && (p < |results| ==> results[p] == e)
    && forall q :: 0 <= q < |results| && q != p ==> results[q] != e
  }

  function RowShare(i: nat, j: nat, p: nat): nat
    requires i < j
  {
    if i == p then j - i - 1 else if i < p < j then 1 else 0
  }

  lemma {:induction false} RowMassOf(m: Scores, results: seq<Id>, i: nat, j: nat, x: real, e: Id, p: nat)
    requires i < j <= |results| && OnlyAt(results, e, p)
    ensures MassOf(RowRecorded(m, results, i, j, x), e) == MassOf(m, e) + Times(x, RowShare(i, j, p))
    decreases j
  {
    if j > i + 1 {
      RowMassOf(m, results, i, j - 1, x, e, p);
      SumBump(RowRecorded(m, results, i, j - 1, x), Involves(e), CanonicalPair(results[i], results[j - 1]), x);
      PairInvolves(results, i, j - 1, e, p);
      RowShareNext(i, j, p, x);
      hide Times, RowShare, CanonicalPair, OnlyAt, Involves, Bump, Sum;
    }
  }

  lemma PairInvolves(results: seq<Id>, i: nat, q: nat, e: Id, p: nat)
    requires i < q < |results| && OnlyAt(results, e, p)
    ensures Involves(e)(CanonicalPair(results[i], results[q])) <==> i == p || q == p
  {}

  lemma RowShareNext(i: nat, j: nat, p: nat, x: real)
    requires i + 1 < j
    ensures Times(x, RowShare(i, j, p)) == Times(x, RowShare(i, j - 1, p)) + (if i == p || j - 1 == p then x else 0.0)
  {}

  function RowsShare(n: nat, i: nat, p: nat): nat
    requires i <= n
  {
    if p >= n then 0 else if i <= p then i else n - 1
  }

  lemma {:induction false} RowsMassOf(m: Scores, results: seq<Id>, i: nat, x: real, e: Id, p: nat)
    requires i <= |results| && OnlyAt(results, e, p)
    ensures MassOf(RowsRecorded(m, results, i, x), e) == MassOf(m, e) + Times(x, RowsShare(|results|, i, p))
  {
    if i > 0 {
      var n := |results|;
      RowsMassOf(m, results, i - 1, x, e, p);
      RowMassOf(RowsRecorded(m, results, i - 1, x), results, i - 1, n, x, e, p);
      TimesPlus(x, RowsShare(n, i - 1, p), RowShare(i - 1, n, p));
    }
  }

  /** Recording distinct results adds exactly one to each of them and nothing to any other. */
  lemma RecordedMassOf(m: Scores, results: seq<Id>, e: Id)
    requires Distinct(results)
    ensures MassOf(Recorded(m, results), e)
      == MassOf(m, e) + (if |results| >= 2 && e in results then 1.0 else 0.0)
  {
    var n := |results|;
    if n >= 2 {
      var p: nat := n;
      if e in results { p :| p < n && results[p] == e; }
      RowsMassOf(m, results, n, Increment(n), e, p);
      TimesProduct(Increment(n), RowsShare(n, n, p));
      Cancel(1.0, (n - 1) as real);
    }
  }

  // ----- what one pair gains -----

  function Score(m: Scores, k: Pair): real {
    if k in m then m[k] else 0.0
  }

  lemma {:induction false} RowScore(m: Scores, results: seq<Id>, i: nat, j: nat, x: real, k: Pair)
    requires i < j <= |results| && Distinct(results)
    ensures Score(RowRecorded(m, results, i, j, x), k)
      == Score(m, k) + (if exists q :: i < q < j && CanonicalPair(results[i], results[q]) == k then x else 0.0)
    decreases j
  {
    if j > i + 1 {
      RowScore(m, results, i, j - 1, x, k);
      if CanonicalPair(results[i], results[j - 1]) == k {
        forall q | i < q < j - 1 ensures CanonicalPair(results[i], results[q]) != k {
          CanonicalKey(results[i], results[q], results[i], results[j - 1]);
        }
      }
    }
  }

  ghost predicate Visited(results: seq<Id>, i: nat, k: Pair)
    requires i <= |results|
  {
    exists p, q :: 0 <= p < i && p < q < |results| && CanonicalPair(results[p], results[q]) == k
  }

  ghost predicate InRow(results: seq<Id>, p: nat, k: Pair)
    requires p < |results|
  {
    exists q :: p < q < |results| && CanonicalPair(results[p], results[q]) == k
  }

  lemma VisitedLast(results: seq<Id>, i: nat, k: Pair)
    requires 0 < i <= |results| && Distinct(results)
    ensures Visited(results, i, k) <==> Visited(results, i - 1, k) || InRow(results, i - 1, k)
    ensures !(Visited(results, i - 1, k) && InRow(results, i - 1, k))
  {
    if Visited(results, i - 1, k) && InRow(results, i - 1, k) {
      var p, q :| 0 <= p < i - 1 && p < q < |results| && CanonicalPair(results[p], results[q]) == k;
      var r :| i - 1 < r < |results| && CanonicalPair(results[i - 1], results[r]) == k;
      CanonicalKey(results[p], results[q], results[i - 1], results[r]);
      assert false;
    }
  }

  lemma {:induction false} RowsScore(m: Scores, results: seq<Id>, i: nat, x: real, k: Pair)
    requires i <= |results| && Distinct(results)
    ensures Score(RowsRecorded(m, results, i, x), k)
      == Score(m, k) + (if Visited(results, i, k) then x else 0.0)
  {
    if i > 0 {
      RowsScore(m, results, i - 1, x, k);
      RowScore(RowsRecorded(m, results, i - 1, x), results, i - 1, |results|, x, k);
      VisitedLast(results, i, k);
      assert InRow(results, i - 1, k) <==>
        exists q :: i - 1 < q < |results| && CanonicalPair(results[i - 1], results[q]) == k;
    }
  }

  /** Each unordered pair of distinct results gains the increment, once; no other pair changes. */
  lemma RecordedScore(m: Scores, results: seq<Id>, k: Pair)
    requires Distinct(results)
    ensures Score(Recorded(m, results), k) == Score(m, k) +
      (if |results| >= 2 && Canonical(k) && k.0 != k.1 && k.0 in results && k.1 in results then Increment(|results|) else 0.0)
  {
    var n := |results|;
    if n >= 2 {
      RowsScore(m, results, n, Increment(n), k);
      VisitedIff(results, k);
    }
  }

  lemma VisitedIff(results: seq<Id>, k: Pair)
    requires Distinct(results)
    ensures Visited(results, |results|, k) <==> Canonical(k) && k.0 != k.1 && k.0 in results && k.1 in results
  {
    var n := |results|;
    if Visited(results, n, k) {
      var p, q :| 0 <= p < n && p < q < n && CanonicalPair(results[p], results[q]) == k;
      CanonicalKey(results[p], results[q], results[p], results[q]);
    }
    if Canonical(k) && k.0 != k.1 && k.0 in results && k.1 in results {
      var p :| 0 <= p < n && results[p] == k.0;
      var q :| 0 <= q < n && results[q] == k.1;
      CanonicalKey(k.0, k.1, k.1, k.0);
      assert CanonicalPair(k.0, k.1) == k;
      if p < q {
        assert CanonicalPair(results[p], results[q]) == k;
      } else {
        assert CanonicalPair(results[q], results[p]) == k;
      }
    }
  }

  // ----- decay -----

  /** One decay pass: every score times the factor, those under one hundredth dropped. */
  function Decayed(m: Scores, factor: real): Scores {
    map k | k in m && m[k] * factor >= 0.01 :: m[k] * factor
  }

  function Passes(m: Scores, factor: real, n: nat): Scores {
    if n == 0 then m else Decayed(Passes(m, factor, n - 1), factor)
  }

  function Faded(x: real, factor: real, n: nat): real {
    if n == 0 then x else Mul(Faded(x, factor, n - 1), factor)
  }

  lemma {:induction false} FadedFalls(x: real, factor: real, n: nat)
    requires x >= 0.0 && 0.0 <= factor <= 1.0
    ensures 0.0 <= Faded(x, factor, n + 1) <= Faded(x, factor, n)
  {
    hide Mul;
    if n > 0 { FadedFalls(x, factor, n - 1); }
    Shrunk(Faded(x, factor, n), factor);
  }

  lemma Shrunk(y: real, factor: real)
    requires y >= 0.0 && 0.0 <= factor <= 1.0
    ensures 0.0 <= Mul(y, factor) <= y
  {
    assert y * (1.0 - factor) >= 0.0;
  }

  /** After `n` passes a pair is kept exactly if its score times that power of the factor is at
      least one hundredth, and that is its score then. */
  lemma {:induction false} PassesMeaning(m: Scores, factor: real, n: nat, k: Pair)
    requires 0.0 <= factor <= 1.0 && (k in m ==> m[k] >= 0.0) && n > 0
    ensures k in Passes(m, factor, n) <==> k in m && Faded(m[k], factor, n) >= 0.01
    ensures k in Passes(m, factor, n) ==> Passes(m, factor, n)[k] == Faded(m[k], factor, n)
  {
    if k in m { FadedFalls(m[k], factor, n - 1); }
    var before := Passes(m, factor, n - 1);
    if n > 1 { PassesMeaning(m, factor, n - 1, k); }
    assert k in before ==> before[k] == Faded(m[k], factor, n - 1);
    assert k in before ==> before[k] * factor == Faded(m[k], factor, n);
    assert Passes(m, factor, n) == Decayed(before, factor);
    OnePass(before, factor, k);
    hide Decayed;
    assert k in m && Faded(m[k], factor, n) >= 0.01 ==> k in before;
  }

  lemma OnePass(m: Scores, factor: real, k: Pair)
    ensures k in Decayed(m, factor) <==> k in m && m[k] * factor >= 0.01
    ensures k in Decayed(m, factor) ==> Decayed(m, factor)[k] == m[k] * factor
  {}

  datatype Event = Record(results: seq<Id>) | Decay

  function After(events: seq<Event>, factor: real): Scores {
    if events == [] then map[]
    else
      var m := After(events[..|events| - 1], factor);
      match events[|events| - 1]
      case Record(results) => Recorded(m, results)
      case Decay => Decayed(m, factor)
  }

  /** Recordings since the last decay pass. */
  function Pending(events: seq<Event>): nat {
    if events == [] || events[|events| - 1].Decay? then 0 else Pending(events[..|events| - 1]) + 1
  }

  /** Distinct result lists, at most `most` of them before each decay pass. */
  ghost predicate Paced(events: seq<Event>, most: nat) {
    && (forall i :: 0 <= i < |events| && events[i].Record? ==> Distinct(events[i].results))
    && (forall i :: 0 <= i <= |events| ==> Pending(events[..i]) <= most)
  }

  lemma PacedPrefix(events: seq<Event>, most: nat)
    requires events != [] && Paced(events, most)
    ensures Paced(events[..|events| - 1], most) && Pending(events) <= most
  {
    var n := |events| - 1;
    var head := events[..n];
    assert events[..|events|] == events;
    forall i | 0 <= i <= n ensures Pending(head[..i]) <= most {
      assert head[..i] == events[..i];
    }
  }

  /** No pair's score ever exceeds the recordings per pass over one minus the factor; it is
      below that bound by the recordings still allowed before the next pass. Right after a pass
      no stored score is under one hundredth. */
  lemma {:induction false} ScoresBounded(events: seq<Event>, factor: real, most: nat, k: Pair)
    requires 0.0 <= factor < 1.0 && Paced(events, most)
    ensures 0.0 <= Score(After(events, factor), k)
      <= most as real / (1.0 - factor) - most as real + Pending(events) as real
    ensures Score(After(events, factor), k) <= most as real / (1.0 - factor)
    ensures Pending(events) == 0 && k in After(events, factor) ==> After(events, factor)[k] >= 0.01
    decreases |events|
  {
    var bound := most as real / (1.0 - factor);
    assert bound * (1.0 - factor) == most as real;
    if events == [] {
      Shrinks(bound, factor);
    } else {
      PacedPrefix(events, most);
      var head := events[..|events| - 1];
      ScoresBounded(head, factor, most, k);
      var m := After(head, factor);
      match events[|events| - 1] {
        case Record(results) =>
          RecordedScore(m, results, k);
          if |results| >= 2 { IncrementBound(|results|); }
        case Decay =>
          DecayedScore(m, factor, k, bound);
      }
    }
  }

  lemma Shrinks(bound: real, factor: real)
    requires 0.0 <= factor < 1.0 && bound * (1.0 - factor) >= 0.0
    ensures bound - bound * (1.0 - factor) >= 0.0
  {
    assert bound < 0.0 ==> bound * (1.0 - factor) < 0.0;
    assert bound - bound * (1.0 - factor) == bound * factor;
    assert bound >= 0.0;
  }

  lemma IncrementBound(n: nat)
    requires n >= 2
    ensures 0.0 < Increment(n) <= 1.0
  {
    var d := (n - 1) as real;
    assert (1.0 / d) * d == 1.0;
  }

  lemma DecayedScore(m: Scores, factor: real, k: Pair, bound: real)
    requires 0.0 <= factor < 1.0 && 0.0 <= Score(m, k) <= bound
    ensures 0.0 <= Score(Decayed(m, factor), k) <= bound - bound * (1.0 - factor)
  {
    var s := Score(m, k);
    assert 0.0 <= s * factor <= bound * factor;
    assert bound - bound * (1.0 - factor) == bound * factor;
  }

  /** Only canonical keys are ever stored. */
  lemma {:induction false} KeysCanonical(events: seq<Event>, factor: real, k: Pair)
    requires k in After(events, factor)
    ensures Canonical(k)
    decreases |events|
  {
    if events != [] {
      var head := events[..|events| - 1];
      var m := After(head, factor);
      match events[|events| - 1] {
        case Record(results) =>
          if k in m {
            KeysCanonical(head, factor, k);
          } else if |results| >= 2 {
            RowsCanonical(m, results, |results|, Increment(|results|), k);
          }
        case Decay => KeysCanonical(head, factor, k);
      }
    }
  }

  lemma {:induction false} RowCanonical(m: Scores, results: seq<Id>, i: nat, j: nat, x: real, k: Pair)
    requires i < j <= |results| && k in RowRecorded(m, results, i, j, x) && k !in m
    ensures Canonical(k)
    decreases j
  {
    if j > i + 1 {
      CanonicalKey(results[i], results[j - 1], results[i], results[j - 1]);
      if k != CanonicalPair(results[i], results[j - 1]) { RowCanonical(m, results, i, j - 1, x, k); }
    }
  }

  lemma {:induction false} RowsCanonical(m: Scores, results: seq<Id>, i: nat, x: real, k: Pair)
    requires i <= |results| && k in RowsRecorded(m, results, i, x) && k !in m
    ensures Canonical(k)
  {
    if i > 0 {
      var before := RowsRecorded(m, results, i - 1, x);
      if k in before { RowsCanonical(m, results, i - 1, x, k); }
      else { RowCanonical(before, results, i - 1, |results|, x, k); }
    }
  }
}
