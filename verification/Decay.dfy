/** Edge confidence decaying with age, and the sweep that prunes what has decayed. */
module Decay {
  import opened Basics
  import Statement = DeleteStatement

  datatype DecayFn = Exponential | Linear | Step

  datatype DecayConfig = DecayConfig(decayFn: Option<DecayFn>, rate: Option<real>, floor: Option<real>,
                                     pruneThreshold: Option<real>) {
    function Rate(): real { rate.UnwrapOr(0.0) }
    function Floor(): real { floor.UnwrapOr(0.0) }
  }

  function Max(a: real, b: real): real { if a < b then b else a }

  function Min(a: real, b: real): real { if b < a then b else a }

  /** What the proofs use of the exponential. */
  ghost predicate ExpLike(exp: real -> real) {
    && exp(0.0) == 1.0
    && (forall x, y :: x < y ==> 0.0 < exp(x) < exp(y))
    && (forall x :: x <= 0.0 ==> Mul(exp(x), 1.0 - x) <= 1.0)
  }

  lemma ExpAt(exp: real -> real, x: real)
    requires ExpLike(exp) && x <= 0.0
    ensures 0.0 < exp(x) <= 1.0 && Mul(exp(x), 1.0 - x) <= 1.0 && (x < 0.0 ==> exp(x) < 1.0)
  {
    hide Mul;
    assert x - 1.0 < x;
    assert x < 0.0 ==> exp(x) < exp(0.0);
  }

  lemma ExpRises(exp: real -> real, x: real, y: real)
    requires ExpLike(exp) && x <= y
    ensures exp(x) <= exp(y)
  {
    hide Mul;
    if x < y { assert exp(x) < exp(y); }
  }

  function Seconds(millis: nat): real {
    millis as real / 1000.0
  }

  function Decayed(exp: real -> real, base: real, seconds: real, decayFn: DecayFn, rate: real, floor: real): real {
    match decayFn
    case Exponential => Mul(base, exp(-Mul(rate, seconds)))
    case Linear => Mul(base, 1.0 - Mul(rate, seconds))
    case Step => if seconds > rate then floor else base
  }

  function EffectiveConfidence(exp: real -> real, base: real, elapsed: nat, config: DecayConfig): real {
    if elapsed == 0 || config.decayFn.None? then base
    else Min(Max(Decayed(exp, base, Seconds(elapsed), config.decayFn.value, config.Rate(), config.Floor()), config.Floor()), 1.0)
  }

  /** A new edge has its base confidence; from then on it is between the floor and one. */
  lemma {:induction false} ConfidenceRange(exp: real -> real, base: real, elapsed: nat, config: DecayConfig)
    requires config.Floor() <= base <= 1.0
    ensures config.Floor() <= EffectiveConfidence(exp, base, elapsed, config) <= 1.0
  {
    hide Decayed;
  }

  /** What is left after `elapsed` milliseconds: the exponential and the linear form take the rate
      per second from the base, and neither goes under the floor. A missing rate or floor is zero. */
  lemma ConfidenceForms(exp: real -> real, base: real, elapsed: nat, config: DecayConfig, r: real, f: real)
    requires elapsed > 0 && f <= 1.0
    requires config.rate == Some(r) || (config.rate == None && r == 0.0)
    requires config.floor == Some(f) || (config.floor == None && f == 0.0)
    ensures var confidence, t := EffectiveConfidence(exp, base, elapsed, config), elapsed as real / 1000.0;
      var left, rest := Mul(base, exp(-Mul(r, t))), Mul(base, 1.0 - Mul(r, t));
      && (config.decayFn == None ==> confidence == base)
      && (config.decayFn == Some(Exponential) ==> (f <= left <= 1.0 ==> confidence == left) && (left < f ==> confidence == f))
      && (config.decayFn == Some(Linear) ==> (f <= rest <= 1.0 ==> confidence == rest) && (rest < f ==> confidence == f))
      && (config.decayFn == Some(Step) && f <= base <= 1.0 ==> confidence == if t > r then f else base)
  {
    hide Min, Max, Mul;
    var t := elapsed as real / 1000.0;
    assert Seconds(elapsed) == t && config.Rate() == r && config.Floor() == f;
    ClampedAt(Mul(base, exp(-Mul(r, t))), f);
    ClampedAt(Mul(base, 1.0 - Mul(r, t)), f);
    ClampedAt(if t > r then f else base, f);
  }

  lemma ClampedAt(x: real, f: real)
    requires f <= 1.0
    ensures f <= x <= 1.0 ==> Min(Max(x, f), 1.0) == x
    ensures x < f ==> Min(Max(x, f), 1.0) == f
  {}

  // ----- confidence never rises -----

  ghost predicate NeverRises(exp: real -> real, base: real, config: DecayConfig) {
    forall t1: nat, t2: nat :: t1 <= t2 ==>
      EffectiveConfidence(exp, base, t2, config) <= EffectiveConfidence(exp, base, t1, config)
  }

  /** The floor does not lift the base, and a proportional loss is not taken from a negative base. */
  predicate Decays(base: real, config: DecayConfig) {
    config.decayFn.None? ||
    (Min(config.Floor(), 1.0) <= base && (base >= 0.0 || config.decayFn.value.Step? || config.Rate() == 0.0))
  }

  /** With a rate that is not negative, confidence never rises exactly when the floor and the
      sign of the base allow it. */
  lemma NeverRisesIff(exp: real -> real, base: real, config: DecayConfig)
    requires ExpLike(exp) && config.Rate() >= 0.0
    ensures NeverRises(exp, base, config) <==> Decays(base, config)
  {
    if Decays(base, config) {
      forall t1: nat, t2: nat | t1 <= t2
        ensures EffectiveConfidence(exp, base, t2, config) <= EffectiveConfidence(exp, base, t1, config)
      {
        Falls(exp, base, t1, t2, config);
      }
    } else {
      Rises(exp, base, config);
      assert !(EffectiveConfidence(exp, base, 1, config) <= EffectiveConfidence(exp, base, 0, config));
    }
  }

  lemma Falls(exp: real -> real, base: real, t1: nat, t2: nat, config: DecayConfig)
    requires ExpLike(exp) && config.Rate() >= 0.0 && Decays(base, config) && t1 <= t2
    ensures EffectiveConfidence(exp, base, t2, config) <= EffectiveConfidence(exp, base, t1, config)
  {
    if t2 > 0 && config.decayFn.Some? {
      hide Decayed, ExpLike, Mul;
      var s1, s2, rate := Seconds(t1), Seconds(t2), config.Rate();
      if t1 > 0 {
        DecayedFalls(exp, base, s1, s2, config.decayFn.value, rate, config.Floor());
      } else {
        DecayedFalls(exp, base, 0.0, s2, config.decayFn.value, rate, config.Floor());
        DecayedStart(exp, base, config.decayFn.value, rate, config.Floor());
      }
    }
  }

  lemma DecayedStart(exp: real -> real, base: real, decayFn: DecayFn, rate: real, floor: real)
    requires ExpLike(exp) && rate >= 0.0
    ensures Decayed(exp, base, 0.0, decayFn, rate, floor) == base
  {
    assert exp(0.0) == 1.0;
    hide ExpLike;
    assert Mul(rate, 0.0) == 0.0;
  }

  /** Up to the floor, the decayed value falls with time. */
  lemma DecayedFalls(exp: real -> real, base: real, s1: real, s2: real, decayFn: DecayFn, rate: real, floor: real)
    requires ExpLike(exp) && 0.0 <= s1 <= s2 && rate >= 0.0
    requires base >= 0.0 || decayFn.Step? || rate == 0.0
    ensures Max(Decayed(exp, base, s2, decayFn, rate, floor), floor) <= Max(Decayed(exp, base, s1, decayFn, rate, floor), floor)
  {
    hide ExpLike, Mul;
    var x1, x2 := Mul(rate, s1), Mul(rate, s2);
    MulOrder(rate, s1, s2);
    MulZero(rate, s1, s2);
    ExpRises(exp, -x2, -x1);
    match decayFn {
      case Exponential =>
        if base >= 0.0 { MulOrder(base, exp(-x2), exp(-x1)); }
      case Linear =>
        if base >= 0.0 { MulOrder(base, 1.0 - x2, 1.0 - x1); }
      case Step =>
    }
  }

  lemma MulZero(c: real, x: real, y: real)
    ensures c == 0.0 ==> Mul(c, x) == Mul(c, y)
  {}

  lemma MulNegative(c: real, x: real)
    requires c < 0.0 && x < 1.0
    ensures Mul(c, x) > c
  {
    assert c * (1.0 - x) < 0.0;
  }

  /** Where the condition fails, one millisecond of age already shows a rise. */
  lemma Rises(exp: real -> real, base: real, config: DecayConfig)
    requires ExpLike(exp) && config.Rate() >= 0.0 && !Decays(base, config)
    ensures EffectiveConfidence(exp, base, 1, config) > base
  {
    hide ExpLike, Mul;
    var s, rate := Seconds(1), config.Rate();
    if Min(config.Floor(), 1.0) > base {
      hide Decayed;
    } else {
      MulPositive(rate, s);
      var x := Mul(rate, s);
      ExpAt(exp, -x);
      MulNegative(base, exp(-x));
      MulNegative(base, 1.0 - x);
    }
  }

  // ----- pruned sooner or later, exactly when the floor is under the threshold -----

  ghost predicate PrunedSometime(exp: real -> real, base: real, config: DecayConfig, threshold: real) {
    exists t: nat :: EffectiveConfidence(exp, base, t, config) < threshold
  }

  /** With a positive rate and a floor from zero up to the base, an edge is pruned at some age
      exactly when its floor is under the threshold; otherwise never. */
  lemma PrunedSometimeIff(exp: real -> real, base: real, config: DecayConfig, threshold: real)
    requires ExpLike(exp) && config.decayFn.Some? && config.Rate() > 0.0
    requires 0.0 <= config.Floor() <= base <= 1.0
    ensures PrunedSometime(exp, base, config, threshold) <==> config.Floor() < threshold
  {
    if config.Floor() < threshold {
      var t := PruneAge(exp, base, config, threshold);
      assert EffectiveConfidence(exp, base, t, config) < threshold;
    } else {
      forall t: nat ensures EffectiveConfidence(exp, base, t, config) >= threshold {
        ConfidenceRange(exp, base, t, config);
      }
    }
  }

  lemma PruneAge(exp: real -> real, base: real, config: DecayConfig, threshold: real) returns (t: nat)
    requires ExpLike(exp) && config.decayFn.Some? && config.Rate() > 0.0
    requires 0.0 <= config.Floor() <= base <= 1.0 && config.Floor() < threshold
    ensures EffectiveConfidence(exp, base, t, config) < threshold
  {
    hide ExpLike, Mul;
    var rate := config.Rate();
    var x: real;
    match config.decayFn.value {
      case Exponential =>
        t, x := AgeBeyond(rate, Inverse(threshold));
        SmallExponential(exp, x, threshold);
        MulAtMost(base, exp(-x));
      case Linear =>
        t, x := AgeBeyond(rate, 1.0);
        MulOrder(base, 1.0 - x, 0.0);
        assert Mul(base, 0.0) == 0.0 by { MulByZero(base); }
      case Step =>
        var n := Beyond(rate);
        t := 1000 * n;
        SecondsOf(n);
    }
  }

  function Inverse(a: real): real
    requires a > 0.0
  {
    1.0 / a
  }

  lemma InverseProduct(a: real)
    requires a > 0.0
    ensures Mul(a, Inverse(a)) == 1.0 && Inverse(a) > 0.0
  {
    var i := 1.0 / a;
    assert i * a == 1.0;
  }

  lemma MulByZero(a: real)
    ensures Mul(a, 0.0) == 0.0
  {}

  lemma MulAtMost(base: real, x: real)
    requires 0.0 <= base <= 1.0 && x > 0.0
    ensures Mul(base, x) <= x
  {
    assert (1.0 - base) * x >= 0.0;
  }

  lemma Beyond(x: real) returns (n: nat)
    requires x >= 0.0
    ensures n > 0 && n as real > x
  {
    n := x.Floor + 1;
  }

  lemma SecondsOf(n: nat)
    ensures Seconds(1000 * n) == n as real
  {
    assert (1000 * n) as real == 1000.0 * n as real;
  }

  /** An age at which the rate has accumulated past a bound. */
  lemma AgeBeyond(rate: real, bound: real) returns (t: nat, x: real)
    requires rate > 0.0 && bound > 0.0
    ensures t > 0 && x == Mul(rate, Seconds(t)) > bound
  {
    hide Mul;
    InverseProduct(rate);
    MulPositive(bound, Inverse(rate));
    var n := Beyond(Mul(bound, Inverse(rate)));
    t := 1000 * n;
    SecondsOf(n);
    x := Mul(rate, Seconds(t));
    Quotient(rate, bound, n as real);
  }

  lemma Quotient(rate: real, bound: real, s: real)
    requires rate > 0.0 && s > Mul(bound, Inverse(rate))
    ensures Mul(rate, s) > bound
  {
    var q := bound * (1.0 / rate);
    assert rate * q == bound * (rate * (1.0 / rate));
    assert rate * (1.0 / rate) == 1.0;
    assert rate * (s - q) > 0.0;
  }

  lemma SmallExponential(exp: real -> real, x: real, threshold: real)
    requires ExpLike(exp) && threshold > 0.0 && x > Inverse(threshold)
    ensures 0.0 < exp(-x) < threshold
  {
    InverseProduct(threshold);
    hide Mul, Inverse;
    ExpAt(exp, -x);
    hide ExpLike;
    assert 1.0 - (-x) == 1.0 + x;
    SmallFactor(exp(-x), x, threshold, Inverse(threshold));
  }

  lemma SmallFactor(e: real, x: real, threshold: real, inverse: real)
    requires threshold > 0.0 && inverse > 0.0 && Mul(threshold, inverse) == 1.0
    requires x > inverse && Mul(e, 1.0 + x) <= 1.0
    ensures e < threshold
  {
    assert e >= threshold ==> (e - threshold) * (1.0 + x) >= 0.0;
    assert threshold * (1.0 + x - inverse) > 0.0;
  }

  /** The step form holds full confidence through its delay and drops to the floor after it. */
  lemma {:induction false} StepPrunedIff(exp: real -> real, base: real, elapsed: nat, config: DecayConfig, threshold: real)
    requires config.decayFn == Some(Step) && config.Rate() >= 0.0
    requires config.Floor() < threshold <= base <= 1.0
    ensures EffectiveConfidence(exp, base, elapsed, config) < threshold <==> elapsed as real / 1000.0 > config.Rate()
  {}

  // ----- the sweep -----

  datatype EdgeKey = EdgeKey(edgeType: string, from: Id, to: Id)

  datatype Edge = Edge(confidence: real, createdAt: nat)

  type Edges = map<EdgeKey, Edge>

  datatype EdgeType = EdgeType(name: string, decay: DecayConfig)

  /** What the sweep meets outside: the exponential, types whose edges cannot be listed, type
      names that a statement cannot hold, the rest of the lexer, and deletes that fail. */
  datatype Env = Env(exp: real -> real, lists: string -> bool, accepts: string -> bool, words: Statement.Lexer,
                     deletes: EdgeKey -> bool)

  /** The edge that the delete statement written for `k` names, if it parses. */
  function Target(env: Env, k: EdgeKey): Option<EdgeKey> {
    if !env.accepts(k.edgeType) then None
    else
      match Statement.Named(Statement.Tail(k.from, k.to), env.words)
      case Some((from, to)) => Some(EdgeKey(k.edgeType, from, to))
      case None => None
  }

  function Elapsed(now: nat, createdAt: nat): nat {
    if now <= createdAt then 0 else now - createdAt
  }

  /** Created at zero marks a legacy edge, which does not decay. */
  predicate Expired(env: Env, e: Edge, decay: DecayConfig, now: nat) {
    && decay.pruneThreshold.Some? && e.createdAt != 0
    && EffectiveConfidence(env.exp, e.confidence, Elapsed(now, e.createdAt), decay) < decay.pruneThreshold.value
  }

  /** The keys for which a sweep of one edge type runs a delete statement. */
  function Hit(env: Env, edges: Edges, et: EdgeType, now: nat): set<EdgeKey> {
    set k | k in edges && k.edgeType == et.name && env.lists(et.name) && Expired(env, edges[k], et.decay, now) && Target(env, k).Some?
  }

  /** The edges those statements delete. */
  function Gone(env: Env, hit: set<EdgeKey>): set<EdgeKey> {
    set k | k in hit && Target(env, k).Some? && env.deletes(Target(env, k).value) :: Target(env, k).value
  }

  function HitAll(env: Env, edges: Edges, types: seq<EdgeType>, now: nat): set<EdgeKey> {
    if types == [] then {}
    else HitAll(env, edges, types[..|types| - 1], now) + Hit(env, edges, types[|types| - 1], now)
  }

  function Swept(env: Env, edges: Edges, types: seq<EdgeType>, now: nat): Edges {
    edges - Gone(env, HitAll(env, edges, types, now))
  }

  ghost predicate DistinctNames(types: seq<EdgeType>) {
    forall i, j :: 0 <= i < j < |types| ==> types[i].name != types[j].name
  }

  lemma {:induction false} HitMeaning(env: Env, edges: Edges, types: seq<EdgeType>, now: nat, k: EdgeKey)
    ensures k in HitAll(env, edges, types, now) <==>
      exists i :: 0 <= i < |types| && k in Hit(env, edges, types[i], now)
  {
    if types != [] {
      var n := |types| - 1;
      var head := types[..n];
      HitMeaning(env, edges, head, now, k);
      hide Hit;
      if i :| 0 <= i < n && k in Hit(env, edges, head[i], now) {
        assert head[i] == types[i];
      }
      if i :| 0 <= i < n && k in Hit(env, edges, types[i], now) {
        assert head[i] == types[i];
      }
    }
  }

  // ----- which edges the statements name -----

  /** No statement for one of the edges names another. */
  ghost predicate NamesOwn(env: Env, edges: Edges) {
    forall k :: k in edges && Target(env, k).Some? ==> Target(env, k) == Some(k)
  }

  predicate SafeKey(k: EdgeKey) {
    Statement.Safe(k.from) && Statement.Safe(k.to)
  }

  lemma TargetOwnIff(env: Env, k: EdgeKey)
    requires env.accepts(k.edgeType)
    ensures Target(env, k) == Some(k) <==> SafeKey(k)
  {
    Statement.NamesOwnIff(k.from, k.to, env.words);
  }

  /** Asking for one edge's deletion takes that edge and no other, from every set of edges that
      holds it, exactly when both of its ids are safe between quotes. */
  lemma PruneExactIff(env: Env, k: EdgeKey)
    requires env.accepts(k.edgeType) && forall e :: env.deletes(e)
    ensures (forall edges: Edges :: k in edges ==> edges - Gone(env, {k}) == edges - {k}) <==> SafeKey(k)
  {
    TargetOwnIff(env, k);
    hide SafeKey, Target;
    if SafeKey(k) {
      assert Gone(env, {k}) == {k};
    } else {
      var edges: Edges := map[k := Edge(0.0, 0)];
      assert k !in Gone(env, {k});
      assert k in edges - Gone(env, {k});
    }
  }

  /** What makes an edge due, in its own fields: a creation time, and a confidence under the
      threshold at its age, which is that of a new edge if it was created in the future. */
  ghost predicate UnderThreshold(exp: real -> real, e: Edge, decay: DecayConfig, now: nat) {
    && decay.pruneThreshold.Some? && e.createdAt != 0
    && (now >= e.createdAt ==>
      EffectiveConfidence(exp, e.confidence, now - e.createdAt, decay) < decay.pruneThreshold.value)
    && (now < e.createdAt ==> e.confidence < decay.pruneThreshold.value)
  }

  lemma ExpiredIff(env: Env, e: Edge, decay: DecayConfig, now: nat)
    ensures Expired(env, e, decay, now) <==> UnderThreshold(env.exp, e, decay, now)
  {}

  /** A listed type of the edge's own name finds it due. */
  ghost predicate Due(env: Env, e: Edge, types: seq<EdgeType>, now: nat, k: EdgeKey) {
    && env.lists(k.edgeType)
    && exists i :: 0 <= i < |types| && types[i].name == k.edgeType && UnderThreshold(env.exp, e, types[i].decay, now)
  }

  /** With safe ids throughout, a sweep takes exactly the expired edges of the types it can list. */
  lemma SweepExact(env: Env, edges: Edges, types: seq<EdgeType>, now: nat)
    requires forall k :: k in edges ==> env.accepts(k.edgeType) && env.deletes(k) && SafeKey(k)
    ensures Swept(env, edges, types, now) == map k | k in edges && !Due(env, edges[k], types, now, k) :: edges[k]
  {
    forall k | k in edges ensures Target(env, k) == Some(k) { TargetOwnIff(env, k); }
    hide SafeKey, Expired, Target;
    var left := Swept(env, edges, types, now);
    forall k | k in edges
      ensures k in left <==> !Due(env, edges[k], types, now, k)
    {
      HitMeaning(env, edges, types, now, k);
      GoneOwn(env, edges, types, now, k);
      forall i | 0 <= i < |types| ensures k in Hit(env, edges, types[i], now) <==> (
        types[i].name == k.edgeType && env.lists(k.edgeType) && UnderThreshold(env.exp, edges[k], types[i].decay, now))
      {
        ExpiredIff(env, edges[k], types[i].decay, now);
        hide UnderThreshold;
      }
      hide Hit, HitAll, Swept, UnderThreshold;
    }
  }

  lemma GoneOwn(env: Env, edges: Edges, types: seq<EdgeType>, now: nat, k: EdgeKey)
    requires NamesOwn(env, edges) && k in edges
    ensures k in Swept(env, edges, types, now) <==> !(k in HitAll(env, edges, types, now) && env.deletes(k))
  {
    hide Target;
    forall h | h in HitAll(env, edges, types, now) ensures h in edges && Target(env, h) == Some(h) {
      HitMeaning(env, edges, types, now, h);
    }
  }

  /** An edge to an id that closes its quote and opens a comment is never pruned: each sweep that
      finds it expired deletes the edge to what stands before, of whatever age. */
  lemma SweepTakesOther(env: Env, et: EdgeType, from: Id, to: Id, young: Edge, aged: Edge, now: nat)
    requires env.lists(et.name) && env.accepts(et.name) && env.deletes(EdgeKey(et.name, from, to))
    requires Statement.Safe(from) && Statement.Safe(to)
    requires Expired(env, aged, et.decay, now) && !Expired(env, young, et.decay, now)
    ensures var kept, other := EdgeKey(et.name, from, to + "'; --"), EdgeKey(et.name, from, to);
      Swept(env, map[kept := aged, other := young], [et], now) == map[kept := aged]
  {
    var kept, other := EdgeKey(et.name, from, to + "'; --"), EdgeKey(et.name, from, to);
    var edges := map[kept := aged, other := young];
    assert |kept.to| == |to| + 5;
    Statement.CommentNamesOther(from, to, env.words);
    assert Target(env, kept) == Some(other);
    hide Expired, Target;
    assert [et][..0] == [];
    assert HitAll(env, edges, [et], now) == {} + Hit(env, edges, et, now);
    assert Hit(env, edges, et, now) == {kept};
    assert Gone(env, {kept}) == {other};
  }

  /** No edge of the set is ever lifted by ageing. */
  ghost predicate AllDecay(edges: Edges, types: seq<EdgeType>) {
    forall k, i :: k in edges && 0 <= i < |types| && types[i].name == k.edgeType ==>
      types[i].decay.Rate() >= 0.0 && Decays(edges[k].confidence, types[i].decay)
  }

  lemma HitLater(env: Env, edges: Edges, et: EdgeType, t1: nat, t2: nat, k: EdgeKey)
    requires ExpLike(env.exp) && t1 <= t2 && k in Hit(env, edges, et, t1)
    requires et.decay.Rate() >= 0.0 && Decays(edges[k].confidence, et.decay)
    ensures k in Hit(env, edges, et, t2)
  {
    var e := edges[k];
    Falls(env.exp, e.confidence, Elapsed(t1, e.createdAt), Elapsed(t2, e.createdAt), et.decay);
    hide EffectiveConfidence, ExpLike, Decays, Mul;
  }

  /** Sweeping at two times leaves the same edges as sweeping once at the later time, where no
      statement names another edge. */
  lemma SweepTwice(env: Env, edges: Edges, types: seq<EdgeType>, t1: nat, t2: nat)
    requires ExpLike(env.exp) && t1 <= t2 && AllDecay(edges, types) && NamesOwn(env, edges)
    ensures Swept(env, Swept(env, edges, types, t1), types, t2) == Swept(env, edges, types, t2)
  {
    var once := Swept(env, edges, types, t1);
    forall k | k in edges ensures k in Swept(env, once, types, t2) <==> k in Swept(env, edges, types, t2) {
      HitMeaning(env, edges, types, t1, k);
      HitMeaning(env, edges, types, t2, k);
      HitMeaning(env, once, types, t2, k);
      GoneOwn(env, edges, types, t1, k);
      GoneOwn(env, edges, types, t2, k);
      if k in once { GoneOwn(env, once, types, t2, k); }
      hide Swept, Target, NamesOwn, ExpLike, Expired, Decays, HitAll, Hit;
      if i :| 0 <= i < |types| && k in Hit(env, edges, types[i], t1) {
        HitName(env, edges, types[i], t1, k);
        HitLater(env, edges, types[i], t1, t2, k);
      }
      if k in once {
        SameHits(env, edges, once, types, t2, k);
      }
    }
  }

  lemma HitName(env: Env, edges: Edges, et: EdgeType, now: nat, k: EdgeKey)
    requires k in Hit(env, edges, et, now)
    ensures k.edgeType == et.name
  {
    hide Expired;
  }

  lemma SameHits(env: Env, edges: Edges, once: Edges, types: seq<EdgeType>, now: nat, k: EdgeKey)
    requires k in edges && k in once && edges[k] == once[k]
    ensures forall i :: 0 <= i < |types| ==> (k in Hit(env, edges, types[i], now) <==> k in Hit(env, once, types[i], now))
  {
    hide Expired;
  }

  /** Where no statement names another edge, nothing is pruned, at any time, from a type whose
      floor is at least its threshold. */
  lemma FloorProtects(env: Env, edges: Edges, types: seq<EdgeType>, now: nat, k: EdgeKey)
    requires NamesOwn(env, edges)
    requires k in edges && forall i :: 0 <= i < |types| && types[i].name == k.edgeType ==> (
      && types[i].decay.Floor() <= edges[k].confidence <= 1.0
      && (types[i].decay.pruneThreshold.Some? ==> types[i].decay.pruneThreshold.value <= types[i].decay.Floor()))
    ensures k in Swept(env, edges, types, now)
  {
    GoneOwn(env, edges, types, now, k);
    hide Swept, Target, NamesOwn;
    HitMeaning(env, edges, types, now, k);
    forall i | 0 <= i < |types| ensures k !in Hit(env, edges, types[i], now) {
      if types[i].name == k.edgeType {
        ConfidenceRange(env.exp, edges[k].confidence, Elapsed(now, edges[k].createdAt), types[i].decay);
      }
    }
  }

  /** Deleting edges of other types does not change what a type's pass hits. */
  lemma HitsApart(env: Env, edges: Edges, types: seq<EdgeType>, i: nat, now: nat)
    requires i < |types| && DistinctNames(types)
    ensures Hit(env, Swept(env, edges, types[..i], now), types[i], now) == Hit(env, edges, types[i], now)
    ensures HitAll(env, edges, types[..i], now) !! Hit(env, edges, types[i], now)
  {
    var head := types[..i];
    hide Expired;
    forall k | k in HitAll(env, edges, head, now)
      ensures k.edgeType != types[i].name && (Target(env, k).Some? ==> Target(env, k).value.edgeType != types[i].name)
    {
      HitMeaning(env, edges, head, now, k);
      var j :| 0 <= j < i && k in Hit(env, edges, head[j], now);
      assert head[j] == types[j];
    }
  }

  lemma SweepNext(env: Env, edges: Edges, types: seq<EdgeType>, i: nat, now: nat)
    requires i < |types| && DistinctNames(types)
    ensures var before := Swept(env, edges, types[..i], now);
      && Swept(env, edges, types[..i + 1], now) == before - Gone(env, Hit(env, before, types[i], now))
      && |HitAll(env, edges, types[..i + 1], now)| == |HitAll(env, edges, types[..i], now)| + |Hit(env, before, types[i], now)|
  {
    var head := types[..i];
    assert types[..i + 1] == head + [types[i]];
    assert (head + [types[i]])[..i] == head;
    HitsApart(env, edges, types, i, now);
    hide Hit;
    var a, b := HitAll(env, edges, head, now), Hit(env, edges, types[i], now);
    assert HitAll(env, edges, types[..i + 1], now) == a + b;
    hide HitAll, Gone;
    GoneBoth(env, edges, a, b);
  }

  lemma GoneBoth(env: Env, edges: Edges, a: set<EdgeKey>, b: set<EdgeKey>)
    ensures edges - Gone(env, a + b) == edges - Gone(env, a) - Gone(env, b)
    ensures a !! b ==> |a + b| == |a| + |b|
  {
    var x, y := Gone(env, a), Gone(env, b);
    assert Gone(env, a + b) == x + y;
    hide Gone;
    assert edges - (x + y) == edges - x - y;
  }

  function Deleted(env: Env, k: EdgeKey): set<EdgeKey> {
    var t := Target(env, k);
    if t.Some? && env.deletes(t.value) then {t.value} else {}
  }

  lemma GoneMore(env: Env, hit: set<EdgeKey>, k: EdgeKey)
    ensures Gone(env, hit + {k}) == Gone(env, hit) + Deleted(env, k)
  {
    hide Target;
    var after := Gone(env, hit + {k});
    forall g | g in after ensures g in Gone(env, hit) + Deleted(env, k) {
      var h :| h in hit + {k} && Target(env, h) == Some(g) && env.deletes(g);
      assert h != k ==> h in hit;
    }
  }

  lemma GoneOne(env: Env, edges: Edges, hit: set<EdgeKey>, k: EdgeKey)
    ensures edges - Gone(env, hit + {k}) == Unlinked(env, edges - Gone(env, hit), k)
    ensures k !in hit ==> |hit + {k}| == |hit| + 1
  {
    GoneMore(env, hit, k);
    hide Gone, Deleted, Unlinked;
    var before, more := Gone(env, hit), Deleted(env, k);
    assert edges - (before + more) == edges - before - more;
    UnlinkedDeleted(env, edges - before, k);
  }

  lemma UnlinkedDeleted(env: Env, edges: Edges, k: EdgeKey)
    ensures Unlinked(env, edges, k) == edges - Deleted(env, k)
  {
    hide Target;
    assert Deleted(env, k) == {} ==> edges - Deleted(env, k) == edges;
  }

  /** The edges after the statement for `k` has run. */
  function Unlinked(env: Env, edges: Edges, k: EdgeKey): Edges {
    var t := Target(env, k);
    if t.Some? && env.deletes(t.value) then edges - {t.value} else edges
  }

  /** Passing one more key, of those still to do. */
  lemma PruneStep(env: Env, edges: Edges, hit: set<EdgeKey>, todo: set<EdgeKey>, k: EdgeKey)
    requires k in todo
    ensures var before := edges - Gone(env, hit - todo);
      edges - Gone(env, hit - (todo - {k})) == if k in hit then Unlinked(env, before, k) else before
    ensures |hit - (todo - {k})| == |hit - todo| + (if k in hit then 1 else 0)
  {
    hide Gone, Unlinked;
    if k in hit {
      assert hit - (todo - {k}) == (hit - todo) + {k};
    } else {
      assert hit - (todo - {k}) == hit - todo;
    }
    GoneOne(env, edges, hit - todo, k);
  }

  lemma HitListed(env: Env, edges: Edges, et: EdgeType, now: nat)
    requires env.lists(et.name)
    ensures forall k :: k in Hit(env, edges, et, now) <==>
      k in edges && k.edgeType == et.name && Expired(env, edges[k], et.decay, now) && Target(env, k).Some?
  {}

  class EdgeStore {
    var edges: Edges

    constructor (initial: Edges)
      ensures edges == initial
    {
      edges := initial;
    }

    /** One pass over every edge type; the result is the number of statements run, whatever they
        delete. */
    method SweepOnce(env: Env, types: seq<EdgeType>, now: nat) returns (pruned: nat)
      requires DistinctNames(types)
      modifies this
      ensures edges == Swept(env, old(edges), types, now)
      ensures pruned == |HitAll(env, old(edges), types, now)|
    {
      pruned := 0;
      ghost var start := edges;
      for i := 0 to |types|
        invariant edges == Swept(env, start, types[..i], now)
        invariant pruned == |HitAll(env, start, types[..i], now)|
      {
        SweepNext(env, start, types, i, now);
        hide Hit, HitAll, Swept;
        var n := SweepType(env, types[i], now);
        pruned := pruned + n;
      }
      assert types[..|types|] == types;
    }

    method PruneEdge(env: Env, k: EdgeKey, e: Edge, decay: DecayConfig, now: nat) returns (asked: bool)
      requires decay.pruneThreshold.Some?
      modifies this
      ensures asked <==> UnderThreshold(env.exp, e, decay, now) && Target(env, k).Some?
      ensures edges == if asked then Unlinked(env, old(edges), k) else old(edges)
    {
      if e.createdAt == 0 {
        return false;
      }
      var confidence := EffectiveConfidence(env.exp, e.confidence, Elapsed(now, e.createdAt), decay);
      if confidence >= decay.pruneThreshold.value {
        return false;
      }
      var target := Target(env, k);
      asked := target.Some?;
      if asked && env.deletes(target.value) {
        edges := edges - {target.value};
      }
    }

    method SweepType(env: Env, et: EdgeType, now: nat) returns (pruned: nat)
      modifies this
      ensures edges == old(edges) - Gone(env, Hit(env, old(edges), et, now))
      ensures pruned == |Hit(env, old(edges), et, now)|
    {
      pruned := 0;
      ghost var hit := Hit(env, edges, et, now);
      if et.decay.pruneThreshold.None? || !env.lists(et.name) {
        assert hit == {};
        return;
      }
      var listed := map k | k in edges && k.edgeType == et.name :: edges[k];
      var todo := listed.Keys;
      HitListed(env, edges, et, now);
      hide Gone, Hit, Expired, Unlinked, Target, UnderThreshold;
      assert hit - todo == {} && edges - Gone(env, {}) == edges by { GoneNone(env, edges); }
      while todo != {}
        invariant todo <= listed.Keys
        invariant edges == old(edges) - Gone(env, hit - todo)
        invariant pruned == |hit - todo|
      {
        var k :| k in todo;
        PruneStep(env, old(edges), hit, todo, k);
        ExpiredIff(env, listed[k], et.decay, now);
        var asked := PruneEdge(env, k, listed[k], et.decay, now);
        pruned := if asked then pruned + 1 else pruned;
        todo := todo - {k};
      }
      assert hit - todo == hit;
    }
  }

  lemma GoneNone(env: Env, edges: Edges)
    ensures edges - Gone(env, {}) == edges
  {}
}
