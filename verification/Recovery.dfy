/** Restart recovery of tier migrations: what reopening the engine and then replaying logged
    intents does to the copies of each entity, from any crash state and across repeated crashes. */
module Recovery {
  import opened Basics
  import opened ByteOrder
  import opened Location

  /** The hot tiers share one storage partition. */
  datatype Partition = Hot | Warm | Cold

  function PartitionOf(tier: Tier): Partition {
    match tier
    case Ram => Hot
    case Fjall => Hot
    case NVMe => Warm
    case Archive => Cold
  }

  /** Two tiers share a partition exactly if they are one tier or the two hot ones. */
  lemma PartitionsApart(a: Tier, b: Tier)
    ensures PartitionOf(a) == PartitionOf(b) <==> a == b || (a in {Ram, Fjall} && b in {Ram, Fjall})
    ensures PartitionOf(Fjall) == Hot && PartitionOf(NVMe) == Warm && PartitionOf(Archive) == Cold
  {}

  function EncodingForTier(tier: Tier): Encoding {
    match tier
    case Ram => Float32
    case Fjall => Float32
    case NVMe => Int8
    case Archive => Binary
  }

  datatype Slot = Slot(collection: string, entity: Id, part: Partition)

  type Store = map<Slot, seq<Byte>>

  /** The payload of a migration record. */
  datatype Migration = Migration(collection: string, entity: Id, from: Tier, to: Tier) {
    function Source(): Slot { Slot(collection, entity, PartitionOf(from)) }
    function Target(): Slot { Slot(collection, entity, PartitionOf(to)) }
  }

  datatype RecoveryAction = NoAction | AlreadyComplete | ReExecute | CleanupSource

  function ClassifyMigrationState(sourceExists: bool, targetExists: bool): RecoveryAction {
    match (sourceExists, targetExists)
    case (false, false) => NoAction
    case (false, true) => AlreadyComplete
    case (true, false) => ReExecute
    case (true, true) => CleanupSource
  }

  /** The tier partitions after one migration record. */
  function RecoverRecord(store: Store, m: Migration): Store {
    match ClassifyMigrationState(m.Source() in store, m.Target() in store)
    case NoAction => store
    case AlreadyComplete => store
    case ReExecute => store[m.Target() := store[m.Source()]] - {m.Source()}
    case CleanupSource => store - {m.Source()}
  }

  /** The location entry is touched in two of the four cases, and only if it exists. */
  function RecoverLocation(store: Store, descriptors: map<ReprKey, Descriptor>, m: Migration): map<ReprKey, Descriptor> {
    var key := ReprKey(m.entity, 0);
    var action := ClassifyMigrationState(m.Source() in store, m.Target() in store);
    if (action == AlreadyComplete || action == ReExecute) && key in descriptors then
      var d := descriptors[key];
      descriptors[key := d.(tier := m.to, encoding := EncodingForTier(m.to), version := d.version + 1)]
    else descriptors
  }

  /** What the entry says after a record: the target tier, with its encoding, exactly when the
      record found or made a target copy that stands alone; else what it said before. */
  lemma RecoveredEntry(store: Store, descriptors: map<ReprKey, Descriptor>, m: Migration, key: ReprKey)
    requires key in descriptors
    ensures var after := RecoverLocation(store, descriptors, m);
      var moved := key == ReprKey(m.entity, 0) && ((m.Source() in store) != (m.Target() in store));
      && after.Keys == descriptors.Keys
      && (!moved ==> after[key] == descriptors[key])
      && (moved ==> after[key].tier == m.to && after[key].version == descriptors[key].version + 1)
      && (moved && (m.to == Ram || m.to == Fjall) ==> after[key].encoding == Float32)
      && (moved && m.to == NVMe ==> after[key].encoding == Int8)
      && (moved && m.to == Archive ==> after[key].encoding == Binary)
  {}

  function RecoverAll(store: Store, log: seq<Migration>): Store {
    if log == [] then store else RecoverRecord(RecoverAll(store, log[..|log| - 1]), log[|log| - 1])
  }

  function LocationAfter(store: Store, descriptors: map<ReprKey, Descriptor>, log: seq<Migration>): map<ReprKey, Descriptor> {
    if log == [] then descriptors
    else
      var init := log[..|log| - 1];
      RecoverLocation(RecoverAll(store, init), LocationAfter(store, descriptors, init), log[|log| - 1])
  }

  // ----- what opening the engine re-applies before any migration is replayed -----

  /** An entity record of the log: one written goes back to the hot partition, one deleted
      leaves all of them. */
  datatype EntityOp = Put(collection: string, entity: Id, bytes: seq<Byte>) | Erase(collection: string, entity: Id)

  function Applied(store: Store, op: EntityOp): Store {
    match op
    case Put(c, e, bytes) => store[Slot(c, e, Hot) := bytes]
    case Erase(c, e) => store - {Slot(c, e, Hot), Slot(c, e, Warm), Slot(c, e, Cold)}
  }

  function Reopened(store: Store, ops: seq<EntityOp>): Store {
    if ops == [] then store else Applied(Reopened(store, ops[..|ops| - 1]), ops[|ops| - 1])
  }

  // ----- one entity: the partitions that hold it -----

  ghost function Holding(store: Store, collection: string, entity: Id): set<Partition> {
    set p: Partition | Slot(collection, entity, p) in store
  }

  datatype Move = Move(from: Partition, to: Partition)

  function StepOf(m: Move, p: Partition): Partition {
    if p == m.from then m.to else p
  }

  /** Where a copy in partition `p` ends up when the moves are carried out in order. */
  ghost function Dest(moves: seq<Move>, p: Partition): Partition {
    if moves == [] then p else StepOf(moves[|moves| - 1], Dest(moves[..|moves| - 1], p))
  }

  /** The moves of one entity, in log order. */
  ghost function Moves(log: seq<Migration>, collection: string, entity: Id): seq<Move> {
    if log == [] then []
    else
      var m := log[|log| - 1];
      Moves(log[..|log| - 1], collection, entity) + (
        if m.collection == collection && m.entity == entity
        then [Move(PartitionOf(m.from), PartitionOf(m.to))] else [])
  }

  /** No record of the entity moves a partition onto itself. */
  ghost predicate Proper(moves: seq<Move>) {
    forall i :: 0 <= i < |moves| ==> moves[i].from != moves[i].to
  }

  ghost function Image(h: set<Partition>, moves: seq<Move>): set<Partition> {
    set p: Partition | p in h :: Dest(moves, p)
  }

  /** All four recovery cases amount to renaming the source partition to the target. */
  lemma {:induction false} RecordRenames(store: Store, m: Migration, p: Partition)
    requires m.Source() != m.Target()
    ensures var after := RecoverRecord(store, m);
      Slot(m.collection, m.entity, p) in after <==>
        exists q: Partition :: (
          && Slot(m.collection, m.entity, q) in store
          && StepOf(Move(PartitionOf(m.from), PartitionOf(m.to)), q) == p)
  {
    var move := Move(PartitionOf(m.from), PartitionOf(m.to));
    var after := RecoverRecord(store, m);
    if Slot(m.collection, m.entity, p) in after {
      var q := if Slot(m.collection, m.entity, p) in store then p else move.from;
      assert Slot(m.collection, m.entity, q) in store && StepOf(move, q) == p;
    }
    if q: Partition :| Slot(m.collection, m.entity, q) in store && StepOf(move, q) == p {
      assert Slot(m.collection, m.entity, p) in after;
    }
  }

  /** A record leaves every other entity alone, bytes included. */
  lemma {:induction false} RecordFrame(store: Store, m: Migration, s: Slot)
    requires s.collection != m.collection || s.entity != m.entity
    ensures s in RecoverRecord(store, m) <==> s in store
    ensures s in store ==> RecoverRecord(store, m)[s] == store[s]
  {}

  /** A record whose tiers share a partition destroys the copy it finds there: `Ram` to
      `Fjall` would lose the entity. The copies of the entity survive a record exactly when
      its tiers live in different partitions or the shared one holds nothing. */
  lemma RecordKeepsEntity(store: Store, m: Migration)
    requires Holding(store, m.collection, m.entity) != {}
    ensures Holding(RecoverRecord(store, m), m.collection, m.entity) == {} <==>
      m.Source() == m.Target() && Holding(store, m.collection, m.entity) == {PartitionOf(m.from)}
  {
    var before := Holding(store, m.collection, m.entity);
    var after := Holding(RecoverRecord(store, m), m.collection, m.entity);
    var p :| p in before;
    if m.Source() != m.Target() {
      RecordRenames(store, m, StepOf(Move(PartitionOf(m.from), PartitionOf(m.to)), p));
      assert StepOf(Move(PartitionOf(m.from), PartitionOf(m.to)), p) in after;
    } else {
      assert after == before - {PartitionOf(m.from)};
    }
  }

  /** Recovery maps every copy of every entity to its destination. */
  lemma {:induction false} RecoveryImage(store: Store, log: seq<Migration>, collection: string, entity: Id)
    requires Proper(Moves(log, collection, entity))
    ensures Holding(RecoverAll(store, log), collection, entity)
      == Image(Holding(store, collection, entity), Moves(log, collection, entity))
  {
    var h := Holding(store, collection, entity);
    if log == [] {
      assert Image(h, []) == h;
    } else {
      var init, m := log[..|log| - 1], log[|log| - 1];
      var moves, before := Moves(log, collection, entity), Moves(init, collection, entity);
      ProperPrefix(before, moves);
      RecoveryImage(store, init, collection, entity);
      var mid, after := RecoverAll(store, init), RecoverAll(store, log);
      if m.collection == collection && m.entity == entity {
        var move := Move(PartitionOf(m.from), PartitionOf(m.to));
        assert moves == before + [move] && moves[|before|].from != moves[|before|].to;
        forall p: Partition ensures p in Holding(after, collection, entity) <==> p in Image(h, moves) {
          RecordRenames(mid, m, p);
          ImageStep(h, before, move, p);
        }
      } else {
        forall p: Partition ensures Slot(collection, entity, p) in after <==> Slot(collection, entity, p) in mid {
          RecordFrame(mid, m, Slot(collection, entity, p));
        }
        assert moves == before;
      }
    }
  }

  lemma ProperPrefix(before: seq<Move>, moves: seq<Move>)
    requires Proper(moves) && |before| <= |moves| && before == moves[..|before|]
    ensures Proper(before)
  {
    forall i | 0 <= i < |before| ensures before[i].from != before[i].to {
      assert before[i] == moves[i];
    }
  }

  lemma ImageStep(h: set<Partition>, before: seq<Move>, move: Move, p: Partition)
    ensures p in Image(h, before + [move]) <==> exists q :: q in Image(h, before) && StepOf(move, q) == p
  {
    var moves := before + [move];
    assert moves[..|moves| - 1] == before;
    forall r: Partition ensures Dest(moves, r) == StepOf(move, Dest(before, r)) {}
    if p in Image(h, moves) {
      var r :| r in h && Dest(moves, r) == p;
      assert Dest(before, r) in Image(h, before);
    }
    if q :| q in Image(h, before) && StepOf(move, q) == p {
      var r :| r in h && Dest(before, r) == q;
      assert Dest(moves, r) == p;
    }
  }

  /** What the entity records of a log do to one entity's copies: nothing, one more hot copy, a
      hot copy in place of all others, or none left. */
  datatype Effect = Untouched | HotBack | HotOnly | Erased

  function EffectOf(ops: seq<EntityOp>, collection: string, entity: Id): Effect {
    if ops == [] then Untouched
    else
      var op, before := ops[|ops| - 1], EffectOf(ops[..|ops| - 1], collection, entity);
      if op.collection != collection || op.entity != entity then before
      else if op.Erase? then Erased
      else if before == Untouched || before == HotBack then HotBack
      else HotOnly
  }

  function AfterOpen(h: set<Partition>, effect: Effect): set<Partition> {
    match effect
    case Untouched => h
    case HotBack => h + {Hot}
    case HotOnly => {Hot}
    case Erased => {}
  }

  lemma HoldingApplied(store: Store, op: EntityOp, collection: string, entity: Id)
    ensures Holding(Applied(store, op), collection, entity) ==
      if op.collection != collection || op.entity != entity then Holding(store, collection, entity)
      else if op.Erase? then {} else Holding(store, collection, entity) + {Hot}
  {
    var after := Holding(Applied(store, op), collection, entity);
    if op.collection == collection && op.entity == entity && op.Erase? {
      forall p: Partition ensures Slot(collection, entity, p) !in Applied(store, op) {
        assert p == Hot || p == Warm || p == Cold;
      }
    }
  }

  /** The effect tells where every entity is after the engine has opened. */
  lemma {:induction false} ReopenedHolding(store: Store, ops: seq<EntityOp>, collection: string, entity: Id)
    ensures Holding(Reopened(store, ops), collection, entity)
      == AfterOpen(Holding(store, collection, entity), EffectOf(ops, collection, entity))
  {
    if ops != [] {
      var init := ops[..|ops| - 1];
      ReopenedHolding(store, init, collection, entity);
      HoldingApplied(Reopened(store, init), ops[|ops| - 1], collection, entity);
      hide Applied, Holding;
    }
  }

  /** Opening part of the way and then all of the way is opening once. */
  lemma {:induction false} OpenTwice(ops: seq<EntityOp>, n: nat, collection: string, entity: Id, h: set<Partition>)
    requires n <= |ops|
    ensures var effect := EffectOf(ops, collection, entity);
      AfterOpen(AfterOpen(h, EffectOf(ops[..n], collection, entity)), effect) == AfterOpen(h, effect)
    decreases |ops|
  {
    if n == |ops| {
      assert ops[..n] == ops;
    } else {
      assert ops[..|ops| - 1][..n] == ops[..n];
      OpenTwice(ops[..|ops| - 1], n, collection, entity, h);
    }
  }

  ghost predicate Agree(h: set<Partition>, moves: seq<Move>) {
    forall p, q :: p in h && q in h ==> Dest(moves, p) == Dest(moves, q)
  }

  /** Opening and then replaying the migrations leaves exactly one copy exactly when opening
      leaves some, all of them with the same destination. */
  lemma OneCopyIff(store: Store, ops: seq<EntityOp>, log: seq<Migration>, collection: string, entity: Id)
    requires Proper(Moves(log, collection, entity))
    ensures var h := AfterOpen(Holding(store, collection, entity), EffectOf(ops, collection, entity));
      (exists t :: Holding(RecoverAll(Reopened(store, ops), log), collection, entity) == {t}) <==>
        h != {} && Agree(h, Moves(log, collection, entity))
  {
    ReopenedHolding(store, ops, collection, entity);
    RecoveryImage(Reopened(store, ops), log, collection, entity);
    var h, moves := Holding(Reopened(store, ops), collection, entity), Moves(log, collection, entity);
    var after := Image(h, moves);
    if t :| after == {t} {
      forall p, q | p in h && q in h ensures Dest(moves, p) == Dest(moves, q) {
        assert Dest(moves, p) in after && Dest(moves, q) in after;
      }
    }
    if h != {} && Agree(h, moves) {
      var p :| p in h;
      assert after == {Dest(moves, p)};
    }
  }

  // ----- crashes during recovery -----

  /** Recovery stopped after `i` records and, if `half`, after the write but before the delete
      of a re-executed record. Every other case is a single storage operation. */
  function PartialRecovery(store: Store, log: seq<Migration>, i: nat, half: bool): Store
    requires i <= |log|
  {
    var mid := RecoverAll(store, log[..i]);
    if half && i < |log| && log[i].Source() in mid && log[i].Target() !in mid
    then mid[log[i].Target() := mid[log[i].Source()]]
    else mid
  }

  /** A crash while the engine opens, or else while the migrations are replayed. */
  datatype Crash = Crash(reopened: nat, done: nat, half: bool)

  ghost predicate Possible(crashes: seq<Crash>, ops: seq<EntityOp>, log: seq<Migration>) {
    forall i :: 0 <= i < |crashes| ==> crashes[i].reopened <= |ops| && crashes[i].done <= |log|
  }

  function Attempt(store: Store, ops: seq<EntityOp>, log: seq<Migration>, c: Crash): Store
    requires c.reopened <= |ops| && c.done <= |log|
  {
    if c.reopened < |ops| then Reopened(store, ops[..c.reopened])
    else PartialRecovery(Reopened(store, ops), log, c.done, c.half)
  }

  /** Any number of crashed attempts, each restarting the log from its beginning. */
  function CrashedRuns(store: Store, ops: seq<EntityOp>, log: seq<Migration>, crashes: seq<Crash>): Store
    requires Possible(crashes, ops, log)
  {
    if crashes == [] then store
    else
      var n := |crashes| - 1;
      Attempt(CrashedRuns(store, ops, log, crashes[..n]), ops, log, crashes[n])
  }

  /** The attempt that completes after them. */
  function Restarted(store: Store, ops: seq<EntityOp>, log: seq<Migration>, crashes: seq<Crash>): Store
    requires Possible(crashes, ops, log)
  {
    RecoverAll(Reopened(CrashedRuns(store, ops, log, crashes), ops), log)
  }

  /** A set of partitions that no part of a recovery leaves and from which everything ends at
      `t`. */
  ghost predicate Funnel(a: set<Partition>, moves: seq<Move>, t: Partition) {
    && (forall p :: p in a ==> Dest(moves, p) == t)
    && (forall p, k :: p in a && 0 <= k <= |moves| ==> Dest(moves[..k], p) in a)
  }

  lemma {:induction false} DestStaysIn(a: set<Partition>, moves: seq<Move>, k: nat, p: Partition)
    requires k <= |moves| && p in a
    requires forall q, i :: q in a && 0 <= i < |moves| ==> StepOf(moves[i], q) in a
    ensures Dest(moves[..k], p) in a
  {
    if k > 0 {
      DestStaysIn(a, moves, k - 1, p);
      assert moves[..k][..k - 1] == moves[..k - 1];
      assert StepOf(moves[k - 1], Dest(moves[..k - 1], p)) in a;
    }
  }

  lemma {:induction false} MovesPrefix(log: seq<Migration>, i: nat, collection: string, entity: Id)
    requires i <= |log|
    ensures |Moves(log[..i], collection, entity)| <= |Moves(log, collection, entity)|
    ensures Moves(log[..i], collection, entity) == Moves(log, collection, entity)[..|Moves(log[..i], collection, entity)|]
    ensures i < |log| && log[i].collection == collection && log[i].entity == entity ==>
      var k := |Moves(log[..i], collection, entity)|;
      && k < |Moves(log, collection, entity)|
      && Moves(log, collection, entity)[k] == Move(PartitionOf(log[i].from), PartitionOf(log[i].to))
    decreases |log|
  {
    if i < |log| {
      var n := |log| - 1;
      MovesPrefix(log[..n], i, collection, entity);
      assert log[..n][..i] == log[..i];
    } else {
      assert log[..i] == log;
    }
  }

  lemma FunnelAt(a: set<Partition>, moves: seq<Move>, t: Partition, p: Partition, k: nat)
    requires Funnel(a, moves, t) && p in a && k <= |moves|
    ensures Dest(moves[..k], p) in a
  {}

  /** After any number of whole records, the entity is somewhere inside the funnel. */
  lemma PrefixStaysIn(store: Store, log: seq<Migration>, i: nat, collection: string, entity: Id,
                      a: set<Partition>, t: Partition)
    requires i <= |log| && Proper(Moves(log, collection, entity))
    requires Funnel(a, Moves(log, collection, entity), t)
    requires {} != Holding(store, collection, entity) <= a
    ensures Holding(RecoverAll(store, log[..i]), collection, entity)
      == Image(Holding(store, collection, entity), Moves(log[..i], collection, entity))
    ensures {} != Holding(RecoverAll(store, log[..i]), collection, entity) <= a
  {
    hide Funnel, Proper;
    var moves, before := Moves(log, collection, entity), Moves(log[..i], collection, entity);
    MovesPrefix(log, i, collection, entity);
    ProperPrefix(before, moves);
    RecoveryImage(store, log[..i], collection, entity);
    hide Moves, RecoverAll, Holding, Dest;
    var h := Holding(store, collection, entity);
    forall p | p in h ensures Dest(before, p) in a {
      FunnelAt(a, moves, t, p, |before|);
    }
    var p :| p in h;
    assert Dest(before, p) in Image(h, before);
  }

  /** A funnel holds the end of every move that begins where something of it has come. */
  lemma FunnelNext(a: set<Partition>, moves: seq<Move>, t: Partition, p: Partition, k: nat)
    requires Funnel(a, moves, t) && p in a && k < |moves| && Dest(moves[..k], p) == moves[k].from
    ensures moves[k].to in a
  {
    FunnelAt(a, moves, t, p, k + 1);
    hide Funnel;
    assert moves[..k + 1][..k] == moves[..k];
  }

  /** The target of the record after those is in the funnel too, if its source is held. */
  lemma NextStaysIn(store: Store, log: seq<Migration>, i: nat, collection: string, entity: Id,
                    a: set<Partition>, t: Partition)
    requires i < |log| && log[i].collection == collection && log[i].entity == entity
    requires Funnel(a, Moves(log, collection, entity), t) && Holding(store, collection, entity) <= a
    requires PartitionOf(log[i].from) in Image(Holding(store, collection, entity), Moves(log[..i], collection, entity))
    ensures PartitionOf(log[i].to) in a
  {
    var moves, before := Moves(log, collection, entity), Moves(log[..i], collection, entity);
    MovesPrefix(log, i, collection, entity);
    hide Funnel, Moves, Holding, Dest;
    var r :| r in Holding(store, collection, entity) && Dest(before, r) == PartitionOf(log[i].from);
    hide PartitionOf, Image;
    FunnelNext(a, moves, t, r, |before|);
  }

  /** A crashed attempt keeps the entity somewhere inside the funnel. */
  lemma PartialStaysIn(store: Store, log: seq<Migration>, i: nat, half: bool, collection: string, entity: Id,
                       a: set<Partition>, t: Partition)
    requires i <= |log| && Proper(Moves(log, collection, entity))
    requires Funnel(a, Moves(log, collection, entity), t)
    requires {} != Holding(store, collection, entity) <= a
    ensures {} != Holding(PartialRecovery(store, log, i, half), collection, entity) <= a
  {
    PrefixStaysIn(store, log, i, collection, entity, a, t);
    var mid := RecoverAll(store, log[..i]);
    hide Funnel, Proper, RecoverAll, Moves, Dest, Image;
    if half && i < |log| && log[i].Source() in mid && log[i].Target() !in mid {
      if log[i].collection == collection && log[i].entity == entity {
        assert PartitionOf(log[i].from) in Holding(mid, collection, entity);
        NextStaysIn(store, log, i, collection, entity, a, t);
      }
      HoldingWrite(mid, log[i].Target(), mid[log[i].Source()], collection, entity);
    }
  }

  lemma HoldingWrite(store: Store, s: Slot, bytes: seq<Byte>, collection: string, entity: Id)
    ensures Holding(store[s := bytes], collection, entity) == Holding(store, collection, entity) +
      (if s.collection == collection && s.entity == entity then {s.part} else {})
  {}

  /** What a crashed attempt leaves. One that ends while the engine opens leaves the entity records
      re-applied so far. One that ends between two migrations leaves those before, and one between
      the write and the delete of a migration leaves its source with a copy of the same bytes. */
  lemma AttemptMeaning(store: Store, ops: seq<EntityOp>, log: seq<Migration>, c: Crash)
    requires c.reopened <= |ops| && c.done <= |log|
    ensures c.reopened < |ops| ==> Attempt(store, ops, log, c) == Reopened(store, ops[..c.reopened])
    ensures c.reopened == |ops| && !c.half ==> Attempt(store, ops, log, c) == RecoverAll(Reopened(store, ops), log[..c.done])
    ensures c.reopened == |ops| && c.done == |log| && !c.half ==> Attempt(store, ops, log, c) == Restarted(store, ops, log, [])
    ensures c.reopened == |ops| && c.half && c.done < |log| ==>
      var mid, after, m := RecoverAll(Reopened(store, ops), log[..c.done]), Attempt(store, ops, log, c), log[c.done];
      if m.Source() in mid && m.Target() !in mid
      then m.Source() in after && m.Target() in after && after[m.Target()] == mid[m.Source()] == after[m.Source()]
      else after == mid
  {
    assert log[..|log|] == log;
  }

  /** Crashed attempts follow one another, each on what the one before left. */
  lemma CrashesCompose(store: Store, ops: seq<EntityOp>, log: seq<Migration>, crashes: seq<Crash>, c: Crash)
    requires Possible(crashes + [c], ops, log)
    ensures Possible(crashes, ops, log) && c.reopened <= |ops| && c.done <= |log|
    ensures CrashedRuns(store, ops, log, crashes + [c]) == Attempt(CrashedRuns(store, ops, log, crashes), ops, log, c)
    ensures CrashedRuns(store, ops, log, []) == store
  {
    var all := crashes + [c];
    assert all[|crashes|] == c && all[..|crashes|] == crashes;
    assert forall i :: 0 <= i < |crashes| ==> crashes[i] == all[i];
  }

  /** One crashed attempt: opening again brings the entity back inside the funnel. */
  lemma AttemptStaysIn(store: Store, ops: seq<EntityOp>, log: seq<Migration>, c: Crash,
                       collection: string, entity: Id, a: set<Partition>, t: Partition)
    requires c.reopened <= |ops| && c.done <= |log|
    requires Proper(Moves(log, collection, entity)) && Funnel(a, Moves(log, collection, entity), t)
    requires {} != AfterOpen(Holding(store, collection, entity), EffectOf(ops, collection, entity)) <= a
    ensures {} != AfterOpen(Holding(Attempt(store, ops, log, c), collection, entity), EffectOf(ops, collection, entity)) <= a
  {
    hide Funnel, Proper, Holding, Moves, EffectOf, PartialRecovery, Reopened;
    if c.reopened < |ops| {
      ReopenedHolding(store, ops[..c.reopened], collection, entity);
      OpenTwice(ops, c.reopened, collection, entity, Holding(store, collection, entity));
    } else {
      ReopenedHolding(store, ops, collection, entity);
      PartialStaysIn(Reopened(store, ops), log, c.done, c.half, collection, entity, a, t);
    }
  }

  /** However often a restart crashes, while the engine opens, at any migration record or
      between the write and the delete of one, the attempt that completes leaves exactly one
      copy, at the funnel's end. */
  lemma {:induction false} CrashTolerant(store: Store, ops: seq<EntityOp>, log: seq<Migration>, crashes: seq<Crash>,
                                         collection: string, entity: Id, a: set<Partition>, t: Partition)
    requires Possible(crashes, ops, log)
    requires Proper(Moves(log, collection, entity)) && Funnel(a, Moves(log, collection, entity), t)
    requires {} != AfterOpen(Holding(store, collection, entity), EffectOf(ops, collection, entity)) <= a
    ensures {} != AfterOpen(Holding(CrashedRuns(store, ops, log, crashes), collection, entity), EffectOf(ops, collection, entity)) <= a
    ensures Holding(Restarted(store, ops, log, crashes), collection, entity) == {t}
    decreases |crashes|
  {
    if crashes != [] {
      var n := |crashes| - 1;
      var prev := CrashedRuns(store, ops, log, crashes[..n]);
      CrashTolerant(store, ops, log, crashes[..n], collection, entity, a, t);
      AttemptStaysIn(prev, ops, log, crashes[n], collection, entity, a, t);
    }
    var s := CrashedRuns(store, ops, log, crashes);
    FunnelEnd(s, ops, log, collection, entity, a, t);
  }

  lemma FunnelEnd(store: Store, ops: seq<EntityOp>, log: seq<Migration>,
                  collection: string, entity: Id, a: set<Partition>, t: Partition)
    requires Proper(Moves(log, collection, entity)) && Funnel(a, Moves(log, collection, entity), t)
    requires {} != AfterOpen(Holding(store, collection, entity), EffectOf(ops, collection, entity)) <= a
    ensures Holding(RecoverAll(Reopened(store, ops), log), collection, entity) == {t}
  {
    ReopenedHolding(store, ops, collection, entity);
    RecoveryImage(Reopened(store, ops), log, collection, entity);
    var h, moves := Holding(Reopened(store, ops), collection, entity), Moves(log, collection, entity);
    hide Reopened, Moves, RecoverAll, Holding, EffectOf;
    var p :| p in h;
    assert Dest(moves, p) in Image(h, moves);
  }

  /** An entity deleted and written again comes back to the hot copy alone on every attempt, so
      no crash and no earlier tier matters. */
  lemma RewrittenRestart(store: Store, ops: seq<EntityOp>, log: seq<Migration>, crashes: seq<Crash>,
                         collection: string, entity: Id)
    requires Possible(crashes, ops, log) && Proper(Moves(log, collection, entity))
    requires EffectOf(ops, collection, entity) == HotOnly
    ensures Holding(Restarted(store, ops, log, crashes), collection, entity) == {Dest(Moves(log, collection, entity), Hot)}
  {
    var s := CrashedRuns(store, ops, log, crashes);
    ReopenedHolding(s, ops, collection, entity);
    RecoveryImage(Reopened(s, ops), log, collection, entity);
  }

  /** A deleted entity stays deleted. */
  lemma ErasedRestart(store: Store, ops: seq<EntityOp>, log: seq<Migration>, crashes: seq<Crash>,
                      collection: string, entity: Id)
    requires Possible(crashes, ops, log) && Proper(Moves(log, collection, entity))
    requires EffectOf(ops, collection, entity) == Erased
    ensures Holding(Restarted(store, ops, log, crashes), collection, entity) == {}
  {
    var s := CrashedRuns(store, ops, log, crashes);
    ReopenedHolding(s, ops, collection, entity);
    RecoveryImage(Reopened(s, ops), log, collection, entity);
  }

  // ----- chains -----

  /** Each move starts where the ones before it end, the first one at `start`. */
  ghost predicate Chain(moves: seq<Move>, start: Partition) {
    moves == [] || (
      var init := moves[..|moves| - 1];
      Chain(init, start) && moves[|moves| - 1].from == ChainEnd(init, start))
  }

  ghost function ChainEnd(moves: seq<Move>, start: Partition): Partition {
    if moves == [] then start else moves[|moves| - 1].to
  }

  ghost function ChainNodes(moves: seq<Move>, start: Partition): (r: set<Partition>)
    ensures start in r && forall i :: 0 <= i < |moves| ==> moves[i].to in r
  {
    if moves == [] then {start}
    else
      var n := |moves| - 1;
      assert forall i :: 0 <= i < n ==> moves[i] == moves[..n][i];
      ChainNodes(moves[..n], start) + {moves[n].to}
  }

  lemma {:induction false} ChainDest(moves: seq<Move>, start: Partition, p: Partition)
    requires Chain(moves, start)
    ensures Dest(moves, p) == if p in ChainNodes(moves, start) then ChainEnd(moves, start) else p
    decreases |moves|
  {
    if moves != [] {
      var init := moves[..|moves| - 1];
      ChainDest(init, start, p);
      assert ChainEnd(init, start) in ChainNodes(init, start);
    }
  }

  /** A set no single move leaves is a funnel if all of it ends at one place. */
  lemma StepFunnel(a: set<Partition>, moves: seq<Move>, t: Partition)
    requires forall p :: p in a ==> Dest(moves, p) == t
    requires forall p, i :: p in a && 0 <= i < |moves| ==> StepOf(moves[i], p) in a
    ensures Funnel(a, moves, t)
  {
    forall p, k | p in a && 0 <= k <= |moves| ensures Dest(moves[..k], p) in a {
      DestStaysIn(a, moves, k, p);
    }
  }

  lemma ChainFunnel(moves: seq<Move>, start: Partition)
    requires Chain(moves, start)
    ensures Funnel(ChainNodes(moves, start), moves, ChainEnd(moves, start))
  {
    forall p | p in ChainNodes(moves, start) ensures Dest(moves, p) == ChainEnd(moves, start) {
      ChainDest(moves, start, p);
    }
    StepFunnel(ChainNodes(moves, start), moves, ChainEnd(moves, start));
  }

  /** For any chain of logged migrations of one entity, whatever other entities the log
      mentions: if opening leaves the entity in tiers named by the chain only, a restart ends
      with exactly one copy in the last record's tier, however often it crashes on the way. */
  lemma {:induction false} ChainRecovery(store: Store, ops: seq<EntityOp>, log: seq<Migration>, crashes: seq<Crash>,
                                        collection: string, entity: Id, start: Partition)
    requires Possible(crashes, ops, log)
    requires Proper(Moves(log, collection, entity)) && Chain(Moves(log, collection, entity), start)
    requires {} != AfterOpen(Holding(store, collection, entity), EffectOf(ops, collection, entity))
      <= ChainNodes(Moves(log, collection, entity), start)
    ensures Holding(Restarted(store, ops, log, crashes), collection, entity)
      == {ChainEnd(Moves(log, collection, entity), start)}
  {
    var moves := Moves(log, collection, entity);
    ChainFunnel(moves, start);
    CrashTolerant(store, ops, log, crashes, collection, entity, ChainNodes(moves, start), ChainEnd(moves, start));
  }

  /** An entity in tiers named by its chain always comes to the chain's end exactly when no
      write of it is re-applied, or it is not deleted and the chain passes the hot tier. */
  lemma ChainRecoveryIff(store: Store, ops: seq<EntityOp>, log: seq<Migration>,
                         collection: string, entity: Id, start: Partition)
    requires Proper(Moves(log, collection, entity)) && Chain(Moves(log, collection, entity), start)
    requires {} != Holding(store, collection, entity) <= ChainNodes(Moves(log, collection, entity), start)
    ensures var moves, effect := Moves(log, collection, entity), EffectOf(ops, collection, entity);
      (forall crashes: seq<Crash> :: Possible(crashes, ops, log) ==>
        Holding(Restarted(store, ops, log, crashes), collection, entity) == {ChainEnd(moves, start)})
      <==> effect == Untouched || (effect != Erased && Hot in ChainNodes(moves, start))
  {
    var moves, effect := Moves(log, collection, entity), EffectOf(ops, collection, entity);
    var h := AfterOpen(Holding(store, collection, entity), effect);
    if effect == Untouched || (effect != Erased && Hot in ChainNodes(moves, start)) {
      forall crashes: seq<Crash> | Possible(crashes, ops, log)
        ensures Holding(Restarted(store, ops, log, crashes), collection, entity) == {ChainEnd(moves, start)}
      {
        ChainRecovery(store, ops, log, crashes, collection, entity, start);
      }
    } else {
      ReopenedHolding(store, ops, collection, entity);
      RecoveryImage(Reopened(store, ops), log, collection, entity);
      ChainDest(moves, start, Hot);
      var none: seq<Crash> := [];
      assert Possible(none, ops, log) && CrashedRuns(store, ops, log, none) == store;
      assert Restarted(store, ops, log, none) == RecoverAll(Reopened(store, ops), log);
      ChainEndNamed(moves, start);
      assert effect != Erased ==> Dest(moves, Hot) in Image(h, moves);
    }
  }

  lemma ChainEndNamed(moves: seq<Move>, start: Partition)
    ensures ChainEnd(moves, start) in ChainNodes(moves, start)
  {}

  /** Recovery never invents bytes: what a slot holds afterwards, the entity held before. */
  lemma {:induction false} RecoveryKeepsBytes(store: Store, log: seq<Migration>, s: Slot)
    requires s in RecoverAll(store, log)
    ensures exists p: Partition :: (
      && Slot(s.collection, s.entity, p) in store
      && store[Slot(s.collection, s.entity, p)] == RecoverAll(store, log)[s])
    decreases |log|
  {
    if log == [] {
      assert Slot(s.collection, s.entity, s.part) == s;
    } else {
      var init, m := log[..|log| - 1], log[|log| - 1];
      var mid := RecoverAll(store, init);
      var origin := if s in mid && (s != m.Target() || m.Source() !in mid || m.Target() in mid) then s else m.Source();
      assert origin in mid && mid[origin] == RecoverAll(store, log)[s];
      RecoveryKeepsBytes(store, init, origin);
    }
  }

  /** The bytes are those of one of the entity's copies, or of a write of it in the log. */
  ghost predicate Known(bytes: seq<Byte>, store: Store, ops: seq<EntityOp>, collection: string, entity: Id) {
    || (exists p: Partition :: Slot(collection, entity, p) in store && store[Slot(collection, entity, p)] == bytes)
    || Put(collection, entity, bytes) in ops
  }

  ghost predicate AllKnown(now: Store, store: Store, ops: seq<EntityOp>) {
    forall s :: s in now ==> Known(now[s], store, ops, s.collection, s.entity)
  }

  lemma {:induction false} OpenedKnown(now: Store, store: Store, ops: seq<EntityOp>, n: nat)
    requires n <= |ops| && AllKnown(now, store, ops)
    ensures AllKnown(Reopened(now, ops[..n]), store, ops)
  {
    if n > 0 {
      OpenedKnown(now, store, ops, n - 1);
      assert ops[..n][..n - 1] == ops[..n - 1] && ops[n - 1] in ops;
      hide Known;
      var mid, after, op := Reopened(now, ops[..n - 1]), Reopened(now, ops[..n]), ops[n - 1];
      forall s | s in after ensures Known(after[s], store, ops, s.collection, s.entity) {
        if s in mid && after[s] == mid[s] {
        } else {
          assert op == Put(s.collection, s.entity, after[s]);
          PutKnown(op, store, ops);
        }
      }
    }
  }

  lemma PutKnown(op: EntityOp, store: Store, ops: seq<EntityOp>)
    requires op in ops && op.Put?
    ensures Known(op.bytes, store, ops, op.collection, op.entity)
  {}

  lemma ReplayedKnown(now: Store, store: Store, ops: seq<EntityOp>, log: seq<Migration>)
    requires AllKnown(now, store, ops)
    ensures AllKnown(RecoverAll(now, log), store, ops)
  {
    hide Known, RecoverAll;
    forall s | s in RecoverAll(now, log) ensures Known(RecoverAll(now, log)[s], store, ops, s.collection, s.entity) {
      RecoveryKeepsBytes(now, log, s);
    }
  }

  /** Nor does a restart: whatever crashed before it, each slot ends with bytes of the entity's
      own, from a copy it had at first or from a logged write of it. */
  lemma {:induction false} RestartKeepsBytes(store: Store, ops: seq<EntityOp>, log: seq<Migration>, crashes: seq<Crash>)
    requires Possible(crashes, ops, log)
    ensures AllKnown(CrashedRuns(store, ops, log, crashes), store, ops)
    ensures AllKnown(Restarted(store, ops, log, crashes), store, ops)
    decreases |crashes|
  {
    if crashes == [] {
      assert forall s :: s in store ==> Slot(s.collection, s.entity, s.part) == s;
    } else {
      var n := |crashes| - 1;
      var c, prev := crashes[n], CrashedRuns(store, ops, log, crashes[..n]);
      RestartKeepsBytes(store, ops, log, crashes[..n]);
      OpenedKnown(prev, store, ops, c.reopened);
      assert ops[..|ops|] == ops;
      if c.reopened == |ops| {
        ReplayedKnown(Reopened(prev, ops), store, ops, log[..c.done]);
      }
    }
    var s := CrashedRuns(store, ops, log, crashes);
    OpenedKnown(s, store, ops, |ops|);
    assert ops[..|ops|] == ops;
    ReplayedKnown(Reopened(s, ops), store, ops, log);
  }
}
