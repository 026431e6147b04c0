/** Startup: the entity records the engine re-applies as it opens, then the records it leaves
    over, carried out in log order. */
module Startup {
  import opened Basics
  import A = Affinity
  import opened Location
  import M = Migrator
  import opened Recovery

  const MAX_GROUP_SIZE: nat := 1000

  datatype Payload<T> = Garbled | Decoded(value: T)

  datatype WalRecord = Group(record: A.Record) | TierMigration(payload: Payload<Migration>) | Other

  predicate Blocks(r: WalRecord) {
    r.TierMigration? && r.payload.Garbled?
  }

  function MigrationsOf(records: seq<WalRecord>): seq<Migration> {
    if records == [] then []
    else
      var last := records[|records| - 1];
      MigrationsOf(records[..|records| - 1]) +
      (if last.TierMigration? && last.payload.Decoded? then [last.payload.value] else [])
  }

  function GroupsOf(records: seq<WalRecord>): seq<A.Record> {
    if records == [] then []
    else
      var last := records[|records| - 1];
      GroupsOf(records[..|records| - 1]) + (if last.Group? then [last.record] else [])
  }

  datatype State = State(store: Store, descriptors: map<ReprKey, Descriptor>, groups: A.Groups)

  function Step(s: State, r: WalRecord): State {
    match r
    case Group(record) => s.(groups := A.Replayed(s.groups, record, MAX_GROUP_SIZE))
    case TierMigration(Decoded(m)) =>
      s.(store := RecoverRecord(s.store, m), descriptors := RecoverLocation(s.store, s.descriptors, m))
    case TierMigration(Garbled) => s
    case Other => s
  }

  function After(s: State, records: seq<WalRecord>): State {
    if records == [] then s else Step(After(s, records[..|records| - 1]), records[|records| - 1])
  }

  lemma AfterLast(s: State, records: seq<WalRecord>, i: nat)
    requires i < |records|
    ensures After(s, records[..i + 1]) == Step(After(s, records[..i]), records[i])
  {
    assert records[..i + 1][..i] == records[..i];
  }

  /** The mixed log comes apart: the tiers see only the migrations, the groups only the group
      records. */
  lemma {:induction false} AfterSplits(s: State, records: seq<WalRecord>)
    ensures After(s, records) == State(
      RecoverAll(s.store, MigrationsOf(records)),
      LocationAfter(s.store, s.descriptors, MigrationsOf(records)),
      A.Replay(s.groups, GroupsOf(records), MAX_GROUP_SIZE))
  {
    if records != [] {
      var n := |records| - 1;
      var head, last := records[..n], records[n];
      AfterSplits(s, head);
      var done, grouped := MigrationsOf(head), GroupsOf(head);
      assert done + [] == done && grouped + [] == grouped;
      if last.TierMigration? && last.payload.Decoded? { RecoverLast(s.store, s.descriptors, done, last.payload.value); }
      if last.Group? { A.ReplayLast(s.groups, grouped, last.record, MAX_GROUP_SIZE); }
      hide RecoverAll, LocationAfter, A.Replay, RecoverRecord, RecoverLocation, A.Replayed;
    }
  }

  lemma RecoverLast(store: Store, descriptors: map<ReprKey, Descriptor>, log: seq<Migration>, m: Migration)
    ensures RecoverAll(store, log + [m]) == RecoverRecord(RecoverAll(store, log), m)
    ensures LocationAfter(store, descriptors, log + [m])
      == RecoverLocation(RecoverAll(store, log), LocationAfter(store, descriptors, log), m)
  {
    assert (log + [m])[..|log|] == log;
  }

  // ----- which records are pending -----

  /** A record of the log with its sequence number. */
  datatype Stamped = Stamped(lsn: nat, record: WalRecord)

  ghost predicate Ordered(log: seq<Stamped>) {
    forall i, j :: 0 <= i < j < |log| ==> log[i].lsn < log[j].lsn
  }

  function Records(log: seq<Stamped>): seq<WalRecord> {
    if log == [] then [] else Records(log[..|log| - 1]) + [log[|log| - 1].record]
  }

  /** The records past the stamp of the location snapshot; the others are dropped unread. */
  function Pending(log: seq<Stamped>, stamp: nat): seq<WalRecord> {
    if log == [] then []
    else
      var last := log[|log| - 1];
      Pending(log[..|log| - 1], stamp) + (if last.lsn > stamp then [last.record] else [])
  }

  /** Every group record lies past the stamp. */
  ghost predicate GroupsPast(log: seq<Stamped>, stamp: nat) {
    forall i :: 0 <= i < |log| && log[i].record.Group? ==> log[i].lsn > stamp
  }

  lemma GroupsPastLast(head: seq<Stamped>, last: Stamped, stamp: nat)
    ensures GroupsPast(head + [last], stamp) <==> GroupsPast(head, stamp) && (last.record.Group? ==> last.lsn > stamp)
  {
    var log := head + [last];
    assert log[|head|] == last;
    if GroupsPast(log, stamp) {
      forall i | 0 <= i < |head| && head[i].record.Group? ensures head[i].lsn > stamp {
        assert log[i] == head[i];
      }
    }
  }

  lemma GroupsLast(records: seq<WalRecord>, r: WalRecord)
    ensures GroupsOf(records + [r]) == GroupsOf(records) + (if r.Group? then [r.record] else [])
  {
    assert (records + [r])[..|records|] == records;
  }

  /** Nothing is pending of the records up to the stamp. */
  lemma {:induction false} NonePending(log: seq<Stamped>, stamp: nat)
    requires forall i :: 0 <= i < |log| ==> log[i].lsn <= stamp
    ensures Pending(log, stamp) == [] && (GroupsPast(log, stamp) <==> GroupsOf(Records(log)) == [])
  {
    if log != [] {
      var head, last := log[..|log| - 1], log[|log| - 1];
      NonePending(head, stamp);
      GroupsLast(Records(head), last.record);
      assert log == head + [last];
      GroupsPastLast(head, last, stamp);
    }
  }

  /** The pending group records are those that come last, all of them exactly if all lie past
      the stamp. */
  lemma {:induction false} PendingGroups(log: seq<Stamped>, stamp: nat) returns (j: nat)
    requires Ordered(log)
    ensures j <= |GroupsOf(Records(log))| && GroupsOf(Pending(log, stamp)) == GroupsOf(Records(log))[j..]
    ensures j == 0 <==> GroupsPast(log, stamp)
  {
    if log == [] {
      j := 0;
    } else {
      var head, last := log[..|log| - 1], log[|log| - 1];
      assert Records(log) == Records(head) + [last.record];
      if last.lsn > stamp {
        assert Pending(log, stamp) == Pending(head, stamp) + [last.record];
        j := PendingGroups(head, stamp);
        hide GroupsPast, GroupsOf, Ordered, Pending, Records;
        GroupsLast(Records(head), last.record);
        GroupsLast(Pending(head, stamp), last.record);
        assert log == head + [last];
        GroupsPastLast(head, last, stamp);
        SuffixLast(GroupsOf(Records(head)), if last.record.Group? then [last.record.record] else [], j);
      } else {
        j := |GroupsOf(Records(log))|;
        hide GroupsPast, GroupsOf, Pending, Records;
        NonePending(log, stamp);
      }
    }
  }

  lemma SuffixLast<T>(a: seq<T>, b: seq<T>, j: nat)
    requires j <= |a|
    ensures (a + b)[j..] == a[j..] + b
  {}

  /** Startup takes a logged addition to a group exactly while that has fewer than 1000 members. */
  lemma CapExact(s: State, gid: Id, entity: Id)
    requires gid in s.groups.groups && entity !in s.groups.groups[gid].members
    ensures var after := Step(s, Group(A.GroupMember(gid, entity)));
      && after.store == s.store && after.descriptors == s.descriptors
      && gid in after.groups.groups
      && (entity in after.groups.groups[gid].members <==> |s.groups.groups[gid].members| < 1000)
  {}

  /** The groups a run of logged calls had built come back, whatever else is logged in between,
      exactly when the location snapshot is stamped before all of its records. Groups are kept
      nowhere else, so a snapshot of a later life loses them. */
  lemma GroupsComeBack(s: State, log: seq<Stamped>, stamp: nat, steps: seq<A.Step>)
    requires s.groups == A.NO_GROUPS && Ordered(log) && GroupsOf(Records(log)) == A.Run(steps).log
    requires A.CapsAtMost(steps, 1000)
    ensures After(s, Pending(log, stamp)).groups == A.Run(steps).state
      <==> GroupsPast(log, stamp)
  {
    AfterSplits(s, Pending(log, stamp));
    var j := PendingGroups(log, stamp);
    A.ReplaySuffixIff(steps, MAX_GROUP_SIZE, j);
  }

  ghost function StateOf(engine: M.Engine, affinity: A.AffinityIndex): State
    reads engine, engine.location, affinity
  {
    State(engine.store, engine.location.descriptors, affinity.State())
  }

  /** Deleting an entity also drops its location entries. */
  function DescriptorsAfter(descriptors: map<ReprKey, Descriptor>, ops: seq<EntityOp>): map<ReprKey, Descriptor> {
    if ops == [] then descriptors
    else
      var before := DescriptorsAfter(descriptors, ops[..|ops| - 1]);
      match ops[|ops| - 1]
      case Put(_, _, _) => before
      case Erase(_, e) => map k | k in before && k.entity != e :: before[k]
  }

  /** An entity some record deletes has no entry left, and every other keeps its own. */
  lemma {:induction false} ErasedHaveNoEntry(descriptors: map<ReprKey, Descriptor>, ops: seq<EntityOp>, key: ReprKey)
    ensures var after := DescriptorsAfter(descriptors, ops);
      && (key in after <==> key in descriptors && !exists i :: 0 <= i < |ops| && ops[i].Erase? && ops[i].entity == key.entity)
      && (key in after ==> after[key] == descriptors[key])
  {
    if ops != [] {
      var n := |ops| - 1;
      ErasedHaveNoEntry(descriptors, ops[..n], key);
      assert forall i :: 0 <= i < n ==> ops[..n][i] == ops[i];
    }
  }

  /** The entity records of the pending log, as the engine opens. */
  method ReplayEntities(engine: M.Engine, ops: seq<EntityOp>)
    requires engine.location.Valid()
    modifies engine`store, engine.location
    ensures engine.location.Valid()
    ensures engine.store == Reopened(old(engine.store), ops)
    ensures engine.location.descriptors == DescriptorsAfter(old(engine.location.descriptors), ops)
  {
    for i := 0 to |ops|
      invariant engine.location.Valid()
      invariant engine.store == Reopened(old(engine.store), ops[..i])
      invariant engine.location.descriptors == DescriptorsAfter(old(engine.location.descriptors), ops[..i])
    {
      hide Indexed;
      assert ops[..i + 1][..i] == ops[..i];
      match ops[i] {
        case Put(c, e, bytes) =>
          engine.store := engine.store[Slot(c, e, Hot) := bytes];
        case Erase(c, e) =>
          engine.store := engine.store - {Slot(c, e, Hot)};
          engine.store := engine.store - {Slot(c, e, Warm)};
          engine.store := engine.store - {Slot(c, e, Cold)};
          engine.location.RemoveEntity(e);
      }
    }
    assert ops[..|ops|] == ops;
  }

  /** One migration record against what the two tiers hold. */
  method RecoverMigration(engine: M.Engine, m: Migration)
    requires engine.location.Valid()
    modifies engine`store, engine.location
    ensures engine.location.Valid()
    ensures engine.store == RecoverRecord(old(engine.store), m)
    ensures engine.location.descriptors == RecoverLocation(old(engine.store), old(engine.location.descriptors), m)
  {
    hide Indexed;
    var sourceExists := m.Source() in engine.store;
    var targetExists := m.Target() in engine.store;
    match ClassifyMigrationState(sourceExists, targetExists) {
      case NoAction =>
      case AlreadyComplete =>
        var _ := engine.location.UpdateTier(ReprKey(m.entity, 0), m.to, EncodingForTier(m.to));
      case CleanupSource =>
        engine.store := engine.store - {m.Source()};
      case ReExecute =>
        var data := engine.store[m.Source()];
        engine.store := engine.store[m.Target() := data];
        engine.store := engine.store - {m.Source()};
        var _ := engine.location.UpdateTier(ReprKey(m.entity, 0), m.to, EncodingForTier(m.to));
    }
  }

  /** The records before the first migration payload that does not decode; that one stops the
      run with an error, the work before it already done. */
  ghost predicate Processed(records: seq<WalRecord>, n: nat) {
    && n <= |records|
    && (forall i :: 0 <= i < n ==> !Blocks(records[i]))
    && (n < |records| ==> Blocks(records[n]))
  }

  method ProcessPending(engine: M.Engine, records: seq<WalRecord>, affinity: A.AffinityIndex)
    returns (ok: bool, ghost n: nat)
    requires engine.location.Valid()
    modifies engine`store, engine.location, affinity`explicit, affinity`groups
    ensures engine.location.Valid()
    ensures Processed(records, n) && (ok <==> n == |records|)
    ensures StateOf(engine, affinity) == After(old(StateOf(engine, affinity)), records[..n])
  {
    ghost var start := StateOf(engine, affinity);
    n := 0;
    for i := 0 to |records|
      invariant n == i && forall j :: 0 <= j < i ==> !Blocks(records[j])
      invariant engine.location.Valid()
      invariant StateOf(engine, affinity) == After(start, records[..i])
    {
      AfterLast(start, records, i);
      hide Indexed, After, RecoverRecord, RecoverLocation, A.Replayed;
      match records[i] {
        case Group(record) =>
          affinity.ReplayRecord(record, MAX_GROUP_SIZE);
        case TierMigration(payload) =>
          match payload {
            case Garbled =>
              return false, i;
            case Decoded(m) =>
              RecoverMigration(engine, m);
          }
        case Other =>
      }
      n := n + 1;
    }
    ok := true;
    assert records[..|records|] == records;
  }
}
