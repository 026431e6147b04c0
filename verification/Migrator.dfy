/** Demotion and promotion of one entity as the migrator carries them out, step by step. */
module Migrator {
  import opened Basics
  import opened ByteOrder
  import D = Demotion
  import H = Hnsw
  import opened Location
  import opened Recovery

  datatype MigrateError = Engine(error: Error) | WalCommit | EntityNotFound | Transcode

  datatype Outcome = Migrated | Failed(error: MigrateError)

  function TargetEncoding(to: Tier): Encoding {
    match to
    case NVMe => Int8
    case Archive => Binary
    case _ => Float32
  }

  /** A demotion leaves the entry with the encoding a recovery of its record would give it. */
  lemma EncodingsAgree(to: Tier)
    ensures TargetEncoding(to) == EncodingForTier(to)
    ensures TargetEncoding(NVMe) == Int8 && TargetEncoding(Archive) == Binary && TargetEncoding(Fjall) == Float32
  {}

  /** The search indexes by key: one per collection and dense representation. */
  type Indexes = map<string, H.IndexState>

  function IndexKey(collection: string, repr: string): string {
    collection + ":" + repr
  }

  /** Both changes look the index up under the bare collection name. */
  function IndexesWithout(indexes: Indexes, collection: string, id: Id): Indexes {
    if collection in indexes then indexes[collection := H.RemoveFrom(indexes[collection], id)] else indexes
  }

  function IndexesWith(indexes: Indexes, collection: string, id: Id, v: H.Vector): Indexes {
    if collection in indexes then indexes[collection := H.InsertInto(indexes[collection], id, v)] else indexes
  }

  class Engine {
    var store: Store
    var wal: seq<Migration>
    var indexes: Indexes
    const location: LocationTable

    constructor (table: LocationTable)
      ensures location == table && store == map[] && wal == [] && indexes == map[]
    {
      store, wal, indexes, location := map[], [], map[], table;
    }

    method RemoveFromHnsw(collection: string, entity: Id)
      modifies this`indexes
      ensures indexes == IndexesWithout(old(indexes), collection, entity)
    {
      if collection in indexes {
        indexes := indexes[collection := H.RemoveFrom(indexes[collection], entity)];
      }
    }

    method InsertIntoHnsw(collection: string, entity: Id, vector: H.Vector)
      modifies this`indexes
      ensures indexes == IndexesWith(old(indexes), collection, entity, vector)
    {
      if collection in indexes {
        indexes := indexes[collection := H.InsertInto(indexes[collection], entity, vector)];
      }
    }

    /** `transcode` turns source bytes into target bytes or rejects them; `commits` says
        whether the log commit succeeds. */
    method DemoteSingle(collection: string, entity: Id, from: Tier, to: Tier,
                        transcode: seq<Byte> -> Option<seq<Byte>>, commits: bool) returns (r: Outcome)
      requires location.Valid()
      modifies this, location
      ensures location.Valid()
      ensures var m := Migration(collection, entity, from, to);
        var key := ReprKey(entity, 0);
        var descs := old(location.descriptors);
        && (r.Migrated? <==> (
          && key in descs && descs[key].state == Clean && commits && m.Source() in old(store)
          && (to == NVMe || to == Archive ==> transcode(old(store)[m.Source()]).Some?)))
        && (r.Migrated? ==>
          && store == DemotedStore(old(store), m, transcode)
          && wal == old(wal) + [m]
          && indexes == (if from == Fjall then IndexesWithout(old(indexes), collection, entity) else old(indexes))
          && location.descriptors == descs[key := descs[key].(tier := to, encoding := TargetEncoding(to),
            state := Clean, version := descs[key].version + 3)])
        && (r.Failed? ==> store == old(store) && indexes == old(indexes))
        && (r.Failed? ==> (
          if key in descs && descs[key].state == Clean then
            && location.descriptors == descs[key := descs[key].(state := Migrating, version := descs[key].version + 1)]
            && wal == (if commits then old(wal) + [m] else old(wal))
          else
            location.descriptors == descs && wal == old(wal)))
    {
      hide Indexed, IndexesWithout;
      var key := ReprKey(entity, 0);
      var m := Migration(collection, entity, from, to);
      var marked := location.Transition(key, Migrating);
      if marked.Err? {
        return Failed(MigrateError.Engine(marked.error));
      }
      if !commits {
        return Failed(WalCommit);
      }
      wal := wal + [m];
      if m.Source() !in store {
        return Failed(EntityNotFound);
      }
      var data := store[m.Source()];
      if to == NVMe || to == Archive {
        var encoded := transcode(data);
        if encoded.None? {
          return Failed(Transcode);
        }
        store := store[m.Target() := encoded.value];
      }
      if from == Fjall {
        RemoveFromHnsw(collection, entity);
      }
      ghost var d1 := location.descriptors;
      var moved := location.UpdateTier(key, to, TargetEncoding(to));
      ghost var d2 := location.descriptors;
      var cleaned := location.Transition(key, Clean);
      Overwrite(old(location.descriptors), key, d1[key], d2[key]);
      Overwrite(old(location.descriptors), key, d2[key], location.descriptors[key]);
      store := store - {m.Source()};
      r := Migrated;
    }

    /** Promotion never takes the migrating state and ignores the entry's current one. */
    method PromoteToHot(collection: string, entity: Id, vector: H.Vector, encoded: seq<Byte>, commits: bool)
      returns (r: Outcome)
      requires location.Valid()
      modifies this, location
      ensures location.Valid()
      ensures var m := Migration(collection, entity, NVMe, Fjall);
        var key := ReprKey(entity, 0);
        var descs := old(location.descriptors);
        && indexes == IndexesWith(old(indexes), collection, entity, vector)
        && wal == (if commits then old(wal) + [m] else old(wal))
        && (r.Migrated? <==> commits && key in descs)
        && store == (if r.Migrated? then old(store)[m.Target() := encoded] - {m.Source()} else old(store)[m.Target() := encoded])
        && location.descriptors == if r.Migrated?
          then descs[key := descs[key].(tier := Fjall, encoding := Float32, version := descs[key].version + 1)] else descs
    {
      var key := ReprKey(entity, 0);
      var m := Migration(collection, entity, NVMe, Fjall);
      store := store[m.Target() := encoded];
      InsertIntoHnsw(collection, entity, vector);
      if !commits {
        return Failed(WalCommit);
      }
      wal := wal + [m];
      var moved := location.UpdateTier(key, Fjall, Float32);
      if moved.Err? {
        return Failed(MigrateError.Engine(moved.error));
      }
      store := store - {m.Source()};
      r := Migrated;
    }
  }

  /** Every key names a collection and a representation, and no collection name has a colon. */
  ghost predicate Keyed(indexes: Indexes) {
    forall k :: k in indexes ==> exists c, r :: k == IndexKey(c, r)
  }

  /** As the indexes are keyed, demotion and promotion leave all of them as they are: a demoted
      entity stays in its index, and a promoted one is not added to any. */
  lemma MigrationsMissIndexes(indexes: Indexes, collection: string, id: Id, v: H.Vector)
    requires Keyed(indexes) && ':' !in collection
    ensures IndexesWithout(indexes, collection, id) == indexes
    ensures IndexesWith(indexes, collection, id, v) == indexes
  {
    forall k | k in indexes ensures ':' in k {
      var c, r :| k == IndexKey(c, r);
      assert k[|c|] == ':';
    }
  }

  /** Nor would the right key bring a demoted entity back: an id the index knows stays
      tombstoned through the promotion. Only one the index has never seen becomes live. */
  lemma PromotedAfterDemotionLiveIff(indexes: Indexes, key: string, id: Id, v: H.Vector)
    requires key in indexes && H.Consistent(indexes[key])
    ensures var after := IndexesWith(IndexesWithout(indexes, key, id), key, id, v);
      && key in after && H.Consistent(after[key])
      && (id in H.LiveIds(after[key]) <==> id !in indexes[key].idToIdx)
      && H.LiveIds(after[key]) - {id} == H.LiveIds(indexes[key]) - {id}
  {
    var s := indexes[key];
    H.UpdatesConsistent(s, id, v);
    H.UpdatesConsistent(H.RemoveFrom(s, id), id, v);
  }

  lemma Overwrite(m: map<ReprKey, Descriptor>, k: ReprKey, a: Descriptor, b: Descriptor)
    ensures m[k := a][k := b] == m[k := b]
  {}

  function DemotedStore(store: Store, m: Migration, transcode: seq<Byte> -> Option<seq<Byte>>): Store
    requires m.Source() in store
    requires m.to == NVMe || m.to == Archive ==> transcode(store[m.Source()]).Some?
  {
    (if m.to == NVMe || m.to == Archive then store[m.Target() := transcode(store[m.Source()]).value] else store) - {m.Source()}
  }

  /** A demotion followed by recovery over its own record is the demotion: replaying a
      completed migration changes no tier partition. And crashing it after the write, or
      before it, and then recovering leaves the entity in the same single place. */
  lemma {:induction false} DemotionThenRecovery(store: Store, m: Migration, transcode: seq<Byte> -> Option<seq<Byte>>)
    requires m.to == NVMe || m.to == Archive
    requires m.Source() != m.Target() && m.Source() in store && transcode(store[m.Source()]).Some?
    ensures var done := DemotedStore(store, m, transcode);
      var written := store[m.Target() := transcode(store[m.Source()]).value];
      && RecoverRecord(done, m) == done
      && RecoverRecord(written, m) == done
      && Holding(RecoverRecord(store, m), m.collection, m.entity) == Holding(done, m.collection, m.entity)
      && Holding(done, m.collection, m.entity)
        == Holding(store, m.collection, m.entity) - {PartitionOf(m.from)} + {PartitionOf(m.to)}
  {
    var done := DemotedStore(store, m, transcode);
    var redone := RecoverRecord(store, m);
    forall p: Partition
      ensures Slot(m.collection, m.entity, p) in redone <==> Slot(m.collection, m.entity, p) in done
    {}
  }

  /** A promotion that crashed after logging, or completed, recovers to the hot copy alone. One
      that crashed before logging leaves both copies, and no record to remove the warm one. */
  lemma PromotionThenRecovery(store: Store, m: Migration, encoded: seq<Byte>)
    requires m.from == NVMe && m.to == Fjall && m.Source() in store
    ensures var written := store[m.Target() := encoded];
      && RecoverRecord(written, m) == written - {m.Source()}
      && RecoverRecord(RecoverRecord(written, m), m) == RecoverRecord(written, m)
      && m.Source() in RecoverAll(written, []) && m.Target() in RecoverAll(written, [])
  {}

  // ----- one call is one undisturbed run of the step machine -----

  /** What the step machine sees of an entity during a run at `pc`. */
  ghost function View(store: Store, descs: map<ReprKey, Descriptor>, wal: seq<Migration>, m: Migration, pc: D.Pc): D.Sys
    requires ReprKey(m.entity, 0) in descs
  {
    var d := descs[ReprKey(m.entity, 0)];
    D.Sys(Holding(store, m.collection, m.entity), d.state, PartitionOf(d.tier), Moves(wal, m.collection, m.entity),
          [D.Run(PartitionOf(m.from), PartitionOf(m.to), pc)])
  }

  /** The only run takes every step. */
  ghost predicate Undisturbed(states: seq<D.Sys>) {
    && (forall k :: 0 <= k < |states| ==> |states[k].runs| == 1)
    && forall k :: 0 < k < |states| ==> D.RunStep(states[k - 1], states[k], 0)
  }

  /** The only run takes every step but the last, which fails. */
  ghost predicate GivesUp(states: seq<D.Sys>) {
    && |states| > 1 && Undisturbed(states[..|states| - 1])
    && |states[|states| - 2].runs| == 1 && D.FailStep(states[|states| - 2], states[|states| - 1], 0)
  }

  lemma MovesLogged(wal: seq<Migration>, m: Migration)
    ensures Moves(wal + [m], m.collection, m.entity)
      == Moves(wal, m.collection, m.entity) + [Move(PartitionOf(m.from), PartitionOf(m.to))]
  {
    assert (wal + [m])[..|wal|] == wal;
  }

  lemma DemotedHolding(store: Store, m: Migration, transcode: seq<Byte> -> Option<seq<Byte>>)
    requires m.to == NVMe || m.to == Archive
    requires m.Source() != m.Target() && m.Source() in store && transcode(store[m.Source()]).Some?
    ensures Holding(DemotedStore(store, m, transcode), m.collection, m.entity)
      == Holding(store, m.collection, m.entity) + {PartitionOf(m.to)} - {PartitionOf(m.from)}
  {
    var done := DemotedStore(store, m, transcode);
    forall p: Partition
      ensures Slot(m.collection, m.entity, p) in done
        <==> p != PartitionOf(m.from) && (p == PartitionOf(m.to) || Slot(m.collection, m.entity, p) in store)
    {}
  }

  /** A successful call is the eight steps of a run: it ends with the copies, log and entry the
      call leaves. */
  lemma DemotionIsRun(store: Store, descs: map<ReprKey, Descriptor>, wal: seq<Migration>, m: Migration,
                      transcode: seq<Byte> -> Option<seq<Byte>>) returns (states: seq<D.Sys>)
    requires (m.from == Fjall && m.to == NVMe) || (m.from == NVMe && m.to == Archive)
    requires ReprKey(m.entity, 0) in descs && descs[ReprKey(m.entity, 0)].state == Clean
    requires m.Source() in store && transcode(store[m.Source()]).Some?
    ensures Undisturbed(states) && |states| == 9 && states[0] == View(store, descs, wal, m, D.Start)
    ensures var key := ReprKey(m.entity, 0);
      var d := descs[key];
      states[8] == View(DemotedStore(store, m, transcode),
        descs[key := d.(tier := m.to, encoding := TargetEncoding(m.to), state := Clean, version := d.version + 3)],
        wal + [m], m, D.Finished)
  {
    MovesLogged(wal, m);
    DemotedHolding(store, m, transcode);
    var s := View(store, descs, wal, m, D.Start);
    assert PartitionOf(m.from) in s.holding;
    states := D.FullRun(s);
    hide D.RunStep, Holding, Moves, DemotedStore;
  }

  /** A failed call is a run that gives up: refused at the start, or stuck after it took the
      migrating state, with its record in the log if the commit succeeded. */
  lemma FailedDemotionIsRun(store: Store, descs: map<ReprKey, Descriptor>, wal: seq<Migration>, m: Migration, commits: bool)
    returns (states: seq<D.Sys>)
    requires ReprKey(m.entity, 0) in descs
    ensures GivesUp(states) && states[0] == View(store, descs, wal, m, D.Start)
    ensures var key := ReprKey(m.entity, 0);
      var d := descs[key];
      states[|states| - 1] ==
        if d.state != Clean then View(store, descs, wal, m, D.Finished)
        else View(store, descs[key := d.(state := Migrating, version := d.version + 1)], if commits then wal + [m] else wal, m, D.Stuck)
  {
    MovesLogged(wal, m);
    var s0 := View(store, descs, wal, m, D.Start);
    var s1 := D.At(s0, 0, D.Marked).(state := Migrating);
    var s2 := D.At(s1, 0, D.Logged).(log := s1.log + [Move(PartitionOf(m.from), PartitionOf(m.to))]);
    if s0.state != Clean {
      states := [s0, D.At(s0, 0, D.Finished)];
      assert states[..1] == [s0];
    } else if !commits {
      states := [s0, s1, D.At(s1, 0, D.Stuck)];
      assert states[..2] == [s0, s1];
    } else {
      states := [s0, s1, s2, D.At(s2, 0, D.Stuck)];
      assert states[..3] == [s0, s1, s2];
    }
  }
}
