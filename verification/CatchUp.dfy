/** Log replay over a snapshot-loaded index at startup. */
module CatchUp {
  import opened Basics
  import opened Hnsw

  /** A committed log record; a representation without a dense vector carries None. */
  datatype Record =
    | EntityWrite(lsn: nat, collection: string, id: Id, reprs: seq<(string, Option<Vector>)>)
    | EntityDelete(lsn: nat, collection: string, id: Id)
    | Unrelated(lsn: nat)

  /** What a record means to one index. */
  datatype Op = Ins(id: Id, v: Vector) | Del(id: Id)

  function Apply(s: IndexState, op: Op): IndexState {
    match op
    case Ins(id, v) => InsertInto(s, id, v)
    case Del(id) => RemoveFrom(s, id)
  }

  function Run(s: IndexState, ops: seq<Op>): IndexState {
    if ops == [] then s else Apply(Run(s, ops[..|ops| - 1]), ops[|ops| - 1])
  }

  function OpsOfReprs(id: Id, reprs: seq<(string, Option<Vector>)>, repr: string): seq<Op> {
    if reprs == [] then []
    else
      var n := |reprs| - 1;
      OpsOfReprs(id, reprs[..n], repr) +
      (if reprs[n].0 == repr && reprs[n].1.Some? then [Ins(id, reprs[n].1.value)] else [])
  }

  function OpsOf(r: Record, collection: string, repr: string): seq<Op> {
    match r
    case EntityWrite(_, c, id, reprs) => if c == collection then OpsOfReprs(id, reprs, repr) else []
    case EntityDelete(_, c, id) => if c == collection then [Del(id)] else []
    case Unrelated(_) => []
  }

  function AllOps(log: seq<Record>, collection: string, repr: string): seq<Op> {
    if log == [] then []
    else AllOps(log[..|log| - 1], collection, repr) + OpsOf(log[|log| - 1], collection, repr)
  }

  // ----- runs of operations -----

  lemma {:induction false} RunConcat(s: IndexState, a: seq<Op>, b: seq<Op>)
    ensures Run(s, a + b) == Run(Run(s, a), b)
    decreases |b|
  {
    if b == [] {
      assert a + b == a;
    } else {
      var n := |b| - 1;
      assert (a + b)[..|a| + n] == a + b[..n];
      RunConcat(s, a, b[..n]);
    }
  }

  lemma {:induction false} RunConsistent(s: IndexState, ops: seq<Op>)
    requires Consistent(s)
    ensures Consistent(Run(s, ops))
  {
    if ops != [] {
      var n := |ops| - 1;
      RunConsistent(s, ops[..n]);
      UpdatesConsistent(Run(s, ops[..n]), ops[n].id, []);
      if ops[n].Ins? { UpdatesConsistent(Run(s, ops[..n]), ops[n].id, ops[n].v); }
    }
  }

  ghost predicate Inserts(ops: seq<Op>, id: Id) {
    exists i :: 0 <= i < |ops| && ops[i].Ins? && ops[i].id == id
  }

  ghost predicate Deletes(ops: seq<Op>, id: Id) {
    exists i :: 0 <= i < |ops| && ops[i] == Del(id)
  }

  /** Some delete of `id` comes after an insert of it. */
  ghost predicate DeletesAfterInsert(ops: seq<Op>, id: Id) {
    exists i :: 0 <= i < |ops| && ops[i] == Del(id) && Inserts(ops[..i], id)
  }

  lemma InsertsLast(ops: seq<Op>, op: Op, id: Id)
    ensures Inserts(ops + [op], id) <==> Inserts(ops, id) || (op.Ins? && op.id == id)
    ensures Deletes(ops + [op], id) <==> Deletes(ops, id) || op == Del(id)
    ensures DeletesAfterInsert(ops + [op], id) <==> DeletesAfterInsert(ops, id) || (op == Del(id) && Inserts(ops, id))
  {
    var all := ops + [op];
    assert all[..|ops|] == ops;
    assert all[|ops|] == op;
    assert forall i :: 0 <= i < |ops| ==> all[i] == ops[i] && all[..i] == ops[..i];
  }

  /** From the empty index: an id is mapped when the run inserts it, tombstoned when the run
      deletes it after that. */
  lemma {:induction false} RunMeaning(ops: seq<Op>, id: Id)
    ensures id in Run(EMPTY, ops).idToIdx <==> Inserts(ops, id)
    ensures id in Run(EMPTY, ops).tombstones <==> DeletesAfterInsert(ops, id)
    decreases |ops|
  {
    if ops != [] {
      var n := |ops| - 1;
      assert ops == ops[..n] + [ops[n]];
      RunMeaning(ops[..n], id);
      InsertsLast(ops[..n], ops[n], id);
    }
  }

  // ----- what a run leaves is told by first inserts and deletes after them -----

  /** The id and vector of each id's first insert, in order. */
  ghost function First(ops: seq<Op>): seq<(Id, Vector)> {
    if ops == [] then []
    else
      var n := |ops| - 1;
      First(ops[..n]) + (if ops[n].Ins? && !Inserts(ops[..n], ops[n].id) then [(ops[n].id, ops[n].v)] else [])
  }

  lemma FirstLast(ops: seq<Op>, op: Op)
    ensures First(ops + [op]) == First(ops) + (if op.Ins? && !Inserts(ops, op.id) then [(op.id, op.v)] else [])
  {
    assert (ops + [op])[..|ops|] == ops;
  }

  /** The slots hold the first inserts, in order. */
  ghost predicate Lists(s: IndexState, first: seq<(Id, Vector)>) {
    && s.nextIdx == |first| == |s.points|
    && forall i :: 0 <= i < |first| ==> i in s.idxToId && s.idxToId[i] == first[i].0 && s.points[i] == (first[i].1, i)
  }

  lemma {:induction false} RunLists(ops: seq<Op>)
    ensures Consistent(Run(EMPTY, ops)) && Lists(Run(EMPTY, ops), First(ops))
  {
    if ops != [] {
      var n := |ops| - 1;
      var head, op := ops[..n], ops[n];
      assert ops == head + [op];
      RunLists(head);
      RunMeaning(head, op.id);
      FirstLast(head, op);
      UpdatesConsistent(Run(EMPTY, head), op.id, if op.Ins? then op.v else []);
      ListsNext(Run(EMPTY, head), First(head), op);
      hide Inserts, First, Lists, Consistent;
    }
  }

  lemma ListsNext(s: IndexState, first: seq<(Id, Vector)>, op: Op)
    requires Consistent(s) && Lists(s, first)
    ensures Lists(Apply(s, op), first + (if op.Ins? && op.id !in s.idToIdx then [(op.id, op.v)] else []))
  {}

  /** Consistent states that list the same entries and have the same tombstones are equal. */
  lemma SameState(a: IndexState, b: IndexState, first: seq<(Id, Vector)>)
    requires Consistent(a) && Consistent(b) && Lists(a, first) && Lists(b, first)
    ensures a == b <==> a.tombstones == b.tombstones
  {
    if a.tombstones == b.tombstones {
      assert a.points == b.points;
      assert a.idxToId == b.idxToId;
      forall id ensures id in a.idToIdx <==> id in b.idToIdx {}
      assert a.idToIdx == b.idToIdx;
    }
  }

  lemma ListsDetermined(s: IndexState, first: seq<(Id, Vector)>, other: seq<(Id, Vector)>)
    requires Lists(s, first) && Lists(s, other)
    ensures first == other
  {
    forall i | 0 <= i < |first| ensures first[i] == other[i] {
      assert s.points[i] == (first[i].1, i);
    }
  }

  /** Two runs from the empty index end in the same state exactly when the same first inserts
      happen in the same order and the same ids are deleted after an insert. */
  lemma RunDetermined(a: seq<Op>, b: seq<Op>)
    ensures Run(EMPTY, a) == Run(EMPTY, b) <==>
      First(a) == First(b) && forall id :: DeletesAfterInsert(a, id) <==> DeletesAfterInsert(b, id)
  {
    var s, t := Run(EMPTY, a), Run(EMPTY, b);
    RunLists(a);
    RunLists(b);
    forall id ensures (id in s.tombstones <==> DeletesAfterInsert(a, id)) && (id in t.tombstones <==> DeletesAfterInsert(b, id)) {
      RunMeaning(a, id);
      RunMeaning(b, id);
    }
    hide Run, First, Lists, Consistent, DeletesAfterInsert;
    if s == t {
      ListsDetermined(s, First(a), First(b));
    }
    if First(a) == First(b) {
      SameState(s, t, First(a));
    }
  }

  // ----- replaying over a state that already has the effects -----

  /** The same index with some more mapped ids tombstoned. */
  ghost predicate MoreTombstones(s: IndexState, t: IndexState, extra: set<Id>) {
    && extra <= s.idToIdx.Keys && extra !! s.tombstones
    && t == s.(tombstones := s.tombstones + extra, tombstoneCount := s.tombstoneCount + |extra|)
  }

  /** Replaying over a state that maps every inserted id only adds tombstones: those of the
      deleted ids. */
  lemma {:induction false} ReplayOverMapped(s: IndexState, ops: seq<Op>)
    requires forall id :: Inserts(ops, id) ==> id in s.idToIdx
    ensures MoreTombstones(s, Run(s, ops), NewlyDeleted(s, ops))
  {
    if ops == [] {
      assert NewlyDeleted(s, ops) == {};
    } else {
      var n := |ops| - 1;
      var head, op := ops[..n], ops[n];
      assert ops == head + [op];
      forall id ensures Inserts(ops, id) <==> Inserts(head, id) || (op.Ins? && op.id == id) {
        InsertsLast(head, op, id);
      }
      ReplayOverMapped(s, head);
      assert op.Ins? ==> op.id in s.idToIdx by { assert op.Ins? ==> Inserts(ops, op.id); }
      NewlyDeletedLast(s, head, op);
      hide Inserts, NewlyDeleted;
      ReplayOne(s, Run(s, head), NewlyDeleted(s, head), op);
    }
  }

  /** The mapped, not yet tombstoned ids that `ops` deletes. */
  ghost function NewlyDeleted(s: IndexState, ops: seq<Op>): set<Id> {
    set id | id in s.idToIdx && id !in s.tombstones && Deletes(ops, id)
  }

  lemma NewlyDeletedLast(s: IndexState, ops: seq<Op>, op: Op)
    ensures NewlyDeleted(s, ops + [op]) == NewlyDeleted(s, ops) +
      (if op.Del? && op.id in s.idToIdx && op.id !in s.tombstones then {op.id} else {})
  {
    forall id ensures Deletes(ops + [op], id) <==> Deletes(ops, id) || op == Del(id) {
      InsertsLast(ops, op, id);
    }
  }

  lemma ReplayOne(s: IndexState, t: IndexState, e: set<Id>, op: Op)
    requires MoreTombstones(s, t, e)
    requires op.Ins? ==> op.id in s.idToIdx
    ensures MoreTombstones(s, Apply(t, op),
      e + (if op.Del? && op.id in s.idToIdx && op.id !in s.tombstones then {op.id} else {}))
  {
    if op.Del? && op.id in s.idToIdx && op.id !in s.tombstones && op.id !in e {
      assert s.tombstones + (e + {op.id}) == s.tombstones + e + {op.id};
    } else if op.Del? && op.id in e {
      assert e + {op.id} == e;
    } else {
      assert e + {} == e;
    }
  }

  /** Extra tombstones stay extra through further operations, except where those delete too. */
  lemma {:induction false} TombstonesCarry(s: IndexState, t: IndexState, extra: set<Id>, ops: seq<Op>)
    requires MoreTombstones(s, t, extra)
    ensures MoreTombstones(Run(s, ops), Run(t, ops), extra - Run(s, ops).tombstones)
    decreases |ops|
  {
    if ops == [] {
      assert extra - s.tombstones == extra;
    } else {
      var n := |ops| - 1;
      TombstonesCarry(s, t, extra, ops[..n]);
      var a, b := Run(s, ops[..n]), Run(t, ops[..n]);
      CarryOne(a, b, extra, ops[n]);
    }
  }

  lemma CarryOne(a: IndexState, b: IndexState, extra: set<Id>, op: Op)
    requires MoreTombstones(a, b, extra - a.tombstones)
    ensures MoreTombstones(Apply(a, op), Apply(b, op), extra - Apply(a, op).tombstones)
  {
    var e := extra - a.tombstones;
    hide MoreTombstones;
    if op.Ins? {
      CarryInsert(a, b, e, op.id, op.v);
      InsertTombstones(a, op.id, op.v);
    } else {
      CarryRemove(a, b, e, op.id);
      assert extra - RemoveFrom(a, op.id).tombstones == e - RemoveFrom(a, op.id).tombstones by {
        hide RemoveFrom;
        assert a.tombstones <= RemoveFrom(a, op.id).tombstones by { RemoveTombstones(a, op.id); }
      }
    }
  }

  lemma InsertTombstones(s: IndexState, id: Id, v: Vector)
    ensures InsertInto(s, id, v).tombstones == s.tombstones
  {}

  lemma RemoveTombstones(s: IndexState, id: Id)
    ensures s.tombstones <= RemoveFrom(s, id).tombstones
  {}

  lemma CarryInsert(a: IndexState, b: IndexState, e: set<Id>, id: Id, v: Vector)
    requires MoreTombstones(a, b, e)
    ensures MoreTombstones(InsertInto(a, id, v), InsertInto(b, id, v), e)
  {}

  lemma CarryRemove(a: IndexState, b: IndexState, e: set<Id>, id: Id)
    requires MoreTombstones(a, b, e)
    ensures MoreTombstones(RemoveFrom(a, id), RemoveFrom(b, id), e - RemoveFrom(a, id).tombstones)
  {
    var c := RemoveFrom(a, id);
    if id in e {
      assert e - c.tombstones == e - {id};
      assert c.tombstones + (e - {id}) == a.tombstones + e;
    } else {
      assert e - c.tombstones == e;
      assert c.tombstones + e == RemoveFrom(b, id).tombstones;
    }
  }

  /** A fuzzy snapshot: it is stamped after `p` but holds the effects of `p + q`. Catching up
      by replaying `q + r` gives the index of the whole log exactly when every id that `q`
      deletes and `p + q` inserts is deleted somewhere after an insert of it. */
  lemma FuzzySnapshotIff(p: seq<Op>, q: seq<Op>, r: seq<Op>)
    ensures Run(Run(EMPTY, p + q), q + r) == Run(EMPTY, p + q + r) <==>
      forall id :: Deletes(q, id) && Inserts(p + q, id) ==> DeletesAfterInsert(p + q + r, id)
  {
    var s := Run(EMPTY, p + q);
    var t := Run(s, q);
    RunConcat(EMPTY, p + q, r);
    RunConcat(s, q, r);
    forall id ensures (id in s.idToIdx <==> Inserts(p + q, id))
      && (id in Run(s, r).tombstones <==> DeletesAfterInsert(p + q + r, id))
    {
      RunMeaning(p + q, id);
      RunMeaning(p + q + r, id);
    }
    forall id | Inserts(q, id) ensures id in s.idToIdx {
      InsertsIn(p, q, id);
    }
    ReplayOverMapped(s, q);
    var extra := NewlyDeleted(s, q);
    TombstonesCarry(s, t, extra, r);
    var left := extra - Run(s, r).tombstones;
    SameTombstones(Run(s, r), Run(t, r), left);
    TombstonesGrow(s, r);
    hide Inserts, Deletes, DeletesAfterInsert, Run;
    assert left == {} <==> forall id :: Deletes(q, id) && Inserts(p + q, id) ==> DeletesAfterInsert(p + q + r, id) by {
      forall id ensures id in left <==> Deletes(q, id) && Inserts(p + q, id) && !DeletesAfterInsert(p + q + r, id) {}
    }
  }

  lemma InsertsIn(p: seq<Op>, q: seq<Op>, id: Id)
    requires Inserts(q, id)
    ensures Inserts(p + q, id)
  {
    var i :| 0 <= i < |q| && q[i].Ins? && q[i].id == id;
    assert (p + q)[|p| + i] == q[i];
  }

  lemma SameTombstones(a: IndexState, b: IndexState, extra: set<Id>)
    requires MoreTombstones(a, b, extra)
    ensures a == b <==> extra == {}
  {
    if extra == {} {
      assert a.tombstones + extra == a.tombstones;
    } else {
      var id :| id in extra;
      assert id in b.tombstones && id !in a.tombstones;
    }
  }

  lemma {:induction false} TombstonesGrow(s: IndexState, ops: seq<Op>)
    ensures s.tombstones <= Run(s, ops).tombstones
  {
    if ops != [] { TombstonesGrow(s, ops[..|ops| - 1]); }
  }

  /** Every delete comes after an insert of its id. */
  ghost predicate DeletesFollowInserts(ops: seq<Op>) {
    forall i :: 0 <= i < |ops| && ops[i].Del? ==> Inserts(ops[..i], ops[i].id)
  }

  /** For a log whose deletes follow inserts, a fuzzy snapshot is harmless. */
  lemma FuzzySnapshotHarmless(p: seq<Op>, q: seq<Op>, r: seq<Op>)
    requires DeletesFollowInserts(p + q + r)
    ensures Run(Run(EMPTY, p + q), q + r) == Run(EMPTY, p + q + r)
  {
    FuzzySnapshotIff(p, q, r);
    var all := p + q + r;
    forall id | Deletes(q, id) && Inserts(p + q, id) ensures DeletesAfterInsert(all, id) {
      var i :| 0 <= i < |q| && q[i] == Del(id);
      assert all[|p| + i] == Del(id);
    }
  }

  // ----- records and log positions -----

  ghost predicate Ordered(log: seq<Record>) {
    forall i, j :: 0 <= i < j < |log| ==> log[i].lsn < log[j].lsn
  }

  /** What startup replays: records past the location snapshot and past the index snapshot. */
  function Replayed(log: seq<Record>, locationLsn: nat, hnswLsn: nat): seq<Record> {
    if log == [] then []
    else
      var n := |log| - 1;
      Replayed(log[..n], locationLsn, hnswLsn) +
      (if log[n].lsn > locationLsn && log[n].lsn > hnswLsn then [log[n]] else [])
  }

  lemma {:induction false} ReplayedSuffix(log: seq<Record>, locationLsn: nat, hnswLsn: nat, j: nat)
    requires j <= |log| && locationLsn <= hnswLsn
    requires forall i :: 0 <= i < |log| ==> (log[i].lsn <= hnswLsn <==> i < j)
    ensures Replayed(log, locationLsn, hnswLsn) == log[j..]
    decreases |log|
  {
    if log != [] {
      var n := |log| - 1;
      if j <= n {
        ReplayedSuffix(log[..n], locationLsn, hnswLsn, j);
        assert log[j..] == log[..n][j..] + [log[n]];
      } else {
        ReplayedSuffix(log[..n], locationLsn, hnswLsn, n);
        assert log[..n][n..] == [] && log[j..] == [];
      }
    }
  }

  lemma AllOpsLast(log: seq<Record>, r: Record, collection: string, repr: string)
    ensures AllOps(log + [r], collection, repr) == AllOps(log, collection, repr) + OpsOf(r, collection, repr)
  {
    assert (log + [r])[..|log|] == log;
  }

  lemma {:induction false} AllOpsConcat(a: seq<Record>, b: seq<Record>, collection: string, repr: string)
    ensures AllOps(a + b, collection, repr) == AllOps(a, collection, repr) + AllOps(b, collection, repr)
    decreases |b|
  {
    if b == [] {
      assert a + b == a;
    } else {
      var n := |b| - 1;
      assert b == b[..n] + [b[n]] && a + b == (a + b[..n]) + [b[n]];
      AllOpsConcat(a, b[..n], collection, repr);
      AllOpsLast(a + b[..n], b[n], collection, repr);
      AllOpsLast(b[..n], b[n], collection, repr);
      hide AllOps, OpsOf;
    }
  }

  /** What the recovered index has seen: the operations its snapshot holds, those of the first
      `m` records, then those of the replayed records. */
  ghost function Seen(log: seq<Record>, locationLsn: nat, hnswLsn: nat, m: nat, collection: string, repr: string): seq<Op>
    requires m <= |log|
  {
    AllOps(log[..m], collection, repr) + AllOps(Replayed(log, locationLsn, hnswLsn), collection, repr)
  }

  /** The index after startup: the snapshot, with the records past both stamps replayed over it. */
  ghost function Recovered(log: seq<Record>, locationLsn: nat, hnswLsn: nat, m: nat, collection: string, repr: string): IndexState
    requires m <= |log|
  {
    Run(Run(EMPTY, AllOps(log[..m], collection, repr)), AllOps(Replayed(log, locationLsn, hnswLsn), collection, repr))
  }

  /** Startup recovery, for every log, both stamps and every extent of the snapshot: the
      recovered index is the one built from the whole log exactly when what it has seen has the
      same first inserts in the same order, and deletes the same ids after an insert. */
  lemma CatchUpIff(log: seq<Record>, locationLsn: nat, hnswLsn: nat, m: nat, collection: string, repr: string)
    requires m <= |log|
    ensures var whole, seen := AllOps(log, collection, repr), Seen(log, locationLsn, hnswLsn, m, collection, repr);
      Recovered(log, locationLsn, hnswLsn, m, collection, repr) == Run(EMPTY, whole) <==>
        First(seen) == First(whole) && forall id :: DeletesAfterInsert(seen, id) <==> DeletesAfterInsert(whole, id)
  {
    hide AllOps, Replayed, First, DeletesAfterInsert, Run;
    RunConcat(EMPTY, AllOps(log[..m], collection, repr), AllOps(Replayed(log, locationLsn, hnswLsn), collection, repr));
    RunDetermined(Seen(log, locationLsn, hnswLsn, m, collection, repr), AllOps(log, collection, repr));
  }

  lemma {:induction false} FirstMeaning(ops: seq<Op>, id: Id)
    ensures (exists v :: (id, v) in First(ops)) <==> Inserts(ops, id)
  {
    if ops != [] {
      var n := |ops| - 1;
      var head, op := ops[..n], ops[n];
      assert ops == head + [op];
      FirstMeaning(head, id);
      FirstLast(head, op);
      InsertsLast(head, op, id);
      hide Inserts, First;
      if op.Ins? && op.id == id && !Inserts(head, id) { assert (id, op.v) in First(ops); }
      forall v | (id, v) in First(head) ensures (id, v) in First(ops) {}
    }
  }

  /** A record neither in the snapshot nor replayed: if it alone inserts or deletes an id, the
      recovered index is not the whole log's. */
  lemma SkippedRecordsLost(log: seq<Record>, locationLsn: nat, hnswLsn: nat, m: nat, collection: string, repr: string, id: Id)
    requires m <= |log|
    requires var whole, seen := AllOps(log, collection, repr), Seen(log, locationLsn, hnswLsn, m, collection, repr);
      Inserts(whole, id) != Inserts(seen, id) || DeletesAfterInsert(whole, id) != DeletesAfterInsert(seen, id)
    ensures Recovered(log, locationLsn, hnswLsn, m, collection, repr) != Run(EMPTY, AllOps(log, collection, repr))
  {
    hide AllOps, Seen, Recovered, First, Inserts, DeletesAfterInsert, Run;
    var whole, seen := AllOps(log, collection, repr), Seen(log, locationLsn, hnswLsn, m, collection, repr);
    CatchUpIff(log, locationLsn, hnswLsn, m, collection, repr);
    FirstMeaning(whole, id);
    FirstMeaning(seen, id);
  }

  // ----- seeing some operations twice -----

  lemma {:induction false} InsertsConcat(a: seq<Op>, b: seq<Op>, id: Id)
    ensures Inserts(a + b, id) <==> Inserts(a, id) || Inserts(b, id)
    decreases |b|
  {
    if b == [] {
      assert a + b == a;
    } else {
      var n := |b| - 1;
      assert b == b[..n] + [b[n]] && a + b == (a + b[..n]) + [b[n]];
      InsertsConcat(a, b[..n], id);
      InsertsLast(a + b[..n], b[n], id);
      InsertsLast(b[..n], b[n], id);
      hide Inserts;
    }
  }

  /** Operations that insert nothing new can be seen again, before any others. */
  lemma {:induction false} FirstRepeat(x: seq<Op>, y: seq<Op>, z: seq<Op>)
    requires forall id :: Inserts(y, id) ==> Inserts(x, id)
    ensures First(x + y + z) == First(x + z)
    decreases |y| + |z|
  {
    if z != [] {
      var n := |z| - 1;
      assert x + y + z == (x + y + z[..n]) + [z[n]] && x + z == (x + z[..n]) + [z[n]];
      FirstRepeat(x, y, z[..n]);
      FirstLast(x + y + z[..n], z[n]);
      FirstLast(x + z[..n], z[n]);
      InsertsConcat(x + y, z[..n], z[n].id);
      InsertsConcat(x, y, z[n].id);
      InsertsConcat(x, z[..n], z[n].id);
      hide First, Inserts;
    } else if y != [] {
      var n := |y| - 1;
      assert y == y[..n] + [y[n]] && x + y + z == (x + y[..n] + []) + [y[n]] && x + y[..n] + [] == x + y[..n] && x + z == x + [];
      forall id ensures Inserts(y[..n], id) ==> Inserts(y, id) { InsertsLast(y[..n], y[n], id); }
      assert y[n].Ins? ==> Inserts(y, y[n].id);
      FirstRepeat(x, y[..n], []);
      FirstLast(x + y[..n], y[n]);
      InsertsConcat(x, y[..n], y[n].id);
      hide First, Inserts;
    } else {
      assert x + y + z == x + z;
    }
  }

  /** Where deletes follow inserts, deleted after an insert means deleted. */
  lemma DeletedMeans(ops: seq<Op>, id: Id)
    requires DeletesFollowInserts(ops)
    ensures DeletesAfterInsert(ops, id) <==> Deletes(ops, id)
  {}

  lemma {:induction false} DeletesConcat(a: seq<Op>, b: seq<Op>, id: Id)
    ensures Deletes(a + b, id) <==> Deletes(a, id) || Deletes(b, id)
    decreases |b|
  {
    if b == [] {
      assert a + b == a;
    } else {
      var n := |b| - 1;
      assert b == b[..n] + [b[n]] && a + b == (a + b[..n]) + [b[n]];
      DeletesConcat(a, b[..n], id);
      InsertsLast(a + b[..n], b[n], id);
      InsertsLast(b[..n], b[n], id);
      hide Deletes;
    }
  }

  /** Seeing `q` twice keeps deletes behind inserts, and deletes the same ids. */
  lemma OverlapFollows(p: seq<Op>, q: seq<Op>, r: seq<Op>)
    requires DeletesFollowInserts(p + q + r)
    ensures DeletesFollowInserts((p + q) + (q + r))
    ensures forall id :: Deletes((p + q) + (q + r), id) <==> Deletes(p + q + r, id)
  {
    var whole, twice := p + q + r, (p + q) + (q + r);
    forall i | 0 <= i < |twice| && twice[i].Del? ensures Inserts(twice[..i], twice[i].id) {
      var k := if i < |p + q| then i else i - |q|;
      assert whole[k] == twice[i];
      var j :| 0 <= j < k && whole[..k][j].Ins? && whole[..k][j].id == twice[i].id;
      assert j < |p + q| ==> twice[..i][j] == whole[j];
      assert j >= |p + q| ==> twice[..i][j + |q|] == whole[j];
    }
    forall id ensures Deletes(twice, id) <==> Deletes(whole, id) {
      DeletesConcat(p + q, q + r, id);
      DeletesConcat(q, r, id);
      DeletesConcat(p, q, id);
      DeletesConcat(p + q, r, id);
    }
  }

  /** A snapshot that holds at least the records up to its stamp, with the location snapshot not
      ahead, is caught up completely when deletes follow inserts. */
  lemma CatchUpComplete(log: seq<Record>, locationLsn: nat, hnswLsn: nat, m: nat, collection: string, repr: string)
    requires Ordered(log) && locationLsn <= hnswLsn && m <= |log|
    requires forall i :: m <= i < |log| ==> log[i].lsn > hnswLsn
    requires DeletesFollowInserts(AllOps(log, collection, repr))
    ensures Recovered(log, locationLsn, hnswLsn, m, collection, repr) == Run(EMPTY, AllOps(log, collection, repr))
  {
    hide AllOps, Replayed, Recovered, Run, First, Inserts, Deletes, DeletesAfterInsert, DeletesFollowInserts, Ordered;
    var j := StampPosition(log, hnswLsn, m);
    ReplayedSuffix(log, locationLsn, hnswLsn, j);
    var a, b, c := log[..j], log[j..m], log[m..];
    assert log[..m] == a + b && log[j..] == b + c && log == a + b + c;
    AllOpsConcat(a, b, collection, repr);
    AllOpsConcat(b, c, collection, repr);
    AllOpsConcat(a + b, c, collection, repr);
    var p, q, r := AllOps(a, collection, repr), AllOps(b, collection, repr), AllOps(c, collection, repr);
    var whole, seen := p + q + r, (p + q) + (q + r);
    assert seen == (p + q) + q + r;
    forall id | Inserts(q, id) ensures Inserts(p + q, id) { InsertsConcat(p, q, id); }
    FirstRepeat(p + q, q, r);
    OverlapFollows(p, q, r);
    forall id ensures DeletesAfterInsert(seen, id) <==> DeletesAfterInsert(whole, id) {
      DeletedMeans(seen, id);
      DeletedMeans(whole, id);
    }
    CatchUpIff(log, locationLsn, hnswLsn, m, collection, repr);
  }

  lemma {:induction false} StampPosition(log: seq<Record>, hnswLsn: nat, m: nat) returns (j: nat)
    requires Ordered(log) && m <= |log| && forall i :: m <= i < |log| ==> log[i].lsn > hnswLsn
    ensures j <= m && forall i :: 0 <= i < |log| ==> (log[i].lsn <= hnswLsn <==> i < j)
  {
    j := m;
    while j > 0 && log[j - 1].lsn > hnswLsn
      invariant 0 <= j <= m && forall i :: j <= i < |log| ==> log[i].lsn > hnswLsn
    {
      j := j - 1;
    }
  }

  lemma SingleWrite(id: Id, v: Vector, collection: string, repr: string)
    ensures AllOps([EntityWrite(1, collection, id, [(repr, Some(v))])], collection, repr) == [Ins(id, v)]
  {
    var reprs := [(repr, Some(v))];
    var log := [EntityWrite(1, collection, id, reprs)];
    assert reprs[..0] == [] && OpsOfReprs(id, [], repr) == [];
    assert OpsOfReprs(id, reprs, repr) == [Ins(id, v)];
    assert log[..0] == [] && AllOps([], collection, repr) == [];
    assert AllOps(log, collection, repr) == [] + [Ins(id, v)];
  }

  lemma SingleInsert(id: Id, v: Vector)
    ensures DeletesFollowInserts([Ins(id, v)]) && Inserts([Ins(id, v)], id) && !Inserts([], id)
  {
    assert [Ins(id, v)][0].id == id;
  }

  lemma CoveredRecord(r: Record, locationLsn: nat, hnswLsn: nat)
    requires r.lsn <= locationLsn || r.lsn <= hnswLsn
    ensures Replayed([r], locationLsn, hnswLsn) == []
  {
    assert [r][..0] == [];
  }

  /** A location snapshot ahead of the index snapshot hides records from the index. */
  lemma LocationAheadLosesRecords(collection: string, repr: string, id: Id, v: Vector)
    ensures var log := [EntityWrite(1, collection, id, [(repr, Some(v))])];
      && DeletesFollowInserts(AllOps(log, collection, repr))
      && Recovered(log, 1, 0, 0, collection, repr) != Run(EMPTY, AllOps(log, collection, repr))
  {
    UnseenWrite(collection, repr, id, v, 1, 0);
  }

  /** So does a stamp read after a record was logged but before the index applied it: the
      snapshot then holds none of the log, yet is stamped past it. */
  lemma EarlyStampLosesRecords(collection: string, repr: string, id: Id, v: Vector)
    ensures var log := [EntityWrite(1, collection, id, [(repr, Some(v))])];
      && DeletesFollowInserts(AllOps(log, collection, repr))
      && Recovered(log, 0, 1, 0, collection, repr) != Run(EMPTY, AllOps(log, collection, repr))
  {
    UnseenWrite(collection, repr, id, v, 0, 1);
  }

  lemma UnseenWrite(collection: string, repr: string, id: Id, v: Vector, locationLsn: nat, hnswLsn: nat)
    requires 1 <= locationLsn || 1 <= hnswLsn
    ensures var log := [EntityWrite(1, collection, id, [(repr, Some(v))])];
      && DeletesFollowInserts(AllOps(log, collection, repr))
      && Recovered(log, locationLsn, hnswLsn, 0, collection, repr) != Run(EMPTY, AllOps(log, collection, repr))
  {
    var log := [EntityWrite(1, collection, id, [(repr, Some(v))])];
    SingleWrite(id, v, collection, repr);
    CoveredRecord(log[0], locationLsn, hnswLsn);
    SingleInsert(id, v);
    assert log[..0] == [];
    assert Seen(log, locationLsn, hnswLsn, 0, collection, repr) == [];
    hide AllOps, Seen, Recovered, Run, Inserts, DeletesAfterInsert, DeletesFollowInserts;
    SkippedRecordsLost(log, locationLsn, hnswLsn, 0, collection, repr, id);
  }

  // ----- what records leave in the index, told of the records -----

  /** The `k`-th representation of a write is the index's own and has a vector. */
  predicate Dense(reprs: seq<(string, Option<Vector>)>, k: nat, repr: string)
    requires k < |reprs|
  {
    reprs[k].0 == repr && reprs[k].1.Some?
  }

  /** A write of the entity that carries a vector for the index. */
  ghost predicate Carries(r: Record, collection: string, repr: string, id: Id) {
    && r.EntityWrite? && r.collection == collection && r.id == id
    && exists k :: 0 <= k < |r.reprs| && Dense(r.reprs, k, repr)
  }

  predicate FirstDense(reprs: seq<(string, Option<Vector>)>, k: nat, repr: string)
    requires k < |reprs|
  {
    Dense(reprs, k, repr) && forall j :: 0 <= j < k ==> !Dense(reprs, j, repr)
  }

  lemma FirstDenseUnique(reprs: seq<(string, Option<Vector>)>, i: nat, j: nat, repr: string)
    requires i < |reprs| && j < |reprs| && FirstDense(reprs, i, repr) && Dense(reprs, j, repr)
    ensures i <= j && (FirstDense(reprs, j, repr) ==> i == j)
  {}

  /** The vector that write puts into an index that does not know the entity: its first. */
  ghost predicate CarriesVector(r: Record, collection: string, repr: string, id: Id, v: Vector) {
    && r.EntityWrite? && r.collection == collection && r.id == id
    && exists k :: 0 <= k < |r.reprs| && FirstDense(r.reprs, k, repr) && r.reprs[k].1.value == v
  }

  predicate Erases(r: Record, collection: string, id: Id) {
    r.EntityDelete? && r.collection == collection && r.id == id
  }

  ghost predicate Kept(s: IndexState, t: IndexState, id: Id) {
    id in s.idToIdx && id in t.idToIdx && t.idToIdx[id] == s.idToIdx[id]
    && s.idToIdx[id] < |s.points| <= |t.points| && t.points[s.idToIdx[id]] == s.points[s.idToIdx[id]]
  }

  ghost predicate HasVector(s: IndexState, id: Id, v: Vector) {
    id in s.idToIdx && s.idToIdx[id] < |s.points| && s.points[s.idToIdx[id]].0 == v
  }

  lemma InsertKeeps(s: IndexState, mid: IndexState, of: Id, v: Vector, id: Id)
    requires Consistent(mid)
    ensures var t := InsertInto(mid, of, v);
      && Consistent(t) && t.tombstones == mid.tombstones
      && (id in t.idToIdx <==> id in mid.idToIdx || of == id)
      && (id in mid.idToIdx ==> Kept(mid, t, id))
      && (of == id && id !in mid.idToIdx ==> HasVector(t, id, v))
  {
    UpdatesConsistent(mid, of, v);
  }

  lemma KeptOn(s: IndexState, mid: IndexState, t: IndexState, id: Id)
    requires Kept(mid, t, id)
    ensures Kept(s, mid, id) ==> Kept(s, t, id)
    ensures forall v :: HasVector(mid, id, v) ==> HasVector(t, id, v)
  {}

  lemma DenseLast(head: seq<(string, Option<Vector>)>, last: (string, Option<Vector>), repr: string)
    ensures var reprs := head + [last]; var n := |head|;
      && (forall k :: 0 <= k < n ==> Dense(reprs, k, repr) == Dense(head, k, repr) && FirstDense(reprs, k, repr) == FirstDense(head, k, repr))
      && Dense(reprs, n, repr) == (last.0 == repr && last.1.Some?)
  {
    var reprs := head + [last];
    assert forall k :: 0 <= k < |head| ==> reprs[k] == head[k] && Dense(reprs, k, repr) == Dense(head, k, repr);
  }

  /** The representations of one write: the entity is mapped from the first dense one on, with
      that one's vector. */
  lemma {:induction false} ReprsMeaning(s: IndexState, of: Id, reprs: seq<(string, Option<Vector>)>, repr: string, id: Id)
    requires Consistent(s)
    ensures var t := Run(s, OpsOfReprs(of, reprs, repr));
      && Consistent(t) && t.tombstones == s.tombstones && (id in s.idToIdx ==> Kept(s, t, id))
      && (id in t.idToIdx <==> id in s.idToIdx || (of == id && exists k :: 0 <= k < |reprs| && Dense(reprs, k, repr)))
      && (id in t.idToIdx && id !in s.idToIdx ==>
        exists k :: 0 <= k < |reprs| && FirstDense(reprs, k, repr) && HasVector(t, id, reprs[k].1.value))
  {
    if reprs == [] {
      assert Run(s, []) == s;
      assert Consistent(s);
    } else {
      var n := |reprs| - 1;
      var head, last := reprs[..n], reprs[n];
      ReprsMeaning(s, of, head, repr, id);
      assert reprs == head + [last];
      ReprsLast(of, head, last, repr);
      DenseLast(head, last, repr);
      var mid, t := Run(s, OpsOfReprs(of, head, repr)), Run(s, OpsOfReprs(of, reprs, repr));
      hide OpsOfReprs, Run, InsertInto, Consistent, Kept, HasVector, Dense, FirstDense;
      if last.0 == repr && last.1.Some? {
        RunLast(s, OpsOfReprs(of, head, repr), Ins(of, last.1.value));
        InsertKeeps(s, mid, of, last.1.value, id);
        if id in mid.idToIdx { KeptOn(s, mid, t, id); } else if of == id { NoneDense(head, last, repr); }
      } else {
        RunLast(s, OpsOfReprs(of, head, repr), Del(of));
      }
    }
  }

  lemma NoneDense(head: seq<(string, Option<Vector>)>, last: (string, Option<Vector>), repr: string)
    ensures (forall k :: 0 <= k < |head| ==> !Dense(head, k, repr)) && last.0 == repr && last.1.Some? ==>
      FirstDense(head + [last], |head|, repr)
  {
    DenseLast(head, last, repr);
  }

  lemma RemoveKeeps(s: IndexState, of: Id, id: Id)
    requires Consistent(s)
    ensures var t := RemoveFrom(s, of);
      && Consistent(t) && t.idToIdx == s.idToIdx && (id in s.idToIdx ==> Kept(s, t, id))
      && (id in t.tombstones <==> id in s.tombstones || (of == id && id in s.idToIdx))
  {
    UpdatesConsistent(s, of, []);
  }

  /** One record. */
  lemma RecordMeaning(s: IndexState, r: Record, collection: string, repr: string, id: Id)
    requires Consistent(s)
    ensures var t := Run(s, OpsOf(r, collection, repr));
      && Consistent(t) && (id in s.idToIdx ==> Kept(s, t, id))
      && (id in t.idToIdx <==> id in s.idToIdx || Carries(r, collection, repr, id))
      && (id in t.tombstones <==> id in s.tombstones || (Erases(r, collection, id) && id in s.idToIdx))
      && (id in t.idToIdx && id !in s.idToIdx ==> exists v :: CarriesVector(r, collection, repr, id, v) && HasVector(t, id, v))
  {
    assert Run(s, []) == s;
    match r {
      case EntityWrite(_, c, of, reprs) =>
        if c == collection {
          ReprsMeaning(s, of, reprs, repr, id);
          var t := Run(s, OpsOfReprs(of, reprs, repr));
          hide Run, OpsOfReprs, Consistent, Kept, HasVector, Dense, FirstDense;
          if id in t.idToIdx && id !in s.idToIdx {
            var k :| 0 <= k < |reprs| && FirstDense(reprs, k, repr) && HasVector(t, id, reprs[k].1.value);
            assert CarriesVector(r, collection, repr, id, reprs[k].1.value);
          }
        } else {
          KeptSame(s, id);
        }
      case EntityDelete(_, c, of) =>
        RemoveKeeps(s, of, id);
        KeptSame(s, id);
        RunLast(s, [], Del(of));
      case Unrelated(_) =>
        KeptSame(s, id);
    }
  }

  lemma KeptSame(s: IndexState, id: Id)
    requires Consistent(s)
    ensures id in s.idToIdx ==> Kept(s, s, id)
  {}

  /** The index after the records of a log, in order. */
  function After(s: IndexState, log: seq<Record>, collection: string, repr: string): IndexState {
    Run(s, AllOps(log, collection, repr))
  }

  /** One of the first `n` records writes a vector of the entity for the index. */
  ghost predicate Written(log: seq<Record>, n: nat, collection: string, repr: string, id: Id)
    requires n <= |log|
  {
    exists i :: 0 <= i < n && Carries(log[i], collection, repr, id)
  }

  /** A delete of the entity stands behind such a write, or the index knew it before the log. */
  ghost predicate Deleted(log: seq<Record>, known: bool, collection: string, repr: string, id: Id) {
    exists i :: 0 <= i < |log| && Erases(log[i], collection, id) && (known || Written(log, i, collection, repr, id))
  }

  /** The first such write puts vector `v` into the index. */
  ghost predicate FirstVector(log: seq<Record>, collection: string, repr: string, id: Id, v: Vector) {
    exists i :: 0 <= i < |log| && CarriesVector(log[i], collection, repr, id, v) && !Written(log, i, collection, repr, id)
  }

  lemma RecordsLast(head: seq<Record>, r: Record, known: bool, collection: string, repr: string, id: Id)
    ensures var log := head + [r];
      && (Written(log, |log|, collection, repr, id) <==> Written(head, |head|, collection, repr, id) || Carries(r, collection, repr, id))
      && (Deleted(log, known, collection, repr, id) <==> (Deleted(head, known, collection, repr, id) ||
        (Erases(r, collection, id) && (known || Written(head, |head|, collection, repr, id)))))
      && (forall v :: FirstVector(head, collection, repr, id, v) ==> FirstVector(log, collection, repr, id, v))
      && (forall v :: CarriesVector(r, collection, repr, id, v) && !Written(head, |head|, collection, repr, id) ==>
        FirstVector(log, collection, repr, id, v))
  {
    hide Carries, Erases, CarriesVector;
    var log, n := head + [r], |head|;
    assert log[n] == r && forall i :: 0 <= i < n ==> log[i] == head[i];
    forall i | 0 <= i <= n ensures Written(log, i, collection, repr, id) == Written(head, i, collection, repr, id) {
      WrittenPrefix(head, r, i, collection, repr, id);
    }
  }

  lemma WrittenPrefix(head: seq<Record>, r: Record, n: nat, collection: string, repr: string, id: Id)
    requires n <= |head|
    ensures Written(head + [r], n, collection, repr, id) == Written(head, n, collection, repr, id)
  {
    assert forall i :: 0 <= i < n ==> (head + [r])[i] == head[i];
  }

  /** What a log leaves in an index. An entity is mapped if it was, or some write carries a vector
      for the index. It is tombstoned if it was, or a delete of it stands behind such a write or
      finds it known. Its vector stays, or is that of the first such write. */
  lemma {:induction false} LogMeaning(s: IndexState, log: seq<Record>, collection: string, repr: string, id: Id)
    requires Consistent(s)
    ensures var t := After(s, log, collection, repr);
      && Consistent(t) && (id in s.idToIdx ==> Kept(s, t, id))
      && (id in t.idToIdx <==> id in s.idToIdx || Written(log, |log|, collection, repr, id))
      && (id in t.tombstones <==> id in s.tombstones || Deleted(log, id in s.idToIdx, collection, repr, id))
      && (id in t.idToIdx && id !in s.idToIdx ==> exists v :: FirstVector(log, collection, repr, id, v) && HasVector(t, id, v))
  {
    if log == [] {
      assert Run(s, []) == s;
      KeptSame(s, id);
    } else {
      var head, r := log[..|log| - 1], log[|log| - 1];
      assert log == head + [r];
      LogMeaning(s, head, collection, repr, id);
      AllOpsLast(head, r, collection, repr);
      RunConcat(s, AllOps(head, collection, repr), OpsOf(r, collection, repr));
      var mid, t := After(s, head, collection, repr), After(s, log, collection, repr);
      assert t == Run(mid, OpsOf(r, collection, repr));
      RecordMeaning(mid, r, collection, repr, id);
      RecordsLast(head, r, id in s.idToIdx, collection, repr, id);
      hide After, Run, AllOps, OpsOf, Consistent, Kept, HasVector, Written, Deleted, FirstVector, Carries, CarriesVector, Erases;
      if id in mid.idToIdx { KeptOn(s, mid, t, id); }
    }
  }

  /** The replayed records are those past both stamps. */
  lemma {:induction false} ReplayedMembers(log: seq<Record>, locationLsn: nat, hnswLsn: nat, r: Record)
    ensures r in Replayed(log, locationLsn, hnswLsn) <==> r in log && r.lsn > locationLsn && r.lsn > hnswLsn
  {
    if log != [] {
      var head, last := log[..|log| - 1], log[|log| - 1];
      ReplayedMembers(head, locationLsn, hnswLsn, r);
      assert log == head + [last];
      ReplayedLast(head, last, locationLsn, hnswLsn);
      hide Replayed;
    }
  }

  /** They keep the order of the log. */
  lemma {:induction false} ReplayedOrdered(log: seq<Record>, locationLsn: nat, hnswLsn: nat)
    requires Ordered(log)
    ensures Ordered(Replayed(log, locationLsn, hnswLsn))
  {
    if log != [] {
      var head, last := log[..|log| - 1], log[|log| - 1];
      ReplayedOrdered(head, locationLsn, hnswLsn);
      assert log == head + [last];
      ReplayedLast(head, last, locationLsn, hnswLsn);
      var a := Replayed(head, locationLsn, hnswLsn);
      hide Replayed;
      forall i | 0 <= i < |a| ensures a[i].lsn < last.lsn {
        ReplayedMembers(head, locationLsn, hnswLsn, a[i]);
        var k :| 0 <= k < |head| && head[k] == a[i];
        assert log[k] == a[i] && log[|head|] == last;
      }
    }
  }

  /** The index after startup is the one its snapshot's records and then the replayed ones leave
      in an empty index. */
  lemma RecoveredRecords(log: seq<Record>, locationLsn: nat, hnswLsn: nat, m: nat, collection: string, repr: string)
    requires m <= |log|
    ensures Recovered(log, locationLsn, hnswLsn, m, collection, repr)
      == After(EMPTY, log[..m] + Replayed(log, locationLsn, hnswLsn), collection, repr)
  {
    var a, b := log[..m], Replayed(log, locationLsn, hnswLsn);
    AllOpsConcat(a, b, collection, repr);
    RunConcat(EMPTY, AllOps(a, collection, repr), AllOps(b, collection, repr));
  }

  // ----- the replay loop -----

  lemma ReplayedLast(log: seq<Record>, r: Record, locationLsn: nat, hnswLsn: nat)
    ensures Replayed(log + [r], locationLsn, hnswLsn)
      == Replayed(log, locationLsn, hnswLsn) + (if r.lsn > locationLsn && r.lsn > hnswLsn then [r] else [])
  {
    assert (log + [r])[..|log|] == log;
  }

  lemma ReprsLast(id: Id, reprs: seq<(string, Option<Vector>)>, next: (string, Option<Vector>), repr: string)
    ensures OpsOfReprs(id, reprs + [next], repr) == OpsOfReprs(id, reprs, repr) +
      (if next.0 == repr && next.1.Some? then [Ins(id, next.1.value)] else [])
  {
    assert (reprs + [next])[..|reprs|] == reprs;
  }

  lemma RunLast(s: IndexState, ops: seq<Op>, op: Op)
    ensures Run(s, ops + [op]) == Apply(Run(s, ops), op) && ops + [] == ops
  {
    assert (ops + [op])[..|ops|] == ops;
  }

  /** One record of the replay loop. */
  method ReplayRecord(index: HnswIndex, r: Record, collection: string, repr: string)
    modifies index
    ensures index.State() == Run(old(index.State()), OpsOf(r, collection, repr))
  {
    ghost var start := index.State();
    match r {
      case EntityWrite(_, c, id, reprs) =>
        if c == collection {
          for k := 0 to |reprs|
            invariant index.State() == Run(start, OpsOfReprs(id, reprs[..k], repr))
          {
            assert reprs[..k + 1] == reprs[..k] + [reprs[k]];
            ReprsLast(id, reprs[..k], reprs[k], repr);
            hide OpsOfReprs, Run, InsertInto;
            if reprs[k].0 == repr {
              match reprs[k].1 {
                case Some(v) =>
                  RunLast(start, OpsOfReprs(id, reprs[..k], repr), Ins(id, v));
                  index.Insert(id, v);
                case None =>
                  RunLast(start, OpsOfReprs(id, reprs[..k], repr), Del(id));
              }
            } else {
              RunLast(start, OpsOfReprs(id, reprs[..k], repr), Del(id));
            }
          }
          assert reprs[..|reprs|] == reprs;
        }
      case EntityDelete(_, c, id) =>
        if c == collection {
          RunLast(start, [], Del(id));
          assert [] + [Del(id)] == [Del(id)];
          index.Remove(id);
        }
      case Unrelated(_) =>
    }
  }

  /** Startup's replay into one snapshot-loaded index: records the location snapshot covers are
      dropped first, then those the index snapshot covers are skipped. */
  method ReplayInto(index: HnswIndex, log: seq<Record>, locationLsn: nat, hnswLsn: nat, collection: string, repr: string)
    modifies index
    ensures index.State() == After(old(index.State()), Replayed(log, locationLsn, hnswLsn), collection, repr)
  {
    ghost var start := index.State();
    for i := 0 to |log|
      invariant index.State() == Run(start, AllOps(Replayed(log[..i], locationLsn, hnswLsn), collection, repr))
    {
      assert log[..i + 1] == log[..i] + [log[i]];
      ghost var done := Replayed(log[..i], locationLsn, hnswLsn);
      ReplayedLast(log[..i], log[i], locationLsn, hnswLsn);
      hide Replayed, AllOps, Run, OpsOf;
      if log[i].lsn <= locationLsn || log[i].lsn <= hnswLsn {
        assert done + [] == done;
      } else {
        AllOpsLast(done, log[i], collection, repr);
        RunConcat(start, AllOps(done, collection, repr), OpsOf(log[i], collection, repr));
        ReplayRecord(index, log[i], collection, repr);
      }
    }
    assert log[..|log|] == log;
  }
}
