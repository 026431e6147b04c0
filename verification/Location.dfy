/** The location table: where each representation of an entity lives, its secondary index and
    its snapshot. */
module Location {
  import opened Basics
  import opened ByteOrder

  datatype Tier = Ram | Fjall | NVMe | Archive

  datatype LocState = Clean | Dirty | Recomputing | Migrating

  datatype Encoding = Float32 | Int8 | Binary | Sparse | PolarQuant

  datatype ReprKey = ReprKey(entity: Id, repr: nat)

  datatype Descriptor = Descriptor(tier: Tier, node: string, state: LocState, version: nat,
                                   encoding: Encoding, lastAccessed: nat)

  datatype Error = LocationNotFound | InvalidStateTransition(from: LocState, to: LocState) | Storage

  predicate CanTransition(from: LocState, to: LocState) {
    match (from, to)
    case (Clean, Dirty) => true
    case (Dirty, Recomputing) => true
    case (Recomputing, Clean) => true
    case (Clean, Migrating) => true
    case (Migrating, Clean) => true
    case _ => false
  }

  /** Every state but the clean one has one way on, and the migrating state is entered from and
      left for the clean one only. */
  lemma LegalTransitions(from: LocState, to: LocState)
    ensures from == Clean ==> (CanTransition(from, to) <==> to == Dirty || to == Migrating)
    ensures from == Dirty ==> (CanTransition(from, to) <==> to == Recomputing)
    ensures from == Recomputing || from == Migrating ==> (CanTransition(from, to) <==> to == Clean)
  {}

  // ----- sorted index lists -----

  ghost predicate Ascending(s: seq<nat>) {
    forall i, j :: 0 <= i < j < |s| ==> s[i] < s[j]
  }

  /** Push followed by sort, on a list that is already sorted. */
  function InsertSorted(s: seq<nat>, x: nat): (r: seq<nat>)
    ensures forall y :: y in r <==> y == x || y in s
  {
    if s == [] then [x]
    else if x <= s[0] then [x] + s
    else
      var r := InsertSorted(s[1..], x);
      assert forall y :: y in s <==> y == s[0] || y in s[1..];
      [s[0]] + r
  }

  lemma {:induction false} InsertSortedAscending(s: seq<nat>, x: nat)
    requires Ascending(s) && x !in s
    ensures Ascending(InsertSorted(s, x))
  {
    if s != [] && x > s[0] {
      InsertSortedAscending(s[1..], x);
      var r := InsertSorted(s[1..], x);
      forall j | 0 <= j < |r| ensures s[0] < r[j] {
        assert r[j] in r;
      }
    }
  }

  lemma {:induction false} AscendingUnique(s: seq<nat>, t: seq<nat>)
    requires Ascending(s) && Ascending(t) && forall x :: x in s <==> x in t
    ensures s == t
  {
    assert (t != [] ==> t[0] in s) && (s != [] ==> s[0] in t);
    if s != [] {
      assert s[0] == t[0];
      forall x ensures x in s[1..] <==> x in t[1..] {
        if x in s[1..] { assert x in t && x != s[0]; }
        if x in t[1..] { assert x in s && x != t[0]; }
      }
      AscendingUnique(s[1..], t[1..]);
      assert s == [s[0]] + s[1..] && t == [t[0]] + t[1..];
    }
  }

  /** The secondary index: per entity, the sorted, duplicate-free, nonempty list of exactly the
      representation indices that have a descriptor. */
  ghost predicate Indexed(descriptors: map<ReprKey, Descriptor>, entityReprs: map<Id, seq<nat>>) {
    && (forall e :: e in entityReprs ==> entityReprs[e] != [] && Ascending(entityReprs[e]))
    && (forall e, i :: ReprKey(e, i) in descriptors <==> e in entityReprs && i in entityReprs[e])
  }

  /** The descriptors determine the secondary index. */
  lemma IndexDetermined(descriptors: map<ReprKey, Descriptor>, a: map<Id, seq<nat>>, b: map<Id, seq<nat>>)
    requires Indexed(descriptors, a) && Indexed(descriptors, b)
    ensures a == b
  {
    forall e ensures e in a <==> e in b {
      if e in a { assert a[e][0] in a[e]; assert ReprKey(e, a[e][0]) in descriptors; }
      if e in b { assert b[e][0] in b[e]; assert ReprKey(e, b[e][0]) in descriptors; }
    }
    forall e | e in a ensures a[e] == b[e] {
      forall i ensures i in a[e] <==> i in b[e] {
        assert i in a[e] <==> ReprKey(e, i) in descriptors;
        assert i in b[e] <==> ReprKey(e, i) in descriptors;
      }
      AscendingUnique(a[e], b[e]);
    }
  }

  function WithoutReprs(descriptors: map<ReprKey, Descriptor>, entity: Id, indices: seq<nat>): map<ReprKey, Descriptor> {
    map k | k in descriptors && !(k.entity == entity && k.repr in indices) :: descriptors[k]
  }

  lemma WithoutNext(descriptors: map<ReprKey, Descriptor>, entity: Id, indices: seq<nat>, next: nat)
    ensures WithoutReprs(descriptors, entity, indices + [next])
      == WithoutReprs(descriptors, entity, indices) - {ReprKey(entity, next)}
    ensures WithoutReprs(descriptors, entity, []) == descriptors
  {}

  /** Removing the indexed representations removes all of the entity's, and what is left is
      indexed without it. */
  lemma RemovalComplete(descriptors: map<ReprKey, Descriptor>, entityReprs: map<Id, seq<nat>>, entity: Id)
    requires Indexed(descriptors, entityReprs)
    ensures var left := map k | k in descriptors && k.entity != entity :: descriptors[k];
      && Indexed(left, entityReprs - {entity})
      && left == WithoutReprs(descriptors, entity, if entity in entityReprs then entityReprs[entity] else [])
      && WithoutReprs(descriptors, entity, []) == descriptors
  {
    forall k | k in descriptors && k.entity == entity ensures entity in entityReprs && k.repr in entityReprs[entity] {
      assert k == ReprKey(k.entity, k.repr);
    }
  }

  class LocationTable {
    var descriptors: map<ReprKey, Descriptor>
    var entityReprs: map<Id, seq<nat>>
    var mutationCounter: nat

    ghost predicate Valid()
      reads this
    {
      Indexed(descriptors, entityReprs)
    }

    constructor ()
      ensures Valid() && descriptors == map[] && mutationCounter == 0
    {
      descriptors, entityReprs, mutationCounter := map[], map[], 0;
    }

    method Register(key: ReprKey, descriptor: Descriptor)
      requires Valid()
      modifies this
      ensures Valid() && descriptors == old(descriptors)[key := descriptor]
      ensures mutationCounter == old(mutationCounter) + 1
    {
      descriptors := descriptors[key := descriptor];
      var indices := if key.entity in entityReprs then entityReprs[key.entity] else [];
      if key.repr !in indices {
        InsertSortedAscending(indices, key.repr);
        indices := InsertSorted(indices, key.repr);
      }
      entityReprs := entityReprs[key.entity := indices];
      mutationCounter := mutationCounter + 1;
    }

    method Transition(key: ReprKey, newState: LocState) returns (r: Result<(), Error>)
      requires Valid()
      modifies this
      ensures Valid()
      ensures r.Ok? <==> key in old(descriptors) && CanTransition(old(descriptors)[key].state, newState)
      ensures r.Err? ==> unchanged(this)
      ensures r.Err? ==> r.error == if key !in descriptors then LocationNotFound
        else InvalidStateTransition(descriptors[key].state, newState)
      ensures r.Ok? ==> mutationCounter == old(mutationCounter) + 1
      ensures r.Ok? ==> var d := old(descriptors)[key];
        descriptors == old(descriptors)[key := d.(state := newState, version := d.version + 1)]
    {
      if key !in descriptors {
        return Err(LocationNotFound);
      }
      var d := descriptors[key];
      if !CanTransition(d.state, newState) {
        return Err(InvalidStateTransition(d.state, newState));
      }
      descriptors := descriptors[key := d.(state := newState, version := d.version + 1)];
      mutationCounter := mutationCounter + 1;
      r := Ok(());
    }

    method UpdateTier(key: ReprKey, tier: Tier, encoding: Encoding) returns (r: Result<(), Error>)
      requires Valid()
      modifies this
      ensures Valid()
      ensures r.Ok? <==> key in old(descriptors)
      ensures r.Err? ==> unchanged(this) && r.error == LocationNotFound
      ensures r.Ok? ==> mutationCounter == old(mutationCounter) + 1
      ensures r.Ok? ==> var d := old(descriptors)[key];
        descriptors == old(descriptors)[key := d.(tier := tier, encoding := encoding, version := d.version + 1)]
    {
      if key !in descriptors {
        return Err(LocationNotFound);
      }
      var d := descriptors[key];
      descriptors := descriptors[key := d.(tier := tier, encoding := encoding, version := d.version + 1)];
      mutationCounter := mutationCounter + 1;
      r := Ok(());
    }

    method Touch(key: ReprKey, timestamp: nat)
      requires Valid()
      modifies this
      ensures Valid() && mutationCounter == old(mutationCounter)
      ensures descriptors == if key in old(descriptors)
        then old(descriptors)[key := old(descriptors)[key].(lastAccessed := timestamp)] else old(descriptors)
    {
      if key in descriptors {
        descriptors := descriptors[key := descriptors[key].(lastAccessed := timestamp)];
      }
    }

    /** Removal follows the secondary index and still leaves no descriptor of the entity behind. */
    method RemoveEntity(entity: Id)
      requires Valid()
      modifies this
      ensures Valid() && mutationCounter == old(mutationCounter) + 1
      ensures descriptors == map k | k in old(descriptors) && k.entity != entity :: old(descriptors)[k]
      ensures entityReprs == old(entityReprs) - {entity}
    {
      ghost var before := descriptors;
      if entity in entityReprs {
        var indices := entityReprs[entity];
        entityReprs := entityReprs - {entity};
        for i := 0 to |indices|
          invariant entityReprs == old(entityReprs) - {entity} && mutationCounter == old(mutationCounter)
          invariant descriptors == WithoutReprs(before, entity, indices[..i])
        {
          assert indices[..i + 1] == indices[..i] + [indices[i]];
          WithoutNext(before, entity, indices[..i], indices[i]);
          hide WithoutReprs, Indexed;
          descriptors := descriptors - {ReprKey(entity, indices[i])};
        }
        assert indices[..|indices|] == indices;
      }
      RemovalComplete(before, old(entityReprs), entity);
      hide WithoutReprs, Indexed;
      mutationCounter := mutationCounter + 1;
    }

    /** `order` is the iteration order of the concurrent map; `encode` the body codec. */
    method Snapshot(order: seq<ReprKey>, walHeadLsn: nat, encode: seq<(ReprKey, Descriptor)> -> seq<Byte>)
      returns (out: seq<Byte>)
      requires Valid() && Enumerates(order, descriptors)
      ensures out == MAGIC + BigEndian(8, walHeadLsn) + BigEndian(8, |order|) + encode(EntriesIn(order, descriptors))
    {
      var collected: seq<(ReprKey, Descriptor)> := [];
      for i := 0 to |order|
        invariant collected == EntriesIn(order[..i], descriptors) && |collected| == i
      {
        collected := collected + [(order[i], descriptors[order[i]])];
        assert order[..i + 1] == order[..i] + [order[i]];
      }
      assert order[..|order|] == order;
      out := MAGIC + BigEndian(8, walHeadLsn) + BigEndian(8, |collected|) + encode(collected);
    }
  }

  /** "TRONLOC1". */
  const MAGIC: seq<Byte> := [0x54, 0x52, 0x4F, 0x4E, 0x4C, 0x4F, 0x43, 0x31]

  ghost predicate Enumerates(order: seq<ReprKey>, descriptors: map<ReprKey, Descriptor>) {
    && (forall k :: k in order <==> k in descriptors)
    && (forall i, j :: 0 <= i < j < |order| ==> order[i] != order[j])
  }

  function EntriesIn(order: seq<ReprKey>, descriptors: map<ReprKey, Descriptor>): seq<(ReprKey, Descriptor)>
    requires forall k :: k in order ==> k in descriptors
  {
    seq(|order|, i requires 0 <= i < |order| => assert order[i] in order; (order[i], descriptors[order[i]]))
  }

  /** The last entry of a key wins. */
  ghost function MapOf(entries: seq<(ReprKey, Descriptor)>): map<ReprKey, Descriptor> {
    if entries == [] then map[]
    else MapOf(entries[..|entries| - 1])[entries[|entries| - 1].0 := entries[|entries| - 1].1]
  }

  /** What the snapshot header and body say, if they are well formed. */
  function Parse(bytes: seq<Byte>, decode: seq<Byte> -> Result<seq<(ReprKey, Descriptor)>, Error>)
    : Result<(nat, seq<(ReprKey, Descriptor)>), Error>
  {
    if |bytes| < 24 then Err(Storage)
    else if bytes[..8] != MAGIC then Err(Storage)
    else
      var lsn, count := FromBigEndian(bytes[8..16]), FromBigEndian(bytes[16..24]);
      match decode(bytes[24..])
      case Err(e) => Err(e)
      case Ok(entries) => if |entries| != count then Err(Storage) else Ok((lsn, entries))
  }

  /** A snapshot is taken exactly if its header is there with the magic, its body decodes and
      the count is that of the entries. */
  lemma ParseIff(bytes: seq<Byte>, decode: seq<Byte> -> Result<seq<(ReprKey, Descriptor)>, Error>, lsn: nat,
                 entries: seq<(ReprKey, Descriptor)>)
    ensures Parse(bytes, decode) == Ok((lsn, entries)) <==> (
      && |bytes| >= 24 && bytes[..8] == MAGIC && decode(bytes[24..]) == Ok(entries)
      && FromBigEndian(bytes[8..16]) == lsn && FromBigEndian(bytes[16..24]) == |entries|)
    ensures |bytes| < 24 || bytes[..8] != MAGIC ==> Parse(bytes, decode) == Err(Storage)
  {}

  method Restore(bytes: seq<Byte>, decode: seq<Byte> -> Result<seq<(ReprKey, Descriptor)>, Error>)
    returns (r: Result<nat, Error>, table: LocationTable)
    ensures fresh(table) && table.Valid()
    ensures match Parse(bytes, decode)
      case Err(e) => r == Err(e)
      case Ok((lsn, entries)) =>
        r == Ok(lsn) && table.descriptors == MapOf(entries) && table.mutationCounter == |entries|
  {
    table := new LocationTable();
    match Parse(bytes, decode) {
      case Err(e) => r := Err(e);
      case Ok((lsn, entries)) =>
        for i := 0 to |entries|
          invariant fresh(table) && table.Valid()
          invariant table.descriptors == MapOf(entries[..i]) && table.mutationCounter == i
        {
          assert entries[..i + 1][..i] == entries[..i];
          table.Register(entries[i].0, entries[i].1);
        }
        assert entries[..|entries|] == entries;
        r := Ok(lsn);
    }
  }

  lemma {:induction false} EntriesLength(order: seq<ReprKey>, descriptors: map<ReprKey, Descriptor>)
    requires forall k :: k in order ==> k in descriptors
    ensures |EntriesIn(order, descriptors)| == |order|
  {
    if order != [] { EntriesLength(order[..|order| - 1], descriptors); }
  }

  lemma {:induction false} MapOfEntries(order: seq<ReprKey>, descriptors: map<ReprKey, Descriptor>)
    requires forall k :: k in order ==> k in descriptors
    ensures MapOf(EntriesIn(order, descriptors)) == map k | k in descriptors && k in order :: descriptors[k]
  {
    if order != [] {
      var n := |order| - 1;
      var head := order[..n];
      assert order == head + [order[n]];
      MapOfEntries(head, descriptors);
      assert EntriesIn(order, descriptors)[..n] == EntriesIn(head, descriptors);
    }
  }

  /** A snapshot taken in any iteration order parses back to the same log position and to
      entries that rebuild the same descriptors; by `IndexDetermined` the restored index is the
      original one too. */
  lemma SnapshotRoundTrip(order: seq<ReprKey>, descriptors: map<ReprKey, Descriptor>, lsn: nat,
                          encode: seq<(ReprKey, Descriptor)> -> seq<Byte>,
                          decode: seq<Byte> -> Result<seq<(ReprKey, Descriptor)>, Error>)
    requires Enumerates(order, descriptors) && lsn < Pow256(8) && |order| < Pow256(8)
    requires decode(encode(EntriesIn(order, descriptors))) == Ok(EntriesIn(order, descriptors))
    ensures var entries := EntriesIn(order, descriptors);
      && Parse(MAGIC + BigEndian(8, lsn) + BigEndian(8, |order|) + encode(entries), decode) == Ok((lsn, entries))
      && MapOf(entries) == descriptors
  {
    var entries := EntriesIn(order, descriptors);
    var body := encode(entries);
    var bytes := MAGIC + BigEndian(8, lsn) + BigEndian(8, |entries|) + body;
    assert bytes[..8] == MAGIC;
    assert bytes[8..16] == BigEndian(8, lsn);
    assert bytes[16..24] == BigEndian(8, |entries|);
    assert bytes[24..] == body;
    EntriesLength(order, descriptors);
    BigEndianRoundTrip(8, lsn);
    BigEndianRoundTrip(8, |entries|);
    MapOfEntries(order, descriptors);
    assert MapOf(entries) == descriptors;
  }
}
