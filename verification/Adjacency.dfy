/** The in-memory edge index: outgoing entries and incoming sources kept as mirror images. */
module Adjacency {
  import opened Basics
  import opened Decay

  datatype EdgeSource = Structural | Inferred | Confirmed

  datatype EdgeData = EdgeData(confidence: real, createdAt: nat, source: EdgeSource,
                               validFrom: Option<int>, validTo: Option<int>)

  datatype AdjEntry = AdjEntry(to: Id, data: EdgeData)

  type Forward = map<(Id, string), seq<AdjEntry>>

  type Backward = map<(Id, string), seq<Id>>

  type EdgeMap = map<EdgeKey, EdgeData>

  // ----- list updates -----

  /** Overwrite the first entry for the target in place, or append one. */
  function Upserted(s: seq<AdjEntry>, e: AdjEntry): seq<AdjEntry> {
    if s == [] then [e]
    else if s[0].to == e.to then [e] + s[1..]
    else [s[0]] + Upserted(s[1..], e)
  }

  function Retained(s: seq<AdjEntry>, to: Id): seq<AdjEntry> {
    if s == [] then []
    else (if s[0].to == to then [] else [s[0]]) + Retained(s[1..], to)
  }

  function Without(s: seq<Id>, id: Id): seq<Id> {
    if s == [] then []
    else (if s[0] == id then [] else [s[0]]) + Without(s[1..], id)
  }

  ghost predicate DistinctTargets(s: seq<AdjEntry>) {
    forall i, j :: 0 <= i < j < |s| ==> s[i].to != s[j].to
  }

  lemma {:induction false} UpsertedEntries(s: seq<AdjEntry>, e: AdjEntry)
    requires DistinctTargets(s)
    ensures DistinctTargets(Upserted(s, e))
    ensures forall x :: x in Upserted(s, e) <==> x == e || (x in s && x.to != e.to)
  {
    if s != [] {
      var rest := s[1..];
      assert s == [s[0]] + rest;
      if s[0].to == e.to {
        assert Upserted(s, e) == [e] + rest;
      } else {
        UpsertedEntries(rest, e);
        hide Upserted;
        var u := Upserted(rest, e);
        assert Upserted(s, e) == [s[0]] + u by { UpsertedSkips(s, e); }
        forall j | 0 <= j < |u| ensures u[j].to != s[0].to { assert u[j] in u; }
      }
    }
  }

  lemma UpsertedSkips(s: seq<AdjEntry>, e: AdjEntry)
    requires s != [] && s[0].to != e.to
    ensures Upserted(s, e) == [s[0]] + Upserted(s[1..], e)
  {}

  lemma {:induction false} RetainedEntries(s: seq<AdjEntry>, to: Id)
    requires DistinctTargets(s)
    ensures DistinctTargets(Retained(s, to))
    ensures forall x :: x in Retained(s, to) <==> x in s && x.to != to
  {
    if s != [] {
      var rest := s[1..];
      assert s == [s[0]] + rest;
      RetainedEntries(rest, to);
      var r := Retained(rest, to);
      forall j | 0 <= j < |r| ensures r[j].to != s[0].to { assert r[j] in r; }
    }
  }

  lemma {:induction false} WithoutIds(s: seq<Id>, id: Id)
    requires Distinct(s)
    ensures Distinct(Without(s, id))
    ensures forall x :: x in Without(s, id) <==> x in s && x != id
  {
    if s != [] {
      var rest := s[1..];
      assert s == [s[0]] + rest;
      WithoutIds(rest, id);
      var r := Without(rest, id);
      forall j | 0 <= j < |r| ensures r[j] != s[0] { assert r[j] in r; }
    }
  }

  // ----- the two maps against the set of edges -----

  function Out(forward: Forward, from: Id, edgeType: string): seq<AdjEntry> {
    if (from, edgeType) in forward then forward[(from, edgeType)] else []
  }

  function In(backward: Backward, to: Id, edgeType: string): seq<Id> {
    if (to, edgeType) in backward then backward[(to, edgeType)] else []
  }

  /** The outgoing list of one source and type: its edges, each target once. */
  ghost predicate OutRow(edges: EdgeMap, from: Id, edgeType: string, s: seq<AdjEntry>) {
    && DistinctTargets(s)
    && forall x :: x in s <==> EdgeKey(edgeType, from, x.to) in edges && edges[EdgeKey(edgeType, from, x.to)] == x.data
  }

  /** The incoming list of one target and type: the sources of its edges, each once. */
  ghost predicate InRow(edges: EdgeMap, to: Id, edgeType: string, s: seq<Id>) {
    && Distinct(s)
    && forall x :: x in s <==> EdgeKey(edgeType, x, to) in edges
  }

  /** Both maps describe exactly `edges`, and neither keeps an empty list. */
  ghost predicate Mirrors(edges: EdgeMap, forward: Forward, backward: Backward) {
    && (forall from, edgeType :: OutRow(edges, from, edgeType, Out(forward, from, edgeType)))
    && (forall to, edgeType :: InRow(edges, to, edgeType, In(backward, to, edgeType)))
    && (forall k :: k in forward ==> forward[k] != [])
    && (forall k :: k in backward ==> backward[k] != [])
  }

  /** The two maps determine the edges: nothing else is recorded. */
  lemma MirrorsDetermine(a: EdgeMap, b: EdgeMap, forward: Forward, backward: Backward)
    requires Mirrors(a, forward, backward) && Mirrors(b, forward, backward)
    ensures a == b
  {
    forall k ensures k in a <==> k in b {
      assert k == EdgeKey(k.edgeType, k.from, k.to);
      assert InRow(a, k.to, k.edgeType, In(backward, k.to, k.edgeType));
      assert InRow(b, k.to, k.edgeType, In(backward, k.to, k.edgeType));
      assert k.from in In(backward, k.to, k.edgeType) <==> k in a;
    }
    forall k | k in a ensures a[k] == b[k] {
      assert k == EdgeKey(k.edgeType, k.from, k.to);
      assert OutRow(a, k.from, k.edgeType, Out(forward, k.from, k.edgeType));
      assert OutRow(b, k.from, k.edgeType, Out(forward, k.from, k.edgeType));
      assert AdjEntry(k.to, a[k]) in Out(forward, k.from, k.edgeType);
    }
  }

  lemma OutAfterInsert(edges: EdgeMap, key: EdgeKey, data: EdgeData, from: Id, edgeType: string, s: seq<AdjEntry>)
    requires OutRow(edges, from, edgeType, s)
    ensures OutRow(edges[key := data], from, edgeType,
      if key.from == from && key.edgeType == edgeType then Upserted(s, AdjEntry(key.to, data)) else s)
  {
    UpsertedEntries(s, AdjEntry(key.to, data));
    hide Upserted;
  }

  lemma InAfterInsert(edges: EdgeMap, key: EdgeKey, data: EdgeData, to: Id, edgeType: string, s: seq<Id>)
    requires InRow(edges, to, edgeType, s)
    ensures InRow(edges[key := data], to, edgeType,
      if key.to == to && key.edgeType == edgeType && key.from !in s then s + [key.from] else s)
  {}

  lemma OutAfterRemove(edges: EdgeMap, key: EdgeKey, from: Id, edgeType: string, s: seq<AdjEntry>)
    requires OutRow(edges, from, edgeType, s)
    ensures OutRow(edges - {key}, from, edgeType,
      if key.from == from && key.edgeType == edgeType then Retained(s, key.to) else s)
  {
    RetainedEntries(s, key.to);
    hide Retained;
  }

  lemma InAfterRemove(edges: EdgeMap, key: EdgeKey, to: Id, edgeType: string, s: seq<Id>)
    requires InRow(edges, to, edgeType, s)
    ensures InRow(edges - {key}, to, edgeType,
      if key.to == to && key.edgeType == edgeType then Without(s, key.from) else s)
  {
    WithoutIds(s, key.from);
    hide Without;
  }

  /** The forward map with one target dropped from a row, and the row with it when empty. */
  function ForwardWithout(forward: Forward, from: Id, edgeType: string, to: Id): Forward {
    if (from, edgeType) !in forward then forward
    else
      var entries := Retained(forward[(from, edgeType)], to);
      if entries == [] then forward - {(from, edgeType)} else forward[(from, edgeType) := entries]
  }

  function BackwardWithout(backward: Backward, from: Id, edgeType: string, to: Id): Backward {
    if (to, edgeType) !in backward then backward
    else
      var sources := Without(backward[(to, edgeType)], from);
      if sources == [] then backward - {(to, edgeType)} else backward[(to, edgeType) := sources]
  }

  lemma OutWithout(forward: Forward, key: EdgeKey, from: Id, edgeType: string)
    ensures Out(ForwardWithout(forward, key.from, key.edgeType, key.to), from, edgeType)
      == if key.from == from && key.edgeType == edgeType then Retained(Out(forward, from, edgeType), key.to)
         else Out(forward, from, edgeType)
  {
    assert Retained([], key.to) == [];
    hide Retained;
  }

  lemma InWithout(backward: Backward, key: EdgeKey, to: Id, edgeType: string)
    ensures In(BackwardWithout(backward, key.from, key.edgeType, key.to), to, edgeType)
      == if key.to == to && key.edgeType == edgeType then Without(In(backward, to, edgeType), key.from)
         else In(backward, to, edgeType)
  {
    assert Without([], key.from) == [];
    hide Without;
  }

  lemma RemoveMirrors(edges: EdgeMap, forward: Forward, backward: Backward, key: EdgeKey)
    requires Mirrors(edges, forward, backward)
    ensures Mirrors(edges - {key}, ForwardWithout(forward, key.from, key.edgeType, key.to),
                    BackwardWithout(backward, key.from, key.edgeType, key.to))
  {
    hide OutRow, InRow, Retained, Without;
    var f := ForwardWithout(forward, key.from, key.edgeType, key.to);
    var b := BackwardWithout(backward, key.from, key.edgeType, key.to);
    assert (forall k :: k in f ==> f[k] != []) && (forall k :: k in b ==> b[k] != []);
    forall from, edgeType ensures OutRow(edges - {key}, from, edgeType, Out(f, from, edgeType)) {
      OutWithout(forward, key, from, edgeType);
      OutAfterRemove(edges, key, from, edgeType, Out(forward, from, edgeType));
    }
    forall to, edgeType ensures InRow(edges - {key}, to, edgeType, In(b, to, edgeType)) {
      InWithout(backward, key, to, edgeType);
      InAfterRemove(edges, key, to, edgeType, In(backward, to, edgeType));
    }
  }

  function OfType(edges: EdgeMap, edgeType: string): set<EdgeKey> {
    set k | k in edges && k.edgeType == edgeType
  }

  function Touching(edges: EdgeMap, entity: Id): set<EdgeKey> {
    set k | k in edges && (k.from == entity || k.to == entity)
  }

  function TargetsOf(edgeType: string, s: seq<AdjEntry>): seq<(string, Id)> {
    if s == [] then [] else [(edgeType, s[0].to)] + TargetsOf(edgeType, s[1..])
  }

  function SourcesOf(edgeType: string, s: seq<Id>): seq<(string, Id)> {
    if s == [] then [] else [(edgeType, s[0])] + SourcesOf(edgeType, s[1..])
  }

  lemma {:induction false} TargetsListed(edgeType: string, s: seq<AdjEntry>)
    ensures forall p :: p in TargetsOf(edgeType, s) <==> p.0 == edgeType && exists j :: 0 <= j < |s| && s[j].to == p.1
  {
    if s != [] {
      var rest := s[1..];
      TargetsListed(edgeType, rest);
      forall p ensures p in TargetsOf(edgeType, s) <==> p.0 == edgeType && exists j :: 0 <= j < |s| && s[j].to == p.1 {
        if p in TargetsOf(edgeType, rest) {
          var j :| 0 <= j < |rest| && rest[j].to == p.1;
          assert s[j + 1].to == p.1;
        }
        if j :| 0 < j < |s| && s[j].to == p.1 {
          assert rest[j - 1].to == p.1;
        }
        if s[0].to == p.1 && p.0 == edgeType { assert p == (edgeType, s[0].to); }
      }
    }
  }

  lemma TargetsMeaning(edges: EdgeMap, from: Id, edgeType: string, s: seq<AdjEntry>)
    requires OutRow(edges, from, edgeType, s)
    ensures forall p :: p in TargetsOf(edgeType, s) <==> p.0 == edgeType && EdgeKey(edgeType, from, p.1) in edges
  {
    TargetsListed(edgeType, s);
    forall p: (string, Id) ensures (exists j :: 0 <= j < |s| && s[j].to == p.1) <==> EdgeKey(edgeType, from, p.1) in edges {
      if j :| 0 <= j < |s| && s[j].to == p.1 {
        assert s[j] in s;
      }
      if EdgeKey(edgeType, from, p.1) in edges {
        assert AdjEntry(p.1, edges[EdgeKey(edgeType, from, p.1)]) in s;
      }
    }
  }

  lemma {:induction false} SourcesListed(edgeType: string, s: seq<Id>)
    ensures forall p :: p in SourcesOf(edgeType, s) <==> p.0 == edgeType && p.1 in s
  {
    if s != [] {
      SourcesListed(edgeType, s[1..]);
      assert s == [s[0]] + s[1..];
    }
  }

  lemma SourcesMeaning(edges: EdgeMap, to: Id, edgeType: string, s: seq<Id>)
    requires InRow(edges, to, edgeType, s)
    ensures forall p :: p in SourcesOf(edgeType, s) <==> p.0 == edgeType && EdgeKey(edgeType, p.1, to) in edges
  {
    SourcesListed(edgeType, s);
  }

  ghost function OutKeys(entity: Id, outgoing: seq<(string, Id)>): set<EdgeKey> {
    set p | p in outgoing :: EdgeKey(p.0, entity, p.1)
  }

  ghost function InKeys(entity: Id, incoming: seq<(string, Id)>): set<EdgeKey> {
    set p | p in incoming :: EdgeKey(p.0, p.1, entity)
  }

  lemma KeysTouching(edges: EdgeMap, entity: Id, outgoing: seq<(string, Id)>, incoming: seq<(string, Id)>)
    requires forall edgeType, to :: (edgeType, to) in outgoing <==> EdgeKey(edgeType, entity, to) in edges
    requires forall edgeType, from :: (edgeType, from) in incoming <==> EdgeKey(edgeType, from, entity) in edges
    ensures edges - OutKeys(entity, outgoing) - InKeys(entity, incoming) == edges - Touching(edges, entity)
  {
    forall k | k in edges
      ensures k in OutKeys(entity, outgoing) || k in InKeys(entity, incoming) <==> k in Touching(edges, entity)
    {
      assert k == EdgeKey(k.edgeType, k.from, k.to);
      if k.from == entity { assert (k.edgeType, k.to) in outgoing; }
      if k.to == entity { assert (k.edgeType, k.from) in incoming; }
    }
  }

  class AdjacencyIndex {
    var forward: Forward
    var backward: Backward
    ghost var edges: EdgeMap

    ghost predicate Valid()
      reads this
    {
      Mirrors(edges, forward, backward)
    }

    constructor ()
      ensures Valid() && edges == map[]
    {
      forward, backward, edges := map[], map[], map[];
    }

    method Insert(from: Id, edgeType: string, to: Id, data: EdgeData)
      requires Valid()
      modifies this
      ensures Valid() && edges == old(edges)[EdgeKey(edgeType, from, to) := data]
    {
      ghost var key := EdgeKey(edgeType, from, to);
      ghost var was := edges;
      var entries := Out(forward, from, edgeType);
      forward := forward[(from, edgeType) := Upserted(entries, AdjEntry(to, data))];
      var sources := In(backward, to, edgeType);
      backward := backward[(to, edgeType) := if from in sources then sources else sources + [from]];
      edges := edges[key := data];
      forall f, t ensures OutRow(edges, f, t, Out(forward, f, t)) {
        OutAfterInsert(was, key, data, f, t, Out(old(forward), f, t));
        hide OutRow, Upserted;
      }
      forall f, t ensures InRow(edges, f, t, In(backward, f, t)) {
        InAfterInsert(was, key, data, f, t, In(old(backward), f, t));
        hide InRow;
      }
      assert Upserted(entries, AdjEntry(to, data)) != [];
      hide OutRow, InRow, Upserted;
    }

    method Remove(from: Id, edgeType: string, to: Id)
      requires Valid()
      modifies this
      ensures Valid() && edges == old(edges) - {EdgeKey(edgeType, from, to)}
    {
      RemoveMirrors(edges, forward, backward, EdgeKey(edgeType, from, to));
      if (from, edgeType) in forward {
        var entries := Retained(forward[(from, edgeType)], to);
        forward := if entries == [] then forward - {(from, edgeType)} else forward[(from, edgeType) := entries];
      }
      if (to, edgeType) in backward {
        var sources := Without(backward[(to, edgeType)], from);
        backward := if sources == [] then backward - {(to, edgeType)} else backward[(to, edgeType) := sources];
      }
      edges := edges - {EdgeKey(edgeType, from, to)};
      hide Mirrors, Retained, Without;
    }

    /** Every edge out of the entity, with its target, and every edge into it, with its source. */
    method EdgesInvolving(entity: Id) returns (outgoing: seq<(string, Id)>, incoming: seq<(string, Id)>)
      requires Valid()
      ensures forall edgeType, to :: (edgeType, to) in outgoing <==> EdgeKey(edgeType, entity, to) in edges
      ensures forall edgeType, from :: (edgeType, from) in incoming <==> EdgeKey(edgeType, from, entity) in edges
    {
      outgoing, incoming := [], [];
      var todo := forward.Keys;
      while todo != {}
        invariant todo <= forward.Keys
        invariant forall t, to :: (t, to) in outgoing <==>
          (entity, t) in forward.Keys - todo && EdgeKey(t, entity, to) in edges
      {
        var k :| k in todo;
        todo := todo - {k};
        if k.0 == entity {
          var targets := TargetsOf(k.1, forward[k]);
          assert OutRow(edges, entity, k.1, Out(forward, entity, k.1));
          outgoing := outgoing + targets;
          TargetsMeaning(edges, entity, k.1, forward[k]);
        }
      }
      forall t, to | EdgeKey(t, entity, to) in edges ensures (t, to) in outgoing {
        assert OutRow(edges, entity, t, Out(forward, entity, t));
        assert AdjEntry(to, edges[EdgeKey(t, entity, to)]) in Out(forward, entity, t);
      }
      todo := backward.Keys;
      while todo != {}
        invariant todo <= backward.Keys
        invariant forall t, from :: (t, from) in incoming <==>
          (entity, t) in backward.Keys - todo && EdgeKey(t, from, entity) in edges
      {
        var k :| k in todo;
        todo := todo - {k};
        if k.0 == entity {
          var sources := SourcesOf(k.1, backward[k]);
          assert InRow(edges, entity, k.1, In(backward, entity, k.1));
          incoming := incoming + sources;
          SourcesMeaning(edges, entity, k.1, backward[k]);
        }
      }
      forall t, from | EdgeKey(t, from, entity) in edges ensures (t, from) in incoming {
        assert InRow(edges, entity, t, In(backward, entity, t));
        assert from in In(backward, entity, t);
      }
    }

    /** Deleting an entity removes every edge it takes part in, and no other. */
    method RemoveEntity(entity: Id)
      requires Valid()
      modifies this
      ensures Valid() && edges == map k | k in old(edges) && k.from != entity && k.to != entity :: old(edges)[k]
    {
      ghost var was := edges;
      var outgoing, incoming := EdgesInvolving(entity);
      hide Mirrors;
      for i := 0 to |outgoing|
        invariant Valid() && edges == was - OutKeys(entity, outgoing[..i])
      {
        assert outgoing[..i + 1] == outgoing[..i] + [outgoing[i]];
        var (edgeType, to) := outgoing[i];
        assert OutKeys(entity, outgoing[..i + 1]) == OutKeys(entity, outgoing[..i]) + {EdgeKey(edgeType, entity, to)};
        Remove(entity, edgeType, to);
      }
      ghost var half := edges;
      for i := 0 to |incoming|
        invariant Valid() && edges == half - InKeys(entity, incoming[..i])
      {
        assert incoming[..i + 1] == incoming[..i] + [incoming[i]];
        var (edgeType, from) := incoming[i];
        assert InKeys(entity, incoming[..i + 1]) == InKeys(entity, incoming[..i]) + {EdgeKey(edgeType, from, entity)};
        Remove(from, edgeType, entity);
      }
      assert outgoing[..|outgoing|] == outgoing && incoming[..|incoming|] == incoming;
      KeysTouching(was, entity, outgoing, incoming);
    }

    method RemoveEdgeType(edgeType: string)
      requires Valid()
      modifies this
      ensures Valid() && edges == map k | k in old(edges) && k.edgeType != edgeType :: old(edges)[k]
    {
      forward := map k | k in forward && k.1 != edgeType :: forward[k];
      backward := map k | k in backward && k.1 != edgeType :: backward[k];
      edges := edges - OfType(edges, edgeType);
      forall f, t ensures OutRow(edges, f, t, Out(forward, f, t)) {
        assert OutRow(old(edges), f, t, Out(old(forward), f, t));
      }
      forall f, t ensures InRow(edges, f, t, In(backward, f, t)) {
        assert InRow(old(edges), f, t, In(old(backward), f, t));
      }
      hide OutRow, InRow;
    }
  }
}
