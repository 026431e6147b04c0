/** The field index: rows kept in a sorted byte key space, looked up by key ranges. */
module FieldIndex {
  import opened Basics
  import opened ByteOrder
  import opened KeyEncoding

  /** The UTF-8 bytes of an entity id. */
  type Id = seq<Byte>

  /** One indexed entity: its field values and its id. */
  datatype Row = Row(values: seq<Value>, id: Id)

  datatype Entry = Entry(key: seq<Byte>, id: Id)

  // ----- the sorted key space -----

  function Put(p: seq<Entry>, e: Entry): seq<Entry> {
    if p == [] || Less(e.key, p[0].key) then [e] + p
    else if p[0].key == e.key then [e] + p[1..]
    else [p[0]] + Put(p[1..], e)
  }

  function Delete(p: seq<Entry>, key: seq<Byte>): seq<Entry> {
    if p == [] then []
    else if p[0].key == key then Delete(p[1..], key)
    else [p[0]] + Delete(p[1..], key)
  }

  /** The entries between two inclusive bounds, in key order. */
  function Range(p: seq<Entry>, from: seq<Byte>, to: seq<Byte>): seq<Entry> {
    if p == [] then []
    else if !Less(p[0].key, from) && !Less(to, p[0].key) then [p[0]] + Range(p[1..], from, to)
    else Range(p[1..], from, to)
  }

  function WithPrefix(p: seq<Entry>, prefix: seq<Byte>): seq<Entry> {
    if p == [] then []
    else if IsPrefix(prefix, p[0].key) then [p[0]] + WithPrefix(p[1..], prefix)
    else WithPrefix(p[1..], prefix)
  }

  // ----- rows and their entries -----

  /** The key of a row: its compound key, a separator and its id. */
  function FullKey(r: Row): seq<Byte> {
    Key(r.values) + ([0] + r.id)
  }

  function Entries(rows: seq<Row>): seq<Entry> {
    if rows == [] then [] else [Entry(FullKey(rows[0]), rows[0].id)] + Entries(rows[1..])
  }

  function Ids(rows: seq<Row>): seq<Id> {
    if rows == [] then [] else [rows[0].id] + Ids(rows[1..])
  }

  /** A full tuple of plain values of the declared types. */
  ghost predicate Storable(values: seq<Value>, types: seq<FieldType>) {
    |values| == |types| && TypedAll(values, types) && PlainAll(values)
  }

  lemma StorableComparable(a: seq<Value>, b: seq<Value>, types: seq<FieldType>)
    requires Storable(a, types) && Storable(b, types)
    ensures Comparable(a, b)
  {
    forall i | 0 <= i < |a| ensures SameKind(a[i], b[i]) {
      assert Typed(a[i], types[i]) && Typed(b[i], types[i]);
    }
  }

  ghost predicate RowLess(a: Row, b: Row) {
    TupleLess(a.values, b.values) || (a.values == b.values && Less(a.id, b.id))
  }

  lemma {:induction false} LessAfter(p: seq<Byte>, x: seq<Byte>, y: seq<Byte>)
    ensures Less(p + x, p + y) <==> Less(x, y)
  {
    if p == [] {
      assert p + x == x && p + y == y;
    } else {
      assert (p + x)[1..] == p[1..] + x && (p + y)[1..] == p[1..] + y;
      LessAfter(p[1..], x, y);
    }
  }

  lemma NotBoth(a: seq<Byte>, b: seq<Byte>)
    requires Less(a, b)
    ensures !Less(b, a) && a != b
  {
    LessIrreflexive(a);
    if Less(b, a) { LessTransitive(a, b, a); }
  }

  /** Full keys order rows by value tuple and then by id, and tell rows apart. */
  lemma FullKeyOrder(a: Row, b: Row)
    requires Comparable(a.values, b.values)
    ensures Less(FullKey(a), FullKey(b)) <==> RowLess(a, b)
    ensures FullKey(a) == FullKey(b) <==> a == b
  {
    hide Key, Comparable, TupleLess;
    CompoundKeyOrder(a.values, b.values);
    ComparableSymmetric(a.values, b.values);
    TupleTotal(a.values, b.values);
    var x, y := [0] + a.id, [0] + b.id;
    if a.values == b.values {
      if TupleLess(a.values, b.values) { LessIrreflexive(Key(a.values)); }
      LessAfter(Key(a.values), x, y);
      LessAfter([0], a.id, b.id);
      if FullKey(a) == FullKey(b) {
        assert a.id == FullKey(a)[|Key(a.values)| + 1..] == FullKey(b)[|Key(a.values)| + 1..] == b.id;
      }
    } else if TupleLess(a.values, b.values) {
      TupleOrder(a.values, b.values);
      DivergesExtends(Key(a.values), Key(b.values), x, y);
    } else {
      TupleOrder(b.values, a.values);
      DivergesExtends(Key(b.values), Key(a.values), y, x);
      NotBoth(FullKey(b), FullKey(a));
    }
  }

  ghost predicate Indexable(rows: seq<Row>, types: seq<FieldType>) {
    forall i :: 0 <= i < |rows| ==> Storable(rows[i].values, types)
  }

  /** Strictly ascending by value tuple, then id. */
  ghost predicate SortedRows(rows: seq<Row>) {
    forall i, j :: 0 <= i < j < |rows| ==> RowLess(rows[i], rows[j])
  }

  // ----- inserting and deleting -----

  ghost function InsertRow(rows: seq<Row>, r: Row): seq<Row> {
    if rows == [] || RowLess(r, rows[0]) then [r] + rows
    else if rows[0] == r then rows
    else [rows[0]] + InsertRow(rows[1..], r)
  }

  function DeleteRow(rows: seq<Row>, r: Row): seq<Row> {
    if rows == [] then []
    else if rows[0] == r then DeleteRow(rows[1..], r)
    else [rows[0]] + DeleteRow(rows[1..], r)
  }

  lemma {:induction false} PutEntries(rows: seq<Row>, r: Row, types: seq<FieldType>)
    requires Indexable(rows, types) && Storable(r.values, types)
    ensures Put(Entries(rows), Entry(FullKey(r), r.id)) == Entries(InsertRow(rows, r))
  {
    hide FullKey, Storable, RowLess;
    if rows != [] {
      StorableComparable(r.values, rows[0].values, types);
      StorableComparable(rows[0].values, r.values, types);
      FullKeyOrder(r, rows[0]);
      assert Indexable(rows[1..], types);
      PutEntries(rows[1..], r, types);
      assert Entries(rows)[1..] == Entries(rows[1..]);
    }
  }

  lemma {:induction false} DeleteEntries(rows: seq<Row>, r: Row, types: seq<FieldType>)
    requires Indexable(rows, types) && Storable(r.values, types)
    ensures Delete(Entries(rows), FullKey(r)) == Entries(DeleteRow(rows, r))
  {
    hide FullKey, Storable;
    if rows != [] {
      StorableComparable(rows[0].values, r.values, types);
      FullKeyOrder(rows[0], r);
      assert Indexable(rows[1..], types);
      DeleteEntries(rows[1..], r, types);
      assert Entries(rows)[1..] == Entries(rows[1..]);
    }
  }

  lemma RowLessTransitive(a: Row, b: Row, c: Row, types: seq<FieldType>)
    requires Storable(a.values, types) && Storable(b.values, types) && Storable(c.values, types)
    requires RowLess(a, b) && RowLess(b, c)
    ensures RowLess(a, c) && a != c
  {
    StorableComparable(a.values, b.values, types);
    StorableComparable(b.values, c.values, types);
    StorableComparable(a.values, c.values, types);
    hide FullKey, Storable, RowLess, Comparable;
    FullKeyOrder(a, b);
    FullKeyOrder(b, c);
    FullKeyOrder(a, c);
    LessTransitive(FullKey(a), FullKey(b), FullKey(c));
    NotBoth(FullKey(a), FullKey(c));
  }

  lemma RowTotal(a: Row, b: Row, types: seq<FieldType>)
    requires Storable(a.values, types) && Storable(b.values, types)
    ensures RowLess(a, b) || a == b || RowLess(b, a)
  {
    StorableComparable(a.values, b.values, types);
    StorableComparable(b.values, a.values, types);
    hide FullKey, Storable, Comparable, RowLess;
    FullKeyOrder(a, b);
    FullKeyOrder(b, a);
    LessTotal(FullKey(a), FullKey(b));
  }

  /** Inserting keeps the rows sorted and adds exactly the one row. */
  lemma {:induction false} InsertRowSorted(rows: seq<Row>, r: Row, types: seq<FieldType>)
    requires Indexable(rows, types) && SortedRows(rows) && Storable(r.values, types)
    ensures Indexable(InsertRow(rows, r), types) && SortedRows(InsertRow(rows, r))
    ensures forall x :: x in InsertRow(rows, r) <==> x == r || x in rows
  {
    hide Storable, RowLess;
    var after := InsertRow(rows, r);
    if rows != [] {
      var tail := rows[1..];
      assert rows == [rows[0]] + tail;
      if RowLess(r, rows[0]) {
        forall j | 0 < j < |rows| ensures RowLess(r, rows[j]) {
          RowLessTransitive(r, rows[0], rows[j], types);
        }
        PrependSorted(r, rows, types);
      } else if rows[0] != r {
        RowTotal(r, rows[0], types);
        assert Indexable(tail, types) && SortedRows(tail);
        InsertRowSorted(tail, r, types);
        var rest := InsertRow(tail, r);
        forall j | 0 <= j < |rest| ensures RowLess(rows[0], rest[j]) {
          assert rest[j] in rest;
        }
        PrependSorted(rows[0], rest, types);
      }
    }
  }

  lemma PrependSorted(r: Row, rows: seq<Row>, types: seq<FieldType>)
    requires Indexable(rows, types) && SortedRows(rows) && Storable(r.values, types)
    requires forall j :: 0 <= j < |rows| ==> RowLess(r, rows[j])
    ensures Indexable([r] + rows, types) && SortedRows([r] + rows)
  {
    hide Storable, RowLess;
  }

  lemma {:induction false} DeleteRowSorted(rows: seq<Row>, r: Row, types: seq<FieldType>)
    requires Indexable(rows, types) && SortedRows(rows)
    ensures Indexable(DeleteRow(rows, r), types) && SortedRows(DeleteRow(rows, r))
    ensures forall x :: x in DeleteRow(rows, r) <==> x != r && x in rows
  {
    hide Storable, RowLess;
    if rows != [] {
      var tail := rows[1..];
      assert rows == [rows[0]] + tail;
      assert Indexable(tail, types) && SortedRows(tail);
      DeleteRowSorted(tail, r, types);
      var rest := DeleteRow(tail, r);
      forall j | 0 <= j < |rest| ensures RowLess(rows[0], rest[j]) {
        assert rest[j] in tail;
      }
      if rows[0] != r {
        assert Storable(rows[0].values, types);
        PrependSorted(rows[0], rest, types);
      }
    }
  }

  // ----- what the scans select -----

  /** The rows whose first `|values|` fields equal `values`, in order. */
  function Matching(rows: seq<Row>, values: seq<Value>): seq<Row> {
    if rows == [] then []
    else if LeadsWith(rows[0], values) then [rows[0]] + Matching(rows[1..], values)
    else Matching(rows[1..], values)
  }

  predicate LeadsWith(r: Row, values: seq<Value>) {
    |values| <= |r.values| && r.values[..|values|] == values
  }

  /** The rows between two tuples, both ends included, in order. */
  ghost function Between(rows: seq<Row>, from: seq<Value>, to: seq<Value>): seq<Row> {
    if rows == [] then []
    else if Within(rows[0], from, to) then [rows[0]] + Between(rows[1..], from, to)
    else Between(rows[1..], from, to)
  }

  ghost predicate Within(r: Row, from: seq<Value>, to: seq<Value>) {
    !TupleLess(r.values, from) && !TupleLess(to, r.values)
  }

  /** The filters keep exactly the rows they are for, in their order. */
  lemma {:induction false} FiltersMean(rows: seq<Row>, values: seq<Value>, from: seq<Value>, to: seq<Value>, r: Row)
    ensures r in Matching(rows, values) <==> r in rows && |values| <= |r.values| && r.values[..|values|] == values
    ensures r in Between(rows, from, to) <==> r in rows && !TupleLess(r.values, from) && !TupleLess(to, r.values)
    ensures SortedRows(rows) ==> SortedRows(Matching(rows, values)) && SortedRows(Between(rows, from, to))
  {
    hide TupleLess, RowLess;
    if rows != [] {
      FiltersMean(rows[1..], values, from, to, r);
      assert rows == [rows[0]] + rows[1..];
      if SortedRows(rows) {
        FirstLeast(rows, Matching(rows[1..], values), values, from, to);
        FirstLeast(rows, Between(rows[1..], from, to), values, from, to);
      }
    }
  }

  /** What a filter keeps of the rows behind the first stands behind it. */
  lemma FirstLeast(rows: seq<Row>, kept: seq<Row>, values: seq<Value>, from: seq<Value>, to: seq<Value>)
    requires rows != [] && SortedRows(rows) && SortedRows(kept)
    requires kept == Matching(rows[1..], values) || kept == Between(rows[1..], from, to)
    ensures SortedRows(rows[1..]) && SortedRows([rows[0]] + kept)
  {
    hide RowLess;
    KeptRows(rows[1..], values, from, to);
    forall j | 0 <= j < |kept| ensures RowLess(rows[0], kept[j]) {
      assert kept[j] in rows[1..];
      var k :| 0 <= k < |rows| - 1 && rows[1..][k] == kept[j];
      assert RowLess(rows[0], rows[k + 1]);
    }
  }

  lemma {:induction false} KeptRows(rows: seq<Row>, values: seq<Value>, from: seq<Value>, to: seq<Value>)
    ensures forall x :: x in Matching(rows, values) ==> x in rows
    ensures forall x :: x in Between(rows, from, to) ==> x in rows
  {
    hide LeadsWith, Within;
    if rows != [] { KeptRows(rows[1..], values, from, to); }
  }

  lemma {:induction false} KeySplit(values: seq<Value>, k: nat)
    requires k <= |values|
    ensures Key(values) == Key(values[..k]) + Key(values[k..])
  {
    hide EncodeValue;
    if k > 0 {
      KeySplit(values[1..], k - 1);
      assert values[..k][1..] == values[1..][..k - 1] && values[1..][k - 1..] == values[k..];
      assert EncodeValue(values[0]) + (Key(values[1..][..k - 1]) + Key(values[k..]))
        == (EncodeValue(values[0]) + Key(values[1..][..k - 1])) + Key(values[k..]);
    } else {
      assert values[0..] == values;
      assert Key(values[..0]) == [];
      assert [] + Key(values) == Key(values);
    }
  }

  lemma StorablePrefix(values: seq<Value>, types: seq<FieldType>, k: nat)
    requires Storable(values, types) && k <= |values|
    ensures Storable(values[..k], types[..k])
  {}

  /** A row's key starts with the key of some leading values exactly when those are the row's
      leading values. */
  lemma {:induction false} PrefixSelects(r: Row, values: seq<Value>, types: seq<FieldType>)
    requires Storable(r.values, types) && |values| <= |types| && Storable(values, types[..|values|])
    ensures IsPrefix(Key(values), FullKey(r)) <==> LeadsWith(r, values)
  {
    hide Key, Storable, Comparable, IsPrefix, TypedAll;
    StorableLength(r.values, types);
    var k := |values|;
    var head := r.values[..k];
    StorablePrefix(r.values, types, k);
    StorableComparable(head, values, types[..k]);
    StorableComparable(values, head, types[..k]);
    KeySplit(r.values, k);
    assert FullKey(r) == Key(head) + (Key(r.values[k..]) + ([0] + r.id));
    HeadSelects(head, values, Key(r.values[k..]) + ([0] + r.id));
  }

  lemma HeadSelects(head: seq<Value>, values: seq<Value>, rest: seq<Byte>)
    requires Comparable(head, values) && Comparable(values, head)
    ensures IsPrefix(Key(values), Key(head) + rest) <==> head == values
  {
    hide Key, Comparable, TupleLess;
    TupleTotal(head, values);
    assert Key(values) + [] == Key(values);
    if TupleLess(head, values) {
      CompoundKeyOrder(head, values);
      TupleOrder(head, values);
      DivergesExtends(Key(head), Key(values), rest, []);
      DivergesNoPrefix(Key(head) + rest, Key(values));
      LessIrreflexive(Key(head));
    } else if TupleLess(values, head) {
      CompoundKeyOrder(values, head);
      TupleOrder(values, head);
      DivergesExtends(Key(values), Key(head), [], rest);
      DivergesNoPrefix(Key(values), Key(head) + rest);
      LessIrreflexive(Key(head));
    } else {
      assert (Key(head) + rest)[..|Key(head)|] == Key(head);
    }
  }

  /** The upper bound of a range scan: the key of the last tuple followed by 65 bytes 0xFF. */
  function UpperBound(to: seq<Byte>): seq<Byte> {
    to + ([0xFF] + seq(64, _ => 0xFF))
  }

  /** The two scan bounds enclose a row's key exactly when the tuples enclose its values. */
  lemma {:induction false} RangeSelects(r: Row, from: seq<Value>, to: seq<Value>, types: seq<FieldType>)
    requires Storable(r.values, types) && Storable(from, types) && Storable(to, types)
    ensures !Less(FullKey(r), Key(from)) <==> !TupleLess(r.values, from)
    ensures !Less(UpperBound(Key(to)), FullKey(r)) <==> !TupleLess(to, r.values)
  {
    StorableComparable(r.values, from, types);
    StorableComparable(from, r.values, types);
    StorableComparable(to, r.values, types);
    StorableComparable(r.values, to, types);
    hide Key, Storable, Comparable, TupleLess;
    LowerSelects(r, from);
    UpperSelects(r, to);
  }

  lemma LowerSelects(r: Row, from: seq<Value>)
    requires Comparable(r.values, from) && Comparable(from, r.values)
    ensures Less(FullKey(r), Key(from)) <==> TupleLess(r.values, from)
  {
    hide Key, Comparable, TupleLess;
    var rest := [0] + r.id;
    TupleTotal(r.values, from);
    CompoundKeyOrder(r.values, from);
    assert Key(from) + [] == Key(from);
    if TupleLess(r.values, from) {
      TupleOrder(r.values, from);
      DivergesExtends(Key(r.values), Key(from), rest, []);
    } else if r.values == from {
      LessAfter(Key(from), rest, []);
    } else {
      TupleOrder(from, r.values);
      DivergesExtends(Key(from), Key(r.values), [], rest);
      NotBoth(Key(from), FullKey(r));
    }
  }

  lemma UpperSelects(r: Row, to: seq<Value>)
    requires Comparable(r.values, to) && Comparable(to, r.values)
    ensures Less(UpperBound(Key(to)), FullKey(r)) <==> TupleLess(to, r.values)
  {
    hide Key, Comparable, TupleLess;
    var rest, pad: seq<Byte> := [0] + r.id, [0xFF] + seq(64, _ => 0xFF);
    TupleTotal(r.values, to);
    CompoundKeyOrder(to, r.values);
    if TupleLess(to, r.values) {
      TupleOrder(to, r.values);
      DivergesExtends(Key(to), Key(r.values), pad, rest);
    } else if r.values == to {
      LessAfter(Key(to), pad, rest);
      LessIrreflexive(Key(to));
    } else {
      TupleOrder(r.values, to);
      DivergesExtends(Key(r.values), Key(to), rest, pad);
      NotBoth(FullKey(r), UpperBound(Key(to)));
    }
  }

  lemma {:induction false} ScanMatches(rows: seq<Row>, values: seq<Value>, types: seq<FieldType>)
    requires Indexable(rows, types) && |values| <= |types| && Storable(values, types[..|values|])
    ensures WithPrefix(Entries(rows), Key(values)) == Entries(Matching(rows, values))
  {
    hide FullKey, Storable, Key, IsPrefix, LeadsWith;
    if rows != [] {
      assert Storable(rows[0].values, types);
      PrefixSelects(rows[0], values, types);
      StorableLength(rows[0].values, types);
      assert Indexable(rows[1..], types);
      ScanMatches(rows[1..], values, types);
      assert Entries(rows)[1..] == Entries(rows[1..]);
    }
  }

  lemma StorableLength(values: seq<Value>, types: seq<FieldType>)
    requires Storable(values, types)
    ensures |values| == |types|
  {}

  lemma {:induction false} RangeMatches(rows: seq<Row>, from: seq<Value>, to: seq<Value>, types: seq<FieldType>)
    requires Indexable(rows, types) && Storable(from, types) && Storable(to, types)
    ensures Range(Entries(rows), Key(from), UpperBound(Key(to))) == Entries(Between(rows, from, to))
  {
    hide FullKey, UpperBound, Key, TupleLess, Less, Storable;
    if rows != [] {
      RangeSelects(rows[0], from, to, types);
      assert Indexable(rows[1..], types);
      RangeMatches(rows[1..], from, to, types);
      assert Entries(rows)[1..] == Entries(rows[1..]);
    }
  }

  // ----- the index -----

  /** What an entry list answers, in key order. */
  function IdsIn(entries: seq<Entry>): (r: seq<Id>)
    ensures |r| == |entries| && forall i :: 0 <= i < |r| ==> r[i] == entries[i].id
  {
    seq(|entries|, i requires 0 <= i < |entries| => entries[i].id)
  }

  lemma {:induction false} EntriesIds(rows: seq<Row>)
    ensures IdsIn(Entries(rows)) == Ids(rows)
  {
    hide FullKey;
    if rows != [] {
      EntriesIds(rows[1..]);
      assert IdsIn(Entries(rows)) == [rows[0].id] + IdsIn(Entries(rows[1..]));
    }
  }

  /** The entry a tuple is stored under, if it encodes. */
  function EntryOf(values: seq<Value>, types: seq<FieldType>, id: Id): Result<Entry, EncodeError> {
    match CompoundKey(values, types)
    case Ok(key) => Ok(Entry(key + ([0] + id), id))
    case err => Err(InvalidFieldType)
  }

  /** The partition holds exactly the entries of the sorted rows. */
  ghost predicate Stores(rows: seq<Row>, types: seq<FieldType>, partition: seq<Entry>) {
    Indexable(rows, types) && SortedRows(rows) && partition == Entries(rows)
  }

  lemma StorableEntry(values: seq<Value>, types: seq<FieldType>, id: Id)
    requires |values| == |types| && PlainAll(values) && EntryOf(values, types, id).Ok?
    ensures Storable(values, types)
    ensures EntryOf(values, types, id).value == Entry(FullKey(Row(values, id)), id)
  {
    hide Key, CompoundKey, Plain;
    CompoundKeyTyped(values, types);
  }

  lemma StorePut(rows: seq<Row>, types: seq<FieldType>, partition: seq<Entry>, r: Row)
    requires Stores(rows, types, partition) && Storable(r.values, types)
    ensures Stores(InsertRow(rows, r), types, Put(partition, Entry(FullKey(r), r.id)))
    ensures forall x :: x in InsertRow(rows, r) <==> x in rows || x == r
  {
    hide Storable, SortedRows, FullKey;
    PutEntries(rows, r, types);
    InsertRowSorted(rows, r, types);
  }

  lemma StoreDelete(rows: seq<Row>, types: seq<FieldType>, partition: seq<Entry>, r: Row)
    requires Stores(rows, types, partition) && Storable(r.values, types)
    ensures Stores(DeleteRow(rows, r), types, Delete(partition, FullKey(r)))
    ensures forall x :: x in DeleteRow(rows, r) <==> x in rows && x != r
  {
    hide Storable, SortedRows, FullKey;
    DeleteEntries(rows, r, types);
    DeleteRowSorted(rows, r, types);
  }

  /** A prefix scan over plain rows is the linear filter by equality on the leading values. */
  lemma {:induction false} ScanIsFilter(rows: seq<Row>, types: seq<FieldType>, partition: seq<Entry>, values: seq<Value>)
    requires Stores(rows, types, partition) && PlainAll(values) && |values| <= |types|
    ensures CompoundKey(values, types).Ok? <==> TypedAll(values, types)
    ensures TypedAll(values, types) ==>
      IdsIn(WithPrefix(partition, CompoundKey(values, types).value)) == Ids(Matching(rows, values))
  {
    hide SortedRows, Key, CompoundKey, Plain, Typed;
    CompoundKeyTyped(values, types);
    if TypedAll(values, types) {
      assert Storable(values, types[..|values|]);
      ScanMatches(rows, values, types);
      EntriesIds(Matching(rows, values));
    }
  }

  /** A range scan over plain rows is the linear filter by the inclusive range. */
  lemma {:induction false} RangeIsFilter(rows: seq<Row>, types: seq<FieldType>, partition: seq<Entry>,
                                        from: seq<Value>, to: seq<Value>)
    requires Stores(rows, types, partition) && PlainAll(from) && PlainAll(to) && |from| == |to| == |types|
    requires TypedAll(from, types) && TypedAll(to, types)
    ensures CompoundKey(from, types).Ok? && CompoundKey(to, types).Ok?
    ensures IdsIn(Range(partition, CompoundKey(from, types).value, UpperBound(CompoundKey(to, types).value)))
      == Ids(Between(rows, from, to))
  {
    hide SortedRows, Key, CompoundKey, Plain, Typed, UpperBound;
    CompoundKeyTyped(from, types);
    CompoundKeyTyped(to, types);
    RangeMatches(rows, from, to, types);
    EntriesIds(Between(rows, from, to));
  }

  class FieldIndex {
    const types: seq<FieldType>
    var partition: seq<Entry>
    /** The rows stored, as long as every update so far was a full tuple of plain values. */
    ghost var rows: seq<Row>
    ghost var plain: bool

    ghost predicate Valid()
      reads this
    {
      plain ==> Stores(rows, types, partition)
    }

    constructor (fieldTypes: seq<FieldType>)
      ensures Valid() && types == fieldTypes && plain && rows == [] && partition == []
    {
      types, partition, rows, plain := fieldTypes, [], [], true;
    }

    /** A tuple that does not encode is refused and changes nothing. */
    method Insert(id: Id, values: seq<Value>) returns (r: Result<(), EncodeError>)
      requires Valid()
      modifies this
      ensures Valid()
      ensures r == if EntryOf(values, types, id).Ok? then Ok(()) else Err(InvalidFieldType)
      ensures partition == if r.Ok? then Put(old(partition), EntryOf(values, types, id).value) else old(partition)
      ensures plain <==> old(plain) && (r.Ok? ==> |values| == |types| && PlainAll(values))
      ensures plain ==> forall x :: x in rows <==> x in old(rows) || (r.Ok? && x == Row(values, id))
    {
      hide Stores, CompoundKey, FullKey, Storable, Plain;
      var key := EncodeCompoundKey(values, types);
      if !key.Ok? {
        return Err(InvalidFieldType);
      }
      partition := Put(partition, Entry(key.value + ([0] + id), id));
      plain := plain && |values| == |types| && PlainAll(values);
      if plain {
        StorableEntry(values, types, id);
        StorePut(rows, types, old(partition), Row(values, id));
        rows := InsertRow(rows, Row(values, id));
      }
      r := Ok(());
    }

    method Remove(id: Id, values: seq<Value>) returns (r: Result<(), EncodeError>)
      requires Valid()
      modifies this
      ensures Valid()
      ensures r == if EntryOf(values, types, id).Ok? then Ok(()) else Err(InvalidFieldType)
      ensures partition == if r.Ok? then Delete(old(partition), EntryOf(values, types, id).value.key) else old(partition)
      ensures plain <==> old(plain) && (r.Ok? ==> |values| == |types| && PlainAll(values))
      ensures plain ==> forall x :: x in rows <==> x in old(rows) && !(r.Ok? && x == Row(values, id))
    {
      hide Stores, CompoundKey, FullKey, Storable, Plain;
      var key := EncodeCompoundKey(values, types);
      if !key.Ok? {
        return Err(InvalidFieldType);
      }
      partition := Delete(partition, key.value + ([0] + id));
      plain := plain && |values| == |types| && PlainAll(values);
      if plain {
        StorableEntry(values, types, id);
        StoreDelete(rows, types, old(partition), Row(values, id));
        rows := DeleteRow(rows, Row(values, id));
      }
      r := Ok(());
    }

    /** On plain values, exactly the ids a linear filter by equality returns. */
    method LookupEq(values: seq<Value>) returns (r: Result<seq<Id>, EncodeError>)
      requires Valid()
      ensures |values| != |types| ==> r == Err(InvalidQuery)
      ensures |values| == |types| ==> r == match CompoundKey(values, types)
        case Ok(prefix) => Ok(IdsIn(WithPrefix(partition, prefix)))
        case _ => Err(InvalidFieldType)
      ensures |values| == |types| && plain && PlainAll(values) ==>
        r == if TypedAll(values, types) then Ok(Ids(Matching(rows, values))) else Err(InvalidFieldType)
    {
      if |values| != |types| {
        return Err(InvalidQuery);
      }
      r := LookupPrefix(values);
    }

    /** Values beyond the declared fields are ignored. */
    method LookupPrefix(values: seq<Value>) returns (r: Result<seq<Id>, EncodeError>)
      requires Valid()
      ensures r == match CompoundKey(values, types)
        case Ok(prefix) => Ok(IdsIn(WithPrefix(partition, prefix)))
        case _ => Err(InvalidFieldType)
      ensures |values| <= |types| && plain && PlainAll(values) ==>
        r == if TypedAll(values, types) then Ok(Ids(Matching(rows, values))) else Err(InvalidFieldType)
    {
      hide Stores, CompoundKey, Plain, TypedAll;
      if |values| <= |types| && plain && PlainAll(values) {
        ScanIsFilter(rows, types, partition, values);
      }
      PrefixTypes(values, types);
      var prefix := EncodeCompoundKey(values, types[..if |values| < |types| then |values| else |types|]);
      if !prefix.Ok? {
        return Err(InvalidFieldType);
      }
      var ids := CollectIds(WithPrefix(partition, prefix.value));
      r := Ok(ids);
    }

    /** On full tuples of plain values, exactly the ids a linear filter by the inclusive range
        returns, in value order. */
    method LookupRange(from: seq<Value>, to: seq<Value>) returns (r: Result<seq<Id>, EncodeError>)
      requires Valid()
      ensures r == match (CompoundKey(from, types), CompoundKey(to, types))
        case (Ok(low), Ok(high)) => Ok(IdsIn(Range(partition, low, UpperBound(high))))
        case _ => Err(InvalidFieldType)
      ensures (plain && PlainAll(from) && PlainAll(to) && |from| == |to| == |types|
               && TypedAll(from, types) && TypedAll(to, types)) ==>
        r == Ok(Ids(Between(rows, from, to)))
    {
      hide Stores, CompoundKey, Plain, TypedAll, UpperBound, Range;
      if plain && PlainAll(from) && PlainAll(to) && |from| == |to| == |types| && TypedAll(from, types) && TypedAll(to, types) {
        RangeIsFilter(rows, types, partition, from, to);
      }
      var fromKey := EncodeCompoundKey(from, types);
      if !fromKey.Ok? {
        return Err(InvalidFieldType);
      }
      var toKey := EncodeCompoundKey(to, types);
      if !toKey.Ok? {
        return Err(InvalidFieldType);
      }
      var ids := CollectIds(Range(partition, fromKey.value, UpperBound(toKey.value)));
      r := Ok(ids);
    }
  }

  /** Only the first types that pair with a value matter. */
  lemma {:induction false} PrefixTypes(values: seq<Value>, types: seq<FieldType>)
    ensures CompoundKey(values, types[..if |values| < |types| then |values| else |types|]) == CompoundKey(values, types)
  {
    hide EncodeValue, Typed;
    if values != [] && types != [] {
      PrefixTypes(values[1..], types[1..]);
      var n := if |values| < |types| then |values| else |types|;
      assert types[..n][1..] == types[1..][..n - 1];
    }
  }

  method CollectIds(entries: seq<Entry>) returns (ids: seq<Id>)
    ensures ids == IdsIn(entries)
  {
    ids := [];
    for i := 0 to |entries|
      invariant |ids| == i && forall k :: 0 <= k < i ==> ids[k] == entries[k].id
    {
      ids := ids + [entries[i].id];
    }
  }
}
