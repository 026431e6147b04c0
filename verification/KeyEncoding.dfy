/** Sortable byte encodings of field values and compound keys. */
module KeyEncoding {
  import opened Basics
  import opened ByteOrder

  /** A Unicode scalar value. */
  type Scalar = c: int | 0 <= c < 0x110000 && !(0xD800 <= c < 0xE000)

  type Int64 = n: int | -0x8000_0000_0000_0000 <= n < 0x8000_0000_0000_0000

  type Bits64 = n: int | 0 <= n < 0x1_0000_0000_0000_0000

  const SIGN: int := 0x8000_0000_0000_0000

  datatype Value = String(s: seq<Scalar>) | Int(n: Int64) | Float(bits: Bits64) | Bool(b: bool) | Null

  datatype FieldType = Text | DateTime | BoolField | IntField | FloatField | EntityRef(collection: seq<Scalar>)

  datatype EncodeError = InvalidFieldType | InvalidQuery

  predicate Typed(v: Value, ft: FieldType) {
    match v
    case String(_) => ft.Text? || ft.EntityRef? || ft.DateTime?
    case Bool(_) => ft.BoolField?
    case Int(_) => ft.IntField?
    case Float(_) => ft.FloatField?
    case Null => false
  }

  /** Which kind of value each field type takes: text for three of them, never null. */
  lemma TypeAccepts(v: Value, ft: FieldType)
    ensures ft == Text || ft == DateTime || ft.EntityRef? ==> (Typed(v, ft) <==> v.String?)
    ensures ft == BoolField ==> (Typed(v, ft) <==> v.Bool?)
    ensures ft == IntField ==> (Typed(v, ft) <==> v.Int?)
    ensures ft == FloatField ==> (Typed(v, ft) <==> v.Float?)
  {}

  // ----- encodings -----

  /** UTF-8, section 3 of RFC 3629. */
  function Utf8(c: Scalar): seq<Byte> {
    if c < 0x80 then [c]
    else if c < 0x800 then [0xC0 + c / 64, 0x80 + c % 64]
    else if c < 0x10000 then [0xE0 + c / 4096, 0x80 + c / 64 % 64, 0x80 + c % 64]
    else [0xF0 + c / 262144, 0x80 + c / 4096 % 64, 0x80 + c / 64 % 64, 0x80 + c % 64]
  }

  function TextBytes(s: seq<Scalar>): seq<Byte> {
    if s == [] then [0] else Utf8(s[0]) + TextBytes(s[1..])
  }

  function FlipSign(bits: Bits64): Bits64 {
    if bits < SIGN then bits + SIGN else bits - SIGN
  }

  // Section 3.4 of IEEE 754-2019: sign, 11 exponent bits, 52 fraction bits.

  predicate SignBit(bits: Bits64) { bits >= SIGN }

  function Magnitude(bits: Bits64): (m: nat)
    ensures m < 0x8000_0000_0000_0000
  {
    if SignBit(bits) then bits - SIGN else bits
  }

  predicate IsNaN(bits: Bits64) { Magnitude(bits) > 0x7FF0_0000_0000_0000 }

  predicate IsNegativeZero(bits: Bits64) { bits == SIGN }

  /** `f >= 0.0`: true for negative zero, false for NaN. */
  predicate AtLeastZero(bits: Bits64) {
    !IsNaN(bits) && (!SignBit(bits) || Magnitude(bits) == 0)
  }

  function SortableFloat(bits: Bits64): Bits64 {
    if AtLeastZero(bits) then FlipSign(bits) else 0xFFFF_FFFF_FFFF_FFFF - bits
  }

  function EncodeValue(v: Value): seq<Byte> {
    match v
    case Null => []
    case String(s) => TextBytes(s)
    case Bool(b) => [if b then 1 else 0]
    case Int(n) => BigEndian(8, n + SIGN)
    case Float(bits) => BigEndian(8, SortableFloat(bits))
  }

  function EncodeSortable(v: Value, ft: FieldType): Result<seq<Byte>, EncodeError> {
    if Typed(v, ft) then Ok(EncodeValue(v)) else Err(InvalidFieldType)
  }

  // ----- the order of values -----

  /** Lexicographic by code point. */
  predicate TextLess(s: seq<Scalar>, t: seq<Scalar>) {
    t != [] && (s == [] || s[0] < t[0] || (s[0] == t[0] && TextLess(s[1..], t[1..])))
  }

  ghost function Pow2(k: nat): nat {
    if k == 0 then 1 else 2 * Pow2(k - 1)
  }

  const HIDDEN: nat := 0x10_0000_0000_0000

  /** The absolute value in units of 2 to the power -1074; infinity comes out above every
      finite value. */
  ghost function Units(m: nat): nat {
    var e, f := m / HIDDEN, m % HIDDEN;
    if e == 0 then f else (HIDDEN + f) * Pow2(e - 1)
  }

  ghost function FloatValue(bits: Bits64): int {
    if SignBit(bits) then -(Units(Magnitude(bits)) as int) else Units(Magnitude(bits))
  }

  ghost predicate ValueLess(a: Value, b: Value) {
    match (a, b)
    case (String(s), String(t)) => TextLess(s, t)
    case (Bool(p), Bool(q)) => !p && q
    case (Int(m), Int(n)) => m < n
    case (Float(x), Float(y)) => FloatValue(x) < FloatValue(y)
    case _ => false
  }

  /** Text without NUL; floats other than NaN and negative zero. */
  predicate Plain(v: Value) {
    match v
    case String(s) => forall i :: 0 <= i < |s| ==> s[i] != 0
    case Float(bits) => !IsNaN(bits) && !IsNegativeZero(bits)
    case Null => false
    case _ => true
  }

  /** NaN has all exponent bits and some fraction bit set. */
  lemma NaNIs(bits: Bits64)
    ensures IsNaN(bits) <==> bits / HIDDEN % 2048 == 2047 && bits % HIDDEN != 0
  {}

  /** What is left out: text with NUL, NaN, negative zero, null. */
  lemma PlainIff(v: Value)
    ensures v.String? ==> (Plain(v) <==> 0 !in v.s)
    ensures v.Float? ==> (Plain(v) <==> !IsNaN(v.bits) && v.bits != 0x8000_0000_0000_0000)
    ensures v.Int? || v.Bool? ==> Plain(v)
    ensures v.Null? ==> !Plain(v)
  {}

  lemma PlainAllIff(values: seq<Value>)
    ensures PlainAll(values) <==> forall v :: v in values ==> Plain(v)
  {
    hide Plain;
    if forall v :: v in values ==> Plain(v) {
      forall i | 0 <= i < |values| ensures Plain(values[i]) {
        assert values[i] in values;
      }
    }
  }

  ghost predicate SameKind(a: Value, b: Value) {
    (a.String? && b.String?) || (a.Bool? && b.Bool?) || (a.Int? && b.Int?) || (a.Float? && b.Float?)
  }

  // ----- text -----

  lemma Utf8Order(c: Scalar, d: Scalar)
    requires c < d
    ensures Diverges(Utf8(c), Utf8(d))
  {
    var a, b := Utf8(c), Utf8(d);
    if |a| != |b| || a[0] != b[0] {
      assert DivergesAt(a, b, 0);
    } else if |a| == 2 {
      assert DivergesAt(a, b, 1);
    } else if |a| == 3 {
      Digits3(c, d);
      assert DivergesAt(a, b, if a[1] < b[1] then 1 else 2);
    } else {
      Digits4(c, d);
      assert DivergesAt(a, b, if a[1] < b[1] then 1 else if a[2] < b[2] then 2 else 3);
    }
  }

  lemma Digits3(c: nat, d: nat)
    requires c < d && c / 4096 == d / 4096
    ensures c / 64 % 64 < d / 64 % 64 || (c / 64 % 64 == d / 64 % 64 && c % 64 < d % 64)
  {
    assert c / 4096 == c / 64 / 64 && d / 4096 == d / 64 / 64;
  }

  lemma Digits4(c: nat, d: nat)
    requires c < d && c / 262144 == d / 262144
    ensures c / 4096 % 64 < d / 4096 % 64 || (c / 4096 % 64 == d / 4096 % 64
      && (c / 64 % 64 < d / 64 % 64 || (c / 64 % 64 == d / 64 % 64 && c % 64 < d % 64)))
  {
    assert c / 262144 == c / 4096 / 64 && d / 262144 == d / 4096 / 64;
    if c / 4096 == d / 4096 {
      Digits3(c, d);
    }
  }

  lemma Utf8First(c: Scalar)
    ensures Utf8(c) != [] && (Utf8(c)[0] == 0 <==> c == 0)
  {}

  lemma {:induction false} TextOrder(s: seq<Scalar>, t: seq<Scalar>)
    requires TextLess(s, t) && forall i :: 0 <= i < |t| ==> t[i] != 0
    ensures Diverges(TextBytes(s), TextBytes(t))
  {
    hide Utf8;
    Utf8First(t[0]);
    if s == [] {
      assert DivergesAt(TextBytes(s), TextBytes(t), 0);
    } else if s[0] < t[0] {
      Utf8Order(s[0], t[0]);
      DivergesExtends(Utf8(s[0]), Utf8(t[0]), TextBytes(s[1..]), TextBytes(t[1..]));
    } else {
      TextOrder(s[1..], t[1..]);
      DivergesAfter(Utf8(s[0]), TextBytes(s[1..]), TextBytes(t[1..]));
    }
  }

  lemma {:induction false} TextTotal(s: seq<Scalar>, t: seq<Scalar>)
    ensures TextLess(s, t) || s == t || TextLess(t, s)
  {
    if s != [] && t != [] && s[0] == t[0] {
      TextTotal(s[1..], t[1..]);
      assert s == [s[0]] + s[1..] && t == [t[0]] + t[1..];
    }
  }

  lemma DivergesNoPrefix(a: seq<Byte>, b: seq<Byte>)
    requires Diverges(a, b)
    ensures !IsPrefix(a, b) && !IsPrefix(b, a) && a != b
  {
    var k: nat :| DivergesAt(a, b, k);
  }

  /** Why NUL has to stay out: the key of one text is a prefix of the key of another exactly
      when the texts are equal or the second continues the first with a NUL. */
  lemma {:induction false} TextPrefixIff(s: seq<Scalar>, t: seq<Scalar>)
    ensures IsPrefix(TextBytes(s), TextBytes(t)) <==>
      s == t || (|s| < |t| && t[..|s|] == s && t[|s|] == 0)
  {
    hide Utf8;
    var a, b := TextBytes(s), TextBytes(t);
    if s == [] {
      if t != [] {
        Utf8First(t[0]);
        assert b[..1] == [Utf8(t[0])[0]];
      }
    } else if t == [] {
      Utf8First(s[0]);
      TextBytesNonempty(s[1..]);
    } else if s[0] == t[0] {
      TextPrefixIff(s[1..], t[1..]);
      PrefixAfter(Utf8(s[0]), TextBytes(s[1..]), TextBytes(t[1..]));
      assert s == [s[0]] + s[1..] && t == [t[0]] + t[1..];
      if |s| < |t| {
        assert t[..|s|] == [t[0]] + t[1..][..|s| - 1];
      }
    } else if s[0] < t[0] {
      Utf8Order(s[0], t[0]);
      DivergesExtends(Utf8(s[0]), Utf8(t[0]), TextBytes(s[1..]), TextBytes(t[1..]));
      DivergesNoPrefix(a, b);
      assert |s| < |t| ==> t[..|s|][0] != s[0];
    } else {
      Utf8Order(t[0], s[0]);
      DivergesExtends(Utf8(t[0]), Utf8(s[0]), TextBytes(t[1..]), TextBytes(s[1..]));
      DivergesNoPrefix(b, a);
      assert |s| < |t| ==> t[..|s|][0] != s[0];
    }
  }

  lemma TextBytesNonempty(s: seq<Scalar>)
    ensures TextBytes(s) != []
  {
    if s != [] { Utf8First(s[0]); }
  }

  lemma PrefixAfter(p: seq<Byte>, a: seq<Byte>, b: seq<Byte>)
    ensures IsPrefix(p + a, p + b) <==> IsPrefix(a, b)
  {
    if IsPrefix(a, b) {
      assert (p + b)[..|p + a|] == p + b[..|a|];
    }
    if IsPrefix(p + a, p + b) {
      assert b[..|a|] == (p + b)[..|p + a|][|p|..];
      assert a == (p + a)[|p|..];
    }
  }

  // ----- floats -----

  lemma {:induction false} Pow2Grows(i: nat, j: nat)
    requires i <= j
    ensures 0 < Pow2(i) <= Pow2(j)
  {
    if i < j {
      Pow2Grows(i, j - 1);
    } else if i > 0 {
      Pow2Grows(i - 1, i - 1);
    }
  }

  lemma ScaledLess(a: nat, b: nat, p: nat)
    requires a < b && p > 0
    ensures a * p < b * p
  {}

  lemma ScaledAtMost(h: nat, f: nat, p: nat, q: nat)
    requires p <= q
    ensures h * p <= (h + f) * q
  {
    assert (h + f) * q == h * q + f * q;
    assert h * q == h * p + h * (q - p);
  }

  lemma UnitsOrder(m: nat, n: nat)
    requires m < n
    ensures Units(m) < Units(n)
  {
    var e, f, d, g := m / HIDDEN, m % HIDDEN, n / HIDDEN, n % HIDDEN;
    if e == d {
      if e > 0 {
        Pow2Grows(e - 1, e - 1);
        ScaledLess(HIDDEN + f, HIDDEN + g, Pow2(e - 1));
      }
    } else if e == 0 {
      Pow2Grows(0, d - 1);
      ScaledAtMost(HIDDEN, g, 1, Pow2(d - 1));
    } else {
      Pow2Grows(e - 1, e - 1);
      Pow2Grows(e, d - 1);
      ScaledLess(HIDDEN + f, 2 * HIDDEN, Pow2(e - 1));
      ScaledAtMost(HIDDEN, g, Pow2(e), Pow2(d - 1));
      assert 2 * HIDDEN * Pow2(e - 1) == HIDDEN * Pow2(e);
    }
  }

  /** What a magnitude counts: itself while its exponent field is at most one, and twice as much
      with each further exponent. */
  lemma UnitsDouble(m: nat)
    ensures m < 2 * HIDDEN ==> Units(m) == m
    ensures m >= HIDDEN ==> Units(m + HIDDEN) == 2 * Units(m)
  {
    if m >= HIDDEN {
      var e, f := m / HIDDEN, m % HIDDEN;
      assert (m + HIDDEN) / HIDDEN == e + 1 && (m + HIDDEN) % HIDDEN == f;
      assert Pow2(e) == 2 * Pow2(e - 1);
      Twice(HIDDEN + f, Pow2(e - 1));
    }
  }

  lemma Twice(a: nat, b: nat)
    ensures a * (2 * b) == 2 * (a * b)
  {}

  lemma UnitsZero()
    ensures Units(0) == 0
  {}

  lemma UnitsSign(bits: Bits64)
    ensures FloatValue(bits) == 0 <==> Magnitude(bits) == 0
    ensures FloatValue(bits) < 0 <==> SignBit(bits) && Magnitude(bits) > 0
  {
    UnitsZero();
    if Magnitude(bits) > 0 {
      UnitsOrder(0, Magnitude(bits));
    }
  }

  lemma FloatOrder(x: Bits64, y: Bits64)
    requires !IsNaN(x) && !IsNaN(y)
    requires FloatValue(x) < FloatValue(y)
    ensures IsNegativeZero(y) || SortableFloat(x) < SortableFloat(y)
  {
    hide Units;
    UnitsSign(x);
    UnitsSign(y);
    if SignBit(x) && SignBit(y) && Magnitude(x) <= Magnitude(y) {
      if Magnitude(x) < Magnitude(y) { UnitsOrder(Magnitude(x), Magnitude(y)); }
    }
    if !SignBit(x) && !SignBit(y) && Magnitude(y) <= Magnitude(x) {
      if Magnitude(y) < Magnitude(x) { UnitsOrder(Magnitude(y), Magnitude(x)); }
    }
  }

  /** The encoded bytes order two floats as their values do, exactly when neither is a
      negative zero facing another value that is not above zero: negative zero encodes below
      everything, negative numbers and zero included. */
  lemma {:induction false} FloatOrderExact(x: Bits64, y: Bits64)
    requires !IsNaN(x) && !IsNaN(y)
    ensures ((SortableFloat(x) < SortableFloat(y) <==> FloatValue(x) < FloatValue(y))
        && (SortableFloat(y) < SortableFloat(x) <==> FloatValue(y) < FloatValue(x)))
      <==> x == y || !((IsNegativeZero(x) && FloatValue(y) <= 0) || (IsNegativeZero(y) && FloatValue(x) <= 0))
  {
    hide Units;
    UnitsSign(x);
    UnitsSign(y);
    if FloatValue(x) < FloatValue(y) {
      FloatOrder(x, y);
    } else if FloatValue(y) < FloatValue(x) {
      FloatOrder(y, x);
    } else {
      SameValue(x, y);
    }
  }

  lemma SameValue(x: Bits64, y: Bits64)
    requires FloatValue(x) == FloatValue(y)
    ensures Magnitude(x) == Magnitude(y)
    ensures SignBit(x) == SignBit(y) || Magnitude(x) == 0
  {
    UnitsSign(x);
    UnitsSign(y);
    if Magnitude(x) < Magnitude(y) { UnitsOrder(Magnitude(x), Magnitude(y)); }
    if Magnitude(y) < Magnitude(x) { UnitsOrder(Magnitude(y), Magnitude(x)); }
  }

  // ----- single values -----

  lemma NumberOrder(m: nat, n: nat)
    requires m < n < 0x1_0000_0000_0000_0000
    ensures Diverges(BigEndian(8, m), BigEndian(8, n))
  {
    Pow256Of8();
    BigEndianOrder(8, m, n);
  }

  /** Smaller values encode to bytes that are smaller at the first difference. */
  lemma ValueOrder(a: Value, b: Value)
    requires Plain(a) && Plain(b) && ValueLess(a, b)
    ensures Diverges(EncodeValue(a), EncodeValue(b))
  {
    hide TextBytes, Units, BigEndian;
    match (a, b) {
      case (String(s), String(t)) => TextOrder(s, t);
      case (Bool(_), Bool(_)) => assert DivergesAt([0], [1], 0);
      case (Int(m), Int(n)) => NumberOrder(m + SIGN, n + SIGN);
      case (Float(x), Float(y)) =>
        FloatOrder(x, y);
        NumberOrder(SortableFloat(x), SortableFloat(y));
    }
  }

  lemma ValueTotal(a: Value, b: Value)
    requires Plain(a) && Plain(b) && SameKind(a, b)
    ensures ValueLess(a, b) || a == b || ValueLess(b, a)
  {
    match (a, b) {
      case (String(s), String(t)) => TextTotal(s, t);
      case (Float(x), Float(y)) =>
        if FloatValue(x) == FloatValue(y) {
          SameValue(x, y);
        }
      case _ =>
    }
  }

  // ----- compound keys -----

  function CompoundKey(values: seq<Value>, types: seq<FieldType>): Result<seq<Byte>, EncodeError> {
    if values == [] || types == [] then Ok([])
    else if !Typed(values[0], types[0]) then Err(InvalidFieldType)
    else
      match CompoundKey(values[1..], types[1..])
      case Ok(rest) => Ok(EncodeValue(values[0]) + rest)
      case err => err
  }

  /** The loop over the paired values and types; it stops at the first mistyped value. */
  method EncodeCompoundKey(values: seq<Value>, types: seq<FieldType>) returns (r: Result<seq<Byte>, EncodeError>)
    ensures r == CompoundKey(values, types)
  {
    hide EncodeValue, Typed;
    var key: seq<Byte> := [];
    var n := if |values| <= |types| then |values| else |types|;
    assert values[0..] == values && types[0..] == types;
    ghost var all := CompoundKey(values, types);
    assert all.Ok? ==> key + all.value == all.value;
    for i := 0 to n
      invariant CompoundKey(values, types) == Prepend(key, CompoundKey(values[i..], types[i..]))
    {
      assert values[i..][1..] == values[i + 1..] && types[i..][1..] == types[i + 1..];
      var encoded := EncodeSortable(values[i], types[i]);
      if !encoded.Ok? {
        return Err(InvalidFieldType);
      }
      ghost var rest := CompoundKey(values[i + 1..], types[i + 1..]);
      assert rest.Ok? ==> key + (encoded.value + rest.value) == (key + encoded.value) + rest.value;
      key := key + encoded.value;
    }
    assert key + [] == key;
    r := Ok(key);
  }

  ghost function Prepend(key: seq<Byte>, r: Result<seq<Byte>, EncodeError>): Result<seq<Byte>, EncodeError> {
    match r
    case Ok(rest) => Ok(key + rest)
    case err => err
  }

  ghost predicate TypedAll(values: seq<Value>, types: seq<FieldType>) {
    |values| <= |types| && forall i :: 0 <= i < |values| ==> Typed(values[i], types[i])
  }

  predicate PlainAll(values: seq<Value>) {
    forall i :: 0 <= i < |values| ==> Plain(values[i])
  }

  /** The bytes of a tuple of typed values. */
  function Key(values: seq<Value>): seq<Byte> {
    if values == [] then [] else EncodeValue(values[0]) + Key(values[1..])
  }

  lemma {:induction false} CompoundKeyTyped(values: seq<Value>, types: seq<FieldType>)
    requires |values| <= |types|
    ensures CompoundKey(values, types).Ok? <==> TypedAll(values, types)
    ensures CompoundKey(values, types) == if TypedAll(values, types) then Ok(Key(values)) else Err(InvalidFieldType)
  {
    hide EncodeValue;
    if values != [] {
      CompoundKeyTyped(values[1..], types[1..]);
      if TypedAll(values[1..], types[1..]) && Typed(values[0], types[0]) {
        forall i | 0 <= i < |values| ensures Typed(values[i], types[i]) {
          if i > 0 { assert Typed(values[1..][i - 1], types[1..][i - 1]); }
        }
      }
      if TypedAll(values, types) {
        forall i | 0 <= i < |values| - 1 ensures Typed(values[1..][i], types[1..][i]) {
          assert Typed(values[i + 1], types[i + 1]);
        }
      }
    }
  }

  /** Lexicographic, for tuples of one length. */
  ghost predicate TupleLess(a: seq<Value>, b: seq<Value>) {
    a != [] && b != [] && (ValueLess(a[0], b[0]) || (a[0] == b[0] && TupleLess(a[1..], b[1..])))
  }

  ghost predicate Comparable(a: seq<Value>, b: seq<Value>) {
    |a| == |b| && PlainAll(a) && PlainAll(b) && forall i :: 0 <= i < |a| ==> SameKind(a[i], b[i])
  }

  lemma ComparableSymmetric(a: seq<Value>, b: seq<Value>)
    requires Comparable(a, b)
    ensures Comparable(b, a)
  {
    forall i | 0 <= i < |b| ensures SameKind(b[i], a[i]) {
      assert SameKind(a[i], b[i]);
    }
  }

  lemma ComparableTail(a: seq<Value>, b: seq<Value>)
    requires Comparable(a, b) && a != []
    ensures Comparable(a[1..], b[1..]) && Plain(a[0]) && Plain(b[0]) && SameKind(a[0], b[0])
  {}

  lemma {:induction false} TupleOrder(a: seq<Value>, b: seq<Value>)
    requires Comparable(a, b) && TupleLess(a, b)
    ensures Diverges(Key(a), Key(b))
  {
    hide Plain, SameKind, ValueLess, EncodeValue;
    ComparableTail(a, b);
    if ValueLess(a[0], b[0]) {
      ValueOrder(a[0], b[0]);
      DivergesExtends(EncodeValue(a[0]), EncodeValue(b[0]), Key(a[1..]), Key(b[1..]));
    } else {
      TupleOrder(a[1..], b[1..]);
      DivergesAfter(EncodeValue(a[0]), Key(a[1..]), Key(b[1..]));
    }
  }

  lemma {:induction false} TupleTotal(a: seq<Value>, b: seq<Value>)
    requires Comparable(a, b)
    ensures TupleLess(a, b) || a == b || TupleLess(b, a)
  {
    hide Plain, SameKind, ValueLess;
    if a != [] {
      ComparableTail(a, b);
      ValueTotal(a[0], b[0]);
      TupleTotal(a[1..], b[1..]);
      assert a == [a[0]] + a[1..] && b == [b[0]] + b[1..];
    }
  }

  /** Compound keys compare bytewise exactly as the tuples of values compare, distinct tuples
      have distinct keys, and no key is a proper prefix of another. */
  lemma {:induction false} CompoundKeyOrder(a: seq<Value>, b: seq<Value>)
    requires Comparable(a, b)
    ensures Less(Key(a), Key(b)) <==> TupleLess(a, b)
    ensures Key(a) == Key(b) <==> a == b
    ensures IsPrefix(Key(a), Key(b)) ==> a == b
  {
    hide Plain, SameKind, ValueLess, EncodeValue, Key;
    ComparableSymmetric(a, b);
    TupleTotal(a, b);
    LessIffDiverges(Key(a), Key(b));
    if TupleLess(a, b) {
      TupleOrder(a, b);
      DivergesNoPrefix(Key(a), Key(b));
    } else if TupleLess(b, a) {
      TupleOrder(b, a);
      DivergesNoPrefix(Key(b), Key(a));
      LessIffDiverges(Key(b), Key(a));
      if Less(Key(a), Key(b)) {
        LessTransitive(Key(a), Key(b), Key(a));
        LessIrreflexive(Key(a));
      }
    } else {
      LessIrreflexive(Key(a));
      if TupleLess(a, b) { DivergesNoPrefix(Key(a), Key(b)); }
    }
  }
}
