/** Int8 scalar quantisation of the warm tier and sign-bit quantisation of the archive tier. */
module Int8 {
  import opened BitPacking

  /** `f32::EPSILON`, two to the power -23. */
  const EPSILON: real := 1.0 / 8388608.0

  datatype QuantisedInt8 = QuantisedInt8(min: real, max: real, data: seq<int>)

  function Min(v: seq<real>): (m: real)
    requires v != []
    ensures m in v && forall i :: 0 <= i < |v| ==> m <= v[i]
  {
    if |v| == 1 then v[0]
    else
      var rest := Min(v[1..]);
      assert v[1..][|v| - 2] == v[|v| - 1];
      assert forall i :: 1 <= i < |v| ==> v[i] == v[1..][i - 1];
      if v[0] <= rest then v[0] else rest
  }

  function Max(v: seq<real>): (m: real)
    requires v != []
    ensures m in v && forall i :: 0 <= i < |v| ==> v[i] <= m
  {
    if |v| == 1 then v[0]
    else
      var rest := Max(v[1..]);
      assert forall i :: 1 <= i < |v| ==> v[i] == v[1..][i - 1];
      if v[0] >= rest then v[0] else rest
  }

  lemma MinMaxUnique(v: seq<real>, lo: real, hi: real)
    requires v != [] && lo in v && hi in v
    requires forall i :: 0 <= i < |v| ==> lo <= v[i] <= hi
    ensures Min(v) == lo && Max(v) == hi
  {}

  /** Rust rounds halves away from zero; the argument is never negative here. */
  function Round(x: real): int {
    if x >= 0.0 then (x + 0.5).Floor else -((0.5 - x).Floor)
  }

  function Clamp255(n: int): int {
    if n < 0 then 0 else if n > 255 then 255 else n
  }

  /** The nearest integer, halves away from zero, kept within a byte. */
  lemma RoundClamp(x: real)
    ensures x >= 0.0 ==> x - 0.5 < Round(x) as real <= x + 0.5
    ensures Round(-x) == -Round(x)
    ensures var c := Clamp255(Round(x)); 0 <= c <= 255 && (Round(x) < 0 ==> c == 0) && (Round(x) > 255 ==> c == 255)
    ensures 0 <= Round(x) <= 255 ==> Clamp255(Round(x)) == Round(x)
  {}

  function Scaled(x: real, scale: real): real {
    x * scale
  }

  function Code(v: real, min: real, max: real): int
    requires max > min
  {
    Clamp255(Round(Scaled(v - min, 255.0 / (max - min))))
  }

  function Level(code: int, min: real, max: real): real {
    code as real / 255.0 * (max - min) + min
  }

  function QuantiseInt8(v: seq<real>): QuantisedInt8 {
    if v == [] then QuantisedInt8(0.0, 0.0, [])
    else
      var min, max := Min(v), Max(v);
      if max - min < EPSILON then QuantisedInt8(min, max, seq(|v|, _ => 0))
      else QuantisedInt8(min, max, seq(|v|, i requires 0 <= i < |v| => Code(v[i], min, max)))
  }

  function Abs(x: real): real {
    if x >= 0.0 then x else -x
  }

  function DequantiseInt8(q: QuantisedInt8): seq<real> {
    if q.data == [] then []
    else if Abs(q.max - q.min) < EPSILON then seq(|q.data|, _ => q.min)
    else seq(|q.data|, i requires 0 <= i < |q.data| => Level(q.data[i], q.min, q.max))
  }

  // ----- one coordinate, with width = max - min and step = width / 255 -----

  lemma Reciprocal(width: real, step: real) returns (k: real)
    requires width > 0.0 && step * 255.0 == width
    ensures k == 255.0 / width && k > 0.0 && k * width == 255.0 && k * step == 1.0
  {
    k := 255.0 / width;
    assert k * (step * 255.0) == 255.0 * (k * step);
  }

  lemma CodeOfOffset(x: real, k: real, width: real, step: real)
    requires k > 0.0 && k * width == 255.0 && k * step == 1.0 && 0.0 <= x <= width
    ensures 0.0 <= x * k <= 255.0 && (x * k) * step == x
  {
    assert (x * k) * step == x * (k * step);
    assert 0.0 <= (width - x) * k == width * k - x * k;
  }

  lemma RoundNear(y: real)
    requires 0.0 <= y <= 255.0
    ensures 0 <= Clamp255(Round(y)) <= 255
    ensures -0.5 <= Clamp255(Round(y)) as real - y <= 0.5
  {}

  lemma RoundExact(c: int)
    requires 0 <= c <= 255
    ensures Clamp255(Round(c as real)) == c
  {}

  lemma HalfStep(y: real, c: int, step: real)
    requires step > 0.0 && -0.5 <= c as real - y <= 0.5
    ensures -0.5 * step <= c as real * step - y * step <= 0.5 * step
  {}

  lemma LevelByStep(c: int, min: real, max: real, step: real)
    requires step * 255.0 == max - min
    ensures Level(c, min, max) == c as real * step + min
  {
    assert c as real / 255.0 * (step * 255.0) == c as real * step;
  }

  lemma CodeError(v: real, min: real, max: real)
    requires min < max && min <= v <= max
    ensures 0 <= Code(v, min, max) <= 255
    ensures Abs(Level(Code(v, min, max), min, max) - v) <= (max - min) / 510.0
  {
    var width := max - min;
    var step := width / 255.0;
    var k := Reciprocal(width, step);
    CodeOfOffset(v - min, k, width, step);
    var y := Scaled(v - min, k);
    RoundNear(y);
    var c := Code(v, min, max);
    HalfStep(y, c, step);
    LevelByStep(c, min, max, step);
  }

  lemma CodeOfLevel(c: int, min: real, max: real)
    requires min < max && 0 <= c <= 255
    ensures min <= Level(c, min, max) <= max
    ensures Code(Level(c, min, max), min, max) == c
  {
    var width := max - min;
    var step := width / 255.0;
    LevelByStep(c, min, max, step);
    var k := Reciprocal(width, step);
    LevelWithin(c, step);
    var x := c as real * step;
    CodeOfOffset(x, k, width, step);
    assert Scaled(x, k) == x * k;
    Cancel(x * k, c as real, step);
    RoundExact(c);
    hide Round, Clamp255, Level;
    assert Level(c, min, max) - min == x;
  }

  lemma LevelWithin(c: int, step: real)
    requires step > 0.0 && 0 <= c <= 255
    ensures 0.0 <= c as real * step <= 255.0 * step
  {}

  lemma Cancel(y: real, c: real, step: real)
    requires step > 0.0 && y * step == c * step
    ensures y == c
  {}

  lemma LevelEnds(min: real, max: real)
    ensures Level(0, min, max) == min && Level(255, min, max) == max
  {}

  lemma CodeEnds(min: real, max: real)
    requires min < max
    ensures Code(min, min, max) == 0 && Code(max, min, max) == 255
  {
    LevelEnds(min, max);
    CodeOfLevel(0, min, max);
    CodeOfLevel(255, min, max);
  }

  // ----- whole vectors -----

  /** A vector whose spread is at least 2 to the -23 comes back within half a step, which is its
      spread over 510, in every coordinate; a flatter one comes back as its least value. */
  lemma ReconstructionError(v: seq<real>)
    requires v != []
    ensures |DequantiseInt8(QuantiseInt8(v))| == |v|
    ensures (Max(v) - Min(v)) * 8388608.0 >= 1.0 ==>
      forall i :: 0 <= i < |v| ==> Abs(DequantiseInt8(QuantiseInt8(v))[i] - v[i]) <= (Max(v) - Min(v)) / 510.0
    ensures (Max(v) - Min(v)) * 8388608.0 < 1.0 ==>
      forall i :: 0 <= i < |v| ==>
        DequantiseInt8(QuantiseInt8(v))[i] == Min(v) && Abs(DequantiseInt8(QuantiseInt8(v))[i] - v[i]) <= Max(v) - Min(v)
  {
    var r := DequantiseInt8(QuantiseInt8(v));
    if (Max(v) - Min(v)) * 8388608.0 >= 1.0 {
      forall i | 0 <= i < |v| ensures Abs(r[i] - v[i]) <= (Max(v) - Min(v)) / 510.0 {
        CodeError(v[i], Min(v), Max(v));
      }
    }
  }

  lemma EmptyVector()
    ensures QuantiseInt8([]) == QuantisedInt8(0.0, 0.0, []) && DequantiseInt8(QuantiseInt8([])) == []
  {}

  /** The ends of the range: the least value always has code 0 and, in a vector wide enough to
      quantise, the greatest has code 255. */
  lemma RangeEnds(v: seq<real>, i: nat)
    requires i < |v|
    ensures v[i] == Min(v) ==> QuantiseInt8(v).data[i] == 0
    ensures v[i] == Max(v) && (Max(v) - Min(v)) * 8388608.0 >= 1.0 ==> QuantiseInt8(v).data[i] == 255
  {
    if (Max(v) - Min(v)) * 8388608.0 >= 1.0 { CodeEnds(Min(v), Max(v)); }
  }

  lemma {:induction false} RestoredRange(v: seq<real>)
    requires v != []
    ensures var r := DequantiseInt8(QuantiseInt8(v));
      r != [] && Min(r) == Min(v) && Max(r) == if (Max(v) - Min(v)) * 8388608.0 < 1.0 then Min(v) else Max(v)
  {
    var min, max := Min(v), Max(v);
    var r := DequantiseInt8(QuantiseInt8(v));
    if max - min < EPSILON {
      assert r[0] == min;
      MinMaxUnique(r, min, min);
    } else {
      forall i | 0 <= i < |r| ensures min <= r[i] <= max {
        CodeError(v[i], min, max);
        CodeOfLevel(Code(v[i], min, max), min, max);
      }
      CodeEnds(min, max);
      LevelEnds(min, max);
      var i :| 0 <= i < |v| && v[i] == min;
      var j :| 0 <= j < |v| && v[j] == max;
      assert r[i] == min && r[j] == max;
      MinMaxUnique(r, min, max);
    }
  }

  lemma RequantisedCodes(v: seq<real>, q: QuantisedInt8, q2: QuantisedInt8)
    requires v != [] && q == QuantiseInt8(v) && q2 == QuantiseInt8(DequantiseInt8(q))
    ensures q.min == Min(v) && q.max == Max(v) && q2.min == q.min && q2.data == q.data
    ensures q2.max == if q.max - q.min < EPSILON then q.min else q.max
  {
    hide Code, Level, Min, Max;
    RestoredRange(v);
    forall i | 0 <= i < |v| ensures q2.data[i] == q.data[i] {
      if q.max - q.min >= EPSILON {
        CodeError(v[i], q.min, q.max);
        CodeOfLevel(q.data[i], q.min, q.max);
      }
    }
    assert q2.data == q.data;
  }

  /** Quantising a restored vector again gives the same codes, so a demote and promote
      cycle loses precision at most once. The stored maximum also survives exactly when the
      vector was wide enough to quantise or was constant. */
  lemma {:induction false} RequantiseStable(v: seq<real>)
    ensures var q := QuantiseInt8(v);
      var q2 := QuantiseInt8(DequantiseInt8(q));
      && q2.data == q.data && q2.min == q.min
      && DequantiseInt8(q2) == DequantiseInt8(q)
      && (q2 == q <==> v == [] || (Max(v) - Min(v)) * 8388608.0 >= 1.0 || Max(v) == Min(v))
  {
    if v != [] {
      var q := QuantiseInt8(v);
      var q2 := QuantiseInt8(DequantiseInt8(q));
      RequantisedCodes(v, q, q2);
      hide QuantiseInt8, Min, Max, Level;
    }
  }

  // ----- archive signs -----

  function SignsOf(v: seq<real>): seq<bool> {
    seq(|v|, i requires 0 <= i < |v| => v[i] >= 0.0)
  }

  datatype QuantisedBinary = QuantisedBinary(data: seq<bv8>, dimensions: nat)

  method QuantiseBinary(vector: seq<real>) returns (q: QuantisedBinary)
    ensures q.dimensions == |vector| && PacksBits(q.data, SignsOf(vector))
    ensures forall i :: 0 <= i < |vector| ==> BitAt(q.data, i) == (vector[i] >= 0.0)
  {
    var buf := new bv8[DivCeil8(|vector|)](_ => 0);
    for i := 0 to |vector|
      invariant forall p :: 0 <= p < 8 * buf.Length ==> BitAt(buf[..], p) == (p < i && vector[p] >= 0.0)
    {
      if vector[i] >= 0.0 {
        SetBit(buf, i);
      }
    }
    q := QuantisedBinary(buf[..], |vector|);
  }

  /** The archive sign of a coordinate that went through the warm tier is the sign of the
      original wherever the coordinate is larger than the quantisation error. */
  lemma {:induction false} ArchiveSignFaithful(v: seq<real>, archived: seq<bv8>, i: nat)
    requires PacksBits(archived, SignsOf(DequantiseInt8(QuantiseInt8(v)))) && i < |v|
    requires if (Max(v) - Min(v)) * 8388608.0 < 1.0 then Abs(v[i]) > Max(v) - Min(v) else Abs(v[i]) > (Max(v) - Min(v)) / 510.0
    ensures |archived| == DivCeil8(|v|)
    ensures BitAt(archived, i) == (v[i] >= 0.0)
  {
    ReconstructionError(v);
    var r := DequantiseInt8(QuantiseInt8(v));
    assert BitAt(archived, i) == SignsOf(r)[i];
  }
}
