/** PolarQuant: rotation by signs and the Walsh-Hadamard transform, Lloyd-Max scalar codes,
    packed codes, and the exact reconstruction error. */
module PolarQuant {
  import opened Basics
  import opened BitPacking
  import opened Hadamard
  import Int8

  datatype Config = Config(bits: nat, dimensions: nat, signs: seq<bool>, paddedDim: nat) {
    ghost predicate Valid() {
      2 <= bits <= 4 && |signs| == paddedDim && IsPow2(paddedDim) && 0 < dimensions <= paddedDim
    }
  }

  datatype QuantisedPolar = QuantisedPolar(norm: real, dimensions: nat, bits: nat, data: seq<bv8>)

  // ----- Lloyd-Max tables for N(0, 1) -----

  function Centroid2(i: nat): real {
    if i == 0 then -1.5104176 else if i == 1 then -0.45278 else if i == 2 then 0.45278 else 1.5104176
  }

  function Boundary2(i: nat): real {
    if i == 0 then -0.9815988 else if i == 1 then 0.0 else 0.9815988
  }

  function Centroid3(i: nat): real {
    if i == 0 then -2.1519457 else if i == 1 then -1.3439093 else if i == 2 then -0.7560053 else
    if i == 3 then -0.2450942 else if i == 4 then 0.2450942 else if i == 5 then 0.7560053 else
    if i == 6 then 1.3439093 else 2.1519457
  }

  function Boundary3(i: nat): real {
    if i == 0 then -1.7479275 else if i == 1 then -1.0499573 else if i == 2 then -0.5005497 else
    if i == 3 then 0.0 else if i == 4 then 0.5005497 else if i == 5 then 1.0499573 else 1.7479275
  }

  function Centroid4(i: nat): real {
    if i == 0 then -2.732973 else if i == 1 then -2.0694504 else if i == 2 then -1.6184884 else
    if i == 3 then -1.2566477 else if i == 4 then -0.9427008 else if i == 5 then -0.657037 else
    if i == 6 then -0.3882236 else if i == 7 then -0.1284549 else if i == 8 then 0.1284549 else
    if i == 9 then 0.3882236 else if i == 10 then 0.657037 else if i == 11 then 0.9427008 else
    if i == 12 then 1.2566477 else if i == 13 then 1.6184884 else if i == 14 then 2.0694504 else 2.732973
  }

  function Boundary4(i: nat): real {
    if i == 0 then -2.4012263 else if i == 1 then -1.8439851 else if i == 2 then -1.4375834 else
    if i == 3 then -1.099688 else if i == 4 then -0.7998803 else if i == 5 then -0.5226384 else
    if i == 6 then -0.2583434 else if i == 7 then 0.0 else if i == 8 then 0.2583434 else
    if i == 9 then 0.5226384 else if i == 10 then 0.7998803 else if i == 11 then 1.099688 else
    if i == 12 then 1.4375834 else if i == 13 then 1.8439851 else 2.4012263
  }

  function Centroids(bits: nat): (r: seq<real>)
    requires 2 <= bits <= 4
    ensures |r| == Levels(bits)
  {
    if bits == 2 then seq(4, i requires 0 <= i < 4 => Centroid2(i))
    else if bits == 3 then seq(8, i requires 0 <= i < 8 => Centroid3(i))
    else seq(16, i requires 0 <= i < 16 => Centroid4(i))
  }

  function Boundaries(bits: nat): (r: seq<real>)
    requires 2 <= bits <= 4
    ensures |r| == Levels(bits) - 1
  {
    if bits == 2 then seq(3, i requires 0 <= i < 3 => Boundary2(i))
    else if bits == 3 then seq(7, i requires 0 <= i < 7 => Boundary3(i))
    else seq(15, i requires 0 <= i < 15 => Boundary4(i))
  }

  /** Twice the largest distance between a boundary and the midpoint of its two centroids. */
  function Slack(bits: nat): real {
    if bits == 2 then 0.0 else if bits == 3 then 0.0000001 else 0.0000314
  }

  function Levels(bits: nat): nat {
    if bits == 2 then 4 else if bits == 3 then 8 else 16
  }

  ghost predicate Sorted(s: seq<real>) {
    forall i, j :: 0 <= i < j < |s| ==> s[i] < s[j]
  }

  ghost predicate NearMidpoints(bounds: seq<real>, cents: seq<real>, slack: real) {
    |bounds| + 1 == |cents| && forall i :: 0 <= i < |bounds| ==>
      -slack <= 2.0 * bounds[i] - (cents[i] + cents[i + 1]) <= slack
  }

  lemma {:induction false} Tables(bits: nat)
    requires 2 <= bits <= 4
    ensures Sorted(Centroids(bits)) && Sorted(Boundaries(bits))
    ensures NearMidpoints(Boundaries(bits), Centroids(bits), Slack(bits))
    ensures 0.0 <= Slack(bits) < 0.0001
  {
    hide Centroid2, Centroid3, Centroid4, Boundary2, Boundary3, Boundary4;
    var bounds, cents := Boundaries(bits), Centroids(bits);
    forall i | 0 <= i < |bounds|
      ensures cents[i] < cents[i + 1] && (i > 0 ==> bounds[i - 1] < bounds[i])
      ensures -Slack(bits) <= 2.0 * bounds[i] - (cents[i] + cents[i + 1]) <= Slack(bits)
    {
      if bits == 2 { Table2(i); } else if bits == 3 { Table3(i); } else { Table4(i); }
    }
    forall i | 0 < i < |cents| ensures cents[i - 1] < cents[i] {
      assert cents[i - 1] < cents[(i - 1) + 1];
    }
    StepwiseSorted(cents);
    StepwiseSorted(bounds);
  }

  /** The values of the tables. */
  lemma TableValues()
    ensures Centroids(2) == [-1.5104176, -0.45278, 0.45278, 1.5104176]
    ensures Boundaries(2) == [-0.9815988, 0.0, 0.9815988]
    ensures Centroids(3) == [-2.1519457, -1.3439093, -0.7560053, -0.2450942, 0.2450942, 0.7560053, 1.3439093, 2.1519457]
    ensures Boundaries(3) == [-1.7479275, -1.0499573, -0.5005497, 0.0, 0.5005497, 1.0499573, 1.7479275]
    ensures Centroids(4) == [-2.732973, -2.0694504, -1.6184884, -1.2566477, -0.9427008, -0.657037, -0.3882236, -0.1284549,
      0.1284549, 0.3882236, 0.657037, 0.9427008, 1.2566477, 1.6184884, 2.0694504, 2.732973]
    ensures Boundaries(4) == [-2.4012263, -1.8439851, -1.4375834, -1.099688, -0.7998803, -0.5226384, -0.2583434, 0.0,
      0.2583434, 0.5226384, 0.7998803, 1.099688, 1.4375834, 1.8439851, 2.4012263]
  {}

  lemma Table2(i: nat)
    requires i < 3
    ensures Centroid2(i) < Centroid2(i + 1) && (i > 0 ==> Boundary2(i - 1) < Boundary2(i))
    ensures 2.0 * Boundary2(i) == Centroid2(i) + Centroid2(i + 1)
  {}

  lemma Table3(i: nat)
    requires i < 7
    ensures Centroid3(i) < Centroid3(i + 1) && (i > 0 ==> Boundary3(i - 1) < Boundary3(i))
    ensures -0.0000001 <= 2.0 * Boundary3(i) - (Centroid3(i) + Centroid3(i + 1)) <= 0.0000001
  {}

  lemma Table4(i: nat)
    requires i < 15
    ensures Centroid4(i) < Centroid4(i + 1) && (i > 0 ==> Boundary4(i - 1) < Boundary4(i))
    ensures -0.0000314 <= 2.0 * Boundary4(i) - (Centroid4(i) + Centroid4(i + 1)) <= 0.0000314
  {}

  ghost predicate Stepwise(s: seq<real>) {
    forall i {:trigger s[i]} :: 0 < i < |s| ==> s[i - 1] < s[i]
  }

  lemma {:induction false} StepwiseSorted(s: seq<real>)
    requires Stepwise(s)
    ensures Sorted(s)
    decreases |s|
  {
    if s != [] {
      var n := |s| - 1;
      StepwiseSorted(s[..n]);
      forall i, j | 0 <= i < j < |s| ensures s[i] < s[j] {
        assert s[j - 1] < s[j];
        if i < j - 1 {
          assert s[..n][i] < s[..n][j - 1];
        }
      }
    }
  }

  // ----- scalar quantisation -----

  /** The insertion point of `value`, by binary search between `lo` and `hi`. A value equal
      to a boundary lands in the bucket on its left. */
  function BinarySearch(value: real, bounds: seq<real>, lo: nat, hi: nat): (r: nat)
    requires Sorted(bounds) && lo <= hi <= |bounds|
    requires forall i :: 0 <= i < lo ==> bounds[i] < value
    requires forall i :: hi <= i < |bounds| ==> value <= bounds[i]
    ensures lo <= r <= hi
    ensures forall i :: 0 <= i < r ==> bounds[i] < value
    ensures forall i :: r <= i < |bounds| ==> value <= bounds[i]
    decreases hi - lo
  {
    if lo == hi then lo
    else
      var mid := (lo + hi) / 2;
      if bounds[mid] < value then BinarySearch(value, bounds, mid + 1, hi)
      else BinarySearch(value, bounds, lo, mid)
  }

  function QuantiseScalar(value: real, bounds: seq<real>): nat
    requires Sorted(bounds)
  {
    BinarySearch(value, bounds, 0, |bounds|)
  }

  ghost predicate InBucket(value: real, bounds: seq<real>, r: nat) {
    && r <= |bounds|
    && (r > 0 ==> bounds[r - 1] < value)
    && (r < |bounds| ==> value <= bounds[r])
  }

  /** The code is the one bucket that contains the value, and it never decreases as the
      value grows. */
  lemma ScalarCode(value: real, other: real, bounds: seq<real>)
    requires Sorted(bounds)
    ensures forall r :: InBucket(value, bounds, r) <==> r == QuantiseScalar(value, bounds)
    ensures value <= other ==> QuantiseScalar(value, bounds) <= QuantiseScalar(other, bounds)
  {
    var q := QuantiseScalar(value, bounds);
    assert forall r :: InBucket(value, bounds, r) ==> r == q;
    var p := QuantiseScalar(other, bounds);
    if p < q {
      assert bounds[p] < value && other <= bounds[p];
    }
  }

  /** The centroid of the code is nearest to the value, up to `slack`. */
  lemma NearestCentroid(value: real, bounds: seq<real>, cents: seq<real>, slack: real, j: nat)
    requires Sorted(bounds) && Sorted(cents) && NearMidpoints(bounds, cents, slack) && slack >= 0.0
    requires j < |cents|
    ensures var r := QuantiseScalar(value, bounds);
      r < |cents| && Int8.Abs(value - cents[r]) <= Int8.Abs(value - cents[j]) + slack
  {
    var r := QuantiseScalar(value, bounds);
    ScalarCode(value, value, bounds);
    assert InBucket(value, bounds, r);
    if j < r {
      assert j == r - 1 || cents[j] < cents[r - 1];
      assert cents[r - 1] < cents[r];
      assert 2.0 * bounds[r - 1] >= cents[r - 1] + cents[(r - 1) + 1] - slack;
    } else if j > r {
      assert j == r + 1 || cents[j] > cents[r + 1];
      assert cents[r] < cents[r + 1];
      assert 2.0 * bounds[r] <= cents[r] + cents[r + 1] + slack;
    }
  }

  lemma {:induction false} ScalarQuantiser(value: real, bits: nat, j: nat)
    requires 2 <= bits <= 4 && j < Levels(bits)
    ensures Sorted(Boundaries(bits)) && |Centroids(bits)| == Levels(bits)
    ensures var code := QuantiseScalar(value, Boundaries(bits));
      && code < Levels(bits)
      && Int8.Abs(value - Centroids(bits)[code]) <= Int8.Abs(value - Centroids(bits)[j]) + Slack(bits)
  {
    hide Centroids, Boundaries;
    Tables(bits);
    NearestCentroid(value, Boundaries(bits), Centroids(bits), Slack(bits), j);
  }

  // ----- rotation -----

  /** The signed input of the rotation, zero padded. */
  function SignedPad(v: seq<real>, signs: seq<bool>): (r: seq<real>)
    requires |v| <= |signs|
    ensures |r| == |signs|
  {
    seq(|signs|, i requires 0 <= i < |signs| => if i < |v| then Signed(v[i], signs[i]) else 0.0)
  }

  function Signed(x: real, sign: bool): real {
    if sign then x else -x
  }

  ghost function Rotated(v: seq<real>, config: Config, scale: real): (r: seq<real>)
    requires config.Valid() && |v| <= config.paddedDim
    ensures |r| == config.paddedDim
  {
    Normalised(scale, SignedPad(v, config.signs))
  }

  method RotateVector(vector: seq<real>, config: Config, scale: real) returns (padded: array<real>)
    requires config.Valid() && |vector| <= config.paddedDim && Normalises(scale, config.paddedDim)
    ensures fresh(padded) && padded[..] == Rotated(vector, config, scale)
  {
    padded := new real[config.paddedDim](_ => 0.0);
    for i := 0 to |vector|
      invariant forall p :: 0 <= p < padded.Length ==> padded[p] == if p < i then Signed(vector[p], config.signs[p]) else 0.0
    {
      padded[i] := if config.signs[i] then vector[i] else -vector[i];
    }
    assert padded[..] == SignedPad(vector, config.signs);
    FastWalshHadamard(padded, scale);
  }

  /** What the inverse rotation returns: transform again, undo the signs, drop the padding. */
  ghost function InverseRotated(rotated: seq<real>, config: Config, scale: real, count: nat): (r: seq<real>)
    requires config.Valid() && |rotated| == config.paddedDim && count <= config.paddedDim
    ensures |r| == count
  {
    Unsigned(Normalised(scale, rotated), config.signs, count)
  }

  function Unsigned(r: seq<real>, signs: seq<bool>, count: nat): seq<real>
    requires count <= |signs| && count <= |r|
  {
    seq(count, i requires 0 <= i < count => Signed(r[i], signs[i]))
  }

  /** Rotating and rotating back is the identity on every vector that fits. */
  lemma RotationRoundTrip(v: seq<real>, config: Config, scale: real)
    requires config.Valid() && |v| <= config.paddedDim && Normalises(scale, config.paddedDim)
    ensures InverseRotated(Rotated(v, config, scale), config, scale, |v|) == v
  {
    hide Normalised, Normalises;
    NormalisedInvolution(scale, SignedPad(v, config.signs));
  }

  // ----- whole vectors; norm, root and scale stand for square roots -----

  function NormalisedInput(v: seq<real>, norm: real): (r: seq<real>)
    ensures |r| == |v|
  {
    if norm > Int8.EPSILON then seq(|v|, i requires 0 <= i < |v| => v[i] / norm)
    else seq(|v|, _ => 0.0)
  }

  /** A norm above 2 to the -23 is divided out and comes back by multiplying; a smaller one gives
      the zero vector. */
  lemma NormalisedBack(v: seq<real>, norm: real)
    ensures norm * 8388608.0 > 1.0 ==> Scale(norm, NormalisedInput(v, norm)) == v
    ensures norm * 8388608.0 <= 1.0 ==> forall i :: 0 <= i < |v| ==> NormalisedInput(v, norm)[i] == 0.0
  {
    if norm * 8388608.0 > 1.0 {
      hide Mul;
      forall i | 0 <= i < |v| ensures Mul(norm, NormalisedInput(v, norm)[i]) == v[i] {
        DivideBack(v[i], norm);
      }
    }
  }

  /** The scalar codes of the kept coordinates: `rotated[i]` scaled by sqrt(dimensions). */
  ghost predicate CodesOf(codes: seq<bv8>, rotated: seq<real>, config: Config, root: real) {
    && config.Valid()
    && |codes| == config.dimensions <= |rotated|
    && Sorted(Boundaries(config.bits))
    && forall i :: 0 <= i < |codes| ==>
      codes[i] as int == QuantiseScalar(Mul(rotated[i], root), Boundaries(config.bits))
  }

  ghost predicate HoldsCodes(data: seq<bv8>, codes: seq<bv8>, rotated: seq<real>, config: Config, root: real) {
    && CodesOf(codes, rotated, config, root)
    && (forall i :: 0 <= i < |codes| ==> IsCode(codes[i], config.bits))
    && PacksCodes(data, codes, config.bits)
  }

  /** The record packs the codes of the kept rotated coordinates. */
  ghost predicate QuantisationOf(q: QuantisedPolar, rotated: seq<real>, config: Config, root: real) {
    exists codes :: HoldsCodes(q.data, codes, rotated, config, root)
  }

  method QuantisePolar(vector: seq<real>, config: Config, norm: real, root: real, scale: real)
    returns (q: QuantisedPolar)
    requires config.Valid() && |vector| == config.dimensions
    requires Normalises(scale, config.paddedDim)
    requires norm >= 0.0 && norm * norm == SumSq(vector)
    requires root > 0.0 && root * root == config.dimensions as real
    ensures q.norm == norm && q.dimensions == |vector| && q.bits == config.bits
    ensures QuantisationOf(q, Rotated(NormalisedInput(vector, norm), config, scale), config, root)
  {
    hide Normalised, Normalises, PacksCodes, SumSq, IsPow2, IsCode, CodesOf;
    var rotated := RotateVector(NormalisedInput(vector, norm), config, scale);
    var cs := QuantiseCoordinates(rotated[..], config, root);
    var data := PackCodes(cs, config.bits);
    q := QuantisedPolar(norm, |vector|, config.bits, data);
    assert HoldsCodes(data, cs, rotated[..], config, root);
  }

  lemma CodeFits(code: nat, bits: nat)
    requires 2 <= bits <= 4 && code < Levels(bits)
    ensures code < 256 && IsCode(code as bv8, bits) && (code as bv8) as int == code
  {
    var b := ByteOf(code);
    assert (b as int) as bv8 == b;
    if bits == 2 {
      assert IsCode(code as bv8, 2);
    } else if bits == 3 {
      assert IsCode(code as bv8, 3);
    } else {
      assert IsCode(code as bv8, 4);
    }
  }

  ghost predicate CodeAt(code: bv8, x: real, bounds: seq<real>, bits: nat)
    requires Sorted(bounds) && bits < 8
  {
    IsCode(code, bits) && code as int == QuantiseScalar(x, bounds)
  }

  method QuantiseCoordinate(x: real, bounds: seq<real>, bits: nat) returns (c: bv8)
    requires 2 <= bits <= 4 && Sorted(bounds) && |bounds| == Levels(bits) - 1
    ensures CodeAt(c, x, bounds, bits)
  {
    hide IsCode;
    var code := QuantiseScalar(x, bounds);
    CodeFits(code, bits);
    var clamped := if code < Levels(bits) then code else Levels(bits) - 1;
    c := clamped as bv8;
  }

  method QuantiseCoordinates(rotated: seq<real>, config: Config, root: real) returns (codes: seq<bv8>)
    requires config.Valid() && |rotated| == config.paddedDim
    ensures CodesOf(codes, rotated, config, root)
    ensures forall i :: 0 <= i < |codes| ==> IsCode(codes[i], config.bits)
  {
    hide IsCode, Centroids, NearMidpoints, IsPow2, Mul, CodeAt;
    Tables(config.bits);
    var bounds := Boundaries(config.bits);
    hide Boundaries;
    codes := [];
    for i := 0 to config.dimensions
      invariant |codes| == i
      invariant forall k :: 0 <= k < i ==> CodeAt(codes[k], Mul(rotated[k], root), bounds, config.bits)
    {
      var code := QuantiseCoordinate(Mul(rotated[i], root), bounds, config.bits);
      codes := codes + [code];
    }
    AllCodes(codes, rotated, config, root);
  }

  lemma AllCodes(codes: seq<bv8>, rotated: seq<real>, config: Config, root: real)
    requires config.Valid() && |codes| == config.dimensions <= |rotated| && Sorted(Boundaries(config.bits))
    requires forall k :: 0 <= k < |codes| ==> CodeAt(codes[k], Mul(rotated[k], root), Boundaries(config.bits), config.bits)
    ensures CodesOf(codes, rotated, config, root)
    ensures forall i :: 0 <= i < |codes| ==> IsCode(codes[i], config.bits)
  {
    hide IsCode, Boundaries, Mul, IsPow2;
  }

  /** The reconstructed rotated coordinates: centroids scaled back, zero beyond the kept ones. */
  ghost function Reconstruction(codes: seq<bv8>, config: Config, scaleInv: real): (r: seq<real>)
    requires config.Valid() && |codes| <= config.paddedDim
    requires forall i :: 0 <= i < |codes| ==> codes[i] as int < Levels(config.bits)
    ensures |r| == config.paddedDim
  {
    seq(config.paddedDim, i requires 0 <= i < config.paddedDim =>
      if i < |codes| then Mul(Centroids(config.bits)[codes[i] as int], scaleInv) else 0.0)
  }

  ghost predicate RestoredCodes(result: seq<real>, codes: seq<bv8>, q: QuantisedPolar, config: Config,
                                scale: real, scaleInv: real)
  {
    && config.Valid() && q.bits == config.bits && q.dimensions == config.dimensions
    && UnpacksTo(q.data, q.dimensions, q.bits, codes)
    && (forall i :: 0 <= i < |codes| ==> codes[i] as int < Levels(config.bits))
    && result == Scale(q.norm, InverseRotated(Reconstruction(codes, config, scaleInv), config, scale, q.dimensions))
  }

  /** The vector rebuilt from the centroids of the codes the record unpacks to. */
  ghost predicate RestoredFrom(result: seq<real>, q: QuantisedPolar, config: Config, scale: real, scaleInv: real) {
    exists codes :: RestoredCodes(result, codes, q, config, scale, scaleInv)
  }

  method DequantisePolar(q: QuantisedPolar, config: Config, scale: real, scaleInv: real)
    returns (result: seq<real>)
    requires config.Valid() && q.bits == config.bits && q.dimensions == config.dimensions
    requires Offset(q.dimensions, q.bits, 0) <= 8 * |q.data|
    requires Normalises(scale, config.paddedDim)
    ensures RestoredFrom(result, q, config, scale, scaleInv)
  {
    hide Normalised, Normalises, Offset, IsPow2, IsCode, Centroids, Levels, Reconstruction, UnpacksTo;
    var cs := UnpackCodes(q.data, q.dimensions, q.bits);
    CodesIndex(q.data, cs, q.dimensions, q.bits);
    var rotated := FillCentroids(cs, config, scaleInv);
    FastWalshHadamard(rotated, scale);
    result := UndoSigns(rotated[..], config.signs, q.dimensions, q.norm);
    assert RestoredCodes(result, cs, q, config, scale, scaleInv);
  }

  method FillCentroids(codes: seq<bv8>, config: Config, scaleInv: real) returns (rotated: array<real>)
    requires config.Valid() && |codes| <= config.paddedDim
    requires forall i :: 0 <= i < |codes| ==> codes[i] as int < Levels(config.bits)
    ensures fresh(rotated) && rotated[..] == Reconstruction(codes, config, scaleInv)
  {
    var cents := Centroids(config.bits);
    hide Centroids, Levels;
    rotated := new real[config.paddedDim](_ => 0.0);
    for i := 0 to |codes|
      invariant forall p :: 0 <= p < rotated.Length ==>
        rotated[p] == if p < i then Mul(cents[codes[p] as int], scaleInv) else 0.0
    {
      rotated[i] := cents[codes[i] as int] * scaleInv;
    }
  }

  method UndoSigns(rotated: seq<real>, signs: seq<bool>, count: nat, norm: real) returns (result: seq<real>)
    requires count <= |signs| && count <= |rotated|
    ensures result == Scale(norm, Unsigned(rotated, signs, count))
  {
    result := [];
    for i := 0 to count
      invariant |result| == i
      invariant forall k :: 0 <= k < i ==> result[k] == Mul(norm, Signed(rotated[k], signs[k]))
    {
      var v := if signs[i] then rotated[i] else -rotated[i];
      result := result + [v * norm];
    }
  }

  lemma CodesIndex(data: seq<bv8>, codes: seq<bv8>, count: nat, bits: nat)
    requires 2 <= bits <= 4 && UnpacksTo(data, count, bits, codes)
    ensures |codes| == count && forall i :: 0 <= i < |codes| ==> codes[i] as int < Levels(bits)
  {
    hide IsCode, Levels;
    forall i | 0 <= i < |codes| ensures codes[i] as int < Levels(bits) {
      CodeIndex(codes[i], bits);
    }
  }

  lemma CodeIndex(code: bv8, bits: nat)
    requires 2 <= bits <= 4 && IsCode(code, bits)
    ensures code as int < Levels(bits)
  {}

  // ----- reconstruction error -----

  /** Squared distance of the kept coordinates, scaled by sqrt(dimensions), to their centroids. */
  ghost function ScalarError(codes: seq<bv8>, rotated: seq<real>, config: Config, root: real): real
    requires config.Valid() && |codes| <= |rotated|
    requires forall i :: 0 <= i < |codes| ==> codes[i] as int < Levels(config.bits)
  {
    SumSq(Deviations(codes, rotated, config, root))
  }

  ghost function Deviations(codes: seq<bv8>, rotated: seq<real>, config: Config, root: real): (r: seq<real>)
    requires config.Valid() && |codes| <= |rotated|
    requires forall i :: 0 <= i < |codes| ==> codes[i] as int < Levels(config.bits)
    ensures |r| == |codes|
  {
    seq(|codes|, i requires 0 <= i < |codes| =>
      Mul(rotated[i], root) - Centroids(config.bits)[codes[i] as int])
  }

  lemma {:induction false} SumSqSigned(x: seq<real>, signs: seq<bool>)
    requires |x| == |signs|
    ensures SumSq(Unsigned(x, signs, |x|)) == SumSq(x)
  {
    if x != [] {
      var u := Unsigned(x, signs, |x|);
      assert u[1..] == Unsigned(x[1..], signs[1..], |x| - 1);
      SumSqSigned(x[1..], signs[1..]);
      assert Mul(u[0], u[0]) == Mul(x[0], x[0]);
    }
  }

  lemma UnsignedSub(x: seq<real>, y: seq<real>, signs: seq<bool>)
    requires |x| == |y| == |signs|
    ensures Unsigned(Sub(x, y), signs, |x|) == Sub(Unsigned(x, signs, |x|), Unsigned(y, signs, |x|))
  {}

  /** The distance between what is rotated back from `w` and the rotated input, without the
      truncation to `dimensions`: an isometry. */
  lemma {:induction false} InverseIsometry(rot: seq<real>, w: seq<real>, config: Config, scale: real)
    requires config.Valid() && |rot| == |w| == config.paddedDim && Normalises(scale, config.paddedDim)
    ensures var n := config.paddedDim;
      SumSq(Sub(InverseRotated(rot, config, scale, n), InverseRotated(w, config, scale, n))) == SumSq(Sub(rot, w))
  {
    hide Normalised, Normalises, SumSq, Unsigned, IsPow2, Sub;
    NormalisedSub(scale, rot, w);
    NormalisedEnergy(scale, Sub(rot, w));
    UnsignedSub(Normalised(scale, rot), Normalised(scale, w), config.signs);
    SumSqSigned(Normalised(scale, Sub(rot, w)), config.signs);
  }

  /** Padding a vector with zeros to length `n`. */
  function Pad(v: seq<real>, n: nat): (r: seq<real>)
    requires |v| <= n
    ensures |r| == n && r[..|v|] == v
  {
    v + seq(n - |v|, _ => 0.0)
  }

  lemma RotationRoundTripPadded(v: seq<real>, config: Config, scale: real)
    requires config.Valid() && |v| <= config.paddedDim && Normalises(scale, config.paddedDim)
    ensures InverseRotated(Rotated(v, config, scale), config, scale, config.paddedDim) == Pad(v, config.paddedDim)
  {
    hide Normalised, Normalises, IsPow2;
    NormalisedInvolution(scale, SignedPad(v, config.signs));
  }

  /** The error of the rotated coordinates splits into the scalar errors of the kept ones,
      divided by `dimensions`, and the energy of the ones beyond `dimensions`. */
  lemma RotatedError(codes: seq<bv8>, rot: seq<real>, config: Config, root: real, scaleInv: real)
    requires config.Valid() && |rot| == config.paddedDim && |codes| == config.dimensions
    requires forall i :: 0 <= i < |codes| ==> codes[i] as int < Levels(config.bits)
    requires root > 0.0 && root * root == config.dimensions as real && scaleInv * root == 1.0
    ensures SumSq(Sub(rot, Reconstruction(codes, config, scaleInv)))
      == ScalarError(codes, rot, config, root) / config.dimensions as real + SumSq(rot[config.dimensions..])
  {
    hide IsPow2, SumSq, Centroids, Mul;
    var d := |codes|;
    var w := Reconstruction(codes, config, scaleInv);
    var diff := Sub(rot, w);
    var dev := Deviations(codes, rot, config, root);
    assert diff == diff[..d] + diff[d..];
    SumSqConcat(diff[..d], diff[d..]);
    assert diff[d..] == rot[d..];
    forall i | 0 <= i < d ensures diff[i] == Mul(scaleInv, dev[i]) {
      Unscale(rot[i], Centroids(config.bits)[codes[i] as int], root, scaleInv);
    }
    assert diff[..d] == Scale(scaleInv, dev);
    SumSqScale(scaleInv, dev);
    InverseSquare(root, scaleInv, d as real, SumSq(dev));
  }

  lemma Unscale(r: real, c: real, root: real, scaleInv: real)
    requires scaleInv * root == 1.0
    ensures r - Mul(c, scaleInv) == Mul(scaleInv, Mul(r, root) - c)
  {
    assert scaleInv * (r * root) == (scaleInv * root) * r;
    assert scaleInv * (r * root - c) == scaleInv * (r * root) - scaleInv * c;
  }

  lemma InverseSquare(root: real, scaleInv: real, d: real, e: real)
    requires root > 0.0 && root * root == d && scaleInv * root == 1.0
    ensures d > 0.0 && Mul(Mul(scaleInv, scaleInv), e) == e / d
  {
    var k := scaleInv * scaleInv;
    assert k * d == 1.0 by {
      assert k * (root * root) == (scaleInv * root) * (scaleInv * root);
    }
    var z := k * e;
    assert z * d == e by { assert (k * e) * d == (k * d) * e; }
  }

  /** For every dimension count and every vector of norm above epsilon, the squared error of
      the returned vector is norm squared times: the scalar errors over `dimensions`, plus the
      energy of the discarded rotated coordinates, minus what the inverse rotation leaks into
      the coordinates it drops. */
  lemma ReconstructionError(v: seq<real>, codes: seq<bv8>, config: Config, norm: real, root: real, scale: real, scaleInv: real)
    requires config.Valid() && |v| == |codes| == config.dimensions
    requires forall i :: 0 <= i < |codes| ==> codes[i] as int < Levels(config.bits)
    requires Normalises(scale, config.paddedDim) && norm * 8388608.0 > 1.0
    requires root > 0.0 && root * root == config.dimensions as real && scaleInv * root == 1.0
    ensures var rot := Rotated(NormalisedInput(v, norm), config, scale);
      var w := Reconstruction(codes, config, scaleInv);
      var full := InverseRotated(w, config, scale, config.paddedDim);
      var d := config.dimensions;
      SumSq(Sub(v, Scale(norm, InverseRotated(w, config, scale, d)))) == Mul(Mul(norm, norm),
        ScalarError(codes, rot, config, root) / d as real + SumSq(rot[d..]) - SumSq(full[d..]))
  {
    hide Normalised, Normalises, SumSq, IsPow2, Levels, Reconstruction, Sub, Mul, SignedPad, ScalarError;
    var d, n := config.dimensions, config.paddedDim;
    var u := NormalisedInput(v, norm);
    var rot := Rotated(u, config, scale);
    var w := Reconstruction(codes, config, scaleInv);
    var full, part := InverseRotated(w, config, scale, n), InverseRotated(w, config, scale, d);
    RotationRoundTripPadded(u, config, scale);
    InverseIsometry(rot, w, config, scale);
    RotatedError(codes, rot, config, root, scaleInv);
    assert full[..d] == part;
    SplitError(u, full, n);
    NormTimes(v, u, part, norm);
    SumSqScale(norm, Sub(u, part));
  }

  lemma SplitError(u: seq<real>, full: seq<real>, n: nat)
    requires |u| <= n == |full|
    ensures SumSq(Sub(Pad(u, n), full)) == SumSq(Sub(u, full[..|u|])) + SumSq(full[|u|..])
  {
    hide SumSq;
    var diff := Sub(Pad(u, n), full);
    assert diff == Sub(u, full[..|u|]) + diff[|u|..];
    SumSqConcat(Sub(u, full[..|u|]), diff[|u|..]);
    assert diff[|u|..] == Scale(-1.0, full[|u|..]);
    SumSqScale(-1.0, full[|u|..]);
  }

  lemma NormTimes(v: seq<real>, u: seq<real>, part: seq<real>, norm: real)
    requires |v| == |u| == |part| && norm * 8388608.0 > 1.0 && u == NormalisedInput(v, norm)
    ensures Sub(v, Scale(norm, part)) == Scale(norm, Sub(u, part))
  {
    NormalisedBack(v, norm);
    hide Mul, NormalisedInput;
    forall i | 0 <= i < |v| ensures v[i] - Mul(norm, part[i]) == Mul(norm, u[i] - part[i]) {
      assert Scale(norm, u)[i] == Mul(norm, u[i]);
      MulLaws(norm, u[i], part[i]);
    }
  }

  lemma DivideBack(x: real, norm: real)
    requires norm > 0.0
    ensures Mul(norm, x / norm) == x
  {}

  /** When the dimension count is a power of two nothing is discarded or leaked. */
  lemma ReconstructionErrorPow2(v: seq<real>, codes: seq<bv8>, config: Config,
                                norm: real, root: real, scale: real, scaleInv: real)
    requires config.Valid() && |v| == |codes| == config.dimensions == config.paddedDim
    requires forall i :: 0 <= i < |codes| ==> codes[i] as int < Levels(config.bits)
    requires Normalises(scale, config.paddedDim) && norm * 8388608.0 > 1.0
    requires root > 0.0 && root * root == config.dimensions as real && scaleInv * root == 1.0
    ensures var rot := Rotated(NormalisedInput(v, norm), config, scale);
      var w := Reconstruction(codes, config, scaleInv);
      SumSq(Sub(v, Scale(norm, InverseRotated(w, config, scale, config.dimensions))))
        == norm * norm * (ScalarError(codes, rot, config, root) / config.dimensions as real)
  {
    hide Normalised, Normalises, IsPow2, Levels, Reconstruction, Sub, SignedPad, ScalarError;
    ReconstructionError(v, codes, config, norm, root, scale, scaleInv);
  }

  /** Codes whose centroids are nearest up to the slack, and whose scalar errors make up exactly
      the squared error of the restored vector. */
  ghost predicate Accounts(codes: seq<bv8>, v: seq<real>, result: seq<real>, rot: seq<real>, config: Config,
                           norm: real, root: real)
    requires config.Valid() && |rot| == config.paddedDim && |v| == |result| == config.dimensions
  {
    && |codes| == |v| && |v| > 0
    && (forall i :: 0 <= i < |codes| ==> codes[i] as int < Levels(config.bits))
    && SumSq(Sub(v, result)) == norm * norm * (ScalarError(codes, rot, config, root) / |v| as real)
    && forall i, j :: 0 <= i < |v| && 0 <= j < Levels(config.bits) ==>
      Int8.Abs(Deviations(codes, rot, config, root)[i])
        <= Int8.Abs(Mul(rot[i], root) - Centroids(config.bits)[j]) + Slack(config.bits)
  }

  /** Storing a vector and loading it again, for power-of-two dimensions. */
  lemma {:induction false} StoredVector(v: seq<real>, q: QuantisedPolar, result: seq<real>, config: Config,
                     root: real, scale: real, scaleInv: real)
    requires config.Valid() && |v| == config.dimensions == config.paddedDim == q.dimensions
    requires Normalises(scale, config.paddedDim) && q.norm * 8388608.0 > 1.0
    requires root > 0.0 && root * root == config.dimensions as real && scaleInv * root == 1.0
    requires QuantisationOf(q, Rotated(NormalisedInput(v, q.norm), config, scale), config, root)
    requires RestoredFrom(result, q, config, scale, scaleInv)
    ensures |result| == |v|
    ensures exists codes ::
      Accounts(codes, v, result, Rotated(NormalisedInput(v, q.norm), config, scale), config, q.norm, root)
  {
    hide Normalised, Normalises, IsPow2, Levels, Reconstruction, Sub, ScalarError, Centroids, Boundaries, Slack,
      IsCode, SumSq, Mul, Rotated, PacksCodes, Deviations, CodesOf, UnpacksTo;
    var rot := Rotated(NormalisedInput(v, q.norm), config, scale);
    var codes :| HoldsCodes(q.data, codes, rot, config, root);
    var restored :| RestoredCodes(result, restored, q, config, scale, scaleInv);
    assert |codes| == config.dimensions by { CodesLength(codes, rot, config, root); }
    CodeRoundTrip(q.data, codes, config.bits, restored);
    NearestCodes(codes, rot, config, root);
    ReconstructionErrorPow2(v, codes, config, q.norm, root, scale, scaleInv);
    assert Accounts(codes, v, result, rot, config, q.norm, root);
  }

  lemma CodesLength(codes: seq<bv8>, rot: seq<real>, config: Config, root: real)
    requires CodesOf(codes, rot, config, root)
    ensures |codes| == config.dimensions
  {}

  lemma NearestCodes(codes: seq<bv8>, rot: seq<real>, config: Config, root: real)
    requires config.Valid() && |rot| == config.paddedDim && CodesOf(codes, rot, config, root)
    requires forall i :: 0 <= i < |codes| ==> codes[i] as int < Levels(config.bits)
    ensures forall i, j :: 0 <= i < |codes| && 0 <= j < Levels(config.bits) ==>
      Int8.Abs(Deviations(codes, rot, config, root)[i])
        <= Int8.Abs(Mul(rot[i], root) - Centroids(config.bits)[j]) + Slack(config.bits)
  {
    hide Levels, Centroids, Boundaries, Slack, Mul, QuantiseScalar, IsPow2;
    forall i, j | 0 <= i < |codes| && 0 <= j < Levels(config.bits)
      ensures Int8.Abs(Deviations(codes, rot, config, root)[i])
        <= Int8.Abs(Mul(rot[i], root) - Centroids(config.bits)[j]) + Slack(config.bits)
    {
      ScalarQuantiser(Mul(rot[i], root), config.bits, j);
    }
  }
}
