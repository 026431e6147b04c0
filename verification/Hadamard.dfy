/** The in-place Walsh-Hadamard butterfly of the PolarQuant rotation, proved equal to the
    product with the Sylvester-Hadamard matrix. */
module Hadamard {
  import opened Basics

  ghost predicate IsPow2(n: nat) {
    n == 1 || (n > 1 && n % 2 == 0 && IsPow2(n / 2))
  }

  // ----- vectors -----

  function Add(x: seq<real>, y: seq<real>): (r: seq<real>)
    requires |x| == |y|
    ensures |r| == |x| && forall i :: 0 <= i < |x| ==> r[i] == x[i] + y[i]
  {
    seq(|x|, i requires 0 <= i < |x| => x[i] + y[i])
  }

  function Sub(x: seq<real>, y: seq<real>): (r: seq<real>)
    requires |x| == |y|
    ensures |r| == |x| && forall i :: 0 <= i < |x| ==> r[i] == x[i] - y[i]
  {
    seq(|x|, i requires 0 <= i < |x| => x[i] - y[i])
  }

  function Scale(c: real, x: seq<real>): (r: seq<real>)
    ensures |r| == |x| && forall i :: 0 <= i < |x| ==> r[i] == Mul(c, x[i])
  {
    seq(|x|, i requires 0 <= i < |x| => Mul(c, x[i]))
  }

  function SumSq(x: seq<real>): real {
    if x == [] then 0.0 else Mul(x[0], x[0]) + SumSq(x[1..])
  }

  // ----- the matrix: entry (i, j) is -1 to the number of one bits of i AND j -----

  ghost function Sign(i: nat, j: nat): real {
    if i == 0 || j == 0 then 1.0
    else (if i % 2 == 1 && j % 2 == 1 then -1.0 else 1.0) * Sign(i / 2, j / 2)
  }

  /** Row `i` of the matrix times `x`, where `x[0]` sits in column `col`. */
  ghost function RowDot(i: nat, x: seq<real>, col: nat): real {
    if x == [] then 0.0 else Mul(Sign(i, col), x[0]) + RowDot(i, x[1..], col + 1)
  }

  // ----- the transform by halves -----

  /** One butterfly over a whole block: sums in the low half, differences in the high half. */
  ghost function Combine(a: seq<real>, b: seq<real>): (r: seq<real>)
    requires |a| == |b|
    ensures |r| == 2 * |a|
  {
    Add(a, b) + Sub(a, b)
  }

  ghost function Merge(y: seq<real>): (r: seq<real>)
    requires |y| % 2 == 0
    ensures |r| == |y|
  {
    Combine(y[..|y| / 2], y[|y| / 2..])
  }

  ghost function Transform(x: seq<real>): (r: seq<real>)
    requires IsPow2(|x|)
    ensures |r| == |x|
  {
    if |x| == 1 then x
    else Combine(Transform(x[..|x| / 2]), Transform(x[|x| / 2..]))
  }

  /** `Transform` on each of the `c` aligned blocks of length `h`. */
  ghost function Blocks(x: seq<real>, h: nat, c: nat): (r: seq<real>)
    requires IsPow2(h) && IsPow2(c) && |x| == Times(h, c)
    ensures |r| == |x|
    decreases c
  {
    if c == 1 then Transform(x)
    else
      TimesHalf(h, c);
      var m := Times(h, c / 2);
      Blocks(x[..m], h, c / 2) + Blocks(x[m..], h, c / 2)
  }

  /** One butterfly pass: `Merge` on each of the `c` aligned blocks of length `g`. */
  ghost function Stage(y: seq<real>, g: nat, c: nat): (r: seq<real>)
    requires g % 2 == 0 && IsPow2(c) && |y| == Times(g, c)
    ensures |r| == |y|
    decreases c
  {
    if c == 1 then Merge(y)
    else
      TimesHalf(g, c);
      var m := Times(g, c / 2);
      Stage(y[..m], g, c / 2) + Stage(y[m..], g, c / 2)
  }

  /** Multiplication of lengths under a name, so that proofs can hide it. */
  ghost function Times(h: nat, c: nat): nat {
    h * c
  }

  lemma TimesHalf(h: nat, c: nat)
    requires c % 2 == 0
    ensures Times(h, c) == Times(h, c / 2) + Times(h, c / 2)
  {
    assert c == c / 2 + c / 2;
  }

  lemma TimesDouble(h: nat, c: nat)
    ensures Times(h, 2 * c) == Times(2 * h, c)
  {}

  lemma TimesSplit(g: nat, c: nat, p: nat)
    ensures Times(g, c + p) == Times(g, c) + Times(g, p)
    ensures Times(g, 1) == g && Times(g, 0) == 0
  {}

  lemma {:induction false} BlocksOfOne(x: seq<real>)
    requires IsPow2(|x|)
    ensures Times(1, |x|) == |x|
    ensures Blocks(x, 1, |x|) == x
    decreases |x|
  {
    if |x| > 1 {
      var m := |x| / 2;
      BlocksOfOne(x[..m]);
      BlocksOfOne(x[m..]);
    }
  }

  lemma BlocksSplit(x: seq<real>, h: nat, c: nat, lo: seq<real>, hi: seq<real>)
    requires IsPow2(h) && IsPow2(c) && |x| == Times(h, c) && c > 1
    requires x == lo + hi && |lo| == |hi| == Times(h, c / 2)
    ensures Blocks(x, h, c) == Blocks(lo, h, c / 2) + Blocks(hi, h, c / 2)
  {
    hide Times, Transform;
  }

  lemma StageSplit(y: seq<real>, g: nat, c: nat, lo: seq<real>, hi: seq<real>)
    requires g % 2 == 0 && IsPow2(c) && |y| == Times(g, c) && c > 1
    requires y == lo + hi && |lo| == |hi| == Times(g, c / 2)
    ensures Stage(y, g, c) == Stage(lo, g, c / 2) + Stage(hi, g, c / 2)
  {
    hide Times, Merge;
  }

  /** A pass over blocks of length `2 * h` turns transformed blocks of length `h` into
      transformed blocks of twice the length. */
  lemma {:induction false} StageMergesBlocks(x: seq<real>, h: nat, c: nat)
    requires IsPow2(h) && IsPow2(c) && |x| == Times(h, 2 * c)
    ensures IsPow2(2 * h) && IsPow2(2 * c) && |x| == Times(2 * h, c)
    ensures Stage(Blocks(x, h, 2 * c), 2 * h, c) == Blocks(x, 2 * h, c)
    decreases c
  {
    assert (2 * c) / 2 == c && (2 * h) / 2 == h;
    TimesDouble(h, c);
    TimesDouble(h, c / 2);
    if c == 1 {
      StageMergesPair(x, h);
    } else {
      TimesHalf(2 * h, c);
      assert 2 * (c / 2) == c;
      var m := Times(h, c);
      var lo, hi := x[..m], x[m..];
      hide Times, Stage, Blocks;
      assert x == lo + hi;
      StageMergesBlocks(lo, h, c / 2);
      StageMergesBlocks(hi, h, c / 2);
      BlocksSplit(x, h, 2 * c, lo, hi);
      StageSplit(Blocks(x, h, 2 * c), 2 * h, c, Blocks(lo, h, c), Blocks(hi, h, c));
      BlocksSplit(x, 2 * h, c, lo, hi);
    }
  }

  lemma StageMergesPair(x: seq<real>, h: nat)
    requires IsPow2(h) && |x| == Times(h, 2)
    ensures IsPow2(2 * h) && IsPow2(2) && |x| == Times(2 * h, 1)
    ensures Stage(Blocks(x, h, 2), 2 * h, 1) == Blocks(x, 2 * h, 1)
  {
    assert (2 * h) / 2 == h;
    BlocksSplit(x, h, 2, x[..h], x[h..]);
    hide IsPow2, Combine;
    var a, b := Transform(x[..h]), Transform(x[h..]);
    assert Blocks(x, h, 2) == a + b;
    assert (a + b)[..h] == a && (a + b)[h..] == b;
  }

  /** Block `q` of a pass depends on block `q` of its input alone. */
  lemma {:induction false} StageBlock(y: seq<real>, g: nat, c: nat, q: nat, i: nat)
    requires g > 0 && g % 2 == 0 && IsPow2(c) && |y| == Times(g, c) && q < c && i == Times(g, q)
    ensures i + g <= |y|
    ensures Stage(y, g, c)[i..i + g] == Merge(y[i..i + g])
    decreases c
  {
    BlockFits(g, c, q);
    if c == 1 {
      TimesSplit(g, 0, 0);
      assert y[0..g] == y;
    } else {
      TimesHalf(g, c);
      var m := Times(g, c / 2);
      var lo, hi := y[..m], y[m..];
      assert y == lo + hi;
      StageSplit(y, g, c, lo, hi);
      var p := if q < c / 2 then q else q - c / 2;
      var j := Times(g, p);
      BlockFits(g, c / 2, p);
      TimesSplit(g, c / 2, p);
      hide Times, Merge, Stage;
      StageBlock(if q < c / 2 then lo else hi, g, c / 2, p, j);
      SliceOfHalf(lo, hi, i, j, g);
      SliceOfHalf(Stage(lo, g, c / 2), Stage(hi, g, c / 2), i, j, g);
    }
  }

  lemma SliceOfHalf(lo: seq<real>, hi: seq<real>, i: nat, j: nat, g: nat)
    requires |lo| == |hi| && g > 0 && j + g <= |lo| && (i == j || i == |lo| + j)
    ensures (lo + hi)[i..i + g] == (if i < |lo| then lo else hi)[j..j + g]
  {}

  lemma BlockFits(g: nat, c: nat, q: nat)
    requires q < c
    ensures Times(g, q) + g <= Times(g, c)
  {
    assert g * c == g * q + g + g * (c - q - 1);
  }

  /** The three nested loops and the final scaling. `scale` stands for 1/sqrt(n). */
  method FastWalshHadamard(data: array<real>, scale: real)
    requires IsPow2(data.Length) && Normalises(scale, data.Length)
    modifies data
    ensures data[..] == Normalised(scale, old(data[..]))
    ensures forall i :: 0 <= i < data.Length ==> data[i] == scale * RowDot(i, old(data[..]), 0)
  {
    hide Transform, Blocks, Normalises, RowDot, Mul;
    var n := data.Length;
    ghost var x := data[..];
    var h := 1;
    ghost var c := n;
    BlocksOfOne(x);
    while h < n
      invariant h > 0 && c > 0 && IsPow2(h) && IsPow2(c) && n == Times(h, c)
      invariant data[..] == Blocks(x, h, c)
      decreases n - h
    {
      ghost var k := HalveCount(h, c, n);
      ButterflyPass(data, h, k);
      StageMergesBlocks(x, h, k);
      h, c := h * 2, k;
    }
    LastBlock(x, h, c);
    ScaleInPlace(data, scale);
    NormalisedIsMatrixProduct(scale, x);
  }

  lemma HalveCount(h: nat, c: nat, n: nat) returns (k: nat)
    requires h < n == Times(h, c) && IsPow2(c)
    ensures c == 2 * k && IsPow2(k) && k > 0 && n == Times(2 * h, k)
  {
    k := c / 2;
    TimesSplit(h, 0, 0);
    TimesDouble(h, k);
  }

  lemma LastBlock(x: seq<real>, h: nat, c: nat)
    requires IsPow2(h) && IsPow2(c) && |x| == Times(h, c) && |x| <= h && h > 0
    ensures IsPow2(|x|) && Blocks(x, h, c) == Transform(x)
  {
    if c > 1 {
      BlockFits(h, c, 1);
    }
  }

  /** The closing loop of the transform. */
  method ScaleInPlace(data: array<real>, scale: real)
    modifies data
    ensures data[..] == Scale(scale, old(data[..]))
  {
    ghost var y := data[..];
    for k := 0 to data.Length
      invariant forall p :: 0 <= p < data.Length ==> data[p] == if p < k then Mul(scale, y[p]) else y[p]
    {
      data[k] := data[k] * scale;
    }
  }

  /** One iteration of the outer loop: a butterfly over every block of length `2 * h`. */
  method ButterflyPass(data: array<real>, h: nat, ghost c: nat)
    requires h > 0 && IsPow2(c) && data.Length == Times(2 * h, c)
    modifies data
    ensures data[..] == Stage(old(data[..]), 2 * h, c)
  {
    hide Stage, Times, Merge;
    ghost var y := data[..];
    ghost var w := Stage(y, 2 * h, c);
    ghost var q := 0;
    var i := 0;
    TimesSplit(2 * h, 0, 0);
    while i < data.Length
      invariant q <= c && i == Times(2 * h, q) <= data.Length
      invariant data[..i] == w[..i] && data[i..] == y[i..]
      decreases data.Length - i
    {
      BlockFits(2 * h, c, q);
      StageBlock(y, 2 * h, c, q, i);
      TimesSplit(2 * h, q, 1);
      ghost var z := data[..];
      Butterfly(data, i, h);
      ExtendPrefix(data[..], z, w, y, i, 2 * h);
      i := i + h * 2;
      q := q + 1;
    }
  }

  lemma ExtendPrefix(d: seq<real>, z: seq<real>, w: seq<real>, y: seq<real>, i: nat, g: nat)
    requires i + g <= |d| == |z| == |w| == |y| && g % 2 == 0
    requires z[..i] == w[..i] && z[i..] == y[i..] && w[i..i + g] == Merge(y[i..i + g])
    requires d[..i] == z[..i] && d[i + g..] == z[i + g..] && d[i..i + g] == Merge(z[i..i + g])
    ensures d[..i + g] == w[..i + g] && d[i + g..] == y[i + g..]
  {
    hide *;
    assert z[i..i + g] == z[i..][..g] == y[i..i + g];
    assert d[..i + g] == d[..i] + d[i..i + g];
    assert w[..i + g] == w[..i] + w[i..i + g];
    assert z[i + g..] == z[i..][g..] == y[i + g..];
  }

  /** The innermost loop: the block of length `2 * h` at offset `i`. */
  method Butterfly(data: array<real>, i: nat, h: nat)
    requires i + 2 * h <= data.Length
    modifies data
    ensures data[i..i + 2 * h] == Merge(old(data[i..i + 2 * h]))
    ensures data[..i] == old(data[..i]) && data[i + 2 * h..] == old(data[i + 2 * h..])
  {
    hide Merge;
    ghost var z := data[..];
    for j := i to i + h
      invariant forall p :: i <= p < j ==> data[p] == z[p] + z[p + h]
      invariant forall p :: i + h <= p < j + h ==> data[p] == z[p - h] - z[p]
      invariant forall p :: 0 <= p < i || j <= p < i + h || j + h <= p < data.Length ==> data[p] == z[p]
    {
      var x := data[j];
      var y := data[j + h];
      data[j] := x + y;
      data[j + h] := x - y;
    }
    ButterflyIsMerge(data[..], z, i, h);
  }

  lemma ButterflyIsMerge(d: seq<real>, z: seq<real>, i: nat, h: nat)
    requires i + 2 * h <= |d| == |z|
    requires forall p :: i <= p < i + h ==> d[p] == z[p] + z[p + h]
    requires forall p :: i + h <= p < i + 2 * h ==> d[p] == z[p - h] - z[p]
    requires forall p :: 0 <= p < i || i + 2 * h <= p < |d| ==> d[p] == z[p]
    ensures d[i..i + 2 * h] == Merge(z[i..i + 2 * h])
    ensures d[..i] == z[..i] && d[i + 2 * h..] == z[i + 2 * h..]
  {
    var b, e := z[i..i + 2 * h], d[i..i + 2 * h];
    var s, t := Add(b[..h], b[h..]), Sub(b[..h], b[h..]);
    forall p | 0 <= p < h ensures e[p] == s[p] && e[h + p] == t[p] {
      assert d[i + p] == z[i + p] + z[i + p + h];
      assert d[i + h + p] == z[i + p] - z[i + h + p];
    }
    assert e == s + t;
  }

  // ----- the transform is the matrix product -----

  /** Adding the top bit to a row or a column leaves the entry alone; adding it to both
      flips the entry. */
  lemma {:induction false} SignTopBit(m: nat, i: nat, j: nat)
    requires IsPow2(m) && i < m && j < m
    ensures Sign(i, m + j) == Sign(i, j) == Sign(m + i, j)
    ensures Sign(m + i, m + j) == -Sign(i, j)
  {
    if m > 1 {
      SignTopBit(m / 2, i / 2, j / 2);
      assert (m + i) / 2 == m / 2 + i / 2 && (m + j) / 2 == m / 2 + j / 2;
      assert (m + i) % 2 == i % 2 && (m + j) % 2 == j % 2;
    } else {
      assert Sign(1, 1) == -1.0 * Sign(0, 0);
    }
  }

  lemma {:induction false} RowDotTopBit(m: nat, i: nat, x: seq<real>, col: nat)
    requires IsPow2(m) && i < m && col + |x| <= m
    ensures RowDot(i, x, m + col) == RowDot(i, x, col) == RowDot(m + i, x, col)
    ensures RowDot(m + i, x, m + col) == -RowDot(i, x, col)
    decreases |x|
  {
    hide IsPow2, Sign, Mul;
    if x != [] {
      SignTopBit(m, i, col);
      RowDotTopBit(m, i, x[1..], col + 1);
      MulLaws(Sign(i, col), x[0], 0.0);
    }
  }

  lemma {:induction false} RowDotConcat(i: nat, x: seq<real>, y: seq<real>, col: nat)
    ensures RowDot(i, x + y, col) == RowDot(i, x, col) + RowDot(i, y, col + |x|)
    decreases |x|
  {
    hide Sign, Mul;
    if x == [] {
      assert x + y == y;
    } else {
      assert (x + y)[1..] == x[1..] + y;
      RowDotConcat(i, x[1..], y, col + 1);
    }
  }

  /** Both halves of a transform, without the recursion. */
  lemma TransformHalves(x: seq<real>) returns (m: nat, a: seq<real>, b: seq<real>)
    requires IsPow2(|x|) && |x| > 1
    ensures IsPow2(m) && |x| == 2 * m && x == x[..m] + x[m..]
    ensures a == Transform(x[..m]) && b == Transform(x[m..])
    ensures Transform(x) == Add(a, b) + Sub(a, b)
  {
    m := |x| / 2;
    a, b := Transform(x[..m]), Transform(x[m..]);
  }

  lemma {:induction false} TransformIsMatrixProduct(x: seq<real>, i: nat)
    requires IsPow2(|x|) && i < |x|
    ensures Transform(x)[i] == RowDot(i, x, 0)
    decreases |x|
  {
    if |x| == 1 {
      assert RowDot(0, x[1..], 1) == 0.0;
    } else {
      var m, a, b := TransformHalves(x);
      var k := if i < m then i else i - m;
      TransformIsMatrixProduct(x[..m], k);
      TransformIsMatrixProduct(x[m..], k);
      MatrixProductStep(x, m, a, b, i, k);
    }
  }

  lemma MatrixProductStep(x: seq<real>, m: nat, a: seq<real>, b: seq<real>, i: nat, k: nat)
    requires IsPow2(m) && |x| == 2 * m && |a| == |b| == m && k < m
    requires i == k || i == m + k
    requires a[k] == RowDot(k, x[..m], 0) && b[k] == RowDot(k, x[m..], 0)
    ensures (Add(a, b) + Sub(a, b))[i] == RowDot(i, x, 0)
  {
    hide *;
    var lo, hi := x[..m], x[m..];
    RowDotConcat(i, lo, hi, 0);
    RowDotTopBit(m, k, lo, 0);
    RowDotTopBit(m, k, hi, 0);
    assert x == lo + hi;
    if i == k {
      assert (Add(a, b) + Sub(a, b))[i] == Add(a, b)[k];
    } else {
      assert (Add(a, b) + Sub(a, b))[i] == Sub(a, b)[k];
    }
  }

  lemma NormalisedIsMatrixProduct(scale: real, x: seq<real>)
    requires IsPow2(|x|)
    ensures forall i :: 0 <= i < |x| ==> Normalised(scale, x)[i] == scale * RowDot(i, x, 0)
  {
    hide RowDot, Transform, IsPow2;
    forall i | 0 <= i < |x| ensures Normalised(scale, x)[i] == scale * RowDot(i, x, 0) {
      TransformIsMatrixProduct(x, i);
    }
  }

  // ----- self-inverse and energy -----

  lemma AddSubConcat(a: seq<real>, b: seq<real>, c: seq<real>, d: seq<real>)
    requires |a| == |c| && |b| == |d|
    ensures Add(a + b, c + d) == Add(a, c) + Add(b, d)
    ensures Sub(a + b, c + d) == Sub(a, c) + Sub(b, d)
    ensures Add(a + b, c + d)[..|a|] == Add(a, c) && Add(a + b, c + d)[|a|..] == Add(b, d)
    ensures Sub(a + b, c + d)[..|a|] == Sub(a, c) && Sub(a + b, c + d)[|a|..] == Sub(b, d)
  {}

  lemma {:induction false} TransformLinear(x: seq<real>, y: seq<real>)
    requires IsPow2(|x|) && |x| == |y|
    ensures Transform(Add(x, y)) == Add(Transform(x), Transform(y))
    ensures Transform(Sub(x, y)) == Sub(Transform(x), Transform(y))
    decreases |x|
  {
    if |x| > 1 {
      hide Add, Sub;
      var m, a, b := TransformHalves(x);
      var _, c, d := TransformHalves(y);
      var _, p, q := TransformHalves(Add(x, y));
      var _, r, s := TransformHalves(Sub(x, y));
      AddSubConcat(x[..m], x[m..], y[..m], y[m..]);
      TransformLinear(x[..m], y[..m]);
      TransformLinear(x[m..], y[m..]);
      AddSubConcat(Add(a, b), Sub(a, b), Add(c, d), Sub(c, d));
      Interchange(a, b, c, d);
    }
  }

  lemma Interchange(a: seq<real>, b: seq<real>, c: seq<real>, d: seq<real>)
    requires |a| == |b| == |c| == |d|
    ensures Add(Add(a, c), Add(b, d)) == Add(Add(a, b), Add(c, d))
    ensures Sub(Add(a, c), Add(b, d)) == Add(Sub(a, b), Sub(c, d))
    ensures Add(Sub(a, c), Sub(b, d)) == Sub(Add(a, b), Add(c, d))
    ensures Sub(Sub(a, c), Sub(b, d)) == Sub(Sub(a, b), Sub(c, d))
  {}

  lemma ScaleConcat(c: real, x: seq<real>, y: seq<real>)
    ensures Scale(c, x + y) == Scale(c, x) + Scale(c, y)
  {
    hide Mul;
  }

  lemma ScaleAddSub(c: real, a: seq<real>, b: seq<real>)
    requires |a| == |b|
    ensures Scale(c, Add(a, b)) == Add(Scale(c, a), Scale(c, b))
    ensures Scale(c, Sub(a, b)) == Sub(Scale(c, a), Scale(c, b))
  {
    hide Mul;
    forall i | 0 <= i < |a|
      ensures Scale(c, Add(a, b))[i] == Add(Scale(c, a), Scale(c, b))[i]
      ensures Scale(c, Sub(a, b))[i] == Sub(Scale(c, a), Scale(c, b))[i]
    {
      MulLaws(c, a[i], b[i]);
    }
  }

  lemma {:induction false} TransformScale(c: real, x: seq<real>)
    requires IsPow2(|x|)
    ensures Transform(Scale(c, x)) == Scale(c, Transform(x))
    decreases |x|
  {
    if |x| > 1 {
      var m, a, b := TransformHalves(x);
      var _, p, q := TransformHalves(Scale(c, x));
      hide *;
      TransformScale(c, x[..m]);
      TransformScale(c, x[m..]);
      ScaleConcat(c, x[..m], x[m..]);
      assert Scale(c, x)[..m] == Scale(c, x[..m]) && Scale(c, x)[m..] == Scale(c, x[m..]);
      ScaleAddSub(c, a, b);
      ScaleConcat(c, Add(a, b), Sub(a, b));
    }
  }

  lemma {:induction false} TransformTwice(x: seq<real>)
    requires IsPow2(|x|)
    ensures Transform(Transform(x)) == Scale(|x| as real, x)
    decreases |x|
  {
    if |x| > 1 {
      var m, a, b := TransformHalves(x);
      var w := Transform(x);
      var _, p, q := TransformHalves(w);
      hide Add, Sub, Scale;
      assert w[..m] == Add(a, b) && w[m..] == Sub(a, b);
      TransformLinear(a, b);
      TransformTwice(x[..m]);
      TransformTwice(x[m..]);
      HalvesTwice(x, m);
    }
  }

  lemma HalvesTwice(x: seq<real>, m: nat)
    requires |x| == 2 * m
    ensures var u, v := Scale(m as real, x[..m]), Scale(m as real, x[m..]);
      Add(Add(u, v), Sub(u, v)) + Sub(Add(u, v), Sub(u, v)) == Scale(|x| as real, x)
  {
    hide *;
    var n := m as real;
    assert |x| as real == n + n;
    var u, v := Scale(n, x[..m]), Scale(n, x[m..]);
    var r := Add(Add(u, v), Sub(u, v)) + Sub(Add(u, v), Sub(u, v));
    forall i | 0 <= i < |x| ensures r[i] == Scale(n + n, x)[i] {
      MulDouble(n, x[i]);
    }
  }

  lemma MulDouble(n: real, a: real)
    ensures Mul(n + n, a) == Mul(n, a) + Mul(n, a)
  {}

  lemma {:induction false} SumSqConcat(x: seq<real>, y: seq<real>)
    ensures SumSq(x + y) == SumSq(x) + SumSq(y)
    decreases |x|
  {
    hide Mul;
    if x == [] {
      assert x + y == y;
    } else {
      assert (x + y)[1..] == x[1..] + y;
      SumSqConcat(x[1..], y);
    }
  }

  lemma Parallelogram(a: real, b: real)
    ensures Mul(a + b, a + b) + Mul(a - b, a - b) == 2.0 * (Mul(a, a) + Mul(b, b))
  {}

  /** A single coordinate adds its square, so no square exceeds the sum. */
  lemma {:induction false} SumSqBounds(x: seq<real>, i: nat)
    requires i < |x|
    ensures SumSq([x[i]]) == x[i] * x[i] && 0.0 <= x[i] * x[i] <= SumSq(x)
  {
    assert [x[i]][1..] == [];
    assert x == x[..i] + ([x[i]] + x[i + 1..]);
    SumSqConcat(x[..i], [x[i]] + x[i + 1..]);
    SumSqConcat([x[i]], x[i + 1..]);
    SumSqNonNegative(x[..i]);
    SumSqNonNegative(x[i + 1..]);
  }

  lemma {:induction false} SumSqNonNegative(x: seq<real>)
    ensures SumSq(x) >= 0.0
  {
    if x != [] { SumSqNonNegative(x[1..]); }
  }

  lemma {:induction false} SumSqButterfly(a: seq<real>, b: seq<real>)
    requires |a| == |b|
    ensures SumSq(Add(a, b)) + SumSq(Sub(a, b)) == 2.0 * (SumSq(a) + SumSq(b))
  {
    hide Mul;
    if a != [] {
      SumSqButterfly(a[1..], b[1..]);
      assert Add(a, b)[1..] == Add(a[1..], b[1..]) && Sub(a, b)[1..] == Sub(a[1..], b[1..]);
      Parallelogram(a[0], b[0]);
    }
  }

  lemma {:induction false} TransformEnergy(x: seq<real>)
    requires IsPow2(|x|)
    ensures SumSq(Transform(x)) == Mul(|x| as real, SumSq(x))
    decreases |x|
  {
    if |x| > 1 {
      var m, a, b := TransformHalves(x);
      var n := m as real;
      assert |x| as real == n + n;
      hide *;
      TransformEnergy(x[..m]);
      TransformEnergy(x[m..]);
      SumSqConcat(Add(a, b), Sub(a, b));
      SumSqButterfly(a, b);
      SumSqConcat(x[..m], x[m..]);
      var s, t := SumSq(x[..m]), SumSq(x[m..]);
      MulDouble(n, s + t);
      MulLaws(n, s, t);
    }
  }

  lemma {:induction false} SumSqScale(c: real, x: seq<real>)
    ensures SumSq(Scale(c, x)) == Mul(Mul(c, c), SumSq(x))
  {
    if x != [] {
      hide Mul;
      SumSqScale(c, x[1..]);
      assert Scale(c, x)[1..] == Scale(c, x[1..]);
      MulLaws(Mul(c, c), Mul(x[0], x[0]), SumSq(x[1..]));
      MulSquare(c, x[0]);
    }
  }

  lemma MulSquare(c: real, a: real)
    ensures Mul(Mul(c, a), Mul(c, a)) == Mul(Mul(c, c), Mul(a, a))
  {
    assert (c * a) * (c * a) == (c * c) * (a * a);
  }

  /** What `FastWalshHadamard` leaves in its buffer. */
  ghost function Normalised(scale: real, x: seq<real>): (r: seq<real>)
    requires IsPow2(|x|)
    ensures |r| == |x|
  {
    Scale(scale, Transform(x))
  }

  /** `scale` is plus or minus 1/sqrt(n). */
  ghost predicate Normalises(scale: real, n: nat) {
    scale * scale * n as real == 1.0
  }

  lemma ScaleTwice(scale: real, n: nat, x: seq<real>)
    requires Normalises(scale, n)
    ensures Scale(scale, Scale(scale, Scale(n as real, x))) == x
  {
    hide Scale;
    forall i | 0 <= i < |x| ensures Mul(scale, Mul(scale, Mul(n as real, x[i]))) == x[i] {
      assert scale * (scale * (n as real * x[i])) == (scale * scale * n as real) * x[i];
    }
  }

  /** With the normalising scale the transform is its own inverse. */
  lemma NormalisedInvolution(scale: real, x: seq<real>)
    requires IsPow2(|x|) && Normalises(scale, |x|)
    ensures Normalised(scale, Normalised(scale, x)) == x
  {
    hide Transform, Mul, Scale, IsPow2, Normalises;
    TransformScale(scale, Transform(x));
    TransformTwice(x);
    ScaleTwice(scale, |x|, x);
  }

  /** With the normalising scale the transform preserves the sum of squares. */
  lemma {:induction false} NormalisedEnergy(scale: real, x: seq<real>)
    requires IsPow2(|x|) && Normalises(scale, |x|)
    ensures SumSq(Normalised(scale, x)) == SumSq(x)
  {
    hide Transform, Scale, SumSq, IsPow2, Mul, Normalises;
    TransformEnergy(x);
    SumSqScale(scale, Transform(x));
    NormalisesCancels(scale, |x|, SumSq(x));
  }

  lemma NormalisesCancels(scale: real, n: nat, s: real)
    requires Normalises(scale, n)
    ensures Mul(Mul(scale, scale), Mul(n as real, s)) == s
  {
    assert (scale * scale) * (n as real * s) == (scale * scale * n as real) * s;
  }

  lemma NormalisedSub(scale: real, x: seq<real>, y: seq<real>)
    requires IsPow2(|x|) && |x| == |y|
    ensures Normalised(scale, Sub(x, y)) == Sub(Normalised(scale, x), Normalised(scale, y))
  {
    TransformLinear(x, y);
    hide Transform, Mul, Scale, IsPow2;
    ScaleAddSub(scale, Transform(x), Transform(y));
  }
}
