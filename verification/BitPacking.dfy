/** Bits and b-bit codes packed most significant bit first into bytes. */
module BitPacking {

  /** Bit `g` of a byte string, counted from the most significant bit of the first byte. */
  predicate BitAt(data: seq<bv8>, g: nat)
    requires g < 8 * |data|
  {
    (data[g / 8] >> (7 - g % 8)) & 1 == 1
  }

  /** Most significant bit first. */
  lemma BitOrder(b: bv8)
    ensures BitAt([b], 0) == (b & 0x80 != 0) && BitAt([b], 1) == (b & 0x40 != 0)
    ensures BitAt([b], 2) == (b & 0x20 != 0) && BitAt([b], 3) == (b & 0x10 != 0)
    ensures BitAt([b], 4) == (b & 0x08 != 0) && BitAt([b], 5) == (b & 0x04 != 0)
    ensures BitAt([b], 6) == (b & 0x02 != 0) && BitAt([b], 7) == (b & 0x01 != 0)
  {}

  /** The least number of bytes that hold `n` bits. */
  lemma BytesNeeded(n: nat)
    ensures n <= 8 * DivCeil8(n) < n + 8
  {}

  function DivCeil8(n: nat): nat {
    (n + 7) / 8
  }

  method SetBit(data: array<bv8>, g: nat)
    requires g < 8 * data.Length
    modifies data
    ensures forall p :: 0 <= p < 8 * data.Length ==>
      BitAt(data[..], p) == (BitAt(old(data[..]), p) || p == g)
  {
    data[g / 8] := data[g / 8] | (1 << (7 - g % 8));
  }

  /** The signs of a vector, one bit per coordinate: set where the coordinate is at least zero. */
  ghost predicate PacksBits(data: seq<bv8>, bits: seq<bool>) {
    && |data| == DivCeil8(|bits|)
    && forall p :: 0 <= p < 8 * |data| ==> BitAt(data, p) == (p < |bits| && bits[p])
  }

  method PackSigns(signs: seq<bool>) returns (data: seq<bv8>)
    ensures PacksBits(data, signs)
  {
    var buf := new bv8[DivCeil8(|signs|)](_ => 0);
    for i := 0 to |signs|
      invariant forall p :: 0 <= p < 8 * buf.Length ==> BitAt(buf[..], p) == (p < i && signs[p])
    {
      if signs[i] {
        SetBit(buf, i);
      }
    }
    data := buf[..];
  }

  function UnpackSigns(data: seq<bv8>, count: nat): seq<bool>
    requires count <= 8 * |data|
  {
    seq(count, i requires 0 <= i < count => BitAt(data, i))
  }

  lemma {:induction false} SignRoundTrip(data: seq<bv8>, signs: seq<bool>)
    requires PacksBits(data, signs)
    ensures UnpackSigns(data, |signs|) == signs
  {
    forall i | 0 <= i < |signs| ensures UnpackSigns(data, |signs|)[i] == signs[i] {
      assert BitAt(data, i) == signs[i];
    }
  }

  /** Equal bits mean equal bytes: the packing is determined by the bits it holds. */
  lemma PackedBitsUnique(data: seq<bv8>, other: seq<bv8>, bits: seq<bool>)
    requires PacksBits(data, bits) && PacksBits(other, bits)
    ensures data == other
  {
    forall k | 0 <= k < |data| ensures data[k] == other[k] {
      assert forall p :: 8 * k <= p < 8 * k + 8 ==> BitAt(data, p) == BitAt(other, p);
      BytesEqual(data, other, k);
    }
  }

  lemma BytesEqual(data: seq<bv8>, other: seq<bv8>, k: nat)
    requires k < |data| && k < |other|
    requires forall p :: 8 * k <= p < 8 * k + 8 ==> BitAt(data, p) == BitAt(other, p)
    ensures data[k] == other[k]
  {
    assert BitAt(data, 8 * k) == BitAt(other, 8 * k);
    assert BitAt(data, 8 * k + 1) == BitAt(other, 8 * k + 1);
    assert BitAt(data, 8 * k + 2) == BitAt(other, 8 * k + 2);
    assert BitAt(data, 8 * k + 3) == BitAt(other, 8 * k + 3);
    assert BitAt(data, 8 * k + 4) == BitAt(other, 8 * k + 4);
    assert BitAt(data, 8 * k + 5) == BitAt(other, 8 * k + 5);
    assert BitAt(data, 8 * k + 6) == BitAt(other, 8 * k + 6);
    assert BitAt(data, 8 * k + 7) == BitAt(other, 8 * k + 7);
  }

  /** The byte of a number below 256. */
  function ByteOf(n: nat): (b: bv8)
    requires n < 256
    ensures b as int == n
  {
    if n == 0 then 0 else ByteOf(n - 1) + 1
  }

  // ----- b-bit codes -----

  /** Bit `b` of a code of `bits` bits, most significant first. */
  predicate CodeBit(code: bv8, bits: nat, b: nat)
    requires b < bits <= 8
  {
    (code >> (bits - 1 - b)) & 1 == 1
  }

  predicate IsCode(code: bv8, bits: nat)
    requires bits < 8
  {
    code < (1 << bits)
  }

  /** The bit stream of a code sequence: bit `g` is bit `g % bits` of code `g / bits`. */
  ghost predicate StreamBit(codes: seq<bv8>, bits: nat, g: nat)
    requires 2 <= bits <= 4
  {
    g / bits < |codes| && CodeBit(codes[g / bits], bits, g % bits)
  }

  ghost predicate PacksCodes(data: seq<bv8>, codes: seq<bv8>, bits: nat)
    requires 2 <= bits <= 4
  {
    && |data| == DivCeil8(Offset(|codes|, bits, 0))
    && forall g :: 0 <= g < 8 * |data| ==> BitAt(data, g) == StreamBit(codes, bits, g)
  }

  /** Where bit `b` of code `i` goes. */
  function Offset(i: nat, bits: nat, b: nat): nat {
    i * bits + b
  }

  lemma OffsetSplits(i: nat, bits: nat, b: nat)
    requires b < bits && 2 <= bits <= 4
    ensures Offset(i, bits, b) / bits == i && Offset(i, bits, b) % bits == b
    ensures Offset(i + 1, bits, 0) == Offset(i, bits, bits)
  {}

  lemma OffsetBelow(i: nat, n: nat, bits: nat, b: nat)
    requires i < n && b < bits && 2 <= bits <= 4
    ensures Offset(i, bits, b) < Offset(n, bits, 0) <= 8 * DivCeil8(Offset(n, bits, 0))
  {}

  lemma BelowOffset(n: nat, bits: nat, g: nat)
    requires 2 <= bits <= 4
    ensures g < Offset(n, bits, 0) <==> g / bits < n
  {}

  method PackCodes(codes: seq<bv8>, bits: nat) returns (data: seq<bv8>)
    requires 2 <= bits <= 4
    ensures PacksCodes(data, codes, bits)
  {
    hide Offset, CodeBit, BitAt;
    var totalBits := Offset(|codes|, bits, 0);
    var buf := new bv8[DivCeil8(totalBits)](_ => 0);
    ClearedBits(buf[..]);
    ghost var g := 0;
    OffsetZero(bits);
    for i := 0 to |codes|
      invariant Offset(i, bits, 0) == g <= totalBits
      invariant forall p :: 0 <= p < 8 * buf.Length ==> BitAt(buf[..], p) == (p < g && StreamBit(codes, bits, p))
    {
      OffsetNext(i, bits, 0);
      for b := 0 to bits
        invariant Offset(i, bits, b) == g <= totalBits
        invariant forall p :: 0 <= p < 8 * buf.Length ==> BitAt(buf[..], p) == (p < g && StreamBit(codes, bits, p))
      {
        var globalBit := Offset(i, bits, b);
        OffsetSplits(i, bits, b);
        OffsetBelow(i, |codes|, bits, b);
        OffsetNext(i, bits, b);
        if CodeBit(codes[i], bits, b) {
          SetBit(buf, globalBit);
        }
        g := g + 1;
      }
      OffsetNext(i, bits, bits);
    }
    forall p | 0 <= p < 8 * buf.Length ensures BitAt(buf[..], p) == StreamBit(codes, bits, p) {
      BelowOffset(|codes|, bits, p);
    }
    data := buf[..];
  }

  lemma ClearedBits(data: seq<bv8>)
    requires forall k :: 0 <= k < |data| ==> data[k] == 0
    ensures forall p :: 0 <= p < 8 * |data| ==> !BitAt(data, p)
  {}

  lemma OffsetZero(bits: nat)
    ensures Offset(0, bits, 0) == 0
  {}

  lemma OffsetNext(i: nat, bits: nat, b: nat)
    ensures Offset(i, bits, b + 1) == Offset(i, bits, b) + 1
    ensures Offset(i + 1, bits, 0) == Offset(i, bits, bits)
  {}

  /** The first `b` bits of code `i` read from the stream, the rest still clear. */
  ghost predicate PartCode(data: seq<bv8>, i: nat, bits: nat, b: nat, code: bv8)
    requires 2 <= bits <= 4
  {
    && IsCode(code, bits)
    && forall k :: 0 <= k < bits ==> (
      && Offset(i, bits, k) < 8 * |data|
      && CodeBit(code, bits, k) == (k < b && BitAt(data, Offset(i, bits, k))))
  }

  ghost predicate UnpacksTo(data: seq<bv8>, count: nat, bits: nat, codes: seq<bv8>)
    requires 2 <= bits <= 4
  {
    |codes| == count && forall i :: 0 <= i < count ==> PartCode(data, i, bits, bits, codes[i])
  }

  method UnpackCodes(data: seq<bv8>, count: nat, bits: nat) returns (codes: seq<bv8>)
    requires 2 <= bits <= 4 && Offset(count, bits, 0) <= 8 * |data|
    ensures UnpacksTo(data, count, bits, codes)
  {
    hide Offset, PartCode;
    codes := [];
    for i := 0 to count
      invariant UnpacksTo(data, i, bits, codes)
    {
      var code: bv8 := 0;
      NoPart(data, i, count, bits);
      for b := 0 to bits
        invariant PartCode(data, i, bits, b, code)
      {
        var globalBit := Offset(i, bits, b);
        PartInRange(data, i, bits, b, code);
        var bitVal: bv8 := if BitAt(data, globalBit) then 1 else 0;
        NextPart(data, i, bits, b, code, bitVal);
        code := code | (bitVal << (bits - 1 - b));
      }
      codes := codes + [code];
    }
  }

  lemma NoPart(data: seq<bv8>, i: nat, count: nat, bits: nat)
    requires 2 <= bits <= 4 && i < count && Offset(count, bits, 0) <= 8 * |data|
    ensures PartCode(data, i, bits, 0, 0)
  {
    ZeroCode(bits);
    hide Offset, BitAt, CodeBit, IsCode;
    forall k | 0 <= k < bits ensures Offset(i, bits, k) < 8 * |data| {
      OffsetBelow(i, count, bits, k);
    }
  }

  lemma PartInRange(data: seq<bv8>, i: nat, bits: nat, b: nat, code: bv8)
    requires 2 <= bits <= 4 && b < bits && PartCode(data, i, bits, b, code)
    ensures Offset(i, bits, b) < 8 * |data|
  {}

  lemma NextPart(data: seq<bv8>, i: nat, bits: nat, b: nat, code: bv8, v: bv8)
    requires 2 <= bits <= 4 && b < bits && PartCode(data, i, bits, b, code)
    requires Offset(i, bits, b) < 8 * |data| && v == if BitAt(data, Offset(i, bits, b)) then 1 else 0
    ensures PartCode(data, i, bits, b + 1, code | (v << (bits - 1 - b)))
  {
    hide Offset, BitAt, CodeBit, IsCode;
    OrBit(code, bits, b, v);
  }

  lemma ZeroCode(bits: nat)
    requires 2 <= bits <= 4
    ensures IsCode(0, bits) && forall k :: 0 <= k < bits ==> !CodeBit(0, bits, k)
  {}

  lemma OrBit(code: bv8, bits: nat, b: nat, v: bv8)
    requires 2 <= bits <= 4 && b < bits && v <= 1 && IsCode(code, bits) && !CodeBit(code, bits, b)
    ensures IsCode(code | (v << (bits - 1 - b)), bits)
    ensures forall k :: 0 <= k < bits ==>
      CodeBit(code | (v << (bits - 1 - b)), bits, k) == if k == b then v == 1 else CodeBit(code, bits, k)
  {}

  lemma SameCode(c: bv8, d: bv8, bits: nat)
    requires 2 <= bits <= 4 && IsCode(c, bits) && IsCode(d, bits)
    requires forall k :: 0 <= k < bits ==> CodeBit(c, bits, k) == CodeBit(d, bits, k)
    ensures c == d
  {
    assert CodeBit(c, bits, 0) == CodeBit(d, bits, 0) && CodeBit(c, bits, 1) == CodeBit(d, bits, 1);
    assert bits > 2 ==> CodeBit(c, bits, 2) == CodeBit(d, bits, 2);
    assert bits > 3 ==> CodeBit(c, bits, 3) == CodeBit(d, bits, 3);
  }

  /** Unpacking what was packed gives the same codes, for every length, including codes
      that straddle two bytes. */
  lemma CodeRoundTrip(data: seq<bv8>, codes: seq<bv8>, bits: nat, restored: seq<bv8>)
    requires 2 <= bits <= 4 && forall i :: 0 <= i < |codes| ==> IsCode(codes[i], bits)
    requires PacksCodes(data, codes, bits)
    requires UnpacksTo(data, |codes|, bits, restored)
    ensures restored == codes
  {
    hide Offset, BitAt, CodeBit, IsCode;
    forall i | 0 <= i < |codes| ensures restored[i] == codes[i] {
      assert PartCode(data, i, bits, bits, restored[i]);
      forall k | 0 <= k < bits ensures CodeBit(restored[i], bits, k) == CodeBit(codes[i], bits, k) {
        OffsetSplits(i, bits, k);
        OffsetBelow(i, |codes|, bits, k);
        assert BitAt(data, Offset(i, bits, k)) == StreamBit(codes, bits, Offset(i, bits, k));
      }
      SameCode(restored[i], codes[i], bits);
    }
  }
}
