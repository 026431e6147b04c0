/** Byte strings as numbers: big-endian integers and the bytewise order of sorted keys. */
module ByteOrder {

  type Byte = x: int | 0 <= x < 256

  /** The low `k` bytes of `n`, most significant first. */
  function BigEndian(k: nat, n: nat): (r: seq<Byte>)
    ensures |r| == k
  {
    if k == 0 then [] else BigEndian(k - 1, n / 256) + [n % 256]
  }

  function FromBigEndian(b: seq<Byte>): nat {
    if b == [] then 0 else FromBigEndian(b[..|b| - 1]) * 256 + b[|b| - 1]
  }

  ghost function Pow256(k: nat): nat {
    if k == 0 then 1 else 256 * Pow256(k - 1)
  }

  lemma {:induction false} BigEndianRoundTrip(k: nat, n: nat)
    requires n < Pow256(k)
    ensures FromBigEndian(BigEndian(k, n)) == n
  {
    if k > 0 {
      BigEndianRoundTrip(k - 1, n / 256);
      assert BigEndian(k, n)[..k - 1] == BigEndian(k - 1, n / 256);
    }
  }

  lemma Pow256Of8()
    ensures Pow256(8) == 0x1_0000_0000_0000_0000
  {
    assert Pow256(2) == 0x1_0000;
    assert Pow256(4) == 0x1_0000_0000;
    assert Pow256(6) == 0x1_0000_0000_0000;
  }

  // ----- bytewise order -----

  /** `a` is below `b` at the first byte where they differ, inside both. */
  ghost predicate Diverges(a: seq<Byte>, b: seq<Byte>) {
    exists k: nat :: DivergesAt(a, b, k)
  }

  ghost predicate DivergesAt(a: seq<Byte>, b: seq<Byte>, k: nat) {
    k < |a| && k < |b| && a[..k] == b[..k] && a[k] < b[k]
  }

  predicate IsPrefix(a: seq<Byte>, b: seq<Byte>) {
    |a| <= |b| && b[..|a|] == a
  }

  /** The order of a sorted key space: bytewise, a proper prefix first. */
  predicate Less(a: seq<Byte>, b: seq<Byte>) {
    b != [] && (a == [] || a[0] < b[0] || (a[0] == b[0] && Less(a[1..], b[1..])))
  }

  lemma {:induction false} LessIffDiverges(a: seq<Byte>, b: seq<Byte>)
    ensures Less(a, b) <==> Diverges(a, b) || (|a| < |b| && a == b[..|a|])
  {
    if a != [] && b != [] {
      LessIffDiverges(a[1..], b[1..]);
      if Less(a, b) {
        if a[0] < b[0] {
          assert DivergesAt(a, b, 0);
        } else if Diverges(a[1..], b[1..]) {
          var k: nat :| DivergesAt(a[1..], b[1..], k);
          assert a[..k + 1] == [a[0]] + a[1..][..k];
          assert b[..k + 1] == [b[0]] + b[1..][..k];
          assert DivergesAt(a, b, k + 1);
        } else {
          assert a == [a[0]] + a[1..];
          assert b[..|a|] == [b[0]] + b[1..][..|a| - 1];
        }
      }
      if Diverges(a, b) {
        var k: nat :| DivergesAt(a, b, k);
        if k > 0 {
          assert a[0] == a[..k][0] == b[..k][0] == b[0];
          assert a[1..][..k - 1] == a[..k][1..] == b[..k][1..] == b[1..][..k - 1];
          assert DivergesAt(a[1..], b[1..], k - 1);
        }
      } else if |a| < |b| && a == b[..|a|] {
        assert a[1..] == b[..|a|][1..] == b[1..][..|a| - 1];
      }
    }
  }

  lemma {:induction false} LessIrreflexive(a: seq<Byte>)
    ensures !Less(a, a)
  {
    if a != [] {
      LessIrreflexive(a[1..]);
    }
  }

  lemma {:induction false} LessTransitive(a: seq<Byte>, b: seq<Byte>, c: seq<Byte>)
    requires Less(a, b) && Less(b, c)
    ensures Less(a, c)
  {
    if a != [] && a[0] == b[0] == c[0] {
      LessTransitive(a[1..], b[1..], c[1..]);
    }
  }

  lemma {:induction false} LessTotal(a: seq<Byte>, b: seq<Byte>)
    ensures Less(a, b) || a == b || Less(b, a)
  {
    if a != [] && b != [] && a[0] == b[0] {
      LessTotal(a[1..], b[1..]);
      assert a == [a[0]] + a[1..] && b == [b[0]] + b[1..];
    }
  }

  /** A divergence survives any continuation of either side. */
  lemma DivergesExtends(a: seq<Byte>, b: seq<Byte>, x: seq<Byte>, y: seq<Byte>)
    requires Diverges(a, b)
    ensures Diverges(a + x, b + y) && Less(a + x, b + y) && a + x != b + y
  {
    var k: nat :| DivergesAt(a, b, k);
    assert (a + x)[..k] == a[..k] && (b + y)[..k] == b[..k];
    assert DivergesAt(a + x, b + y, k);
    LessIffDiverges(a + x, b + y);
  }

  lemma DivergesAfter(p: seq<Byte>, a: seq<Byte>, b: seq<Byte>)
    requires Diverges(a, b)
    ensures Diverges(p + a, p + b)
  {
    var k: nat :| DivergesAt(a, b, k);
    assert (p + a)[..|p| + k] == p + a[..k];
    assert (p + b)[..|p| + k] == p + b[..k];
    assert DivergesAt(p + a, p + b, |p| + k);
  }

  /** Big-endian integers of one width compare as the numbers do. */
  lemma {:induction false} BigEndianOrder(k: nat, m: nat, n: nat)
    requires m < n < Pow256(k)
    ensures Diverges(BigEndian(k, m), BigEndian(k, n))
  {
    if m / 256 < n / 256 {
      BigEndianOrder(k - 1, m / 256, n / 256);
      DivergesExtends(BigEndian(k - 1, m / 256), BigEndian(k - 1, n / 256), [m % 256], [n % 256]);
    } else {
      var a, b := BigEndian(k, m), BigEndian(k, n);
      assert a[..k - 1] == BigEndian(k - 1, m / 256) == b[..k - 1];
      assert DivergesAt(a, b, k - 1);
    }
  }
}
