/** Shared vocabulary. */
module Basics {
  type Id = string

  datatype Option<T> = None | Some(value: T) {
    function UnwrapOr(otherwise: T): T {
      match this
      case None => otherwise
      case Some(v) => v
    }
  }

  datatype Result<T, E> = Ok(value: T) | Err(error: E)

  ghost predicate Distinct<T>(s: seq<T>) {
    forall i, j :: 0 <= i < j < |s| ==> s[i] != s[j]
  }

  lemma SubsetCount<T>(a: set<T>, b: set<T>)
    requires a <= b
    ensures |a| <= |b|
  {
    assert b == a + (b - a);
  }

  /** Multiplication under a name, so that proofs can hide it. */
  function Mul(a: real, b: real): real {
    a * b
  }

  lemma MulLaws(c: real, a: real, b: real)
    ensures Mul(c, a + b) == Mul(c, a) + Mul(c, b)
    ensures Mul(c, a - b) == Mul(c, a) - Mul(c, b)
    ensures Mul(-c, a) == -Mul(c, a)
  {}

  lemma MulOrder(c: real, x: real, y: real)
    requires c >= 0.0 && x <= y
    ensures Mul(c, x) <= Mul(c, y)
  {
    assert c * (y - x) >= 0.0;
  }

  lemma MulPositive(a: real, b: real)
    requires a > 0.0 && b > 0.0
    ensures Mul(a, b) > 0.0
  {}
}
