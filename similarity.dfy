/**
 * The cosine similarity both vector stores compute. The sums are accumulated in a loop;
 * the final dot / (sqrt(mag1) * sqrt(mag2)) is a parameter, `quotient`, since the model has
 * no square root: only the branch that returns 0 for a zero magnitude is fixed here.
 */
module Similarity {

  /** The sum of the products of corresponding components. */
  function Dot(a: seq<real>, b: seq<real>): real
    requires |a| == |b|
    decreases |a|
  {
    if |a| == 0 then 0.0
    else Dot(a[..|a| - 1], b[..|b| - 1]) + a[|a| - 1] * b[|b| - 1]
  }

  /** The loop of CosineSimilarity: the dot product and both squared magnitudes. */
  method Sums(v1: seq<real>, v2: seq<real>) returns (dotProduct: real, mag1: real, mag2: real)
    requires |v1| == |v2|
    ensures dotProduct == Dot(v1, v2) && mag1 == Dot(v1, v1) && mag2 == Dot(v2, v2)
  {
    dotProduct, mag1, mag2 := 0.0, 0.0, 0.0;
    for i := 0 to |v1|
      invariant dotProduct == Dot(v1[..i], v2[..i])
      invariant mag1 == Dot(v1[..i], v1[..i]) && mag2 == Dot(v2[..i], v2[..i])
    {
      assert v1[..i + 1][..i] == v1[..i] && v2[..i + 1][..i] == v2[..i];
      dotProduct := dotProduct + v1[i] * v2[i];
      mag1 := mag1 + v1[i] * v1[i];
      mag2 := mag2 + v2[i] * v2[i];
    }
    assert v1[..|v1|] == v1 && v2[..|v2|] == v2;
  }

  /** The score of two vectors of equal length: 0 when either magnitude is 0. */
  function CosineOf(v1: seq<real>, v2: seq<real>, quotient: (real, real, real) -> real): real
    requires |v1| == |v2|
  {
    var mag1, mag2 := Dot(v1, v1), Dot(v2, v2);
    if mag1 == 0.0 || mag2 == 0.0 then 0.0 else quotient(Dot(v1, v2), mag1, mag2)
  }

  predicate IsZero(v: seq<real>)
  {
    forall i :: 0 <= i < |v| ==> v[i] == 0.0
  }

  /** A squared magnitude is never negative, and the zero vector's is 0. */
  lemma {:induction false} MagnitudeOfZero(v: seq<real>)
    ensures Dot(v, v) >= 0.0
    ensures IsZero(v) ==> Dot(v, v) == 0.0
    decreases |v|
  {
    if |v| > 0 {
      var v0 := v[..|v| - 1];
      var x := v[|v| - 1];
      MagnitudeOfZero(v0);
      SquareSign(x);
      if IsZero(v) {
        assert IsZero(v0) && x == 0.0;
      }
    }
  }

  lemma SquareSign(x: real)
    ensures x * x >= 0.0
    ensures x == 0.0 ==> x * x == 0.0
  {
    if x < 0.0 {
      assert x * x == (-x) * (-x);
    }
  }

  /** The dot product does not depend on the order of its arguments. */
  lemma {:induction false} DotSymmetric(a: seq<real>, b: seq<real>)
    requires |a| == |b|
    ensures Dot(a, b) == Dot(b, a)
    decreases |a|
  {
    if |a| > 0 {
      DotSymmetric(a[..|a| - 1], b[..|b| - 1]);
    }
  }

  /** A zero vector on either side scores 0, whatever the quotient. */
  lemma ZeroVectorScoresZero(v1: seq<real>, v2: seq<real>, quotient: (real, real, real) -> real)
    requires |v1| == |v2| && (IsZero(v1) || IsZero(v2))
    ensures CosineOf(v1, v2, quotient) == 0.0
  {
    MagnitudeOfZero(v1);
    MagnitudeOfZero(v2);
  }

  /** With a quotient symmetric in the two magnitudes, as dot / (sqrt(m1) * sqrt(m2)) is, the score is symmetric. */
  lemma CosineSymmetric(v1: seq<real>, v2: seq<real>, quotient: (real, real, real) -> real)
    requires |v1| == |v2|
    requires forall d, m1, m2 :: quotient(d, m1, m2) == quotient(d, m2, m1)
    ensures CosineOf(v1, v2, quotient) == CosineOf(v2, v1, quotient)
  {
    DotSymmetric(v1, v2);
    assert quotient(Dot(v1, v2), Dot(v1, v1), Dot(v2, v2)) == quotient(Dot(v2, v1), Dot(v2, v2), Dot(v1, v1));
  }
}
