/**
 * Cosine similarity between a query embedding and a document embedding
 * (rag/rag.go, cosineSimilarity), over exact reals. The square root is the
 * caller's `sqrt`, of which only the defining property is assumed: it is
 * non-negative and squares back to its argument on non-negative inputs.
 */
module Similarity {

  /** `sqrt` behaves as the square root on the non-negative reals. */
  ghost predicate IsSqrt(sqrt: real -> real) {
    forall x :: 0.0 <= x ==> 0.0 <= sqrt(x) && Product(sqrt(x), sqrt(x)) == x
  }

  /** The sum of a[k] * b[k] over k < n: what the loop accumulates in n steps. */
  function Dot(a: seq<real>, b: seq<real>, n: nat): real
    requires n <= |a| && n <= |b|
  {
    if n == 0 then 0.0 else Dot(a, b, n - 1) + Product(a[n - 1], b[n - 1])
  }

  /**
   * The score of `b` against `a`: the loop runs over the indices of `a`, so
   * only the first |a| entries of `b` take part; a zero squared norm on
   * either side gives 0 instead of a division.
   */
  function Cosine(a: seq<real>, b: seq<real>, sqrt: real -> real): real
    requires |a| <= |b| && IsSqrt(sqrt)
  {
    SelfDotNonNegative(a, |a|);
    SelfDotNonNegative(b, |a|);
    Ratio(Dot(a, b, |a|), Dot(a, a, |a|), Dot(b, b, |a|), sqrt)
  }

  /** The final step of cosineSimilarity on the accumulated dot product and squared norms. */
  function Ratio(dot: real, normA: real, normB: real, sqrt: real -> real): real
    requires normA >= 0.0 && normB >= 0.0 && IsSqrt(sqrt)
  {
    if normA == 0.0 || normB == 0.0 then 0.0
    else
      SqrtPositive(sqrt, normA);
      SqrtPositive(sqrt, normB);
      ProductPositive(sqrt(normA), sqrt(normB));
      dot / (sqrt(normA) * sqrt(normB))
  }

  /**
   * The loop of cosineSimilarity: accumulates the dot product and both
   * squared norms over the indices of `a`, then applies the zero-norm guard.
   */
  method CosineSimilarity(a: seq<real>, b: seq<real>, sqrt: real -> real) returns (score: real)
    requires |a| <= |b| && IsSqrt(sqrt)
    ensures score == Cosine(a, b, sqrt)
    ensures Dot(a, a, |a|) == 0.0 || Dot(b, b, |a|) == 0.0 ==> score == 0.0
    ensures -1.0 <= score <= 1.0
  {
    var dot, normA, normB := 0.0, 0.0, 0.0;
    for i := 0 to |a|
      invariant dot == Dot(a, b, i)
      invariant normA == Dot(a, a, i)
      invariant normB == Dot(b, b, i)
    {
      dot := dot + Product(a[i], b[i]);
      normA := normA + Product(a[i], a[i]);
      normB := normB + Product(b[i], b[i]);
    }
    SelfDotNonNegative(a, |a|);
    SelfDotNonNegative(b, |a|);
    if normA == 0.0 || normB == 0.0 {
      score := 0.0;
    } else {
      SqrtPositive(sqrt, normA);
      SqrtPositive(sqrt, normB);
      ProductPositive(sqrt(normA), sqrt(normB));
      score := dot / (sqrt(normA) * sqrt(normB));
    }
    CosineRange(a, b, sqrt);
  }

  /**
   * The product of two reals. Dot and the lemmas below use it for every
   * square, so that a square is one term whose sign is proved once, by
   * SquareSign, rather than something the solver must rediscover.
   */
  function Product(p: real, q: real): real {
    p * q
  }

  /** Two positive factors give a positive product. */
  lemma ProductPositive(p: real, q: real)
    requires p > 0.0 && q > 0.0
    ensures Product(p, q) > 0.0
  {
  }

  /** A square is non-negative, and positive unless its root is zero. */
  lemma SquareSign(x: real)
    ensures Product(x, x) >= 0.0
    ensures x != 0.0 ==> Product(x, x) > 0.0
  {
    if x > 0.0 {
      ProductPositive(x, x);
    } else if x < 0.0 {
      ProductPositive(-x, -x);
    }
  }

  /** A squared norm is never negative. */
  lemma {:induction false} SelfDotNonNegative(a: seq<real>, n: nat)
    requires n <= |a|
    ensures Dot(a, a, n) >= 0.0
  {
    if n > 0 {
      SelfDotNonNegative(a, n - 1);
      SquareSign(a[n - 1]);
    }
  }

  /** The square root of a positive number is positive. */
  lemma SqrtPositive(sqrt: real -> real, x: real)
    requires IsSqrt(sqrt) && x > 0.0
    ensures sqrt(x) > 0.0
  {
    assert Product(sqrt(x), sqrt(x)) == x;
  }

  /** One non-zero entry among the first n makes the squared norm positive. */
  lemma {:induction false} SelfDotPositive(a: seq<real>, n: nat, k: nat)
    requires k < n <= |a| && a[k] != 0.0
    ensures Dot(a, a, n) > 0.0
  {
    SquareSign(a[n - 1]);
    if k == n - 1 {
      SelfDotNonNegative(a, n - 1);
    } else {
      SelfDotPositive(a, n - 1, k);
    }
  }

  /** A zero squared norm forces a zero dot product with anything. */
  lemma {:induction false} ZeroNormZeroDot(a: seq<real>, b: seq<real>, n: nat)
    requires n <= |a| && n <= |b| && Dot(a, a, n) == 0.0
    ensures Dot(a, b, n) == 0.0 && Dot(b, a, n) == 0.0
  {
    if n > 0 {
      SelfDotNonNegative(a, n - 1);
      SquareSign(a[n - 1]);
      assert a[n - 1] == 0.0;
      ZeroNormZeroDot(a, b, n - 1);
    }
  }

  /** The dot product does not depend on the order of its arguments. */
  lemma {:induction false} DotSymmetric(a: seq<real>, b: seq<real>, n: nat)
    requires n <= |a| && n <= |b|
    ensures Dot(a, b, n) == Dot(b, a, n)
  {
    if n > 0 {
      DotSymmetric(a, b, n - 1);
    }
  }

  /** Only the first n entries of each side take part in Dot(_, _, n). */
  lemma {:induction false} DotPrefix(a: seq<real>, b: seq<real>, b': seq<real>, n: nat)
    requires n <= |a| && n <= |b| && n <= |b'|
    requires b[..n] == b'[..n]
    ensures Dot(a, b, n) == Dot(a, b', n) && Dot(b, b, n) == Dot(b', b', n)
  {
    if n > 0 {
      assert b[n - 1] == b[..n][n - 1] == b'[..n][n - 1] == b'[n - 1];
      assert b[..n - 1] == b[..n][..n - 1] == b'[..n][..n - 1] == b'[..n - 1];
      DotPrefix(a, b, b', n - 1);
    }
  }

  /**
   * y^2 |a|^2 + x^2 |b|^2 - 2xy (a.b) is the squared norm of y a - x b,
   * hence never negative.
   */
  lemma {:induction false} QuadraticNonNegative(a: seq<real>, b: seq<real>, n: nat, x: real, y: real)
    requires n <= |a| && n <= |b|
    ensures Quadratic(Dot(a, a, n), Dot(b, b, n), Dot(a, b, n), x, y) >= 0.0
  {
    if n > 0 {
      QuadraticNonNegative(a, b, n - 1, x, y);
      var p, q := a[n - 1], b[n - 1];
      SquareSign(y * p - x * q);
      QuadraticStep(Dot(a, a, n - 1), Dot(b, b, n - 1), Dot(a, b, n - 1), p, q, x, y);
    }
  }

  /** The quadratic form y^2 na + x^2 nb - 2xy d. */
  function Quadratic(na: real, nb: real, d: real, x: real, y: real): real {
    y * y * na + x * x * nb - 2.0 * x * y * d
  }

  /** Extending both vectors by one entry (p, q) adds (y p - x q)^2 to the form. */
  lemma QuadraticStep(na: real, nb: real, d: real, p: real, q: real, x: real, y: real)
    ensures Quadratic(na + Product(p, p), nb + Product(q, q), d + Product(p, q), x, y)
         == Quadratic(na, nb, d, x, y) + Product(y * p - x * q, y * p - x * q)
  {
  }

  /** Cauchy-Schwarz: (a.b)^2 <= |a|^2 |b|^2. */
  lemma CauchySchwarz(a: seq<real>, b: seq<real>, n: nat)
    requires n <= |a| && n <= |b|
    ensures Product(Dot(a, b, n), Dot(a, b, n)) <= Dot(a, a, n) * Dot(b, b, n)
  {
    var d, na, nb := Dot(a, b, n), Dot(a, a, n), Dot(b, b, n);
    SelfDotNonNegative(a, n);
    if na == 0.0 {
      ZeroNormZeroDot(a, b, n);
    } else {
      QuadraticNonNegative(a, b, n, na, d);
      DiscriminantBound(na, nb, d);
    }
  }

  /** The quadratic form at (x, y) = (|a|^2, a.b) is |a|^2 (|a|^2 |b|^2 - (a.b)^2). */
  lemma DiscriminantBound(na: real, nb: real, d: real)
    requires na > 0.0 && Quadratic(na, nb, d, na, d) >= 0.0
    ensures Product(d, d) <= na * nb
  {
    var gap := na * nb - Product(d, d);
    assert Quadratic(na, nb, d, na, d) == Product(na, gap);
    if gap < 0.0 {
      ProductPositive(na, -gap);
    }
  }

  /** The score always lies in [-1, 1]; the -1 that findMostSimilar starts from is its floor. */
  lemma CosineRange(a: seq<real>, b: seq<real>, sqrt: real -> real)
    requires |a| <= |b| && IsSqrt(sqrt)
    ensures -1.0 <= Cosine(a, b, sqrt) <= 1.0
  {
    var d, na, nb := Dot(a, b, |a|), Dot(a, a, |a|), Dot(b, b, |a|);
    if na != 0.0 && nb != 0.0 {
      SelfDotNonNegative(a, |a|);
      SelfDotNonNegative(b, |a|);
      SqrtPositive(sqrt, na);
      SqrtPositive(sqrt, nb);
      CauchySchwarz(a, b, |a|);
      var sa, sb := sqrt(na), sqrt(nb);
      ProductPositive(sa, sb);
      assert Product(sa * sb, sa * sb) == Product(sa, sa) * Product(sb, sb);
      RatioBound(d, sa * sb);
      assert Cosine(a, b, sqrt) == d / (sa * sb);
    }
  }

  /** d^2 <= p^2 with p > 0 puts d / p in [-1, 1]. */
  lemma RatioBound(d: real, p: real)
    requires p > 0.0 && Product(d, d) <= Product(p, p)
    ensures -1.0 <= d / p <= 1.0
  {
    if d > p {
      ProductPositive(d - p, d + p);
    } else if d < -p {
      ProductPositive(-p - d, p - d);
    }
    var r := d / p;
    assert Product(r, p) == d;
    if r > 1.0 {
      ProductPositive(r - 1.0, p);
    } else if r < -1.0 {
      ProductPositive(-1.0 - r, p);
    }
  }

  /** A vector whose first |a| entries are all zero, on either side, scores exactly 0. */
  lemma ZeroVectorScoresZero(a: seq<real>, b: seq<real>, sqrt: real -> real)
    requires |a| <= |b| && IsSqrt(sqrt)
    requires (forall k :: 0 <= k < |a| ==> a[k] == 0.0) || (forall k :: 0 <= k < |a| ==> b[k] == 0.0)
    ensures Cosine(a, b, sqrt) == 0.0
  {
    if forall k :: 0 <= k < |a| ==> a[k] == 0.0 {
      AllZeroNorm(a, |a|);
    } else {
      AllZeroNorm(b, |a|);
    }
  }

  /** The squared norm of an all-zero prefix is 0. */
  lemma {:induction false} AllZeroNorm(a: seq<real>, n: nat)
    requires n <= |a| && forall k :: 0 <= k < n ==> a[k] == 0.0
    ensures Dot(a, a, n) == 0.0
  {
    if n > 0 {
      AllZeroNorm(a, n - 1);
    }
  }

  /** For equal-length vectors the score is symmetric. */
  lemma CosineSymmetric(a: seq<real>, b: seq<real>, sqrt: real -> real)
    requires |a| == |b| && IsSqrt(sqrt)
    ensures Cosine(a, b, sqrt) == Cosine(b, a, sqrt)
  {
    DotSymmetric(a, b, |a|);
  }

  /** A vector with a non-zero entry has similarity 1 with itself. */
  lemma CosineSelf(a: seq<real>, sqrt: real -> real, k: nat)
    requires IsSqrt(sqrt) && k < |a| && a[k] != 0.0
    ensures Cosine(a, a, sqrt) == 1.0
  {
    SelfDotPositive(a, |a|, k);
    var na := Dot(a, a, |a|);
    SqrtPositive(sqrt, na);
    assert Product(sqrt(na), sqrt(na)) == na;
    assert na / na == 1.0;
  }

  /** Entries of `b` beyond the length of `a` never change the score. */
  lemma CosineIgnoresTail(a: seq<real>, b: seq<real>, extra: seq<real>, sqrt: real -> real)
    requires |a| <= |b| && IsSqrt(sqrt)
    ensures Cosine(a, b + extra, sqrt) == Cosine(a, b, sqrt)
  {
    assert (b + extra)[..|a|] == b[..|a|];
    DotPrefix(a, b + extra, b, |a|);
  }
}
