/**
 * Vector maths used by calibration and live speaker scoring: cosine similarity
 * over the common prefix of two vectors, and the element-wise mean of a list of
 * vectors. Amplitudes are exact reals; `Math.sqrt` is an opaque parameter.
 */
module AudioMath {

  /** Sum of `a[i] * b[i]` for `i < n`, accumulated left to right as the loop does. */
  function Dot(a: seq<real>, b: seq<real>, n: nat): (d: real)
    requires n <= |a| && n <= |b|
  {
    if n == 0 then 0.0 else Dot(a, b, n - 1) + a[n - 1] * b[n - 1]
  }

  function MinLength(a: seq<real>, b: seq<real>): (n: nat)
    ensures n <= |a| && n <= |b| && (n == |a| || n == |b|)
  {
    if |a| < |b| then |a| else |b|
  }

  /**
   * `Math.sqrt(na) * Math.sqrt(nb) || 1`: a product of zero is falsy in
   * JavaScript and is replaced by 1, so the denominator is never zero.
   */
  function Denominator(na: real, nb: real, sqrt: real -> real): (d: real)
    ensures d != 0.0
    ensures sqrt(na) * sqrt(nb) != 0.0 ==> d == sqrt(na) * sqrt(nb)
    ensures sqrt(na) * sqrt(nb) == 0.0 ==> d == 1.0
  {
    var p := sqrt(na) * sqrt(nb);
    if p == 0.0 then 1.0 else p
  }

  /** The value `cosineSim(a, b)` computes, given the square root it calls. */
  function Cosine(a: seq<real>, b: seq<real>, sqrt: real -> real): (c: real)
  {
    var n := MinLength(a, b);
    Dot(a, b, n) / Denominator(Dot(a, a, n), Dot(b, b, n), sqrt)
  }

  /** cosineSim: one pass accumulating the dot product and both squared norms. */
  method CosineSim(a: seq<real>, b: seq<real>, sqrt: real -> real) returns (r: real)
    ensures r == Cosine(a, b, sqrt)
  {
    var n := if |a| < |b| then |a| else |b|;
    var dot, na, nb := 0.0, 0.0, 0.0;
    for i := 0 to n
      invariant dot == Dot(a, b, i)
      invariant na == Dot(a, a, i)
      invariant nb == Dot(b, b, i)
    {
      dot := dot + a[i] * b[i];
      na := na + a[i] * a[i];
      nb := nb + b[i] * b[i];
    }
    var p := sqrt(na) * sqrt(nb);
    var denom := if p == 0.0 then 1.0 else p;
    r := dot / denom;
  }

  /** Dot products only read the first `n` entries of either vector. */
  lemma {:induction false} DotPrefix(a: seq<real>, a': seq<real>, b: seq<real>, b': seq<real>, n: nat)
    requires n <= |a| && n <= |a'| && n <= |b| && n <= |b'|
    requires a[..n] == a'[..n] && b[..n] == b'[..n]
    ensures Dot(a, b, n) == Dot(a', b', n)
  {
    if n > 0 {
      assert a[..n - 1] == a'[..n - 1] && b[..n - 1] == b'[..n - 1];
      assert a[n - 1] == a[..n][n - 1] && a'[n - 1] == a'[..n][n - 1];
      assert b[n - 1] == b[..n][n - 1] && b'[n - 1] == b'[..n][n - 1];
      DotPrefix(a, a', b, b', n - 1);
    }
  }

  /** Appending entries to the longer vector does not change the similarity. */
  lemma CosineIgnoresTail(a: seq<real>, extra: seq<real>, b: seq<real>, sqrt: real -> real)
    requires |b| <= |a|
    ensures Cosine(a + extra, b, sqrt) == Cosine(a, b, sqrt)
    ensures Cosine(b, a + extra, sqrt) == Cosine(b, a, sqrt)
  {
    var n := |b|;
    assert MinLength(a + extra, b) == n && MinLength(a, b) == n;
    assert (a + extra)[..n] == a[..n];
    DotPrefix(a + extra, a, b, b, n);
    DotPrefix(a + extra, a, a + extra, a, n);
    DotPrefix(b, b, a + extra, a, n);
  }

  lemma {:induction false} DotSymmetric(a: seq<real>, b: seq<real>, n: nat)
    requires n <= |a| && n <= |b|
    ensures Dot(a, b, n) == Dot(b, a, n)
  {
    if n > 0 {
      DotSymmetric(a, b, n - 1);
    }
  }

  /** cosineSim(a, b) == cosineSim(b, a), whatever the square root returns. */
  lemma CosineSymmetric(a: seq<real>, b: seq<real>, sqrt: real -> real)
    ensures Cosine(a, b, sqrt) == Cosine(b, a, sqrt)
  {
    var n := MinLength(a, b);
    assert MinLength(b, a) == n;
    DotSymmetric(a, b, n);
    assert sqrt(Dot(a, a, n)) * sqrt(Dot(b, b, n)) == sqrt(Dot(b, b, n)) * sqrt(Dot(a, a, n));
  }

  lemma {:induction false} DotZeroLeft(a: seq<real>, b: seq<real>, n: nat)
    requires n <= |a| && n <= |b|
    requires forall i | 0 <= i < n :: a[i] == 0.0
    ensures Dot(a, b, n) == 0.0
  {
    if n > 0 {
      DotZeroLeft(a, b, n - 1);
    }
  }

  /** An all-zero compared prefix on either side gives similarity 0 (not NaN). */
  lemma CosineOfZeroPrefix(a: seq<real>, b: seq<real>, sqrt: real -> real)
    requires (forall i | 0 <= i < MinLength(a, b) :: a[i] == 0.0) ||
             (forall i | 0 <= i < MinLength(a, b) :: b[i] == 0.0)
    ensures Cosine(a, b, sqrt) == 0.0
  {
    var n := MinLength(a, b);
    if forall i | 0 <= i < n :: a[i] == 0.0 {
      DotZeroLeft(a, b, n);
    } else {
      DotZeroLeft(b, a, n);
      DotSymmetric(a, b, n);
    }
  }

  // ---------------------------------------------------------------------------
  // meanVectors

  /** The number of coordinates of the result: the first vector's length. */
  function Width(arr: seq<seq<real>>): (n: nat) {
    if |arr| == 0 then 0 else |arr[0]|
  }

  /** Every vector has at least as many entries as the first one. */
  predicate CoversWidth(arr: seq<seq<real>>) {
    forall k | 0 <= k < |arr| :: Width(arr) <= |arr[k]|
  }

  /** Sum of coordinate `i` over the first `k` vectors. */
  function ColumnSum(arr: seq<seq<real>>, k: nat, i: nat): (sum: real)
    requires k <= |arr|
    requires forall j | 0 <= j < k :: i < |arr[j]|
  {
    if k == 0 then 0.0 else ColumnSum(arr, k - 1, i) + arr[k - 1][i]
  }

  /** The value `meanVectors(arr)` computes. */
  function Mean(arr: seq<seq<real>>): (m: seq<real>)
    requires CoversWidth(arr)
    ensures |m| == Width(arr)
  {
    if |arr| == 0 then []
    else seq(Width(arr), i requires 0 <= i < Width(arr) => ColumnSum(arr, |arr|, i) / (|arr| as real))
  }

  /**
   * meanVectors: `out` is zero-filled, each vector is added into it in place,
   * then every entry is divided by the number of vectors.
   */
  method MeanVectors(arr: seq<seq<real>>) returns (r: seq<real>)
    requires CoversWidth(arr)
    ensures r == Mean(arr)
  {
    if |arr| == 0 {
      return [];
    }
    var n := |arr[0]|;
    var out := new real[n](_ => 0.0);
    for j := 0 to |arr|
      invariant forall i | 0 <= i < n :: out[i] == ColumnSum(arr, j, i)
    {
      for i := 0 to n
        invariant forall i' | 0 <= i' < i :: out[i'] == ColumnSum(arr, j + 1, i')
        invariant forall i' | i <= i' < n :: out[i'] == ColumnSum(arr, j, i')
      {
        out[i] := out[i] + arr[j][i];
      }
    }
    for i := 0 to n
      invariant forall i' | 0 <= i' < i :: out[i'] == ColumnSum(arr, |arr|, i') / (|arr| as real)
      invariant forall i' | i <= i' < n :: out[i'] == ColumnSum(arr, |arr|, i')
    {
      out[i] := out[i] / (|arr| as real);
    }
    r := out[..];
  }

  /** meanVectors([]) is the empty vector. */
  lemma MeanOfNothing()
    ensures Mean([]) == []
  {
  }

  lemma {:induction false} ColumnSumBounds(arr: seq<seq<real>>, k: nat, i: nat, lo: real, hi: real)
    requires k <= |arr|
    requires forall j | 0 <= j < k :: i < |arr[j]| && lo <= arr[j][i] <= hi
    ensures (k as real) * lo <= ColumnSum(arr, k, i) <= (k as real) * hi
  {
    if k > 0 {
      ColumnSumBounds(arr, k - 1, i, lo, hi);
    }
  }

  /** Each coordinate of the mean lies between that coordinate's smallest and largest input. */
  lemma MeanBetween(arr: seq<seq<real>>, i: nat, lo: real, hi: real)
    requires CoversWidth(arr) && i < Width(arr)
    requires forall j | 0 <= j < |arr| :: lo <= arr[j][i] <= hi
    ensures lo <= Mean(arr)[i] <= hi
  {
    ColumnSumBounds(arr, |arr|, i, lo, hi);
    QuotientBounds(ColumnSum(arr, |arr|, i), |arr| as real, lo, hi);
  }

  lemma QuotientBounds(s: real, k: real, lo: real, hi: real)
    requires k > 0.0 && k * lo <= s <= k * hi
    ensures lo <= s / k <= hi
  {
    var q := s / k;
    assert s == k * q;
    assert k * (q - lo) >= 0.0 && k * (hi - q) >= 0.0;
  }

  /** The mean of k copies of v (k >= 1) is v; in particular meanVectors([v]) == v. */
  lemma MeanOfCopies(v: seq<real>, k: nat)
    requires k >= 1
    ensures CoversWidth(seq(k, _ => v)) && Mean(seq(k, _ => v)) == v
  {
    var arr := seq(k, _ => v);
    assert Width(arr) == |v|;
    forall i | 0 <= i < |v|
      ensures Mean(arr)[i] == v[i]
    {
      MeanBetween(arr, i, v[i], v[i]);
    }
  }

  lemma MeanOfOne(v: seq<real>)
    ensures CoversWidth([v]) && Mean([v]) == v
  {
    MeanOfCopies(v, 1);
    assert seq(1, _ => v) == [v];
  }
}
