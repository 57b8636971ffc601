/**
 * Vocabulary shared by the swarm optimiser and the genetic algorithm:
 * the value of a point of the search surface, optional results, sums and
 * extremes of fitness values, and the uniform sampling both optimisers use
 * to seed their populations.
 */
module Common {

  /** The value of a jzy3d `Coord3d`: a point (x, y) and its fitness z. */
  datatype Point = Point(x: real, y: real, z: real)

  datatype Option<T> = None | Some(value: T)

  /** A closed interval of one axis, as a jzy3d `Range`. */
  datatype Range = Range(min: real, max: real)

  /** True of a draw of `Random.nextFloat()` or `Random.nextDouble()`. */
  predicate InUnit(u: real)
  {
    0.0 <= u < 1.0
  }

  /** Sum of a sequence, accumulated from the left as the source's loops do. */
  function Sum(s: seq<real>): real
  {
    if s == [] then 0.0 else Sum(s[..|s| - 1]) + s[|s| - 1]
  }

  lemma SumAppend(s: seq<real>, v: real)
    ensures Sum(s + [v]) == Sum(s) + v
  {
    assert (s + [v])[..|s|] == s;
  }

  /** The least element of a non-empty sequence. */
  function Min(s: seq<real>): (m: real)
    requires |s| > 0
    ensures m in s
    ensures forall i :: 0 <= i < |s| ==> m <= s[i]
  {
    if |s| == 1 then s[0]
    else
      var m' := Min(s[..|s| - 1]);
      assert m' in s;
      if s[|s| - 1] < m' then s[|s| - 1] else m'
  }

  /** The greatest element of a non-empty sequence. */
  function Max(s: seq<real>): (m: real)
    requires |s| > 0
    ensures m in s
    ensures forall i :: 0 <= i < |s| ==> s[i] <= m
  {
    if |s| == 1 then s[0]
    else
      var m' := Max(s[..|s| - 1]);
      assert m' in s;
      if s[|s| - 1] > m' then s[|s| - 1] else m'
  }

  /**
   * A coordinate drawn as `lo + u * (hi - lo)` from a draw u: it lies in the
   * half-open interval [lo, hi) whenever the interval is non-empty.
   */
  function Sample(lo: real, hi: real, u: real): (r: real)
    requires InUnit(u)
    ensures lo < hi ==> lo <= r < hi
    ensures lo == hi ==> r == lo
  {
    SampleInside(lo, hi, u);
    lo + u * (hi - lo)
  }

  lemma SampleInside(lo: real, hi: real, u: real)
    requires InUnit(u)
    ensures lo < hi ==> lo <= lo + u * (hi - lo) < hi
  {
    if lo < hi {
      var width := hi - lo;
      MulMonotone(u, 0.0, width);
      MulPositive(1.0 - u, width);
      assert (1.0 - u) * width > 0.0;
      assert width - u * width == (1.0 - u) * width;
      assert u * width < width;
      assert u * (hi - lo) == u * width;
      assert lo + width == hi;
      assert lo + u * width < hi;
      assert lo + u * (hi - lo) < hi;
    }
  }

  /**
   * A point drawn uniformly over the rectangle [xMin, xMax) x [yMin, yMax)
   * from the draws u (for x) and v (for y), with its fitness evaluated there.
   */
  function SamplePoint(xMin: real, xMax: real, yMin: real, yMax: real, u: real, v: real,
                       f: (real, real) -> real): (p: Point)
    requires InUnit(u) && InUnit(v)
    ensures xMin < xMax ==> xMin <= p.x < xMax
    ensures yMin < yMax ==> yMin <= p.y < yMax
    ensures p.z == f(p.x, p.y)
  {
    var x := Sample(xMin, xMax, u);
    var y := Sample(yMin, yMax, v);
    Point(x, y, f(x, y))
  }

  /** Multiplying by a non-negative factor keeps the order of two reals. */
  lemma MulMonotone(k: real, a: real, b: real)
    requires k >= 0.0 && a <= b
    ensures k * a <= k * b
  {
    assert k * b - k * a == k * (b - a);
  }

  lemma MulPositive(a: real, b: real)
    requires a > 0.0 && b > 0.0
    ensures a * b > 0.0
  {
  }

  /**
   * What both `findAverage` summaries compute: the number of values divided
   * by their sum. Java float division by a zero sum gives an infinity or NaN;
   * that case is None here.
   */
  function ReportedAverage(zs: seq<real>): Option<real>
  {
    if Sum(zs) == 0.0 then None else Some(|zs| as real / Sum(zs))
  }

  /** The arithmetic mean, which lies between the least and the greatest value. */
  function Mean(zs: seq<real>): (m: real)
    requires |zs| > 0
    ensures Min(zs) <= m <= Max(zs)
  {
    var n := |zs|;
    SumBounds(zs, Min(zs), Max(zs));
    Repeated(n, Min(zs));
    Repeated(n, Max(zs));
    QuotientBounds(Sum(zs), n as real, Min(zs), Max(zs));
    Sum(zs) / n as real
  }

  /** The sum of n copies of v, built by repeated addition. */
  function Copies(n: nat, v: real): real
  {
    if n == 0 then 0.0 else Copies(n - 1, v) + v
  }

  lemma {:induction false} Repeated(n: nat, v: real)
    ensures Copies(n, v) == n as real * v
  {
    if n > 0 {
      Repeated(n - 1, v);
      Distribute((n - 1) as real, v);
    }
  }

  lemma Distribute(k: real, m: real)
    ensures (k + 1.0) * m == k * m + m
  {
  }

  /** A total between n * lo and n * hi shared out n ways gives between lo and hi. */
  lemma QuotientBounds(total: real, n: real, lo: real, hi: real)
    requires n > 0.0 && n * lo <= total <= n * hi
    ensures lo <= total / n <= hi
  {
    var q := total / n;
    assert n * q == total;
    assert n * (q - lo) >= 0.0;
    assert n * (hi - q) >= 0.0;
  }

  /** Values lying between lo and hi sum to between n copies of lo and of hi. */
  lemma {:induction false} SumBounds(zs: seq<real>, lo: real, hi: real)
    requires forall i :: 0 <= i < |zs| ==> lo <= zs[i] <= hi
    ensures Copies(|zs|, lo) <= Sum(zs) <= Copies(|zs|, hi)
  {
    if zs != [] {
      SumBounds(zs[..|zs| - 1], lo, hi);
    }
  }

  /**
   * The reported average is the reciprocal of the mean, not the mean: for
   * every sequence with a non-zero sum.
   */
  lemma ReportedAverageIsReciprocalOfMean(zs: seq<real>)
    requires |zs| > 0 && Sum(zs) != 0.0
    ensures ReportedAverage(zs) == Some(1.0 / Mean(zs))
  {
    Reciprocal(Sum(zs), |zs| as real);
  }

  lemma Reciprocal(s: real, n: real)
    requires n > 0.0 && s != 0.0
    ensures s / n != 0.0 && 1.0 / (s / n) == n / s
  {
    var q := s / n;
    assert q * n == s;
    assert q != 0.0;
    assert (n / s) * s == n;
    assert (n / s) * q * n == n / s * s;
  }

  /** For the fitness values 1 and 3 the mean is 2 but 0.5 is reported. */
  lemma ReportedAverageOfOneAndThree()
    ensures Mean([1.0, 3.0]) == 2.0
    ensures ReportedAverage([1.0, 3.0]) == Some(0.5)
  {
    assert [1.0, 3.0][..1] == [1.0];
    assert [1.0][..0] == [];
    assert Sum([1.0, 3.0]) == 4.0;
  }
}
