/**
 * Per-axis min/max normalisation of the reducer's output, shared by the page and article
 * pipelines, over `real` as an idealisation of the float code.
 */
module AxisNormalize {
  import opened Wrappers
  import opened VizGraph

  /** Every row has an entry on axis `d`, and there is at least one row. */
  predicate HasAxis(m: Matrix, d: nat) {
    m != [] && forall r :: 0 <= r < |m| ==> d < |m[r]|
  }

  /** `coords.min(axis=0)[d]` */
  function ColMin(m: Matrix, d: nat): real
    requires HasAxis(m, d)
    decreases |m|
  {
    if |m| == 1 then m[0][d]
    else
      var p := ColMin(m[..|m| - 1], d);
      if m[|m| - 1][d] < p then m[|m| - 1][d] else p
  }

  /** `coords.max(axis=0)[d]` */
  function ColMax(m: Matrix, d: nat): real
    requires HasAxis(m, d)
    decreases |m|
  {
    if |m| == 1 then m[0][d]
    else
      var p := ColMax(m[..|m| - 1], d);
      if m[|m| - 1][d] > p then m[|m| - 1][d] else p
  }

  /** Every point lies between the axis minimum and maximum. */
  lemma {:induction false} ColBounds(m: Matrix, d: nat, r: nat)
    requires HasAxis(m, d) && r < |m|
    ensures ColMin(m, d) <= m[r][d] <= ColMax(m, d)
    decreases |m|
  {
    if |m| > 1 && r < |m| - 1 {
      var p := m[..|m| - 1];
      assert p[r] == m[r];
      ColBounds(p, d, r);
    }
  }

  /** The axis minimum and maximum are attained by some point. */
  lemma {:induction false} ColAttained(m: Matrix, d: nat) returns (rl: nat, rh: nat)
    requires HasAxis(m, d)
    ensures rl < |m| && ColMin(m, d) == m[rl][d]
    ensures rh < |m| && ColMax(m, d) == m[rh][d]
    decreases |m|
  {
    if |m| == 1 {
      rl, rh := 0, 0;
    } else {
      var p := m[..|m| - 1];
      rl, rh := ColAttained(p, d);
      assert p[rl] == m[rl] && p[rh] == m[rh];
      if m[|m| - 1][d] < ColMin(p, d) { rl := |m| - 1; }
      if m[|m| - 1][d] > ColMax(p, d) { rh := |m| - 1; }
    }
  }

  /** `range_vals` after `range_vals[range_vals == 0] = 1`. */
  function AxisRange(m: Matrix, d: nat): (w: real)
    requires HasAxis(m, d)
    ensures w > 0.0
  {
    ColBounds(m, d, 0);
    var w := ColMax(m, d) - ColMin(m, d);
    if w == 0.0 then 1.0 else w
  }

  /** `min_vals`: the minimum of every axis. */
  function Mins(m: Matrix, dims: nat): (v: seq<real>)
    requires m != [] && IsMatrix(m, |m|, dims)
    ensures |v| == dims
  {
    seq(dims, e requires 0 <= e < dims => ColMin(m, e))
  }

  /** `range_vals` once the zero ranges are replaced by 1. */
  function Ranges(m: Matrix, dims: nat): (v: seq<real>)
    requires m != [] && IsMatrix(m, |m|, dims)
    ensures |v| == dims && forall e :: 0 <= e < dims ==> v[e] > 0.0
  {
    seq(dims, e requires 0 <= e < dims => AxisRange(m, e))
  }

  /** `(coords - min_vals) / range_vals`, for given `min_vals` and `range_vals`. */
  function Rescale(m: Matrix, dims: nat, mins: seq<real>, ranges: seq<real>): (n: Matrix)
    requires IsMatrix(m, |m|, dims) && |mins| == |ranges| == dims
    requires forall e :: 0 <= e < dims ==> ranges[e] != 0.0
    ensures IsMatrix(n, |m|, dims)
  {
    seq(|m|, r requires 0 <= r < |m| =>
      seq(dims, d requires 0 <= d < dims => (m[r][d] - mins[d]) / ranges[d]))
  }

  /** The normalised coordinates: every axis shifted to start at 0 and scaled by its range. */
  function Normalized(m: Matrix, dims: nat): (n: Matrix)
    requires m != [] && IsMatrix(m, |m|, dims)
    ensures IsMatrix(n, |m|, dims)
  {
    Rescale(m, dims, Mins(m, dims), Ranges(m, dims))
  }

  lemma NormalizedAt(m: Matrix, dims: nat, r: nat, d: nat)
    requires m != [] && IsMatrix(m, |m|, dims)
    requires r < |m| && d < dims
    ensures HasAxis(m, d)
    ensures Normalized(m, dims)[r][d] == (m[r][d] - ColMin(m, d)) / AxisRange(m, d)
  {
  }

  lemma DivSelf(w: real)
    requires w != 0.0
    ensures w / w == 1.0
  {
  }

  lemma QuotientInUnit(a: real, w: real)
    requires 0.0 <= a <= w && w > 0.0
    ensures Unit(a / w)
  {
    assert a / w * w == a;
  }

  /** Every normalised coordinate lies in [0, 1]. */
  lemma NormalizedInUnit(m: Matrix, dims: nat, r: nat, d: nat)
    requires m != [] && IsMatrix(m, |m|, dims)
    requires r < |m| && d < dims
    ensures Unit(Normalized(m, dims)[r][d])
  {
    assert HasAxis(m, d);
    var lo, hi := ColMin(m, d), ColMax(m, d);
    var v := m[r][d];
    ColBounds(m, d, r);
    if hi - lo == 0.0 {
      assert v - lo == 0.0;
    } else {
      QuotientInUnit(v - lo, hi - lo);
    }
  }

  /** An axis on which all points agree is fixed at 0 (its range is replaced by 1). */
  lemma ConstantAxisIsZero(m: Matrix, dims: nat, d: nat)
    requires m != [] && IsMatrix(m, |m|, dims) && d < dims
    requires forall r :: 0 <= r < |m| ==> m[r][d] == m[0][d]
    ensures forall r :: 0 <= r < |m| ==> Normalized(m, dims)[r][d] == 0.0
  {
    assert HasAxis(m, d);
    var rl, rh := ColAttained(m, d);
    assert ColMax(m, d) - ColMin(m, d) == 0.0;
    forall r | 0 <= r < |m|
      ensures Normalized(m, dims)[r][d] == 0.0
    {
      assert Normalized(m, dims)[r][d] == (m[r][d] - ColMin(m, d)) / AxisRange(m, d);
    }
  }

  /** On an axis that varies, some point is at 0 and some point is at 1. */
  lemma VaryingAxisSpansUnit(m: Matrix, dims: nat, d: nat, r: nat)
    requires m != [] && IsMatrix(m, |m|, dims) && d < dims
    requires r < |m| && m[r][d] != m[0][d]
    ensures exists r :: 0 <= r < |m| && Normalized(m, dims)[r][d] == 0.0
    ensures exists r :: 0 <= r < |m| && Normalized(m, dims)[r][d] == 1.0
  {
    assert HasAxis(m, d);
    var lo, hi := ColMin(m, d), ColMax(m, d);
    var rl, rh := ColAttained(m, d);
    ColBounds(m, d, r);
    ColBounds(m, d, 0);
    assert hi - lo != 0.0;
    var w := AxisRange(m, d);
    assert w == hi - lo;
    var n := Normalized(m, dims);
    assert n[rl][d] == (m[rl][d] - lo) / w;
    assert n[rh][d] == (m[rh][d] - lo) / w;
    assert n[rl][d] == 0.0;
    assert m[rh][d] - lo == w;
    DivSelf(w);
  }

  /** `coords.min(axis=0)[d]` and `coords.max(axis=0)[d]`, one pass over the rows. */
  method AxisExtremes(coords: Matrix, d: nat) returns (lo: real, hi: real)
    requires HasAxis(coords, d)
    ensures lo == ColMin(coords, d) && hi == ColMax(coords, d)
  {
    lo, hi := coords[0][d], coords[0][d];
    for r := 1 to |coords|
      invariant HasAxis(coords[..r], d)
      invariant lo == ColMin(coords[..r], d) && hi == ColMax(coords[..r], d)
    {
      assert coords[..r + 1][..r] == coords[..r];
      if coords[r][d] < lo { lo := coords[r][d]; }
      if coords[r][d] > hi { hi := coords[r][d]; }
    }
    assert coords[..|coords|] == coords;
  }

  /**
   * The reducer's post-processing as the source writes it: per-axis minima and maxima,
   * the range array patched in place where it is zero, then the division.
   */
  method Normalize(coords: Matrix, dims: nat) returns (normalized: Matrix)
    requires coords != [] && IsMatrix(coords, |coords|, dims)
    ensures normalized == Normalized(coords, dims)
    ensures forall r, d :: 0 <= r < |coords| && 0 <= d < dims ==> Unit(normalized[r][d])
  {
    var minVals := new real[dims];
    var rangeVals := new real[dims];
    for d := 0 to dims
      invariant forall e :: 0 <= e < d ==> HasAxis(coords, e)
      invariant forall e :: 0 <= e < d ==>
        minVals[e] == ColMin(coords, e) && rangeVals[e] == ColMax(coords, e) - ColMin(coords, e)
    {
      assert HasAxis(coords, d);
      var lo, hi := AxisExtremes(coords, d);
      minVals[d], rangeVals[d] := lo, hi - lo;
    }
    // range_vals[range_vals == 0] = 1
    for d := 0 to dims
      invariant forall e :: 0 <= e < dims ==> HasAxis(coords, e)
      invariant forall e :: 0 <= e < dims ==> minVals[e] == ColMin(coords, e)
      invariant forall e :: 0 <= e < d ==> rangeVals[e] == AxisRange(coords, e)
      invariant forall e :: d <= e < dims ==> rangeVals[e] == ColMax(coords, e) - ColMin(coords, e)
    {
      if rangeVals[d] == 0.0 { rangeVals[d] := 1.0; }
    }
    assert minVals[..] == Mins(coords, dims);
    assert rangeVals[..] == Ranges(coords, dims);
    normalized := Rescale(coords, dims, minVals[..], rangeVals[..]);
    forall r, d | 0 <= r < |coords| && 0 <= d < dims
      ensures Unit(normalized[r][d])
    {
      NormalizedInUnit(coords, dims, r, d);
    }
  }

  // ---------------------------------------------------------------------------
  // The reducer around the normalisation (`reduce_to_3d`, `reduce_to_2d`).

  /** The single centre point returned when there are fewer than two samples. */
  function Centre(dims: nat): (c: seq<real>)
    ensures |c| == dims && forall d :: 0 <= d < dims ==> c[d] == 0.5
  {
    seq(dims, _ => 0.5)
  }

  /** UMAP's guarantee for the one call the reducer makes: one row per sample, `dims` wide. */
  predicate UmapFits(umap: (Matrix, nat, nat, real) -> Option<Matrix>, m: Matrix, dims: nat, nNeighbors: nat, minDist: real) {
    |m| >= 2 ==>
      var c := umap(m, dims, Min(nNeighbors, |m| - 1), minDist);
      c.Some? ==> IsMatrix(c.value, |m|, dims)
  }

  lemma ShapedUmapFits(num: Numerics, m: Matrix, dims: nat, nNeighbors: nat, minDist: real)
    requires Shaped(num)
    ensures UmapFits(num.umap, m, dims, nNeighbors, minDist)
  {
  }

  /**
   * The reducer with `dims` components: the centre point below two samples, otherwise UMAP
   * with the neighbour count capped at `n_samples - 1`, then normalised. None: UMAP raised.
   */
  function Reduced(m: Matrix, umap: (Matrix, nat, nat, real) -> Option<Matrix>, dims: nat, nNeighbors: nat, minDist: real): Option<Matrix>
    requires UmapFits(umap, m, dims, nNeighbors, minDist)
  {
    if |m| < 2 then Some([Centre(dims)])
    else
      match umap(m, dims, Min(nNeighbors, |m| - 1), minDist)
      case None => None
      case Some(c) => Some(Normalized(c, dims))
  }

  /**
   * What the reducer hands on: one row per sample (a single row for fewer than two), every
   * coordinate in [0, 1]; it fails only when UMAP does.
   */
  lemma ReducedShape(m: Matrix, umap: (Matrix, nat, nat, real) -> Option<Matrix>, dims: nat, nNeighbors: nat, minDist: real)
    requires UmapFits(umap, m, dims, nNeighbors, minDist)
    ensures |m| < 2 ==> Reduced(m, umap, dims, nNeighbors, minDist) == Some([Centre(dims)])
    ensures Reduced(m, umap, dims, nNeighbors, minDist).None? <==>
      |m| >= 2 && umap(m, dims, Min(nNeighbors, |m| - 1), minDist).None?
    ensures Reduced(m, umap, dims, nNeighbors, minDist).Some? ==>
      var c := Reduced(m, umap, dims, nNeighbors, minDist).value;
      && IsMatrix(c, Max(|m|, 1), dims)
      && forall r, d :: 0 <= r < |c| && 0 <= d < dims ==> Unit(c[r][d])
  {
    if |m| >= 2 {
      var u := umap(m, dims, Min(nNeighbors, |m| - 1), minDist);
      if u.Some? {
        var c := Normalized(u.value, dims);
        forall r, d | 0 <= r < |c| && 0 <= d < dims
          ensures Unit(c[r][d])
        {
          NormalizedInUnit(u.value, dims, r, d);
        }
      }
    }
  }
}
