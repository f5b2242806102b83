/** The visualisation graph stored per page, and the foreign numeric stages that feed it. */
module VizGraph {
  import opened Wrappers
  import opened PyText

  /** One sentence; `z` is absent in the two-dimensional article graph. */
  datatype Node = Node(id: nat, x: real, y: real, z: Option<real>, text: string, position: real)

  datatype Edge = Edge(source: nat, target: nat, similarity: real)

  /** `{"nodes": [...], "edges": [...]}`; `edges` is absent (None) in the article graph. */
  datatype Graph = Graph(nodes: seq<Node>, edges: Option<seq<Edge>>)

  /** `{"nodes": [], "edges": []}` */
  const EmptyGraph: Graph := Graph([], Some([]))

  /** `{"nodes": []}` */
  const EmptyNodes: Graph := Graph([], None)

  function Max(a: int, b: int): int { if a >= b then a else b }

  function Min(a: int, b: int): int { if a <= b then a else b }

  /** `i / max(n - 1, 1)`: 0 for the first sentence, 1 for the last, 0 for a single one. */
  function Position(i: nat, n: nat): (p: real)
    requires i < n
    ensures 0.0 <= p <= 1.0
    ensures i == 0 ==> p == 0.0
    ensures n >= 2 && i == n - 1 ==> p == 1.0
  {
    var d := Max(n - 1, 1) as real;
    assert (i as real) <= d;
    (i as real) / d
  }

  /** Positions increase strictly along the sentence order. */
  lemma PositionIncreasing(i: nat, j: nat, n: nat)
    requires i < j < n
    ensures Position(i, n) < Position(j, n)
  {
    var d := Max(n - 1, 1) as real;
    assert (i as real) / d < (j as real) / d by {
      assert (j as real) / d - (i as real) / d == ((j - i) as real) / d;
    }
  }

  type Matrix = seq<seq<real>>

  predicate IsMatrix(m: Matrix, rows: nat, cols: nat) {
    |m| == rows && forall r :: 0 <= r < |m| ==> |m[r]| == cols
  }

  /** A value in the closed unit interval, as every normalised coordinate is. */
  predicate Unit(v: real) { 0.0 <= v <= 1.0 }

  /**
   * The foreign numeric stages. `encode` is the sentence-transformer model (with its load),
   * `umap` is `UMAP(n_components, n_neighbors, min_dist, metric="cosine", random_state=42)
   * .fit_transform`, `cosine` is the normalised dot-product matrix. `None` means the call raised.
   */
  datatype Numerics = Numerics(
    encode: seq<string> -> Option<Matrix>,
    umap: (Matrix, nat, nat, real) -> Option<Matrix>,
    cosine: Matrix -> Matrix)

  /** What the libraries guarantee about shapes: one row per input row, the requested width. */
  ghost predicate Shaped(num: Numerics) {
    && (forall ss :: num.encode(ss).Some? ==> |num.encode(ss).value| == |ss|)
    && (forall m, c, k, d :: num.umap(m, c, k, d).Some? ==> IsMatrix(num.umap(m, c, k, d).value, |m|, c))
    && (forall m :: IsMatrix(num.cosine(m), |m|, |m|))
  }

  lemma ShapedCosine(num: Numerics, m: Matrix)
    requires Shaped(num)
    ensures IsMatrix(num.cosine(m), |m|, |m|)
  {
  }
}
