/**
 * The page pipeline: rendered page events to sentences, then the foreign numeric stages,
 * then the three-dimensional graph with similarity edges.
 */
module PagePipeline {
  import opened Wrappers
  import opened PyText
  import opened Sentences
  import opened VizGraph
  import opened AxisNormalize
  import opened HtmlExtract

  /** UMAP defaults of the reducer, and the edge threshold the page model uses. */
  const DefaultNeighbors: nat := 15
  const DefaultMinDist: real := 0.1
  const DefaultThreshold: real := 0.5

  // ---------------------------------------------------------------------------
  // Sentences.

  /**
   * The sentences of a page: the extractor's chunks, tokenised, stripped and length-filtered;
   * `None` when the tokeniser raised.
   */
  function PageSentences(events: seq<Event>, blockTags: set<string>, sentTokenize: string -> Option<seq<string>>): Option<seq<string>>
  {
    match TokenizeAll(ExtractChunks(events, blockTags), sentTokenize)
    case None => None
    case Some(all) => Some(FilterSentences(all))
  }

  /** `chunk_html_to_sentences`: an exception from `nltk.sent_tokenize` leaves the loop at once. */
  method ChunkHtmlToSentences(events: seq<Event>, blockTags: set<string>, sentTokenize: string -> Option<seq<string>>)
    returns (sentences: Option<seq<string>>)
    ensures sentences == PageSentences(events, blockTags, sentTokenize)
  {
    var extractor := new HtmlTextExtractor(blockTags);
    extractor.Feed(events);
    var chunks := extractor.GetChunks();
    var all: seq<string> := [];
    for k := 0 to |chunks|
      invariant TokenizeAll(chunks[..k], sentTokenize) == Some(all)
    {
      assert chunks[..k + 1][..k] == chunks[..k];
      var found := sentTokenize(chunks[k]);
      if found.None? {
        assert chunks[k] in chunks;
        TokenizeAllFails(chunks, sentTokenize);
        return None;
      }
      all := all + found.value;
    }
    assert chunks[..|chunks|] == chunks;
    sentences := Some(FilterSentences(all));
  }

  /** A page has no sentence list exactly when the tokeniser raised on one of its chunks. */
  lemma PageSentencesFail(events: seq<Event>, blockTags: set<string>, sentTokenize: string -> Option<seq<string>>)
    ensures PageSentences(events, blockTags, sentTokenize).None? <==>
      exists c :: c in ExtractChunks(events, blockTags) && sentTokenize(c).None?
  {
    TokenizeAllFails(ExtractChunks(events, blockTags), sentTokenize);
  }

  /**
   * When the tokeniser succeeds, a page sentence is exactly the stripped form of a sentence the
   * tokeniser produced from some chunk, kept when it is at least ten characters long.
   */
  lemma PageSentenceOrigin(events: seq<Event>, blockTags: set<string>, sentTokenize: string -> Option<seq<string>>, x: string)
    requires forall c :: c in ExtractChunks(events, blockTags) ==> sentTokenize(c).Some?
    ensures PageSentences(events, blockTags, sentTokenize).Some?
    ensures x in PageSentences(events, blockTags, sentTokenize).value <==>
      exists c, s :: c in ExtractChunks(events, blockTags) && sentTokenize(c).Some? && s in sentTokenize(c).value &&
        Kept(s) && Strip(s) == x
  {
    var chunks := ExtractChunks(events, blockTags);
    TokenizeAllFails(chunks, sentTokenize);
    var all := TokenizeAll(chunks, sentTokenize).value;
    FilterMembership(all, x);
    forall s ensures s in all <==> exists c :: c in chunks && sentTokenize(c).Some? && s in sentTokenize(c).value {
      TokenizeAllMember(chunks, sentTokenize, s);
    }
  }

  // ---------------------------------------------------------------------------
  // Similarity edges.

  /** `(source_id, target_id, similarity)` */
  type EdgeTuple = (nat, nat, real)

  predicate Square(sim: Matrix) {
    IsMatrix(sim, |sim|, |sim|)
  }

  /** The pairs `(i, j')` with `i < j' < j` whose similarity reaches `threshold`, by increasing `j'`. */
  function RowPairs(sim: Matrix, threshold: real, i: nat, j: nat): seq<EdgeTuple>
    requires Square(sim) && i < |sim| && j <= |sim|
    decreases j
  {
    if j <= i + 1 then []
    else RowPairs(sim, threshold, i, j - 1) + (if sim[i][j - 1] >= threshold then [(i, j - 1, sim[i][j - 1])] else [])
  }

  /** The pairs of the first `i` rows, row by row. */
  function PairsBelow(sim: Matrix, threshold: real, i: nat): seq<EdgeTuple>
    requires Square(sim) && i <= |sim|
  {
    if i == 0 then [] else PairsBelow(sim, threshold, i - 1) + RowPairs(sim, threshold, i - 1, |sim|)
  }

  /** Every pair above the diagonal whose similarity reaches `threshold`. */
  function ThresholdPairs(sim: Matrix, threshold: real): seq<EdgeTuple>
    requires Square(sim)
  {
    PairsBelow(sim, threshold, |sim|)
  }

  /** An edge of the threshold graph: above the diagonal, reaching the threshold, carrying its similarity. */
  predicate IsEdge(sim: Matrix, threshold: real, t: EdgeTuple)
    requires Square(sim)
  {
    t.0 < t.1 < |sim| && sim[t.0][t.1] >= threshold && t.2 == sim[t.0][t.1]
  }

  lemma {:induction false} RowPairsMember(sim: Matrix, threshold: real, i: nat, j: nat, t: EdgeTuple)
    requires Square(sim) && i < |sim| && j <= |sim|
    ensures t in RowPairs(sim, threshold, i, j) <==> t.0 == i && t.1 < j && IsEdge(sim, threshold, t)
    decreases j
  {
    if j > i + 1 {
      RowPairsMember(sim, threshold, i, j - 1, t);
    }
  }

  lemma PairsBelowMember(sim: Matrix, threshold: real, i: nat, t: EdgeTuple)
    requires Square(sim) && i <= |sim|
    ensures t in PairsBelow(sim, threshold, i) <==> t.0 < i && IsEdge(sim, threshold, t)
  {
    for h := 0 to i
      invariant t in PairsBelow(sim, threshold, h) <==> t.0 < h && IsEdge(sim, threshold, t)
    {
      PairsBelowStep(sim, threshold, h, t);
    }
  }

  /** Row `h` adds exactly the edges that start in it. */
  lemma PairsBelowStep(sim: Matrix, threshold: real, h: nat, t: EdgeTuple)
    requires Square(sim) && h < |sim|
    requires t in PairsBelow(sim, threshold, h) <==> t.0 < h && IsEdge(sim, threshold, t)
    ensures t in PairsBelow(sim, threshold, h + 1) <==> t.0 <= h && IsEdge(sim, threshold, t)
  {
    var a := PairsBelow(sim, threshold, h);
    var b := RowPairs(sim, threshold, h, |sim|);
    assert PairsBelow(sim, threshold, h + 1) == a + b;
    RowPairsMember(sim, threshold, h, |sim|, t);
    ConcatMember(PairsBelow(sim, threshold, h + 1), a, b, t);
  }

  lemma ConcatMember(whole: seq<EdgeTuple>, a: seq<EdgeTuple>, b: seq<EdgeTuple>, t: EdgeTuple)
    requires whole == a + b
    ensures t in whole <==> t in a || t in b
  {
  }

  /** The edge list holds every qualifying pair and nothing else. */
  lemma ThresholdPairsMember(sim: Matrix, threshold: real, t: EdgeTuple)
    requires Square(sim)
    ensures t in ThresholdPairs(sim, threshold) <==> IsEdge(sim, threshold, t)
  {
    PairsBelowMember(sim, threshold, |sim|, t);
  }

  /** `(a.0, a.1)` precedes `(b.0, b.1)` lexicographically. */
  predicate LexLess(a: EdgeTuple, b: EdgeTuple) {
    a.0 < b.0 || (a.0 == b.0 && a.1 < b.1)
  }

  predicate LexSorted(ts: seq<EdgeTuple>) {
    forall p, q :: 0 <= p < q < |ts| ==> LexLess(ts[p], ts[q])
  }

  lemma SortedConcat(a: seq<EdgeTuple>, b: seq<EdgeTuple>)
    requires LexSorted(a) && LexSorted(b)
    requires forall x, y :: x in a && y in b ==> LexLess(x, y)
    ensures LexSorted(a + b)
  {
    forall p, q | 0 <= p < q < |a + b|
      ensures LexLess((a + b)[p], (a + b)[q])
    {
      if q < |a| {
      } else if p >= |a| {
        assert (a + b)[p] == b[p - |a|] && (a + b)[q] == b[q - |a|];
      } else {
        assert (a + b)[p] in a && (a + b)[q] in b;
      }
    }
  }

  lemma {:induction false} RowPairsSorted(sim: Matrix, threshold: real, i: nat, j: nat)
    requires Square(sim) && i < |sim| && j <= |sim|
    ensures LexSorted(RowPairs(sim, threshold, i, j))
    decreases j
  {
    if j > i + 1 {
      RowPairsSorted(sim, threshold, i, j - 1);
      var a := RowPairs(sim, threshold, i, j - 1);
      var b: seq<EdgeTuple> := if sim[i][j - 1] >= threshold then [(i, j - 1, sim[i][j - 1])] else [];
      forall x, y | x in a && y in b
        ensures LexLess(x, y)
      {
        RowPairsMember(sim, threshold, i, j - 1, x);
      }
      SortedConcat(a, b);
    }
  }

  lemma PairsBelowSorted(sim: Matrix, threshold: real, i: nat)
    requires Square(sim) && i <= |sim|
    ensures LexSorted(PairsBelow(sim, threshold, i))
  {
    for h := 0 to i
      invariant LexSorted(PairsBelow(sim, threshold, h))
    {
      PairsBelowSortedStep(sim, threshold, h);
    }
  }

  /** Row `h` comes after the rows before it. */
  lemma PairsBelowSortedStep(sim: Matrix, threshold: real, h: nat)
    requires Square(sim) && h < |sim|
    requires LexSorted(PairsBelow(sim, threshold, h))
    ensures LexSorted(PairsBelow(sim, threshold, h + 1))
  {
    RowPairsSorted(sim, threshold, h, |sim|);
    var a := PairsBelow(sim, threshold, h);
    var b := RowPairs(sim, threshold, h, |sim|);
    assert PairsBelow(sim, threshold, h + 1) == a + b;
    forall x, y | x in a && y in b
      ensures LexLess(x, y)
    {
      PairsBelowMember(sim, threshold, h, x);
      RowPairsMember(sim, threshold, h, |sim|, y);
    }
    SortedConcat(a, b);
  }

  /** Edges come out in row-major order, so each pair appears once. */
  lemma ThresholdPairsSorted(sim: Matrix, threshold: real)
    requires Square(sim)
    ensures LexSorted(ThresholdPairs(sim, threshold))
  {
    PairsBelowSorted(sim, threshold, |sim|);
  }

  /**
   * `compute_cosine_similarities`: the similarity matrix comes from the foreign `cosine`
   * stage; the double loop over the upper triangle is modelled as written.
   */
  method ComputeCosineSimilarities(embeddings: Matrix, cosine: Matrix -> Matrix, threshold: real)
    returns (edges: seq<EdgeTuple>)
    requires IsMatrix(cosine(embeddings), |embeddings|, |embeddings|)
    ensures edges == ThresholdPairs(cosine(embeddings), threshold)
  {
    var sim := cosine(embeddings);
    edges := [];
    var n := |embeddings|;
    for i := 0 to n
      invariant edges == PairsBelow(sim, threshold, i)
    {
      for j := i + 1 to n
        invariant edges == PairsBelow(sim, threshold, i) + RowPairs(sim, threshold, i, j)
      {
        var s := sim[i][j];
        if s >= threshold {
          edges := edges + [(i, j, s)];
        }
      }
    }
  }

  // ---------------------------------------------------------------------------
  // Reduction and the graph.

  /** `reduce_to_3d` with its UMAP parameters. */
  method ReduceTo3d(embeddings: Matrix, umap: (Matrix, nat, nat, real) -> Option<Matrix>, nNeighbors: nat, minDist: real)
    returns (coords: Option<Matrix>)
    requires UmapFits(umap, embeddings, 3, nNeighbors, minDist)
    ensures coords == Reduced(embeddings, umap, 3, nNeighbors, minDist)
  {
    if |embeddings| < 2 {
      assert Centre(3) == [0.5, 0.5, 0.5];
      coords := Some([[0.5, 0.5, 0.5]]);
      return;
    }
    var adjustedNeighbors := Min(nNeighbors, |embeddings| - 1);
    var reduced := umap(embeddings, 3, adjustedNeighbors, minDist);
    if reduced.None? {
      coords := None;
    } else {
      var normalized := Normalize(reduced.value, 3);
      coords := Some(normalized);
    }
  }

  /** One node per sentence, with its reduced coordinates and its relative position. */
  function Nodes3d(sentences: seq<string>, coords: Matrix): seq<Node>
    requires IsMatrix(coords, |sentences|, 3)
  {
    seq(|sentences|, i requires 0 <= i < |sentences| =>
      Node(i, coords[i][0], coords[i][1], Some(coords[i][2]), sentences[i], Position(i, |sentences|)))
  }

  /** The node loop of `generate_visualization_data` (page). */
  method BuildNodes(sentences: seq<string>, coords: Matrix) returns (nodes: seq<Node>)
    requires IsMatrix(coords, |sentences|, 3)
    ensures nodes == Nodes3d(sentences, coords)
  {
    nodes := [];
    for i := 0 to |sentences|
      invariant nodes == Nodes3d(sentences, coords)[..i]
    {
      var position := Position(i, |sentences|);
      nodes := nodes + [Node(i, coords[i][0], coords[i][1], Some(coords[i][2]), sentences[i], position)];
    }
  }

  function ToEdges(ts: seq<EdgeTuple>): seq<Edge> {
    seq(|ts|, k requires 0 <= k < |ts| => Edge(ts[k].0, ts[k].1, ts[k].2))
  }

  /**
   * `generate_visualization_data` for a page: `{"nodes": [], "edges": []}` without sentences,
   * None when a foreign stage raised.
   */
  function PageGraph(sentences: seq<string>, num: Numerics, threshold: real): Option<Graph>
    requires Shaped(num)
  {
    if sentences == [] then Some(EmptyGraph)
    else
      match num.encode(sentences)
      case None => None
      case Some(embeddings) =>
        match Reduced(embeddings, num.umap, 3, DefaultNeighbors, DefaultMinDist)
        case None => None
        case Some(coords) =>
          assert IsMatrix(coords, |sentences|, 3) by {
            ReducedShape(embeddings, num.umap, 3, DefaultNeighbors, DefaultMinDist);
          }
          Some(Graph(Nodes3d(sentences, coords), Some(ToEdges(ThresholdPairs(num.cosine(embeddings), threshold)))))
  }

  /** `generate_visualization_data(html)` for a page: None when the tokeniser or a numeric stage raised. */
  function HtmlGraph(events: seq<Event>, blockTags: set<string>, sentTokenize: string -> Option<seq<string>>,
                     num: Numerics, threshold: real): Option<Graph>
    requires Shaped(num)
  {
    match PageSentences(events, blockTags, sentTokenize)
    case None => None
    case Some(sentences) => PageGraph(sentences, num, threshold)
  }

  method GenerateVisualizationData(events: seq<Event>, blockTags: set<string>, sentTokenize: string -> Option<seq<string>>,
                                   num: Numerics, threshold: real)
    returns (data: Option<Graph>)
    requires Shaped(num)
    ensures data == HtmlGraph(events, blockTags, sentTokenize, num, threshold)
  {
    var sentences := ChunkHtmlToSentences(events, blockTags, sentTokenize);
    if sentences.None? {
      return None;
    }
    data := GraphOfSentences(sentences.value, num, threshold);
  }

  /** Everything of `generate_visualization_data` (page) after the sentences are known. */
  method GraphOfSentences(sentences: seq<string>, num: Numerics, threshold: real) returns (data: Option<Graph>)
    requires Shaped(num)
    ensures data == PageGraph(sentences, num, threshold)
  {
    if sentences == [] {
      return Some(EmptyGraph);
    }
    var encoded := num.encode(sentences);
    if encoded.None? {
      return None;
    }
    var embeddings := encoded.value;
    ShapedUmapFits(num, embeddings, 3, DefaultNeighbors, DefaultMinDist);
    var coords := ReduceTo3d(embeddings, num.umap, DefaultNeighbors, DefaultMinDist);
    if coords.None? {
      return None;
    }
    ReducedShape(embeddings, num.umap, 3, DefaultNeighbors, DefaultMinDist);
    ShapedCosine(num, embeddings);
    var edgeTuples := ComputeCosineSimilarities(embeddings, num.cosine, threshold);
    var nodes := BuildNodes(sentences, coords.value);
    var edges := ToEdges(edgeTuples);
    data := Some(Graph(nodes, Some(edges)));
    PageGraphBuilt(sentences, num, threshold, embeddings, coords.value);
  }

  /** With every foreign stage succeeding, the graph is built from the coordinates and the pairs. */
  lemma PageGraphBuilt(sentences: seq<string>, num: Numerics, threshold: real, embeddings: Matrix, coords: Matrix)
    requires Shaped(num) && sentences != [] && num.encode(sentences) == Some(embeddings)
    requires Reduced(embeddings, num.umap, 3, DefaultNeighbors, DefaultMinDist) == Some(coords)
    requires IsMatrix(coords, |sentences|, 3)
    ensures PageGraph(sentences, num, threshold) ==
      Some(Graph(Nodes3d(sentences, coords), Some(ToEdges(ThresholdPairs(num.cosine(embeddings), threshold)))))
  {
  }

  // ---------------------------------------------------------------------------
  // What the graph promises.

  /** No sentences: the empty graph, whatever the numeric stages would do. */
  lemma EmptyPageGraph(num: Numerics, threshold: real)
    requires Shaped(num)
    ensures PageGraph([], num, threshold) == Some(EmptyGraph)
  {
  }

  /** The pipeline fails exactly when the encoder fails, or UMAP fails on two or more sentences. */
  lemma PageGraphFails(sentences: seq<string>, num: Numerics, threshold: real)
    requires Shaped(num)
    ensures PageGraph(sentences, num, threshold).None? <==>
      sentences != [] &&
      (num.encode(sentences).None? ||
       (|sentences| >= 2 && num.umap(num.encode(sentences).value, 3, Min(DefaultNeighbors, |sentences| - 1), DefaultMinDist).None?))
  {
    if sentences != [] && num.encode(sentences).Some? {
      ReducedShape(num.encode(sentences).value, num.umap, 3, DefaultNeighbors, DefaultMinDist);
    }
  }

  /**
   * One node per sentence, numbered in order, carrying the sentence, three coordinates in
   * [0, 1] and a position rising from 0 (first) to 1 (last).
   */
  lemma PageGraphNodes(sentences: seq<string>, num: Numerics, threshold: real)
    requires Shaped(num) && PageGraph(sentences, num, threshold).Some?
    ensures var g := PageGraph(sentences, num, threshold).value;
      && |g.nodes| == |sentences|
      && forall i :: 0 <= i < |g.nodes| ==>
        && g.nodes[i].id == i && g.nodes[i].text == sentences[i]
        && Unit(g.nodes[i].x) && Unit(g.nodes[i].y)
        && g.nodes[i].z.Some? && Unit(g.nodes[i].z.value)
        && g.nodes[i].position == Position(i, |sentences|)
  {
    if sentences != [] {
      ReducedShape(num.encode(sentences).value, num.umap, 3, DefaultNeighbors, DefaultMinDist);
    }
  }

  /**
   * The page graph always has an edge list, and it links nodes `a < b` exactly when their
   * similarity reaches the threshold, in row-major order.
   */
  lemma PageGraphEdges(sentences: seq<string>, num: Numerics, threshold: real, a: nat, b: nat, s: real)
    requires Shaped(num) && PageGraph(sentences, num, threshold).Some? && sentences != []
    ensures var g := PageGraph(sentences, num, threshold).value;
      var sim := num.cosine(num.encode(sentences).value);
      && g.edges.Some?
      && (Edge(a, b, s) in g.edges.value <==> a < b < |sentences| && sim[a][b] >= threshold && s == sim[a][b])
      && forall p, q :: 0 <= p < q < |g.edges.value| ==>
        g.edges.value[p].source < g.edges.value[q].source ||
        (g.edges.value[p].source == g.edges.value[q].source && g.edges.value[p].target < g.edges.value[q].target)
  {
    var emb := num.encode(sentences).value;
    var sim := num.cosine(emb);
    var ts := ThresholdPairs(sim, threshold);
    ThresholdPairsMember(sim, threshold, (a, b, s));
    ThresholdPairsSorted(sim, threshold);
    var es := ToEdges(ts);
    assert Edge(a, b, s) in es <==> (a, b, s) in ts by {
      if Edge(a, b, s) in es {
        var k :| 0 <= k < |es| && es[k] == Edge(a, b, s);
        assert ts[k] == (a, b, s);
      }
      if (a, b, s) in ts {
        var k :| 0 <= k < |ts| && ts[k] == (a, b, s);
        assert es[k] == Edge(a, b, s);
      }
    }
  }
}
