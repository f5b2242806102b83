/**
 * The article pipeline: markdown body text to sentences, then a two-dimensional graph
 * without edges, node text truncated for display.
 */
module ArticlePipeline {
  import opened Wrappers
  import opened PyText
  import opened Sentences
  import opened VizGraph
  import opened AxisNormalize
  import opened Markdown

  const DefaultNeighbors: nat := 15
  const DefaultMinDist: real := 0.1

  /** Node text longer than this is cut and marked with an ellipsis. */
  const MaxNodeText: nat := 100

  /**
   * `chunk_to_sentences`: strip the markup, tokenise, keep the stripped sentences of ten or more
   * characters; `None` when the tokeniser raised.
   */
  function ChunkToSentences(text: string, isDigit: char -> bool, sentTokenize: string -> Option<seq<string>>): Option<seq<string>>
  {
    match sentTokenize(StripMarkdown(text, isDigit))
    case None => None
    case Some(found) => Some(FilterSentences(found))
  }

  /**
   * An article has sentences exactly when the tokeniser accepts the stripped text, and then an
   * article sentence is exactly the stripped form of a long-enough sentence it found there.
   */
  lemma ArticleSentenceOrigin(text: string, isDigit: char -> bool, sentTokenize: string -> Option<seq<string>>, x: string)
    ensures ChunkToSentences(text, isDigit, sentTokenize).Some? <==> sentTokenize(StripMarkdown(text, isDigit)).Some?
    ensures ChunkToSentences(text, isDigit, sentTokenize).Some? ==>
      (x in ChunkToSentences(text, isDigit, sentTokenize).value <==>
       exists s :: s in sentTokenize(StripMarkdown(text, isDigit)).value && Kept(s) && Strip(s) == x)
  {
    var found := sentTokenize(StripMarkdown(text, isDigit));
    if found.Some? {
      FilterMembership(found.value, x);
    }
  }

  /** `sentence[:100] + "..." if len(sentence) > 100 else sentence` */
  function Truncate(s: string): (r: string)
    ensures |s| <= MaxNodeText ==> r == s
    ensures |s| > MaxNodeText ==> |r| == MaxNodeText + 3 && r[..MaxNodeText] == s[..MaxNodeText] && r[MaxNodeText..] == "..."
  {
    if |s| > MaxNodeText then s[..MaxNodeText] + "..." else s
  }

  /** Display text is never longer than 103 characters and always starts like the sentence. */
  lemma TruncateBounds(s: string)
    ensures |Truncate(s)| <= MaxNodeText + 3
    ensures |Truncate(s)| >= Min(|s|, MaxNodeText)
    ensures Truncate(s)[..Min(|s|, MaxNodeText)] == s[..Min(|s|, MaxNodeText)]
  {
    if |s| <= MaxNodeText {
      assert Truncate(s) == s;
    } else {
      assert Truncate(s)[..MaxNodeText] == s[..MaxNodeText];
    }
  }

  /** `reduce_to_2d` with its UMAP parameters. */
  method ReduceTo2d(embeddings: Matrix, umap: (Matrix, nat, nat, real) -> Option<Matrix>, nNeighbors: nat, minDist: real)
    returns (coords: Option<Matrix>)
    requires UmapFits(umap, embeddings, 2, nNeighbors, minDist)
    ensures coords == Reduced(embeddings, umap, 2, nNeighbors, minDist)
  {
    if |embeddings| < 2 {
      assert Centre(2) == [0.5, 0.5];
      coords := Some([[0.5, 0.5]]);
      return;
    }
    var adjustedNeighbors := Min(nNeighbors, |embeddings| - 1);
    var reduced := umap(embeddings, 2, adjustedNeighbors, minDist);
    if reduced.None? {
      coords := None;
    } else {
      var normalized := Normalize(reduced.value, 2);
      coords := Some(normalized);
    }
  }

  /** One node per sentence, without `z`, its text truncated. */
  function Nodes2d(sentences: seq<string>, coords: Matrix): seq<Node>
    requires IsMatrix(coords, |sentences|, 2)
  {
    seq(|sentences|, i requires 0 <= i < |sentences| =>
      Node(i, coords[i][0], coords[i][1], None, Truncate(sentences[i]), Position(i, |sentences|)))
  }

  /** `generate_visualization_data` for an article: `{"nodes": []}` without sentences, None when a foreign stage raised. */
  function ArticleGraph(sentences: seq<string>, num: Numerics): Option<Graph>
    requires Shaped(num)
  {
    if sentences == [] then Some(EmptyNodes)
    else
      match num.encode(sentences)
      case None => None
      case Some(embeddings) =>
        match Reduced(embeddings, num.umap, 2, DefaultNeighbors, DefaultMinDist)
        case None => None
        case Some(coords) =>
          assert IsMatrix(coords, |sentences|, 2) by {
            ReducedShape(embeddings, num.umap, 2, DefaultNeighbors, DefaultMinDist);
          }
          Some(Graph(Nodes2d(sentences, coords), None))
  }

  /** The node loop of `generate_visualization_data` (article). */
  method BuildNodes(sentences: seq<string>, coords: Matrix) returns (nodes: seq<Node>)
    requires IsMatrix(coords, |sentences|, 2)
    ensures nodes == Nodes2d(sentences, coords)
  {
    nodes := [];
    for i := 0 to |sentences|
      invariant nodes == Nodes2d(sentences, coords)[..i]
    {
      var position := Position(i, |sentences|);
      var sentence := sentences[i];
      var text := if |sentence| > 100 then sentence[..100] + "..." else sentence;
      nodes := nodes + [Node(i, coords[i][0], coords[i][1], None, text, position)];
    }
  }

  /** `generate_visualization_data(text)` for an article: None when the tokeniser or a numeric stage raised. */
  function TextGraph(text: string, isDigit: char -> bool, sentTokenize: string -> Option<seq<string>>, num: Numerics): Option<Graph>
    requires Shaped(num)
  {
    match ChunkToSentences(text, isDigit, sentTokenize)
    case None => None
    case Some(sentences) => ArticleGraph(sentences, num)
  }

  method GenerateVisualizationData(text: string, isDigit: char -> bool, sentTokenize: string -> Option<seq<string>>, num: Numerics)
    returns (data: Option<Graph>)
    requires Shaped(num)
    ensures data == TextGraph(text, isDigit, sentTokenize, num)
  {
    var sentences := ChunkToSentences(text, isDigit, sentTokenize);
    if sentences.None? {
      return None;
    }
    data := GraphOfSentences(sentences.value, num);
  }

  /** Everything of `generate_visualization_data` (article) after the sentences are known. */
  method GraphOfSentences(sentences: seq<string>, num: Numerics) returns (data: Option<Graph>)
    requires Shaped(num)
    ensures data == ArticleGraph(sentences, num)
  {
    if sentences == [] {
      return Some(EmptyNodes);
    }
    var encoded := num.encode(sentences);
    if encoded.None? {
      return None;
    }
    var embeddings := encoded.value;
    ShapedUmapFits(num, embeddings, 2, DefaultNeighbors, DefaultMinDist);
    var coords := ReduceTo2d(embeddings, num.umap, DefaultNeighbors, DefaultMinDist);
    if coords.None? {
      return None;
    }
    ReducedShape(embeddings, num.umap, 2, DefaultNeighbors, DefaultMinDist);
    var nodes := BuildNodes(sentences, coords.value);
    data := Some(Graph(nodes, None));
  }

  /** No sentences: `{"nodes": []}`, whatever the numeric stages would do. */
  lemma EmptyArticleGraph(num: Numerics)
    requires Shaped(num)
    ensures ArticleGraph([], num) == Some(EmptyNodes)
  {
  }

  /** The article pipeline fails exactly when the encoder fails, or UMAP fails on two or more sentences. */
  lemma ArticleGraphFails(sentences: seq<string>, num: Numerics)
    requires Shaped(num)
    ensures ArticleGraph(sentences, num).None? <==>
      sentences != [] &&
      (num.encode(sentences).None? ||
       (|sentences| >= 2 && num.umap(num.encode(sentences).value, 2, Min(DefaultNeighbors, |sentences| - 1), DefaultMinDist).None?))
  {
    if sentences != [] && num.encode(sentences).Some? {
      ReducedShape(num.encode(sentences).value, num.umap, 2, DefaultNeighbors, DefaultMinDist);
    }
  }

  /**
   * One node per sentence, numbered in order, with two coordinates in [0, 1], no `z`, the
   * sentence as display text (cut at 100 characters plus "..."), and no edge list.
   */
  lemma ArticleGraphNodes(sentences: seq<string>, num: Numerics)
    requires Shaped(num) && ArticleGraph(sentences, num).Some?
    ensures var g := ArticleGraph(sentences, num).value;
      && |g.nodes| == |sentences| && g.edges.None?
      && forall i :: 0 <= i < |g.nodes| ==>
        && g.nodes[i].id == i && g.nodes[i].text == Truncate(sentences[i])
        && Unit(g.nodes[i].x) && Unit(g.nodes[i].y) && g.nodes[i].z.None?
        && g.nodes[i].position == Position(i, |sentences|)
  {
    if sentences != [] {
      ReducedShape(num.encode(sentences).value, num.umap, 2, DefaultNeighbors, DefaultMinDist);
    }
  }
}
