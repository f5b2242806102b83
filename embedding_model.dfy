/** `EmbeddingMixin.generate_embedding_visualization`: render, generate, and fall back to the empty graph. */
module EmbeddingModel {
  import opened Wrappers
  import opened VizGraph
  import opened HtmlExtract
  import opened PagePipeline
  import opened Pages

  /**
   * What generation depends on besides the page. `render` is `render_page_to_html` followed by the
   * HTML tokeniser (None when rendering raised); the rest are the page pipeline's library inputs.
   */
  datatype Generator = Generator(
    render: Page -> Option<seq<Event>>,
    blockTags: set<string>,
    sentTokenize: string -> Option<seq<string>>,
    num: Numerics)

  /** The value the method leaves in `embedding_visualization` for a page in state `p`. */
  function Generated(p: Page, gen: Generator): Graph
    requires Shaped(gen.num)
  {
    match gen.render(p)
    case None => EmptyGraph
    case Some(events) => HtmlGraph(events, gen.blockTags, gen.sentTokenize, gen.num, DefaultThreshold).GetOr(EmptyGraph)
  }

  /**
   * Success stores the generator's graph; any exception (rendering, the tokeniser, a numeric stage)
   * stores `{"nodes": [], "edges": []}`. Either way the value is a page graph with both keys, which
   * the views never mistake for NULL.
   */
  lemma GeneratedCases(p: Page, gen: Generator)
    requires Shaped(gen.num)
    ensures var g := Generated(p, gen);
      && g.edges.Some?
      && (gen.render(p).None? ==> g == EmptyGraph)
      && (gen.render(p).Some? ==>
            var chunks := ExtractChunks(gen.render(p).value, gen.blockTags);
            && ((exists c :: c in chunks && gen.sentTokenize(c).None?) ==> g == EmptyGraph)
            && var found := PageSentences(gen.render(p).value, gen.blockTags, gen.sentTokenize);
            && (found.None? <==> exists c :: c in chunks && gen.sentTokenize(c).None?)
            && (found.Some? ==>
                  var data := PageGraph(found.value, gen.num, DefaultThreshold);
                  g == if data.Some? then data.value else EmptyGraph))
  {
    if gen.render(p).Some? {
      var events := gen.render(p).value;
      PageSentencesFail(events, gen.blockTags, gen.sentTokenize);
      var found := PageSentences(events, gen.blockTags, gen.sentTokenize);
      if found.Some? {
        var sentences := found.value;
        if sentences == [] {
          EmptyPageGraph(gen.num, DefaultThreshold);
        } else if PageGraph(sentences, gen.num, DefaultThreshold).Some? {
          PageGraphEdges(sentences, gen.num, DefaultThreshold, 0, 0, 0.0);
        }
      }
    }
  }

  /** A page object in memory. Only `embedding_visualization` is assignable here. */
  class PageInstance {
    const pk: nat
    const kind: PageKind
    const live: bool
    const title: string
    var embeddingVisualization: Option<Graph>

    function State(): Page
      reads this
    {
      Page(pk, kind, live, title, embeddingVisualization)
    }

    /** The object loaded for a row. */
    constructor (p: Page)
      ensures State() == p
    {
      pk, kind, live, title := p.pk, p.kind, p.live, p.title;
      embeddingVisualization := p.stored;
    }

    /** Never raises: the result, or the empty graph, is assigned to the field, and nothing is saved. */
    method GenerateEmbeddingVisualization(gen: Generator)
      requires Shaped(gen.num)
      modifies this
      ensures State() == old(State()).(stored := Some(Generated(old(State()), gen)))
    {
      var html := gen.render(State());
      if html.None? {
        embeddingVisualization := Some(EmptyGraph);
        return;
      }
      var data := GenerateVisualizationData(html.value, gen.blockTags, gen.sentTokenize, gen.num, DefaultThreshold);
      if data.None? {
        embeddingVisualization := Some(EmptyGraph);
      } else {
        embeddingVisualization := data;
      }
    }
  }
}
