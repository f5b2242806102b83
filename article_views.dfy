/** `article_embeddings`: one article's graph, behind three guards. */
module ArticleViews {
  import opened Wrappers
  import opened VizGraph
  import opened Pages

  const PageNotFound: string := "Page not found"
  const NotAnArticle: string := "Not an article page"
  const NotPublished: string := "Page not published"

  /**
   * The request method first (`@require_GET`), then the guards in source order (missing, then type,
   * then live), then `embedding_visualization or {"nodes": []}`.
   */
  function ArticleEmbeddings(requestMethod: string, pageId: nat, db: Table): (r: Response)
    ensures r.cacheControl.Some? <==> r.status == 200
  {
    if requestMethod != "GET" then MethodNotAllowed
    else if pageId !in db then ErrorResponse(404, PageNotFound)
    else if db[pageId].kind != ArticlePage then ErrorResponse(400, NotAnArticle)
    else if !db[pageId].live then ErrorResponse(404, NotPublished)
    else Cached(Data(db[pageId].stored.GetOr(EmptyNodes)))
  }

  /** Each outcome happens exactly in its own case. */
  lemma Outcomes(requestMethod: string, pageId: nat, db: Table)
    ensures var r := ArticleEmbeddings(requestMethod, pageId, db);
      && (r == MethodNotAllowed <==> requestMethod != "GET")
      && (r.body == Error(PageNotFound) <==> requestMethod == "GET" && pageId !in db)
      && (r.body == Error(NotAnArticle) <==> requestMethod == "GET" && pageId in db && db[pageId].kind != ArticlePage)
      && (r.body == Error(NotPublished) <==>
            requestMethod == "GET" && pageId in db && db[pageId].kind == ArticlePage && !db[pageId].live)
      && (r.status == 200 <==> requestMethod == "GET" && pageId in db && db[pageId].kind == ArticlePage && db[pageId].live)
      && (r.body.Error? ==> r.status == (if r.body == Error(NotAnArticle) then 400 else 404))
  {
  }

  /** A served article is its stored graph when there is one, and `{"nodes": []}` otherwise. */
  lemma ServedData(pageId: nat, db: Table)
    requires pageId in db && db[pageId].kind == ArticlePage && db[pageId].live
    ensures var r := ArticleEmbeddings("GET", pageId, db);
      && r.body.Data?
      && (db[pageId].stored.Some? ==> r.body.graph == db[pageId].stored.value)
      && (db[pageId].stored.None? ==> r.body.graph == EmptyNodes && r.body.graph.edges.None?)
  {
  }

  /** The type guard comes first: a page that is neither an article nor live is refused with 400, not 404. */
  lemma TypeBeforeLive(pageId: nat, db: Table)
    requires pageId in db && db[pageId].kind != ArticlePage && !db[pageId].live
    ensures ArticleEmbeddings("GET", pageId, db).status == 400
  {
  }
}
