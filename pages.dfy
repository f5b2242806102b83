/** Page rows as the views, the publish handlers and the batch command see them. */
module Pages {
  import opened Wrappers
  import opened VizGraph

  /** The specific page classes that matter here. `HomePage` and `ArticlePage` use the embedding mixin. */
  datatype PageKind = HomePage | ArticlePage | ArticleIndexPage | OtherPage

  predicate IsEmbeddingMixin(k: PageKind) {
    k == HomePage || k == ArticlePage
  }

  /**
   * One page row. `stored` is the `embedding_visualization` column: `None` is SQL NULL, the only
   * falsy value the model stores (every generated graph is a non-empty dict).
   */
  datatype Page = Page(pk: nat, kind: PageKind, live: bool, title: string, stored: Option<Graph>)

  /** The page table, by primary key. */
  type Table = map<nat, Page>

  predicate Keyed(db: Table) {
    forall k :: k in db ==> db[k].pk == k
  }

  /**
   * A response body: an error object, the per-page map of graphs, or one graph (all JSON); or the
   * empty body of `HttpResponseNotAllowed`, whose `Allow` header lists the permitted methods.
   */
  datatype Body = Error(message: string) | Graphs(graphs: map<string, Graph>) | Data(graph: Graph) | NotAllowed(allow: seq<string>)

  datatype Response = Response(status: nat, body: Body, cacheControl: Option<string>)

  const OneHour: string := "public, max-age=3600"

  function ErrorResponse(status: nat, message: string): (r: Response)
    ensures r.cacheControl.None?
  {
    Response(status, Error(message), None)
  }

  /** What `@require_GET` answers a request of any other method with: `HttpResponseNotAllowed(["GET"])`. */
  const MethodNotAllowed: Response := Response(405, NotAllowed(["GET"]), None)

  /** `JsonResponse(body)` followed by `response["Cache-Control"] = "public, max-age=3600"`. */
  function Cached(body: Body): (r: Response)
    ensures r.status == 200 && r.cacheControl == Some(OneHour)
  {
    Response(200, body, Some(OneHour))
  }

  /** The table after `filter(pk=pk).update(embedding_visualization=v)`: one column of at most one row. */
  function WithStored(db: Table, pk: nat, v: Option<Graph>): Table {
    if pk in db then db[pk := db[pk].(stored := v)] else db
  }

  /** The update touches nothing but the `embedding_visualization` column of row `pk`. */
  lemma WithStoredOnlyColumn(db: Table, pk: nat, v: Option<Graph>)
    ensures var after := WithStored(db, pk, v);
      && after.Keys == db.Keys
      && (forall k :: k in db && k != pk ==> after[k] == db[k])
      && (pk in db ==> after[pk] == db[pk].(stored := v) && after[pk].stored == v)
      && (Keyed(db) ==> Keyed(after))
  {
  }

  /** The page table as the ORM sees it. */
  class PageStore {
    var rows: Table

    constructor (rows: Table)
      ensures this.rows == rows
    {
      this.rows := rows;
    }

    /** `Model.objects.filter(pk=pk).update(embedding_visualization=v)`: no save, no signal. */
    method UpdateStored(pk: nat, v: Option<Graph>)
      modifies this
      ensures rows == WithStored(old(rows), pk, v)
    {
      if pk in rows {
        rows := rows[pk := rows[pk].(stored := v)];
      }
    }
  }
}
