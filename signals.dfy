/**
 * The two `page_published` handlers (`generate_page_embeddings` and `generate_article_embeddings`),
 * their registration, and the signal that calls them in connection order.
 */
module PublishSignals {
  import opened Wrappers
  import opened VizGraph
  import opened Pages
  import opened EmbeddingModel

  datatype Receiver = PageEmbeddingsHandler | ArticleEmbeddingsHandler

  /** The type guard of each handler: any embedding page, or `ArticlePage` only. */
  predicate Handles(r: Receiver, kind: PageKind) {
    match r
    case PageEmbeddingsHandler => IsEmbeddingMixin(kind)
    case ArticleEmbeddingsHandler => kind == ArticlePage
  }

  /** One handler's effect on the instance and the table. */
  function AfterHandler(r: Receiver, p: Page, db: Table, gen: Generator): (Page, Table)
    requires Shaped(gen.num)
  {
    if Handles(r, p.kind) then
      var v := Some(Generated(p, gen));
      (p.(stored := v), WithStored(db, p.pk, v))
    else (p, db)
  }

  /** Every receiver in turn, first connected first. */
  function Dispatch(rs: seq<Receiver>, p: Page, db: Table, gen: Generator): (Page, Table)
    requires Shaped(gen.num)
  {
    if rs == [] then (p, db)
    else
      var prev := Dispatch(rs[..|rs| - 1], p, db, gen);
      AfterHandler(rs[|rs| - 1], prev.0, prev.1, gen)
  }

  /** Runs `handler` for `instance` (None when the signal carried no instance). */
  method RunHandler(handler: Receiver, instance: PageInstance?, store: PageStore, gen: Generator)
    requires Shaped(gen.num)
    modifies instance, store
    ensures instance == null ==> store.rows == old(store.rows)
    ensures instance != null ==>
      (instance.State(), store.rows) == AfterHandler(handler, old(instance.State()), old(store.rows), gen)
  {
    if instance == null || !Handles(handler, instance.kind) {
      return;
    }
    instance.GenerateEmbeddingVisualization(gen);
    store.UpdateStored(instance.pk, instance.embeddingVisualization);
  }

  /** `page_published`: receivers are kept once each, in the order they were connected. */
  class PagePublishedSignal {
    var receivers: seq<Receiver>

    constructor ()
      ensures receivers == []
    {
      receivers := [];
    }

    /** Connecting a receiver that is already connected changes nothing. */
    method Connect(r: Receiver)
      modifies this
      ensures receivers == if r in old(receivers) then old(receivers) else old(receivers) + [r]
    {
      if r !in receivers {
        receivers := receivers + [r];
      }
    }

    method Send(instance: PageInstance?, store: PageStore, gen: Generator)
      requires Shaped(gen.num)
      modifies instance, store
      ensures instance == null ==> store.rows == old(store.rows)
      ensures instance != null ==>
        (instance.State(), store.rows) == Dispatch(receivers, old(instance.State()), old(store.rows), gen)
    {
      for k := 0 to |receivers|
        invariant instance == null ==> store.rows == old(store.rows)
        invariant instance != null ==>
          (instance.State(), store.rows) == Dispatch(receivers[..k], old(instance.State()), old(store.rows), gen)
      {
        assert receivers[..k + 1][..k] == receivers[..k];
        RunHandler(receivers[k], instance, store, gen);
      }
      assert receivers[..|receivers|] == receivers;
    }
  }

  /** `register_signal_handlers` of the embeddings app. */
  method RegisterPageHandlers(signal: PagePublishedSignal)
    modifies signal
    ensures PageEmbeddingsHandler in signal.receivers
    ensures signal.receivers == if PageEmbeddingsHandler in old(signal.receivers) then old(signal.receivers)
                                else old(signal.receivers) + [PageEmbeddingsHandler]
  {
    signal.Connect(PageEmbeddingsHandler);
  }

  /** `register_signal_handlers` of the articles app. */
  method RegisterArticleHandlers(signal: PagePublishedSignal)
    modifies signal
    ensures ArticleEmbeddingsHandler in signal.receivers
    ensures signal.receivers == if ArticleEmbeddingsHandler in old(signal.receivers) then old(signal.receivers)
                                else old(signal.receivers) + [ArticleEmbeddingsHandler]
  {
    signal.Connect(ArticleEmbeddingsHandler);
  }

  // ---------------------------------------------------------------------------
  // What a publish does to the table.

  /** A handler that runs stores the instance's new value in the instance's row, and only there. */
  lemma HandlerStoresInstanceValue(r: Receiver, p: Page, db: Table, gen: Generator)
    requires Shaped(gen.num) && Keyed(db)
    ensures var (q, after) := AfterHandler(r, p, db, gen);
      && q == p.(stored := q.stored)
      && after.Keys == db.Keys && Keyed(after)
      && (forall k :: k in db && k != p.pk ==> after[k] == db[k])
      && (Handles(r, p.kind) ==> q.stored == Some(Generated(p, gen)) && (p.pk in db ==> after[p.pk] == db[p.pk].(stored := q.stored)))
      && (!Handles(r, p.kind) ==> q == p && after == db)
  {
    WithStoredOnlyColumn(db, p.pk, Some(Generated(p, gen)));
  }

  /** Whatever receivers are connected, a publish leaves every other row as it was, keeps the keys,
      and changes nothing in the published row but its `embedding_visualization`. */
  lemma {:induction false} DispatchOnlyColumn(rs: seq<Receiver>, p: Page, db: Table, gen: Generator)
    requires Shaped(gen.num) && Keyed(db)
    ensures var (q, after) := Dispatch(rs, p, db, gen);
      && q == p.(stored := q.stored)
      && after.Keys == db.Keys && Keyed(after)
      && (forall k :: k in db && k != p.pk ==> after[k] == db[k])
      && (p.pk in db ==> after[p.pk] == db[p.pk].(stored := after[p.pk].stored))
  {
    if rs != [] {
      DispatchOnlyColumn(rs[..|rs| - 1], p, db, gen);
      var prev := Dispatch(rs[..|rs| - 1], p, db, gen);
      HandlerStoresInstanceValue(rs[|rs| - 1], prev.0, prev.1, gen);
    }
  }

  /** Rendering that does not read the stored column. */
  ghost predicate RenderIgnoresStored(gen: Generator) {
    forall p: Page, v: Option<Graph> {:trigger gen.render(p.(stored := v))} :: gen.render(p.(stored := v)) == gen.render(p)
  }

  /** An article publish with both apps registered runs generation in both handlers; both write the
      same column of the same row, and when rendering does not read that column the second run
      stores what the first did. */
  lemma ArticlePublishRunsBoth(p: Page, db: Table, gen: Generator)
    requires Shaped(gen.num) && Keyed(db) && p.kind == ArticlePage && p.pk in db
    requires RenderIgnoresStored(gen)
    ensures var (q, after) := Dispatch([PageEmbeddingsHandler, ArticleEmbeddingsHandler], p, db, gen);
      && q == p.(stored := Some(Generated(p, gen)))
      && after == db[p.pk := db[p.pk].(stored := Some(Generated(p, gen)))]
  {
    var once := p.(stored := Some(Generated(p, gen)));
    assert Generated(once, gen) == Generated(p, gen) by {
      assert gen.render(p.(stored := Some(Generated(p, gen)))) == gen.render(p);
    }
    assert [PageEmbeddingsHandler, ArticleEmbeddingsHandler][..1] == [PageEmbeddingsHandler];
    assert [PageEmbeddingsHandler][..0] == [];
    var none: seq<Receiver> := [];
    assert Dispatch(none, p, db, gen) == (p, db);
    assert [PageEmbeddingsHandler] == none + [PageEmbeddingsHandler];
    var first := Dispatch([PageEmbeddingsHandler], p, db, gen);
    assert first == AfterHandler(PageEmbeddingsHandler, p, db, gen);
    assert first.0 == once;
    assert Dispatch([PageEmbeddingsHandler, ArticleEmbeddingsHandler], p, db, gen) == AfterHandler(ArticleEmbeddingsHandler, once, first.1, gen);
  }

  /** Pages of other kinds, or a page without the mixin, leave everything as it was. */
  lemma {:induction false} IgnoredKinds(rs: seq<Receiver>, p: Page, db: Table, gen: Generator)
    requires Shaped(gen.num) && !IsEmbeddingMixin(p.kind)
    ensures Dispatch(rs, p, db, gen) == (p, db)
  {
    if rs != [] {
      IgnoredKinds(rs[..|rs| - 1], p, db, gen);
    }
  }
}
