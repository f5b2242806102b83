/** The `regenerate_embeddings` management command. */
module RegenerateCommand {
  import opened Wrappers
  import opened PyText
  import opened VizGraph
  import opened Pages
  import opened EmbeddingModel

  /** A live page with the mixin: the pages the command regenerates. */
  predicate Processed(p: Page) {
    p.live && IsEmbeddingMixin(p.kind)
  }

  function ProcessedKeys(db: Table): set<nat> {
    set k | k in db && Processed(db[k])
  }

  /** The table once the rows in `done` have been visited. */
  function Partial(db: Table, done: set<nat>, gen: Generator): (after: Table)
    requires Shaped(gen.num)
    ensures after.Keys == db.Keys
  {
    map k | k in db :: if k in done && Processed(db[k]) then db[k].(stored := Some(Generated(db[k], gen))) else db[k]
  }

  /** The table after the command: every processed row holds its freshly generated graph, every
      other row is untouched. */
  function Regenerated(db: Table, gen: Generator): Table
    requires Shaped(gen.num)
  {
    Partial(db, db.Keys, gen)
  }

  function SuccessMessage(count: nat): string {
    "Successfully regenerated embeddings for " + NatToString(count) + " pages"
  }

  /** `Page.objects.live()` */
  function LiveKeys(db: Table): set<nat> {
    set k | k in db && db[k].live
  }

  /** The processed rows among those visited. */
  function ProcessedIn(db: Table, done: set<nat>): set<nat> {
    set k | k in done && k in db && Processed(db[k])
  }

  /** `Command.handle`: returns the count it reports along with the message it writes. */
  method Handle(store: PageStore, gen: Generator) returns (count: nat, message: string)
    requires Shaped(gen.num) && Keyed(store.rows)
    modifies store
    ensures store.rows == Regenerated(old(store.rows), gen)
    ensures count == |ProcessedKeys(old(store.rows))|
    ensures message == SuccessMessage(count)
  {
    var snapshot := store.rows;
    ghost var live := LiveKeys(snapshot);
    var pending := LiveKeys(snapshot);
    count := 0;
    NoneVisited(snapshot, live, gen);
    while pending != {}
      invariant pending <= live
      invariant store.rows == Partial(snapshot, live - pending, gen)
      invariant count == |ProcessedIn(snapshot, live - pending)|
      decreases |pending|
    {
      var k :| k in pending;
      var processed := Advance(store, snapshot, live, pending, k, gen);
      if processed {
        count := count + 1;
      }
      Shrinks(pending, k);
      pending := pending - {k};
    }
    assert live - pending == live;
    CoversLive(snapshot, live, gen);
    message := SuccessMessage(count);
  }

  /** One iteration, in terms of the rows visited so far: those of `live` no longer `pending`. */
  method Advance(store: PageStore, snapshot: Table, ghost live: set<nat>, ghost pending: set<nat>, k: nat, gen: Generator)
    returns (processed: bool)
    requires Shaped(gen.num) && Keyed(snapshot) && live == LiveKeys(snapshot) && k in pending && pending <= live
    requires store.rows == Partial(snapshot, live - pending, gen)
    modifies store
    ensures store.rows == Partial(snapshot, live - (pending - {k}), gen)
    ensures |ProcessedIn(snapshot, live - (pending - {k}))| == |ProcessedIn(snapshot, live - pending)| + if processed then 1 else 0
  {
    Visited(live, pending, k);
    Step(snapshot, live - pending, k, gen);
    processed := Visit(store, snapshot[k], gen);
  }

  /** One iteration: a mixin page is loaded, regenerated, and its column written back. */
  method Visit(store: PageStore, row: Page, gen: Generator) returns (processed: bool)
    requires Shaped(gen.num)
    modifies store
    ensures processed == IsEmbeddingMixin(row.kind)
    ensures store.rows == if processed then WithStored(old(store.rows), row.pk, Some(Generated(row, gen))) else old(store.rows)
  {
    processed := IsEmbeddingMixin(row.kind);
    if processed {
      var page := new PageInstance(row);
      page.GenerateEmbeddingVisualization(gen);
      store.UpdateStored(page.pk, page.embeddingVisualization);
    }
  }

  lemma Step(db: Table, done: set<nat>, k: nat, gen: Generator)
    requires Shaped(gen.num) && Keyed(db) && k in LiveKeys(db) && k !in done
    ensures Partial(db, done + {k}, gen) ==
      if IsEmbeddingMixin(db[k].kind) then WithStored(Partial(db, done, gen), db[k].pk, Some(Generated(db[k], gen)))
      else Partial(db, done, gen)
    ensures k !in ProcessedIn(db, done)
    ensures ProcessedIn(db, done + {k}) ==
      if IsEmbeddingMixin(db[k].kind) then ProcessedIn(db, done) + {k} else ProcessedIn(db, done)
  {
    StepRows(db, done, k, gen);
    StepProcessed(db, done, k);
  }

  /** Visiting live row `k` regenerates it when it is a mixin page and changes nothing else. */
  lemma StepRows(db: Table, done: set<nat>, k: nat, gen: Generator)
    requires Shaped(gen.num) && Keyed(db) && k in LiveKeys(db) && k !in done
    ensures Partial(db, done + {k}, gen) ==
      if IsEmbeddingMixin(db[k].kind) then WithStored(Partial(db, done, gen), db[k].pk, Some(Generated(db[k], gen)))
      else Partial(db, done, gen)
  {
    assert db[k].pk == k;
  }

  lemma StepProcessed(db: Table, done: set<nat>, k: nat)
    requires k in LiveKeys(db) && k !in done
    ensures k !in ProcessedIn(db, done)
    ensures ProcessedIn(db, done + {k}) ==
      if IsEmbeddingMixin(db[k].kind) then ProcessedIn(db, done) + {k} else ProcessedIn(db, done)
  {
  }

  /** Taking `k` from the pending rows adds it to the visited ones. */
  lemma Visited(live: set<nat>, pending: set<nat>, k: nat)
    requires k in pending && pending <= live
    ensures live - (pending - {k}) == (live - pending) + {k}
    ensures k !in live - pending
  {
  }

  lemma Shrinks(pending: set<nat>, k: nat)
    requires k in pending
    ensures |pending - {k}| < |pending|
  {
  }

  /** Before the loop nothing has been visited. */
  lemma NoneVisited(db: Table, live: set<nat>, gen: Generator)
    requires Shaped(gen.num)
    ensures Partial(db, live - live, gen) == db
    ensures ProcessedIn(db, live - live) == {}
  {
    assert live - live == {};
  }

  /** Visiting every live row is visiting every row that matters. */
  lemma CoversLive(db: Table, done: set<nat>, gen: Generator)
    requires Shaped(gen.num)
    requires done == LiveKeys(db)
    ensures Partial(db, done, gen) == Regenerated(db, gen)
    ensures ProcessedIn(db, done) == ProcessedKeys(db)
  {
  }

  /** Rows the command skips keep their stored value; processed rows change in that column only. */
  lemma RegeneratedRows(db: Table, gen: Generator, k: nat)
    requires Shaped(gen.num) && k in db
    ensures var after := Regenerated(db, gen);
      && k in after
      && (!Processed(db[k]) ==> after[k] == db[k])
      && (Processed(db[k]) ==> after[k] == db[k].(stored := Some(Generated(db[k], gen))))
  {
  }
}
