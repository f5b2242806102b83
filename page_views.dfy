/** `page_embeddings`: the graphs of several pages, selected by a comma-separated id list. */
module PageViews {
  import opened Wrappers
  import opened PyText
  import opened VizGraph
  import opened Pages

  const MissingIds: string := "Missing 'ids' parameter"
  const InvalidIdFormat: string := "Invalid page ID format"
  const NoValidIds: string := "No valid page IDs provided"

  // ---------------------------------------------------------------------------
  // `int()` on one stripped piece, idealised to ASCII: an optional sign, then one or more digits.

  predicate AllAsciiDigits(t: string) {
    forall k :: 0 <= k < |t| ==> IsAsciiDigit(t[k])
  }

  /** The decimal value of a string of ASCII digits. */
  function DigitsValue(t: string): nat
    requires AllAsciiDigits(t)
  {
    if t == [] then 0 else DigitsValue(t[..|t| - 1]) * 10 + (t[|t| - 1] as int - '0' as int)
  }

  function ParseUnsigned(t: string): Option<nat> {
    if t != [] && AllAsciiDigits(t) then Some(DigitsValue(t)) else None
  }

  /** `int(t)`: `None` stands for the `ValueError` the comprehension raises. */
  function ParseInt(t: string): (r: Option<int>)
    ensures r.Some? <==> (t != [] && (AllAsciiDigits(t) || ((t[0] == '+' || t[0] == '-') && ParseUnsigned(t[1..]).Some?)))
  {
    if t != [] && (t[0] == '+' || t[0] == '-') then
      match ParseUnsigned(t[1..])
      case None => None
      case Some(v) => Some(if t[0] == '-' then 0 - v as int else v as int)
    else ParseUnsigned(t)
  }

  lemma {:induction false} DigitsValueOfString(n: nat)
    ensures AllAsciiDigits(NatToString(n)) && DigitsValue(NatToString(n)) == n
  {
    var s := NatToString(n);
    if n >= 10 {
      DigitsValueOfString(n / 10);
      assert s[..|s| - 1] == NatToString(n / 10);
    }
  }

  /** `int(str(n)) == n`, and `int("-" + str(n)) == -n`. */
  lemma ParseIntOfString(n: nat)
    ensures ParseInt(NatToString(n)) == Some(n)
    ensures ParseInt("-" + NatToString(n)) == Some(0 - n as int)
  {
    DigitsValueOfString(n);
    var s := NatToString(n);
    assert ("-" + s)[1..] == s;
  }

  // ---------------------------------------------------------------------------
  // The id list.

  /** `[pid.strip() for pid in pieces if pid.strip()]` */
  function NonEmptyStripped(pieces: seq<string>): (r: seq<string>)
    ensures forall k :: 0 <= k < |r| ==> r[k] != [] && IsStripped(r[k])
  {
    if pieces == [] then []
    else
      var last := Strip(pieces[|pieces| - 1]);
      NonEmptyStripped(pieces[..|pieces| - 1]) + (if last == [] then [] else [last])
  }

  /** A result is exactly the non-empty strip of some piece. */
  lemma {:induction false} NonEmptyStrippedMember(pieces: seq<string>, x: string)
    ensures x in NonEmptyStripped(pieces) <==> x != [] && exists p :: p in pieces && Strip(p) == x
  {
    if pieces != [] {
      var front, last := pieces[..|pieces| - 1], pieces[|pieces| - 1];
      NonEmptyStrippedMember(front, x);
      assert pieces == front + [last];
      assert forall p :: p in pieces <==> p in front || p == last;
    }
  }

  /** The comprehension keeps the pieces' order: it distributes over concatenation. */
  lemma {:induction false} NonEmptyStrippedAppend(a: seq<string>, b: seq<string>)
    ensures NonEmptyStripped(a + b) == NonEmptyStripped(a) + NonEmptyStripped(b)
  {
    if b == [] {
      assert a + b == a;
    } else {
      var front, last := b[..|b| - 1], b[|b| - 1];
      assert (a + b)[..|a + b| - 1] == a + front;
      assert (a + b)[|a + b| - 1] == last;
      NonEmptyStrippedAppend(a, front);
      var t := if Strip(last) == [] then [] else [Strip(last)];
      assert NonEmptyStripped(a) + (NonEmptyStripped(front) + t) == (NonEmptyStripped(a) + NonEmptyStripped(front)) + t;
    }
  }

  /** One piece gives its strip, or nothing when that is empty. */
  lemma NonEmptyStrippedOne(p: string)
    ensures NonEmptyStripped([p]) == if Strip(p) == [] then [] else [Strip(p)]
  {
    assert [p][..0] == [];
  }

  /** `int()` of every piece, in order; `None` once any piece is not a number. */
  function ParseAll(pieces: seq<string>): (r: Option<seq<int>>)
    ensures r.Some? <==> forall k :: 0 <= k < |pieces| ==> ParseInt(pieces[k]).Some?
    ensures r.Some? ==> |r.value| == |pieces| && forall k :: 0 <= k < |pieces| ==> Some(r.value[k]) == ParseInt(pieces[k])
  {
    if pieces == [] then Some([])
    else
      var front := pieces[..|pieces| - 1];
      var vs := ParseAll(front);
      var v := ParseInt(pieces[|pieces| - 1]);
      if vs.Some? && v.Some? then Some(vs.value + [v.value]) else None
  }

  /** The stripped, non-empty pieces of the parameter (absent reads as ""). */
  function Pieces(param: Option<string>): seq<string> {
    NonEmptyStripped(Split(param.GetOr(""), ','))
  }

  /** The outcome of reading `request.GET.get("ids", "")`. */
  datatype Ids = IdsMissing | IdsInvalid | IdsEmpty | Ids(ids: seq<int>)

  function ParseIds(param: Option<string>): (r: Ids)
    ensures r.Ids? ==> r.ids != []
  {
    if param.GetOr("") == [] then IdsMissing
    else
      match ParseAll(Pieces(param))
      case None => IdsInvalid
      case Some(ids) => if ids == [] then IdsEmpty else Ids(ids)
  }

  // ---------------------------------------------------------------------------
  // The response.

  /** The pages whose graphs are served: embedding pages that are live. */
  predicate Eligible(p: Page) {
    IsEmbeddingMixin(p.kind) && p.live
  }

  /** `page.embedding_visualization or {"nodes": [], "edges": []}` */
  function Served(p: Page): (g: Graph)
    ensures p.stored.None? ==> g == EmptyGraph
  {
    p.stored.GetOr(EmptyGraph)
  }

  /** `Page.objects.filter(pk__in=ids)`: the rows whose key is one of the ids. */
  function Requested(db: Table, ids: seq<int>): set<nat> {
    set k | k in db && (k as int) in ids
  }

  lemma KeysDistinct()
    ensures forall a: nat, b: nat {:trigger NatToString(a), NatToString(b)} :: NatToString(a) == NatToString(b) ==> a == b
  {
    forall a: nat, b: nat | NatToString(a) == NatToString(b) ensures a == b {
      NatToStringInjective(a, b);
    }
  }

  /** The `result` dict after visiting the rows in `done`: `str(pk)` of each eligible one, to its graph. */
  function Collected(db: Table, done: set<nat>): map<string, Graph> {
    KeysDistinct();
    map k | k in done && k in db && Eligible(db[k]) :: NatToString(k) := Served(db[k])
  }

  lemma CollectedAdd(db: Table, done: set<nat>, k: nat)
    requires k in db && k !in done
    ensures Collected(db, done + {k}) == if Eligible(db[k]) then Collected(db, done)[NatToString(k) := Served(db[k])] else Collected(db, done)
  {
    KeysDistinct();
  }

  /** The whole view as a function of the request method, the query parameter and the table. */
  function PageEmbeddingsResponse(requestMethod: string, param: Option<string>, db: Table): Response {
    if requestMethod != "GET" then MethodNotAllowed
    else
      match ParseIds(param)
      case IdsMissing => ErrorResponse(400, MissingIds)
      case IdsInvalid => ErrorResponse(400, InvalidIdFormat)
      case IdsEmpty => ErrorResponse(400, NoValidIds)
      case Ids(ids) => Cached(Graphs(Collected(db, Requested(db, ids))))
  }

  /** `page_embeddings`: the loop over the queried pages fills `result` one page at a time. */
  method PageEmbeddings(requestMethod: string, param: Option<string>, db: Table) returns (r: Response)
    ensures r == PageEmbeddingsResponse(requestMethod, param, db)
  {
    if requestMethod != "GET" {
      return MethodNotAllowed;
    }
    var parsed := ParseIds(param);
    if parsed.IdsMissing? {
      return ErrorResponse(400, MissingIds);
    } else if parsed.IdsInvalid? {
      return ErrorResponse(400, InvalidIdFormat);
    } else if parsed.IdsEmpty? {
      return ErrorResponse(400, NoValidIds);
    }
    var result := CollectGraphs(db, Requested(db, parsed.ids));
    r := Cached(Graphs(result));
  }

  /** `for page in pages: if ...: result[str(page.pk)] = ...` */
  method CollectGraphs(db: Table, pages: set<nat>) returns (result: map<string, Graph>)
    requires forall k :: k in pages ==> k in db
    ensures result == Collected(db, pages)
  {
    var pending := pages;
    result := map[];
    while pending != {}
      invariant pending <= pages
      invariant result == Collected(db, pages - pending)
      decreases |pending|
    {
      var k :| k in pending;
      CollectedAdd(db, pages - pending, k);
      if Eligible(db[k]) {
        result := result[NatToString(k) := Served(db[k])];
      }
      assert pages - (pending - {k}) == (pages - pending) + {k};
      pending := pending - {k};
    }
  }

  // ---------------------------------------------------------------------------
  // What the view promises.

  /** The four refusals, each exactly when its condition holds, and none of them cached. */
  lemma Refusals(requestMethod: string, param: Option<string>, db: Table)
    ensures var r := PageEmbeddingsResponse(requestMethod, param, db);
      && (r == MethodNotAllowed <==> requestMethod != "GET")
      && (r == ErrorResponse(400, MissingIds) <==> requestMethod == "GET" && param.GetOr("") == [])
      && (r == ErrorResponse(400, InvalidIdFormat) <==>
            requestMethod == "GET" && param.GetOr("") != [] &&
            exists k :: 0 <= k < |Pieces(param)| && ParseInt(Pieces(param)[k]).None?)
      && (r == ErrorResponse(400, NoValidIds) <==>
            requestMethod == "GET" && param.GetOr("") != [] && Pieces(param) == [])
      && (r.cacheControl.Some? <==> r.status == 200)
  {
    if requestMethod == "GET" {
      GetRefusals(param, db);
    }
  }

  /** For a GET, the three 400 answers, each exactly in its own case. */
  lemma GetRefusals(param: Option<string>, db: Table)
    ensures var r := PageEmbeddingsResponse("GET", param, db);
      && r != MethodNotAllowed
      && (r == ErrorResponse(400, MissingIds) <==> param.GetOr("") == [])
      && (r == ErrorResponse(400, InvalidIdFormat) <==>
            param.GetOr("") != [] && exists k :: 0 <= k < |Pieces(param)| && ParseInt(Pieces(param)[k]).None?)
      && (r == ErrorResponse(400, NoValidIds) <==> param.GetOr("") != [] && Pieces(param) == [])
      && (r.cacheControl.Some? <==> r.status == 200)
  {
  }

  /** A successful response maps `str(pk)` to a graph exactly for the requested eligible pages;
      unknown ids and other pages are absent, and a NULL column is served as the empty graph. */
  lemma SuccessKeys(param: Option<string>, db: Table, k: nat)
    requires ParseIds(param).Ids?
    ensures var r := PageEmbeddingsResponse("GET", param, db);
      && r.status == 200 && r.body.Graphs? && r.cacheControl == Some(OneHour)
      && (NatToString(k) in r.body.graphs <==> k in db && (k as int) in ParseIds(param).ids && Eligible(db[k]))
      && (NatToString(k) in r.body.graphs ==> r.body.graphs[NatToString(k)] == Served(db[k]))
  {
    var ids := ParseIds(param).ids;
    assert PageEmbeddingsResponse("GET", param, db) == Cached(Graphs(Collected(db, Requested(db, ids))));
    CollectedAt(db, Requested(db, ids), k);
  }

  /** Every key of a successful response is the decimal form of some row's key. */
  lemma SuccessKeysAreRows(param: Option<string>, db: Table, key: string)
    requires ParseIds(param).Ids?
    requires key in PageEmbeddingsResponse("GET", param, db).body.graphs
    ensures exists k :: k in db && key == NatToString(k) && Eligible(db[k])
  {
    var ids := ParseIds(param).ids;
    assert PageEmbeddingsResponse("GET", param, db) == Cached(Graphs(Collected(db, Requested(db, ids))));
    CollectedKeys(db, Requested(db, ids), key);
  }

  /** The entry for a row is present exactly when the row was visited and is eligible. */
  lemma CollectedAt(db: Table, done: set<nat>, k: nat)
    ensures NatToString(k) in Collected(db, done) <==> k in done && k in db && Eligible(db[k])
    ensures NatToString(k) in Collected(db, done) ==> Collected(db, done)[NatToString(k)] == Served(db[k])
  {
    KeysDistinct();
  }

  lemma CollectedKeys(db: Table, done: set<nat>, key: string)
    requires key in Collected(db, done)
    ensures exists k :: k in done && k in db && key == NatToString(k) && Eligible(db[k])
  {
  }

  lemma SplitSeparators()
    ensures Split(",, ,", ',') == ["", "", " ", ""]
  {
    assert Split(",", ',') == ["", ""];
    assert Split(",,", ',') == ["", "", ""];
    assert ",, "[..2] == ",," && ",, "[2] == ' ';
    var init: seq<string> := ["", "", ""];
    assert init[2] + [' '] == " ";
    assert init[..2] + [" "] == ["", "", " "];
    assert Split(",, ", ',') == ["", "", " "];
    assert ",, ,"[..3] == ",, ";
  }

  /** Pieces that are all whitespace leave nothing behind. */
  lemma {:induction false} BlankPiecesDropped(pieces: seq<string>)
    requires forall k :: 0 <= k < |pieces| ==> AllSpace(pieces[k])
    ensures NonEmptyStripped(pieces) == []
  {
    if pieces != [] {
      var last := pieces[|pieces| - 1];
      StripBlank(last);
      BlankPiecesDropped(pieces[..|pieces| - 1]);
    }
  }

  lemma PiecesOfSeparators()
    ensures Pieces(Some(",, ,")) == []
  {
    SplitSeparators();
    var pieces: seq<string> := ["", "", " ", ""];
    assert AllSpace(" ");
    BlankPiecesDropped(pieces);
  }

  /** `",, ,"` holds no id. */
  lemma OnlySeparators()
    ensures PageEmbeddingsResponse("GET", Some(",, ,"), map[]) == ErrorResponse(400, NoValidIds)
  {
    SeparatorsEmpty();
  }

  lemma SeparatorsEmpty()
    ensures ParseIds(Some(",, ,")) == IdsEmpty
  {
    PiecesOfSeparators();
    assert ParseAll(Pieces(Some(",, ,"))) == Some([]);
  }

  /** Pieces already stripped and non-empty pass through unchanged. */
  lemma {:induction false} StrippedPiecesKept(pieces: seq<string>)
    requires forall k :: 0 <= k < |pieces| ==> pieces[k] != [] && IsStripped(pieces[k])
    ensures NonEmptyStripped(pieces) == pieces
  {
    if pieces != [] {
      var front, last := pieces[..|pieces| - 1], pieces[|pieces| - 1];
      var t := Strip(last);
      assert NonEmptyStripped(pieces) == NonEmptyStripped(front) + (if t == [] then [] else [t]);
      assert t == last by { StripOfStripped(last); }
      StrippedPiecesKept(front);
      assert front + [last] == pieces;
    }
  }

  function Decimals(ids: seq<nat>): (r: seq<string>)
    ensures |r| == |ids| && forall k :: 0 <= k < |ids| ==> r[k] == NatToString(ids[k])
  {
    seq(|ids|, k requires 0 <= k < |ids| => NatToString(ids[k]))
  }

  /** Each decimal is read back by `int()` as its number. */
  lemma DecimalsParse(ids: seq<nat>)
    ensures ParseAll(Decimals(ids)) == Some(ids)
  {
    var d := Decimals(ids);
    forall k | 0 <= k < |d| ensures ParseInt(d[k]) == Some(ids[k] as int) {
      ParseIntOfString(ids[k]);
    }
    var parsed := ParseAll(d);
    assert parsed.Some?;
    assert parsed.value == ids;
  }

  /** Splitting the joined decimals at commas and stripping gives the decimals back. */
  lemma DecimalPieces(ids: seq<nat>)
    requires ids != []
    ensures Join(",", Decimals(ids)) != []
    ensures Pieces(Some(Join(",", Decimals(ids)))) == Decimals(ids)
  {
    var d := Decimals(ids);
    forall k | 0 <= k < |d| ensures ',' !in d[k] && d[k] != [] && IsStripped(d[k]) {
      ParseIntOfString(ids[k]);
    }
    SplitJoin(d, ',');
    StrippedPiecesKept(d);
    assert |d[0]| >= 1;
    JoinSplit(Join(",", d), ',');
  }

  /** A list written as `",".join(str(pk) for pk in ids)` is read back as exactly those ids. */
  lemma IdListRoundTrip(ids: seq<nat>)
    requires ids != []
    ensures ParseIds(Some(Join(",", Decimals(ids)))) == Ids(ids)
  {
    DecimalPieces(ids);
    DecimalsParse(ids);
  }
}
