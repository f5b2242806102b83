# Semantic map pipeline of a Wagtail site, modelled in Dafny

The site shows a "semantic map" for each page that carries the embedding mixin. The map is a
graph with one node per sentence, laid out in a low-dimensional space. Edges link sentences
whose embeddings are similar. This project models how that map is built, stored, regenerated
and served, plus the site's small string utilities:

- **Page pipeline** (`embeddings/embeddings.py`):
  - the HTML block-text extractor, a state machine over parser events;
  - the sentence filter (ten characters or more once stripped);
  - the cosine-threshold edge builder;
  - the per-axis min/max normalisation of the reduced coordinates;
  - assembly of the `{"nodes", "edges"}` graph.
- **Article pipeline** (`articles/embeddings.py`): ten regular-expression passes that strip
  Markdown, whitespace collapsing, the same sentence filter, the 2D reducer's normalisation and
  the node assembler with its 100-character truncation.
- **Read path** (`embeddings/views.py`, `articles/views.py`):
  - parsing of the comma-separated `ids` parameter, with its three 400 outcomes;
  - selection of live embedding pages;
  - the fallback from a NULL stored graph to an empty one;
  - the 405 that `@require_GET` gives any other request method, on both views;
  - the 404/400 guard order of the article view;
  - the one-hour `Cache-Control` header on success only.
- **Stored-graph lifecycle** (`embeddings/models.py`, both `signals.py`,
  `regenerate_embeddings.py`):
  - generation stores the graph, or the empty graph when anything raises;
  - the `page_published` handlers write a single column of a single row;
  - the batch command regenerates every live embedding page and counts them.
- **Small encoders and validators**:
  - the `+digits` phone validator and `PhoneField`'s constructor, `deconstruct`, `formfield` and
    `format_display` (`resolve/fields.py`);
  - the `urlencode_newlines` and `format_phone` template filters
    (`home/templatetags/phone_tags.py`);
  - the schema.org `FAQPage` JSON-LD builder (`home/blocks.py`).

Each source component is one module:

| module | file | models |
|---|---|---|
| `PyText` | `pytext.dfy` | `str.isspace`, `strip`, `split`, `join`, `str(n)` and the 3-slice comprehension |
| `Sentences` | `sentences.dfy` | the sentence filter shared by both pipelines |
| `VizGraph` | `vizgraph.dfy` | nodes, edges and graphs; the relative position; the foreign numeric stages as one parameter |
| `AxisNormalize` | `axis_normalize.dfy` | the per-axis normalisation and the `n < 2` guard of both reducers |
| `HtmlExtract` | `html_extract.dfy` | the `HTMLTextExtractor` class |
| `PagePipeline` | `page_pipeline.dfy` | the page functions |
| `Markdown` | `markdown.dfy` | the Markdown passes |
| `ArticlePipeline` | `article_pipeline.dfy` | the article functions |
| `Pages` | `pages.dfy` | page rows, responses and the single-column update |
| `PageViews` | `page_views.dfy` | `page_embeddings` |
| `ArticleViews` | `article_views.dfy` | `article_embeddings` |
| `EmbeddingModel` | `embedding_model.dfy` | `EmbeddingMixin.generate_embedding_visualization` |
| `PublishSignals` | `signals.dfy` | the two publish handlers and the signal they connect to |
| `RegenerateCommand` | `regenerate.dfy` | the management command |
| `PhoneField` | `phone_field.dfy` | `phone_validator` and `PhoneField` |
| `PhoneTags` | `phone_tags.dfy` | the template filters |
| `FaqBlock` | `faq_block.dfy` | `FAQBlock.get_structured_data` |

Stateful parts are Dafny classes whose methods are proved against specification functions:
- the extractor (`HtmlExtract.HtmlTextExtractor`, specified by `Run` over an event sequence);
- the page table (`Pages.PageStore`);
- a page object in memory (`EmbeddingModel.PageInstance`);
- the publish signal (`PublishSignals.PagePublishedSignal`);
- the field declaration (`PhoneField.PhoneFieldDecl`).

The loops the source writes are methods with loop invariants: the edge double loop, the
node loops, min/max and the in-place range patch, the view's result loop, the command's loop
and the signal's dispatch.

Foreign code is passed in as parameters:
- the sentence encoder, UMAP and the cosine matrix (`VizGraph.Numerics`; an exception is `None`);
- `nltk.sent_tokenize` (`None` when it raises, as it does with `LookupError` when its `punkt_tab` model is missing);
- the HTML tokeniser, as an event sequence;
- the Markdown block-tag set;
- Unicode `\d`, as a digit predicate;
- page rendering (`EmbeddingModel.Generator`).

Floating-point values are modelled as `real`.

Where the source's comments and docstrings promise more than its code does, the model follows the code:
- The Markdown stripper as a whole is not idempotent (`Markdown.NotIdempotent`):
  `"[[a](b)](c)"` strips to `"[a](c)"`, which strips again to `"a"`. Only the whitespace
  normalisation is idempotent (`Markdown.NormalizeWhitespaceIdempotent`); text with no markup
  passes through unchanged (`Markdown.PlainUnchanged`).
- The header pass removes only the `#` marker and the space after it. The title stays
  (`Markdown.HeaderKeepsTitle`).
- Publishing an article runs the page pipeline (HTML, 3D, with edges) through the mixin, in both
  handlers. The 2D article pipeline is modelled in full, but no caller in the modelled code
  invokes it.
- `format_display` is declared on the field but indexes `self` as if it were the string value.
  It is modelled on that string.
- `get_structured_data` is declared on `FAQBlock`, a `StructBlock`, but calls `self.get('items')`,
  the dictionary interface of the block's value. It is modelled on that value's `items` entry
  (`FaqBlock.GetStructuredData`).
- `urlencode_newlines` promises to turn newlines into `%0D%0A`, but it only quotes the text, so a
  bare line feed becomes `%0A` (`PhoneTags.BareNewlineEncoded`). Only a `\r\n` already in the
  text yields `%0D%0A` (`PhoneTags.LineBreakEncoded`). The default email body at
  home/models.py:135 has bare line feeds. The filter its docstring describes is listed under
  "## Findings".

## Model

| member | source | states |
|---|---|---|
| PyText.Strip | embeddings/embeddings.py:60 | `s.strip()` has no whitespace at either end and is no longer than `s` |
| PyText.StripIsTrimmedPiece | embeddings/embeddings.py:60 | `s.strip()` is the slice of `s` at some offset, with only whitespace before and after it |
| PyText.StripOfStripped | embeddings/embeddings.py:90 | stripping a stripped string changes nothing |
| PyText.NatToString | embeddings/views.py:41 | `str(n)` is non-empty and all ASCII digits, and has one digit exactly when `n < 10` |
| PyText.NatToStringInjective | embeddings/views.py:41 | distinct keys print differently, so `str(pk)` keys never collide |
| PyText.Split | embeddings/views.py:29 | `str.split(",")` yields at least one piece, and no piece contains the separator |
| PyText.JoinSplit | embeddings/views.py:29 | joining the pieces of a split with the separator rebuilds the string |
| PyText.SplitJoin | embeddings/views.py:29 | splitting a join of separator-free pieces gives back exactly those pieces |
| PyText.Groups | home/templatetags/phone_tags.py:26 | the slices concatenate back to the input; each has 3 characters except the last, which has 1 to 3 |
| PyText.GroupsAvoid | home/templatetags/phone_tags.py:26-27 | a character absent from the input is absent from every group |
| Sentences.FilterMembership | embeddings/embeddings.py:90 | a string survives the filter iff it is the strip of some input sentence of stripped length at least 10 |
| Sentences.FilterAppend | articles/embeddings.py:63 | the filter preserves order: it distributes over concatenation |
| Sentences.FilterIdentity | embeddings/embeddings.py:90 | stripped sentences of length at least 10 all pass, unchanged |
| Sentences.TokenizeAllAppend | embeddings/embeddings.py:86-88 | tokenising a concatenation of chunk lists concatenates the results (chunk order, then in-chunk order), and fails iff either part fails |
| Sentences.TokenizeAllFails | embeddings/embeddings.py:86-88 | tokenising the chunks fails iff `sent_tokenize` raises on some chunk |
| Sentences.TokenizeAllMember | embeddings/embeddings.py:86-88 | on success, a sentence is produced iff the tokeniser found it in some chunk |
| VizGraph.Position | embeddings/embeddings.py:217 | `i / max(n - 1, 1)` lies in [0, 1], is 0 for the first node and 1 for the last of two or more |
| VizGraph.PositionIncreasing | articles/embeddings.py:153 | positions strictly increase along the sentence order |
| AxisNormalize.ColBounds | embeddings/embeddings.py:147-148 | every point lies between its axis minimum and maximum |
| AxisNormalize.ColAttained | embeddings/embeddings.py:147-148 | the minimum and maximum are attained by some points |
| AxisNormalize.AxisExtremes | embeddings/embeddings.py:147-148 | the loop computes exactly the axis minimum and maximum |
| AxisNormalize.Normalize | embeddings/embeddings.py:147-154 | the in-place range patch and division give the normalised matrix, with every value in [0, 1] |
| AxisNormalize.NormalizedInUnit | embeddings/embeddings.py:154 | every normalised coordinate lies in [0, 1] |
| AxisNormalize.ConstantAxisIsZero | embeddings/embeddings.py:152 | an axis on which all points agree maps to 0, because its range is replaced by 1 |
| AxisNormalize.VaryingAxisSpansUnit | embeddings/embeddings.py:149-154 | on a varying axis, some point lands at 0 and some at 1 |
| AxisNormalize.ReducedShape | embeddings/embeddings.py:125-156 | below two samples the result is the single centre row, even for zero samples; the result is missing iff there are two or more samples and UMAP, called with `min(n_neighbors, n - 1)` neighbours, raises; otherwise it has one row per sample, every value in [0, 1] |
| HtmlExtract.HtmlTextExtractor.constructor | embeddings/embeddings.py:35-39 | a fresh extractor: no chunks, an empty buffer, depth 0 |
| HtmlExtract.HtmlTextExtractor.HandleStartTag | embeddings/embeddings.py:41-45 | a skip tag raises the depth; otherwise a block tag flushes a non-empty buffer |
| HtmlExtract.HtmlTextExtractor.HandleEndTag | embeddings/embeddings.py:47-51 | a skip tag lowers the depth; otherwise a block tag flushes |
| HtmlExtract.HtmlTextExtractor.HandleStartEndTag | embeddings/embeddings.py:41-51 | a self-closing tag is a start tag followed by its end tag |
| HtmlExtract.HtmlTextExtractor.HandleData | embeddings/embeddings.py:53-55 | data is buffered only at depth 0 |
| HtmlExtract.HtmlTextExtractor.FlushText | embeddings/embeddings.py:57-62 | the stripped buffer, when non-empty, becomes a chunk; the buffer is cleared |
| HtmlExtract.HtmlTextExtractor.GetChunks | embeddings/embeddings.py:64-66 | flushes trailing text and returns the chunks |
| HtmlExtract.HtmlTextExtractor.Feed | embeddings/embeddings.py:82-84 | feeding events one by one is running the state machine over the sequence |
| HtmlExtract.ChunksAreStripped | embeddings/embeddings.py:57-62 | every chunk is non-empty and equal to its own strip |
| HtmlExtract.SkipDepthIsBalance | embeddings/embeddings.py:41-49 | the depth is the number of skip start tags minus skip end tags seen |
| HtmlExtract.StepDepth | embeddings/embeddings.py:41-49 | one event moves the depth by its own count, skip membership checked before block membership |
| HtmlExtract.HiddenDataIgnored | embeddings/embeddings.py:53-55 | while the depth is non-zero at every point, data events have no effect |
| HtmlExtract.SkippedRegionIsDropped | embeddings/embeddings.py:41-55 | text inside a skip region reaches no chunk, however the regions nest, until a skip end tag |
| HtmlExtract.StrayCloseDropsLaterText | embeddings/embeddings.py:47-55 | after a stray skip end tag the depth is negative, and later text is dropped until a skip start tag |
| HtmlExtract.RunAppend | embeddings/embeddings.py:82-84 | feeding two event lists in turn is feeding their concatenation |
| HtmlExtract.InlineTagInvisible | embeddings/embeddings.py:41-51 | a tag that is neither skip nor block can be deleted from the stream without changing the result |
| HtmlExtract.FlushIdempotent | embeddings/embeddings.py:57-62 | a flush empties the buffer; a second flush, or a flush of an empty buffer, changes nothing |
| HtmlExtract.BlockStartActsAsFlush | embeddings/embeddings.py:44-51 | a block start tag, which flushes only a non-empty buffer, acts exactly like a block end tag |
| HtmlExtract.GetChunksTwice | embeddings/embeddings.py:64-66 | a second `get_chunks` call returns the same chunks |
| PagePipeline.ChunkHtmlToSentences | embeddings/embeddings.py:69-90 | the loop returns the chunks' tokenised sentences, stripped and filtered, in order, or fails at the first chunk the tokeniser raises on |
| PagePipeline.PageSentencesFail | embeddings/embeddings.py:86-88 | a page has no sentence list iff the tokeniser raises on one of its chunks |
| PagePipeline.PageSentenceOrigin | embeddings/embeddings.py:86-90 | when the tokeniser accepts every chunk, a string is a page sentence iff it is the strip of a sentence of some chunk whose stripped length is at least 10 |
| PagePipeline.ThresholdPairsMember | embeddings/embeddings.py:180-188 | the edge list holds `(i, j, s)` iff `i < j`, `sim[i][j] >= threshold` and `s == sim[i][j]` |
| PagePipeline.ThresholdPairsSorted | embeddings/embeddings.py:180-188 | edges come in strictly increasing `(i, j)` order: no duplicates, no self-loops |
| PagePipeline.ComputeCosineSimilarities | embeddings/embeddings.py:159-188 | the double loop yields exactly the threshold pairs of the given similarity matrix |
| PagePipeline.ReduceTo3d | embeddings/embeddings.py:111-156 | the reducer with three components as specified by `Reduced` |
| PagePipeline.BuildNodes | embeddings/embeddings.py:215-227 | the node loop yields one node per sentence, with its coordinates and position |
| PagePipeline.GenerateVisualizationData | embeddings/embeddings.py:191-234 | computes the page graph of the page's sentences, and fails when the tokeniser raises |
| PagePipeline.GraphOfSentences | embeddings/embeddings.py:206-234 | everything after the sentences are known: the page graph of those sentences |
| PagePipeline.EmptyPageGraph | embeddings/embeddings.py:204-207 | no sentences gives `{"nodes": [], "edges": []}` without consulting the model |
| PagePipeline.PageGraphFails | embeddings/embeddings.py:191-234 | the graph is missing iff the encoder raises, or UMAP raises on two or more sentences |
| PagePipeline.PageGraphNodes | embeddings/embeddings.py:215-227 | node `i` has id `i`, text `sentences[i]`, three coordinates in [0, 1] and position `i / max(n - 1, 1)` |
| PagePipeline.PageGraphEdges | embeddings/embeddings.py:229-232 | an edge list is always present; it links `a < b` iff their similarity reaches the threshold, in row-major order |
| Markdown.LinkAtIff | articles/embeddings.py:32 | a link match at `i` iff `[text](target)` with non-empty text free of `]` and non-empty target free of `)` |
| Markdown.ImageAtIff | articles/embeddings.py:35 | an image match iff `![alt](target)` with possibly empty alt |
| Markdown.InlineCodeAtIff | articles/embeddings.py:38 | an inline-code match iff a non-empty backquote-free run between two backquotes |
| Markdown.FenceAtIff | articles/embeddings.py:41 | a fence match iff three backquotes, then anything, then the first three backquotes after (lazy) |
| Markdown.HeaderAtIff | articles/embeddings.py:44 | a header match iff one to six `#` at a line start followed by a maximal run of whitespace |
| Markdown.EmphasisAtIff | articles/embeddings.py:47-48 | an emphasis match iff one or two markers, a marker-free body, then one or two markers taken greedily |
| Markdown.MarkerAtIff | articles/embeddings.py:51-54 | a quote or bullet match iff its marker at a line start followed by a maximal whitespace run |
| Markdown.NumberedAtIff | articles/embeddings.py:55 | a numbered-marker match iff digits and a full stop at a line start followed by whitespace |
| Markdown.WhitespaceAtIff | articles/embeddings.py:58 | a whitespace match iff a maximal run of whitespace |
| Markdown.SubSkipAvoiding | articles/embeddings.py:32-58 | `re.sub` copies through any stretch holding no character that can open a match |
| Markdown.Untouched | articles/embeddings.py:32-58 | a pass whose opening character does not occur leaves the text alone |
| Markdown.NormalizeWhitespace | articles/embeddings.py:58 | the result is stripped, single-spaced, and its only whitespace is `' '` |
| Markdown.NormalizeWhitespaceIdempotent | articles/embeddings.py:58 | normalising twice is normalising once |
| Markdown.StripMarkdown | articles/embeddings.py:31-58 | the ten passes in the source's order, then whitespace collapsing: the text handed to the tokeniser is stripped and single-spaced |
| Markdown.LinkKeepsText | articles/embeddings.py:32 | `[t](u)` becomes `t` |
| Markdown.ImageAltBecomesText | articles/embeddings.py:32-35 | links run first, so `![alt](u)` with non-empty alt becomes `!alt` |
| Markdown.HeaderKeepsTitle | articles/embeddings.py:44 | one to six `#` and a space before a title leave just the title |
| Markdown.SevenHashesNoHeader | articles/embeddings.py:44 | seven or more `#` are no header marker at all |
| Markdown.StarsPairAsEmphasis | articles/embeddings.py:47-54 | the emphasis pass takes `*` list markers before the list pass runs |
| Markdown.PlainUnchanged | articles/embeddings.py:31-58 | text with no markup passes through the stripper unchanged |
| Markdown.NotIdempotent | articles/embeddings.py:32 | the stripper is not idempotent: a link nested in link text survives one pass |
| Markdown.LinkTextOnly | articles/embeddings.py:32-58 | on text made of brackets, parentheses and a few letters, only the link pass acts |
| Markdown.InlineCodeSplitsFence | articles/embeddings.py:38 | the inline-code pass takes a fenced block's third backquote through its first closing one |
| Markdown.NoFenceInFour | articles/embeddings.py:41 | four backquotes hold no fence |
| Markdown.FenceLeavesBackquotes | articles/embeddings.py:38-41 | as written, a fenced block leaves four backquotes behind |
| Markdown.FenceRemoved | articles/embeddings.py:38-41 | with fences taken first, a fenced block disappears entirely |
| Markdown.CorrectionOnlyTouchesCode | articles/embeddings.py:38-41 | the corrected order agrees with the written order on text without backquotes |
| ArticlePipeline.ArticleSentenceOrigin | articles/embeddings.py:31-63 | sentences exist iff the tokeniser accepts the stripped text (stripped in the source's pass order); then a string is an article sentence iff it is the strip of a sentence the tokeniser found there whose stripped length is at least 10 |
| ArticlePipeline.Truncate | articles/embeddings.py:159 | text longer than 100 becomes its first 100 characters plus "...", otherwise it is unchanged |
| ArticlePipeline.TruncateBounds | articles/embeddings.py:159 | display text is at most 103 characters and starts like the sentence |
| ArticlePipeline.ReduceTo2d | articles/embeddings.py:86-130 | the reducer with two components as specified by `Reduced` |
| ArticlePipeline.BuildNodes | articles/embeddings.py:151-162 | the node loop yields one node per sentence without `z`, its text truncated |
| ArticlePipeline.GenerateVisualizationData | articles/embeddings.py:133-164 | computes the article graph of the article's sentences, and fails when the tokeniser raises |
| ArticlePipeline.GraphOfSentences | articles/embeddings.py:145-164 | everything after the sentences are known |
| ArticlePipeline.EmptyArticleGraph | articles/embeddings.py:145-146 | no sentences gives `{"nodes": []}`, with no `edges` key |
| ArticlePipeline.ArticleGraphFails | articles/embeddings.py:133-164 | the graph is missing iff the encoder raises, or UMAP raises on two or more sentences |
| ArticlePipeline.ArticleGraphNodes | articles/embeddings.py:151-162 | node `i` has id `i`, truncated text, two coordinates in [0, 1], no `z`, and position `i / max(n - 1, 1)`; there is no edge list |
| Pages.WithStoredOnlyColumn | embeddings/signals.py:28-30 | the single-column update changes only `embedding_visualization` of row `pk`, and keeps the keys |
| Pages.PageStore.UpdateStored | embeddings/signals.py:28-30 | the table after `filter(pk=...).update(embedding_visualization=...)` |
| PageViews.ParseInt | embeddings/views.py:29 | `int(t)` succeeds iff `t` is an optional sign followed by one or more ASCII digits |
| PageViews.ParseIntOfString | embeddings/views.py:29 | `int(str(n)) == n` and `int("-" + str(n)) == -n` |
| PageViews.NonEmptyStripped | embeddings/views.py:29 | every result is non-empty and stripped |
| PageViews.NonEmptyStrippedMember | embeddings/views.py:29 | a string is a result iff it is non-empty and the strip of some piece |
| PageViews.NonEmptyStrippedAppend | embeddings/views.py:29 | results keep the pieces' order: the comprehension distributes over concatenation |
| PageViews.ParseAll | embeddings/views.py:28-31 | all pieces parse iff each one does, and then the values are the pieces' values in order |
| PageViews.ParseIds | embeddings/views.py:24-34 | the outcome of reading the parameter; a parsed id list is never empty |
| PageViews.Served | embeddings/views.py:41-44 | a NULL column is served as `{"nodes": [], "edges": []}` |
| PageViews.CollectedAdd | embeddings/views.py:38-44 | visiting one more row adds its key exactly when it is eligible |
| PageViews.CollectGraphs | embeddings/views.py:38-44 | the loop maps `str(pk)` to the served graph of each eligible queried page |
| PageViews.PageEmbeddings | embeddings/views.py:13-48 | the loop over the queried pages gives the view's response as a function of the request method, the parameter and the table |
| PageViews.Refusals | embeddings/views.py:13-48 | a method other than GET gets 405 with `Allow: GET`; for GET, each 400 message occurs exactly in its own case; only a 200 carries the cache header |
| PageViews.SuccessKeys | embeddings/views.py:36-44 | on success, key `str(k)` is present iff `k` was requested and is a live embedding page, and maps to its served graph |
| PageViews.SuccessKeysAreRows | embeddings/views.py:36-44 | unknown ids never appear: every key is some row's `str(pk)` |
| PageViews.OnlySeparators | embeddings/views.py:33-34 | `",, ,"` is answered 400 "No valid page IDs provided" |
| PageViews.StrippedPiecesKept | embeddings/views.py:29 | stripped non-empty pieces pass through unchanged |
| PageViews.IdListRoundTrip | embeddings/views.py:28-31 | `",".join(str(pk) for pk in ids)` is read back as exactly `ids` |
| ArticleViews.ArticleEmbeddings | articles/views.py:7-31 | cache header iff status 200 |
| ArticleViews.Outcomes | articles/views.py:7-31 | 405 for a method other than GET; then 404 "Page not found", 400 "Not an article page", 404 "Page not published" and 200, each exactly in its own case |
| ArticleViews.ServedData | articles/views.py:27 | a live article is served its stored graph, or `{"nodes": []}` when NULL |
| ArticleViews.TypeBeforeLive | articles/views.py:21-25 | a non-article page that is not live gets 400, not 404 |
| EmbeddingModel.GeneratedCases | embeddings/models.py:37-46 | the stored value is the generator's graph, or `{"nodes": [], "edges": []}` when rendering, the tokeniser on some chunk, or a numeric stage raises; it always has an edge list |
| EmbeddingModel.PageInstance.constructor | embeddings/models.py:30-46 | a page object loaded with its row's fields |
| EmbeddingModel.PageInstance.GenerateEmbeddingVisualization | embeddings/models.py:30-46 | never raises; only `embedding_visualization` changes, to the generated value |
| PublishSignals.RunHandler | embeddings/signals.py:12-30 | a missing instance or the wrong type changes nothing; otherwise the instance is regenerated and its single column written |
| PublishSignals.PagePublishedSignal.constructor | embeddings/signals.py:33-35 | no receivers yet |
| PublishSignals.PagePublishedSignal.Connect | embeddings/signals.py:35 | appends a receiver not already connected |
| PublishSignals.PagePublishedSignal.Send | embeddings/signals.py:12-30 | runs each receiver in connection order, as specified by `Dispatch` |
| PublishSignals.RegisterPageHandlers | embeddings/signals.py:33-35 | connects the page handler |
| PublishSignals.RegisterArticleHandlers | articles/signals.py:33-35 | connects the article handler |
| PublishSignals.HandlerStoresInstanceValue | articles/signals.py:18-30 | a handler that runs stores the instance's new value in the instance's row only |
| PublishSignals.DispatchOnlyColumn | embeddings/signals.py:27-30 | whatever is connected, a publish changes nothing but `embedding_visualization` of the published row |
| PublishSignals.ArticlePublishRunsBoth | articles/signals.py:25-30 | an article publish with both handlers connected leaves the instance and its row holding the freshly generated graph, exactly as one handler would, and changes no other row |
| PublishSignals.IgnoredKinds | embeddings/signals.py:18-21 | pages without the mixin leave the instance and the table as they were |
| RegenerateCommand.Handle | embeddings/management/commands/regenerate_embeddings.py:13-28 | every live embedding page holds its fresh graph, nothing else changes, and the count and message report the number of such pages |
| RegenerateCommand.CoversLive | embeddings/management/commands/regenerate_embeddings.py:17-24 | once every live row is visited, the table is the regenerated one and the processed rows are exactly the live mixin pages |
| RegenerateCommand.Visit | embeddings/management/commands/regenerate_embeddings.py:18-24 | one iteration: a mixin page is regenerated and written back; others are skipped |
| RegenerateCommand.RegeneratedRows | embeddings/management/commands/regenerate_embeddings.py:17-23 | skipped rows keep their stored value; processed rows change in that column only |
| PhoneField.PhoneMatchesShape | resolve/fields.py:5-8 | the search matches iff '+', one or more digits, and at most one trailing newline |
| PhoneField.ValidateVerdict | resolve/fields.py:5-8 | accepts iff the value is '+', one or more digits and at most one final newline; otherwise raises the validator's message |
| PhoneField.ValidatorExamples | resolve/fields.py:5-8 | "+31612345678" and "+31612345678\n" pass; "+", "0031612345678" and "+31 612" fail |
| PhoneField.WithDefaults | resolve/fields.py:16-19 | `max_length` 20 and `blank` True only where the caller gave none; other keys are kept |
| PhoneField.FieldDeconstruct | resolve/fields.py:22 | Django's own deconstruct: every option that differs from Django's default |
| PhoneField.DeconstructAsWritten | resolve/fields.py:21-27 | a keyword is recorded iff Django's deconstruct records it and it is neither `max_length` 20 nor `blank` True; values are the field's options |
| PhoneField.DeconstructAsWrittenRoundTrip | resolve/fields.py:16-27 | rebuilding from the recorded keywords keeps every option except `blank=False`, which comes back True, and `max_length=None`, which comes back 20 |
| PhoneField.BlankFalseIsLost | resolve/fields.py:21-27 | as written, `PhoneField(blank=False)` is rebuilt from its deconstruction with `blank=True` |
| PhoneField.Deconstructed | resolve/fields.py:21-27 | the corrected deconstruction: the recorded keywords never hold `max_length` 20 or `blank` True |
| PhoneField.DeconstructRoundTrip | resolve/fields.py:16-27 | rebuilding a field from its (corrected) deconstruction gives back the same options |
| PhoneField.PhoneFieldDecl.constructor | resolve/fields.py:16-19 | the field's options: Django's defaults overridden by the caller's keywords after `setdefault` |
| PhoneField.PhoneFieldDecl.Deconstruct | resolve/fields.py:21-27 | deleting in place gives the keyword arguments `DeconstructAsWritten` describes, which hold neither `max_length` 20 nor `blank` True |
| PhoneField.PhoneFieldDecl.Formfield | resolve/fields.py:29-33 | `help_text` defaults to "Format: +31612345678", and caller keywords override it |
| PhoneField.ShortDisplay | resolve/fields.py:35-43 | input of at most 3 characters comes back with a trailing space |
| PhoneField.DisplayGroups | resolve/fields.py:35-43 | a longer space-free number splits at its spaces into its first 3 characters followed by groups of 3, the last 1 to 3, which concatenate back to it |
| PhoneField.DisplayExample | resolve/fields.py:38 | "+31612345678" displays as "+31 612 345 678" |
| PhoneTags.Utf8Char | home/templatetags/phone_tags.py:13 | the UTF-8 encoding of a scalar value has 1 to 4 bytes, and one byte exactly for ASCII |
| PhoneTags.QuoteByte | home/templatetags/phone_tags.py:13 | an unreserved byte is itself; any other byte is `%` and two upper-case hex digits |
| PhoneTags.QuoteWellEncoded | home/templatetags/phone_tags.py:13 | the output holds only unreserved characters and `%XX` triples |
| PhoneTags.DecodeQuote | home/templatetags/phone_tags.py:13 | percent-decoding the output gives back the bytes |
| PhoneTags.UrlencodeRoundTrip | home/templatetags/phone_tags.py:8-13 | the output is well encoded and percent-decodes to the text's UTF-8 bytes |
| PhoneTags.LineBreakEncoded | home/templatetags/phone_tags.py:10-13 | a line break that is already "\r\n" becomes "%0D%0A" |
| PhoneTags.BareNewlineEncoded | home/templatetags/phone_tags.py:10-13 | as written, a bare "\n" becomes "%0A" only, not the "%0D%0A" the docstring promises |
| PhoneTags.Crlf | home/templatetags/phone_tags.py:10 | the corrected normalisation: every line feed in the result follows a carriage return, and text without a line feed is unchanged |
| PhoneTags.CrlfIdempotent | home/templatetags/phone_tags.py:10 | normalising line breaks twice is normalising them once |
| PhoneTags.UrlencodeCrlfLineBreaks | home/templatetags/phone_tags.py:10-13 | the corrected filter is well encoded and decodes to the CRLF-normalised text's UTF-8 bytes; both "\n" and "\r\n" become "%0D%0A" |
| PhoneTags.SlashEncoded | home/templatetags/phone_tags.py:13 | `safe=""` encodes "/" too: "a/b" becomes "a%2Fb" |
| PhoneTags.FormatPhoneGroups | home/templatetags/phone_tags.py:23-27 | a non-empty space-free number, once formatted, splits at its spaces into groups of 3, the last 1 to 3, which concatenate back to it |
| PhoneTags.FormatPhoneExample | home/templatetags/phone_tags.py:20-21 | "+31612345678" becomes "+31 612 345 678" |
| FaqBlock.GetStructuredData | home/blocks.py:147-166 | `None` iff the items are missing or empty; otherwise an FAQPage document |
| FaqBlock.StructuredDataRoundTrip | home/blocks.py:152-165 | for non-empty items the document exists, and reading it back returns exactly the items, in order |
| FaqBlock.MainEntityEntries | home/blocks.py:156-163 | the document has `@context` "https://schema.org", `@type` "FAQPage" and one `mainEntity` entry per item; entry `k` is item `k`'s Question, with its name and its answer's raw source |

## Left out

- The sentence-transformer encoder, its model loading, UMAP's `fit_transform` and the L2 norms and dot products of the cosine matrix are foreign and floating point. They are parameters (`VizGraph.Numerics`). Only the shapes they promise are assumed, as the `Shaped` predicate.
- Floats are modelled as `real`. Rounding in the normalisation and the position is not modelled.
- `nltk.sent_tokenize`, the `HTMLParser` tokenisation and tag lower-casing, and Markdown's `block_level_elements` are parameters. The real tables, including the Unicode `\d` class, are not reproduced; `\d` is a predicate assumed to agree with ASCII on ASCII (`PyText.DecimalDigits`).
- The import-time `punkt_tab` check and download (`embeddings/embeddings.py:19-23`, `articles/embeddings.py:18-22`) needs the network and the file system and is not modelled. Whether the tokeniser then works is part of the `sentTokenize` parameter.
- `@require_GET` is modelled by its response only (status 405, `Allow: GET`, empty body). Its warning log line is not modelled.
- `render_page_to_html` (Django template machinery) is part of the `Generator` parameter. Its failure is one case of "an exception is raised".
- `PublishSignals.ArticlePublishRunsBoth` assumes that rendering does not read the stored column (`RenderIgnoresStored`). Without that, the second handler may store a different graph.
- `json.dumps` and the order of keys in JSON objects are not modelled.
- `PageViews.ParseInt` models `int()` on ASCII digits with an optional sign. Underscores between digits, non-ASCII digits and surrounding whitespace inside `int()` itself are not modelled: the pieces are already stripped.
- Dafny strings cannot hold a lone surrogate, which a Python `str` can. On such a string `quote` raises `UnicodeEncodeError`; that case is not modelled.
- The iteration order of querysets is left unspecified (the loops pick rows from a set). The result map and the table carry no order.
- A stored value is either NULL (`None`) or a graph. Other falsy JSON values (`{}`, `[]`) cannot be produced by the generator and are not modelled.
- Django's validator machinery (skipping empty values) and `CharField.formfield` itself are not modelled. `formfield` is modelled up to the keyword arguments it hands on.
- `PhoneField.FieldDeconstruct` models Django's default elision for the three options that matter here (`max_length`, `blank`, `null`) and no others.
- The command's `stdout` writes and the logging in the generator are left out; the command returns the message it writes.
- The order of handler registration across apps depends on `INSTALLED_APPS`. `PublishSignals.ArticlePublishRunsBoth` is stated for the page handler connected first; `PublishSignals.DispatchOnlyColumn` and `PublishSignals.IgnoredKinds` hold for any list of receivers.
- `home/templatetags/url_tags.py`, the seed commands, `accounts/*`, the ORM and page field declarations, settings, `apps.py` and `urls.py` are not part of this model. `embeddings/urls.py:10` passes a `page_id` argument that `page_embeddings` does not take; this is routing, not logic.
- No concurrency exists in the code, and none is modelled.

## Findings

| source | as written | input that shows it | evidently intended | confidence | as-written member | corrected member |
|---|---|---|---|---|---|---|
| articles/embeddings.py:38-41 | the inline-code pass runs before the fence pass, and takes a fenced block apart into two inline spans | "```\ncode\n```" leaves "````" | the fenced block is removed | not executed | Markdown.FenceLeavesBackquotes | Markdown.FenceRemoved |
| resolve/fields.py:21-27 | `deconstruct` deletes `blank` when it is True, but Django's own deconstruct has already dropped `blank=False` as its default | `PhoneField(blank=False)` deconstructs without `blank` and is rebuilt with `blank=True` | rebuilding from the deconstruction gives the same field | not executed | PhoneField.BlankFalseIsLost | PhoneField.DeconstructRoundTrip |
| home/templatetags/phone_tags.py:10-13 | the docstring promises newlines become `%0D%0A`, but the body only calls `quote`, which sends a bare line feed to `%0A` | `"\n"` gives `"%0A"` | every line break reaches the mailto body as `%0D%0A` | not executed | PhoneTags.BareNewlineEncoded | PhoneTags.UrlencodeCrlfLineBreaks |

The pipelines, the field and the filter follow the code as written; the corrected definitions state only what was evidently intended:
- `Markdown.StripMarkdown` (used by `ArticlePipeline.ChunkToSentences`) applies the passes in the source's order, `Markdown.Unmarked`. `Markdown.StripMarkdownFenceFirst` takes fences before inline code, and `Markdown.CorrectionOnlyTouchesCode` shows that the two agree on text without backquotes.
- `PhoneField.PhoneFieldDecl.Deconstruct` returns `PhoneField.DeconstructAsWritten`. `PhoneField.Deconstructed` is the corrected version.
- `PhoneTags.UrlencodeNewlines` is the filter as written. `PhoneTags.UrlencodeCrlf` first normalises line breaks with `PhoneTags.Crlf`, and nothing else in the model uses it.
