/**
 * The block-text extractor of the page pipeline: a state machine over the parser's events
 * that gathers text into chunks, one per block, and drops non-content regions.
 */
module HtmlExtract {
  import opened PyText

  /**
   * What the HTML parser reports, tag names already lower-cased. `StartEndTag` is a
   * self-closing tag such as `<br/>`; `Ignored` is a comment, declaration or processing
   * instruction, for which the extractor has no handler.
   */
  datatype Event =
    | StartTag(tag: string)
    | EndTag(tag: string)
    | StartEndTag(tag: string)
    | Data(data: string)
    | Ignored

  /** Elements whose content is not page text. */
  const SkipTags: set<string> := {"script", "style", "nav", "header", "footer", "aside", "head", "meta"}

  /** The extractor's fields: finished chunks, the text gathered since the last flush, the skip depth. */
  datatype Extractor = Extractor(chunks: seq<string>, currentText: seq<string>, skipDepth: int)

  const Initial: Extractor := Extractor([], [], 0)

  /** `_flush_text` */
  function Flush(st: Extractor): Extractor
  {
    if st.currentText == [] then st
    else
      var text := Strip(Concat(st.currentText));
      Extractor(if text != [] then st.chunks + [text] else st.chunks, [], st.skipDepth)
  }

  /** `handle_starttag`: skip membership is tested before block membership. */
  function OnStartTag(st: Extractor, tag: string, blockTags: set<string>): Extractor
  {
    if tag in SkipTags then st.(skipDepth := st.skipDepth + 1)
    else if tag in blockTags && st.currentText != [] then Flush(st)
    else st
  }

  /** `handle_endtag` */
  function OnEndTag(st: Extractor, tag: string, blockTags: set<string>): Extractor
  {
    if tag in SkipTags then st.(skipDepth := st.skipDepth - 1)
    else if tag in blockTags then Flush(st)
    else st
  }

  /** `handle_data` */
  function OnData(st: Extractor, data: string): Extractor
  {
    if st.skipDepth == 0 then st.(currentText := st.currentText + [data]) else st
  }

  /** One parser callback; a self-closing tag is a start tag followed by an end tag. */
  function Step(st: Extractor, ev: Event, blockTags: set<string>): Extractor
  {
    match ev
    case StartTag(t) => OnStartTag(st, t, blockTags)
    case EndTag(t) => OnEndTag(st, t, blockTags)
    case StartEndTag(t) => OnEndTag(OnStartTag(st, t, blockTags), t, blockTags)
    case Data(d) => OnData(st, d)
    case Ignored => st
  }

  /** The state after feeding `evs`, one event at a time. */
  function Run(st: Extractor, evs: seq<Event>, blockTags: set<string>): Extractor
    decreases |evs|
  {
    if evs == [] then st
    else Step(Run(st, evs[..|evs| - 1], blockTags), evs[|evs| - 1], blockTags)
  }

  /** What `get_chunks` returns after a fresh extractor has been fed `evs`. */
  function ExtractChunks(evs: seq<Event>, blockTags: set<string>): seq<string>
  {
    Flush(Run(Initial, evs, blockTags)).chunks
  }

  // ---------------------------------------------------------------------------
  // The extractor object.

  class HtmlTextExtractor {
    /** The markdown library's block-level element names. */
    const blockTags: set<string>
    var chunks: seq<string>
    var currentText: seq<string>
    var skipDepth: int

    function State(): Extractor
      reads this
    {
      Extractor(chunks, currentText, skipDepth)
    }

    constructor (blockTags: set<string>)
      ensures this.blockTags == blockTags && State() == Initial
    {
      this.blockTags := blockTags;
      chunks := [];
      currentText := [];
      skipDepth := 0;
    }

    method HandleStartTag(tag: string)
      modifies this
      ensures State() == OnStartTag(old(State()), tag, blockTags)
    {
      if tag in SkipTags {
        skipDepth := skipDepth + 1;
      } else if tag in blockTags && currentText != [] {
        FlushText();
      }
    }

    method HandleEndTag(tag: string)
      modifies this
      ensures State() == OnEndTag(old(State()), tag, blockTags)
    {
      if tag in SkipTags {
        skipDepth := skipDepth - 1;
      } else if tag in blockTags {
        FlushText();
      }
    }

    /** The parser's default `handle_startendtag`. */
    method HandleStartEndTag(tag: string)
      modifies this
      ensures State() == Step(old(State()), StartEndTag(tag), blockTags)
    {
      HandleStartTag(tag);
      HandleEndTag(tag);
    }

    method HandleData(data: string)
      modifies this
      ensures State() == OnData(old(State()), data)
    {
      if skipDepth == 0 {
        currentText := currentText + [data];
      }
    }

    method FlushText()
      modifies this
      ensures State() == Flush(old(State()))
    {
      if currentText != [] {
        var text := Strip(Concat(currentText));
        if text != [] {
          chunks := chunks + [text];
        }
        currentText := [];
      }
    }

    method GetChunks() returns (result: seq<string>)
      modifies this
      ensures State() == Flush(old(State()))
      ensures result == chunks
    {
      FlushText();
      result := chunks;
    }

    /** `feed`: the parser calls one handler per event, in order. */
    method Feed(events: seq<Event>)
      modifies this
      ensures State() == Run(old(State()), events, blockTags)
    {
      for k := 0 to |events|
        invariant State() == Run(old(State()), events[..k], blockTags)
      {
        assert events[..k + 1][..k] == events[..k];
        match events[k]
        case StartTag(t) => HandleStartTag(t);
        case EndTag(t) => HandleEndTag(t);
        case StartEndTag(t) => HandleStartEndTag(t);
        case Data(d) => HandleData(d);
        case Ignored =>
      }
      assert events[..|events|] == events;
    }
  }

  // ---------------------------------------------------------------------------
  // Properties.

  /** Every chunk is non-empty and equal to its own `strip()`. */
  predicate GoodChunks(st: Extractor) {
    forall c :: c in st.chunks ==> c != [] && IsStripped(c)
  }

  lemma FlushKeepsGood(st: Extractor)
    requires GoodChunks(st)
    ensures GoodChunks(Flush(st))
  {
  }

  lemma StepKeepsGood(st: Extractor, ev: Event, blockTags: set<string>)
    requires GoodChunks(st)
    ensures GoodChunks(Step(st, ev, blockTags))
  {
    var s1 := match ev case StartEndTag(t) => OnStartTag(st, t, blockTags) case _ => st;
    FlushKeepsGood(st);
    FlushKeepsGood(s1);
  }

  lemma {:induction false} RunKeepsGood(st: Extractor, evs: seq<Event>, blockTags: set<string>)
    requires GoodChunks(st)
    ensures GoodChunks(Run(st, evs, blockTags))
    decreases |evs|
  {
    if evs != [] {
      RunKeepsGood(st, evs[..|evs| - 1], blockTags);
      StepKeepsGood(Run(st, evs[..|evs| - 1], blockTags), evs[|evs| - 1], blockTags);
    }
  }

  /** Every chunk the extractor returns is non-empty and stripped. */
  lemma ChunksAreStripped(evs: seq<Event>, blockTags: set<string>)
    ensures forall c :: c in ExtractChunks(evs, blockTags) ==> c != [] && IsStripped(c)
  {
    RunKeepsGood(Initial, evs, blockTags);
    FlushKeepsGood(Run(Initial, evs, blockTags));
  }

  /** How an event moves the skip depth: +1 for a skip start tag, -1 for a skip end tag. */
  function SkipDelta(ev: Event): int {
    match ev
    case StartTag(t) => if t in SkipTags then 1 else 0
    case EndTag(t) => if t in SkipTags then -1 else 0
    case _ => 0
  }

  /** Skip start tags minus skip end tags in `evs`. */
  function SkipBalance(evs: seq<Event>): int
    decreases |evs|
  {
    if evs == [] then 0 else SkipBalance(evs[..|evs| - 1]) + SkipDelta(evs[|evs| - 1])
  }

  lemma FlushKeepsDepth(st: Extractor)
    ensures Flush(st).skipDepth == st.skipDepth
  {
  }

  lemma StartDepth(st: Extractor, tag: string, blockTags: set<string>)
    ensures OnStartTag(st, tag, blockTags).skipDepth == st.skipDepth + (if tag in SkipTags then 1 else 0)
  {
    FlushKeepsDepth(st);
  }

  lemma EndDepth(st: Extractor, tag: string, blockTags: set<string>)
    ensures OnEndTag(st, tag, blockTags).skipDepth == st.skipDepth - (if tag in SkipTags then 1 else 0)
  {
    FlushKeepsDepth(st);
  }

  /** One event moves the skip depth by its `SkipDelta`; a self-closing skip tag opens and closes. */
  lemma StepDepth(st: Extractor, ev: Event, blockTags: set<string>)
    ensures Step(st, ev, blockTags).skipDepth == st.skipDepth + SkipDelta(ev)
  {
    match ev
    case StartTag(t) => StartDepth(st, t, blockTags);
    case EndTag(t) => EndDepth(st, t, blockTags);
    case StartEndTag(t) =>
      StartDepth(st, t, blockTags);
      EndDepth(OnStartTag(st, t, blockTags), t, blockTags);
    case Data(d) =>
    case Ignored =>
  }

  /** The skip depth has counted every skip start tag up and every skip end tag down. */
  lemma {:induction false} SkipDepthIsBalance(st: Extractor, evs: seq<Event>, blockTags: set<string>)
    ensures Run(st, evs, blockTags).skipDepth == st.skipDepth + SkipBalance(evs)
    decreases |evs|
  {
    if evs != [] {
      SkipDepthIsBalance(st, evs[..|evs| - 1], blockTags);
      StepDepth(Run(st, evs[..|evs| - 1], blockTags), evs[|evs| - 1], blockTags);
    }
  }

  /** `evs` without its data events. */
  function DropData(evs: seq<Event>): seq<Event>
    decreases |evs|
  {
    if evs == [] then []
    else DropData(evs[..|evs| - 1]) + (if evs[|evs| - 1].Data? then [] else [evs[|evs| - 1]])
  }

  /**
   * Text is only buffered at depth 0: as long as the depth is non-zero at every point,
   * the data events change nothing, so their text reaches no chunk.
   */
  lemma {:induction false} HiddenDataIgnored(st: Extractor, evs: seq<Event>, blockTags: set<string>)
    requires forall k :: 0 <= k <= |evs| ==> Run(st, evs[..k], blockTags).skipDepth != 0
    ensures Run(st, evs, blockTags) == Run(st, DropData(evs), blockTags)
    decreases |evs|
  {
    if evs != [] {
      var init := evs[..|evs| - 1];
      var last := evs[|evs| - 1];
      forall k | 0 <= k <= |init|
        ensures Run(st, init[..k], blockTags).skipDepth != 0
      {
        assert init[..k] == evs[..k];
      }
      HiddenDataIgnored(st, init, blockTags);
      assert evs[..|init|] == init;
      if last.Data? {
        assert DropData(evs) == DropData(init);
      } else {
        var d := DropData(init);
        assert DropData(evs) == d + [last];
        assert (d + [last])[..|d|] == d;
      }
    }
  }

  /** Inside a skip region with no skip end tag, the depth stays positive. */
  lemma {:induction false} DepthStaysPositive(st: Extractor, evs: seq<Event>, blockTags: set<string>, k: nat)
    requires st.skipDepth > 0 && k <= |evs|
    requires forall j :: 0 <= j < |evs| ==> !(evs[j].EndTag? && evs[j].tag in SkipTags)
    ensures Run(st, evs[..k], blockTags).skipDepth >= st.skipDepth
    decreases k
  {
    if k > 0 {
      var pre := evs[..k][..k - 1];
      assert pre == evs[..k - 1];
      DepthStaysPositive(st, evs, blockTags, k - 1);
      StepDepth(Run(st, pre, blockTags), evs[k - 1], blockTags);
    }
  }

  /** After a stray skip end tag, with no skip start tag to follow, the depth stays negative. */
  lemma {:induction false} DepthStaysNegative(st: Extractor, evs: seq<Event>, blockTags: set<string>, k: nat)
    requires st.skipDepth < 0 && k <= |evs|
    requires forall j :: 0 <= j < |evs| ==> !(evs[j].StartTag? && evs[j].tag in SkipTags)
    ensures Run(st, evs[..k], blockTags).skipDepth <= st.skipDepth
    decreases k
  {
    if k > 0 {
      var pre := evs[..k][..k - 1];
      assert pre == evs[..k - 1];
      DepthStaysNegative(st, evs, blockTags, k - 1);
      StepDepth(Run(st, pre, blockTags), evs[k - 1], blockTags);
    }
  }

  /**
   * Text inside a skip region reaches no chunk, however the region nests: once inside
   * (depth > 0), until some skip end tag, the data events have no effect.
   */
  lemma SkippedRegionIsDropped(st: Extractor, evs: seq<Event>, blockTags: set<string>)
    requires st.skipDepth > 0
    requires forall j :: 0 <= j < |evs| ==> !(evs[j].EndTag? && evs[j].tag in SkipTags)
    ensures Run(st, evs, blockTags) == Run(st, DropData(evs), blockTags)
  {
    forall k | 0 <= k <= |evs|
      ensures Run(st, evs[..k], blockTags).skipDepth != 0
    {
      DepthStaysPositive(st, evs, blockTags, k);
    }
    HiddenDataIgnored(st, evs, blockTags);
  }

  /** A stray closing skip tag drives the depth negative, and all later text is dropped. */
  lemma StrayCloseDropsLaterText(st: Extractor, evs: seq<Event>, blockTags: set<string>)
    requires st.skipDepth < 0
    requires forall j :: 0 <= j < |evs| ==> !(evs[j].StartTag? && evs[j].tag in SkipTags)
    ensures Run(st, evs, blockTags) == Run(st, DropData(evs), blockTags)
  {
    forall k | 0 <= k <= |evs|
      ensures Run(st, evs[..k], blockTags).skipDepth != 0
    {
      DepthStaysNegative(st, evs, blockTags, k);
    }
    HiddenDataIgnored(st, evs, blockTags);
  }

  /** Feeding two event lists one after the other is feeding their concatenation. */
  lemma {:induction false} RunAppend(st: Extractor, a: seq<Event>, b: seq<Event>, blockTags: set<string>)
    ensures Run(st, a + b, blockTags) == Run(Run(st, a, blockTags), b, blockTags)
    decreases |b|
  {
    if b == [] {
      assert a + b == a;
    } else {
      assert (a + b)[..|a + b| - 1] == a + b[..|b| - 1];
      RunAppend(st, a, b[..|b| - 1], blockTags);
    }
  }

  /** Inline tags (neither skip nor block) never split text: they can be deleted from the stream. */
  lemma InlineTagInvisible(st: Extractor, pre: seq<Event>, ev: Event, post: seq<Event>, blockTags: set<string>)
    requires ev.StartTag? || ev.EndTag? || ev.StartEndTag?
    requires ev.tag !in SkipTags && ev.tag !in blockTags
    ensures Run(st, pre + [ev] + post, blockTags) == Run(st, pre + post, blockTags)
  {
    RunAppend(st, pre + [ev], post, blockTags);
    RunAppend(st, pre, [ev], blockTags);
    RunAppend(st, pre, post, blockTags);
    assert Run(Run(st, pre, blockTags), [ev], blockTags) == Run(st, pre, blockTags) by {
      assert [ev][..0] == [];
    }
  }

  /** Flushing an empty buffer changes nothing, and a second flush adds nothing. */
  lemma FlushIdempotent(st: Extractor)
    ensures Flush(st).currentText == []
    ensures Flush(Flush(st)) == Flush(st)
    ensures st.currentText == [] ==> Flush(st) == st
  {
  }

  /**
   * A block start tag flushes only when the buffer is non-empty, but since flushing an
   * empty buffer is a no-op, a block start acts exactly like a block end.
   */
  lemma BlockStartActsAsFlush(st: Extractor, tag: string, blockTags: set<string>)
    requires tag !in SkipTags && tag in blockTags
    ensures OnStartTag(st, tag, blockTags) == Flush(st) == OnEndTag(st, tag, blockTags)
  {
  }

  /** Calling `get_chunks` a second time returns the same chunks. */
  method GetChunksTwice(events: seq<Event>, blockTags: set<string>) returns (first: seq<string>, second: seq<string>)
    ensures first == second == ExtractChunks(events, blockTags)
  {
    var extractor := new HtmlTextExtractor(blockTags);
    extractor.Feed(events);
    first := extractor.GetChunks();
    second := extractor.GetChunks();
    FlushIdempotent(Run(Initial, events, blockTags));
  }
}
