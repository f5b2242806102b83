/** The sentence stage shared by both pipelines: tokenise chunks, then keep the long ones. */
module Sentences {
  import opened Wrappers
  import opened PyText

  /** Sentences shorter than this, after stripping, are dropped. */
  const MinSentenceLength: nat := 10

  predicate Kept(s: string) {
    |Strip(s)| >= MinSentenceLength
  }

  /** `[s.strip() for s in sentences if len(s.strip()) >= 10]` */
  function FilterSentences(ss: seq<string>): (r: seq<string>)
    ensures |r| <= |ss|
    ensures forall x :: x in r ==> |x| >= MinSentenceLength && IsStripped(x)
  {
    if ss == [] then []
    else (if Kept(ss[0]) then [Strip(ss[0])] else []) + FilterSentences(ss[1..])
  }

  /** A string survives exactly when it is the stripped form of a long enough input sentence. */
  lemma {:induction false} FilterMembership(ss: seq<string>, x: string)
    ensures x in FilterSentences(ss) <==> exists s :: s in ss && Kept(s) && Strip(s) == x
  {
    if ss != [] {
      FilterMembership(ss[1..], x);
      assert forall s :: s in ss <==> s == ss[0] || s in ss[1..];
    }
  }

  /** Filtering keeps order: it distributes over concatenation. */
  lemma {:induction false} FilterAppend(a: seq<string>, b: seq<string>)
    ensures FilterSentences(a + b) == FilterSentences(a) + FilterSentences(b)
  {
    if a != [] {
      HeadOfAppend(a, b);
      FilterAppend(a[1..], b);
      FilterCons(a + b);
      FilterCons(a);
      var h := if Kept(a[0]) then [Strip(a[0])] else [];
      AppendAssoc(h, FilterSentences(a[1..]), FilterSentences(b));
    } else {
      assert a + b == b;
    }
  }

  lemma HeadOfAppend(a: seq<string>, b: seq<string>)
    requires a != []
    ensures (a + b)[0] == a[0] && (a + b)[1..] == a[1..] + b
  {
  }

  lemma AppendAssoc(x: seq<string>, y: seq<string>, z: seq<string>)
    ensures x + (y + z) == (x + y) + z
  {
  }

  /** Already stripped sentences of at least the minimum length. */
  predicate AllClean(ss: seq<string>) {
    forall x :: x in ss ==> |x| >= MinSentenceLength && IsStripped(x)
  }

  /** Sentences that are already stripped and long pass through unchanged. */
  lemma {:induction false} FilterIdentity(ss: seq<string>)
    requires AllClean(ss)
    ensures FilterSentences(ss) == ss
  {
    if ss != [] {
      var s0, rest := ss[0], ss[1..];
      assert s0 in ss;
      StripOfStripped(s0);
      assert AllClean(rest) by {
        forall x | x in rest ensures x in ss { }
      }
      FilterIdentity(rest);
      FilterCons(ss);
      assert ss == [s0] + rest;
    }
  }

  lemma FilterCons(ss: seq<string>)
    requires ss != []
    ensures FilterSentences(ss) == (if Kept(ss[0]) then [Strip(ss[0])] else []) + FilterSentences(ss[1..])
  {
  }

  /**
   * The sentences of every chunk, in chunk order (`sentences.extend(...)` per chunk). The tokeniser
   * may raise (`LookupError` when its model is not installed): `None` then, and the loop stops.
   */
  function TokenizeAll(chunks: seq<string>, sentTokenize: string -> Option<seq<string>>): Option<seq<string>>
  {
    if chunks == [] then Some([])
    else
      match TokenizeAll(chunks[..|chunks| - 1], sentTokenize)
      case None => None
      case Some(front) =>
        match sentTokenize(chunks[|chunks| - 1])
        case None => None
        case Some(last) => Some(front + last)
  }

  /** Tokenising fails exactly when the tokeniser raises on some chunk. */
  lemma {:induction false} TokenizeAllFails(chunks: seq<string>, sentTokenize: string -> Option<seq<string>>)
    ensures TokenizeAll(chunks, sentTokenize).None? <==> exists c :: c in chunks && sentTokenize(c).None?
  {
    if chunks != [] {
      var front, last := chunks[..|chunks| - 1], chunks[|chunks| - 1];
      TokenizeAllFails(front, sentTokenize);
      assert chunks == front + [last];
      assert forall c :: c in chunks <==> c in front || c == last;
    }
  }

  /** On success, a sentence is produced exactly when the tokeniser found it in some chunk. */
  lemma {:induction false} TokenizeAllMember(chunks: seq<string>, sentTokenize: string -> Option<seq<string>>, x: string)
    requires TokenizeAll(chunks, sentTokenize).Some?
    ensures x in TokenizeAll(chunks, sentTokenize).value <==>
      exists c :: c in chunks && sentTokenize(c).Some? && x in sentTokenize(c).value
  {
    if chunks != [] {
      var front, last := chunks[..|chunks| - 1], chunks[|chunks| - 1];
      TokenizeAllMember(front, sentTokenize, x);
      assert chunks == front + [last];
      assert forall c :: c in chunks <==> c in front || c == last;
      TokenizeAllFails(front, sentTokenize);
    }
  }

  /** Both halves tokenised separately, concatenated: tokenising chunk lists is order-preserving. */
  lemma {:induction false} TokenizeAllAppend(a: seq<string>, b: seq<string>, sentTokenize: string -> Option<seq<string>>)
    ensures TokenizeAll(a + b, sentTokenize) ==
      if TokenizeAll(a, sentTokenize).Some? && TokenizeAll(b, sentTokenize).Some?
      then Some(TokenizeAll(a, sentTokenize).value + TokenizeAll(b, sentTokenize).value)
      else None
  {
    if b == [] {
      assert a + b == a;
      assert TokenizeAll(b, sentTokenize) == Some([]);
      if TokenizeAll(a, sentTokenize).Some? {
        assert TokenizeAll(a, sentTokenize).value + [] == TokenizeAll(a, sentTokenize).value;
      }
    } else {
      var front, last := b[..|b| - 1], b[|b| - 1];
      assert (a + b)[..|a + b| - 1] == a + front;
      assert (a + b)[|a + b| - 1] == last;
      TokenizeAllAppend(a, front, sentTokenize);
      if TokenizeAll(a, sentTokenize).Some? && TokenizeAll(front, sentTokenize).Some? && sentTokenize(last).Some? {
        AppendAssoc(TokenizeAll(a, sentTokenize).value, TokenizeAll(front, sentTokenize).value, sentTokenize(last).value);
      }
    }
  }
}
