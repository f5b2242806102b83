/**
 * The article pipeline's markdown stripper: ten successive regular-expression substitutions,
 * each modelled as a matcher (what the backtracking engine matches at one position) and the
 * leftmost, non-overlapping scanner of `re.sub`.
 */
module Markdown {
  import opened Wrappers
  import opened PyText

  /**
   * The ten patterns, in the order they are applied. `Numbered` carries the table of `\d`
   * (Unicode decimal digits), which the model takes as a parameter.
   */
  datatype Pattern =
    | Link          // \[([^\]]+)\]\([^)]+\)  ->  \1
    | Image         // !\[[^\]]*\]\([^)]+\)    ->  ""
    | InlineCode    // `[^`]+`                 ->  ""
    | Fence         // ```[\s\S]*?```          ->  ""
    | Header        // ^#{1,6}\s+  (MULTILINE) ->  ""
    | Emphasis(marker: char)  // \*{1,2}([^*]+)\*{1,2} and the same with _  ->  \1
    | Blockquote    // ^>\s+       (MULTILINE) ->  ""
    | Bullet        // ^[\-\*\+]\s+ (MULTILINE) -> ""
    | Numbered(isDigit: char -> bool)  // ^\d+\.\s+ (MULTILINE) -> ""
    | Whitespace    // \s+                     ->  " "

  /** A match starting at the scan position: where it ends and what replaces it. */
  datatype Match = Match(end: nat, repl: string)

  /** `^` under MULTILINE: the start of the string or just after a newline. */
  predicate AtLineStart(s: string, i: nat)
    requires i <= |s|
  {
    i == 0 || s[i - 1] == '\n'
  }

  predicate NoneOf(s: string, a: nat, b: nat, c: char)
    requires a <= b <= |s|
  {
    forall x :: a <= x < b ==> s[x] != c
  }

  predicate AllOf(s: string, a: nat, b: nat, c: char)
    requires a <= b <= |s|
  {
    forall x :: a <= x < b ==> s[x] == c
  }

  predicate SpacesIn(s: string, a: nat, b: nat)
    requires a <= b <= |s|
  {
    forall x :: a <= x < b ==> IsSpace(s[x])
  }

  /** A greedy `\s+` stops at `e`: nothing further to take. */
  predicate SpacesStop(s: string, e: nat)
    requires e <= |s|
  {
    e == |s| || !IsSpace(s[e])
  }

  /** The first `c` at or after `j`, or `|s|`. */
  function FindFrom(s: string, j: nat, c: char): (k: nat)
    requires j <= |s|
    ensures j <= k <= |s| && NoneOf(s, j, k, c) && (k < |s| ==> s[k] == c)
    decreases |s| - j
  {
    if j == |s| || s[j] == c then j else FindFrom(s, j + 1, c)
  }

  /** The end of the run of `c` starting at `j`. */
  function SkipRun(s: string, j: nat, c: char): (k: nat)
    requires j <= |s|
    ensures j <= k <= |s| && AllOf(s, j, k, c) && (k == |s| || s[k] != c)
    decreases |s| - j
  {
    if j == |s| || s[j] != c then j else SkipRun(s, j + 1, c)
  }

  /** The end of the run of whitespace starting at `j`. */
  function SkipSpaces(s: string, j: nat): (k: nat)
    requires j <= |s|
    ensures j <= k <= |s| && SpacesIn(s, j, k) && SpacesStop(s, k)
    decreases |s| - j
  {
    if j == |s| || !IsSpace(s[j]) then j else SkipSpaces(s, j + 1)
  }

  lemma FindFromIs(s: string, j: nat, c: char, k: nat)
    requires j <= k <= |s| && NoneOf(s, j, k, c) && (k < |s| ==> s[k] == c)
    ensures FindFrom(s, j, c) == k
  {
  }

  lemma SkipRunIs(s: string, j: nat, c: char, k: nat)
    requires j <= k <= |s| && AllOf(s, j, k, c) && (k == |s| || s[k] != c)
    ensures SkipRun(s, j, c) == k
  {
  }

  lemma SkipSpacesIs(s: string, j: nat, k: nat)
    requires j <= k <= |s| && SpacesIn(s, j, k) && SpacesStop(s, k)
    ensures SkipSpaces(s, j) == k
  {
  }

  // ---------------------------------------------------------------------------
  // The matchers, each with the declarative shape of what its pattern matches.

  /** `[text](target)`: non-empty text without `]`, non-empty target without `)`; group 1 is the text. */
  predicate LinkShape(s: string, i: nat, mt: Match)
    requires i < |s|
  {
    var k := i + 1 + |mt.repl|;
    && s[i] == '[' && |mt.repl| >= 1 && k + 3 < mt.end <= |s|
    && s[k] == ']' && s[k + 1] == '(' && s[mt.end - 1] == ')'
    && mt.repl == s[i + 1..k]
    && NoneOf(s, i + 1, k, ']') && NoneOf(s, k + 2, mt.end - 1, ')')
  }

  function LinkAt(s: string, i: nat): (r: Option<Match>)
    requires i < |s|
    ensures r.Some? ==> i < r.value.end <= |s|
  {
    if s[i] != '[' then None
    else
      var k := FindFrom(s, i + 1, ']');
      if k == i + 1 || k + 1 >= |s| || s[k + 1] != '(' then None
      else
        var m := FindFrom(s, k + 2, ')');
        if m == k + 2 || m == |s| then None else Some(Match(m + 1, s[i + 1..k]))
  }

  lemma LinkAtIff(s: string, i: nat, mt: Match)
    requires i < |s|
    ensures LinkAt(s, i) == Some(mt) <==> LinkShape(s, i, mt)
  {
    if LinkShape(s, i, mt) {
      var k := i + 1 + |mt.repl|;
      FindFromIs(s, i + 1, ']', k);
      FindFromIs(s, k + 2, ')', mt.end - 1);
    }
  }

  /** `![alt](target)`: possibly empty alt without `]`, non-empty target without `)`. */
  predicate ImageParts(s: string, i: nat, k: nat, e: nat)
    requires i < |s|
  {
    && i + 1 < |s| && s[i] == '!' && s[i + 1] == '['
    && i + 2 <= k && k + 3 < e <= |s|
    && s[k] == ']' && s[k + 1] == '(' && s[e - 1] == ')'
    && NoneOf(s, i + 2, k, ']') && NoneOf(s, k + 2, e - 1, ')')
  }

  ghost predicate ImageShape(s: string, i: nat, mt: Match)
    requires i < |s|
  {
    mt.repl == [] && exists k: nat :: ImageParts(s, i, k, mt.end)
  }

  function ImageAt(s: string, i: nat): (r: Option<Match>)
    requires i < |s|
    ensures r.Some? ==> i < r.value.end <= |s|
  {
    if i + 1 >= |s| || s[i] != '!' || s[i + 1] != '[' then None
    else
      var k := FindFrom(s, i + 2, ']');
      if k + 1 >= |s| || s[k + 1] != '(' then None
      else
        var m := FindFrom(s, k + 2, ')');
        if m == k + 2 || m == |s| then None else Some(Match(m + 1, []))
  }

  lemma ImageAtIff(s: string, i: nat, mt: Match)
    requires i < |s|
    ensures ImageAt(s, i) == Some(mt) <==> ImageShape(s, i, mt)
  {
    if ImageAt(s, i) == Some(mt) {
      assert ImageParts(s, i, FindFrom(s, i + 2, ']'), mt.end);
    }
    if ImageShape(s, i, mt) {
      var k: nat :| ImageParts(s, i, k, mt.end);
      FindFromIs(s, i + 2, ']', k);
      FindFromIs(s, k + 2, ')', mt.end - 1);
    }
  }

  /** `` `code` ``: a non-empty run without backquotes between two backquotes. */
  predicate InlineCodeShape(s: string, i: nat, mt: Match)
    requires i < |s|
  {
    && mt.repl == [] && s[i] == '`' && i + 2 < mt.end <= |s|
    && s[mt.end - 1] == '`' && NoneOf(s, i + 1, mt.end - 1, '`')
  }

  function InlineCodeAt(s: string, i: nat): (r: Option<Match>)
    requires i < |s|
    ensures r.Some? ==> i < r.value.end <= |s|
  {
    if s[i] != '`' then None
    else
      var k := FindFrom(s, i + 1, '`');
      if k == i + 1 || k == |s| then None else Some(Match(k + 1, []))
  }

  lemma InlineCodeAtIff(s: string, i: nat, mt: Match)
    requires i < |s|
    ensures InlineCodeAt(s, i) == Some(mt) <==> InlineCodeShape(s, i, mt)
  {
    if InlineCodeShape(s, i, mt) {
      FindFromIs(s, i + 1, '`', mt.end - 1);
    }
  }

  /** Three backquotes starting at `k`. */
  predicate Ticks(s: string, k: nat) {
    k + 3 <= |s| && s[k] == '`' && s[k + 1] == '`' && s[k + 2] == '`'
  }

  /** The first three backquotes at or after `j`. */
  function FindTicks(s: string, j: nat): (r: Option<nat>)
    requires j <= |s|
    ensures r.Some? ==> j <= r.value && Ticks(s, r.value)
    ensures forall x :: j <= x < (if r.Some? then r.value else |s|) ==> !Ticks(s, x)
    decreases |s| - j
  {
    if j + 3 > |s| then None
    else if Ticks(s, j) then Some(j)
    else FindTicks(s, j + 1)
  }

  /** A fence: three backquotes, anything, and the first three backquotes after them (lazy). */
  predicate FenceShape(s: string, i: nat, mt: Match) {
    && mt.repl == [] && i + 6 <= mt.end && Ticks(s, i) && Ticks(s, mt.end - 3)
    && forall x :: i + 3 <= x < mt.end - 3 ==> !Ticks(s, x)
  }

  function FenceAt(s: string, i: nat): (r: Option<Match>)
    requires i < |s|
    ensures r.Some? ==> i < r.value.end <= |s|
  {
    if !Ticks(s, i) then None
    else
      match FindTicks(s, i + 3)
      case None => None
      case Some(k) => Some(Match(k + 3, []))
  }

  lemma FenceAtIff(s: string, i: nat, mt: Match)
    requires i < |s|
    ensures FenceAt(s, i) == Some(mt) <==> FenceShape(s, i, mt)
  {
    if FenceShape(s, i, mt) {
      var f := FindTicks(s, i + 3);
    }
  }

  /** One to six `#` at a line start, then a maximal run of at least one whitespace character. */
  predicate HeaderParts(s: string, i: nat, h: nat, e: nat) {
    && 1 <= h <= 6 && i + h < e <= |s|
    && AllOf(s, i, i + h, '#') && SpacesIn(s, i + h, e) && SpacesStop(s, e)
  }

  ghost predicate HeaderShape(s: string, i: nat, mt: Match)
    requires i < |s|
  {
    mt.repl == [] && AtLineStart(s, i) && exists h: nat :: HeaderParts(s, i, h, mt.end)
  }

  function HeaderAt(s: string, i: nat): (r: Option<Match>)
    requires i < |s|
    ensures r.Some? ==> i < r.value.end <= |s|
  {
    if !AtLineStart(s, i) || s[i] != '#' then None
    else
      var h := SkipRun(s, i, '#');
      if h - i > 6 || h == |s| || !IsSpace(s[h]) then None
      else Some(Match(SkipSpaces(s, h), []))
  }

  lemma HeaderAtIff(s: string, i: nat, mt: Match)
    requires i < |s|
    ensures HeaderAt(s, i) == Some(mt) <==> HeaderShape(s, i, mt)
  {
    if HeaderAt(s, i) == Some(mt) {
      assert HeaderParts(s, i, SkipRun(s, i, '#') - i, mt.end);
    }
    if HeaderShape(s, i, mt) {
      var h: nat :| HeaderParts(s, i, h, mt.end);
      assert !IsSpace('#');
      SkipRunIs(s, i, '#', i + h);
      SkipSpacesIs(s, i + h, mt.end);
    }
  }

  /**
   * `o` markers, a non-empty body without the marker (group 1), then `q` markers, taking two
   * when the text offers two.
   */
  predicate EmphasisParts(s: string, i: nat, c: char, o: nat, q: nat, mt: Match) {
    var k := i + o + |mt.repl|;
    && 1 <= o <= 2 && 1 <= q <= 2 && |mt.repl| >= 1 && k + q == mt.end <= |s|
    && AllOf(s, i, i + o, c) && mt.repl == s[i + o..k] && NoneOf(s, i + o, k, c)
    && AllOf(s, k, k + q, c) && (q == 1 ==> k + 1 == |s| || s[k + 1] != c)
  }

  ghost predicate EmphasisShape(s: string, i: nat, c: char, mt: Match) {
    exists o: nat, q: nat :: EmphasisParts(s, i, c, o, q, mt)
  }

  function EmphasisAt(s: string, i: nat, c: char): (r: Option<Match>)
    requires i < |s|
    ensures r.Some? ==> i < r.value.end <= |s|
  {
    if s[i] != c then None
    else
      var o := if i + 1 < |s| && s[i + 1] == c then 2 else 1;
      if i + o >= |s| || s[i + o] == c then None
      else
        var k := FindFrom(s, i + o, c);
        if k == |s| then None
        else
          var q := if k + 1 < |s| && s[k + 1] == c then 2 else 1;
          Some(Match(k + q, s[i + o..k]))
  }

  lemma EmphasisAtIff(s: string, i: nat, c: char, mt: Match)
    requires i < |s|
    ensures EmphasisAt(s, i, c) == Some(mt) <==> EmphasisShape(s, i, c, mt)
  {
    if EmphasisAt(s, i, c) == Some(mt) {
      var o, q := EmphasisAtParts(s, i, c);
    }
    if EmphasisShape(s, i, c, mt) {
      var o: nat, q: nat :| EmphasisParts(s, i, c, o, q, mt);
      EmphasisPartsMatch(s, i, c, o, q, mt);
    }
  }

  lemma EmphasisAtParts(s: string, i: nat, c: char) returns (o: nat, q: nat)
    requires i < |s| && EmphasisAt(s, i, c).Some?
    ensures EmphasisParts(s, i, c, o, q, EmphasisAt(s, i, c).value)
  {
    o := if i + 1 < |s| && s[i + 1] == c then 2 else 1;
    var k := FindFrom(s, i + o, c);
    q := if k + 1 < |s| && s[k + 1] == c then 2 else 1;
  }

  /** The marker runs are maximal, so the parts fix the match. */
  lemma EmphasisPartsMatch(s: string, i: nat, c: char, o: nat, q: nat, mt: Match)
    requires i < |s| && EmphasisParts(s, i, c, o, q, mt)
    ensures EmphasisAt(s, i, c) == Some(mt)
  {
    var k := i + o + |mt.repl|;
    assert s[i + o] != c;
    assert (o == 2) == (i + 1 < |s| && s[i + 1] == c);
    FindFromIs(s, i + o, c, k);
    assert (q == 2) == (k + 1 < |s| && s[k + 1] == c);
  }

  /** A marker at a line start followed by a maximal run of at least one whitespace character. */
  predicate MarkerShape(s: string, i: nat, mt: Match)
    requires i < |s|
  {
    && mt.repl == [] && AtLineStart(s, i) && i + 1 < mt.end <= |s|
    && SpacesIn(s, i + 1, mt.end) && SpacesStop(s, mt.end)
  }

  function MarkerAt(s: string, i: nat): (r: Option<Match>)
    requires i < |s|
    ensures r.Some? ==> i < r.value.end <= |s|
  {
    if !AtLineStart(s, i) || i + 1 >= |s| || !IsSpace(s[i + 1]) then None
    else Some(Match(SkipSpaces(s, i + 1), []))
  }

  lemma MarkerAtIff(s: string, i: nat, mt: Match)
    requires i < |s|
    ensures MarkerAt(s, i) == Some(mt) <==> MarkerShape(s, i, mt)
  {
    if MarkerShape(s, i, mt) {
      SkipSpacesIs(s, i + 1, mt.end);
    }
  }

  predicate IsBulletMarker(c: char) {
    c == '-' || c == '*' || c == '+'
  }

  /** Digits, a full stop, then a maximal run of at least one whitespace character, at a line start. */
  predicate NumberedParts(s: string, i: nat, d: nat, isDigit: char -> bool, mt: Match) {
    && mt.repl == [] && i < d && d + 1 < mt.end <= |s|
    && (forall x :: i <= x < d ==> isDigit(s[x]))
    && s[d] == '.' && SpacesIn(s, d + 1, mt.end) && SpacesStop(s, mt.end)
  }

  ghost predicate NumberedShape(s: string, i: nat, isDigit: char -> bool, mt: Match)
    requires i < |s|
  {
    AtLineStart(s, i) && exists d: nat :: NumberedParts(s, i, d, isDigit, mt)
  }

  function NumberedAt(s: string, i: nat, isDigit: char -> bool): (r: Option<Match>)
    requires i < |s|
    ensures r.Some? ==> i < r.value.end <= |s|
  {
    if !AtLineStart(s, i) || !isDigit(s[i]) then None
    else
      var d := SkipDigits(s, i, isDigit);
      if d + 1 >= |s| || s[d] != '.' || !IsSpace(s[d + 1]) then None
      else Some(Match(SkipSpaces(s, d + 1), []))
  }

  /** The greedy digit run is the only candidate, because `.` is not a decimal digit. */
  lemma NumberedAtIff(s: string, i: nat, isDigit: char -> bool, mt: Match)
    requires i < |s| && !isDigit('.')
    ensures NumberedAt(s, i, isDigit) == Some(mt) <==> NumberedShape(s, i, isDigit, mt)
  {
    if NumberedAt(s, i, isDigit) == Some(mt) {
      assert NumberedParts(s, i, SkipDigits(s, i, isDigit), isDigit, mt);
    }
    if NumberedShape(s, i, isDigit, mt) {
      var d: nat :| NumberedParts(s, i, d, isDigit, mt);
      SkipDigitsIs(s, i, isDigit, d);
      SkipSpacesIs(s, d + 1, mt.end);
    }
  }

  /** A maximal whitespace run, replaced by one space. */
  predicate WhitespaceShape(s: string, i: nat, mt: Match) {
    mt.repl == " " && i < mt.end <= |s| && SpacesIn(s, i, mt.end) && SpacesStop(s, mt.end)
  }

  function WhitespaceAt(s: string, i: nat): (r: Option<Match>)
    requires i < |s|
    ensures r.Some? ==> i < r.value.end <= |s|
  {
    if !IsSpace(s[i]) then None else Some(Match(SkipSpaces(s, i), " "))
  }

  lemma WhitespaceAtIff(s: string, i: nat, mt: Match)
    requires i < |s|
    ensures WhitespaceAt(s, i) == Some(mt) <==> WhitespaceShape(s, i, mt)
  {
    if WhitespaceShape(s, i, mt) {
      SkipSpacesIs(s, i, mt.end);
    }
  }

  function MatchAt(p: Pattern, s: string, i: nat): (r: Option<Match>)
    requires i < |s|
    ensures r.Some? ==> i < r.value.end <= |s|
  {
    match p
    case Link => LinkAt(s, i)
    case Image => ImageAt(s, i)
    case InlineCode => InlineCodeAt(s, i)
    case Fence => FenceAt(s, i)
    case Header => HeaderAt(s, i)
    case Emphasis(c) => EmphasisAt(s, i, c)
    case Blockquote => if s[i] == '>' then MarkerAt(s, i) else None
    case Bullet => if IsBulletMarker(s[i]) then MarkerAt(s, i) else None
    case Numbered(isDigit) => NumberedAt(s, i, isDigit)
    case Whitespace => WhitespaceAt(s, i)
  }

  /** `re.sub(p, repl, s[i:])`: leftmost matches, scanning resumes where a match ends. */
  function Sub(p: Pattern, s: string, i: nat): string
    requires i <= |s|
    decreases |s| - i
  {
    if i == |s| then []
    else
      match MatchAt(p, s, i)
      case Some(m) => m.repl + Sub(p, s, m.end)
      case None => [s[i]] + Sub(p, s, i + 1)
  }

  /** `re.sub(p, repl, s)` */
  function Apply(p: Pattern, s: string): string {
    Sub(p, s, 0)
  }

  // ---------------------------------------------------------------------------
  // The whole stripper.

  /** The ten markup passes in the order the source applies them. */
  function Unmarked(text: string, isDigit: char -> bool): string {
    var t := Apply(Link, text);
    var t := Apply(Image, t);
    var t := Apply(InlineCode, t);
    var t := Apply(Fence, t);
    var t := Apply(Header, t);
    var t := Apply(Emphasis('*'), t);
    var t := Apply(Emphasis('_'), t);
    var t := Apply(Blockquote, t);
    var t := Apply(Bullet, t);
    Apply(Numbered(isDigit), t)
  }

  /** `strip_markdown`: the ten passes, then whitespace collapsed and the ends stripped; this is what the tokeniser gets. */
  function StripMarkdown(text: string, isDigit: char -> bool): (r: string)
    ensures SingleSpaced(r) && IsStripped(r)
  {
    NormalizeWhitespace(Unmarked(text, isDigit))
  }

  /**
   * The passes with code fences removed before inline code, so that a fence is not first
   * consumed as two inline-code spans. This is the evidently intended order; the pipeline
   * keeps the source's order, and this one serves only to state the correction.
   */
  function UnmarkedFenceFirst(text: string, isDigit: char -> bool): string {
    var t := Apply(Link, text);
    var t := Apply(Image, t);
    var t := Apply(Fence, t);
    var t := Apply(InlineCode, t);
    var t := Apply(Header, t);
    var t := Apply(Emphasis('*'), t);
    var t := Apply(Emphasis('_'), t);
    var t := Apply(Blockquote, t);
    var t := Apply(Bullet, t);
    Apply(Numbered(isDigit), t)
  }

  /** Single spaces only: every whitespace character is a space, and no two spaces touch. */
  predicate SingleSpaced(t: string) {
    && (forall k :: 0 <= k < |t| && IsSpace(t[k]) ==> t[k] == ' ')
    && (forall k :: 0 <= k < |t| - 1 && t[k] == ' ' ==> t[k + 1] != ' ')
  }

  /** `re.sub(r"\s+", " ", text).strip()` */
  function NormalizeWhitespace(t: string): (r: string)
    ensures SingleSpaced(r) && IsStripped(r)
  {
    WhitespaceSubShape(t, 0);
    StripKeepsSingleSpaced(Apply(Whitespace, t));
    Strip(Apply(Whitespace, t))
  }

  /** The stripper with the corrected pass order. */
  function StripMarkdownFenceFirst(text: string, isDigit: char -> bool): (r: string)
    ensures SingleSpaced(r) && IsStripped(r)
  {
    NormalizeWhitespace(UnmarkedFenceFirst(text, isDigit))
  }

  // ---------------------------------------------------------------------------
  // The scanner.

  /** The character a match of `p` must start with. */
  predicate MayStart(p: Pattern, c: char) {
    match p
    case Link => c == '['
    case Image => c == '!'
    case InlineCode => c == '`'
    case Fence => c == '`'
    case Header => c == '#'
    case Emphasis(m) => c == m
    case Blockquote => c == '>'
    case Bullet => IsBulletMarker(c)
    case Numbered(isDigit) => isDigit(c)
    case Whitespace => IsSpace(c)
  }

  lemma MatchNeedsOpener(p: Pattern, s: string, i: nat)
    requires i < |s| && MatchAt(p, s, i).Some?
    ensures MayStart(p, s[i])
  {
  }

  lemma SubNoMatch(p: Pattern, s: string, i: nat)
    requires i < |s| && MatchAt(p, s, i).None?
    ensures Sub(p, s, i) == [s[i]] + Sub(p, s, i + 1)
  {
  }

  lemma SubMatch(p: Pattern, s: string, i: nat, m: Match)
    requires i < |s| && MatchAt(p, s, i) == Some(m)
    ensures i < m.end <= |s| && Sub(p, s, i) == m.repl + Sub(p, s, m.end)
  {
  }

  /** One unmatched position in front of a stretch already known to be copied. */
  lemma SubSkipStep(p: Pattern, s: string, i: nat, j: nat)
    requires i < j <= |s| && MatchAt(p, s, i).None?
    requires Sub(p, s, i + 1) == s[i + 1..j] + Sub(p, s, j)
    ensures Sub(p, s, i) == s[i..j] + Sub(p, s, j)
  {
    SubNoMatch(p, s, i);
    PrependSlice(s, i, j, Sub(p, s, j));
  }

  lemma PrependSlice(s: string, i: nat, j: nat, rest: string)
    requires i < j <= |s|
    ensures [s[i]] + (s[i + 1..j] + rest) == s[i..j] + rest
  {
    assert s[i..j] == [s[i]] + s[i + 1..j];
  }

  /** Positions where nothing matches are copied through unchanged. */
  lemma {:induction false} SubSkip(p: Pattern, s: string, i: nat, j: nat)
    requires i <= j <= |s|
    requires forall x :: i <= x < j ==> MatchAt(p, s, x).None?
    ensures Sub(p, s, i) == s[i..j] + Sub(p, s, j)
    decreases j - i
  {
    if i < j {
      SubSkip(p, s, i + 1, j);
      SubSkipStep(p, s, i, j);
    } else {
      assert s[i..j] == [];
    }
  }

  /** No character of `s[i..j]` can open a match: the stretch is copied through. */
  lemma SubSkipAvoiding(p: Pattern, s: string, i: nat, j: nat)
    requires i <= j <= |s|
    requires forall c :: c in s[i..j] ==> !MayStart(p, c)
    ensures Sub(p, s, i) == s[i..j] + Sub(p, s, j)
  {
    forall x | i <= x < j
      ensures MatchAt(p, s, x).None?
    {
      assert s[x] == s[i..j][x - i];
      if MatchAt(p, s, x).Some? {
        MatchNeedsOpener(p, s, x);
      }
    }
    SubSkip(p, s, i, j);
  }

  /** A pass whose opening character does not occur leaves the text alone. */
  lemma Untouched(p: Pattern, s: string)
    requires forall c :: c in s ==> !MayStart(p, c)
    ensures Apply(p, s) == s
  {
    assert s[0..|s|] == s;
    SubSkipAvoiding(p, s, 0, |s|);
  }

  // ---------------------------------------------------------------------------
  // Whitespace.

  lemma ConsSingleSpaced(c: char, r: string)
    requires SingleSpaced(r)
    requires IsSpace(c) ==> c == ' '
    requires c == ' ' && r != [] ==> r[0] != ' '
    ensures SingleSpaced([c] + r)
  {
    var t := [c] + r;
    forall k | 0 <= k < |t| - 1 && t[k] == ' '
      ensures t[k + 1] != ' '
    {
      if k > 0 { assert t[k] == r[k - 1] && t[k + 1] == r[k]; }
    }
  }

  /** The whitespace pass leaves single spaces, and keeps the first character unless it is whitespace. */
  lemma {:induction false} WhitespaceSubShape(s: string, i: nat)
    requires i <= |s|
    ensures SingleSpaced(Sub(Whitespace, s, i))
    ensures i < |s| ==>
      Sub(Whitespace, s, i) != [] && Sub(Whitespace, s, i)[0] == (if IsSpace(s[i]) then ' ' else s[i])
    decreases |s| - i
  {
    if i < |s| {
      if IsSpace(s[i]) {
        var e := SkipSpaces(s, i);
        WhitespaceSubShape(s, e);
        ConsSingleSpaced(' ', Sub(Whitespace, s, e));
      } else {
        WhitespaceSubShape(s, i + 1);
        ConsSingleSpaced(s[i], Sub(Whitespace, s, i + 1));
      }
    }
  }

  lemma SliceSingleSpaced(t: string, a: nat, b: nat)
    requires a <= b <= |t| && SingleSpaced(t)
    ensures SingleSpaced(t[a..b])
  {
    var u := t[a..b];
    forall k | 0 <= k < |u| - 1 && u[k] == ' '
      ensures u[k + 1] != ' '
    {
      assert u[k] == t[a + k] && u[k + 1] == t[a + k + 1];
    }
  }

  lemma StripKeepsSingleSpaced(t: string)
    requires SingleSpaced(t)
    ensures SingleSpaced(Strip(t))
  {
    var a := StripIsTrimmedPiece(t);
    SliceSingleSpaced(t, a, a + |Strip(t)|);
  }

  /** Single-spaced text is a fixed point of the whitespace pass. */
  lemma {:induction false} WhitespaceFixpoint(s: string, i: nat)
    requires i <= |s| && SingleSpaced(s)
    ensures Sub(Whitespace, s, i) == s[i..]
    decreases |s| - i
  {
    if i < |s| {
      WhitespaceFixpoint(s, i + 1);
      if IsSpace(s[i]) {
        SkipSpacesIs(s, i, i + 1);
      }
      assert s[i..] == [s[i]] + s[i + 1..];
    }
  }

  /** Normalising whitespace twice is normalising once. */
  lemma NormalizeWhitespaceIdempotent(t: string)
    ensures NormalizeWhitespace(NormalizeWhitespace(t)) == NormalizeWhitespace(t)
  {
    var r := NormalizeWhitespace(t);
    WhitespaceFixpoint(r, 0);
    StripOfStripped(r);
  }

  // ---------------------------------------------------------------------------
  // What the passes do to particular constructs.

  /** A link becomes its text: the target is discarded. */
  lemma LinkKeepsText(text: string, target: string)
    requires text != [] && ']' !in text && target != [] && ')' !in target
    ensures Apply(Link, "[" + text + "](" + target + ")") == text
  {
    var s := "[" + text + "](" + target + ")";
    var k := 1 + |text|;
    assert s[1..k] == text;
    forall x | 1 <= x < k ensures s[x] != ']' { assert s[x] == text[x - 1]; }
    forall x | k + 2 <= x < |s| - 1 ensures s[x] != ')' { assert s[x] == target[x - k - 2]; }
    LinkAtIff(s, 0, Match(|s|, text));
    SubMatch(Link, s, 0, Match(|s|, text));
  }

  /**
   * An image with alt text loses only its brackets and target: the link pass runs first and
   * takes `[alt](target)` for a link, leaving the `!`.
   */
  lemma ImageAltBecomesText(alt: string, target: string)
    requires alt != [] && ']' !in alt && target != [] && ')' !in target
    ensures Apply(Link, "![" + alt + "](" + target + ")") == "!" + alt
  {
    var s := "![" + alt + "](" + target + ")";
    var k := 2 + |alt|;
    assert s[2..k] == alt;
    forall x | 2 <= x < k ensures s[x] != ']' { assert s[x] == alt[x - 2]; }
    forall x | k + 2 <= x < |s| - 1 ensures s[x] != ')' { assert s[x] == target[x - k - 2]; }
    LinkAtIff(s, 1, Match(|s|, alt));
    SubNoMatch(Link, s, 0);
    SubMatch(Link, s, 1, Match(|s|, alt));
    assert [s[0]] == "!";
  }

  function Hashes(h: nat): (r: string)
    ensures |r| == h && forall k :: 0 <= k < h ==> r[k] == '#'
  {
    seq(h, _ => '#')
  }

  /** A heading of one to six `#` loses its marker and the following space; its title stays. */
  lemma HeaderKeepsTitle(h: nat, title: string)
    requires 1 <= h <= 6 && title != [] && !IsSpace(title[0]) && '#' !in title
    ensures Apply(Header, Hashes(h) + " " + title) == title
  {
    var s := Hashes(h) + " " + title;
    assert s[h] == ' ' && s[h + 1] == title[0];
    assert HeaderParts(s, 0, h, h + 1);
    HeaderAtIff(s, 0, Match(h + 1, []));
    SubMatch(Header, s, 0, Match(h + 1, []));
    assert s[h + 1..] == title;
    SubSkipAvoiding(Header, s, h + 1, |s|);
  }

  /** Seven or more `#` are not a heading marker at all. */
  lemma SevenHashesNoHeader(s: string)
    requires |s| >= 7 && AllOf(s, 0, 7, '#')
    ensures MatchAt(Header, s, 0).None?
  {
  }

  /**
   * A `*` list marker is taken by the emphasis pass before the list pass runs: the text from
   * one `*` to the next loses both stars and keeps its spaces.
   */
  lemma StarsPairAsEmphasis(a: string, b: string)
    requires a != [] && '*' !in a && '*' !in b
    ensures Apply(Emphasis('*'), "*" + a + "*" + b) == a + b
  {
    var s := "*" + a + "*" + b;
    var k := 1 + |a|;
    assert s[1] == a[0];
    assert s[1..k] == a;
    forall x | 1 <= x < k ensures s[x] != '*' { assert s[x] == a[x - 1]; }
    if b != [] { assert s[k + 1] == b[0]; }
    assert EmphasisParts(s, 0, '*', 1, 1, Match(k + 1, a));
    EmphasisAtIff(s, 0, '*', Match(k + 1, a));
    SubMatch(Emphasis('*'), s, 0, Match(k + 1, a));
    assert s[k + 1..] == b;
    SubSkipAvoiding(Emphasis('*'), s, k + 1, |s|);
  }

  // ---------------------------------------------------------------------------
  // Plain text passes through.

  /**
   * Text with nothing the passes could take: single-spaced and stripped (so on one line), no
   * `[`, backquote, `*` or `_`, and no line marker or digit at its start.
   */
  predicate Plain(t: string, isDigit: char -> bool) {
    && SingleSpaced(t) && IsStripped(t)
    && (forall c :: c in t ==> c != '[' && c != '`' && c != '*' && c != '_')
    && (t != [] ==> t[0] != '#' && t[0] != '>' && !IsBulletMarker(t[0]) && !isDigit(t[0]))
  }

  /** In single-spaced text (no newline) only position 0 is a line start. */
  lemma OneLine(t: string, j: nat)
    requires SingleSpaced(t) && 0 < j <= |t|
    ensures !AtLineStart(t, j)
  {
    assert IsSpace('\n');
  }

  lemma PlainLineStartsUntouched(p: Pattern, t: string, isDigit: char -> bool)
    requires Plain(t, isDigit)
    requires p == Header || p == Blockquote || p == Bullet || p == Numbered(isDigit)
    ensures Apply(p, t) == t
  {
    forall x | 0 <= x < |t|
      ensures MatchAt(p, t, x).None?
    {
      if x > 0 { OneLine(t, x); }
    }
    SubSkip(p, t, 0, |t|);
    assert t[0..|t|] == t;
  }

  /** When no pass alters the text, the ten passes leave it as it is. */
  lemma UnmarkedOfFixpoint(t: string, isDigit: char -> bool)
    requires Apply(Link, t) == t && Apply(Image, t) == t && Apply(InlineCode, t) == t
    requires Apply(Fence, t) == t && Apply(Header, t) == t
    requires Apply(Emphasis('*'), t) == t && Apply(Emphasis('_'), t) == t
    requires Apply(Blockquote, t) == t && Apply(Bullet, t) == t && Apply(Numbered(isDigit), t) == t
    ensures Unmarked(t, isDigit) == t
  {
  }

  lemma PlainInlineUntouched(t: string, isDigit: char -> bool)
    requires Plain(t, isDigit)
    ensures Apply(Link, t) == t && Apply(Image, t) == t && Apply(InlineCode, t) == t && Apply(Fence, t) == t
    ensures Apply(Emphasis('*'), t) == t && Apply(Emphasis('_'), t) == t
  {
    forall x | 0 <= x < |t|
      ensures MatchAt(Image, t, x).None?
    {
      if x + 1 < |t| { assert t[x + 1] in t; }
    }
    SubSkip(Image, t, 0, |t|);
    assert t[0..|t|] == t;
    Untouched(Link, t);
    Untouched(InlineCode, t);
    Untouched(Fence, t);
    Untouched(Emphasis('*'), t);
    Untouched(Emphasis('_'), t);
  }

  /** Already-plain text comes out of the stripper unchanged. */
  lemma PlainUnchanged(t: string, isDigit: char -> bool)
    requires Plain(t, isDigit)
    ensures StripMarkdown(t, isDigit) == t
  {
    PlainInlineUntouched(t, isDigit);
    PlainLineStartsUntouched(Header, t, isDigit);
    PlainLineStartsUntouched(Blockquote, t, isDigit);
    PlainLineStartsUntouched(Bullet, t, isDigit);
    PlainLineStartsUntouched(Numbered(isDigit), t, isDigit);
    UnmarkedOfFixpoint(t, isDigit);
    WhitespaceFixpoint(t, 0);
    StripOfStripped(t);
  }

  /** The link pass unwraps the outer link of `"[[a](b)](c)"` and leaves the inner one's brackets. */
  lemma OuterLinkUnwrapped(s: string)
    requires s == "[[a](b)](c)"
    ensures Apply(Link, s) == "[a](c)"
  {
    var m := Match(7, "[a");
    assert s[1..3] == "[a";
    assert LinkShape(s, 0, m);
    LinkAtIff(s, 0, m);
    SubMatch(Link, s, 0, m);
    assert s[7..11] == "](c)";
    SubSkipAvoiding(Link, s, 7, 11);
  }

  /** The link pass turns `"[a](c)"` into `"a"`. */
  lemma InnerLinkUnwrapped(t: string)
    requires t == "[a](c)"
    ensures Apply(Link, t) == "a"
  {
    var m := Match(6, "a");
    assert t[1..2] == "a";
    assert LinkShape(t, 0, m);
    LinkAtIff(t, 0, m);
    SubMatch(Link, t, 0, m);
  }

  /**
   * Yet the stripper is not idempotent: a link whose text holds a link keeps a link after one
   * pass, and a second run takes that one too.
   */
  lemma NotIdempotent(isDigit: char -> bool)
    requires DecimalDigits(isDigit)
    ensures StripMarkdown("[[a](b)](c)", isDigit) == "[a](c)"
    ensures StripMarkdown("[a](c)", isDigit) == "a"
  {
    NestedLinkFirstPass(isDigit);
    NestedLinkSecondPass(isDigit);
  }

  lemma NestedLinkFirstPass(isDigit: char -> bool)
    requires DecimalDigits(isDigit)
    ensures StripMarkdown("[[a](b)](c)", isDigit) == "[a](c)"
  {
    var s, t := "[[a](b)](c)", "[a](c)";
    OuterLinkUnwrapped(s);
    assert forall c :: c in t ==> IsLinkChar(c);
    LinkTextOnly(s, t, isDigit);
  }

  lemma NestedLinkSecondPass(isDigit: char -> bool)
    requires DecimalDigits(isDigit)
    ensures StripMarkdown("[a](c)", isDigit) == "a"
  {
    var t, u := "[a](c)", "a";
    InnerLinkUnwrapped(t);
    assert forall c :: c in u ==> IsLinkChar(c);
    LinkTextOnly(t, u, isDigit);
  }

  /** Brackets, parentheses and a few letters give every pass but the link pass nothing to take. */
  predicate IsLinkChar(c: char) {
    c == '[' || c == ']' || c == '(' || c == ')' || c == 'a' || c == 'b' || c == 'c'
  }

  predicate LinkAlphabet(t: string) {
    forall c :: c in t ==> IsLinkChar(c)
  }

  lemma LinkAlphabetInlineUntouched(t: string)
    requires LinkAlphabet(t)
    ensures Apply(Image, t) == t && Apply(Fence, t) == t && Apply(InlineCode, t) == t
  {
    Untouched(Image, t);
    Untouched(Fence, t);
    Untouched(InlineCode, t);
  }

  lemma LinkAlphabetEmphasisUntouched(t: string)
    requires LinkAlphabet(t)
    ensures Apply(Emphasis('*'), t) == t && Apply(Emphasis('_'), t) == t && Apply(Whitespace, t) == t
  {
    Untouched(Emphasis('*'), t);
    Untouched(Emphasis('_'), t);
    Untouched(Whitespace, t);
  }

  lemma LinkAlphabetLineUntouched(t: string, isDigit: char -> bool)
    requires DecimalDigits(isDigit) && LinkAlphabet(t)
    ensures Apply(Header, t) == t && Apply(Blockquote, t) == t
    ensures Apply(Bullet, t) == t && Apply(Numbered(isDigit), t) == t
  {
    Untouched(Header, t);
    Untouched(Blockquote, t);
    Untouched(Bullet, t);
    Untouched(Numbered(isDigit), t);
  }

  /** Text the link pass turns into a stripped link-alphabet string comes out of the stripper as that string. */
  lemma LinkTextOnly(s: string, t: string, isDigit: char -> bool)
    requires DecimalDigits(isDigit) && Apply(Link, s) == t && LinkAlphabet(t)
    ensures StripMarkdown(s, isDigit) == t
  {
    LinkAlphabetInlineUntouched(t);
    LinkAlphabetEmphasisUntouched(t);
    LinkAlphabetLineUntouched(t, isDigit);
    UnmarkedAfterLink(s, t, isDigit);
    if t != [] {
      assert t[0] in t && t[|t| - 1] in t;
    }
    NormalizedFixpoint(t);
  }

  /** When the link pass gives `t` and no later pass alters `t`, the ten passes give `t`. */
  lemma UnmarkedAfterLink(s: string, t: string, isDigit: char -> bool)
    requires Apply(Link, s) == t && Apply(Image, t) == t && Apply(Fence, t) == t
    requires Apply(InlineCode, t) == t && Apply(Header, t) == t
    requires Apply(Emphasis('*'), t) == t && Apply(Emphasis('_'), t) == t
    requires Apply(Blockquote, t) == t && Apply(Bullet, t) == t && Apply(Numbered(isDigit), t) == t
    ensures Unmarked(s, isDigit) == t
  {
  }

  /** Stripped text that the whitespace pass leaves alone is already normalised. */
  lemma NormalizedFixpoint(t: string)
    requires Apply(Whitespace, t) == t && IsStripped(t)
    ensures NormalizeWhitespace(t) == t
  {
    StripOfStripped(t);
  }

  // ---------------------------------------------------------------------------
  // Code fences.

  lemma FindTicksIs(s: string, j: nat, k: nat)
    requires j <= k && Ticks(s, k) && forall x :: j <= x < k ==> !Ticks(s, x)
    ensures FindTicks(s, j) == Some(k)
  {
  }

  /** A fenced block, three backquotes around a non-empty body without backquotes or `[`. */
  predicate FencedBlock(s: string, body: string) {
    body != [] && '`' !in body && '[' !in body && s == "```" + body + "```"
  }

  lemma FencedBlockLinkFree(s: string, body: string)
    requires FencedBlock(s, body)
    ensures Apply(Link, s) == s && Apply(Image, s) == s
  {
    assert forall c :: c in s ==> c in body || c == '`';
    Untouched(Link, s);
    forall x | 0 <= x < |s|
      ensures MatchAt(Image, s, x).None?
    {
      if x + 1 < |s| { assert s[x + 1] in s; }
    }
    SubSkip(Image, s, 0, |s|);
    assert s[0..|s|] == s;
  }

  /** The inline-code pass takes the third backquote through the first closing one. */
  lemma InlineCodeSplitsFence(s: string, body: string)
    requires FencedBlock(s, body)
    ensures Apply(InlineCode, s) == "````"
  {
    var n := |body|;
    forall x | 3 <= x < 3 + n ensures s[x] != '`' { assert s[x] == body[x - 3]; }
    FindFromIs(s, 1, '`', 1);
    FindFromIs(s, 2, '`', 2);
    FindFromIs(s, 3, '`', 3 + n);
    FindFromIs(s, 5 + n, '`', 5 + n);
    FindFromIs(s, 6 + n, '`', 6 + n);
    SubNoMatch(InlineCode, s, 0);
    SubNoMatch(InlineCode, s, 1);
    SubMatch(InlineCode, s, 2, Match(4 + n, []));
    SubNoMatch(InlineCode, s, 4 + n);
    SubNoMatch(InlineCode, s, 5 + n);
  }

  /** No fence fits in four backquotes: an opening three leave no room for a closing three. */
  lemma NoFenceInFour()
    ensures Apply(Fence, "````") == "````"
  {
    var f := "````";
    forall x | 0 <= x < |f|
      ensures MatchAt(Fence, f, x).None?
    {
      if x <= 1 { assert FindTicks(f, x + 3).None?; }
    }
    SubSkip(Fence, f, 0, |f|);
    assert f[0..|f|] == f;
  }

  /** Backquotes give the line passes nothing to take. */
  lemma BackquotesLineUntouched(f: string, isDigit: char -> bool)
    requires DecimalDigits(isDigit) && forall c :: c in f ==> c == '`'
    ensures Apply(Header, f) == f && Apply(Blockquote, f) == f
    ensures Apply(Bullet, f) == f && Apply(Numbered(isDigit), f) == f
  {
    Untouched(Header, f);
    Untouched(Blockquote, f);
    Untouched(Bullet, f);
    Untouched(Numbered(isDigit), f);
  }

  /** Backquotes give the emphasis and whitespace passes nothing to take. */
  lemma BackquotesInlineUntouched(f: string)
    requires forall c :: c in f ==> c == '`'
    ensures Apply(Emphasis('*'), f) == f && Apply(Emphasis('_'), f) == f
    ensures Apply(Whitespace, f) == f
  {
    Untouched(Emphasis('*'), f);
    Untouched(Emphasis('_'), f);
    Untouched(Whitespace, f);
  }

  /** Four backquotes are left alone by every later pass. */
  lemma FourBackquotesStay(isDigit: char -> bool)
    requires DecimalDigits(isDigit)
    ensures Apply(Fence, "````") == "````" && Apply(Header, "````") == "````"
    ensures Apply(Emphasis('*'), "````") == "````" && Apply(Emphasis('_'), "````") == "````"
    ensures Apply(Blockquote, "````") == "````" && Apply(Bullet, "````") == "````"
    ensures Apply(Numbered(isDigit), "````") == "````" && NormalizeWhitespace("````") == "````"
  {
    var f := "````";
    NoFenceInFour();
    assert forall c :: c in f ==> c == '`';
    BackquotesLineUntouched(f, isDigit);
    BackquotesInlineUntouched(f);
    StripOfStripped(f);
  }

  /**
   * As written, a fenced block leaves four backquotes behind: the inline-code pass splits it
   * before the fence pass runs, and the fence pass cannot match what is left.
   */
  lemma FenceLeavesBackquotes(s: string, body: string, isDigit: char -> bool)
    requires FencedBlock(s, body) && DecimalDigits(isDigit)
    ensures StripMarkdown(s, isDigit) == "````"
  {
    FencedBlockLinkFree(s, body);
    InlineCodeSplitsFence(s, body);
    FourBackquotesStay(isDigit);
  }

  /** With fences taken first, a fenced block disappears entirely. */
  lemma FenceRemoved(s: string, body: string, isDigit: char -> bool)
    requires FencedBlock(s, body)
    ensures StripMarkdownFenceFirst(s, isDigit) == ""
  {
    FencedBlockLinkFree(s, body);
    var n := |body|;
    forall x | 3 <= x < 3 + n ensures !Ticks(s, x) { assert s[x] == body[x - 3]; }
    FindTicksIs(s, 3, 3 + n);
    SubMatch(Fence, s, 0, Match(|s|, []));
  }

  /** The link and image passes add no character that was not already there. */
  lemma {:induction false} LinkPassAddsNothing(p: Pattern, s: string, i: nat, c: char)
    requires p.Link? || p.Image?
    requires i <= |s| && c !in s[i..]
    ensures c !in Sub(p, s, i)
    decreases |s| - i
  {
    if i < |s| {
      match MatchAt(p, s, i)
      case Some(m) =>
        assert s[m.end..] == s[i..][m.end - i..];
        LinkPassAddsNothing(p, s, m.end, c);
        if p.Link? {
          LinkAtIff(s, i, m);
          assert m.repl == s[i..][1..|m.repl| + 1];
        } else {
          ImageAtIff(s, i, m);
        }
        assert c !in m.repl;
        assert Sub(p, s, i) == m.repl + Sub(p, s, m.end);
      case None =>
        assert s[i + 1..] == s[i..][1..];
        LinkPassAddsNothing(p, s, i + 1, c);
        assert Sub(p, s, i) == [s[i]] + Sub(p, s, i + 1);
    }
  }

  /** The correction changes nothing for text without backquotes. */
  lemma CorrectionOnlyTouchesCode(text: string, isDigit: char -> bool)
    requires '`' !in text
    ensures StripMarkdownFenceFirst(text, isDigit) == StripMarkdown(text, isDigit)
  {
    assert text[0..] == text;
    LinkPassAddsNothing(Link, text, 0, '`');
    var t1 := Apply(Link, text);
    assert t1[0..] == t1;
    LinkPassAddsNothing(Image, t1, 0, '`');
    var t2 := Apply(Image, t1);
    Untouched(InlineCode, t2);
    Untouched(Fence, t2);
  }
}
