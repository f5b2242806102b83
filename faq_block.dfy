/** `FAQBlock.get_structured_data`: schema.org `FAQPage` JSON-LD for a list of questions. */
module FaqBlock {
  import opened Wrappers

  /** JSON values; an object keeps its keys in insertion order, as a Python dict does. */
  datatype Json = JString(s: string) | JList(items: seq<Json>) | JObject(fields: seq<(string, Json)>)

  /** One FAQ item: the question text and the rich-text answer's raw HTML source. */
  datatype FaqItem = FaqItem(question: string, answerSource: string)

  /** `{"@type": "Question", "name": ..., "acceptedAnswer": {"@type": "Answer", "text": ...}}` */
  function Question(item: FaqItem): Json {
    JObject([("@type", JString("Question")), ("name", JString(item.question)),
             ("acceptedAnswer", JObject([("@type", JString("Answer")), ("text", JString(item.answerSource))]))])
  }

  /** `self.get('items')` is `None` when the block has no items value; a falsy value gives `None`. */
  function GetStructuredData(items: Option<seq<FaqItem>>): (r: Option<Json>)
    ensures r.None? <==> (items.None? || items.value == [])
  {
    if items.None? || items.value == [] then None
    else
      Some(JObject([("@context", JString("https://schema.org")), ("@type", JString("FAQPage")),
                    ("mainEntity", JList(seq(|items.value|, k requires 0 <= k < |items.value| => Question(items.value[k]))))]))
  }

  /** The text of an `{"@type": "Answer", "text": ...}` object. */
  function ReadAnswer(j: Json): Option<string> {
    if j.JObject? && |j.fields| == 2 && j.fields[0] == ("@type", JString("Answer"))
       && j.fields[1].0 == "text" && j.fields[1].1.JString?
    then Some(j.fields[1].1.s)
    else None
  }

  /** Reading one Question back; `None` for any other shape. */
  function ReadQuestion(j: Json): Option<FaqItem> {
    if j.JObject? && |j.fields| == 3 && j.fields[0] == ("@type", JString("Question"))
       && j.fields[1].0 == "name" && j.fields[1].1.JString?
       && j.fields[2].0 == "acceptedAnswer" && ReadAnswer(j.fields[2].1).Some?
    then Some(FaqItem(j.fields[1].1.s, ReadAnswer(j.fields[2].1).value))
    else None
  }

  function ReadQuestions(js: seq<Json>): (r: Option<seq<FaqItem>>)
    ensures r.Some? ==> |r.value| == |js|
  {
    if js == [] then Some([])
    else
      match (ReadQuestion(js[0]), ReadQuestions(js[1..]))
      case (Some(x), Some(rest)) => Some([x] + rest)
      case _ => None
  }

  /** Reading an `FAQPage` document back into its items. */
  function ReadFaqPage(j: Json): Option<seq<FaqItem>> {
    if j.JObject? && |j.fields| == 3 && j.fields[0] == ("@context", JString("https://schema.org"))
       && j.fields[1] == ("@type", JString("FAQPage")) && j.fields[2].0 == "mainEntity" && j.fields[2].1.JList?
    then ReadQuestions(j.fields[2].1.items)
    else None
  }

  lemma {:induction false} ReadQuestionsOf(items: seq<FaqItem>)
    ensures ReadQuestions(seq(|items|, k requires 0 <= k < |items| => Question(items[k]))) == Some(items)
    decreases |items|
  {
    var js := seq(|items|, k requires 0 <= k < |items| => Question(items[k]));
    if items != [] {
      assert js[1..] == seq(|items[1..]|, k requires 0 <= k < |items[1..]| => Question(items[1..][k]));
      ReadQuestionsOf(items[1..]);
      assert ReadQuestion(js[0]) == Some(items[0]);
      assert [items[0]] + items[1..] == items;
    }
  }

  /** The document lists exactly the items, one Question each, in order: reading it back returns them. */
  lemma StructuredDataRoundTrip(items: seq<FaqItem>)
    requires items != []
    ensures GetStructuredData(Some(items)).Some?
    ensures ReadFaqPage(GetStructuredData(Some(items)).value) == Some(items)
  {
    ReadQuestionsOf(items);
  }

  /** Entry `k` of `mainEntity` names question `k` and carries answer `k`'s source. */
  lemma MainEntityEntries(items: seq<FaqItem>, k: nat)
    requires k < |items|
    ensures var d := GetStructuredData(Some(items)).value;
      && d.JObject? && |d.fields| == 3
      && d.fields[0] == ("@context", JString("https://schema.org")) && d.fields[1] == ("@type", JString("FAQPage"))
      && d.fields[2].0 == "mainEntity" && d.fields[2].1.JList? && |d.fields[2].1.items| == |items|
      && d.fields[2].1.items[k] == Question(items[k])
      && ReadQuestion(d.fields[2].1.items[k]) == Some(items[k])
  {
  }
}
