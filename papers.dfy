/**
 * The paper records the bot passes around. A catalogue entry (an arXiv search result) is an
 * object: its catalogue data never changes, but the filter and the language-model processors
 * attach attributes to it in place (`citation_count`, `chatgpt_result`, `gemini_result`).
 */
module Papers {
  import opened Maybe

  /** A `datetime`: seconds on a common clock, and whether it carries a time zone. Subtracting an
      aware value from a naive one (or the reverse) raises `TypeError` in Python. */
  datatype Timestamp = Timestamp(seconds: int, aware: bool)

  const SecondsPerDay := 86400

  /** The Python values a processor can leave in `chatgpt_result`: nothing, a string, a JSON
      object (its values read as text) or any other JSON value, of which only its truth matters. */
  datatype PyValue =
    | PyNone
    | PyStr(text: string)
    | PyDict(entries: map<string, string>)
    | PyOther(truthy: bool)

  /** Python's truth value of a result: `None`, `""` and `{}` are false. */
  predicate Truthy(v: PyValue) {
    match v
    case PyNone => false
    case PyStr(t) => t != ""
    case PyDict(m) => |m| > 0
    case PyOther(b) => b
  }

  /** `d.get(key, "")` on a JSON object. */
  function GetOrEmpty(entries: map<string, string>, key: string): string {
    if key in entries then entries[key] else ""
  }

  /** An arXiv search result (`arxiv.Result`) together with the attributes the bot sets on it. */
  class Paper {
    const entryId: string
    const title: string
    const summary: string
    /** The authors' names. */
    const authors: seq<string>
    const categories: seq<string>
    const pdfUrl: string
    const published: Option<Timestamp>

    /** `citation_count`, `None` until the legacy filter sets it. */
    var citationCount: Option<int>
    /** `chatgpt_result`; `PyNone` also stands for "never set", which `getattr(..., None)` reads alike. */
    var chatgptResult: PyValue
    /** `gemini_result`, `None` until the Gemini processor sets it. */
    var geminiResult: Option<string>

    constructor (entryId: string, title: string, summary: string, authors: seq<string>,
                 categories: seq<string>, pdfUrl: string, published: Option<Timestamp>)
      ensures this.entryId == entryId && this.title == title && this.summary == summary
      ensures this.authors == authors && this.categories == categories
      ensures this.pdfUrl == pdfUrl && this.published == published
      ensures citationCount == None && chatgptResult == PyNone && geminiResult == None
    {
      this.entryId := entryId;
      this.title := title;
      this.summary := summary;
      this.authors := authors;
      this.categories := categories;
      this.pdfUrl := pdfUrl;
      this.published := published;
      citationCount := None;
      chatgptResult := PyNone;
      geminiResult := None;
    }
  }

  /** `(datetime.now() - published).days` for a naive clock reading `now`, or `None` when Python
      raises: no publication date, or an aware date that cannot be subtracted from a naive one.
      `timedelta.days` rounds towards minus infinity. */
  function AgeDays(published: Option<Timestamp>, now: int): (days: Option<int>)
    ensures days.None? <==> published.None? || published.value.aware
    ensures days.Some? ==>
      days.value * SecondsPerDay <= now - published.value.seconds < (days.value + 1) * SecondsPerDay
  {
    match published
    case None => None
    case Some(t) => if t.aware then None else Some((now - t.seconds) / SecondsPerDay)
  }
}
