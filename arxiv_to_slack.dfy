/**
 * The first-generation script `arxiv_to_slack.py`: the filter that combines recency, keywords and
 * citation counts, the version stripping of arXiv identifiers for the citation lookup, the
 * search, and the six-block Slack message. Configuration values (`MAX_YEARS_OLD`, `KEYWORDS`,
 * `MIN_CITATIONS`, `FILTER_LOGIC`, `MAX_RESULTS`, `AI_CATEGORIES`) are parameters; the Semantic
 * Scholar lookup, the catalogue and `strftime` are functions given by the caller.
 */
module ArxivToSlack {
  import opened Maybe
  import opened Strings
  import opened Seqs
  import opened Papers
  import opened SlackBlocks
  import ArxivClient

  // ---------------------------------------------------------------------------
  // Citation lookup

  /** The arXiv identifier of an entry URL: its last `/` piece, cut before the first `v` (the
      version suffix) when there is one. */
  function ArxivId(entryId: string): (id: string)
    ensures '/' !in id && 'v' !in id
  {
    var pieces := Split(entryId, "/");
    SplitPiecesAvoidSeparator(entryId, "/");
    var last := Last(pieces);
    ContainsChar(last, '/');
    if 'v' in last then
      SplitPiecesAvoidSeparator(last, "v");
      SplitFirstIsPrefix(last, "v");
      var head := Split(last, "v")[0];
      ContainsChar(head, 'v');
      assert forall c :: c in head ==> c in last;
      head
    else last
  }

  /** A versioned entry URL yields the identifier without its version. */
  lemma ArxivIdOfVersionedEntry(prefix: string, base: string, version: string)
    requires '/' !in base && 'v' !in base && '/' !in version
    ensures ArxivId(prefix + "/" + base + "v" + version) == base
  {
    var tail := base + "v" + version;
    assert prefix + "/" + base + "v" + version == prefix + ['/'] + tail;
    LastPieceAfterChar(prefix, tail, '/');
    NotContainsWithoutFirst(tail, "/");
    assert tail[|base|] == 'v';
    SplitAtFirst(base, "v", version);
  }

  /** An entry URL without a version yields its last piece. */
  lemma ArxivIdOfUnversionedEntry(prefix: string, base: string)
    requires '/' !in base && 'v' !in base
    ensures ArxivId(prefix + "/" + base) == base
  {
    assert prefix + "/" + base == prefix + ['/'] + base;
    LastPieceAfterChar(prefix, base, '/');
    NotContainsWithoutFirst(base, "/");
  }

  /** The Semantic Scholar key looked up for an entry. */
  function CitationKey(entryId: string): string {
    "arXiv:" + ArxivId(entryId)
  }

  /** Every version of a paper is looked up under the same key. */
  lemma CitationKeyIgnoresVersion(prefix: string, base: string, version: string)
    requires '/' !in base && 'v' !in base && '/' !in version
    ensures CitationKey(prefix + "/" + base + "v" + version) == CitationKey(prefix + "/" + base) == "arXiv:" + base
  {
    ArxivIdOfVersionedEntry(prefix, base, version);
    ArxivIdOfUnversionedEntry(prefix, base);
  }

  /** `get_citation_count`. `lookup` answers `None` when the request raises, finds no paper, or
      the paper has no `citationCount`; every such case counts as 0. */
  function CitationCount(paper: Paper, lookup: string -> Option<int>): (count: int)
    ensures lookup(CitationKey(paper.entryId)).None? ==> count == 0
    ensures lookup(CitationKey(paper.entryId)).Some? ==> count == lookup(CitationKey(paper.entryId)).value
  {
    lookup(CitationKey(paper.entryId)).GetOr(0)
  }

  // ---------------------------------------------------------------------------
  // Filter

  /** The `filters` settings: `max_years_old`, `keywords`, `min_citations`, `filter_logic`. */
  datatype FilterSettings = FilterSettings(maxYearsOld: real, keywords: seq<string>, minCitations: int, logic: string)

  /** The values used when the configuration leaves a setting out. */
  const DefaultFilters := FilterSettings(3.0, [], 10, "or")

  /** `contains_keywords`: the loop over the keywords that returns at the first match. */
  method ContainsKeywords(paper: Paper, keywords: seq<string>) returns (found: bool)
    ensures found == ArxivClient.ContainsKeywords(paper, keywords)
  {
    if |keywords| == 0 {
      return false;
    }
    var text := Lower(paper.title + " " + paper.summary);
    var i := 0;
    while i < |keywords|
      invariant 0 <= i <= |keywords|
      invariant forall k :: 0 <= k < i ==> !Contains(text, Lower(keywords[k]))
    {
      if Contains(text, Lower(keywords[i])) {
        return true;
      }
      i := i + 1;
    }
    return false;
  }

  /** Under `"or"` logic a keyword match admits a recent paper without a citation lookup. */
  function KeywordShortcut(paper: Paper, f: FilterSettings): bool {
    f.logic == "or" && ArxivClient.ContainsKeywords(paper, f.keywords)
  }

  /** The outcome of `filter_papers` for one paper. */
  function Kept(paper: Paper, now: int, f: FilterSettings, lookup: string -> Option<int>): bool {
    ArxivClient.IsRecentPaper(paper, now, f.maxYearsOld) &&
    (KeywordShortcut(paper, f) ||
     (var count := CitationCount(paper, lookup);
      if f.logic == "and" then ArxivClient.ContainsKeywords(paper, f.keywords) && count >= f.minCitations
      else count >= f.minCitations))
  }

  function KeptFn(now: int, f: FilterSettings, lookup: string -> Option<int>): Paper -> bool {
    (p: Paper) => Kept(p, now, f, lookup)
  }

  /** Whether `filter_papers` asks Semantic Scholar about the paper. */
  function NeedsLookup(paper: Paper, now: int, f: FilterSettings): bool {
    ArxivClient.IsRecentPaper(paper, now, f.maxYearsOld) && !KeywordShortcut(paper, f)
  }

  function NeedsLookupFn(now: int, f: FilterSettings): Paper -> bool {
    (p: Paper) => NeedsLookup(p, now, f)
  }

  /** The `citation_count` the filter stores on a recent paper. */
  function StoredCitationCount(paper: Paper, f: FilterSettings, lookup: string -> Option<int>): int {
    if KeywordShortcut(paper, f) then 0 else CitationCount(paper, lookup)
  }

  /** The `citation_count` attribute after filtering, given its value `before`: set on every
      recent paper, untouched on the others. */
  function CountAfterFilter(paper: Paper, before: Option<int>, now: int, f: FilterSettings,
                            lookup: string -> Option<int>): Option<int>
  {
    if ArxivClient.IsRecentPaper(paper, now, f.maxYearsOld) then Some(StoredCitationCount(paper, f, lookup))
    else before
  }

  /** Filtering a paper a second time stores what the first time stored. */
  lemma CountAfterFilterTwice(paper: Paper, before: Option<int>, now: int, f: FilterSettings,
                              lookup: string -> Option<int>)
    ensures var once := CountAfterFilter(paper, before, now, f, lookup);
      CountAfterFilter(paper, once, now, f, lookup) == once
  {
  }

  /** The body of the loop in `filter_papers` for one paper: whether it is appended, whether its
      citations are looked up, and the count stored on it. */
  method FilterOne(paper: Paper, now: int, f: FilterSettings, lookup: string -> Option<int>)
    returns (keep: bool, lookedUp: bool)
    modifies paper`citationCount
    ensures keep == Kept(paper, now, f, lookup)
    ensures lookedUp == NeedsLookup(paper, now, f)
    ensures paper.citationCount == CountAfterFilter(paper, old(paper.citationCount), now, f, lookup)
  {
    keep, lookedUp := false, false;
    if !ArxivClient.IsRecentPaper(paper, now, f.maxYearsOld) {
      return;
    }
    var matches := false;
    if f.logic == "or" {
      matches := ContainsKeywords(paper, f.keywords);
    }
    if matches {
      paper.citationCount := Some(0);
      keep := true;
      return;
    }
    var count := CitationCount(paper, lookup);
    lookedUp := true;
    paper.citationCount := Some(count);
    if f.logic == "and" {
      var again := ContainsKeywords(paper, f.keywords);
      keep := again && count >= f.minCitations;
    } else {
      keep := count >= f.minCitations;
    }
  }

  /** `filter_papers`: keeps the papers that pass, in order, and stores `citation_count` on every
      recent paper; `lookedUp` records the papers whose citations were requested, in order. */
  method FilterPapers(papers: seq<Paper>, now: int, f: FilterSettings, lookup: string -> Option<int>)
    returns (filtered: seq<Paper>, ghost lookedUp: seq<Paper>)
    modifies papers`citationCount
    ensures filtered == Filter(papers, KeptFn(now, f, lookup))
    ensures lookedUp == Filter(papers, NeedsLookupFn(now, f))
    ensures forall p | p in papers :: p.citationCount == CountAfterFilter(p, old(p.citationCount), now, f, lookup)
  {
    filtered, lookedUp := [], [];
    var i := 0;
    while i < |papers|
      invariant 0 <= i <= |papers|
      invariant filtered == Filter(papers[..i], KeptFn(now, f, lookup))
      invariant lookedUp == Filter(papers[..i], NeedsLookupFn(now, f))
      invariant forall p | p in papers[..i] :: p.citationCount == CountAfterFilter(p, old(p.citationCount), now, f, lookup)
      invariant forall p | p in papers && p !in papers[..i] :: p.citationCount == old(p.citationCount)
    {
      var paper := papers[i];
      FilterSnoc(papers, i, KeptFn(now, f, lookup));
      FilterSnoc(papers, i, NeedsLookupFn(now, f));
      PrefixSnocMembers(papers, i);
      CountAfterFilterTwice(paper, old(paper.citationCount), now, f, lookup);
      var keep, looked := FilterOne(paper, now, f, lookup);
      if keep {
        filtered := filtered + [paper];
      }
      if looked {
        lookedUp := lookedUp + [paper];
      }
      i := i + 1;
    }
    assert papers[..i] == papers;
  }

  /** Every paper the filter keeps is recent, and the result keeps the input order. */
  lemma FilterKeepsOnlyRecentPapers(papers: seq<Paper>, now: int, f: FilterSettings, lookup: string -> Option<int>)
    ensures IsSubsequence(Filter(papers, KeptFn(now, f, lookup)), papers)
    ensures forall p | p in Filter(papers, KeptFn(now, f, lookup)) ::
      p in papers && ArxivClient.IsRecentPaper(p, now, f.maxYearsOld)
  {
    FilterIsSubsequence(papers, KeptFn(now, f, lookup));
    FilterMembership(papers, KeptFn(now, f, lookup));
  }

  /** `"or"`: a recent paper is kept when it matches a keyword or has enough citations. */
  lemma OrLogicKeeps(papers: seq<Paper>, now: int, f: FilterSettings, lookup: string -> Option<int>)
    requires f.logic == "or"
    ensures forall p | p in papers :: p in Filter(papers, KeptFn(now, f, lookup)) <==>
      ArxivClient.IsRecentPaper(p, now, f.maxYearsOld) &&
      (ArxivClient.ContainsKeywords(p, f.keywords) || CitationCount(p, lookup) >= f.minCitations)
  {
    FilterMembership(papers, KeptFn(now, f, lookup));
  }

  /** `"or"`: a recent paper that matches a keyword is kept with a stored count of 0 and is never
      looked up. */
  lemma OrLogicKeywordMatchSkipsLookup(papers: seq<Paper>, now: int, f: FilterSettings,
                                       lookup: string -> Option<int>, p: Paper)
    requires f.logic == "or" && p in papers
    requires ArxivClient.IsRecentPaper(p, now, f.maxYearsOld) && ArxivClient.ContainsKeywords(p, f.keywords)
    ensures p in Filter(papers, KeptFn(now, f, lookup))
    ensures p !in Filter(papers, NeedsLookupFn(now, f))
    ensures StoredCitationCount(p, f, lookup) == 0
  {
    FilterMembership(papers, KeptFn(now, f, lookup));
    FilterMembership(papers, NeedsLookupFn(now, f));
  }

  /** `"and"`: a recent paper is kept exactly when it matches a keyword and has enough citations. */
  lemma AndLogicKeeps(papers: seq<Paper>, now: int, f: FilterSettings, lookup: string -> Option<int>)
    requires f.logic == "and"
    ensures forall p | p in papers :: p in Filter(papers, KeptFn(now, f, lookup)) <==>
      ArxivClient.IsRecentPaper(p, now, f.maxYearsOld) &&
      ArxivClient.ContainsKeywords(p, f.keywords) && CitationCount(p, lookup) >= f.minCitations
  {
    FilterMembership(papers, KeptFn(now, f, lookup));
  }

  /** Any other logic value (`"OR"` included): only the citation count decides. */
  lemma OtherLogicKeepsByCitations(papers: seq<Paper>, now: int, f: FilterSettings, lookup: string -> Option<int>)
    requires f.logic != "or" && f.logic != "and"
    ensures forall p | p in papers :: p in Filter(papers, KeptFn(now, f, lookup)) <==>
      ArxivClient.IsRecentPaper(p, now, f.maxYearsOld) && CitationCount(p, lookup) >= f.minCitations
  {
    FilterMembership(papers, KeptFn(now, f, lookup));
  }

  /** With the default settings (no keywords, `"or"`) a recent paper still needs 10 citations:
      an empty keyword list does not reduce the filter to recency. */
  lemma DefaultSettingsNeedCitations(papers: seq<Paper>, now: int, lookup: string -> Option<int>)
    ensures forall p | p in papers :: p in Filter(papers, KeptFn(now, DefaultFilters, lookup)) <==>
      ArxivClient.IsRecentPaper(p, now, 3.0) && CitationCount(p, lookup) >= 10
  {
    OrLogicKeeps(papers, now, DefaultFilters, lookup);
  }

  // ---------------------------------------------------------------------------
  // Search

  /** `search_ai_papers`: one request for three times `MAX_RESULTS` papers, filtered, cut to
      `filtered[:MAX_RESULTS]`; a failed request gives `[]`. */
  method SearchAiPapers(categories: seq<string>, maxResults: int, now: int, f: FilterSettings,
                        lookup: string -> Option<int>, fetch: ArxivClient.Search -> Option<seq<Paper>>)
    returns (papers: seq<Paper>)
    modifies fetch(ArxivClient.BuildSearch(categories, maxResults)).GetOr([])`citationCount
    ensures fetch(ArxivClient.BuildSearch(categories, maxResults)).None? ==> papers == []
    ensures fetch(ArxivClient.BuildSearch(categories, maxResults)).Some? ==>
      papers == Prefix(Filter(fetch(ArxivClient.BuildSearch(categories, maxResults)).value, KeptFn(now, f, lookup)), maxResults)
    ensures fetch(ArxivClient.BuildSearch(categories, maxResults)).Some? ==>
      forall p | p in fetch(ArxivClient.BuildSearch(categories, maxResults)).value ::
        p.citationCount == CountAfterFilter(p, old(p.citationCount), now, f, lookup)
  {
    var search := ArxivClient.BuildSearch(categories, maxResults);
    match fetch(search)
    case None =>
      papers := [];
    case Some(results) =>
      var filtered, _ := FilterPapers(results, now, f, lookup);
      papers := Prefix(filtered, maxResults);
  }

  // ---------------------------------------------------------------------------
  // Message

  const SummaryLimit := 300

  /** The summary shown in the message: the first 300 characters and `"..."` when it is longer. */
  function Abbreviate(summary: string): (text: string)
    ensures |summary| <= SummaryLimit ==> text == summary
    ensures |summary| > SummaryLimit ==> |text| == SummaryLimit + 3 && text == summary[..SummaryLimit] + "..."
  {
    if |summary| > SummaryLimit then summary[..SummaryLimit] + "..." else summary
  }

  /** The shown summary never exceeds 303 characters and always starts like the summary. */
  lemma AbbreviateBounds(summary: string)
    ensures |Abbreviate(summary)| <= SummaryLimit + 3
    ensures var n := if |summary| < SummaryLimit then |summary| else SummaryLimit;
      Abbreviate(summary)[..n] == summary[..n]
  {
  }

  /** The link section of the message. */
  function LinkText(paper: Paper): string {
    "*論文リンク:* <" + paper.pdfUrl + "|PDF> | <" + paper.entryId + "|arXiv>"
  }

  /** `format_paper_for_slack`: header, authors and categories, date and citations, summary, links,
      divider. Formatting a paper without a publication date raises, which gives `None`. */
  function FormatPaperForSlack(paper: Paper, dateText: Timestamp -> string): (message: Option<seq<Block>>)
    reads paper
    ensures message.None? <==> paper.published.None?
    ensures message.Some? ==> |message.value| == 6
    ensures message.Some? ==> message.value[0] == Header(paper.title) && message.value[5] == Divider
    ensures message.Some? ==>
              message.value[1] == Fields(["*著者:*\n" + Join(", ", paper.authors),
                                          "*カテゴリ:*\n" + Join(", ", paper.categories)])
    ensures message.Some? ==>
              message.value[2] == Fields(["*出版日:*\n" + dateText(paper.published.value),
                                          "*引用数:*\n" + IntToString(paper.citationCount.GetOr(0))])
    ensures message.Some? ==> message.value[3] == Section("*概要:*\n" + Abbreviate(paper.summary))
    ensures message.Some? ==> message.value[4] == Section(LinkText(paper))
  {
    match paper.published
    case None => None
    case Some(date) =>
      Some([
        Header(paper.title),
        Fields(["*著者:*\n" + Join(", ", paper.authors), "*カテゴリ:*\n" + Join(", ", paper.categories)]),
        Fields(["*出版日:*\n" + dateText(date), "*引用数:*\n" + IntToString(paper.citationCount.GetOr(0))]),
        Section("*概要:*\n" + Abbreviate(paper.summary)),
        Section(LinkText(paper)),
        Divider
      ])
  }

  /** The link section points at both the PDF and the arXiv entry. */
  lemma LinkMentionsPdfAndEntry(paper: Paper)
    ensures Contains(LinkText(paper), paper.pdfUrl) && Contains(LinkText(paper), paper.entryId)
  {
    assert paper.pdfUrl[0..|paper.pdfUrl|] == paper.pdfUrl;
    assert paper.entryId[0..|paper.entryId|] == paper.entryId;
    assert OccursAt(paper.pdfUrl, paper.pdfUrl, 0) && OccursAt(paper.entryId, paper.entryId, 0);
    ContainsInfix("*論文リンク:* <", paper.pdfUrl, "|PDF> | <" + paper.entryId + "|arXiv>", paper.pdfUrl);
    ContainsInfix("*論文リンク:* <" + paper.pdfUrl + "|PDF> | <", paper.entryId, "|arXiv>", paper.entryId);
    assert "*論文リンク:* <" + paper.pdfUrl + ("|PDF> | <" + paper.entryId + "|arXiv>") == LinkText(paper);
    assert "*論文リンク:* <" + paper.pdfUrl + "|PDF> | <" + paper.entryId + "|arXiv>" == LinkText(paper);
  }
}
