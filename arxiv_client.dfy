/**
 * The search and filtering of `src/arxiv_client.py`: the recency test, the case-insensitive
 * keyword test, the list-comprehension filter, the category query and the random pick.
 * The catalogue itself is a function from a search request to its results, `None` when the
 * request raises.
 */
module ArxivClient {
  import opened Maybe
  import opened Strings
  import opened Seqs
  import opened Papers

  /** `is_recent_paper`: at most `maxYearsOld` years old, counted as `days / 365` in real
      arithmetic; a paper whose age cannot be computed passes. */
  function IsRecentPaper(paper: Paper, now: int, maxYearsOld: real): (recent: bool)
    ensures AgeDays(paper.published, now).None? ==> recent
    ensures AgeDays(paper.published, now).Some? ==>
      (recent <==> AgeDays(paper.published, now).value as real <= 365.0 * maxYearsOld)
  {
    match AgeDays(paper.published, now)
    case None => true
    case Some(days) => (days as real) / 365.0 <= maxYearsOld
  }

  /** The text that keywords are searched in, before lower-casing. */
  function SearchText(paper: Paper): string {
    paper.title + " " + paper.summary
  }

  /** `contains_keywords`: some keyword, lower-cased, occurs in the lower-cased title and summary.
      An empty keyword list matches nothing. */
  function ContainsKeywords(paper: Paper, keywords: seq<string>): (found: bool)
    ensures keywords == [] ==> !found
  {
    |keywords| > 0 &&
    exists k | 0 <= k < |keywords| :: Contains(Lower(SearchText(paper)), Lower(keywords[k]))
  }

  /** A keyword written anywhere in the title or the summary, in any case, is found. */
  lemma KeywordInTextIsFound(paper: Paper, keywords: seq<string>, k: nat)
    requires k < |keywords|
    requires Contains(Lower(paper.title), Lower(keywords[k])) || Contains(Lower(paper.summary), Lower(keywords[k]))
    ensures ContainsKeywords(paper, keywords)
  {
    var title, summary, keyword := Lower(paper.title), Lower(paper.summary), Lower(keywords[k]);
    assert Lower(SearchText(paper)) == title + " " + summary by {
      LowerConcat(paper.title + " ", paper.summary);
      LowerConcat(paper.title, " ");
      assert Lower(" ") == " ";
    }
    if Contains(title, keyword) {
      ContainsInfix("", title, " " + summary, keyword);
      assert "" + title + (" " + summary) == title + " " + summary;
    } else {
      ContainsInfix(title + " ", summary, "", keyword);
      assert title + " " + summary + "" == title + " " + summary;
    }
  }

  /** The keyword test ignores the case of the keywords. */
  lemma ContainsKeywordsIgnoresKeywordCase(paper: Paper, keywords: seq<string>)
    ensures ContainsKeywords(paper, seq(|keywords|, i requires 0 <= i < |keywords| => Lower(keywords[i])))
         == ContainsKeywords(paper, keywords)
  {
    var lowered := seq(|keywords|, i requires 0 <= i < |keywords| => Lower(keywords[i]));
    forall k | 0 <= k < |keywords|
      ensures Lower(lowered[k]) == Lower(keywords[k])
    {
      LowerIdempotent(keywords[k]);
    }
  }

  /** A paper matches a concatenated keyword list when it matches one of the two parts. */
  lemma ContainsKeywordsAppend(paper: Paper, ks1: seq<string>, ks2: seq<string>)
    ensures ContainsKeywords(paper, ks1 + ks2) <==> ContainsKeywords(paper, ks1) || ContainsKeywords(paper, ks2)
  {
    var text := Lower(SearchText(paper));
    if ContainsKeywords(paper, ks1 + ks2) {
      var k :| 0 <= k < |ks1 + ks2| && Contains(text, Lower((ks1 + ks2)[k]));
      if k < |ks1| {
        assert (ks1 + ks2)[k] == ks1[k];
      } else {
        assert (ks1 + ks2)[k] == ks2[k - |ks1|];
      }
    }
    if ContainsKeywords(paper, ks1) {
      var k :| 0 <= k < |ks1| && Contains(text, Lower(ks1[k]));
      assert (ks1 + ks2)[k] == ks1[k];
    }
    if ContainsKeywords(paper, ks2) {
      var k :| 0 <= k < |ks2| && Contains(text, Lower(ks2[k]));
      assert (ks1 + ks2)[|ks1| + k] == ks2[k];
    }
  }

  /** The condition of the comprehension in `filter_papers`. */
  function Passes(paper: Paper, now: int, maxYearsOld: real, keywords: seq<string>): bool {
    IsRecentPaper(paper, now, maxYearsOld) && (keywords == [] || ContainsKeywords(paper, keywords))
  }

  /** The same condition as a test to filter with. */
  function PassesFn(now: int, maxYearsOld: real, keywords: seq<string>): Paper -> bool {
    (p: Paper) => Passes(p, now, maxYearsOld, keywords)
  }

  /** `filter_papers`: the papers that are recent and, when keywords are given, match one;
      order is kept and nothing is added. */
  function FilterPapers(papers: seq<Paper>, now: int, maxYearsOld: real, keywords: seq<string>): (kept: seq<Paper>)
    ensures IsSubsequence(kept, papers)
    ensures forall p | p in kept :: p in papers
    ensures forall p | p in papers ::
      p in kept <==> IsRecentPaper(p, now, maxYearsOld) && (keywords == [] || ContainsKeywords(p, keywords))
  {
    FilterIsSubsequence(papers, PassesFn(now, maxYearsOld, keywords));
    FilterMembership(papers, PassesFn(now, maxYearsOld, keywords));
    SubsequenceBounds(Filter(papers, PassesFn(now, maxYearsOld, keywords)), papers);
    Filter(papers, PassesFn(now, maxYearsOld, keywords))
  }

  /** The recency test alone, to filter with. */
  function RecentFn(now: int, maxYearsOld: real): Paper -> bool {
    (p: Paper) => IsRecentPaper(p, now, maxYearsOld)
  }

  /** Without keywords, `filter_papers` is the recency filter and nothing else. */
  lemma NoKeywordsFiltersByRecencyOnly(papers: seq<Paper>, now: int, maxYearsOld: real)
    ensures FilterPapers(papers, now, maxYearsOld, []) == Filter(papers, RecentFn(now, maxYearsOld))
  {
    FilterAgree(papers, PassesFn(now, maxYearsOld, []), RecentFn(now, maxYearsOld));
  }

  /** Filtering the filtered list again changes nothing. */
  lemma FilterPapersIdempotent(papers: seq<Paper>, now: int, maxYearsOld: real, keywords: seq<string>)
    ensures FilterPapers(FilterPapers(papers, now, maxYearsOld, keywords), now, maxYearsOld, keywords)
         == FilterPapers(papers, now, maxYearsOld, keywords)
  {
    FilterIdempotent(papers, PassesFn(now, maxYearsOld, keywords));
  }

  // ---------------------------------------------------------------------------
  // Search

  /** The term for one category. */
  function CategoryTerm(category: string): string {
    "cat:" + category
  }

  function CategoryTerms(categories: seq<string>): (terms: seq<string>)
    ensures |terms| == |categories|
    ensures forall i :: 0 <= i < |categories| ==> terms[i] == CategoryTerm(categories[i])
  {
    seq(|categories|, i requires 0 <= i < |categories| => CategoryTerm(categories[i]))
  }

  /** The query of `search_ai_papers`: the category terms joined by `" OR "`, in parentheses. */
  function CategoryQuery(categories: seq<string>): (query: string)
    ensures |query| >= 2 && query[0] == '(' && query[|query| - 1] == ')'
  {
    "(" + Join(" OR ", CategoryTerms(categories)) + ")"
  }

  /** The query names every category. */
  lemma QueryMentionsEveryCategory(categories: seq<string>, i: nat)
    requires i < |categories|
    ensures Contains(CategoryQuery(categories), CategoryTerm(categories[i]))
  {
    var terms := CategoryTerms(categories);
    JoinContainsPart(" OR ", terms, i);
    ContainsInfix("(", Join(" OR ", terms), ")", terms[i]);
  }

  /** For category names without spaces (such as `cs.AI`), the text between the parentheses
      splits on `" OR "` back into exactly one term per category, in the configured order. */
  lemma QueryTermsRoundTrip(categories: seq<string>)
    requires |categories| >= 1
    requires forall i :: 0 <= i < |categories| ==> ' ' !in categories[i]
    ensures var q := CategoryQuery(categories);
      Split(q[1..|q| - 1], " OR ") == CategoryTerms(categories)
  {
    var terms := CategoryTerms(categories);
    var q := CategoryQuery(categories);
    assert q[1..|q| - 1] == Join(" OR ", terms);
    forall k | 0 <= k < |terms|
      ensures " OR "[0] !in terms[k]
    {
      assert terms[k] == "cat:" + categories[k];
    }
    SplitJoin(terms, " OR ");
  }

  datatype SortCriterion = Relevance | LastUpdatedDate | SubmittedDate

  /** An `arxiv.Search` request. */
  datatype Search = Search(query: string, maxResults: int, sortBy: SortCriterion)

  /** The request `search_ai_papers` sends: three times the wanted number of results, newest
      submissions first. */
  function BuildSearch(categories: seq<string>, maxResults: int): (search: Search)
    ensures search.query == CategoryQuery(categories)
    ensures search.maxResults == 3 * maxResults
    ensures search.sortBy == SubmittedDate
  {
    Search(CategoryQuery(categories), maxResults * 3, SubmittedDate)
  }

  /** `search_ai_papers`: one request, its results filtered; any failure gives `[]`. */
  function SearchAiPapers(categories: seq<string>, maxResults: int, maxYearsOld: real, keywords: seq<string>,
                          now: int, fetch: Search -> Option<seq<Paper>>): (papers: seq<Paper>)
    ensures fetch(BuildSearch(categories, maxResults)).None? ==> papers == []
    ensures fetch(BuildSearch(categories, maxResults)).Some? ==>
      papers == FilterPapers(fetch(BuildSearch(categories, maxResults)).value, now, maxYearsOld, keywords)
  {
    match fetch(BuildSearch(categories, maxResults))
    case None => []
    case Some(results) => FilterPapers(results, now, maxYearsOld, keywords)
  }

  /** Every paper the search returns was among the results of the request and passed the filter. */
  lemma SearchResultsComeFromCatalogue(categories: seq<string>, maxResults: int, maxYearsOld: real,
                                       keywords: seq<string>, now: int, fetch: Search -> Option<seq<Paper>>,
                                       p: Paper)
    requires p in SearchAiPapers(categories, maxResults, maxYearsOld, keywords, now, fetch)
    ensures fetch(BuildSearch(categories, maxResults)).Some?
    ensures p in fetch(BuildSearch(categories, maxResults)).value
    ensures Passes(p, now, maxYearsOld, keywords)
  {
  }

  /** `get_random_paper`: `None` when the search finds nothing, otherwise some paper it found
      (`random.choice` is an arbitrary choice here). */
  method GetRandomPaper(categories: seq<string>, maxResults: int, maxYearsOld: real, keywords: seq<string>,
                        now: int, fetch: Search -> Option<seq<Paper>>) returns (paper: Option<Paper>)
    ensures var found := SearchAiPapers(categories, maxResults, maxYearsOld, keywords, now, fetch);
      (paper.None? <==> found == []) && (paper.Some? ==> paper.value in found)
  {
    var papers := SearchAiPapers(categories, maxResults, maxYearsOld, keywords, now, fetch);
    if papers == [] {
      return None;
    }
    assert papers[0] in papers;
    var chosen :| chosen in papers;
    return Some(chosen);
  }
}
