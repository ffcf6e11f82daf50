/**
 * `src/services/paper_selector.py`: a case-sensitive keyword filter over paper records that
 * carry a title and an abstract.
 */
module PaperSelector {
  import opened Strings
  import opened Seqs

  /** A paper as the selector sees it; `summary` is its `abstract` attribute. */
  datatype PaperRecord = PaperRecord(title: string, summary: string)

  /** The selection criteria; `keywords` is the `'keywords'` entry. */
  datatype Criteria = Criteria(keywords: seq<string>)

  /** `any(keyword in title or keyword in abstract for keyword in keywords)`, scanning the keywords
      in order. True exactly when some keyword occurs, with its case, in the title or the
      abstract. */
  function AnyKeywordIn(title: string, summary: string, keywords: seq<string>): (found: bool)
    ensures found <==> exists k | 0 <= k < |keywords| :: Contains(title, keywords[k]) || Contains(summary, keywords[k])
    decreases |keywords|
  {
    if keywords == [] then false
    else if Contains(title, keywords[0]) || Contains(summary, keywords[0]) then true
    else
      assert forall k | 0 <= k < |keywords| - 1 :: keywords[1..][k] == keywords[k + 1];
      AnyKeywordIn(title, summary, keywords[1..])
  }

  /** `meets_criteria`. */
  predicate MeetsCriteria(paper: PaperRecord, criteria: Criteria) {
    AnyKeywordIn(paper.title, paper.summary, criteria.keywords)
  }

  function MeetsFn(criteria: Criteria): PaperRecord -> bool {
    paper => MeetsCriteria(paper, criteria)
  }

  /** `select_papers`: the papers meeting the criteria, in input order. The result is a subsequence
      of the input and holds exactly the papers that meet the criteria. */
  method SelectPapers(papers: seq<PaperRecord>, criteria: Criteria) returns (selected: seq<PaperRecord>)
    ensures selected == Filter(papers, MeetsFn(criteria))
    ensures IsSubsequence(selected, papers)
    ensures forall p :: p in selected <==> p in papers && MeetsCriteria(p, criteria)
  {
    selected := [];
    var i := 0;
    while i < |papers|
      invariant 0 <= i <= |papers|
      invariant selected == Filter(papers[..i], MeetsFn(criteria))
    {
      FilterSnoc(papers, i, MeetsFn(criteria));
      if MeetsCriteria(papers[i], criteria) {
        selected := selected + [papers[i]];
      }
      i := i + 1;
    }
    assert papers[..i] == papers;
    FilterIsSubsequence(papers, MeetsFn(criteria));
    FilterMembership(papers, MeetsFn(criteria));
  }

  /** No keywords select nothing. */
  lemma NoKeywordsSelectNothing(papers: seq<PaperRecord>)
    ensures Filter(papers, MeetsFn(Criteria([]))) == []
  {
    FilterNone(papers, MeetsFn(Criteria([])));
  }

  /** A paper with a keyword in its title is selected, wherever that keyword is in the list. */
  lemma TitleMatchSelects(papers: seq<PaperRecord>, criteria: Criteria, i: nat, k: nat)
    requires i < |papers| && k < |criteria.keywords|
    requires Contains(papers[i].title, criteria.keywords[k])
    ensures papers[i] in Filter(papers, MeetsFn(criteria))
  {
    FilterMembership(papers, MeetsFn(criteria));
  }

  /** Matching is case-sensitive: when every keyword has an upper-case letter, a paper written
      wholly in lower case is never selected, even when it contains a keyword lower-cased (a
      paper about `gan` is not selected by `GAN`). */
  lemma SelectionIsCaseSensitive(paper: PaperRecord, keywords: seq<string>)
    requires Lower(paper.title) == paper.title && Lower(paper.summary) == paper.summary
    requires forall k | 0 <= k < |keywords| :: HasUpper(keywords[k])
    ensures !MeetsCriteria(paper, Criteria(keywords))
  {
    forall k | 0 <= k < |keywords|
      ensures !Contains(paper.title, keywords[k]) && !Contains(paper.summary, keywords[k])
    {
      LowerTextAvoidsUpper(paper.title, keywords[k]);
      LowerTextAvoidsUpper(paper.summary, keywords[k]);
    }
  }

  /** Whether a string has an upper-case ASCII letter. */
  predicate HasUpper(s: string) {
    exists j | 0 <= j < |s| :: 'A' <= s[j] <= 'Z'
  }

  /** Text that lower-casing leaves unchanged contains no string with an upper-case letter. */
  lemma LowerTextAvoidsUpper(s: string, p: string)
    requires Lower(s) == s && HasUpper(p)
    ensures !Contains(s, p)
  {
    var j :| 0 <= j < |p| && 'A' <= p[j] <= 'Z';
    forall i | 0 <= i <= |s| - |p|
      ensures !OccursAt(s, p, i)
    {
      assert Lower(s)[i + j] == LowerChar(s[i + j]);
      MismatchAt(s, p, i, j);
    }
  }

  /** Selecting again with the same criteria changes nothing. */
  lemma SelectionIdempotent(papers: seq<PaperRecord>, criteria: Criteria)
    ensures Filter(Filter(papers, MeetsFn(criteria)), MeetsFn(criteria)) == Filter(papers, MeetsFn(criteria))
  {
    FilterIdempotent(papers, MeetsFn(criteria));
  }
}
