/**
 * `src/services/notifier.py`: the plain-text notice listing the selected papers. The message is
 * handed to a Slack sender, whose failure is caught and logged; the sending and the logging are
 * not modelled, so the notice is the result.
 */
module Notifier {
  import opened Maybe
  import opened Strings
  import opened Seqs

  /** A selected paper as the notifier reads it: its `'title'` and `'authors'` entries. */
  datatype PaperEntry = PaperEntry(title: string, authors: seq<string>)

  /** The first line of every notice. */
  const Heading := "選別された論文:"

  /** The line for one paper, without its newline. */
  function NoticeLine(paper: PaperEntry): string {
    "- " + paper.title + " by " + Join(", ", paper.authors)
  }

  /** The lines for the papers, in order. */
  function NoticeLines(papers: seq<PaperEntry>): (lines: seq<string>)
    ensures |lines| == |papers|
  {
    seq(|papers|, k requires 0 <= k < |papers| => NoticeLine(papers[k]))
  }

  /** One paper more adds its line at the end. */
  lemma NoticeLinesSnoc(papers: seq<PaperEntry>, i: nat)
    requires i < |papers|
    ensures NoticeLines(papers[..i + 1]) == NoticeLines(papers[..i]) + [NoticeLine(papers[i])]
  {
  }

  /** `notify_selected_papers`: `None` or an empty list returns before anything is built or sent;
      otherwise the notice is the heading line and one line per paper, each ending in a newline. */
  method NotifySelectedPapers(selected: Option<seq<PaperEntry>>) returns (notice: Option<string>)
    ensures selected.None? || selected.value == [] ==> notice.None?
    ensures selected.Some? && selected.value != [] ==>
              notice == Some(Unlines([Heading] + NoticeLines(selected.value)))
  {
    if selected.None? || selected.value == [] {
      return None;
    }
    var papers := selected.value;
    var message := Heading + "\n";
    var i := 0;
    assert [Heading] == [] + [Heading];
    UnlinesSnoc([], Heading);
    while i < |papers|
      invariant 0 <= i <= |papers|
      invariant message == Unlines([Heading] + NoticeLines(papers[..i]))
    {
      var paper := papers[i];
      NoticeLinesSnoc(papers, i);
      AppendAssoc([Heading], NoticeLines(papers[..i]), [NoticeLine(paper)]);
      UnlinesSnoc([Heading] + NoticeLines(papers[..i]), NoticeLine(paper));
      var line := "- " + paper.title + " by " + Join(", ", paper.authors);
      message := message + line + "\n";
      i := i + 1;
    }
    assert papers[..i] == papers;
    return Some(message);
  }

  /** A notice holds the heading line, then exactly one line per paper, in input order, when no
      title or author name holds a newline. */
  lemma OneLinePerPaper(papers: seq<PaperEntry>, k: nat)
    requires forall i | 0 <= i < |papers| :: '\n' !in papers[i].title && forall j | 0 <= j < |papers[i].authors| :: '\n' !in papers[i].authors[j]
    requires k < |papers|
    ensures var pieces := Split(Unlines([Heading] + NoticeLines(papers)), "\n");
      |pieces| == |papers| + 2 && pieces[0] == Heading && pieces[k + 1] == NoticeLine(papers[k])
  {
    var lines := [Heading] + NoticeLines(papers);
    forall i | 0 <= i < |lines|
      ensures '\n' !in lines[i]
    {
      if i > 0 {
        var paper := papers[i - 1];
        JoinAvoidsChar(", ", paper.authors, '\n');
        assert lines[i] == "- " + paper.title + " by " + Join(", ", paper.authors);
      }
    }
    SplitUnlines(lines);
  }

  /** Every notice starts with the heading line. */
  lemma {:induction false} NoticeStartsWithHeading(papers: seq<PaperEntry>)
    ensures var notice := Unlines([Heading] + NoticeLines(papers));
      |Heading| + 1 <= |notice| && notice[..|Heading| + 1] == Heading + "\n"
    decreases |papers|
  {
    if papers != [] {
      var init := papers[..|papers| - 1];
      NoticeStartsWithHeading(init);
      assert NoticeLines(papers) == NoticeLines(init) + [NoticeLine(papers[|papers| - 1])];
      assert [Heading] + NoticeLines(papers) == ([Heading] + NoticeLines(init)) + [NoticeLine(papers[|papers| - 1])];
      UnlinesSnoc([Heading] + NoticeLines(init), NoticeLine(papers[|papers| - 1]));
    } else {
      assert [Heading] == [] + [Heading];
      UnlinesSnoc([], Heading);
    }
  }
}
