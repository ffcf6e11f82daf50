/**
 * `src/paper_formatter.py`: whitespace clean-up, translation with fall-back, and the Slack
 * message for one paper. The translator is a function that answers `None` when it raises; the
 * configuration switches (`translation.enabled`, `chatgpt.use_chatgpt`) are parameters.
 */
module PaperFormatter {
  import opened Maybe
  import opened Strings
  import opened Papers
  import opened SlackBlocks

  /** `clean_text`: the whitespace-separated words joined by single spaces. The result is
      normalized (no whitespace at either end, only single spaces inside) and has exactly the
      words of the input, in order. */
  function CleanText(text: string): (cleaned: string)
    ensures Normalized(cleaned)
    ensures Words(cleaned) == Words(text)
  {
    WordsAreWords(text);
    JoinNormalized(Words(text));
    WordsOfJoin(Words(text));
    Join(" ", Words(text))
  }

  /** Cleaning twice is cleaning once. */
  lemma CleanTextIdempotent(text: string)
    ensures CleanText(CleanText(text)) == CleanText(text)
  {
  }

  /** Text that is already clean is left as it is. */
  lemma CleanTextKeepsCleanText(text: string)
    requires Normalized(text)
    ensures CleanText(text) == text
  {
    NormalizedIsJoinOfWords(text);
  }

  /** `translate_text`: the translation, or the text itself when translation is switched off or
      the translator raises. */
  function TranslateText(text: string, destLang: string, useTranslation: bool,
                         translate: (string, string) -> Option<string>): (translated: string)
    ensures !useTranslation || translate(text, destLang).None? ==> translated == text
    ensures useTranslation && translate(text, destLang).Some? ==> translated == translate(text, destLang).value
  {
    if !useTranslation then text
    else match translate(text, destLang)
      case None => text
      case Some(t) => t
  }

  /** The title and summary the message shows. Both are translated in one `try`: when either
      call raises, both stay as given. */
  function ShownTexts(title: string, summary: string, useTranslation: bool,
                      translate: (string, string) -> Option<string>): (shown: (string, string))
    ensures !useTranslation || translate(title, "ja").None? || translate(summary, "ja").None? ==>
              shown == (title, summary)
    ensures useTranslation && translate(title, "ja").Some? && translate(summary, "ja").Some? ==>
              shown == (translate(title, "ja").value, translate(summary, "ja").value)
  {
    if useTranslation && translate(title, "ja").Some? && translate(summary, "ja").Some? then
      (translate(title, "ja").value, translate(summary, "ja").value)
    else (title, summary)
  }

  /** Without a working translation the message shows the cleaned title and summary, which
      are normalized text. */
  lemma UntranslatedShowsCleanText(paper: Paper, useTranslation: bool, translate: (string, string) -> Option<string>)
    requires !useTranslation || translate(CleanText(paper.title), "ja").None?
    ensures var shown := ShownTexts(CleanText(paper.title), CleanText(paper.summary), useTranslation, translate);
      shown.0 == CleanText(paper.title) && shown.1 == CleanText(paper.summary) && Normalized(shown.0) && Normalized(shown.1)
  {
  }

  /** Whether `format_paper_for_slack` fails: `chatgpt_result.get` raises unless the result is a
      dictionary, and it is only reached when ChatGPT is on and the result is truthy. */
  predicate FormattingFails(result: PyValue, useChatgpt: bool) {
    useChatgpt && Truthy(result) && !result.PyDict?
  }

  /** The three sections that show a ChatGPT result. */
  function ChatgptSections(entries: map<string, string>): (sections: seq<Block>)
    ensures |sections| == 3
  {
    [Section("*ChatGPTによる要約:*\n" + GetOrEmpty(entries, "summary")),
     Section("*重要性:*\n" + GetOrEmpty(entries, "importance")),
     Section("*応用可能性:*\n" + GetOrEmpty(entries, "applications"))]
  }

  /** The link section. */
  function LinkSection(paper: Paper): Block {
    Section("<" + paper.entryId + "|arXivはこちらから>")
  }

  /** `format_paper_for_slack`: a header with the shown title, then either the three ChatGPT
      sections or the shown summary, then the link and a divider. `null` stands for `None`. */
  method FormatPaperForSlack(paper: Paper, useTranslation: bool, useChatgpt: bool,
                             translate: (string, string) -> Option<string>)
    returns (message: SlackMessage?)
    ensures message == null <==> FormattingFails(paper.chatgptResult, useChatgpt)
    ensures message != null ==> fresh(message) && message.blocks.Some?
    ensures message != null ==>
              var blocks := message.blocks.value;
              var shown := ShownTexts(CleanText(paper.title), CleanText(paper.summary), useTranslation, translate);
              && (|blocks| == 6 || |blocks| == 4)
              && blocks[0] == Header(shown.0)
              && blocks[|blocks| - 2] == LinkSection(paper)
              && blocks[|blocks| - 1] == Divider
              && (useChatgpt && Truthy(paper.chatgptResult) ==>
                    |blocks| == 6 && blocks[1..4] == ChatgptSections(paper.chatgptResult.entries))
              && (!(useChatgpt && Truthy(paper.chatgptResult)) ==>
                    |blocks| == 4 && blocks[1] == Section("*概要:*\n" + shown.1))
  {
    var title := CleanText(paper.title);
    var summary := CleanText(paper.summary);
    var shown := ShownTexts(title, summary, useTranslation, translate);
    var translatedTitle, translatedSummary := shown.0, shown.1;
    var blocks := [Header(translatedTitle)];
    var result := paper.chatgptResult;
    if useChatgpt && Truthy(result) {
      if !result.PyDict? {
        return null;
      }
      blocks := blocks + ChatgptSections(result.entries);
    } else {
      blocks := blocks + [Section("*概要:*\n" + translatedSummary)];
    }
    blocks := blocks + [LinkSection(paper), Divider];
    message := new SlackMessage(Some(blocks));
  }
}
