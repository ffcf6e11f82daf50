/**
 * `src/chatgpt_processor.py`: summarising a paper with the OpenAI chat API. The API key comes from
 * the environment, the call itself is a function from the prompt data to its outcome, and the
 * answer (or a failure placeholder) is written into the paper's `chatgpt_result`.
 */
module ChatgptProcessor {
  import opened Strings
  import opened Papers
  import opened ProviderFailures
  import PaperFormatter

  /** The paper data a prompt is filled with: the title and the abstract, whitespace-normalized. */
  datatype PaperPrompt = PaperPrompt(title: string, summary: string)

  /** The prompt data for a paper: `' '.join(x.split())` of its title and summary. */
  function PromptFor(paper: Paper): (prompt: PaperPrompt)
    ensures Normalized(prompt.title) && Words(prompt.title) == Words(paper.title)
    ensures Normalized(prompt.summary) && Words(prompt.summary) == Words(paper.summary)
  {
    PaperPrompt(PaperFormatter.CleanText(paper.title), PaperFormatter.CleanText(paper.summary))
  }

  /** `process_paper_with_chatgpt`: without an API key the paper is returned untouched; otherwise
      `chatgpt_result` becomes the answer text, or the OpenAI placeholder for the failure. The
      same paper object is returned and no exception escapes. */
  method ProcessPaperWithChatgpt(paper: Paper, apiKey: string, complete: PaperPrompt -> Outcome)
    returns (result: Paper)
    modifies paper`chatgptResult
    ensures result == paper
    ensures apiKey == "" ==> paper.chatgptResult == old(paper.chatgptResult)
    ensures apiKey != "" ==> paper.chatgptResult == PyStr(ResultText("OpenAI", complete(PromptFor(paper))))
  {
    if apiKey == "" {
      return paper;
    }
    var outcome := complete(PromptFor(paper));
    match outcome {
      case Success(content) =>
        paper.chatgptResult := PyStr(content);
      case Failure(error) =>
        var kind := Classify(error);
        paper.chatgptResult := PyStr(Placeholder("OpenAI", kind));
    }
    return paper;
  }

  /** A failure leaves a `※`-marked text, and the formatter cannot show such a string result
      when ChatGPT is switched on: `format_paper_for_slack` then returns `None`. */
  lemma FailureTextBreaksFormatting(error: string)
    ensures var stored := PyStr(ResultText("OpenAI", Failure(error)));
      stored.text[..2] == "※ " && PaperFormatter.FormattingFails(stored, true)
  {
  }
}
