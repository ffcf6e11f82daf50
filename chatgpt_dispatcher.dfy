/**
 * `src/chatGpt/chatgpt_processor.py`, the ChatGPT step the main script runs: it checks the
 * switch and the API key, calls a helper, and stores whatever the helper returns.
 */
module ChatgptDispatcher {
  import opened Maybe
  import opened Papers
  import PaperFormatter

  /** What happens when the helper is imported and called with the paper and the key. */
  datatype HelperCall = ImportFailed | HelperRaised | HelperReturned(value: PyValue)

  /** `config['chatgpt'].get('api_key', os.environ.get('OPENAI_API_KEY', ''))`: a configured key
      wins, even an empty one; the environment is read only when the configuration has none. */
  function EffectiveApiKey(configKey: Option<string>, envKey: Option<string>): (key: string)
    ensures configKey.Some? ==> key == configKey.value
    ensures configKey.None? ==> key == envKey.GetOr("")
  {
    configKey.GetOr(envKey.GetOr(""))
  }

  /** An empty configured key switches ChatGPT off even when the environment holds a key. */
  lemma EmptyConfiguredKeyWins(envKey: Option<string>)
    ensures EffectiveApiKey(Some(""), envKey) == ""
  {
  }

  /** Whether the helper is called at all. */
  predicate Enabled(useChatgpt: bool, configKey: Option<string>, envKey: Option<string>) {
    useChatgpt && EffectiveApiKey(configKey, envKey) != ""
  }

  /** `process_paper_with_chatgpt`: when switched on with a key, the helper's return value is
      stored verbatim (`None` included); a failed import or a raising helper leaves the paper
      untouched. The same paper object is returned. */
  method ProcessPaperWithChatgpt(paper: Paper, useChatgpt: bool, configKey: Option<string>, envKey: Option<string>,
                                 helper: (Paper, string) -> HelperCall)
    returns (result: Paper)
    modifies paper`chatgptResult
    ensures result == paper
    ensures var key := EffectiveApiKey(configKey, envKey);
      Enabled(useChatgpt, configKey, envKey) && helper(paper, key).HelperReturned? ==>
        paper.chatgptResult == helper(paper, key).value
    ensures var key := EffectiveApiKey(configKey, envKey);
      !Enabled(useChatgpt, configKey, envKey) || !helper(paper, key).HelperReturned? ==>
        paper.chatgptResult == old(paper.chatgptResult)
  {
    var apiKey := EffectiveApiKey(configKey, envKey);
    if !useChatgpt || apiKey == "" {
      return paper;
    }
    match helper(paper, apiKey) {
      case ImportFailed =>
      case HelperRaised =>
      case HelperReturned(value) =>
        paper.chatgptResult := value;
    }
    return paper;
  }

  /** The helper of `src/chatGpt/chatgpt_utils.py` returns the stripped answer text; a non-blank
      answer stored this way makes the formatter give up when ChatGPT is on, because a string has
      no `.get`. */
  lemma StoredAnswerBreaksFormatting(answer: string)
    requires answer != ""
    ensures PaperFormatter.FormattingFails(PyStr(answer), true)
  {
  }
}
