# AI paper discovery bot — a Dafny model of its filtering and message shaping

The bot searches arXiv for recent AI papers, filters them, optionally asks a language model
(OpenAI or Gemini) to summarise them, and posts Slack Block Kit messages. This project models
the deterministic logic that sits between those services:

- two generations of the paper filter:
  - the script `arxiv_to_slack.py`, which combines recency, case-insensitive keywords and
    Semantic Scholar citation counts under `"or"`/`"and"` logic;
  - `src/arxiv_client.py`, which combines recency and keywords;
- the case-sensitive keyword selector of `src/services/paper_selector.py`;
- the arXiv category query, the search request and the random pick;
- whitespace clean-up, the translation fall-backs, and both Slack message layouts;
- the greeting insertion, done in place;
- the plain-text notice of `src/services/notifier.py`;
- the ordered substring rules that turn a provider exception into one of four `※` placeholders;
- key gating and result storage of both ChatGPT processors, and of the Gemini processor;
- the fenced-JSON extraction of `chatgpt_utils.py`;
- the PDF digest of `src/gemini_processor.py`: section excerpts, keywords, captions, the
  structured text and its size caps.

External services are function-typed parameters. Each answers a value or a failure, and being
a function, it gives the same answer every time it is asked the same question. These services
are the arXiv catalogue, Semantic Scholar, OpenAI, Gemini, the translator, the PDF download and
parser, the regular-expression engine, `strftime` and `json.loads`.

Configuration values are parameters too.

A catalogue entry is the class `Papers.Paper`. Its catalogue data is constant. The attributes
the bot attaches to it in place are mutable fields: `citation_count`, `chatgpt_result` and
`gemini_result`. A `src/`-generation Slack message is the class `SlackBlocks.SlackMessage`,
because the greeting is inserted into it in place.

Where the documented design and the code disagree, the model follows the code:

- Under `"or"` logic, a recent paper with no keyword match is kept only with enough citations.
  With the default settings (no keywords, `"or"`) this means every recent paper needs 10
  citations; the filter does not reduce to recency alone.
- A logic value other than `"or"` or `"and"` (even `"OR"`) filters by citations alone.
- A publication date with a time zone cannot be subtracted from the naive clock reading.
  Such a paper, like one without a date, always counts as recent.
- `src/paper_formatter.py` calls `.get` on the ChatGPT result. Both ChatGPT processors store
  a plain string there. So with ChatGPT switched on, formatting such a paper raises and the
  formatter returns `None` (`PaperFormatter.FormattingFails`).

Files: `maybe.dfy` (Option), `strings.dfy` and `seqs.dfy` (Python string and list built-ins
the code relies on), `papers.dfy`, `slack_blocks.dfy`, one file per modelled source file.

## Model

| member | source | states |
|---|---|---|
| Papers.AgeDays | src/arxiv_client.py:12-14 | the age in days is unavailable exactly when there is no date or the date carries a time zone; otherwise it is the floor of the elapsed seconds over 86400 |
| ArxivClient.IsRecentPaper | src/arxiv_client.py:10-18 | a paper whose age is unavailable is recent; otherwise it is recent iff days ≤ 365 × max years |
| ArxivClient.ContainsKeywords | src/arxiv_client.py:22-23 | an empty keyword list never matches |
| ArxivClient.KeywordInTextIsFound | src/arxiv_client.py:25-26 | a keyword occurring in the title or the summary, whatever the letter case of either, makes the keyword test true |
| ArxivClient.ContainsKeywordsIgnoresKeywordCase | src/arxiv_client.py:26 | lower-casing the keywords does not change the test |
| ArxivClient.ContainsKeywordsAppend | src/arxiv_client.py:26 | matching a concatenated keyword list is matching either part |
| ArxivClient.FilterPapers | src/arxiv_client.py:28-38 | the result is a subsequence of the input; a paper is kept iff it is recent and (no keywords or a keyword matches) |
| ArxivClient.NoKeywordsFiltersByRecencyOnly | src/arxiv_client.py:35 | with no keywords the filter is the recency filter |
| ArxivClient.FilterPapersIdempotent | src/arxiv_client.py:33-36 | filtering twice equals filtering once |
| ArxivClient.CategoryTerms | src/arxiv_client.py:57 | one `cat:` term per category, in order |
| ArxivClient.CategoryQuery | src/arxiv_client.py:60 | the query is parenthesised |
| ArxivClient.QueryMentionsEveryCategory | src/arxiv_client.py:57-60 | every category's term occurs in the query |
| ArxivClient.QueryTermsRoundTrip | src/arxiv_client.py:57-60 | for space-free category names, splitting the inside of the query on " OR " gives back exactly the category terms |
| ArxivClient.BuildSearch | src/arxiv_client.py:64-68 | the request carries the category query, three times the wanted number of results, and newest-first order |
| ArxivClient.SearchAiPapers | src/arxiv_client.py:40-78 | a failed request gives []; otherwise the results of the one request, filtered |
| ArxivClient.SearchResultsComeFromCatalogue | src/arxiv_client.py:70-75 | every returned paper was among the request's results and passed the filter |
| ArxivClient.GetRandomPaper | src/arxiv_client.py:80-88 | None iff the search finds nothing; otherwise one of the papers it found |
| ArxivToSlack.ArxivId | arxiv_to_slack.py:70-72 | the identifier contains neither '/' nor 'v' |
| ArxivToSlack.ArxivIdOfVersionedEntry | arxiv_to_slack.py:70-72 | `…/base` + `v` + version yields `base` |
| ArxivToSlack.ArxivIdOfUnversionedEntry | arxiv_to_slack.py:70-72 | `…/base` without a version yields `base` |
| ArxivToSlack.CitationKeyIgnoresVersion | arxiv_to_slack.py:70-74 | every version of a paper is looked up under the same key `arXiv:base` |
| ArxivToSlack.CitationCount | arxiv_to_slack.py:66-80 | the count the lookup answers, or 0 when it fails or has no count |
| ArxivToSlack.ContainsKeywords | arxiv_to_slack.py:92-101 | the early-return loop agrees with the keyword predicate (false on an empty list) |
| ArxivToSlack.FilterOne | arxiv_to_slack.py:109-133 | for one paper: whether it is kept, whether its citations are requested, and the `citation_count` stored (set on every recent paper, 0 after a keyword shortcut) |
| ArxivToSlack.FilterPapers | arxiv_to_slack.py:103-137 | the kept papers and the looked-up papers are the in-order filters of the input by the per-paper decisions; every paper's `citation_count` is as `FilterOne` sets it, and no other attribute of any paper changes |
| ArxivToSlack.FilterKeepsOnlyRecentPapers | arxiv_to_slack.py:105-112 | the result is a subsequence of the input and every kept paper is recent |
| ArxivToSlack.OrLogicKeeps | arxiv_to_slack.py:116-133 | under "or", a paper is kept iff it is recent and (matches a keyword or has at least the minimum citations) |
| ArxivToSlack.OrLogicKeywordMatchSkipsLookup | arxiv_to_slack.py:116-120 | under "or", a recent keyword-matching paper is kept, stored with count 0, and never looked up |
| ArxivToSlack.AndLogicKeeps | arxiv_to_slack.py:126-129 | under "and", a paper is kept iff it is recent, matches a keyword and has at least the minimum citations |
| ArxivToSlack.OtherLogicKeepsByCitations | arxiv_to_slack.py:130-133 | under any other logic value, a paper is kept iff it is recent and has at least the minimum citations |
| ArxivToSlack.DefaultSettingsNeedCitations | arxiv_to_slack.py:53-56 | with the default settings a paper is kept iff it is recent within 3 years and has at least 10 citations |
| ArxivToSlack.SearchAiPapers | arxiv_to_slack.py:139-171 | a failed request gives [] and changes nothing; otherwise the filtered results cut to `MAX_RESULTS`, and every fetched paper carries the `citation_count` the filter stores (set on the recent ones, untouched on the others) |
| ArxivToSlack.Abbreviate | arxiv_to_slack.py:229 | a summary of at most 300 characters is shown verbatim; a longer one as its first 300 characters and "..." |
| ArxivToSlack.AbbreviateBounds | arxiv_to_slack.py:229 | the shown summary is at most 303 characters and starts like the summary |
| ArxivToSlack.FormatPaperForSlack | arxiv_to_slack.py:173-248 | None iff the paper has no date; otherwise exactly six blocks: title header, authors and categories, date and citation count (0 when unset), summary, links, divider |
| ArxivToSlack.LinkMentionsPdfAndEntry | arxiv_to_slack.py:236 | the link section contains both the PDF URL and the entry URL |
| PaperFormatter.CleanText | src/paper_formatter.py:8-10 | the result has no whitespace at either end and only single spaces inside; its words are those of the input, in order |
| PaperFormatter.CleanTextIdempotent | src/paper_formatter.py:10 | cleaning twice equals cleaning once |
| PaperFormatter.CleanTextKeepsCleanText | src/paper_formatter.py:10 | already clean text is left as it is |
| PaperFormatter.TranslateText | src/paper_formatter.py:12-29 | the input itself when translation is off or the translator raises; otherwise the translation |
| PaperFormatter.ShownTexts | src/paper_formatter.py:43-56 | both texts are translated, or, when translation is off or either call raises, both stay as given |
| PaperFormatter.UntranslatedShowsCleanText | src/paper_formatter.py:39-56 | without a working translation the shown title and summary are the cleaned ones, and they are normalized |
| PaperFormatter.ChatgptSections | src/paper_formatter.py:73-95 | the ChatGPT result gives exactly three sections |
| PaperFormatter.FormatPaperForSlack | src/paper_formatter.py:31-125 | no message iff ChatGPT is on and the result is truthy but not a dictionary; otherwise a header with the shown title, three ChatGPT sections or one summary section, then the link section and a divider: 6 blocks with the ChatGPT sections, 4 with the summary |
| SlackSender.WithGreeting | src/slack_sender.py:40-46 | one block more, the greeting first, the old blocks after it |
| SlackSender.GreetingTwiceAddsTwo | src/slack_sender.py:40 | greeting is not idempotent: a second call adds a second greeting |
| SlackSender.GreetingShiftsBlocks | src/slack_sender.py:40 | every old block moves one position later |
| SlackSender.AddGreetingToMessage | src/slack_sender.py:37-47 | the same object is returned; a message with blocks gets the greeting in front in place; None or a message without blocks is unchanged |
| ProviderFailures.Classify | src/gemini_processor.py:268-285 | each kind holds exactly when its rule is the first that matches the lower-cased message: rate-limit words, else permission words, else all three invalid-key words, else the generic kind |
| ProviderFailures.ClassifyIgnoresCase | src/gemini_processor.py:268 | the classification ignores letter case |
| ProviderFailures.ClassifyMonotone | src/gemini_processor.py:271-283 | more text around an error message can only move it to an earlier rule |
| ProviderFailures.Placeholder | src/gemini_processor.py:274-285 | every placeholder starts with "※ " |
| ProviderFailures.PlaceholdersDistinct | src/chatgpt_processor.py:59-70 | for Gemini and OpenAI, different kinds give different placeholders |
| ProviderFailures.ResultText | src/chatgpt_processor.py:49-70 | the answer text on success, the placeholder of the classified kind on failure |
| ChatgptProcessor.PromptFor | src/chatgpt_processor.py:24-25 | the title and abstract sent are normalized and keep their words |
| ChatgptProcessor.ProcessPaperWithChatgpt | src/chatgpt_processor.py:9-72 | the same paper is returned; without a key `chatgpt_result` is untouched; otherwise it is the answer or the OpenAI placeholder |
| ChatgptProcessor.FailureTextBreaksFormatting | src/chatgpt_processor.py:52-72 | a failure stores a "※ " string, which the ChatGPT-enabled formatter cannot show |
| ChatgptDispatcher.EffectiveApiKey | src/chatGpt/chatgpt_processor.py:14 | a configured key wins, even an empty one; otherwise the environment key or "" |
| ChatgptDispatcher.EmptyConfiguredKeyWins | src/chatGpt/chatgpt_processor.py:14 | an empty configured key disables ChatGPT even when the environment has a key |
| ChatgptDispatcher.ProcessPaperWithChatgpt | src/chatGpt/chatgpt_processor.py:8-39 | the same paper is returned; when switched on with a key and the helper returns, its value is stored verbatim; otherwise `chatgpt_result` is untouched |
| ChatgptDispatcher.StoredAnswerBreaksFormatting | src/chatGpt/chatgpt_processor.py:25-31 | a non-empty answer string stored this way makes the ChatGPT-enabled formatter fail |
| ChatgptUtils.FencedPart | chatgpt_utils.py:45-49 | the extracted part never contains a fence and always occurs in the text |
| ChatgptUtils.JsonCandidate | chatgpt_utils.py:42-49 | the candidate never contains a fence and occurs in the stripped answer |
| ChatgptUtils.JsonCandidateOfJsonFence | chatgpt_utils.py:46-47 | an answer of the form ```` ```json body ``` ```` yields the body, stripped |
| ChatgptUtils.JsonCandidateOfPlainFence | chatgpt_utils.py:48-49 | an answer of the form ```` ``` body ``` ```` yields the body, stripped, whenever the body does not start with `json` |
| ChatgptUtils.JsonCandidateWithoutFence | chatgpt_utils.py:45 | an answer without a fence is read whole, stripped |
| ChatgptUtils.ProcessPaperWithChatgpt | chatgpt_utils.py:5-56 | None when the call fails; otherwise the parse of the fenced candidate, None when the parse fails |
| GeminiProcessor.SectionText | src/gemini_processor.py:59-69 | at most 500 characters; "" when no keyword's pattern matches |
| GeminiProcessor.FirstMatchDecides | src/gemini_processor.py:59-67 | the first keyword in list order whose pattern matches gives the excerpt |
| GeminiProcessor.ExtractSection | src/gemini_processor.py:55-69 | the loop over the keywords agrees with the excerpt definition on the lower-cased text |
| GeminiProcessor.StrippedTerms | src/gemini_processor.py:85 | each kept term is non-empty and the stripped form of one of the pieces |
| GeminiProcessor.TermsOfAreTerms | src/gemini_processor.py:84-85 | every term of a match is non-empty, stripped, free of `,` and `;`, and occurs in the match |
| GeminiProcessor.KeywordTermsAreTerms | src/gemini_processor.py:80-85 | every collected keyword is a term of one of the matches |
| GeminiProcessor.ExtractKeywords | src/gemini_processor.py:71-88 | the nested loop collects the terms of every match of every pattern in order, keeps the first five, each a term of some match |
| GeminiProcessor.CaptionsFrom | src/gemini_processor.py:99-101 | the captions are the first two matches of each pattern (all of them when it has fewer), pattern after pattern; hence at most two per pattern, each one of the matches |
| GeminiProcessor.ExtractFiguresAndTables | src/gemini_processor.py:90-103 | the first two captions of each pattern, in pattern order, at most four in all |
| GeminiProcessor.CaptionsAreTwoFiguresThenTwoTables | src/gemini_processor.py:93-103 | the total cap never cuts anything: two figure captions, then two table captions |
| GeminiProcessor.StructureOfTextOnly | src/gemini_processor.py:114-128 | without keywords and captions only the non-empty text parts follow the header, in the fixed order |
| GeminiProcessor.EmptyStructureIsHeader | src/gemini_processor.py:107-108 | a structure with nothing in it gives the header alone |
| GeminiProcessor.StructuredContentStartsWithHeader | src/gemini_processor.py:107-108 | every digest starts with the header and page count |
| GeminiProcessor.PresentResultsAppear | src/gemini_processor.py:122-124 | present results appear under their heading |
| GeminiProcessor.PresentKeywordsAppear | src/gemini_processor.py:110-112 | present keywords appear comma-separated under their heading |
| GeminiProcessor.NumberedCaptions | src/gemini_processor.py:132-133 | one line per caption |
| GeminiProcessor.CaptionsNumberedFromOne | src/gemini_processor.py:132-133 | line k of the figure list is caption k numbered k + 1 |
| GeminiProcessor.BuildStructuredContent | src/gemini_processor.py:105-136 | the appending steps produce the header followed by the present parts in the order keywords, introduction, method, results, conclusion, figures |
| GeminiProcessor.AppendKeywords | src/gemini_processor.py:110-112 | appends the keyword part only when there are keywords |
| GeminiProcessor.AppendTextPart | src/gemini_processor.py:114-128 | appends a text part only when its text is not empty |
| GeminiProcessor.AppendFigures | src/gemini_processor.py:130-134 | appends the figure part only when there are captions |
| GeminiProcessor.AppendCaptions | src/gemini_processor.py:132-133 | the numbering loop appends one numbered line per caption |
| GeminiProcessor.IntelligentContent | src/gemini_processor.py:13-53 | at most 6000 characters; "" when the PDF cannot be read; otherwise the digest of the joined pages, cut |
| GeminiProcessor.DigestStartsWithHeader | src/gemini_processor.py:46-49 | a readable PDF's digest starts with the header |
| GeminiProcessor.ExtractIntelligentContent | src/gemini_processor.py:13-53 | the page-joining loop and the extraction steps produce the digest |
| GeminiProcessor.PagesExcerpt | src/gemini_processor.py:153-165 | no pages give "" |
| GeminiProcessor.FirstAndLastPages | src/gemini_processor.py:138-172 | at most 4000 characters; "" when the PDF cannot be read or has no pages |
| GeminiProcessor.SinglePageIsNotRepeated | src/gemini_processor.py:155-162 | a one-page PDF shows its page once, with no last-page part |
| GeminiProcessor.SeveralPagesEndWithLast | src/gemini_processor.py:162-165 | with several pages the excerpt ends with the last page under its heading |
| GeminiProcessor.ListOrUnknown | src/gemini_processor.py:191 | the comma-joined list, or 不明 when it is empty |
| GeminiProcessor.PromptFor | src/gemini_processor.py:187-200 | normalized title and abstract keeping their words, authors and categories or 不明, the rendered date or 不明, and the PDF digest |
| GeminiProcessor.ProcessPaperWithGemini | src/gemini_processor.py:174-287 | the same paper is returned; without a key `gemini_result` is untouched; otherwise it is the answer or the Gemini placeholder for the failure |
| PaperSelector.AnyKeywordIn | src/services/paper_selector.py:11 | true iff some keyword occurs, with its case, in the title or the abstract |
| PaperSelector.SelectPapers | src/services/paper_selector.py:1-6 | the loop's result is a subsequence of the input holding exactly the papers that meet the criteria |
| PaperSelector.NoKeywordsSelectNothing | src/services/paper_selector.py:11 | an empty keyword list selects nothing |
| PaperSelector.TitleMatchSelects | src/services/paper_selector.py:11 | a paper with any keyword in its title is selected |
| PaperSelector.SelectionIsCaseSensitive | src/services/paper_selector.py:11 | matching is case-sensitive: keywords that each hold an upper-case letter never select a paper whose title and summary are all lower case, even one containing them lower-cased |
| PaperSelector.SelectionIdempotent | src/services/paper_selector.py:1-11 | selecting again with the same criteria changes nothing |
| Notifier.NoticeLines | src/services/notifier.py:14-15 | one line per paper |
| Notifier.NotifySelectedPapers | src/services/notifier.py:8-15 | None or an empty list gives no notice; otherwise the heading line and one line per paper, each ending in a newline |
| Notifier.OneLinePerPaper | src/services/notifier.py:13-15 | when no title or author holds a newline, the notice splits into the heading and exactly one line per paper, in order |
| Notifier.NoticeStartsWithHeading | src/services/notifier.py:13 | every notice starts with "選別された論文:" and a newline |

## Left out

- Network and SDK calls are function parameters whose results are arbitrary. This covers arXiv, Semantic Scholar, OpenAI, Gemini, googletrans, the Slack webhook and `requests`. Their internals and timeouts are not modelled.
- The PDF download and PyPDF2 become the list of page texts, or `None` when either raises. `total_pages` is the length of that list.
- The regular expressions of `extract_section`, `extract_keywords` and `extract_figures_and_tables` are abstracted, and so is `re.escape`. The section search answers group 1 or `None`, and `findall` answers a list. Only the order, the caps and the splitting around them are modelled.
- `datetime.now()` is an integer clock reading in seconds, and a publication date is seconds plus a time-zone flag. Calendar arithmetic and `strftime` are not modelled; the date text is a function parameter.
- ArxivToSlack.FilterPapers: every external service is modelled as a deterministic function of its request. The source sends a new Semantic Scholar request each time it meets a paper, so a paper object listed twice could get two different answers, and with them two keep decisions; the last answer is the one stored. The stored-count postcondition for a repeated paper depends on the answers being equal. A catalogue result never lists the same object twice.
- ArxivToSlack.CitationCount: a Semantic Scholar record whose `citationCount` is `None` is not modelled; the lookup answers a count or nothing, and nothing counts as 0. In the source (arxiv_to_slack.py:75-76) that `None` is stored on the paper and the comparison with `MIN_CITATIONS` raises `TypeError`, so `search_ai_papers` returns `[]`. `FilterPapers` and `SearchAiPapers` therefore do not cover that failure path.
- ChatgptProcessor.ProcessPaperWithChatgpt: the answer's `message.content` is always modelled as text. The OpenAI SDK may also return `None` there; the source stores that as it is (src/chatgpt_processor.py:49), which leaves `chatgpt_result` falsy, so the formatter shows the summary. That path is not modelled.
- ArxivClient.IsRecentPaper: `days / 365` is compared in exact real arithmetic, not in binary floating point.
- `random.choice` is an arbitrary choice of a member; its uniformity is not modelled.
- Configuration loading is not modelled; every setting is a parameter. That means `src/config_loader.py`, the module-level constants of `arxiv_to_slack.py`, and the `KeyError` a missing `arxiv.categories` would raise. `temperature` and the model names are only passed through, so they are left out.
- `Strings.Lower` lower-cases ASCII letters only. Python's `str.lower` also folds non-ASCII letters.
- The exact prompt texts sent to OpenAI and Gemini, and the system messages, are not modelled. The prompt is modelled as the data it is filled with.
- The `authors` string of `chatgpt_utils.py:10` is computed but never used, so it is left out.
- Logging and `print_with_timestamp` are left out.
- `send_to_slack`, `get_target_date`, `main.py`, `src/main.py` and `scripts/daily_notification.py` are left out: they are orchestration and scheduling loops.
- Notifier.NotifySelectedPapers: the result is the notice text; handing it to the Slack sender, and catching and logging a send failure, are not modelled.
- `src/api/arxiv.py`, `src/api/slack.py`, `src/chatGpt/chatgpt_utils.py` and `src/services/translator.py` are thin wrappers around HTTP or an API and are not part of this model. The dispatcher's helper is a parameter.
- `tests/test_notifier.py` and `tests/test_translator.py` test classes that the code does not define, so they are not part of this model.
- Any object stored in `chatgpt_result` is modelled as `PyValue`: None, a string, a dictionary of string values, or another JSON value of which only its truth matters. A dictionary value that is not a string is not modelled.
- Catalogue fields such as `paper.authors` hold names; `author.name` is not modelled separately.
