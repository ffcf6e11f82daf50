/**
 * `src/gemini_processor.py`: building a PDF digest of a paper (section excerpts, keywords and
 * figure captions under fixed headings) and asking Gemini for a Japanese analysis of it.
 *
 * The PDF download and text extraction are a parameter: the text of every page, or `None` when
 * the download or the parsing raises. The two regular-expression calls are parameters too: a
 * section search answering group 1 of the section pattern for a keyword (or `None`), and
 * `re.findall` with a one-group pattern. The Gemini call is a function from the prompt data to
 * its outcome.
 */
module GeminiProcessor {
  import opened Maybe
  import opened Strings
  import opened Seqs
  import opened Papers
  import opened ProviderFailures
  import PaperFormatter

  /** `re.search` of the section pattern built from a lower-cased keyword, in lower-cased text:
      group 1 of the match, or `None`. */
  type SectionSearch = (string, string) -> Option<string>

  /** `re.findall(pattern, text, re.IGNORECASE)` for a pattern with one group. */
  type FindAll = (string, string) -> seq<string>

  // ---------------------------------------------------------------------------
  // `extract_section`

  const IntroductionKeywords := ["introduction", "1.", "はじめに", "序論"]
  const MethodKeywords := ["method", "approach", "手法", "方法", "methodology"]
  const ResultsKeywords := ["result", "experiment", "実験", "結果", "evaluation"]
  const ConclusionKeywords := ["conclusion", "discussion", "結論", "考察", "まとめ"]

  /** The longest section excerpt kept. */
  const SectionLimit := 500

  /** The section excerpt: the keywords are tried in order and the first one whose pattern matches
      decides, even when its section is empty; the matched section is stripped and cut to 500
      characters. Nothing matching gives `""`. */
  function SectionText(lowered: string, keywords: seq<string>, search: SectionSearch): (section: string)
    ensures |section| <= SectionLimit
    ensures (forall k | 0 <= k < |keywords| :: search(lowered, Lower(keywords[k])).None?) ==> section == ""
    decreases |keywords|
  {
    if keywords == [] then ""
    else match search(lowered, Lower(keywords[0]))
      case Some(group) => Prefix(Strip(group), SectionLimit)
      case None =>
        assert forall k | 0 <= k < |keywords| - 1 :: keywords[1..][k] == keywords[k + 1];
        SectionText(lowered, keywords[1..], search)
  }

  /** The first keyword whose pattern matches gives the excerpt, whatever later keywords match. */
  lemma {:induction false} FirstMatchDecides(lowered: string, keywords: seq<string>, search: SectionSearch, i: nat)
    requires i < |keywords| && search(lowered, Lower(keywords[i])).Some?
    requires forall j | 0 <= j < i :: search(lowered, Lower(keywords[j])).None?
    ensures SectionText(lowered, keywords, search) == Prefix(Strip(search(lowered, Lower(keywords[i])).value), SectionLimit)
    decreases i
  {
    if i > 0 {
      assert keywords[1..][i - 1] == keywords[i];
      forall j | 0 <= j < i - 1
        ensures search(lowered, Lower(keywords[1..][j])).None?
      {
        assert keywords[1..][j] == keywords[j + 1];
      }
      FirstMatchDecides(lowered, keywords[1..], search, i - 1);
    }
  }

  /** `extract_section`: lower-case the text, then try the keywords in order. */
  method ExtractSection(text: string, keywords: seq<string>, search: SectionSearch) returns (section: string)
    ensures section == SectionText(Lower(text), keywords, search)
  {
    var textLower := Lower(text);
    var i := 0;
    while i < |keywords|
      invariant 0 <= i <= |keywords|
      invariant SectionText(textLower, keywords, search) == SectionText(textLower, keywords[i..], search)
    {
      var found := search(textLower, Lower(keywords[i]));
      if found.Some? {
        var sectionText := Strip(found.value);
        section := if sectionText != "" then Prefix(sectionText, SectionLimit) else "";
        return;
      }
      assert keywords[i..][1..] == keywords[i + 1..];
      i := i + 1;
    }
    section := "";
  }

  // ---------------------------------------------------------------------------
  // `extract_keywords`

  const KeywordPatterns := [@"(?:keywords?|キーワード|index terms?)[:\s]*([^\n.]+)", @"(?:terms?|用語)[:\s]*([^\n.]+)"]

  /** The characters of `re.split(r'[,;]', found)`. */
  const TermSeparators: set<char> := {',', ';'}

  /** The most keywords kept. */
  const KeywordLimit := 5

  /** What a keyword taken from a match is: non-empty, stripped, free of separators, and a piece of
      the match. */
  predicate IsTermOf(term: string, found: string) {
    && term != ""
    && !IsSpace(term[0]) && !IsSpace(term[|term| - 1])
    && (forall i | 0 <= i < |term| :: term[i] !in TermSeparators)
    && Contains(found, term)
  }

  /** `[term.strip() for term in pieces if term.strip()]`. */
  function StrippedTerms(pieces: seq<string>): (terms: seq<string>)
    ensures |terms| <= |pieces|
    ensures forall t | t in terms :: t != "" && exists piece | piece in pieces :: t == Strip(piece)
    decreases |pieces|
  {
    if pieces == [] then []
    else
      var init := pieces[..|pieces| - 1];
      var last := pieces[|pieces| - 1];
      var term := Strip(last);
      var rest := StrippedTerms(init);
      assert forall piece | piece in init :: piece in pieces;
      assert last in pieces;
      if term != "" then rest + [term] else rest
  }

  /** A non-empty stripped piece of a match is a term of it. */
  lemma StrippedPieceIsTerm(found: string, piece: string)
    requires piece in SplitOnChars(found, TermSeparators)
    requires Strip(piece) != ""
    ensures IsTermOf(Strip(piece), found)
  {
    var parts := SplitOnChars(found, TermSeparators);
    var k :| 0 <= k < |parts| && parts[k] == piece;
    var term := Strip(piece);
    assert !IsSpace(term[0]) && !IsSpace(term[|term| - 1]) by {
      StripIsMiddle(piece);
    }
    assert forall i | 0 <= i < |term| :: term[i] !in TermSeparators by {
      StripChars(piece);
      assert forall c | c in piece :: c !in TermSeparators;
    }
    assert Contains(found, term) by {
      StripOccurs(piece);
      SplitOnCharsPieceOccurs(found, TermSeparators, k);
      ContainsTransitive(found, piece, term);
    }
  }

  /** The keywords one match contributes: its pieces between commas and semicolons, stripped,
      the empty ones dropped. */
  function TermsOf(found: string): seq<string> {
    StrippedTerms(SplitOnChars(found, TermSeparators))
  }

  /** Every keyword a match contributes is a term of it. */
  lemma TermsOfAreTerms(found: string)
    ensures forall t | t in TermsOf(found) :: IsTermOf(t, found)
  {
    var pieces := SplitOnChars(found, TermSeparators);
    forall t | t in TermsOf(found)
      ensures IsTermOf(t, found)
    {
      var piece :| piece in pieces && t == Strip(piece);
      StrippedPieceIsTerm(found, piece);
    }
  }

  /** The matches of the patterns, pattern by pattern, in order. */
  function PatternMatches(patterns: seq<string>, text: string, findall: FindAll): seq<string>
    decreases |patterns|
  {
    if patterns == [] then []
    else PatternMatches(patterns[..|patterns| - 1], text, findall) + findall(patterns[|patterns| - 1], text)
  }

  /** The keywords of a list of matches, match by match. */
  function KeywordTerms(matches: seq<string>): seq<string>
    decreases |matches|
  {
    if matches == [] then []
    else KeywordTerms(matches[..|matches| - 1]) + TermsOf(matches[|matches| - 1])
  }

  /** Every keyword of a list of matches is a term of one of them. */
  lemma {:induction false} KeywordTermsAreTerms(matches: seq<string>)
    ensures forall t | t in KeywordTerms(matches) :: exists m | m in matches :: IsTermOf(t, m)
    decreases |matches|
  {
    if matches != [] {
      var init := matches[..|matches| - 1];
      var last := matches[|matches| - 1];
      KeywordTermsAreTerms(init);
      TermsOfAreTerms(last);
      assert forall m | m in init :: m in matches;
      assert last in matches;
    }
  }

  /** One match more adds its terms at the end. */
  lemma KeywordTermsSnoc(matches: seq<string>, found: string)
    ensures KeywordTerms(matches + [found]) == KeywordTerms(matches) + TermsOf(found)
  {
    assert (matches + [found])[..|matches|] == matches;
  }

  /** One pattern more adds its matches at the end. */
  lemma PatternMatchesSnoc(patterns: seq<string>, p: nat, text: string, findall: FindAll)
    requires p < |patterns|
    ensures PatternMatches(patterns[..p + 1], text, findall) == PatternMatches(patterns[..p], text, findall) + findall(patterns[p], text)
  {
    assert patterns[..p + 1][..p] == patterns[..p];
  }

  /** The keywords of a text: the terms of every match of every pattern, the first five kept. */
  function TextKeywords(text: string, findall: FindAll): seq<string> {
    Prefix(KeywordTerms(PatternMatches(KeywordPatterns, text, findall)), KeywordLimit)
  }

  /** The inner loop of `extract_keywords`: the terms of each match of one pattern, in order. */
  method ExtendByTerms(collected: seq<string>, ghost prior: seq<string>, matches: seq<string>)
    returns (extended: seq<string>)
    requires collected == KeywordTerms(prior)
    ensures extended == KeywordTerms(prior + matches)
  {
    extended := collected;
    var m := 0;
    ghost var done := prior;
    assert prior + matches[..0] == prior;
    while m < |matches|
      invariant 0 <= m <= |matches|
      invariant done == prior + matches[..m]
      invariant extended == KeywordTerms(done)
    {
      KeywordTermsSnoc(done, matches[m]);
      AppendOneMore(prior, matches, m);
      extended := extended + TermsOf(matches[m]);
      done := done + [matches[m]];
      m := m + 1;
    }
    assert matches[..m] == matches;
  }

  /** Taking one element more of `xs` after `prior` appends that element. */
  lemma AppendOneMore(prior: seq<string>, xs: seq<string>, m: nat)
    requires m < |xs|
    ensures prior + xs[..m + 1] == (prior + xs[..m]) + [xs[m]]
  {
    assert xs[..m + 1] == xs[..m] + [xs[m]];
  }

  /** `extract_keywords`: for each pattern, for each match, extend the list by the stripped
      non-empty pieces; keep the first five. At most five keywords come back, each a term of
      some match. */
  method ExtractKeywords(text: string, findall: FindAll) returns (keywords: seq<string>)
    ensures keywords == TextKeywords(text, findall)
    ensures |keywords| <= KeywordLimit
    ensures forall t | t in keywords :: exists m | m in PatternMatches(KeywordPatterns, text, findall) :: IsTermOf(t, m)
  {
    var collected: seq<string> := [];
    var p := 0;
    while p < |KeywordPatterns|
      invariant 0 <= p <= |KeywordPatterns|
      invariant collected == KeywordTerms(PatternMatches(KeywordPatterns[..p], text, findall))
    {
      var matches := findall(KeywordPatterns[p], text);
      collected := ExtendByTerms(collected, PatternMatches(KeywordPatterns[..p], text, findall), matches);
      PatternMatchesSnoc(KeywordPatterns, p, text, findall);
      p := p + 1;
    }
    assert KeywordPatterns[..p] == KeywordPatterns;
    keywords := Prefix(collected, KeywordLimit);
    assert forall t | t in keywords :: t in collected;
    KeywordTermsAreTerms(PatternMatches(KeywordPatterns, text, findall));
  }

  // ---------------------------------------------------------------------------
  // `extract_figures_and_tables`

  const CaptionPatterns := [@"(?:figure?|fig\.?|図)\s*\d+[:\.]?\s*([^\n]+)", @"(?:table|表)\s*\d+[:\.]?\s*([^\n]+)"]

  /** The most captions kept from one pattern, and in total. */
  const CaptionsPerPattern := 2
  const CaptionLimit := 4

  /** The captions kept from each pattern on its own: the first two of its matches. */
  function CaptionPieces(patterns: seq<string>, text: string, findall: FindAll): seq<seq<string>> {
    seq(|patterns|, i requires 0 <= i < |patterns| => Prefix(findall(patterns[i], text), CaptionsPerPattern))
  }

  /** The first two matches of each pattern, pattern by pattern. */
  function CaptionsFrom(patterns: seq<string>, text: string, findall: FindAll): (captions: seq<string>)
    ensures captions == Flatten(CaptionPieces(patterns, text, findall))
    ensures |captions| <= CaptionsPerPattern * |patterns|
    ensures forall k | 0 <= k < |captions| :: exists i | 0 <= i < |patterns| :: captions[k] in findall(patterns[i], text)
    decreases |patterns|
  {
    if patterns == [] then []
    else
      var init := patterns[..|patterns| - 1];
      var last := patterns[|patterns| - 1];
      var rest := CaptionsFrom(init, text, findall);
      var taken := Prefix(findall(last, text), CaptionsPerPattern);
      assert forall i | 0 <= i < |init| :: init[i] == patterns[i];
      assert CaptionPieces(init, text, findall) == CaptionPieces(patterns, text, findall)[..|patterns| - 1];
      forall k | 0 <= k < |rest| + |taken|
        ensures exists i | 0 <= i < |patterns| :: (rest + taken)[k] in findall(patterns[i], text)
      {
        if k >= |rest| {
          assert (rest + taken)[k] == findall(last, text)[k - |rest|];
          assert (rest + taken)[k] in findall(patterns[|patterns| - 1], text);
        }
      }
      rest + taken
  }

  /** `extract_figures_and_tables`: at most two captions of each pattern, at most four in all. */
  method ExtractFiguresAndTables(text: string, findall: FindAll) returns (captions: seq<string>)
    ensures captions == Prefix(CaptionsFrom(CaptionPatterns, text, findall), CaptionLimit)
    ensures |captions| <= CaptionLimit
  {
    var collected: seq<string> := [];
    var p := 0;
    while p < |CaptionPatterns|
      invariant 0 <= p <= |CaptionPatterns|
      invariant collected == CaptionsFrom(CaptionPatterns[..p], text, findall)
    {
      var matches := findall(CaptionPatterns[p], text);
      assert CaptionPatterns[..p + 1][..p] == CaptionPatterns[..p];
      collected := collected + Prefix(matches, CaptionsPerPattern);
      p := p + 1;
    }
    assert CaptionPatterns[..p] == CaptionPatterns;
    captions := Prefix(collected, CaptionLimit);
  }

  /** With two caption patterns the total cap of four never cuts anything: the captions are the
      first two figure captions followed by the first two table captions. */
  lemma CaptionsAreTwoFiguresThenTwoTables(text: string, findall: FindAll)
    ensures Prefix(CaptionsFrom(CaptionPatterns, text, findall), CaptionLimit)
            == Prefix(findall(CaptionPatterns[0], text), 2) + Prefix(findall(CaptionPatterns[1], text), 2)
  {
    assert CaptionPatterns[..1] == [CaptionPatterns[0]];
    assert [CaptionPatterns[0]][..0] == [];
  }

  // ---------------------------------------------------------------------------
  // `build_structured_content`

  /** The information dictionary of `extract_intelligent_content`; `approach` is its `'method'`
      entry. */
  datatype PaperStructure = PaperStructure(
    totalPages: nat,
    introduction: string,
    approach: string,
    results: string,
    conclusion: string,
    keywords: seq<string>,
    figuresTables: seq<string>)

  /** The header that every digest starts with. */
  function StructureHeader(totalPages: nat): string {
    "=== 論文構造情報 ===\n" + "総ページ数: " + IntToString(totalPages) + "ページ\n\n"
  }

  /** The keyword part, present only when there are keywords. */
  function KeywordsPart(keywords: seq<string>): string {
    if keywords == [] then "" else "=== キーワード ===\n" + Join(", ", keywords) + "\n\n"
  }

  /** A text part under its heading, present only when the text is not empty. */
  function TextPart(heading: string, text: string): string {
    if text == "" then "" else "=== " + heading + " ===\n" + text + "\n\n"
  }

  /** The caption lines, numbered from 1. */
  function NumberedCaptions(captions: seq<string>): (lines: seq<string>)
    ensures |lines| == |captions|
  {
    seq(|captions|, k requires 0 <= k < |captions| => IntToString(k + 1) + ". " + captions[k])
  }

  /** The figure part, present only when there are captions. */
  function FiguresPart(captions: seq<string>): string {
    if captions == [] then "" else "=== 図表情報 ===\n" + Unlines(NumberedCaptions(captions)) + "\n"
  }

  /** The digest: the header, then the present parts in the fixed order keywords, introduction,
      method, results, conclusion, figures. */
  function StructuredContent(info: PaperStructure): string {
    StructureHeader(info.totalPages)
      + KeywordsPart(info.keywords)
      + TextPart("序論・はじめに", info.introduction)
      + TextPart("手法・アプローチ", info.approach)
      + TextPart("実験結果", info.results)
      + TextPart("結論・考察", info.conclusion)
      + FiguresPart(info.figuresTables)
  }

  /** The text parts are the only ones a digest of nothing but text shows, in their order. */
  lemma StructureOfTextOnly(info: PaperStructure)
    requires info.keywords == [] && info.figuresTables == []
    ensures StructuredContent(info) == StructureHeader(info.totalPages)
      + TextPart("序論・はじめに", info.introduction) + TextPart("手法・アプローチ", info.approach)
      + TextPart("実験結果", info.results) + TextPart("結論・考察", info.conclusion)
  {
    var header := StructureHeader(info.totalPages);
    assert KeywordsPart(info.keywords) == "";
    assert FiguresPart(info.figuresTables) == "";
    AppendEmpty(header);
    AppendEmpty(header
      + TextPart("序論・はじめに", info.introduction) + TextPart("手法・アプローチ", info.approach)
      + TextPart("実験結果", info.results) + TextPart("結論・考察", info.conclusion));
  }

  lemma AppendEmpty(s: string)
    ensures s + "" == s
  {
  }

  /** A digest of an empty structure is the header alone. */
  lemma EmptyStructureIsHeader(totalPages: nat)
    ensures StructuredContent(PaperStructure(totalPages, "", "", "", "", [], [])) == StructureHeader(totalPages)
  {
  }

  /** Every digest starts with the header and page count. */
  lemma StructuredContentStartsWithHeader(info: PaperStructure)
    ensures |StructureHeader(info.totalPages)| <= |StructuredContent(info)|
    ensures StructuredContent(info)[..|StructureHeader(info.totalPages)|] == StructureHeader(info.totalPages)
  {
  }

  /** A part shows the text it starts with. */
  lemma PartOccurs(part: string, p: string)
    requires |p| <= |part| && part[..|p|] == p
    ensures Contains(part, p)
  {
    assert part[0..|p|] == p;
    assert OccursAt(part, p, 0);
  }

  /** Present results show up in the digest, under their heading. */
  lemma PresentResultsAppear(info: PaperStructure)
    requires info.results != ""
    ensures Contains(StructuredContent(info), "=== 実験結果 ===\n" + info.results)
  {
    var header := StructureHeader(info.totalPages);
    var a := KeywordsPart(info.keywords);
    var b := TextPart("序論・はじめに", info.introduction);
    var c := TextPart("手法・アプローチ", info.approach);
    var d := TextPart("実験結果", info.results);
    var heading := "=== 実験結果 ===\n";
    var p := heading + info.results;
    assert d == p + "\n\n" by {
      assert "=== " + "実験結果" + " ===\n" == heading;
    }
    PartOccurs(d, p);
    ContainsAfter(header + a + b + c, d, p);
    ContainsBefore(header + a + b + c + d, TextPart("結論・考察", info.conclusion), p);
    ContainsBefore(header + a + b + c + d + TextPart("結論・考察", info.conclusion), FiguresPart(info.figuresTables), p);
  }

  /** Present keywords show up in the digest, comma-separated under their heading. */
  lemma PresentKeywordsAppear(info: PaperStructure)
    requires info.keywords != []
    ensures Contains(StructuredContent(info), "=== キーワード ===\n" + Join(", ", info.keywords))
  {
    var header := StructureHeader(info.totalPages);
    var a := KeywordsPart(info.keywords);
    var b := TextPart("序論・はじめに", info.introduction);
    var c := TextPart("手法・アプローチ", info.approach);
    var d := TextPart("実験結果", info.results);
    var e := TextPart("結論・考察", info.conclusion);
    var p := "=== キーワード ===\n" + Join(", ", info.keywords);
    assert a == p + "\n\n";
    PartOccurs(a, p);
    ContainsAfter(header, a, p);
    ContainsBefore(header + a, b, p);
    ContainsBefore(header + a + b, c, p);
    ContainsBefore(header + a + b + c, d, p);
    ContainsBefore(header + a + b + c + d, e, p);
    ContainsBefore(header + a + b + c + d + e, FiguresPart(info.figuresTables), p);
  }

  /** Line `k` of the figure list is caption `k` numbered `k + 1`: captions come from a pattern
      that stops at a newline, so none holds one. */
  lemma CaptionsNumberedFromOne(captions: seq<string>, k: nat)
    requires forall i | 0 <= i < |captions| :: '\n' !in captions[i]
    requires k < |captions|
    ensures var pieces := Split(Unlines(NumberedCaptions(captions)), "\n");
      |pieces| == |captions| + 1 && pieces[k] == IntToString(k + 1) + ". " + captions[k]
  {
    var lines := NumberedCaptions(captions);
    NumberedLinesAvoidNewline(captions);
    SplitUnlines(lines);
    assert (lines + [""])[k] == lines[k];
  }

  lemma NumberedLinesAvoidNewline(captions: seq<string>)
    requires forall i | 0 <= i < |captions| :: '\n' !in captions[i]
    ensures forall i | 0 <= i < |captions| :: '\n' !in NumberedCaptions(captions)[i]
  {
    forall i | 0 <= i < |captions|
      ensures '\n' !in NumberedCaptions(captions)[i]
    {
      NumberedLineAvoidsNewline(i + 1, captions[i]);
    }
  }

  /** A numbered caption line holds a newline only if its caption does. */
  lemma NumberedLineAvoidsNewline(n: nat, caption: string)
    requires '\n' !in caption
    ensures '\n' !in IntToString(n) + ". " + caption
  {
    var digits := NatToString(n);
    assert forall j | 0 <= j < |digits| :: digits[j] != '\n';
  }

  /** `build_structured_content`, which appends each present part to the content in turn. */
  method BuildStructuredContent(info: PaperStructure) returns (content: string)
    ensures content == StructuredContent(info)
  {
    content := "=== 論文構造情報 ===\n";
    content := content + "総ページ数: " + IntToString(info.totalPages) + "ページ\n\n";
    content := AppendKeywords(content, info.keywords);
    content := AppendTextPart(content, "序論・はじめに", info.introduction);
    content := AppendTextPart(content, "手法・アプローチ", info.approach);
    content := AppendTextPart(content, "実験結果", info.results);
    content := AppendTextPart(content, "結論・考察", info.conclusion);
    content := AppendFigures(content, info.figuresTables);
  }

  /** The keyword step of `build_structured_content`. */
  method AppendKeywords(before: string, keywords: seq<string>) returns (content: string)
    ensures content == before + KeywordsPart(keywords)
  {
    content := before;
    if keywords != [] {
      content := content + "=== キーワード ===\n";
      content := content + Join(", ", keywords) + "\n\n";
    }
  }

  /** One text step of `build_structured_content`. */
  method AppendTextPart(before: string, heading: string, text: string) returns (content: string)
    ensures content == before + TextPart(heading, text)
  {
    content := before;
    if text != "" {
      content := content + "=== " + heading + " ===\n";
      content := content + text + "\n\n";
    }
  }

  /** The figure step of `build_structured_content`. */
  method AppendFigures(before: string, captions: seq<string>) returns (content: string)
    ensures content == before + FiguresPart(captions)
  {
    content := before;
    if captions != [] {
      content := content + "=== 図表情報 ===\n";
      content := AppendCaptions(content, captions);
      content := content + "\n";
      ghost var numbered := Unlines(NumberedCaptions(captions));
      AppendAssoc(before, "=== 図表情報 ===\n", numbered);
      AppendAssoc(before, "=== 図表情報 ===\n" + numbered, "\n");
    }
  }

  /** One caption more adds its numbered line at the end. */
  lemma NumberedCaptionsSnoc(captions: seq<string>, i: nat)
    requires i < |captions|
    ensures NumberedCaptions(captions[..i + 1]) == NumberedCaptions(captions[..i]) + [IntToString(i + 1) + ". " + captions[i]]
  {
  }

  /** The numbering loop of `build_structured_content`: one numbered line per caption. */
  method AppendCaptions(before: string, captions: seq<string>) returns (content: string)
    ensures content == before + Unlines(NumberedCaptions(captions))
  {
    content := before;
    var i := 0;
    while i < |captions|
      invariant 0 <= i <= |captions|
      invariant content == before + Unlines(NumberedCaptions(captions[..i]))
    {
      var line := IntToString(i + 1) + ". " + captions[i];
      ghost var numbered := Unlines(NumberedCaptions(captions[..i]));
      NumberedCaptionsSnoc(captions, i);
      UnlinesSnoc(NumberedCaptions(captions[..i]), line);
      AppendAssoc(before, numbered, line);
      AppendAssoc(before, numbered + line, "\n");
      content := content + line + "\n";
      i := i + 1;
    }
    assert captions[..i] == captions;
  }

  // ---------------------------------------------------------------------------
  // `extract_intelligent_content` and `extract_first_and_last_pages`

  /** The longest digest and the longest first-and-last-page excerpt. */
  const DigestLimit := 6000
  const ExcerptLimit := 4000

  /** The information extracted from the joined page text. */
  function ExtractedInfo(allText: string, totalPages: nat, search: SectionSearch, findall: FindAll): PaperStructure {
    PaperStructure(
      totalPages,
      SectionText(Lower(allText), IntroductionKeywords, search),
      SectionText(Lower(allText), MethodKeywords, search),
      SectionText(Lower(allText), ResultsKeywords, search),
      SectionText(Lower(allText), ConclusionKeywords, search),
      TextKeywords(allText, findall),
      Prefix(CaptionsFrom(CaptionPatterns, allText, findall), CaptionLimit))
  }

  /** The digest of a PDF, cut to 6000 characters; `""` when the PDF cannot be read. */
  function IntelligentContent(pages: Option<seq<string>>, search: SectionSearch, findall: FindAll): (digest: string)
    ensures |digest| <= DigestLimit
    ensures pages.None? ==> digest == ""
    ensures pages.Some? ==> digest == Prefix(StructuredContent(ExtractedInfo(Unlines(pages.value), |pages.value|, search, findall)), DigestLimit)
  {
    match pages
    case None => ""
    case Some(ps) => Prefix(StructuredContent(ExtractedInfo(Unlines(ps), |ps|, search, findall)), DigestLimit)
  }

  /** A readable PDF's digest starts with the header, unless the page count alone would not fit. */
  lemma DigestStartsWithHeader(pages: seq<string>, search: SectionSearch, findall: FindAll)
    requires |StructureHeader(|pages|)| <= DigestLimit
    ensures var header := StructureHeader(|pages|);
      |header| <= |IntelligentContent(Some(pages), search, findall)|
      && IntelligentContent(Some(pages), search, findall)[..|header|] == header
  {
    var content := StructuredContent(ExtractedInfo(Unlines(pages), |pages|, search, findall));
    StructuredContentStartsWithHeader(ExtractedInfo(Unlines(pages), |pages|, search, findall));
    PrefixKeepsStart(content, StructureHeader(|pages|), DigestLimit);
  }

  /** Cutting a text to `n` characters keeps a start no longer than `n`. */
  lemma PrefixKeepsStart(text: string, start: string, n: nat)
    requires |start| <= n && |start| <= |text| && text[..|start|] == start
    ensures |start| <= |Prefix(text, n)| && Prefix(text, n)[..|start|] == start
  {
  }

  /** `extract_intelligent_content`: join the page texts, each followed by a newline, extract the
      parts, build the digest and cut it to 6000 characters. */
  method ExtractIntelligentContent(pages: Option<seq<string>>, search: SectionSearch, findall: FindAll)
    returns (digest: string)
    ensures digest == IntelligentContent(pages, search, findall)
  {
    if pages.None? {
      return "";
    }
    var ps := pages.value;
    var allText := "";
    var i := 0;
    while i < |ps|
      invariant 0 <= i <= |ps|
      invariant allText == Unlines(ps[..i])
    {
      assert ps[..i + 1] == ps[..i] + [ps[i]];
      UnlinesSnoc(ps[..i], ps[i]);
      allText := allText + ps[i] + "\n";
      i := i + 1;
    }
    assert ps[..i] == ps;
    var introduction := ExtractSection(allText, IntroductionKeywords, search);
    var approach := ExtractSection(allText, MethodKeywords, search);
    var results := ExtractSection(allText, ResultsKeywords, search);
    var conclusion := ExtractSection(allText, ConclusionKeywords, search);
    var keywords := ExtractKeywords(allText, findall);
    var figuresTables := ExtractFiguresAndTables(allText, findall);
    var info := PaperStructure(|ps|, introduction, approach, results, conclusion, keywords, figuresTables);
    var content := BuildStructuredContent(info);
    digest := Prefix(content, DigestLimit);
  }

  /** The first page under its heading, then the last page under its heading when there is more
      than one page. */
  function PagesExcerpt(pages: seq<string>): (excerpt: string)
    ensures pages == [] ==> excerpt == ""
  {
    if |pages| > 0 then
      "=== 最初のページ ===\n" + pages[0] + "\n\n" + (if |pages| > 1 then "=== 最後のページ ===\n" + Last(pages) else "")
    else ""
  }

  /** `extract_first_and_last_pages`: the excerpt cut to 4000 characters; `""` when the PDF cannot
      be read or has no pages. */
  function FirstAndLastPages(pages: Option<seq<string>>): (excerpt: string)
    ensures |excerpt| <= ExcerptLimit
    ensures pages.None? || pages.value == [] ==> excerpt == ""
  {
    match pages
    case None => ""
    case Some(ps) => Prefix(PagesExcerpt(ps), ExcerptLimit)
  }

  /** A one-page PDF gives its page once, with no last-page heading. */
  lemma SinglePageIsNotRepeated(page: string)
    ensures PagesExcerpt([page]) == "=== 最初のページ ===\n" + page + "\n\n"
  {
  }

  /** With several pages, the excerpt ends with the last page under its heading. */
  lemma SeveralPagesEndWithLast(pages: seq<string>)
    requires |pages| > 1
    ensures var tail := "=== 最後のページ ===\n" + Last(pages);
      |tail| <= |PagesExcerpt(pages)| && PagesExcerpt(pages)[|PagesExcerpt(pages)| - |tail|..] == tail
  {
  }

  // ---------------------------------------------------------------------------
  // `process_paper_with_gemini`

  /** The data the Gemini prompt is filled with. */
  datatype GeminiPrompt = GeminiPrompt(
    title: string,
    authors: string,
    publishedDate: string,
    categories: string,
    summary: string,
    pdfContent: string)

  /** A comma-joined list, or `不明` (unknown) when it is empty. */
  function ListOrUnknown(items: seq<string>): (text: string)
    ensures items == [] ==> text == "不明"
    ensures items != [] ==> text == Join(", ", items)
  {
    if items != [] then Join(", ", items) else "不明"
  }

  /** The prompt data for a paper: cleaned title and abstract, the authors and categories or
      `不明`, the date as `dateText` renders it (`%Y年%m月%d日`) or `不明`, and the PDF digest. */
  function PromptFor(paper: Paper, dateText: Timestamp -> string, pdfContent: string): (prompt: GeminiPrompt)
    ensures Normalized(prompt.title) && Words(prompt.title) == Words(paper.title)
    ensures Normalized(prompt.summary) && Words(prompt.summary) == Words(paper.summary)
    ensures paper.published.None? ==> prompt.publishedDate == "不明"
    ensures paper.published.Some? ==> prompt.publishedDate == dateText(paper.published.value)
    ensures prompt.authors == ListOrUnknown(paper.authors) && prompt.categories == ListOrUnknown(paper.categories)
    ensures prompt.pdfContent == pdfContent
  {
    GeminiPrompt(
      PaperFormatter.CleanText(paper.title),
      ListOrUnknown(paper.authors),
      match paper.published { case Some(t) => dateText(t) case None => "不明" },
      ListOrUnknown(paper.categories),
      PaperFormatter.CleanText(paper.summary),
      pdfContent)
  }

  /** `process_paper_with_gemini`: without an API key the paper is returned untouched; otherwise the
      digest of its PDF goes into the prompt, and `gemini_result` becomes the answer text or the
      Gemini placeholder for the failure. The same paper object is returned. */
  method ProcessPaperWithGemini(paper: Paper, apiKey: string, pages: Option<seq<string>>,
                                search: SectionSearch, findall: FindAll, dateText: Timestamp -> string,
                                generate: GeminiPrompt -> Outcome)
    returns (result: Paper)
    modifies paper`geminiResult
    ensures result == paper
    ensures apiKey == "" ==> paper.geminiResult == old(paper.geminiResult)
    ensures apiKey != "" ==>
              paper.geminiResult == Some(ResultText("Gemini", generate(PromptFor(paper, dateText, IntelligentContent(pages, search, findall)))))
  {
    if apiKey == "" {
      return paper;
    }
    var pdfContent := ExtractIntelligentContent(pages, search, findall);
    var outcome := generate(PromptFor(paper, dateText, pdfContent));
    match outcome {
      case Success(text) =>
        paper.geminiResult := Some(text);
      case Failure(error) =>
        var kind := Classify(error);
        paper.geminiResult := Some(Placeholder("Gemini", kind));
    }
    return paper;
  }
}
