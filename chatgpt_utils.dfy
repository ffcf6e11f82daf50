/**
 * `chatgpt_utils.py`: asking the OpenAI chat API for a JSON summary and reading the JSON out of
 * the answer, which may wrap it in a Markdown code fence. The API call and `json.loads` are
 * functions given by the caller; `json.loads` answers `None` when it raises.
 */
module ChatgptUtils {
  import opened Maybe
  import opened Strings
  import opened Papers
  import opened ProviderFailures
  import ChatgptProcessor

  const Fence := "```"
  const JsonFence := "```json"

  /** The part of an already stripped answer that holds the JSON: the part after the first
      `` ```json `` up to the next fence, or else the part between the first two fences (or after
      a lone fence), or else the whole text; stripped in every case. It never contains a fence
      and always occurs in the text. */
  function FencedPart(text: string): (part: string)
    ensures !Contains(part, Fence)
    ensures Contains(text, part)
  {
    if Contains(text, JsonFence) then
      var afterOpen := Split(text, JsonFence)[1];
      var inside := Split(afterOpen, Fence)[0];
      SplitPiecesAvoidSeparator(afterOpen, Fence);
      StripAvoids(inside, Fence);
      SplitPieceOccurs(text, JsonFence, 1);
      SplitPieceOccurs(afterOpen, Fence, 0);
      StripOccurs(inside);
      ContainsTransitive(text, afterOpen, inside);
      ContainsTransitive(text, inside, Strip(inside));
      Strip(inside)
    else if Contains(text, Fence) then
      var inside := Split(text, Fence)[1];
      SplitPiecesAvoidSeparator(text, Fence);
      StripAvoids(inside, Fence);
      SplitPieceOccurs(text, Fence, 1);
      StripOccurs(inside);
      ContainsTransitive(text, inside, Strip(inside));
      Strip(inside)
    else
      assert text[0..|text|] == text;
      assert OccursAt(text, text, 0);
      text
  }

  /** The text handed to `json.loads`: the fenced part of the stripped answer. It never contains
      a fence and always occurs in the stripped answer. */
  function JsonCandidate(response: string): (candidate: string)
    ensures !Contains(candidate, Fence)
    ensures Contains(Strip(response), candidate)
  {
    FencedPart(Strip(response))
  }

  /** Which branch a text takes when it has a `` ```json `` fence. */
  lemma FencedPartOfJsonFence(text: string)
    requires Contains(text, JsonFence)
    ensures FencedPart(text) == Strip(Split(Split(text, JsonFence)[1], Fence)[0])
  {
  }

  /** Which branch a text takes when it has a fence but no `` ```json `` fence. */
  lemma FencedPartOfPlainFence(text: string)
    requires !Contains(text, JsonFence) && Contains(text, Fence)
    ensures FencedPart(text) == Strip(Split(text, Fence)[1])
  {
  }


  /** The text before a closing fence, when it holds no backtick. */
  lemma BeforeClosingFence(body: string)
    requires '`' !in body
    ensures Split(body + Fence, Fence)[0] == body
  {
    assert body + Fence == body + Fence + "";
    SplitAtFirst(body, Fence, "");
  }

  /** A fenced answer starts and ends with a backtick, so stripping keeps it whole. */
  lemma FencedIsStripped(open: string, body: string)
    requires open == Fence || open == JsonFence
    ensures Strip(open + body + Fence) == open + body + Fence
  {
    var t := open + body + Fence;
    assert t[0] == '`' && t[|t| - 1] == '`';
    StripOfTrimmed(t);
  }

  /** The piece after the opening `` ```json `` of a fenced answer. */
  lemma AfterJsonFence(body: string)
    requires '`' !in body
    ensures Contains(JsonFence + body + Fence, JsonFence)
    ensures Split(JsonFence + body + Fence, JsonFence)[1] == body + Fence
  {
    var t := JsonFence + body + Fence;
    assert t[0..7] == JsonFence;
    assert OccursAt(t, JsonFence, 0);
    assert t == "" + JsonFence + (body + Fence);
    SplitAtFirst("", JsonFence, body + Fence);
    NotContainsBeforeShortTail(body, Fence, JsonFence);
  }

  /** The fenced part of a `` ```json `` fenced answer is its body, stripped. */
  lemma JsonFencedPart(body: string)
    requires '`' !in body
    ensures FencedPart(JsonFence + body + Fence) == Strip(body)
  {
    AfterJsonFence(body);
    BeforeClosingFence(body);
    FencedPartOfJsonFence(JsonFence + body + Fence);
  }

  /** An answer fenced as `` ```json ... ``` `` yields its body, stripped. */
  lemma JsonCandidateOfJsonFence(body: string)
    requires '`' !in body
    ensures JsonCandidate(JsonFence + body + Fence) == Strip(body)
  {
    var t := JsonFence + body + Fence;
    var part := Strip(body);
    assert Strip(t) == t by {
      FencedIsStripped(JsonFence, body);
    }
    assert FencedPart(t) == part by {
      JsonFencedPart(body);
    }
    CandidateOfStrippedText(t, part);
  }

  /** A plain opening fence followed by a body that does not start with `json` is no
      `` ```json `` fence, and no `` ```json `` occurs later either. */
  lemma PlainFenceIsNotJsonFence(body: string)
    requires '`' !in body && !StartsWith(body, "json")
    ensures !Contains(Fence + body + Fence, JsonFence)
  {
    var t := Fence + body + Fence;
    forall i | 0 <= i <= |t| - |JsonFence|
      ensures !OccursAt(t, JsonFence, i)
    {
      if i == 0 {
        if |body| < 4 {
          assert t[3 + |body|] == '`';
          MismatchAt(t, JsonFence, 0, 3 + |body|);
        } else {
          StartsWithOccurs(body, "json");
          assert body[..4] != "json";
          var k :| 0 <= k < 4 && body[k] != "json"[k];
          assert t[3 + k] == body[k];
          MismatchAt(t, JsonFence, 0, 3 + k);
        }
      } else if i < 3 {
        MismatchAt(t, JsonFence, i, 3 - i);
      } else {
        assert t[i] == body[i - 3];
        NoOccurrenceAt(t, JsonFence, i);
      }
    }
  }

  /** The piece between the two fences of a plainly fenced answer. */
  lemma BetweenPlainFences(body: string)
    requires '`' !in body
    ensures Contains(Fence + body + Fence, Fence)
    ensures Split(Fence + body + Fence, Fence)[1] == body
  {
    var t := Fence + body + Fence;
    assert t[0..3] == Fence;
    assert OccursAt(t, Fence, 0);
    assert t == "" + Fence + (body + Fence);
    SplitAtFirst("", Fence, body + Fence);
    BeforeClosingFence(body);
  }

  /** The candidate of a stripped answer is its fenced part. */
  lemma CandidateOfStrippedText(text: string, part: string)
    requires Strip(text) == text && FencedPart(text) == part
    ensures JsonCandidate(text) == part
  {
  }

  /** Stripping leaves an already stripped answer as it is, so only the fenced part matters. */
  lemma JsonCandidateOfStripped(text: string)
    requires Strip(text) == text
    ensures JsonCandidate(text) == FencedPart(text)
  {
  }

  /** The plain-fence branch, for any text in which the first fenced piece is `body`. */
  lemma PlainFenceStep(text: string, body: string)
    requires !Contains(text, JsonFence) && Contains(text, Fence)
    requires Split(text, Fence)[1] == body
    ensures FencedPart(text) == Strip(body)
  {
    FencedPartOfPlainFence(text);
  }

  /** The fenced part of a plainly fenced answer is its body, stripped. */
  lemma PlainFencedPart(body: string)
    requires '`' !in body && !StartsWith(body, "json")
    ensures FencedPart(Fence + body + Fence) == Strip(body)
  {
    PlainFenceIsNotJsonFence(body);
    BetweenPlainFences(body);
    PlainFenceStep(Fence + body + Fence, body);
  }

  /** An answer fenced as `` ``` ... ``` `` yields its body, stripped, unless the body starts with
      `json` (which makes the opening fence a `` ```json `` fence). */
  lemma JsonCandidateOfPlainFence(body: string)
    requires '`' !in body && !StartsWith(body, "json")
    ensures JsonCandidate(Fence + body + Fence) == Strip(body)
  {
    PlainFencedPart(body);
    FencedIsStripped(Fence, body);
    JsonCandidateOfStripped(Fence + body + Fence);
  }

  /** An answer without any fence is read whole, stripped. */
  lemma JsonCandidateWithoutFence(response: string)
    requires !Contains(response, Fence)
    ensures JsonCandidate(response) == Strip(response)
  {
    StripAvoids(response, Fence);
    var text := Strip(response);
    if Contains(text, JsonFence) {
      assert JsonFence[0..3] == Fence;
      assert OccursAt(JsonFence, Fence, 0);
      ContainsTransitive(text, JsonFence, Fence);
    }
  }

  /** `process_paper_with_chatgpt`: the parsed JSON of the answer, or `None` when the call or the
      parse raises. */
  function ProcessPaperWithChatgpt(paper: Paper, complete: ChatgptProcessor.PaperPrompt -> Outcome,
                                   parse: string -> Option<PyValue>): (result: Option<PyValue>)
    ensures complete(ChatgptProcessor.PromptFor(paper)).Failure? ==> result.None?
    ensures complete(ChatgptProcessor.PromptFor(paper)).Success? ==>
      result == parse(JsonCandidate(complete(ChatgptProcessor.PromptFor(paper)).text))
  {
    match complete(ChatgptProcessor.PromptFor(paper))
    case Failure(_) => None
    case Success(answer) => parse(JsonCandidate(answer))
  }
}
