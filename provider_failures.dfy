/**
 * What the Gemini and OpenAI processors do with the answer of a language-model call: keep the
 * text of a success, or turn the exception into one of four `※`-marked placeholders chosen by
 * ordered substring rules on the lower-cased error message.
 */
module ProviderFailures {
  import opened Strings

  /** The result of a provider call: the returned text, or the message of the exception raised. */
  datatype Outcome = Success(text: string) | Failure(error: string)

  /** The kinds of failure, in the order the rules test them. */
  datatype FailureKind = RateLimited | PermissionDenied | InvalidKey | OtherError

  predicate MentionsRateLimit(lowered: string) {
    Contains(lowered, "rate limit") || Contains(lowered, "quota") || Contains(lowered, "exceeded")
  }

  predicate MentionsPermission(lowered: string) {
    Contains(lowered, "permission") || Contains(lowered, "access") || Contains(lowered, "unauthorized")
  }

  predicate MentionsInvalidKey(lowered: string) {
    Contains(lowered, "invalid") && Contains(lowered, "api") && Contains(lowered, "key")
  }

  /** The `if`/`elif` chain over `str(e).lower()`. */
  function Classify(error: string): (kind: FailureKind)
    ensures kind == RateLimited <==> MentionsRateLimit(Lower(error))
    ensures kind == PermissionDenied <==> !MentionsRateLimit(Lower(error)) && MentionsPermission(Lower(error))
    ensures kind == InvalidKey <==>
      !MentionsRateLimit(Lower(error)) && !MentionsPermission(Lower(error)) && MentionsInvalidKey(Lower(error))
    ensures kind == OtherError <==>
      !MentionsRateLimit(Lower(error)) && !MentionsPermission(Lower(error)) && !MentionsInvalidKey(Lower(error))
  {
    var lowered := Lower(error);
    if MentionsRateLimit(lowered) then RateLimited
    else if MentionsPermission(lowered) then PermissionDenied
    else if MentionsInvalidKey(lowered) then InvalidKey
    else OtherError
  }

  /** The classification ignores letter case. */
  lemma ClassifyIgnoresCase(error: string)
    ensures Classify(Lower(error)) == Classify(error)
  {
    LowerIdempotent(error);
  }

  /** The position of a kind in the rule order. */
  function Rank(kind: FailureKind): nat {
    match kind
    case RateLimited => 0
    case PermissionDenied => 1
    case InvalidKey => 2
    case OtherError => 3
  }

  /** Whatever a message mentions, a longer message that contains it mentions too. */
  lemma MentionsInLonger(a: string, b: string, c: string, p: string)
    requires Contains(Lower(b), p)
    ensures Contains(Lower(a + b + c), p)
  {
    LowerConcat(a + b, c);
    LowerConcat(a, b);
    ContainsInfix(Lower(a), Lower(b), Lower(c), p);
  }

  /** More text around an error message can only move it to an earlier rule: a rate-limit message
      stays a rate-limit message, whatever else is said with it. */
  lemma ClassifyMonotone(a: string, b: string, c: string)
    ensures Rank(Classify(a + b + c)) <= Rank(Classify(b))
  {
    var lb, lw := Lower(b), Lower(a + b + c);
    AllMentionsInLonger(a, b, c);
    assert MentionsRateLimit(lb) ==> MentionsRateLimit(lw);
    assert MentionsPermission(lb) ==> MentionsPermission(lw);
    assert MentionsInvalidKey(lb) ==> MentionsInvalidKey(lw);
  }

  lemma AllMentionsInLonger(a: string, b: string, c: string)
    ensures forall p | Contains(Lower(b), p) :: Contains(Lower(a + b + c), p)
  {
    forall p | Contains(Lower(b), p)
      ensures Contains(Lower(a + b + c), p)
    {
      MentionsInLonger(a, b, c, p);
    }
  }

  /** The placeholder a processor stores for a failure of the given kind; `provider` is the name
      of the service as the messages spell it. */
  function Placeholder(provider: string, kind: FailureKind): (text: string)
    ensures |text| > 2 && text[..2] == "※ "
  {
    match kind
    case RateLimited => "※ " + provider + " APIの利用制限に達したため、要約を生成できませんでした。"
    case PermissionDenied => "※ " + provider + " APIのアクセス権限エラーが発生したため、要約を生成できませんでした。"
    case InvalidKey => "※ 無効な" + provider + " APIキーのため、要約を生成できませんでした。"
    case OtherError => "※ " + provider + " API処理中にエラーが発生したため、要約を生成できませんでした。"
  }

  /** The two services name themselves `Gemini` and `OpenAI`. */
  predicate KnownProvider(provider: string) {
    provider == "Gemini" || provider == "OpenAI"
  }

  /** The characters that tell the placeholders apart: the third one (the start of the provider's
      name, or the `無` of the invalid-key text) and the eighth after the name (`利`, `ア` or `理`). */
  lemma PlaceholderMarks(provider: string, kind: FailureKind)
    requires provider != []
    ensures var text := Placeholder(provider, kind);
      if kind == InvalidKey then text[2] == '無'
      else
        && text[2] == provider[0] && |provider| + 7 < |text|
        && text[|provider| + 7] == match kind case RateLimited => '利' case PermissionDenied => 'ア' case _ => '理'
  {
    match kind
    case RateLimited =>
    case PermissionDenied =>
    case InvalidKey =>
    case OtherError =>
  }

  /** Different kinds give different placeholders, so the stored text tells the kind. */
  lemma PlaceholdersDistinct(provider: string, k1: FailureKind, k2: FailureKind)
    requires KnownProvider(provider) && k1 != k2
    ensures Placeholder(provider, k1) != Placeholder(provider, k2)
  {
    PlaceholderMarks(provider, k1);
    PlaceholderMarks(provider, k2);
    assert provider[0] != '無';
  }

  /** What a processor stores in the result attribute after the call. */
  function ResultText(provider: string, outcome: Outcome): (text: string)
    ensures outcome.Success? ==> text == outcome.text
    ensures outcome.Failure? ==> text == Placeholder(provider, Classify(outcome.error))
  {
    match outcome
    case Success(t) => t
    case Failure(e) => Placeholder(provider, Classify(e))
  }
}
