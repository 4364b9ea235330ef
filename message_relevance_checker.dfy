/** The relevance gate in front of the subsidy agent: a classifier rates the user's message from
    1 to 5, and messages rated 3 or more are relevant. The classifier call is an oracle: either
    it answers with the (possibly missing) text of its first choice, or it throws. */
module MessageRelevanceChecker {
  import opened Wrappers
  import opened JsString

  /** What the classifier call produced. */
  datatype ClassifierOutcome = Answered(content: Option<string>) | Threw

  /** `{score, isRelevant}`. */
  datatype Relevance = Relevance(score: int, isRelevant: bool)

  const RelevanceThreshold := 3

  /** The verdict when the classifier fails: relevant, so the message is not lost. */
  const FailOpen := Relevance(3, true)

  /** `content?.trim() || '1'`: the trimmed reply, or `"1"` when it is missing or blank. */
  function ScoreText(content: Option<string>): (t: string)
    ensures t != []
    ensures content.Some? && Trim(content.value) != [] ==> t == Trim(content.value)
    ensures content.None? || Trim(content.value) == [] ==> t == "1"
  {
    if content.Some? && Trim(content.value) != [] then Trim(content.value) else "1"
  }

  /** A parsed score outside 1..5, or NaN, counts as 1. */
  function ClampScore(v: NumberValue): (score: int)
    ensures 1 <= score <= 5
    ensures v.Num? && 1 <= v.value <= 5 ==> score == v.value
    ensures !(v.Num? && 1 <= v.value <= 5) ==> score == 1
  {
    if v.NaN? || v.value < 1 || v.value > 5 then 1 else v.value
  }

  /** `checkMessageRelevance` once the classifier has answered or thrown. */
  function CheckMessageRelevance(outcome: ClassifierOutcome): (r: Relevance)
    ensures 1 <= r.score <= 5
    ensures r.isRelevant <==> r.score >= RelevanceThreshold
    ensures outcome.Threw? ==> r == FailOpen
  {
    match outcome
    case Threw => FailOpen
    case Answered(content) =>
      var score := ClampScore(ParseInt(ScoreText(content)));
      Relevance(score, score >= RelevanceThreshold)
  }

  /** The score of a reply, from the text `parseInt` reads. */
  lemma ScoreOfText(content: Option<string>, v: NumberValue)
    requires ParseInt(ScoreText(content)) == v
    ensures CheckMessageRelevance(Answered(content)) == Relevance(ClampScore(v), ClampScore(v) >= RelevanceThreshold)
  {
  }

  /** A reply read as the number `v` scores `v` when it lies in 1..5, and 1 otherwise. */
  lemma ScoreOfNumber(content: Option<string>, v: int)
    requires ParseInt(ScoreText(content)) == Num(v)
    ensures var r := CheckMessageRelevance(Answered(content));
            && r.score == (if 1 <= v <= 5 then v else 1)
            && (r.isRelevant <==> 3 <= v <= 5)
  {
  }

  /** A missing, empty or white-space-only reply scores 1 and is not relevant. */
  lemma BlankReplyIsIrrelevant(content: Option<string>)
    requires content.None? || Trim(content.value) == []
    ensures CheckMessageRelevance(Answered(content)) == Relevance(1, false)
  {
    assert ScoreText(content) == "1";
    ParseSignedNumeral("", 1, "");
    assert "" + (NatToString(1) + "") == "1";
    ScoreOfText(content, Num(1));
  }

  /** The text `parseInt` reads from a reply whose trimmed form starts with a number. */
  lemma NumericReplyParses(content: string, sign: string, n: nat, rest: string)
    requires sign in {"", "+", "-"}
    requires rest == [] || !IsDigit(rest[0])
    requires Trim(content) == sign + (NatToString(n) + rest)
    ensures ParseInt(ScoreText(Some(content))) == Num(if sign == "-" then -(n as int) else n)
  {
    assert ScoreText(Some(content)) == Trim(content);
    TrimStartOfTrimmed(content);
    ParseSignedNumeral(sign, n, rest);
  }

  /** A reply that, once trimmed, starts with a number `n` (optionally signed) not followed by
      another digit is scored `n` when `n` lies in 1..5, and 1 otherwise. */
  lemma NumericReplyScore(content: string, sign: string, n: nat, rest: string)
    requires sign in {"", "+", "-"}
    requires rest == [] || !IsDigit(rest[0])
    requires Trim(content) == sign + (NatToString(n) + rest)
    ensures var r := CheckMessageRelevance(Answered(Some(content)));
            && r.score == (if sign != "-" && 1 <= n <= 5 then n else 1)
            && (r.isRelevant <==> sign != "-" && 3 <= n <= 5)
  {
    var v: int := if sign == "-" then -(n as int) else n;
    NumericReplyParses(content, sign, n, rest);
    ScoreOfNumber(Some(content), v);
  }

  /** A reply without a digit at its start (after an optional sign) scores 1. */
  lemma NonNumericReplyScore(content: string, sign: string, rest: string)
    requires sign in {"", "+", "-"}
    requires rest != [] && !IsDigit(rest[0]) && (sign == "" ==> rest[0] != '+' && rest[0] != '-')
    requires Trim(content) == sign + rest
    ensures CheckMessageRelevance(Answered(Some(content))) == Relevance(1, false)
  {
    assert ScoreText(Some(content)) == Trim(content);
    TrimStartOfTrimmed(content);
    ParseSignedWithoutDigits(sign, rest);
    ScoreOfText(Some(content), NaN);
  }
}
