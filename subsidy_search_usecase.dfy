/** `createSubsidySearchUsecase`: run the repository's `search` and summarise what it found.
    The repository call is an input: the entries it resolved with, or what it threw. */
module SubsidySearchUsecase {
  import opened JsString
  import opened SubsidyRepository

  /** What a rejected repository call threw: an `Error` with its message, or any other value. */
  datatype Thrown = ErrorValue(message: string) | OtherValue

  /** How the repository's `search` settled. */
  datatype SearchOutcome = Resolved(subsidies: seq<SubsidyData>) | Rejected(thrown: Thrown)

  const FoundMessage := "使えそうな補助金があります"
  const NotFoundSummary := "関連する補助金は見つかりませんでした。"
  const NotFoundMessage := "該当する補助金はありません"
  const ErrorSummary := "検索中にエラーが発生しました。"
  const UnknownError := "不明なエラー"

  /** The targets of the first three entries (fewer when there are fewer). */
  function LeadingTargets(subsidies: seq<SubsidyData>): (targets: seq<string>)
    ensures |targets| == if |subsidies| < 3 then |subsidies| else 3
    ensures forall k | 0 <= k < |targets| :: targets[k] == subsidies[k].target
  {
    var n := if |subsidies| < 3 then |subsidies| else 3;
    seq(n, k requires 0 <= k < n => subsidies[k].target)
  }

  /** The summary of a non-empty result. */
  function FoundSummary(subsidies: seq<SubsidyData>): string {
    NatToString(|subsidies|) + "件の補助金が見つかりました。主な対象: " + Join(LeadingTargets(subsidies), "、")
  }

  /** The use case's answer to one query, given how the repository call settled. It never
      rejects, and `found` holds exactly when `count` is positive. */
  function SearchSubsidies(outcome: SearchOutcome): (r: SubsidySearchResult)
    ensures r.found <==> r.count > 0
    ensures outcome.Resolved? ==> r.count == |outcome.subsidies|
    ensures outcome.Rejected? ==> r.count == 0
  {
    match outcome
    case Resolved(subsidies) =>
      if |subsidies| > 0 then SubsidySearchResult(true, |subsidies|, FoundSummary(subsidies), FoundMessage)
      else SubsidySearchResult(false, 0, NotFoundSummary, NotFoundMessage)
    case Rejected(thrown) =>
      SubsidySearchResult(false, 0, ErrorSummary,
                          "エラー: " + match thrown case ErrorValue(m) => m case OtherValue => UnknownError)
  }

  /** The first and the last of three pieces occur in their concatenation. */
  lemma OuterPiecesOccur(a: string, m: string, b: string)
    ensures Includes(a + m + b, a) && Includes(a + m + b, b)
  {
    assert a <= (a + m + b)[0..];
    IncludesInConcat(a + m, b, []);
    assert a + m + b + [] == a + m + b;
  }

  /** A non-empty result reports its size, and its summary names the target of each of the
      first three entries. */
  lemma FoundSummaryNamesTargets(subsidies: seq<SubsidyData>, k: nat)
    requires 0 < |subsidies| && k < 3 && k < |subsidies|
    ensures var r := SearchSubsidies(Resolved(subsidies));
            && r.found && r.message == FoundMessage
            && Includes(r.summary, NatToString(|subsidies|))
            && Includes(r.summary, subsidies[k].target)
  {
    var targets := LeadingTargets(subsidies);
    var joined := Join(targets, "、");
    JoinIncludesParts(targets, "、", k);
    OuterPiecesOccur(NatToString(|subsidies|), "件の補助金が見つかりました。主な対象: ", joined);
    IncludesTransitive(FoundSummary(subsidies), joined, subsidies[k].target);
  }

  /** An empty result and a rejected call both report nothing found, with their own texts; a
      rejection's message carries the error's message. */
  lemma NothingFoundTexts(outcome: SearchOutcome)
    requires outcome.Rejected? || outcome.subsidies == []
    ensures var r := SearchSubsidies(outcome);
            && !r.found && r.count == 0
            && (outcome.Resolved? ==> r.summary == NotFoundSummary && r.message == NotFoundMessage)
            && (outcome.Rejected? ==> r.summary == ErrorSummary)
            && (outcome.Rejected? && outcome.thrown.ErrorValue? ==> r.message == "エラー: " + outcome.thrown.message)
  {
  }
}
