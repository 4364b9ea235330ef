/** `createSubsidyDetailsUsecase`: look a subsidy up by id and report whether it was found.
    The repository's `findById` is an input: what it resolved with, or what it threw. */
module SubsidyDetailsUsecase {
  import opened Wrappers
  import opened JsString
  import opened GenerateMessageUsecase

  /** What a rejected `findById` threw: an `Error` with its message, or any other value,
      given here by its `String(...)` form. */
  datatype Thrown = ErrorValue(message: string) | OtherValue(text: string)

  /** How `findById` settled; `Resolved(None)` is the `null` of an unknown id. */
  datatype FindOutcome = Resolved(details: Option<SubsidyDetails>) | Rejected(thrown: Thrown)

  /** `SubsidyDetailsResult`. */
  datatype SubsidyDetailsResult = SubsidyDetailsResult(found: bool, subsidyDetails: Option<SubsidyDetails>, error: Option<string>)

  const FailurePrefix := "補助金詳細情報の取得中にエラーが発生しました: "

  /** The error for an id the repository does not know. */
  function NotFoundError(subsidyId: string): string {
    "ID \"" + subsidyId + "\" に対応する補助金の詳細情報が見つかりません"
  }

  /** The text of a thrown value. */
  function ThrownText(thrown: Thrown): string {
    match thrown
    case ErrorValue(m) => m
    case OtherValue(t) => t
  }

  /** The use case's answer for `subsidyId`. It never rejects; it reports either the details
      or an error, never both. */
  function GetSubsidyDetails(subsidyId: string, outcome: FindOutcome): (r: SubsidyDetailsResult)
    ensures r.found <==> r.subsidyDetails.Some?
    ensures r.found <==> r.error.None?
    ensures r.found <==> outcome.Resolved? && outcome.details.Some?
    ensures r.found ==> r.subsidyDetails == outcome.details
  {
    match outcome
    case Resolved(None) => SubsidyDetailsResult(false, None, Some(NotFoundError(subsidyId)))
    case Resolved(Some(details)) => SubsidyDetailsResult(true, Some(details), None)
    case Rejected(thrown) => SubsidyDetailsResult(false, None, Some(FailurePrefix + ThrownText(thrown)))
  }

  /** An unknown id is named, in quotes, in the error. */
  lemma {:induction false} NotFoundNamesId(subsidyId: string)
    ensures var r := GetSubsidyDetails(subsidyId, Resolved(None));
            !r.found && r.error.Some? && Includes(r.error.value, "\"" + subsidyId + "\"")
  {
    var tail := " に対応する補助金の詳細情報が見つかりません";
    assert NotFoundError(subsidyId) == "ID " + ("\"" + subsidyId + "\"") + tail;
    IncludesInConcat("ID ", "\"" + subsidyId + "\"", tail);
  }

  /** A failed lookup reports the fixed prefix followed by the thrown error's message. */
  lemma FailureKeepsMessage(subsidyId: string, thrown: Thrown)
    ensures var r := GetSubsidyDetails(subsidyId, Rejected(thrown));
            && !r.found && r.error.Some?
            && FailurePrefix <= r.error.value
            && r.error.value[|FailurePrefix|..] == ThrownText(thrown)
  {
  }

  /** The two error texts cannot be confused: the not-found text never starts with the failure
      prefix. */
  lemma ErrorsDistinguishable(subsidyId: string)
    ensures !(FailurePrefix <= NotFoundError(subsidyId))
  {
    assert NotFoundError(subsidyId)[0] == 'I';
  }
}
