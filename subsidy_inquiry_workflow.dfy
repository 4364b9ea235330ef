/** The two steps of `subsidy-inquiry-workflow`: ask the inquiry agent and keep its streamed
    answer, then format the response. The agent's stream is an input: its text chunks, or the
    error it fails with. */
module SubsidyInquiryWorkflow {
  import opened Wrappers
  import opened JsString

  /** One entry of `results` in the step schema. */
  datatype ResultItem = ResultItem(id: string, name: string, summary: string, keywords: seq<string>, detailId: string)

  /** The output of the search step and the input of the format step. */
  datatype SubsidyResult = SubsidyResult(found: bool, results: seq<ResultItem>, message: string)

  /** The workflow's output. */
  datatype Formatted = Formatted(response: string, found: bool, count: nat)

  const InputDataNotFound := "Input data not found"
  const InquiryAgentNotFound := "Inquiry agent not found"

  const NotFoundText :=
    "申し訳ございませんが、お問い合わせ内容に関連する補助金は見つかりませんでした。\n\n"
    + "以下のような情報をお教えいただけると、より適切な補助金をご案内できる可能性があります：\n"
    + "• 事業の種類や業界\n• 対象となる規模（個人・中小企業・大企業など）\n• 具体的な用途や目的\n• 地域や所在地\n\n"
    + "お気軽に詳細をお聞かせください。"

  /** The search step, once the agent's stream has been read: `found` is always true and
      `results` always empty; the message is the streamed text. */
  function SearchStep(query: Option<string>, agentPresent: bool, stream: Result<seq<string>>): (r: Result<SubsidyResult>)
    ensures r.Success? <==> query.Some? && agentPresent && stream.Success?
    ensures r.Success? ==> r.value.found && r.value.results == [] && r.value.message == Concat(stream.value)
  {
    if query.None? then Failure(InputDataNotFound)
    else if !agentPresent then Failure(InquiryAgentNotFound)
    else match stream
      case Failure(e) => Failure(e)
      case Success(chunks) => Success(SubsidyResult(true, [], Concat(chunks)))
  }

  /** `searchSubsidiesWithAgent`: `responseText += chunk` over the stream. */
  method SearchSubsidiesWithAgent(query: Option<string>, agentPresent: bool, stream: Result<seq<string>>)
    returns (r: Result<SubsidyResult>)
    ensures r == SearchStep(query, agentPresent, stream)
  {
    if query.None? {
      return Failure(InputDataNotFound);
    }
    if !agentPresent {
      return Failure(InquiryAgentNotFound);
    }
    if stream.Failure? {
      return Failure(stream.error);
    }
    var chunks := stream.value;
    var responseText := "";
    for i := 0 to |chunks|
      invariant responseText == Concat(chunks[..i])
    {
      assert chunks[..i + 1][..i] == chunks[..i];
      responseText := responseText + chunks[i];
    }
    assert chunks[..|chunks|] == chunks;
    r := Success(SubsidyResult(true, [], responseText));
  }

  /** `formatResponse`: the agent's message when something was found and listed, the fixed
      not-found text otherwise; `found` passes through and `count` is the number of results. */
  function FormatResponse(input: Option<SubsidyResult>): (r: Result<Formatted>)
    ensures r.Failure? <==> input.None?
    ensures r.Success? ==> r.value.found == input.value.found && r.value.count == |input.value.results|
    ensures r.Success? ==>
              (r.value.response == input.value.message || r.value.response == NotFoundText)
    ensures r.Success? && !(input.value.found && |input.value.results| > 0) ==> r.value.response == NotFoundText
  {
    match input
    case None => Failure(InputDataNotFound)
    case Some(data) =>
      var response := if data.found && |data.results| > 0 then data.message else NotFoundText;
      Success(Formatted(response, data.found, |data.results|))
  }

  /** The two steps in sequence. */
  function Workflow(query: Option<string>, agentPresent: bool, stream: Result<seq<string>>): Result<Formatted> {
    match SearchStep(query, agentPresent, stream)
    case Failure(e) => Failure(e)
    case Success(result) => FormatResponse(Some(result))
  }

  /** Formatting a listed, found result keeps the agent's message. */
  lemma FormatKeepsListedMessage(data: SubsidyResult)
    requires data.found && |data.results| > 0
    ensures FormatResponse(Some(data)) == Success(Formatted(data.message, true, |data.results|))
  {
  }

  /** Because the search step never lists results, every successful run answers with the
      not-found text, `found = true` and `count = 0`, whatever the agent said. */
  lemma WorkflowAlwaysNotFound(query: Option<string>, agentPresent: bool, stream: Result<seq<string>>)
    ensures Workflow(query, agentPresent, stream).Success? <==> query.Some? && agentPresent && stream.Success?
    ensures Workflow(query, agentPresent, stream).Success? ==>
              Workflow(query, agentPresent, stream).value == Formatted(NotFoundText, true, 0)
  {
  }
}
