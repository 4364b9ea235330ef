/** The handling of one LINE text message: a relevance gate, a call to the inquiry agent that is
    polled until its task leaves the `working` state, the text of the final task, the
    "not found" check, and delivery by reply token with one push fallback; every thrown error
    ends in one error notice. The classifier, the agent and the LINE client are oracles: their
    answers are inputs, and the calls the workflow makes are recorded as a trace of events. */
module LineWebhookWorkflow {
  import opened Wrappers
  import opened MessageRelevanceChecker
  import opened SubsidyResultChecker

  /** One part of the agent's answer; only `text` parts are read. */
  datatype Part = TextPart(text: string) | OtherPart

  /** The modelled fields of an agent task: its id, `status.state` and `status.message?.parts`. */
  datatype AgentTask = AgentTask(id: string, state: string, parts: Option<seq<Part>>)

  const Working := "working"

  /** The webhook input. */
  datatype WebhookInput = WebhookInput(userId: string, messageText: string, replyToken: Option<string>)

  /** What the outside world answers, in call order: the classifier, `sendMessage`, each
      `getTask`, and each LINE call (calls beyond `lineOutcomes` succeed). */
  datatype Oracle = Oracle(
    relevance: ClassifierOutcome,
    sent: Result<AgentTask>,
    polls: seq<Result<AgentTask>>,
    lineOutcomes: seq<Outcome>)

  /** The calls the workflow makes, in order. */
  datatype Event =
    | CheckRelevance
    | SendToAgent(text: string)
    | GetTask(id: string)
    | Reply(token: string, text: string)
    | Push(to: string, text: string)

  predicate IsLineCall(e: Event) {
    e.Reply? || e.Push?
  }

  /** `{success: true, message}` or `{success: false, error}`. */
  datatype WebhookResult = Succeeded(message: string) | Errored(error: string)

  /** A run: the result and the trace of calls. */
  datatype Run = Run(result: WebhookResult, trace: seq<Event>)

  const NotRelevantMessage := "Message not relevant - no response sent"
  const NoSubsidyMessage := "No subsidy found - no response sent"
  const ApologyText := "申し訳ございません。うまく聞き取れませんでした。"
  const ErrorText := "申し訳ございません。現在メッセージを処理できません。"

  /** `input.replyToken` is truthy: present and not empty. */
  predicate HasToken(token: Option<string>) {
    token.Some? && token.value != ""
  }

  /** The outcome of the `k`-th LINE call. */
  function LineOutcome(outcomes: seq<Outcome>, k: nat): Outcome {
    if k < |outcomes| then outcomes[k] else Pass
  }

  // ---------------------------------------------------------------------------------------
  // Polling

  /** The polls answer with a task that is not `working`, or fail, before they run out. */
  predicate Settles(task: AgentTask, polls: seq<Result<AgentTask>>)
    decreases |polls|
  {
    task.state != Working || (|polls| > 0 && (polls[0].Failure? || Settles(polls[0].value, polls[1..])))
  }

  /** The agent task after polling, or the error a `getTask` threw, and the `getTask` calls made. */
  datatype Polled = Polled(final: Result<AgentTask>, trace: seq<Event>)

  /** The `while (task.status.state === "working")` loop, as a function of the poll answers. */
  function PollFrom(task: AgentTask, polls: seq<Result<AgentTask>>): (p: Polled)
    requires Settles(task, polls)
    ensures p.final.Success? ==> p.final.value.state != Working
    ensures |p.trace| <= |polls|
    ensures forall k | 0 <= k < |p.trace| :: p.trace[k].GetTask?
    ensures task.state != Working ==> p == Polled(Success(task), [])
    decreases |polls|
  {
    if task.state != Working then Polled(Success(task), [])
    else
      match polls[0]
      case Failure(e) => Polled(Failure(e), [GetTask(task.id)])
      case Success(next) =>
        var rest := PollFrom(next, polls[1..]);
        Polled(rest.final, [GetTask(task.id)] + rest.trace)
  }

  /** One round of the polling loop on a `working` task. */
  lemma PollStep(task: AgentTask, polls: seq<Result<AgentTask>>)
    requires task.state == Working && Settles(task, polls)
    ensures |polls| > 0
    ensures polls[0].Failure? ==> PollFrom(task, polls) == Polled(Failure(polls[0].error), [GetTask(task.id)])
    ensures polls[0].Success? ==> Settles(polls[0].value, polls[1..])
    ensures polls[0].Success? ==>
              && PollFrom(task, polls).final == PollFrom(polls[0].value, polls[1..]).final
              && PollFrom(task, polls).trace == [GetTask(task.id)] + PollFrom(polls[0].value, polls[1..]).trace
  {
  }

  /** The polling loop: asks for the agent task by the id of the one it holds until it is no longer
      `working`. */
  method PollUntilSettled(task0: AgentTask, polls: seq<Result<AgentTask>>)
    returns (final: Result<AgentTask>, pollTrace: seq<Event>)
    requires Settles(task0, polls)
    ensures Polled(final, pollTrace) == PollFrom(task0, polls)
  {
    var task := task0;
    var rest := polls;
    pollTrace := [];
    while task.state == Working
      invariant Settles(task, rest)
      invariant pollTrace + PollFrom(task, rest).trace == PollFrom(task0, polls).trace
      invariant PollFrom(task, rest).final == PollFrom(task0, polls).final
      decreases |rest|
    {
      PollStep(task, rest);
      var next := rest[0];
      ghost var before := pollTrace;
      pollTrace := pollTrace + [GetTask(task.id)];
      if next.Failure? {
        assert pollTrace == before + PollFrom(task, rest).trace;
        return Failure(next.error), pollTrace;
      }
      assert pollTrace + PollFrom(next.value, rest[1..]).trace == before + PollFrom(task, rest).trace;
      task := next.value;
      rest := rest[1..];
    }
    final := Success(task);
    assert pollTrace + [] == pollTrace;
  }

  // ---------------------------------------------------------------------------------------
  // The answer text

  /** `task.status.message?.parts || []`. */
  function PartsOf(task: AgentTask): seq<Part> {
    if task.parts.Some? then task.parts.value else []
  }

  /** The text parts concatenated in order. */
  function TextOf(parts: seq<Part>): string {
    if parts == [] then ""
    else TextOf(parts[..|parts| - 1]) + (if parts[|parts| - 1].TextPart? then parts[|parts| - 1].text else "")
  }

  /** Concatenation is in part order: the text of two runs of parts is the text of the first
      followed by the text of the second. */
  lemma {:induction false} TextOfAppend(a: seq<Part>, b: seq<Part>)
    ensures TextOf(a + b) == TextOf(a) + TextOf(b)
    decreases |b|
  {
    if b == [] {
      assert a + b == a;
    } else {
      var b0 := b[..|b| - 1];
      assert (a + b)[..|a + b| - 1] == a + b0;
      TextOfAppend(a, b0);
    }
  }

  /** Only text parts contribute: a run without text parts has no text. */
  lemma {:induction false} TextOfWithoutText(parts: seq<Part>)
    requires forall k | 0 <= k < |parts| :: parts[k].OtherPart?
    ensures TextOf(parts) == ""
    decreases |parts|
  {
    if parts != [] {
      TextOfWithoutText(parts[..|parts| - 1]);
    }
  }

  /** The `for (const part of ...)` loop that accumulates `responseText`. */
  method CollectText(parts: seq<Part>) returns (responseText: string)
    ensures responseText == TextOf(parts)
  {
    responseText := "";
    for k := 0 to |parts|
      invariant responseText == TextOf(parts[..k])
    {
      assert parts[..k + 1][..k] == parts[..k];
      if parts[k].TextPart? {
        responseText := responseText + parts[k].text;
      }
    }
    assert parts[..|parts|] == parts;
  }

  /** The text that is checked and sent: the collected text, or the apology when it is empty. */
  function ResponseText(task: AgentTask): (text: string)
    ensures text != ""
    ensures TextOf(PartsOf(task)) != "" ==> text == TextOf(PartsOf(task))
  {
    var t := TextOf(PartsOf(task));
    if t == "" then ApologyText else t
  }

  // ---------------------------------------------------------------------------------------
  // Delivery

  /** The LINE calls of the delivery step and the error that escapes it, if any. */
  datatype Delivery = Delivery(calls: seq<Event>, error: Option<string>)

  /** Reply when there is a token, and push once if the reply throws (a throwing push escapes);
      push directly without a token; send nothing without a client. */
  function Deliver(hasClient: bool, input: WebhookInput, text: string, outcomes: seq<Outcome>): (d: Delivery)
    ensures forall k | 0 <= k < |d.calls| :: IsLineCall(d.calls[k]) && d.calls[k].text == text
    ensures hasClient ==> 1 <= |d.calls| <= 2
    ensures !hasClient ==> d == Delivery([], None)
  {
    if !hasClient then Delivery([], None)
    else if HasToken(input.replyToken) then
      var reply := Reply(input.replyToken.value, text);
      match LineOutcome(outcomes, 0)
      case Pass => Delivery([reply], None)
      case Fail(_) =>
        var push := Push(input.userId, text);
        match LineOutcome(outcomes, 1)
        case Pass => Delivery([reply, push], None)
        case Fail(e) => Delivery([reply, push], Some(e))
    else
      var push := Push(input.userId, text);
      match LineOutcome(outcomes, 0)
      case Pass => Delivery([push], None)
      case Fail(e) => Delivery([push], Some(e))
  }

  /** The error notice of the `catch` block: one reply when there is a token, else one push,
      without fallback; its own failure is swallowed. */
  function ErrorNotice(hasClient: bool, input: WebhookInput): seq<Event> {
    if hasClient then [Notice(input)] else []
  }

  /** The error notice: a reply when there is a token, a push to the user otherwise. */
  function Notice(input: WebhookInput): (e: Event)
    ensures IsLineCall(e) && e.text == ErrorText
  {
    if HasToken(input.replyToken) then Reply(input.replyToken.value, ErrorText)
    else Push(input.userId, ErrorText)
  }

  /** The `catch` block: the notice, then `{success: false, error}`. */
  function Failed(hasClient: bool, input: WebhookInput, trace: seq<Event>, error: string): (r: Run)
    ensures r.result == Errored(error)
    ensures |trace| <= |r.trace| <= |trace| + 1 && r.trace[..|trace|] == trace
    ensures forall k | |trace| <= k < |r.trace| :: IsLineCall(r.trace[k]) && r.trace[k].text == ErrorText
    ensures hasClient <==> |r.trace| == |trace| + 1
    ensures hasClient ==> r.trace[|trace|] == Notice(input)
  {
    Run(Errored(error), trace + ErrorNotice(hasClient, input))
  }

  // ---------------------------------------------------------------------------------------
  // The whole flow

  /** From the settled task on: the text, the "not found" check, and delivery. Only LINE calls
      follow `settled`, and a successful run sent nothing but its own text. */
  function Answer(hasClient: bool, input: WebhookInput, settled: seq<Event>, done: AgentTask,
                  outcomes: seq<Outcome>): (r: Run)
    ensures |settled| <= |r.trace| && r.trace[..|settled|] == settled
    ensures forall k | |settled| <= k < |r.trace| :: IsLineCall(r.trace[k])
    ensures r.result.Succeeded? ==>
              forall k | |settled| <= k < |r.trace| :: IsLineCall(r.trace[k]) && r.trace[k].text == r.result.message
    ensures r.result.Errored? && hasClient ==> |settled| < |r.trace| && r.trace[|r.trace| - 1] == Notice(input)
    ensures !hasClient ==> r.trace == settled
  {
    var text := ResponseText(done);
    if !CheckSubsidyFound(text) then Run(Succeeded(NoSubsidyMessage), settled)
    else
      var d := Deliver(hasClient, input, text, outcomes);
      if d.error.None? then Run(Succeeded(text), settled + d.calls)
      else Failed(hasClient, input, settled + d.calls, d.error.value)
  }

  /** From the agent's first answer on: polling, then the answer. Only `getTask` and LINE calls
      follow `asked`. */
  function AfterSend(hasClient: bool, input: WebhookInput, asked: seq<Event>, task: AgentTask,
                     polls: seq<Result<AgentTask>>, outcomes: seq<Outcome>): (r: Run)
    requires Settles(task, polls)
    ensures |asked| <= |r.trace| && r.trace[..|asked|] == asked
    ensures forall k | |asked| <= k < |r.trace| :: r.trace[k].GetTask? || IsLineCall(r.trace[k])
    ensures r.result.Succeeded? ==>
              forall k | |asked| <= k < |r.trace| :: IsLineCall(r.trace[k]) ==> r.trace[k].text == r.result.message
    ensures r.result.Errored? && hasClient ==> |asked| < |r.trace| && r.trace[|r.trace| - 1] == Notice(input)
    ensures !hasClient ==> forall k | |asked| <= k < |r.trace| :: r.trace[k].GetTask?
  {
    var polled := PollFrom(task, polls);
    var settled := asked + polled.trace;
    var r := match polled.final
      case Failure(e) => Failed(hasClient, input, settled, e)
      case Success(done) => Answer(hasClient, input, settled, done, outcomes);
    PolledCallsFollowAsked(asked, polled.trace, r.trace);
    r
  }

  /** A trace that starts with `asked` and then the polls: the polls sit right after `asked`. */
  lemma PolledCallsFollowAsked(asked: seq<Event>, polls: seq<Event>, trace: seq<Event>)
    requires forall k | 0 <= k < |polls| :: polls[k].GetTask?
    requires |asked + polls| <= |trace| && trace[..|asked + polls|] == asked + polls
    ensures |asked| <= |trace| && trace[..|asked|] == asked
    ensures forall k | |asked| <= k < |asked| + |polls| :: trace[k].GetTask?
  {
    assert trace[..|asked|] == (asked + polls)[..|asked|];
    forall k | |asked| <= k < |asked| + |polls| ensures trace[k].GetTask? {
      assert trace[k] == trace[..|asked + polls|][k] == polls[k - |asked|];
    }
  }

  /** From the relevance check on, for a relevant message: the agent is asked, and the run
      goes on as `AfterSend`, or fails with the error `sendMessage` threw. */
  function AfterCheck(hasClient: bool, input: WebhookInput, oracle: Oracle): (r: Run)
    requires oracle.sent.Success? ==> Settles(oracle.sent.value, oracle.polls)
    ensures |r.trace| >= 2 && r.trace[..2] == [CheckRelevance, SendToAgent(input.messageText)]
    ensures forall k | 2 <= k < |r.trace| :: r.trace[k].GetTask? || IsLineCall(r.trace[k])
    ensures r.result.Succeeded? ==>
              forall k | 0 <= k < |r.trace| :: IsLineCall(r.trace[k]) ==> r.trace[k].text == r.result.message
    ensures r.result.Errored? && hasClient ==> r.trace[|r.trace| - 1] == Notice(input)
    ensures !hasClient ==> forall k | 0 <= k < |r.trace| :: !IsLineCall(r.trace[k])
  {
    var asked := [CheckRelevance, SendToAgent(input.messageText)];
    var r := match oracle.sent
      case Failure(e) => Failed(hasClient, input, asked, e)
      case Success(task) => AfterSend(hasClient, input, asked, task, oracle.polls, oracle.lineOutcomes);
    AskedIsNoLineCall(input.messageText, r.trace);
    r
  }

  /** The first two calls of a relevant run are not LINE calls. */
  lemma AskedIsNoLineCall(messageText: string, trace: seq<Event>)
    requires |trace| >= 2 && trace[..2] == [CheckRelevance, SendToAgent(messageText)]
    ensures trace[0] == CheckRelevance && trace[1] == SendToAgent(messageText)
  {
    assert trace[0] == trace[..2][0] && trace[1] == trace[..2][1];
  }

  /** What `handleLineWebhook` does, as a function of the oracle answers. */
  function Webhook(hasClient: bool, input: WebhookInput, oracle: Oracle): Run
    requires oracle.sent.Success? ==> Settles(oracle.sent.value, oracle.polls)
  {
    if !CheckMessageRelevance(oracle.relevance).isRelevant then
      Run(Succeeded(NotRelevantMessage), [CheckRelevance])
    else AfterCheck(hasClient, input, oracle)
  }

  /** The steps after the agent answered with a settled task: collect the text, fall back to
      the apology, check it, and deliver it. */
  method Respond(hasClient: bool, input: WebhookInput, settled: seq<Event>, done: AgentTask,
                 outcomes: seq<Outcome>) returns (run: Run)
    ensures run == Answer(hasClient, input, settled, done, outcomes)
  {
    var responseText := CollectText(PartsOf(done));
    if responseText == "" {
      responseText := ApologyText;
    }
    if !CheckSubsidyFound(responseText) {
      return Run(Succeeded(NoSubsidyMessage), settled);
    }
    var d := Deliver(hasClient, input, responseText, outcomes);
    if d.error.Some? {
      return Failed(hasClient, input, settled + d.calls, d.error.value);
    }
    run := Run(Succeeded(responseText), settled + d.calls);
  }

  /** `handleLineWebhook`. The poll answers must settle: an agent that stays `working` forever
      keeps the source polling forever. */
  method HandleLineWebhook(hasClient: bool, input: WebhookInput, oracle: Oracle) returns (run: Run)
    requires oracle.sent.Success? ==> Settles(oracle.sent.value, oracle.polls)
    ensures run == Webhook(hasClient, input, oracle)
  {
    var relevance := CheckMessageRelevance(oracle.relevance);
    if !relevance.isRelevant {
      return Run(Succeeded(NotRelevantMessage), [CheckRelevance]);
    }
    var asked := [CheckRelevance, SendToAgent(input.messageText)];
    if oracle.sent.Failure? {
      return Failed(hasClient, input, asked, oracle.sent.error);
    }
    var final, pollTrace := PollUntilSettled(oracle.sent.value, oracle.polls);
    var settled := asked + pollTrace;
    if final.Failure? {
      return Failed(hasClient, input, settled, final.error);
    }
    run := Respond(hasClient, input, settled, final.value, oracle.lineOutcomes);
  }

  // ---------------------------------------------------------------------------------------
  // Properties

  /** An irrelevant message is answered with success, and neither the agent nor LINE is
      called. */
  lemma IrrelevantMessageSkipsEverything(hasClient: bool, input: WebhookInput, oracle: Oracle)
    requires oracle.sent.Success? ==> Settles(oracle.sent.value, oracle.polls)
    requires !CheckMessageRelevance(oracle.relevance).isRelevant
    ensures Webhook(hasClient, input, oracle) == Run(Succeeded(NotRelevantMessage), [CheckRelevance])
  {
  }

  /** The relevance check is the first call and is made once; the agent is called exactly when
      the message is relevant, right after the check, and after that only `getTask` and LINE
      are called. */
  lemma RelevanceCheckedFirst(hasClient: bool, input: WebhookInput, oracle: Oracle)
    requires oracle.sent.Success? ==> Settles(oracle.sent.value, oracle.polls)
    ensures var t := Webhook(hasClient, input, oracle).trace;
            && |t| >= 1 && t[0] == CheckRelevance
            && (CheckMessageRelevance(oracle.relevance).isRelevant <==> |t| >= 2 && t[1] == SendToAgent(input.messageText))
            && (forall k | 2 <= k < |t| :: t[k].GetTask? || IsLineCall(t[k]))
  {
    if CheckMessageRelevance(oracle.relevance).isRelevant {
      var t := AfterCheck(hasClient, input, oracle).trace;
      assert t[0] == t[..2][0] && t[1] == t[..2][1];
    }
  }

  /** A run that reaches the text never holds a `working` task: the text is read from the
      settled task. */
  lemma PollingEndsSettled(task: AgentTask, polls: seq<Result<AgentTask>>)
    requires Settles(task, polls)
    ensures PollFrom(task, polls).final.Success? ==> PollFrom(task, polls).final.value.state != Working
    ensures task.state != Working ==> PollFrom(task, polls).trace == []
    ensures task.state == Working ==> |PollFrom(task, polls).trace| >= 1
  {
  }

  /** When the answer holds no text, the apology is what is checked and sent. */
  lemma EmptyAnswerBecomesApology(task: AgentTask)
    requires TextOf(PartsOf(task)) == ""
    ensures ResponseText(task) == ApologyText
  {
  }

  /** A "not found" answer ends the run after polling, with success. */
  lemma NotFoundEndsAfterPolling(hasClient: bool, input: WebhookInput, oracle: Oracle)
    requires oracle.sent.Success? && Settles(oracle.sent.value, oracle.polls)
    requires PollFrom(oracle.sent.value, oracle.polls).final.Success?
    requires !CheckSubsidyFound(ResponseText(PollFrom(oracle.sent.value, oracle.polls).final.value))
    ensures AfterCheck(hasClient, input, oracle)
            == Run(Succeeded(NoSubsidyMessage),
                   [CheckRelevance, SendToAgent(input.messageText)] + PollFrom(oracle.sent.value, oracle.polls).trace)
  {
    var polled := PollFrom(oracle.sent.value, oracle.polls);
    var settled := [CheckRelevance, SendToAgent(input.messageText)] + polled.trace;
    assert Answer(hasClient, input, settled, polled.final.value, oracle.lineOutcomes)
        == Run(Succeeded(NoSubsidyMessage), settled);
  }

  /** A "not found" answer is reported as success and nothing is sent to LINE. */
  lemma NotFoundSendsNothing(hasClient: bool, input: WebhookInput, oracle: Oracle)
    requires oracle.sent.Success? && Settles(oracle.sent.value, oracle.polls)
    requires CheckMessageRelevance(oracle.relevance).isRelevant
    requires PollFrom(oracle.sent.value, oracle.polls).final.Success?
    requires !CheckSubsidyFound(ResponseText(PollFrom(oracle.sent.value, oracle.polls).final.value))
    ensures Webhook(hasClient, input, oracle).result == Succeeded(NoSubsidyMessage)
    ensures forall e | e in Webhook(hasClient, input, oracle).trace :: !IsLineCall(e)
  {
    NotFoundEndsAfterPolling(hasClient, input, oracle);
    AskedAndPolledSendNothing(input.messageText, PollFrom(oracle.sent.value, oracle.polls).trace);
  }

  /** The calls up to the end of polling include no LINE call. */
  lemma AskedAndPolledSendNothing(messageText: string, polls: seq<Event>)
    requires forall k | 0 <= k < |polls| :: polls[k].GetTask?
    ensures forall e | e in [CheckRelevance, SendToAgent(messageText)] + polls :: !IsLineCall(e)
  {
    var settled := [CheckRelevance, SendToAgent(messageText)] + polls;
    forall e | e in settled ensures !IsLineCall(e) {
      var k :| 0 <= k < |settled| && settled[k] == e;
      if k >= 2 {
        assert e == polls[k - 2];
      }
    }
  }

  /** Delivery with a client and a token replies first, pushes the same text to the user only
      when the reply failed, and never makes more than these two calls; without a token it
      pushes once; without a client it sends nothing. */
  lemma DeliveryOrder(hasClient: bool, input: WebhookInput, text: string, outcomes: seq<Outcome>)
    ensures var d := Deliver(hasClient, input, text, outcomes);
            && (!hasClient ==> d == Delivery([], None))
            && (hasClient && HasToken(input.replyToken) ==>
                  && 1 <= |d.calls| <= 2 && d.calls[0] == Reply(input.replyToken.value, text)
                  && (|d.calls| == 2 <==> LineOutcome(outcomes, 0).Fail?)
                  && (|d.calls| == 2 ==> d.calls[1] == Push(input.userId, text)))
            && (hasClient && !HasToken(input.replyToken) ==> d.calls == [Push(input.userId, text)])
            && (d.error.Some? ==> hasClient && LineOutcome(outcomes, |d.calls| - 1).Fail?)
  {
  }

  /** A delivered answer is reported with the text that was sent, and every LINE call of the
      run carries that text. */
  lemma DeliveredRunCarriesText(hasClient: bool, input: WebhookInput, oracle: Oracle)
    requires oracle.sent.Success? ==> Settles(oracle.sent.value, oracle.polls)
    requires Webhook(hasClient, input, oracle).result.Succeeded?
    ensures var run := Webhook(hasClient, input, oracle);
            forall e | e in run.trace && IsLineCall(e) :: e.text == run.result.message
  {
    if CheckMessageRelevance(oracle.relevance).isRelevant {
      var run := AfterCheck(hasClient, input, oracle);
      forall e | e in run.trace && IsLineCall(e) ensures e.text == run.result.message {
        var k :| 0 <= k < |run.trace| && run.trace[k] == e;
      }
    }
  }

  /** A failed run ends with exactly one error notice when there is a client (reply when there
      is a token, push otherwise), and sends nothing to LINE without a client. */
  lemma FailedRunSendsOneNotice(hasClient: bool, input: WebhookInput, oracle: Oracle)
    requires oracle.sent.Success? ==> Settles(oracle.sent.value, oracle.polls)
    requires Webhook(hasClient, input, oracle).result.Errored?
    ensures var t := Webhook(hasClient, input, oracle).trace;
            && (!hasClient ==> forall e | e in t :: !IsLineCall(e))
            && (hasClient && HasToken(input.replyToken) ==> t[|t| - 1] == Reply(input.replyToken.value, ErrorText))
            && (hasClient && !HasToken(input.replyToken) ==> t[|t| - 1] == Push(input.userId, ErrorText))
  {
    var t := AfterCheck(hasClient, input, oracle).trace;
    if !hasClient {
      forall e | e in t ensures !IsLineCall(e) {
        var k :| 0 <= k < |t| && t[k] == e;
      }
    }
  }
}
