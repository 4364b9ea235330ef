/** The earlier keyword bot: each user is `waiting` or `chatting` (collection `users`), postbacks
    start and end a chat, end keywords reset the user to `waiting`, and while chatting the bot
    answers from a fixed table of four subsidy keywords. Store calls and the LINE reply take
    fault oracles; the current time is a parameter. */
module KeywordBot {
  import opened Wrappers
  import opened JsString

  // ---------------------------------------------------------------------------------------
  // The keyword table and the answer text

  /** One entry of `subsidyDatabase`. */
  datatype SubsidyEntry = SubsidyEntry(name: string, amount: string, condition: string, note: string)

  /** `subsidyDatabase`, in the order of `Object.keys`. */
  const SubsidyDatabase: seq<(string, SubsidyEntry)> := [
    ("生ゴミ処理機", SubsidyEntry("生ごみ処理機購入補助金", "購入費の1/2（上限3万円）", "多くの自治体で実施中",
                                "お住まいの市区町村役場で詳細をご確認ください")),
    ("太陽光", SubsidyEntry("太陽光発電設備導入補助金", "1kWあたり2-4万円", "住宅用太陽光発電システム",
                           "自治体により条件が異なります")),
    ("省エネ", SubsidyEntry("省エネリフォーム補助金", "工事費の10-30%", "断熱改修、高効率設備導入等",
                           "国や自治体の制度を併用可能な場合があります")),
    ("医療費", SubsidyEntry("医療費控除", "所得税・住民税の軽減", "年間医療費が10万円超", "確定申告が必要です"))]

  /** The entry of the first key of `table` that occurs in `message`. */
  function FirstMatch(message: string, table: seq<(string, SubsidyEntry)>): (r: Option<SubsidyEntry>)
    ensures r.None? <==> forall k | 0 <= k < |table| :: !Includes(message, table[k].0)
    ensures r.Some? ==> exists k | 0 <= k < |table| ::
                          && Includes(message, table[k].0) && r.value == table[k].1
                          && forall j | 0 <= j < k :: !Includes(message, table[j].0)
  {
    if table == [] then None
    else if Includes(message, table[0].0) then Some(table[0].1)
    else
      var rest := FirstMatch(message, table[1..]);
      assert forall k | 1 <= k < |table| :: table[k] == table[1..][k - 1];
      if rest.Some? then
        var k :| 0 <= k < |table[1..]| && Includes(message, table[1..][k].0) && rest.value == table[1..][k].1
                 && forall j | 0 <= j < k :: !Includes(message, table[1..][j].0);
        assert forall j | 1 <= j < k + 1 :: !Includes(message, table[j].0);
        rest
      else rest
  }

  /** `detectSubsidy`. */
  function DetectSubsidy(message: string): Option<SubsidyEntry> {
    FirstMatch(message, SubsidyDatabase)
  }

  /** The key order decides between entries: a message naming both 太陽光 and 医療費 (and not
      生ゴミ処理機) gets the solar entry. */
  lemma DetectSubsidyKeyOrder(message: string)
    requires Includes(message, "太陽光") && Includes(message, "医療費") && !Includes(message, "生ゴミ処理機")
    ensures DetectSubsidy(message) == Some(SubsidyDatabase[1].1)
  {
    var r := DetectSubsidy(message);
    assert SubsidyDatabase[1].0 == "太陽光";
    var k :| 0 <= k < |SubsidyDatabase| && Includes(message, SubsidyDatabase[k].0) && r.value == SubsidyDatabase[k].1
             && forall j | 0 <= j < k :: !Includes(message, SubsidyDatabase[j].0);
    assert k == 1;
  }

  /** The answer for a detected entry. */
  function DetectedText(e: SubsidyEntry): string {
    "🎉 それ、補助金出るかも！\n\n💰 " + e.name + "\n補助額: " + e.amount + "\n条件: " + e.condition + "\n\n📝 " + e.note
  }

  /** The generic answer: the message quoted in 「」, then a fixed hint. */
  function GenericText(userMessage: string): string {
    "🤖 " + ("「" + userMessage + "」") + GenericTail
  }

  const GenericTail := "についてですね！\n\n補助金や助成金の制度がある可能性があります。\n\n💡 キーワード例：\n"
                       + "「生ゴミ処理機」「太陽光」「省エネ」「医療費」\n\nお住まいの自治体のホームページもご確認ください！"

  /** `generateResponse`. */
  function GenerateResponse(userMessage: string): string {
    match DetectSubsidy(userMessage)
    case Some(e) => DetectedText(e)
    case None => GenericText(userMessage)
  }

  /** Each of the four fields of a text built as `p0 a p1 b p2 c p3 d` occurs in it. */
  lemma FieldsOccur(p0: string, a: string, p1: string, b: string, p2: string, c: string, p3: string, d: string)
    ensures var r := p0 + a + p1 + b + p2 + c + p3 + d;
            Includes(r, a) && Includes(r, b) && Includes(r, c) && Includes(r, d)
  {
    var r := p0 + a + p1 + b + p2 + c + p3 + d;
    assert r == p0 + a + (p1 + b + p2 + c + p3 + d);
    IncludesInConcat(p0, a, p1 + b + p2 + c + p3 + d);
    assert r == p0 + a + p1 + b + (p2 + c + p3 + d);
    IncludesInConcat(p0 + a + p1, b, p2 + c + p3 + d);
    assert r == p0 + a + p1 + b + p2 + c + (p3 + d);
    IncludesInConcat(p0 + a + p1 + b + p2, c, p3 + d);
    assert r == p0 + a + p1 + b + p2 + c + p3 + d + [];
    IncludesInConcat(p0 + a + p1 + b + p2 + c + p3, d, []);
  }

  /** A detected entry's name, amount, condition and note all appear in the answer. */
  lemma DetectedTextMentionsEntry(userMessage: string)
    requires DetectSubsidy(userMessage).Some?
    ensures var e := DetectSubsidy(userMessage).value;
            var r := GenerateResponse(userMessage);
            Includes(r, e.name) && Includes(r, e.amount) && Includes(r, e.condition) && Includes(r, e.note)
  {
    var e := DetectSubsidy(userMessage).value;
    FieldsOccur("🎉 それ、補助金出るかも！\n\n💰 ", e.name, "\n補助額: ", e.amount, "\n条件: ", e.condition, "\n\n📝 ", e.note);
  }

  /** Without a detected entry, the answer quotes the message in 「」. */
  lemma GenericTextQuotesMessage(userMessage: string)
    requires DetectSubsidy(userMessage).None?
    ensures Includes(GenerateResponse(userMessage), "「" + userMessage + "」")
  {
    IncludesInConcat("🤖 ", "「" + userMessage + "」", GenericTail);
  }

  // ---------------------------------------------------------------------------------------
  // Messages

  /** A quick-reply `postback` action. */
  datatype QuickReplyAction = QuickReplyAction(labelText: string, data: string)

  /** A text message with its quick-reply actions (none when it has no `quickReply`). */
  datatype TextMessage = TextMessage(text: string, quickReply: seq<QuickReplyAction>)

  const StartChatData := "action=start_chat"
  const EndChatData := "action=end_chat"

  /** `createStartChatMessage`. */
  const StartChatMessage := TextMessage(
    "🤖 こんにちは！ホジョキンです！\n\n補助金・助成金の情報をお手伝いします。\n会話を開始しますか？",
    [QuickReplyAction("✅ はい", StartChatData), QuickReplyAction("❌ いいえ", EndChatData)])

  const ChatStartedMessage := TextMessage(
    "✅ ありがとうございます！\n\n🤖 補助金・助成金に関することなら何でもお聞きください！\n\n💡 例：\n「生ゴミ処理機を買ったよ」\n「太陽光パネルを検討中」\n「子供の医療費について」\n\n⚠️ 現在は基本モードで動作中です（Vertex AI機能は次のフェーズで追加予定）",
    [])

  const ChatEndedMessage := TextMessage(
    "❌ 承知いたしました。\n\n🤖 また何かお困りのことがありましたら、いつでもお声がけください！", [])

  const ConversationEndedMessage := TextMessage(
    "🔄 会話を終了しました。\n\n🤖 また何かお困りのことがありましたら、いつでもお声がけください！", [])

  /** The answer while chatting: the generated text and one "end" quick reply. */
  function ChattingMessage(userMessage: string): TextMessage {
    TextMessage(GenerateResponse(userMessage), [QuickReplyAction("🔄 会話終了", EndChatData)])
  }

  // ---------------------------------------------------------------------------------------
  // Users and events

  const Waiting := "waiting"
  const Chatting := "chatting"

  /** A `users` document; `status` is whatever string the store holds. */
  datatype UserRecord = UserRecord(userId: string, status: string, createdAt: int, lastActiveAt: int)

  /** The document `getUserState` creates for an unknown user. */
  function NewUser(userId: string, now: int): UserRecord {
    UserRecord(userId, Waiting, now, now)
  }

  /** The error Firestore raises when `update` targets a document that does not exist. */
  const NoDocumentError := "NOT_FOUND: No document to update"

  /** A webhook event: a postback, a text message, or anything else (other event types and
      non-text messages). */
  datatype Event =
    | Postback(userId: string, replyToken: string, data: string)
    | TextEvent(userId: string, replyToken: string, text: string)
    | Unhandled(userId: string)

  /** What the handler's promise settles to: `null`, the result of a `replyMessage` call with
      the given (possibly undefined) message, or a rejection. */
  datatype Handled =
    | NoReply
    | Replied(replyToken: string, message: Option<TextMessage>)
    | Rejected(error: string)

  /** The fault oracles of one event: the user read, the creation of a new user, the status
      update and the LINE reply. */
  datatype Faults = Faults(read: Option<string>, create: Option<string>, update: Option<string>, reply: Option<string>)

  /** The end keywords of `handleTextEvent`. */
  const EndKeywords: seq<string> := ["終了", "やめる", "リセット", "おわり"]

  /** Whether the (lower-cased) text contains an end keyword. */
  predicate HasEndKeyword(text: string) {
    exists k | 0 <= k < |EndKeywords| :: Includes(text, EndKeywords[k])
  }

  /** The end keywords have no cased characters, so lower-casing the text first changes
      nothing. */
  lemma EndKeywordIgnoresCase(text: string)
    ensures HasEndKeyword(ToLower(text)) <==> HasEndKeyword(text)
  {
    forall k | 0 <= k < |EndKeywords| ensures Includes(ToLower(text), EndKeywords[k]) <==> Includes(text, EndKeywords[k]) {
      IncludesLowerUncased(text, EndKeywords[k]);
    }
  }

  // ---------------------------------------------------------------------------------------
  // The state machine, as functions of the store

  /** The store and the outcome after `getUserState`. */
  datatype Read = Read(users: map<string, UserRecord>, user: Result<UserRecord>)

  /** `getUserState`: the stored user, or a new `waiting` user persisted first; store failures
      are rethrown. */
  function GetUserStateOf(users: map<string, UserRecord>, userId: string, now: int, faults: Faults): (r: Read)
    ensures r.user.Failure? ==> r.users == users
    ensures r.user.Success? && userId in users ==> r.users == users && r.user.value == users[userId]
    ensures r.user.Success? && userId !in users ==>
              r.users == users[userId := NewUser(userId, now)] && r.user.value.status == Waiting
    ensures r.user.Success? <==> faults.read.None? && (userId in users || faults.create.None?)
  {
    if faults.read.Some? then Read(users, Failure(faults.read.value))
    else if userId in users then Read(users, Success(users[userId]))
    else if faults.create.Some? then Read(users, Failure(faults.create.value))
    else Read(users[userId := NewUser(userId, now)], Success(NewUser(userId, now)))
  }

  /** The store and the outcome after `updateUserState`. */
  datatype Written = Written(users: map<string, UserRecord>, outcome: Outcome)

  /** `updateUserState`: only `status` and `lastActiveAt` of that user change; the update fails
      on a store fault or a missing document, and then nothing changes. */
  function UpdateUserStateOf(users: map<string, UserRecord>, userId: string, status: string, now: int,
                             fault: Option<string>): (w: Written)
    ensures w.outcome.Pass? <==> fault.None? && userId in users
    ensures w.outcome.Fail? ==> w.users == users
    ensures w.outcome.Pass? ==> w.users.Keys == users.Keys
    ensures w.outcome.Pass? ==> forall u | u in users ::
              w.users[u] == if u == userId then users[u].(status := status, lastActiveAt := now) else users[u]
  {
    if fault.Some? then Written(users, Fail(fault.value))
    else if userId !in users then Written(users, Fail(NoDocumentError))
    else Written(users[userId := users[userId].(status := status, lastActiveAt := now)], Pass)
  }

  /** The store and the settled handler promise after one event. */
  datatype Step = Step(users: map<string, UserRecord>, result: Handled)

  /** `client.replyMessage`. */
  function ReplyWith(replyToken: string, message: Option<TextMessage>, fault: Option<string>): Handled {
    if fault.Some? then Rejected(fault.value) else Replied(replyToken, message)
  }

  /** `handlePostbackEvent`: start or end the chat; any other data changes nothing and replies
      with an undefined message. */
  function PostbackStep(users: map<string, UserRecord>, userId: string, replyToken: string, data: string,
                        now: int, faults: Faults): Step
  {
    if data == StartChatData || data == EndChatData then
      var w := UpdateUserStateOf(users, userId, if data == StartChatData then Chatting else Waiting, now, faults.update);
      if w.outcome.Fail? then Step(w.users, Rejected(w.outcome.error))
      else Step(w.users, ReplyWith(replyToken, Some(if data == StartChatData then ChatStartedMessage else ChatEndedMessage), faults.reply))
    else Step(users, ReplyWith(replyToken, None, faults.reply))
  }

  /** `handleTextEvent`: read (or create) the user, then reset on an end keyword, offer to
      start while waiting, answer while chatting, or reply with an undefined message for any
      other status. */
  function TextStep(users: map<string, UserRecord>, userId: string, replyToken: string, text: string,
                    now: int, faults: Faults): Step
  {
    var read := GetUserStateOf(users, userId, now, faults);
    if read.user.Failure? then Step(read.users, Rejected(read.user.error))
    else if HasEndKeyword(ToLower(text)) then
      var w := UpdateUserStateOf(read.users, userId, Waiting, now, faults.update);
      if w.outcome.Fail? then Step(w.users, Rejected(w.outcome.error))
      else Step(w.users, ReplyWith(replyToken, Some(ConversationEndedMessage), faults.reply))
    else
      var status := read.user.value.status;
      var message := if status == Waiting then Some(StartChatMessage)
                     else if status == Chatting then Some(ChattingMessage(text))
                     else None;
      Step(read.users, ReplyWith(replyToken, message, faults.reply))
  }

  /** `handleEvent`. */
  function EventStep(users: map<string, UserRecord>, event: Event, now: int, faults: Faults): Step {
    match event
    case Postback(userId, replyToken, data) => PostbackStep(users, userId, replyToken, data, now, faults)
    case TextEvent(userId, replyToken, text) => TextStep(users, userId, replyToken, text, now, faults)
    case Unhandled(_) => Step(users, NoReply)
  }

  // ---------------------------------------------------------------------------------------
  // Properties of the state machine

  /** An unhandled event returns `null` and leaves the store as it is. */
  lemma UnhandledChangesNothing(users: map<string, UserRecord>, userId: string, now: int, faults: Faults)
    ensures EventStep(users, Unhandled(userId), now, faults) == Step(users, NoReply)
  {
  }

  /** A text with an end keyword leaves the user `waiting` and sends the end message, whatever
      the status was, once the store calls succeed. */
  lemma EndKeywordResets(users: map<string, UserRecord>, userId: string, replyToken: string, text: string,
                         now: int, faults: Faults)
    requires HasEndKeyword(text)
    requires faults.read.None? && faults.create.None? && faults.update.None? && faults.reply.None?
    ensures var s := EventStep(users, TextEvent(userId, replyToken, text), now, faults);
            && userId in s.users && s.users[userId].status == Waiting && s.users[userId].lastActiveAt == now
            && s.result == Replied(replyToken, Some(ConversationEndedMessage))
  {
    EndKeywordIgnoresCase(text);
  }

  /** A text without an end keyword never changes a status: an existing user is left exactly as
      stored, and an unknown one is created `waiting`. The reply follows the status: the
      start-chat prompt while waiting, the answer to the original text while chatting. */
  lemma TextKeepsStatus(users: map<string, UserRecord>, userId: string, replyToken: string, text: string,
                        now: int, faults: Faults)
    requires !HasEndKeyword(text)
    ensures var s := EventStep(users, TextEvent(userId, replyToken, text), now, faults);
            && (userId in users ==> s.users == users)
            && (userId !in users ==> s.users == users || s.users == users[userId := NewUser(userId, now)])
    ensures var s := EventStep(users, TextEvent(userId, replyToken, text), now, faults);
            faults.read.None? && faults.reply.None? && userId in users ==>
              && (users[userId].status == Waiting ==> s.result == Replied(replyToken, Some(StartChatMessage)))
              && (users[userId].status == Chatting ==> s.result == Replied(replyToken, Some(ChattingMessage(text))))
  {
    EndKeywordIgnoresCase(text);
  }

  /** `start_chat` makes a stored user `chatting` and `end_chat` makes it `waiting`; any other
      postback data leaves the store unchanged. */
  lemma PostbackSetsStatus(users: map<string, UserRecord>, userId: string, replyToken: string, data: string,
                           now: int, faults: Faults)
    ensures var s := EventStep(users, Postback(userId, replyToken, data), now, faults);
            && (data != StartChatData && data != EndChatData ==> s.users == users)
            && (data == StartChatData && userId in users && faults.update.None? ==>
                  s.users == users[userId := users[userId].(status := Chatting, lastActiveAt := now)])
            && (data == EndChatData && userId in users && faults.update.None? ==>
                  s.users == users[userId := users[userId].(status := Waiting, lastActiveAt := now)])
  {
  }

  /** A postback never creates a user: `updateUserState` on an unknown user fails. */
  lemma PostbackNeverCreates(users: map<string, UserRecord>, userId: string, replyToken: string, data: string,
                             now: int, faults: Faults)
    requires userId !in users
    ensures var s := EventStep(users, Postback(userId, replyToken, data), now, faults);
            && s.users == users
            && (data == StartChatData || data == EndChatData ==> s.result.Rejected?)
  {
  }

  /** No event touches another user's document. */
  lemma OtherUsersUntouched(users: map<string, UserRecord>, event: Event, now: int, faults: Faults, other: string)
    requires other != event.userId && other in users
    ensures var s := EventStep(users, event, now, faults);
            other in s.users && s.users[other] == users[other]
  {
  }

  // ---------------------------------------------------------------------------------------
  // The store

  /** The `users` collection and the handlers that change it. */
  class UserStore {
    var users: map<string, UserRecord>

    constructor (users0: map<string, UserRecord>)
      ensures users == users0
    {
      users := users0;
    }

    /** `getUserState`. */
    method GetUserState(userId: string, now: int, faults: Faults) returns (r: Result<UserRecord>)
      modifies this
      ensures Read(users, r) == GetUserStateOf(old(users), userId, now, faults)
    {
      if faults.read.Some? {
        return Failure(faults.read.value);
      }
      if userId in users {
        return Success(users[userId]);
      }
      if faults.create.Some? {
        return Failure(faults.create.value);
      }
      var newUser := NewUser(userId, now);
      users := users[userId := newUser];
      r := Success(newUser);
    }

    /** `updateUserState`. */
    method UpdateUserState(userId: string, status: string, now: int, fault: Option<string>) returns (r: Outcome)
      modifies this
      ensures Written(users, r) == UpdateUserStateOf(old(users), userId, status, now, fault)
    {
      if fault.Some? {
        return Fail(fault.value);
      }
      if userId !in users {
        return Fail(NoDocumentError);
      }
      users := users[userId := users[userId].(status := status, lastActiveAt := now)];
      r := Pass;
    }

    /** `handlePostbackEvent`. */
    method HandlePostbackEvent(userId: string, replyToken: string, data: string, now: int, faults: Faults)
      returns (r: Handled)
      modifies this
      ensures Step(users, r) == PostbackStep(old(users), userId, replyToken, data, now, faults)
    {
      var replyMessage: Option<TextMessage> := None;
      if data == StartChatData {
        var written := UpdateUserState(userId, Chatting, now, faults.update);
        if written.Fail? {
          return Rejected(written.error);
        }
        replyMessage := Some(ChatStartedMessage);
      } else if data == EndChatData {
        var written := UpdateUserState(userId, Waiting, now, faults.update);
        if written.Fail? {
          return Rejected(written.error);
        }
        replyMessage := Some(ChatEndedMessage);
      }
      r := ReplyWith(replyToken, replyMessage, faults.reply);
    }

    /** `handleTextEvent`. */
    method HandleTextEvent(userId: string, replyToken: string, text: string, now: int, faults: Faults)
      returns (r: Handled)
      modifies this
      ensures Step(users, r) == TextStep(old(users), userId, replyToken, text, now, faults)
    {
      var userState := GetUserState(userId, now, faults);
      if userState.Failure? {
        return Rejected(userState.error);
      }
      var messageText := ToLower(text);
      if HasEndKeyword(messageText) {
        var written := UpdateUserState(userId, Waiting, now, faults.update);
        if written.Fail? {
          return Rejected(written.error);
        }
        return ReplyWith(replyToken, Some(ConversationEndedMessage), faults.reply);
      }
      var replyMessage: Option<TextMessage> := None;
      if userState.value.status == Waiting {
        replyMessage := Some(StartChatMessage);
      } else if userState.value.status == Chatting {
        replyMessage := Some(ChattingMessage(text));
      }
      r := ReplyWith(replyToken, replyMessage, faults.reply);
    }

    /** `handleEvent`: dispatch on the event type; anything but a postback or a text message
        gives `null`. */
    method HandleEvent(event: Event, now: int, faults: Faults) returns (r: Handled)
      modifies this
      ensures Step(users, r) == EventStep(old(users), event, now, faults)
    {
      match event
      case Postback(userId, replyToken, data) =>
        r := HandlePostbackEvent(userId, replyToken, data, now, faults);
      case TextEvent(userId, replyToken, text) =>
        r := HandleTextEvent(userId, replyToken, text, now, faults);
      case Unhandled(_) =>
        r := NoReply;
    }
  }
}
