/** Handling of the postbacks sent by the subsidy selection message: `action=select&subsidyId=…`
    commits one of the candidates previously offered to the user, `action=cancel` leaves
    subsidy mode. */
module PostbackHandler {
  import opened Wrappers
  import opened FirestoreService
  import FormUrlEncoded

  /** `PostbackResult`; an absent `shouldTransitionToDetailAgent` is `false`. */
  datatype PostbackResult = PostbackResult(success: bool, message: string, shouldTransitionToDetailAgent: bool)

  const InvalidSelectionMessage := "無効な選択です。"
  const MissingIdMessage := "補助金IDが指定されていません。"
  const NotFoundMessage := "選択された補助金が見つかりませんでした。"
  const ErrorMessage := "エラーが発生しました。再度お試しください。"
  const CancelMessage := "補助金の確認を終了しました。"

  function SelectedMessage(name: string): string {
    name + "を選択しました。詳細な申請条件を確認するためのヒアリングを開始します。"
  }

  function Failed(message: string): PostbackResult {
    PostbackResult(false, message, false)
  }

  /** The two parameters the handler reads. */
  datatype PostbackData = PostbackData(action: Option<string>, subsidyId: Option<string>)

  /** `parsePostbackData`: the first `action` and the first `subsidyId` of the form-encoded data. */
  function ParsePostbackData(data: string): PostbackData {
    var params := FormUrlEncoded.Parse(data);
    PostbackData(FormUrlEncoded.Get(params, "action"), FormUrlEncoded.Get(params, "subsidyId"))
  }

  /** The payload the selection message attaches to a candidate's button. */
  function SelectData(id: string): string {
    "action=select&subsidyId=" + id
  }

  const CancelData := "action=cancel"

  /** A select payload parses back to action `select` and the same id, for any id without `&`,
      `+` or `%` (the characters the form encoding would split on or decode). */
  lemma ParseSelectData(id: string)
    requires '&' !in id && '+' !in id && '%' !in id
    ensures ParsePostbackData(SelectData(id)) == PostbackData(Some("select"), Some(id))
  {
    var pairs := [FormUrlEncoded.Pair("action", "select"), FormUrlEncoded.Pair("subsidyId", id)];
    SelectDataSerializes(id);
    FormUrlEncoded.ParseSerialized(pairs);
    assert FormUrlEncoded.Get(pairs, "action") == Some("select");
    assert pairs[1..] == [pairs[1]];
    assert FormUrlEncoded.Get(pairs[1..], "subsidyId") == Some(id);
  }

  /** The select payload is the serialisation of its two plain pairs. */
  lemma SelectDataSerializes(id: string)
    requires '&' !in id && '+' !in id && '%' !in id
    ensures var pairs := [FormUrlEncoded.Pair("action", "select"), FormUrlEncoded.Pair("subsidyId", id)];
            && SelectData(id) == FormUrlEncoded.Serialize(pairs)
            && (forall k | 0 <= k < |pairs| :: FormUrlEncoded.PlainPair(pairs[k]))
            && pairs[0].name[0] != '?'
  {
    SelectPairsPlain(id);
    var pairs := [FormUrlEncoded.Pair("action", "select"), FormUrlEncoded.Pair("subsidyId", id)];
    assert pairs[1..] == [pairs[1]];
    assert FormUrlEncoded.Serialize(pairs[1..]) == FormUrlEncoded.Field(pairs[1]);
  }

  /** The two pairs of a select payload need no escaping. */
  lemma SelectPairsPlain(id: string)
    requires '&' !in id && '+' !in id && '%' !in id
    ensures FormUrlEncoded.PlainPair(FormUrlEncoded.Pair("action", "select"))
    ensures FormUrlEncoded.PlainPair(FormUrlEncoded.Pair("subsidyId", id))
  {
  }

  /** The cancel payload parses to action `cancel` with no id. */
  lemma ParseCancelData()
    ensures ParsePostbackData(CancelData) == PostbackData(Some("cancel"), None)
  {
    var pairs := [FormUrlEncoded.Pair("action", "cancel")];
    assert CancelData == FormUrlEncoded.Serialize(pairs);
    FormUrlEncoded.ParseSerialized(pairs);
  }

  /** Which entry of `actionHandlers` runs. */
  datatype Handler = Cancel | Select | NoHandler

  /** `!action || !(action in actionHandlers)`, restricted to the table's own keys. */
  function HandlerFor(action: Option<string>): (h: Handler)
    ensures h == Cancel <==> action == Some("cancel")
    ensures h == Select <==> action == Some("select")
  {
    if action == Some("cancel") then Cancel
    else if action == Some("select") then Select
    else NoHandler
  }

  /** The names that `in` also finds on `actionHandlers` through `Object.prototype`. */
  const ObjectPrototypeNames: set<string> := {
    "constructor", "hasOwnProperty", "isPrototypeOf", "propertyIsEnumerable", "toLocaleString",
    "toString", "valueOf", "__proto__", "__defineGetter__", "__defineSetter__",
    "__lookupGetter__", "__lookupSetter__"}

  /** The guard as written: `action in actionHandlers` is also true for inherited names. */
  predicate PassesGuardAsWritten(action: Option<string>) {
    action.Some? && action.value != "" && (action.value in {"cancel", "select"} || action.value in ObjectPrototypeNames)
  }

  /** `action=toString` passes the guard as written although there is no handler for it: the
      source then calls `Object.prototype.toString` and resolves with a string instead of a
      `PostbackResult`. The corrected guard rejects it. */
  lemma InheritedNamePassesGuard()
    ensures PassesGuardAsWritten(Some("toString"))
    ensures HandlerFor(Some("toString")) == NoHandler
  {
  }

  /** With the corrected guard, exactly the two own keys reach a handler. */
  lemma CorrectedGuardOwnKeysOnly(action: Option<string>)
    ensures HandlerFor(action) != NoHandler <==> action == Some("cancel") || action == Some("select")
    ensures HandlerFor(action) != NoHandler ==> PassesGuardAsWritten(action)
  {
  }

  /** First entry of `offered` whose id is `id` (`Array.prototype.find`). */
  function FindById(offered: seq<SubsidyRef>, id: string): (r: Option<SubsidyRef>)
    ensures r.None? <==> forall k | 0 <= k < |offered| :: offered[k].id != id
    ensures r.Some? ==> exists k | 0 <= k < |offered| ::
                          offered[k] == r.value && r.value.id == id
                          && forall j | 0 <= j < k :: offered[j].id != id
  {
    if offered == [] then None
    else if offered[0].id == id then Some(offered[0])
    else
      var r := FindById(offered[1..], id);
      assert r.Some? ==> exists k | 1 <= k < |offered| ::
                          offered[k] == r.value && r.value.id == id
                          && forall j | 0 <= j < k :: offered[j].id != id by {
        if r.Some? {
          var k :| 0 <= k < |offered[1..]| && offered[1..][k] == r.value && r.value.id == id
                    && forall j | 0 <= j < k :: offered[1..][j].id != id;
          assert offered[k + 1] == r.value && forall j | 0 <= j < k + 1 :: offered[j].id != id;
        }
      }
      r
  }

  /** `findSelectedSubsidy`: the id is resolved only against the `selectedFrom` list of the session
      as read; no session (or a failed read) resolves nothing. */
  function FindSelectedSubsidy(session: Option<Session>, subsidyId: string): (r: Option<SubsidyRef>)
    ensures r.Some? ==> session.Some? && r.value in session.value.selectedFrom && r.value.id == subsidyId
    ensures session.Some? && (exists k | 0 <= k < |session.value.selectedFrom| :: session.value.selectedFrom[k].id == subsidyId) ==> r.Some?
  {
    if session.None? then None else FindById(session.value.selectedFrom, subsidyId)
  }

  /** What a postback leads to, given the session as the select handler would read it. */
  datatype Decision = Reject(message: string) | Deactivate | Commit(selected: SubsidyRef)

  /** The decision `handlePostback` takes before it writes anything. */
  function Decide(data: string, session: Option<Session>): (d: Decision)
    ensures HandlerFor(ParsePostbackData(data).action) == NoHandler ==> d == Reject(InvalidSelectionMessage)
    ensures ParsePostbackData(data).action == Some("cancel") ==> d == Deactivate
    ensures ParsePostbackData(data).action == Some("select") && ParsePostbackData(data).subsidyId in {None, Some("")}
            ==> d == Reject(MissingIdMessage)
    ensures d.Commit? ==> && ParsePostbackData(data).action == Some("select")
                          && ParsePostbackData(data).subsidyId == Some(d.selected.id)
                          && session.Some? && d.selected in session.value.selectedFrom
  {
    var p := ParsePostbackData(data);
    match HandlerFor(p.action)
    case NoHandler => Reject(InvalidSelectionMessage)
    case Cancel => Deactivate
    case Select =>
      if p.subsidyId.None? || p.subsidyId.value == "" then Reject(MissingIdMessage)
      else
        match FindSelectedSubsidy(session, p.subsidyId.value)
        case None => Reject(NotFoundMessage)
        case Some(s) => Commit(s)
  }

  /** A select naming an id that was not offered never commits, and neither does a select when
      no session could be read: the user is told the id is missing when it is empty, and that
      the subsidy was not found otherwise. */
  lemma SelectionScopedToOffered(data: string, session: Option<Session>)
    requires ParsePostbackData(data).action == Some("select")
    requires ParsePostbackData(data).subsidyId.Some?
    requires session.None? || forall k | 0 <= k < |session.value.selectedFrom| ::
               session.value.selectedFrom[k].id != ParsePostbackData(data).subsidyId.value
    ensures Decide(data, session) ==
              Reject(if ParsePostbackData(data).subsidyId.value == "" then MissingIdMessage else NotFoundMessage)
  {
  }

  /** The session `handlePostback` stores after committing `c` at time `now`. */
  function Selected(s: Session, c: SubsidyRef, now: int): Session {
    s.(subsidyId := c.id, subsidyName := c.name, lastActivityAt := now)
  }

  /** Repeating a committed select on the store it produced commits the same candidate again,
      and the second write leaves the store as the first one left it except for the user's
      `lastActivityAt` (the choice is overwritten, not appended). */
  lemma RepeatedSelectIsIdempotent(data: string, sessions: map<string, Session>, userId: string, now: int, later: int)
    requires userId in sessions && Decide(data, Some(sessions[userId])).Commit?
    ensures var c := Decide(data, Some(sessions[userId])).selected;
            var once := sessions[userId := Selected(sessions[userId], c, now)];
            var twice := once[userId := Selected(once[userId], c, later)];
            && Decide(data, Some(once[userId])) == Decide(data, Some(sessions[userId]))
            && twice == once[userId := once[userId].(lastActivityAt := later)]
            && twice == sessions[userId := Selected(sessions[userId], c, later)]
  {
  }

  /** `handlePostback`: parses the data, runs the matching handler against the store, and turns
      every failure of a store write into the generic error result; it never rejects. The read
      fault applies to the session read of `select`, the write fault to the single write. */
  method HandlePostback(store: UserSessionStore, data: string, userId: string, now: int,
                        readFault: bool, writeFault: Option<string>)
    returns (r: PostbackResult)
    modifies store
    ensures var d := Decide(data, if readFault then None else old(store.Lookup(userId)));
            var writes := writeFault.None? && userId in old(store.sessions);
            && (d.Reject? ==> r == Failed(d.message) && store.sessions == old(store.sessions))
            && (d.Deactivate? && writes ==>
                  && r == PostbackResult(true, CancelMessage, false)
                  && store.sessions == old(store.sessions)[userId := old(store.sessions)[userId].(isActive := false, lastActivityAt := now)])
            && (d.Commit? && writes ==>
                  && r == PostbackResult(true, SelectedMessage(d.selected.name), true)
                  && store.sessions == old(store.sessions)[userId := Selected(old(store.sessions)[userId], d.selected, now)])
            && (!d.Reject? && !writes ==> r == Failed(ErrorMessage) && store.sessions == old(store.sessions))
  {
    var p := ParsePostbackData(data);
    match HandlerFor(p.action)
    case NoHandler =>
      r := Failed(InvalidSelectionMessage);
    case Cancel =>
      var w := store.UpdateSubsidyMode(userId, false, now, writeFault);
      r := if w.Pass? then PostbackResult(true, CancelMessage, false) else Failed(ErrorMessage);
    case Select =>
      if p.subsidyId.None? || p.subsidyId.value == "" {
        r := Failed(MissingIdMessage);
      } else {
        var session := store.GetUserSession(userId, readFault);
        var found := FindSelectedSubsidy(session, p.subsidyId.value);
        if found.None? {
          r := Failed(NotFoundMessage);
        } else {
          var w := store.SaveSelectedSubsidy(userId, found.value, now, writeFault);
          r := if w.Pass? then PostbackResult(true, SelectedMessage(found.value.name), true) else Failed(ErrorMessage);
        }
      }
  }
}
