/** The LINE message that offers the extracted subsidies to the user: a confirm template for a
    single candidate, otherwise a flex bubble with one numbered button per candidate and a final
    "do not check" button. The buttons carry the postback payloads the postback handler parses. */
module LineMessageBuilder {
  import opened Wrappers
  import opened JsString
  import opened FirestoreService
  import opened SubsidyIdExtractor
  import PostbackHandler

  /** A `postback` action: its `label` and its data string. */
  datatype PostbackAction = PostbackAction(labelText: string, data: string)

  /** One entry of the flex body's `contents`. */
  datatype FlexItem =
    | Text(text: string, weight: Option<string>, size: Option<string>, margin: Option<string>)
    | Separator(margin: Option<string>)
    | Button(action: PostbackAction, margin: Option<string>)

  /** `ConfirmTemplateMessage | FlexMessage`, with the constant `type` fields left implicit. */
  datatype LineMessage =
    | Confirm(altText: string, text: string, actions: seq<PostbackAction>)
    | Flex(altText: string, contents: seq<FlexItem>)

  const ConfirmAltText := "補助金が見つかりました"
  const FlexAltText := "補助金を選択してください"

  /** The three items every flex body starts with. */
  const Header: seq<FlexItem> := [
    Text("該当する補助金が見つかりました", Some("bold"), Some("md"), None),
    Text("詳細を確認したい補助金を選択してください", None, Some("sm"), Some("md")),
    Separator(Some("lg"))]

  /** The closing button, which leaves subsidy mode. */
  const CancelButton := Button(PostbackAction("申請できるかどうかを調べない", PostbackHandler.CancelData), Some("md"))

  /** The button for the candidate at 0-based position `index`. */
  function SelectButton(index: nat, subsidy: SubsidyInfo): FlexItem {
    Button(PostbackAction(NatToString(index + 1) + ". " + subsidy.name, PostbackHandler.SelectData(subsidy.id)), Some("sm"))
  }

  /** The single-candidate branch: a yes/no confirm template. */
  function ConfirmMessage(subsidy: SubsidyInfo): LineMessage {
    Confirm(ConfirmAltText, subsidy.name + "が見つかりました。申請条件を確認しますか？",
            [PostbackAction("はい", PostbackHandler.SelectData(subsidy.id)),
             PostbackAction("いいえ", PostbackHandler.CancelData)])
  }

  /** What `buildSubsidySelectionMessage` returns. */
  function SelectionMessage(subsidies: seq<SubsidyInfo>): LineMessage {
    if |subsidies| == 1 then ConfirmMessage(subsidies[0])
    else Flex(FlexAltText, Header + seq(|subsidies|, k requires 0 <= k < |subsidies| => SelectButton(k, subsidies[k]))
                           + [CancelButton])
  }

  /** `buildSubsidySelectionMessage`: the header, then one button pushed per candidate by
      `forEach`, then the cancel button. */
  method BuildSubsidySelectionMessage(subsidies: seq<SubsidyInfo>) returns (msg: LineMessage)
    ensures msg == SelectionMessage(subsidies)
  {
    if |subsidies| == 1 {
      return ConfirmMessage(subsidies[0]);
    }
    var contents := Header;
    var index := 0;
    while index < |subsidies|
      invariant 0 <= index <= |subsidies|
      invariant |contents| == 3 + index && contents[..3] == Header
      invariant forall k | 0 <= k < index :: contents[3 + k] == SelectButton(k, subsidies[k])
    {
      contents := contents + [SelectButton(index, subsidies[index])];
      index := index + 1;
    }
    contents := contents + [CancelButton];
    msg := Flex(FlexAltText, contents);
    assert contents == SelectionMessage(subsidies).contents;
  }

  /** The layout: one candidate gives the confirm template with "はい" selecting it and "いいえ"
      cancelling; any other count, zero included, gives `n + 4` flex items whose buttons follow
      the input order and whose last item is the cancel button. */
  lemma SelectionMessageLayout(subsidies: seq<SubsidyInfo>)
    ensures var msg := SelectionMessage(subsidies);
            |subsidies| == 1 ==>
              && msg.Confirm? && msg.altText == ConfirmAltText
              && |msg.actions| == 2
              && msg.actions[0] == PostbackAction("はい", PostbackHandler.SelectData(subsidies[0].id))
              && msg.actions[1] == PostbackAction("いいえ", PostbackHandler.CancelData)
    ensures var msg := SelectionMessage(subsidies);
            |subsidies| != 1 ==>
              && msg.Flex? && msg.altText == FlexAltText
              && |msg.contents| == |subsidies| + 4
              && msg.contents[..3] == Header
              && (forall k | 0 <= k < 3 :: !msg.contents[k].Button?)
              && msg.contents[|subsidies| + 3] == CancelButton
              && forall k | 0 <= k < |subsidies| ::
                   msg.contents[k + 3].Button? && msg.contents[k + 3].margin == Some("sm")
                   && msg.contents[k + 3].action.data == PostbackHandler.SelectData(subsidies[k].id)
                   && msg.contents[k + 3].action.labelText == NatToString(k + 1) + ". " + subsidies[k].name
  {
    if |subsidies| != 1 {
      var msg := SelectionMessage(subsidies);
      assert msg.contents[..3] == Header;
      assert forall k | 0 <= k < 3 :: msg.contents[k] == Header[k];
    }
  }

  /** Every postback data string a message carries. */
  function EmittedData(msg: LineMessage): set<string> {
    match msg
    case Confirm(_, _, actions) => set a | a in actions :: a.data
    case Flex(_, contents) => set item | item in contents && item.Button? :: item.action.data
  }

  /** The emitted payloads are exactly the cancel payload and the select payload of each input
      id: nothing else can reach the postback handler from this message. */
  lemma EmittedDataOfSelection(subsidies: seq<SubsidyInfo>)
    ensures EmittedData(SelectionMessage(subsidies))
         == {PostbackHandler.CancelData} + set s | s in subsidies :: PostbackHandler.SelectData(s.id)
  {
    var msg := SelectionMessage(subsidies);
    if |subsidies| == 1 {
      assert msg.actions[0] in msg.actions && msg.actions[1] in msg.actions;
      assert forall s | s in subsidies :: s == subsidies[0];
    } else {
      FlexDataWithin(subsidies);
      FlexDataCovers(subsidies);
    }
  }

  /** Every payload of a flex message is the cancel payload or the select payload of an input. */
  lemma FlexDataWithin(subsidies: seq<SubsidyInfo>)
    requires |subsidies| != 1
    ensures forall d | d in EmittedData(SelectionMessage(subsidies)) ::
              d == PostbackHandler.CancelData || exists s | s in subsidies :: d == PostbackHandler.SelectData(s.id)
  {
    var msg := SelectionMessage(subsidies);
    SelectionMessageLayout(subsidies);
    var n := |subsidies|;
    forall d | d in EmittedData(msg)
      ensures d == PostbackHandler.CancelData || exists s | s in subsidies :: d == PostbackHandler.SelectData(s.id)
    {
      var item :| item in msg.contents && item.Button? && item.action.data == d;
      var i :| 0 <= i < |msg.contents| && msg.contents[i] == item;
      if 3 <= i < n + 3 {
        assert subsidies[i - 3] in subsidies;
      }
    }
  }

  /** The cancel payload and the select payload of every input are on a flex message. */
  lemma FlexDataCovers(subsidies: seq<SubsidyInfo>)
    requires |subsidies| != 1
    ensures PostbackHandler.CancelData in EmittedData(SelectionMessage(subsidies))
    ensures forall s | s in subsidies :: PostbackHandler.SelectData(s.id) in EmittedData(SelectionMessage(subsidies))
  {
    var msg := SelectionMessage(subsidies);
    SelectionMessageLayout(subsidies);
    var n := |subsidies|;
    assert msg.contents[n + 3] in msg.contents;
    forall s | s in subsidies ensures PostbackHandler.SelectData(s.id) in EmittedData(msg) {
      var k :| 0 <= k < n && subsidies[k] == s;
      assert msg.contents[k + 3] in msg.contents;
    }
  }

  /** In `${a}. ${x}` the digits of `a` come first and a `.` right after them. */
  lemma NumberedPrefixChars(a: nat, x: string)
    ensures var l := NatToString(a) + ". " + x;
            && |NatToString(a)| < |l| && l[|NatToString(a)|] == '.'
            && forall k | 0 <= k < |NatToString(a)| :: l[k] == NatToString(a)[k] && IsDigit(l[k])
  {
  }

  /** `${a}. ` and `${b}. ` prefixes can only be equal for equal numbers. */
  lemma NumberedPrefixInjective(a: nat, b: nat, x: string, y: string)
    requires NatToString(a) + ". " + x == NatToString(b) + ". " + y
    ensures a == b
  {
    var sa, sb := NatToString(a), NatToString(b);
    var l := NatToString(a) + ". " + x;
    NumberedPrefixChars(a, x);
    NumberedPrefixChars(b, y);
    if |sa| < |sb| {
      assert false;
    } else if |sb| < |sa| {
      assert false;
    } else {
      assert sa == l[..|sa|] == sb;
      NatToStringInjective(a, b);
    }
  }

  /** The buttons of the flex layout have pairwise different labels, because each starts with
      its own number. */
  lemma ButtonLabelsDistinct(subsidies: seq<SubsidyInfo>, i: nat, j: nat)
    requires |subsidies| != 1 && i < j < |subsidies|
    ensures SelectionMessage(subsidies).contents[i + 3].action.labelText
         != SelectionMessage(subsidies).contents[j + 3].action.labelText
  {
    SelectionMessageLayout(subsidies);
    if SelectionMessage(subsidies).contents[i + 3].action.labelText
       == SelectionMessage(subsidies).contents[j + 3].action.labelText {
      NumberedPrefixInjective(i + 1, j + 1, subsidies[i].name, subsidies[j].name);
    }
  }

  /** The candidates as they are stored in the session's `selectedFrom`. */
  function AsRefs(subsidies: seq<SubsidyInfo>): (refs: seq<SubsidyRef>)
    ensures |refs| == |subsidies|
    ensures forall k | 0 <= k < |refs| :: refs[k] == SubsidyRef(subsidies[k].id, subsidies[k].name)
  {
    seq(|subsidies|, k requires 0 <= k < |subsidies| => SubsidyRef(subsidies[k].id, subsidies[k].name))
  }

  /** End to end: when the offered list was stored as `selectedFrom`, pressing the button of
      candidate `k` commits the first stored candidate with that id; with distinct ids, that
      is candidate `k` itself. */
  lemma OfferedSelectionCommits(subsidies: seq<SubsidyInfo>, k: nat, session: Session)
    requires k < |subsidies|
    requires var id := subsidies[k].id; id != "" && '&' !in id && '+' !in id && '%' !in id
    requires session.selectedFrom == AsRefs(subsidies)
    ensures var d := PostbackHandler.Decide(PostbackHandler.SelectData(subsidies[k].id), Some(session));
            && d.Commit? && d.selected.id == subsidies[k].id && d.selected in session.selectedFrom
    ensures (forall i, j | 0 <= i < j < |subsidies| :: subsidies[i].id != subsidies[j].id) ==>
              PostbackHandler.Decide(PostbackHandler.SelectData(subsidies[k].id), Some(session))
              == PostbackHandler.Commit(SubsidyRef(subsidies[k].id, subsidies[k].name))
  {
    var refs := AsRefs(subsidies);
    assert refs[k] == SubsidyRef(subsidies[k].id, subsidies[k].name);
    SelectOfferedRef(session, k);
    if forall i, j | 0 <= i < j < |subsidies| :: subsidies[i].id != subsidies[j].id {
      assert forall i, j | 0 <= i < j < |refs| :: refs[i].id != refs[j].id by {
        forall i, j | 0 <= i < j < |refs| ensures refs[i].id != refs[j].id {
          assert refs[i].id == subsidies[i].id && refs[j].id == subsidies[j].id;
        }
      }
    }
  }

  /** Selecting the id of stored candidate `k` commits a stored candidate with that id, and
      candidate `k` itself when the stored ids are distinct. */
  lemma SelectOfferedRef(session: Session, k: nat)
    requires k < |session.selectedFrom|
    requires var id := session.selectedFrom[k].id; id != "" && '&' !in id && '+' !in id && '%' !in id
    ensures var d := PostbackHandler.Decide(PostbackHandler.SelectData(session.selectedFrom[k].id), Some(session));
            && d.Commit? && d.selected.id == session.selectedFrom[k].id && d.selected in session.selectedFrom
    ensures var refs := session.selectedFrom;
            (forall i, j | 0 <= i < j < |refs| :: refs[i].id != refs[j].id) ==>
              PostbackHandler.Decide(PostbackHandler.SelectData(refs[k].id), Some(session))
              == PostbackHandler.Commit(refs[k])
  {
    var refs := session.selectedFrom;
    var id := refs[k].id;
    PostbackHandler.ParseSelectData(id);
    var d := PostbackHandler.Decide(PostbackHandler.SelectData(id), Some(session));
    assert d.Commit?;
    if forall i, j | 0 <= i < j < |refs| :: refs[i].id != refs[j].id {
      var j :| 0 <= j < |refs| && refs[j] == d.selected;
      assert j == k;
    }
  }

  /** Pressing the cancel button (or "いいえ") always leaves subsidy mode. */
  lemma CancelChoiceDeactivates(session: Option<Session>)
    ensures PostbackHandler.Decide(PostbackHandler.CancelData, session) == PostbackHandler.Deactivate
  {
    PostbackHandler.ParseCancelData();
  }
}
