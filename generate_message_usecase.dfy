/** The message use case of the subsidy-details agent: decide whether the user may be eligible,
    derive recommendations, and build one of four messages about the subsidy. */
module GenerateMessageUsecase {
  import opened Wrappers
  import opened JsString

  // ---------------------------------------------------------------------------------------
  // Records

  datatype Eligibility = Eligibility(
    companySize: Option<seq<string>>,
    industry: Option<seq<string>>,
    employeeCount: Option<string>,
    capital: Option<string>,
    requirements: seq<string>)

  datatype SupportDetails = SupportDetails(budgetRange: string, subsidyRate: string, supportedExpenses: seq<string>)

  datatype ApplicationInfo = ApplicationInfo(applicationPeriod: string, selectionMethod: string, requiredDocuments: seq<string>)

  datatype Contact = Contact(organization: string, phone: string, website: string)

  /** `SubsidyDetails`. */
  datatype SubsidyDetails = SubsidyDetails(
    detailId: string,
    id: string,
    name: string,
    summary: string,
    description: string,
    eligibility: Eligibility,
    supportDetails: SupportDetails,
    applicationInfo: ApplicationInfo,
    contact: Contact)

  /** `UserAttributes`. */
  datatype UserAttributes = UserAttributes(
    userId: string,
    companySize: Option<string>,
    industry: Option<string>,
    employeeCount: Option<string>,
    capital: Option<string>,
    location: Option<string>,
    businessType: Option<string>)

  /** `GeneratedMessage`. */
  datatype GeneratedMessage = GeneratedMessage(message: string, isEligible: bool, recommendations: seq<string>)

  /** JavaScript truthiness of an optional string: present and not empty. */
  predicate Truthy(s: Option<string>) {
    s.Some? && s.value != ""
  }

  // ---------------------------------------------------------------------------------------
  // checkEligibility

  /** The company-size check rejects: both sides are given and the user's size is not listed. */
  predicate SizeRejects(e: Eligibility, user: UserAttributes) {
    e.companySize.Some? && Truthy(user.companySize) && user.companySize.value !in e.companySize.value
  }

  /** The industry check rejects: both sides are given and no listed industry is contained in
      the user's industry or contains it. */
  predicate IndustryRejects(e: Eligibility, user: UserAttributes) {
    && e.industry.Some? && Truthy(user.industry)
    && !exists i | i in e.industry.value :: Includes(user.industry.value, i) || Includes(i, user.industry.value)
  }

  /** `checkEligibility`. */
  function CheckEligibility(user: UserAttributes, details: SubsidyDetails): (eligible: bool)
    ensures !eligible <==> SizeRejects(details.eligibility, user) || IndustryRejects(details.eligibility, user)
  {
    var e := details.eligibility;
    if e.companySize.Some? && Truthy(user.companySize) && user.companySize.value !in e.companySize.value then false
    else if e.industry.Some? && Truthy(user.industry)
            && !exists i | i in e.industry.value :: Includes(user.industry.value, i) || Includes(i, user.industry.value)
    then false
    else true
  }

  /** Missing data never rejects: a user without a company size and without an industry is
      always eligible, and so is a subsidy that lists neither. */
  lemma AbsentDataNeverRejects(user: UserAttributes, details: SubsidyDetails)
    requires (!Truthy(user.companySize) && !Truthy(user.industry))
             || (details.eligibility.companySize.None? && details.eligibility.industry.None?)
    ensures CheckEligibility(user, details)
  {
  }

  /** An industry the user names exactly is always a match. */
  lemma ListedIndustryMatches(user: UserAttributes, details: SubsidyDetails)
    requires details.eligibility.industry.Some? && Truthy(user.industry)
    requires user.industry.value in details.eligibility.industry.value
    ensures !IndustryRejects(details.eligibility, user)
  {
    IncludesSelfAndEmpty(user.industry.value);
  }

  // ---------------------------------------------------------------------------------------
  // generateRecommendations

  const EligibleFirst := "あなたの事業内容に適合している可能性が高いです"
  const ItLine := "IT投資やデジタル化に活用できます"
  const TrainingLine := "人材育成・研修費用として活用できます"
  const EligibleLast := "早めの申請準備をおすすめします"
  const IneligibleAdvice := ["現在の情報では対象外の可能性があります", "詳細な要件を確認されることをおすすめします"]

  /** Some expense mentions `a` or `b`. */
  predicate SomeExpenseMentions(expenses: seq<string>, a: string, b: string) {
    exists e | e in expenses :: Includes(e, a) || Includes(e, b)
  }

  /** The recommendations for an eligibility verdict. */
  function Recommendations(details: SubsidyDetails, isEligible: bool): seq<string> {
    if isEligible then
      var expenses := details.supportDetails.supportedExpenses;
      [EligibleFirst]
      + (if SomeExpenseMentions(expenses, "IT", "デジタル") then [ItLine] else [])
      + (if SomeExpenseMentions(expenses, "人材", "研修") then [TrainingLine] else [])
      + [EligibleLast]
    else IneligibleAdvice
  }

  /** `generateRecommendations`: pushes onto an empty list. */
  method GenerateRecommendations(user: UserAttributes, details: SubsidyDetails, isEligible: bool)
    returns (recommendations: seq<string>)
    ensures recommendations == Recommendations(details, isEligible)
  {
    recommendations := [];
    if isEligible {
      recommendations := recommendations + [EligibleFirst];
      var expenses := details.supportDetails.supportedExpenses;
      if SomeExpenseMentions(expenses, "IT", "デジタル") {
        recommendations := recommendations + [ItLine];
      }
      if SomeExpenseMentions(expenses, "人材", "研修") {
        recommendations := recommendations + [TrainingLine];
      }
      recommendations := recommendations + [EligibleLast];
    } else {
      recommendations := recommendations + IneligibleAdvice;
    }
  }

  /** Eligible: two to four lines, the fit line first and the "apply early" line last, with
      the IT line exactly when an expense mentions IT or デジタル and the training line exactly
      when one mentions 人材 or 研修, in that order. Ineligible: exactly the two advisory
      lines. */
  lemma RecommendationsShape(details: SubsidyDetails, isEligible: bool)
    ensures var r := Recommendations(details, isEligible);
            var expenses := details.supportDetails.supportedExpenses;
            isEligible ==>
              && 2 <= |r| <= 4 && r[0] == EligibleFirst && r[|r| - 1] == EligibleLast
              && (ItLine in r <==> SomeExpenseMentions(expenses, "IT", "デジタル"))
              && (TrainingLine in r <==> SomeExpenseMentions(expenses, "人材", "研修"))
              && (ItLine in r && TrainingLine in r ==> r[1] == ItLine && r[2] == TrainingLine)
    ensures !isEligible ==> Recommendations(details, isEligible) == IneligibleAdvice
  {
  }

  // ---------------------------------------------------------------------------------------
  // Lists inside the messages

  /** The line `${index + 1}. ${item}\n`. */
  function NumberedLine(index: nat, item: string): string {
    NatToString(index + 1) + ". " + item + "\n"
  }

  /** The `forEach((item, index) => message += ...)` lines of a list, numbered from 1. */
  function NumberedList(items: seq<string>): string {
    if items == [] then "" else NumberedList(items[..|items| - 1]) + NumberedLine(|items| - 1, items[|items| - 1])
  }

  /** The `• ${rec}\n` lines of the recommendations. */
  function Bullets(items: seq<string>): string {
    if items == [] then "" else Bullets(items[..|items| - 1]) + "• " + items[|items| - 1] + "\n"
  }

  /** The numbering loop: appends one numbered line per item to `message`. */
  method AppendNumbered(message: string, items: seq<string>) returns (m: string)
    ensures m == message + NumberedList(items)
  {
    m := message;
    for index := 0 to |items|
      invariant m == message + NumberedList(items[..index])
    {
      assert items[..index + 1][..index] == items[..index];
      m := m + NumberedLine(index, items[index]);
    }
    assert items[..|items|] == items;
  }

  /** The bullet loop: appends one bullet line per recommendation to `message`. */
  method AppendBullets(message: string, items: seq<string>) returns (m: string)
    ensures m == message + Bullets(items)
  {
    m := message;
    for k := 0 to |items|
      invariant m == message + Bullets(items[..k])
    {
      assert items[..k + 1][..k] == items[..k];
      m := m + "• " + items[k] + "\n";
    }
    assert items[..|items|] == items;
  }

  /** Item `k` appears in the list as line number `k + 1`, right after the lines of the items
      before it. */
  lemma {:induction false} NumberedListLine(items: seq<string>, k: nat)
    requires k < |items|
    ensures NumberedList(items[..k + 1]) == NumberedList(items[..k]) + NumberedLine(k, items[k])
    ensures Includes(NumberedList(items), NumberedLine(k, items[k]))
  {
    assert items[..k + 1][..k] == items[..k];
    NumberedListPrefix(items, k + 1);
    var rest := NumberedList(items)[|NumberedList(items[..k + 1])|..];
    assert NumberedList(items) == NumberedList(items[..k]) + NumberedLine(k, items[k]) + rest;
    IncludesInConcat(NumberedList(items[..k]), NumberedLine(k, items[k]), rest);
  }

  /** The list of a prefix of the items is a prefix of the list. */
  lemma {:induction false} NumberedListPrefix(items: seq<string>, n: nat)
    requires n <= |items|
    ensures NumberedList(items[..n]) <= NumberedList(items)
    decreases |items| - n
  {
    if n < |items| {
      NumberedListPrefix(items, n + 1);
      assert items[..n + 1][..n] == items[..n];
    } else {
      assert items[..n] == items;
    }
  }

  /** A non-empty list ends with a line break. */
  lemma NumberedListEndsWithNewline(items: seq<string>)
    requires items != []
    ensures var l := NumberedList(items); |l| > 0 && l[|l| - 1] == '\n'
  {
  }

  // ---------------------------------------------------------------------------------------
  // The four messages

  /** `generateDetailMessage`: everything before the expense list. */
  function DetailHead(details: SubsidyDetails, isEligible: bool): string {
    var status := if isEligible then "✅ 対象の可能性があります" else "⚠️ 要件をご確認ください";
    "📋 " + details.name + "\n\n" + status + "\n\n" + "【概要】\n" + details.description + "\n\n"
    + "【支援内容】\n" + "💰 予算規模: " + details.supportDetails.budgetRange + "\n"
    + "📊 補助率: " + details.supportDetails.subsidyRate + "\n\n" + "【対象経費】\n"
  }

  /** `generateDetailMessage`: everything after the recommendations. */
  function DetailTail(details: SubsidyDetails): string {
    "\n【申請期間】\n" + details.applicationInfo.applicationPeriod + "\n\n"
    + "詳細な要件や申請方法については、下記までお問い合わせください。\n"
    + details.contact.organization + "\n" + "📞 " + details.contact.phone + "\n" + "🌐 " + details.contact.website
  }

  /** The recommendations section, present only when there are recommendations. */
  function RecommendationSection(recommendations: seq<string>): string {
    if |recommendations| > 0 then "\n【おすすめポイント】\n" + Bullets(recommendations) else ""
  }

  /** The recommendations block of `generateDetailMessage`, appended to `message`. */
  method AppendRecommendations(message: string, recommendations: seq<string>) returns (m: string)
    ensures m == message + RecommendationSection(recommendations)
  {
    m := message;
    if |recommendations| > 0 {
      m := m + "\n【おすすめポイント】\n";
      m := AppendBullets(m, recommendations);
    }
  }

  /** The text `generateDetailMessage` builds. */
  function DetailText(details: SubsidyDetails, isEligible: bool, recommendations: seq<string>): string {
    DetailHead(details, isEligible) + NumberedList(details.supportDetails.supportedExpenses)
    + RecommendationSection(recommendations) + DetailTail(details)
  }

  /** `generateDetailMessage`. */
  method GenerateDetailMessage(details: SubsidyDetails, user: UserAttributes, isEligible: bool, recommendations: seq<string>)
    returns (message: string)
    ensures message == DetailText(details, isEligible, recommendations)
  {
    message := DetailHead(details, isEligible);
    message := AppendNumbered(message, details.supportDetails.supportedExpenses);
    message := AppendRecommendations(message, recommendations);
    message := message + DetailTail(details);
  }

  const ConsultSentence := "\n詳細な要件については、実施機関にご相談されることをおすすめします。"

  /** `generateEligibilityMessage`: everything before the list of other requirements. */
  function EligibilityHead(details: SubsidyDetails, isEligible: bool): string {
    var e := details.eligibility;
    var status := if isEligible then "✅ あなたは対象の可能性があります" else "⚠️ 対象要件をご確認ください";
    "📋 " + details.name + "\n\n" + status + "\n\n" + "【対象要件】\n"
    + (if e.companySize.Some? then "企業規模: " + Join(e.companySize.value, "、") + "\n" else "")
    + (if e.industry.Some? then "対象業界: " + Join(e.industry.value, "、") + "\n" else "")
    + (if Truthy(e.employeeCount) then "従業員数: " + e.employeeCount.value + "\n" else "")
    + (if Truthy(e.capital) then "資本金: " + e.capital.value + "\n" else "")
    + "\n【その他の要件】\n"
  }

  /** The text `generateEligibilityMessage` builds. */
  function EligibilityText(details: SubsidyDetails, isEligible: bool): string {
    EligibilityHead(details, isEligible) + NumberedList(details.eligibility.requirements)
    + (if !isEligible then ConsultSentence else "")
  }

  /** `generateEligibilityMessage`. */
  method GenerateEligibilityMessage(details: SubsidyDetails, user: UserAttributes, isEligible: bool)
    returns (message: string)
    ensures message == EligibilityText(details, isEligible)
  {
    message := EligibilityHead(details, isEligible);
    message := AppendNumbered(message, details.eligibility.requirements);
    if !isEligible {
      message := message + ConsultSentence;
    }
  }

  /** Whether `s` ends with `t`. */
  predicate EndsWith(s: string, t: string) {
    |t| <= |s| && s[|s| - |t|..] == t
  }

  /** The eligibility message ends with the advice to consult the agency exactly when the user
      is not eligible. */
  lemma EligibilityMessageConsultsIffIneligible(details: SubsidyDetails, isEligible: bool)
    ensures EndsWith(EligibilityText(details, isEligible), ConsultSentence) <==> !isEligible
  {
    var head := EligibilityHead(details, isEligible);
    var list := NumberedList(details.eligibility.requirements);
    var text := EligibilityText(details, isEligible);
    if isEligible {
      assert text == head + list;
      if details.eligibility.requirements != [] {
        NumberedListEndsWithNewline(details.eligibility.requirements);
        assert text[|text| - 1] == list[|list| - 1];
      } else {
        assert text == head;
        assert text[|text| - 1] == '\n';
      }
      assert ConsultSentence[|ConsultSentence| - 1] == '。';
    } else {
      assert text == (head + list) + ConsultSentence;
      assert text[|text| - |ConsultSentence|..] == ConsultSentence;
    }
  }

  /** The text `generateApplicationMessage` builds. */
  function ApplicationText(details: SubsidyDetails): string {
    ApplicationHead(details) + NumberedList(details.applicationInfo.requiredDocuments) + ApplicationTail(details)
  }

  function ApplicationHead(details: SubsidyDetails): string {
    "📋 " + details.name + "\n申請方法について\n\n" + "【申請期間】\n" + details.applicationInfo.applicationPeriod + "\n\n"
    + "【選考方法】\n" + details.applicationInfo.selectionMethod + "\n\n" + "【必要書類】\n"
  }

  function ApplicationTail(details: SubsidyDetails): string {
    "\n申請についての詳細は、実施機関にお問い合わせください。\n" + details.contact.organization + "\n"
    + "📞 " + details.contact.phone + "\n" + "🌐 " + details.contact.website
  }

  /** `generateApplicationMessage`. */
  method GenerateApplicationMessage(details: SubsidyDetails) returns (message: string)
    ensures message == ApplicationText(details)
  {
    message := ApplicationHead(details);
    message := AppendNumbered(message, details.applicationInfo.requiredDocuments);
    message := message + ApplicationTail(details);
  }

  /** `generateContactMessage`. */
  function ContactText(details: SubsidyDetails): string {
    "📋 " + details.name + "\n連絡先情報\n\n" + "【実施機関】\n" + details.contact.organization + "\n\n"
    + "【電話番号】\n" + details.contact.phone + "\n\n" + "【ウェブサイト】\n" + details.contact.website + "\n\n"
    + "お問い合わせの際は、補助金名をお伝えいただくとスムーズです。"
  }

  /** Every listed expense of the detail message, and every required document of the
      application message, appears as its own numbered line. */
  lemma MessagesNumberTheirLists(details: SubsidyDetails, isEligible: bool, recommendations: seq<string>, k: nat)
    ensures k < |details.supportDetails.supportedExpenses| ==>
              Includes(DetailText(details, isEligible, recommendations),
                       NumberedLine(k, details.supportDetails.supportedExpenses[k]))
    ensures k < |details.applicationInfo.requiredDocuments| ==>
              Includes(ApplicationText(details), NumberedLine(k, details.applicationInfo.requiredDocuments[k]))
  {
    var expenses := details.supportDetails.supportedExpenses;
    if k < |expenses| {
      NumberedListLine(expenses, k);
      var list := NumberedList(expenses);
      IncludesInConcat(DetailHead(details, isEligible), list, RecommendationSection(recommendations) + DetailTail(details));
      assert DetailHead(details, isEligible) + list + (RecommendationSection(recommendations) + DetailTail(details))
          == DetailText(details, isEligible, recommendations);
      IncludesTransitive(DetailText(details, isEligible, recommendations), list, NumberedLine(k, expenses[k]));
    }
    var documents := details.applicationInfo.requiredDocuments;
    if k < |documents| {
      NumberedListLine(documents, k);
      var list := NumberedList(documents);
      IncludesInConcat(ApplicationHead(details), list, ApplicationTail(details));
      IncludesTransitive(ApplicationText(details), list, NumberedLine(k, documents[k]));
    }
  }

  // ---------------------------------------------------------------------------------------
  // The use case

  const ErrorMessage := "申し訳ございません。メッセージの生成中にエラーが発生しました。"

  /** The message chosen by `requestType`; any value other than the four names falls back to
      the detail message, like the missing argument. */
  function MessageFor(requestType: string, details: SubsidyDetails, isEligible: bool, recommendations: seq<string>): string {
    if requestType == "eligibility" then EligibilityText(details, isEligible)
    else if requestType == "application" then ApplicationText(details)
    else if requestType == "contact" then ContactText(details)
    else DetailText(details, isEligible, recommendations)
  }

  /** The use case's answer. `details` is `None` when the record lacks one of the nested
      objects the builders read, so that reading it throws and the `catch` answers. */
  function GenerateMessage(user: UserAttributes, details: Option<SubsidyDetails>, requestType: string): GeneratedMessage {
    match details
    case None => GeneratedMessage(ErrorMessage, false, [])
    case Some(d) =>
      var isEligible := CheckEligibility(user, d);
      var recommendations := Recommendations(d, isEligible);
      GeneratedMessage(MessageFor(requestType, d, isEligible, recommendations), isEligible, recommendations)
  }

  /** The function `createMessageGenerationUsecase` returns; `requestType` defaults to
      `"details"`. */
  method GenerateMessageUsecase(user: UserAttributes, details: Option<SubsidyDetails>, requestType: string := "details")
    returns (g: GeneratedMessage)
    ensures g == GenerateMessage(user, details, requestType)
  {
    if details.None? {
      return GeneratedMessage(ErrorMessage, false, []);
    }
    var d := details.value;
    var isEligible := CheckEligibility(user, d);
    var recommendations := GenerateRecommendations(user, d, isEligible);
    var message: string;
    if requestType == "eligibility" {
      message := GenerateEligibilityMessage(d, user, isEligible);
    } else if requestType == "application" {
      message := GenerateApplicationMessage(d);
    } else if requestType == "contact" {
      message := ContactText(d);
    } else {
      message := GenerateDetailMessage(d, user, isEligible, recommendations);
    }
    g := GeneratedMessage(message, isEligible, recommendations);
  }

  /** The verdict and the recommendations do not depend on the kind of message asked for. */
  lemma RequestTypeOnlyChangesMessage(user: UserAttributes, details: Option<SubsidyDetails>, t1: string, t2: string)
    ensures GenerateMessage(user, details, t1).isEligible == GenerateMessage(user, details, t2).isEligible
    ensures GenerateMessage(user, details, t1).recommendations == GenerateMessage(user, details, t2).recommendations
  {
  }

  /** A failure answers with the fixed apology, not eligible and no recommendations; a
      successful answer always carries recommendations. */
  lemma ErrorAnswerShape(user: UserAttributes, details: Option<SubsidyDetails>, requestType: string)
    ensures details.None? ==> GenerateMessage(user, details, requestType) == GeneratedMessage(ErrorMessage, false, [])
    ensures details.Some? ==> |GenerateMessage(user, details, requestType).recommendations| >= 2
  {
  }
}
