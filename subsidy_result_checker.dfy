/** Detection of an agent answer that says no subsidy was found: the answer counts as "found"
    unless its lower-cased text contains one of ten fixed phrases. */
module SubsidyResultChecker {
  import opened JsString

  /** `noSubsidyPatterns`, in their order. */
  const NoSubsidyPatterns: seq<string> := [
    "該当する補助金が見つかりません",
    "該当する補助金はありません",
    "補助金が見つかりません",
    "見つかりませんでした",
    "該当なし",
    "対象となる補助金がありません",
    "利用できる補助金が見つかりません",
    "条件に合う補助金が見つかりません",
    "申し訳ございませんが、該当する",
    "残念ながら該当する"]

  /** `patterns.some(p => lower.includes(p.toLowerCase()))`. */
  function SomeIncluded(lower: string, patterns: seq<string>): (r: bool)
    ensures r <==> exists i | 0 <= i < |patterns| :: Includes(lower, ToLower(patterns[i]))
  {
    if patterns == [] then false
    else
      var rest := SomeIncluded(lower, patterns[1..]);
      assert rest <==> exists i | 1 <= i < |patterns| :: Includes(lower, ToLower(patterns[i])) by {
        if rest {
          var i :| 0 <= i < |patterns[1..]| && Includes(lower, ToLower(patterns[1..][i]));
          assert patterns[i + 1] == patterns[1..][i];
        }
      }
      Includes(lower, ToLower(patterns[0])) || rest
  }

  /** `checkSubsidyFound`: false exactly when some phrase occurs in the lower-cased text. */
  function CheckSubsidyFound(responseText: string): (found: bool)
    ensures found <==> forall i | 0 <= i < |NoSubsidyPatterns| ::
                         !Includes(ToLower(responseText), ToLower(NoSubsidyPatterns[i]))
  {
    !SomeIncluded(ToLower(responseText), NoSubsidyPatterns)
  }

  /** None of the phrases has a cased character. */
  lemma PatternsUncased()
    ensures forall i, k | 0 <= i < |NoSubsidyPatterns| && 0 <= k < |NoSubsidyPatterns[i]| ::
              !IsCased(NoSubsidyPatterns[i][k])
  {
  }

  /** Lower-casing leaves text without cased characters as it is. */
  lemma ToLowerUncased(t: string)
    requires forall k | 0 <= k < |t| :: !IsCased(t[k])
    ensures ToLower(t) == t
  {
  }

  /** Because the phrases have no cased characters, the check is a plain substring test on the
      original text. */
  lemma FoundIsPlainSubstringTest(responseText: string)
    ensures CheckSubsidyFound(responseText)
        <==> forall i | 0 <= i < |NoSubsidyPatterns| :: !Includes(responseText, NoSubsidyPatterns[i])
  {
    PatternsUncased();
    forall i | 0 <= i < |NoSubsidyPatterns|
      ensures Includes(ToLower(responseText), ToLower(NoSubsidyPatterns[i]))
          <==> Includes(responseText, NoSubsidyPatterns[i])
    {
      ToLowerUncased(NoSubsidyPatterns[i]);
      IncludesLowerUncased(responseText, NoSubsidyPatterns[i]);
    }
  }

  /** The empty answer counts as found: every phrase is longer than it. */
  lemma EmptyTextIsFound()
    ensures CheckSubsidyFound("")
  {
    assert ToLower("") == "";
    forall i | 0 <= i < |NoSubsidyPatterns| ensures !Includes("", ToLower(NoSubsidyPatterns[i])) {
      assert |ToLower(NoSubsidyPatterns[i])| == |NoSubsidyPatterns[i]| > 0;
    }
  }

  /** Monotone: a text that contains a "not found" text is itself "not found". */
  lemma NotFoundIsMonotone(t: string, s: string)
    requires !CheckSubsidyFound(t) && Includes(s, t)
    ensures !CheckSubsidyFound(s)
  {
    FoundIsPlainSubstringTest(t);
    FoundIsPlainSubstringTest(s);
    var i :| 0 <= i < |NoSubsidyPatterns| && Includes(t, NoSubsidyPatterns[i]);
    IncludesTransitive(s, t, NoSubsidyPatterns[i]);
  }

  /** `該当なし` anywhere, even inside an otherwise positive answer, means "not found". */
  lemma GaitouNashiAnywhere(before: string, after: string)
    ensures !CheckSubsidyFound(before + "該当なし" + after)
  {
    FoundIsPlainSubstringTest(before + "該当なし" + after);
    IncludesInConcat(before, "該当なし", after);
    assert NoSubsidyPatterns[4] == "該当なし";
  }
}
