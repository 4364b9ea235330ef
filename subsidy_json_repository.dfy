/** The mock JSON repository: one fixed entry, whatever file path it is created with. */
module SubsidyJsonRepository {
  import opened Wrappers
  import opened JsString
  import opened SubsidyRepository

  /** The single entry of `mockData`. */
  const MockEntry := SubsidyData(
    "2024", "01", "政策企画局", "17", "その他", "デジタル化推進事業", "デジタル化支援補助金",
    "企業のデジタル化を支援する補助金です", "1", "中小企業", "1000000", "デジタル政策課",
    "03-1234-5678", "https://example.com")

  /** The repository `createJSONSubsidyRepository(jsonFilePath)` returns, as its two
      operations. */
  datatype JsonRepository = JsonRepository(jsonFilePath: Option<string>)

  /** `findAll`. */
  function FindAll(repo: JsonRepository): seq<SubsidyData> {
    [MockEntry]
  }

  /** The test of `search`: the lower-cased query occurs in the lower-cased name or
      description. */
  predicate Matches(subsidy: SubsidyData, query: string) {
    var queryLower := ToLower(query);
    Includes(ToLower(subsidy.subsidyName), queryLower) || Includes(ToLower(subsidy.subsidyDescription), queryLower)
  }

  /** `search`. */
  function Search(repo: JsonRepository, query: string): (r: seq<SubsidyData>)
    ensures r == [MockEntry] || r == []
    ensures r == [MockEntry] <==> Matches(MockEntry, query)
  {
    Filter(FindAll(repo), s => Matches(s, query))
  }

  /** `search` returns an ordered selection of `findAll`. */
  lemma SearchWithinFindAll(repo: JsonRepository, query: string)
    ensures Subsequence(Search(repo, query), FindAll(repo))
  {
    FilterIsSubsequence(FindAll(repo), s => Matches(s, query));
  }

  /** The empty query returns the entry. */
  lemma EmptyQueryFindsEntry(repo: JsonRepository)
    ensures Search(repo, "") == [MockEntry]
  {
    assert ToLower("") == "";
    IncludesSelfAndEmpty(ToLower(MockEntry.subsidyName));
  }

  /** Nothing depends on the file path. */
  lemma PathIgnored(p: Option<string>, q: Option<string>, query: string)
    ensures FindAll(JsonRepository(p)) == FindAll(JsonRepository(q))
    ensures Search(JsonRepository(p), query) == Search(JsonRepository(q), query)
  {
  }
}
