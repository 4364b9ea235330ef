/** The CSV-backed subsidy repository over rows already read from the tab-separated file: the
    mapping of a row to `SubsidyData`, and the case-insensitive substring and word filter of
    `search`. Reading the file is an input: the rows, or the error the read rejects with. */
module SubsidyCsvRepository {
  import opened Wrappers
  import opened JsString
  import opened SubsidyRepository

  /** A raw CSV row: column name to cell. */
  type RawCsvData = map<string, string>

  /** `csvRow[column] || ""`. */
  function Column(row: RawCsvData, column: string): string {
    if column in row then row[column] else ""
  }

  /** `mapCsvToSubsidyData`: the name and the summary go to `subsidyName` and
      `subsidyDescription`; every other field is a copy of the `id` column. */
  function MapCsvToSubsidyData(row: RawCsvData): (d: SubsidyData)
    ensures d.subsidyName == Column(row, "name") && d.subsidyDescription == Column(row, "summary")
    ensures var id := Column(row, "id");
            && d.year == id && d.organizationNumber == id && d.organization == id
            && d.policyFieldNumber == id && d.policyField == id && d.businessName == id
            && d.targetNumber == id && d.target == id && d.budgetAmount == id
            && d.department == id && d.contact == id && d.url == id
  {
    var id := Column(row, "id");
    SubsidyData(id, id, id, id, id, id, Column(row, "name"), Column(row, "summary"), id, id, id, id, id, id)
  }

  /** The text of one searched field contains `needle`, both lower-cased. */
  predicate FieldsInclude(subsidy: SubsidyData, needle: string) {
    || Includes(ToLower(subsidy.subsidyName), needle)
    || Includes(ToLower(subsidy.subsidyDescription), needle)
    || Includes(ToLower(subsidy.target), needle)
    || Includes(ToLower(subsidy.businessName), needle)
  }

  /** The test of `filterSubsidies` for one entry: the lower-cased query, or one of its pieces
      split at white space, occurs in the name, description, target or business name. */
  predicate Matches(subsidy: SubsidyData, query: string) {
    var queryLower := ToLower(query);
    || FieldsInclude(subsidy, queryLower)
    || exists word | word in SplitOnWhiteSpace(queryLower) :: FieldsInclude(subsidy, word)
  }

  /** `filterSubsidies`: the entries that match, in their order, each as often as it occurs. */
  function FilterSubsidies(subsidies: seq<SubsidyData>, query: string): (r: seq<SubsidyData>)
    ensures forall s :: s in r <==> s in subsidies && Matches(s, query)
    ensures forall s :: multiset(r)[s] == if Matches(s, query) then multiset(subsidies)[s] else 0
  {
    Filter(subsidies, s => Matches(s, query))
  }

  /** `findAll`: every row, mapped. */
  function FindAll(read: Result<seq<RawCsvData>>): Result<seq<SubsidyData>> {
    match read
    case Failure(e) => Failure(e)
    case Success(rows) => Success(seq(|rows|, k requires 0 <= k < |rows| => MapCsvToSubsidyData(rows[k])))
  }

  /** `search`: the rows read, mapped, then filtered. */
  function Search(read: Result<seq<RawCsvData>>, query: string): Result<seq<SubsidyData>> {
    match FindAll(read)
    case Failure(e) => Failure(e)
    case Success(subsidies) => Success(FilterSubsidies(subsidies, query))
  }

  /** The filter returns its input with some entries left out and the rest in order. */
  lemma FilterKeepsOrder(subsidies: seq<SubsidyData>, query: string)
    ensures Subsequence(FilterSubsidies(subsidies, query), subsidies)
  {
    FilterIsSubsequence(subsidies, s => Matches(s, query));
  }

  /** `search` fails exactly when the read fails, and otherwise returns an ordered selection of
      what `findAll` returns on the same rows. */
  lemma SearchRefinesFindAll(read: Result<seq<RawCsvData>>, query: string)
    ensures Search(read, query).Failure? <==> read.Failure?
    ensures Search(read, query).Success? ==>
              Subsequence(Search(read, query).value, FindAll(read).value)
  {
    if read.Success? {
      FilterKeepsOrder(FindAll(read).value, query);
    }
  }

  /** Every entry contains the empty text, so a query whose lower-cased form has an empty piece
      keeps every entry. */
  lemma EmptyPieceKeepsAll(subsidies: seq<SubsidyData>, query: string)
    requires "" in SplitOnWhiteSpace(ToLower(query))
    ensures FilterSubsidies(subsidies, query) == subsidies
  {
    forall s | s in subsidies ensures Matches(s, query) {
      IncludesSelfAndEmpty(ToLower(s.subsidyName));
    }
    FilterAll(subsidies, s => Matches(s, query));
  }

  /** The empty query keeps every entry. */
  lemma EmptyQueryKeepsAll(subsidies: seq<SubsidyData>)
    ensures FilterSubsidies(subsidies, "") == subsidies
  {
    assert ToLower("") == "";
    assert SplitOnWhiteSpace("") == [""];
    EmptyPieceKeepsAll(subsidies, "");
  }

  /** A query that starts or ends with white space splits into an empty piece, so it keeps
      every entry. */
  lemma PaddedQueryKeepsAll(subsidies: seq<SubsidyData>, query: string)
    requires |query| > 0 && (IsWhiteSpace(query[0]) || IsWhiteSpace(query[|query| - 1]))
    ensures FilterSubsidies(subsidies, query) == subsidies
  {
    var lower := ToLower(query);
    if IsWhiteSpace(query[0]) {
      assert IsWhiteSpace(lower[0]);
      SplitLeadingWhiteSpace(lower);
    } else {
      assert IsWhiteSpace(lower[|lower| - 1]);
      SplitTrailingWhiteSpace(lower);
    }
    EmptyPieceKeepsAll(subsidies, query);
  }

  /** `target` and `businessName` are copies of the id, so a query that occurs in a row's id
      (both lower-cased) keeps that row. */
  lemma QueryInIdKeepsRow(row: RawCsvData, query: string)
    requires Includes(ToLower(Column(row, "id")), ToLower(query))
    ensures Matches(MapCsvToSubsidyData(row), query)
  {
  }
}
