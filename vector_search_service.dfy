/** Best-match search over the subsidy corpus: the user's message is embedded, the corpus rows
    whose `embed` column parses are loaded, and the entry with the greatest similarity to the
    message wins. The embedding service, the CSV stream, `JSON.parse` and the floating-point
    similarity are parameters; the sums of `cosineSimilarity` are computed over exact reals. */
module VectorSearchService {
  import opened Wrappers

  /** `SubsidyData`: one loaded corpus entry. */
  datatype SubsidyData = SubsidyData(id: string, name: string, summary: string, embedding: seq<real>)

  /** `VectorSearchResult`. */
  datatype VectorSearchResult = VectorSearchResult(subsidyId: string, subsidyName: string, similarity: real)

  // ---------------------------------------------------------------------------------------
  // cosineSimilarity

  const LengthMismatchError := "Vectors must have the same length"

  /** The dot product of two vectors of the same length, summed from the front. */
  function Dot(a: seq<real>, b: seq<real>): real
    requires |a| == |b|
  {
    if |a| == 0 then 0.0 else Dot(a[..|a| - 1], b[..|b| - 1]) + a[|a| - 1] * b[|b| - 1]
  }

  /** The three running sums of `cosineSimilarity`, before the final division. */
  datatype Sums = Sums(dotProduct: real, normA: real, normB: real)

  /** The accumulator loop of `cosineSimilarity`; the vectors must have the same length. The
      division by the product of the square roots is left to the caller. */
  method CosineSums(a: seq<real>, b: seq<real>) returns (r: Result<Sums>)
    ensures r.Failure? <==> |a| != |b|
    ensures r.Failure? ==> r.error == LengthMismatchError
    ensures r.Success? ==> r.value == Sums(Dot(a, b), Dot(a, a), Dot(b, b))
  {
    if |a| != |b| {
      return Failure(LengthMismatchError);
    }
    var dotProduct, normA, normB := 0.0, 0.0, 0.0;
    for i := 0 to |a|
      invariant dotProduct == Dot(a[..i], b[..i])
      invariant normA == Dot(a[..i], a[..i])
      invariant normB == Dot(b[..i], b[..i])
    {
      assert a[..i + 1][..i] == a[..i] && b[..i + 1][..i] == b[..i];
      dotProduct := dotProduct + a[i] * b[i];
      normA := normA + a[i] * a[i];
      normB := normB + b[i] * b[i];
    }
    assert a[..|a|] == a && b[..|b|] == b;
    return Success(Sums(dotProduct, normA, normB));
  }

  /** The dot product does not depend on the order of its arguments. */
  lemma {:induction false} DotSymmetric(a: seq<real>, b: seq<real>)
    requires |a| == |b|
    ensures Dot(a, b) == Dot(b, a)
  {
    if |a| > 0 {
      DotSymmetric(a[..|a| - 1], b[..|b| - 1]);
    }
  }

  /** A squared norm is never negative, so the square roots of `cosineSimilarity` are real. */
  lemma {:induction false} NormNonNegative(a: seq<real>)
    ensures Dot(a, a) >= 0.0
  {
    if |a| > 0 {
      NormNonNegative(a[..|a| - 1]);
      SquareNonNegative(a[|a| - 1]);
    }
  }

  lemma SquareNonNegative(x: real)
    ensures x * x >= 0.0
  {
    if x < 0.0 {
      assert x * x == (-x) * (-x);
    }
  }

  // ---------------------------------------------------------------------------------------
  // loadSubsidyData

  /** A CSV row as `csv-parser` hands it over. */
  datatype CsvRow = CsvRow(id: string, name: string, summary: string, embed: string)

  /** The rows the loader keeps, in file order: those whose `embed` column parses (`parse`
      stands for `JSON.parse`, `None` for a throw). */
  function Loaded(rows: seq<CsvRow>, parse: string -> Option<seq<real>>): (results: seq<SubsidyData>)
    ensures |results| <= |rows|
  {
    if rows == [] then []
    else
      var row := rows[|rows| - 1];
      var before := Loaded(rows[..|rows| - 1], parse);
      match parse(row.embed)
      case None => before
      case Some(embedding) => before + [SubsidyData(row.id, row.name, row.summary, embedding)]
  }

  /** The `data` handler over every row of the stream: parse the embedding and push the entry,
      or skip the row when parsing throws. */
  method LoadSubsidyData(rows: seq<CsvRow>, parse: string -> Option<seq<real>>) returns (results: seq<SubsidyData>)
    ensures results == Loaded(rows, parse)
  {
    results := [];
    for i := 0 to |rows|
      invariant results == Loaded(rows[..i], parse)
    {
      assert rows[..i + 1][..i] == rows[..i];
      var embedding := parse(rows[i].embed);
      if embedding.Some? {
        results := results + [SubsidyData(rows[i].id, rows[i].name, rows[i].summary, embedding.value)];
      }
    }
    assert rows[..|rows|] == rows;
  }

  /** Loading distributes over concatenation: the kept rows stay in file order. */
  lemma {:induction false} LoadedAppend(a: seq<CsvRow>, b: seq<CsvRow>, parse: string -> Option<seq<real>>)
    ensures Loaded(a + b, parse) == Loaded(a, parse) + Loaded(b, parse)
  {
    if b == [] {
      assert a + b == a;
    } else {
      assert (a + b)[..|a + b| - 1] == a + b[..|b| - 1];
      LoadedAppend(a, b[..|b| - 1], parse);
    }
  }

  /** A row whose embedding does not parse is dropped without a trace. */
  lemma LoadedDropsUnparsed(a: seq<CsvRow>, row: CsvRow, b: seq<CsvRow>, parse: string -> Option<seq<real>>)
    requires parse(row.embed).None?
    ensures Loaded(a + [row] + b, parse) == Loaded(a + b, parse)
  {
    LoadedAppend(a + [row], b, parse);
    LoadedAppend(a, [row], parse);
    LoadedAppend(a, b, parse);
    assert Loaded([row], parse) == [] by {
      assert [row][..0] == [];
    }
  }

  /** A row whose embedding parses becomes exactly one entry, at its place in file order. */
  lemma LoadedKeepsParsed(a: seq<CsvRow>, row: CsvRow, b: seq<CsvRow>, parse: string -> Option<seq<real>>)
    requires parse(row.embed).Some?
    ensures Loaded(a + [row] + b, parse)
         == Loaded(a, parse) + [SubsidyData(row.id, row.name, row.summary, parse(row.embed).value)] + Loaded(b, parse)
  {
    LoadedAppend(a + [row], b, parse);
    LoadedAppend(a, [row], parse);
    assert [row][..0] == [];
  }

  /** Every loaded entry comes from a row whose embedding parsed, with its fields unchanged. */
  lemma {:induction false} LoadedFromRows(rows: seq<CsvRow>, parse: string -> Option<seq<real>>, k: nat)
    requires k < |Loaded(rows, parse)|
    ensures var e := Loaded(rows, parse)[k];
            exists i | 0 <= i < |rows| ::
              && parse(rows[i].embed) == Some(e.embedding)
              && e == SubsidyData(rows[i].id, rows[i].name, rows[i].summary, e.embedding)
  {
    var init := rows[..|rows| - 1];
    var before := Loaded(init, parse);
    var e := Loaded(rows, parse)[k];
    if k < |before| {
      LoadedFromRows(init, parse, k);
      var i :| 0 <= i < |init| && parse(init[i].embed) == Some(before[k].embedding)
               && before[k] == SubsidyData(init[i].id, init[i].name, init[i].summary, before[k].embedding);
      assert rows[i] == init[i];
    } else {
      assert parse(rows[|rows| - 1].embed) == Some(e.embedding);
    }
  }

  // ---------------------------------------------------------------------------------------
  // performVectorSearch

  const NoEmbeddingsError := "No embeddings returned from Gemini API"
  const UndefinedValuesError := "Embedding values are undefined"

  /** One entry of the embedding service's `embeddings`. */
  datatype ContentEmbedding = ContentEmbedding(values: Option<seq<real>>)

  /** The embedding service's answer: `embeddings` may be missing. */
  datatype EmbedContentResponse = EmbedContentResponse(embeddings: Option<seq<ContentEmbedding>>)

  /** The value with which the search starts, and what it returns when nothing beats it. */
  const Sentinel := VectorSearchResult("", "", -1.0)

  /** Whether the loop scores an entry: its embedding has the query's dimension. */
  predicate Comparable(query: seq<real>, entry: SubsidyData) {
    |entry.embedding| == |query|
  }

  /** The result that selecting `entry` produces. */
  function ResultOf(query: seq<real>, entry: SubsidyData, similarity: (seq<real>, seq<real>) -> real): VectorSearchResult {
    VectorSearchResult(entry.id, entry.name, similarity(query, entry.embedding))
  }

  /** The running best after scanning `corpus`, with the strict `>` of the source. */
  function Best(query: seq<real>, corpus: seq<SubsidyData>, similarity: (seq<real>, seq<real>) -> real): VectorSearchResult {
    if corpus == [] then Sentinel
    else
      var best := Best(query, corpus[..|corpus| - 1], similarity);
      var entry := corpus[|corpus| - 1];
      if !Comparable(query, entry) then best
      else if similarity(query, entry.embedding) > best.similarity then ResultOf(query, entry, similarity)
      else best
  }

  /** The query embedding, or the error the source throws: a missing or empty `embeddings`, or
      a first entry without `values`. An empty `values` array is accepted. */
  function QueryEmbedding(response: EmbedContentResponse): (r: Result<seq<real>>)
    ensures r.Failure? <==> response.embeddings.None? || response.embeddings.value == []
                            || response.embeddings.value[0].values.None?
    ensures r.Success? ==> r.value == response.embeddings.value[0].values.value
  {
    if response.embeddings.None? || response.embeddings.value == [] then Failure(NoEmbeddingsError)
    else if response.embeddings.value[0].values.None? then Failure(UndefinedValuesError)
    else Success(response.embeddings.value[0].values.value)
  }

  /** `performVectorSearch`: `embedCall` is the embedding call (it may throw), `rows` the CSV
      stream (it may fail), `parse` stands for `JSON.parse` and `similarity` for the
      floating-point `cosineSimilarity` of two vectors of the same length. */
  method PerformVectorSearch(embedCall: Result<EmbedContentResponse>, rows: Result<seq<CsvRow>>,
                             parse: string -> Option<seq<real>>,
                             similarity: (seq<real>, seq<real>) -> real)
    returns (r: Result<VectorSearchResult>)
    ensures embedCall.Failure? ==> r == Failure(embedCall.error)
    ensures embedCall.Success? && QueryEmbedding(embedCall.value).Failure? ==>
              r == Failure(QueryEmbedding(embedCall.value).error)
    ensures embedCall.Success? && QueryEmbedding(embedCall.value).Success? && rows.Failure? ==>
              r == Failure(rows.error)
    ensures embedCall.Success? && QueryEmbedding(embedCall.value).Success? && rows.Success? ==>
              r == Success(Best(QueryEmbedding(embedCall.value).value, Loaded(rows.value, parse), similarity))
  {
    if embedCall.Failure? {
      return Failure(embedCall.error);
    }
    var query := QueryEmbedding(embedCall.value);
    if query.Failure? {
      return Failure(query.error);
    }
    var embedding := query.value;
    if rows.Failure? {
      return Failure(rows.error);
    }
    var subsidyData := LoadSubsidyData(rows.value, parse);
    var maxSimilarity := -1.0;
    var mostRelevantSubsidy := "";
    var mostRelevantSubsidyId := "";
    for i := 0 to |subsidyData|
      invariant VectorSearchResult(mostRelevantSubsidyId, mostRelevantSubsidy, maxSimilarity)
                == Best(embedding, subsidyData[..i], similarity)
    {
      assert subsidyData[..i + 1][..i] == subsidyData[..i];
      var subsidy := subsidyData[i];
      if |embedding| != |subsidy.embedding| {
        continue;
      }
      var s := similarity(embedding, subsidy.embedding);
      if s > maxSimilarity {
        maxSimilarity := s;
        mostRelevantSubsidy := subsidy.name;
        mostRelevantSubsidyId := subsidy.id;
      }
    }
    assert subsidyData[..|subsidyData|] == subsidyData;
    return Success(VectorSearchResult(mostRelevantSubsidyId, mostRelevantSubsidy, maxSimilarity));
  }

  // ---------------------------------------------------------------------------------------
  // Properties of the search

  /** The result never scores below the sentinel, and no comparable entry scores above it. */
  lemma {:induction false} BestIsMaximal(query: seq<real>, corpus: seq<SubsidyData>, similarity: (seq<real>, seq<real>) -> real)
    ensures Best(query, corpus, similarity).similarity >= -1.0
    ensures forall j | 0 <= j < |corpus| && Comparable(query, corpus[j]) ::
              similarity(query, corpus[j].embedding) <= Best(query, corpus, similarity).similarity
  {
    if corpus != [] {
      var init := corpus[..|corpus| - 1];
      BestIsMaximal(query, init, similarity);
      forall j | 0 <= j < |corpus| - 1 ensures corpus[j] == init[j] {
      }
    }
  }

  /** Either nothing was selected and the sentinel comes back, or the result is entirely that
      of one comparable entry `k`: it beats the sentinel, and every comparable entry before it
      scores strictly less (so ties keep the earlier entry). */
  lemma {:induction false} BestIsFirstMaximum(query: seq<real>, corpus: seq<SubsidyData>, similarity: (seq<real>, seq<real>) -> real)
    ensures var r := Best(query, corpus, similarity);
            || r == Sentinel
            || exists k | 0 <= k < |corpus| && Comparable(query, corpus[k]) ::
                 && r == ResultOf(query, corpus[k], similarity)
                 && r.similarity > -1.0
                 && forall j | 0 <= j < k && Comparable(query, corpus[j]) :: similarity(query, corpus[j].embedding) < r.similarity
  {
    if corpus != [] {
      var init := corpus[..|corpus| - 1];
      var best := Best(query, init, similarity);
      var last := |corpus| - 1;
      BestIsFirstMaximum(query, init, similarity);
      BestIsMaximal(query, init, similarity);
      if Best(query, corpus, similarity) != best {
        forall j | 0 <= j < last && Comparable(query, corpus[j])
          ensures similarity(query, corpus[j].embedding) < similarity(query, corpus[last].embedding)
        {
          assert corpus[j] == init[j];
        }
      } else if best != Sentinel {
        var k :| 0 <= k < |init| && Comparable(query, init[k])
                 && best == ResultOf(query, init[k], similarity) && best.similarity > -1.0
                 && forall j | 0 <= j < k && Comparable(query, init[j]) :: similarity(query, init[j].embedding) < best.similarity;
        assert corpus[k] == init[k];
        forall j | 0 <= j < k && Comparable(query, corpus[j])
          ensures similarity(query, corpus[j].embedding) < best.similarity
        {
          assert corpus[j] == init[j];
        }
      }
    }
  }

  /** With no comparable entry scoring above -1, the sentinel comes back. */
  lemma NothingBeatsSentinel(query: seq<real>, corpus: seq<SubsidyData>, similarity: (seq<real>, seq<real>) -> real)
    requires forall j | 0 <= j < |corpus| && Comparable(query, corpus[j]) :: similarity(query, corpus[j].embedding) <= -1.0
    ensures Best(query, corpus, similarity) == Sentinel
  {
    BestIsFirstMaximum(query, corpus, similarity);
  }

  /** An entry of another dimension is never scored: removing it does not change the result,
      wherever it stands. */
  lemma {:induction false} SkippedEntryIrrelevant(query: seq<real>, a: seq<SubsidyData>, entry: SubsidyData,
                                                  b: seq<SubsidyData>, similarity: (seq<real>, seq<real>) -> real)
    requires !Comparable(query, entry)
    ensures Best(query, a + [entry] + b, similarity) == Best(query, a + b, similarity)
  {
    if b == [] {
      assert (a + [entry] + b)[..|a|] == a && a + [entry] + b == a + [entry] && a + b == a;
    } else {
      var init := b[..|b| - 1];
      SkippedEntryIrrelevant(query, a, entry, init, similarity);
      assert (a + [entry] + b)[..|a + [entry] + b| - 1] == a + [entry] + init;
      assert (a + b)[..|a + b| - 1] == a + init;
    }
  }
}
