/**
 * `ContentCategorizer.batch_categorization` for posts: the result columns,
 * their initial values and the per-post error text.
 */
module PostCategorization {
  import opened Wrappers
  import opened Json
  import opened PyStr
  import opened Enrichment
  import opened Categorization

  const RowError := "Individual post categorization error: "

  const Table := TableSchema(
    [ Column("Primary_Category", JStr("Uncategorized"), "primary_category", false),
      Column("Secondary_Categories", JNull, "secondary_categories", true),
      Column("Confidence_Score", JReal(0.5), "confidence_score", false),
      Column("Keywords", JNull, "keywords", true),
      Column("Categorization_Reasoning", JStr(""), "reasoning", false) ],
    RowError)

  const Posts := Config(Categorization.Reply, Table)

  lemma PostsValid()
    ensures Posts.Valid()
  {
    ReplyValid();
    assert Table.Valid();
    assert Posts.reply.IsKey("primary_category") by { assert Posts.reply.fields[0].key == "primary_category"; }
    assert Posts.reply.IsKey("secondary_categories") by { assert Posts.reply.fields[1].key == "secondary_categories"; }
    assert Posts.reply.IsKey("confidence_score") by { assert Posts.reply.fields[2].key == "confidence_score"; }
    assert Posts.reply.IsKey("keywords") by { assert Posts.reply.fields[3].key == "keywords"; }
    assert Posts.reply.IsKey("reasoning") by { assert Posts.reply.fields[4].key == "reasoning"; }
  }

  /** The copy of a row before processing: the five result columns hold their initial values. */
  lemma InitialColumns(row: Row)
    ensures var r := InitRow(Table.columns, row);
      && Has(r, "Primary_Category", JStr("Uncategorized"))
      && Has(r, "Secondary_Categories", JNull)
      && Has(r, "Confidence_Score", JReal(0.5))
      && Has(r, "Keywords", JNull)
      && Has(r, "Categorization_Reasoning", JStr(""))
  {
    PostsValid();
    var cols := Table.columns;
    InitRowValues(cols, row);
    assert cols[0].name == "Primary_Category" && cols[1].name == "Secondary_Categories";
    assert cols[2].name == "Confidence_Score" && cols[3].name == "Keywords";
    assert cols[4].name == "Categorization_Reasoning";
  }

  /** What one input row becomes in the returned post table. */
  function EnrichedPost(row: Row, postColumn: string, c: Classifier): Row {
    PostsValid();
    EnrichedRow(Posts, row, postColumn, c)
  }

  /** The returned post table, row by row. */
  function EnrichedPosts(df: seq<Row>, postColumn: string, c: Classifier): seq<Row> {
    PostsValid();
    EnrichedTable(Posts, df, postColumn, c)
  }

  /**
   * The batch update of a post table: the result is a fresh copy processed
   * row by row, the classifier sees exactly the non-blank string posts in
   * row order, and there is one delay per window of batchSize rows.
   */
  method BatchCategorization(df: array<Row>, postColumn: string, batchSize: int, c: Classifier)
    returns (out: Result<array<Row>, string>, calls: seq<string>, delays: nat)
    ensures batchSize == 0 ==> out == Failure(RangeStepZero) && calls == [] && delays == 0
    ensures batchSize != 0 ==> out.Success? && fresh(out.value)
    ensures batchSize > 0 ==> out.Success? && out.value[..] == EnrichedPosts(df[..], postColumn, c)
    ensures batchSize > 0 ==> calls == Texts(InitTable(Table.columns, df[..]), postColumn)
    ensures batchSize < 0 ==> out.Success? && out.value[..] == InitTable(Table.columns, df[..]) && calls == []
    ensures delays == WindowCount(df.Length, batchSize)
  {
    PostsValid();
    out, calls, delays := BatchEnrich(Posts, df, postColumn, batchSize, c);
  }

  /** A post that is not a non-blank string keeps every initial value and is not sent. */
  lemma SkippedPost(row: Row, postColumn: string, c: Classifier)
    requires postColumn in InitRow(Table.columns, row)
    requires !Processable(InitRow(Table.columns, row), postColumn)
    ensures var r := EnrichedPost(row, postColumn, c);
      && r == InitRow(Table.columns, row)
      && Has(r, "Primary_Category", JStr("Uncategorized"))
      && Has(r, "Secondary_Categories", JNull)
      && Has(r, "Confidence_Score", JReal(0.5))
      && Has(r, "Keywords", JNull)
      && Has(r, "Categorization_Reasoning", JStr(""))
  {
    PostsValid();
    InitialColumns(row);
  }

  /**
   * Without the text column every post raises `KeyError` before the
   * classifier is called: only the reasoning column changes, to the error text.
   */
  lemma MissingPostColumn(row: Row, postColumn: string, c: Classifier)
    requires postColumn !in InitRow(Table.columns, row)
    ensures EnrichedPost(row, postColumn, c) ==
      InitRow(Table.columns, row)["Categorization_Reasoning" := JStr(RowError + Quote(postColumn))]
  {
    PostsValid();
    assert Table.Reasoning() == "Categorization_Reasoning";
  }

  /** The categorisation record of a post that is sent to the classifier. */
  function PostRecord(row: Row, postColumn: string, c: Classifier): Dict
    requires Processable(InitRow(Table.columns, row), postColumn)
  {
    CategorizeContent(InitRow(Table.columns, row)[postColumn].s, c)
  }

  /**
   * The five `result_df.at` writes for one record, in order: the primary
   * category, the joined secondary categories, the confidence, the joined
   * keywords and the reasoning. A join that raises stops the writes and the
   * handler puts its message into the reasoning column.
   */
  function PostRowWrites(init: Row, primary: Json, secondary: Result<string, string>, confidence: Json,
                      keywords: Result<string, string>, reasoning: Json): Row
  {
    var first := init["Primary_Category" := primary];
    if secondary.Failure? then first["Categorization_Reasoning" := JStr(RowError + secondary.error)]
    else
      var third := first["Secondary_Categories" := JStr(secondary.value)]["Confidence_Score" := confidence];
      if keywords.Failure? then third["Categorization_Reasoning" := JStr(RowError + keywords.error)]
      else third["Keywords" := JStr(keywords.value)]["Categorization_Reasoning" := reasoning]
  }

  /** The generic column writes over this table are exactly the five writes above. */
  lemma PostWriteColumns(init: Row, res: Dict)
    requires Get(res, "primary_category").Some? && Get(res, "secondary_categories").Some?
    requires Get(res, "confidence_score").Some? && Get(res, "keywords").Some? && Get(res, "reasoning").Some?
    ensures WriteColumns(Table.columns, init, res, "Categorization_Reasoning", RowError) ==
      PostRowWrites(init, Get(res, "primary_category").value, JoinValue(Get(res, "secondary_categories").value),
        Get(res, "confidence_score").value, JoinValue(Get(res, "keywords").value), Get(res, "reasoning").value)
  {
    var cols := Table.columns;
    var r := "Categorization_Reasoning";
    var secondary := JoinValue(Get(res, "secondary_categories").value);
    var keywords := JoinValue(Get(res, "keywords").value);
    var first := init["Primary_Category" := Get(res, "primary_category").value];
    assert WriteColumns(cols, init, res, r, RowError) == WriteColumns(cols[1..], first, res, r, RowError);
    if secondary.Success? {
      var second := first["Secondary_Categories" := JStr(secondary.value)];
      var third := second["Confidence_Score" := Get(res, "confidence_score").value];
      assert WriteColumns(cols[1..], first, res, r, RowError) == WriteColumns(cols[2..], second, res, r, RowError);
      assert WriteColumns(cols[2..], second, res, r, RowError) == WriteColumns(cols[3..], third, res, r, RowError);
      JoinedThenReasoning(cols[3..], third, res, r, RowError);
    }
  }

  /** A post that is sent to the classifier gets the five writes of its categorisation record. */
  lemma ProcessedPost(row: Row, postColumn: string, c: Classifier)
    requires Processable(InitRow(Table.columns, row), postColumn)
    ensures var res := PostRecord(row, postColumn, c);
      EnrichedPost(row, postColumn, c) ==
        PostRowWrites(InitRow(Table.columns, row), Get(res, "primary_category").value,
          JoinValue(Get(res, "secondary_categories").value), Get(res, "confidence_score").value,
          JoinValue(Get(res, "keywords").value), Get(res, "reasoning").value)
  {
    PostsValid();
    assert Table.Reasoning() == "Categorization_Reasoning";
    PostWriteColumns(InitRow(Table.columns, row), PostRecord(row, postColumn, c));
  }

  /**
   * Column by column, for a post row holding the initial values: the
   * primary category is always written; a secondary-categories join error
   * leaves the other columns at their initial values; a keywords join error
   * leaves the keywords at theirs; the reasoning column receives either the
   * record's reasoning or the error.
   */
  lemma PostColumns(init: Row, primary: Json, secondary: Result<string, string>, confidence: Json,
                    keywords: Result<string, string>, reasoning: Json)
    requires Has(init, "Secondary_Categories", JNull) && Has(init, "Confidence_Score", JReal(0.5)) && Has(init, "Keywords", JNull)
    ensures var r := PostRowWrites(init, primary, secondary, confidence, keywords, reasoning);
      && Has(r, "Primary_Category", primary)
      && (secondary.Failure? ==>
            && Has(r, "Secondary_Categories", JNull)
            && Has(r, "Confidence_Score", JReal(0.5))
            && Has(r, "Keywords", JNull)
            && Has(r, "Categorization_Reasoning", JStr(RowError + secondary.error)))
      && (secondary.Success? ==>
            && Has(r, "Secondary_Categories", JStr(secondary.value))
            && Has(r, "Confidence_Score", confidence))
      && (secondary.Success? && keywords.Failure? ==>
            && Has(r, "Keywords", JNull)
            && Has(r, "Categorization_Reasoning", JStr(RowError + keywords.error)))
      && (secondary.Success? && keywords.Success? ==>
            && Has(r, "Keywords", JStr(keywords.value))
            && Has(r, "Categorization_Reasoning", reasoning))
  {
  }
}
