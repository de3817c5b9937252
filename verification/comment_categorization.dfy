/**
 * `ContentCategorizer.batch_categorization` for comments: the result columns,
 * their initial values and the per-comment error text.
 */
module CommentCategorization {
  import opened Wrappers
  import opened Json
  import opened PyStr
  import opened Enrichment
  import opened Categorization

  const RowError := "Individual comment categorization error: "

  const Table := TableSchema(
    [ Column("Primary_Category", JStr("Uncategorized"), "primary_category", false),
      Column("Secondary_Categories", JNull, "secondary_categories", true),
      Column("Cat_confidence_Score", JReal(0.5), "confidence_score", false),
      Column("Keywords", JNull, "keywords", true),
      Column("Categorization_Reasoning", JStr(""), "reasoning", false) ],
    RowError)

  const Comments := Config(Categorization.Reply, Table)

  lemma CommentsValid()
    ensures Comments.Valid()
  {
    ReplyValid();
    assert Table.Valid();
    assert Comments.reply.IsKey("primary_category") by { assert Comments.reply.fields[0].key == "primary_category"; }
    assert Comments.reply.IsKey("secondary_categories") by { assert Comments.reply.fields[1].key == "secondary_categories"; }
    assert Comments.reply.IsKey("confidence_score") by { assert Comments.reply.fields[2].key == "confidence_score"; }
    assert Comments.reply.IsKey("keywords") by { assert Comments.reply.fields[3].key == "keywords"; }
    assert Comments.reply.IsKey("reasoning") by { assert Comments.reply.fields[4].key == "reasoning"; }
  }

  /** The copy of a row before processing: the five result columns hold their initial values. */
  lemma InitialColumns(row: Row)
    ensures var r := InitRow(Table.columns, row);
      && Has(r, "Primary_Category", JStr("Uncategorized"))
      && Has(r, "Secondary_Categories", JNull)
      && Has(r, "Cat_confidence_Score", JReal(0.5))
      && Has(r, "Keywords", JNull)
      && Has(r, "Categorization_Reasoning", JStr(""))
  {
    CommentsValid();
    var cols := Table.columns;
    InitRowValues(cols, row);
    assert cols[0].name == "Primary_Category" && cols[1].name == "Secondary_Categories";
    assert cols[2].name == "Cat_confidence_Score" && cols[3].name == "Keywords";
    assert cols[4].name == "Categorization_Reasoning";
  }

  /** What one input row becomes in the returned comment table. */
  function EnrichedComment(row: Row, commentColumn: string, c: Classifier): Row {
    CommentsValid();
    EnrichedRow(Comments, row, commentColumn, c)
  }

  /** The returned comment table, row by row. */
  function EnrichedComments(df: seq<Row>, commentColumn: string, c: Classifier): seq<Row> {
    CommentsValid();
    EnrichedTable(Comments, df, commentColumn, c)
  }

  /**
   * The batch update of a comment table: the result is a fresh copy processed
   * row by row, the classifier sees exactly the non-blank string comments in
   * row order, and there is one delay per window of batchSize rows.
   */
  method BatchCategorization(df: array<Row>, commentColumn: string, batchSize: int, c: Classifier)
    returns (out: Result<array<Row>, string>, calls: seq<string>, delays: nat)
    ensures batchSize == 0 ==> out == Failure(RangeStepZero) && calls == [] && delays == 0
    ensures batchSize != 0 ==> out.Success? && fresh(out.value)
    ensures batchSize > 0 ==> out.Success? && out.value[..] == EnrichedComments(df[..], commentColumn, c)
    ensures batchSize > 0 ==> calls == Texts(InitTable(Table.columns, df[..]), commentColumn)
    ensures batchSize < 0 ==> out.Success? && out.value[..] == InitTable(Table.columns, df[..]) && calls == []
    ensures delays == WindowCount(df.Length, batchSize)
  {
    CommentsValid();
    out, calls, delays := BatchEnrich(Comments, df, commentColumn, batchSize, c);
  }

  /** A comment that is not a non-blank string keeps every initial value and is not sent. */
  lemma SkippedComment(row: Row, commentColumn: string, c: Classifier)
    requires commentColumn in InitRow(Table.columns, row)
    requires !Processable(InitRow(Table.columns, row), commentColumn)
    ensures var r := EnrichedComment(row, commentColumn, c);
      && r == InitRow(Table.columns, row)
      && Has(r, "Primary_Category", JStr("Uncategorized"))
      && Has(r, "Secondary_Categories", JNull)
      && Has(r, "Cat_confidence_Score", JReal(0.5))
      && Has(r, "Keywords", JNull)
      && Has(r, "Categorization_Reasoning", JStr(""))
  {
    CommentsValid();
    InitialColumns(row);
  }

  /**
   * Without the text column every comment raises `KeyError` before the
   * classifier is called: only the reasoning column changes, to the error text.
   */
  lemma MissingCommentColumn(row: Row, commentColumn: string, c: Classifier)
    requires commentColumn !in InitRow(Table.columns, row)
    ensures EnrichedComment(row, commentColumn, c) ==
      InitRow(Table.columns, row)["Categorization_Reasoning" := JStr(RowError + Quote(commentColumn))]
  {
    CommentsValid();
    assert Table.Reasoning() == "Categorization_Reasoning";
  }

  /** The categorisation record of a comment that is sent to the classifier. */
  function CommentRecord(row: Row, commentColumn: string, c: Classifier): Dict
    requires Processable(InitRow(Table.columns, row), commentColumn)
  {
    CategorizeContent(InitRow(Table.columns, row)[commentColumn].s, c)
  }

  /**
   * The five `result_df.at` writes for one record, in order: the primary
   * category, the joined secondary categories, the confidence, the joined
   * keywords and the reasoning. A join that raises stops the writes and the
   * handler puts its message into the reasoning column.
   */
  function CommentRowWrites(init: Row, primary: Json, secondary: Result<string, string>, confidence: Json,
                      keywords: Result<string, string>, reasoning: Json): Row
  {
    var first := init["Primary_Category" := primary];
    if secondary.Failure? then first["Categorization_Reasoning" := JStr(RowError + secondary.error)]
    else
      var third := first["Secondary_Categories" := JStr(secondary.value)]["Cat_confidence_Score" := confidence];
      if keywords.Failure? then third["Categorization_Reasoning" := JStr(RowError + keywords.error)]
      else third["Keywords" := JStr(keywords.value)]["Categorization_Reasoning" := reasoning]
  }

  /** The generic column writes over this table are exactly the five writes above. */
  lemma CommentWriteColumns(init: Row, res: Dict)
    requires Get(res, "primary_category").Some? && Get(res, "secondary_categories").Some?
    requires Get(res, "confidence_score").Some? && Get(res, "keywords").Some? && Get(res, "reasoning").Some?
    ensures WriteColumns(Table.columns, init, res, "Categorization_Reasoning", RowError) ==
      CommentRowWrites(init, Get(res, "primary_category").value, JoinValue(Get(res, "secondary_categories").value),
        Get(res, "confidence_score").value, JoinValue(Get(res, "keywords").value), Get(res, "reasoning").value)
  {
    var cols := Table.columns;
    var r := "Categorization_Reasoning";
    var secondary := JoinValue(Get(res, "secondary_categories").value);
    var keywords := JoinValue(Get(res, "keywords").value);
    var first := init["Primary_Category" := Get(res, "primary_category").value];
    assert WriteColumns(cols, init, res, r, RowError) == WriteColumns(cols[1..], first, res, r, RowError);
    if secondary.Success? {
      var second := first["Secondary_Categories" := JStr(secondary.value)];
      var third := second["Cat_confidence_Score" := Get(res, "confidence_score").value];
      assert WriteColumns(cols[1..], first, res, r, RowError) == WriteColumns(cols[2..], second, res, r, RowError);
      assert WriteColumns(cols[2..], second, res, r, RowError) == WriteColumns(cols[3..], third, res, r, RowError);
      JoinedThenReasoning(cols[3..], third, res, r, RowError);
    }
  }

  /** A comment that is sent to the classifier gets the five writes of its categorisation record. */
  lemma ProcessedComment(row: Row, commentColumn: string, c: Classifier)
    requires Processable(InitRow(Table.columns, row), commentColumn)
    ensures var res := CommentRecord(row, commentColumn, c);
      EnrichedComment(row, commentColumn, c) ==
        CommentRowWrites(InitRow(Table.columns, row), Get(res, "primary_category").value,
          JoinValue(Get(res, "secondary_categories").value), Get(res, "confidence_score").value,
          JoinValue(Get(res, "keywords").value), Get(res, "reasoning").value)
  {
    CommentsValid();
    assert Table.Reasoning() == "Categorization_Reasoning";
    CommentWriteColumns(InitRow(Table.columns, row), CommentRecord(row, commentColumn, c));
  }

  /**
   * Column by column, for a comment row holding the initial values: the
   * primary category is always written; a secondary-categories join error
   * leaves the other columns at their initial values; a keywords join error
   * leaves the keywords at theirs; the reasoning column receives either the
   * record's reasoning or the error.
   */
  lemma CommentColumns(init: Row, primary: Json, secondary: Result<string, string>, confidence: Json,
                    keywords: Result<string, string>, reasoning: Json)
    requires Has(init, "Secondary_Categories", JNull) && Has(init, "Cat_confidence_Score", JReal(0.5)) && Has(init, "Keywords", JNull)
    ensures var r := CommentRowWrites(init, primary, secondary, confidence, keywords, reasoning);
      && Has(r, "Primary_Category", primary)
      && (secondary.Failure? ==>
            && Has(r, "Secondary_Categories", JNull)
            && Has(r, "Cat_confidence_Score", JReal(0.5))
            && Has(r, "Keywords", JNull)
            && Has(r, "Categorization_Reasoning", JStr(RowError + secondary.error)))
      && (secondary.Success? ==>
            && Has(r, "Secondary_Categories", JStr(secondary.value))
            && Has(r, "Cat_confidence_Score", confidence))
      && (secondary.Success? && keywords.Failure? ==>
            && Has(r, "Keywords", JNull)
            && Has(r, "Categorization_Reasoning", JStr(RowError + keywords.error)))
      && (secondary.Success? && keywords.Success? ==>
            && Has(r, "Keywords", JStr(keywords.value))
            && Has(r, "Categorization_Reasoning", reasoning))
  {
  }
}
