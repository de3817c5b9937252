/**
 * `SentimentAnalyzer`: `advanced_sentiment_analysis` (the reply keys, their
 * defaults and the fallback) and `batch_sentiment_analysis` (the result
 * columns, their initial values and the per-comment error text).
 */
module CommentSentiment {
  import opened Wrappers
  import opened Json
  import opened PyStr
  import opened Enrichment

  const Reply := ReplySchema(
    [ Field("sentiment", JStr("Neutral"), false),
      Field("confidence_score", JReal(0.5), true),
      Field("key_emotions", JArr([]), false),
      Field("reasoning", JStr("No specific reasoning provided"), false) ],
    "Error in analysis: ")

  lemma ReplyValid()
    ensures Reply.Valid()
  {}

  predicate IsSentimentKey(k: string) {
    k == "sentiment" || k == "confidence_score" || k == "key_emotions" || k == "reasoning"
  }

  /** The sentiment record for one comment: all four keys are always present. */
  function AdvancedSentimentAnalysis(comment: string, c: Classifier): (r: Dict)
    ensures forall k :: IsSentimentKey(k) ==> k in Keys(r)
    ensures Get(r, "sentiment").Some? && Get(r, "confidence_score").Some?
    ensures Get(r, "key_emotions").Some? && Get(r, "reasoning").Some?
  {
    ReplyValid();
    var r := Classify(Reply, comment, c);
    ClassifyKeys(Reply, comment, c);
    assert Reply.fields[0].key in Keys(r) && Reply.fields[1].key in Keys(r);
    assert Reply.fields[2].key in Keys(r) && Reply.fields[3].key in Keys(r);
    r
  }

  /** The fallback record: every default, with the error text as reasoning. */
  function Default(message: string): Dict {
    [ ("sentiment", JStr("Neutral")),
      ("confidence_score", JReal(0.5)),
      ("key_emotions", JArr([])),
      ("reasoning", JStr("Error in analysis: " + message)) ]
  }

  /**
   * A decoded dict reply whose confidence converts: each of the four keys
   * keeps the classifier's value, a missing one gets its default, and the
   * confidence goes through `float()`.
   */
  lemma SentimentParsed(comment: string, c: Classifier, d: Dict)
    requires c.reply(comment) == Parsed(JObj(d))
    requires ToFloat(GetOr(d, "confidence_score", JReal(0.5)), c).Success?
    ensures var r := AdvancedSentimentAnalysis(comment, c);
      && Get(r, "sentiment") == Some(GetOr(d, "sentiment", JStr("Neutral")))
      && Get(r, "confidence_score") == Some(JReal(ToFloat(GetOr(d, "confidence_score", JReal(0.5)), c).value))
      && Get(r, "key_emotions") == Some(GetOr(d, "key_emotions", JArr([])))
      && Get(r, "reasoning") == Some(GetOr(d, "reasoning", JStr("No specific reasoning provided")))
  {
    ReplyValid();
    var f := Reply.fields;
    assert f[1].numeric && f[1].key == "confidence_score";
    assert forall j :: 0 <= j < 4 && j != 1 ==> !f[j].numeric;
    ClassifyParsed(Reply, comment, c, d);
    assert f[0].key == "sentiment" && f[2].key == "key_emotions" && f[3].key == "reasoning";
  }

  /** Keys of a valid dict reply other than the four are kept as the classifier gave them. */
  lemma SentimentKeepsOthers(comment: string, c: Classifier, d: Dict)
    requires c.reply(comment) == Parsed(JObj(d))
    requires ToFloat(GetOr(d, "confidence_score", JReal(0.5)), c).Success?
    ensures forall k :: !IsSentimentKey(k) ==> Get(AdvancedSentimentAnalysis(comment, c), k) == Get(d, k)
  {
    ReplyValid();
    var f := Reply.fields;
    assert f[1].numeric && f[1].key == "confidence_score";
    assert forall j :: 0 <= j < 4 && j != 1 ==> !f[j].numeric;
    ClassifyParsed(Reply, comment, c, d);
    forall k | !IsSentimentKey(k) ensures !Reply.IsKey(k) {}
  }

  /**
   * The sentiment label is not checked against Positive, Negative and
   * Neutral: whatever value the reply holds is returned.
   */
  lemma SentimentNotChecked(comment: string, c: Classifier, d: Dict, given: Json)
    requires c.reply(comment) == Parsed(JObj(d))
    requires ToFloat(GetOr(d, "confidence_score", JReal(0.5)), c).Success?
    requires Get(d, "sentiment") == Some(given)
    ensures Get(AdvancedSentimentAnalysis(comment, c), "sentiment") == Some(given)
  {
    SentimentParsed(comment, c, d);
  }

  lemma FallbackIsDefault(message: string)
    ensures Fallback(Reply, message) == Default(message)
  {
    var f := Fallback(Reply, message);
    assert |f| == 4;
    assert f[0] == Default(message)[0] && f[1] == Default(message)[1];
    assert f[2] == Default(message)[2] && f[3] == Default(message)[3];
  }

  /**
   * A failed service call or a reply that is not a dict gives the fixed
   * default record, with the error as reasoning.
   */
  lemma SentimentFallback(comment: string, c: Classifier)
    ensures c.reply(comment).Failed? ==> AdvancedSentimentAnalysis(comment, c) == Default(c.reply(comment).message)
    ensures c.reply(comment).Parsed? && !c.reply(comment).reply.JObj? ==>
      AdvancedSentimentAnalysis(comment, c) == Default(NoGet(c.reply(comment).reply))
  {
    ReplyValid();
    if c.reply(comment).Failed? {
      FallbackIsDefault(c.reply(comment).message);
    } else if !c.reply(comment).reply.JObj? {
      FallbackIsDefault(NoGet(c.reply(comment).reply));
    }
  }

  /** A confidence that `float()` rejects discards the whole reply for the default record. */
  lemma SentimentBadConfidence(comment: string, c: Classifier, d: Dict)
    requires c.reply(comment) == Parsed(JObj(d))
    requires ToFloat(GetOr(d, "confidence_score", JReal(0.5)), c).Failure?
    ensures AdvancedSentimentAnalysis(comment, c) ==
      Default(ToFloat(GetOr(d, "confidence_score", JReal(0.5)), c).error)
  {
    ReplyValid();
    var f := Reply.fields;
    var d1 := Put(d, "sentiment", GetOr(d, "sentiment", JStr("Neutral")));
    GetPut(d, "sentiment", GetOr(d, "sentiment", JStr("Neutral")), "confidence_score");
    var e := ToFloat(GetOr(d, "confidence_score", JReal(0.5)), c).error;
    assert Normalize(f, d, c) == Normalize(f[1..], d1, c);
    assert Normalize(f[1..], d1, c) == Failure(e);
    FallbackIsDefault(e);
  }

  // ---------------------------------------------------------------- the table

  const RowError := "Individual comment analysis error: "

  const Table := TableSchema(
    [ Column("Sentiment", JStr("Neutral"), "sentiment", false),
      Column("Confidence_Score", JReal(0.5), "confidence_score", false),
      Column("Key_Emotions", JNull, "key_emotions", true),
      Column("Reasoning", JStr(""), "reasoning", false) ],
    RowError)

  const Comments := Config(Reply, Table)

  lemma CommentsValid()
    ensures Comments.Valid()
  {
    ReplyValid();
    assert Table.Valid();
    assert Comments.reply.IsKey("sentiment") by { assert Comments.reply.fields[0].key == "sentiment"; }
    assert Comments.reply.IsKey("confidence_score") by { assert Comments.reply.fields[1].key == "confidence_score"; }
    assert Comments.reply.IsKey("key_emotions") by { assert Comments.reply.fields[2].key == "key_emotions"; }
    assert Comments.reply.IsKey("reasoning") by { assert Comments.reply.fields[3].key == "reasoning"; }
  }

  /** The copy of a row before processing: the four result columns hold their initial values. */
  lemma InitialColumns(row: Row)
    ensures var r := InitRow(Table.columns, row);
      && Has(r, "Sentiment", JStr("Neutral"))
      && Has(r, "Confidence_Score", JReal(0.5))
      && Has(r, "Key_Emotions", JNull)
      && Has(r, "Reasoning", JStr(""))
  {
    CommentsValid();
    var cols := Table.columns;
    InitRowValues(cols, row);
    assert cols[0].name == "Sentiment" && cols[1].name == "Confidence_Score";
    assert cols[2].name == "Key_Emotions" && cols[3].name == "Reasoning";
  }

  /** What one input row becomes in the returned table. */
  function AnalyzedComment(row: Row, commentColumn: string, c: Classifier): Row {
    CommentsValid();
    EnrichedRow(Comments, row, commentColumn, c)
  }

  /** The returned table, row by row. */
  function AnalyzedComments(df: seq<Row>, commentColumn: string, c: Classifier): seq<Row> {
    CommentsValid();
    EnrichedTable(Comments, df, commentColumn, c)
  }

  /**
   * The batch update of a comment table: the result is a fresh copy processed
   * row by row, the classifier sees exactly the non-blank string comments in
   * row order, and there is one delay per window of batchSize rows.
   */
  method BatchSentimentAnalysis(df: array<Row>, commentColumn: string, batchSize: int, c: Classifier)
    returns (out: Result<array<Row>, string>, calls: seq<string>, delays: nat)
    ensures batchSize == 0 ==> out == Failure(RangeStepZero) && calls == [] && delays == 0
    ensures batchSize != 0 ==> out.Success? && fresh(out.value)
    ensures batchSize > 0 ==> out.Success? && out.value[..] == AnalyzedComments(df[..], commentColumn, c)
    ensures batchSize > 0 ==> calls == Texts(InitTable(Table.columns, df[..]), commentColumn)
    ensures batchSize < 0 ==> out.Success? && out.value[..] == InitTable(Table.columns, df[..]) && calls == []
    ensures delays == WindowCount(df.Length, batchSize)
  {
    CommentsValid();
    out, calls, delays := BatchEnrich(Comments, df, commentColumn, batchSize, c);
  }

  /** A comment that is not a non-blank string keeps every initial value and is not sent. */
  lemma SkippedComment(row: Row, commentColumn: string, c: Classifier)
    requires commentColumn in InitRow(Table.columns, row)
    requires !Processable(InitRow(Table.columns, row), commentColumn)
    ensures var r := AnalyzedComment(row, commentColumn, c);
      && r == InitRow(Table.columns, row)
      && Has(r, "Sentiment", JStr("Neutral"))
      && Has(r, "Confidence_Score", JReal(0.5))
      && Has(r, "Key_Emotions", JNull)
      && Has(r, "Reasoning", JStr(""))
  {
    CommentsValid();
    InitialColumns(row);
  }

  /**
   * Without the text column every comment raises `KeyError` before the
   * classifier is called: only the reasoning column changes, to the error text.
   */
  lemma MissingCommentColumn(row: Row, commentColumn: string, c: Classifier)
    requires commentColumn !in InitRow(Table.columns, row)
    ensures AnalyzedComment(row, commentColumn, c) ==
      InitRow(Table.columns, row)["Reasoning" := JStr(RowError + Quote(commentColumn))]
  {
    CommentsValid();
    assert Table.Reasoning() == "Reasoning";
  }

  /** The sentiment record of a comment that is sent to the classifier. */
  function CommentRecord(row: Row, commentColumn: string, c: Classifier): Dict
    requires Processable(InitRow(Table.columns, row), commentColumn)
  {
    AdvancedSentimentAnalysis(InitRow(Table.columns, row)[commentColumn].s, c)
  }

  /**
   * The four `result_df.at` writes for one record, in order: the sentiment,
   * the confidence, the joined emotions and the reasoning. A join that raises
   * stops the writes and the handler puts its message into the reasoning column.
   */
  function SentimentRowWrites(init: Row, sentiment: Json, confidence: Json,
                              emotions: Result<string, string>, reasoning: Json): Row
  {
    var second := init["Sentiment" := sentiment]["Confidence_Score" := confidence];
    if emotions.Failure? then second["Reasoning" := JStr(RowError + emotions.error)]
    else second["Key_Emotions" := JStr(emotions.value)]["Reasoning" := reasoning]
  }

  /** The generic column writes over this table are exactly the four writes above. */
  lemma SentimentWriteColumns(init: Row, res: Dict)
    requires Get(res, "sentiment").Some? && Get(res, "confidence_score").Some?
    requires Get(res, "key_emotions").Some? && Get(res, "reasoning").Some?
    ensures WriteColumns(Table.columns, init, res, "Reasoning", RowError) ==
      SentimentRowWrites(init, Get(res, "sentiment").value, Get(res, "confidence_score").value,
        JoinValue(Get(res, "key_emotions").value), Get(res, "reasoning").value)
  {
    var cols := Table.columns;
    var r := "Reasoning";
    var first := init["Sentiment" := Get(res, "sentiment").value];
    var second := first["Confidence_Score" := Get(res, "confidence_score").value];
    assert WriteColumns(cols, init, res, r, RowError) == WriteColumns(cols[1..], first, res, r, RowError);
    assert WriteColumns(cols[1..], first, res, r, RowError) == WriteColumns(cols[2..], second, res, r, RowError);
    JoinedThenReasoning(cols[2..], second, res, r, RowError);
  }

  /** A comment that is sent to the classifier gets the four writes of its sentiment record. */
  lemma ProcessedComment(row: Row, commentColumn: string, c: Classifier)
    requires Processable(InitRow(Table.columns, row), commentColumn)
    ensures var res := CommentRecord(row, commentColumn, c);
      AnalyzedComment(row, commentColumn, c) ==
        SentimentRowWrites(InitRow(Table.columns, row), Get(res, "sentiment").value, Get(res, "confidence_score").value,
          JoinValue(Get(res, "key_emotions").value), Get(res, "reasoning").value)
  {
    CommentsValid();
    assert Table.Reasoning() == "Reasoning";
    SentimentWriteColumns(InitRow(Table.columns, row), CommentRecord(row, commentColumn, c));
  }

  /**
   * Column by column, for a comment row holding the initial values: the
   * sentiment and the confidence are always written; an emotions join error
   * leaves the emotions at their initial value; the reasoning column receives
   * either the record's reasoning or the error.
   */
  lemma SentimentColumns(init: Row, sentiment: Json, confidence: Json,
                         emotions: Result<string, string>, reasoning: Json)
    requires Has(init, "Key_Emotions", JNull)
    ensures var r := SentimentRowWrites(init, sentiment, confidence, emotions, reasoning);
      && Has(r, "Sentiment", sentiment)
      && Has(r, "Confidence_Score", confidence)
      && (emotions.Failure? ==>
            && Has(r, "Key_Emotions", JNull)
            && Has(r, "Reasoning", JStr(RowError + emotions.error)))
      && (emotions.Success? ==>
            && Has(r, "Key_Emotions", JStr(emotions.value))
            && Has(r, "Reasoning", reasoning))
  {
  }
}
