/**
 * `ContentCategorizer.categorize_content`, which is the same in the post and
 * the comment categoriser: the reply keys, their defaults and the fallback.
 */
module Categorization {
  import opened Wrappers
  import opened Json
  import opened Enrichment

  const Reply := ReplySchema(
    [ Field("primary_category", JStr("Uncategorized"), false),
      Field("secondary_categories", JArr([]), false),
      Field("confidence_score", JReal(0.5), true),
      Field("keywords", JArr([]), false),
      Field("reasoning", JStr("No specific reasoning provided"), false) ],
    "Error in categorization: ")

  lemma ReplyValid()
    ensures Reply.Valid()
  {}

  predicate IsCategoryKey(k: string) {
    k == "primary_category" || k == "secondary_categories" || k == "confidence_score"
    || k == "keywords" || k == "reasoning"
  }

  /** The categorisation record for one text: all five keys are always present. */
  function CategorizeContent(text: string, c: Classifier): (r: Dict)
    ensures forall k :: IsCategoryKey(k) ==> k in Keys(r)
    ensures Get(r, "primary_category").Some? && Get(r, "secondary_categories").Some?
    ensures Get(r, "confidence_score").Some? && Get(r, "keywords").Some? && Get(r, "reasoning").Some?
  {
    ReplyValid();
    var r := Classify(Reply, text, c);
    ClassifyKeys(Reply, text, c);
    assert Reply.fields[0].key in Keys(r) && Reply.fields[1].key in Keys(r) && Reply.fields[2].key in Keys(r);
    assert Reply.fields[3].key in Keys(r) && Reply.fields[4].key in Keys(r);
    r
  }

  /** The fallback record: every default, with the error text as reasoning. */
  function Default(message: string): Dict {
    [ ("primary_category", JStr("Uncategorized")),
      ("secondary_categories", JArr([])),
      ("confidence_score", JReal(0.5)),
      ("keywords", JArr([])),
      ("reasoning", JStr("Error in categorization: " + message)) ]
  }

  /**
   * A decoded dict reply whose confidence converts: each of the five keys
   * keeps the classifier's value, a missing one gets its default, and the
   * confidence goes through `float()`.
   */
  lemma CategorizeParsed(text: string, c: Classifier, d: Dict)
    requires c.reply(text) == Parsed(JObj(d))
    requires ToFloat(GetOr(d, "confidence_score", JReal(0.5)), c).Success?
    ensures var r := CategorizeContent(text, c);
      && Get(r, "primary_category") == Some(GetOr(d, "primary_category", JStr("Uncategorized")))
      && Get(r, "secondary_categories") == Some(GetOr(d, "secondary_categories", JArr([])))
      && Get(r, "confidence_score") == Some(JReal(ToFloat(GetOr(d, "confidence_score", JReal(0.5)), c).value))
      && Get(r, "keywords") == Some(GetOr(d, "keywords", JArr([])))
      && Get(r, "reasoning") == Some(GetOr(d, "reasoning", JStr("No specific reasoning provided")))
  {
    ReplyValid();
    var f := Reply.fields;
    assert f[2].numeric && f[2].key == "confidence_score";
    assert forall j :: 0 <= j < 5 && j != 2 ==> !f[j].numeric;
    ClassifyParsed(Reply, text, c, d);
    assert f[0].key == "primary_category" && f[1].key == "secondary_categories";
    assert f[3].key == "keywords" && f[4].key == "reasoning";
  }

  /** Keys of a valid dict reply other than the five are kept as the classifier gave them. */
  lemma CategorizeKeepsOthers(text: string, c: Classifier, d: Dict)
    requires c.reply(text) == Parsed(JObj(d))
    requires ToFloat(GetOr(d, "confidence_score", JReal(0.5)), c).Success?
    ensures forall k :: !IsCategoryKey(k) ==> Get(CategorizeContent(text, c), k) == Get(d, k)
  {
    ReplyValid();
    var f := Reply.fields;
    assert f[2].numeric && f[2].key == "confidence_score";
    assert forall j :: 0 <= j < 5 && j != 2 ==> !f[j].numeric;
    ClassifyParsed(Reply, text, c, d);
    forall k | !IsCategoryKey(k) ensures !Reply.IsKey(k) {}
  }

  /** The confidence is passed through as given, even outside [0, 1]; only its absence gives 0.5. */
  lemma ConfidenceNotClamped(text: string, c: Classifier, d: Dict, x: real)
    requires c.reply(text) == Parsed(JObj(d))
    requires Get(d, "confidence_score") == Some(JReal(x)) || Get(d, "confidence_score") == None
    ensures Get(CategorizeContent(text, c), "confidence_score") ==
      Some(JReal(if Get(d, "confidence_score") == None then 0.5 else x))
  {
    var y := if Get(d, "confidence_score") == None then 0.5 else x;
    assert GetOr(d, "confidence_score", JReal(0.5)) == JReal(y);
    assert ToFloat(JReal(y), c) == Success(y);
    CategorizeParsed(text, c, d);
  }

  lemma FallbackIsDefault(message: string)
    ensures Fallback(Reply, message) == Default(message)
  {
    var f := Fallback(Reply, message);
    assert |f| == 5;
    assert f[0] == Default(message)[0] && f[1] == Default(message)[1] && f[2] == Default(message)[2];
    assert f[3] == Default(message)[3] && f[4] == Default(message)[4];
  }

  /**
   * A failed service call or a reply that is not a dict gives the fixed
   * default record, with the error as reasoning.
   */
  lemma CategorizeFallback(text: string, c: Classifier)
    ensures c.reply(text).Failed? ==> CategorizeContent(text, c) == Default(c.reply(text).message)
    ensures c.reply(text).Parsed? && !c.reply(text).reply.JObj? ==>
      CategorizeContent(text, c) == Default(NoGet(c.reply(text).reply))
  {
    ReplyValid();
    if c.reply(text).Failed? {
      FallbackIsDefault(c.reply(text).message);
    } else if !c.reply(text).reply.JObj? {
      FallbackIsDefault(NoGet(c.reply(text).reply));
    }
  }

  /** A confidence that `float()` rejects discards the whole reply for the default record. */
  lemma CategorizeBadConfidence(text: string, c: Classifier, d: Dict)
    requires c.reply(text) == Parsed(JObj(d))
    requires ToFloat(GetOr(d, "confidence_score", JReal(0.5)), c).Failure?
    ensures CategorizeContent(text, c) ==
      Default(ToFloat(GetOr(d, "confidence_score", JReal(0.5)), c).error)
  {
    ReplyValid();
    var f := Reply.fields;
    var d1 := Put(d, "primary_category", GetOr(d, "primary_category", JStr("Uncategorized")));
    var d2 := Put(d1, "secondary_categories", GetOr(d1, "secondary_categories", JArr([])));
    GetPut(d, "primary_category", GetOr(d, "primary_category", JStr("Uncategorized")), "confidence_score");
    GetPut(d1, "secondary_categories", GetOr(d1, "secondary_categories", JArr([])), "confidence_score");
    var e := ToFloat(GetOr(d, "confidence_score", JReal(0.5)), c).error;
    assert Normalize(f, d, c) == Normalize(f[1..], d1, c);
    assert Normalize(f[1..], d1, c) == Normalize(f[2..], d2, c);
    assert Normalize(f[2..], d2, c) == Failure(e);
    FallbackIsDefault(e);
  }
}
