# Enrichment batches and the work-item hierarchy delete

This project models two small parts of a social-media and DevOps toolkit.

**Classifier enrichment.** Three Facebook scripts share one algorithm:
- `ContentCategorizer` in `post_message_categorization.py`;
- `ContentCategorizer` in `comment_message_categorization.py`;
- `SentimentAnalyzer` in `comment_sentiment.py`.

Each has two methods:
- A **per-text** method: `categorize_content` or `advanced_sentiment_analysis`.
  - It sends one text to a language-model service and decodes the JSON reply.
  - It fills in a default for every missing reply key and passes the confidence through `float()`.
  - If any step raises, it returns a fixed default record instead. That record's reasoning holds the error text.
- A **batch** method: `batch_categorization` or `batch_sentiment_analysis`.
  - It copies a table and adds result columns holding their initial values.
  - It walks the rows in consecutive windows of `batch_size`.
  - A row whose text is not a non-blank string is skipped.
  - Every other row gets one call to the per-text method, and its result columns are written in place.
  - An error in one row only rewrites that row's reasoning column.
  - It sleeps once after every window.

The three scripts differ only in these things:
- the reply keys and their defaults;
- the result column names and initial values;
- which columns are joined with `", "`;
- the error prefixes.

**Hierarchy delete.** `deletedescendants.py` deletes an Azure DevOps work item together with all its descendants:
- `get_descendants` reads a work item's child ids from its `System.LinkTypes.Hierarchy-Forward` relations. Each id is the URL text after the last `/`.
- `delete_hierarchy_recursive` deletes every child subtree first, then the work item itself.
- `delete_work_item` issues one DELETE and logs success (status 204) or failure.

## Structure

Modules:
- `Wrappers`: `Option` and `Result`.
- `Json`: decoded JSON values. A dict is an insertion-ordered list of key/value pairs, as in a Python `dict`.
- `PyStr`: the Python string operations the code uses, which are `strip()` blankness, `join`, `split`, `str(n)` and `repr`.
- `Enrichment`: one model of the per-text method and the batch method, parameterised by a `ReplySchema` and a `TableSchema`.
- `Categorization`: `categorize_content`. It is the same code in both categorisation scripts, apart from names and prompt text.
- `PostCategorization`, `CommentCategorization`, `CommentSentiment`: the per-script instances.
- `DeleteDescendants`: the walker.

How the external pieces are modelled:
- **The service.** A `Classifier` stands for the service. `reply(text)` is either `Failed(message)`, for any error up to and including JSON decoding, or `Parsed(json)`. `parseFloat` stands for `float()` applied to a string.
- **The table.** A table is an `array<Row>`, where a row is a map from column name to cell.
- **The batch methods** return three things: the new table, the list of texts sent to the service, and the number of delays.
- **The walker.** It takes the two REST calls as functions:
  - `fetch(id)` gives the status code and the `relations` list, when present;
  - `delete(id)` gives the status code.

  It returns the log of the DELETEs it issued. The walker keeps no visited set. A ghost ranking function, `Ranked`, states that every link of the hierarchy goes to a lower rank. That is a sufficient condition for termination, and it holds for Azure DevOps' single-parent hierarchy, which has no cycles. The code itself loops only on a cycle reachable from the root, so a cycle elsewhere would not stop it.

The table methods and the walker are proved against specification functions:
- `EnrichedTable` and `Texts` specify the table methods;
- `WindowCount` specifies the number of delays;
- `Children` and `DeleteOrder` specify the walker.

The properties of those functions are proved as lemmas.

Points where the code does not do what its own comments and prompt text suggest. The model follows the code:
- **Delays.** The docstring and the comment call the sleep a "random delay between batches" (`post_message_categorization.py:109` and `:148`, `comment_sentiment.py:137`). The code also sleeps after the last window, so there are ⌈n / batch_size⌉ delays, not one fewer (`Enrichment.WindowsCount`, `Enrichment.RunWindows`).
- **Confidence.** The prompt asks the service for "confidence_score: Confidence level (0-1)" (`post_message_categorization.py:63`). The code neither checks nor clamps that range: it passes any value that `float()` accepts through unchanged (`Categorization.ConfidenceNotClamped`).

## Model

| member | source | states |
|---|---|---|
| Categorization.ReplyValid | Python/Facebook/post_message_categorization.py:78-82 | the reply schema is well formed: the five keys are distinct, and the last one (the reasoning) is not numeric |
| Categorization.CategorizeContent | Python/Facebook/post_message_categorization.py:75-93 | whatever the service does, the record holds all five keys |
| Categorization.CategorizeParsed | Python/Facebook/post_message_categorization.py:75-84 | for a dict reply whose confidence converts, each key holds the reply's value or else its default; the confidence is `float()` of the given value or of 0.5 |
| Categorization.CategorizeKeepsOthers | Python/Facebook/post_message_categorization.py:75-84 | for such a reply, every key other than the five keeps the reply's value, or stays absent |
| Categorization.ConfidenceNotClamped | Python/Facebook/post_message_categorization.py:80 | a numeric confidence is returned as given, even outside [0, 1]; only a missing one becomes 0.5 |
| Categorization.FallbackIsDefault | Python/Facebook/post_message_categorization.py:86-93 | the generic fallback is the literal default record with the prefix "Error in categorization: " |
| Categorization.CategorizeFallback | Python/Facebook/post_message_categorization.py:75-93 | a failed call, or a reply that is not a dict (`.get` raises), gives the default record with that error |
| Categorization.CategorizeBadConfidence | Python/Facebook/post_message_categorization.py:80-93 | a confidence that `float()` rejects discards the whole reply and gives the default record with `float()`'s error |
| Enrichment.ToFloat | Python/Facebook/post_message_categorization.py:80 | `float()` accepts every int, float and bool, and rejects null, list and dict |
| Enrichment.ClassifyKeys | Python/Facebook/post_message_categorization.py:75-93 | on every path, success or fallback, the record holds every schema key |
| Enrichment.FallbackKeys | Python/Facebook/post_message_categorization.py:86-93 | the fallback record holds every key, with its default, and the reasoning holds prefix + error |
| Enrichment.NormalizeSucceeds | Python/Facebook/post_message_categorization.py:78-82 | the validation statements all complete if and only if each field validates on the original reply |
| Enrichment.NormalizeValues | Python/Facebook/post_message_categorization.py:78-82 | after successful validation, each key holds its validated value (reply value or default, numeric through `float()`) |
| Enrichment.NormalizeOthers | Python/Facebook/post_message_categorization.py:78-84 | successful validation leaves every non-schema key of the reply as it was |
| Enrichment.NormalizeError | Python/Facebook/post_message_categorization.py:78-82 | failed validation carries the error of the first field that fails, and all fields before it validate |
| Enrichment.NormalizeSpec | Python/Facebook/post_message_categorization.py:78-84 | the four facts above together: success if and only if every field validates, the values set, other keys kept, the first error |
| Enrichment.ClassifyParsed | Python/Facebook/post_message_categorization.py:75-84 | for a dict reply whose fields all validate, each schema key holds its validated value and every other key is the reply's |
| Enrichment.ClassifyFails | Python/Facebook/post_message_categorization.py:75-93 | a service error, or a decoded value that is not a dict, gives a record holding exactly the schema keys in order, each at its default, with prefix + error in the reasoning; for a non-dict the error is `'<type>' object has no attribute 'get'` |
| Enrichment.ClassifyFieldFails | Python/Facebook/post_message_categorization.py:80-93 | when some field of a dict reply fails, the result is the fallback with the error of the first failing field |
| Enrichment.NormalizeSameFloat | Python/Facebook/post_message_categorization.py:78-82 | validation depends on the classifier only through `float()` |
| Enrichment.InitRowKeys | Python/Facebook/post_message_categorization.py:114-121 | the initialised row has exactly the input's columns plus the result columns |
| Enrichment.InitRowValues | Python/Facebook/post_message_categorization.py:114-121 | every result column holds its initial value, and every other input column is copied unchanged |
| Enrichment.InitTable | Python/Facebook/post_message_categorization.py:114 | the copy has as many rows as the input |
| Enrichment.FirstNonString | Python/Facebook/post_message_categorization.py:140 | the index where `join` first meets a non-string item: every item before it is a string, and the item there is not |
| Enrichment.JoinValueFails | Python/Facebook/post_message_categorization.py:140-142 | `', '.join(v)` raises if and only if v is not a string, not a dict and not a list of strings; for a list, the error names the first item that is not a string |
| Enrichment.ProcessableStrip | Python/Facebook/post_message_categorization.py:130-133 | a row is sent to the service if and only if its text column holds a string whose `strip()` is non-empty |
| Enrichment.JoinedThenReasoning | Python/Facebook/post_message_categorization.py:142-146 | the last two writes, a joined column then the reasoning column: both are written, or a failing join puts its error into the reasoning column and leaves the joined column alone |
| Enrichment.WriteColumns | Python/Facebook/post_message_categorization.py:139-146 | the writes of a row never remove a column |
| Enrichment.FirstFailure | Python/Facebook/post_message_categorization.py:139-146 | the first write that raises: every write before it succeeds, and the one at it fails |
| Enrichment.WriteColumnsFrame | Python/Facebook/post_message_categorization.py:139-146 | the writes keep the row's columns, and change only the result columns and the reasoning column |
| Enrichment.WriteColumnsWritten | Python/Facebook/post_message_categorization.py:139-146 | the columns before the first failing write receive their values; on a failure, the reasoning column receives prefix + error |
| Enrichment.WriteColumnsKept | Python/Facebook/post_message_categorization.py:139-146 | the columns from the first failing write on keep what they held, apart from the reasoning column |
| Enrichment.WriteColumnsSpec | Python/Facebook/post_message_categorization.py:139-146 | the three lemmas above together: written prefix, kept suffix, error in the reasoning column, nothing else changed |
| Enrichment.ProcessRowSpec | Python/Facebook/post_message_categorization.py:129-146 | a missing text column writes only the KeyError text into the reasoning column; a non-processable text leaves the row alone; a processed row gets the written prefix, the kept suffix and the error, and the only write that can fail is a join |
| Enrichment.SkippedRowKeepsDefaults | Python/Facebook/post_message_categorization.py:132-133 | a skipped row comes out equal to its initialised copy, with every result column at its initial value |
| Enrichment.RowIsolation | Python/Facebook/post_message_categorization.py:129-146 | for any two classifiers that agree on the row's own text (and on `float()`), the row comes out the same: its outcome depends only on the service's answer for that text |
| Enrichment.ClassifierIsolation | Python/Facebook/post_message_categorization.py:128-146 | changing the service's answer for one text changes no row with a different text |
| Enrichment.EnrichedTable | Python/Facebook/post_message_categorization.py:114-155 | the result has as many rows as the input, in the same order |
| Enrichment.TextsSpec | Python/Facebook/post_message_categorization.py:132-136 | a text is sent if and only if some row holds it as non-blank string text; there are never more calls than rows |
| Enrichment.TextsCount | Python/Facebook/post_message_categorization.py:132-136 | the number of calls equals the number of rows whose text is a non-blank string |
| Enrichment.WindowsCount | Python/Facebook/post_message_categorization.py:124 | `range(lo, n, size)` has ⌈(n - lo) / size⌉ starts, and none when lo >= n |
| Enrichment.WindowsShape | Python/Facebook/post_message_categorization.py:124-126 | window k is `[lo + k*size, min(lo + k*size + size, n))` |
| Enrichment.WindowsBounds | Python/Facebook/post_message_categorization.py:124-126 | every window is non-empty and holds at most `size` rows |
| Enrichment.WindowsAdjacent | Python/Facebook/post_message_categorization.py:124-126 | each window starts where the previous one ends: no gap and no overlap |
| Enrichment.WindowsEnds | Python/Facebook/post_message_categorization.py:124-126 | the windows start at the first row and end at the last one, so the last window may be shorter |
| Enrichment.WindowsCover | Python/Facebook/post_message_categorization.py:124-128 | row r lies in window r / size, so every row is in exactly one window |
| Enrichment.CopyWithColumns | Python/Facebook/post_message_categorization.py:114-121 | the returned array is fresh and equals the initialised copy of the input |
| Enrichment.ProcessWindow | Python/Facebook/post_message_categorization.py:126-146 | each row of the window is processed in place, every row outside it is unchanged, and the texts sent are those of its processable rows, in order |
| Enrichment.RunWindows | Python/Facebook/post_message_categorization.py:124-150 | every row is processed exactly once, the calls are the texts of all rows in order, and there is one delay per window |
| Enrichment.BatchEnrich | Python/Facebook/post_message_categorization.py:114-155 | batch size 0 raises from `range()`; a negative size gives the initialised copy with no calls and no delays; a positive size gives the enriched table, the calls and ⌈n/size⌉ delays; the input array is never written |
| PostCategorization.PostsValid | Python/Facebook/post_message_categorization.py:117-121 | the post columns are distinct, and each is fed by one of the five reply keys |
| PostCategorization.InitialColumns | Python/Facebook/post_message_categorization.py:114-121 | each post row starts with 'Uncategorized', None, 0.5, None, '' |
| PostCategorization.BatchCategorization | Python/Facebook/post_message_categorization.py:95-155 | `batch_categorization`: the `BatchEnrich` contract for the post columns |
| PostCategorization.SkippedPost | Python/Facebook/post_message_categorization.py:132-133 | a post that is not a non-blank string keeps all five initial values |
| PostCategorization.MissingPostColumn | Python/Facebook/post_message_categorization.py:130-146 | without the text column, only `Categorization_Reasoning` changes, to "Individual post categorization error: " + the KeyError text |
| PostCategorization.ProcessedPost | Python/Facebook/post_message_categorization.py:129-146 | a processed post gets exactly the five `result_df.at` writes of its own categorisation record, with both joins, stopping at a failing join |
| PostCategorization.PostWriteColumns | Python/Facebook/post_message_categorization.py:139-146 | the generic writes are exactly the five `result_df.at` statements, with the two joins, stopping at a failing join |
| PostCategorization.PostColumns | Python/Facebook/post_message_categorization.py:139-146 | column by column: the primary category is always written; a failed secondary join leaves the later columns at their initial values; a failed keywords join leaves the keywords; the reasoning holds the reply's or the error |
| CommentCategorization.CommentsValid | Python/Facebook/comment_message_categorization.py:117-121 | the comment columns are distinct, and each is fed by one of the five reply keys |
| CommentCategorization.InitialColumns | Python/Facebook/comment_message_categorization.py:114-121 | each comment row starts with 'Uncategorized', None, `Cat_confidence_Score` 0.5, None, '' |
| CommentCategorization.BatchCategorization | Python/Facebook/comment_message_categorization.py:95-155 | `batch_categorization` for comments: the `BatchEnrich` contract for these columns |
| CommentCategorization.SkippedComment | Python/Facebook/comment_message_categorization.py:132-133 | a comment that is not a non-blank string keeps all five initial values |
| CommentCategorization.MissingCommentColumn | Python/Facebook/comment_message_categorization.py:130-146 | without the text column, only `Categorization_Reasoning` changes, to "Individual comment categorization error: " + the KeyError text |
| CommentCategorization.ProcessedComment | Python/Facebook/comment_message_categorization.py:129-146 | a processed comment gets exactly the five `result_df.at` writes of its own categorisation record, stopping at a failing join |
| CommentCategorization.CommentWriteColumns | Python/Facebook/comment_message_categorization.py:139-146 | the generic writes are exactly the five `result_df.at` statements, with the confidence going to `Cat_confidence_Score` |
| CommentCategorization.CommentColumns | Python/Facebook/comment_message_categorization.py:139-146 | column by column, as for posts, with `Cat_confidence_Score` |
| CommentSentiment.ReplyValid | Python/Facebook/comment_sentiment.py:65-68 | the reply schema is well formed: the four keys are distinct, and the last one (the reasoning) is not numeric |
| CommentSentiment.AdvancedSentimentAnalysis | Python/Facebook/comment_sentiment.py:22-79 | whatever the service does, the record holds all four keys |
| CommentSentiment.SentimentParsed | Python/Facebook/comment_sentiment.py:62-70 | for a dict reply whose confidence converts, each key holds the reply's value or else its default ('Neutral', 0.5, [], 'No specific reasoning provided') |
| CommentSentiment.SentimentKeepsOthers | Python/Facebook/comment_sentiment.py:62-70 | for such a reply, every other key keeps the reply's value |
| CommentSentiment.SentimentNotChecked | Python/Facebook/comment_sentiment.py:65 | any sentiment value in the reply is returned unchanged, not checked against Positive/Negative/Neutral |
| CommentSentiment.FallbackIsDefault | Python/Facebook/comment_sentiment.py:74-79 | the generic fallback is the literal default record with the prefix "Error in analysis: " |
| CommentSentiment.SentimentFallback | Python/Facebook/comment_sentiment.py:62-79 | a failed call, or a reply that is not a dict, gives the default record with that error |
| CommentSentiment.SentimentBadConfidence | Python/Facebook/comment_sentiment.py:66-79 | a confidence that `float()` rejects gives the default record with `float()`'s error |
| CommentSentiment.CommentsValid | Python/Facebook/comment_sentiment.py:104-107 | the four columns are distinct, and each is fed by one of the four reply keys |
| CommentSentiment.InitialColumns | Python/Facebook/comment_sentiment.py:101-107 | each row starts with 'Neutral', 0.5, None, '' |
| CommentSentiment.BatchSentimentAnalysis | Python/Facebook/comment_sentiment.py:81-144 | `batch_sentiment_analysis`: the `BatchEnrich` contract for the sentiment columns |
| CommentSentiment.SkippedComment | Python/Facebook/comment_sentiment.py:118-122 | a comment that is not a non-blank string keeps all four initial values |
| CommentSentiment.MissingCommentColumn | Python/Facebook/comment_sentiment.py:117-135 | without the text column, only `Reasoning` changes, to "Individual comment analysis error: " + the KeyError text |
| CommentSentiment.ProcessedComment | Python/Facebook/comment_sentiment.py:117-135 | a processed comment gets exactly the four `result_df.at` writes of its own sentiment record, stopping at a failing emotions join |
| CommentSentiment.SentimentWriteColumns | Python/Facebook/comment_sentiment.py:128-135 | the generic writes are exactly the four `result_df.at` statements, stopping at a failing emotions join |
| CommentSentiment.SentimentColumns | Python/Facebook/comment_sentiment.py:128-135 | sentiment and confidence are always written; a failed join leaves `Key_Emotions` at None and puts the error in `Reasoning` |
| Json.Keys | Python/Facebook/post_message_categorization.py:78-84 | a dict's keys, one per entry, in insertion order |
| Json.Get | Python/Facebook/post_message_categorization.py:78-82 | a lookup finds a value if and only if the key is present |
| Json.GetPut | Python/Facebook/post_message_categorization.py:78-82 | after `d[k] = v`, k maps to v and every other key is unchanged |
| Json.KeysPut | Python/Facebook/post_message_categorization.py:78-82 | `d[k] = v` keeps an existing key's position, and appends a new key last |
| PyStr.StripBlank | Python/Facebook/post_message_categorization.py:132 | `s.strip()` is empty if and only if every character of s is whitespace |
| PyStr.Split | Python/DevOps/deletedescendants.py:50 | `split` gives at least one piece, and exactly one when the separator does not occur |
| PyStr.SplitJoin | Python/DevOps/deletedescendants.py:50 | joining the pieces with the separator gives the string back |
| PyStr.SplitPieces | Python/DevOps/deletedescendants.py:50 | no piece contains the separator |
| PyStr.LastPieceSuffix | Python/DevOps/deletedescendants.py:50 | `split('/')[-1]` is a suffix of the URL without '/' |
| PyStr.LastPieceIsTail | Python/DevOps/deletedescendants.py:50 | the last piece is the whole URL when it has no '/', and otherwise the text after the last '/' |
| PyStr.LastPieceAfter | Python/DevOps/deletedescendants.py:50 | for prefix + '/' + a tail without '/', the last piece is the tail |
| DeleteDescendants.ChildIdsLength | Python/DevOps/deletedescendants.py:48-51 | at most one child id per relation |
| DeleteDescendants.ChildIdSource | Python/DevOps/deletedescendants.py:48-51 | every child id comes from a hierarchy-forward relation, whose index is returned |
| DeleteDescendants.SourceChildId | Python/DevOps/deletedescendants.py:48-51 | every hierarchy-forward relation contributes its id |
| DeleteDescendants.ChildIdsSpec | Python/DevOps/deletedescendants.py:46-52 | an id is a child if and only if some hierarchy-forward relation's URL ends in it after the last '/' |
| DeleteDescendants.ChildIdsAreTails | Python/DevOps/deletedescendants.py:50 | every child id is a '/'-free tail of its relation's URL |
| DeleteDescendants.ChildrenSpec | Python/DevOps/deletedescendants.py:41-52 | a non-200 GET or a body without `relations` gives no children; otherwise the children are exactly the hierarchy-forward tails |
| DeleteDescendants.GetDescendants | Python/DevOps/deletedescendants.py:35-52 | the loop returns exactly `Children(id)`: the filtered, mapped relations in list order |
| DeleteDescendants.DeleteWorkItem | Python/DevOps/deletedescendants.py:22-33 | one DELETE of `id`, logged as a success if and only if the status is 204 |
| DeleteDescendants.DeleteHierarchyRecursive | Python/DevOps/deletedescendants.py:54-67 | the ids of the DELETEs issued are exactly `DeleteOrder(id)`, each logged as a success if and only if its status is 204; a DELETE answered with any other status does not stop the walk |
| DeleteDescendants.RootLast | Python/DevOps/deletedescendants.py:66-67 | the work item the walk starts from is deleted last |
| DeleteDescendants.SeqMemberIndex | Python/DevOps/deletedescendants.py:63-64 | whatever the child loop deletes, some child's subtree deletes |
| DeleteDescendants.IndexSeqMember | Python/DevOps/deletedescendants.py:63-64 | whatever a child's subtree deletes, the child loop deletes |
| DeleteDescendants.DeleteSeqMembers | Python/DevOps/deletedescendants.py:60-64 | the child loop deletes x if and only if some child's subtree does |
| DeleteDescendants.DeletedIsReachable | Python/DevOps/deletedescendants.py:54-67 | every deleted work item is reachable from the root by child links; the path is returned |
| DeleteDescendants.ReachableIsDeleted | Python/DevOps/deletedescendants.py:54-67 | every work item reachable by child links is deleted |
| DeleteDescendants.DeletesReachable | Python/DevOps/deletedescendants.py:54-67 | x is deleted if and only if a child-link path leads from the root to x |
| DeleteDescendants.OrderBlocked | Python/DevOps/deletedescendants.py:60-67 | in the delete order, each occurrence of a work item directly follows the deletes of its whole subtree |
| DeleteDescendants.SeqBlocked | Python/DevOps/deletedescendants.py:63-64 | the same block structure holds for the child loop's deletes |
| DeleteDescendants.ChildrenFirst | Python/DevOps/deletedescendants.py:60-67 | every child of a deleted work item is deleted before it (post-order) |
| DeleteDescendants.DeleteCount | Python/DevOps/deletedescendants.py:54-67 | x gets one DELETE request per child-link path from the root to x: exactly one in a tree |
| DeleteDescendants.DeleteSeqCount | Python/DevOps/deletedescendants.py:63-64 | the child loop deletes x once per path from one of the children to x |
| DeleteDescendants.LeafOrder | Python/DevOps/deletedescendants.py:41-43 | a work item without children, such as one whose GET fails, is still deleted: its order is just itself |
| DeleteDescendants.OneChildOrder | Python/DevOps/deletedescendants.py:63-67 | with one child: the child's subtree, then the item |
| DeleteDescendants.TwoChildOrder | Python/DevOps/deletedescendants.py:63-67 | with two children: the first subtree, the second subtree, then the item |
| DeleteDescendants.LinkChild | Python/DevOps/deletedescendants.py:50 | the id of a link to `workItems/<id>` is `<id>` |
| DeleteDescendants.TwoLinks | Python/DevOps/deletedescendants.py:48-51 | one or two links give their ids, in order |
| DeleteDescendants.ExampleChildren | Python/DevOps/deletedescendants.py:35-52 | the example hierarchy `root -> [a -> [a1], b]` as `get_descendants` reads it |
| DeleteDescendants.ExampleRanked | Python/DevOps/deletedescendants.py:54-67 | the example hierarchy is acyclic |
| DeleteDescendants.ExampleSteps | Python/DevOps/deletedescendants.py:60-67 | any hierarchy shaped `root -> [a -> [a1], b]` is deleted as a1, a, b, root |
| DeleteDescendants.ExampleOrder | Python/DevOps/deletedescendants.py:60-67 | the example hierarchy is deleted as a1, a, b, root |
| DeleteDescendants.SharedChildTwice | Python/DevOps/deletedescendants.py:54-67 | with no visited set, a child linked from two parents gets two DELETE requests: c, a, c, b, root |

## Left out

- **The language-model client.** The prompt, the category descriptions, the model parameters and `json.loads` are left out. The service is the `Classifier` parameter, and any failure up to decoding is `Failed(message)`.
- **Repeated texts.** `Classifier.reply` is a function, so repeated texts are assumed to get the same answer, failures included. The real service is a sampled model call whose answers and transient errors need not repeat. `BatchEnrich`, `RowIsolation` and `ClassifierIsolation` therefore do not describe runs in which two rows with the same text get different answers.
- Enrichment.ToFloat: `float()` is modelled on reals: ints, floats and booleans convert, and strings go through the `parseFloat` parameter. Floating-point rounding, NaN and infinities are not modelled, and neither is the OverflowError `float()` raises for an int beyond about 1.8e308, which the model converts.
- **Exception texts.** They follow CPython's wording for the cases modelled: a KeyError, `float()`, `.get` on a non-dict, and `join` on a non-string item or a non-iterable. `repr` is modelled without escaping.
- **Delays.** `random.uniform` and `time.sleep` are only counted, and durations are not modelled.
- **`delay_range` and the outer `except batch_error` handler.** The per-row handler catches everything the row body raises. The handler around the window is reached only when `random.uniform(delay_range[0], delay_range[1])` or `time.sleep(delay)` raises: a `delay_range` that is too short, not numeric, or yields a negative delay (`sleep length must be non-negative`). Then that window's sleep is skipped and the error is printed. `delay_range` is not a parameter of the model.
- Enrichment.RunWindows: counts one delay per window, which assumes that every `random.uniform` and `time.sleep` call succeeds.
- **pandas mechanics.** Rows are array positions, as if index labels were unique. Column dtypes are not modelled, and neither is pandas' handling of assigning a string into a float column.
- **HTTP in the walker.** `requests`, the PAT header, `dotenv`, `logging`, `print` and the `__main__` entry point are left out. The GET and the DELETE are the `fetch` and `delete` parameters.
- **Malformed relations.** A relation without `rel` or `url` raises an uncaught KeyError in `get_descendants`, which ends the whole walk. A failing `response.json()` does the same, and so does a body whose `relations` is `null`, since iterating `None` raises a TypeError. None of these is modelled: a relation always has both fields, and `relations` is either absent or a list.
- DeleteDescendants.DeleteHierarchyRecursive: requires a rank on the whole hierarchy (`Ranked`), which is stronger than the code needs: the code terminates whenever no cycle is reachable from the root, and on a reachable cycle it recurses until Python's recursion limit. Hierarchies with a cycle only among unreachable work items are not covered. Python's recursion limit is not modelled for deep acyclic trees either.
- DeleteDescendants.DeleteHierarchyRecursive: a GET or DELETE that raises, such as a `ConnectionError` or `Timeout` from `requests.get` (`deletedescendants.py:40`) or `requests.delete` (`:27`), is not caught and ends the whole walk. This is not modelled: every call answers with a status.
- DeleteDescendants.DeleteHierarchyRecursive: `fetch` is a function, so a GET is assumed to answer the same whether or not some work items have already been deleted.
- DeleteDescendants.DeleteHierarchyRecursive: `delete` is a function of the id alone, so a repeated DELETE of a work item reached through two parents is assumed to answer like the first one. The real server answers a DELETE of an already deleted item differently, and the code then logs "Failed to delete". `SharedChildTwice` and `DeleteCount` describe the DELETE requests issued, not the statuses of the repeats.
