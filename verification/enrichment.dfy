/**
 * The per-record enrichment step shared by the categorisation and sentiment
 * components: a classifier reply is validated and defaulted into a result
 * record, and a table is copied, given default result columns and updated
 * row by row in consecutive windows, with one delay per window.
 *
 * The three source components differ only in their reply keys, defaults,
 * column names and error prefixes; those are the schema values below.
 */
module Enrichment {
  import opened Wrappers
  import opened Json
  import opened PyStr

  /** One key of a classifier reply: its default when missing, and whether `float()` is applied to it. */
  datatype Field = Field(key: string, default: Json, numeric: bool)

  /**
   * What one classifier method promises about its reply: the keys in the
   * order they are validated (the last one is the reasoning), and the prefix
   * of the reasoning text in the fallback record.
   */
  datatype ReplySchema = ReplySchema(fields: seq<Field>, errorPrefix: string) {
    ghost predicate Valid() {
      && |fields| > 0
      && !fields[|fields| - 1].numeric
      && forall i, j :: 0 <= i < j < |fields| ==> fields[i].key != fields[j].key
    }

    predicate IsKey(k: string) {
      exists j :: 0 <= j < |fields| && fields[j].key == k
    }
  }

  /**
   * One result column: its initial value, the reply key written into it and
   * whether that value is joined with ", " before it is written.
   */
  datatype Column = Column(name: string, init: Json, key: string, joined: bool)

  predicate Named(cols: seq<Column>, k: string) {
    exists j :: 0 <= j < |cols| && cols[j].name == k
  }

  predicate DistinctNames(cols: seq<Column>) {
    forall i, j :: 0 <= i < j < |cols| ==> cols[i].name != cols[j].name
  }

  /** The result columns in the order they are written; the last one receives row errors. */
  datatype TableSchema = TableSchema(columns: seq<Column>, rowErrorPrefix: string) {
    ghost predicate Valid() {
      && |columns| > 0
      && DistinctNames(columns)
    }

    function Reasoning(): string
      requires |columns| > 0
    {
      columns[|columns| - 1].name
    }

    predicate IsColumn(k: string) {
      Named(columns, k)
    }
  }

  datatype Config = Config(reply: ReplySchema, table: TableSchema) {
    ghost predicate Valid() {
      && reply.Valid()
      && table.Valid()
      && forall j :: 0 <= j < |table.columns| ==> reply.IsKey(table.columns[j].key)
    }
  }

  /** What the classification service gives back for one text: an error, or the decoded JSON reply. */
  datatype Outcome = Failed(message: string) | Parsed(reply: Json)

  /**
   * The external collaborators of a classifier call: the service (request,
   * response and JSON decoding) and Python's `float()` on a string.
   */
  datatype Classifier = Classifier(reply: string -> Outcome, parseFloat: string -> Option<real>)

  /** `float(v)` on a decoded JSON value. */
  function ToFloat(v: Json, c: Classifier): (r: Result<real, string>)
    ensures (v.JInt? || v.JReal? || v.JBool?) ==> r.Success?
    ensures (v.JNull? || v.JArr? || v.JObj?) ==> r.Failure?
  {
    match v
    case JInt(i) => Success(i as real)
    case JReal(x) => Success(x)
    case JBool(b) => Success(if b then 1.0 else 0.0)
    case JStr(s) =>
      (match c.parseFloat(s)
       case Some(x) => Success(x)
       case None => Failure("could not convert string to float: " + Quote(s)))
    case _ => Failure("float() argument must be a string or a real number, not " + Quote(TypeName(v)))
  }

  /** `result.get(key, default)`, passed through `float()` for the numeric key. */
  function Validated(f: Field, d: Dict, c: Classifier): Result<Json, string> {
    var v := GetOr(d, f.key, f.default);
    if f.numeric then
      match ToFloat(v, c)
      case Success(x) => Success(JReal(x))
      case Failure(e) => Failure(e)
    else Success(v)
  }

  /** The validation statements, one `result[key] = ...` per field, any of which may raise. */
  function Normalize(fields: seq<Field>, d: Dict, c: Classifier): Result<Dict, string> {
    if fields == [] then Success(d)
    else
      match Validated(fields[0], d, c)
      case Failure(e) => Failure(e)
      case Success(v) => Normalize(fields[1..], Put(d, fields[0].key, v), c)
  }

  /** The record returned from the `except` branch: every default, and the error as reasoning. */
  function Fallback(schema: ReplySchema, message: string): Dict
    requires |schema.fields| > 0
  {
    var n := |schema.fields|;
    seq(n, j requires 0 <= j < n =>
      (schema.fields[j].key, if j == n - 1 then JStr(schema.errorPrefix + message) else schema.fields[j].default))
  }

  /** The error text of calling `.get` on a decoded value that is not a dict. */
  function NoGet(v: Json): string {
    Quote(TypeName(v)) + " object has no attribute 'get'"
  }

  /**
   * One classifier call with its validation and fallback: the reply dict with
   * every schema key filled in, or the fallback record when anything raises.
   */
  function Classify(schema: ReplySchema, text: string, c: Classifier): Dict
    requires schema.Valid()
  {
    match c.reply(text)
    case Failed(m) => Fallback(schema, m)
    case Parsed(JObj(d)) =>
      (match Normalize(schema.fields, d, c)
       case Success(r) => r
       case Failure(m) => Fallback(schema, m))
    case Parsed(v) => Fallback(schema, NoGet(v))
  }

  /** Whatever happens in the call, the record holds every schema key. */
  lemma ClassifyKeys(schema: ReplySchema, text: string, c: Classifier)
    requires schema.Valid()
    ensures forall j :: 0 <= j < |schema.fields| ==> schema.fields[j].key in Keys(Classify(schema, text, c))
  {
    match c.reply(text)
    case Failed(m) => FallbackKeys(schema, m);
    case Parsed(JObj(d)) =>
      match Normalize(schema.fields, d, c) {
        case Success(r) => NormalizeValues(schema.fields, d, c);
        case Failure(m) => FallbackKeys(schema, m);
      }
    case Parsed(v) => FallbackKeys(schema, NoGet(v));
  }

  /** The fallback record holds every schema key, with its default or, for the reasoning, the error. */
  lemma FallbackKeys(schema: ReplySchema, message: string)
    requires schema.Valid()
    ensures forall j :: 0 <= j < |schema.fields| ==> schema.fields[j].key in Keys(Fallback(schema, message))
    ensures forall j :: 0 <= j < |schema.fields| - 1 ==>
      Get(Fallback(schema, message), schema.fields[j].key) == Some(schema.fields[j].default)
    ensures Get(Fallback(schema, message), schema.fields[|schema.fields| - 1].key) ==
      Some(JStr(schema.errorPrefix + message))
  {
    var r := Fallback(schema, message);
    var n := |schema.fields|;
    FallbackDistinct(schema, message);
    forall j | 0 <= j < n ensures schema.fields[j].key in Keys(r) && Get(r, schema.fields[j].key) == Some(r[j].1) {
      assert r[j].0 == schema.fields[j].key;
      assert Keys(r)[j] == schema.fields[j].key;
      GetAt(r, j);
    }
  }

  /** The fallback record's keys are the schema's keys, hence distinct. */
  lemma FallbackDistinct(schema: ReplySchema, message: string)
    requires schema.Valid()
    ensures var r := Fallback(schema, message);
      forall a, b :: 0 <= a < b < |r| ==> r[a].0 != r[b].0
  {
    var r := Fallback(schema, message);
    forall a, b | 0 <= a < b < |r| ensures r[a].0 != r[b].0 {
      assert r[a].0 == schema.fields[a].key && r[b].0 == schema.fields[b].key;
    }
  }

  /** In a dict whose keys are distinct, looking up the key of entry j gives entry j's value. */
  lemma {:induction false} GetAt(d: Dict, j: nat)
    requires j < |d|
    requires forall a, b :: 0 <= a < b < |d| ==> d[a].0 != d[b].0
    ensures Get(d, d[j].0) == Some(d[j].1)
  {
    if j > 0 {
      assert d[0].0 != d[j].0;
      GetAt(d[1..], j - 1);
    }
  }

  /**
   * Setting the first field's key leaves the validation of the later fields
   * unchanged, since their keys differ from it.
   */
  lemma NormalizeShift(fields: seq<Field>, d: Dict, c: Classifier, v: Json)
    requires |fields| > 0
    requires forall i, j :: 0 <= i < j < |fields| ==> fields[i].key != fields[j].key
    ensures forall j :: 0 <= j < |fields| - 1 ==>
      Validated(fields[1..][j], Put(d, fields[0].key, v), c) == Validated(fields[j + 1], d, c)
  {
    var d' := Put(d, fields[0].key, v);
    forall j | 0 <= j < |fields| - 1 ensures Validated(fields[1..][j], d', c) == Validated(fields[j + 1], d, c) {
      assert fields[1..][j] == fields[j + 1];
      GetPut(d, fields[0].key, v, fields[j + 1].key);
    }
  }

  /** Validation succeeds exactly when every field validates. */
  lemma {:induction false} NormalizeSucceeds(fields: seq<Field>, d: Dict, c: Classifier)
    requires forall i, j :: 0 <= i < j < |fields| ==> fields[i].key != fields[j].key
    ensures Normalize(fields, d, c).Success? <==>
      forall j :: 0 <= j < |fields| ==> Validated(fields[j], d, c).Success?
  {
    if fields != [] && Validated(fields[0], d, c).Success? {
      var v := Validated(fields[0], d, c).value;
      NormalizeShift(fields, d, c, v);
      NormalizeSucceeds(fields[1..], Put(d, fields[0].key, v), c);
      if forall j :: 0 <= j < |fields| - 1 ==> Validated(fields[1..][j], Put(d, fields[0].key, v), c).Success? {
        forall j | 0 <= j < |fields| ensures Validated(fields[j], d, c).Success? {
          if j > 0 { assert Validated(fields[1..][j - 1], Put(d, fields[0].key, v), c).Success?; }
        }
      }
    }
  }

  /** A successful validation sets each schema key to its validated value. */
  lemma {:induction false} NormalizeValues(fields: seq<Field>, d: Dict, c: Classifier)
    requires forall i, j :: 0 <= i < j < |fields| ==> fields[i].key != fields[j].key
    ensures Normalize(fields, d, c).Success? ==>
      forall j :: 0 <= j < |fields| ==>
        && Validated(fields[j], d, c).Success?
        && Get(Normalize(fields, d, c).value, fields[j].key) == Some(Validated(fields[j], d, c).value)
  {
    if fields != [] && Validated(fields[0], d, c).Success? {
      var f := fields[0];
      var v := Validated(f, d, c).value;
      var d' := Put(d, f.key, v);
      var rest := fields[1..];
      NormalizeShift(fields, d, c, v);
      NormalizeValues(rest, d', c);
      if Normalize(fields, d, c).Success? {
        var r := Normalize(fields, d, c).value;
        assert Get(r, f.key) == Some(v) by {
          NormalizeOthers(rest, d', c);
          assert forall i :: 0 <= i < |rest| ==> rest[i].key != f.key;
          GetPut(d, f.key, v, f.key);
        }
        forall j | 0 < j < |fields|
          ensures Validated(fields[j], d, c).Success? && Get(r, fields[j].key) == Some(Validated(fields[j], d, c).value)
        {
          assert fields[j] == rest[j - 1];
        }
      }
    }
  }

  /** A successful validation keeps every key of the reply that is not a schema key. */
  lemma {:induction false} NormalizeOthers(fields: seq<Field>, d: Dict, c: Classifier)
    ensures Normalize(fields, d, c).Success? ==>
      forall k :: (forall j :: 0 <= j < |fields| ==> fields[j].key != k) ==>
        Get(Normalize(fields, d, c).value, k) == Get(d, k)
  {
    if fields != [] && Validated(fields[0], d, c).Success? {
      var f := fields[0];
      var v := Validated(f, d, c).value;
      var rest := fields[1..];
      NormalizeOthers(rest, Put(d, f.key, v), c);
      forall k | (forall j :: 0 <= j < |fields| ==> fields[j].key != k)
        ensures (forall j :: 0 <= j < |rest| ==> rest[j].key != k) && Get(Put(d, f.key, v), k) == Get(d, k)
      {
        assert fields[0].key != k;
        assert forall j :: 0 <= j < |rest| ==> rest[j] == fields[j + 1];
        GetPut(d, f.key, v, k);
      }
    }
  }

  /** A failed validation carries the error of the first field that does not validate. */
  lemma {:induction false} NormalizeError(fields: seq<Field>, d: Dict, c: Classifier)
    requires forall i, j :: 0 <= i < j < |fields| ==> fields[i].key != fields[j].key
    ensures Normalize(fields, d, c).Failure? ==>
      exists j :: && 0 <= j < |fields|
                  && Validated(fields[j], d, c) == Failure(Normalize(fields, d, c).error)
                  && forall i :: 0 <= i < j ==> Validated(fields[i], d, c).Success?
  {
    if fields != [] && Validated(fields[0], d, c).Success? {
      var v := Validated(fields[0], d, c).value;
      var d' := Put(d, fields[0].key, v);
      NormalizeShift(fields, d, c, v);
      NormalizeError(fields[1..], d', c);
      if Normalize(fields, d, c).Failure? {
        var e := Normalize(fields, d, c).error;
        var j :| && 0 <= j < |fields| - 1
                 && Validated(fields[1..][j], d', c) == Failure(e)
                 && forall i :: 0 <= i < j ==> Validated(fields[1..][i], d', c).Success?;
        assert Validated(fields[j + 1], d, c) == Failure(e);
        forall i | 0 <= i < j + 1 ensures Validated(fields[i], d, c).Success? {
          if i > 0 { assert Validated(fields[1..][i - 1], d', c).Success?; }
        }
      }
    }
  }

  /**
   * Validation succeeds exactly when every field validates; it then sets each
   * schema key to its validated value and keeps every other key of the reply;
   * otherwise it fails with the error of the first field that does not validate.
   */
  lemma NormalizeSpec(fields: seq<Field>, d: Dict, c: Classifier)
    requires forall i, j :: 0 <= i < j < |fields| ==> fields[i].key != fields[j].key
    ensures Normalize(fields, d, c).Success? <==>
      forall j :: 0 <= j < |fields| ==> Validated(fields[j], d, c).Success?
    ensures Normalize(fields, d, c).Success? ==>
      forall j :: 0 <= j < |fields| ==>
        Get(Normalize(fields, d, c).value, fields[j].key) == Some(Validated(fields[j], d, c).value)
    ensures Normalize(fields, d, c).Success? ==>
      forall k :: (forall j :: 0 <= j < |fields| ==> fields[j].key != k) ==>
        Get(Normalize(fields, d, c).value, k) == Get(d, k)
    ensures Normalize(fields, d, c).Failure? ==>
      exists j :: && 0 <= j < |fields|
                  && Validated(fields[j], d, c) == Failure(Normalize(fields, d, c).error)
                  && forall i :: 0 <= i < j ==> Validated(fields[i], d, c).Success?
  {
    NormalizeSucceeds(fields, d, c);
    NormalizeValues(fields, d, c);
    NormalizeOthers(fields, d, c);
    NormalizeError(fields, d, c);
  }

  /**
   * A decoded dict reply whose fields all validate is returned with every
   * schema key set to the reply's value (or its default, through `float()` for
   * the numeric key) and every other key of the reply kept.
   */
  lemma ClassifyParsed(schema: ReplySchema, text: string, c: Classifier, d: Dict)
    requires schema.Valid()
    requires c.reply(text) == Parsed(JObj(d))
    requires forall j :: 0 <= j < |schema.fields| ==> Validated(schema.fields[j], d, c).Success?
    ensures forall j :: 0 <= j < |schema.fields| ==>
      Get(Classify(schema, text, c), schema.fields[j].key) == Some(Validated(schema.fields[j], d, c).value)
    ensures forall k :: !schema.IsKey(k) ==> Get(Classify(schema, text, c), k) == Get(d, k)
  {
    NormalizeSpec(schema.fields, d, c);
  }

  /**
   * A service error or a reply that is not a dict is caught: the record holds
   * exactly the schema keys in schema order, each field at its default and the
   * reasoning field holding the error prefix and that error (for a value that
   * is not a dict, the `'<type>' object has no attribute 'get'` text).
   */
  lemma ClassifyFails(schema: ReplySchema, text: string, c: Classifier)
    requires schema.Valid()
    ensures var o := c.reply(text);
      o.Failed? || (o.Parsed? && !o.reply.JObj?) ==>
        var r := Classify(schema, text, c);
        var n := |schema.fields|;
        var m := if o.Failed? then o.message else NoGet(o.reply);
        && |r| == n
        && (forall j :: 0 <= j < n ==> r[j].0 == schema.fields[j].key)
        && (forall j :: 0 <= j < n - 1 ==> Get(r, schema.fields[j].key) == Some(schema.fields[j].default))
        && Get(r, schema.fields[n - 1].key) == Some(JStr(schema.errorPrefix + m))
  {
    var o := c.reply(text);
    if o.Failed? || (o.Parsed? && !o.reply.JObj?) {
      var m := if o.Failed? then o.message else NoGet(o.reply);
      assert Classify(schema, text, c) == Fallback(schema, m);
      FallbackKeys(schema, m);
    }
  }

  /**
   * A field of a dict reply that `float()` rejects is caught too: the result
   * is the fallback record with the error of the first field that fails.
   */
  lemma ClassifyFieldFails(schema: ReplySchema, text: string, c: Classifier, d: Dict)
    requires schema.Valid()
    requires c.reply(text) == Parsed(JObj(d))
    requires exists j :: 0 <= j < |schema.fields| && Validated(schema.fields[j], d, c).Failure?
    ensures exists j :: && 0 <= j < |schema.fields|
                        && (forall i :: 0 <= i < j ==> Validated(schema.fields[i], d, c).Success?)
                        && Validated(schema.fields[j], d, c).Failure?
                        && Classify(schema, text, c) == Fallback(schema, Validated(schema.fields[j], d, c).error)
  {
    NormalizeSucceeds(schema.fields, d, c);
    NormalizeError(schema.fields, d, c);
    var r := Normalize(schema.fields, d, c);
    assert r.Failure?;
    assert Classify(schema, text, c) == Fallback(schema, r.error);
  }

  // ---------------------------------------------------------------- the table

  /** One row of the table: column name to cell. */
  type Row = map<string, Json>

  /** Column `name` of the row exists and holds `v`. */
  predicate Has(row: Row, name: string, v: Json) {
    name in row && row[name] == v
  }

  /** `df.copy()` followed by one `result_df[name] = init` per result column. */
  function InitRow(cols: seq<Column>, row: Row): Row {
    if cols == [] then row else InitRow(cols[1..], row[cols[0].name := cols[0].init])
  }

  /** Initialisation adds exactly the result columns to the row's columns. */
  lemma {:induction false} InitRowKeys(cols: seq<Column>, row: Row)
    ensures forall k :: k in InitRow(cols, row) <==> k in row || Named(cols, k)
  {
    if cols != [] {
      InitRowKeys(cols[1..], row[cols[0].name := cols[0].init]);
      forall k ensures Named(cols, k) <==> k == cols[0].name || Named(cols[1..], k) {
        if Named(cols, k) {
          var j :| 0 <= j < |cols| && cols[j].name == k;
          if j > 0 { assert cols[1..][j - 1].name == k; }
        }
        if Named(cols[1..], k) {
          var j :| 0 <= j < |cols| - 1 && cols[1..][j].name == k;
          assert cols[j + 1].name == k;
        }
      }
    }
  }

  /**
   * After initialisation every result column holds its initial value and
   * every other column of the input row is copied unchanged.
   */
  lemma {:induction false} InitRowValues(cols: seq<Column>, row: Row)
    requires DistinctNames(cols)
    ensures forall j :: 0 <= j < |cols| ==> Has(InitRow(cols, row), cols[j].name, cols[j].init)
    ensures forall k :: k in row && !Named(cols, k) ==> Has(InitRow(cols, row), k, row[k])
  {
    if cols != [] {
      var row' := row[cols[0].name := cols[0].init];
      InitRowValues(cols[1..], row');
      forall j | 0 <= j < |cols| ensures Has(InitRow(cols, row), cols[j].name, cols[j].init) {
        if j > 0 {
          assert cols[1..][j - 1] == cols[j];
        } else {
          assert !Named(cols[1..], cols[0].name) by {
            forall m | 0 <= m < |cols| - 1 ensures cols[1..][m].name != cols[0].name {
              assert cols[1..][m] == cols[m + 1];
            }
          }
        }
      }
      forall k | k in row && !Named(cols, k) ensures Has(InitRow(cols, row), k, row[k]) {
        assert k != cols[0].name;
        assert !Named(cols[1..], k) by {
          forall m | 0 <= m < |cols| - 1 ensures cols[1..][m].name != k {
            assert cols[1..][m] == cols[m + 1];
          }
        }
      }
    }
  }

  /** The copied input with the result columns initialised. */
  function InitTable(cols: seq<Column>, df: seq<Row>): (t: seq<Row>)
    ensures |t| == |df|
  {
    seq(|df|, j requires 0 <= j < |df| => InitRow(cols, df[j]))
  }

  /** `isinstance(text, str) and text.strip()`: the row is sent to the classifier. */
  predicate Processable(row: Row, column: string) {
    column in row && row[column].JStr? && !IsBlank(row[column].s)
  }

  /** The row is sent exactly when its text is a string whose `strip()` is non-empty. */
  lemma ProcessableStrip(row: Row, column: string)
    ensures Processable(row, column) <==> column in row && row[column].JStr? && Strip(row[column].s) != []
  {
    if column in row && row[column].JStr? {
      StripBlank(row[column].s);
    }
  }

  /** The index of the first item that is not a string, or the length when all are. */
  function FirstNonString(items: seq<Json>): (r: nat)
    ensures r <= |items|
    ensures forall j :: 0 <= j < r ==> items[j].JStr?
    ensures r < |items| ==> !items[r].JStr?
  {
    if items == [] || !items[0].JStr? then 0 else 1 + FirstNonString(items[1..])
  }

  /** `', '.join(v)` on a decoded value. */
  function JoinValue(v: Json): Result<string, string> {
    match v
    case JStr(s) => Success(Join(", ", Chars(s)))
    case JObj(entries) => Success(Join(", ", Keys(entries)))
    case JArr(items) =>
      var i := FirstNonString(items);
      if i < |items| then
        Failure("sequence item " + NatToString(i) + ": expected str instance, " + TypeName(items[i]) + " found")
      else
        Success(Join(", ", seq(|items|, j requires 0 <= j < |items| => items[j].s)))
    case _ => Failure("can only join an iterable")
  }

  /**
   * The join raises exactly when the value is neither a string, nor a dict,
   * nor a list of strings; for a list, the error names the first item that is
   * not a string.
   */
  lemma JoinValueFails(v: Json)
    ensures JoinValue(v).Failure? <==>
      !(v.JStr? || v.JObj? || (v.JArr? && forall j :: 0 <= j < |v.items| ==> v.items[j].JStr?))
    ensures v.JArr? && JoinValue(v).Failure? ==>
      exists i :: 0 <= i < |v.items| && !v.items[i].JStr? && (forall j :: 0 <= j < i ==> v.items[j].JStr?)
        && JoinValue(v).error == "sequence item " + NatToString(i) + ": expected str instance, " + TypeName(v.items[i]) + " found"
  {
    if v.JArr? {
      var i := FirstNonString(v.items);
      if i < |v.items| {
        assert !v.items[i].JStr?;
      }
    }
  }

  /** The value written into one result column: `result[key]`, joined when the column says so. */
  function CellValue(col: Column, result: Dict): Result<Json, string> {
    match Get(result, col.key)
    case None => Failure(Quote(col.key))
    case Some(v) =>
      if col.joined then
        match JoinValue(v)
        case Success(s) => Success(JStr(s))
        case Failure(e) => Failure(e)
      else Success(v)
  }

  /**
   * The `result_df.at[idx, name] = ...` statements in order; the first one
   * that raises stops the sequence, and the handler writes the error into the
   * reasoning column.
   */
  function WriteColumns(cols: seq<Column>, row: Row, result: Dict, reasoning: string, prefix: string): (r: Row)
    ensures row.Keys <= r.Keys
  {
    if cols == [] then row
    else
      match CellValue(cols[0], result)
      case Failure(e) => row[reasoning := JStr(prefix + e)]
      case Success(v) => WriteColumns(cols[1..], row[cols[0].name := v], result, reasoning, prefix)
  }

  /**
   * The last two writes of a row: a joined column, then the reasoning column.
   * A join that raises puts its message into the reasoning column instead.
   */
  lemma JoinedThenReasoning(cols: seq<Column>, row: Row, res: Dict, reasoning: string, prefix: string)
    requires |cols| == 2 && cols[0].joined && !cols[1].joined && cols[1].name == reasoning
    requires Get(res, cols[0].key).Some? && Get(res, cols[1].key).Some?
    ensures var joined := JoinValue(Get(res, cols[0].key).value);
      WriteColumns(cols, row, res, reasoning, prefix) ==
        if joined.Failure? then row[reasoning := JStr(prefix + joined.error)]
        else row[cols[0].name := JStr(joined.value)][reasoning := Get(res, cols[1].key).value]
  {
    var joined := JoinValue(Get(res, cols[0].key).value);
    if joined.Success? {
      var next := row[cols[0].name := JStr(joined.value)];
      assert WriteColumns(cols, row, res, reasoning, prefix) == WriteColumns(cols[1..], next, res, reasoning, prefix);
      assert WriteColumns(cols[1..], next, res, reasoning, prefix) ==
        WriteColumns([], next[reasoning := Get(res, cols[1].key).value], res, reasoning, prefix);
    }
  }

  /** The writes of one row touch only the result columns and the reasoning column. */
  lemma {:induction false} WriteColumnsFrame(cols: seq<Column>, row: Row, result: Dict, reasoning: string, prefix: string)
    requires DistinctNames(cols)
    requires forall j :: 0 <= j < |cols| - 1 ==> cols[j].name != reasoning
    requires reasoning in row
    requires forall j :: 0 <= j < |cols| ==> cols[j].name in row
    ensures WriteColumns(cols, row, result, reasoning, prefix).Keys == row.Keys
    ensures forall k :: k in row && k != reasoning && !Named(cols, k) ==>
      WriteColumns(cols, row, result, reasoning, prefix)[k] == row[k]
  {
    if cols != [] && CellValue(cols[0], result).Success? {
      var row' := row[cols[0].name := CellValue(cols[0], result).value];
      var rest := cols[1..];
      assert forall j :: 0 <= j < |rest| ==> rest[j] == cols[j + 1];
      WriteColumnsFrame(rest, row', result, reasoning, prefix);
    }
  }

  /**
   * The columns before the first failing one receive their values and, when
   * a write fails, the reasoning column receives its error.
   */
  lemma {:induction false} WriteColumnsWritten(cols: seq<Column>, row: Row, result: Dict, reasoning: string, prefix: string)
    requires DistinctNames(cols)
    requires forall j :: 0 <= j < |cols| - 1 ==> cols[j].name != reasoning
    requires reasoning in row
    requires forall j :: 0 <= j < |cols| ==> cols[j].name in row
    ensures forall j :: 0 <= j < FirstFailure(cols, result) ==>
      WriteColumns(cols, row, result, reasoning, prefix)[cols[j].name] == CellValue(cols[j], result).value
    ensures FirstFailure(cols, result) < |cols| ==>
      WriteColumns(cols, row, result, reasoning, prefix)[reasoning] ==
        JStr(prefix + CellValue(cols[FirstFailure(cols, result)], result).error)
  {
    if cols != [] && CellValue(cols[0], result).Success? {
      var row' := row[cols[0].name := CellValue(cols[0], result).value];
      var rest := cols[1..];
      assert forall j :: 0 <= j < |rest| ==> rest[j] == cols[j + 1];
      WriteColumnsWritten(rest, row', result, reasoning, prefix);
      WriteColumnsFrame(rest, row', result, reasoning, prefix);
      var r := WriteColumns(cols, row, result, reasoning, prefix);
      assert r == WriteColumns(rest, row', result, reasoning, prefix);
      assert FirstFailure(cols, result) == 1 + FirstFailure(rest, result);
      assert !Named(rest, cols[0].name) by {
        forall m | 0 <= m < |rest| ensures rest[m].name != cols[0].name {
          assert rest[m] == cols[m + 1];
        }
      }
      if |cols| > 1 {
        assert cols[0].name != reasoning;
      }
    }
  }

  /** The columns from the first failing one on keep what they held, except the reasoning column. */
  lemma {:induction false} WriteColumnsKept(cols: seq<Column>, row: Row, result: Dict, reasoning: string, prefix: string)
    requires DistinctNames(cols)
    requires forall j :: 0 <= j < |cols| - 1 ==> cols[j].name != reasoning
    requires reasoning in row
    requires forall j :: 0 <= j < |cols| ==> cols[j].name in row
    ensures forall j :: FirstFailure(cols, result) <= j < |cols| && cols[j].name != reasoning ==>
      WriteColumns(cols, row, result, reasoning, prefix)[cols[j].name] == row[cols[j].name]
  {
    if cols != [] && CellValue(cols[0], result).Success? {
      var row' := row[cols[0].name := CellValue(cols[0], result).value];
      var rest := cols[1..];
      assert forall j :: 0 <= j < |rest| ==> rest[j] == cols[j + 1];
      WriteColumnsKept(rest, row', result, reasoning, prefix);
      var r := WriteColumns(cols, row, result, reasoning, prefix);
      assert r == WriteColumns(rest, row', result, reasoning, prefix);
      var f := FirstFailure(cols, result);
      assert f == 1 + FirstFailure(rest, result);
    }
  }

  /**
   * The writes of one row: the columns before the first failing one receive
   * their values, the later ones keep what they held, the reasoning column
   * receives the error when a write fails, and no other column changes.
   */
  lemma WriteColumnsSpec(cols: seq<Column>, row: Row, result: Dict, reasoning: string, prefix: string)
    requires DistinctNames(cols)
    requires forall j :: 0 <= j < |cols| - 1 ==> cols[j].name != reasoning
    requires reasoning in row
    requires forall j :: 0 <= j < |cols| ==> cols[j].name in row
    ensures WriteColumns(cols, row, result, reasoning, prefix).Keys == row.Keys
    ensures forall j :: 0 <= j < FirstFailure(cols, result) ==>
      WriteColumns(cols, row, result, reasoning, prefix)[cols[j].name] == CellValue(cols[j], result).value
    ensures forall j :: FirstFailure(cols, result) <= j < |cols| && cols[j].name != reasoning ==>
      WriteColumns(cols, row, result, reasoning, prefix)[cols[j].name] == row[cols[j].name]
    ensures FirstFailure(cols, result) < |cols| ==>
      WriteColumns(cols, row, result, reasoning, prefix)[reasoning] ==
        JStr(prefix + CellValue(cols[FirstFailure(cols, result)], result).error)
    ensures forall k :: k in row && k != reasoning && !Named(cols, k) ==>
      WriteColumns(cols, row, result, reasoning, prefix)[k] == row[k]
  {
    WriteColumnsFrame(cols, row, result, reasoning, prefix);
    WriteColumnsWritten(cols, row, result, reasoning, prefix);
    WriteColumnsKept(cols, row, result, reasoning, prefix);
  }

  /** The index of the first column whose value cannot be produced, or the number of columns. */
  function FirstFailure(cols: seq<Column>, result: Dict): (r: nat)
    ensures r <= |cols|
    ensures forall j :: 0 <= j < r ==> CellValue(cols[j], result).Success?
    ensures r < |cols| ==> CellValue(cols[r], result).Failure?
  {
    if cols == [] || CellValue(cols[0], result).Failure? then 0 else 1 + FirstFailure(cols[1..], result)
  }

  /** The body of the per-row `try`, with its `except` handler. */
  function ProcessRow(cfg: Config, row: Row, column: string, c: Classifier): Row
    requires cfg.Valid()
  {
    var reasoning := cfg.table.Reasoning();
    if column !in row then
      row[reasoning := JStr(cfg.table.rowErrorPrefix + Quote(column))]
    else if !Processable(row, column) then
      row
    else
      WriteColumns(cfg.table.columns, row, Classify(cfg.reply, row[column].s, c), reasoning, cfg.table.rowErrorPrefix)
  }

  /**
   * A processed row gets every column of the reply that can be written; a
   * row whose text column is missing gets only the error in its reasoning
   * column; a row whose text is not a non-blank string is left as it is.
   * Since every result key is present, the only writes that can fail are the
   * joins.
   */
  lemma ProcessRowSpec(cfg: Config, row: Row, column: string, c: Classifier)
    requires cfg.Valid()
    requires forall j :: 0 <= j < |cfg.table.columns| ==> cfg.table.columns[j].name in row
    ensures column !in row ==>
      ProcessRow(cfg, row, column, c) == row[cfg.table.Reasoning() := JStr(cfg.table.rowErrorPrefix + Quote(column))]
    ensures column in row && !Processable(row, column) ==> ProcessRow(cfg, row, column, c) == row
    ensures Processable(row, column) ==>
      var cols := cfg.table.columns;
      var result := Classify(cfg.reply, row[column].s, c);
      var f := FirstFailure(cols, result);
      var r := ProcessRow(cfg, row, column, c);
      && r.Keys == row.Keys
      && (forall j :: 0 <= j < f ==> r[cols[j].name] == CellValue(cols[j], result).value)
      && (forall j :: f <= j < |cols| - 1 ==> r[cols[j].name] == row[cols[j].name])
      && (f < |cols| ==>
            && cols[f].joined
            && r[cfg.table.Reasoning()] == JStr(cfg.table.rowErrorPrefix + CellValue(cols[f], result).error))
      && (forall k :: k in row && !cfg.table.IsColumn(k) ==> r[k] == row[k])
  {
    if Processable(row, column) {
      var cols := cfg.table.columns;
      var result := Classify(cfg.reply, row[column].s, c);
      ClassifyKeys(cfg.reply, row[column].s, c);
      var reasoning := cfg.table.Reasoning();
      assert reasoning in row;
      WriteColumnsSpec(cols, row, result, reasoning, cfg.table.rowErrorPrefix);
      var f := FirstFailure(cols, result);
      if f < |cols| {
        var j :| 0 <= j < |cfg.reply.fields| && cfg.reply.fields[j].key == cols[f].key;
        assert Get(result, cols[f].key).Some?;
      }
      assert Named(cols, reasoning);
    }
  }

  /** A row that is not sent to the classifier keeps every initial value. */
  lemma SkippedRowKeepsDefaults(cfg: Config, row: Row, column: string, c: Classifier)
    requires cfg.Valid()
    requires column in InitRow(cfg.table.columns, row)
    requires !Processable(InitRow(cfg.table.columns, row), column)
    ensures EnrichedRow(cfg, row, column, c) == InitRow(cfg.table.columns, row)
    ensures forall j :: 0 <= j < |cfg.table.columns| ==>
      Has(EnrichedRow(cfg, row, column, c), cfg.table.columns[j].name, cfg.table.columns[j].init)
  {
    InitRowValues(cfg.table.columns, row);
  }

  /**
   * Per-record isolation: two classifiers that differ only on one text give
   * the same row for every record whose text is another one.
   */
  lemma ClassifierIsolation(cfg: Config, df: seq<Row>, column: string, c1: Classifier, c2: Classifier, text: string)
    requires cfg.Valid()
    requires c1.parseFloat == c2.parseFloat
    requires forall t :: t != text ==> c1.reply(t) == c2.reply(t)
    ensures forall j :: 0 <= j < |df| ==>
      var row := InitRow(cfg.table.columns, df[j]);
      !(Processable(row, column) && row[column].s == text) ==>
        EnrichedTable(cfg, df, column, c1)[j] == EnrichedTable(cfg, df, column, c2)[j]
  {
    forall j | 0 <= j < |df| && !(Processable(InitRow(cfg.table.columns, df[j]), column) &&
                                  InitRow(cfg.table.columns, df[j])[column].s == text) {
      RowIsolation(cfg, InitRow(cfg.table.columns, df[j]), column, c1, c2);
    }
  }

  /**
   * A row's outcome depends on the service only through its answer for that
   * row's own text (and on `float()`): two classifiers that agree there give
   * the same row, whatever they answer for any other text.
   */
  lemma RowIsolation(cfg: Config, row: Row, column: string, c1: Classifier, c2: Classifier)
    requires cfg.Valid()
    requires c1.parseFloat == c2.parseFloat
    requires Processable(row, column) ==> c1.reply(row[column].s) == c2.reply(row[column].s)
    ensures ProcessRow(cfg, row, column, c1) == ProcessRow(cfg, row, column, c2)
  {
    if Processable(row, column) {
      var s := row[column].s;
      if c1.reply(s).Parsed? && c1.reply(s).reply.JObj? {
        NormalizeSameFloat(cfg.reply.fields, c1.reply(s).reply.entries, c1, c2);
      }
      assert Classify(cfg.reply, s, c1) == Classify(cfg.reply, s, c2);
    }
  }

  /** Validation depends on the classifier only through `float()`. */
  lemma {:induction false} NormalizeSameFloat(fields: seq<Field>, d: Dict, c1: Classifier, c2: Classifier)
    requires c1.parseFloat == c2.parseFloat
    ensures Normalize(fields, d, c1) == Normalize(fields, d, c2)
  {
    if fields != [] {
      assert Validated(fields[0], d, c1) == Validated(fields[0], d, c2);
      if Validated(fields[0], d, c1).Success? {
        NormalizeSameFloat(fields[1..], Put(d, fields[0].key, Validated(fields[0], d, c1).value), c1, c2);
      }
    }
  }

  /** What one input row becomes in the returned table. */
  function EnrichedRow(cfg: Config, row: Row, column: string, c: Classifier): Row
    requires cfg.Valid()
  {
    ProcessRow(cfg, InitRow(cfg.table.columns, row), column, c)
  }

  /** The returned table, row by row. */
  function EnrichedTable(cfg: Config, df: seq<Row>, column: string, c: Classifier): (t: seq<Row>)
    requires cfg.Valid()
    ensures |t| == |df|
  {
    seq(|df|, j requires 0 <= j < |df| => EnrichedRow(cfg, df[j], column, c))
  }

  /** The texts sent to the classifier, in row order. */
  function Texts(rows: seq<Row>, column: string): seq<string> {
    if rows == [] then []
    else
      var last := rows[|rows| - 1];
      Texts(rows[..|rows| - 1], column) + if Processable(last, column) then [last[column].s] else []
  }

  /**
   * A text is sent to the classifier exactly when some row is processable
   * with that text, and there is at most one call per row.
   */
  lemma {:induction false} TextsSpec(rows: seq<Row>, column: string)
    ensures |Texts(rows, column)| <= |rows|
    ensures forall t :: t in Texts(rows, column) <==>
      exists j :: 0 <= j < |rows| && Processable(rows[j], column) && rows[j][column].s == t
  {
    if rows != [] {
      var init := rows[..|rows| - 1];
      TextsSpec(init, column);
      forall t ensures t in Texts(rows, column) <==>
        exists j :: 0 <= j < |rows| && Processable(rows[j], column) && rows[j][column].s == t
      {
        if t in Texts(init, column) {
          var j :| 0 <= j < |init| && Processable(init[j], column) && init[j][column].s == t;
          assert rows[j] == init[j];
        }
        if exists j :: 0 <= j < |rows| && Processable(rows[j], column) && rows[j][column].s == t {
          var j :| 0 <= j < |rows| && Processable(rows[j], column) && rows[j][column].s == t;
          if j < |init| { assert init[j] == rows[j]; }
        }
      }
    }
  }

  /** The indices of the rows whose text is sent to the classifier. */
  ghost function SentRows(rows: seq<Row>, column: string): set<int> {
    set j | 0 <= j < |rows| && Processable(rows[j], column)
  }

  /** One row more adds its index when its text is sent. */
  lemma SentRowsNext(rows: seq<Row>, column: string)
    requires rows != []
    ensures var k := |rows| - 1;
      SentRows(rows, column) == SentRows(rows[..k], column) + if Processable(rows[k], column) then {k} else {}
  {
    var k := |rows| - 1;
    var init := rows[..k];
    forall j ensures j in SentRows(rows, column) <==>
      j in SentRows(init, column) + if Processable(rows[k], column) then {k} else {}
    {
      if 0 <= j < k { assert init[j] == rows[j]; }
    }
  }

  /** There is exactly one call per row whose text is a non-blank string. */
  lemma {:induction false} TextsCount(rows: seq<Row>, column: string)
    ensures |Texts(rows, column)| == |SentRows(rows, column)|
  {
    if rows != [] {
      var k := |rows| - 1;
      TextsCount(rows[..k], column);
      SentRowsNext(rows, column);
      assert k !in SentRows(rows[..k], column);
    }
  }

  // ---------------------------------------------------------------- windows

  function Min(a: int, b: int): int {
    if a < b then a else b
  }

  /** `iloc[i:i+size]` for every `i` in `range(lo, n, size)`, as half-open index ranges. */
  function Windows(lo: nat, n: nat, size: nat): seq<(nat, nat)>
    requires size > 0
    decreases n - lo
  {
    if lo >= n then [] else [(lo, Min(lo + size, n))] + Windows(lo + size, n, size)
  }

  /** There are ceil((n - lo) / size) windows from lo. */
  lemma {:induction false} WindowsCount(lo: nat, n: nat, size: nat)
    requires size > 0
    ensures |Windows(lo, n, size)| == if lo >= n then 0 else (n - lo + size - 1) / size
    decreases n - lo
  {
    if lo < n {
      WindowsCount(lo + size, n, size);
      if lo + size < n {
        DivStep(n - lo - 1, size);
      } else {
        DivOne(n - lo + size - 1, size);
      }
    }
  }

  /** Window k is `[lo + k * size, lo + k * size + size)` cut at n. */
  lemma {:induction false} WindowsShape(lo: nat, n: nat, size: nat)
    requires size > 0
    ensures forall k :: 0 <= k < |Windows(lo, n, size)| ==>
      Windows(lo, n, size)[k] == (lo + k * size, Min(lo + k * size + size, n))
    decreases n - lo
  {
    if lo < n {
      var w := Windows(lo, n, size);
      var rest := Windows(lo + size, n, size);
      WindowsShape(lo + size, n, size);
      forall k | 1 <= k < |w| ensures w[k] == (lo + k * size, Min(lo + k * size + size, n)) {
        assert w[k] == rest[k - 1];
        assert lo + size + (k - 1) * size == lo + k * size by { MulStep(k, size); }
      }
    }
  }

  /** Every window from lo is non-empty and holds at most size rows. */
  lemma {:induction false} WindowsBounds(lo: nat, n: nat, size: nat)
    requires size > 0
    ensures forall k :: 0 <= k < |Windows(lo, n, size)| ==>
      Windows(lo, n, size)[k].0 < Windows(lo, n, size)[k].1 <= Windows(lo, n, size)[k].0 + size
    decreases n - lo
  {
    if lo < n {
      var w := Windows(lo, n, size);
      var rest := Windows(lo + size, n, size);
      WindowsBounds(lo + size, n, size);
      forall k | 0 <= k < |w| ensures w[k].0 < w[k].1 <= w[k].0 + size {
        if k > 0 {
          assert w[k] == rest[k - 1];
        }
      }
    }
  }

  /** Each window from lo starts where the previous one ends: no gap, no overlap. */
  lemma {:induction false} WindowsAdjacent(lo: nat, n: nat, size: nat)
    requires size > 0
    ensures forall k :: 0 < k < |Windows(lo, n, size)| ==> Windows(lo, n, size)[k].0 == Windows(lo, n, size)[k - 1].1
    decreases n - lo
  {
    if lo < n {
      var w := Windows(lo, n, size);
      var rest := Windows(lo + size, n, size);
      WindowsAdjacent(lo + size, n, size);
      forall k | 0 < k < |w| ensures w[k].0 == w[k - 1].1 {
        assert w[k] == rest[k - 1];
        if k > 1 {
          assert w[k - 1] == rest[k - 2];
        } else {
          assert lo + size < n;
        }
      }
    }
  }

  /** The windows from lo < n start at lo and end at n. */
  lemma {:induction false} WindowsEnds(lo: nat, n: nat, size: nat)
    requires size > 0 && lo < n
    ensures |Windows(lo, n, size)| > 0
    ensures Windows(lo, n, size)[0].0 == lo
    ensures Windows(lo, n, size)[|Windows(lo, n, size)| - 1].1 == n
    decreases n - lo
  {
    var w := Windows(lo, n, size);
    var rest := Windows(lo + size, n, size);
    if lo + size < n {
      WindowsEnds(lo + size, n, size);
      assert w[|w| - 1] == rest[|rest| - 1];
    } else {
      assert w == [(lo, n)];
    }
  }

  lemma MulStep(k: int, size: int)
    ensures size + (k - 1) * size == k * size
  {}

  lemma DivStep(x: nat, size: nat)
    requires size > 0 && x >= size
    ensures (x + size) / size == 1 + x / size
  {
    DivUnique(x, size, x / size, x % size);
    DivUnique(x + size, size, x / size + 1, x % size);
  }

  lemma DivOne(x: nat, size: nat)
    requires size > 0 && size <= x < 2 * size
    ensures x / size == 1
  {
    DivUnique(x, size, 1, x - size);
  }

  /** Euclidean division is determined by any quotient with a remainder in [0, b). */
  lemma DivUnique(a: int, b: int, q: int, r: int)
    requires b > 0 && 0 <= r < b && a == q * b + r
    ensures a / b == q && a % b == r
  {
    var q', r' := a / b, a % b;
    assert a == q' * b + r';
    MulSub(q', q, b);
    SmallMultiple(q' - q, b);
  }

  lemma MulSub(x: int, y: int, b: int)
    ensures (x - y) * b == x * b - y * b
  {}

  lemma SmallMultiple(d: int, b: int)
    requires b > 0 && -b < d * b < b
    ensures d == 0
  {
    if d >= 1 {
      MulMonoInt(1, d, b);
    } else if d <= -1 {
      MulMonoInt(d, -1, b);
    }
  }

  lemma MulMonoInt(x: int, y: int, b: int)
    requires x <= y && b >= 0
    ensures x * b <= y * b
  {}

  /** Row r lies in window r / size: every row is in exactly the window its index says. */
  lemma WindowsCover(n: nat, size: nat)
    requires size > 0
    ensures forall r :: 0 <= r < n ==>
      r / size < |Windows(0, n, size)| && Windows(0, n, size)[r / size].0 <= r < Windows(0, n, size)[r / size].1
  {
    var w := Windows(0, n, size);
    WindowsShape(0, n, size);
    WindowsCount(0, n, size);
    forall r | 0 <= r < n ensures r / size < |w| && w[r / size].0 <= r < w[r / size].1 {
      WindowCountBound(r, n, size);
      WindowIndex(r, r / size, size);
    }
  }

  lemma WindowIndex(r: nat, k: nat, size: nat)
    requires size > 0
    ensures k * size <= r < k * size + size <==> k == r / size
  {
    var q := r / size;
    assert r == q * size + r % size;
    if k * size <= r < k * size + size {
      DivUnique(r, size, k, r - k * size);
    }
  }

  lemma WindowCountBound(r: nat, n: nat, size: nat)
    requires size > 0 && r < n
    ensures r / size < (n + size - 1) / size
  {
    var q := r / size;
    assert r == q * size + r % size;
    var m := (n + size - 1) / size;
    assert n + size - 1 == m * size + (n + size - 1) % size;
    if m <= q {
      MulMonoInt(m, q, size);
    }
  }

  /** How many windows, and so how many delays, a table of n rows gets. */
  function WindowCount(n: nat, batchSize: int): nat {
    if batchSize <= 0 then 0 else |Windows(0, n, batchSize)|
  }

  // ---------------------------------------------------------------- the batch

  /** The error `range()` raises for a zero step; it is raised outside every handler. */
  const RangeStepZero := "range() arg 3 must not be zero"

  /** `df.copy()` and the initialisation of the result columns. */
  method CopyWithColumns(cols: seq<Column>, df: array<Row>) returns (table: array<Row>)
    ensures fresh(table) && table[..] == InitTable(cols, df[..])
  {
    table := new Row[df.Length];
    for j := 0 to df.Length
      invariant forall k :: 0 <= k < j ==> table[k] == InitRow(cols, df[k])
    {
      table[j] := InitRow(cols, df[j]);
    }
    assert forall k :: 0 <= k < df.Length ==> table[..][k] == InitTable(cols, df[..])[k];
  }

  /** Concatenating row lists concatenates the texts sent to the classifier. */
  lemma {:induction false} TextsAppend(a: seq<Row>, b: seq<Row>, column: string)
    ensures Texts(a + b, column) == Texts(a, column) + Texts(b, column)
  {
    if b != [] {
      var b' := b[..|b| - 1];
      assert (a + b)[..|a + b| - 1] == a + b';
      TextsAppend(a, b', column);
    } else {
      assert a + b == a;
    }
  }

  /** The texts of a prefix are those of a shorter prefix followed by those of the rows between. */
  lemma TextsSplit(rows: seq<Row>, i: nat, hi: nat, column: string)
    requires i <= hi <= |rows|
    ensures Texts(rows[..hi], column) == Texts(rows[..i], column) + Texts(rows[i..hi], column)
  {
    assert rows[..hi] == rows[..i] + rows[i..hi];
    TextsAppend(rows[..i], rows[i..hi], column);
  }

  /** One window less: the windows from i are the one at i followed by those from its end. */
  lemma WindowsStep(i: nat, n: nat, size: nat)
    requires size > 0 && i < n
    ensures |Windows(i, n, size)| == 1 + |Windows(Min(i + size, n), n, size)|
  {
    if i + size >= n {
      assert Windows(i + size, n, size) == [] == Windows(n, n, size);
    }
  }

  /** Extending a run of rows by one row adds that row's text when it is sent. */
  lemma TextsNext(rows: seq<Row>, lo: nat, k: nat, column: string)
    requires lo <= k < |rows|
    ensures Texts(rows[lo..k + 1], column) ==
      Texts(rows[lo..k], column) + if Processable(rows[k], column) then [rows[k][column].s] else []
  {
    assert rows[lo..k + 1][..k - lo] == rows[lo..k];
  }

  /**
   * The loop over the rows of one window `[lo, hi)`: each row is processed in
   * place, and the texts of the processable rows are sent to the classifier.
   */
  method ProcessWindow(cfg: Config, table: array<Row>, lo: nat, hi: nat, column: string, c: Classifier)
    returns (sent: seq<string>)
    requires cfg.Valid()
    requires lo <= hi <= table.Length
    modifies table
    ensures forall m :: 0 <= m < table.Length && !(lo <= m < hi) ==> table[m] == old(table[m])
    ensures forall m :: lo <= m < hi ==> table[m] == ProcessRow(cfg, old(table[m]), column, c)
    ensures sent == Texts(old(table[lo..hi]), column)
  {
    ghost var before := table[..];
    sent := [];
    var k := lo;
    while k < hi
      invariant lo <= k <= hi
      invariant forall m :: 0 <= m < lo ==> table[m] == before[m]
      invariant forall m :: lo <= m < k ==> table[m] == ProcessRow(cfg, before[m], column, c)
      invariant forall m :: k <= m < table.Length ==> table[m] == before[m]
      invariant sent == Texts(before[lo..k], column)
    {
      var row := table[k];
      TextsNext(before, lo, k, column);
      if Processable(row, column) {
        sent := sent + [row[column].s];
      }
      table[k] := ProcessRow(cfg, row, column, c);
      k := k + 1;
    }
  }

  /**
   * `for i in range(0, len(result_df), size)`: every window is processed in
   * turn and followed by one delay.
   */
  method RunWindows(cfg: Config, table: array<Row>, size: nat, column: string, c: Classifier)
    returns (calls: seq<string>, delays: nat)
    requires cfg.Valid() && size > 0
    modifies table
    ensures forall k :: 0 <= k < table.Length ==> table[k] == ProcessRow(cfg, old(table[k]), column, c)
    ensures calls == Texts(old(table[..]), column)
    ensures delays == |Windows(0, table.Length, size)|
  {
    ghost var init := table[..];
    var n := table.Length;
    calls, delays := [], 0;
    var i := 0;
    while i < n
      invariant i <= n
      invariant forall k :: 0 <= k < i ==> table[k] == ProcessRow(cfg, init[k], column, c)
      invariant forall k :: i <= k < n ==> table[k] == init[k]
      invariant calls == Texts(init[..i], column)
      invariant delays + |Windows(i, n, size)| == |Windows(0, n, size)|
      decreases n - i
    {
      // the next start, i + size, is this window's end while it lies inside the table
      var hi := Min(i + size, n);
      WindowsStep(i, n, size);
      assert table[i..hi] == init[i..hi];
      var sent := ProcessWindow(cfg, table, i, hi, column, c);
      TextsSplit(init, i, hi, column);
      calls := calls + sent;
      delays := delays + 1;
      i := hi;
    }
    assert init[..n] == init;
  }

  /**
   * The batch update: copy the table, initialise the result columns, then walk
   * the rows window by window. `calls` records the classifier's inputs and
   * `delays` the number of sleeps.
   */
  method BatchEnrich(cfg: Config, df: array<Row>, column: string, batchSize: int, c: Classifier)
    returns (out: Result<array<Row>, string>, calls: seq<string>, delays: nat)
    requires cfg.Valid()
    ensures batchSize == 0 ==> out == Failure(RangeStepZero) && calls == [] && delays == 0
    ensures batchSize != 0 ==> out.Success? && fresh(out.value)
    ensures batchSize > 0 ==> out.Success? && out.value[..] == EnrichedTable(cfg, df[..], column, c)
    ensures batchSize > 0 ==> calls == Texts(InitTable(cfg.table.columns, df[..]), column)
    ensures batchSize < 0 ==> out.Success? && out.value[..] == InitTable(cfg.table.columns, df[..]) && calls == []
    ensures delays == WindowCount(df.Length, batchSize)
  {
    calls, delays := [], 0;
    var table := CopyWithColumns(cfg.table.columns, df);
    if batchSize == 0 {
      out := Failure(RangeStepZero);
      return;
    }
    if batchSize > 0 {
      calls, delays := RunWindows(cfg, table, batchSize, column, c);
      assert table[..] == EnrichedTable(cfg, df[..], column, c);
    }
    out := Success(table);
  }
}
