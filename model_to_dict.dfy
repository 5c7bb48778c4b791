/**
 * The path-driven record serialiser of bookshop/sqlalchemy/model_to_dict.py.
 *
 * A stored record is its table columns plus its relationship attributes.
 * `model_to_dict` copies the non-primary-key columns, expands only the head of
 * `paths` (recursing on the tail), and renames the keys of what it built with
 * `python_dict_to_json_dict`. The unused `domain_model` argument is dropped.
 */
module ModelToDict {
  import opened Wrappers
  import opened Documents
  import opened ConvertDict

  /** One column of `__table__.columns`, with the record's value for it. */
  datatype Column = Column(key: string, primaryKey: bool, value: Doc)

  /** A relationship attribute: an InstrumentedList, or a single record or None. */
  datatype Related = Single(target: Option<Record>) | Many(targets: seq<Record>)

  datatype Record = Record(columns: seq<Column>, relationships: map<string, Related>)

  /** The AttributeError that `getattr` raises, with the attribute it could not find. */
  datatype AttributeError = AttributeError(name: string)

  /** What `getattr(record, name)` finds. */
  datatype Attribute = Relation(related: Related) | ColumnValue(value: Doc) | Missing

  /** The keys of the non-primary-key columns. */
  function NonKeyColumnKeys(cols: seq<Column>): set<string>
  {
    set c | c in cols && !c.primaryKey :: c.key
  }

  /** The value of the first column named `name`, if any. */
  function ColumnNamed(cols: seq<Column>, name: string): (r: Option<Doc>)
    ensures r.None? <==> forall c :: c in cols ==> c.key != name
    ensures r.Some? ==> exists c :: c in cols && c.key == name && c.value == r.value
  {
    if cols == [] then None
    else if cols[0].key == name then Some(cols[0].value)
    else ColumnNamed(cols[1..], name)
  }

  /**
   * `getattr(record, name)`: a relationship attribute, else a column
   * attribute, else nothing (Python raises AttributeError).
   */
  function GetAttr(rec: Record, name: string): (r: Attribute)
    ensures name in rec.relationships ==> r == Relation(rec.relationships[name])
    ensures r.Missing? <==> name !in rec.relationships && forall c :: c in rec.columns ==> c.key != name
    ensures name !in rec.relationships && !r.Missing? ==> r.ColumnValue?
  {
    if name in rec.relationships then Relation(rec.relationships[name])
    else match ColumnNamed(rec.columns, name)
      case Some(v) => ColumnValue(v)
      case None => Missing
  }

  /** A name that is no relationship but some column's key yields a value of a column with that key. */
  lemma GetAttrColumn(rec: Record, name: string)
    requires name !in rec.relationships && exists c :: c in rec.columns && c.key == name
    ensures GetAttr(rec, name).ColumnValue?
    ensures exists c :: c in rec.columns && c.key == name && c.value == GetAttr(rec, name).value
  {
    var v := ColumnNamed(rec.columns, name).value;
    assert GetAttr(rec, name) == ColumnValue(v);
  }

  lemma NonKeyColumnKeysAppend(cols: seq<Column>, c: Column)
    ensures NonKeyColumnKeys(cols + [c]) == NonKeyColumnKeys(cols) + if c.primaryKey then {} else {c.key}
  {
    assert forall x :: x in cols + [c] <==> x in cols || x == c;
  }

  /** Lines 20-26 as a value: `serialized_data` after the column loop over `cols`. */
  function SerializedColumns(cols: seq<Column>): (r: Dict)
    ensures DistinctKeys(r)
    ensures Keys(r) == NonKeyColumnKeys(cols)
  {
    if cols == [] then []
    else
      var prefix := SerializedColumns(cols[..|cols| - 1]);
      var c := cols[|cols| - 1];
      NonKeyColumnKeysAppend(cols[..|cols| - 1], c);
      InitLast(cols);
      if c.primaryKey then prefix
      else
        KeysPut(prefix, c.key, c.value);
        DistinctPut(prefix, c.key, c.value);
        Put(prefix, c.key, c.value)
  }

  /** Lines 20-26: the column loop, skipping primary keys. */
  method CollectColumns(cols: seq<Column>) returns (serializedData: Dict)
    ensures serializedData == SerializedColumns(cols)
  {
    serializedData := [];
    for i := 0 to |cols|
      invariant serializedData == SerializedColumns(cols[..i])
    {
      assert cols[..i + 1][..i] == cols[..i];
      if cols[i].primaryKey {
        continue;
      }
      serializedData := Put(serializedData, cols[i].key, cols[i].value);
    }
    assert cols[..|cols|] == cols;
  }

  /** Lines 34 and 38: one nested conversion, renamed and stored as a value. */
  function Nested(target: Option<Record>, tail: seq<string>, ext: Externals): (r: Result<Doc, AttributeError>)
    decreases |tail| + 1, 0, 0
    ensures r.Ok? && target.None? ==> r.value == DNone
    ensures r.Ok? && target.Some? ==> r.value.DMap?
    ensures r.Err? <==> Serialized(target, tail, ext).Err?
  {
    match Serialized(target, tail, ext)
    case Err(e) => Err(e)
    case Ok(d) => Ok(AsDoc(PythonDictToJsonDict(d, ext)))
  }

  /** Lines 33-36: the list comprehension over related records; the first failure propagates. */
  function SerializedEach(targets: seq<Record>, tail: seq<string>, ext: Externals): (r: Result<seq<Doc>, AttributeError>)
    decreases |tail| + 1, 1, |targets|
    ensures r.Ok? <==> forall i :: 0 <= i < |targets| ==> Nested(Some(targets[i]), tail, ext).Ok?
    ensures r.Ok? ==> |r.value| == |targets|
    ensures r.Ok? ==> forall i :: 0 <= i < |targets| ==> r.value[i] == Nested(Some(targets[i]), tail, ext).value
  {
    if targets == [] then Ok([])
    else
      assert forall i :: 1 <= i < |targets| ==> targets[i] == targets[1..][i - 1];
      match Nested(Some(targets[0]), tail, ext)
      case Err(e) => Err(e)
      case Ok(d) =>
        match SerializedEach(targets[1..], tail, ext)
        case Err(e) => Err(e)
        case Ok(ds) => Ok([d] + ds)
  }

  /**
   * Lines 30-39: the value stored under `paths[0]`. A None column behaves like
   * a None relationship; any other column value has no `__table__`.
   */
  function HeadValue(rec: Record, paths: seq<string>, ext: Externals): (r: Result<Doc, AttributeError>)
    requires paths != []
    decreases |paths|, 2
    ensures GetAttr(rec, paths[0]).Missing? ==> r == Err(AttributeError(paths[0]))
  {
    match GetAttr(rec, paths[0])
    case Missing => Err(AttributeError(paths[0]))
    case Relation(Many(targets)) =>
      (match SerializedEach(targets, paths[1..], ext)
       case Err(e) => Err(e)
       case Ok(docs) => Ok(DList(docs)))
    case Relation(Single(target)) => Nested(target, paths[1..], ext)
    case ColumnValue(DNone) => Nested(None, paths[1..], ext)
    case ColumnValue(_) => Err(AttributeError("__table__"))
  }

  /** `model_to_dict` as a value (lines 18-41). */
  function Serialized(rec: Option<Record>, paths: seq<string>, ext: Externals): (r: Result<Option<Dict>, AttributeError>)
    decreases |paths|, 3
    ensures rec.None? ==> r == Ok(None)
    ensures rec.Some? && r.Ok? ==> r.value.Some?
    ensures rec.Some? && r.Ok? ==>
      Keys(r.value.value) ==
        Image(ext.toJsonName, NonKeyColumnKeys(rec.value.columns) + if paths == [] then {} else {paths[0]})
    ensures r.Err? ==> paths != []
  {
    if rec.None? then Ok(None)
    else
      var serializedData := SerializedColumns(rec.value.columns);
      if paths == [] then Ok(PythonDictToJsonDict(Some(serializedData), ext))
      else
        match HeadValue(rec.value, paths, ext)
        case Err(e) => Err(e)
        case Ok(v) =>
          KeysPut(serializedData, paths[0], v);
          Ok(PythonDictToJsonDict(Some(Put(serializedData, paths[0], v)), ext))
  }

  /** Lines 10-41: `model_to_dict`, with the column loop and the head assignment. */
  method ModelToDict(rec: Option<Record>, paths: seq<string>, ext: Externals) returns (out: Result<Option<Dict>, AttributeError>)
    ensures out == Serialized(rec, paths, ext)
  {
    if rec.None? {
      return Ok(None);
    }
    var serializedData := CollectColumns(rec.value.columns);
    if paths == [] {
      var converted := ConvertDictNaming(Some(serializedData), ext.toJsonName, ext);
      return Ok(converted);
    }
    var nextKey := paths[0];
    var nextValue := HeadValue(rec.value, paths, ext);
    if nextValue.Err? {
      return Err(nextValue.error);
    }
    serializedData := Put(serializedData, nextKey, nextValue.value);
    var converted := ConvertDictNaming(Some(serializedData), ext.toJsonName, ext);
    return Ok(converted);
  }

  // ---------------------------------------------------------------------
  // The column loop

  /** The non-primary-key columns as entries, in table order. */
  function NonKeyEntries(cols: seq<Column>): Dict
  {
    if cols == [] then []
    else if cols[|cols| - 1].primaryKey then NonKeyEntries(cols[..|cols| - 1])
    else NonKeyEntries(cols[..|cols| - 1]) + [Entry(cols[|cols| - 1].key, cols[|cols| - 1].value)]
  }

  /**
   * For a table (distinct column keys) the loop copies exactly the
   * non-primary-key columns, each under its key with its value, in order.
   */
  lemma {:induction false} ColumnsCopied(cols: seq<Column>)
    requires forall i, j :: 0 <= i < j < |cols| ==> cols[i].key != cols[j].key
    ensures SerializedColumns(cols) == NonKeyEntries(cols)
  {
    if cols != [] {
      var prefix, c := cols[..|cols| - 1], cols[|cols| - 1];
      ColumnsCopied(prefix);
      if !c.primaryKey {
        assert c.key !in NonKeyColumnKeys(prefix) by {
          forall x | x in prefix ensures x.key != c.key {
            var i :| 0 <= i < |prefix| && prefix[i] == x;
          }
        }
        PutFresh(SerializedColumns(prefix), c.key, c.value);
      }
    }
  }

  /** The value kept under a column key is that of the last non-primary-key column with it. */
  lemma {:induction false} ColumnValueKept(cols: seq<Column>, j: nat)
    requires j < |cols| && !cols[j].primaryKey
    requires forall j' :: j < j' < |cols| && !cols[j'].primaryKey ==> cols[j'].key != cols[j].key
    ensures Lookup(SerializedColumns(cols), cols[j].key) == Some(cols[j].value)
  {
    var prefix, c := cols[..|cols| - 1], cols[|cols| - 1];
    if !c.primaryKey {
      LookupPut(SerializedColumns(prefix), c.key, c.value, cols[j].key);
    }
    if j < |cols| - 1 {
      ColumnValueKept(prefix, j);
    }
  }

  /** A primary-key column never appears, unless a non-primary-key column shares its key. */
  lemma PrimaryKeySkipped(cols: seq<Column>, c: Column)
    requires c in cols && c.primaryKey
    requires forall c' :: c' in cols && !c'.primaryKey ==> c'.key != c.key
    ensures Lookup(SerializedColumns(cols), c.key) == None
  {
    LookupAbsent(SerializedColumns(cols), c.key);
  }

  // ---------------------------------------------------------------------
  // What the serialiser returns

  /**
   * With no paths, a record whose columns have distinct keys and distinct
   * renamed keys serialises to its non-primary-key columns, in order, each
   * key renamed and each value converted; no relationship appears.
   */
  lemma FlatRecord(rec: Record, ext: Externals)
    requires forall i, j :: 0 <= i < j < |rec.columns| ==> rec.columns[i].key != rec.columns[j].key
    requires forall i, j :: 0 <= i < j < |NonKeyEntries(rec.columns)| ==>
      ext.toJsonName(NonKeyEntries(rec.columns)[i].key) != ext.toJsonName(NonKeyEntries(rec.columns)[j].key)
    ensures Serialized(Some(rec), [], ext) == Ok(Some(RenamedEach(NonKeyEntries(rec.columns), ext.toJsonName, ext)))
  {
    ColumnsCopied(rec.columns);
    NoCollisionKeepsEntries(NonKeyEntries(rec.columns), ext.toJsonName, ext);
  }

  /** An attribute that neither a relationship nor a column has raises AttributeError. */
  lemma MissingPathRaises(rec: Record, paths: seq<string>, ext: Externals)
    requires paths != [] && paths[0] !in rec.relationships
    requires forall c :: c in rec.columns ==> c.key != paths[0]
    ensures Serialized(Some(rec), paths, ext) == Err(AttributeError(paths[0]))
  {
  }

  /** A path naming a column that holds a value: that value has no `__table__`. */
  lemma ColumnPathRaises(rec: Record, paths: seq<string>, ext: Externals)
    requires paths != [] && paths[0] !in rec.relationships
    requires ColumnNamed(rec.columns, paths[0]).Some? && ColumnNamed(rec.columns, paths[0]).value != DNone
    ensures Serialized(Some(rec), paths, ext) == Err(AttributeError("__table__"))
  {
  }

  /** A path naming a column that holds None: `model_to_dict(None)` gives None, stored without error. */
  lemma NoneColumnPathGivesNone(rec: Record, paths: seq<string>, ext: Externals)
    requires paths != [] && paths[0] !in rec.relationships
    requires ColumnNamed(rec.columns, paths[0]) == Some(DNone)
    ensures HeadValue(rec, paths, ext) == Ok(DNone)
    ensures Serialized(Some(rec), paths, ext).Ok?
  {
  }

  /** Element `i` is the first whose nested conversion fails, and it fails with `e`. */
  predicate FailsFirstAt(targets: seq<Record>, tail: seq<string>, ext: Externals, i: int, e: AttributeError)
  {
    0 <= i < |targets|
    && Nested(Some(targets[i]), tail, ext) == Err(e)
    && forall j :: 0 <= j < i ==> Nested(Some(targets[j]), tail, ext).Ok?
  }

  /** The comprehension raises the error of its first failing element; earlier ones succeed. */
  lemma {:induction false} EachFirstError(targets: seq<Record>, tail: seq<string>, ext: Externals)
    requires SerializedEach(targets, tail, ext).Err?
    ensures exists i :: FailsFirstAt(targets, tail, ext, i, SerializedEach(targets, tail, ext).error)
  {
    var e := SerializedEach(targets, tail, ext).error;
    var head := Nested(Some(targets[0]), tail, ext);
    if head.Err? {
      assert FailsFirstAt(targets, tail, ext, 0, e);
    } else {
      var rest := targets[1..];
      assert SerializedEach(rest, tail, ext) == Err(e);
      EachFirstError(rest, tail, ext);
      var k :| FailsFirstAt(rest, tail, ext, k, e);
      assert targets[k + 1] == rest[k];
      forall j | 1 <= j < k + 1 ensures Nested(Some(targets[j]), tail, ext).Ok? {
        assert targets[j] == rest[j - 1];
      }
      assert FailsFirstAt(targets, tail, ext, k + 1, e);
    }
  }

  /** The head entry is appended after the columns, so it wins every collision. */
  lemma HeadEntryWins(rec: Record, paths: seq<string>, ext: Externals)
    requires paths != [] && paths[0] !in NonKeyColumnKeys(rec.columns)
    requires HeadValue(rec, paths, ext).Ok?
    ensures Serialized(Some(rec), paths, ext).Ok?
    ensures Lookup(Serialized(Some(rec), paths, ext).value.value, ext.toJsonName(paths[0]))
         == Some(DictValueToJsonValue(HeadValue(rec, paths, ext).value, ext.toJsonName, ext))
  {
    var data := SerializedColumns(rec.columns);
    var v := HeadValue(rec, paths, ext).value;
    PutFresh(data, paths[0], v);
    var es := data + [Entry(paths[0], v)];
    LaterEntryWins(es, ext.toJsonName, ext, |es| - 1);
  }

  /**
   * A list-valued relationship becomes a list with one nested conversion per
   * related record, in order, renamed once more by the parent.
   */
  lemma ManyExpanded(rec: Record, paths: seq<string>, ext: Externals)
    requires paths != [] && paths[0] in rec.relationships && rec.relationships[paths[0]].Many?
    requires paths[0] !in NonKeyColumnKeys(rec.columns)
    ensures var targets := rec.relationships[paths[0]].targets;
      Serialized(Some(rec), paths, ext).Ok? <==>
        forall i :: 0 <= i < |targets| ==> Nested(Some(targets[i]), paths[1..], ext).Ok?
    ensures var targets := rec.relationships[paths[0]].targets;
      var out := Serialized(Some(rec), paths, ext);
      out.Ok? ==>
        var v := Lookup(out.value.value, ext.toJsonName(paths[0]));
        v.Some? && v.value.DList? && |v.value.items| == |targets| &&
        forall i :: 0 <= i < |targets| ==>
          v.value.items[i] == DictValueToJsonValue(Nested(Some(targets[i]), paths[1..], ext).value, ext.toJsonName, ext)
  {
    if HeadValue(rec, paths, ext).Ok? {
      HeadEntryWins(rec, paths, ext);
    }
  }

  /**
   * A single relationship becomes one nested conversion, renamed once more by
   * the parent.
   */
  lemma {:induction false} SingleExpanded(rec: Record, paths: seq<string>, ext: Externals)
    requires paths != [] && paths[0] in rec.relationships && rec.relationships[paths[0]].Single?
    requires paths[0] !in NonKeyColumnKeys(rec.columns)
    ensures var target := rec.relationships[paths[0]].target;
      Serialized(Some(rec), paths, ext).Ok? <==> Nested(target, paths[1..], ext).Ok?
    ensures var target := rec.relationships[paths[0]].target;
      var out := Serialized(Some(rec), paths, ext);
      out.Ok? ==>
        Lookup(out.value.value, ext.toJsonName(paths[0]))
          == Some(DictValueToJsonValue(Nested(target, paths[1..], ext).value, ext.toJsonName, ext))
  {
    if HeadValue(rec, paths, ext).Ok? {
      HeadEntryWins(rec, paths, ext);
    }
  }

  /** A single relationship whose related record is None gives None, never an error. */
  lemma {:induction false} NoneRelationshipGivesNone(rec: Record, paths: seq<string>, ext: Externals)
    requires paths != [] && paths[0] in rec.relationships && rec.relationships[paths[0]] == Single(None)
    requires paths[0] !in NonKeyColumnKeys(rec.columns)
    ensures Serialized(Some(rec), paths, ext).Ok?
    ensures Lookup(Serialized(Some(rec), paths, ext).value.value, ext.toJsonName(paths[0])) == Some(DNone)
  {
    assert HeadValue(rec, paths, ext) == Ok(DNone);
    HeadEntryWins(rec, paths, ext);
  }

  // ---------------------------------------------------------------------
  // Only the path is consulted

  /**
   * The part of a record the serialiser can see along `paths`: its columns,
   * and only the relationship named by the head of the path, itself cut down
   * along the tail.
   */
  function Truncated(rec: Record, paths: seq<string>): Record
    decreases |paths|, 1
  {
    Record(rec.columns,
      if paths == [] || paths[0] !in rec.relationships then map[]
      else map[paths[0] := TruncatedRelated(rec.relationships[paths[0]], paths[1..])])
  }

  function TruncatedRelated(related: Related, tail: seq<string>): Related
    decreases |tail| + 1, 0
  {
    match related
    case Single(None) => Single(None)
    case Single(Some(t)) => Single(Some(Truncated(t, tail)))
    case Many(ts) => Many(seq(|ts|, i requires 0 <= i < |ts| => Truncated(ts[i], tail)))
  }

  /**
   * Cutting a record down to the path changes nothing: no relationship other
   * than `paths[0]` is read at this level, and nothing below depth `|paths|`
   * is read at all.
   */
  lemma {:induction false} OnlyPathConsulted(rec: Option<Record>, paths: seq<string>, ext: Externals)
    ensures rec.Some? ==> Serialized(rec, paths, ext) == Serialized(Some(Truncated(rec.value, paths)), paths, ext)
    decreases |paths|, 3
  {
    if rec.Some? && paths != [] {
      HeadOnlyPathConsulted(rec.value, paths, ext);
    }
  }

  lemma {:induction false} HeadOnlyPathConsulted(rec: Record, paths: seq<string>, ext: Externals)
    requires paths != []
    ensures HeadValue(rec, paths, ext) == HeadValue(Truncated(rec, paths), paths, ext)
    decreases |paths|, 2
  {
    var tail := paths[1..];
    var cut := Truncated(rec, paths);
    if paths[0] in rec.relationships {
      assert GetAttr(cut, paths[0]) == Relation(TruncatedRelated(rec.relationships[paths[0]], tail));
      match rec.relationships[paths[0]]
      case Single(None) =>
      case Single(Some(t)) => NestedOnlyPathConsulted(t, tail, ext);
      case Many(ts) => EachOnlyPathConsulted(ts, seq(|ts|, i requires 0 <= i < |ts| => Truncated(ts[i], tail)), tail, ext);
    } else {
      assert GetAttr(cut, paths[0]) == GetAttr(rec, paths[0]);
    }
  }

  lemma {:induction false} NestedOnlyPathConsulted(t: Record, tail: seq<string>, ext: Externals)
    ensures Nested(Some(t), tail, ext) == Nested(Some(Truncated(t, tail)), tail, ext)
    decreases |tail| + 1, 0, 0
  {
    OnlyPathConsulted(Some(t), tail, ext);
  }

  lemma {:induction false} EachOnlyPathConsulted(ts: seq<Record>, cut: seq<Record>, tail: seq<string>, ext: Externals)
    requires |cut| == |ts| && forall i :: 0 <= i < |ts| ==> cut[i] == Truncated(ts[i], tail)
    ensures SerializedEach(ts, tail, ext) == SerializedEach(cut, tail, ext)
    decreases |tail| + 1, 1, |ts|
  {
    if ts != [] {
      NestedOnlyPathConsulted(ts[0], tail, ext);
      EachOnlyPathConsulted(ts[1..], cut[1..], tail, ext);
    }
  }

  // ---------------------------------------------------------------------
  // How often nested keys are renamed

  /**
   * The same walk with no renaming at all: the plain dict tree that a single
   * renaming pass would turn into the document.
   */
  function Raw(rec: Option<Record>, paths: seq<string>): Result<Option<Dict>, AttributeError>
    decreases |paths|, 3
  {
    if rec.None? then Ok(None)
    else
      var serializedData := SerializedColumns(rec.value.columns);
      if paths == [] then Ok(Some(serializedData))
      else
        match RawHead(rec.value, paths)
        case Err(e) => Err(e)
        case Ok(v) => Ok(Some(Put(serializedData, paths[0], v)))
  }

  function RawHead(rec: Record, paths: seq<string>): Result<Doc, AttributeError>
    requires paths != []
    decreases |paths|, 2
  {
    match GetAttr(rec, paths[0])
    case Missing => Err(AttributeError(paths[0]))
    case Relation(Many(targets)) =>
      (match RawEach(targets, paths[1..])
       case Err(e) => Err(e)
       case Ok(docs) => Ok(DList(docs)))
    case Relation(Single(target)) => RawNested(target, paths[1..])
    case ColumnValue(DNone) => RawNested(None, paths[1..])
    case ColumnValue(_) => Err(AttributeError("__table__"))
  }

  function RawNested(target: Option<Record>, tail: seq<string>): Result<Doc, AttributeError>
    decreases |tail| + 1, 0, 0
  {
    match Raw(target, tail)
    case Err(e) => Err(e)
    case Ok(d) => Ok(AsDoc(d))
  }

  function RawEach(targets: seq<Record>, tail: seq<string>): (r: Result<seq<Doc>, AttributeError>)
    decreases |tail| + 1, 1, |targets|
  {
    if targets == [] then Ok([])
    else match RawNested(Some(targets[0]), tail)
      case Err(e) => Err(e)
      case Ok(d) =>
        match RawEach(targets[1..], tail)
        case Err(e) => Err(e)
        case Ok(ds) => Ok([d] + ds)
  }

  /** The raw tree renamed exactly once. */
  function RenamedOnce(rec: Option<Record>, paths: seq<string>, ext: Externals): Result<Option<Dict>, AttributeError>
  {
    match Raw(rec, paths)
    case Err(e) => Err(e)
    case Ok(d) => Ok(PythonDictToJsonDict(d, ext))
  }

  /**
   * With an idempotent `to_json_name`, renaming every nested result again at
   * each level (lines 34, 38 and 41) gives the same document, and the same
   * errors, as renaming the raw tree once.
   */
  lemma {:induction false} IdempotentNamingRenamesOnce(rec: Option<Record>, paths: seq<string>, ext: Externals)
    requires IdempotentNaming(ext.toJsonName)
    ensures Serialized(rec, paths, ext) == RenamedOnce(rec, paths, ext)
    decreases |paths|, 3
  {
    if rec.Some? && paths != [] {
      var fn := ext.toJsonName;
      HeadRenamedOnce(rec.value, paths, ext);
      var head := HeadValue(rec.value, paths, ext);
      if head.Ok? {
        var data := SerializedColumns(rec.value.columns);
        var raw := RawHead(rec.value, paths).value;
        PutSameShape(data, paths[0], head.value, raw);
        ConvertTwiceIsOnce(raw, fn, ext);
        RenamedCongruent(Put(data, paths[0], head.value), Put(data, paths[0], raw), fn, ext);
      }
    }
  }

  /** The converted value of a raw dict as a Python value. */
  lemma AsDocConverted(d: Option<Dict>, fn: string -> string, ext: Externals)
    ensures DictValueToJsonValue(AsDoc(d), fn, ext) == AsDoc(ConvertedDict(d, fn, ext))
  {
  }

  lemma {:induction false} HeadRenamedOnce(rec: Record, paths: seq<string>, ext: Externals)
    requires IdempotentNaming(ext.toJsonName)
    requires paths != []
    ensures HeadValue(rec, paths, ext).Err? <==> RawHead(rec, paths).Err?
    ensures HeadValue(rec, paths, ext).Err? ==> HeadValue(rec, paths, ext) == RawHead(rec, paths)
    ensures HeadValue(rec, paths, ext).Ok? ==>
      HeadValue(rec, paths, ext).value == DictValueToJsonValue(RawHead(rec, paths).value, ext.toJsonName, ext)
    decreases |paths|, 2
  {
    var tail := paths[1..];
    match GetAttr(rec, paths[0])
    case Missing =>
    case Relation(Many(targets)) =>
      EachRenamedOnce(targets, tail, ext);
      var each := SerializedEach(targets, tail, ext);
      if each.Ok? {
        var raw := RawEach(targets, tail).value;
        assert ConvertIterableNaming(raw, ext.toJsonName, ext) == each.value;
      }
    case Relation(Single(target)) => NestedRenamedOnce(target, tail, ext);
    case ColumnValue(DNone) => NestedRenamedOnce(None, tail, ext);
    case ColumnValue(_) =>
  }

  lemma {:induction false} NestedRenamedOnce(target: Option<Record>, tail: seq<string>, ext: Externals)
    requires IdempotentNaming(ext.toJsonName)
    ensures Nested(target, tail, ext).Err? <==> RawNested(target, tail).Err?
    ensures Nested(target, tail, ext).Err? ==> Nested(target, tail, ext) == RawNested(target, tail)
    ensures Nested(target, tail, ext).Ok? ==>
      Nested(target, tail, ext).value == DictValueToJsonValue(RawNested(target, tail).value, ext.toJsonName, ext)
    decreases |tail| + 1, 0, 0
  {
    IdempotentNamingRenamesOnce(target, tail, ext);
    var raw := Raw(target, tail);
    if raw.Ok? {
      ConvertedDictTwiceIsOnce(raw.value, ext.toJsonName, ext);
      AsDocConverted(raw.value, ext.toJsonName, ext);
    }
  }

  lemma {:induction false} EachRenamedOnce(targets: seq<Record>, tail: seq<string>, ext: Externals)
    requires IdempotentNaming(ext.toJsonName)
    ensures SerializedEach(targets, tail, ext).Err? <==> RawEach(targets, tail).Err?
    ensures SerializedEach(targets, tail, ext).Err? ==> SerializedEach(targets, tail, ext).error == RawEach(targets, tail).error
    ensures SerializedEach(targets, tail, ext).Ok? ==>
      var raw := RawEach(targets, tail).value;
      |raw| == |targets| &&
      forall i :: 0 <= i < |targets| ==>
        SerializedEach(targets, tail, ext).value[i] == DictValueToJsonValue(raw[i], ext.toJsonName, ext)
    decreases |tail| + 1, 1, |targets|
  {
    if targets != [] {
      NestedRenamedOnce(Some(targets[0]), tail, ext);
      EachRenamedOnce(targets[1..], tail, ext);
    }
  }

  /**
   * Without idempotence the repeated renaming shows: a key of a record one
   * level down is renamed three times (by its own call, then at line 38 and
   * at line 41 of its parent), where a single pass renames it once. So the
   * serialiser agrees with a single renaming on this record exactly when
   * `fn(fn(fn(k))) == fn(k)`.
   */
  lemma NestedKeyRenamedThrice(p: string, k: string, s: string, ext: Externals)
    ensures var fn := ext.toJsonName;
      var child := Record([Column(k, false, DStr(s))], map[]);
      var rec := Record([], map[p := Single(Some(child))]);
      && Serialized(Some(rec), [p], ext) == Ok(Some([Entry(fn(p), DMap([Entry(fn(fn(fn(k))), DStr(s))]))]))
      && RenamedOnce(Some(rec), [p], ext) == Ok(Some([Entry(fn(p), DMap([Entry(fn(k), DStr(s))]))]))
      && (Serialized(Some(rec), [p], ext) == RenamedOnce(Some(rec), [p], ext) <==> fn(fn(fn(k))) == fn(k))
  {
    var fn := ext.toJsonName;
    var child := Record([Column(k, false, DStr(s))], map[]);
    var rec := Record([], map[p := Single(Some(child))]);
    var cols := [Column(k, false, DStr(s))];
    assert cols[..0] == [];
    assert SerializedColumns(cols) == [Entry(k, DStr(s))];
    var once := [Entry(fn(k), DStr(s))];
    assert RenamedEntries([Entry(k, DStr(s))], fn, ext) == once by {
      assert [Entry(k, DStr(s))][..0] == [];
    }
    assert Serialized(Some(child), [], ext) == Ok(Some(once));
    var twice := [Entry(fn(fn(k)), DStr(s))];
    assert RenamedEntries(once, fn, ext) == twice by {
      assert once[..0] == [];
    }
    assert Nested(Some(child), [], ext) == Ok(DMap(twice));
    assert RenamedEntries(twice, fn, ext) == [Entry(fn(fn(fn(k))), DStr(s))] by {
      assert twice[..0] == [];
    }
    assert RenamedEntries([Entry(p, DMap(twice))], fn, ext) == [Entry(fn(p), DMap([Entry(fn(fn(fn(k))), DStr(s))]))] by {
      assert [Entry(p, DMap(twice))][..0] == [];
    }
    assert GetAttr(rec, p) == Relation(Single(Some(child)));
    assert [p][1..] == [];
    assert Raw(Some(child), []) == Ok(Some([Entry(k, DStr(s))]));
    assert RawNested(Some(child), []) == Ok(DMap([Entry(k, DStr(s))]));
    assert RawHead(rec, [p]) == Ok(DMap([Entry(k, DStr(s))]));
    assert RenamedEntries([Entry(p, DMap([Entry(k, DStr(s))]))], fn, ext) == [Entry(fn(p), DMap(once))] by {
      assert [Entry(p, DMap([Entry(k, DStr(s))]))][..0] == [];
    }
  }
}
