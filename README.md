# genyrator core in Dafny

This project models three pieces of the genyrator repository:

- **Relationship descriptors** of the genyrator code generator
  (`genyrator/entities/Relationship.py`). `create_relationship` derives the
  Python names of a relationship, fills in the defaults (`<target>_id`, the
  property name), and returns one of two attrs records. It returns
  `RelationshipWithJoinTable` exactly when a join table argument is given
  (even an empty one), and `RelationshipWithoutJoinTable` otherwise.
- **Key renaming** in the generated bookshop application
  (`bookshop/core/convert_dict.py`). `convert_dict_naming` walks a dict
  recursively: it renames every key with a naming function and converts
  every value. Dates become ISO strings, UUIDs become strings, sets become
  lists, and `UserJson` payloads are left alone.
- **Record serialisation** in the same application
  (`bookshop/sqlalchemy/model_to_dict.py`). `model_to_dict` copies the
  non-primary-key columns of a stored record and follows one relationship
  per element of `paths`. It renames each dict it builds to the JSON naming
  convention.

Modules:

- `Wrappers` defines `Option` and `Result`. A raised exception is an `Err`.
- `Documents` defines the values the walk sees. A Python dict is its list of
  entries in insertion order; `d[k] = v` keeps the position of an existing
  key and appends a new one.
- `Relationships`, `ConvertDict` and `ModelToDict` follow the three source
  files.

In `Relationships`, the datatype `Relationship` is the attrs class
`Relationship` (genyrator/entities/Relationship.py:12-22), with its nine
fields. The datatype `Descriptor` has one constructor per subclass:
`RelationshipWithoutJoinTable` (lines 25-27) adds
`targetIdentifierColumnName`, and `RelationshipWithJoinTable` (lines 30-32)
adds `joinTable`. Both extra fields may be None.

Both loops of the source are methods with loop invariants: the loop that
fills `out_dict` (`ConvertDict.ConvertDictNaming`) and the column loop
(`ModelToDict.CollectColumns`). Each is proved equal to a function that
describes the dict built so far. The recursive walks are functions, and the
properties are lemmas about those functions. Five functions are outside this
model: the inflector `pythonize`, the naming functions `to_json_name` and
`to_python_name`, `isoformat()` and `str(uuid)`. They are parameters, and a
lemma that needs a law about one of them states that law as a precondition.

Two points of the code deserve a note, because a reader might expect
otherwise:

- **Renaming count.** A nested dict is renamed once by its own call, again
  by the parent at line 34 or 38, and a third time at line 41. So a key one
  level down is renamed three times (`ModelToDict.NestedKeyRenamedThrice`).
  The output equals a single renaming of the raw tree when `to_json_name` is
  idempotent (`ModelToDict.IdempotentNamingRenamesOnce`).
- **No validation.** `create_relationship` has no branch that rejects an
  argument combination. It accepts, for example, both a join table and a
  foreign key column, or any `join` value with any join table. It never
  fails, and neither does the model.

## Model

| member | source | states |
|---|---|---|
| Relationships.JoinOption.Value | genyrator/entities/Relationship.py:7-9 | the value of `to_one` is `"to_one"` and the value of `to_many` is `"to_many"`, each member's own name |
| Relationships.JoinOptionFromValue | genyrator/entities/Relationship.py:7-9 | `"to_one"` finds `to_one`, `"to_many"` finds `to_many`, and any other string finds nothing (ValueError); what is found has the given value |
| Relationships.JoinOptionValueRoundTrip | genyrator/entities/Relationship.py:7-9 | looking up a member's value gives that member back |
| Relationships.BaseRelationship | genyrator/entities/Relationship.py:47-59 | `python_name` and `target_entity_python_name` are both `pythonize(class name)` and the class name is kept verbatim; the foreign key column is the argument if truthy, else `<python name>_id`; the property name is the argument if truthy, else the python name; the source column is `pythonize(source_column_name)`; `nullable`, `lazy` and `join` are copied |
| Relationships.WithoutJoinTableFrom | genyrator/entities/Relationship.py:63-65 | the copy has exactly the base fields plus the given target identifier column |
| Relationships.WithJoinTableFrom | genyrator/entities/Relationship.py:68-70 | the copy has exactly the base fields plus the given join table |
| Relationships.CreateRelationship | genyrator/entities/Relationship.py:35-70 | total for every argument combination; the shared fields are those of the base record; the variant is with-join-table iff `join_table` is not None; the target identifier column is `pythonize(x)` when `x` is truthy, else None; the join table is kept when truthy and is None when empty |
| Relationships.CreatedIsWellFormed | genyrator/entities/Relationship.py:35-70 | for an idempotent `pythonize` that keeps non-empty names non-empty, every result has the well-formedness invariant (derived names agree, foreign key non-empty, no empty join table, pythonized columns are fixed points) |
| Relationships.WellFormedIsCreated | genyrator/entities/Relationship.py:35-70 | every well-formed descriptor is the result of the constructor on the arguments that spell out its own fields, so the invariant describes the results exactly |
| Relationships.FalsyNamesAreDefaults | genyrator/entities/Relationship.py:52-62 | an empty foreign key, property name or target identifier column gives the same descriptor as None |
| Relationships.EmptyJoinTableKeepsVariant | genyrator/entities/Relationship.py:60-70 | an empty join table still selects the with-join-table variant, with join table None, and the same shared fields as without one |
| Relationships.JoinTableLeavesBaseAlone | genyrator/entities/Relationship.py:48-70 | the join table argument changes nothing among the shared fields |
| Documents.Put | bookshop/core/convert_dict.py:16 | after `d[k] = v` the dict holds the entry `k: v`, whether `k` was present before or not |
| Documents.LookupPut | bookshop/core/convert_dict.py:16 | after `d[k] = v`, reading `k` gives `v` and every other key reads as before |
| Documents.KeysPut | bookshop/core/convert_dict.py:16 | assignment adds its key and no other |
| Documents.DistinctPut | bookshop/core/convert_dict.py:16 | assignment never creates a duplicate key |
| Documents.PutFresh | bookshop/core/convert_dict.py:16 | assigning a new key appends it at the end |
| Documents.PutPresentKeepsPosition | bookshop/core/convert_dict.py:16 | assigning a present key keeps the length, rewrites the first entry with that key in place and moves no entry with another key |
| Documents.PutPresentDistinct | bookshop/core/convert_dict.py:16 | in a dict with distinct keys, assigning a present key replaces that entry's value where it stands and leaves every other entry as it was |
| Documents.EntriesPut | bookshop/core/convert_dict.py:16 | after an assignment each entry is the assigned one or an entry from before |
| ConvertDict.DictValueToJsonValue | bookshop/core/convert_dict.py:37-48 | UserJson is returned unchanged; a dict is renamed, with distinct keys equal to the renamed input keys; lists and sets become lists of the same length; dates become `isoformat()`, UUIDs `str(uuid)`; None, strings and other scalars are unchanged; the result is plain: among the kinds the model tells apart, no date, UUID or set remains outside a UserJson, and no dict key repeats, at any depth of the dicts, lists and sets the walk enters |
| ConvertDict.ConvertIterableNaming | bookshop/core/convert_dict.py:20-26 | same length and order, each element converted |
| ConvertDict.RenamedEntries | bookshop/core/convert_dict.py:14-16 | the dict the loop builds has distinct keys, exactly `{fn(k)}` over the input keys, is no longer than the input, and holds only plain values |
| ConvertDict.EntryOrigins | bookshop/core/convert_dict.py:14-16 | every output entry is some input entry with its key renamed and its value converted |
| ConvertDict.ConvertedDict | bookshop/core/convert_dict.py:8-17 | None gives None; otherwise the key set is `{fn(k)}` over the input keys, without duplicates |
| ConvertDict.ConvertDictNaming | bookshop/core/convert_dict.py:8-17 | the loop returns exactly the renamed dict (None for None) |
| ConvertDict.PythonDictToJsonDict | bookshop/core/convert_dict.py:29-30 | is `convert_dict_naming` with `to_json_name` |
| ConvertDict.JsonDictToPythonDict | bookshop/core/convert_dict.py:33-34 | is `convert_dict_naming` with `to_python_name` |
| ConvertDict.LaterEntryWins | bookshop/core/convert_dict.py:15-16 | the value under a renamed key is the converted value of the last input entry renamed to it |
| ConvertDict.OnlyRenamedKeysPresent | bookshop/core/convert_dict.py:14-16 | a key that no input key is renamed to is absent |
| ConvertDict.NoCollisionKeepsEntries | bookshop/core/convert_dict.py:14-16 | when the renamed keys are pairwise distinct, the output is the input renamed and converted entry by entry, in order, with the same length |
| ConvertDict.SizeBound | bookshop/core/convert_dict.py:14-16 | the output has at most as many keys as the input |
| ConvertDict.InjectiveKeepsSize | bookshop/core/convert_dict.py:14-16 | a renaming injective on the input keys keeps the number of keys |
| ConvertDict.RenamedCongruent | bookshop/core/convert_dict.py:14-16 | dicts with the same keys in the same order, whose values convert alike, convert alike |
| ConvertDict.SettledIsFixed | bookshop/core/convert_dict.py:37-48 | the walk leaves a settled value (plain, every key at every depth fixed by `fn`) unchanged |
| ConvertDict.WalkSettles | bookshop/core/convert_dict.py:37-48 | with an idempotent `fn`, one walk yields a settled value |
| ConvertDict.ConvertTwiceIsOnce | bookshop/core/convert_dict.py:37-48 | with an idempotent `fn`, converting twice equals converting once |
| ConvertDict.ConvertedDictTwiceIsOnce | bookshop/core/convert_dict.py:8-17 | the same for a whole, possibly None, dict |
| ConvertDict.RenameThereAndBack | bookshop/core/convert_dict.py:37-48 | walking with `there` and then `back` restores a plain value, provided `back` undoes `there` on the keys of its dicts at every depth (other names are unconstrained) |
| ConvertDict.JsonPythonRoundTrip | bookshop/core/convert_dict.py:29-34 | `json_dict_to_python_dict(python_dict_to_json_dict(d)) == d` for a plain dict, provided `to_python_name` undoes `to_json_name` on its keys at every depth |
| ConvertDict.RoundTripBesideIdempotence | bookshop/core/convert_dict.py:29-34 | the round trip's key condition can hold for an idempotent renaming that merges two names, so it is compatible with the idempotence results |
| ModelToDict.ColumnNamed | bookshop/sqlalchemy/model_to_dict.py:25 | finds a value of a column with that key, or reports that there is none |
| ModelToDict.GetAttr | bookshop/sqlalchemy/model_to_dict.py:30 | a relationship attribute takes precedence; otherwise a name some column has yields a column value; the attribute is missing iff neither a relationship nor a column has that name |
| ModelToDict.GetAttrColumn | bookshop/sqlalchemy/model_to_dict.py:30 | a name that is no relationship but some column's key yields the value of a column with that key |
| ModelToDict.SerializedColumns | bookshop/sqlalchemy/model_to_dict.py:20-26 | the collected dict has distinct keys, exactly the non-primary-key column keys |
| ModelToDict.CollectColumns | bookshop/sqlalchemy/model_to_dict.py:20-26 | the column loop, which skips primary keys, returns exactly that dict |
| ModelToDict.ColumnsCopied | bookshop/sqlalchemy/model_to_dict.py:20-26 | for distinct column keys, the collected dict is the non-primary-key columns in table order, each under its key with its value |
| ModelToDict.ColumnValueKept | bookshop/sqlalchemy/model_to_dict.py:24-26 | each non-primary-key column's value is stored under its key, unless a later column has that key |
| ModelToDict.PrimaryKeySkipped | bookshop/sqlalchemy/model_to_dict.py:21-23 | a primary-key column never appears |
| ModelToDict.Nested | bookshop/sqlalchemy/model_to_dict.py:34-39 | a nested conversion of None is None and of a record is a dict; it fails iff the recursive call fails |
| ModelToDict.SerializedEach | bookshop/sqlalchemy/model_to_dict.py:32-36 | succeeds iff every nested conversion does, giving one result per related record, in order |
| ModelToDict.EachFirstError | bookshop/sqlalchemy/model_to_dict.py:33-36 | when the comprehension raises, it raises the error of the first element whose nested conversion fails, and every earlier element succeeds |
| ModelToDict.HeadValue | bookshop/sqlalchemy/model_to_dict.py:29-39 | a head path that names nothing raises AttributeError for that name |
| ModelToDict.Serialized | bookshop/sqlalchemy/model_to_dict.py:18-41 | None gives None; a record gives a dict whose keys are the renamed non-primary-key column keys plus the renamed `paths[0]`, and nothing else; errors arise only with non-empty paths |
| ModelToDict.ModelToDict | bookshop/sqlalchemy/model_to_dict.py:10-41 | the method (column loop, head assignment, renaming loop) returns exactly `Serialized` |
| ModelToDict.FlatRecord | bookshop/sqlalchemy/model_to_dict.py:27-28 | for a table whose column keys are distinct and whose non-primary-key keys `to_json_name` keeps apart, empty paths give the renamed column dict alone, entry by entry; no relationship appears |
| ModelToDict.MissingPathRaises | bookshop/sqlalchemy/model_to_dict.py:30 | a path naming no attribute raises AttributeError with that name |
| ModelToDict.ColumnPathRaises | bookshop/sqlalchemy/model_to_dict.py:30-39 | a path naming a column with a non-None value raises AttributeError for `__table__` |
| ModelToDict.NoneColumnPathGivesNone | bookshop/sqlalchemy/model_to_dict.py:30-38 | a path naming a column that holds None stores None under that key (the nested call returns None) and raises nothing |
| ModelToDict.HeadEntryWins | bookshop/sqlalchemy/model_to_dict.py:31-41 | the renamed `paths[0]` key holds the head value converted once more |
| ModelToDict.ManyExpanded | bookshop/sqlalchemy/model_to_dict.py:32-36 | a list relationship succeeds iff each nested conversion does, giving a list of the same length and order, one nested conversion per element |
| ModelToDict.SingleExpanded | bookshop/sqlalchemy/model_to_dict.py:37-39 | a single relationship gives one nested conversion, which succeeds iff the recursive call does |
| ModelToDict.NoneRelationshipGivesNone | bookshop/sqlalchemy/model_to_dict.py:37-39 | a relationship with no related record gives None, never an error |
| ModelToDict.OnlyPathConsulted | bookshop/sqlalchemy/model_to_dict.py:29-39 | cutting the record down to the relationships along `paths` changes nothing: only `paths[0]` is expanded at each level, and nothing below depth `|paths|` is read |
| ModelToDict.HeadOnlyPathConsulted | bookshop/sqlalchemy/model_to_dict.py:29-39 | the same for the head value |
| ModelToDict.NestedOnlyPathConsulted | bookshop/sqlalchemy/model_to_dict.py:34-39 | the same for one nested conversion |
| ModelToDict.EachOnlyPathConsulted | bookshop/sqlalchemy/model_to_dict.py:32-36 | the same for the list comprehension |
| ModelToDict.IdempotentNamingRenamesOnce | bookshop/sqlalchemy/model_to_dict.py:34-41 | with an idempotent `to_json_name`, the repeated renaming equals a single renaming of the unrenamed tree, errors included |
| ModelToDict.HeadRenamedOnce | bookshop/sqlalchemy/model_to_dict.py:29-39 | the same for the head value: same errors, value equals the unrenamed head converted once |
| ModelToDict.NestedRenamedOnce | bookshop/sqlalchemy/model_to_dict.py:34-39 | the same for one nested conversion |
| ModelToDict.EachRenamedOnce | bookshop/sqlalchemy/model_to_dict.py:33-36 | the same for each element of the list comprehension |
| ModelToDict.NestedKeyRenamedThrice | bookshop/sqlalchemy/model_to_dict.py:34-41 | a column key of a related record one level down is renamed three times, not once; the result equals a single renaming iff `fn(fn(fn(k))) == fn(k)` |

## Left out

- Values are finite trees. Python can build a cyclic dict or nest one deeper than its recursion limit, and `convert_dict_naming` then raises RecursionError; the model has no such values, and `DictValueToJsonValue` is total.
- `pythonize`, `to_json_name`, `to_python_name`, `isoformat()` and `str(uuid)` are parameters. Their modules are not part of this model, and no law about them is assumed except where a lemma states one as a precondition.
- `pythonize(None)`: `source_column_name` defaults to None and is pythonized anyway (line 54). The model takes `pythonize` to return a string there too, rather than raise.
- `UserJson` is an opaque payload. Its own serialisation is not part of this model.
- Python objects are reduced to the kinds the walk tells apart. The kinds are None, dict, list, set, UserJson, date or datetime, UUID, str and other scalars. Subclass relations such as `datetime` being a `date` collapse into one case. A non-dict `Mapping` is not a separate kind.
- Tuples, frozensets and every other container that line 42 does not enter are opaque leaves (`DOther`). Line 48 returns such a value unchanged, so a date, UUID or set inside it stays unconverted, and a dict inside it keeps its keys unrenamed. The model does not represent their contents.
- The iteration order of a set is taken as given by its element sequence. The model does not determine it.
- `domain_model` is unused by `model_to_dict` and is dropped.
- The ORM is reduced to a record: its columns (key, primary-key flag, value) and its relationship attributes. An `InstrumentedList` is `Many`; any other relationship value is `Single`. Lazy loading and sessions are left out.
- `getattr` exceptions other than AttributeError are not modelled. `getattr` on a table column always succeeds.
- The bookshop resources (Flask route handlers), the ORM table classes and the factory fixture are framework glue, I/O and randomness. They are not part of this model.
- Relationship validation is not modelled because the code has none: no branch of `create_relationship` rejects an argument combination.
- Call sites that pass fewer arguments than `model_to_dict` declares are not modelled.
- ModelToDict.Serialized: the recursion depth bound of `|paths|` is carried by the termination measure and by `OnlyPathConsulted`, not by a separate depth lemma. Column values may themselves be nested dicts, so the depth of the output is not bounded by `|paths|`.
- ModelToDict.IdempotentNamingRenamesOnce: idempotence is proved sufficient for the output to equal a single renaming, but not necessary. The converse holds only in the form that `NestedKeyRenamedThrice` states for a one-level record: `fn(fn(fn(k))) == fn(k)`. A naming function that is its own inverse satisfies that without being idempotent.
