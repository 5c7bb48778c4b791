/**
 * The key-renaming walk of bookshop/core/convert_dict.py.
 *
 * `convert_dict_naming` renames every key of a dict with a caller-supplied
 * function and converts every value; `dict_value_to_json_value` dispatches on
 * the kind of a value, and `convert_iterable_naming` converts lists and sets
 * element by element. The naming functions `to_json_name`/`to_python_name`,
 * `isoformat()` and `str(uuid)` are outside this model and arrive as
 * parameters, bundled in `Externals`; no law relating them is assumed.
 */
module ConvertDict {
  import opened Wrappers
  import opened Documents

  /** The functions the walk calls but that are not part of this model. */
  datatype Externals = Externals(
    toJsonName: string -> string,
    toPythonName: string -> string,
    isoformat: Temporal -> string,
    uuidText: nat -> string)

  /**
   * A value as the walk leaves it: no date, UUID or set outside a UserJson
   * payload, and no dict with a repeated key, at any depth.
   */
  predicate Plain(d: Doc)
    decreases d
  {
    match d
    case DMap(es) => DistinctKeys(es) && forall i :: 0 <= i < |es| ==> Plain(es[i].value)
    case DList(xs) => forall i :: 0 <= i < |xs| ==> Plain(xs[i])
    case DSet(_) => false
    case DDate(_) => false
    case DUuid(_) => false
    case _ => true
  }

  /**
   * Every key of every dict inside `d` (outside UserJson payloads, which the
   * walk does not enter) satisfies `ok`.
   */
  predicate KeysAll(d: Doc, ok: string -> bool)
    decreases d
  {
    match d
    case DMap(es) => forall i :: 0 <= i < |es| ==> ok(es[i].key) && KeysAll(es[i].value, ok)
    case DList(xs) => forall i :: 0 <= i < |xs| ==> KeysAll(xs[i], ok)
    case DSet(xs) => forall i :: 0 <= i < |xs| ==> KeysAll(xs[i], ok)
    case _ => true
  }

  /** Lines 38-48: the isinstance dispatch. */
  function DictValueToJsonValue(v: Doc, fn: string -> string, ext: Externals): (r: Doc)
    decreases v, 1
    ensures Plain(r)
    ensures v.DUserJson? ==> r == v
    ensures v.DMap? ==> r.DMap? && DistinctKeys(r.entries) && Keys(r.entries) == Image(fn, Keys(v.entries))
    ensures v.DList? || v.DSet? ==> r.DList? && |r.items| == |v.items|
    ensures v.DDate? ==> r == DStr(ext.isoformat(v.date))
    ensures v.DUuid? ==> r == DStr(ext.uuidText(v.uuid))
    ensures v.DNone? || v.DStr? || v.DOther? ==> r == v
  {
    match v
    case DUserJson(_) => v
    case DMap(es) => DMap(RenamedEntries(es, fn, ext))
    case DList(xs) => DList(ConvertIterableNaming(xs, fn, ext))
    case DSet(xs) => DList(ConvertIterableNaming(xs, fn, ext))
    case DDate(t) => DStr(ext.isoformat(t))
    case DUuid(u) => DStr(ext.uuidText(u))
    case _ => v
  }

  /** Lines 20-26: element by element, in iteration order. */
  function ConvertIterableNaming(xs: seq<Doc>, fn: string -> string, ext: Externals): (r: seq<Doc>)
    decreases xs, 0
    ensures |r| == |xs|
    ensures forall i :: 0 <= i < |xs| ==> r[i] == DictValueToJsonValue(xs[i], fn, ext)
  {
    if xs == [] then []
    else [DictValueToJsonValue(xs[0], fn, ext)] + ConvertIterableNaming(xs[1..], fn, ext)
  }

  /**
   * Lines 14-16 as a value: the dict that the loop of `convert_dict_naming`
   * has built after visiting the entries `es`.
   */
  function RenamedEntries(es: Dict, fn: string -> string, ext: Externals): (r: Dict)
    decreases es, 0
    ensures DistinctKeys(r)
    ensures Keys(r) == Image(fn, Keys(es))
    ensures |r| <= |es|
    ensures forall i :: 0 <= i < |r| ==> Plain(r[i].value)
  {
    if es == [] then []
    else
      var prefix := es[..|es| - 1];
      var last := es[|es| - 1];
      var done := RenamedEntries(prefix, fn, ext);
      var value := DictValueToJsonValue(last.value, fn, ext);
      KeysPut(done, fn(last.key), value);
      DistinctPut(done, fn(last.key), value);
      LengthPut(done, fn(last.key), value);
      EntriesPut(done, fn(last.key), value);
      KeysAppend(prefix, last);
      ImageAdd(fn, Keys(prefix), last.key);
      InitLast(es);
      var r := Put(done, fn(last.key), value);
      assert forall i :: 0 <= i < |r| ==> Plain(r[i].value) by {
        forall i | 0 <= i < |r| ensures Plain(r[i].value) {
          assert r[i] in r;
          if r[i] != Entry(fn(last.key), value) {
            var j :| 0 <= j < |done| && done[j] == r[i];
          }
        }
      }
      r
  }

  /**
   * Every entry of the output is some input entry with its key renamed and
   * its value converted.
   */
  lemma {:induction false} EntryOrigins(es: Dict, fn: string -> string, ext: Externals)
    ensures forall e :: e in RenamedEntries(es, fn, ext) ==>
      exists x :: x in es && e == Entry(fn(x.key), DictValueToJsonValue(x.value, fn, ext))
  {
    if es != [] {
      var prefix, last := es[..|es| - 1], es[|es| - 1];
      EntryOrigins(prefix, fn, ext);
      EntriesPut(RenamedEntries(prefix, fn, ext), fn(last.key), DictValueToJsonValue(last.value, fn, ext));
      assert last in es;
      assert forall x :: x in prefix ==> x in es;
    }
  }

  /** `convert_dict_naming` as a value: None passes through. */
  function ConvertedDict(inDict: Option<Dict>, fn: string -> string, ext: Externals): (r: Option<Dict>)
    ensures r.None? <==> inDict.None?
    ensures inDict.Some? ==> Keys(r.value) == Image(fn, Keys(inDict.value)) && DistinctKeys(r.value)
  {
    match inDict
    case None => None
    case Some(es) => Some(RenamedEntries(es, fn, ext))
  }

  /** Lines 8-17: `convert_dict_naming`, filling the output dict in a loop. */
  method ConvertDictNaming(inDict: Option<Dict>, fn: string -> string, ext: Externals) returns (out: Option<Dict>)
    ensures out == ConvertedDict(inDict, fn, ext)
  {
    if inDict.None? {
      return None;
    }
    var items := inDict.value;
    var outDict: Dict := [];
    for i := 0 to |items|
      invariant outDict == RenamedEntries(items[..i], fn, ext)
    {
      ghost var seen := items[..i + 1];
      assert seen[..|seen| - 1] == items[..i] && seen[|seen| - 1] == items[i];
      outDict := Put(outDict, fn(items[i].key), DictValueToJsonValue(items[i].value, fn, ext));
    }
    assert items[..|items|] == items;
    return Some(outDict);
  }

  /** Line 29-30: renaming towards the wire convention. */
  function PythonDictToJsonDict(pythonDict: Option<Dict>, ext: Externals): (r: Option<Dict>)
    ensures r == ConvertedDict(pythonDict, ext.toJsonName, ext)
    ensures r.None? <==> pythonDict.None?
    ensures pythonDict.Some? ==> Keys(r.value) == Image(ext.toJsonName, Keys(pythonDict.value))
  {
    ConvertedDict(pythonDict, ext.toJsonName, ext)
  }

  /** Line 33-34: renaming towards the internal convention. */
  function JsonDictToPythonDict(jsonDict: Option<Dict>, ext: Externals): (r: Option<Dict>)
    ensures r == ConvertedDict(jsonDict, ext.toPythonName, ext)
    ensures r.None? <==> jsonDict.None?
    ensures jsonDict.Some? ==> Keys(r.value) == Image(ext.toPythonName, Keys(jsonDict.value))
  {
    ConvertedDict(jsonDict, ext.toPythonName, ext)
  }

  // ---------------------------------------------------------------------
  // Which value survives a collision

  /**
   * The value stored under a renamed key is the converted value of the LAST
   * input entry renamed to it.
   */
  lemma {:induction false} LaterEntryWins(es: Dict, fn: string -> string, ext: Externals, j: nat)
    requires j < |es|
    requires forall j' :: j < j' < |es| ==> fn(es[j'].key) != fn(es[j].key)
    ensures Lookup(RenamedEntries(es, fn, ext), fn(es[j].key)) == Some(DictValueToJsonValue(es[j].value, fn, ext))
  {
    var prefix, last := es[..|es| - 1], es[|es| - 1];
    var value := DictValueToJsonValue(last.value, fn, ext);
    LookupPut(RenamedEntries(prefix, fn, ext), fn(last.key), value, fn(es[j].key));
    if j < |es| - 1 {
      LaterEntryWins(prefix, fn, ext, j);
    }
  }

  /** A key that no input key is renamed to is absent. */
  lemma OnlyRenamedKeysPresent(es: Dict, fn: string -> string, ext: Externals, k: string)
    requires forall e :: e in es ==> fn(e.key) != k
    ensures Lookup(RenamedEntries(es, fn, ext), k) == None
  {
    forall k' | k' in Keys(es) ensures fn(k') != k {
      var e :| e in es && e.key == k';
    }
    LookupAbsent(RenamedEntries(es, fn, ext), k);
  }

  /** Each entry renamed and converted in place, order kept. */
  function RenamedEach(es: Dict, fn: string -> string, ext: Externals): (r: Dict)
    ensures |r| == |es|
  {
    seq(|es|, i requires 0 <= i < |es| => Entry(fn(es[i].key), DictValueToJsonValue(es[i].value, fn, ext)))
  }

  /**
   * When the renamed keys are pairwise distinct (distinct input keys and a
   * renaming injective on them), nothing collides: the output has as many
   * entries as the input, in the same order.
   */
  lemma {:induction false} NoCollisionKeepsEntries(es: Dict, fn: string -> string, ext: Externals)
    requires forall i, j :: 0 <= i < j < |es| ==> fn(es[i].key) != fn(es[j].key)
    ensures RenamedEntries(es, fn, ext) == RenamedEach(es, fn, ext)
    ensures |RenamedEntries(es, fn, ext)| == |es|
  {
    if es != [] {
      var prefix, last := es[..|es| - 1], es[|es| - 1];
      assert forall i :: 0 <= i < |prefix| ==> prefix[i] == es[i];
      NoCollisionKeepsEntries(prefix, fn, ext);
      var done := RenamedEntries(prefix, fn, ext);
      var each := RenamedEach(prefix, fn, ext);
      assert done == each;
      assert fn(last.key) !in Keys(done) by {
        forall e | e in done ensures e.key != fn(last.key) {
          var i :| 0 <= i < |each| && each[i] == e;
          assert e.key == fn(es[i].key);
        }
      }
      var v := DictValueToJsonValue(last.value, fn, ext);
      PutFresh(done, fn(last.key), v);
      RenamedEachSnoc(es, fn, ext);
    }
  }

  lemma RenamedEachSnoc(es: Dict, fn: string -> string, ext: Externals)
    requires es != []
    ensures RenamedEach(es, fn, ext) ==
      RenamedEach(es[..|es| - 1], fn, ext) + [Entry(fn(es[|es| - 1].key), DictValueToJsonValue(es[|es| - 1].value, fn, ext))]
  {
    var prefix := es[..|es| - 1];
    var whole := RenamedEach(prefix, fn, ext) + [Entry(fn(es[|es| - 1].key), DictValueToJsonValue(es[|es| - 1].value, fn, ext))];
    forall i | 0 <= i < |es| ensures whole[i] == RenamedEach(es, fn, ext)[i] {
      if i < |prefix| {
        assert prefix[i] == es[i];
      }
    }
  }

  /** Renaming can only merge keys: the output is never larger than the input. */
  lemma SizeBound(es: Dict, fn: string -> string, ext: Externals)
    ensures |Keys(RenamedEntries(es, fn, ext))| <= |Keys(es)|
  {
    ImageSize(fn, Keys(es));
  }

  /** In a dict with distinct keys there are as many keys as entries. */
  lemma {:induction false} DistinctKeysCount(d: Dict)
    requires DistinctKeys(d)
    ensures |Keys(d)| == |d|
  {
    if d != [] {
      var prefix, last := d[..|d| - 1], d[|d| - 1];
      DistinctInit(d);
      DistinctKeysCount(prefix);
      InitLast(d);
      KeysAppend(prefix, last);
      assert |Keys(prefix) + {last.key}| == |Keys(prefix)| + 1;
    }
  }

  /**
   * A renaming that is injective on the keys of a dict keeps its size: the
   * output has exactly as many keys as the input.
   */
  lemma InjectiveKeepsSize(es: Dict, fn: string -> string, ext: Externals)
    requires forall i, j :: 0 <= i < j < |es| ==> fn(es[i].key) != fn(es[j].key)
    ensures |Keys(RenamedEntries(es, fn, ext))| == |Keys(es)|
  {
    NoCollisionKeepsEntries(es, fn, ext);
    DistinctKeysCount(RenamedEntries(es, fn, ext));
    DistinctKeysCount(es);
  }

  /**
   * The output depends on the input values only through their conversions:
   * dicts with the same keys, in the same order, whose values convert alike,
   * convert alike.
   */
  lemma {:induction false} RenamedCongruent(es1: Dict, es2: Dict, fn: string -> string, ext: Externals)
    requires |es1| == |es2|
    requires forall i :: 0 <= i < |es1| ==>
      es1[i].key == es2[i].key &&
      DictValueToJsonValue(es1[i].value, fn, ext) == DictValueToJsonValue(es2[i].value, fn, ext)
    ensures RenamedEntries(es1, fn, ext) == RenamedEntries(es2, fn, ext)
  {
    if es1 != [] {
      RenamedCongruent(es1[..|es1| - 1], es2[..|es2| - 1], fn, ext);
    }
  }

  // ---------------------------------------------------------------------
  // Converting twice

  /** `fn` changes nothing on its own output. */
  ghost predicate IdempotentNaming(fn: string -> string)
  {
    forall s :: fn(fn(s)) == fn(s)
  }

  /** The names `fn` maps to themselves. */
  function FixedBy(fn: string -> string): string -> bool
  {
    k => fn(k) == k
  }

  /** A value a second walk leaves alone: plain, with every key fixed by `fn`. */
  predicate Settled(d: Doc, fn: string -> string)
  {
    Plain(d) && KeysAll(d, FixedBy(fn))
  }

  /** The walk is the identity on settled values. */
  lemma {:induction false} SettledIsFixed(d: Doc, fn: string -> string, ext: Externals)
    requires Settled(d, fn)
    ensures DictValueToJsonValue(d, fn, ext) == d
    decreases d, 1
  {
    match d
    case DMap(es) => SettledEntriesFixed(es, fn, ext);
    case DList(xs) =>
      forall i | 0 <= i < |xs| ensures DictValueToJsonValue(xs[i], fn, ext) == xs[i] {
        SettledIsFixed(xs[i], fn, ext);
      }
      assert ConvertIterableNaming(xs, fn, ext) == xs;
    case _ =>
  }

  lemma {:induction false} SettledEntriesFixed(es: Dict, fn: string -> string, ext: Externals)
    requires DistinctKeys(es)
    requires forall i :: 0 <= i < |es| ==> fn(es[i].key) == es[i].key && Settled(es[i].value, fn)
    ensures RenamedEntries(es, fn, ext) == es
    decreases es, 0
  {
    if es != [] {
      var prefix, last := es[..|es| - 1], es[|es| - 1];
      DistinctInit(es);
      assert fn(last.key) == last.key && Settled(last.value, fn);
      assert forall i :: 0 <= i < |prefix| ==> prefix[i] == es[i];
      SettledEntriesFixed(prefix, fn, ext);
      SettledIsFixed(last.value, fn, ext);
      PutFresh(prefix, last.key, last.value);
      InitLast(es);
      calc {
        RenamedEntries(es, fn, ext);
        Put(RenamedEntries(prefix, fn, ext), fn(last.key), DictValueToJsonValue(last.value, fn, ext));
        Put(prefix, last.key, last.value);
        prefix + [last];
        es;
      }
    }
  }

  /** With an idempotent `fn`, one walk settles any value. */
  lemma {:induction false} WalkSettles(d: Doc, fn: string -> string, ext: Externals)
    requires IdempotentNaming(fn)
    ensures Settled(DictValueToJsonValue(d, fn, ext), fn)
    decreases d
  {
    match d
    case DMap(es) =>
      var r := RenamedEntries(es, fn, ext);
      EntryOrigins(es, fn, ext);
      forall i | 0 <= i < |r| ensures FixedBy(fn)(r[i].key) && KeysAll(r[i].value, FixedBy(fn)) {
        assert r[i].key in Keys(r);
        var k :| k in Keys(es) && fn(k) == r[i].key;
        assert r[i] in r;
        var x :| x in es && r[i] == Entry(fn(x.key), DictValueToJsonValue(x.value, fn, ext));
        WalkSettles(x.value, fn, ext);
      }
    case DList(xs) =>
      forall i | 0 <= i < |xs| ensures Settled(DictValueToJsonValue(xs[i], fn, ext), fn) {
        WalkSettles(xs[i], fn, ext);
      }
    case DSet(xs) =>
      forall i | 0 <= i < |xs| ensures Settled(DictValueToJsonValue(xs[i], fn, ext), fn) {
        WalkSettles(xs[i], fn, ext);
      }
    case _ =>
  }

  /** With an idempotent `fn`, converting twice is converting once. */
  lemma ConvertTwiceIsOnce(d: Doc, fn: string -> string, ext: Externals)
    requires IdempotentNaming(fn)
    ensures DictValueToJsonValue(DictValueToJsonValue(d, fn, ext), fn, ext) == DictValueToJsonValue(d, fn, ext)
  {
    WalkSettles(d, fn, ext);
    SettledIsFixed(DictValueToJsonValue(d, fn, ext), fn, ext);
  }

  /** The same for a whole (possibly None) dict, as `convert_dict_naming` takes it. */
  lemma ConvertedDictTwiceIsOnce(d: Option<Dict>, fn: string -> string, ext: Externals)
    requires IdempotentNaming(fn)
    ensures ConvertedDict(ConvertedDict(d, fn, ext), fn, ext) == ConvertedDict(d, fn, ext)
  {
    if d.Some? {
      ConvertTwiceIsOnce(DMap(d.value), fn, ext);
    }
  }

  // ---------------------------------------------------------------------
  // Renaming there and back

  /** The names that `back` restores after `there`. */
  function RestoredBy(there: string -> string, back: string -> string): string -> bool
  {
    k => back(there(k)) == k
  }

  /**
   * If `back` undoes `there` on every key of a plain value (the other names
   * are unconstrained), walking with one and then the other gives it back.
   */
  lemma {:induction false} RenameThereAndBack(d: Doc, there: string -> string, back: string -> string, ext: Externals)
    requires Plain(d) && KeysAll(d, RestoredBy(there, back))
    ensures DictValueToJsonValue(DictValueToJsonValue(d, there, ext), back, ext) == d
    decreases d
  {
    match d
    case DMap(es) =>
      forall i | 0 <= i < |es| ensures back(there(es[i].key)) == es[i].key {
        assert RestoredBy(there, back)(es[i].key);
      }
      forall i, j | 0 <= i < j < |es| ensures there(es[i].key) != there(es[j].key) {
        assert back(there(es[i].key)) != back(there(es[j].key));
      }
      NoCollisionKeepsEntries(es, there, ext);
      var once := RenamedEach(es, there, ext);
      forall i, j | 0 <= i < j < |once| ensures back(once[i].key) != back(once[j].key) {
      }
      NoCollisionKeepsEntries(once, back, ext);
      forall i | 0 <= i < |es| ensures RenamedEach(once, back, ext)[i] == es[i] {
        assert es[i] in es;
        RenameThereAndBack(es[i].value, there, back, ext);
      }
      assert RenamedEach(once, back, ext) == es;
    case DList(xs) =>
      var once := ConvertIterableNaming(xs, there, ext);
      forall i | 0 <= i < |xs| ensures ConvertIterableNaming(once, back, ext)[i] == xs[i] {
        RenameThereAndBack(xs[i], there, back, ext);
      }
      assert ConvertIterableNaming(once, back, ext) == xs;
    case _ =>
  }

  /**
   * The wire round trip, for a plain dict whose keys (at every depth)
   * `to_python_name` restores after `to_json_name`.
   */
  lemma JsonPythonRoundTrip(d: Dict, ext: Externals)
    requires Plain(DMap(d)) && KeysAll(DMap(d), RestoredBy(ext.toJsonName, ext.toPythonName))
    ensures JsonDictToPythonDict(PythonDictToJsonDict(Some(d), ext), ext) == Some(d)
  {
    RenameThereAndBack(DMap(d), ext.toJsonName, ext.toPythonName, ext);
  }

  /**
   * The key-restricted law is met by renamings the idempotence results also
   * cover: this one is idempotent and merges `a_b` with `aB`, yet a dict keyed
   * `a_b` survives the round trip.
   */
  lemma RoundTripBesideIdempotence(ext: Externals)
    ensures var there := (k: string) => if k == "a_b" then "aB" else k;
      var back := (k: string) => if k == "aB" then "a_b" else k;
      var d := DMap([Entry("a_b", DNone)]);
      && IdempotentNaming(there)
      && there("a_b") == there("aB")
      && DictValueToJsonValue(DictValueToJsonValue(d, there, ext), back, ext) == d
  {
    var there := (k: string) => if k == "a_b" then "aB" else k;
    var back := (k: string) => if k == "aB" then "a_b" else k;
    var d := DMap([Entry("a_b", DNone)]);
    assert KeysAll(d, RestoredBy(there, back));
    RenameThereAndBack(d, there, back, ext);
  }
}
