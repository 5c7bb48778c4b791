/**
 * The values that the bookshop's conversion code walks: dicts, lists and
 * sets, and scalar leaves. A Python dict is kept as its sequence of entries in
 * insertion order, because that order decides which value survives when two
 * keys are renamed to the same key.
 */
module Documents {
  import opened Wrappers

  /** `datetime.date` and `datetime.datetime` values (both have `isoformat()`). */
  datatype Temporal =
    | Date(year: int, month: int, day: int)
    | DateTime(year: int, month: int, day: int, hour: int, minute: int, second: int, microsecond: int)

  /** A Python value as far as the conversion walk can tell values apart. */
  datatype Doc =
    | DNone                         // None
    | DMap(entries: seq<Entry>)     // dict, entries in insertion order
    | DList(items: seq<Doc>)        // list
    | DSet(items: seq<Doc>)         // set, in its iteration order
    | DUserJson(json: Doc)          // a UserJson value, carrying its payload
    | DDate(date: Temporal)         // date or datetime
    | DUuid(uuid: nat)              // uuid.UUID, by its 128-bit integer
    | DStr(s: string)               // str
    | DOther(scalar: int)           // anything else (numbers, booleans, tuples, frozensets), opaque

  datatype Entry = Entry(key: string, value: Doc)

  /** A dict as its entries. */
  type Dict = seq<Entry>

  /** A non-empty sequence is its front followed by its last element. */
  lemma InitLast<T>(s: seq<T>)
    requires s != []
    ensures s[..|s| - 1] + [s[|s| - 1]] == s
  {
  }

  /** A non-empty sequence is its first element followed by the rest. */
  lemma HeadTail<T>(s: seq<T>)
    requires s != []
    ensures [s[0]] + s[1..] == s
  {
  }

  /** The keys of a dict. */
  function Keys(d: Dict): set<string>
  {
    set e | e in d :: e.key
  }

  /** No key occurs twice; every dict built by assignment has this shape. */
  predicate DistinctKeys(d: Dict)
  {
    forall i, j :: 0 <= i < j < |d| ==> d[i].key != d[j].key
  }

  /** `d.get(k)`. */
  function Lookup(d: Dict, k: string): Option<Doc>
  {
    if d == [] then None
    else if d[0].key == k then Some(d[0].value)
    else Lookup(d[1..], k)
  }

  /**
   * `d[k] = v`: an existing key keeps its position and takes the new value, a
   * new key is appended. Either way the dict then holds the entry `k: v`.
   */
  function Put(d: Dict, k: string, v: Doc): (r: Dict)
    ensures Entry(k, v) in r
  {
    if d == [] then [Entry(k, v)]
    else if d[0].key == k then [Entry(k, v)] + d[1..]
    else [d[0]] + Put(d[1..], k, v)
  }

  /** The names a renaming function makes of a set of names. */
  function Image(fn: string -> string, s: set<string>): set<string>
  {
    set k | k in s :: fn(k)
  }

  lemma ImageAdd(fn: string -> string, s: set<string>, x: string)
    ensures Image(fn, s + {x}) == Image(fn, s) + {fn(x)}
  {
  }

  /** Renaming can merge names but never make more of them. */
  lemma {:induction false} ImageSize(fn: string -> string, s: set<string>)
    ensures |Image(fn, s)| <= |s|
    decreases s
  {
    if s != {} {
      var x :| x in s;
      ImageSize(fn, s - {x});
      assert Image(fn, s) == Image(fn, s - {x}) + {fn(x)};
    }
  }

  /** A dict's value read back as a Python value: None stays None. */
  function AsDoc(d: Option<Dict>): (r: Doc)
    ensures r.DNone? <==> d.None?
    ensures d.Some? ==> r == DMap(d.value)
  {
    match d
    case None => DNone
    case Some(es) => DMap(es)
  }

  lemma KeysAppend(d: Dict, e: Entry)
    ensures Keys(d + [e]) == Keys(d) + {e.key}
  {
    assert forall x :: x in d + [e] <==> x in d || x == e;
  }

  lemma KeysCons(e: Entry, d: Dict)
    ensures Keys([e] + d) == {e.key} + Keys(d)
  {
    assert forall x :: x in [e] + d <==> x == e || x in d;
  }

  /** Dropping the last entry of a dict keeps its keys distinct, and drops that key. */
  lemma DistinctInit(d: Dict)
    requires d != [] && DistinctKeys(d)
    ensures DistinctKeys(d[..|d| - 1])
    ensures d[|d| - 1].key !in Keys(d[..|d| - 1])
  {
    var prefix, last := d[..|d| - 1], d[|d| - 1];
    forall e | e in prefix ensures e.key != last.key {
      var i :| 0 <= i < |prefix| && prefix[i] == e;
      assert d[i] == e;
    }
  }

  /** Reading after an assignment. */
  lemma {:induction false} LookupPut(d: Dict, k: string, v: Doc, k': string)
    ensures Lookup(Put(d, k, v), k') == if k' == k then Some(v) else Lookup(d, k')
  {
    if d != [] && d[0].key != k {
      LookupPut(d[1..], k, v, k');
    }
  }

  /** An assignment adds its key and no other. */
  lemma {:induction false} KeysPut(d: Dict, k: string, v: Doc)
    ensures Keys(Put(d, k, v)) == Keys(d) + {k}
  {
    if d == [] {
      KeysAppend([], Entry(k, v));
    } else if d[0].key == k {
      KeysCons(Entry(k, v), d[1..]);
      KeysCons(d[0], d[1..]);
      HeadTail(d);
    } else {
      KeysPut(d[1..], k, v);
      KeysCons(d[0], Put(d[1..], k, v));
      KeysCons(d[0], d[1..]);
      HeadTail(d);
    }
  }

  /** Dropping the first entry of a dict keeps its keys distinct, and drops that key. */
  lemma DistinctTail(d: Dict)
    requires d != [] && DistinctKeys(d)
    ensures DistinctKeys(d[1..])
    ensures d[0].key !in Keys(d[1..])
  {
    forall e | e in d[1..] ensures e.key != d[0].key {
      var j :| 0 <= j < |d[1..]| && d[1..][j] == e;
      assert d[j + 1] == e;
    }
  }

  /** An entry whose key is new may go in front. */
  lemma DistinctCons(e: Entry, d: Dict)
    requires DistinctKeys(d) && e.key !in Keys(d)
    ensures DistinctKeys([e] + d)
  {
    forall i, j | 0 <= i < j < |[e] + d| ensures ([e] + d)[i].key != ([e] + d)[j].key {
      assert ([e] + d)[j] == d[j - 1] && d[j - 1] in d;
      if i > 0 {
        assert ([e] + d)[i] == d[i - 1];
      }
    }
  }

  /** Assignment keeps keys distinct. */
  lemma {:induction false} DistinctPut(d: Dict, k: string, v: Doc)
    requires DistinctKeys(d)
    ensures DistinctKeys(Put(d, k, v))
  {
    if d != [] {
      DistinctTail(d);
      if d[0].key == k {
        DistinctCons(Entry(k, v), d[1..]);
      } else {
        DistinctPut(d[1..], k, v);
        KeysPut(d[1..], k, v);
        DistinctCons(d[0], Put(d[1..], k, v));
      }
    }
  }

  /** A key not yet present is appended at the end. */
  lemma {:induction false} PutFresh(d: Dict, k: string, v: Doc)
    requires k !in Keys(d)
    ensures Put(d, k, v) == d + [Entry(k, v)]
  {
    if d != [] {
      assert d[0] in d;
      assert Keys(d[1..]) <= Keys(d) by {
        forall e | e in d[1..] ensures e in d { }
      }
      PutFresh(d[1..], k, v);
      HeadTail(d);
    }
  }

  /** Assigning a key already present replaces its value where it stands; no other entry moves. */
  lemma {:induction false} PutPresentKeepsPosition(d: Dict, k: string, v: Doc)
    requires k in Keys(d)
    ensures |Put(d, k, v)| == |d|
    ensures forall i :: 0 <= i < |d| && d[i].key != k ==> Put(d, k, v)[i] == d[i]
    ensures forall i :: 0 <= i < |d| && d[i].key == k && (forall j :: 0 <= j < i ==> d[j].key != k) ==> Put(d, k, v)[i] == Entry(k, v)
  {
    LengthPut(d, k, v);
    if d[0].key != k {
      KeysCons(d[0], d[1..]);
      HeadTail(d);
      PutPresentKeepsPosition(d[1..], k, v);
      var r := Put(d, k, v);
      assert r == [d[0]] + Put(d[1..], k, v);
      forall i | 1 <= i < |d| ensures r[i] == Put(d[1..], k, v)[i - 1] && d[i] == d[1..][i - 1] { }
    }
  }

  /** In a dict with distinct keys, assigning a present key changes that one entry and nothing else. */
  lemma PutPresentDistinct(d: Dict, k: string, v: Doc)
    requires DistinctKeys(d) && k in Keys(d)
    ensures |Put(d, k, v)| == |d|
    ensures forall i :: 0 <= i < |d| ==> Put(d, k, v)[i] == (if d[i].key == k then Entry(k, v) else d[i])
  {
    PutPresentKeepsPosition(d, k, v);
  }

  /** Assignment adds at most one entry, and exactly one for a new key. */
  lemma {:induction false} LengthPut(d: Dict, k: string, v: Doc)
    ensures |Put(d, k, v)| == if k in Keys(d) then |d| else |d| + 1
  {
    if d != [] {
      LengthPut(d[1..], k, v);
      KeysCons(d[0], d[1..]);
      HeadTail(d);
    }
  }

  /**
   * Two assignments of the same key into the same dict give dicts that agree
   * on every key and on every value except the assigned one.
   */
  lemma {:induction false} PutSameShape(d: Dict, k: string, v1: Doc, v2: Doc)
    ensures |Put(d, k, v1)| == |Put(d, k, v2)|
    ensures forall i :: 0 <= i < |Put(d, k, v1)| ==>
      Put(d, k, v1)[i].key == Put(d, k, v2)[i].key &&
      (Put(d, k, v1)[i].value == Put(d, k, v2)[i].value ||
       (Put(d, k, v1)[i].value == v1 && Put(d, k, v2)[i].value == v2))
  {
    if d != [] && d[0].key != k {
      PutSameShape(d[1..], k, v1, v2);
      var p1, p2 := Put(d[1..], k, v1), Put(d[1..], k, v2);
      assert Put(d, k, v1) == [d[0]] + p1 && Put(d, k, v2) == [d[0]] + p2;
      forall i | 1 <= i < |Put(d, k, v1)|
        ensures Put(d, k, v1)[i] == p1[i - 1] && Put(d, k, v2)[i] == p2[i - 1]
      {
      }
    }
  }

  /** Reading a key that is not there. */
  lemma {:induction false} LookupAbsent(d: Dict, k: string)
    requires k !in Keys(d)
    ensures Lookup(d, k) == None
  {
    if d != [] {
      assert d[0] in d;
      assert Keys(d[1..]) <= Keys(d) by {
        forall e | e in d[1..] ensures e in d { }
      }
      LookupAbsent(d[1..], k);
    }
  }

  /** After an assignment every entry is the assigned one or an old one. */
  lemma {:induction false} EntriesPut(d: Dict, k: string, v: Doc)
    ensures forall e :: e in Put(d, k, v) ==> e == Entry(k, v) || e in d
  {
    if d != [] {
      forall e | e in d[1..] ensures e in d { }
      if d[0].key != k {
        EntriesPut(d[1..], k, v);
      }
    }
  }
}
