/** The canonical form every content address is computed over: objects sorted by key
    at every depth. */
module CanonicalJson {
  import opened StringOrder

  /** A JSON value; an object lists its entries in the order it holds them. */
  datatype Json =
    | Null
    | Bool(bool)
    | Number(text: string)
    | String(string)
    | Array(items: seq<Json>)
    | Object(entries: seq<Entry>)

  datatype Entry = Entry(key: string, value: Json)

  predicate DistinctKeys(es: seq<Entry>) {
    forall i, j :: 0 <= i < j < |es| ==> es[i].key != es[j].key
  }

  /** Objects are maps: no key occurs twice. */
  predicate WellFormed(v: Json) {
    match v
    case Array(items) => forall i :: 0 <= i < |items| ==> WellFormed(items[i])
    case Object(es) => DistinctKeys(es) && forall i :: 0 <= i < |es| ==> WellFormed(es[i].value)
    case _ => true
  }

  // ----- The canonical form -----

  function Insert(e: Entry, sorted: seq<Entry>): (r: seq<Entry>)
    ensures |r| == |sorted| + 1
    ensures forall x :: x in r <==> x == e || x in sorted
  {
    if sorted == [] || Less(e.key, sorted[0].key) then [e] + sorted
    else
      assert sorted == [sorted[0]] + sorted[1..];
      [sorted[0]] + Insert(e, sorted[1..])
  }

  function Sort(es: seq<Entry>): (r: seq<Entry>)
    ensures |r| == |es|
    ensures forall x :: x in r <==> x in es
  {
    if es == [] then [] else
      assert es == [es[0]] + es[1..];
      Insert(es[0], Sort(es[1..]))
  }

  function Canon(v: Json): Json {
    match v
    case Array(items) => Array(CanonItems(items))
    case Object(es) => Object(Sort(CanonEntries(es)))
    case _ => v
  }

  function CanonItems(items: seq<Json>): (r: seq<Json>)
    ensures |r| == |items|
  {
    if items == [] then [] else [Canon(items[0])] + CanonItems(items[1..])
  }

  function CanonEntries(es: seq<Entry>): (r: seq<Entry>)
    ensures |r| == |es|
  {
    if es == [] then [] else [Entry(es[0].key, Canon(es[0].value))] + CanonEntries(es[1..])
  }

  lemma {:induction false} CanonItemsAt(items: seq<Json>, i: nat)
    requires i < |items|
    ensures CanonItems(items)[i] == Canon(items[i])
  {
    if i > 0 {
      CanonItemsAt(items[1..], i - 1);
    }
  }

  lemma {:induction false} CanonEntriesAt(es: seq<Entry>, i: nat)
    requires i < |es|
    ensures CanonEntries(es)[i] == Entry(es[i].key, Canon(es[i].value))
  {
    if i > 0 {
      CanonEntriesAt(es[1..], i - 1);
    }
  }

  /** Rewrites children first, then puts the entries back in key order. */
  method CanonicalizeJson(v: Json) returns (r: Json)
    ensures r == Canon(v)
    decreases v
  {
    r := v;
    match v {
      case Array(items) =>
        var out := items;
        for i := 0 to |items|
          invariant |out| == |items| && out[i..] == items[i..]
          invariant forall k :: 0 <= k < i ==> out[k] == CanonItems(items)[k]
        {
          CanonItemsAt(items, i);
          assert out[i] == out[i..][0] == items[i..][0] == items[i];
          var c := CanonicalizeJson(items[i]);
          out := out[i := c];
        }
        assert out == CanonItems(items);
        r := Array(out);
      case Object(es) =>
        var out := es;
        for i := 0 to |es|
          invariant |out| == |es| && out[i..] == es[i..]
          invariant forall k :: 0 <= k < i ==> out[k] == CanonEntries(es)[k]
        {
          CanonEntriesAt(es, i);
          assert out[i] == out[i..][0] == es[i..][0] == es[i];
          var c := CanonicalizeJson(es[i].value);
          out := out[i := Entry(es[i].key, c)];
        }
        assert out == CanonEntries(es);
        r := Object(Sort(out));
      case _ =>
    }
  }

  // ----- Sorted at every depth -----

  predicate SortedEntries(es: seq<Entry>) {
    forall i, j :: 0 <= i < j < |es| ==> Less(es[i].key, es[j].key)
  }

  predicate Canonical(v: Json) {
    match v
    case Array(items) => forall i :: 0 <= i < |items| ==> Canonical(items[i])
    case Object(es) => SortedEntries(es) && forall i :: 0 <= i < |es| ==> Canonical(es[i].value)
    case _ => true
  }

  lemma {:induction false} InsertSorted(e: Entry, sorted: seq<Entry>)
    requires SortedEntries(sorted) && forall i :: 0 <= i < |sorted| ==> sorted[i].key != e.key
    ensures SortedEntries(Insert(e, sorted))
  {
    if sorted != [] {
      if Less(e.key, sorted[0].key) {
        var r := [e] + sorted;
        forall i, j | 0 <= i < j < |r| ensures Less(r[i].key, r[j].key) {
          if i == 0 && j > 1 {
            LessTransitive(e.key, sorted[0].key, sorted[j - 1].key);
          }
        }
      } else {
        LessTotal(e.key, sorted[0].key);
        InsertSorted(e, sorted[1..]);
        var rest := Insert(e, sorted[1..]);
        forall j | 0 <= j < |rest| ensures Less(sorted[0].key, rest[j].key) {
          assert rest[j] in rest;
          if rest[j] != e {
            var k :| 0 <= k < |sorted[1..]| && sorted[1..][k] == rest[j];
            assert Less(sorted[0].key, sorted[k + 1].key);
          }
        }
      }
    }
  }

  lemma {:induction false} SortSorts(es: seq<Entry>)
    requires DistinctKeys(es)
    ensures SortedEntries(Sort(es))
  {
    if es != [] {
      var rest := es[1..];
      SortSorts(rest);
      forall i | 0 <= i < |Sort(rest)| ensures Sort(rest)[i].key != es[0].key {
        assert Sort(rest)[i] in rest;
        var k :| 0 <= k < |rest| && rest[k] == Sort(rest)[i];
        assert es[k + 1] == rest[k];
      }
      InsertSorted(es[0], Sort(rest));
    }
  }

  lemma CanonKeysDistinct(es: seq<Entry>)
    requires DistinctKeys(es)
    ensures DistinctKeys(CanonEntries(es))
  {
    forall i | 0 <= i < |es| ensures CanonEntries(es)[i].key == es[i].key {
      CanonEntriesAt(es, i);
    }
  }

  /** The result is sorted at every depth. */
  lemma {:induction false} CanonIsCanonical(v: Json)
    requires WellFormed(v)
    ensures Canonical(Canon(v))
    decreases v
  {
    match v {
      case Array(items) =>
        forall i | 0 <= i < |items| ensures Canonical(CanonItems(items)[i]) {
          CanonItemsAt(items, i);
          CanonIsCanonical(items[i]);
        }
      case Object(es) =>
        var cs := CanonEntries(es);
        CanonKeysDistinct(es);
        SortSorts(cs);
        forall i | 0 <= i < |cs| ensures Canonical(cs[i].value) {
          CanonEntriesAt(es, i);
          CanonIsCanonical(es[i].value);
        }
        forall i | 0 <= i < |Sort(cs)| ensures Canonical(Sort(cs)[i].value) {
          assert Sort(cs)[i] in cs;
        }
      case _ =>
    }
  }

  // ----- What a value means -----

  /** A value up to the order of object keys. */
  datatype Meaning =
    | Atom(value: Json)
    | List(items: seq<Meaning>)
    | Table(fields: map<string, Meaning>)

  function MeaningOf(v: Json): Meaning {
    match v
    case Array(items) => List(MeaningOfItems(items))
    case Object(es) => Table(MeaningOfEntries(es))
    case _ => Atom(v)
  }

  function MeaningOfItems(items: seq<Json>): (r: seq<Meaning>)
    ensures |r| == |items|
  {
    if items == [] then [] else [MeaningOf(items[0])] + MeaningOfItems(items[1..])
  }

  function MeaningOfEntries(es: seq<Entry>): map<string, Meaning> {
    if es == [] then map[] else MeaningOfEntries(es[1..])[es[0].key := MeaningOf(es[0].value)]
  }

  lemma {:induction false} MeaningOfItemsAt(items: seq<Json>, i: nat)
    requires i < |items|
    ensures MeaningOfItems(items)[i] == MeaningOf(items[i])
  {
    if i > 0 {
      MeaningOfItemsAt(items[1..], i - 1);
    }
  }

  /** With distinct keys the meaning is the set of entries. */
  lemma {:induction false} TableOf(es: seq<Entry>)
    requires DistinctKeys(es)
    ensures forall k :: k in MeaningOfEntries(es) <==> exists i :: 0 <= i < |es| && es[i].key == k
    ensures forall i :: 0 <= i < |es| ==>
      es[i].key in MeaningOfEntries(es) && MeaningOfEntries(es)[es[i].key] == MeaningOf(es[i].value)
  {
    if es != [] {
      var rest := es[1..];
      TableOf(rest);
      assert forall i :: 0 <= i < |rest| ==> rest[i] == es[i + 1];
      assert forall i :: 0 < i < |es| ==> es[i] == rest[i - 1];
    }
  }

  /** Two entry lists with distinct keys and the same entries have the same table. */
  lemma SameTable(a: seq<Entry>, b: seq<Entry>)
    requires DistinctKeys(a) && DistinctKeys(b) && forall e :: e in a <==> e in b
    ensures MeaningOfEntries(a) == MeaningOfEntries(b)
  {
    TableOf(a);
    TableOf(b);
    forall k | k in MeaningOfEntries(a) ensures k in MeaningOfEntries(b) && MeaningOfEntries(a)[k] == MeaningOfEntries(b)[k] {
      var i :| 0 <= i < |a| && a[i].key == k;
      assert a[i] in b;
    }
    forall k | k in MeaningOfEntries(b) ensures k in MeaningOfEntries(a) {
      var i :| 0 <= i < |b| && b[i].key == k;
      assert b[i] in a;
    }
  }

  lemma SortedDistinct(es: seq<Entry>)
    requires SortedEntries(es)
    ensures DistinctKeys(es)
  {
    forall i, j | 0 <= i < j < |es| ensures es[i].key != es[j].key {
      assert Less(es[i].key, es[j].key);
      LessIrreflexive(es[i].key);
    }
  }

  /** Canonicalizing changes no meaning. */
  lemma {:induction false} CanonKeepsMeaning(v: Json)
    requires WellFormed(v)
    ensures MeaningOf(Canon(v)) == MeaningOf(v)
    decreases v
  {
    match v {
      case Array(items) =>
        forall i | 0 <= i < |items| ensures MeaningOfItems(CanonItems(items))[i] == MeaningOfItems(items)[i] {
          CanonItemsAt(items, i);
          CanonKeepsMeaning(items[i]);
          MeaningOfItemsAt(items, i);
          MeaningOfItemsAt(CanonItems(items), i);
        }
      case Object(es) =>
        var cs := CanonEntries(es);
        CanonKeysDistinct(es);
        SortSorts(cs);
        SortedDistinct(Sort(cs));
        SameTable(cs, Sort(cs));
        TableOf(cs);
        TableOf(es);
        forall i | 0 <= i < |es| ensures cs[i].key == es[i].key && MeaningOf(cs[i].value) == MeaningOf(es[i].value) {
          CanonEntriesAt(es, i);
          CanonKeepsMeaning(es[i].value);
        }
        SameMeanings(es, cs);
      case _ =>
    }
  }

  lemma SameMeanings(a: seq<Entry>, b: seq<Entry>)
    requires DistinctKeys(a) && DistinctKeys(b) && |a| == |b|
    requires forall i :: 0 <= i < |a| ==> b[i].key == a[i].key && MeaningOf(b[i].value) == MeaningOf(a[i].value)
    ensures MeaningOfEntries(a) == MeaningOfEntries(b)
  {
    TableOf(a);
    TableOf(b);
    forall k ensures k in MeaningOfEntries(a) <==> k in MeaningOfEntries(b) {
      if i :| 0 <= i < |a| && a[i].key == k {
        assert b[i].key == k;
      }
    }
    forall k | k in MeaningOfEntries(a) ensures MeaningOfEntries(a)[k] == MeaningOfEntries(b)[k] {
      var i :| 0 <= i < |a| && a[i].key == k;
      assert b[i].key == k;
    }
  }

  function Keys(es: seq<Entry>): (ks: seq<string>)
    ensures |ks| == |es| && forall i :: 0 <= i < |es| ==> ks[i] == es[i].key
  {
    seq(|es|, i requires 0 <= i < |es| => es[i].key)
  }

  /** There is one canonical form per meaning. */
  lemma {:induction false} CanonicalIsUnique(a: Json, b: Json)
    requires Canonical(a) && Canonical(b) && MeaningOf(a) == MeaningOf(b)
    ensures a == b
    decreases a
  {
    match a {
      case Array(items) =>
        var others := b.items;
        forall i | 0 <= i < |items| ensures items[i] == others[i] {
          MeaningOfItemsAt(items, i);
          MeaningOfItemsAt(others, i);
          CanonicalIsUnique(items[i], others[i]);
        }
      case Object(es) =>
        var fs := b.entries;
        SortedDistinct(es);
        SortedDistinct(fs);
        TableOf(es);
        TableOf(fs);
        SameKeys(es, fs);
        forall i | 0 <= i < |es| ensures es[i] == fs[i] {
          assert Keys(es)[i] == Keys(fs)[i];
          CanonicalIsUnique(es[i].value, fs[i].value);
        }
      case _ =>
    }
  }

  lemma SameKeys(es: seq<Entry>, fs: seq<Entry>)
    requires SortedEntries(es) && SortedEntries(fs) && MeaningOfEntries(es) == MeaningOfEntries(fs)
    ensures Keys(es) == Keys(fs)
  {
    SortedDistinct(es);
    SortedDistinct(fs);
    TableOf(es);
    TableOf(fs);
    forall k ensures k in Keys(es) <==> k in Keys(fs) {
      KeyInTable(es, k);
      KeyInTable(fs, k);
    }
    SortedUnique(Keys(es), Keys(fs));
  }

  lemma KeyInTable(es: seq<Entry>, k: string)
    requires DistinctKeys(es)
    ensures k in Keys(es) <==> k in MeaningOfEntries(es)
  {
    TableOf(es);
    if k in MeaningOfEntries(es) {
      var i :| 0 <= i < |es| && es[i].key == k;
      assert Keys(es)[i] == k;
    }
  }

  /** Two values canonicalize alike exactly when they are equal up to the order of
      object keys: the canonical form is a faithful pre-image for a content address. */
  lemma {:induction false} MeaningIsFaithful(a: Json, b: Json)
    requires WellFormed(a) && WellFormed(b)
    ensures Canon(a) == Canon(b) <==> MeaningOf(a) == MeaningOf(b)
  {
    CanonKeepsMeaning(a);
    CanonKeepsMeaning(b);
    CanonIsCanonical(a);
    CanonIsCanonical(b);
    if MeaningOf(a) == MeaningOf(b) {
      CanonicalIsUnique(Canon(a), Canon(b));
    }
  }

  /** A canonical value is its own canonical form, so canonicalizing twice is
      canonicalizing once. */
  lemma {:induction false} CanonIsIdempotent(v: Json)
    requires WellFormed(v)
    ensures Canon(Canon(v)) == Canon(v)
    ensures Canonical(v) ==> Canon(v) == v
  {
    CanonIsCanonical(v);
    CanonKeepsMeaning(v);
    CanonicalIsWellFormed(Canon(v));
    CanonIsCanonical(Canon(v));
    CanonKeepsMeaning(Canon(v));
    CanonicalIsUnique(Canon(Canon(v)), Canon(v));
    if Canonical(v) {
      CanonicalIsUnique(Canon(v), v);
    }
  }

  lemma {:induction false} CanonicalIsWellFormed(v: Json)
    requires Canonical(v)
    ensures WellFormed(v)
    decreases v
  {
    match v {
      case Array(items) =>
        forall i | 0 <= i < |items| ensures WellFormed(items[i]) { CanonicalIsWellFormed(items[i]); }
      case Object(es) =>
        SortedDistinct(es);
        forall i | 0 <= i < |es| ensures WellFormed(es[i].value) { CanonicalIsWellFormed(es[i].value); }
      case _ =>
    }
  }
}
