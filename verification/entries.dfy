/** An insertion-ordered dictionary from string keys to values, the shape of
    `LogConfig.config` and of every mapping merged into it. */
module Entries {
  import opened Wrappers
  import opened Values

  datatype Entry = Entry(key: string, value: Value)

  /** Entries in insertion order; a dictionary never repeats a key. */
  type Dict = seq<Entry>

  predicate UniqueKeys(d: Dict) {
    forall i, j :: 0 <= i < j < |d| ==> d[i].key != d[j].key
  }

  /** The keys in iteration order, as `d.keys()` yields them. */
  function KeysOf(d: Dict): (ks: seq<string>)
    ensures |ks| == |d|
  {
    seq(|d|, i requires 0 <= i < |d| => d[i].key)
  }

  function KeySet(d: Dict): set<string> {
    set e | e in d :: e.key
  }

  /** `d.get(k)`: the value stored under `k`, if any. */
  function Lookup(d: Dict, k: string): (r: Option<Value>)
    ensures r.None? <==> k !in KeySet(d)
    ensures UniqueKeys(d) ==> forall i :: 0 <= i < |d| && d[i].key == k ==> r == Some(d[i].value)
    decreases |d|
  {
    if |d| == 0 then None
    else if d[0].key == k then Some(d[0].value)
    else
      assert forall e :: e in d[1..] ==> e in d;
      assert forall e :: e in d && e != d[0] ==> e in d[1..];
      Lookup(d[1..], k)
  }

  /** The dictionary as a Dafny map, forgetting insertion order. */
  function AsMap(d: Dict): (m: map<string, Value>)
    ensures m.Keys == KeySet(d)
  {
    map k | k in KeySet(d) :: Lookup(d, k).value
  }

  /** `d[k] = v`: an existing key keeps its position, a new key is appended. */
  function Store(d: Dict, k: string, v: Value): (r: Dict)
    requires UniqueKeys(d)
    ensures UniqueKeys(r)
    ensures |r| == if k in KeySet(d) then |d| else |d| + 1
    ensures forall i :: 0 <= i < |d| ==> r[i] == (if d[i].key == k then Entry(k, v) else d[i])
    ensures k !in KeySet(d) ==> r[|d|] == Entry(k, v)
    decreases |d|
  {
    if |d| == 0 then [Entry(k, v)]
    else if d[0].key == k then [Entry(k, v)] + d[1..]
    else [d[0]] + Store(d[1..], k, v)
  }

  /** A key is stored iff some entry carries it. */
  lemma KeySetIndex(d: Dict, k: string)
    ensures k in KeySet(d) <==> exists i :: 0 <= i < |d| && d[i].key == k
  {
    if k in KeySet(d) {
      var e :| e in d && e.key == k;
      var i :| 0 <= i < |d| && d[i] == e;
    }
  }

  /** Every key after `d[k] = v` was a key before, or is `k`. */
  lemma StoreKeySetSub(d: Dict, k: string, v: Value)
    requires UniqueKeys(d)
    ensures KeySet(Store(d, k, v)) <= KeySet(d) + {k}
  {
    var r := Store(d, k, v);
    forall k' | k' in KeySet(r)
      ensures k' in KeySet(d) + {k}
    {
      KeySetIndex(r, k');
      var i :| 0 <= i < |r| && r[i].key == k';
      if i < |d| && d[i].key != k { assert d[i] in d; }
    }
  }

  /** Every key before `d[k] = v`, and `k`, is a key after it. */
  lemma StoreKeySetSuper(d: Dict, k: string, v: Value)
    requires UniqueKeys(d)
    ensures KeySet(d) + {k} <= KeySet(Store(d, k, v))
  {
    var r := Store(d, k, v);
    forall k' | k' in KeySet(d) + {k}
      ensures k' in KeySet(r)
    {
      KeySetIndex(d, k');
      if k' == k && k !in KeySet(d) {
        assert r[|d|] in r;
      } else {
        var i :| 0 <= i < |d| && d[i].key == k';
        assert r[i] in r;
      }
    }
  }

  /** Storing `v` under `k` adds `k` to the key set and nothing else. */
  lemma StoreKeySet(d: Dict, k: string, v: Value)
    requires UniqueKeys(d)
    ensures KeySet(Store(d, k, v)) == KeySet(d) + {k}
  {
    StoreKeySetSub(d, k, v);
    StoreKeySetSuper(d, k, v);
  }

  /** After storing `v` under `k`, `k` reads back `v` and every other key
      reads back what it read before. */
  lemma StoreLookup(d: Dict, k: string, v: Value, k': string)
    requires UniqueKeys(d)
    ensures Lookup(Store(d, k, v), k') == if k' == k then Some(v) else Lookup(d, k')
  {
    var r := Store(d, k, v);
    StoreKeySet(d, k, v);
    KeySetIndex(r, k');
    if k' in KeySet(r) {
      var i :| 0 <= i < |r| && r[i].key == k';
      if i < |d| && d[i].key != k {
        assert Lookup(d, k') == Some(d[i].value);
      }
    }
  }

  lemma MapsEqual(a: map<string, Value>, b: map<string, Value>)
    requires a.Keys == b.Keys
    requires forall k :: k in a ==> a[k] == b[k]
    ensures a == b
  {
  }

  lemma StoreAsMapAt(d: Dict, k: string, v: Value, k': string)
    requires UniqueKeys(d)
    requires k' in KeySet(d) + {k}
    ensures k' in AsMap(Store(d, k, v))
    ensures AsMap(Store(d, k, v))[k'] == AsMap(d)[k := v][k']
  {
    StoreKeySet(d, k, v);
    StoreLookup(d, k, v, k');
  }

  /** The map view of `d[k] = v` is the map view of `d` updated at `k`. */
  lemma StoreAsMap(d: Dict, k: string, v: Value)
    requires UniqueKeys(d)
    ensures AsMap(Store(d, k, v)) == AsMap(d)[k := v]
  {
    var after := AsMap(Store(d, k, v));
    var expected := AsMap(d)[k := v];
    assert after.Keys == expected.Keys by {
      StoreKeySet(d, k, v);
    }
    forall k' | k' in after
      ensures after[k'] == expected[k']
    {
      StoreAsMapAt(d, k, v, k');
    }
    MapsEqual(after, expected);
  }

  /** `d[k] = v` keeps the keys of `d` where they were. */
  lemma StoreKeepsOrder(d: Dict, k: string, v: Value)
    requires UniqueKeys(d)
    ensures |d| <= |Store(d, k, v)|
    ensures KeysOf(Store(d, k, v))[..|d|] == KeysOf(d)
  {
    var r := Store(d, k, v);
    forall i | 0 <= i < |d|
      ensures KeysOf(r)[i] == KeysOf(d)[i]
    {
    }
  }

  /** `d.update(src)`: store every entry of `src` in iteration order. */
  function Merge(d: Dict, src: Dict): (r: Dict)
    requires UniqueKeys(d)
    ensures UniqueKeys(r)
    ensures |d| <= |r| <= |d| + |src|
    ensures KeySet(d) <= KeySet(r)
    decreases |src|
  {
    if |src| == 0 then d else Merge(Store(d, src[0].key, src[0].value), src[1..])
  }

  /** The keys of a non-empty dictionary are its first key and the keys of
      the rest. */
  lemma KeySetUncons(src: Dict)
    requires |src| > 0
    ensures KeySet(src) == {src[0].key} + KeySet(src[1..])
  {
    forall e | e in src ensures e == src[0] || e in src[1..] {
      var i :| 0 <= i < |src| && src[i] == e;
      if i > 0 { assert src[1..][i - 1] == e; }
    }
  }

  /** A dictionary splits into its first entry and the rest. */
  lemma UnconsDict(src: Dict)
    requires UniqueKeys(src)
    requires |src| > 0
    ensures UniqueKeys(src[1..])
    ensures KeySet(src) == {src[0].key} + KeySet(src[1..])
    ensures src[0].key !in KeySet(src[1..])
    ensures AsMap(src) == AsMap(src[1..])[src[0].key := src[0].value]
  {
    var k, v, rest := src[0].key, src[0].value, src[1..];
    KeySetUncons(src);
    assert k !in KeySet(rest) by {
      KeySetIndex(rest, k);
    }
    forall k' | k' in AsMap(src)
      ensures AsMap(src)[k'] == (AsMap(rest)[k := v])[k']
    {
      KeySetIndex(src, k');
      var i :| 0 <= i < |src| && src[i].key == k';
      if i > 0 {
        assert rest[i - 1].key == k';
      }
    }
  }

  /** The merge keeps keys unique and its key set is the union of both. */
  lemma {:induction false} MergeKeys(d: Dict, src: Dict)
    requires UniqueKeys(d)
    ensures UniqueKeys(Merge(d, src))
    ensures KeySet(Merge(d, src)) == KeySet(d) + KeySet(src)
    decreases |src|
  {
    if |src| == 0 {
      assert KeySet(src) == {};
    } else {
      KeySetUncons(src);
      StoreKeySet(d, src[0].key, src[0].value);
      MergeKeys(Store(d, src[0].key, src[0].value), src[1..]);
    }
  }

  lemma UpdateThenUnion(a: map<string, Value>, b: map<string, Value>, k: string, v: Value)
    requires k !in b
    ensures a[k := v] + b == a + b[k := v]
  {
  }

  /** The merge is last-write-wins: every key of `src` takes its value from
      `src` and every other key keeps its old value. */
  lemma {:induction false} MergeAsMap(d: Dict, src: Dict)
    requires UniqueKeys(d)
    requires UniqueKeys(src)
    ensures AsMap(Merge(d, src)) == AsMap(d) + AsMap(src)
    decreases |src|
  {
    if |src| == 0 {
      assert KeySet(src) == {};
      assert AsMap(d) + AsMap(src) == AsMap(d);
    } else {
      var k, v, rest := src[0].key, src[0].value, src[1..];
      UnconsDict(src);
      StoreAsMap(d, k, v);
      MergeAsMap(Store(d, k, v), rest);
      UpdateThenUnion(AsMap(d), AsMap(rest), k, v);
    }
  }

  /** The keys of `src` not in `known`, each once, in the order `src` first
      yields them: the keys `d.update(src)` appends, with `known` the keys
      of `d`. */
  function NewKeys(known: set<string>, src: Dict): seq<string>
    decreases |src|
  {
    if |src| == 0 then []
    else if src[0].key in known then NewKeys(known, src[1..])
    else [src[0].key] + NewKeys(known + {src[0].key}, src[1..])
  }

  /** Keys already present keep their iteration positions; new keys come
      after them. */
  lemma {:induction false} MergeKeepsOrder(d: Dict, src: Dict)
    requires UniqueKeys(d)
    ensures |d| <= |Merge(d, src)|
    ensures KeysOf(Merge(d, src))[..|d|] == KeysOf(d)
    decreases |src|
  {
    if |src| > 0 {
      var d' := Store(d, src[0].key, src[0].value);
      MergeKeepsOrder(d', src[1..]);
      var m := Merge(d', src[1..]);
      assert m == Merge(d, src);
      StoreKeepsOrder(d, src[0].key, src[0].value);
      assert KeysOf(m)[..|d|] == KeysOf(m)[..|d'|][..|d|];
    }
  }

  /** `d[k] = v` with a new key `k` puts `k` last. */
  lemma StoreAppends(d: Dict, k: string, v: Value)
    requires UniqueKeys(d)
    requires k !in KeySet(d)
    ensures |Store(d, k, v)| == |d| + 1
    ensures KeysOf(Store(d, k, v))[|d|] == k
  {
  }

  /** The keys the merge appends are the new keys of `src`, in the order
      `src` first yields them. */
  lemma {:induction false} MergeAppendsInOrder(d: Dict, src: Dict)
    requires UniqueKeys(d)
    ensures |d| <= |Merge(d, src)|
    ensures KeysOf(Merge(d, src))[|d|..] == NewKeys(KeySet(d), src)
    decreases |src|
  {
    MergeKeepsOrder(d, src);
    if |src| > 0 {
      var k, v := src[0].key, src[0].value;
      var d' := Store(d, k, v);
      var ks := KeysOf(Merge(d', src[1..]));
      assert Merge(d, src) == Merge(d', src[1..]);
      MergeAppendsInOrder(d', src[1..]);
      StoreKeySet(d, k, v);
      if k in KeySet(d) {
        assert KeySet(d') == KeySet(d);
        assert NewKeys(KeySet(d), src) == NewKeys(KeySet(d), src[1..]);
      } else {
        assert NewKeys(KeySet(d), src) == [k] + NewKeys(KeySet(d'), src[1..]);
        StoreAppends(d, k, v);
        MergeKeepsOrder(d', src[1..]);
        SliceStep(ks, |d|, KeysOf(d'));
      }
    }
  }

  lemma SliceStep(ks: seq<string>, n: nat, prefix: seq<string>)
    requires |prefix| == n + 1 && n + 1 <= |ks|
    requires ks[..n + 1] == prefix
    ensures ks[n..] == [prefix[n]] + ks[n + 1..]
  {
    assert ks[n] == ks[..n + 1][n];
  }

  /** In a dictionary without repeated keys, position `i` is what the map
      view holds under its key. */
  lemma AsMapAt(d: Dict, i: nat)
    requires UniqueKeys(d)
    requires i < |d|
    ensures d[i].key in AsMap(d)
    ensures AsMap(d)[d[i].key] == d[i].value
  {
    assert d[i] in d;
  }

  /** Dictionaries with the same keys in the same order either both repeat
      a key or neither does. */
  lemma SameKeysUnique(d: Dict, e: Dict)
    requires KeysOf(d) == KeysOf(e)
    requires UniqueKeys(d)
    ensures UniqueKeys(e)
  {
    forall i, j | 0 <= i < j < |e| ensures e[i].key != e[j].key {
      assert KeysOf(e)[i] == KeysOf(d)[i] && KeysOf(e)[j] == KeysOf(d)[j];
    }
  }

  /** A dictionary without repeated keys has as many keys as entries. */
  lemma {:induction false} KeySetSize(d: Dict)
    requires UniqueKeys(d)
    ensures |KeySet(d)| == |d|
    decreases |d|
  {
    if |d| == 0 {
      assert KeySet(d) == {};
    } else {
      UnconsDict(d);
      KeySetSize(d[1..]);
    }
  }
}
