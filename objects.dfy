/**
 * A plain JavaScript object with string keys that are not integer-like:
 * an association list in insertion order, which is the order
 * `Object.keys` and `Object.values` report. Assigning to an existing key
 * keeps its position, assigning to a new key appends it, `delete` removes
 * it. `ToMap` is the reference meaning of such an object.
 */
module Objects {
  import opened Wrappers

  datatype Entry<V> = Entry(key: string, value: V)

  type Dict<V> = seq<Entry<V>>

  /** `Object.keys(d)`. */
  function KeysOf<V>(d: Dict<V>): (ks: seq<string>)
    ensures |ks| == |d|
    ensures forall i | 0 <= i < |d| :: ks[i] == d[i].key
  {
    seq(|d|, i requires 0 <= i < |d| => d[i].key)
  }

  predicate UniqueKeys<V>(d: Dict<V>) {
    forall i, j | 0 <= i < j < |d| :: d[i].key != d[j].key
  }

  predicate HasKey<V>(d: Dict<V>, k: string) {
    exists i | 0 <= i < |d| :: d[i].key == k
  }

  /** The position of key `k`, or -1. */
  function IndexOfKey<V>(d: Dict<V>, k: string): (r: int)
    ensures -1 <= r < |d|
    ensures r >= 0 ==> d[r].key == k && forall j | 0 <= j < r :: d[j].key != k
    ensures r == -1 <==> !HasKey(d, k)
  {
    if |d| == 0 then -1
    else if d[0].key == k then 0
    else
      var r := IndexOfKey(d[1..], k);
      assert forall j | 1 <= j < |d| :: d[1..][j - 1] == d[j];
      if r < 0 then -1 else r + 1
  }

  /** `d[k]`: None plays `undefined`. */
  function Get<V>(d: Dict<V>, k: string): (r: Option<V>)
    ensures r.Some? <==> HasKey(d, k)
  {
    var i := IndexOfKey(d, k);
    if i < 0 then None else Some(d[i].value)
  }

  /** `d[k] = v`. */
  function Put<V>(d: Dict<V>, k: string, v: V): Dict<V> {
    var i := IndexOfKey(d, k);
    if i < 0 then d + [Entry(k, v)] else d[i := Entry(k, v)]
  }

  /** `delete d[k]`. */
  function Remove<V>(d: Dict<V>, k: string): Dict<V> {
    var i := IndexOfKey(d, k);
    if i < 0 then d else d[..i] + d[i + 1..]
  }

  /** `Object.assign(d, src)`: src's keys in their order, each written into d. */
  function Assign<V>(d: Dict<V>, src: Dict<V>): Dict<V>
    decreases |src|
  {
    if |src| == 0 then d else Assign(Put(d, src[0].key, src[0].value), src[1..])
  }

  /** The reference meaning: the key/value map. */
  ghost function ToMap<V>(d: Dict<V>): (m: map<string, V>)
    ensures m.Keys == set i | 0 <= i < |d| :: d[i].key
  {
    map k | k in (set i | 0 <= i < |d| :: d[i].key) :: Get(d, k).value
  }

  lemma GetPut<V>(d: Dict<V>, k: string, v: V, k': string)
    ensures Get(Put(d, k, v), k') == if k' == k then Some(v) else Get(d, k')
  {
    var i := IndexOfKey(d, k);
    var d' := Put(d, k, v);
    var j := IndexOfKey(d', k');
    var j0 := IndexOfKey(d, k');
    if k' == k {
      var at := if i < 0 then |d| else i;
      assert d'[at].key == k;
      assert j == at;
    } else if j0 >= 0 {
      assert d'[j0].key == k';
      assert j == j0;
    }
  }

  /** Assigning keeps the insertion order: an existing key stays in place, a new key goes last. */
  lemma PutKeys<V>(d: Dict<V>, k: string, v: V)
    ensures KeysOf(Put(d, k, v)) == if HasKey(d, k) then KeysOf(d) else KeysOf(d) + [k]
  {
  }

  lemma PutUnique<V>(d: Dict<V>, k: string, v: V)
    requires UniqueKeys(d)
    ensures UniqueKeys(Put(d, k, v))
  {
  }

  lemma PutToMap<V>(d: Dict<V>, k: string, v: V)
    ensures ToMap(Put(d, k, v)) == ToMap(d)[k := v]
  {
    var m := ToMap(Put(d, k, v));
    var m0 := ToMap(d)[k := v];
    forall k' | k' in m
      ensures k' in m0 && m[k'] == m0[k']
    {
      GetPut(d, k, v, k');
    }
    forall k' | k' in m0
      ensures k' in m
    {
      GetPut(d, k, v, k');
    }
  }

  lemma GetRemove<V>(d: Dict<V>, k: string, k': string)
    requires UniqueKeys(d)
    ensures Get(Remove(d, k), k') == if k' == k then None else Get(d, k')
  {
    var i := IndexOfKey(d, k);
    var d' := Remove(d, k);
    if i >= 0 {
      assert forall j | 0 <= j < |d'| :: d'[j] == if j < i then d[j] else d[j + 1];
      var j0 := IndexOfKey(d, k');
      if k' != k && j0 >= 0 {
        var jj := if j0 < i then j0 else j0 - 1;
        assert d'[jj].key == k';
      }
    }
  }

  lemma RemoveUnique<V>(d: Dict<V>, k: string)
    requires UniqueKeys(d)
    ensures UniqueKeys(Remove(d, k))
  {
    var i := IndexOfKey(d, k);
    if i >= 0 {
      var d' := Remove(d, k);
      assert forall j | 0 <= j < |d'| :: d'[j] == if j < i then d[j] else d[j + 1];
    }
  }

  /** `Object.assign` overwrites exactly the keys of `src` and leaves every other key alone. */
  lemma {:induction false} GetAssign<V>(d: Dict<V>, src: Dict<V>, k: string)
    requires UniqueKeys(src)
    ensures Get(Assign(d, src), k) == if HasKey(src, k) then Get(src, k) else Get(d, k)
    decreases |src|
  {
    if |src| > 0 {
      var rest := src[1..];
      assert forall j | 0 <= j < |rest| :: rest[j] == src[j + 1];
      GetAssign(Put(d, src[0].key, src[0].value), rest, k);
      GetPut(d, src[0].key, src[0].value, k);
      if k == src[0].key {
        assert !HasKey(rest, k);
      } else if HasKey(src, k) {
        var i :| 0 <= i < |src| && src[i].key == k;
        assert rest[i - 1].key == k;
        assert Get(src, k) == Get(rest, k);
      }
    }
  }

  /** After `d[k] = v`, the pair is one of the object's entries. */
  lemma PutHasEntry<V>(d: Dict<V>, k: string, v: V)
    ensures Entry(k, v) in Put(d, k, v)
  {
    var i := IndexOfKey(d, k);
    var at := if i < 0 then |d| else i;
    assert Put(d, k, v)[at] == Entry(k, v);
  }

  /** A key that reads as `v` is stored as that entry. */
  lemma GetEntry<V>(d: Dict<V>, k: string)
    requires Get(d, k).Some?
    ensures Entry(k, Get(d, k).value) in d
  {
  }

  /** Assigning the same key twice leaves only the second value. */
  lemma PutTwice<V>(d: Dict<V>, k: string, v1: V, v2: V)
    ensures Put(Put(d, k, v1), k, v2) == Put(d, k, v2)
  {
    var i := IndexOfKey(d, k);
    var d1 := Put(d, k, v1);
    var at := if i < 0 then |d| else i;
    assert d1[at].key == k;
    assert forall j | 0 <= j < at :: d1[j] == d[j];
    assert IndexOfKey(d1, k) == at;
    if i < 0 {
      assert d1[at := Entry(k, v2)] == d + [Entry(k, v2)];
    } else {
      assert d1[at := Entry(k, v2)] == d[i := Entry(k, v2)];
    }
  }
}
