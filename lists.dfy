/**
 * The array operations the list stores use: `push`, `indexOf`, `find` by
 * id, and `splice(start, 1)` with JavaScript's normalisation of `start`,
 * over store documents, which are objects mutated in place.
 */
module Lists {
  import opened Wrappers
  import opened Js
  import opened Objects

  /** A stored record (a map or a webgl map): a mutable object with string keys. */
  class Document {
    var fields: Dict<Value>

    constructor (fields: Dict<Value>)
      ensures this.fields == fields
    {
      this.fields := fields;
    }
  }

  /** `doc.id`: undefined when the document has no `id` key. */
  function IdOf(doc: Document): Value
    reads doc
  {
    Get(doc.fields, "id").GetOr(Undefined)
  }

  /** `docs.map(doc => doc.id)`. */
  function Ids(docs: seq<Document>): (ids: seq<Value>)
    reads docs
    ensures |ids| == |docs| && forall i | 0 <= i < |docs| :: ids[i] == IdOf(docs[i])
  {
    seq(|docs|, i reads docs requires 0 <= i < |docs| => IdOf(docs[i]))
  }

  /** `s.indexOf(x)`: the first position holding `x` (strict equality), or -1. */
  function IndexOf(s: seq<Value>, x: Value): (r: int)
    ensures -1 <= r < |s|
    ensures r >= 0 ==> s[r] == x && forall j | 0 <= j < r :: s[j] != x
    ensures r == -1 <==> x !in s
  {
    if |s| == 0 then -1
    else if s[0] == x then 0
    else
      var r := IndexOf(s[1..], x);
      assert forall j | 1 <= j < |s| :: s[1..][j - 1] == s[j];
      assert x in s[1..] <==> x in s;
      if r < 0 then -1 else r + 1
  }

  /** `docs.find(doc => doc.id === id)`: the first document with that id. */
  function FindById(docs: seq<Document>, id: Value): (r: Option<Document>)
    reads docs
    ensures r.None? <==> forall i | 0 <= i < |docs| :: IdOf(docs[i]) != id
    ensures r.Some? ==> exists i | 0 <= i < |docs| ::
                          r.value == docs[i] && IdOf(docs[i]) == id && forall j | 0 <= j < i :: IdOf(docs[j]) != id
  {
    var i := IndexOf(Ids(docs), id);
    assert id !in Ids(docs) <==> forall k | 0 <= k < |docs| :: IdOf(docs[k]) != id by {
      assert forall k | 0 <= k < |docs| :: Ids(docs)[k] == IdOf(docs[k]);
    }
    if i < 0 then None else Some(docs[i])
  }

  /** The index `splice(start, ...)` starts at: counted from the end when negative, clamped to the array. */
  function SpliceStart(len: nat, start: int): (a: nat)
    ensures a <= len
    ensures 0 <= start <= len ==> a == start
    ensures start > len ==> a == len
    ensures -(len as int) <= start < 0 ==> a == len + start
    ensures start < -(len as int) ==> a == 0
  {
    if start < 0 then (if len + start < 0 then 0 else len + start)
    else if start > len then len
    else start
  }

  /** `s.splice(start, 1)`: removes one element at the normalised start, or nothing past the end. */
  function Splice1<T>(s: seq<T>, start: int): (r: seq<T>)
    ensures var a := SpliceStart(|s|, start);
            if a < |s| then r == s[..a] + s[a + 1..] else r == s
  {
    var a := SpliceStart(|s|, start);
    if a < |s| then s[..a] + s[a + 1..] else s
  }

  /** Removing at an index inside the array removes exactly that element and keeps the order of the rest. */
  lemma SpliceInside<T>(s: seq<T>, i: int)
    requires 0 <= i < |s|
    ensures |Splice1(s, i)| == |s| - 1
    ensures forall j | 0 <= j < i :: Splice1(s, i)[j] == s[j]
    ensures forall j | i <= j < |s| - 1 :: Splice1(s, i)[j] == s[j + 1]
    ensures multiset(Splice1(s, i)) + multiset{s[i]} == multiset(s)
  {
    assert s == s[..i] + [s[i]] + s[i + 1..];
  }

  /** `splice` from the end of the array or beyond removes nothing. */
  lemma SpliceBeyond<T>(s: seq<T>, i: int)
    requires i >= |s|
    ensures Splice1(s, i) == s
  {
  }

  /**
   * Delete by id as the stores write it, `splice(ids.indexOf(id), 1)`: the first
   * element with that id goes and the rest keep their order; an absent id makes
   * the start -1, which removes the last element of a non-empty array.
   */
  lemma DeleteById<T>(s: seq<T>, ids: seq<Value>, id: Value)
    requires |ids| == |s|
    ensures id in ids ==>
              var i := IndexOf(ids, id);
              ids[i] == id && (forall j | 0 <= j < i :: ids[j] != id) && Splice1(s, i) == s[..i] + s[i + 1..]
    ensures id !in ids && |s| > 0 ==> Splice1(s, IndexOf(ids, id)) == s[..|s| - 1]
    ensures id !in ids && |s| == 0 ==> Splice1(s, IndexOf(ids, id)) == s
  {
    if id !in ids && |s| > 0 {
      assert s[..|s| - 1] + s[|s|..] == s[..|s| - 1];
    }
  }
}
