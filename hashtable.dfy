/**
 * The ordered hash table that holds a class's static properties. Its
 * implementation is not part of this model: it is represented by the
 * sequence of its (key, value) entries in insertion order, and `SetString`
 * is assumed to overwrite an existing key in place and to append a new one.
 */
module HashTable {
  import opened Wrappers
  import opened Values

  datatype Entry = Entry(key: string, value: Val)

  /** The keys of `es`, in order. */
  function KeysOf(es: seq<Entry>): (ks: seq<string>)
    ensures |ks| == |es|
    ensures forall i :: 0 <= i < |es| ==> ks[i] == es[i].key
  {
    if es == [] then [] else [es[0].key] + KeysOf(es[1..])
  }

  /** The value stored under `k`, if any. */
  function Find(es: seq<Entry>, k: string): (r: Option<Val>)
    ensures r.None? <==> k !in KeysOf(es)
    ensures r.Some? ==> Entry(k, r.value) in es
  {
    if es == [] then None
    else if es[0].key == k then Some(es[0].value)
    else Find(es[1..], k)
  }

  /** The entries after storing `v` under `k`: overwrite in place, or append. */
  function Put(es: seq<Entry>, k: string, v: Val): (r: seq<Entry>)
    ensures k in KeysOf(es) ==> KeysOf(r) == KeysOf(es)
    ensures k !in KeysOf(es) ==> r == es + [Entry(k, v)]
  {
    if es == [] then [Entry(k, v)]
    else if es[0].key == k then [Entry(k, v)] + es[1..]
    else [es[0]] + Put(es[1..], k, v)
  }

  /** After a Put, `k` reads back `v` and every other key reads back what it held. */
  lemma {:induction false} PutFind(es: seq<Entry>, k: string, v: Val, k': string)
    ensures Find(Put(es, k, v), k') == if k' == k then Some(v) else Find(es, k')
  {
    if es != [] && es[0].key != k {
      PutFind(es[1..], k, v, k');
    }
  }

  /** No key occurs twice. */
  predicate Distinct(ks: seq<string>) {
    forall i, j :: 0 <= i < j < |ks| ==> ks[i] != ks[j]
  }

  lemma KeysOfSnoc(es: seq<Entry>, e: Entry)
    ensures KeysOf(es + [e]) == KeysOf(es) + [e.key]
  {
  }

  /** A Put adds exactly its key to the key set, and keeps keys distinct. */
  lemma PutKeys(es: seq<Entry>, k: string, v: Val)
    ensures forall k' :: k' in KeysOf(Put(es, k, v)) <==> k' in KeysOf(es) || k' == k
    ensures Distinct(KeysOf(es)) ==> Distinct(KeysOf(Put(es, k, v)))
  {
    if k !in KeysOf(es) {
      KeysOfSnoc(es, Entry(k, v));
    }
  }

  class ZHashTable {
    var entries: seq<Entry>

    constructor ()
      ensures entries == []
    {
      entries := [];
    }

    method SetString(k: string, v: Val)
      modifies this
      ensures entries == Put(old(entries), k, v)
    {
      entries := Put(entries, k, v);
    }
  }
}
