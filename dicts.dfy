/**
 * Python dicts as insertion-ordered association lists, and the JSON values the scripts
 * read from and write to locale files.
 */
module Dicts {
  import opened Wrappers

  /** A JSON value as the scripts see it: a string, a list of strings, or anything else. */
  datatype Value = Str(s: string) | List(items: seq<string>) | Other

  /** A dict with string keys, in insertion order (the order of .items() and of json.dump). */
  type Dict<V> = seq<(string, V)>

  function Keys<V>(d: Dict<V>): (ks: seq<string>)
    ensures |ks| == |d| && forall i :: 0 <= i < |d| ==> ks[i] == d[i].0
  {
    seq(|d|, i requires 0 <= i < |d| => d[i].0)
  }

  /** Every Python dict has pairwise distinct keys. */
  predicate DistinctKeys<V>(d: Dict<V>)
  {
    forall i, j :: 0 <= i < j < |d| ==> d[i].0 != d[j].0
  }

  /** The position of key k, searching from position i on. */
  function IndexFrom<V>(d: Dict<V>, k: string, i: nat): (r: Option<nat>)
    requires i <= |d|
    ensures r.Some? ==> i <= r.value < |d| && d[r.value].0 == k
    ensures r.Some? ==> forall j :: i <= j < r.value ==> d[j].0 != k
    ensures r.None? ==> forall j :: i <= j < |d| ==> d[j].0 != k
    decreases |d| - i
  {
    if i == |d| then None else if d[i].0 == k then Some(i) else IndexFrom(d, k, i + 1)
  }

  function IndexOf<V>(d: Dict<V>, k: string): Option<nat>
  {
    IndexFrom(d, k, 0)
  }

  /** d.get(k). */
  function Get<V>(d: Dict<V>, k: string): (r: Option<V>)
    ensures r.Some? <==> k in Keys(d)
  {
    match IndexOf(d, k)
    case Some(i) => Some(d[i].1)
    case None => None
  }

  lemma GetAt<V>(d: Dict<V>, i: nat)
    requires DistinctKeys(d) && i < |d|
    ensures Get(d, d[i].0) == Some(d[i].1)
  {
  }

  /** d[k] = v: an existing key keeps its position and takes the new value; a new key goes last. */
  function Put<V>(d: Dict<V>, k: string, v: V): (r: Dict<V>)
    ensures k in Keys(d) ==> Keys(r) == Keys(d)
    ensures k !in Keys(d) ==> r == d + [(k, v)]
  {
    match IndexOf(d, k)
    case Some(i) => d[i := (k, v)]
    case None => d + [(k, v)]
  }

  /** The first position holding k is what IndexFrom finds. */
  lemma {:induction false} IndexFromFirst<V>(d: Dict<V>, k: string, i: nat, p: nat)
    requires i <= p < |d| && d[p].0 == k
    requires forall j :: i <= j < p ==> d[j].0 != k
    ensures IndexFrom(d, k, i) == Some(p)
    decreases p - i
  {
    if i < p {
      IndexFromFirst(d, k, i + 1, p);
    }
  }

  /** Two dicts that agree on keys up to the first k agree on where k is. */
  lemma SameIndex<V>(d: Dict<V>, e: Dict<V>, k: string)
    requires |d| <= |e|
    requires forall j :: 0 <= j < |d| ==> (d[j].0 == k <==> e[j].0 == k)
    requires IndexOf(d, k).Some?
    ensures IndexOf(e, k) == IndexOf(d, k)
  {
    IndexFromFirst(e, k, 0, IndexOf(d, k).value);
  }

  lemma PutGet<V>(d: Dict<V>, k: string, v: V, k': string)
    ensures Get(Put(d, k, v), k') == if k' == k then Some(v) else Get(d, k')
  {
    var r := Put(d, k, v);
    match IndexOf(d, k)
    case None =>
      if k' == k {
        IndexFromFirst(r, k, 0, |d|);
      } else if IndexOf(d, k').Some? {
        SameIndex(d, r, k');
      }
    case Some(i) =>
      if k' == k {
        IndexFromFirst(r, k, 0, i);
      } else if IndexOf(d, k').Some? {
        SameIndex(d, r, k');
      }
  }

  lemma PutDistinct<V>(d: Dict<V>, k: string, v: V)
    requires DistinctKeys(d)
    ensures DistinctKeys(Put(d, k, v))
  {
  }

  /** The assignments d[k] = v for each pair of kvs in turn. */
  function PutAll<V>(d: Dict<V>, kvs: seq<(string, V)>): Dict<V>
  {
    if kvs == [] then d else Put(PutAll(d, kvs[..|kvs| - 1]), kvs[|kvs| - 1].0, kvs[|kvs| - 1].1)
  }

  /** The step of a loop that assigns the pairs of kvs in turn. */
  lemma PutAllStep<V>(d: Dict<V>, kvs: seq<(string, V)>, i: nat)
    requires i < |kvs|
    ensures PutAll(d, kvs[..i + 1]) == Put(PutAll(d, kvs[..i]), kvs[i].0, kvs[i].1)
  {
    assert kvs[..i + 1][..i] == kvs[..i];
  }

  /** The value of the last pair of kvs with key k. */
  function LastValue<V>(kvs: seq<(string, V)>, k: string): Option<V>
  {
    if kvs == [] then None
    else if kvs[|kvs| - 1].0 == k then Some(kvs[|kvs| - 1].1)
    else LastValue(kvs[..|kvs| - 1], k)
  }

  /** After a run of assignments, a key holds the last value assigned to it, or its old value. */
  lemma {:induction false} GetPutAll<V>(d: Dict<V>, kvs: seq<(string, V)>, k: string)
    ensures Get(PutAll(d, kvs), k) == if LastValue(kvs, k).Some? then LastValue(kvs, k) else Get(d, k)
  {
    if kvs != [] {
      var last := kvs[|kvs| - 1];
      GetPutAll(d, kvs[..|kvs| - 1], k);
      PutGet(PutAll(d, kvs[..|kvs| - 1]), last.0, last.1, k);
    }
  }

  /** Assignments keep keys distinct; the keys are the old ones and the assigned ones. */
  lemma {:induction false} PutAllKeys<V>(d: Dict<V>, kvs: seq<(string, V)>)
    requires DistinctKeys(d)
    ensures DistinctKeys(PutAll(d, kvs))
    ensures |PutAll(d, kvs)| <= |d| + |kvs|
    ensures forall k :: k in Keys(PutAll(d, kvs)) <==> k in Keys(d) || k in Keys(kvs)
  {
    if kvs != [] {
      var init := kvs[..|kvs| - 1];
      var last := kvs[|kvs| - 1];
      PutAllKeys(d, init);
      PutDistinct(PutAll(d, init), last.0, last.1);
      assert Keys(kvs) == Keys(init) + [last.0];
      var r := PutAll(d, kvs);
      forall k ensures k in Keys(r) <==> k in Keys(PutAll(d, init)) || k == last.0 {
        PutGet(PutAll(d, init), last.0, last.1, k);
      }
    }
  }

  /** Assigning keys that are new and pairwise distinct appends them in order. */
  lemma {:induction false} PutAllFresh<V>(d: Dict<V>, kvs: seq<(string, V)>)
    requires DistinctKeys(kvs)
    requires forall i :: 0 <= i < |kvs| ==> kvs[i].0 !in Keys(d)
    ensures PutAll(d, kvs) == d + kvs
  {
    if kvs != [] {
      var init := kvs[..|kvs| - 1];
      var last := kvs[|kvs| - 1];
      PutAllFresh(d, init);
      assert Keys(d + init) == Keys(d) + Keys(init);
      assert last.0 !in Keys(d);
      assert last.0 !in Keys(init);
      assert last.0 !in Keys(d + init);
      assert d + init + [last] == d + kvs;
    }
  }

  /** With distinct keys, the last assignment to a key is its only one. */
  lemma {:induction false} LastValueDistinct<V>(kvs: seq<(string, V)>, i: nat)
    requires DistinctKeys(kvs) && i < |kvs|
    ensures LastValue(kvs, kvs[i].0) == Some(kvs[i].1)
    decreases |kvs|
  {
    if i < |kvs| - 1 {
      LastValueDistinct(kvs[..|kvs| - 1], i);
    }
  }

  /** A key no pair assigns has no last value. */
  lemma {:induction false} LastValueAbsent<V>(kvs: seq<(string, V)>, k: string)
    requires forall i :: 0 <= i < |kvs| ==> kvs[i].0 != k
    ensures LastValue(kvs, k).None?
  {
    if kvs != [] {
      LastValueAbsent(kvs[..|kvs| - 1], k);
    }
  }

  /** A value found by LastValue was assigned by some pair. */
  lemma {:induction false} LastValueSome<V>(kvs: seq<(string, V)>, k: string) returns (i: nat)
    requires LastValue(kvs, k).Some?
    ensures i < |kvs| && kvs[i] == (k, LastValue(kvs, k).value)
  {
    if kvs[|kvs| - 1].0 == k {
      i := |kvs| - 1;
    } else {
      i := LastValueSome(kvs[..|kvs| - 1], k);
    }
  }
}
