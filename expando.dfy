/** The ExpandoObject the untyped reader fills: a string-keyed dictionary that
    keeps its keys in insertion order. */
module Expandos {
  import opened Wrappers
  import opened Clr

  /** The entries of an ExpandoObject, in insertion order. */
  type Expando = seq<(string, Val)>

  /** The value stored under `key`, if any. */
  function Get(d: Expando, key: string): Option<Val> {
    if d == [] then None
    else if d[0].0 == key then Some(d[0].1)
    else Get(d[1..], key)
  }

  function Keys(d: Expando): set<string> {
    if d == [] then {} else {d[0].0} + Keys(d[1..])
  }

  /** No key is stored twice. */
  predicate DistinctKeys(d: Expando) {
    d == [] || (d[0].0 !in Keys(d[1..]) && DistinctKeys(d[1..]))
  }

  /** The indexer assignment `d[key] = v`: an existing key keeps its place and
      takes the new value, a new key is appended. */
  function Put(d: Expando, key: string, v: Val): (r: Expando)
    ensures Get(r, key) == Some(v)
    ensures forall k :: k != key ==> Get(r, k) == Get(d, k)
    ensures Keys(r) == Keys(d) + {key}
    ensures key !in Keys(d) ==> r == d + [(key, v)]
    ensures key in Keys(d) ==> |r| == |d|
    ensures DistinctKeys(d) ==> DistinctKeys(r)
  {
    if d == [] then [(key, v)]
    else if d[0].0 == key then
      assert ([(key, v)] + d[1..])[1..] == d[1..];
      [(key, v)] + d[1..]
    else
      var rest := Put(d[1..], key, v);
      assert ([d[0]] + rest)[1..] == rest;
      [d[0]] + rest
  }

  /** A key is looked up exactly when it has been stored. */
  lemma {:induction false} GetIsSomeIffKey(d: Expando, key: string)
    ensures Get(d, key).Some? <==> key in Keys(d)
  {
    if d != [] {
      GetIsSomeIffKey(d[1..], key);
    }
  }

  /** Storing twice under one key is storing the second value once. */
  lemma {:induction false} PutPut(d: Expando, key: string, v: Val, w: Val)
    ensures Put(Put(d, key, v), key, w) == Put(d, key, w)
  {
    if d != [] && d[0].0 != key {
      PutPut(d[1..], key, v, w);
    }
  }

  lemma {:induction false} KeysAreEntries(d: Expando, key: string)
    ensures key in Keys(d) <==> exists i :: 0 <= i < |d| && d[i].0 == key
  {
    if d != [] {
      KeysAreEntries(d[1..], key);
      if key in Keys(d[1..]) {
        var i :| 0 <= i < |d[1..]| && d[1..][i].0 == key;
        assert d[i + 1].0 == key;
      }
      if exists i :: 0 <= i < |d| && d[i].0 == key {
        var i :| 0 <= i < |d| && d[i].0 == key;
        if i > 0 {
          assert d[1..][i - 1].0 == key;
        }
      }
    }
  }
}
