/**
 * Lookups shared by the session registries: `Array.prototype.find`, `findIndex` and
 * `some` over the keys (tokens or e-mail addresses) of a registry's entries, and the
 * distinctness of tokens that the registries keep.
 */
module Registry {
  import opened Outcomes

  /** The index of the first occurrence of `key` (what `findIndex` returns, with None for -1). */
  function FirstIndex(keys: seq<string>, key: string): (r: Option<nat>)
    ensures r.Some? <==> key in keys
    ensures r.Some? ==> r.value < |keys| && keys[r.value] == key && key !in keys[..r.value]
  {
    if keys == [] then None
    else if keys[0] == key then Some(0)
    else
      match FirstIndex(keys[1..], key)
      case None => None
      case Some(i) =>
        assert keys[..i + 1] == [keys[0]] + keys[1..][..i];
        Some(i + 1)
  }

  /** No key occurs twice. */
  predicate Distinct(keys: seq<string>)
  {
    forall i, j :: 0 <= i < j < |keys| ==> keys[i] != keys[j]
  }

  /** The first occurrence is the only index holding the key before it: a match at `i` with none earlier is the first. */
  lemma FirstIndexAt(keys: seq<string>, key: string, i: nat)
    requires i < |keys| && keys[i] == key
    requires forall j :: 0 <= j < i ==> keys[j] != key
    ensures FirstIndex(keys, key) == Some(i)
  {
  }

  /** With distinct keys, each key is found at its own index. */
  lemma DistinctIndex(keys: seq<string>, i: nat)
    requires Distinct(keys) && i < |keys|
    ensures FirstIndex(keys, keys[i]) == Some(i)
  {
    FirstIndexAt(keys, keys[i], i);
  }

  /** A key new to the registry, appended at the end, is found at the end. */
  lemma FirstIndexOfAppended(keys: seq<string>, key: string)
    requires key !in keys
    ensures FirstIndex(keys + [key], key) == Some(|keys|)
    ensures Distinct(keys) ==> Distinct(keys + [key])
  {
    FirstIndexAt(keys + [key], key, |keys|);
  }

  /** Nothing before the first occurrence holds the key, so cutting there removes every trace of it up to that point. */
  lemma FirstIndexPrefix(keys: seq<string>, key: string, i: nat)
    requires FirstIndex(keys, key) == Some(i)
    ensures FirstIndex(keys[..i], key) == None
  {
  }
}
