/**
  The JavaScript `Map` as the scroll spy uses it: a list of key/value pairs
  in insertion order. `set` on a key that is present replaces its value and
  keeps its place; `set` on a new key appends; `delete` removes the key.
  Keys are element ids (see ScrollSpy).
 */
module InsertionMap {
  import opened JsBuiltins

  type Entries<V> = seq<(string, V)>

  /** The keys in iteration order. */
  function Keys<V>(m: Entries<V>): (ks: seq<string>)
    ensures |ks| == |m|
    ensures forall i :: 0 <= i < |m| ==> ks[i] == m[i].0
  {
    if |m| == 0 then [] else [m[0].0] + Keys(m[1..])
  }

  /** No key occurs twice: the first key does not recur, and the rest is distinct. */
  predicate KeysDistinct<V>(m: Entries<V>) {
    |m| == 0 || (m[0].0 !in Keys(m[1..]) && KeysDistinct(m[1..]))
  }

  /** `map.get(k)`, `undefined` when absent. */
  function Get<V>(m: Entries<V>, k: string): Option<V> {
    if |m| == 0 then None
    else if m[0].0 == k then Some(m[0].1)
    else Get(m[1..], k)
  }

  /** `get` finds exactly the keys the map iterates over. */
  lemma {:induction false} GetIffKey<V>(m: Entries<V>, k: string)
    ensures Get(m, k).Some? <==> k in Keys(m)
  {
    if |m| > 0 {
      GetIffKey(m[1..], k);
      assert Keys(m) == [m[0].0] + Keys(m[1..]);
    }
  }

  /** `map.set(k, v)` */
  function Set<V>(m: Entries<V>, k: string, v: V): (r: Entries<V>)
    ensures Get(r, k) == Some(v)
    ensures forall k' :: k' != k ==> Get(r, k') == Get(m, k')
    ensures Get(m, k).Some? ==> Keys(r) == Keys(m)
    ensures Get(m, k).None? ==> Keys(r) == Keys(m) + [k]
    ensures KeysDistinct(m) ==> KeysDistinct(r)
  {
    if |m| == 0 then [(k, v)]
    else if m[0].0 == k then
      assert Keys([(k, v)] + m[1..]) == [k] + Keys(m[1..]);
      [(k, v)] + m[1..]
    else
      var rest := Set(m[1..], k, v);
      GetIffKey(m[1..], k);
      assert Keys([m[0]] + rest) == [m[0].0] + Keys(rest);
      assert Keys(m) == [m[0].0] + Keys(m[1..]);
      [m[0]] + rest
  }

  /** `ks` with every occurrence of `k` left out, the others in their order. */
  function Without(ks: seq<string>, k: string): seq<string> {
    if |ks| == 0 then []
    else if ks[0] == k then Without(ks[1..], k)
    else [ks[0]] + Without(ks[1..], k)
  }

  /** `map.delete(k)`: the remaining entries keep their values and their iteration order. */
  function Delete<V>(m: Entries<V>, k: string): (r: Entries<V>)
    ensures Get(r, k) == None
    ensures forall k' :: k' != k ==> Get(r, k') == Get(m, k')
    ensures forall k' :: k' in Keys(r) <==> k' in Keys(m) && k' != k
    ensures Keys(r) == Without(Keys(m), k)
    ensures KeysDistinct(m) ==> KeysDistinct(r)
  {
    if |m| == 0 then []
    else if m[0].0 == k then
      assert Keys(m) == [m[0].0] + Keys(m[1..]);
      Delete(m[1..], k)
    else
      var rest := Delete(m[1..], k);
      assert Keys([m[0]] + rest) == [m[0].0] + Keys(rest);
      assert Keys(m) == [m[0].0] + Keys(m[1..]);
      [m[0]] + rest
  }

  /** A key found at some position is one that `get` finds, with that position's value when keys are distinct. */
  lemma {:induction false} GetAtIndex<V>(m: Entries<V>, i: nat)
    requires i < |m|
    ensures Get(m, m[i].0).Some?
    ensures KeysDistinct(m) ==> Get(m, m[i].0) == Some(m[i].1)
  {
    if i > 0 {
      GetAtIndex(m[1..], i - 1);
      if KeysDistinct(m) {
        assert m[i].0 == Keys(m[1..])[i - 1];
      }
    }
  }
}
