/** PHP arrays as ordered maps: a sequence of key/value entries with distinct
    keys. Assigning to an existing key replaces its value in place; assigning
    to a new key appends the entry; `unset` removes it. */
module OrderedMaps {
  import opened Outcomes

  type OrderedMap<V> = seq<(string, V)>

  function Keys<V>(m: OrderedMap<V>): set<string>
  {
    if m == [] then {} else {m[0].0} + Keys(m[1..])
  }

  /** No key occurs twice, as in every PHP array. */
  predicate UniqueKeys<V>(m: OrderedMap<V>)
  {
    m == [] || (m[0].0 !in Keys(m[1..]) && UniqueKeys(m[1..]))
  }

  /** The key sequence, in entry order. */
  function KeyOrder<V>(m: OrderedMap<V>): (ks: seq<string>)
    ensures |ks| == |m|
  {
    if m == [] then [] else [m[0].0] + KeyOrder(m[1..])
  }

  /** `$m[$k]` when `array_key_exists($k, $m)`, else `None`. */
  function Lookup<V>(m: OrderedMap<V>, k: string): (r: Option<V>)
    ensures r.None? <==> k !in Keys(m)
    ensures r.Some? ==> (k, r.value) in m
  {
    if m == [] then None
    else if m[0].0 == k then Some(m[0].1)
    else Lookup(m[1..], k)
  }

  /** `$m[$k] = $v`. */
  function Put<V>(m: OrderedMap<V>, k: string, v: V): (r: OrderedMap<V>)
    ensures Lookup(r, k) == Some(v)
    ensures forall k' :: k' != k ==> Lookup(r, k') == Lookup(m, k')
    ensures Keys(r) == Keys(m) + {k}
    ensures UniqueKeys(m) ==> UniqueKeys(r)
    ensures k in Keys(m) ==> KeyOrder(r) == KeyOrder(m)
    ensures k !in Keys(m) ==> r == m + [(k, v)]
  {
    if m == [] then [(k, v)]
    else if m[0].0 == k then [(k, v)] + m[1..]
    else [m[0]] + Put(m[1..], k, v)
  }

  /** `unset($m[$k])`. */
  function Remove<V>(m: OrderedMap<V>, k: string): (r: OrderedMap<V>)
    ensures Lookup(r, k) == None
    ensures forall k' :: k' != k ==> Lookup(r, k') == Lookup(m, k')
    ensures Keys(r) == Keys(m) - {k}
    ensures UniqueKeys(m) ==> UniqueKeys(r)
    ensures k !in Keys(m) ==> r == m
  {
    if m == [] then []
    else if m[0].0 == k then Remove(m[1..], k)
    else [m[0]] + Remove(m[1..], k)
  }

  /** Removing a key present once cuts out its entry and keeps every other
      entry in its place, in order. */
  lemma {:induction false} RemoveCutsEntry<V>(m: OrderedMap<V>, k: string)
    requires UniqueKeys(m) && k in Keys(m)
    ensures exists i :: 0 <= i < |m| && m[i].0 == k && Remove(m, k) == m[..i] + m[i + 1..]
  {
    if m[0].0 == k {
      assert k !in Keys(m[1..]);
      assert Remove(m, k) == m[..0] + m[0 + 1..];
    } else {
      var tail := m[1..];
      assert k in Keys(tail) && UniqueKeys(tail);
      assert Remove(m, k) == [m[0]] + Remove(tail, k);
      RemoveCutsEntry(tail, k);
      var j :| 0 <= j < |tail| && tail[j].0 == k && Remove(tail, k) == tail[..j] + tail[j + 1..];
      CutShift(m, j);
      assert m[j + 1].0 == k;
    }
  }

  /** Consing the head back onto a cut tail is the cut of the whole map. */
  lemma CutShift<V>(m: OrderedMap<V>, j: nat)
    requires j + 1 < |m|
    ensures [m[0]] + (m[1..][..j] + m[1..][j + 1..]) == m[..j + 1] + m[j + 1 + 1..]
  {
    assert [m[0]] + m[1..][..j] == m[..j + 1];
    assert m[1..][j + 1..] == m[j + 2..];
  }

  lemma {:induction false} KeyAt<V>(m: OrderedMap<V>, i: nat)
    requires i < |m|
    ensures m[i].0 in Keys(m)
  {
    if i > 0 {
      KeyAt(m[1..], i - 1);
    }
  }

  lemma {:induction false} UniqueKeysDistinct<V>(m: OrderedMap<V>, i: nat, j: nat)
    requires UniqueKeys(m) && i < j < |m|
    ensures m[i].0 != m[j].0
  {
    if i == 0 {
      KeyAt(m[1..], j - 1);
    } else {
      UniqueKeysDistinct(m[1..], i - 1, j - 1);
    }
  }
}
