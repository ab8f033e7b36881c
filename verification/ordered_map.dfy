/** Insertion-ordered mappings, as Python's `dict` keeps them: a sequence of
    key/value pairs in the order the keys were first inserted. */
module OrderedMap {
  import opened Wrappers

  function Keys<K, V>(m: seq<(K, V)>): seq<K> {
    seq(|m|, i requires 0 <= i < |m| => m[i].0)
  }

  predicate Distinct<K(==)>(s: seq<K>) {
    forall i, j :: 0 <= i < j < |s| ==> s[i] != s[j]
  }

  /** No key is stored twice: the shape every Python `dict` has. */
  predicate DistinctKeys<K(==), V>(m: seq<(K, V)>) {
    Distinct(Keys(m))
  }

  lemma DistinctAppend<K>(s: seq<K>, k: K)
    requires Distinct(s) && k !in s
    ensures Distinct(s + [k])
  {
    var t := s + [k];
    forall i, j | 0 <= i < j < |t| ensures t[i] != t[j] {
      if j == |s| { assert t[i] == s[i]; }
    }
  }

  /** `d.get(k)`: the value stored under the first entry with key `k`. */
  function Get<K(==), V>(m: seq<(K, V)>, k: K): (r: Option<V>)
    ensures r.Some? <==> k in Keys(m)
    ensures r.Some? ==> exists i :: 0 <= i < |m| && m[i] == (k, r.value)
  {
    if m == [] then None
    else if m[0].0 == k then
      assert Keys(m)[0] == k;
      Some(m[0].1)
    else
      assert Keys(m) == [m[0].0] + Keys(m[1..]);
      var r := Get(m[1..], k);
      r
  }

  /** `d[k] = v`: an existing key keeps its position and takes the new value;
      a new key goes to the end. */
  function Put<K(==,!new), V>(m: seq<(K, V)>, k: K, v: V): (r: seq<(K, V)>)
    ensures Get(r, k) == Some(v)
    ensures forall k' :: k' != k ==> Get(r, k') == Get(m, k')
    ensures Keys(r) == if k in Keys(m) then Keys(m) else Keys(m) + [k]
    ensures DistinctKeys(m) ==> DistinctKeys(r)
  {
    var r := PutEntry(m, k, v);
    PutEntryGetAll(m, k, v);
    assert DistinctKeys(m) ==> DistinctKeys(r) by {
      if DistinctKeys(m) && k !in Keys(m) {
        DistinctAppend(Keys(m), k);
      }
    }
    r
  }

  lemma KeysCons<K, V>(x: (K, V), rest: seq<(K, V)>)
    ensures Keys([x] + rest) == [x.0] + Keys(rest)
  {
  }

  function PutEntry<K(==), V>(m: seq<(K, V)>, k: K, v: V): (r: seq<(K, V)>)
    ensures Keys(r) == if k in Keys(m) then Keys(m) else Keys(m) + [k]
  {
    if m == [] then
      KeysCons((k, v), []);
      [(k, v)]
    else
      assert m == [m[0]] + m[1..];
      KeysCons(m[0], m[1..]);
      if m[0].0 == k then
        KeysCons((k, v), m[1..]);
        [(k, v)] + m[1..]
      else
        var rest := PutEntry(m[1..], k, v);
        KeysCons(m[0], rest);
        [m[0]] + rest
  }

  lemma {:induction false} PutEntryGet<K, V>(m: seq<(K, V)>, k: K, v: V, k': K)
    ensures Get(PutEntry(m, k, v), k') == if k' == k then Some(v) else Get(m, k')
  {
    var r := PutEntry(m, k, v);
    if m != [] {
      if m[0].0 == k {
        assert r[1..] == m[1..];
      } else {
        assert r[1..] == PutEntry(m[1..], k, v);
        PutEntryGet(m[1..], k, v, k');
      }
    }
  }

  lemma PutEntryGetAll<K(!new), V>(m: seq<(K, V)>, k: K, v: V)
    ensures forall k' :: Get(PutEntry(m, k, v), k') == if k' == k then Some(v) else Get(m, k')
  {
    forall k' ensures Get(PutEntry(m, k, v), k') == if k' == k then Some(v) else Get(m, k') {
      PutEntryGet(m, k, v, k');
    }
  }

  /** Assigning a key not yet present appends it. */
  lemma {:induction false} PutNew<K(!new), V>(m: seq<(K, V)>, k: K, v: V)
    requires k !in Keys(m)
    ensures Put(m, k, v) == m + [(k, v)]
  {
    PutEntryNew(m, k, v);
  }

  lemma {:induction false} PutEntryNew<K, V>(m: seq<(K, V)>, k: K, v: V)
    requires k !in Keys(m)
    ensures PutEntry(m, k, v) == m + [(k, v)]
  {
    if m != [] {
      assert Keys(m)[0] == m[0].0;
      assert Keys(m[1..]) == Keys(m)[1..];
      PutEntryNew(m[1..], k, v);
      assert m == [m[0]] + m[1..];
    }
  }

  /** Looking a key up in a concatenation finds it in the first part when
      it is there. */
  lemma {:induction false} GetAppend<K, V>(a: seq<(K, V)>, b: seq<(K, V)>, k: K)
    ensures Get(a + b, k) == if k in Keys(a) then Get(a, k) else Get(b, k)
  {
    if a == [] {
      assert a + b == b;
    } else {
      assert (a + b)[0] == a[0];
      assert (a + b)[1..] == a[1..] + b;
      assert Keys(a) == [a[0].0] + Keys(a[1..]);
      GetAppend(a[1..], b, k);
    }
  }
}
