/** The `Map` of the language: a dictionary that remembers insertion order.
    Overwriting a key keeps its place; deleting and setting again moves it last. */
module OrderedMaps {
  datatype Entries<K(==, !new), V> = OMap(order: seq<K>, at: map<K, V>)

  type OMap<K(==, !new), V> = m: Entries<K, V> | Valid(m) witness OMap([], map[])

  ghost predicate NoDuplicates<T>(s: seq<T>) {
    forall i, j :: 0 <= i < j < |s| ==> s[i] != s[j]
  }

  ghost predicate Valid<K(!new), V>(m: Entries<K, V>) {
    && NoDuplicates(m.order)
    && forall k :: k in m.order <==> k in m.at
  }

  function Empty<K(!new), V>(): OMap<K, V> {
    OMap([], map[])
  }

  function Without<T(==)>(s: seq<T>, x: T): seq<T> {
    if s == [] then [] else if s[0] == x then Without(s[1..], x) else [s[0]] + Without(s[1..], x)
  }

  function Put<K(!new), V>(m: OMap<K, V>, k: K, v: V): (r: OMap<K, V>)
    ensures r.at == m.at[k := v]
  {
    OMap(if k in m.at then m.order else m.order + [k], m.at[k := v])
  }

  function Remove<K(!new), V>(m: OMap<K, V>, k: K): (r: OMap<K, V>)
    ensures forall j :: j in r.at <==> j in m.at && j != k
    ensures forall j :: j in r.at ==> r.at[j] == m.at[j]
  {
    WithoutMembers(m.order, k);
    OMap(Without(m.order, k), map j | j in m.at && j != k :: m.at[j])
  }

  /** The values in iteration order. */
  function Values<K(!new), V>(m: OMap<K, V>): (s: seq<V>)
    ensures |s| == |m.order| && forall i :: 0 <= i < |s| ==> m.order[i] in m.at && s[i] == m.at[m.order[i]]
  {
    seq(|m.order|, i requires 0 <= i < |m.order| => m.at[m.order[i]])
  }

  lemma {:induction false} WithoutMembers<T(!new)>(s: seq<T>, x: T)
    ensures forall y :: y in Without(s, x) <==> y in s && y != x
    ensures NoDuplicates(s) ==> NoDuplicates(Without(s, x))
    ensures x !in s ==> Without(s, x) == s
  {
    if s != [] {
      WithoutMembers(s[1..], x);
      assert s == [s[0]] + s[1..];
      assert NoDuplicates(s) ==> NoDuplicates(s[1..]) && s[0] !in s[1..];
    }
  }

  /** The size of the map is the length of its order. */
  lemma {:induction false} OrderSize<T(!new)>(s: seq<T>, keys: set<T>)
    requires NoDuplicates(s) && forall x :: x in s <==> x in keys
    ensures |s| == |keys|
  {
    if s == [] {
      assert keys == {};
    } else {
      assert s == [s[0]] + s[1..];
      OrderSize(s[1..], keys - {s[0]});
    }
  }

  lemma Size<K(!new), V>(m: OMap<K, V>)
    ensures |m.order| == |m.at|
  {
    assert forall k :: k in m.order <==> k in m.at.Keys;
    OrderSize(m.order, m.at.Keys);
  }

  lemma ValuesMembers<K(!new), V>(m: OMap<K, V>, v: V)
    ensures v in Values(m) <==> exists k :: k in m.at && m.at[k] == v
  {
    if v in Values(m) {
      var i :| 0 <= i < |Values(m)| && Values(m)[i] == v;
      assert m.order[i] in m.at;
    }
    if k :| k in m.at && m.at[k] == v {
      assert k in m.order;
      var i :| 0 <= i < |m.order| && m.order[i] == k;
      assert Values(m)[i] == v;
    }
  }

  lemma SubsetSize<T>(a: set<T>, b: set<T>)
    requires a <= b
    ensures |a| <= |b|
  {
    assert b == a + (b - a);
  }
}
