/** A stable sort by an arbitrary comparison, as `Array.prototype.sort` is one,
    with the facts the listings need: it permutes, it orders, and the result is
    the only ordered arrangement when the comparison is antisymmetric. */
module Sorting {
  import opened Text

  ghost predicate TotalPreorder<T(!new)>(le: (T, T) -> bool) {
    && (forall a, b :: le(a, b) || le(b, a))
    && (forall a, b, c :: le(a, b) && le(b, c) ==> le(a, c))
  }

  ghost predicate Sorted<T>(s: seq<T>, le: (T, T) -> bool) {
    forall i, j :: 0 <= i < j < |s| ==> le(s[i], s[j])
  }

  function Insert<T>(x: T, s: seq<T>, le: (T, T) -> bool): seq<T> {
    if s == [] then [x]
    else if le(x, s[0]) then [x] + s
    else [s[0]] + Insert(x, s[1..], le)
  }

  function Sort<T>(s: seq<T>, le: (T, T) -> bool): seq<T> {
    if s == [] then [] else Insert(s[0], Sort(s[1..], le), le)
  }

  lemma ConsMultiset<T>(x: T, s: seq<T>)
    ensures multiset([x] + s) == multiset(s) + multiset{x}
  {
  }

  lemma {:induction false} InsertPermutes<T>(x: T, s: seq<T>, le: (T, T) -> bool)
    ensures multiset(Insert(x, s, le)) == multiset(s) + multiset{x}
  {
    if s == [] || le(x, s[0]) {
      ConsMultiset(x, s);
      assert s == [] ==> [x] + s == [x];
    } else {
      InsertPermutes(x, s[1..], le);
      ConsMultiset(s[0], Insert(x, s[1..], le));
      ConsMultiset(s[0], s[1..]);
      assert s == [s[0]] + s[1..];
    }
  }

  lemma {:induction false} InsertSorted<T(!new)>(x: T, s: seq<T>, le: (T, T) -> bool)
    requires TotalPreorder(le) && Sorted(s, le)
    ensures Sorted(Insert(x, s, le), le)
  {
    if s != [] && !le(x, s[0]) {
      InsertSorted(x, s[1..], le);
      InsertPermutes(x, s[1..], le);
      var r := Insert(x, s[1..], le);
      forall i | 0 <= i < |r|
        ensures le(s[0], r[i])
      {
        assert r[i] in multiset(r);
        assert r[i] == x || r[i] in s[1..];
      }
    }
  }

  lemma {:induction false} SortPermutesMultiset<T>(s: seq<T>, le: (T, T) -> bool)
    ensures multiset(Sort(s, le)) == multiset(s)
  {
    if s != [] {
      SortPermutesMultiset(s[1..], le);
      InsertPermutes(s[0], Sort(s[1..], le), le);
      assert s == [s[0]] + s[1..];
    }
  }

  lemma SortPermutes<T(!new)>(s: seq<T>, le: (T, T) -> bool)
    ensures multiset(Sort(s, le)) == multiset(s)
    ensures |Sort(s, le)| == |s|
    ensures forall x :: x in Sort(s, le) <==> x in s
  {
    SortPermutesMultiset(s, le);
    var t := Sort(s, le);
    hide Sort;
    assert |multiset(t)| == |t| && |multiset(s)| == |s|;
    assert forall x :: x in t <==> x in multiset(t);
    assert forall x :: x in s <==> x in multiset(s);
  }

  lemma {:induction false} SortSorted<T(!new)>(s: seq<T>, le: (T, T) -> bool)
    requires TotalPreorder(le)
    ensures Sorted(Sort(s, le), le)
  {
    if s != [] {
      SortSorted(s[1..], le);
      InsertSorted(s[0], Sort(s[1..], le), le);
    }
  }

  ghost predicate TiesEqual<T>(s: seq<T>, le: (T, T) -> bool) {
    forall i, j :: 0 <= i < |s| && 0 <= j < |s| && le(s[i], s[j]) && le(s[j], s[i]) ==> s[i] == s[j]
  }

  /** Two ordered arrangements of one multiset agree where ties are only between equals. */
  lemma {:induction false} SortedUnique<T>(s: seq<T>, t: seq<T>, le: (T, T) -> bool)
    requires Sorted(s, le) && Sorted(t, le) && multiset(s) == multiset(t) && TiesEqual(s, le)
    ensures s == t
  {
    hide Sorted, TiesEqual;
    assert |multiset(s)| == |s| && |multiset(t)| == |t|;
    if s != [] {
      SameFirst(s, t, le);
      RestMultiset(s);
      RestMultiset(t);
      RestSorted(s, le);
      RestSorted(t, le);
      SortedUnique(s[1..], t[1..], le);
      assert s == [s[0]] + s[1..] && t == [t[0]] + t[1..];
    }
  }

  lemma RestSorted<T>(s: seq<T>, le: (T, T) -> bool)
    requires s != [] && Sorted(s, le)
    ensures Sorted(s[1..], le) && (TiesEqual(s, le) ==> TiesEqual(s[1..], le))
  {
  }

  lemma RestMultiset<T>(s: seq<T>)
    requires s != []
    ensures multiset(s[1..]) == multiset(s) - multiset{s[0]}
  {
    assert s == [s[0]] + s[1..];
  }

  lemma SameFirst<T>(s: seq<T>, t: seq<T>, le: (T, T) -> bool)
    requires Sorted(s, le) && Sorted(t, le) && multiset(s) == multiset(t) && s != [] && t != [] && TiesEqual(s, le)
    ensures s[0] == t[0]
  {
    assert s[0] in multiset(t) && t[0] in multiset(s);
    var i :| 0 <= i < |t| && t[i] == s[0];
    var j :| 0 <= j < |s| && s[j] == t[0];
  }

  ghost predicate DistinctBy<T, K>(s: seq<T>, key: T -> K) {
    forall i, j :: 0 <= i < j < |s| ==> key(s[i]) != key(s[j])
  }

  lemma TwiceInMultiset<T>(s: seq<T>, i: nat, j: nat)
    requires i < j < |s| && s[i] == s[j]
    ensures multiset(s)[s[i]] >= 2
  {
    assert s == s[..j] + [s[j]] + s[j + 1..];
    assert s[i] in s[..j];
  }

  lemma {:induction false} OnceInMultiset<T, K>(s: seq<T>, key: T -> K, x: T)
    requires DistinctBy(s, key)
    ensures multiset(s)[x] <= 1
  {
    if s != [] {
      assert s == [s[0]] + s[1..];
      OnceInMultiset(s[1..], key, x);
      assert s[0] !in s[1..];
    }
  }

  /** Sorting keeps keys distinct. */
  lemma SortDistinct<T(!new), K>(s: seq<T>, le: (T, T) -> bool, key: T -> K)
    requires DistinctBy(s, key)
    ensures DistinctBy(Sort(s, le), key)
  {
    hide Sort;
    var t := Sort(s, le);
    SortPermutes(s, le);
    forall i, j | 0 <= i < j < |t|
      ensures key(t[i]) != key(t[j])
    {
      assert t[i] in s && t[j] in s;
      OnceInMultiset(s, key, t[i]);
      if t[i] == t[j] {
        TwiceInMultiset(t, i, j);
      }
    }
  }

  /** The comparison is the one of strings on a key. */
  ghost predicate ComparesKeys<T(!new)>(key: T -> Str, le: (T, T) -> bool) {
    forall a, b :: le(a, b) <==> AtMost(key(a), key(b))
  }

  lemma KeyOrderTotal<T(!new)>(key: T -> Str, le: (T, T) -> bool)
    requires ComparesKeys(key, le)
    ensures TotalPreorder(le)
  {
    hide Less;
    forall a, b
      ensures le(a, b) || le(b, a)
    {
      if Less(key(a), key(b)) {
        LessAsymmetric(key(a), key(b));
      }
    }
    forall a, b, c | le(a, b) && le(b, c)
      ensures le(a, c)
    {
      AtMostTransitive(key(a), key(b), key(c));
    }
  }

  /** Sorting rows with distinct keys by key makes the keys strictly increase. */
  lemma SortAscends<T(!new)>(s: seq<T>, key: T -> Str, le: (T, T) -> bool, t: seq<T>)
    requires ComparesKeys(key, le) && DistinctBy(s, key) && t == Sort(s, le)
    ensures forall i, j :: 0 <= i < j < |t| ==> Less(key(t[i]), key(t[j]))
  {
    hide Sort, Less;
    KeyOrderTotal(key, le);
    SortSorted(s, le);
    SortDistinct(s, le, key);
    forall i, j | 0 <= i < j < |t|
      ensures Less(key(t[i]), key(t[j]))
    {
      assert le(t[i], t[j]) && key(t[i]) != key(t[j]);
      LessTotal(key(t[i]), key(t[j]));
    }
  }
}
