/** The text that names a record's registered public keys, and that it changes
    exactly when the multiset of stripped keys does. */
module PublicKeys {
  import opened Text
  import opened Sorting
  import opened Canonical

  function KeyTexts(keys: seq<Json>, strip: Json -> Json): (r: seq<Str>)
    ensures |r| == |keys| && forall i :: 0 <= i < |keys| ==> r[i] == Canon(strip(keys[i]))
  {
    seq(|keys|, i requires 0 <= i < |keys| => Canon(strip(keys[i])))
  }

  function Strings(ts: seq<Str>): (r: seq<Json>)
    ensures |r| == |ts| && forall i :: 0 <= i < |ts| ==> r[i] == JString(ts[i])
  {
    seq(|ts|, i requires 0 <= i < |ts| => JString(ts[i]))
  }

  function PublicKeysText(keys: seq<Json>, strip: Json -> Json): Str {
    Canon(JArray(Strings(Sort(KeyTexts(keys, strip), AtMost))))
  }

  /** How many of the keys, stripped, have the meaning v. */
  ghost function Count(keys: seq<Json>, strip: Json -> Json, v: Json): nat {
    if keys == [] then 0
    else Count(keys[..|keys| - 1], strip, v) + if Same(strip(keys[|keys| - 1]), v) then 1 else 0
  }

  lemma SortedTextsUnique(s: seq<Str>, t: seq<Str>)
    ensures Sort(s, AtMost) == Sort(t, AtMost) <==> multiset(s) == multiset(t)
  {
    SortPermutes(s, AtMost);
    SortPermutes(t, AtMost);
    if multiset(s) == multiset(t) {
      KeyOrderTotal((t: Str) => t, AtMost);
      SortSorted(s, AtMost);
      SortSorted(t, AtMost);
      var u := Sort(s, AtMost);
      forall i, j | 0 <= i < |u| && 0 <= j < |u| && AtMost(u[i], u[j]) && AtMost(u[j], u[i])
        ensures u[i] == u[j]
      {
        AtMostAntisymmetric(u[i], u[j]);
      }
      SortedUnique(u, Sort(t, AtMost), AtMost);
    }
  }

  lemma StringListInjective(s: seq<Str>, t: seq<Str>)
    requires Canon(JArray(Strings(s))) == Canon(JArray(Strings(t)))
    ensures s == t
  {
    CanonInjective(JArray(Strings(s)), JArray(Strings(t)));
    assert |Strings(s)| == |Strings(t)|;
    forall i | 0 <= i < |s|
      ensures s[i] == t[i]
    {
      assert Same(Strings(s)[i], Strings(t)[i]);
    }
  }

  ghost predicate StripsWell(keys: seq<Json>, strip: Json -> Json) {
    forall i :: 0 <= i < |keys| ==> WellFormed(strip(keys[i]))
  }

  lemma {:induction false} CountIsMultiplicity(keys: seq<Json>, strip: Json -> Json, v: Json)
    requires StripsWell(keys, strip) && WellFormed(v)
    ensures Count(keys, strip, v) == multiset(KeyTexts(keys, strip))[Canon(v)]
  {
    hide Canon, Same, WellFormed;
    if keys != [] {
      var n := |keys| - 1;
      CountIsMultiplicity(keys[..n], strip, v);
      CanonDecidesMeaning(strip(keys[n]), v);
      assert KeyTexts(keys, strip) == KeyTexts(keys[..n], strip) + [Canon(strip(keys[n]))];
    }
  }

  ghost predicate SameCounts(k1: seq<Json>, k2: seq<Json>, strip: Json -> Json) {
    forall v :: WellFormed(v) ==> Count(k1, strip, v) == Count(k2, strip, v)
  }

  lemma SameCountsSameTexts(k1: seq<Json>, k2: seq<Json>, strip: Json -> Json)
    requires StripsWell(k1, strip) && StripsWell(k2, strip)
    ensures SameCounts(k1, k2, strip) <==> multiset(KeyTexts(k1, strip)) == multiset(KeyTexts(k2, strip))
  {
    hide Canon, Same, WellFormed, Count;
    var t1, t2 := KeyTexts(k1, strip), KeyTexts(k2, strip);
    if SameCounts(k1, k2, strip) {
      forall t
        ensures multiset(t1)[t] == multiset(t2)[t]
      {
        if t in t1 {
          var i :| 0 <= i < |t1| && t1[i] == t;
          SameMultiplicity(k1, k2, strip, strip(k1[i]));
        } else if t in t2 {
          var i :| 0 <= i < |t2| && t2[i] == t;
          SameMultiplicity(k1, k2, strip, strip(k2[i]));
        }
      }
    }
    if multiset(t1) == multiset(t2) {
      forall v | WellFormed(v)
        ensures Count(k1, strip, v) == Count(k2, strip, v)
      {
        CountIsMultiplicity(k1, strip, v);
        CountIsMultiplicity(k2, strip, v);
      }
    }
  }

  /** Key texts agree exactly when every key occurs equally often, up to meaning. */
  lemma PublicKeysDecideMultiset(k1: seq<Json>, k2: seq<Json>, strip: Json -> Json)
    requires StripsWell(k1, strip) && StripsWell(k2, strip)
    ensures PublicKeysText(k1, strip) == PublicKeysText(k2, strip) <==> SameCounts(k1, k2, strip)
  {
    hide Canon, SameCounts, Sort;
    var t1, t2 := KeyTexts(k1, strip), KeyTexts(k2, strip);
    SortedTextsUnique(t1, t2);
    SameCountsSameTexts(k1, k2, strip);
    if PublicKeysText(k1, strip) == PublicKeysText(k2, strip) {
      StringListInjective(Sort(t1, AtMost), Sort(t2, AtMost));
    }
  }

  lemma SameMultiplicity(k1: seq<Json>, k2: seq<Json>, strip: Json -> Json, v: Json)
    requires StripsWell(k1, strip) && StripsWell(k2, strip) && WellFormed(v)
    requires Count(k1, strip, v) == Count(k2, strip, v)
    ensures multiset(KeyTexts(k1, strip))[Canon(v)] == multiset(KeyTexts(k2, strip))[Canon(v)]
  {
    CountIsMultiplicity(k1, strip, v);
    CountIsMultiplicity(k2, strip, v);
  }
}
