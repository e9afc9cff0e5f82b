/** Where the comparison of policies is equality of meaning itself: among values in which no
    object could be an array read as keyed by index. Every plain value outside this guard
    compares equal to one of another meaning. */
module StrictValues {
  import opened JsonText
  import opened OrderedMaps
  import opened Canonical
  import opened PolicyValues

  /** The keys are exactly the indices below the size; so are those of the empty object. */
  ghost predicate Indexed(ms: seq<Member>) {
    forall i :: 0 <= i < |ms| ==> IsIndexKey(ms[i].key, |ms|)
  }

  ghost predicate Strict(v: Json) {
    match v
    case JUndefined => false
    case JArray(xs) => forall i :: 0 <= i < |xs| ==> Strict(xs[i])
    case JObject(ms) =>
      && DistinctKeys(ms) && !Confusing(ms) && !Indexed(ms)
      && forall i :: 0 <= i < |ms| ==> Strict(ms[i].value)
    case _ => true
  }

  lemma {:induction false} StrictIsClear(v: Json)
    requires Strict(v)
    ensures Clear(v) && Plain(v)
  {
    match v {
      case JArray(xs) =>
        forall i | 0 <= i < |xs|
          ensures Clear(xs[i])
        {
          StrictIsClear(xs[i]);
        }
      case JObject(ms) =>
        forall i | 0 <= i < |ms|
          ensures Clear(ms[i].value)
        {
          StrictIsClear(ms[i].value);
        }
      case _ =>
    }
    ClearIsPlain(v);
  }

  lemma PlainObject(ms: seq<Member>)
    requires Plain(JObject(ms))
    ensures PlainMembers(ms) && forall i :: 0 <= i < |ms| ==> !ms[i].value.JUndefined?
  {
  }

  /** An object that compares equal to an array, either way, is one keyed by index. */
  lemma ArrayMeetsObject(xs: seq<Json>, ms: seq<Member>)
    requires Plain(JArray(xs)) && Plain(JObject(ms)) && DeepEqual(JArray(xs), JObject(ms))
    ensures Indexed(ms)
  {
    hide Plain;
    PlainObject(ms);
    KeysDiffer(ms);
    var indices := seq(|xs|, i requires 0 <= i < |xs| => NatText(i));
    forall i | 0 <= i < |xs|
      ensures NatText(i) in KeysOf(ms)
    {
      IndexIsOrdinary(i);
      assert !xs[i].JUndefined? by { ItemDefined(xs, i); }
      assert DeepEqual(xs[i], Read(JObject(ms), NatText(i)));
      UndefinedAlone(xs[i]);
    }
    forall i, j | 0 <= i < j < |indices|
      ensures indices[i] != indices[j]
    {
      IndexKeys(i, j);
    }
    KeysFillUp(indices, KeysOf(ms));
    forall i | 0 <= i < |ms|
      ensures IsIndexKey(ms[i].key, |ms|)
    {
      assert KeysOf(ms)[i] in indices;
    }
  }

  lemma ItemDefined(xs: seq<Json>, i: nat)
    requires Plain(JArray(xs)) && i < |xs|
    ensures !xs[i].JUndefined?
  {
  }

  lemma UndefinedAlone(v: Json)
    ensures DeepEqual(v, JUndefined) ==> v.JUndefined?
  {
  }

  lemma ObjectMeetsArray(ms: seq<Member>, xs: seq<Json>)
    requires Clear(JObject(ms)) && Plain(JArray(xs)) && DeepEqual(JObject(ms), JArray(xs))
    ensures Indexed(ms)
  {
    hide Plain, DeepEqual, Clear, Confusing;
    ClearIsPlain(JObject(ms));
    ClearEntries(JObject(ms));
    DeepByEntries(JObject(ms), JArray(xs));
    forall i | 0 <= i < |ms|
      ensures IsIndexKey(ms[i].key, |ms|)
    {
      assert Matched(ms[i], PolicyValues.Entries(JArray(xs)));
      MatchedIsOwn(ms[i], PolicyValues.Entries(JArray(xs)));
      OwnKey(PolicyValues.Entries(JArray(xs)), ms[i].key);
    }
  }

  lemma SameObjectsPlain(ms: seq<Member>, ns: seq<Member>)
    requires Plain(JObject(ms)) && Plain(JObject(ns))
    ensures Same(JObject(ms), JObject(ns)) <==> FoundBothWays(ms, ns)
  {
    hide Plain, FoundIn, FoundFrom;
    PlainObject(ms);
    PlainObject(ns);
    SameObjects(JObject(ms), JObject(ns));
  }

  lemma ObjectsCompare(ms: seq<Member>, ns: seq<Member>)
    requires Clear(JObject(ms)) && Plain(JObject(ns))
    requires forall i, j :: 0 <= i < |ms| && 0 <= j < |ns| ==>
               (DeepEqual(ms[i].value, ns[j].value) <==> Same(ms[i].value, ns[j].value))
    ensures DeepEqual(JObject(ms), JObject(ns)) <==> Same(JObject(ms), JObject(ns))
  {
    hide Plain, Clear, DeepEqual, Same, Confusing, FoundBothWays, AllMatched;
    ClearIsPlain(JObject(ms));
    ClearEntries(JObject(ms));
    PlainObject(ms);
    PlainObject(ns);
    DeepByEntries(JObject(ms), JObject(ns));
    SameObjectsPlain(ms, ns);
    assert Corresponds(ms, ns, ms, ns);
    FoundBothWaysIsMatched(ms, ns, ms, ns);
  }

  /** Among strict values the comparison is equality of meaning. */
  lemma {:induction false} StrictIsMeaning(a: Json, b: Json)
    requires Strict(a) && Strict(b)
    ensures DeepEqual(a, b) <==> Same(a, b)
    decreases a
  {
    StrictIsClear(a);
    StrictIsClear(b);
    match a
    case JArray(xs) =>
      if b.JArray? {
        forall i | 0 <= i < |xs| && |xs| == |b.items|
          ensures DeepEqual(xs[i], b.items[i]) <==> Same(xs[i], b.items[i])
        {
          StrictIsMeaning(xs[i], b.items[i]);
        }
      } else if b.JObject? && DeepEqual(a, b) {
        ArrayMeetsObject(xs, b.members);
      }
    case JObject(ms) =>
      if b.JObject? {
        forall i, j | 0 <= i < |ms| && 0 <= j < |b.members|
          ensures DeepEqual(ms[i].value, b.members[j].value) <==> Same(ms[i].value, b.members[j].value)
        {
          StrictIsMeaning(ms[i].value, b.members[j].value);
        }
        ObjectsCompare(ms, b.members);
      } else if b.JArray? && DeepEqual(a, b) {
        ObjectMeetsArray(ms, b.items);
      }
    case _ =>
  }

  // ------------------------------------------------- and nowhere else

  /** Equal meaning compares equal, on all plain values. */
  lemma {:induction false} MeaningIsDeep(a: Json, b: Json)
    requires Plain(a) && Plain(b) && Same(a, b)
    ensures DeepEqual(a, b)
    decreases a
  {
    match a
    case JArray(xs) =>
      forall i | 0 <= i < |xs|
        ensures DeepEqual(xs[i], b.items[i])
      {
        MeaningIsDeep(xs[i], b.items[i]);
      }
    case JObject(ms) =>
      var ns := b.members;
      PlainObject(ms);
      PlainObject(ns);
      SameObjectsPlain(ms, ns);
      forall i | 0 <= i < |ms|
        ensures Matched(ms[i], ns)
      {
        assert FoundIn(ms[i], ns);
        var j :| 0 <= j < |ns| && ns[j].key == ms[i].key && Same(ms[i].value, ns[j].value);
        MeaningIsDeep(ms[i].value, ns[j].value);
      }
      SameMembersCount(ms, ns);
      MatchedRead(a, b);
    case _ =>
  }

  lemma SameMembersCount(ms: seq<Member>, ns: seq<Member>)
    requires DistinctKeys(ms) && DistinctKeys(ns) && AllMatched(ms, ns) && FoundBothWays(ms, ns)
    ensures |ms| == |ns|
  {
    hide AllMatched, FoundBothWays, NoDuplicates;
    KeysDiffer(ms);
    KeysDiffer(ns);
    MatchedKeys(ms, ns);
    FoundFromKeys(ms, ns, ms, ns);
    KeysFillUp(KeysOf(ms), KeysOf(ns));
  }

  lemma {:induction false} PlainIsWellFormed(v: Json)
    requires Plain(v)
    ensures WellFormed(v)
  {
    match v
    case JArray(xs) =>
      forall i | 0 <= i < |xs|
        ensures WellFormed(xs[i])
      {
        PlainIsWellFormed(xs[i]);
      }
    case JObject(ms) =>
      forall i | 0 <= i < |ms|
        ensures WellFormed(ms[i].value)
      {
        PlainIsWellFormed(ms[i].value);
      }
    case _ =>
  }

  lemma MeaningSymmetric(a: Json, b: Json)
    requires Plain(a) && Plain(b) && Same(a, b)
    ensures Same(b, a)
  {
    hide Plain, Same, Canon, WellFormed;
    PlainIsWellFormed(a);
    PlainIsWellFormed(b);
    CanonDecidesMeaning(a, b);
    CanonDecidesMeaning(b, a);
  }

  /** Members keyed by index compare equal to the array of their values. */
  lemma IndexedIsArray(ms: seq<Member>)
    requires PlainMembers(ms) && Indexed(ms)
    ensures Plain(JArray(AsArray(ms))) && DeepEqual(JObject(ms), JArray(AsArray(ms)))
  {
    hide Plain, DeepEqual, Read, PlainMembers;
    var b := JArray(AsArray(ms));
    AsArrayPlain(ms);
    MembersPlain(ms);
    forall j | 0 <= j < |ms|
      ensures DeepEqual(ms[j].value, Read(b, ms[j].key))
    {
      assert IsIndexKey(ms[j].key, |ms|);
      var k :| 0 <= k < |ms| && NatText(k) == ms[j].key;
      IndexedRead(ms, b.items, j, k);
    }
    DeepByReads(JObject(ms), b);
  }

  /** An object with a member replaced by one of another meaning has another meaning. */
  lemma ReplacedMeaning(ms: seq<Member>, i: nat, c: Json)
    requires PlainMembers(ms) && i < |ms| && Plain(c) && DeepEqual(ms[i].value, c) && !Same(ms[i].value, c)
    ensures var b := JObject(ms[i := Member(ms[i].key, c)]);
            Plain(b) && DeepEqual(JObject(ms), b) && !Same(JObject(ms), b)
  {
    hide Plain, DeepEqual, Same, Read;
    var m := Member(ms[i].key, c);
    var ns := ms[i := m];
    forall j | 0 <= j < |ms| && j != i
      ensures ms[j].key != m.key
    {
      assert KeyOf(ms[j]) != KeyOf(ms[i]);
    }
    ReplacedReads(ms, i, m);
    MembersPlain(ms);
    DeepByReads(JObject(ms), JObject(ns));
    SameObjectsPlain(ms, ns);
    assert ns[i] == m;
    assert forall j :: 0 <= j < |ns| && j != i ==> ns[j] == ms[j] && ns[j].key != m.key;
    assert !FoundIn(ms[i], ns);
  }

  /** Every plain value that is not strict compares equal to one of another meaning. */
  lemma {:induction false} StrictTwin(a: Json) returns (b: Json)
    requires Plain(a) && !Strict(a)
    ensures Plain(b) && DeepEqual(a, b) && !Same(a, b)
    decreases a
  {
    if !Clear(a) {
      b := UnclearWitness(a);
      OneWayMeaning(a, b);
    } else {
      match a
      case JArray(xs) =>
        var i :| 0 <= i < |xs| && !Strict(xs[i]);
        var c := StrictTwin(xs[i]);
        b := JArray(xs[i := c]);
        forall j | 0 <= j < |xs| && j != i
          ensures DeepEqual(xs[j], xs[j])
        {
          Reflexive(xs[j]);
        }
        assert b.items[i] == c;
      case JObject(ms) =>
        if Indexed(ms) {
          IndexedIsArray(ms);
          b := JArray(AsArray(ms));
        } else {
          var i :| 0 <= i < |ms| && !Strict(ms[i].value);
          var c := StrictTwin(ms[i].value);
          b := JObject(ms[i := Member(ms[i].key, c)]);
          ReplacedMeaning(ms, i, c);
        }
    }
  }

  lemma OneWayMeaning(a: Json, b: Json)
    requires Plain(a) && Plain(b) && !DeepEqual(b, a)
    ensures !Same(a, b)
  {
    hide Plain, DeepEqual, Same;
    if Same(a, b) {
      MeaningSymmetric(a, b);
      MeaningIsDeep(b, a);
    }
  }
}
