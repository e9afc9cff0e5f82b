/** The law of metadata policies with demands measured by meaning: on strict values no
    subordinate loosens what a superior demands, and every plain value outside the guard has a
    chain on which one does. */
module PolicyLaw {
  import opened Options
  import opened Canonical
  import opened PolicyValues
  import opened StrictValues
  import opened MetadataPolicy

  // ------------------------------------------------- demands by meaning

  /** The array has an item of this meaning. */
  ghost predicate Holds(arr: seq<Json>, x: Json) {
    exists i :: 0 <= i < |arr| && Same(x, arr[i])
  }

  ghost predicate Within(a: seq<Json>, b: seq<Json>) {
    forall i :: 0 <= i < |a| ==> Holds(b, a[i])
  }

  /** What an operator demands of the parameter, with no reference to how the code compares;
      checks let an absent parameter pass. */
  ghost predicate Demands(op: Operator, v: Json, r: Json) {
    match op
    case Value => if v.JNull? then r.JUndefined? else Same(r, v)
    case Add => r.JArray? && Within(Items(v), r.items)
    case Default => !r.JUndefined?
    case OneOf => r.JUndefined? || Holds(Items(v), r)
    case SubsetOf => r.JUndefined? || (r.JArray? && Within(r.items, Items(v)))
    case SupersetOf => r.JUndefined? || (r.JArray? && Within(Items(v), r.items))
    case Essential => v == JBool(true) ==> !r.JUndefined?
  }

  ghost predicate Grants(p: Policy, r: Json) {
    forall op :: op in p ==> Demands(op, p[op], r)
  }

  // ------------------------------------------------- strict values

  ghost predicate StrictAll(arr: seq<Json>) {
    forall i :: 0 <= i < |arr| ==> Strict(arr[i])
  }

  ghost predicate StrictOrAbsent(r: Json) {
    r.JUndefined? || Strict(r)
  }

  ghost predicate StrictPolicy(p: Policy) {
    forall op :: op in p ==> Strict(p[op])
  }

  ghost predicate StrictPolicies(ps: seq<Policy>) {
    forall i :: 0 <= i < |ps| ==> StrictPolicy(ps[i])
  }

  lemma StrictItems(v: Json)
    requires StrictOrAbsent(v)
    ensures StrictAll(Items(v)) && (v.JArray? ==> StrictAll(v.items))
  {
  }

  lemma StrictArray(xs: seq<Json>)
    requires StrictAll(xs)
    ensures Strict(JArray(xs))
  {
  }

  lemma {:induction false} UnionStrict(a: seq<Json>, b: seq<Json>)
    requires StrictAll(a) && StrictAll(b)
    ensures StrictAll(Union(a, b))
  {
    if b != [] {
      UnionStrict(a, b[..|b| - 1]);
    }
  }

  lemma {:induction false} IntersectionStrict(a: seq<Json>, b: seq<Json>)
    requires StrictAll(a)
    ensures StrictAll(Intersection(a, b))
  {
    if a != [] {
      IntersectionStrict(a[1..], b);
    }
  }

  lemma MergedOpStrict(m: Policy, op: Operator, v: Json)
    requires StrictPolicy(m) && Strict(v) && MergedOp(m, op, v).Some?
    ensures Strict(MergedOp(m, op, v).value)
  {
    hide Union, Intersection, DeepEqual;
    if op in m {
      StrictItems(m[op]);
      StrictItems(v);
      if op.Add? || op.SupersetOf? {
        UnionStrict(m[op].items, v.items);
        StrictArray(Union(m[op].items, v.items));
      } else if op.SubsetOf? || op.OneOf? {
        IntersectionStrict(m[op].items, v.items);
        StrictArray(Intersection(m[op].items, v.items));
      }
    }
  }

  lemma {:induction false} ResolveStrict(ps: seq<Policy>)
    requires StrictPolicies(ps) && Resolve(ps).Some?
    ensures StrictPolicy(Resolve(ps).value)
  {
    if ps != [] {
      hide MergedOp, Strict, Compatible;
      var n := |ps| - 1;
      ResolveStrict(ps[..n]);
      var m := Resolve(ps[..n]).value;
      forall op | op in ps[n]
        ensures MergedOp(m, op, ps[n][op]).Some? && Strict(MergedOp(m, op, ps[n][op]).value)
      {
        MergedOpStrict(m, op, ps[n][op]);
      }
    }
  }

  lemma StageStrict(m: Policy, op: Operator, cur: Json, next: Json)
    requires StrictPolicy(m) && StrictOrAbsent(cur) && Stage(m, op, cur, next)
    ensures StrictOrAbsent(next)
  {
    hide Union, Intersection, DeepEqual, ContainsElement, IsSubset;
    if op in m && !cur.JUndefined? {
      StrictItems(cur);
      StrictItems(m[op]);
      if op.Add? {
        UnionStrict(cur.items, m[op].items);
        StrictArray(Union(cur.items, m[op].items));
      } else if op.SubsetOf? {
        IntersectionStrict(cur.items, m[op].items);
        StrictArray(Intersection(cur.items, m[op].items));
      }
    }
  }

  lemma {:induction false} ApplyStrict(m: Policy, v: Json, k: nat)
    requires StrictPolicy(m) && StrictOrAbsent(v) && k <= |ORDER| && ApplyFirst(m, v, k).Some?
    ensures StrictOrAbsent(ApplyFirst(m, v, k).value)
  {
    hide Stage, StrictOrAbsent, StrictPolicy;
    if k == 0 {
      ApplyNone(m, v);
    } else {
      ApplyNext(m, v, k);
      ApplyStrict(m, v, k - 1);
      StageStrict(m, ORDER[k - 1], ApplyFirst(m, v, k - 1).value, ApplyFirst(m, v, k).value);
    }
  }

  // ------------------------------------------------- the law

  lemma HoldsIsHas(arr: seq<Json>, x: Json)
    requires StrictAll(arr) && Strict(x)
    ensures Has(arr, x) <==> Holds(arr, x)
    ensures ContainsElement(arr, x) <==> Holds(arr, x)
  {
    hide Strict, DeepEqual, Same;
    forall i | 0 <= i < |arr|
      ensures DeepEqual(x, arr[i]) <==> Same(x, arr[i])
      ensures DeepEqual(arr[i], x) <==> Same(x, arr[i])
    {
      StrictIsMeaning(x, arr[i]);
      StrictIsMeaning(arr[i], x);
      StrictSymmetric(x, arr[i]);
    }
  }

  lemma StrictSymmetric(a: Json, b: Json)
    requires Strict(a) && Strict(b)
    ensures Same(a, b) <==> Same(b, a)
  {
    hide Strict, Same, Plain;
    StrictIsClear(a);
    StrictIsClear(b);
    if Same(a, b) {
      MeaningSymmetric(a, b);
    }
    if Same(b, a) {
      MeaningSymmetric(b, a);
    }
  }

  lemma WithinIsSubset(a: seq<Json>, b: seq<Json>)
    requires StrictAll(a) && StrictAll(b)
    ensures IsSubset(a, b) <==> Within(a, b)
  {
    hide Strict, Has, Holds;
    forall i | 0 <= i < |a|
      ensures Has(b, a[i]) <==> Holds(b, a[i])
    {
      HoldsIsHas(b, a[i]);
    }
  }

  lemma AbsentEquals(v: Json)
    ensures DeepEqual(JUndefined, v) <==> v.JUndefined?
    ensures Same(JUndefined, v) <==> v.JUndefined?
  {
  }

  /** Among strict values the code's own measure of a demand is the one by meaning. */
  lemma SatisfiesIsDemands(op: Operator, v: Json, r: Json)
    requires Strict(v) && StrictOrAbsent(r)
    ensures Satisfies(op, v, r) <==> Demands(op, v, r)
  {
    hide Strict, Same, DeepEqual, Holds, Within, IsSubset, ContainsElement, StrictAll;
    StrictItems(v);
    StrictItems(r);
    if r.JUndefined? {
      AbsentEquals(v);
    } else {
      StrictIsMeaning(r, v);
      HoldsIsHas(Items(v), r);
    }
    WithinIsSubset(Items(v), Items(r));
    WithinIsSubset(Items(r), Items(v));
  }

  lemma StrictPoliciesClear(ps: seq<Policy>)
    requires StrictPolicies(ps)
    ensures ClearPolicies(ps)
  {
    hide Strict, Clear, Plain;
    forall i, op | 0 <= i < |ps| && op in ps[i]
      ensures Clear(ps[i][op])
    {
      assert StrictPolicy(ps[i]);
      StrictIsClear(ps[i][op]);
    }
  }

  /** On strict values, when the merged policy of a chain applies, the outcome grants every
      demand of every superior. */
  lemma OutcomeGrantsAll(ps: seq<Policy>, v: Json)
    requires StrictPolicies(ps) && StrictOrAbsent(v) && Resolve(ps).Some? && Apply(Resolve(ps).value, v).Some?
    ensures forall i :: 0 <= i < |ps| ==> Grants(ps[i], Apply(Resolve(ps).value, v).value)
  {
    hide Resolve, ApplyFirst, Satisfies, Demands, Strict, Clear, Plain;
    var m := Resolve(ps).value;
    var r := Apply(m, v).value;
    StrictPoliciesClear(ps);
    if !v.JUndefined? {
      StrictIsClear(v);
    }
    ResolveStrict(ps);
    ApplyStrict(m, v, |ORDER|);
    PoliciesOnlyTighten(ps, v);
    forall i, op | 0 <= i < |ps| && op in ps[i]
      ensures Demands(op, ps[i][op], r)
    {
      assert StrictPolicy(ps[i]) && Meets(ps[i], r);
      SatisfiesIsDemands(op, ps[i][op], r);
    }
  }

  // ------------------------------------------------- where it fails

  /** The chain of two resolves and applies, and the outcome does not grant the second policy. */
  ghost predicate Denies(p: Policy, q: Policy, v: Json) {
    && PlainPolicy(p) && PlainPolicy(q) && Plain(v)
    && Resolve([p, q]).Some? && Apply(Resolve([p, q]).value, v) == Some(v) && !Grants(q, v)
  }

  lemma UnderMeaning(x: Json, y: Json)
    ensures Same(Under(x), Under(y)) ==> Same(x, y) || x.JUndefined?
  {
    hide Same;
    SameObjects(Under(x), Under(y));
    if Same(Under(x), Under(y)) && !x.JUndefined? {
      assert Under(x).members[0] == Member(K, x);
      var j :| 0 <= j < |Under(y).members| && Under(y).members[j].key == K && Same(x, Under(y).members[j].value);
    }
  }

  /** A value taken for one of another meaning: the second floor is lost in the merge. */
  lemma TwinDenies(x: Json, b: Json)
    requires Plain(x) && Plain(b) && IsComparable(x) && IsComparable(b) && DeepEqual(x, b) && !Same(b, x)
    ensures Denies(map[SupersetOf := JArray([x])], map[SupersetOf := JArray([b])], JArray([x]))
  {
    hide Plain, DeepEqual, Same, Resolve, Apply, Satisfies;
    FloorIsLost(x, b);
    var q: Policy := map[SupersetOf := JArray([b])];
    assert !Holds([x], b);
    assert !Within([b], [x]) by { assert [b][0] == b; }
    assert SupersetOf in q && !Demands(SupersetOf, q[SupersetOf], JArray([x]));
  }

  /** The guard cannot be spared: every plain value that is not strict, put under a key, has a
      chain that resolves and applies with an outcome that denies one of its policies. */
  lemma LaxDenies(x: Json) returns (b: Json)
    requires Plain(x) && !Strict(x)
    ensures Denies(map[SupersetOf := JArray([Under(x)])], map[SupersetOf := JArray([Under(b)])], JArray([Under(x)]))
  {
    b := StrictTwin(x);
    assert !b.JUndefined?;
    hide Plain, Strict, DeepEqual, Same, Denies;
    UnderEqual(x, b);
    UnderEqual(b, x);
    UnderMeaning(b, x);
    if Same(b, x) {
      MeaningSymmetric(b, x);
    }
    TwinDenies(Under(x), Under(b));
  }

  /** Clear values are not enough: an array passes for the object keyed by its indices, and
      the floor the subordinate sets is lost in the merge. */
  lemma ArrayPassesForObject()
    ensures var anchor := Under(JArray([JString(Q)]));
            var subordinate := Under(JObject([Member(J.NatText(0), JString(Q))]));
            Denies(map[SupersetOf := JArray([anchor])], map[SupersetOf := JArray([subordinate])], JArray([anchor]))
  {
    var anchor, subordinate := JArray([JString(Q)]), JObject([Member(J.NatText(0), JString(Q))]);
    assert !Same(subordinate, anchor) && !subordinate.JUndefined?;
    ArrayIsIndexed();
    hide J.NatText, Plain, DeepEqual, Same, Denies;
    OnePlain(J.NatText(0), JString(Q));
    UnderEqual(anchor, subordinate);
    UnderEqual(subordinate, anchor);
    UnderMeaning(subordinate, anchor);
    TwinDenies(Under(anchor), Under(subordinate));
  }
}
