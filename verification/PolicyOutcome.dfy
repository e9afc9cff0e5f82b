/** The merged policy of a chain and what it makes of a value, told without the merging and
    the applying: on strict values a chain resolves exactly if its policies are in concord, the
    merged policy demands exactly what all of them do, and its outcome is the value it starts
    from, with the additions, cut to the ceiling. */
module PolicyOutcome {
  import opened Options
  import opened Canonical
  import opened OrderedMaps
  import opened PolicyValues
  import opened StrictValues
  import opened MetadataPolicy
  import opened PolicyLaw

  // ------------------------------------------------- equality of meaning among strict values

  lemma MeaningIsText(a: Json, b: Json)
    requires Strict(a) && Strict(b)
    ensures Same(a, b) <==> Canon(a) == Canon(b)
  {
    hide Strict, Plain, Clear, Same, Canon, WellFormed;
    StrictIsClear(a);
    StrictIsClear(b);
    PlainIsWellFormed(a);
    PlainIsWellFormed(b);
    CanonDecidesMeaning(a, b);
  }

  lemma SameReflexive(a: Json)
    requires Strict(a)
    ensures Same(a, a)
  {
    hide Strict, Same, Canon;
    MeaningIsText(a, a);
  }

  lemma HoldsSame(arr: seq<Json>, x: Json, y: Json)
    requires StrictAll(arr) && Strict(x) && Strict(y) && Same(x, y)
    ensures Holds(arr, x) <==> Holds(arr, y)
  {
    hide Strict, Same, Canon;
    MeaningIsText(x, y);
    forall i | 0 <= i < |arr|
      ensures Same(x, arr[i]) <==> Same(y, arr[i])
    {
      MeaningIsText(x, arr[i]);
      MeaningIsText(y, arr[i]);
    }
  }

  lemma ItemsSame(a: Json, b: Json)
    requires Same(a, b)
    ensures a.JArray? <==> b.JArray?
    ensures a.JArray? ==> |a.items| == |b.items| && forall i :: 0 <= i < |a.items| ==> Same(a.items[i], b.items[i])
    ensures a.JNull? <==> b.JNull?
    ensures a.JUndefined? <==> b.JUndefined?
    ensures IsComparable(a) <==> IsComparable(b)
    ensures IsScalar(a) <==> IsScalar(b)
  {
  }

  lemma WithinSame(a: Json, b: Json, c: seq<Json>)
    requires Strict(a) && Strict(b) && a.JArray? && b.JArray? && Same(a, b) && StrictAll(c)
    ensures Within(a.items, c) <==> Within(b.items, c)
    ensures Within(c, a.items) <==> Within(c, b.items)
  {
    ItemsSame(a, b);
    StrictItems(a);
    StrictItems(b);
    hide Strict, Same, Canon;
    forall i | 0 <= i < |a.items|
      ensures Holds(c, a.items[i]) <==> Holds(c, b.items[i])
    {
      HoldsSame(c, a.items[i], b.items[i]);
    }
    forall i | 0 <= i < |c|
      ensures Holds(a.items, c[i]) <==> Holds(b.items, c[i])
    {
      forall j | 0 <= j < |a.items|
        ensures Same(c[i], a.items[j]) <==> Same(c[i], b.items[j])
      {
        MeaningIsText(c[i], a.items[j]);
        MeaningIsText(c[i], b.items[j]);
        MeaningIsText(a.items[j], b.items[j]);
      }
    }
  }

  lemma StrictIsPresent(v: Json)
    requires Strict(v)
    ensures StrictOrAbsent(v) && !v.JUndefined?
  {
  }

  /** A demand looks at the meaning of the parameter only. */
  lemma DemandsSame(op: Operator, v: Json, r: Json, s: Json)
    requires Strict(v) && Strict(r) && Strict(s) && Same(r, s)
    ensures Demands(op, v, r) <==> Demands(op, v, s)
  {
    hide Strict, Same, Holds, Within, Canon, StrictAll, StrictOrAbsent;
    assert StrictOrAbsent(v) by { StrictIsPresent(v); }
    ItemsSame(r, s);
    StrictItems(v);
    if op.Value? {
      MeaningIsText(r, s);
      MeaningIsText(r, v);
      MeaningIsText(s, v);
    } else if op.OneOf? {
      HoldsSame(Items(v), r, s);
    } else if r.JArray? {
      WithinSame(r, s, Items(v));
    }
  }

  // ------------------------------------------------- merging two operators

  lemma MergeIsMerged(op: Operator, current: Json, more: Json)
    requires Strict(current) && Strict(more) && MergeOp(op, current, more).Some?
    ensures Strict(MergeOp(op, current, more).value) && Configured(op, MergeOp(op, current, more).value)
  {
    hide Strict, Clear, Plain, Configured, MergeOp;
    var m: Policy := map[op := current];
    assert MergedOp(m, op, more) == MergeOp(op, current, more) && Configured(op, current) by {
      MergeNeedsConfigured(op, current, more);
    }
    MergedOpStrict(m, op, more);
    StrictIsClear(current);
    StrictIsClear(more);
    MergedOpKeeps(m, op, more);
  }

  lemma MergeNeedsConfigured(op: Operator, current: Json, more: Json)
    ensures MergeOp(op, current, more).Some? ==> Configured(op, current) && Configured(op, more)
  {
  }

  /** A merged operator demands exactly what the two did together. */
  lemma MergeDemandsBoth(op: Operator, current: Json, more: Json, r: Json)
    requires Strict(current) && Strict(more) && StrictOrAbsent(r) && MergeOp(op, current, more).Some?
    ensures Demands(op, MergeOp(op, current, more).value, r) <==> Demands(op, current, r) && Demands(op, more, r)
  {
    hide Strict, Clear, Plain, MergeOp, Demands, Satisfies;
    MergeIsMerged(op, current, more);
    StrictIsClear(current);
    StrictIsClear(more);
    if !r.JUndefined? {
      StrictIsClear(r);
    }
    MergeEntails(op, current, more, r);
    SatisfiesIsDemands(op, current, r);
    SatisfiesIsDemands(op, more, r);
    SatisfiesIsDemands(op, MergeOp(op, current, more).value, r);
  }

  /** Some value of the one array is held in the other. */
  ghost predicate Meet(a: seq<Json>, b: seq<Json>) {
    exists i :: 0 <= i < |a| && Holds(b, a[i])
  }

  lemma {:induction false} IntersectionMeets(a: seq<Json>, b: seq<Json>)
    ensures Intersection(a, b) != [] <==> exists i :: 0 <= i < |a| && Has(b, a[i])
  {
    if a != [] {
      hide Has;
      IntersectionMeets(a[1..], b);
      assert forall i :: 0 <= i < |a| - 1 ==> a[1..][i] == a[i + 1];
      if i :| 0 <= i < |a| && Has(b, a[i]) {
        assert i > 0 ==> a[1..][i - 1] == a[i];
      }
    }
  }

  lemma MeetIsIntersection(a: seq<Json>, b: seq<Json>)
    requires StrictAll(a) && StrictAll(b)
    ensures Intersection(a, b) != [] <==> Meet(a, b)
  {
    hide Strict, Has, Holds;
    IntersectionMeets(a, b);
    forall i | 0 <= i < |a|
      ensures Has(b, a[i]) <==> Holds(b, a[i])
    {
      HoldsIsHas(b, a[i]);
    }
  }

  /** Two operators merge exactly when both are configured and, for a fixed value or default,
      they mean the same, and for one_of, they have a value in common. */
  lemma MergeSucceeds(op: Operator, current: Json, more: Json)
    requires Strict(current) && Strict(more)
    ensures MergeOp(op, current, more).Some? <==>
            && Configured(op, current) && Configured(op, more)
            && (op.Value? || op.Default? ==> Same(current, more))
            && (op.OneOf? ==> Meet(Items(current), Items(more)))
  {
    StrictItems(current);
    StrictItems(more);
    hide Strict, DeepEqual, Same, Meet, Intersection, Union;
    StrictIsMeaning(current, more);
    MeetIsIntersection(Items(current), Items(more));
  }

  // ------------------------------------------------- operators side by side

  /** A fixed value meets what another operator asks of it; removal goes with nothing but an
      operator that does not call for the parameter. */
  ghost predicate ValueAgrees(v: Json, op: Operator, w: Json) {
    if v.JNull? then op.Essential? && w == JBool(false)
    else if op.Default? then Same(v, w)
    else Demands(op, w, v)
  }

  /** Two different operators can stand in one policy. */
  ghost predicate Agree(a: Operator, v: Json, b: Operator, w: Json) {
    if a.Value? then ValueAgrees(v, b, w)
    else if b.Value? then ValueAgrees(w, a, v)
    else if a.OneOf? then !b.Add? && !b.SubsetOf? && !b.SupersetOf?
    else if b.OneOf? then !a.Add? && !a.SubsetOf? && !a.SupersetOf?
    else if a.SubsetOf? && (b.Add? || b.SupersetOf?) then Within(Items(w), Items(v))
    else if b.SubsetOf? && (a.Add? || a.SupersetOf?) then Within(Items(v), Items(w))
    else true
  }

  lemma ValueSuits(v: Json, op: Operator, w: Json)
    requires Strict(v) && Strict(w) && Configured(Value, v) && Configured(op, w) && !op.Value?
    ensures SuitsValue(v, op, w) <==> ValueAgrees(v, op, w)
  {
    hide Strict, DeepEqual, Same, Holds, Within, IsSubset, ContainsElement, StrictAll;
    StrictItems(v);
    StrictItems(w);
    if op.OneOf? && !IsComparable(v) {
      NotAmongComparables(Items(w), v);
    }
    StrictIsMeaning(v, w);
    HoldsIsHas(Items(w), v);
    WithinIsSubset(Items(w), Items(v));
    WithinIsSubset(Items(v), Items(w));
  }

  lemma NotAmongComparables(arr: seq<Json>, x: Json)
    requires Comparables(arr) && !IsComparable(x)
    ensures !Holds(arr, x)
  {
  }

  /** Whether two operators combine, asked of either, is whether they agree. */
  lemma CombineIsAgree(a: Operator, v: Json, b: Operator, w: Json)
    requires Strict(v) && Strict(w) && Configured(a, v) && Configured(b, w) && a != b
    ensures CanCombine(a, v, b, w) <==> Agree(a, v, b, w)
    ensures CanCombine(b, w, a, v) <==> Agree(a, v, b, w)
  {
    hide Strict, Holds, Within, IsSubset, StrictAll, ValueAgrees, SuitsValue;
    StrictItems(v);
    StrictItems(w);
    if a.Value? {
      ValueSuits(v, b, w);
      CombineValue(v, b, w);
    } else if b.Value? {
      ValueSuits(w, a, v);
      CombineValue(w, a, v);
    } else {
      WithinIsSubset(Items(w), Items(v));
      WithinIsSubset(Items(v), Items(w));
    }
  }

  /** What combines with a fixed value is asked of the value. */
  lemma CombineValue(v: Json, op: Operator, w: Json)
    requires !op.Value? && Configured(Value, v) && Configured(op, w)
    ensures CanCombine(Value, v, op, w) <==> SuitsValue(v, op, w)
    ensures CanCombine(op, w, Value, v) <==> SuitsValue(v, op, w)
  {
    hide IsSubset, DeepEqual, ContainsElement;
  }

  // ------------------------------------------------- a whole chain

  ghost predicate Uses(ps: seq<Policy>, op: Operator) {
    exists i :: 0 <= i < |ps| && op in ps[i]
  }

  /** The parameter meets an operator in every policy that uses it. */
  ghost predicate AllDemand(ps: seq<Policy>, op: Operator, r: Json) {
    forall i :: 0 <= i < |ps| && op in ps[i] ==> Demands(op, ps[i][op], r)
  }

  ghost predicate AllMean(ps: seq<Policy>, op: Operator, v: Json) {
    forall i :: 0 <= i < |ps| && op in ps[i] ==> Same(v, ps[i][op])
  }

  /** The operator in m stands for the same operator in all the policies. */
  ghost predicate StandsFor(ps: seq<Policy>, m: Policy, op: Operator) {
    && (op in m <==> Uses(ps, op))
    && (op in m ==>
          && Strict(m[op]) && Configured(op, m[op])
          && (forall r :: StrictOrAbsent(r) ==> (Demands(op, m[op], r) <==> AllDemand(ps, op, r)))
          && (op.Value? || op.Default? ==> AllMean(ps, op, m[op])))
  }

  ghost predicate Configures(p: Policy) {
    forall op :: op in p ==> Configured(op, p[op])
  }

  lemma UsesNext(ps: seq<Policy>, op: Operator)
    requires ps != []
    ensures var n := |ps| - 1;
            && (Uses(ps, op) <==> Uses(ps[..n], op) || op in ps[n])
            && (forall r :: AllDemand(ps, op, r) <==>
                  AllDemand(ps[..n], op, r) && (op in ps[n] ==> Demands(op, ps[n][op], r)))
            && (forall v :: AllMean(ps, op, v) <==>
                  AllMean(ps[..n], op, v) && (op in ps[n] ==> Same(v, ps[n][op])))
  {
    hide Demands, Same;
    var n := |ps| - 1;
    assert forall i :: 0 <= i < n ==> ps[..n][i] == ps[i];
    if i :| 0 <= i < |ps| && op in ps[i] {
      assert i < n ==> op in ps[..n][i];
    }
  }

  lemma UsesNone(op: Operator, r: Json)
    ensures !Uses([], op) && AllDemand([], op, r) && AllMean([], op, r)
  {
  }

  /** Taking in one more policy keeps the operator standing for all. */
  lemma StandsNext(ps: seq<Policy>, m: Policy, op: Operator)
    requires ps != [] && StrictPolicies(ps) && StandsFor(ps[..|ps| - 1], m, op)
    requires op in ps[|ps| - 1] ==> MergedOp(m, op, ps[|ps| - 1][op]).Some?
    ensures var p := ps[|ps| - 1];
            var merged: Policy := if op in p then m[op := MergedOp(m, op, p[op]).value] else m;
            StandsFor(ps, merged, op)
  {
    var n := |ps| - 1;
    var p := ps[n];
    UsesNext(ps, op);
    if op in p {
      assert Strict(p[op]) by { assert StrictPolicy(ps[n]); }
      hide Strict, Demands, Same, MergeOp, Uses, AllDemand, AllMean, Configured;
      if op in m {
        MergeIsMerged(op, m[op], p[op]);
        forall r | StrictOrAbsent(r)
          ensures Demands(op, MergeOp(op, m[op], p[op]).value, r) <==> Demands(op, m[op], r) && Demands(op, p[op], r)
        {
          MergeDemandsBoth(op, m[op], p[op], r);
        }
        if op.Value? || op.Default? {
          MergeSucceeds(op, m[op], p[op]);
          MergeKeepsFixed(op, m[op], p[op]);
        }
      } else {
        SameReflexive(p[op]);
        NotUsed(ps[..n], op);
      }
    }
  }

  lemma MergeKeepsFixed(op: Operator, current: Json, more: Json)
    requires (op.Value? || op.Default?) && MergeOp(op, current, more).Some?
    ensures MergeOp(op, current, more).value == current
  {
  }

  lemma NotUsed(ps: seq<Policy>, op: Operator)
    requires !Uses(ps, op)
    ensures forall r :: AllDemand(ps, op, r) && AllMean(ps, op, r)
  {
  }

  ghost predicate Stands(ps: seq<Policy>, m: Policy) {
    forall op :: StandsFor(ps, m, op)
  }

  lemma {:induction false} ResolvedStands(ps: seq<Policy>)
    requires StrictPolicies(ps) && Resolve(ps).Some?
    ensures Stands(ps, Resolve(ps).value)
  {
    if ps == [] {
      forall op
        ensures StandsFor([], map[], op)
      {
        UsesNone(op, JNull);
      }
    } else {
      var n := |ps| - 1;
      ResolvedStands(ps[..n]);
      TakenStands(ps, Resolve(ps[..n]).value);
    }
  }

  lemma TakenStands(ps: seq<Policy>, m: Policy)
    requires ps != [] && StrictPolicies(ps) && Stands(ps[..|ps| - 1], m)
    requires Mergeable(m, ps[|ps| - 1], ps[|ps| - 1].Keys)
    ensures Stands(ps, Taken(m, ps[|ps| - 1], ps[|ps| - 1].Keys))
  {
    var n := |ps| - 1;
    var p := ps[n];
    var merged := Taken(m, p, p.Keys);
    hide StandsFor, MergedOp, StrictPolicies, Strict;
    forall op
      ensures StandsFor(ps, merged, op)
    {
      assert StandsFor(ps[..n], m, op);
      StandsNext(ps, m, op);
      OneEntry(ps, merged, if op in p then m[op := MergedOp(m, op, p[op]).value] else m, op);
    }
  }

  lemma OneEntry(ps: seq<Policy>, m: Policy, n: Policy, op: Operator)
    requires (op in m <==> op in n) && (op in m ==> m[op] == n[op]) && StandsFor(ps, n, op)
    ensures StandsFor(ps, m, op)
  {
    hide AllDemand, AllMean, Uses, Demands;
  }

  lemma AllDemandGrants(ps: seq<Policy>, r: Json)
    ensures (forall op :: AllDemand(ps, op, r)) <==> forall i :: 0 <= i < |ps| ==> Grants(ps[i], r)
  {
    hide Demands;
    if forall i :: 0 <= i < |ps| ==> Grants(ps[i], r) {
      forall op
        ensures AllDemand(ps, op, r)
      {
      }
    }
    if forall op :: AllDemand(ps, op, r) {
      forall i | 0 <= i < |ps|
        ensures Grants(ps[i], r)
      {
        forall op | op in ps[i]
          ensures Demands(op, ps[i][op], r)
        {
          assert AllDemand(ps, op, r);
        }
      }
    }
  }

  /** The merged policy of a chain demands exactly what its policies do together. */
  lemma ResolvedDemandsAll(ps: seq<Policy>, r: Json)
    requires StrictPolicies(ps) && StrictOrAbsent(r) && Resolve(ps).Some?
    ensures Grants(Resolve(ps).value, r) <==> forall i :: 0 <= i < |ps| ==> Grants(ps[i], r)
  {
    hide Demands, Resolve, StrictPolicies, AllDemand, StandsFor;
    var m := Resolve(ps).value;
    ResolvedStands(ps);
    AllDemandGrants(ps, r);
    forall op
      ensures (op in m ==> Demands(op, m[op], r)) <==> AllDemand(ps, op, r)
    {
      StandingDemands(ps, m, op, r);
    }
  }

  lemma StandingDemands(ps: seq<Policy>, m: Policy, op: Operator, r: Json)
    requires StandsFor(ps, m, op) && StrictOrAbsent(r)
    ensures (op in m ==> Demands(op, m[op], r)) <==> AllDemand(ps, op, r)
  {
    hide Demands, AllMean, Configured, Strict;
    if op !in m {
      NotUsed(ps, op);
    }
  }

  // ------------------------------------------------- when a chain resolves

  /** The operator of one policy agrees with another operator in every policy that uses it. */
  ghost predicate AllAgree(ps: seq<Policy>, a: Operator, b: Operator, w: Json) {
    forall i :: 0 <= i < |ps| && a in ps[i] ==> Agree(a, ps[i][a], b, w)
  }

  lemma AgreeSymmetric(a: Operator, v: Json, b: Operator, w: Json)
    requires a != b
    ensures Agree(a, v, b, w) <==> Agree(b, w, a, v)
  {
    hide Demands, Within, Same;
  }

  /** What stands for all the policies agrees with an operator exactly if they all do. */
  lemma AgreesForAll(ps: seq<Policy>, m: Policy, a: Operator, b: Operator, w: Json)
    requires StrictPolicies(ps) && (forall i :: 0 <= i < |ps| ==> Configures(ps[i]))
    requires StandsFor(ps, m, a) && a in m && Strict(w) && Configured(b, w) && a != b
    ensures Agree(a, m[a], b, w) <==> AllAgree(ps, a, b, w)
  {
    hide Strict, Agree, StrictPolicies, Configured, Configures, StandsFor, AllAgree, Bounded;
    EachStands(ps, a);
    if a.Value? {
      ValueAgreesForAll(ps, m, b, w);
    } else if b.Value? {
      AgreesWithValue(ps, m, a, w);
    } else if Bounded(a, b) {
      BoundAgreesForAll(ps, m, a, b, w);
    } else {
      OthersAgreeForAll(ps, m, a, b, w);
    }
  }

  /** A ceiling beside additions or a floor. */
  predicate Bounded(a: Operator, b: Operator) {
    (a.SubsetOf? && (b.Add? || b.SupersetOf?)) || (b.SubsetOf? && (a.Add? || a.SupersetOf?))
  }

  lemma BoundAgreesForAll(ps: seq<Policy>, m: Policy, a: Operator, b: Operator, w: Json)
    requires StandsFor(ps, m, a) && a in m && Strict(w) && Configured(b, w) && Bounded(a, b)
    requires forall i :: 0 <= i < |ps| && a in ps[i] ==> Configured(a, ps[i][a])
    ensures Agree(a, m[a], b, w) <==> AllAgree(ps, a, b, w)
  {
    hide Strict, Agree, Demands, Configured, Bounded, AllMean;
    assert StrictOrAbsent(w) by { StrictIsPresent(w); }
    assert Demands(a, m[a], w) <==> AllDemand(ps, a, w);
    forall v | Configured(a, v)
      ensures Agree(a, v, b, w) <==> Demands(a, v, w)
    {
      BoundAgrees(a, v, b, w);
    }
  }

  lemma OthersAgreeForAll(ps: seq<Policy>, m: Policy, a: Operator, b: Operator, w: Json)
    requires StandsFor(ps, m, a) && a in m && !a.Value? && !b.Value? && !Bounded(a, b)
    ensures Agree(a, m[a], b, w) <==> AllAgree(ps, a, b, w)
  {
    hide Strict, Agree, Demands, Configured, AllMean, AllDemand;
    forall v, u
      ensures Agree(a, v, b, w) <==> Agree(a, u, b, w)
    {
      OthersAgree(a, v, u, b, w);
    }
    var k :| 0 <= k < |ps| && a in ps[k];
  }

  lemma EachStands(ps: seq<Policy>, op: Operator)
    requires StrictPolicies(ps) && forall i :: 0 <= i < |ps| ==> Configures(ps[i])
    ensures forall i :: 0 <= i < |ps| && op in ps[i] ==> Strict(ps[i][op]) && Configured(op, ps[i][op])
  {
    hide Strict, Configured;
    forall i | 0 <= i < |ps| && op in ps[i]
      ensures Strict(ps[i][op]) && Configured(op, ps[i][op])
    {
      assert StrictPolicy(ps[i]) && Configures(ps[i]);
    }
  }

  lemma BoundAgrees(a: Operator, v: Json, b: Operator, w: Json)
    requires Configured(a, v) && Configured(b, w) && Bounded(a, b)
    ensures Agree(a, v, b, w) <==> Demands(a, v, w)
  {
    hide Within;
  }

  /** Apart from fixed values, floors and ceilings, agreeing does not depend on the values. */
  lemma OthersAgree(a: Operator, v: Json, u: Json, b: Operator, w: Json)
    requires !a.Value? && !b.Value? && !Bounded(a, b)
    ensures Agree(a, v, b, w) <==> Agree(a, u, b, w)
  {
  }

  lemma ValueAgreesForAll(ps: seq<Policy>, m: Policy, b: Operator, w: Json)
    requires StandsFor(ps, m, Value) && Value in m && Strict(w)
    requires forall i :: 0 <= i < |ps| && Value in ps[i] ==> Strict(ps[i][Value])
    ensures Agree(Value, m[Value], b, w) <==> AllAgree(ps, Value, b, w)
  {
    hide Strict, Same, Demands, ValueAgrees, Configured;
    var k :| 0 <= k < |ps| && Value in ps[k];
    forall i | 0 <= i < |ps| && Value in ps[i]
      ensures Agree(Value, ps[i][Value], b, w) <==> Agree(Value, m[Value], b, w)
    {
      ValueAgreesSame(m[Value], ps[i][Value], b, w);
    }
  }

  lemma AgreesWithValue(ps: seq<Policy>, m: Policy, a: Operator, w: Json)
    requires StandsFor(ps, m, a) && a in m && Strict(w) && !a.Value? && forall i :: 0 <= i < |ps| ==> Configures(ps[i])
    requires forall i :: 0 <= i < |ps| && a in ps[i] ==> Strict(ps[i][a])
    ensures Agree(a, m[a], Value, w) <==> AllAgree(ps, a, Value, w)
  {
    hide Strict, Same, Demands, Configured, Canon;
    assert StrictOrAbsent(w) by { StrictIsPresent(w); }
    var k :| 0 <= k < |ps| && a in ps[k];
    if w.JNull? {
      if a.Essential? {
        EssentialForAll(ps, m);
      }
    } else if a.Default? {
      forall i | 0 <= i < |ps| && a in ps[i]
        ensures Same(w, ps[i][a]) <==> Same(w, m[a])
      {
        MeaningIsText(w, m[a]);
        MeaningIsText(w, ps[i][a]);
        MeaningIsText(m[a], ps[i][a]);
      }
    } else {
      assert Demands(a, m[a], w) <==> AllDemand(ps, a, w);
    }
  }

  lemma ValueAgreesSame(v: Json, u: Json, op: Operator, w: Json)
    requires Strict(v) && Strict(u) && Strict(w) && Same(v, u)
    ensures ValueAgrees(v, op, w) <==> ValueAgrees(u, op, w)
  {
    ItemsSame(v, u);
    hide Strict, Same, Demands, Canon;
    DemandsSame(op, w, v, u);
    MeaningIsText(v, u);
    MeaningIsText(v, w);
    MeaningIsText(u, w);
  }

  lemma EssentialForAll(ps: seq<Policy>, m: Policy)
    requires StandsFor(ps, m, Essential) && Essential in m && forall i :: 0 <= i < |ps| ==> Configures(ps[i])
    ensures m[Essential] == JBool(false) <==> forall i :: 0 <= i < |ps| && Essential in ps[i] ==>
              ps[i][Essential] == JBool(false)
  {
    assert StrictOrAbsent(JUndefined);
    assert Demands(Essential, m[Essential], JUndefined) <==> AllDemand(ps, Essential, JUndefined);
    forall i | 0 <= i < |ps| && Essential in ps[i]
      ensures Demands(Essential, ps[i][Essential], JUndefined) <==> ps[i][Essential] == JBool(false)
    {
      assert Configures(ps[i]);
    }
  }

  ghost predicate HeldByAll(ps: seq<Policy>, x: Json) {
    forall i :: 0 <= i < |ps| && OneOf in ps[i] ==> Holds(Items(ps[i][OneOf]), x)
  }

  ghost predicate UsedTwice(ps: seq<Policy>, op: Operator) {
    exists i, j :: 0 <= i < j < |ps| && op in ps[i] && op in ps[j]
  }

  ghost predicate AllConfigure(ps: seq<Policy>) {
    forall i :: 0 <= i < |ps| ==> Configures(ps[i])
  }

  ghost predicate PairsAgree(ps: seq<Policy>) {
    forall i, j, a, b :: 0 <= i < |ps| && 0 <= j < |ps| && a in ps[i] && b in ps[j] && a != b ==>
      Agree(a, ps[i][a], b, ps[j][b])
  }

  ghost predicate FixedAlike(ps: seq<Policy>, op: Operator) {
    forall i, j :: 0 <= i < |ps| && 0 <= j < |ps| && op in ps[i] && op in ps[j] ==> Same(ps[i][op], ps[j][op])
  }

  /** The policies are configured, any two different operators of them agree, fixed values and
      defaults mean the same everywhere, and what several ask to be one of has a value all of
      them hold. Nothing here depends on the order of the policies. */
  ghost predicate Concord(ps: seq<Policy>) {
    && AllConfigure(ps) && PairsAgree(ps) && FixedAlike(ps, Value) && FixedAlike(ps, Default)
    && (UsedTwice(ps, OneOf) ==> exists x :: Strict(x) && HeldByAll(ps, x))
  }

  lemma ConcordPrefix(ps: seq<Policy>)
    requires ps != [] && Concord(ps)
    ensures Concord(ps[..|ps| - 1])
  {
    hide Agree, Same, Holds, Strict, Configures;
    var n := |ps| - 1;
    var qs := ps[..n];
    assert forall i :: 0 <= i < n ==> qs[i] == ps[i];
    if UsedTwice(qs, OneOf) {
      var i, j :| 0 <= i < j < |qs| && OneOf in qs[i] && OneOf in qs[j];
      assert OneOf in ps[i] && OneOf in ps[j];
      var x :| Strict(x) && HeldByAll(ps, x);
      assert HeldByAll(qs, x);
    }
  }

  lemma HeldIsDemanded(ps: seq<Policy>, x: Json)
    requires Strict(x)
    ensures HeldByAll(ps, x) <==> AllDemand(ps, OneOf, x)
  {
    hide Holds;
    assert !x.JUndefined?;
  }

  /** Among all the policies of a chain two operators agree, to go by what stands for them. */
  lemma StandingAgree(ps: seq<Policy>, m: Policy, a: Operator, b: Operator)
    requires StrictPolicies(ps) && AllConfigure(ps) && Stands(ps, m) && a in m && b in m && a != b
    ensures Agree(a, m[a], b, m[b]) <==>
            forall i, j :: 0 <= i < |ps| && 0 <= j < |ps| && a in ps[i] && b in ps[j] ==>
              Agree(a, ps[i][a], b, ps[j][b])
  {
    assert StandsFor(ps, m, a) && StandsFor(ps, m, b);
    forall i, op | 0 <= i < |ps| && op in ps[i]
      ensures Strict(ps[i][op]) && Configured(op, ps[i][op])
    {
      assert StrictPolicy(ps[i]) && Configures(ps[i]);
    }
    hide Agree, StandsFor, Stands, Strict, StrictPolicies, Configured;
    assert Strict(m[b]) && Configured(b, m[b]) by { StandingIsStrict(ps, m, b); }
    AgreesForAll(ps, m, a, b, m[b]);
    forall i | 0 <= i < |ps| && a in ps[i]
      ensures Agree(a, ps[i][a], b, m[b]) <==>
              forall j :: 0 <= j < |ps| && b in ps[j] ==> Agree(a, ps[i][a], b, ps[j][b])
    {
      AgreeSymmetric(a, ps[i][a], b, m[b]);
      AgreesForAll(ps, m, b, a, ps[i][a]);
      forall j | 0 <= j < |ps| && b in ps[j]
        ensures Agree(a, ps[i][a], b, ps[j][b]) <==> Agree(b, ps[j][b], a, ps[i][a])
      {
        AgreeSymmetric(a, ps[i][a], b, ps[j][b]);
      }
    }
  }

  lemma StandingIsStrict(ps: seq<Policy>, m: Policy, op: Operator)
    requires StandsFor(ps, m, op) && op in m
    ensures Strict(m[op]) && Configured(op, m[op])
  {
  }

  /** What stands for a chain is compatible exactly if all pairs in the chain agree. */
  lemma StandingCompatible(ps: seq<Policy>, m: Policy)
    requires StrictPolicies(ps) && AllConfigure(ps) && Stands(ps, m)
    ensures Compatible(m) <==> PairsAgree(ps)
  {
    forall a, b | a in m && b in m && a != b
      ensures CanCombine(a, m[a], b, m[b]) <==> Agree(a, m[a], b, m[b])
      ensures Agree(a, m[a], b, m[b]) <==>
              forall i, j :: 0 <= i < |ps| && 0 <= j < |ps| && a in ps[i] && b in ps[j] ==>
                Agree(a, ps[i][a], b, ps[j][b])
    {
      assert StandsFor(ps, m, a) && StandsFor(ps, m, b);
      StandingIsStrict(ps, m, a);
      StandingIsStrict(ps, m, b);
      CombineIsAgree(a, m[a], b, m[b]);
      StandingAgree(ps, m, a, b);
    }
    forall i, op | 0 <= i < |ps| && op in ps[i]
      ensures op in m
    {
      assert StandsFor(ps, m, op) && Uses(ps, op);
    }
    hide Agree, CanCombine, Stands, StrictPolicies, AllConfigure;
    if Compatible(m) {
      forall i, j, a, b | 0 <= i < |ps| && 0 <= j < |ps| && a in ps[i] && b in ps[j] && a != b
        ensures Agree(a, ps[i][a], b, ps[j][b])
      {
        assert CanCombine(a, m[a], b, m[b]);
      }
    }
    if PairsAgree(ps) {
      forall a, b | a in m && b in m && a != b
        ensures CanCombine(a, m[a], b, m[b])
      {
        assert Agree(a, m[a], b, m[b]);
      }
    }
  }

  lemma StandingFixed(ps: seq<Policy>, m: Policy, op: Operator)
    requires StrictPolicies(ps) && StandsFor(ps, m, op) && (op.Value? || op.Default?)
    ensures FixedAlike(ps, op)
  {
    forall i, j | 0 <= i < |ps| && 0 <= j < |ps| && op in ps[i] && op in ps[j]
      ensures Same(ps[i][op], ps[j][op])
    {
      assert StrictPolicy(ps[i]) && StrictPolicy(ps[j]) && Uses(ps, op) && op in m;
      assert Same(m[op], ps[i][op]) && Same(m[op], ps[j][op]);
      MeaningIsText(m[op], ps[i][op]);
      MeaningIsText(m[op], ps[j][op]);
      MeaningIsText(ps[i][op], ps[j][op]);
    }
  }

  /** Where several policies ask to be one of something, something is left after merging. */
  lemma {:induction false} OneOfLeft(ps: seq<Policy>)
    requires StrictPolicies(ps) && Resolve(ps).Some? && UsedTwice(ps, OneOf)
    ensures OneOf in Resolve(ps).value && Items(Resolve(ps).value[OneOf]) != []
  {
    hide StandsFor, Strict, Compatible, MergedOp, StrictPolicies, Configured;
    var n := |ps| - 1;
    var m, p := Resolve(ps[..n]).value, ps[n];
    var i, j :| 0 <= i < j < |ps| && OneOf in ps[i] && OneOf in ps[j];
    assert ps[..n][i] == ps[i] && Uses(ps[..n], OneOf);
    StrictPrefix(ps);
    ResolvedStands(ps[..n]);
    StandingUsed(ps[..n], m, OneOf);
    if OneOf in p {
      assert MergedOp(m, OneOf, p[OneOf]).Some?;
      OneOfMergeLeft(m, p[OneOf]);
    } else {
      assert ps[..n][j] == ps[j];
      OneOfLeft(ps[..n]);
    }
  }

  lemma StrictPrefix(ps: seq<Policy>)
    requires ps != [] && StrictPolicies(ps)
    ensures StrictPolicies(ps[..|ps| - 1])
  {
  }

  lemma StandingUsed(ps: seq<Policy>, m: Policy, op: Operator)
    requires Stands(ps, m)
    ensures op in m <==> Uses(ps, op)
  {
    assert StandsFor(ps, m, op);
  }

  lemma OneOfMergeLeft(m: Policy, v: Json)
    requires OneOf in m && MergedOp(m, OneOf, v).Some?
    ensures Items(MergedOp(m, OneOf, v).value) != []
  {
    hide Intersection;
  }

  lemma ResolvedConcord(ps: seq<Policy>)
    requires StrictPolicies(ps) && Resolve(ps).Some? && AllConfigure(ps)
    ensures Concord(ps)
  {
    var m := Resolve(ps).value;
    ResolvedStands(ps);
    assert StandsFor(ps, m, Value) && StandsFor(ps, m, Default) && StandsFor(ps, m, OneOf);
    StandingCompatible(ps, m);
    StandingFixed(ps, m, Value);
    StandingFixed(ps, m, Default);
    assert Compatible(m) by { ResolvedCompatible(ps); }
    if UsedTwice(ps, OneOf) {
      hide Resolve, PairsAgree, FixedAlike, AllConfigure, Compatible, Configured;
      OneOfLeft(ps);
      StrictItems(m[OneOf]);
      var x := m[OneOf].items[0];
      SameReflexive(x);
      HeldIsDemanded(ps, x);
      assert Demands(OneOf, m[OneOf], x);
      assert StrictOrAbsent(x);
      assert HeldByAll(ps, x);
    }
  }

  lemma ResolvedCompatible(ps: seq<Policy>)
    requires Resolve(ps).Some?
    ensures Compatible(Resolve(ps).value)
  {
    hide CanCombine;
  }

  lemma ResolvedConfigures(ps: seq<Policy>)
    requires ps != [] && Resolve(ps).Some?
    ensures Configures(ps[|ps| - 1]) && Resolve(ps[..|ps| - 1]).Some?
  {
    hide Configured, Compatible, MergeOp;
    var n := |ps| - 1;
    var m, p := Resolve(ps[..n]).value, ps[n];
    forall op | op in p
      ensures Configured(op, p[op])
    {
      assert MergedOp(m, op, p[op]).Some?;
    }
  }

  /** Each operator of the last policy of a concord merges into what stands for the others. */
  lemma ConcordMerges(ps: seq<Policy>, m: Policy, op: Operator)
    requires ps != [] && StrictPolicies(ps) && Concord(ps) && StandsFor(ps[..|ps| - 1], m, op) && op in ps[|ps| - 1]
    ensures MergedOp(m, op, ps[|ps| - 1][op]).Some?
  {
    var n := |ps| - 1;
    var p, qs := ps[n], ps[..n];
    assert Configures(ps[n]) && StrictPolicy(ps[n]);
    if op in m {
      MergeSucceeds(op, m[op], p[op]);
      var i :| 0 <= i < n && op in qs[i];
      assert qs[i] == ps[i] && StrictPolicy(ps[i]);
      if op.Value? || op.Default? {
        assert Same(ps[i][op], p[op]) && Same(m[op], ps[i][op]);
        MeaningIsText(m[op], ps[i][op]);
        MeaningIsText(ps[i][op], p[op]);
        MeaningIsText(m[op], p[op]);
      } else if op.OneOf? {
        assert UsedTwice(ps, OneOf);
        var x :| Strict(x) && HeldByAll(ps, x);
        OneOfMeets(qs, m, p, x) by {
          forall k | 0 <= k < n && OneOf in qs[k]
            ensures Holds(Items(qs[k][OneOf]), x)
          {
            assert qs[k] == ps[k];
          }
        }
      }
    }
  }

  lemma OneOfMeets(qs: seq<Policy>, m: Policy, p: Policy, x: Json)
    requires StandsFor(qs, m, OneOf) && OneOf in m && OneOf in p && Strict(p[OneOf]) && Strict(x)
    requires HeldByAll(qs, x) && Holds(Items(p[OneOf]), x)
    ensures Meet(Items(m[OneOf]), Items(p[OneOf]))
  {
    HeldIsDemanded(qs, x);
    assert StrictOrAbsent(x);
    assert Demands(OneOf, m[OneOf], x);
    StrictItems(m[OneOf]);
    StrictItems(p[OneOf]);
    var k :| 0 <= k < |Items(m[OneOf])| && Same(x, Items(m[OneOf])[k]);
    HoldsSame(Items(p[OneOf]), x, Items(m[OneOf])[k]);
  }

  /** On strict values the policies of a chain resolve exactly if they are in concord; so it
      does not matter in which order they come. */
  lemma {:induction false} ResolvesExactly(ps: seq<Policy>)
    requires StrictPolicies(ps)
    ensures Resolve(ps).Some? <==> Concord(ps)
  {
    if ps == [] {
      assert Concord([]);
    } else {
      var n := |ps| - 1;
      var qs := ps[..n];
      ResolvesExactly(qs);
      if Resolve(ps).Some? {
        ResolvedConfigures(ps);
        assert AllConfigure(ps) by {
          assert AllConfigure(qs) && forall i :: 0 <= i < n ==> qs[i] == ps[i];
        }
        ResolvedConcord(ps);
      }
      if Concord(ps) {
        ConcordPrefix(ps);
        var m := Resolve(qs).value;
        ResolvedStands(qs);
        hide StandsFor, MergedOp, Concord, Compatible, StrictPolicies;
        forall op | op in ps[n]
          ensures MergedOp(m, op, ps[n][op]).Some?
        {
          assert StandsFor(qs, m, op);
          ConcordMerges(ps, m, op);
        }
        TakenStands(ps, m);
        ConcordParts(ps);
        StandingCompatible(ps, Taken(m, ps[n], ps[n].Keys));
      }
    }
  }

  lemma ConcordParts(ps: seq<Policy>)
    requires Concord(ps)
    ensures AllConfigure(ps) && PairsAgree(ps)
  {
  }

  // ------------------------------------------------- what applying leaves

  lemma StrictAllClear(arr: seq<Json>)
    requires StrictAll(arr)
    ensures ClearAll(arr)
  {
    hide Strict, Clear, Plain;
    forall i | 0 <= i < |arr|
      ensures Clear(arr[i])
    {
      StrictIsClear(arr[i]);
    }
  }

  lemma HoldsUnion(a: seq<Json>, b: seq<Json>, x: Json)
    requires StrictAll(a) && StrictAll(b) && Strict(x)
    ensures Holds(Union(a, b), x) <==> Holds(a, x) || Holds(b, x)
  {
    UnionStrict(a, b);
    hide Strict, Clear, Plain, Holds, Has, ContainsElement, Names, Union, StrictAll;
    StrictAllClear(a);
    StrictAllClear(b);
    StrictIsClear(x);
    UnionNames(a, b);
    HasNames(a, x);
    HasNames(b, x);
    HasNames(Union(a, b), x);
    HoldsIsHas(a, x);
    HoldsIsHas(b, x);
    HoldsIsHas(Union(a, b), x);
  }

  lemma HoldsIntersection(a: seq<Json>, b: seq<Json>, x: Json)
    requires StrictAll(a) && StrictAll(b) && Strict(x)
    ensures Holds(Intersection(a, b), x) <==> Holds(a, x) && Holds(b, x)
  {
    IntersectionStrict(a, b);
    hide Strict, Clear, Plain, Holds, Has, ContainsElement, Names, Intersection, StrictAll;
    StrictAllClear(a);
    StrictAllClear(b);
    StrictIsClear(x);
    IntersectionNames(a, b);
    HasNames(a, x);
    HasNames(b, x);
    HasNames(Intersection(a, b), x);
    HoldsIsHas(a, x);
    HoldsIsHas(b, x);
    HoldsIsHas(Intersection(a, b), x);
  }

  /** Cutting keeps the order: it treats one part of an array after the other. */
  lemma {:induction false} IntersectionSplits(a: seq<Json>, c: seq<Json>, b: seq<Json>)
    ensures Intersection(a + c, b) == Intersection(a, b) + Intersection(c, b)
  {
    if a == [] {
      assert a + c == c;
    } else {
      hide Has;
      IntersectionSplits(a[1..], c, b);
      assert (a + c)[1..] == a[1..] + c && (a + c)[0] == a[0];
    }
  }

  /** The types of parameter an operator takes. */
  predicate Takes(op: Operator, r: Json) {
    match op
    case Value => r.JUndefined? || IsValueOrDefault(r)
    case Default => r.JUndefined? || IsValueOrDefault(r)
    case Add => r.JUndefined? || IsComparableArray(r)
    case SubsetOf => r.JUndefined? || IsComparableArray(r)
    case SupersetOf => r.JUndefined? || IsComparableArray(r)
    case OneOf => r.JUndefined? || IsComparable(r)
    case Essential => !r.JNull?
  }

  datatype Type = Undefined | Null | Boolean | Number | Text | Array | Object

  function TypeOf(v: Json): Type {
    match v
    case JUndefined => Undefined
    case JNull => Null
    case JBool(_) => Boolean
    case JNumber(_) => Number
    case JString(_) => Text
    case JArray(_) => Array
    case JObject(_) => Object
  }

  /** The types an operator can be configured with. */
  function ConfigurationTypes(op: Operator): set<Type> {
    match op
    case Value => {Null, Boolean, Number, Text, Array}
    case Default => {Boolean, Number, Text, Array}
    case Essential => {Boolean}
    case _ => {Array}
  }

  /** The types of parameter it can be applied to. */
  function ParameterTypes(op: Operator): set<Type> {
    match op
    case Value => {Undefined, Boolean, Number, Text, Array}
    case Default => {Undefined, Boolean, Number, Text, Array}
    case OneOf => {Undefined, Number, Text, Object}
    case Essential => {Undefined, Boolean, Number, Text, Array, Object}
    case _ => {Undefined, Array}
  }

  /** The operators that look into arrays want texts, numbers and objects there. */
  ghost predicate ElementsSuit(op: Operator, v: Json) {
    op in {Add, OneOf, SubsetOf, SupersetOf} ==> forall x :: x in Items(v) ==> TypeOf(x) in {Text, Number, Object}
  }

  /** Which values an operator is configured with and which parameters it takes goes by types. */
  lemma OperatorTypes(op: Operator, v: Json)
    ensures Configured(op, v) <==> TypeOf(v) in ConfigurationTypes(op) && ElementsSuit(op, v)
    ensures Takes(op, v) <==> TypeOf(v) in ParameterTypes(op) && ElementsSuit(op, v)
  {
    assert forall x :: IsComparable(x) <==> TypeOf(x) in {Text, Number, Object};
  }

  /** What the operators start from: the value the policy fixes, or else the one there is, or
      else what the policy adds, or else its default. */
  function Start(m: Policy, v: Json): Json {
    if Value in m then (if m[Value].JNull? then JUndefined else m[Value])
    else if !v.JUndefined? then v
    else if Add in m then m[Add]
    else if Default in m then m[Default]
    else JUndefined
  }

  function Added(m: Policy): seq<Json> {
    if Add in m then Items(m[Add]) else []
  }

  ghost predicate HeldAtStart(m: Policy, start: Json, x: Json) {
    Holds(Items(start), x) || Holds(Added(m), x)
  }

  /** The value is of the types the operators take and passes their checks. */
  ghost predicate Passes(m: Policy, v: Json) {
    var start := Start(m, v);
    && (Value in m ==> Takes(Value, v))
    && (forall op :: op in m && !op.Value? ==> Takes(op, start))
    && (OneOf in m ==> Demands(OneOf, m[OneOf], start))
    && (SupersetOf in m && !start.JUndefined? ==> forall i :: 0 <= i < |Items(m[SupersetOf])| ==>
          HeldAtStart(m, start, Items(m[SupersetOf])[i]))
    && (Essential in m && m[Essential] == JBool(true) ==> !start.JUndefined?)
  }

  /** What is left is what the operators started from; of an array, with the additions, all
      that the ceiling holds. */
  ghost predicate Leaves(m: Policy, start: Json, r: Json) {
    && (start.JArray? <==> r.JArray?) && (!start.JArray? ==> r == start)
    && (Add !in m && SubsetOf !in m ==> r == start)
    && (forall x :: Strict(x) && start.JArray? ==>
          (Holds(Items(r), x) <==> HeldAtStart(m, start, x) && (SubsetOf in m ==> Holds(Items(m[SubsetOf]), x))))
  }

  ghost predicate StrictReady(m: Policy) {
    StrictPolicy(m) && AllConfigured(m) && Compatible(m)
  }

  function Then(m: Policy, op: Operator, cur: Option<Json>): Option<Json> {
    if cur.None? then None else if op in m then ApplyOp(op, cur.value, m[op]) else cur
  }

  lemma ApplyThen(m: Policy, v: Json, k: nat)
    requires k < |ORDER|
    ensures ApplyFirst(m, v, k + 1) == Then(m, ORDER[k], ApplyFirst(m, v, k))
  {
    hide ApplyOp;
  }

  /** The parameter after the operators that change what they start from. */
  function Begun(m: Policy, v: Json): Option<Json> {
    Then(m, Default, Then(m, Add, Then(m, Value, Some(v))))
  }

  function Finished(m: Policy, cur: Option<Json>): Option<Json> {
    Then(m, Essential, Then(m, SupersetOf, Then(m, SubsetOf, Then(m, OneOf, cur))))
  }

  lemma ApplyIsChain(m: Policy, v: Json)
    ensures Apply(m, v) == Finished(m, Begun(m, v))
  {
    hide ApplyFirst, Then;
    ApplyNone(m, v);
    ApplyThen(m, v, 0);
    ApplyThen(m, v, 1);
    ApplyThen(m, v, 2);
    ApplyThen(m, v, 3);
    ApplyThen(m, v, 4);
    ApplyThen(m, v, 5);
    ApplyThen(m, v, 6);
  }

  lemma RemovalAlone(m: Policy)
    requires StrictReady(m) && Value in m && m[Value].JNull?
    ensures Add !in m && Default !in m
  {
    hide CanCombine;
    forall op | op == Add || op == Default
      ensures op !in m
    {
      if op in m {
        assert CanCombine(Value, m[Value], op, m[op]);
        NullWithNothing(m[Value], op, m[op]);
      }
    }
  }

  lemma ComparableArray(xs: seq<Json>)
    ensures IsComparableArray(JArray(xs)) <==> Comparables(xs)
  {
  }

  /** The parameter as the first three operators leave it. */
  ghost predicate BegunAs(m: Policy, start: Json, c: Json) {
    if Add in m && !start.JUndefined?
    then
      && start.JArray? && c.JArray? && StrictAll(c.items) && Comparables(start.items) && Comparables(c.items)
      && forall x :: Strict(x) ==> (Holds(c.items, x) <==> HeldAtStart(m, start, x))
    else c == start
  }

  /** The first three operators, of the right types, leave what the policy starts from, and in
      an array the additions as well. */
  lemma BegunIs(m: Policy, v: Json)
    requires StrictReady(m) && StrictOrAbsent(v)
    ensures var start := Start(m, v);
            && StrictOrAbsent(start)
            && (Begun(m, v).Some? <==>
                  && (Value in m ==> Takes(Value, v))
                  && (Add in m ==> Takes(Add, start)) && (Default in m ==> Takes(Default, start)))
            && (Begun(m, v).Some? ==> BegunAs(m, start, Begun(m, v).value))
  {
    var start := Start(m, v);
    forall op | op in m
      ensures Strict(m[op]) && Configured(op, m[op])
    {
    }
    if Value in m && m[Value].JNull? {
      RemovalAlone(m);
    }
    hide Strict, Union, Compatible, Holds;
    if Add in m && !start.JUndefined? && Takes(Add, start) {
      StrictItems(start);
      StrictItems(m[Add]);
      UnionStrict(start.items, m[Add].items);
      UnionComparable(start.items, m[Add].items);
      ComparableArray(Union(start.items, m[Add].items));
      hide Comparables, StrictAll;
      forall x | Strict(x)
        ensures Holds(Union(start.items, m[Add].items), x) <==> HeldAtStart(m, start, x)
      {
        HoldsUnion(start.items, m[Add].items, x);
      }
    }
  }

  lemma OneOfAlone(m: Policy)
    requires StrictReady(m) && OneOf in m
    ensures Add !in m && SubsetOf !in m && SupersetOf !in m
  {
    hide CanCombine;
    forall op | op == Add || op == SubsetOf || op == SupersetOf
      ensures op !in m
    {
      if op in m {
        assert CanCombine(OneOf, m[OneOf], op, m[op]);
        OneOfWithNone(m[OneOf], op, m[op]);
      }
    }
  }

  lemma OneOfWithNone(v: Json, op: Operator, w: Json)
    requires op.Add? || op.SubsetOf? || op.SupersetOf?
    ensures !CanCombine(OneOf, v, op, w)
  {
  }

  /** The cut of the parameter by the ceiling, if there is one. */
  lemma CutIs(m: Policy, start: Json, c: Json)
    requires StrictReady(m) && StrictOrAbsent(start) && BegunAs(m, start, c)
    ensures Then(m, SubsetOf, Some(c)).Some? <==> (SubsetOf in m ==> Takes(SubsetOf, start))
    ensures Then(m, SubsetOf, Some(c)).Some? ==>
              && Leaves(m, start, Then(m, SubsetOf, Some(c)).value)
              && (Comparables(Items(c)) ==> Comparables(Items(Then(m, SubsetOf, Some(c)).value)))
              && StrictOrAbsent(Then(m, SubsetOf, Some(c)).value)
  {
    forall op | op in m
      ensures Strict(m[op]) && Configured(op, m[op])
    {
    }
    StrictItems(start);
    if c.JArray? {
      StrictArray(c.items) by { assert StrictAll(c.items); }
    }
    hide Strict, Intersection, Compatible, Holds;
    if start.JArray? && Add !in m {
      forall x | Strict(x)
        ensures !Holds(Added(m), x)
      {
        assert !Holds([], x) by { NothingHeld(x); }
      }
    }
    if SubsetOf in m && c.JArray? {
      var ceiling := m[SubsetOf].items;
      StrictItems(m[SubsetOf]);
      IntersectionStrict(c.items, ceiling);
      StrictArray(Intersection(c.items, ceiling));
      if Comparables(c.items) {
        IntersectionComparable(c.items, ceiling);
      }
      forall x | Strict(x)
        ensures Holds(Intersection(c.items, ceiling), x) <==> Holds(c.items, x) && Holds(ceiling, x)
      {
        HoldsIntersection(c.items, ceiling, x);
      }
    }
  }

  lemma NothingHeld(x: Json)
    ensures !Holds([], x)
  {
  }

  /** The floor is met by what is left exactly if it was met before the cut. */
  lemma FloorIs(m: Policy, start: Json, r: Json)
    requires StrictReady(m) && StrictOrAbsent(start) && StrictOrAbsent(r) && Leaves(m, start, r) && SupersetOf in m
    requires start.JArray?
    ensures IsSubset(Items(m[SupersetOf]), Items(r)) <==>
            forall i :: 0 <= i < |Items(m[SupersetOf])| ==> HeldAtStart(m, start, Items(m[SupersetOf])[i])
  {
    var floor := Items(m[SupersetOf]);
    StrictItems(m[SupersetOf]);
    StrictItems(r);
    WithinIsSubset(floor, Items(r));
    if SubsetOf in m {
      CombineIsAgree(SupersetOf, m[SupersetOf], SubsetOf, m[SubsetOf]);
      assert Within(floor, Items(m[SubsetOf]));
    }
    hide Holds, Strict, IsSubset, HeldAtStart, CanCombine;
    forall i | 0 <= i < |floor|
      ensures Holds(Items(r), floor[i]) <==> HeldAtStart(m, start, floor[i])
    {
      assert Strict(floor[i]);
    }
  }

  lemma OneOfIs(m: Policy, start: Json)
    requires StrictReady(m) && StrictOrAbsent(start) && OneOf in m
    ensures Then(m, OneOf, Some(start)) == if Takes(OneOf, start) && Demands(OneOf, m[OneOf], start) then Some(start)
                                           else None
  {
    StrictItems(m[OneOf]);
    assert Configured(OneOf, m[OneOf]) && Strict(m[OneOf]);
    hide Strict, Holds, ContainsElement, Compatible;
    if !start.JUndefined? {
      HoldsIsHas(Items(m[OneOf]), start);
    }
  }

  lemma ChecksAre(m: Policy, start: Json, r: Json)
    requires StrictReady(m) && StrictOrAbsent(start) && StrictOrAbsent(r) && Leaves(m, start, r)
    requires IsComparableArray(start) <==> IsComparableArray(r)
    ensures Then(m, Essential, Then(m, SupersetOf, Some(r))) ==
            if && (SupersetOf in m ==> Takes(SupersetOf, start))
               && (SupersetOf in m && !start.JUndefined? ==> forall i :: 0 <= i < |Items(m[SupersetOf])| ==>
                     HeldAtStart(m, start, Items(m[SupersetOf])[i]))
               && (Essential in m ==> Takes(Essential, start))
               && (Essential in m && m[Essential] == JBool(true) ==> !start.JUndefined?)
            then Some(r) else None
  {
    if SupersetOf in m && start.JArray? {
      FloorIs(m, start, r);
    }
    forall op | op in m
      ensures Configured(op, m[op])
    {
    }
    hide Strict, Holds, IsSubset, HeldAtStart, Compatible;
  }

  /** On strict values a policy applies exactly if the value passes it, and leaves what it
      starts from with the additions and cut to the ceiling; an absent value becomes the
      default as it stands when nothing else changes it. */
  lemma OutcomeIs(m: Policy, v: Json)
    requires StrictReady(m) && StrictOrAbsent(v)
    ensures Apply(m, v).Some? <==> Passes(m, v)
    ensures Apply(m, v).Some? ==> Leaves(m, Start(m, v), Apply(m, v).value)
  {
    hide Begun, BegunAs, Start, Leaves, HeldAtStart, StrictReady, Demands, Apply, Takes, Finished;
    var start := Start(m, v);
    ApplyIsChain(m, v);
    BegunIs(m, v);
    if Begun(m, v).Some? {
      FinishedIs(m, start, Begun(m, v).value);
    } else {
      NothingFinished(m);
    }
  }

  lemma NothingFinished(m: Policy)
    ensures Finished(m, None).None?
  {
  }

  /** The last four operators, after the first three. */
  lemma FinishedIs(m: Policy, start: Json, c: Json)
    requires StrictReady(m) && StrictOrAbsent(start) && BegunAs(m, start, c)
    ensures Finished(m, Some(c)).Some? <==>
            && (OneOf in m ==> Takes(OneOf, start) && Demands(OneOf, m[OneOf], start))
            && (SubsetOf in m ==> Takes(SubsetOf, start)) && (SupersetOf in m ==> Takes(SupersetOf, start))
            && (SupersetOf in m && !start.JUndefined? ==> forall i :: 0 <= i < |Items(m[SupersetOf])| ==>
                  HeldAtStart(m, start, Items(m[SupersetOf])[i]))
            && (Essential in m ==> Takes(Essential, start))
            && (Essential in m && m[Essential] == JBool(true) ==> !start.JUndefined?)
    ensures Finished(m, Some(c)).Some? ==> Leaves(m, start, Finished(m, Some(c)).value)
  {
    hide Leaves, Holds, HeldAtStart, StrictReady, ApplyOp, Strict, Demands, Takes;
    if OneOf in m {
      OneOfAlone(m);
      OneOfIs(m, start);
    }
    CutIs(m, start, c);
    hide BegunAs;
    if Then(m, SubsetOf, Some(c)).Some? {
      var r := Then(m, SubsetOf, Some(c)).value;
      StillComparable(m, start, c, r);
      ChecksAre(m, start, r);
    }
  }

  lemma StillComparable(m: Policy, start: Json, c: Json, r: Json)
    requires BegunAs(m, start, c) && Leaves(m, start, r) && (SubsetOf in m ==> Takes(SubsetOf, start))
    requires Comparables(Items(c)) ==> Comparables(Items(r))
    ensures IsComparableArray(start) <==> IsComparableArray(r)
  {
    hide Holds, HeldAtStart, Strict;
    if IsComparableArray(start) {
      assert Comparables(Items(c));
    }
  }

  // ------------------------------------------------- what meets a chain is left alone

  /** What the policy fixes in place of the parameter. */
  function Fixed(m: Policy, r: Json): Json {
    if Value in m && !m[Value].JNull? then m[Value] else r
  }

  lemma {:induction false} ComparablesSame(a: Json, b: Json)
    requires Same(a, b)
    ensures IsComparableArray(a) <==> IsComparableArray(b)
    ensures IsValueOrDefault(a) <==> IsValueOrDefault(b)
  {
    ItemsSame(a, b);
    if a.JArray? {
      hide Same;
      forall i | 0 <= i < |a.items|
        ensures IsComparable(a.items[i]) <==> IsComparable(b.items[i])
      {
        ItemsSame(a.items[i], b.items[i]);
      }
    }
  }

  lemma TakesSame(op: Operator, r: Json, s: Json)
    requires Same(r, s)
    ensures Takes(op, r) <==> Takes(op, s)
  {
    ItemsSame(r, s);
    ComparablesSame(r, s);
    hide Same;
  }

  /** An operator that takes a parameter and is content with it leaves it alone. */
  lemma ContentKeeps(op: Operator, v: Json, r: Json)
    requires Strict(v) && StrictOrAbsent(r) && Configured(op, v) && !op.Value? && Takes(op, r) && Demands(op, v, r)
    ensures ApplyOp(op, r, v) == Some(r)
  {
    SatisfiesIsDemands(op, v, r);
    StrictItems(v);
    StrictItems(r);
    hide Strict, Demands, DeepEqual, IsSubset, ContainsElement, Names, Union, Intersection, Clear;
    if r.JArray? && (op.Add? || op.SubsetOf?) {
      StrictAllClear(v.items);
      StrictAllClear(r.items);
      SubsetNames(v.items, r.items);
      SubsetNames(r.items, v.items);
      UnionNames(r.items, v.items);
      IntersectionNames(r.items, v.items);
    }
  }

  lemma FixedIsSame(m: Policy, r: Json)
    requires StrictPolicy(m) && StrictOrAbsent(r) && Grants(m, r)
    ensures r.JUndefined? ==> Fixed(m, r).JUndefined?
    ensures !r.JUndefined? ==> Strict(Fixed(m, r)) && Same(r, Fixed(m, r))
  {
    if !r.JUndefined? {
      SameReflexive(r);
    }
    if Value in m {
      assert Demands(Value, m[Value], r);
      AbsentEquals(m[Value]);
    }
  }

  /** A parameter that grants all the policies of a chain, of the types their operators take,
      is what the merged policy leaves, in the words of the value it fixes if it fixes one. */
  lemma GrantedIsKept(ps: seq<Policy>, r: Json)
    requires StrictPolicies(ps) && StrictOrAbsent(r) && Resolve(ps).Some?
    requires forall i :: 0 <= i < |ps| ==> Grants(ps[i], r)
    requires forall op :: op in Resolve(ps).value ==> Takes(op, r)
    ensures Apply(Resolve(ps).value, r) == Some(Fixed(Resolve(ps).value, r))
    ensures r.JUndefined? || Same(r, Fixed(Resolve(ps).value, r))
  {
    hide Resolve, Grants, Apply, StrictReady, StrictPolicies, StrictOrAbsent, Takes, Same;
    ResolvedDemandsAll(ps, r);
    ResolvedReady(ps);
    GrantedKept(Resolve(ps).value, r);
  }

  lemma OperatorKeeps(m: Policy, r: Json, op: Operator)
    requires StrictReady(m) && StrictOrAbsent(r) && Grants(m, r) && op in m && Takes(op, r)
    ensures op.Value? ==> ApplyOp(op, r, m[op]) == Some(Fixed(m, r))
    ensures !op.Value? ==> ApplyOp(op, Fixed(m, r), m[op]) == Some(Fixed(m, r))
  {
    var kept := Fixed(m, r);
    FixedIsSame(m, r);
    assert Strict(m[op]) && Configured(op, m[op]) && Demands(op, m[op], r);
    hide Strict, Same, Compatible;
    if !op.Value? {
      hide Demands, Takes, Fixed, ApplyOp;
      if !r.JUndefined? {
        DemandsSame(op, m[op], r, kept);
        TakesSame(op, r, kept);
      }
      AbsentAlone(r, kept);
      ContentKeeps(op, m[op], kept);
    }
  }

  lemma AbsentAlone(r: Json, s: Json)
    requires r.JUndefined? ==> s.JUndefined?
    ensures r.JUndefined? ==> r == s
  {
  }

  lemma GrantedKept(m: Policy, r: Json)
    requires StrictReady(m) && StrictOrAbsent(r) && Grants(m, r) && forall op :: op in m ==> Takes(op, r)
    ensures Apply(m, r) == Some(Fixed(m, r)) && (r.JUndefined? || Same(r, Fixed(m, r)))
  {
    hide ApplyOp, Takes, Grants, StrictReady, Same, Apply, Then, Fixed;
    assert StrictPolicy(m) by { ReadyIsStrict(m); }
    hide StrictPolicy, StrictOrAbsent;
    FixedIsSame(m, r);
    ApplyIsChain(m, r);
    ThenKeeps(m, r, Value);
    ThenKeeps(m, r, Add);
    ThenKeeps(m, r, Default);
    ThenKeeps(m, r, OneOf);
    ThenKeeps(m, r, SubsetOf);
    ThenKeeps(m, r, SupersetOf);
    ThenKeeps(m, r, Essential);
  }

  lemma ReadyIsStrict(m: Policy)
    requires StrictReady(m)
    ensures StrictPolicy(m)
  {
  }

  lemma ThenKeeps(m: Policy, r: Json, op: Operator)
    requires StrictReady(m) && StrictOrAbsent(r) && Grants(m, r) && (op in m ==> Takes(op, r))
    ensures op.Value? ==> Then(m, op, Some(r)) == Some(Fixed(m, r))
    ensures !op.Value? ==> Then(m, op, Some(Fixed(m, r))) == Some(Fixed(m, r))
  {
    hide ApplyOp, Takes, Grants, StrictReady, StrictOrAbsent;
    if op in m {
      OperatorKeeps(m, r, op);
    }
  }

  /** The merged policy of a chain is ready to be applied, so all this holds of chains. */
  lemma ResolvedReady(ps: seq<Policy>)
    requires StrictPolicies(ps) && Resolve(ps).Some?
    ensures StrictReady(Resolve(ps).value)
  {
    hide Resolve, StrictPolicy, AllConfigured, Compatible, ClearPolicy;
    ResolveStrict(ps);
    StrictPoliciesClear(ps);
    ResolveKeeps(ps);
  }

  /** From the leaf's statement up: the policies that are there. */
  function FromLeaf(statements: seq<Option<OMap<Operator, Json>>>): seq<Policy> {
    if statements == [] then []
    else
      var last := statements[|statements| - 1];
      FromLeaf(statements[..|statements| - 1]) + if last.Some? then [last.value.at] else []
  }

  lemma {:induction false} FromLeafFirst(statements: seq<Option<OMap<Operator, Json>>>)
    requires statements != []
    ensures FromLeaf(statements) ==
            (if statements[0].Some? then [statements[0].value.at] else []) + FromLeaf(statements[1..])
  {
    var n := |statements| - 1;
    if n == 0 {
      assert statements[..0] == [] && statements[1..] == [];
    } else {
      FromLeafFirst(statements[..n]);
      assert statements[..n][1..] == statements[1..][..n - 1];
    }
  }

  /** The anchor's policy is merged first and the one nearest the leaf last; none is left out. */
  lemma {:induction false} AnchorFirst(statements: seq<Option<OMap<Operator, Json>>>)
    ensures var ps, qs := FromAnchor(statements), FromLeaf(statements);
            |ps| == |qs| && forall i :: 0 <= i < |ps| ==> ps[i] == qs[|qs| - 1 - i]
  {
    if statements != [] {
      hide FromAnchor, FromLeaf;
      AnchorFirst(statements[1..]);
      AnchorLast(statements);
      FromLeafFirst(statements);
      var ps, qs := FromAnchor(statements), FromLeaf(statements);
      var ps', qs' := FromAnchor(statements[1..]), FromLeaf(statements[1..]);
      if statements[0].Some? {
        assert forall i :: 0 <= i < |ps'| ==> ps[i] == ps'[i];
        assert forall i :: 0 <= i < |qs'| ==> qs[i + 1] == qs'[i];
      } else {
        assert qs == qs';
      }
    }
  }
}
