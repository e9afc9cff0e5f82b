/** Metadata policies for one parameter: the policies of the superiors are merged from the
    trust anchor down and the result is applied to the parameter's value. On clear values
    whatever comes out satisfies every operator of every superior; every value that is not
    clear has a chain on which that fails. */
module MetadataPolicy {
  import opened Options
  import opened Text
  import opened OrderedMaps
  import opened Canonical
  import opened PolicyValues
  import J = JsonText

  datatype Operator = Value | Add | Default | OneOf | SubsetOf | SupersetOf | Essential

  type Policy = map<Operator, Json>

  /** The order operators are applied in. */
  const ORDER: seq<Operator> := [Value, Add, Default, OneOf, SubsetOf, SupersetOf, Essential]

  // ------------------------------------------------- arrays compared by content

  predicate Has(arr: seq<Json>, x: Json) {
    exists i :: 0 <= i < |arr| && DeepEqual(x, arr[i])
  }

  predicate ContainsElement(arr: seq<Json>, x: Json) {
    exists i :: 0 <= i < |arr| && DeepEqual(arr[i], x)
  }

  predicate IsSubset(a: seq<Json>, b: seq<Json>) {
    forall i :: 0 <= i < |a| ==> Has(b, a[i])
  }

  function Union(a: seq<Json>, b: seq<Json>): seq<Json> {
    if b == [] then a
    else
      var before := Union(a, b[..|b| - 1]);
      if ContainsElement(before, b[|b| - 1]) then before else before + [b[|b| - 1]]
  }

  method ArrayUnion(a: seq<Json>, b: seq<Json>) returns (r: seq<Json>)
    ensures r == Union(a, b)
  {
    r := a;
    for i := 0 to |b|
      invariant r == Union(a, b[..i])
    {
      assert b[..i + 1][..i] == b[..i];
      if !ContainsElement(r, b[i]) {
        r := r + [b[i]];
      }
    }
    assert b[..|b|] == b;
  }

  function Intersection(a: seq<Json>, b: seq<Json>): seq<Json> {
    if a == [] then []
    else if Has(b, a[0]) then [a[0]] + Intersection(a[1..], b)
    else Intersection(a[1..], b)
  }

  // ------------------------------------------------- the operators

  function Items(v: Json): seq<Json> {
    if v.JArray? then v.items else []
  }

  predicate IsScalar(v: Json) {
    v.JString? || v.JNumber? || v.JBool?
  }

  predicate IsValueOrDefault(v: Json) {
    IsScalar(v) || v.JArray?
  }

  predicate IsComparable(v: Json) {
    v.JString? || v.JNumber? || v.JObject?
  }

  predicate IsComparableArray(v: Json) {
    v.JArray? && forall i :: 0 <= i < |v.items| ==> IsComparable(v.items[i])
  }

  /** `validateStandardPolicyOperatorConfiguration`. */
  predicate Configured(op: Operator, v: Json) {
    match op
    case Value => v.JNull? || IsValueOrDefault(v)
    case Default => IsValueOrDefault(v)
    case Add => IsComparableArray(v)
    case OneOf => IsComparableArray(v)
    case SubsetOf => IsComparableArray(v)
    case SupersetOf => IsComparableArray(v)
    case Essential => v.JBool?
  }

  /** The parameter is undefined where it is absent; nothing where the policy is violated. */
  function ApplyOp(op: Operator, cur: Json, v: Json): Option<Json> {
    if !Configured(op, v) then None
    else
      match op
      case Value =>
        if !cur.JUndefined? && !IsValueOrDefault(cur) then None
        else if v.JNull? then Some(JUndefined) else Some(v)
      case Add =>
        if cur.JUndefined? then Some(v)
        else if !IsComparableArray(cur) then None else Some(JArray(Union(cur.items, v.items)))
      case Default =>
        if cur.JUndefined? then Some(v) else if !IsValueOrDefault(cur) then None else Some(cur)
      case OneOf =>
        if cur.JUndefined? then Some(cur)
        else if IsComparable(cur) && ContainsElement(v.items, cur) then Some(cur) else None
      case SubsetOf =>
        if cur.JUndefined? then Some(cur)
        else if !IsComparableArray(cur) then None else Some(JArray(Intersection(cur.items, v.items)))
      case SupersetOf =>
        if cur.JUndefined? then Some(cur)
        else if IsComparableArray(cur) && IsSubset(v.items, cur.items) then Some(cur) else None
      case Essential =>
        if (v.b && cur.JUndefined?) || cur.JNull? then None else Some(cur)
  }

  function MergeOp(op: Operator, current: Json, more: Json): Option<Json> {
    if !Configured(op, current) || !Configured(op, more) then None
    else
      match op
      case Value => if DeepEqual(current, more) then Some(current) else None
      case Default => if DeepEqual(current, more) then Some(current) else None
      case Add => Some(JArray(Union(current.items, more.items)))
      case SupersetOf => Some(JArray(Union(current.items, more.items)))
      case SubsetOf => Some(JArray(Intersection(current.items, more.items)))
      case OneOf =>
        var both := Intersection(current.items, more.items);
        if both == [] then None else Some(JArray(both))
      case Essential => Some(JBool(current.b || more.b))
  }

  predicate SuitsValue(value: Json, other: Operator, v: Json) {
    match other
    case Value => false
    case Add => value.JArray? && IsSubset(Items(v), value.items)
    case Default => !value.JNull? && DeepEqual(value, v)
    case OneOf => !value.JArray? && ContainsElement(Items(v), value)
    case SubsetOf => value.JArray? && IsSubset(value.items, Items(v))
    case SupersetOf => value.JArray? && IsSubset(Items(v), value.items)
    case Essential => !(value.JNull? && v == JBool(true))
  }

  /** `canCombineWith` of one operator, asked about another. */
  predicate CanCombine(op: Operator, v: Json, other: Operator, w: Json) {
    match op
    case Value => SuitsValue(v, other, w)
    case Add =>
      if other.Add? || other.OneOf? then false
      else if other.Value? then SuitsValue(w, Add, v)
      else other.SubsetOf? ==> IsComparableArray(v) && IsComparableArray(w) && IsSubset(v.items, w.items)
    case Default =>
      if other.Default? then false else other.Value? ==> SuitsValue(w, Default, v)
    case OneOf =>
      if other.OneOf? || other.Add? || other.SubsetOf? || other.SupersetOf? then false
      else other.Value? ==> SuitsValue(w, OneOf, v)
    case SubsetOf =>
      if other.SubsetOf? || other.OneOf? then false
      else if other.Value? then SuitsValue(w, SubsetOf, v)
      else other.Add? || other.SupersetOf? ==>
          IsComparableArray(v) && IsComparableArray(w) && IsSubset(w.items, v.items)
    case SupersetOf =>
      if other.SupersetOf? || other.OneOf? then false
      else if other.Value? then SuitsValue(w, SupersetOf, v)
      else other.SubsetOf? ==> IsComparableArray(v) && IsComparableArray(w) && IsSubset(v.items, w.items)
    case Essential =>
      if other.Essential? then false else other.Value? ==> !(w.JNull? && v == JBool(true))
  }

  predicate Compatible(m: Policy) {
    forall a, b | a in m && b in m && a != b :: CanCombine(a, m[a], b, m[b])
  }

  /** One operator of a subordinate policy, taken in. */
  function MergedOp(m: Policy, op: Operator, v: Json): Option<Json> {
    if !Configured(op, v) then None else if op in m then MergeOp(op, m[op], v) else Some(v)
  }

  predicate Mergeable(m: Policy, p: Policy, ops: set<Operator>) {
    forall op | op in ops :: op in p && MergedOp(m, op, p[op]).Some?
  }

  /** The policy after taking in some of the operators of p. */
  function Taken(m: Policy, p: Policy, ops: set<Operator>): Policy
    requires Mergeable(m, p, ops)
  {
    map op | op in m.Keys + ops :: if op in ops then MergedOp(m, op, p[op]).value else m[op]
  }

  /** One policy taken in: all its operators, and then every pair must combine. */
  function MergeOne(m: Policy, p: Policy): Option<Policy> {
    if !Mergeable(m, p, p.Keys) then None
    else
      var merged := Taken(m, p, p.Keys);
      if Compatible(merged) then Some(merged) else None
  }

  /** The policies of a chain, the trust anchor's first. */
  function Resolve(ps: seq<Policy>): Option<Policy> {
    if ps == [] then Some(map[])
    else
      match Resolve(ps[..|ps| - 1])
      case None => None
      case Some(m) => MergeOne(m, ps[|ps| - 1])
  }

  function ApplyFirst(m: Policy, v: Json, k: nat): Option<Json>
    requires k <= |ORDER|
  {
    if k == 0 then Some(v)
    else
      match ApplyFirst(m, v, k - 1)
      case None => None
      case Some(cur) => if ORDER[k - 1] in m then ApplyOp(ORDER[k - 1], cur, m[ORDER[k - 1]]) else Some(cur)
  }

  function Apply(m: Policy, v: Json): Option<Json> {
    ApplyFirst(m, v, |ORDER|)
  }

  // ------------------------------------------------- step by step

  ghost function FirstOps(p: OMap<Operator, Json>, i: nat): (ops: set<Operator>)
    requires i <= |p.order|
    ensures forall op :: op in ops <==> op in p.order[..i]
  {
    set op | op in p.order[..i]
  }

  lemma FirstOpsNext(p: OMap<Operator, Json>, i: nat)
    requires i < |p.order|
    ensures FirstOps(p, i + 1) == FirstOps(p, i) + {p.order[i]} && p.order[i] !in FirstOps(p, i) && p.order[i] in p.at
  {
    assert p.order[..i + 1] == p.order[..i] + [p.order[i]];
    assert p.order[i] in p.order;
  }

  lemma FirstOpsAll(p: OMap<Operator, Json>)
    ensures FirstOps(p, |p.order|) == p.at.Keys
  {
    assert p.order[..|p.order|] == p.order;
  }

  lemma TakenNext(m: Policy, p: Policy, ops: set<Operator>, op: Operator)
    requires Mergeable(m, p, ops) && op !in ops && op in p
    ensures MergedOp(Taken(m, p, ops), op, p[op]) == MergedOp(m, op, p[op])
    ensures Mergeable(m, p, ops + {op}) <==> MergedOp(m, op, p[op]).Some?
    ensures MergedOp(m, op, p[op]).Some? ==>
            Taken(m, p, ops + {op}) == Taken(m, p, ops)[op := MergedOp(m, op, p[op]).value]
  {
    OnlyOwnEntry(m, Taken(m, p, ops), op, p[op]);
    hide MergedOp;
    if MergedOp(m, op, p[op]).Some? {
      assert Mergeable(m, p, ops + {op});
    }
  }

  lemma TakenNone(m: Policy, p: Policy)
    ensures Mergeable(m, p, {}) && Taken(m, p, {}) == m
  {
    assert m.Keys + {} == m.Keys;
  }

  lemma PartMergeable(m: Policy, p: Policy, ops: set<Operator>)
    requires Mergeable(m, p, p.Keys) && ops <= p.Keys
    ensures Mergeable(m, p, ops)
  {
  }

  /** The loop over the entries of one policy. */
  method MergeInto(m: Policy, p: OMap<Operator, Json>) returns (r: Option<Policy>)
    ensures r == MergeOne(m, p.at)
  {
    hide MergedOp, CanCombine, Mergeable, Taken;
    var merged := m;
    TakenNone(m, p.at);
    assert FirstOps(p, 0) == {};
    for i := 0 to |p.order|
      invariant Mergeable(m, p.at, FirstOps(p, i)) && merged == Taken(m, p.at, FirstOps(p, i))
    {
      var op := p.order[i];
      FirstOpsNext(p, i);
      TakenNext(m, p.at, FirstOps(p, i), op);
      var next := MergedOp(merged, op, p.at[op]);
      if next.None? {
        assert FirstOps(p, i + 1) <= p.at.Keys;
        if Mergeable(m, p.at, p.at.Keys) {
          PartMergeable(m, p.at, FirstOps(p, i + 1));
        }
        return None;
      }
      merged := merged[op := next.value];
    }
    FirstOpsAll(p);
    return if Compatible(merged) then Some(merged) else None;
  }

  lemma OnlyOwnEntry(m: Policy, n: Policy, op: Operator, v: Json)
    requires (op in m <==> op in n) && (op in m ==> m[op] == n[op])
    ensures MergedOp(m, op, v) == MergedOp(n, op, v)
  {
  }

  /** Statements come leaf first; the walk starts at the trust anchor's end. */
  method ResolvePolicies(statements: seq<Option<OMap<Operator, Json>>>) returns (r: Option<Policy>)
    ensures r == Resolve(FromAnchor(statements))
  {
    var merged: Policy := map[];
    var i := |statements|;
    while i > 0
      invariant 0 <= i <= |statements|
      invariant Resolve(FromAnchor(statements[i..])) == Some(merged)
    {
      hide MergeOne, FromAnchor;
      i := i - 1;
      assert statements[i..][1..] == statements[i + 1..];
      AnchorLast(statements[i..]);
      if statements[i].Some? {
        var next := MergeInto(merged, statements[i].value);
        if next.None? {
          FailsOn(statements, i);
          return None;
        }
        merged := next.value;
      }
    }
    assert statements[0..] == statements;
    return Some(merged);
  }

  /** The policies present, in the order they are merged. */
  function FromAnchor(statements: seq<Option<OMap<Operator, Json>>>): seq<Policy> {
    if statements == [] then []
    else FromAnchor(statements[1..]) + if statements[0].Some? then [statements[0].value.at] else []
  }

  lemma AnchorLast(statements: seq<Option<OMap<Operator, Json>>>)
    requires statements != []
    ensures var ps, earlier := FromAnchor(statements), FromAnchor(statements[1..]);
            if statements[0].None? then ps == earlier
            else ps != [] && ps[..|ps| - 1] == earlier && ps[|ps| - 1] == statements[0].value.at
  {
    assert FromAnchor(statements[1..]) + [] == FromAnchor(statements[1..]);
  }

  lemma {:induction false} FailsOn(statements: seq<Option<OMap<Operator, Json>>>, i: nat)
    requires i <= |statements| && Resolve(FromAnchor(statements[i..])).None?
    ensures Resolve(FromAnchor(statements)).None?
    decreases i
  {
    hide MergeOne, FromAnchor;
    if i == 0 {
      assert statements[0..] == statements;
    } else {
      assert statements[i - 1..][1..] == statements[i..];
      AnchorLast(statements[i - 1..]);
      FailsOn(statements, i - 1);
    }
  }

  method ApplyPolicy(m: Policy, v: Json) returns (r: Option<Json>)
    ensures r == Apply(m, v)
  {
    var cur := v;
    for k := 0 to |ORDER|
      invariant ApplyFirst(m, v, k) == Some(cur)
    {
      hide ApplyOp;
      if ORDER[k] in m {
        var next := ApplyOp(ORDER[k], cur, m[ORDER[k]]);
        if next.None? {
          StaysFailed(m, v, k + 1);
          return None;
        }
        cur := next.value;
      }
    }
    return Some(cur);
  }

  lemma {:induction false} StaysFailed(m: Policy, v: Json, k: nat)
    requires k <= |ORDER| && ApplyFirst(m, v, k).None?
    ensures Apply(m, v).None?
    decreases |ORDER| - k
  {
    if k < |ORDER| {
      hide ApplyOp;
      StaysFailed(m, v, k + 1);
    }
  }

  // ------------------------------------------------- arrays as sets of names

  /** Equal values have one name. */
  ghost function NameOf(v: Json): Str {
    Canon(Norm(v))
  }

  ghost predicate ClearAll(arr: seq<Json>) {
    forall i :: 0 <= i < |arr| ==> Clear(arr[i])
  }

  ghost function Names(arr: seq<Json>): set<Str> {
    set i | 0 <= i < |arr| :: NameOf(arr[i])
  }

  lemma HasNames(arr: seq<Json>, x: Json)
    requires ClearAll(arr) && Clear(x)
    ensures Has(arr, x) <==> NameOf(x) in Names(arr)
    ensures ContainsElement(arr, x) <==> NameOf(x) in Names(arr)
  {
    hide Clear, Norm, Canon, DeepEqual;
    forall i | 0 <= i < |arr|
      ensures DeepEqual(x, arr[i]) <==> NameOf(arr[i]) == NameOf(x)
      ensures DeepEqual(arr[i], x) <==> NameOf(arr[i]) == NameOf(x)
    {
      DeepIsText(x, arr[i]);
      DeepIsText(arr[i], x);
    }
  }

  lemma SubsetNames(a: seq<Json>, b: seq<Json>)
    requires ClearAll(a) && ClearAll(b)
    ensures IsSubset(a, b) <==> Names(a) <= Names(b)
  {
    hide Clear, NameOf, Has;
    forall i | 0 <= i < |a|
      ensures Has(b, a[i]) <==> NameOf(a[i]) in Names(b)
    {
      HasNames(b, a[i]);
    }
    assert forall i :: 0 <= i < |a| ==> NameOf(a[i]) in Names(a);
  }

  lemma NamesAppend(a: seq<Json>, x: Json)
    ensures Names(a + [x]) == Names(a) + {NameOf(x)}
  {
    hide NameOf;
    assert forall i :: 0 <= i < |a| ==> (a + [x])[i] == a[i];
    assert (a + [x])[|a|] == x;
    forall n
      ensures n in Names(a + [x]) <==> n in Names(a) || n == NameOf(x)
    {
      if n in Names(a) {
        var i :| 0 <= i < |a| && n == NameOf(a[i]);
        assert n == NameOf((a + [x])[i]);
      }
    }
  }

  lemma {:induction false} UnionNames(a: seq<Json>, b: seq<Json>)
    requires ClearAll(a) && ClearAll(b)
    ensures ClearAll(Union(a, b)) && Names(Union(a, b)) == Names(a) + Names(b)
    ensures Names(b) <= Names(a) ==> Union(a, b) == a
    ensures a <= Union(a, b)
  {
    hide Clear, NameOf, ContainsElement, Names;
    if b == [] {
      assert Names(b) == {} by { NamesEmpty(); }
    } else {
      var n := |b| - 1;
      UnionNames(a, b[..n]);
      NamesAppend(b[..n], b[n]);
      assert b == b[..n] + [b[n]];
      HasNames(Union(a, b[..n]), b[n]);
      NamesAppend(Union(a, b[..n]), b[n]);
    }
  }

  lemma NamesEmpty()
    ensures Names([]) == {}
  {
  }

  lemma {:induction false} IntersectionNames(a: seq<Json>, b: seq<Json>)
    requires ClearAll(a) && ClearAll(b)
    ensures ClearAll(Intersection(a, b)) && Names(Intersection(a, b)) == Names(a) * Names(b)
    ensures Names(a) <= Names(b) ==> Intersection(a, b) == a
    ensures forall x :: x in Intersection(a, b) ==> x in a
  {
    hide Clear, NameOf, Has, Names;
    if a == [] {
      NamesEmpty();
    } else {
      IntersectionNames(a[1..], b);
      NamesFirst(a[0], a[1..]);
      NamesFirst(a[0], Intersection(a[1..], b));
      assert a == [a[0]] + a[1..];
      HasNames(b, a[0]);
    }
  }

  lemma NamesFirst(x: Json, a: seq<Json>)
    ensures Names([x] + a) == {NameOf(x)} + Names(a)
  {
    hide NameOf;
    var xa := [x] + a;
    assert xa[0] == x && forall i :: 0 <= i < |a| ==> xa[i + 1] == a[i];
    forall n
      ensures n in Names(xa) <==> n == NameOf(x) || n in Names(a)
    {
      if n in Names(xa) {
        var i :| 0 <= i < |xa| && n == NameOf(xa[i]);
        assert i > 0 ==> n == NameOf(a[i - 1]);
      }
      if n in Names(a) {
        var i :| 0 <= i < |a| && n == NameOf(a[i]);
        assert n == NameOf(xa[i + 1]);
      }
    }
  }

  // ------------------------------------------------- what an operator asks for

  /** The operator is content with the parameter as it is; checks let an absent parameter pass. */
  ghost predicate Satisfies(op: Operator, v: Json, r: Json) {
    match op
    case Value => if v.JNull? then r.JUndefined? else DeepEqual(r, v)
    case Add => r.JArray? && IsSubset(Items(v), r.items)
    case Default => !r.JUndefined?
    case OneOf => r.JUndefined? || ContainsElement(Items(v), r)
    case SubsetOf => r.JUndefined? || (r.JArray? && IsSubset(r.items, Items(v)))
    case SupersetOf => r.JUndefined? || (r.JArray? && IsSubset(Items(v), r.items))
    case Essential => v == JBool(true) ==> !r.JUndefined?
  }

  ghost predicate ClearOrAbsent(r: Json) {
    r.JUndefined? || Clear(r)
  }

  lemma ClearItems(v: Json)
    requires ClearOrAbsent(v)
    ensures ClearAll(Items(v)) && (v.JArray? ==> ClearAll(v.items))
  {
  }

  lemma ClearArray(xs: seq<Json>)
    requires ClearAll(xs)
    ensures Clear(JArray(xs))
  {
  }

  lemma UnionEntails(xs: seq<Json>, ys: seq<Json>, rs: seq<Json>)
    requires ClearAll(xs) && ClearAll(ys) && ClearAll(rs)
    ensures IsSubset(Union(xs, ys), rs) <==> IsSubset(xs, rs) && IsSubset(ys, rs)
  {
    hide Names, IsSubset, Union, ClearAll;
    UnionNames(xs, ys);
    SubsetNames(xs, rs);
    SubsetNames(ys, rs);
    SubsetNames(Union(xs, ys), rs);
  }

  lemma IntersectionEntails(xs: seq<Json>, ys: seq<Json>, rs: seq<Json>)
    requires ClearAll(xs) && ClearAll(ys) && ClearAll(rs)
    ensures IsSubset(rs, Intersection(xs, ys)) <==> IsSubset(rs, xs) && IsSubset(rs, ys)
  {
    hide Names, IsSubset, Intersection, ClearAll;
    IntersectionNames(xs, ys);
    SubsetNames(rs, xs);
    SubsetNames(rs, ys);
    SubsetNames(rs, Intersection(xs, ys));
  }

  lemma OneOfEntails(xs: seq<Json>, ys: seq<Json>, r: Json)
    requires ClearAll(xs) && ClearAll(ys) && Clear(r)
    ensures ContainsElement(Intersection(xs, ys), r) <==> ContainsElement(xs, r) && ContainsElement(ys, r)
  {
    hide Names, ContainsElement, Intersection, ClearAll;
    IntersectionNames(xs, ys);
    HasNames(xs, r);
    HasNames(ys, r);
    HasNames(Intersection(xs, ys), r);
  }

  /** A merged operator asks for exactly what the two did together. */
  lemma MergeEntails(op: Operator, current: Json, more: Json, r: Json)
    requires Clear(current) && Clear(more) && ClearOrAbsent(r) && MergeOp(op, current, more).Some?
    ensures Satisfies(op, MergeOp(op, current, more).value, r) <==> Satisfies(op, current, r) && Satisfies(op, more, r)
  {
    hide Clear, DeepEqual, ContainsElement, IsSubset, Union, Intersection, ClearAll;
    ClearItems(current);
    ClearItems(more);
    ClearItems(r);
    if op.Value? {
      ValueEntails(current, more, r);
    } else if op.Add? || op.SupersetOf? {
      UnionEntails(current.items, more.items, Items(r));
    } else if op.SubsetOf? {
      IntersectionEntails(current.items, more.items, Items(r));
    } else if op.OneOf? && !r.JUndefined? {
      OneOfEntails(current.items, more.items, r);
    }
  }

  lemma ValueEntails(current: Json, more: Json, r: Json)
    requires Clear(current) && Clear(more) && ClearOrAbsent(r) && DeepEqual(current, more)
    ensures Satisfies(Value, current, r) ==> Satisfies(Value, more, r)
  {
    if !current.JNull? && !r.JUndefined? {
      hide DeepEqual, Clear, Norm, Canon;
      DeepIsText(current, more);
      DeepIsText(r, current);
      DeepIsText(r, more);
      NullIsNull(current, more);
    }
  }

  lemma NullIsNull(a: Json, b: Json)
    requires DeepEqual(a, b)
    ensures a.JNull? <==> b.JNull?
  {
  }

  ghost predicate ClearPolicy(m: Policy) {
    forall op :: op in m ==> Clear(m[op])
  }

  ghost predicate AllConfigured(m: Policy) {
    forall op :: op in m ==> Configured(op, m[op])
  }

  lemma MergedOpKeeps(m: Policy, op: Operator, v: Json)
    requires ClearPolicy(m) && AllConfigured(m) && Clear(v) && MergedOp(m, op, v).Some?
    ensures Clear(MergedOp(m, op, v).value) && Configured(op, MergedOp(m, op, v).value)
  {
    if op in m {
      var current := m[op];
      ClearItems(current);
      ClearItems(v);
      if op.Add? || op.SupersetOf? {
        UnionNames(current.items, v.items);
        ClearArray(Union(current.items, v.items));
        UnionComparable(current.items, v.items);
      } else if op.SubsetOf? || op.OneOf? {
        IntersectionNames(current.items, v.items);
        ClearArray(Intersection(current.items, v.items));
        IntersectionComparable(current.items, v.items);
      }
    }
  }

  ghost predicate Comparables(arr: seq<Json>) {
    forall i :: 0 <= i < |arr| ==> IsComparable(arr[i])
  }

  lemma {:induction false} UnionComparable(a: seq<Json>, b: seq<Json>)
    requires Comparables(a) && Comparables(b)
    ensures Comparables(Union(a, b))
  {
    if b != [] {
      UnionComparable(a, b[..|b| - 1]);
    }
  }

  lemma {:induction false} IntersectionComparable(a: seq<Json>, b: seq<Json>)
    requires Comparables(a)
    ensures Comparables(Intersection(a, b))
  {
    if a != [] {
      IntersectionComparable(a[1..], b);
    }
  }

  // ------------------------------------------------- merging keeps every demand

  ghost predicate ClearPolicies(ps: seq<Policy>) {
    forall i :: 0 <= i < |ps| ==> ClearPolicy(ps[i])
  }

  lemma MergeOneKeeps(m: Policy, p: Policy)
    requires ClearPolicy(m) && AllConfigured(m) && ClearPolicy(p) && MergeOne(m, p).Some?
    ensures var merged := MergeOne(m, p).value;
            ClearPolicy(merged) && AllConfigured(merged) && Compatible(merged)
  {
    hide MergedOp, Clear, Configured, CanCombine;
    forall op | op in p
      ensures MergedOp(m, op, p[op]).Some? && Clear(MergedOp(m, op, p[op]).value) &&
              Configured(op, MergedOp(m, op, p[op]).value)
    {
      MergedOpKeeps(m, op, p[op]);
    }
  }

  /** The parameter satisfies every operator of the policy. */
  ghost predicate Meets(p: Policy, r: Json) {
    forall op :: op in p ==> Satisfies(op, p[op], r)
  }

  lemma MergeOneEntails(m: Policy, p: Policy, r: Json)
    requires ClearPolicy(m) && ClearPolicy(p) && ClearOrAbsent(r) && MergeOne(m, p).Some?
    ensures Meets(MergeOne(m, p).value, r) <==> Meets(m, r) && Meets(p, r)
  {
    hide Clear, Configured, CanCombine, Satisfies, MergeOp, ClearOrAbsent;
    var merged := MergeOne(m, p).value;
    forall op | op in m || op in p
      ensures op in merged
      ensures Satisfies(op, merged[op], r) <==>
              (op in m ==> Satisfies(op, m[op], r)) && (op in p ==> Satisfies(op, p[op], r))
    {
      if op in m && op in p {
        assert MergedOp(m, op, p[op]).Some?;
        MergeEntails(op, m[op], p[op], r);
      }
    }
    assert forall op :: op in merged ==> op in m || op in p;
  }

  lemma {:induction false} ResolveKeeps(ps: seq<Policy>)
    requires ClearPolicies(ps) && Resolve(ps).Some?
    ensures ClearPolicy(Resolve(ps).value) && AllConfigured(Resolve(ps).value) && Compatible(Resolve(ps).value)
  {
    if ps != [] {
      hide MergeOne, ClearPolicy, AllConfigured, Compatible;
      ResolveKeeps(ps[..|ps| - 1]);
      MergeOneKeeps(Resolve(ps[..|ps| - 1]).value, ps[|ps| - 1]);
    }
  }

  lemma {:induction false} ResolveEntails(ps: seq<Policy>, r: Json)
    requires ClearPolicies(ps) && ClearOrAbsent(r) && Resolve(ps).Some?
    ensures Meets(Resolve(ps).value, r) <==> forall i :: 0 <= i < |ps| ==> Meets(ps[i], r)
  {
    if ps != [] {
      hide MergeOne, ClearPolicy, Meets, ClearOrAbsent;
      var n := |ps| - 1;
      ResolveKeeps(ps[..n]);
      MergeOneEntails(Resolve(ps[..n]).value, ps[n], r);
      ResolveEntails(ps[..n], r);
      assert forall i :: 0 <= i < n ==> ps[..n][i] == ps[i];
    }
  }

  // ------------------------------------------------- applying meets every demand

  /** One stage of the application. */
  predicate Stage(m: Policy, op: Operator, cur: Json, next: Json) {
    if op in m then ApplyOp(op, cur, m[op]) == Some(next) else next == cur
  }

  /** The values the parameter takes: after the value, add, default and subset operators. The
      checks in between and after leave it alone. */
  ghost predicate Stages(m: Policy, v: Json, c1: Json, c2: Json, c3: Json, r: Json) {
    && Stage(m, Value, v, c1) && Stage(m, Add, c1, c2) && Stage(m, Default, c2, c3) && Stage(m, OneOf, c3, c3)
    && Stage(m, SubsetOf, c3, r) && Stage(m, SupersetOf, r, r) && Stage(m, Essential, r, r)
  }

  lemma ApplyNext(m: Policy, v: Json, k: nat)
    requires 0 < k <= |ORDER| && ApplyFirst(m, v, k).Some?
    ensures ApplyFirst(m, v, k - 1).Some? &&
            Stage(m, ORDER[k - 1], ApplyFirst(m, v, k - 1).value, ApplyFirst(m, v, k).value)
  {
    hide ApplyOp;
  }

  lemma ChecksChangeNothing(m: Policy, op: Operator, cur: Json, next: Json)
    requires Stage(m, op, cur, next) && (op.OneOf? || op.SupersetOf? || op.Essential?)
    ensures next == cur
  {
  }

  lemma ApplyStages(m: Policy, v: Json) returns (c1: Json, c2: Json, c3: Json)
    requires Apply(m, v).Some?
    ensures Stages(m, v, c1, c2, c3, Apply(m, v).value)
  {
    hide Stage, ApplyFirst;
    ApplyNext(m, v, 7);
    ApplyNext(m, v, 6);
    ApplyNext(m, v, 5);
    ApplyNext(m, v, 4);
    ApplyNext(m, v, 3);
    ApplyNext(m, v, 2);
    ApplyNext(m, v, 1);
    assert ApplyFirst(m, v, 0) == Some(v) by { ApplyNone(m, v); }
    c1, c2, c3 := ApplyFirst(m, v, 1).value, ApplyFirst(m, v, 2).value, ApplyFirst(m, v, 3).value;
    ChecksChangeNothing(m, OneOf, c3, ApplyFirst(m, v, 4).value);
    ChecksChangeNothing(m, SupersetOf, ApplyFirst(m, v, 5).value, ApplyFirst(m, v, 6).value);
    ChecksChangeNothing(m, Essential, ApplyFirst(m, v, 6).value, ApplyFirst(m, v, 7).value);
  }

  lemma ApplyNone(m: Policy, v: Json)
    ensures ApplyFirst(m, v, 0) == Some(v)
  {
  }

  ghost predicate Ready(m: Policy) {
    ClearPolicy(m) && AllConfigured(m) && Compatible(m)
  }

  lemma StageClear(m: Policy, op: Operator, cur: Json, next: Json)
    requires Ready(m) && ClearOrAbsent(cur) && Stage(m, op, cur, next)
    ensures ClearOrAbsent(next)
  {
    if op in m && !cur.JUndefined? {
      ClearItems(cur);
      ClearItems(m[op]);
      if op.Add? {
        UnionNames(cur.items, m[op].items);
        ClearArray(Union(cur.items, m[op].items));
      } else if op.SubsetOf? {
        IntersectionNames(cur.items, m[op].items);
        ClearArray(Intersection(cur.items, m[op].items));
      }
    }
  }

  lemma StagesClear(m: Policy, v: Json, c1: Json, c2: Json, c3: Json, r: Json)
    requires Ready(m) && ClearOrAbsent(v) && Stages(m, v, c1, c2, c3, r)
    ensures ClearOrAbsent(c1) && ClearOrAbsent(c2) && ClearOrAbsent(c3) && ClearOrAbsent(r)
  {
    hide Stage, Ready, ClearOrAbsent;
    StageClear(m, Value, v, c1);
    StageClear(m, Add, c1, c2);
    StageClear(m, Default, c2, c3);
    StageClear(m, SubsetOf, c3, r);
  }

  lemma Pair(m: Policy, a: Operator, b: Operator)
    requires Ready(m) && a in m && b in m && a != b
    ensures CanCombine(a, m[a], b, m[b])
  {
    hide CanCombine;
  }

  /** Subset then adds nothing back: what was added survives the cut. */
  lemma AddSurvives(m: Policy, v: Json, c1: Json, c2: Json, c3: Json, r: Json)
    requires Ready(m) && ClearOrAbsent(v) && Stages(m, v, c1, c2, c3, r) && Add in m
    ensures Satisfies(Add, m[Add], r)
  {
    hide DeepEqual, Clear, Union, Intersection, IsSubset, Names, CanCombine, Ready;
    StagesClear(m, v, c1, c2, c3, r);
    ReadyAt(m, Add);
    var adds := m[Add].items;
    ClearItems(m[Add]);
    ClearItems(c1);
    ClearItems(r);
    if !c1.JUndefined? {
      UnionNames(c1.items, adds);
    }
    assert c3 == c2 && c3.JArray? && Names(adds) <= Names(c3.items);
    if SubsetOf in m {
      ReadyAt(m, SubsetOf);
      Pair(m, Add, SubsetOf);
      ClearItems(m[SubsetOf]);
      ClearItems(c3);
      AddInSubset(m[Add], m[SubsetOf]);
      SubsetNames(adds, m[SubsetOf].items);
      IntersectionNames(c3.items, m[SubsetOf].items);
    }
    SubsetNames(adds, r.items);
  }

  lemma AddInSubset(v: Json, w: Json)
    requires CanCombine(Add, v, SubsetOf, w)
    ensures v.JArray? && w.JArray? && IsSubset(v.items, w.items)
  {
  }

  lemma ReadyAt(m: Policy, op: Operator)
    requires Ready(m) && op in m
    ensures Clear(m[op]) && Configured(op, m[op])
  {
  }

  /** A fixed value is not touched by the operators it may be combined with. */
  lemma ValueSurvives(m: Policy, v: Json, c1: Json, c2: Json, c3: Json, r: Json)
    requires Ready(m) && ClearOrAbsent(v) && Stages(m, v, c1, c2, c3, r) && Value in m && !m[Value].JNull?
    ensures r == m[Value] && Satisfies(Value, m[Value], r)
  {
    hide DeepEqual, Clear, Union, Intersection, IsSubset, Names, CanCombine, Ready;
    ReadyAt(m, Value);
    var value := m[Value];
    assert c1 == value;
    ClearItems(value);
    if Add in m {
      ReadyAt(m, Add);
      Pair(m, Value, Add);
      ClearItems(m[Add]);
      ValueWith(value, Add, m[Add]);
      SubsetNames(m[Add].items, value.items);
      UnionNames(value.items, m[Add].items);
    }
    assert c2 == value && c3 == value;
    if SubsetOf in m {
      ReadyAt(m, SubsetOf);
      Pair(m, Value, SubsetOf);
      ClearItems(m[SubsetOf]);
      ValueWith(value, SubsetOf, m[SubsetOf]);
      SubsetNames(value.items, m[SubsetOf].items);
      IntersectionNames(value.items, m[SubsetOf].items);
    }
    assert r == value;
    DeepIsText(value, value);
  }

  lemma ValueWith(value: Json, op: Operator, w: Json)
    requires CanCombine(Value, value, op, w)
    ensures op.Add? ==> value.JArray? && IsSubset(Items(w), value.items)
    ensures op.SubsetOf? ==> value.JArray? && IsSubset(value.items, Items(w))
  {
  }

  /** Removal combines with nothing that could bring the parameter back. */
  lemma RemovalStands(m: Policy, v: Json, c1: Json, c2: Json, c3: Json, r: Json)
    requires Ready(m) && Stages(m, v, c1, c2, c3, r) && Value in m && m[Value].JNull?
    ensures r.JUndefined?
  {
    hide DeepEqual, Clear, Union, Intersection, IsSubset, Ready, CanCombine;
    ReadyAt(m, Value);
    forall op | op == Add || op == Default
      ensures op !in m
    {
      if op in m {
        Pair(m, Value, op);
        NullWithNothing(m[Value], op, m[op]);
      }
    }
  }

  lemma NullWithNothing(value: Json, op: Operator, w: Json)
    requires value.JNull? && (op.Add? || op.Default?)
    ensures !CanCombine(Value, value, op, w)
  {
  }

  lemma ChecksHold(m: Policy, v: Json, c1: Json, c2: Json, c3: Json, r: Json, op: Operator)
    requires Ready(m) && ClearOrAbsent(v) && Stages(m, v, c1, c2, c3, r) && op in m
    requires op.Default? || op.OneOf? || op.SubsetOf? || op.SupersetOf? || op.Essential?
    ensures Satisfies(op, m[op], r)
  {
    hide DeepEqual, Clear, Union, Intersection, IsSubset, Names, ContainsElement, CanCombine, Ready;
    ReadyAt(m, op);
    if op.SubsetOf? && !c3.JUndefined? {
      StagesClear(m, v, c1, c2, c3, r);
      ClearItems(c3);
      ClearItems(m[op]);
      ClearItems(r);
      IntersectionNames(c3.items, m[op].items);
      SubsetNames(r.items, m[op].items);
    } else if op.OneOf? {
      if SubsetOf in m {
        Pair(m, OneOf, SubsetOf);
        OneOfWithoutSubset(m[OneOf], m[SubsetOf]);
      }
    }
  }

  lemma OneOfWithoutSubset(v: Json, w: Json)
    ensures !CanCombine(OneOf, v, SubsetOf, w)
  {
  }

  /** What an applied policy leaves meets all of it: later operators undo no earlier one. */
  lemma ApplyMeets(m: Policy, v: Json)
    requires Ready(m) && ClearOrAbsent(v) && Apply(m, v).Some?
    ensures ClearOrAbsent(Apply(m, v).value) && Meets(m, Apply(m, v).value)
  {
    hide Ready, Stages, Satisfies, Apply, ClearOrAbsent;
    var r := Apply(m, v).value;
    var c1, c2, c3 := ApplyStages(m, v);
    StagesClear(m, v, c1, c2, c3, r);
    forall op | op in m
      ensures Satisfies(op, m[op], r)
    {
      if op == Add {
        AddSurvives(m, v, c1, c2, c3, r);
      } else if op == Value {
        if m[Value].JNull? {
          RemovalStands(m, v, c1, c2, c3, r);
          AbsentSatisfiesNull(m[Value], r);
        } else {
          ValueSurvives(m, v, c1, c2, c3, r);
        }
      } else {
        ChecksHold(m, v, c1, c2, c3, r, op);
      }
    }
  }

  lemma AbsentSatisfiesNull(v: Json, r: Json)
    requires v.JNull? && r.JUndefined?
    ensures Satisfies(Value, v, r)
  {
  }

  /** No subordinate can loosen what a superior demands: on clear values, when the merged
      policy of a chain applies, the outcome meets every policy of the chain. */
  lemma PoliciesOnlyTighten(ps: seq<Policy>, v: Json)
    requires ClearPolicies(ps) && ClearOrAbsent(v) && Resolve(ps).Some? && Apply(Resolve(ps).value, v).Some?
    ensures forall i :: 0 <= i < |ps| ==> Meets(ps[i], Apply(Resolve(ps).value, v).value)
  {
    hide Resolve, Apply, Meets, ClearOrAbsent, ClearPolicy, AllConfigured, Compatible;
    ResolveKeeps(ps);
    ApplyMeets(Resolve(ps).value, v);
    ResolveEntails(ps, Apply(Resolve(ps).value, v).value);
  }

  // ------------------------------------------------- where it fails

  ghost predicate PlainPolicy(p: Policy) {
    forall op :: op in p ==> Plain(p[op])
  }

  /** The chain of two resolves and applies, and the outcome fails the second policy. */
  ghost predicate Breaks(p: Policy, q: Policy, v: Json) {
    && PlainPolicy(p) && PlainPolicy(q) && Plain(v)
    && Resolve([p, q]).Some? && Apply(Resolve([p, q]).value, v) == Some(v) && !Meets(q, v)
  }

  lemma ResolveOne(op: Operator, v: Json)
    requires Configured(op, v)
    ensures Resolve([map[op := v]]) == Some(map[op := v])
  {
    hide Configured, CanCombine;
    var p: Policy := map[op := v];
    assert [p][..0] == [];
    assert Resolve([]) == Some(map[]);
    assert Taken(map[], p, p.Keys) == p;
  }

  lemma ResolveTwo(op: Operator, v: Json, w: Json)
    requires Configured(op, v) && Configured(op, w) && MergeOp(op, v, w) == Some(v)
    ensures Resolve([map[op := v], map[op := w]]) == Some(map[op := v])
  {
    hide Configured, CanCombine, MergeOp;
    var p: Policy, q: Policy := map[op := v], map[op := w];
    ResolveOne(op, v);
    assert [p, q][..1] == [p];
    assert Taken(p, q, q.Keys) == p;
  }

  lemma ApplySingle(op: Operator, v: Json, cur: Json)
    requires ApplyOp(op, cur, v) == Some(cur)
    ensures Apply(map[op := v], cur) == Some(cur)
  {
    var m: Policy := map[op := v];
    ApplySingleFirst(m, op, cur, 7);
  }

  lemma {:induction false} ApplySingleFirst(m: Policy, op: Operator, cur: Json, k: nat)
    requires k <= |ORDER| && m.Keys == {op} && ApplyOp(op, cur, m[op]) == Some(cur)
    ensures ApplyFirst(m, cur, k) == Some(cur)
  {
    hide ApplyOp;
    if k > 0 {
      ApplySingleFirst(m, op, cur, k - 1);
    }
  }

  lemma SingletonPlain(x: Json)
    requires Plain(x)
    ensures Plain(JArray([x]))
  {
  }

  /** A value taken for another: the floor the other sets is lost in the merge. */
  lemma FloorIsLost(x: Json, b: Json)
    requires Plain(x) && Plain(b) && IsComparable(x) && IsComparable(b) && DeepEqual(x, b)
    ensures var p: Policy, q: Policy, v := map[SupersetOf := JArray([x])], map[SupersetOf := JArray([b])], JArray([x]);
            && PlainPolicy(p) && PlainPolicy(q) && Plain(v)
            && Resolve([p, q]) == Some(p) && Apply(p, v) == Some(v)
  {
    hide Plain, DeepEqual;
    SingletonPlain(x);
    SingletonPlain(b);
    Reflexive(x);
    assert Union([x], [b]) == [x] by {
      assert [b][..0] == [];
      assert Union([x], []) == [x];
      assert DeepEqual([x][0], b);
    }
    ResolveTwo(SupersetOf, JArray([x]), JArray([b]));
    assert Has([x], x) by { assert DeepEqual(x, [x][0]); }
    ApplySingle(SupersetOf, JArray([x]), JArray([x]));
  }

  /** A value taken for another that is not taken for it fails that floor. */
  lemma OneWayBreaks(x: Json, b: Json)
    requires Plain(x) && Plain(b) && IsComparable(x) && IsComparable(b) && DeepEqual(x, b) && !DeepEqual(b, x)
    ensures Breaks(map[SupersetOf := JArray([x])], map[SupersetOf := JArray([b])], JArray([x]))
  {
    hide Plain, DeepEqual, Resolve, Apply;
    SingletonPlain(x);
    SingletonPlain(b);
    FloorIsLost(x, b);
    assert !Has([x], [b][0]);
    BreaksWhen(SupersetOf, JArray([x]), JArray([b]), JArray([x]));
  }

  lemma BreaksWhen(op: Operator, v: Json, w: Json, r: Json)
    requires Plain(v) && Plain(w) && Plain(r) && !Satisfies(op, w, r)
    requires Resolve([map[op := v], map[op := w]]) == Some(map[op := v]) && Apply(map[op := v], r) == Some(r)
    ensures Breaks(map[op := v], map[op := w], r)
  {
    hide Plain, Resolve, Apply, Satisfies;
    var q: Policy := map[op := w];
    assert op in q && q[op] == w;
  }

  /** Comparisons that do not compose: the second ceiling is lost in the merge. */
  lemma NoChainBreaks(x: Json, b: Json, c: Json)
    requires Plain(x) && Plain(b) && Plain(c) && IsComparable(x) && IsComparable(b) && IsComparable(c)
    requires DeepEqual(x, b) && DeepEqual(b, c) && !DeepEqual(x, c)
    ensures Breaks(map[SubsetOf := JArray([b])], map[SubsetOf := JArray([c])], JArray([x]))
  {
    hide Plain, DeepEqual;
    SingletonPlain(x);
    SingletonPlain(b);
    SingletonPlain(c);
    OneIntersection(b, c);
    OneIntersection(x, b);
    ResolveTwo(SubsetOf, JArray([b]), JArray([c]));
    ApplySingle(SubsetOf, JArray([b]), JArray([x]));
    assert !Has([c], [x][0]);
    BreaksWhen(SubsetOf, JArray([b]), JArray([c]), JArray([x]));
  }

  lemma OneIntersection(x: Json, y: Json)
    requires DeepEqual(x, y)
    ensures Intersection([x], [y]) == [x]
  {
    hide DeepEqual;
    assert DeepEqual(x, [y][0]);
    assert [x][1..] == [];
  }

  const K: Str := [0x6B]
  const Q: Str := [0x71]

  function Under(v: Json): Json {
    JObject([Member(K, v)])
  }

  lemma UnderEqual(x: Json, y: Json)
    ensures DeepEqual(Under(x), Under(y)) <==> DeepEqual(x, y)
    ensures Plain(x) ==> Plain(Under(x))
  {
    OwnKey([Member(K, y)], K);
    assert [Member(K, y)][0].key == K;
    assert Read(Under(y), K) == y;
    assert Under(x).members[0] == Member(K, x);
  }

  /** The guard cannot be spared: every plain value that is not clear, put under a key, has a
      chain that resolves and applies with an outcome that fails one of its policies. */
  lemma UnclearBreaks(x: Json) returns (b: Json)
    requires Plain(x) && !Clear(x)
    ensures Breaks(map[SupersetOf := JArray([Under(x)])], map[SupersetOf := JArray([Under(b)])], JArray([Under(x)]))
  {
    hide Plain, Clear, DeepEqual, Breaks;
    b := UnclearWitness(x);
    UnderEqual(x, b);
    UnderEqual(b, x);
    OneWayBreaks(Under(x), Under(b));
  }

  lemma OnePlain(k: Str, v: Json)
    requires IsScalar(v)
    ensures Plain(JObject([Member(k, v)])) && Plain(JArray([v]))
  {
    assert [Member(k, v)][0].value == v && [v][0] == v;
  }

  lemma LengthIsArray()
    ensures DeepEqual(JObject([Member(LENGTH, JNumber(NatNumber(1)))]), JArray([JString(Q)]))
  {
    hide NatNumber, J.NatText;
    LengthRead([JString(Q)]);
  }

  lemma ArrayIsIndexed()
    ensures DeepEqual(JArray([JString(Q)]), JObject([Member(J.NatText(0), JString(Q))]))
  {
    hide J.NatText;
    var ms := [Member(J.NatText(0), JString(Q))];
    OwnKey(ms, J.NatText(0));
    assert ms[0].key == J.NatText(0);
    assert Read(JObject(ms), J.NatText(0)) == JString(Q);
  }

  lemma LengthIsNotIndexed()
    ensures !DeepEqual(JObject([Member(LENGTH, JNumber(NatNumber(1)))]), JObject([Member(J.NatText(0), JString(Q))]))
  {
    hide NatNumber, J.NatText;
    var ms, ns := [Member(LENGTH, JNumber(NatNumber(1)))], [Member(J.NatText(0), JString(Q))];
    IndexIsOrdinary(0);
    OwnKey(ns, LENGTH);
    assert Read(JObject(ns), LENGTH) == JUndefined;
    assert ms[0].key == LENGTH && !DeepEqual(ms[0].value, Read(JObject(ns), ms[0].key));
  }

  /** A leaf that says it is one long passes for the anchor's array of one, and so past the
      subordinate's ceiling, whose own equality it does not meet. */
  lemma LengthPassesCeiling()
    ensures var leaf := Under(JObject([Member(LENGTH, JNumber(NatNumber(1)))]));
            var anchor := Under(JArray([JString(Q)]));
            var subordinate := Under(JObject([Member(J.NatText(0), JString(Q))]));
            Breaks(map[SubsetOf := JArray([anchor])], map[SubsetOf := JArray([subordinate])], JArray([leaf]))
  {
    var leaf := JObject([Member(LENGTH, JNumber(NatNumber(1)))]);
    var anchor := JArray([JString(Q)]);
    var subordinate := JObject([Member(J.NatText(0), JString(Q))]);
    hide NatNumber, J.NatText;
    LengthIsArray();
    ArrayIsIndexed();
    LengthIsNotIndexed();
    hide DeepEqual, Plain, Breaks;
    OnePlain(LENGTH, JNumber(NatNumber(1)));
    OnePlain(J.NatText(0), JString(Q));
    UnderEqual(leaf, anchor);
    UnderEqual(anchor, subordinate);
    UnderEqual(leaf, subordinate);
    UnderEqual(subordinate, subordinate);
    NoChainBreaks(Under(leaf), Under(anchor), Under(subordinate));
  }
}
