/** The equality that metadata policies compare by. It walks the keys of the left value, an
    array's keys being its indices, and reads each from the right value, where a key that is
    not its own may still be inherited. Exactly on values without a confusing object it is
    equality up to reading arrays as keyed by index, and so an equivalence. */
module PolicyValues {
  import opened Text
  import opened OrderedMaps
  import opened JsonText
  import opened Canonical

  predicate Composite(v: Json) {
    v.JArray? || v.JObject?
  }

  /** The own members of a value; an index is a key like any other. */
  function Entries(v: Json): (r: seq<Member>)
    requires Composite(v)
    ensures v.JObject? ==> r == v.members
    ensures v.JArray? ==> |r| == |v.items| && forall i :: 0 <= i < |r| ==> r[i] == Member(NatText(i), v.items[i])
  {
    if v.JObject? then v.members else seq(|v.items|, i requires 0 <= i < |v.items| => Member(NatText(i), v.items[i]))
  }

  /** The value of an own key. */
  function Get(ms: seq<Member>, k: Str): Json {
    if ms == [] then JUndefined else if ms[0].key == k then ms[0].value else Get(ms[1..], k)
  }

  const LENGTH: Str := [0x6C, 0x65, 0x6E, 0x67, 0x74, 0x68]
  const PROTO: Str := [0x5F, 0x5F, 0x70, 0x72, 0x6F, 0x74, 0x6F, 0x5F, 0x5F]

  /** What reading a key finds that is not an own one: an array has a length, and every
      value a prototype, which has no keys of its own to walk. The methods a prototype holds
      differ from every JSON value, as undefined does. */
  function Inherited(v: Json, k: Str): Json
    requires Composite(v)
  {
    if v.JArray? && k == LENGTH then JNumber(NatNumber(|v.items|)) else if k == PROTO then JObject([]) else JUndefined
  }

  function Read(v: Json, k: Str): Json
    requires Composite(v)
  {
    if k in KeysOf(Entries(v)) then Get(Entries(v), k) else Inherited(v, k)
  }

  predicate DeepEqual(a: Json, b: Json) {
    match a
    case JNumber(x) => b.JNumber? && SameNumber(x, b.x)
    case JArray(xs) =>
      if b.JArray? then |xs| == |b.items| && forall i :: 0 <= i < |xs| ==> DeepEqual(xs[i], b.items[i])
      else b.JObject? && |xs| == |b.members| && forall i :: 0 <= i < |xs| ==> DeepEqual(xs[i], Read(b, NatText(i)))
    case JObject(ms) =>
      Composite(b) && |ms| == |Entries(b)| && forall i :: 0 <= i < |ms| ==> DeepEqual(ms[i].value, Read(b, ms[i].key))
    case _ => a == b
  }

  // ------------------------------------------------- a length as a number

  function WithoutZeros(d: Str): (r: Str)
    ensures |r| <= |d| && d[..|r|] == r && (r != [] ==> r[|r| - 1] != DIGIT_ZERO)
    ensures d != [] && d[0] != DIGIT_ZERO ==> r != []
  {
    if d == [] || d[|d| - 1] != DIGIT_ZERO then d else WithoutZeros(d[..|d| - 1])
  }

  lemma {:induction false} NatTextLeads(n: nat)
    requires n > 0
    ensures NatText(n)[0] != DIGIT_ZERO
  {
    if n >= 10 {
      NatTextLeads(n / 10);
    }
  }

  /** A count as a finite number. */
  function NatNumber(n: nat): Num {
    if n == 0 then Zero(false)
    else
      NatTextLeads(n);
      Decimal(false, WithoutZeros(NatText(n)), |NatText(n)|)
  }

  /** A value as it comes out of a JSON text. */
  ghost predicate Plain(v: Json) {
    match v
    case JUndefined => false
    case JArray(xs) => forall i :: 0 <= i < |xs| ==> Plain(xs[i])
    case JObject(ms) => DistinctKeys(ms) && forall i :: 0 <= i < |ms| ==> Plain(ms[i].value)
    case _ => true
  }

  /** Arrays written as objects keyed by index. */
  function Norm(v: Json): Json {
    match v
    case JArray(xs) => JObject(seq(|xs|, i requires 0 <= i < |xs| => Member(NatText(i), Norm(xs[i]))))
    case JObject(ms) => JObject(seq(|ms|, i requires 0 <= i < |ms| => Member(ms[i].key, Norm(ms[i].value))))
    case _ => v
  }

  lemma NormEntries(v: Json)
    requires Composite(v)
    ensures Norm(v).JObject? && |Norm(v).members| == |Entries(v)|
    ensures forall i :: 0 <= i < |Entries(v)| ==>
            Norm(v).members[i] == Member(Entries(v)[i].key, Norm(Entries(v)[i].value))
  {
  }

  lemma IndexKeys(i: nat, j: nat)
    ensures NatText(i) == NatText(j) <==> i == j
  {
    NatRoundTrip(i);
    NatRoundTrip(j);
  }

  lemma EntriesDistinct(v: Json)
    requires Plain(v) && Composite(v)
    ensures DistinctKeys(Entries(v)) && forall i :: 0 <= i < |Entries(v)| ==> Plain(Entries(v)[i].value)
  {
    if v.JArray? {
      forall i, j | 0 <= i < j < |v.items|
        ensures NatText(i) != NatText(j)
      {
        IndexKeys(i, j);
      }
    }
  }

  lemma {:induction false} GetFinds(ms: seq<Member>, k: Str, j: nat)
    requires DistinctKeys(ms) && j < |ms| && ms[j].key == k
    ensures Get(ms, k) == ms[j].value
  {
    if j > 0 {
      assert KeyOf(ms[0]) != KeyOf(ms[j]);
      RestDistinct(ms);
      GetFinds(ms[1..], k, j - 1);
    }
  }

  lemma RestDistinct(ms: seq<Member>)
    requires DistinctKeys(ms) && ms != []
    ensures DistinctKeys(ms[1..])
  {
  }

  lemma {:induction false} GetMisses(ms: seq<Member>, k: Str)
    requires forall j :: 0 <= j < |ms| ==> ms[j].key != k
    ensures Get(ms, k) == JUndefined
  {
    if ms != [] {
      GetMisses(ms[1..], k);
    }
  }

  /** Member m has its equal among ns. */
  ghost predicate Matched(m: Member, ns: seq<Member>) {
    exists j :: 0 <= j < |ns| && ns[j].key == m.key && DeepEqual(m.value, ns[j].value)
  }

  lemma MatchedByGet(m: Member, ns: seq<Member>)
    requires DistinctKeys(ns) && Plain(m.value)
    ensures DeepEqual(m.value, Get(ns, m.key)) <==> Matched(m, ns)
  {
    if j :| 0 <= j < |ns| && ns[j].key == m.key {
      GetFinds(ns, m.key, j);
      assert Matched(m, ns) ==> exists k :: 0 <= k < |ns| && ns[k].key == m.key && DeepEqual(m.value, ns[k].value);
      forall k | 0 <= k < |ns| && ns[k].key == m.key
        ensures k == j
      {
        assert KeyOf(ns[k]) == KeyOf(ns[j]);
      }
    } else {
      GetMisses(ns, m.key);
    }
  }

  // ------------------------------------------------- what inheritance can confuse

  predicate IsEmpty(v: Json) {
    (v.JArray? && v.items == []) || (v.JObject? && v.members == [])
  }

  predicate IsCount(v: Json, n: nat) {
    v.JNumber? && SameNumber(v.x, NatNumber(n))
  }

  ghost predicate IsIndexKey(k: Str, n: nat) {
    exists i :: 0 <= i < n && NatText(i) == k
  }

  /** The object names its prototype as an empty value. */
  ghost predicate ProtoConfusing(ms: seq<Member>) {
    exists i :: 0 <= i < |ms| && ms[i].key == PROTO && IsEmpty(ms[i].value)
  }

  /** The object has as many keys as it says it is long, and the others are indices. */
  ghost predicate LengthConfusing(ms: seq<Member>) {
    exists i :: 0 <= i < |ms| && ms[i].key == LENGTH && IsCount(ms[i].value, |ms|) && OthersIndices(ms, i)
  }

  ghost predicate OthersIndices(ms: seq<Member>, i: nat) {
    forall j :: 0 <= j < |ms| && j != i ==> IsIndexKey(ms[j].key, |ms|)
  }

  ghost predicate Confusing(ms: seq<Member>) {
    ProtoConfusing(ms) || LengthConfusing(ms)
  }

  /** A plain value that holds no confusing object at any depth. */
  ghost predicate Clear(v: Json) {
    match v
    case JUndefined => false
    case JArray(xs) => forall i :: 0 <= i < |xs| ==> Clear(xs[i])
    case JObject(ms) => DistinctKeys(ms) && !Confusing(ms) && forall i :: 0 <= i < |ms| ==> Clear(ms[i].value)
    case _ => true
  }

  lemma {:induction false} ClearIsPlain(v: Json)
    requires Clear(v)
    ensures Plain(v)
  {
    match v
    case JArray(xs) =>
      forall i | 0 <= i < |xs|
        ensures Plain(xs[i])
      {
        ClearIsPlain(xs[i]);
      }
    case JObject(ms) =>
      forall i | 0 <= i < |ms|
        ensures Plain(ms[i].value)
      {
        ClearIsPlain(ms[i].value);
      }
    case _ =>
  }

  lemma IndexIsOrdinary(i: nat)
    ensures NatText(i) != LENGTH && NatText(i) != PROTO
  {
    assert LENGTH[0] == 0x6C && PROTO[0] == 0x5F;
  }

  lemma ClearEntries(v: Json)
    requires Clear(v) && Composite(v)
    ensures !Confusing(Entries(v)) && forall i :: 0 <= i < |Entries(v)| ==> Clear(Entries(v)[i].value)
  {
    if v.JArray? {
      forall i | 0 <= i < |v.items|
        ensures Entries(v)[i].key != LENGTH && Entries(v)[i].key != PROTO
      {
        IndexIsOrdinary(i);
      }
    }
  }

  lemma OwnKey(ns: seq<Member>, k: Str)
    ensures k in KeysOf(ns) <==> exists j :: 0 <= j < |ns| && ns[j].key == k
  {
    if k in KeysOf(ns) {
      var j :| 0 <= j < |ns| && KeysOf(ns)[j] == k;
      assert ns[j].key == k;
    }
    if j :| 0 <= j < |ns| && ns[j].key == k {
      assert KeysOf(ns)[j] == k;
    }
  }

  lemma EmptyEqual(v: Json)
    ensures DeepEqual(v, JObject([])) <==> IsEmpty(v)
  {
  }

  /** A read that is not of an own key tells nothing of a plain value but emptiness or a count. */
  lemma InheritedEqual(v: Json, b: Json, k: Str)
    requires Plain(v) && Composite(b) && DeepEqual(v, Inherited(b, k))
    ensures (k == PROTO && IsEmpty(v)) || (k == LENGTH && b.JArray? && IsCount(v, |b.items|))
  {
    EmptyEqual(v);
  }

  /** All members read equal. */
  ghost predicate AllRead(ms: seq<Member>, b: Json)
    requires Composite(b)
  {
    forall i :: 0 <= i < |ms| ==> DeepEqual(ms[i].value, Read(b, ms[i].key))
  }

  ghost predicate PlainMembers(ms: seq<Member>) {
    DistinctKeys(ms) && forall i :: 0 <= i < |ms| ==> Plain(ms[i].value)
  }

  /** Only a confusing object can equal another through what that one inherits. */
  lemma InheritedConfuses(ms: seq<Member>, b: Json, i: nat)
    requires Plain(b) && Composite(b) && PlainMembers(ms) && |ms| == |Entries(b)| && AllRead(ms, b)
    requires i < |ms| && ms[i].key !in KeysOf(Entries(b))
    ensures Confusing(ms)
  {
    hide DeepEqual, Plain, IsCount;
    InheritedEqual(ms[i].value, b, ms[i].key);
    if ms[i].key != PROTO && !ProtoConfusing(ms) {
      forall j | 0 <= j < |ms| && j != i
        ensures IsIndexKey(ms[j].key, |ms|)
      {
        assert KeyOf(ms[j]) != KeyOf(ms[i]);
        if ms[j].key !in KeysOf(Entries(b)) {
          InheritedEqual(ms[j].value, b, ms[j].key);
        } else {
          OwnKey(Entries(b), ms[j].key);
        }
      }
    }
  }

  lemma OwnRead(m: Member, b: Json)
    requires Plain(b) && Composite(b) && Plain(m.value) && m.key in KeysOf(Entries(b))
    ensures DeepEqual(m.value, Read(b, m.key)) <==> Matched(m, Entries(b))
  {
    hide DeepEqual, Plain;
    EntriesDistinct(b);
    MatchedByGet(m, Entries(b));
  }

  lemma MatchedIsOwn(m: Member, ns: seq<Member>)
    requires Matched(m, ns)
    ensures m.key in KeysOf(ns)
  {
    hide DeepEqual;
    OwnKey(ns, m.key);
  }

  /** The comparison of composites, all cases in one. */
  lemma DeepByReads(a: Json, b: Json)
    requires Plain(a) && Plain(b) && Composite(a) && Composite(b)
    ensures DeepEqual(a, b) <==> |Entries(a)| == |Entries(b)| && AllRead(Entries(a), b)
  {
    if a.JArray? && b.JArray? {
      EntriesDistinct(b);
      forall i | 0 <= i < |a.items| && |a.items| == |b.items|
        ensures Read(b, NatText(i)) == b.items[i]
      {
        OwnKey(Entries(b), NatText(i));
        GetFinds(Entries(b), NatText(i), i);
      }
    }
  }

  /** Members that have their equals read equal. */
  lemma MatchedRead(a: Json, b: Json)
    requires Plain(a) && Plain(b) && Composite(a) && Composite(b)
    requires |Entries(a)| == |Entries(b)| && AllMatched(Entries(a), Entries(b))
    ensures DeepEqual(a, b)
  {
    hide DeepEqual, Plain, Matched;
    DeepByReads(a, b);
    EntriesDistinct(a);
    forall i | 0 <= i < |Entries(a)|
      ensures DeepEqual(Entries(a)[i].value, Read(b, Entries(a)[i].key))
    {
      MatchedIsOwn(Entries(a)[i], Entries(b));
      OwnRead(Entries(a)[i], b);
    }
  }

  /** Without confusion it is a comparison of own members. */
  lemma DeepByEntries(a: Json, b: Json)
    requires Plain(a) && Plain(b) && Composite(a) && Composite(b) && !Confusing(Entries(a))
    ensures DeepEqual(a, b) <==> |Entries(a)| == |Entries(b)| && AllMatched(Entries(a), Entries(b))
  {
    hide DeepEqual, Plain, Matched, Confusing;
    var ms := Entries(a);
    DeepByReads(a, b);
    EntriesDistinct(a);
    if |ms| == |Entries(b)| && AllRead(ms, b) {
      forall i | 0 <= i < |ms|
        ensures Matched(ms[i], Entries(b))
      {
        if ms[i].key !in KeysOf(Entries(b)) {
          InheritedConfuses(ms, b, i);
        }
        OwnRead(ms[i], b);
      }
    }
    if |ms| == |Entries(b)| && AllMatched(ms, Entries(b)) {
      MatchedRead(a, b);
    }
  }

  lemma KeysDiffer(ms: seq<Member>)
    requires DistinctKeys(ms)
    ensures NoDuplicates(KeysOf(ms))
  {
    forall x, y | 0 <= x < y < |ms|
      ensures KeysOf(ms)[x] != KeysOf(ms)[y]
    {
      assert KeyOf(ms[x]) != KeyOf(ms[y]);
    }
  }

  /** As many keys on both sides, all of the one among the other, are the same keys. */
  lemma KeysFillUp(ks: seq<Str>, ls: seq<Str>)
    requires NoDuplicates(ks) && NoDuplicates(ls) && forall k :: k in ks ==> k in ls
    ensures |ks| == |ls| <==> forall k :: k in ls ==> k in ks
  {
    var a, b := set k | k in ks, set k | k in ls;
    OrderSize(ks, a);
    OrderSize(ls, b);
    hide NoDuplicates;
    assert a <= b;
    if |ks| == |ls| {
      SameSizeSame(a, b);
      assert forall k :: k in ls ==> k in b;
    }
    if forall k :: k in ls ==> k in ks {
      assert a == b;
    }
  }

  lemma SameSizeSame<T>(a: set<T>, b: set<T>)
    requires a <= b && |a| == |b|
    ensures a == b
  {
    assert b == a + (b - a);
  }

  lemma NormDefined(v: Json)
    requires Plain(v)
    ensures !Norm(v).JUndefined?
  {
  }

  /** On a clear value the comparison is equality of meaning, arrays being keyed by index. */
  lemma {:induction false} DeepIsSame(a: Json, b: Json)
    requires Clear(a) && Plain(b)
    ensures DeepEqual(a, b) <==> Same(Norm(a), Norm(b))
    decreases a
  {
    ClearIsPlain(a);
    if Composite(a) && Composite(b) {
      hide DeepEqual, Norm, Same, Plain, Clear, Confusing;
      var ms, ns := Entries(a), Entries(b);
      ClearEntries(a);
      DeepByEntries(a, b);
      EntriesDistinct(a);
      EntriesDistinct(b);
      EntriesSmaller(a);
      forall i, j | 0 <= i < |ms| && 0 <= j < |ns|
        ensures DeepEqual(ms[i].value, ns[j].value) <==> Same(Norm(ms[i].value), Norm(ns[j].value))
      {
        DeepIsSame(ms[i].value, ns[j].value);
      }
      SameByEntries(a, b);
    } else if a.JArray? || a.JObject? {
      NormEntries(a);
    } else if b.JArray? || b.JObject? {
      NormEntries(b);
    }
  }

  lemma EntriesSmaller(v: Json)
    requires Composite(v)
    ensures forall i :: 0 <= i < |Entries(v)| ==> Entries(v)[i].value < v
  {
  }

  lemma SameObjects(a: Json, b: Json)
    requires a.JObject? && b.JObject?
    ensures Same(a, b) <==>
            && (forall i :: 0 <= i < |a.members| && !a.members[i].value.JUndefined? ==>
                FoundIn(a.members[i], b.members))
            && (forall j :: 0 <= j < |b.members| && !b.members[j].value.JUndefined? ==>
                FoundFrom(a.members, b.members[j]))
  {
  }

  ghost predicate AllMatched(ms: seq<Member>, ns: seq<Member>) {
    forall i :: 0 <= i < |ms| ==> Matched(ms[i], ns)
  }

  lemma MatchedKeys(ms: seq<Member>, ns: seq<Member>)
    requires AllMatched(ms, ns)
    ensures forall k :: k in KeysOf(ms) ==> k in KeysOf(ns)
  {
    hide DeepEqual;
    forall k | k in KeysOf(ms)
      ensures k in KeysOf(ns)
    {
      var i :| 0 <= i < |ms| && KeysOf(ms)[i] == k;
      assert Matched(ms[i], ns);
      var j :| 0 <= j < |ns| && ns[j].key == ms[i].key && DeepEqual(ms[i].value, ns[j].value);
      assert KeysOf(ns)[j] == k;
    }
  }

  /** The two sides of the comparison by meaning, over members and their normal forms. */
  ghost predicate FoundBothWays(ps: seq<Member>, qs: seq<Member>) {
    (forall i :: 0 <= i < |ps| ==> FoundIn(ps[i], qs)) && (forall j :: 0 <= j < |qs| ==> FoundFrom(ps, qs[j]))
  }

  ghost predicate Alike(ms: seq<Member>, ps: seq<Member>) {
    |ps| == |ms| && forall i :: 0 <= i < |ms| ==> ps[i].key == ms[i].key
  }

  /** Comparing values of ms and ns is comparing the meaning of those of ps and qs. */
  ghost predicate Corresponds(ms: seq<Member>, ns: seq<Member>, ps: seq<Member>, qs: seq<Member>) {
    && Alike(ms, ps) && Alike(ns, qs)
    && forall i, j :: 0 <= i < |ms| && 0 <= j < |ns| ==>
         (DeepEqual(ms[i].value, ns[j].value) <==> Same(ps[i].value, qs[j].value))
  }

  lemma FoundInIsMatched(ms: seq<Member>, ns: seq<Member>, ps: seq<Member>, qs: seq<Member>, i: nat)
    requires Corresponds(ms, ns, ps, qs) && i < |ms|
    ensures FoundIn(ps[i], qs) <==> Matched(ms[i], ns)
  {
    hide DeepEqual, Norm, Same;
    if Matched(ms[i], ns) {
      var j :| 0 <= j < |ns| && ns[j].key == ms[i].key && DeepEqual(ms[i].value, ns[j].value);
      assert qs[j].key == ps[i].key && Same(ps[i].value, qs[j].value);
    }
    if FoundIn(ps[i], qs) {
      var j :| 0 <= j < |qs| && qs[j].key == ps[i].key && Same(ps[i].value, qs[j].value);
      assert ns[j].key == ms[i].key && DeepEqual(ms[i].value, ns[j].value);
    }
  }

  lemma FoundFromKey(ps: seq<Member>, n: Member)
    requires FoundFrom(ps, n)
    ensures n.key in KeysOf(ps)
  {
    hide Same;
    var i :| 0 <= i < |ps| && ps[i].key == n.key && Same(ps[i].value, n.value);
    assert KeysOf(ps)[i] == n.key;
  }

  lemma FoundFromKeys(ms: seq<Member>, ns: seq<Member>, ps: seq<Member>, qs: seq<Member>)
    requires Alike(ms, ps) && Alike(ns, qs) && FoundBothWays(ps, qs)
    ensures forall k :: k in KeysOf(ns) ==> k in KeysOf(ms)
  {
    hide Norm, FoundIn, FoundFrom;
    assert KeysOf(ms) == KeysOf(ps);
    forall j | 0 <= j < |ns|
      ensures KeysOf(ns)[j] in KeysOf(ps)
    {
      FoundFromKey(ps, qs[j]);
    }
  }

  lemma MatchedBack(ms: seq<Member>, ns: seq<Member>, ps: seq<Member>, qs: seq<Member>, j: nat)
    requires Corresponds(ms, ns, ps, qs) && DistinctKeys(ns) && j < |ns|
    requires AllMatched(ms, ns) && ns[j].key in KeysOf(ms)
    ensures FoundFrom(ps, qs[j])
  {
    hide DeepEqual, Norm, Same;
    var i :| 0 <= i < |ms| && KeysOf(ms)[i] == ns[j].key;
    assert Matched(ms[i], ns);
    var k :| 0 <= k < |ns| && ns[k].key == ms[i].key && DeepEqual(ms[i].value, ns[k].value);
    assert KeyOf(ns[k]) == KeyOf(ns[j]);
    assert k == j;
    assert ps[i].key == qs[j].key && Same(ps[i].value, qs[j].value);
  }

  lemma FoundBothWaysIsMatched(ms: seq<Member>, ns: seq<Member>, ps: seq<Member>, qs: seq<Member>)
    requires Corresponds(ms, ns, ps, qs) && DistinctKeys(ms) && DistinctKeys(ns)
    ensures FoundBothWays(ps, qs) <==> |ms| == |ns| && AllMatched(ms, ns)
  {
    assert Alike(ms, ps) && Alike(ns, qs);
    hide Matched, FoundIn, FoundFrom, Corresponds;
    KeysDiffer(ms);
    KeysDiffer(ns);
    forall i | 0 <= i < |ms|
      ensures FoundIn(ps[i], qs) <==> Matched(ms[i], ns)
    {
      FoundInIsMatched(ms, ns, ps, qs, i);
    }
    if AllMatched(ms, ns) {
      MatchedKeys(ms, ns);
      KeysFillUp(KeysOf(ms), KeysOf(ns));
      if FoundBothWays(ps, qs) {
        FoundFromKeys(ms, ns, ps, qs);
      }
      if |ms| == |ns| {
        forall j | 0 <= j < |ns|
          ensures FoundFrom(ps, qs[j])
        {
          assert KeysOf(ns)[j] in KeysOf(ns);
          MatchedBack(ms, ns, ps, qs, j);
        }
      }
    }
  }

  lemma SameByEntries(a: Json, b: Json)
    requires Plain(a) && Plain(b) && Composite(a) && Composite(b)
    requires forall i, j :: 0 <= i < |Entries(a)| && 0 <= j < |Entries(b)| ==>
               (DeepEqual(Entries(a)[i].value, Entries(b)[j].value) <==>
                Same(Norm(Entries(a)[i].value), Norm(Entries(b)[j].value)))
    ensures Same(Norm(a), Norm(b)) <==> |Entries(a)| == |Entries(b)| && AllMatched(Entries(a), Entries(b))
  {
    hide Norm, Same, Plain, DeepEqual, FoundBothWays, AllMatched;
    SameFound(a, b);
    NormEntries(a);
    NormEntries(b);
    EntriesDistinct(a);
    EntriesDistinct(b);
    assert Corresponds(Entries(a), Entries(b), Norm(a).members, Norm(b).members);
    FoundBothWaysIsMatched(Entries(a), Entries(b), Norm(a).members, Norm(b).members);
  }

  lemma {:induction false} NormWellFormed(v: Json)
    requires Plain(v)
    ensures WellFormed(Norm(v))
    decreases v
  {
    if Composite(v) {
      hide Plain, Norm;
      var ms := Entries(v);
      EntriesDistinct(v);
      EntriesSmaller(v);
      NormEntries(v);
      var ps := Norm(v).members;
      forall i | 0 <= i < |ps|
        ensures WellFormed(ps[i].value)
      {
        NormWellFormed(ms[i].value);
      }
      forall i, j | 0 <= i < j < |ps|
        ensures KeyOf(ps[i]) != KeyOf(ps[j])
      {
        assert KeyOf(ms[i]) != KeyOf(ms[j]);
      }
    }
  }

  /** Two clear values are equal exactly when one text names both. */
  lemma DeepIsText(a: Json, b: Json)
    requires Clear(a) && Clear(b)
    ensures DeepEqual(a, b) <==> Canon(Norm(a)) == Canon(Norm(b))
  {
    hide Plain, Norm, Canon, Same, WellFormed, Clear;
    ClearIsPlain(a);
    ClearIsPlain(b);
    DeepIsSame(a, b);
    NormWellFormed(a);
    NormWellFormed(b);
    CanonDecidesMeaning(Norm(a), Norm(b));
  }

  // ------------------------------------------------- and nowhere else

  lemma {:induction false} Reflexive(v: Json)
    requires Plain(v)
    ensures DeepEqual(v, v)
    decreases v
  {
    if Composite(v) {
      hide Plain;
      var ms := Entries(v);
      EntriesDistinct(v);
      EntriesSmaller(v);
      forall i | 0 <= i < |ms|
        ensures Matched(ms[i], ms)
      {
        Reflexive(ms[i].value);
      }
      MatchedRead(v, v);
    }
  }

  /** Equal meaning is always seen: own keys are read before inherited ones. */
  lemma {:induction false} SameIsDeep(a: Json, b: Json)
    requires Plain(a) && Plain(b) && Same(Norm(a), Norm(b))
    ensures DeepEqual(a, b)
    decreases a
  {
    if Composite(a) && Composite(b) {
      hide DeepEqual, Norm, Same, Plain;
      var ms, ns := Entries(a), Entries(b);
      EntriesDistinct(a);
      EntriesDistinct(b);
      EntriesSmaller(a);
      SameFound(a, b);
      forall i | 0 <= i < |ms|
        ensures Matched(ms[i], ns)
      {
        assert FoundIn(Norm(a).members[i], Norm(b).members);
        NormEntries(a);
        NormEntries(b);
        var j :| 0 <= j < |ns| && ns[j].key == ms[i].key && Same(Norm(ms[i].value), Norm(ns[j].value));
        SameIsDeep(ms[i].value, ns[j].value);
      }
      SameKeyCount(a, b);
      MatchedRead(a, b);
    } else if a.JArray? || a.JObject? {
      NormEntries(a);
    } else if b.JArray? || b.JObject? {
      NormEntries(b);
    }
  }

  lemma SameFound(a: Json, b: Json)
    requires Plain(a) && Plain(b) && Composite(a) && Composite(b)
    ensures Norm(a).JObject? && Norm(b).JObject?
    ensures Alike(Entries(a), Norm(a).members) && Alike(Entries(b), Norm(b).members)
    ensures Same(Norm(a), Norm(b)) <==> FoundBothWays(Norm(a).members, Norm(b).members)
  {
    hide Norm, Same, Plain, FoundIn, FoundFrom;
    NormEntries(a);
    NormEntries(b);
    EntriesDistinct(a);
    EntriesDistinct(b);
    SameObjects(Norm(a), Norm(b));
    forall i | 0 <= i < |Entries(a)|
      ensures !Norm(a).members[i].value.JUndefined?
    {
      NormDefined(Entries(a)[i].value);
    }
    forall j | 0 <= j < |Entries(b)|
      ensures !Norm(b).members[j].value.JUndefined?
    {
      NormDefined(Entries(b)[j].value);
    }
  }

  lemma SameKeyCount(a: Json, b: Json)
    requires Plain(a) && Plain(b) && Composite(a) && Composite(b) && Same(Norm(a), Norm(b))
    requires AllMatched(Entries(a), Entries(b))
    ensures |Entries(a)| == |Entries(b)|
  {
    hide Norm, Same, Plain, DeepEqual, AllMatched, FoundBothWays, Alike, NoDuplicates;
    SameFound(a, b);
    EntriesDistinct(a);
    EntriesDistinct(b);
    KeysDiffer(Entries(a));
    KeysDiffer(Entries(b));
    MatchedKeys(Entries(a), Entries(b));
    FoundFromKeys(Entries(a), Entries(b), Norm(a).members, Norm(b).members);
    KeysFillUp(KeysOf(Entries(a)), KeysOf(Entries(b)));
  }

  function Longest(ks: seq<Str>): (n: nat)
    ensures forall i :: 0 <= i < |ks| ==> |ks[i]| <= n
  {
    if ks == [] then 0
    else
      var n := Longest(ks[..|ks| - 1]);
      if n < |ks[|ks| - 1]| then |ks[|ks| - 1]| else n
  }

  /** A key none of the others is, and nothing inherits. */
  function NewKey(ks: seq<Str>): (k: Str)
    ensures k !in ks && k != LENGTH && k != PROTO
  {
    seq(Longest(ks) + 10, _ => 0)
  }

  /** With one member replaced, the others still read equal. */
  lemma ReplacedReads(ms: seq<Member>, i: nat, m: Member)
    requires PlainMembers(ms) && i < |ms| && Plain(m.value)
    requires forall j :: 0 <= j < |ms| && j != i ==> ms[j].key != m.key
    ensures Plain(JObject(ms[i := m]))
    ensures forall j :: 0 <= j < |ms| && j != i ==> DeepEqual(ms[j].value, Read(JObject(ms[i := m]), ms[j].key))
    ensures Read(JObject(ms[i := m]), m.key) == m.value
  {
    hide DeepEqual;
    var ns := ms[i := m];
    forall j, k | 0 <= j < k < |ns|
      ensures KeyOf(ns[j]) != KeyOf(ns[k])
    {
      assert KeyOf(ms[j]) != KeyOf(ms[k]);
    }
    forall j | 0 <= j < |ms| && j != i
      ensures DeepEqual(ms[j].value, Read(JObject(ns), ms[j].key))
    {
      assert ns[j] == ms[j];
      OwnKey(ns, ms[j].key);
      GetFinds(ns, ms[j].key, j);
      Reflexive(ms[j].value);
    }
    assert ns[i] == m;
    OwnKey(ns, m.key);
    GetFinds(ns, m.key, i);
  }

  /** Objects that differ in one member read equal one way and not the other. */
  lemma ReplacedOneWay(ms: seq<Member>, i: nat, m: Member)
    requires PlainMembers(ms) && i < |ms| && Plain(m.value)
    requires forall j :: 0 <= j < |ms| && j != i ==> ms[j].key != m.key
    requires DeepEqual(ms[i].value, Read(JObject(ms[i := m]), ms[i].key))
    requires !DeepEqual(m.value, Read(JObject(ms), m.key))
    ensures Plain(JObject(ms[i := m]))
    ensures DeepEqual(JObject(ms), JObject(ms[i := m])) && !DeepEqual(JObject(ms[i := m]), JObject(ms))
  {
    hide Plain, DeepEqual, Read;
    var a, b := JObject(ms), JObject(ms[i := m]);
    ReplacedReads(ms, i, m);
    MembersPlain(ms);
    DeepByReads(a, b);
    DeepByReads(b, a);
    assert Entries(b)[i] == m;
  }

  lemma NoProto(ms: seq<Member>, i: nat, m: Member)
    requires DistinctKeys(ms) && i < |ms| && ms[i].key == PROTO && m.key != PROTO
    ensures Read(JObject(ms[i := m]), PROTO) == JObject([])
  {
    var ns := ms[i := m];
    forall j | 0 <= j < |ns|
      ensures ns[j].key != PROTO
    {
      if j != i {
        assert KeyOf(ms[j]) != KeyOf(ms[i]);
      }
    }
    OwnKey(ns, PROTO);
  }

  /** An empty prototype member is taken for the inherited one, whatever stands in its place. */
  lemma ProtoWitness(ms: seq<Member>) returns (b: Json)
    requires PlainMembers(ms) && ProtoConfusing(ms)
    ensures Plain(b) && DeepEqual(JObject(ms), b) && !DeepEqual(b, JObject(ms))
  {
    var i :| 0 <= i < |ms| && ms[i].key == PROTO && IsEmpty(ms[i].value);
    var m := Member(NewKey(KeysOf(ms)), JNull);
    forall j | 0 <= j < |ms|
      ensures ms[j].key != m.key
    {
      assert KeysOf(ms)[j] == ms[j].key;
    }
    assert Read(JObject(ms), m.key) == JUndefined;
    assert !DeepEqual(JNull, JUndefined);
    NullIsPlain();
    hide Plain, DeepEqual, Read, IsEmpty;
    EmptyEqual(ms[i].value);
    NoProto(ms, i, m);
    ReplacedOneWay(ms, i, m);
    b := JObject(ms[i := m]);
  }

  lemma NullIsPlain()
    ensures Plain(JNull)
  {
  }

  function ItemAt(ms: seq<Member>, k: nat): Json {
    if NatText(k) in KeysOf(ms) then Get(ms, NatText(k)) else JNull
  }

  function AsArray(ms: seq<Member>): (r: seq<Json>)
    ensures |r| == |ms| && forall k :: 0 <= k < |r| ==> r[k] == ItemAt(ms, k)
  {
    seq(|ms|, k requires 0 <= k < |ms| => ItemAt(ms, k))
  }

  /** A length among n keys leaves no room for all n indices. */
  lemma MissingIndex(ms: seq<Member>) returns (k: nat)
    requires DistinctKeys(ms) && LENGTH in KeysOf(ms)
    ensures k < |ms| && NatText(k) !in KeysOf(ms)
  {
    var ks := KeysOf(ms);
    var indices := seq(|ms|, i requires 0 <= i < |ms| => NatText(i));
    var all := indices + [LENGTH];
    KeysDiffer(ms);
    forall i, j | 0 <= i < j < |all|
      ensures all[i] != all[j]
    {
      IndexIsOrdinary(i);
      IndexKeys(i, j);
    }
    OrderSize(all, set x | x in all);
    OrderSize(ks, set x | x in ks);
    if forall i :: 0 <= i < |ms| ==> NatText(i) in ks {
      assert forall x :: x in all ==> x in ks;
      SubsetSize(set x | x in all, set x | x in ks);
    }
    k :| 0 <= k < |ms| && NatText(k) !in ks;
  }

  lemma ItemPlain(ms: seq<Member>, k: nat)
    requires PlainMembers(ms)
    ensures Plain(ItemAt(ms, k))
  {
    OwnKey(ms, NatText(k));
    if j :| 0 <= j < |ms| && ms[j].key == NatText(k) {
      GetFinds(ms, NatText(k), j);
    }
  }

  lemma ArrayRead(xs: seq<Json>, k: nat)
    requires k < |xs| && Plain(JArray(xs))
    ensures Read(JArray(xs), NatText(k)) == xs[k]
  {
    EntriesDistinct(JArray(xs));
    OwnKey(Entries(JArray(xs)), NatText(k));
    GetFinds(Entries(JArray(xs)), NatText(k), k);
  }

  lemma LengthRead(xs: seq<Json>)
    ensures Read(JArray(xs), LENGTH) == JNumber(NatNumber(|xs|))
  {
    OwnKey(Entries(JArray(xs)), LENGTH);
    forall i | 0 <= i < |xs|
      ensures Entries(JArray(xs))[i].key != LENGTH
    {
      IndexIsOrdinary(i);
    }
  }

  lemma CountEqual(v: Json, n: nat)
    requires IsCount(v, n)
    ensures DeepEqual(v, JNumber(NatNumber(n)))
  {
  }

  lemma IndexedRead(ms: seq<Member>, xs: seq<Json>, j: nat, k: nat)
    requires PlainMembers(ms) && xs == AsArray(ms) && Plain(JArray(xs)) && j < |ms| && k < |ms| &&
             ms[j].key == NatText(k)
    ensures DeepEqual(ms[j].value, Read(JArray(xs), ms[j].key))
  {
    hide DeepEqual, Plain;
    ArrayRead(xs, k);
    OwnKey(ms, ms[j].key);
    GetFinds(ms, ms[j].key, j);
    Reflexive(ms[j].value);
  }

  lemma AsArrayReads(ms: seq<Member>, xs: seq<Json>, i: nat)
    requires PlainMembers(ms) && xs == AsArray(ms) && Plain(JArray(xs))
    requires i < |ms| && ms[i].key == LENGTH && IsCount(ms[i].value, |ms|) && OthersIndices(ms, i)
    ensures AllRead(ms, JArray(xs))
  {
    hide DeepEqual, Plain, Read, IsCount;
    LengthRead(xs);
    CountEqual(ms[i].value, |ms|);
    forall j | 0 <= j < |ms| && j != i
      ensures DeepEqual(ms[j].value, Read(JArray(xs), ms[j].key))
    {
      assert IsIndexKey(ms[j].key, |ms|);
      var k :| 0 <= k < |ms| && NatText(k) == ms[j].key;
      IndexedRead(ms, xs, j, k);
    }
  }

  lemma AsArrayPlain(ms: seq<Member>)
    requires PlainMembers(ms)
    ensures Plain(JArray(AsArray(ms)))
  {
    hide Plain;
    forall k | 0 <= k < |ms|
      ensures Plain(AsArray(ms)[k])
    {
      ItemPlain(ms, k);
    }
    ArrayPlain(AsArray(ms));
  }

  lemma AsArrayDiffers(ms: seq<Member>)
    requires PlainMembers(ms) && LENGTH in KeysOf(ms)
    ensures !DeepEqual(JArray(AsArray(ms)), JObject(ms))
  {
    hide Plain;
    var k := MissingIndex(ms);
    IndexIsOrdinary(k);
    assert Read(JObject(ms), NatText(k)) == JUndefined;
    assert !DeepEqual(AsArray(ms)[k], Read(JObject(ms), NatText(k)));
  }

  lemma MembersPlain(ms: seq<Member>)
    requires PlainMembers(ms)
    ensures Plain(JObject(ms))
  {
  }

  /** A member that says how many members there are is taken for the length of an array. */
  lemma LengthWitness(ms: seq<Member>) returns (b: Json)
    requires PlainMembers(ms) && LengthConfusing(ms)
    ensures Plain(b) && DeepEqual(JObject(ms), b) && !DeepEqual(b, JObject(ms))
  {
    hide Plain, DeepEqual, AllRead, IsCount, PlainMembers;
    var i :| 0 <= i < |ms| && ms[i].key == LENGTH && IsCount(ms[i].value, |ms|) && OthersIndices(ms, i);
    b := JArray(AsArray(ms));
    AsArrayPlain(ms);
    AsArrayReads(ms, b.items, i);
    MembersPlain(ms);
    DeepByReads(JObject(ms), b);
    OwnKey(ms, LENGTH);
    AsArrayDiffers(ms);
  }

  lemma ArrayPlain(xs: seq<Json>)
    requires forall k :: 0 <= k < |xs| ==> Plain(xs[k])
    ensures Plain(JArray(xs))
  {
  }

  /** Every plain value that is not clear is taken for another that is not taken for it. */
  lemma {:induction false} UnclearWitness(a: Json) returns (b: Json)
    requires Plain(a) && !Clear(a)
    ensures Plain(b) && DeepEqual(a, b) && !DeepEqual(b, a)
    decreases a
  {
    match a
    case JArray(xs) =>
      var i :| 0 <= i < |xs| && !Clear(xs[i]);
      var c := UnclearWitness(xs[i]);
      b := JArray(xs[i := c]);
      forall j | 0 <= j < |xs| && j != i
        ensures DeepEqual(xs[j], xs[j])
      {
        Reflexive(xs[j]);
      }
      assert b.items[i] == c;
    case JObject(ms) =>
      if ProtoConfusing(ms) {
        b := ProtoWitness(ms);
      } else if LengthConfusing(ms) {
        b := LengthWitness(ms);
      } else {
        var i :| 0 <= i < |ms| && !Clear(ms[i].value);
        var c := UnclearWitness(ms[i].value);
        b := MemberWitness(ms, i, c);
      }
  }

  lemma MemberWitness(ms: seq<Member>, i: nat, c: Json) returns (b: Json)
    requires PlainMembers(ms) && i < |ms| && Plain(c) && DeepEqual(ms[i].value, c) && !DeepEqual(c, ms[i].value)
    ensures Plain(b) && DeepEqual(JObject(ms), b) && !DeepEqual(b, JObject(ms))
  {
    hide Plain, DeepEqual;
    var m := Member(ms[i].key, c);
    forall j | 0 <= j < |ms| && j != i
      ensures ms[j].key != m.key
    {
      assert KeyOf(ms[j]) != KeyOf(ms[i]);
    }
    ReplacedReads(ms, i, m);
    OwnKey(ms, m.key);
    GetFinds(ms, m.key, i);
    assert Read(JObject(ms), m.key) == ms[i].value;
    hide Read;
    ReplacedOneWay(ms, i, m);
    b := JObject(ms[i := m]);
  }

  /** The guard is exact: comparing a plain value with others is equality of meaning, up to
      reading arrays as keyed by index, if and only if the value is clear. */
  lemma ClearIsExact(a: Json)
    requires Plain(a)
    ensures Clear(a) <==> forall b :: Plain(b) ==> (DeepEqual(a, b) <==> Same(Norm(a), Norm(b)))
  {
    hide Plain, Clear, DeepEqual, Same, Norm;
    if Clear(a) {
      forall b | Plain(b)
        ensures DeepEqual(a, b) <==> Same(Norm(a), Norm(b))
      {
        DeepIsSame(a, b);
      }
    } else {
      var b := UnclearWitness(a);
      OneWay(a, b);
      assert Plain(b) && DeepEqual(a, b) && !Same(Norm(a), Norm(b));
    }
  }

  lemma OneWay(a: Json, b: Json)
    requires Plain(a) && Plain(b) && !DeepEqual(b, a)
    ensures !Same(Norm(a), Norm(b))
  {
    hide Plain, DeepEqual, Same, Norm;
    if Same(Norm(a), Norm(b)) {
      SameSymmetric(a, b);
      SameIsDeep(b, a);
    }
  }

  lemma SameSymmetric(a: Json, b: Json)
    requires Plain(a) && Plain(b) && Same(Norm(a), Norm(b))
    ensures Same(Norm(b), Norm(a))
  {
    hide Plain, Same, Norm, Canon, WellFormed;
    NormWellFormed(a);
    NormWellFormed(b);
    CanonDecidesMeaning(Norm(a), Norm(b));
    CanonDecidesMeaning(Norm(b), Norm(a));
  }
}
