/** The canonical text that decides whether an update changed anything, and the
    proof that it decides by meaning: two values print alike exactly when they are
    equal up to object key order, undefined-valued members and the sign of zero. */
module Canonical {
  import opened Text
  import opened Sorting
  import opened JsonText

  type Num = x: Number | ValidNumber(x) witness Zero(false)

  /** A value as the program holds it; the keys of an object are distinct (`WellFormed`). */
  datatype Json =
    | JUndefined
    | JNull
    | JBool(b: bool)
    | JNumber(x: Num)
    | JString(s: Str)
    | JArray(items: seq<Json>)
    | JObject(members: seq<Member>)

  datatype Member = Member(key: Str, value: Json)

  const COMMA: CodeUnit := 0x2C
  const COLON: CodeUnit := 0x3A
  const LBRACKET: CodeUnit := 0x5B
  const RBRACKET: CodeUnit := 0x5D
  const LBRACE: CodeUnit := 0x7B
  const RBRACE: CodeUnit := 0x7D
  const TRUE: Str := [0x74, 0x72, 0x75, 0x65]
  const FALSE: Str := [0x66, 0x61, 0x6C, 0x73, 0x65]
  const NULL: Str := [0x6E, 0x75, 0x6C, 0x6C]
  const UNDEFINED: Str := [0x75, 0x6E, 0x64, 0x65, 0x66, 0x69, 0x6E, 0x65, 0x64]

  function KeyOf(m: Member): Str {
    m.key
  }

  ghost predicate DistinctKeys(ms: seq<Member>) {
    DistinctBy(ms, KeyOf)
  }

  ghost predicate WellFormed(v: Json) {
    match v
    case JArray(xs) => forall i :: 0 <= i < |xs| ==> WellFormed(xs[i])
    case JObject(ms) => DistinctKeys(ms) && forall i :: 0 <= i < |ms| ==> WellFormed(ms[i].value)
    case _ => true
  }

  /** Equality of meaning, without any order or printing. */
  ghost predicate Same(a: Json, b: Json) {
    match (a, b)
    case (JNumber(x), JNumber(y)) => SameNumber(x, y)
    case (JArray(xs), JArray(ys)) => |xs| == |ys| && forall i :: 0 <= i < |xs| ==> Same(xs[i], ys[i])
    case (JObject(ms), JObject(ns)) =>
      && (forall i :: 0 <= i < |ms| && !ms[i].value.JUndefined? ==> FoundIn(ms[i], ns))
      && (forall j :: 0 <= j < |ns| && !ns[j].value.JUndefined? ==> FoundFrom(ms, ns[j]))
    case _ => a == b
  }

  ghost predicate FoundIn(m: Member, ns: seq<Member>) {
    exists j :: 0 <= j < |ns| && ns[j].key == m.key && Same(m.value, ns[j].value)
  }

  ghost predicate FoundFrom(ms: seq<Member>, n: Member) {
    exists i :: 0 <= i < |ms| && ms[i].key == n.key && Same(ms[i].value, n.value)
  }

  // ---------------------------------------------------------------- printing

  predicate KeyAtMost(a: Member, b: Member) {
    AtMost(a.key, b.key)
  }

  function Defined(ms: seq<Member>): (r: seq<Member>)
    ensures forall m :: m in r <==> m in ms && !m.value.JUndefined?
  {
    if ms == [] then []
    else if ms[0].value.JUndefined? then Defined(ms[1..])
    else [ms[0]] + Defined(ms[1..])
  }

  /** The members that are printed, in key order. */
  function Printed(ms: seq<Member>): (r: seq<Member>)
    ensures forall m :: m in r <==> m in ms && !m.value.JUndefined?
  {
    SortPermutes(Defined(ms), KeyAtMost);
    Sort(Defined(ms), KeyAtMost)
  }

  function Canon(v: Json): Str {
    match v
    case JArray(xs) =>
      [LBRACKET] + (Join(COMMA, seq(|xs|, i requires 0 <= i < |xs| => Canon(xs[i]))) + [RBRACKET])
    case JObject(ms) =>
      var ps := Printed(ms);
      assert forall i :: 0 <= i < |ps| ==> ps[i] in ms;
      var texts := seq(|ps|, i requires 0 <= i < |ps| => Quoted(ps[i].key) + ([COLON] + Canon(ps[i].value)));
      [LBRACE] + (Join(COMMA, texts) + [RBRACE])
    case JString(s) => Quoted(s)
    case JNumber(x) => NumberText(x)
    case JBool(b) => if b then TRUE else FALSE
    case JNull => NULL
    case JUndefined => UNDEFINED
  }

  function ItemTexts(xs: seq<Json>): (r: seq<Str>)
    ensures |r| == |xs| && forall i :: 0 <= i < |xs| ==> r[i] == Canon(xs[i])
  {
    seq(|xs|, i requires 0 <= i < |xs| => Canon(xs[i]))
  }

  function MemberText(m: Member): Str {
    Quoted(m.key) + ([COLON] + Canon(m.value))
  }

  function MemberTexts(ms: seq<Member>): (r: seq<Str>)
    ensures |r| == |ms| && forall i :: 0 <= i < |ms| ==> r[i] == MemberText(ms[i])
  {
    seq(|ms|, i requires 0 <= i < |ms| => MemberText(ms[i]))
  }

  lemma CanonArray(v: Json)
    requires v.JArray?
    ensures Canon(v) == [LBRACKET] + (Join(COMMA, ItemTexts(v.items)) + [RBRACKET])
  {
    assert ItemTexts(v.items) == seq(|v.items|, i requires 0 <= i < |v.items| => Canon(v.items[i]));
  }

  lemma CanonObject(v: Json)
    requires v.JObject?
    ensures Canon(v) == [LBRACE] + (Join(COMMA, MemberTexts(Printed(v.members))) + [RBRACE])
  {
    var ps := Printed(v.members);
    assert MemberTexts(ps) == seq(|ps|, i requires 0 <= i < |ps| => Quoted(ps[i].key) + ([COLON] + Canon(ps[i].value)));
  }

  // ---------------------------------------------------------------- reading back

  predicate EndUnit(c: CodeUnit) {
    c == COMMA || c == RBRACKET || c == RBRACE
  }

  /** What may follow a value inside a larger text. */
  predicate Ends(r: Str) {
    r == [] || EndUnit(r[0])
  }

  predicate Closes(r: Str) {
    r != [] && (r[0] == RBRACKET || r[0] == RBRACE)
  }

  predicate Solid(p: Str) {
    p != [] && !EndUnit(p[0])
  }

  /** Text p is told from text q by what it says, not by what follows it. */
  ghost predicate Apart(p: Str, q: Str) {
    forall r1, r2 :: Ends(r1) && Ends(r2) && p + r1 == q + r2 ==> p == q && r1 == r2
  }

  predicate Scalar(v: Json) {
    v.JUndefined? || v.JNull? || v.JBool? || v.JNumber?
  }

  predicate TokenUnit(c: CodeUnit) {
    !EndUnit(c) && c != QUOTE && c != LBRACKET && c != LBRACE
  }

  lemma NumberToken(x: Num)
    ensures NumberText(x) != [] && NumberText(x)[0] < 0x66
    ensures forall i :: 0 <= i < |NumberText(x)| ==> NumberUnit(NumberText(x)[i])
  {
    hide Magnitude;
    if x.Decimal? {
      MagnitudeUnits(x.digits, x.point);
      LayoutVisible(x.digits, x.point);
    }
  }

  lemma ScalarToken(v: Json)
    requires Scalar(v)
    ensures Canon(v) != [] && forall i :: 0 <= i < |Canon(v)| ==> TokenUnit(Canon(v)[i])
  {
    hide NumberText;
    if v.JNumber? {
      NumberToken(v.x);
      assert forall c :: NumberUnit(c) ==> TokenUnit(c);
    }
  }

  /** The first unit of a text tells strings, arrays, objects and the rest apart. */
  lemma Head(v: Json)
    ensures Solid(Canon(v))
    ensures Canon(v)[0] == QUOTE <==> v.JString?
    ensures Canon(v)[0] == LBRACKET <==> v.JArray?
    ensures Canon(v)[0] == LBRACE <==> v.JObject?
  {
    if Scalar(v) {
      ScalarToken(v);
    } else if v.JArray? {
      CanonArray(v);
    } else if v.JObject? {
      CanonObject(v);
    }
  }

  lemma TokenApart(p: Str, q: Str)
    requires forall i :: 0 <= i < |p| ==> TokenUnit(p[i])
    requires forall i :: 0 <= i < |q| ==> TokenUnit(q[i])
    ensures Apart(p, q)
  {
    forall r1, r2 | Ends(r1) && Ends(r2) && p + r1 == q + r2
      ensures p == q && r1 == r2
    {
      var t := p + r1;
      assert |p| < |t| ==> EndUnit(t[|p|]);
      assert |q| < |t| ==> EndUnit(t[|q|]);
      assert forall i :: 0 <= i < |p| ==> TokenUnit(t[i]);
      assert forall i :: 0 <= i < |q| ==> TokenUnit(t[i]);
      assert |p| == |q|;
      assert p == t[..|p|] && q == t[..|p|] && r1 == t[|p|..] && r2 == t[|p|..];
    }
  }

  /** Joined lists of solid, pairwise apart texts are read back in one way. */
  lemma {:induction false} JoinInjective(ps: seq<Str>, qs: seq<Str>, r1: Str, r2: Str)
    requires forall i :: 0 <= i < |ps| ==> Solid(ps[i])
    requires forall j :: 0 <= j < |qs| ==> Solid(qs[j])
    requires forall i, j :: 0 <= i < |ps| && 0 <= j < |qs| ==> Apart(ps[i], qs[j])
    requires Closes(r1) && Closes(r2) && Join(COMMA, ps) + r1 == Join(COMMA, qs) + r2
    ensures ps == qs && r1 == r2
  {
    hide Join, Solid, Apart, After;
    if ps == [] || qs == [] {
      EmptyJoined(ps, qs, r1, r2);
    } else {
      FirstJoined(ps, qs, r1, r2);
      AfterHead(ps, r1);
      AfterHead(qs, r2);
      if |ps| > 1 {
        JoinInjective(ps[1..], qs[1..], r1, r2);
        assert ps == [ps[0]] + ps[1..] && qs == [qs[0]] + qs[1..];
      }
    }
  }

  lemma EmptyJoined(ps: seq<Str>, qs: seq<Str>, r1: Str, r2: Str)
    requires forall i :: 0 <= i < |ps| ==> Solid(ps[i])
    requires forall j :: 0 <= j < |qs| ==> Solid(qs[j])
    requires Closes(r1) && Closes(r2) && Join(COMMA, ps) + r1 == Join(COMMA, qs) + r2 && (ps == [] || qs == [])
    ensures ps == qs && r1 == r2
  {
    JoinHead(ps, r1);
    JoinHead(qs, r2);
    assert Join(COMMA, []) + r1 == r1 && Join(COMMA, []) + r2 == r2;
  }

  lemma FirstJoined(ps: seq<Str>, qs: seq<Str>, r1: Str, r2: Str)
    requires ps != [] && qs != [] && Apart(ps[0], qs[0])
    requires Closes(r1) && Closes(r2) && Join(COMMA, ps) + r1 == Join(COMMA, qs) + r2
    ensures ps[0] == qs[0] && After(ps) + r1 == After(qs) + r2
  {
    hide Join;
    JoinFirst(ps, r1);
    JoinFirst(qs, r2);
    AfterHead(ps, r1);
    AfterHead(qs, r2);
  }

  function After(ps: seq<Str>): Str
    requires ps != []
  {
    if |ps| == 1 then [] else [COMMA] + Join(COMMA, ps[1..])
  }

  lemma JoinFirst(ps: seq<Str>, r: Str)
    requires ps != []
    ensures Join(COMMA, ps) + r == ps[0] + (After(ps) + r)
  {
    assert Join(COMMA, ps) == ps[0] + After(ps);
    Associative(ps[0], After(ps), r);
  }

  lemma AfterHead(ps: seq<Str>, r: Str)
    requires ps != [] && Closes(r)
    ensures Ends(After(ps) + r) && ((After(ps) + r)[0] == COMMA <==> |ps| > 1)
    ensures |ps| == 1 ==> After(ps) + r == r
    ensures |ps| > 1 ==> (After(ps) + r)[1..] == Join(COMMA, ps[1..]) + r
  {
    if |ps| > 1 {
      Associative([COMMA], Join(COMMA, ps[1..]), r);
    }
  }

  lemma JoinHead(ps: seq<Str>, r: Str)
    requires (forall i :: 0 <= i < |ps| ==> Solid(ps[i])) && Closes(r)
    ensures Join(COMMA, ps) + r != [] && (EndUnit((Join(COMMA, ps) + r)[0]) <==> ps == [])
  {
    if ps != [] {
      JoinFirst(ps, r);
    }
  }

  lemma Bracketed(open: CodeUnit, body: Str, close: CodeUnit, r: Str)
    ensures (([open] + (body + [close])) + r)[1..] == body + ([close] + r)
  {
  }

  lemma BracketApart(open: CodeUnit, close: CodeUnit, ps: seq<Str>, qs: seq<Str>)
    requires close == RBRACKET || close == RBRACE
    requires forall i :: 0 <= i < |ps| ==> Solid(ps[i])
    requires forall j :: 0 <= j < |qs| ==> Solid(qs[j])
    requires forall i, j :: 0 <= i < |ps| && 0 <= j < |qs| ==> Apart(ps[i], qs[j])
    ensures Apart([open] + (Join(COMMA, ps) + [close]), [open] + (Join(COMMA, qs) + [close]))
    ensures [open] + (Join(COMMA, ps) + [close]) == [open] + (Join(COMMA, qs) + [close]) ==> ps == qs
  {
    var p, q := [open] + (Join(COMMA, ps) + [close]), [open] + (Join(COMMA, qs) + [close]);
    forall r1, r2 | Ends(r1) && Ends(r2) && p + r1 == q + r2
      ensures p == q && r1 == r2 && ps == qs
    {
      hide Join, Apart, Solid;
      Bracketed(open, Join(COMMA, ps), close, r1);
      Bracketed(open, Join(COMMA, qs), close, r2);
      JoinInjective(ps, qs, [close] + r1, [close] + r2);
      assert ([close] + r1)[1..] == r1 && ([close] + r2)[1..] == r2;
    }
    if p == q {
      assert Ends([]) && p + [] == q + [];
    }
  }

  lemma MemberApart(m: Member, n: Member)
    requires Apart(Canon(m.value), Canon(n.value))
    ensures Apart(MemberText(m), MemberText(n))
    ensures MemberText(m) == MemberText(n) ==> m.key == n.key && Canon(m.value) == Canon(n.value)
  {
    hide Canon, Quoted;
    var p, q := MemberText(m), MemberText(n);
    forall r1, r2 | Ends(r1) && Ends(r2) && p + r1 == q + r2
      ensures p == q && r1 == r2 && m.key == n.key && Canon(m.value) == Canon(n.value)
    {
      var u, v := Canon(m.value) + r1, Canon(n.value) + r2;
      assert p + r1 == Quoted(m.key) + ([COLON] + u);
      assert q + r2 == Quoted(n.key) + ([COLON] + v);
      QuotedInjective(m.key, [COLON] + u, n.key, [COLON] + v);
      assert ([COLON] + u)[1..] == u && ([COLON] + v)[1..] == v;
    }
    if p == q {
      assert Ends([]) && p + [] == q + [];
    }
  }

  lemma MemberSolid(m: Member)
    ensures Solid(MemberText(m))
  {
    hide Canon;
    assert MemberText(m)[0] == Quoted(m.key)[0] == QUOTE;
  }

  lemma HeadsApart(p: Str, q: Str)
    requires p != [] && q != [] && p[0] != q[0]
    ensures Apart(p, q)
  {
    forall r1, r2 | Ends(r1) && Ends(r2)
      ensures p + r1 != q + r2
    {
      assert (p + r1)[0] == p[0] && (q + r2)[0] == q[0];
    }
  }

  lemma QuotedApart(s: Str, t: Str)
    ensures Apart(Quoted(s), Quoted(t))
  {
    hide Quoted;
    forall r1, r2 | Ends(r1) && Ends(r2) && Quoted(s) + r1 == Quoted(t) + r2
      ensures Quoted(s) == Quoted(t) && r1 == r2
    {
      QuotedInjective(s, r1, t, r2);
    }
  }

  /** Every canonical text is delimited by its own content. */
  lemma {:induction false} CanonApart(a: Json, b: Json)
    ensures Apart(Canon(a), Canon(b))
    decreases a
  {
    Head(a);
    Head(b);
    if Scalar(a) && Scalar(b) {
      ScalarToken(a);
      ScalarToken(b);
      TokenApart(Canon(a), Canon(b));
    } else if a.JString? && b.JString? {
      QuotedApart(a.s, b.s);
    } else if a.JArray? && b.JArray? {
      ArraysApart(a, b);
    } else if a.JObject? && b.JObject? {
      ObjectsApart(a, b);
    } else {
      if Scalar(a) {
        ScalarToken(a);
      }
      if Scalar(b) {
        ScalarToken(b);
      }
      HeadsApart(Canon(a), Canon(b));
    }
  }

  lemma {:induction false} ArraysApart(a: Json, b: Json)
    requires a.JArray? && b.JArray?
    ensures Apart(Canon(a), Canon(b))
    ensures Canon(a) == Canon(b) ==> ItemTexts(a.items) == ItemTexts(b.items)
    decreases a, 0
  {
    hide Canon, Apart, Solid;
    var ps, qs := ItemTexts(a.items), ItemTexts(b.items);
    forall i | 0 <= i < |ps|
      ensures Solid(ps[i])
    {
      Head(a.items[i]);
    }
    forall j | 0 <= j < |qs|
      ensures Solid(qs[j])
    {
      Head(b.items[j]);
    }
    forall i, j | 0 <= i < |ps| && 0 <= j < |qs|
      ensures Apart(ps[i], qs[j])
    {
      CanonApart(a.items[i], b.items[j]);
    }
    BracketApart(LBRACKET, RBRACKET, ps, qs);
    CanonArray(a);
    CanonArray(b);
  }

  lemma {:induction false} ObjectsApart(a: Json, b: Json)
    requires a.JObject? && b.JObject?
    ensures Apart(Canon(a), Canon(b))
    ensures Canon(a) == Canon(b) ==> MemberTexts(Printed(a.members)) == MemberTexts(Printed(b.members))
    decreases a, 0
  {
    hide Canon, Apart, Solid, MemberText;
    var ms, ns := Printed(a.members), Printed(b.members);
    var ps, qs := MemberTexts(ms), MemberTexts(ns);
    forall i | 0 <= i < |ps|
      ensures Solid(ps[i])
    {
      MemberSolid(ms[i]);
    }
    forall j | 0 <= j < |qs|
      ensures Solid(qs[j])
    {
      MemberSolid(ns[j]);
    }
    forall i, j | 0 <= i < |ps| && 0 <= j < |qs|
      ensures Apart(ps[i], qs[j])
    {
      assert ms[i] in a.members;
      CanonApart(ms[i].value, ns[j].value);
      MemberApart(ms[i], ns[j]);
    }
    BracketApart(LBRACE, RBRACE, ps, qs);
    CanonObject(a);
    CanonObject(b);
  }

  lemma ScalarInjective(a: Json, b: Json)
    requires Scalar(a) && Scalar(b) && Canon(a) == Canon(b)
    ensures Same(a, b)
  {
    if a.JNumber? && b.JNumber? {
      NumberTextInjective(a.x, b.x);
    } else {
      if a.JNumber? {
        NumberToken(a.x);
      }
      if b.JNumber? {
        NumberToken(b.x);
      }
    }
  }

  /** Equal texts mean equal values. */
  lemma {:induction false} CanonInjective(a: Json, b: Json)
    requires Canon(a) == Canon(b)
    ensures Same(a, b)
    decreases a
  {
    Head(a);
    Head(b);
    if Scalar(a) && Scalar(b) {
      ScalarInjective(a, b);
    } else if a.JString? && b.JString? {
      assert Quoted(a.s) + [] == Quoted(b.s) + [];
      QuotedInjective(a.s, [], b.s, []);
    } else if a.JArray? {
      ArraysApart(a, b);
      forall i | 0 <= i < |a.items|
        ensures |a.items| == |b.items| && Same(a.items[i], b.items[i])
      {
        assert ItemTexts(a.items)[i] == ItemTexts(b.items)[i];
        CanonInjective(a.items[i], b.items[i]);
      }
      assert |ItemTexts(a.items)| == |ItemTexts(b.items)|;
    } else {
      ObjectInjective(a, b);
    }
  }

  lemma {:induction false} ObjectInjective(a: Json, b: Json)
    requires a.JObject? && b.JObject? && Canon(a) == Canon(b)
    ensures Same(a, b)
    decreases a, 0
  {
    hide Canon, Apart, MemberText, Same;
    var ms, ns := Printed(a.members), Printed(b.members);
    ObjectsApart(a, b);
    assert |ms| == |MemberTexts(ms)| == |ns|;
    forall k | 0 <= k < |ms|
      ensures ms[k].key == ns[k].key && Same(ms[k].value, ns[k].value)
    {
      assert MemberTexts(ms)[k] == MemberTexts(ns)[k];
      CanonApart(ms[k].value, ns[k].value);
      MemberApart(ms[k], ns[k]);
      assert ms[k] in a.members;
      CanonInjective(ms[k].value, ns[k].value);
    }
    MatchedMembersSame(a, b);
  }

  /** Objects whose printed members pair up are the same object. */
  lemma MatchedMembersSame(a: Json, b: Json)
    requires a.JObject? && b.JObject? && Paired(Printed(a.members), Printed(b.members))
    ensures Same(a, b)
  {
    hide Printed, FoundIn, FoundFrom, Paired;
    forall i | 0 <= i < |a.members| && !a.members[i].value.JUndefined?
      ensures FoundIn(a.members[i], b.members)
    {
      PairedForward(Printed(a.members), Printed(b.members), a.members[i], b.members);
    }
    forall j | 0 <= j < |b.members| && !b.members[j].value.JUndefined?
      ensures FoundFrom(a.members, b.members[j])
    {
      PairedBackward(Printed(a.members), Printed(b.members), a.members, b.members[j]);
    }
  }

  ghost predicate Paired(ps: seq<Member>, qs: seq<Member>) {
    |ps| == |qs| && forall k :: 0 <= k < |ps| ==> ps[k].key == qs[k].key && Same(ps[k].value, qs[k].value)
  }

  lemma PairedForward(ps: seq<Member>, qs: seq<Member>, m: Member, ns: seq<Member>)
    requires Paired(ps, qs) && m in ps && forall q :: q in qs ==> q in ns
    ensures FoundIn(m, ns)
  {
    var k :| 0 <= k < |ps| && ps[k] == m;
    assert qs[k] in ns;
    var j :| 0 <= j < |ns| && ns[j] == qs[k];
  }

  lemma PairedBackward(ps: seq<Member>, qs: seq<Member>, ms: seq<Member>, n: Member)
    requires Paired(ps, qs) && n in qs && forall p :: p in ps ==> p in ms
    ensures FoundFrom(ms, n)
  {
    var k :| 0 <= k < |qs| && qs[k] == n;
    assert ps[k] in ms;
    var i :| 0 <= i < |ms| && ms[i] == ps[k];
  }

  // ---------------------------------------------------------------- the converse

  ghost predicate Increasing(ks: seq<Str>) {
    forall i, j :: 0 <= i < j < |ks| ==> Less(ks[i], ks[j])
  }

  /** A set of keys has one increasing arrangement. */
  lemma {:induction false} IncreasingUnique(ks: seq<Str>, ls: seq<Str>)
    requires Increasing(ks) && Increasing(ls) && forall k :: k in ks <==> k in ls
    ensures ks == ls
  {
    assert ls != [] ==> ls[0] in ks;
    if ks != [] {
      assert ks[0] in ls;
      assert ls[0] in ks;
      if ks[0] != ls[0] {
        LessAsymmetric(ks[0], ls[0]);
      }
      forall k
        ensures k in ks[1..] <==> k in ls[1..]
      {
        LessIrreflexive(k);
        assert k in ks[1..] <==> k in ks && k != ks[0];
        assert k in ls[1..] <==> k in ls && k != ls[0];
      }
      IncreasingUnique(ks[1..], ls[1..]);
      assert ks == [ks[0]] + ks[1..] && ls == [ls[0]] + ls[1..];
    }
  }

  function KeysOf(ms: seq<Member>): (r: seq<Str>)
    ensures |r| == |ms| && forall i :: 0 <= i < |ms| ==> r[i] == ms[i].key
  {
    seq(|ms|, i requires 0 <= i < |ms| => ms[i].key)
  }

  lemma {:induction false} DefinedDistinct(ms: seq<Member>)
    requires DistinctKeys(ms)
    ensures DistinctKeys(Defined(ms))
  {
    if ms != [] {
      DefinedDistinct(ms[1..]);
      var rest := Defined(ms[1..]);
      forall i | 0 <= i < |rest|
        ensures rest[i].key != ms[0].key
      {
        assert rest[i] in ms[1..];
      }
    }
  }

  /** Sorting keeps keys distinct, so the printed keys increase strictly. */
  lemma PrintedIncreasing(ms: seq<Member>)
    requires DistinctKeys(ms)
    ensures Increasing(KeysOf(Printed(ms)))
  {
    var ps := Printed(ms);
    assert ps == Sort(Defined(ms), KeyAtMost);
    DefinedDistinct(ms);
    hide Sort, Less, Defined, Printed;
    SortAscends(Defined(ms), KeyOf, KeyAtMost, ps);
  }

  /** Equal values have equal texts. */
  lemma {:induction false} CanonRespects(a: Json, b: Json)
    requires WellFormed(a) && WellFormed(b) && Same(a, b)
    ensures Canon(a) == Canon(b)
    decreases a
  {
    if a.JNumber? {
      NumberTextInjective(a.x, b.x);
    } else if a.JArray? {
      var ps, qs := ItemTexts(a.items), ItemTexts(b.items);
      forall i | 0 <= i < |ps|
        ensures ps[i] == qs[i]
      {
        CanonRespects(a.items[i], b.items[i]);
      }
      assert ps == qs;
      CanonArray(a);
      CanonArray(b);
    } else if a.JObject? {
      ObjectRespects(a, b);
    }
  }

  lemma PrintedKeyForward(a: Json, b: Json, m: Member)
    requires a.JObject? && b.JObject? && Same(a, b) && m in Printed(a.members)
    ensures exists n :: n in Printed(b.members) && n.key == m.key && Same(m.value, n.value)
  {
    hide Printed;
    assert m in a.members && !m.value.JUndefined?;
    var i :| 0 <= i < |a.members| && a.members[i] == m;
    assert FoundIn(a.members[i], b.members);
    var j :| 0 <= j < |b.members| && b.members[j].key == m.key && Same(m.value, b.members[j].value);
    assert b.members[j] in Printed(b.members);
  }

  lemma PrintedKeyBackward(a: Json, b: Json, n: Member)
    requires a.JObject? && b.JObject? && Same(a, b) && n in Printed(b.members)
    ensures exists m :: m in Printed(a.members) && m.key == n.key
  {
    hide Printed;
    assert n in b.members && !n.value.JUndefined?;
    var j :| 0 <= j < |b.members| && b.members[j] == n;
    assert FoundFrom(a.members, b.members[j]);
    var i :| 0 <= i < |a.members| && a.members[i].key == n.key && Same(a.members[i].value, n.value);
    assert a.members[i] in Printed(a.members);
  }

  lemma KeyOfMember(ms: seq<Member>, m: Member)
    requires m in ms
    ensures m.key in KeysOf(ms)
  {
    var i :| 0 <= i < |ms| && ms[i] == m;
    assert KeysOf(ms)[i] == m.key;
  }

  lemma PrintedKeysAgree(a: Json, b: Json)
    requires a.JObject? && b.JObject? && WellFormed(a) && WellFormed(b) && Same(a, b)
    ensures KeysOf(Printed(a.members)) == KeysOf(Printed(b.members))
  {
    hide Printed, Same;
    var ms, ns := Printed(a.members), Printed(b.members);
    PrintedIncreasing(a.members);
    PrintedIncreasing(b.members);
    forall k | k in KeysOf(ms)
      ensures k in KeysOf(ns)
    {
      var p :| 0 <= p < |ms| && ms[p].key == k;
      PrintedKeyForward(a, b, ms[p]);
      var n :| n in ns && n.key == k;
      KeyOfMember(ns, n);
    }
    forall k | k in KeysOf(ns)
      ensures k in KeysOf(ms)
    {
      var q :| 0 <= q < |ns| && ns[q].key == k;
      PrintedKeyBackward(a, b, ns[q]);
      var m :| m in ms && m.key == k;
      KeyOfMember(ms, m);
    }
    IncreasingUnique(KeysOf(ms), KeysOf(ns));
  }

  /** Of the printed members of equal objects, the k-th have equal keys and values. */
  lemma PrintedPaired(a: Json, b: Json, k: nat)
    requires a.JObject? && b.JObject? && WellFormed(a) && WellFormed(b) && Same(a, b) && k < |Printed(a.members)|
    ensures k < |Printed(b.members)| && Printed(a.members)[k].key == Printed(b.members)[k].key
    ensures Same(Printed(a.members)[k].value, Printed(b.members)[k].value)
  {
    hide Printed, Same;
    var ms, ns := Printed(a.members), Printed(b.members);
    PrintedKeysAgree(a, b);
    assert |ms| == |KeysOf(ms)| == |ns|;
    assert KeysOf(ms)[k] == KeysOf(ns)[k];
    PrintedKeyForward(a, b, ms[k]);
    var n :| n in ns && n.key == ms[k].key && Same(ms[k].value, n.value);
    assert n in b.members && ns[k] in b.members;
    assert n == ns[k];
  }

  lemma {:induction false} ObjectRespects(a: Json, b: Json)
    requires a.JObject? && b.JObject? && WellFormed(a) && WellFormed(b) && Same(a, b)
    ensures Canon(a) == Canon(b)
    decreases a, 0
  {
    hide Printed, Same, Canon;
    var ms, ns := Printed(a.members), Printed(b.members);
    PrintedKeysAgree(a, b);
    assert |ms| == |KeysOf(ms)| == |ns|;
    forall k | 0 <= k < |ms|
      ensures MemberText(ms[k]) == MemberText(ns[k])
    {
      PrintedPaired(a, b, k);
      assert ms[k] in a.members && ns[k] in b.members;
      CanonRespects(ms[k].value, ns[k].value);
    }
    assert MemberTexts(ms) == MemberTexts(ns);
    CanonObject(a);
    CanonObject(b);
  }

  /** The canonical text is a faithful name of a value's meaning. */
  lemma CanonDecidesMeaning(a: Json, b: Json)
    requires WellFormed(a) && WellFormed(b)
    ensures Canon(a) == Canon(b) <==> Same(a, b)
  {
    if Canon(a) == Canon(b) {
      CanonInjective(a, b);
    }
    if Same(a, b) {
      CanonRespects(a, b);
    }
  }
}
