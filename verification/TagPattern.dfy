/** The regular expression for language tags, as an expression with its language. It matches
    exactly the tags of the grammar. */
module TagPattern {
  import opened Options
  import opened Text
  import opened LanguageTags

  // ------------------------------------------------- regular expressions

  /** A unit out of some ranges, one expression after another, one or another, and repetition
      between two bounds, the upper one perhaps open. */
  datatype Regex =
    | Unit(ranges: seq<(int, int)>)
    | Then(first: Regex, second: Regex)
    | Either(left: Regex, right: Regex)
    | Times(body: Regex, least: nat, most: Option<nat>)

  /** The flag that ignores case: outside a to z a unit stands only for itself. */
  function Fold(c: CodeUnit): CodeUnit {
    if 0x41 <= c <= 0x5A then c + 0x20 else c
  }

  predicate InRanges(c: CodeUnit, ranges: seq<(int, int)>) {
    exists i :: 0 <= i < |ranges| && ranges[i].0 <= Fold(c) <= ranges[i].1
  }

  function Concat(parts: seq<Str>): Str {
    if parts == [] then [] else parts[0] + Concat(parts[1..])
  }

  predicate Within(n: nat, least: nat, most: Option<nat>) {
    least <= n && (most.Some? ==> n <= most.value)
  }

  /** The expression matches the whole text. */
  ghost predicate Matches(r: Regex, s: Str) {
    match r
    case Unit(ranges) => |s| == 1 && InRanges(s[0], ranges)
    case Then(a, b) => exists k :: 0 <= k <= |s| && Matches(a, s[..k]) && Matches(b, s[k..])
    case Either(a, b) => Matches(a, s) || Matches(b, s)
    case Times(body, least, most) =>
      exists parts :: Concat(parts) == s && Within(|parts|, least, most)
                      && forall i :: 0 <= i < |parts| ==> Matches(body, parts[i])
  }

  const LETTER := Unit([(0x61, 0x7A)])
  const DIGIT := Unit([(0x30, 0x39)])
  const LETTER_OR_DIGIT := Unit([(0x61, 0x7A), (0x30, 0x39)])
  const ALL_BUT_X := Unit([(0x30, 0x39), (0x61, 0x77), (0x79, 0x7A)])
  const ONLY_X := Unit([(0x78, 0x78)])
  const DASH := Unit([(0x2D, 0x2D)])

  function Dashed(r: Regex): Regex { Then(DASH, r) }

  const LANGUAGE := Either(Then(Times(LETTER, 2, Some(3)), Times(Dashed(Times(LETTER, 3, Some(3))), 0, Some(3))),
                           Either(Times(LETTER, 4, Some(4)), Times(LETTER, 5, Some(8))))
  const SCRIPT := Times(Dashed(Times(LETTER, 4, Some(4))), 0, Some(1))
  const REGION := Times(Dashed(Either(Times(LETTER, 2, Some(2)), Times(DIGIT, 3, Some(3)))), 0, Some(1))
  const VARIANTS := Times(Dashed(Either(Times(LETTER_OR_DIGIT, 5, Some(8)),
                                        Then(DIGIT, Times(LETTER_OR_DIGIT, 3, Some(3))))), 0, None)
  const EXTENSION := Then(ALL_BUT_X, Times(Dashed(Times(LETTER_OR_DIGIT, 2, Some(8))), 1, None))
  const EXTENSIONS := Times(Dashed(EXTENSION), 0, None)
  const PRIVATE := Then(ONLY_X, Times(Dashed(Times(LETTER_OR_DIGIT, 1, Some(8))), 1, None))
  const TAIL := Then(VARIANTS, Then(EXTENSIONS, Times(Dashed(PRIVATE), 0, Some(1))))
  const TAG_PATTERN := Either(Then(LANGUAGE, Then(SCRIPT, Then(REGION, TAIL))), PRIVATE)

  // ------------------------------------------------- the pieces

  lemma ThenSplits(a: Regex, b: Regex, s: Str) returns (u: Str, v: Str)
    requires Matches(Then(a, b), s)
    ensures s == u + v && Matches(a, u) && Matches(b, v)
  {
    var k :| 0 <= k <= |s| && Matches(a, s[..k]) && Matches(b, s[k..]);
    u, v := s[..k], s[k..];
  }

  lemma ThenJoins(a: Regex, b: Regex, u: Str, v: Str)
    requires Matches(a, u) && Matches(b, v)
    ensures Matches(Then(a, b), u + v)
  {
    var s := u + v;
    assert s[..|u|] == u && s[|u|..] == v;
  }

  /** Every part is one unit. */
  ghost predicate Ones(parts: seq<Str>) {
    forall i :: 0 <= i < |parts| ==> |parts[i]| == 1
  }

  lemma {:induction false} ConcatOnes(parts: seq<Str>)
    requires Ones(parts)
    ensures |Concat(parts)| == |parts| && forall i :: 0 <= i < |parts| ==> Concat(parts)[i] == parts[i][0]
  {
    if parts != [] {
      ConcatOnes(parts[1..]);
    }
  }

  ghost predicate AllIn(s: Str, ranges: seq<(int, int)>) {
    forall i :: 0 <= i < |s| ==> InRanges(s[i], ranges)
  }

  /** A repeated class matches the texts of allowed length all of whose units are in it. */
  lemma UnitTimes(ranges: seq<(int, int)>, least: nat, most: Option<nat>, s: Str)
    ensures Matches(Times(Unit(ranges), least, most), s) <==> Within(|s|, least, most) && AllIn(s, ranges)
  {
    hide InRanges;
    var unit := Unit(ranges);
    if Matches(Times(unit, least, most), s) {
      var parts :| Concat(parts) == s && Within(|parts|, least, most)
                   && forall i :: 0 <= i < |parts| ==> Matches(unit, parts[i]);
      assert Ones(parts);
      ConcatOnes(parts);
      assert forall i :: 0 <= i < |parts| ==> InRanges(parts[i][0], ranges);
    }
    if Within(|s|, least, most) && AllIn(s, ranges) {
      var parts: seq<Str> := seq(|s|, i requires 0 <= i < |s| => [s[i]]);
      ConcatOnes(parts);
      assert Concat(parts) == s;
      assert forall i :: 0 <= i < |parts| ==> Matches(unit, parts[i]);
    }
  }

  lemma Classes(s: Str)
    ensures AllIn(s, LETTER.ranges) <==> Letters(s)
    ensures AllIn(s, DIGIT.ranges) <==> Digits(s)
    ensures AllIn(s, LETTER_OR_DIGIT.ranges) <==> Alphanumeric(s)
  {
    forall c: CodeUnit
      ensures InRanges(c, LETTER.ranges) <==> IsLetter(c)
      ensures InRanges(c, DIGIT.ranges) <==> IsDigit(c)
      ensures InRanges(c, LETTER_OR_DIGIT.ranges) <==> IsLetter(c) || IsDigit(c)
    {
      ClassOf(c);
    }
    hide InRanges, IsLetter, IsDigit;
  }

  lemma ClassOf(c: CodeUnit)
    ensures InRanges(c, LETTER.ranges) <==> IsLetter(c)
    ensures InRanges(c, DIGIT.ranges) <==> IsDigit(c)
    ensures InRanges(c, LETTER_OR_DIGIT.ranges) <==> IsLetter(c) || IsDigit(c)
    ensures InRanges(c, ALL_BUT_X.ranges) <==> (IsLetter(c) || IsDigit(c)) && LowerUnit(c) != LOWER_X
    ensures InRanges(c, ONLY_X.ranges) <==> LowerUnit(c) == LOWER_X
    ensures InRanges(c, DASH.ranges) <==> c == HYPHEN
  {
    var l, d, a, b := LETTER.ranges, DIGIT.ranges, LETTER_OR_DIGIT.ranges, ALL_BUT_X.ranges;
    assert l[0] == (0x61, 0x7A) && d[0] == (0x30, 0x39) && a[0] == (0x61, 0x7A) && a[1] == (0x30, 0x39);
    assert b[0] == (0x30, 0x39) && b[1] == (0x61, 0x77) && b[2] == (0x79, 0x7A);
    assert ONLY_X.ranges[0] == (0x78, 0x78) && DASH.ranges[0] == (0x2D, 0x2D);
  }

  lemma SubtagClasses(s: Str)
    ensures Matches(Times(LETTER, 3, Some(3)), s) <==> IsExtlang(s)
    ensures Matches(Times(LETTER, 4, Some(4)), s) <==> IsScript(s)
    ensures Matches(Either(Times(LETTER, 2, Some(2)), Times(DIGIT, 3, Some(3))), s) <==> IsRegion(s)
    ensures Matches(Times(LETTER_OR_DIGIT, 2, Some(8)), s) <==> IsExtensionPart(s)
    ensures Matches(Times(LETTER_OR_DIGIT, 1, Some(8)), s) <==> IsPrivatePart(s)
    ensures Matches(Times(LETTER, 2, Some(3)), s) <==> IsLanguage(s) && |s| <= 3
    ensures Matches(Either(Times(LETTER, 4, Some(4)), Times(LETTER, 5, Some(8))), s) <==> IsLanguage(s) && |s| > 3
  {
    Classes(s);
    UnitTimes(LETTER.ranges, 3, Some(3), s);
    UnitTimes(LETTER.ranges, 4, Some(4), s);
    UnitTimes(LETTER.ranges, 2, Some(2), s);
    UnitTimes(LETTER.ranges, 2, Some(3), s);
    UnitTimes(LETTER.ranges, 5, Some(8), s);
    UnitTimes(DIGIT.ranges, 3, Some(3), s);
    UnitTimes(LETTER_OR_DIGIT.ranges, 2, Some(8), s);
    UnitTimes(LETTER_OR_DIGIT.ranges, 1, Some(8), s);
    hide Matches, AllIn, Letters, Digits, Alphanumeric;
    EitherIs(Times(LETTER, 2, Some(2)), Times(DIGIT, 3, Some(3)), s);
    EitherIs(Times(LETTER, 4, Some(4)), Times(LETTER, 5, Some(8)), s);
  }

  lemma EitherIs(a: Regex, b: Regex, s: Str)
    ensures Matches(Either(a, b), s) <==> Matches(a, s) || Matches(b, s)
  {
  }

  const DIGIT_FIRST := Then(DIGIT, Times(LETTER_OR_DIGIT, 3, Some(3)))

  lemma DigitFirst(s: Str)
    ensures Matches(DIGIT_FIRST, s) <==> |s| == 4 && IsDigit(s[0]) && Alphanumeric(s)
  {
    hide InRanges;
    if Matches(DIGIT_FIRST, s) {
      var u, v := ThenSplits(DIGIT, Times(LETTER_OR_DIGIT, 3, Some(3)), s);
      ClassOf(u[0]);
      Classes(v);
      UnitTimes(LETTER_OR_DIGIT.ranges, 3, Some(3), v);
      assert forall i :: 0 <= i < |v| ==> s[i + 1] == v[i];
      assert forall i :: 1 <= i < |s| ==> s[i] == v[i - 1];
    }
    if |s| == 4 && IsDigit(s[0]) && Alphanumeric(s) {
      var u, v := s[..1], s[1..];
      ClassOf(u[0]);
      Classes(v);
      UnitTimes(LETTER_OR_DIGIT.ranges, 3, Some(3), v);
      ThenJoins(DIGIT, Times(LETTER_OR_DIGIT, 3, Some(3)), u, v);
      assert s == u + v;
    }
  }

  lemma VariantClass(s: Str)
    ensures Matches(Either(Times(LETTER_OR_DIGIT, 5, Some(8)), DIGIT_FIRST), s) <==> IsVariant(s)
  {
    Classes(s);
    UnitTimes(LETTER_OR_DIGIT.ranges, 5, Some(8), s);
    DigitFirst(s);
    hide Matches, AllIn, Alphanumeric;
    EitherIs(Times(LETTER_OR_DIGIT, 5, Some(8)), DIGIT_FIRST, s);
  }

  // ------------------------------------------------- subtags behind hyphens

  /** The subtags, each behind a hyphen. */
  function Dashes(ss: seq<Str>): Str {
    if ss == [] then [] else [HYPHEN] + (ss[0] + Dashes(ss[1..]))
  }

  lemma {:induction false} DashesJoin(a: seq<Str>, b: seq<Str>)
    ensures Dashes(a + b) == Dashes(a) + Dashes(b)
  {
    if a == [] {
      assert a + b == b;
    } else {
      DashesJoin(a[1..], b);
      assert (a + b)[1..] == a[1..] + b;
      assert [HYPHEN] + (a[0] + (Dashes(a[1..]) + Dashes(b))) == [HYPHEN] + (a[0] + Dashes(a[1..])) + Dashes(b);
    }
  }

  lemma {:induction false} JoinIsDashes(first: Str, ss: seq<Str>)
    ensures Join(HYPHEN, [first] + ss) == first + Dashes(ss)
    decreases |ss|
  {
    assert ([first] + ss)[1..] == ss;
    if ss == [] {
      assert first + [] == first;
    } else {
      JoinIsDashes(ss[0], ss[1..]);
      assert [ss[0]] + ss[1..] == ss;
    }
  }

  lemma DashedIs(r: Regex, s: Str)
    ensures Matches(Dashed(r), s) <==> s != [] && s[0] == HYPHEN && Matches(r, s[1..])
  {
    hide InRanges;
    if Matches(Dashed(r), s) {
      var u, v := ThenSplits(DASH, r, s);
      ClassOf(u[0]);
      assert s[1..] == v;
    }
    if s != [] && s[0] == HYPHEN && Matches(r, s[1..]) {
      ClassOf(s[0]);
      assert Matches(DASH, [s[0]]);
      ThenJoins(DASH, r, [s[0]], s[1..]);
      assert s == [s[0]] + s[1..];
    }
  }

  ghost predicate AllMatch(r: Regex, ss: seq<Str>) {
    forall i :: 0 <= i < |ss| ==> Matches(r, ss[i])
  }

  function Behind(parts: seq<Str>): (ss: seq<Str>)
    requires forall i :: 0 <= i < |parts| ==> parts[i] != []
    ensures |ss| == |parts| && forall i :: 0 <= i < |ss| ==> ss[i] == parts[i][1..]
  {
    seq(|parts|, i requires 0 <= i < |parts| => parts[i][1..])
  }

  function InFront(ss: seq<Str>): (parts: seq<Str>)
    ensures |parts| == |ss| && forall i :: 0 <= i < |ss| ==> parts[i] == [HYPHEN] + ss[i]
  {
    seq(|ss|, i requires 0 <= i < |ss| => [HYPHEN] + ss[i])
  }

  lemma {:induction false} ConcatIsDashes(parts: seq<Str>, ss: seq<Str>)
    requires |parts| == |ss| && forall i :: 0 <= i < |ss| ==> parts[i] == [HYPHEN] + ss[i]
    ensures Concat(parts) == Dashes(ss)
  {
    if ss != [] {
      ConcatIsDashes(parts[1..], ss[1..]);
      assert [HYPHEN] + ss[0] + Dashes(ss[1..]) == [HYPHEN] + (ss[0] + Dashes(ss[1..]));
    }
  }

  /** A repeated dashed expression matches lists of subtags that it matches one by one. */
  lemma DashedReads(r: Regex, least: nat, most: Option<nat>, s: Str) returns (ss: seq<Str>)
    requires Matches(Times(Dashed(r), least, most), s)
    ensures s == Dashes(ss) && Within(|ss|, least, most) && AllMatch(r, ss)
  {
    hide Dashed;
    var parts :| Concat(parts) == s && Within(|parts|, least, most)
                 && forall i :: 0 <= i < |parts| ==> Matches(Dashed(r), parts[i]);
    forall i | 0 <= i < |parts|
      ensures parts[i] != [] && parts[i][0] == HYPHEN && Matches(r, parts[i][1..])
    {
      DashedIs(r, parts[i]);
    }
    ss := Behind(parts);
    ConcatIsDashes(parts, ss);
  }

  lemma DashedWrites(r: Regex, least: nat, most: Option<nat>, ss: seq<Str>)
    requires Within(|ss|, least, most) && AllMatch(r, ss)
    ensures Matches(Times(Dashed(r), least, most), Dashes(ss))
  {
    hide Dashed;
    var parts := InFront(ss);
    ConcatIsDashes(parts, ss);
    forall i | 0 <= i < |parts|
      ensures Matches(Dashed(r), parts[i])
    {
      DashedIs(r, parts[i]);
      assert parts[i][1..] == ss[i];
    }
  }

  // ------------------------------------------------- extensions and private use

  ghost function Spelled(e: Extension): Str {
    e.singleton + Dashes(e.parts)
  }

  const PARTS := Times(LETTER_OR_DIGIT, 2, Some(8))

  lemma SingletonClass(s: Str)
    ensures Matches(ALL_BUT_X, s) <==> IsSingleton(s)
    ensures Matches(ONLY_X, s) <==> IsX(s)
  {
    hide InRanges, LowerUnit;
    if |s| == 1 {
      ClassOf(s[0]);
    }
  }

  lemma ExtensionReads(s: Str) returns (e: Extension)
    requires Matches(EXTENSION, s)
    ensures IsExtension(e) && s == Spelled(e)
  {
    hide Matches, IsSingleton, IsExtensionPart;
    var u, v := ThenSplits(ALL_BUT_X, Times(Dashed(PARTS), 1, None), s);
    SingletonClass(u);
    var parts := DashedReads(PARTS, 1, None, v);
    forall i | 0 <= i < |parts|
      ensures IsExtensionPart(parts[i])
    {
      SubtagClasses(parts[i]);
    }
    e := Extension(u, parts);
  }

  lemma ExtensionWrites(e: Extension)
    requires IsExtension(e)
    ensures Matches(EXTENSION, Spelled(e))
  {
    hide Matches, IsSingleton, IsExtensionPart;
    SingletonClass(e.singleton);
    forall i | 0 <= i < |e.parts|
      ensures Matches(PARTS, e.parts[i])
    {
      SubtagClasses(e.parts[i]);
    }
    DashedWrites(PARTS, 1, None, e.parts);
    ThenJoins(ALL_BUT_X, Times(Dashed(PARTS), 1, None), e.singleton, Dashes(e.parts));
  }

  lemma DashesOfFlat(e: Extension, es: seq<Extension>)
    ensures Dashes(Flatten([e] + es)) == [HYPHEN] + (Spelled(e) + Dashes(Flatten(es)))
  {
    hide Flatten;
    FlattenFirst(e, es);
    var rest := Dashes(Flatten(es));
    assert ([e.singleton] + (e.parts + Flatten(es)))[1..] == e.parts + Flatten(es);
    DashesJoin(e.parts, Flatten(es));
    assert e.singleton + (Dashes(e.parts) + rest) == Spelled(e) + rest;
  }

  lemma {:induction false} ExtensionsRead(ss: seq<Str>) returns (es: seq<Extension>)
    requires AllMatch(EXTENSION, ss)
    ensures AllExtensions(es) && Dashes(ss) == Dashes(Flatten(es))
  {
    hide IsExtension, Matches, Spelled;
    if ss == [] {
      es := [];
    } else {
      var e := ExtensionReads(ss[0]);
      var rest := ExtensionsRead(ss[1..]);
      es := [e] + rest;
      DashesOfFlat(e, rest);
    }
  }

  lemma {:induction false} ExtensionsWrite(es: seq<Extension>) returns (ss: seq<Str>)
    requires AllExtensions(es)
    ensures AllMatch(EXTENSION, ss) && Dashes(ss) == Dashes(Flatten(es))
  {
    hide IsExtension, Matches, Spelled;
    if es == [] {
      ss := [];
    } else {
      var rest := ExtensionsWrite(es[1..]);
      assert IsExtension(es[0]);
      ExtensionWrites(es[0]);
      ss := [Spelled(es[0])] + rest;
      DashesOfFlat(es[0], es[1..]);
      assert ss[1..] == rest && [es[0]] + es[1..] == es;
    }
  }

  const PRIVATE_PARTS := Times(LETTER_OR_DIGIT, 1, Some(8))

  lemma PrivateReads(s: Str) returns (ss: seq<Str>)
    requires Matches(PRIVATE, s)
    ensures IsPrivate(ss) && s == Join(HYPHEN, ss)
  {
    hide Matches, IsX, IsPrivatePart;
    var u, v := ThenSplits(ONLY_X, Times(Dashed(PRIVATE_PARTS), 1, None), s);
    SingletonClass(u);
    var parts := DashedReads(PRIVATE_PARTS, 1, None, v);
    forall i | 0 <= i < |parts|
      ensures IsPrivatePart(parts[i])
    {
      SubtagClasses(parts[i]);
    }
    ss := [u] + parts;
    assert ss[1..] == parts;
    JoinIsDashes(u, parts);
  }

  lemma PrivateWrites(ss: seq<Str>)
    requires IsPrivate(ss)
    ensures Matches(PRIVATE, Join(HYPHEN, ss))
  {
    hide Matches, IsX, IsPrivatePart;
    var parts := ss[1..];
    SingletonClass(ss[0]);
    forall i | 0 <= i < |parts|
      ensures Matches(PRIVATE_PARTS, parts[i])
    {
      SubtagClasses(parts[i]);
    }
    DashedWrites(PRIVATE_PARTS, 1, None, parts);
    ThenJoins(ONLY_X, Times(Dashed(PRIVATE_PARTS), 1, None), ss[0], Dashes(parts));
    JoinIsDashes(ss[0], parts);
    assert ss == [ss[0]] + parts;
  }

  /** The last, optional group. */
  const PRIVATE_OR_NONE := Times(Dashed(PRIVATE), 0, Some(1))

  lemma PrivateDashes(ss: seq<Str>)
    requires IsPrivate(ss)
    ensures Dashes([Join(HYPHEN, ss)]) == Dashes(ss)
  {
    assert ss == [ss[0]] + ss[1..];
    JoinIsDashes(ss[0], ss[1..]);
    var joined := Join(HYPHEN, ss);
    assert Dashes([joined]) == [HYPHEN] + (joined + Dashes([])) == [HYPHEN] + joined;
  }

  lemma OptionalReads(s: Str) returns (private: seq<Str>)
    requires Matches(PRIVATE_OR_NONE, s)
    ensures (private == [] || IsPrivate(private)) && s == Dashes(private)
  {
    hide Matches, IsPrivate;
    var ss := DashedReads(PRIVATE, 0, Some(1), s);
    if ss == [] {
      private := [];
    } else {
      assert Matches(PRIVATE, ss[0]);
      private := PrivateReads(ss[0]);
      PrivateDashes(private);
      assert ss == [ss[0]];
    }
  }

  lemma OptionalWrites(private: seq<Str>)
    requires private == [] || IsPrivate(private)
    ensures Matches(PRIVATE_OR_NONE, Dashes(private))
  {
    hide Matches, IsPrivate;
    if private == [] {
      DashedWrites(PRIVATE, 0, Some(1), []);
    } else {
      PrivateWrites(private);
      PrivateDashes(private);
      DashedWrites(PRIVATE, 0, Some(1), [Join(HYPHEN, private)]);
    }
  }

  // ------------------------------------------------- the whole expression

  const VARIANT := Either(Times(LETTER_OR_DIGIT, 5, Some(8)), DIGIT_FIRST)

  lemma TailReads(s: Str) returns (v: FromVariants)
    requires Matches(TAIL, s)
    ensures FormedFromVariants(v) && s == Dashes(SubtagsFromVariants(v))
  {
    var a, bc := ThenSplits(VARIANTS, Then(EXTENSIONS, PRIVATE_OR_NONE), s);
    var b, c := ThenSplits(EXTENSIONS, PRIVATE_OR_NONE, bc);
    hide Matches, IsPrivate, AllExtensions, IsVariant;
    var variants := DashedReads(VARIANT, 0, None, a);
    forall i | 0 <= i < |variants|
      ensures IsVariant(variants[i])
    {
      VariantClass(variants[i]);
    }
    var spelled := DashedReads(EXTENSION, 0, None, b);
    var es := ExtensionsRead(spelled);
    var private := OptionalReads(c);
    v := FromVariants(variants, es, private);
    DashesJoin(Flatten(es), private);
    DashesJoin(variants, Flatten(es) + private);
  }

  lemma TailWrites(v: FromVariants)
    requires FormedFromVariants(v)
    ensures Matches(TAIL, Dashes(SubtagsFromVariants(v)))
  {
    hide Matches, IsPrivate, AllExtensions, IsVariant;
    forall i | 0 <= i < |v.variants|
      ensures Matches(VARIANT, v.variants[i])
    {
      VariantClass(v.variants[i]);
    }
    DashedWrites(VARIANT, 0, None, v.variants);
    var spelled := ExtensionsWrite(v.extensions);
    DashedWrites(EXTENSION, 0, None, spelled);
    OptionalWrites(v.private);
    var flat := Flatten(v.extensions);
    ThenJoins(EXTENSIONS, PRIVATE_OR_NONE, Dashes(flat), Dashes(v.private));
    DashesJoin(flat, v.private);
    ThenJoins(VARIANTS, Then(EXTENSIONS, PRIVATE_OR_NONE), Dashes(v.variants), Dashes(flat + v.private));
    DashesJoin(v.variants, flat + v.private);
  }

  const REGION_ONE := Either(Times(LETTER, 2, Some(2)), Times(DIGIT, 3, Some(3)))
  const SCRIPT_ONE := Times(LETTER, 4, Some(4))
  const EXTLANG_ONE := Times(LETTER, 3, Some(3))

  lemma FromScriptReads(s: Str) returns (f: FromScript)
    requires Matches(Then(SCRIPT, Then(REGION, TAIL)), s)
    ensures FormedFromScript(f) && s == Dashes(SubtagsFromScript(f))
  {
    var a, bc := ThenSplits(SCRIPT, Then(REGION, TAIL), s);
    var b, c := ThenSplits(REGION, TAIL, bc);
    hide Matches, FormedFromVariants, IsScript, IsRegion;
    var script := DashedReads(SCRIPT_ONE, 0, Some(1), a);
    var region := DashedReads(REGION_ONE, 0, Some(1), b);
    forall i | 0 <= i < |script|
      ensures IsScript(script[i])
    {
      SubtagClasses(script[i]);
    }
    forall i | 0 <= i < |region|
      ensures IsRegion(region[i])
    {
      SubtagClasses(region[i]);
    }
    var v := TailReads(c);
    f := FromScript(script, FromRegion(region, v));
    DashesJoin(region, SubtagsFromVariants(v));
    DashesJoin(script, SubtagsFromRegion(f.rest));
  }

  lemma FromScriptWrites(f: FromScript)
    requires FormedFromScript(f)
    ensures Matches(Then(SCRIPT, Then(REGION, TAIL)), Dashes(SubtagsFromScript(f)))
  {
    hide Matches, FormedFromVariants, IsScript, IsRegion;
    var region, v := f.rest.region, f.rest.rest;
    forall i | 0 <= i < |f.script|
      ensures Matches(SCRIPT_ONE, f.script[i])
    {
      SubtagClasses(f.script[i]);
    }
    forall i | 0 <= i < |region|
      ensures Matches(REGION_ONE, region[i])
    {
      SubtagClasses(region[i]);
    }
    DashedWrites(SCRIPT_ONE, 0, Some(1), f.script);
    DashedWrites(REGION_ONE, 0, Some(1), region);
    TailWrites(v);
    ThenJoins(REGION, TAIL, Dashes(region), Dashes(SubtagsFromVariants(v)));
    DashesJoin(region, SubtagsFromVariants(v));
    ThenJoins(SCRIPT, Then(REGION, TAIL), Dashes(f.script), Dashes(SubtagsFromRegion(f.rest)));
    DashesJoin(f.script, SubtagsFromRegion(f.rest));
  }

  ghost predicate IsLanguageAndExtlangs(language: Str, extlangs: seq<Str>) {
    IsLanguage(language) && |extlangs| <= (if |language| <= 3 then 3 else 0) && All(extlangs, IsExtlang)
  }

  const SHORT := Times(LETTER, 2, Some(3))
  const LONG := Either(Times(LETTER, 4, Some(4)), Times(LETTER, 5, Some(8)))
  const EXTLANGS := Times(Dashed(EXTLANG_ONE), 0, Some(3))

  lemma LanguageReads(s: Str) returns (language: Str, extlangs: seq<Str>)
    requires Matches(LANGUAGE, s)
    ensures IsLanguageAndExtlangs(language, extlangs) && s == language + Dashes(extlangs)
  {
    hide Matches, IsLanguage, IsExtlang;
    EitherIs(Then(SHORT, EXTLANGS), LONG, s);
    if Matches(LONG, s) {
      SubtagClasses(s);
      language, extlangs := s, [];
    } else {
      var u, v := ThenSplits(SHORT, EXTLANGS, s);
      SubtagClasses(u);
      language := u;
      extlangs := DashedReads(EXTLANG_ONE, 0, Some(3), v);
      forall i | 0 <= i < |extlangs|
        ensures IsExtlang(extlangs[i])
      {
        SubtagClasses(extlangs[i]);
      }
    }
  }

  lemma LanguageWrites(language: Str, extlangs: seq<Str>)
    requires IsLanguageAndExtlangs(language, extlangs)
    ensures Matches(LANGUAGE, language + Dashes(extlangs))
  {
    hide Matches, IsLanguage, IsExtlang;
    var s := language + Dashes(extlangs);
    EitherIs(Then(SHORT, EXTLANGS), LONG, s);
    SubtagClasses(language);
    if |language| <= 3 {
      forall i | 0 <= i < |extlangs|
        ensures Matches(EXTLANG_ONE, extlangs[i])
      {
        SubtagClasses(extlangs[i]);
      }
      DashedWrites(EXTLANG_ONE, 0, Some(3), extlangs);
      ThenJoins(SHORT, EXTLANGS, language, Dashes(extlangs));
    } else {
      assert s == language;
    }
  }

  lemma TagReads(tag: Str) returns (t: Tag)
    requires Matches(TAG_PATTERN, tag)
    ensures WellFormed(t) && Join(HYPHEN, Subtags(t)) == tag
  {
    hide Matches, FormedFromScript, IsLanguage, All, IsPrivate;
    EitherIs(Then(LANGUAGE, Then(SCRIPT, Then(REGION, TAIL))), PRIVATE, tag);
    if Matches(PRIVATE, tag) {
      var private := PrivateReads(tag);
      t := PrivateTag(private);
    } else {
      var u, v := ThenSplits(LANGUAGE, Then(SCRIPT, Then(REGION, TAIL)), tag);
      var language, extlangs := LanguageReads(u);
      var rest := FromScriptReads(v);
      t := LangTag(language, extlangs, rest);
      JoinIsDashes(language, extlangs + SubtagsFromScript(rest));
      DashesJoin(extlangs, SubtagsFromScript(rest));
      assert (language + Dashes(extlangs)) + v == language + (Dashes(extlangs) + v);
    }
  }

  lemma TagWrites(t: Tag)
    requires WellFormed(t)
    ensures Matches(TAG_PATTERN, Join(HYPHEN, Subtags(t)))
  {
    hide Matches, FormedFromScript, IsLanguage, All, IsPrivate;
    var tag := Join(HYPHEN, Subtags(t));
    EitherIs(Then(LANGUAGE, Then(SCRIPT, Then(REGION, TAIL))), PRIVATE, tag);
    match t
    case PrivateTag(private) => PrivateWrites(private);
    case LangTag(language, extlangs, rest) =>
      var u, v := language + Dashes(extlangs), Dashes(SubtagsFromScript(rest));
      LanguageWrites(language, extlangs);
      FromScriptWrites(rest);
      ThenJoins(LANGUAGE, Then(SCRIPT, Then(REGION, TAIL)), u, v);
      JoinIsDashes(language, extlangs + SubtagsFromScript(rest));
      DashesJoin(extlangs, SubtagsFromScript(rest));
      assert u + v == language + (Dashes(extlangs) + v);
  }

  /** The regular expression matches exactly the tags of the grammar, so the match is the parse. */
  lemma PatternIsGrammar(tag: Str)
    ensures Matches(TAG_PATTERN, tag) <==> exists t :: WellFormed(t) && Join(HYPHEN, Subtags(t)) == tag
    ensures Matches(TAG_PATTERN, tag) <==> Parse(Split(tag)).Some?
  {
    hide Matches, WellFormed, Subtags, Parse, Split, Join;
    if Matches(TAG_PATTERN, tag) {
      var t := TagReads(tag);
      MatchIsGrammar(tag, t);
    }
    if t :| WellFormed(t) && Join(HYPHEN, Subtags(t)) == tag {
      TagWrites(t);
    }
    if Parse(Split(tag)).Some? {
      MatchIsGrammar(tag, Parse(Split(tag)).value);
    }
  }
}
