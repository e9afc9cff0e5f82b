/** Language tags (RFC 5646): the grammar of section 2.1 with its parse, the loop that
    refuses repeated variants and singletons, and the split of a claim name at its tag. */
module LanguageTags {
  import opened Options
  import opened Text
  import opened Sorting
  import opened OrderedMaps
  import JsonText

  const HYPHEN: CodeUnit := 0x2D
  const HASH: CodeUnit := 0x23
  const LOWER_X: CodeUnit := 0x78
  const KELVIN_SIGN: CodeUnit := 0x212A

  function Units(s: string): (r: Str)
    ensures |r| == |s|
    ensures forall i :: 0 <= i < |s| && (s[i] as int) < 0x10000 ==> r[i] == s[i] as int
  {
    seq(|s|, i requires 0 <= i < |s| => if (s[i] as int) < 0x10000 then s[i] as int else 0)
  }

  const GRANDFATHERED: seq<string> := [
    "en-gb-oed", "i-ami", "i-bnn", "i-default", "i-enochian", "i-hak", "i-klingon", "i-lux", "i-mingo",
    "i-navajo", "i-pwn", "i-tao", "i-tay", "i-tsu", "sgn-be-fr", "sgn-be-nl", "sgn-ch-de", "art-lojban",
    "cel-gaulish", "no-bok", "no-nyn", "zh-guoyu", "zh-hakka", "zh-min", "zh-min-nan", "zh-xiang"]

  // ------------------------------------------------- letters

  predicate IsLetter(c: CodeUnit) {
    0x41 <= c <= 0x5A || 0x61 <= c <= 0x7A
  }

  predicate IsDigit(c: CodeUnit) {
    0x30 <= c <= 0x39
  }

  predicate Letters(s: Str) {
    forall i :: 0 <= i < |s| ==> IsLetter(s[i])
  }

  predicate Digits(s: Str) {
    forall i :: 0 <= i < |s| ==> IsDigit(s[i])
  }

  predicate Alphanumeric(s: Str) {
    forall i :: 0 <= i < |s| ==> IsLetter(s[i]) || IsDigit(s[i])
  }

  /** Lower-casing as far as plain ASCII can come out of it: besides the capital letters,
      only the Kelvin sign has an ASCII lower case. */
  function LowerUnit(c: CodeUnit): CodeUnit {
    if 0x41 <= c <= 0x5A then c + 0x20 else if c == KELVIN_SIGN then 0x6B else c
  }

  function Lower(s: Str): (r: Str)
    ensures |r| == |s| && forall i :: 0 <= i < |s| ==> r[i] == LowerUnit(s[i])
  {
    seq(|s|, i requires 0 <= i < |s| => LowerUnit(s[i]))
  }

  function LowerAll(parts: seq<Str>): (r: seq<Str>)
    ensures |r| == |parts| && forall i :: 0 <= i < |parts| ==> r[i] == Lower(parts[i])
  {
    seq(|parts|, i requires 0 <= i < |parts| => Lower(parts[i]))
  }

  // ------------------------------------------------- subtags

  function Split(s: Str): (parts: seq<Str>)
    ensures parts != []
  {
    if s == [] then [[]]
    else
      var rest := Split(s[1..]);
      if s[0] == HYPHEN then [[]] + rest else [[s[0]] + rest[0]] + rest[1..]
  }

  lemma {:induction false} JoinSplit(s: Str)
    ensures Join(HYPHEN, Split(s)) == s
    ensures forall i :: 0 <= i < |Split(s)| ==> HYPHEN !in Split(s)[i]
  {
    if s != [] {
      var rest := Split(s[1..]);
      JoinSplit(s[1..]);
      assert s == [s[0]] + s[1..];
      if s[0] == HYPHEN {
        assert ([[]] + rest)[1..] == rest;
      } else {
        JoinFirst([s[0]], rest);
      }
    }
  }

  lemma JoinFirst(a: Str, parts: seq<Str>)
    requires parts != []
    ensures Join(HYPHEN, [a + parts[0]] + parts[1..]) == a + Join(HYPHEN, parts)
  {
    var longer := [a + parts[0]] + parts[1..];
    assert longer[1..] == parts[1..];
    if |parts| > 1 {
      var rest := Join(HYPHEN, parts[1..]);
      JsonText.Associative(a, parts[0], [HYPHEN] + rest);
    }
  }

  lemma {:induction false} SplitJoin(parts: seq<Str>)
    requires parts != [] && forall i :: 0 <= i < |parts| ==> HYPHEN !in parts[i]
    ensures Split(Join(HYPHEN, parts)) == parts
  {
    if |parts| == 1 {
      SplitPlain(parts[0]);
      assert parts == [parts[0]];
    } else {
      SplitJoin(parts[1..]);
      SplitAtHyphen(parts[0], Join(HYPHEN, parts[1..]));
      assert parts == [parts[0]] + parts[1..];
    }
  }

  lemma {:induction false} SplitPlain(s: Str)
    requires HYPHEN !in s
    ensures Split(s) == [s]
  {
    if s != [] {
      SplitPlain(s[1..]);
      assert [s[0]] + s[1..] == s;
    }
  }

  lemma {:induction false} SplitAtHyphen(a: Str, b: Str)
    requires HYPHEN !in a
    ensures Split(a + ([HYPHEN] + b)) == [a] + Split(b)
  {
    var s := a + ([HYPHEN] + b);
    if a == [] {
      assert s[1..] == b;
    } else {
      SplitAtHyphen(a[1..], b);
      assert s[1..] == a[1..] + ([HYPHEN] + b);
      assert [a[0]] + a[1..] == a;
      assert ([a[1..]] + Split(b))[1..] == Split(b);
    }
  }

  lemma LowerCons(c: CodeUnit, s: Str)
    ensures Lower([c] + s) == [LowerUnit(c)] + Lower(s)
  {
  }

  lemma LowerAllJoin(a: seq<Str>, b: seq<Str>)
    ensures LowerAll(a + b) == LowerAll(a) + LowerAll(b)
  {
  }

  lemma LowerAllOne(a: Str)
    ensures LowerAll([a]) == [Lower(a)]
  {
  }

  lemma {:induction false} SplitLower(s: Str)
    ensures Split(Lower(s)) == LowerAll(Split(s))
  {
    if s == [] {
      assert Lower([]) == [];
    } else {
      var rest := Split(s[1..]);
      SplitLower(s[1..]);
      LowerCons(s[0], s[1..]);
      assert s == [s[0]] + s[1..];
      var first := if s[0] == HYPHEN then [] else [s[0]] + rest[0];
      var others := if s[0] == HYPHEN then rest else rest[1..];
      LowerAllOne(first);
      LowerAllJoin([first], others);
      assert Lower(s)[0] == LowerUnit(s[0]) && Lower(s)[1..] == Lower(s[1..]);
      if s[0] == HYPHEN {
        assert Lower(first) == [];
      } else {
        hide Lower;
        LowerCons(s[0], rest[0]);
        assert LowerAll(rest)[1..] == LowerAll(rest[1..]);
      }
    }
  }

  // ------------------------------------------------- the grammar

  datatype Extension = Extension(singleton: Str, parts: seq<Str>)

  /** A tag from its variants on; `private` is empty or the x and what follows it. */
  datatype FromVariants = FromVariants(variants: seq<Str>, extensions: seq<Extension>, private: seq<Str>)

  /** Region and script are at most one subtag each. */
  datatype FromRegion = FromRegion(region: seq<Str>, rest: FromVariants)

  datatype FromScript = FromScript(script: seq<Str>, rest: FromRegion)

  datatype Tag =
    | LangTag(language: Str, extlangs: seq<Str>, rest: FromScript)
    | PrivateTag(private: seq<Str>)

  predicate IsX(s: Str) {
    |s| == 1 && LowerUnit(s[0]) == LOWER_X
  }

  predicate IsLanguage(s: Str) {
    2 <= |s| <= 8 && Letters(s)
  }

  predicate IsExtlang(s: Str) {
    |s| == 3 && Letters(s)
  }

  predicate IsScript(s: Str) {
    |s| == 4 && Letters(s)
  }

  predicate IsRegion(s: Str) {
    (|s| == 2 && Letters(s)) || (|s| == 3 && Digits(s))
  }

  predicate IsVariant(s: Str) {
    Alphanumeric(s) && (5 <= |s| <= 8 || (|s| == 4 && IsDigit(s[0])))
  }

  predicate IsSingleton(s: Str) {
    |s| == 1 && Alphanumeric(s) && !IsX(s)
  }

  predicate IsExtensionPart(s: Str) {
    2 <= |s| <= 8 && Alphanumeric(s)
  }

  predicate IsPrivatePart(s: Str) {
    1 <= |s| <= 8 && Alphanumeric(s)
  }

  predicate All(ss: seq<Str>, p: Str -> bool) {
    forall i :: 0 <= i < |ss| ==> p(ss[i])
  }

  predicate IsPrivate(ss: seq<Str>) {
    |ss| >= 2 && IsX(ss[0]) && All(ss[1..], IsPrivatePart)
  }

  predicate IsExtension(e: Extension) {
    IsSingleton(e.singleton) && e.parts != [] && All(e.parts, IsExtensionPart)
  }

  predicate AllExtensions(es: seq<Extension>) {
    forall i :: 0 <= i < |es| ==> IsExtension(es[i])
  }

  predicate FormedFromVariants(v: FromVariants) {
    All(v.variants, IsVariant) && AllExtensions(v.extensions) && (v.private == [] || IsPrivate(v.private))
  }

  predicate FormedFromRegion(r: FromRegion) {
    |r.region| <= 1 && All(r.region, IsRegion) && FormedFromVariants(r.rest)
  }

  predicate FormedFromScript(s: FromScript) {
    |s.script| <= 1 && All(s.script, IsScript) && FormedFromRegion(s.rest)
  }

  predicate WellFormed(t: Tag) {
    match t
    case PrivateTag(private) => IsPrivate(private)
    case LangTag(language, extlangs, rest) =>
      && IsLanguage(language) && |extlangs| <= (if |language| <= 3 then 3 else 0) && All(extlangs, IsExtlang)
      && FormedFromScript(rest)
  }

  function Flatten(es: seq<Extension>): seq<Str> {
    if es == [] then [] else [es[0].singleton] + (es[0].parts + Flatten(es[1..]))
  }

  function SubtagsFromVariants(v: FromVariants): seq<Str> {
    v.variants + (Flatten(v.extensions) + v.private)
  }

  function SubtagsFromRegion(r: FromRegion): seq<Str> {
    r.region + SubtagsFromVariants(r.rest)
  }

  function SubtagsFromScript(s: FromScript): seq<Str> {
    s.script + SubtagsFromRegion(s.rest)
  }

  function Subtags(t: Tag): seq<Str> {
    match t
    case PrivateTag(private) => private
    case LangTag(language, extlangs, rest) => [language] + (extlangs + SubtagsFromScript(rest))
  }

  // ------------------------------------------------- the parse

  /** How many leading subtags, at most a limit, satisfy a condition. */
  function Leading(ss: seq<Str>, p: Str -> bool, limit: nat): (n: nat)
    ensures n <= limit && n <= |ss| && All(ss[..n], p)
    ensures n < limit && n < |ss| ==> !p(ss[n])
  {
    if ss == [] || limit == 0 || !p(ss[0]) then 0
    else
      var n := Leading(ss[1..], p, limit - 1);
      assert ss[..n + 1] == [ss[0]] + ss[1..][..n];
      n + 1
  }

  function ParseExtensions(ss: seq<Str>): (r: (seq<Extension>, seq<Str>))
    ensures |r.1| <= |ss|
  {
    if ss == [] || !IsSingleton(ss[0]) then ([], ss)
    else
      var n := Leading(ss[1..], IsExtensionPart, |ss|);
      if n == 0 then ([], ss)
      else
        var rest := ParseExtensions(ss[1..][n..]);
        ([Extension(ss[0], ss[1..][..n])] + rest.0, rest.1)
  }

  function ParseFromVariants(ss: seq<Str>): Option<FromVariants> {
    var n := Leading(ss, IsVariant, |ss|);
    var found := ParseExtensions(ss[n..]);
    if found.1 == [] || IsPrivate(found.1) then Some(FromVariants(ss[..n], found.0, found.1)) else None
  }

  function ParseFromRegion(ss: seq<Str>): Option<FromRegion> {
    var n := Leading(ss, IsRegion, 1);
    match ParseFromVariants(ss[n..]) case Some(v) => Some(FromRegion(ss[..n], v)) case None => None
  }

  function ParseFromScript(ss: seq<Str>): Option<FromScript> {
    var n := Leading(ss, IsScript, 1);
    match ParseFromRegion(ss[n..]) case Some(r) => Some(FromScript(ss[..n], r)) case None => None
  }

  /** The match of the tag expression: each part takes what it can. */
  function Parse(ss: seq<Str>): Option<Tag> {
    if IsPrivate(ss) then Some(PrivateTag(ss))
    else if ss == [] || !IsLanguage(ss[0]) then None
    else
      var n := Leading(ss[1..], IsExtlang, if |ss[0]| <= 3 then 3 else 0);
      match ParseFromScript(ss[1..][n..]) case Some(s) => Some(LangTag(ss[0], ss[1..][..n], s)) case None => None
  }

  lemma ExtensionStep(ss: seq<Str>)
    ensures ss != [] && IsSingleton(ss[0]) && Leading(ss[1..], IsExtensionPart, |ss|) > 0 ==>
              var n := Leading(ss[1..], IsExtensionPart, |ss|);
              var e, rest := Extension(ss[0], ss[1..][..n]), ParseExtensions(ss[1..][n..]);
              IsExtension(e) && ParseExtensions(ss) == ([e] + rest.0, rest.1)
    ensures !(ss != [] && IsSingleton(ss[0]) && Leading(ss[1..], IsExtensionPart, |ss|) > 0) ==>
            ParseExtensions(ss) == ([], ss)
  {
  }

  lemma {:induction false} ExtensionsSound(ss: seq<Str>)
    ensures var r := ParseExtensions(ss);
            AllExtensions(r.0) && Flatten(r.0) + r.1 == ss
    decreases |ss|
  {
    hide IsSingleton, IsExtensionPart, IsExtension, ParseExtensions, Leading;
    ExtensionStep(ss);
    if ss != [] && IsSingleton(ss[0]) && Leading(ss[1..], IsExtensionPart, |ss|) > 0 {
      var n := Leading(ss[1..], IsExtensionPart, |ss|);
      var parts, after := ss[1..][..n], ss[1..][n..];
      var rest := ParseExtensions(after);
      ExtensionsSound(after);
      FlattenFirst(Extension(ss[0], parts), rest.0);
      Cut(ss[1..], n);
      assert ss == [ss[0]] + ss[1..];
      JoinedThree([ss[0]], parts, Flatten(rest.0), rest.1);
    } else {
      assert Flatten([]) + ss == ss;
    }
  }

  lemma FlattenFirst(e: Extension, es: seq<Extension>)
    ensures Flatten([e] + es) == [e.singleton] + (e.parts + Flatten(es))
  {
    assert ([e] + es)[1..] == es;
  }

  lemma JoinedThree(a: seq<Str>, b: seq<Str>, c: seq<Str>, d: seq<Str>)
    ensures (a + (b + c)) + d == a + (b + (c + d))
  {
  }

  lemma Cut(ss: seq<Str>, n: nat)
    requires n <= |ss|
    ensures ss == ss[..n] + ss[n..]
  {
  }

  lemma FromVariantsSound(ss: seq<Str>)
    ensures var p := ParseFromVariants(ss);
            p.Some? ==> FormedFromVariants(p.value) && SubtagsFromVariants(p.value) == ss
  {
    hide IsVariant, IsPrivate, AllExtensions, Flatten;
    var n := Leading(ss, IsVariant, |ss|);
    ExtensionsSound(ss[n..]);
    hide Leading, ParseExtensions;
    Cut(ss, n);
  }

  lemma FromRegionSound(ss: seq<Str>)
    ensures var p := ParseFromRegion(ss);
            p.Some? ==> FormedFromRegion(p.value) && SubtagsFromRegion(p.value) == ss
  {
    hide IsRegion, FormedFromVariants, SubtagsFromVariants, ParseFromVariants;
    var n := Leading(ss, IsRegion, 1);
    FromVariantsSound(ss[n..]);
    Cut(ss, n);
  }

  lemma FromScriptSound(ss: seq<Str>)
    ensures var p := ParseFromScript(ss);
            p.Some? ==> FormedFromScript(p.value) && SubtagsFromScript(p.value) == ss
  {
    hide IsScript, FormedFromRegion, SubtagsFromRegion, ParseFromRegion;
    var n := Leading(ss, IsScript, 1);
    FromRegionSound(ss[n..]);
    Cut(ss, n);
  }

  /** What the parse finds is a tag of the grammar and spells the subtags. */
  lemma ParseSound(ss: seq<Str>)
    requires Parse(ss).Some?
    ensures WellFormed(Parse(ss).value) && Subtags(Parse(ss).value) == ss
  {
    hide IsExtlang, IsLanguage, IsPrivate, FormedFromScript, SubtagsFromScript, ParseFromScript;
    if !IsPrivate(ss) {
      var n := Leading(ss[1..], IsExtlang, if |ss[0]| <= 3 then 3 else 0);
      FromScriptSound(ss[1..][n..]);
      Cut(ss[1..], n);
      assert ss == [ss[0]] + ss[1..];
    }
  }

  lemma {:induction false} LeadingAll(ss: seq<Str>, rest: seq<Str>, p: Str -> bool, limit: nat)
    requires All(ss, p) && |ss| <= limit && (rest == [] || |ss| == limit || !p(rest[0]))
    ensures Leading(ss + rest, p, limit) == |ss|
    ensures (ss + rest)[..|ss|] == ss && (ss + rest)[|ss|..] == rest
  {
    if ss == [] {
      assert ss + rest == rest;
    } else {
      LeadingAll(ss[1..], rest, p, limit - 1);
      assert (ss + rest)[1..] == ss[1..] + rest;
    }
  }

  /** Extensions are followed by private use or nothing. */
  predicate AfterExtensions(ss: seq<Str>) {
    ss == [] || IsX(ss[0])
  }

  lemma {:induction false} ExtensionsComplete(es: seq<Extension>, rest: seq<Str>)
    requires AllExtensions(es) && AfterExtensions(rest)
    ensures ParseExtensions(Flatten(es) + rest) == (es, rest)
  {
    if es == [] {
      assert Flatten(es) + rest == rest;
      ExtensionStep(rest);
    } else {
      hide IsExtensionPart, All, Leading, ParseExtensions;
      var e, tail := es[0], Flatten(es[1..]) + rest;
      ExtensionsComplete(es[1..], rest);
      JoinedThree([e.singleton], e.parts, Flatten(es[1..]), rest);
      assert IsExtension(e);
      ShortHead(es[1..], rest);
      if tail != [] {
        OneIsNoPart(tail[0]);
      }
      var ss := [e.singleton] + (e.parts + tail);
      assert ss[1..] == e.parts + tail;
      LeadingAll(e.parts, tail, IsExtensionPart, |ss|);
      ExtensionStep(ss);
      hide Flatten;
      assert es == [e] + es[1..];
    }
  }

  lemma OneIsNoPart(s: Str)
    requires |s| == 1
    ensures !IsExtensionPart(s)
  {
  }

  lemma ShortHead(es: seq<Extension>, rest: seq<Str>)
    requires AllExtensions(es) && AfterExtensions(rest)
    ensures var tail := Flatten(es) + rest; tail == [] || |tail[0]| == 1
  {
    if es != [] {
      assert IsExtension(es[0]);
    }
  }

  /** What may stand at the head after each part of the tag. */
  predicate HeadIn(ss: seq<Str>, p: Str -> bool) {
    ss == [] || p(ss[0])
  }

  predicate One(s: Str) { |s| == 1 }

  predicate VariantOn(s: Str) { One(s) || IsVariant(s) }

  predicate RegionOn(s: Str) { VariantOn(s) || IsRegion(s) }

  predicate ScriptOn(s: Str) { RegionOn(s) || IsScript(s) }

  lemma HeadJoin(a: seq<Str>, b: seq<Str>, p: Str -> bool)
    requires All(a, p) && HeadIn(b, p)
    ensures HeadIn(a + b, p)
  {
  }

  lemma Apart(s: Str)
    ensures One(s) ==> !IsVariant(s)
    ensures VariantOn(s) ==> !IsRegion(s)
    ensures RegionOn(s) ==> !IsScript(s)
    ensures ScriptOn(s) ==> !IsExtlang(s)
  {
    assert s != [] && IsDigit(s[0]) ==> !IsLetter(s[0]);
  }

  lemma PrivateStartsWithX(ss: seq<Str>)
    ensures IsPrivate(ss) ==> |ss| >= 2 && IsX(ss[0]) && |ss[0]| == 1
  {
  }

  lemma AllOn(ss: seq<Str>)
    ensures All(ss, IsVariant) ==> All(ss, VariantOn)
    ensures All(ss, IsRegion) ==> All(ss, RegionOn)
    ensures All(ss, IsScript) ==> All(ss, ScriptOn)
  {
  }

  lemma FromVariantsComplete(v: FromVariants)
    requires FormedFromVariants(v)
    ensures ParseFromVariants(SubtagsFromVariants(v)) == Some(v) && HeadIn(SubtagsFromVariants(v), VariantOn)
  {
    hide IsVariant, IsPrivate, Leading, ParseExtensions, AllExtensions, All, Flatten;
    var after := Flatten(v.extensions) + v.private;
    PrivateStartsWithX(v.private);
    ShortHead(v.extensions, v.private);
    if after != [] {
      Apart(after[0]);
    }
    ExtensionsComplete(v.extensions, v.private);
    LeadingAll(v.variants, after, IsVariant, |v.variants + after|);
    AllOn(v.variants);
    HeadJoin(v.variants, after, VariantOn);
  }

  lemma FromRegionComplete(r: FromRegion)
    requires FormedFromRegion(r)
    ensures ParseFromRegion(SubtagsFromRegion(r)) == Some(r) && HeadIn(SubtagsFromRegion(r), RegionOn)
  {
    hide IsRegion, VariantOn, Leading, ParseFromVariants, FormedFromVariants, SubtagsFromVariants, All;
    var after := SubtagsFromVariants(r.rest);
    FromVariantsComplete(r.rest);
    if after != [] {
      Apart(after[0]);
    }
    LeadingAll(r.region, after, IsRegion, 1);
    AllOn(r.region);
    HeadJoin(r.region, after, RegionOn);
  }

  lemma FromScriptComplete(s: FromScript)
    requires FormedFromScript(s)
    ensures ParseFromScript(SubtagsFromScript(s)) == Some(s) && HeadIn(SubtagsFromScript(s), ScriptOn)
  {
    hide IsScript, RegionOn, Leading, ParseFromRegion, FormedFromRegion, SubtagsFromRegion, All;
    var after := SubtagsFromRegion(s.rest);
    FromRegionComplete(s.rest);
    if after != [] {
      Apart(after[0]);
    }
    LeadingAll(s.script, after, IsScript, 1);
    AllOn(s.script);
    HeadJoin(s.script, after, ScriptOn);
  }

  lemma LanguageIsNotPrivate(ss: seq<Str>)
    requires ss != [] && IsLanguage(ss[0])
    ensures !IsPrivate(ss)
  {
  }

  lemma ParseAfterLanguage(language: Str, tail: seq<Str>)
    requires IsLanguage(language)
    ensures var n := Leading(tail, IsExtlang, if |language| <= 3 then 3 else 0);
            Parse([language] + tail) ==
            match ParseFromScript(tail[n..]) case Some(s) => Some(LangTag(language, tail[..n], s)) case None => None
  {
    hide IsLanguage, IsPrivate, Leading, ParseFromScript;
    assert ([language] + tail)[1..] == tail;
    LanguageIsNotPrivate([language] + tail);
  }

  /** The grammar is unambiguous: the parse finds the one tag the subtags spell. */
  lemma ParseComplete(t: Tag)
    requires WellFormed(t)
    ensures Parse(Subtags(t)) == Some(t)
  {
    if t.LangTag? {
      hide Parse, IsExtlang, IsLanguage, ScriptOn, Leading, ParseFromScript, FormedFromScript, SubtagsFromScript, All;
      var after := SubtagsFromScript(t.rest);
      FromScriptComplete(t.rest);
      if after != [] {
        Apart(after[0]);
      }
      LeadingAll(t.extlangs, after, IsExtlang, if |t.language| <= 3 then 3 else 0);
      ParseAfterLanguage(t.language, t.extlangs + after);
    }
  }

  // ------------------------------------------------- what the loop marks

  const X: Str := [LOWER_X]

  predicate DigitFour(p: Str) {
    |p| == 4 && IsDigit(p[0]) && forall i :: 0 <= i < |p| ==> IsDigit(p[i]) || 0x61 <= p[i] <= 0x7A
  }

  /** The subtags the loop remembers, in order, up to the private-use mark. */
  function Marks(parts: seq<Str>, extension: bool): seq<Str> {
    if parts == [] || parts[0] == X then []
    else if |parts[0]| == 1 then [parts[0]] + Marks(parts[1..], true)
    else if !extension && (|parts[0]| >= 5 || DigitFour(parts[0])) then [parts[0]] + Marks(parts[1..], extension)
    else Marks(parts[1..], extension)
  }

  /** The loop refuses exactly when it would remember a subtag twice. */
  method MarksDiffer(parts: seq<Str>) returns (ok: bool)
    ensures ok <==> NoDuplicates(Marks(parts, false))
  {
    var seen: set<Str>, extension := {}, false;
    ghost var marked: seq<Str> := [];
    ghost var whole := Marks(parts, false);
    for i := 0 to |parts|
      invariant NoDuplicates(marked) && forall m :: m in marked <==> m in seen
      invariant whole == marked + Marks(parts[i..], extension)
    {
      hide NoDuplicates, DigitFour;
      var part := parts[i];
      assert parts[i..][1..] == parts[i + 1..];
      if part == X {
        assert marked + [] == marked;
        return true;
      }
      if |part| == 1 || (!extension && (|part| >= 5 || DigitFour(part))) {
        extension := extension || |part| == 1;
        NextMark(marked, part, Marks(parts[i + 1..], extension));
        if part in seen {
          return false;
        }
        seen := seen + {part};
        marked := marked + [part];
      }
    }
    assert marked + [] == marked;
    return true;
  }

  lemma NextMark(marked: seq<Str>, part: Str, rest: seq<Str>)
    requires NoDuplicates(marked)
    ensures marked + ([part] + rest) == (marked + [part]) + rest
    ensures part !in marked ==> NoDuplicates(marked + [part])
    ensures part in marked ==> !NoDuplicates(marked + ([part] + rest))
  {
    var all := marked + ([part] + rest);
    if part in marked {
      var i :| 0 <= i < |marked| && marked[i] == part;
      assert all[i] == all[|marked|];
    }
  }

  function Singletons(es: seq<Extension>): seq<Str> {
    if es == [] then [] else [es[0].singleton] + Singletons(es[1..])
  }

  /** A subtag the loop passes over before any extension. */
  predicate Passed(p: Str) {
    2 <= |p| <= 4 && !DigitFour(p)
  }

  lemma {:induction false} MarksPassed(a: seq<Str>, b: seq<Str>)
    requires All(a, Passed)
    ensures Marks(a + b, false) == Marks(b, false)
  {
    if a == [] {
      assert a + b == b;
    } else {
      assert (a + b)[1..] == a[1..] + b;
      MarksPassed(a[1..], b);
    }
  }

  predicate Marked(p: Str) {
    |p| >= 5 || DigitFour(p)
  }

  lemma {:induction false} MarksVariants(a: seq<Str>, b: seq<Str>)
    requires All(a, Marked)
    ensures Marks(a + b, false) == a + Marks(b, false)
  {
    if a == [] {
      assert a + b == b;
    } else {
      hide DigitFour;
      assert (a + b)[1..] == a[1..] + b;
      MarksVariants(a[1..], b);
      assert |a[0]| > 1 by { MarkedIsLong(a[0]); }
      assert a == [a[0]] + a[1..];
    }
  }

  lemma MarkedIsLong(p: Str)
    requires Marked(p)
    ensures |p| > 1 && p != X
  {
  }

  predicate Long(p: Str) {
    |p| >= 2
  }

  lemma {:induction false} MarksInside(a: seq<Str>, b: seq<Str>)
    requires All(a, Long)
    ensures Marks(a + b, true) == Marks(b, true)
  {
    if a == [] {
      assert a + b == b;
    } else {
      assert (a + b)[1..] == a[1..] + b;
      MarksInside(a[1..], b);
    }
  }

  lemma LowerSingleton(s: Str)
    ensures IsX(s) ==> Lower(s) == X
    ensures IsSingleton(s) ==> |Lower(s)| == 1 && Lower(s) != X
  {
    if IsX(s) {
      assert Lower(s)[0] == LOWER_X;
    }
  }

  lemma LowerLong(ss: seq<Str>)
    requires All(ss, IsExtensionPart)
    ensures All(LowerAll(ss), Long)
  {
  }

  lemma {:induction false} MarksExtensions(es: seq<Extension>, private: seq<Str>, extension: bool)
    requires AllExtensions(es) && AfterExtensions(private)
    ensures Marks(LowerAll(Flatten(es) + private), extension) == LowerAll(Singletons(es))
  {
    hide IsX, IsSingleton, IsExtensionPart, Lower, DigitFour, All;
    if es == [] {
      assert Flatten(es) + private == private;
      if private != [] {
        LowerSingleton(private[0]);
      }
    } else {
      var e, rest := es[0], Flatten(es[1..]) + private;
      assert IsExtension(e);
      MarksExtensions(es[1..], private, true);
      LowerSingleton(e.singleton);
      LowerLong(e.parts);
      JoinedThree([e.singleton], e.parts, Flatten(es[1..]), private);
      LowerAllOne(e.singleton);
      LowerAllJoin([e.singleton], e.parts + rest);
      LowerAllJoin(e.parts, rest);
      LowerAllJoin([e.singleton], Singletons(es[1..]));
      MarksInside(LowerAll(e.parts), LowerAll(rest));
      MarksFirst(Lower(e.singleton), LowerAll(e.parts) + LowerAll(rest), extension);
    }
  }

  lemma MarksFirst(singleton: Str, rest: seq<Str>, extension: bool)
    requires |singleton| == 1 && singleton != X
    ensures Marks([singleton] + rest, extension) == [singleton] + Marks(rest, true)
  {
    assert ([singleton] + rest)[1..] == rest;
  }

  lemma LowerPassed(s: Str)
    ensures IsExtlang(s) || IsScript(s) || IsRegion(s) ==> Passed(Lower(s))
    ensures IsVariant(s) ==> Marked(Lower(s))
  {
    if IsExtlang(s) || IsScript(s) || IsRegion(s) {
      assert IsLetter(s[0]) || |s| < 4;
    }
  }

  lemma LowerAllPassed(ss: seq<Str>)
    ensures All(ss, IsExtlang) || All(ss, IsScript) || All(ss, IsRegion) ==> All(LowerAll(ss), Passed)
    ensures All(ss, IsVariant) ==> All(LowerAll(ss), Marked)
  {
    hide IsExtlang, IsScript, IsRegion, IsVariant, Passed, Marked, Lower;
    forall i | 0 <= i < |ss|
      ensures IsExtlang(ss[i]) || IsScript(ss[i]) || IsRegion(ss[i]) ==> Passed(Lower(ss[i]))
      ensures IsVariant(ss[i]) ==> Marked(Lower(ss[i]))
    {
      LowerPassed(ss[i]);
    }
  }

  function VariantsOf(t: Tag): seq<Str>
    requires t.LangTag?
  {
    LowerAll(t.rest.rest.rest.variants)
  }

  function SingletonsOf(t: Tag): seq<Str>
    requires t.LangTag?
  {
    LowerAll(Singletons(t.rest.rest.rest.extensions))
  }

  /** The loop takes for variants and singletons exactly the subtags the grammar parses as
      such, whatever their case. */
  lemma MarksAreVariantsAndSingletons(t: Tag)
    requires WellFormed(t) && t.LangTag?
    ensures Marks(LowerAll(Subtags(t)[1..]), false) == VariantsOf(t) + SingletonsOf(t)
  {
    hide Marks, All, IsPrivate, IsLanguage, AllExtensions, Flatten, Singletons;
    var s := t.rest;
    var r := s.rest;
    var v := r.rest;
    var end := Flatten(v.extensions) + v.private;
    assert Subtags(t)[1..] == t.extlangs + SubtagsFromScript(s);
    PrivateStartsWithX(v.private);
    MarksExtensions(v.extensions, v.private, false);
    LowerAllPassed(t.extlangs);
    LowerAllPassed(s.script);
    LowerAllPassed(r.region);
    LowerAllPassed(v.variants);
    LowerAllJoin(t.extlangs, SubtagsFromScript(s));
    MarksPassed(LowerAll(t.extlangs), LowerAll(SubtagsFromScript(s)));
    LowerAllJoin(s.script, SubtagsFromRegion(r));
    MarksPassed(LowerAll(s.script), LowerAll(SubtagsFromRegion(r)));
    LowerAllJoin(r.region, SubtagsFromVariants(v));
    MarksPassed(LowerAll(r.region), LowerAll(SubtagsFromVariants(v)));
    LowerAllJoin(v.variants, end);
    MarksVariants(LowerAll(v.variants), LowerAll(end));
  }

  // ------------------------------------------------- acceptance

  predicate IsGrandfathered(tag: Str) {
    exists i :: 0 <= i < |GRANDFATHERED| && Lower(tag) == Units(GRANDFATHERED[i])
  }

  /** No variant and no singleton occurs twice (sections 2.2.5 and 2.2.6), ignoring case. */
  ghost predicate RepeatsNothing(t: Tag) {
    t.LangTag? ==> NoDuplicates(VariantsOf(t)) && NoDuplicates(SingletonsOf(t))
  }

  /** The tag is spelled by the grammar and repeats nothing. */
  ghost predicate Valid(tag: Str) {
    exists t :: WellFormed(t) && Join(HYPHEN, Subtags(t)) == tag && RepeatsNothing(t)
  }

  lemma {:induction false} FlattenPlain(es: seq<Extension>)
    requires AllExtensions(es)
    ensures All(Flatten(es), Alphanumeric)
  {
    if es != [] {
      FlattenPlain(es[1..]);
      assert IsExtension(es[0]);
    }
  }

  lemma PrivatePlain(ss: seq<Str>)
    requires ss == [] || IsPrivate(ss)
    ensures All(ss, Alphanumeric)
  {
    if ss != [] {
      assert ss == [ss[0]] + ss[1..];
    }
  }

  lemma AllJoin(a: seq<Str>, b: seq<Str>, p: Str -> bool)
    requires All(a, p) && All(b, p)
    ensures All(a + b, p)
  {
  }

  lemma ClassPlain(ss: seq<Str>)
    ensures All(ss, IsExtlang) || All(ss, IsScript) || All(ss, IsRegion) || All(ss, IsVariant) ==> All(ss, Alphanumeric)
  {
  }

  /** Every subtag of the grammar is made of ASCII letters and digits. */
  lemma SubtagsPlain(t: Tag)
    requires WellFormed(t)
    ensures Subtags(t) != [] && All(Subtags(t), Alphanumeric)
  {
    if t.PrivateTag? {
      PrivatePlain(t.private);
    } else {
      assert Alphanumeric(t.language);
      hide All, IsLanguage, IsPrivate, AllExtensions, Flatten, Alphanumeric;
      var s := t.rest;
      var r := s.rest;
      var v := r.rest;
      FlattenPlain(v.extensions);
      PrivatePlain(v.private);
      AllJoin(Flatten(v.extensions), v.private, Alphanumeric);
      ClassPlain(v.variants);
      AllJoin(v.variants, Flatten(v.extensions) + v.private, Alphanumeric);
      ClassPlain(r.region);
      AllJoin(r.region, SubtagsFromVariants(v), Alphanumeric);
      ClassPlain(s.script);
      AllJoin(s.script, SubtagsFromRegion(r), Alphanumeric);
      ClassPlain(t.extlangs);
      AllJoin(t.extlangs, SubtagsFromScript(s), Alphanumeric);
      AllOfOne(t.language);
      AllJoin([t.language], t.extlangs + SubtagsFromScript(s), Alphanumeric);
    }
  }

  lemma AllOfOne(s: Str)
    requires Alphanumeric(s)
    ensures All([s], Alphanumeric)
  {
  }

  lemma PlainHasNoHyphen(ss: seq<Str>)
    requires All(ss, Alphanumeric)
    ensures forall i :: 0 <= i < |ss| ==> HYPHEN !in ss[i] && HASH !in ss[i]
  {
    forall i | 0 <= i < |ss|
      ensures HYPHEN !in ss[i] && HASH !in ss[i]
    {
      assert Alphanumeric(ss[i]);
    }
  }

  /** The expression matches exactly the tags of the grammar, each in one way. */
  lemma MatchIsGrammar(tag: Str, t: Tag)
    ensures Parse(Split(tag)) == Some(t) <==> WellFormed(t) && Join(HYPHEN, Subtags(t)) == tag
  {
    hide Parse, WellFormed, Subtags, Split, Join;
    JoinSplit(tag);
    if Parse(Split(tag)) == Some(t) {
      ParseSound(Split(tag));
    }
    if WellFormed(t) && Join(HYPHEN, Subtags(t)) == tag {
      SubtagsPlain(t);
      PlainHasNoHyphen(Subtags(t));
      SplitJoin(Subtags(t));
      ParseComplete(t);
    }
  }

  lemma {:induction false} SingletonLengths(es: seq<Extension>)
    requires AllExtensions(es)
    ensures forall m :: m in LowerAll(Singletons(es)) ==> |m| == 1
  {
    if es != [] {
      hide Lower;
      SingletonLengths(es[1..]);
      assert IsExtension(es[0]);
      LowerAllOne(es[0].singleton);
      LowerAllJoin([es[0].singleton], Singletons(es[1..]));
      LowerSingleton(es[0].singleton);
    }
  }

  lemma VariantLengths(ss: seq<Str>)
    requires All(ss, IsVariant)
    ensures forall m :: m in LowerAll(ss) ==> |m| > 1
  {
  }

  lemma DistinctJoin(a: seq<Str>, b: seq<Str>)
    requires (forall m :: m in a ==> |m| > 1) && (forall m :: m in b ==> |m| == 1)
    ensures NoDuplicates(a + b) <==> NoDuplicates(a) && NoDuplicates(b)
  {
    var ab := a + b;
    assert forall i :: 0 <= i < |a| ==> ab[i] == a[i] && a[i] in a;
    assert forall i :: 0 <= i < |b| ==> ab[|a| + i] == b[i] && b[i] in b;
  }

  /** The verdict of the loop on a tag of the grammar. */
  lemma LoopVerdict(t: Tag)
    requires WellFormed(t) && t.LangTag?
    ensures NoDuplicates(Marks(LowerAll(Subtags(t)[1..]), false)) <==> RepeatsNothing(t)
  {
    hide Marks, NoDuplicates, IsLanguage, IsPrivate, All, AllExtensions, Singletons, LowerAll;
    MarksAreVariantsAndSingletons(t);
    SingletonLengths(t.rest.rest.rest.extensions);
    VariantLengths(t.rest.rest.rest.variants);
    DistinctJoin(VariantsOf(t), SingletonsOf(t));
  }

  lemma LowerTail(parts: seq<Str>)
    requires parts != []
    ensures LowerAll(parts)[1..] == LowerAll(parts[1..]) && LowerAll(parts)[0] == Lower(parts[0])
  {
  }

  lemma FirstPart(t: Tag)
    requires WellFormed(t)
    ensures Subtags(t) != [] && (Lower(Subtags(t)[0]) == X <==> t.PrivateTag?)
  {
    if t.PrivateTag? {
      LowerSingleton(t.private[0]);
    } else {
      assert |Lower(t.language)| == |t.language|;
    }
  }

  lemma ValidIs(tag: Str, t: Tag)
    requires WellFormed(t) && Join(HYPHEN, Subtags(t)) == tag
    ensures Valid(tag) <==> RepeatsNothing(t)
  {
    hide WellFormed, Subtags, RepeatsNothing, Parse, Join;
    MatchIsGrammar(tag, t);
    if Valid(tag) {
      var u :| WellFormed(u) && Join(HYPHEN, Subtags(u)) == tag && RepeatsNothing(u);
      MatchIsGrammar(tag, u);
    }
  }

  /** Outside the grandfathered tags, acceptance means well-formed with no repeat. */
  method IsLanguageTag(tag: Str) returns (r: bool)
    ensures r <==> IsGrandfathered(tag) || Valid(tag)
  {
    hide Parse, WellFormed, Subtags, Split, Join, Valid, RepeatsNothing, Marks, NoDuplicates, Lower, LowerAll;
    if IsGrandfathered(tag) {
      return true;
    }
    var found := Parse(Split(tag));
    if found.None? {
      NotValid(tag);
      return false;
    }
    ghost var t := found.value;
    MatchIsGrammar(tag, t);
    ParseSound(Split(tag));
    ValidIs(tag, t);
    FirstPart(t);
    SplitLower(tag);
    var parts := Split(Lower(tag));
    LowerTail(Split(tag));
    if parts[0] == X {
      assert RepeatsNothing(t) by { PrivateRepeatsNothing(t); }
      return true;
    }
    LoopVerdict(t);
    r := MarksDiffer(parts[1..]);
  }

  lemma PrivateRepeatsNothing(t: Tag)
    requires t.PrivateTag?
    ensures RepeatsNothing(t)
  {
  }

  lemma NotValid(tag: Str)
    requires Parse(Split(tag)).None?
    ensures !Valid(tag)
  {
    hide Parse, WellFormed, Subtags, Split, Join;
    if Valid(tag) {
      var t :| WellFormed(t) && Join(HYPHEN, Subtags(t)) == tag && RepeatsNothing(t);
      MatchIsGrammar(tag, t);
    }
  }

  /** The lower-cased lookup lets one spelling outside ASCII in: the Kelvin sign for a k. */
  lemma KelvinSignPasses()
    ensures IsGrandfathered([0x69, HYPHEN, 0x68, 0x61, KELVIN_SIGN])
    ensures !Valid([0x69, HYPHEN, 0x68, 0x61, KELVIN_SIGN])
  {
    var tag := [0x69, HYPHEN, 0x68, 0x61, KELVIN_SIGN];
    assert GRANDFATHERED[5] == "i-hak";
    assert Lower(tag) == Units("i-hak");
    ValidIsAscii(tag);
    assert tag[4] == KELVIN_SIGN;
  }

  predicate TagUnit(c: CodeUnit) {
    IsLetter(c) || IsDigit(c) || c == HYPHEN
  }

  lemma {:induction false} JoinUnits(parts: seq<Str>)
    requires All(parts, Alphanumeric)
    ensures forall i :: 0 <= i < |Join(HYPHEN, parts)| ==> TagUnit(Join(HYPHEN, parts)[i])
  {
    if |parts| > 0 {
      assert Alphanumeric(parts[0]);
      if |parts| > 1 {
        JoinUnits(parts[1..]);
      }
    }
  }

  lemma ValidIsAscii(tag: Str)
    ensures Valid(tag) ==> forall i :: 0 <= i < |tag| ==> TagUnit(tag[i])
  {
    hide WellFormed, Subtags, Join;
    if Valid(tag) {
      var t :| WellFormed(t) && Join(HYPHEN, Subtags(t)) == tag && RepeatsNothing(t);
      SubtagsPlain(t);
      JoinUnits(Subtags(t));
    }
  }

  // ------------------------------------------------- claim names

  datatype ClaimName = ClaimName(base: Str, tag: Option<Str>)

  ghost predicate Accepted(tag: Str) {
    IsGrandfathered(tag) || Valid(tag)
  }

  predicate RegistryChar(c: char) {
    'a' <= c <= 'z' || c == '-'
  }

  lemma EarlierRegistered(i: nat)
    requires i < 13
    ensures forall k :: 0 <= k < |GRANDFATHERED[i]| ==> RegistryChar(GRANDFATHERED[i][k])
  {
  }

  lemma LaterRegistered(i: nat)
    requires 13 <= i < 26
    ensures forall k :: 0 <= k < |GRANDFATHERED[i]| ==> RegistryChar(GRANDFATHERED[i][k])
  {
  }

  predicate LowerTagUnit(c: CodeUnit) {
    0x61 <= c <= 0x7A || c == HYPHEN
  }

  lemma RegisteredUnits(i: nat)
    requires i < |GRANDFATHERED|
    ensures forall k :: 0 <= k < |Units(GRANDFATHERED[i])| ==> LowerTagUnit(Units(GRANDFATHERED[i])[k])
  {
    if i < 13 {
      EarlierRegistered(i);
    } else {
      LaterRegistered(i);
    }
    var s := GRANDFATHERED[i];
    forall k | 0 <= k < |s|
      ensures LowerTagUnit(Units(s)[k])
    {
      assert RegistryChar(s[k]);
    }
  }

  /** What the lookup reads: letters, hyphens and the Kelvin sign. */
  lemma LookedUpUnits(tag: Str)
    requires IsGrandfathered(tag)
    ensures forall k :: 0 <= k < |tag| ==> TagUnit(tag[k]) || tag[k] == KELVIN_SIGN
  {
    hide Units;
    var i :| 0 <= i < |GRANDFATHERED| && Lower(tag) == Units(GRANDFATHERED[i]);
    RegisteredUnits(i);
    forall k | 0 <= k < |tag|
      ensures TagUnit(tag[k]) || tag[k] == KELVIN_SIGN
    {
      assert LowerTagUnit(Lower(tag)[k]);
    }
  }

  // ------------------------------------------------- where the lookup leaves the RFC

  function AsciiLower(s: Str): (r: Str)
    ensures |r| == |s| && forall i :: 0 <= i < |s| ==> r[i] == if 0x41 <= s[i] <= 0x5A then s[i] + 0x20 else s[i]
  {
    seq(|s|, i requires 0 <= i < |s| => if 0x41 <= s[i] <= 0x5A then s[i] + 0x20 else s[i])
  }

  /** A grandfathered tag of the RFC, in any case of its ASCII letters. */
  predicate IsRegistered(tag: Str) {
    exists i :: 0 <= i < |GRANDFATHERED| && AsciiLower(tag) == Units(GRANDFATHERED[i])
  }

  function WithK(tag: Str): (r: Str)
    ensures |r| == |tag| && forall i :: 0 <= i < |tag| ==> r[i] == if tag[i] == KELVIN_SIGN then 0x6B else tag[i]
  {
    seq(|tag|, i requires 0 <= i < |tag| => if tag[i] == KELVIN_SIGN then 0x6B else tag[i])
  }

  /** For every tag the lookup is the RFC's, with a Kelvin sign read as a k. */
  lemma LookupReadsKelvinAsK(tag: Str)
    ensures IsGrandfathered(tag) <==> IsRegistered(WithK(tag))
  {
    assert Lower(tag) == AsciiLower(WithK(tag));
  }

  /** An accepted tag is one of the RFC if and only if it has no Kelvin sign, which is also
      when it is ASCII. */
  lemma AcceptedWithinRfc(tag: Str)
    requires Accepted(tag)
    ensures IsRegistered(tag) || Valid(tag) <==> KELVIN_SIGN !in tag
    ensures (forall i :: 0 <= i < |tag| ==> TagUnit(tag[i])) <==> KELVIN_SIGN !in tag
  {
    hide Valid, Units;
    ValidIsAscii(tag);
    if IsGrandfathered(tag) {
      LookedUpUnits(tag);
    }
    if KELVIN_SIGN in tag {
      var k :| 0 <= k < |tag| && tag[k] == KELVIN_SIGN;
      assert AsciiLower(tag)[k] == KELVIN_SIGN;
      forall i | 0 <= i < |GRANDFATHERED|
        ensures AsciiLower(tag) != Units(GRANDFATHERED[i])
      {
        RegisteredUnits(i);
      }
    } else {
      assert WithK(tag) == tag;
      LookupReadsKelvinAsK(tag);
    }
  }

  /** No accepted tag holds the separator, so a name splits at its last one or not at all. */
  lemma AcceptedHasNoHash(tag: Str)
    requires Accepted(tag)
    ensures HASH !in tag
  {
    hide Valid, IsGrandfathered;
    ValidIsAscii(tag);
    if IsGrandfathered(tag) {
      LookedUpUnits(tag);
    }
  }

  ghost predicate SplitsAs(name: Str, base: Str, tag: Str) {
    name == base + [HASH] + tag && Accepted(tag)
  }

  lemma LastHash(name: Str, b1: Str, t1: Str, b2: Str, t2: Str)
    requires name == b1 + [HASH] + t1 && name == b2 + [HASH] + t2 && HASH !in t1
    ensures |b2| <= |b1|
  {
    assert forall i :: |b1| < i < |name| ==> name[i] == t1[i - |b1| - 1] && name[i] in t1;
    assert name[|b2|] == HASH;
  }

  /** At most one base leaves an accepted tag. */
  lemma BaseUnique(name: Str, b1: Str, t1: Str, b2: Str, t2: Str)
    requires SplitsAs(name, b1, t1) && SplitsAs(name, b2, t2)
    ensures b1 == b2 && t1 == t2
  {
    hide Accepted;
    AcceptedHasNoHash(t1);
    AcceptedHasNoHash(t2);
    LastHash(name, b1, t1, b2, t2);
    LastHash(name, b2, t2, b1, t1);
    assert b1 == name[..|b1|] && b2 == name[..|b2|];
    assert t1 == name[|b1| + 1..] && t2 == name[|b2| + 1..];
  }

  /** A declared name stands for itself; otherwise the declared base that leaves an accepted
      tag is split off; otherwise the name stays whole. */
  ghost predicate IsSplit(name: Str, declared: set<Str>, r: ClaimName) {
    if name in declared then r == ClaimName(name, None)
    else match r.tag
      case Some(tag) => r.base in declared && SplitsAs(name, r.base, tag)
      case None => r.base == name && forall base, tag :: base in declared ==> !SplitsAs(name, base, tag)
  }

  /** So the split is one and the same however the declared names are listed. */
  lemma SplitIgnoresOrder(name: Str, declared: set<Str>, r1: ClaimName, r2: ClaimName)
    requires IsSplit(name, declared, r1) && IsSplit(name, declared, r2)
    ensures r1 == r2
  {
    hide SplitsAs;
    if name !in declared && r1.tag.Some? && r2.tag.Some? {
      BaseUnique(name, r1.base, r1.tag.value, r2.base, r2.tag.value);
    }
  }

  predicate StartsWith(name: Str, base: Str) {
    |base| < |name| && name[..|base|] == base && name[|base|] == HASH
  }

  predicate LongerFirst(a: Str, b: Str) {
    |b| <= |a|
  }

  function Candidates(name: Str, declared: seq<Str>): (r: seq<Str>)
    ensures forall base :: base in r <==> base in declared && StartsWith(name, base)
  {
    if declared == [] then []
    else if StartsWith(name, declared[0]) then [declared[0]] + Candidates(name, declared[1..])
    else Candidates(name, declared[1..])
  }

  lemma TagAfter(name: Str, base: Str)
    ensures StartsWith(name, base) ==>
            |base| + 1 <= |name| && (Accepted(name[|base| + 1..]) ==> SplitsAs(name, base, name[|base| + 1..]))
    ensures forall tag :: SplitsAs(name, base, tag) ==>
            StartsWith(name, base) && tag == name[|base| + 1..] && Accepted(tag)
  {
    hide Accepted;
    if StartsWith(name, base) {
      assert name == base + [HASH] + name[|base| + 1..];
    }
    forall tag | SplitsAs(name, base, tag)
      ensures StartsWith(name, base) && tag == name[|base| + 1..]
    {
      assert (base + [HASH] + tag)[|base|] == HASH;
    }
  }

  method SplitInformationalClaim(name: Str, declared: seq<Str>) returns (r: ClaimName)
    ensures IsSplit(name, (set d | d in declared), r)
  {
    hide Accepted, IsGrandfathered, Valid, StartsWith, SplitsAs, Sort;
    if name in declared {
      return ClaimName(name, None);
    }
    var candidates := Sort(Candidates(name, declared), LongerFirst);
    SortPermutes(Candidates(name, declared), LongerFirst);
    for i := 0 to |candidates|
      invariant forall j, tag :: 0 <= j < i ==> !SplitsAs(name, candidates[j], tag)
    {
      var base := candidates[i];
      assert base in candidates;
      TagAfter(name, base);
      var tag := name[|base| + 1..];
      var ok := IsLanguageTag(tag);
      AcceptedMeans(tag);
      if ok {
        return ClaimName(base, Some(tag));
      }
    }
    forall base, tag | base in declared
      ensures !SplitsAs(name, base, tag)
    {
      TagAfter(name, base);
      assert StartsWith(name, base) ==> base in candidates;
    }
    return ClaimName(name, None);
  }

  lemma AcceptedMeans(tag: Str)
    ensures Accepted(tag) <==> IsGrandfathered(tag) || Valid(tag)
  {
  }
}
