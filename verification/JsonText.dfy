/** What `JSON.stringify` prints for strings and finite numbers, and that the
    printing can be read back: strings by undoing the escapes of section 7 of
    RFC 8259, numbers by their digits and the place of the decimal point. */
module JsonText {
  import opened Text

  const QUOTE: CodeUnit := 0x22
  const BACKSLASH: CodeUnit := 0x5C
  const LETTER_U: CodeUnit := 0x75
  const LETTER_E: CodeUnit := 0x65
  const DOT: CodeUnit := 0x2E
  const PLUS: CodeUnit := 0x2B
  const MINUS: CodeUnit := 0x2D
  const DIGIT_ZERO: CodeUnit := 0x30

  /** A text splits at its first separator in only one way. */
  lemma SplitUnique(a1: Str, b1: Str, a2: Str, b2: Str, c: CodeUnit)
    requires a1 + [c] + b1 == a2 + [c] + b2 && c !in a1 && c !in a2
    ensures a1 == a2 && b1 == b2
  {
    var t := a1 + [c] + b1;
    assert t[|a1|] == c && t[|a2|] == c;
    assert forall i :: 0 <= i < |a1| ==> t[i] == a1[i];
    assert forall i :: 0 <= i < |a2| ==> t[i] == a2[i];
    assert |a1| == |a2|;
    assert b1 == t[|a1| + 1..] && b2 == t[|a1| + 1..];
  }

  // ---------------------------------------------------------------- strings

  predicate Lead(c: CodeUnit) {
    0xD800 <= c < 0xDC00
  }

  predicate Trail(c: CodeUnit) {
    0xDC00 <= c < 0xE000
  }

  function Hex(d: int): CodeUnit
    requires 0 <= d < 16
  {
    if d < 10 then 0x30 + d else 0x57 + d
  }

  function Unhex(c: CodeUnit): int {
    if c < 0x3A then c - 0x30 else c - 0x57
  }

  function FromHex(a: CodeUnit, b: CodeUnit, c: CodeUnit, d: CodeUnit): CodeUnit {
    var v := ((Unhex(a) * 16 + Unhex(b)) * 16 + Unhex(c)) * 16 + Unhex(d);
    if 0 <= v < 0x10000 then v else 0
  }

  function UnicodeEscape(c: CodeUnit): Str {
    [BACKSLASH, LETTER_U, Hex(c / 16 / 16 / 16), Hex(c / 16 / 16 % 16), Hex(c / 16 % 16), Hex(c % 16)]
  }

  /** The letter after the backslash for the units that have a short escape. */
  function ShortEscape(c: CodeUnit): CodeUnit {
    if c == 0x08 then 0x62
    else if c == 0x09 then 0x74
    else if c == 0x0A then 0x6E
    else if c == 0x0C then 0x66
    else if c == 0x0D then 0x72
    else if c == QUOTE || c == BACKSLASH then c
    else 0
  }

  function Unescape(c: CodeUnit): CodeUnit {
    if c == 0x62 then 0x08
    else if c == 0x74 then 0x09
    else if c == 0x6E then 0x0A
    else if c == 0x66 then 0x0C
    else if c == 0x72 then 0x0D
    else c
  }

  /** One unit that is not half of a surrogate pair. */
  function EscapeUnit(c: CodeUnit): Str {
    if ShortEscape(c) != 0 then [BACKSLASH, ShortEscape(c)]
    else if c < 0x20 || Lead(c) || Trail(c) then UnicodeEscape(c)
    else [c]
  }

  function QuotedBody(s: Str): Str {
    if s == [] then []
    else if |s| > 1 && Lead(s[0]) && Trail(s[1]) then [s[0], s[1]] + QuotedBody(s[2..])
    else EscapeUnit(s[0]) + QuotedBody(s[1..])
  }

  function Quoted(s: Str): Str {
    [QUOTE] + QuotedBody(s) + [QUOTE]
  }

  /** Reads a string body up to its closing quote: the text and what follows the quote. */
  function ReadBody(t: Str): (Str, Str) {
    if t == [] then ([], [])
    else if t[0] == QUOTE then ([], t[1..])
    else if t[0] != BACKSLASH then
      var tail := ReadBody(t[1..]);
      ([t[0]] + tail.0, tail.1)
    else if |t| >= 6 && t[1] == LETTER_U then
      var tail := ReadBody(t[6..]);
      ([FromHex(t[2], t[3], t[4], t[5])] + tail.0, tail.1)
    else if |t| >= 2 then
      var tail := ReadBody(t[2..]);
      ([Unescape(t[1])] + tail.0, tail.1)
    else ([], [])
  }

  lemma HexRoundTrip(c: CodeUnit)
    ensures FromHex(Hex(c / 16 / 16 / 16), Hex(c / 16 / 16 % 16), Hex(c / 16 % 16), Hex(c % 16)) == c
  {
  }

  lemma ReadHexEscape(h1: CodeUnit, h2: CodeUnit, h3: CodeUnit, h4: CodeUnit, t: Str)
    ensures ReadBody([BACKSLASH, LETTER_U, h1, h2, h3, h4] + t) ==
            ([FromHex(h1, h2, h3, h4)] + ReadBody(t).0, ReadBody(t).1)
  {
    var u := [BACKSLASH, LETTER_U, h1, h2, h3, h4] + t;
    assert u[6..] == t;
  }

  lemma ReadPlain(c: CodeUnit, t: Str)
    requires c != QUOTE && c != BACKSLASH
    ensures ReadBody([c] + t) == ([c] + ReadBody(t).0, ReadBody(t).1)
  {
    assert ([c] + t)[1..] == t;
  }

  lemma ReadUnit(c: CodeUnit, t: Str)
    ensures ReadBody(EscapeUnit(c) + t) == ([c] + ReadBody(t).0, ReadBody(t).1)
  {
    if ShortEscape(c) != 0 {
      var u := [BACKSLASH, ShortEscape(c)] + t;
      assert u[2..] == t;
      assert u[1] != LETTER_U && Unescape(u[1]) == c;
    } else if c < 0x20 || Lead(c) || Trail(c) {
      HexRoundTrip(c);
      ReadHexEscape(Hex(c / 16 / 16 / 16), Hex(c / 16 / 16 % 16), Hex(c / 16 % 16), Hex(c % 16), t);
    } else {
      ReadPlain(c, t);
    }
  }

  lemma ReadPair(a: CodeUnit, b: CodeUnit, t: Str)
    requires Lead(a) && Trail(b)
    ensures ReadBody([a, b] + t) == ([a, b] + ReadBody(t).0, ReadBody(t).1)
  {
    assert [a, b] + t == [a] + ([b] + t);
    ReadPlain(b, t);
    ReadPlain(a, [b] + t);
    assert [a] + ([b] + ReadBody(t).0) == [a, b] + ReadBody(t).0;
  }

  lemma Associative(a: Str, b: Str, c: Str)
    ensures (a + b) + c == a + (b + c)
  {
  }

  lemma SplitPair(s: Str)
    requires |s| > 1
    ensures s == [s[0], s[1]] + s[2..]
  {
  }

  lemma ReadEnd(rest: Str)
    ensures ReadBody([QUOTE] + rest) == ([], rest)
  {
    assert ([QUOTE] + rest)[1..] == rest;
  }

  /** Escaping is undone by reading, whatever follows the closing quote. */
  lemma {:induction false} ReadQuoted(s: Str, rest: Str)
    ensures ReadBody(QuotedBody(s) + ([QUOTE] + rest)) == (s, rest)
  {
    hide ReadBody, EscapeUnit;
    var tail := [QUOTE] + rest;
    if s == [] {
      ReadEnd(rest);
      assert QuotedBody(s) + tail == tail;
    } else if |s| > 1 && Lead(s[0]) && Trail(s[1]) {
      ReadQuoted(s[2..], rest);
      ReadPair(s[0], s[1], QuotedBody(s[2..]) + tail);
      Associative([s[0], s[1]], QuotedBody(s[2..]), tail);
      SplitPair(s);
    } else {
      ReadQuoted(s[1..], rest);
      ReadUnit(s[0], QuotedBody(s[1..]) + tail);
      Associative(EscapeUnit(s[0]), QuotedBody(s[1..]), tail);
      assert s == [s[0]] + s[1..];
    }
  }

  /** Quoted strings are self-delimiting and distinct strings print differently. */
  lemma QuotedInjective(s1: Str, r1: Str, s2: Str, r2: Str)
    requires Quoted(s1) + r1 == Quoted(s2) + r2
    ensures s1 == s2 && r1 == r2
  {
    hide ReadBody, QuotedBody;
    assert (Quoted(s1) + r1)[1..] == QuotedBody(s1) + ([QUOTE] + r1);
    assert (Quoted(s2) + r2)[1..] == QuotedBody(s2) + ([QUOTE] + r2);
    ReadQuoted(s1, r1);
    ReadQuoted(s2, r2);
  }

  // ---------------------------------------------------------------- numbers

  /** A finite number as `Number::toString` sees it: the shortest decimal digits
      that round to it, read as 0.d1d2...dk * 10^point. */
  datatype Number = Zero(negative: bool) | Decimal(negative: bool, digits: Str, point: int)

  predicate AllDigits(d: Str) {
    forall i :: 0 <= i < |d| ==> 0x30 <= d[i] <= 0x39
  }

  predicate ValidDigits(d: Str) {
    d != [] && AllDigits(d) && d[0] != DIGIT_ZERO && d[|d| - 1] != DIGIT_ZERO
  }

  predicate ValidNumber(x: Number) {
    x.Decimal? ==> ValidDigits(x.digits)
  }

  function Zeros(n: nat): (r: Str)
    ensures |r| == n && forall i :: 0 <= i < n ==> r[i] == DIGIT_ZERO
  {
    seq(n, _ => DIGIT_ZERO)
  }

  function NatText(m: nat): (r: Str)
    ensures r != [] && AllDigits(r)
  {
    if m < 10 then [0x30 + m] else NatText(m / 10) + [0x30 + m % 10]
  }

  function NatValue(t: Str): int {
    if t == [] then 0 else NatValue(t[..|t| - 1]) * 10 + t[|t| - 1] - 0x30
  }

  lemma {:induction false} NatRoundTrip(m: nat)
    ensures NatValue(NatText(m)) == m
  {
    if m >= 10 {
      NatRoundTrip(m / 10);
      var t := NatText(m);
      assert t[..|t| - 1] == NatText(m / 10);
    }
  }

  /** The four layouts of `Number::toString` for a positive number. */
  function Magnitude(d: Str, n: int): Str
    requires d != []
  {
    if |d| <= n <= 21 then d + Zeros(n - |d|)
    else if 0 < n <= 21 then d[..n] + [DOT] + d[n..]
    else if -6 < n <= 0 then [DIGIT_ZERO, DOT] + (Zeros(-n) + d)
    else Mantissa(d) + [LETTER_E] + ExponentText(n - 1)
  }

  function Mantissa(d: Str): Str
    requires d != []
  {
    if |d| == 1 then d else [d[0], DOT] + d[1..]
  }

  function ExponentText(e: int): Str {
    if e > 0 then [PLUS] + NatText(e) else [MINUS] + NatText(-e)
  }

  function NumberText(x: Number): Str
    requires ValidNumber(x)
  {
    match x
    case Zero(_) => [DIGIT_ZERO]
    case Decimal(negative, d, n) => if negative then [MINUS] + Magnitude(d, n) else Magnitude(d, n)
  }

  /** The numbers the printer identifies: zero has one text whatever its sign. */
  predicate SameNumber(x: Number, y: Number) {
    x == y || (x.Zero? && y.Zero?)
  }

  lemma ExponentInjective(e1: int, e2: int)
    requires ExponentText(e1) == ExponentText(e2)
    ensures e1 == e2
  {
    assert ExponentText(e1)[1..] == ExponentText(e2)[1..];
    assert ExponentText(e1)[1..] == NatText(if e1 > 0 then e1 else -e1);
    assert ExponentText(e2)[1..] == NatText(if e2 > 0 then e2 else -e2);
    NatRoundTrip(if e1 > 0 then e1 else -e1);
    NatRoundTrip(if e2 > 0 then e2 else -e2);
  }

  lemma MantissaInjective(d1: Str, d2: Str)
    requires d1 != [] && d2 != [] && Mantissa(d1) == Mantissa(d2)
    ensures d1 == d2
  {
    assert |d1| == |d2|;
    assert |d1| > 1 ==> d1[1..] == Mantissa(d1)[2..] && d2[1..] == Mantissa(d2)[2..];
    assert d1 == [d1[0]] + d1[1..] && d2 == [d2[0]] + d2[1..];
  }

  /** Integers: the trailing zeros are told from the digits, which end in none. */
  lemma IntegerLayoutInjective(d1: Str, z1: nat, d2: Str, z2: nat)
    requires ValidDigits(d1) && ValidDigits(d2)
    requires d1 + Zeros(z1) == d2 + Zeros(z2)
    ensures d1 == d2 && z1 == z2
  {
    var t := d1 + Zeros(z1);
    assert t[|d1| - 1] != DIGIT_ZERO && t[|d2| - 1] != DIGIT_ZERO;
    assert forall i :: |d1| <= i < |t| ==> t[i] == DIGIT_ZERO;
    assert forall i :: |d2| <= i < |t| ==> t[i] == DIGIT_ZERO;
    assert |d1| == |d2|;
    assert d1 == t[..|d1|] && d2 == t[..|d1|];
  }

  /** Small fractions: the leading zeros are told from the digits, which start with none. */
  lemma FractionLayoutInjective(z1: nat, d1: Str, z2: nat, d2: Str)
    requires ValidDigits(d1) && ValidDigits(d2)
    requires Zeros(z1) + d1 == Zeros(z2) + d2
    ensures d1 == d2 && z1 == z2
  {
    var t := Zeros(z1) + d1;
    assert t[z1] != DIGIT_ZERO && t[z2] != DIGIT_ZERO;
    assert forall i :: 0 <= i < z1 ==> t[i] == DIGIT_ZERO;
    assert forall i :: 0 <= i < z2 ==> t[i] == DIGIT_ZERO;
    assert z1 == z2;
    assert d1 == t[z1..] && d2 == t[z1..];
  }

  predicate NumberUnit(c: CodeUnit) {
    0x30 <= c <= 0x39 || c == DOT || c == PLUS || c == MINUS || c == LETTER_E
  }

  /** Which of the four layouts was used can be read off the text. */
  lemma LayoutVisible(d: Str, n: int)
    requires ValidDigits(d)
    ensures LETTER_E in Magnitude(d, n) <==> !(-6 < n <= 21)
    ensures -6 < n <= 21 ==> (DOT in Magnitude(d, n) <==> n < |d|)
    ensures Magnitude(d, n) != [] && NumberUnit(Magnitude(d, n)[0]) && Magnitude(d, n)[0] != MINUS
    ensures -6 < n <= 21 ==> (Magnitude(d, n)[0] == DIGIT_ZERO <==> n <= 0)
    ensures Magnitude(d, n) != [DIGIT_ZERO]
  {
    var t := Magnitude(d, n);
    if |d| <= n <= 21 {
      assert t[0] == d[0];
    } else if 0 < n <= 21 {
      assert t[n] == DOT;
      assert t[0] == d[0];
    } else if -6 < n <= 0 {
      assert t[1] == DOT;
    } else {
      assert t[|Mantissa(d)|] == LETTER_E;
      assert t[0] == d[0];
    }
  }

  lemma MagnitudeUnits(d: Str, n: int)
    requires ValidDigits(d)
    ensures forall i :: 0 <= i < |Magnitude(d, n)| ==> NumberUnit(Magnitude(d, n)[i])
  {
    var e := ExponentText(n - 1);
    assert forall i :: 0 <= i < |e| ==> NumberUnit(e[i]);
  }

  lemma ScientificLayoutInjective(d1: Str, e1: int, d2: Str, e2: int)
    requires ValidDigits(d1) && ValidDigits(d2)
    requires Mantissa(d1) + [LETTER_E] + ExponentText(e1) == Mantissa(d2) + [LETTER_E] + ExponentText(e2)
    ensures d1 == d2 && e1 == e2
  {
    SplitUnique(Mantissa(d1), ExponentText(e1), Mantissa(d2), ExponentText(e2), LETTER_E);
    MantissaInjective(d1, d2);
    ExponentInjective(e1, e2);
  }

  lemma SameLayout(d1: Str, n1: int, d2: Str, n2: int)
    requires ValidDigits(d1) && ValidDigits(d2)
    requires Magnitude(d1, n1) == Magnitude(d2, n2)
    ensures -6 < n1 <= 21 <==> -6 < n2 <= 21
    ensures -6 < n1 <= 21 ==> (n1 < |d1| <==> n2 < |d2|) && (n1 <= 0 <==> n2 <= 0)
  {
    LayoutVisible(d1, n1);
    LayoutVisible(d2, n2);
  }

  lemma FractionInjective(d1: Str, n1: int, d2: Str, n2: int)
    requires ValidDigits(d1) && ValidDigits(d2) && -6 < n1 <= 0 && -6 < n2 <= 0
    requires Magnitude(d1, n1) == Magnitude(d2, n2)
    ensures d1 == d2 && n1 == n2
  {
    var a, b := Zeros(-n1) + d1, Zeros(-n2) + d2;
    assert ([DIGIT_ZERO, DOT] + a)[2..] == a;
    assert ([DIGIT_ZERO, DOT] + b)[2..] == b;
    FractionLayoutInjective(-n1, d1, -n2, d2);
  }

  lemma PointInjective(d1: Str, n1: int, d2: Str, n2: int)
    requires ValidDigits(d1) && ValidDigits(d2) && 0 < n1 <= 21 && 0 < n2 <= 21 && n1 < |d1| && n2 < |d2|
    requires Magnitude(d1, n1) == Magnitude(d2, n2)
    ensures d1 == d2 && n1 == n2
  {
    SplitUnique(d1[..n1], d1[n1..], d2[..n2], d2[n2..], DOT);
    assert d1 == d1[..n1] + d1[n1..] && d2 == d2[..n2] + d2[n2..];
  }

  lemma IntegerInjective(d1: Str, n1: int, d2: Str, n2: int)
    requires ValidDigits(d1) && ValidDigits(d2) && |d1| <= n1 <= 21 && |d2| <= n2 <= 21
    requires Magnitude(d1, n1) == Magnitude(d2, n2)
    ensures d1 == d2 && n1 == n2
  {
    IntegerLayoutInjective(d1, n1 - |d1|, d2, n2 - |d2|);
  }

  lemma ScientificInjective(d1: Str, n1: int, d2: Str, n2: int)
    requires ValidDigits(d1) && ValidDigits(d2) && !(-6 < n1 <= 21) && !(-6 < n2 <= 21)
    requires Magnitude(d1, n1) == Magnitude(d2, n2)
    ensures d1 == d2 && n1 == n2
  {
    ScientificLayoutInjective(d1, n1 - 1, d2, n2 - 1);
  }

  lemma MagnitudeInjective(d1: Str, n1: int, d2: Str, n2: int)
    requires ValidDigits(d1) && ValidDigits(d2)
    requires Magnitude(d1, n1) == Magnitude(d2, n2)
    ensures d1 == d2 && n1 == n2
  {
    SameLayout(d1, n1, d2, n2);
    if !(-6 < n1 <= 21) {
      ScientificInjective(d1, n1, d2, n2);
    } else if |d1| <= n1 {
      IntegerInjective(d1, n1, d2, n2);
    } else if n1 <= 0 {
      FractionInjective(d1, n1, d2, n2);
    } else {
      PointInjective(d1, n1, d2, n2);
    }
  }

  /** Numbers print alike exactly when they are equal or both zero. */
  lemma NumberTextInjective(x: Number, y: Number)
    requires ValidNumber(x) && ValidNumber(y)
    ensures NumberText(x) == NumberText(y) <==> SameNumber(x, y)
  {
    if x.Decimal? {
      LayoutVisible(x.digits, x.point);
    }
    if y.Decimal? {
      LayoutVisible(y.digits, y.point);
    }
    if NumberText(x) == NumberText(y) && x.Decimal? && y.Decimal? {
      assert x.negative <==> NumberText(x)[0] == MINUS;
      assert y.negative <==> NumberText(y)[0] == MINUS;
      if x.negative {
        assert NumberText(x)[1..] == Magnitude(x.digits, x.point);
        assert NumberText(y)[1..] == Magnitude(y.digits, y.point);
      }
      MagnitudeInjective(x.digits, x.point, y.digits, y.point);
    }
  }
}
