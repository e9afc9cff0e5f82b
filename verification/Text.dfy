/** Strings as the JavaScript sources see them: sequences of UTF-16 code units,
    compared unit by unit. */
module Text {
  type CodeUnit = c: int | 0 <= c < 0x10000
  type Str = seq<CodeUnit>

  /** The `<` of the language on strings. */
  predicate Less(a: Str, b: Str) {
    b != [] && (a == [] || a[0] < b[0] || (a[0] == b[0] && Less(a[1..], b[1..])))
  }

  predicate AtMost(a: Str, b: Str) {
    !Less(b, a)
  }

  /** The texts agree before k, where a has ended or has the smaller unit. */
  ghost predicate PartsAt(a: Str, b: Str, k: nat) {
    k <= |a| && k < |b| && a[..k] == b[..k] && (k == |a| || a[k] < b[k])
  }

  /** Texts are ordered by the first place where they part. */
  lemma {:induction false} LessIsFirstParting(a: Str, b: Str)
    ensures Less(a, b) <==> exists k: nat :: PartsAt(a, b, k)
  {
    if a == [] || b == [] || a[0] != b[0] {
      assert PartsAt(a, b, 0) <==> Less(a, b);
      assert forall k: nat :: PartsAt(a, b, k) ==> k == 0;
    } else {
      LessIsFirstParting(a[1..], b[1..]);
      forall k: nat
        ensures PartsAt(a[1..], b[1..], k) <==> PartsAt(a, b, 1 + k)
      {
        if 1 + k <= |a| && 1 + k <= |b| {
          assert a[..1 + k] == [a[0]] + a[1..][..k] && b[..1 + k] == [b[0]] + b[1..][..k];
          assert a[1..][..k] == a[..1 + k][1..] && b[1..][..k] == b[..1 + k][1..];
        }
      }
      if k: nat :| PartsAt(a, b, k) {
        assert PartsAt(a[1..], b[1..], k - 1) by { assert k != 0; assert k == 1 + (k - 1); }
      }
      if k: nat :| PartsAt(a[1..], b[1..], k) {
        assert PartsAt(a, b, 1 + k);
      }
    }
  }

  lemma {:induction false} LessIrreflexive(a: Str)
    ensures !Less(a, a)
  {
    if a != [] {
      LessIrreflexive(a[1..]);
    }
  }

  lemma {:induction false} LessTransitive(a: Str, b: Str, c: Str)
    requires Less(a, b) && Less(b, c)
    ensures Less(a, c)
  {
    if a != [] && a[0] == b[0] == c[0] {
      LessTransitive(a[1..], b[1..], c[1..]);
    }
  }

  lemma {:induction false} LessTotal(a: Str, b: Str)
    ensures a == b || Less(a, b) || Less(b, a)
  {
    if a != [] && b != [] && a[0] == b[0] {
      LessTotal(a[1..], b[1..]);
      assert a == [a[0]] + a[1..] && b == [b[0]] + b[1..];
    }
  }

  lemma LessAsymmetric(a: Str, b: Str)
    requires Less(a, b)
    ensures !Less(b, a) && a != b
  {
    LessIrreflexive(a);
    if Less(b, a) {
      LessTransitive(a, b, a);
    }
  }

  /** `AtMost` is a total order, so sorting by it has one result per multiset. */
  lemma AtMostTransitive(a: Str, b: Str, c: Str)
    requires AtMost(a, b) && AtMost(b, c)
    ensures AtMost(a, c)
  {
    LessTotal(a, b);
    LessTotal(b, c);
    if Less(c, a) {
      if a != b {
        LessTransitive(c, a, b);
      }
    }
  }

  lemma AtMostAntisymmetric(a: Str, b: Str)
    requires AtMost(a, b) && AtMost(b, a)
    ensures a == b
  {
    LessTotal(a, b);
  }

  /** The texts with a separator between them. */
  function Join(separator: CodeUnit, parts: seq<Str>): Str {
    if parts == [] then []
    else if |parts| == 1 then parts[0]
    else parts[0] + ([separator] + Join(separator, parts[1..]))
  }
}
