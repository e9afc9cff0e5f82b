/** The trust-mark queries. Three of them pick "the newest valid mark" in three ways, a
    sort and two folds; all are compared here with one definition of newest. */
module TrustMarks {
  import opened Options
  import opened Text
  import opened Sorting
  import opened OrderedMaps
  import opened Store

  predicate IsValidAt(m: Mark, t: int) {
    m.active && (m.expiresAt.None? || m.expiresAt.value > t)
  }

  predicate Newer(candidate: Mark, current: Mark) {
    candidate.issuedAt > current.issuedAt ||
        (candidate.issuedAt == current.issuedAt && Less(current.jwt, candidate.jwt))
  }

  /** The comparison `getValid` sorts by: newest first, ties by token descending. */
  predicate NewestFirst(a: Mark, b: Mark) {
    if a.issuedAt == b.issuedAt then AtMost(b.jwt, a.jwt) else b.issuedAt < a.issuedAt
  }

  ghost predicate DistinctTokens(ms: seq<Mark>) {
    forall i, j :: 0 <= i < j < |ms| ==> ms[i].jwt != ms[j].jwt
  }

  function Where(ms: seq<Mark>, p: Mark -> bool): (r: seq<Mark>)
    ensures forall m :: m in r <==> m in ms && p(m)
  {
    if ms == [] then []
    else if p(ms[|ms| - 1]) then Where(ms[..|ms| - 1], p) + [ms[|ms| - 1]]
    else Where(ms[..|ms| - 1], p)
  }

  function OfTypeFor(markType: Str, subject: Str, t: int): Mark -> bool {
    (m: Mark) => m.markType == markType && m.subject == subject && IsValidAt(m, t)
  }

  function ValidFor(subject: Str, t: int): Mark -> bool {
    (m: Mark) => m.subject == subject && IsValidAt(m, t)
  }

  function GetValid(ms: seq<Mark>, markType: Str, subject: Str, t: int): Option<Mark> {
    var found := Sort(Where(ms, OfTypeFor(markType, subject, t)), NewestFirst);
    if found == [] then None else Some(found[0])
  }

  predicate HasAnyValid(ms: seq<Mark>, subject: Str, t: int) {
    exists m :: m in ms && ValidFor(subject, t)(m)
  }

  /** The one definition: m satisfies p and beats every other mark that does. */
  ghost predicate Newest(m: Mark, ms: seq<Mark>, p: Mark -> bool) {
    m in ms && p(m) && forall n :: n in ms && p(n) && n != m ==> Newer(m, n)
  }

  lemma NewerTransitive(a: Mark, b: Mark, c: Mark)
    requires Newer(a, b) && Newer(b, c)
    ensures Newer(a, c)
  {
    if a.issuedAt == b.issuedAt == c.issuedAt {
      LessTransitive(c.jwt, b.jwt, a.jwt);
    }
  }

  lemma NewerTotal(a: Mark, b: Mark)
    ensures a.jwt != b.jwt ==> Newer(a, b) || Newer(b, a)
    ensures !(Newer(a, b) && Newer(b, a)) && !Newer(a, a)
  {
    LessTotal(a.jwt, b.jwt);
    LessIrreflexive(a.jwt);
    if Less(b.jwt, a.jwt) {
      LessAsymmetric(b.jwt, a.jwt);
    }
  }

  lemma TokenNamesMark(ms: seq<Mark>, m: Mark, n: Mark)
    requires DistinctTokens(ms) && m in ms && n in ms && m != n
    ensures m.jwt != n.jwt
  {
  }

  lemma NewestUnique(m: Mark, n: Mark, ms: seq<Mark>, p: Mark -> bool)
    requires Newest(m, ms, p) && Newest(n, ms, p)
    ensures m == n
  {
    NewerTotal(m, n);
  }

  lemma NewestFirstTotal()
    ensures TotalPreorder(NewestFirst)
  {
    forall a: Mark, b: Mark
      ensures NewestFirst(a, b) || NewestFirst(b, a)
    {
      if Less(a.jwt, b.jwt) {
        LessAsymmetric(a.jwt, b.jwt);
      }
    }
    forall a: Mark, b: Mark, c: Mark | NewestFirst(a, b) && NewestFirst(b, c)
      ensures NewestFirst(a, c)
    {
      if a.issuedAt == b.issuedAt == c.issuedAt {
        AtMostTransitive(c.jwt, b.jwt, a.jwt);
      }
    }
  }

  /** `getValid` answers exactly the newest matching mark, and nothing when there is none. */
  lemma GetValidIsNewest(ms: seq<Mark>, markType: Str, subject: Str, t: int)
    requires DistinctTokens(ms)
    ensures var p := OfTypeFor(markType, subject, t);
            match GetValid(ms, markType, subject, t)
            case Some(m) => Newest(m, ms, p)
            case None => forall n :: n in ms ==> !p(n)
  {
    hide Sort, Newer, NewestFirst, IsValidAt;
    var p := OfTypeFor(markType, subject, t);
    var matching := Where(ms, p);
    var found := Sort(matching, NewestFirst);
    SortPermutes(matching, NewestFirst);
    NewestFirstTotal();
    SortSorted(matching, NewestFirst);
    if found == [] {
      forall n | n in ms
        ensures !p(n)
      {
        assert n in matching ==> n in found;
      }
    } else {
      var m := found[0];
      forall n | n in ms && p(n) && n != m
        ensures Newer(m, n)
      {
        assert n in found;
        var i :| 0 <= i < |found| && found[i] == n;
        TokenNamesMark(ms, m, n);
        FirstIsNewer(m, n);
      }
    }
  }

  /** The mark answers the question on its own: of the type, of the subject, not revoked and,
      if it expires, expiring only later. */
  ghost predicate Answers(m: Mark, markType: Str, subject: Str, t: int) {
    m.markType == markType && m.subject == subject && m.active && forall e :: m.expiresAt == Some(e) ==> t < e
  }

  /** Later issued, or issued together under a token that sorts later. */
  ghost predicate Beats(m: Mark, n: Mark) {
    n.issuedAt < m.issuedAt || (n.issuedAt == m.issuedAt && Less(n.jwt, m.jwt))
  }

  /** `getValid` answers a mark exactly when it is on file, answers the question and beats every
      other mark that does; and it answers one as soon as there is one. */
  lemma GetValidIs(ms: seq<Mark>, markType: Str, subject: Str, t: int)
    requires DistinctTokens(ms)
    ensures forall m :: GetValid(ms, markType, subject, t) == Some(m) <==>
              m in ms && Answers(m, markType, subject, t)
              && forall n :: n in ms && Answers(n, markType, subject, t) && n != m ==> Beats(m, n)
    ensures GetValid(ms, markType, subject, t).Some? <==> exists m :: m in ms && Answers(m, markType, subject, t)
  {
    hide GetValid, Less;
    var p := OfTypeFor(markType, subject, t);
    assert forall m :: p(m) <==> Answers(m, markType, subject, t);
    assert forall m, n :: Newer(m, n) <==> Beats(m, n);
    hide Answers, Beats, Newer, IsValidAt, OfTypeFor;
    GetValidIsNewest(ms, markType, subject, t);
    forall m | m in ms && p(m) && forall n :: n in ms && p(n) && n != m ==> Newer(m, n)
      ensures GetValid(ms, markType, subject, t) == Some(m)
    {
      NewestUnique(m, GetValid(ms, markType, subject, t).value, ms, p);
    }
  }

  lemma FirstIsNewer(m: Mark, n: Mark)
    requires NewestFirst(m, n) && m.jwt != n.jwt
    ensures Newer(m, n)
  {
    LessTotal(m.jwt, n.jwt);
  }

  // ------------------------------------------------- the folds

  /** Keep, per key, the newer of the mark seen and the mark kept. */
  function LatestBy(ms: seq<Mark>, key: Mark -> Str): OMap<Str, Mark> {
    if ms == [] then Empty()
    else
      var kept, m := LatestBy(ms[..|ms| - 1], key), ms[|ms| - 1];
      if key(m) !in kept.at || Newer(m, kept.at[key(m)]) then Put(kept, key(m), m) else kept
  }

  method LatestPer(records: seq<Mark>, key: Mark -> Str) returns (latest: OMap<Str, Mark>)
    ensures latest == LatestBy(records, key)
  {
    latest := Empty();
    for i := 0 to |records|
      invariant latest == LatestBy(records[..i], key)
    {
      var record := records[i];
      assert records[..i + 1][..i] == records[..i];
      if key(record) !in latest.at || Newer(record, latest.at[key(record)]) {
        latest := Put(latest, key(record), record);
      }
    }
    assert records[..|records|] == records;
  }

  function WithKey(key: Mark -> Str, k: Str): Mark -> bool {
    (m: Mark) => key(m) == k
  }

  /** The fold keeps, for every key that occurs and no other, the newest mark of that key. */
  lemma {:induction false} LatestByIsNewest(ms: seq<Mark>, key: Mark -> Str)
    requires DistinctTokens(ms)
    ensures forall k :: k in LatestBy(ms, key).at <==> exists m :: m in ms && key(m) == k
    ensures forall k :: k in LatestBy(ms, key).at ==> Newest(LatestBy(ms, key).at[k], ms, WithKey(key, k))
  {
    if ms != [] {
      var rest, m := ms[..|ms| - 1], ms[|ms| - 1];
      LatestByIsNewest(rest, key);
      assert ms == rest + [m];
      var kept, now := LatestBy(rest, key), LatestBy(ms, key);
      forall k
        ensures k in now.at <==> exists n :: n in ms && key(n) == k
      {
        assert k in now.at <==> k in kept.at || k == key(m);
        if n :| n in rest && key(n) == k {
          assert n in ms;
        }
        assert m in ms;
      }
      forall k | k in now.at
        ensures Newest(now.at[k], ms, WithKey(key, k))
      {
        FoldStep(rest, m, key, k, kept, now.at[k]);
      }
    }
  }

  lemma FoldStep(rest: seq<Mark>, m: Mark, key: Mark -> Str, k: Str, kept: OMap<Str, Mark>, best: Mark)
    requires DistinctTokens(rest + [m])
    requires if k in kept.at then Newest(kept.at[k], rest, WithKey(key, k)) else forall n :: n in rest ==> key(n) != k
    requires if key(m) == k && (k !in kept.at || Newer(m, kept.at[k])) then best == m
      else k in kept.at && best == kept.at[k]
    ensures Newest(best, rest + [m], WithKey(key, k))
  {
    hide Newer;
    var ms := rest + [m];
    assert m !in rest by {
      assert forall i :: 0 <= i < |rest| ==> ms[i] == rest[i] && ms[i].jwt != ms[|rest|].jwt;
    }
    forall n | n in ms && key(n) == k && n != best
      ensures Newer(best, n)
    {
      if n == m {
        TokenNamesMark(ms, n, best);
        NewerTotal(n, best);
      } else if best == m && n != kept.at[k] {
        NewerTransitive(m, kept.at[k], n);
      }
    }
  }

  // ------------------------------------------------- the forms agree

  function TypeOf(m: Mark): Str { m.markType }

  function SubjectOf(m: Mark): Str { m.subject }

  lemma {:induction false} WhereDistinct(ms: seq<Mark>, p: Mark -> bool)
    requires DistinctTokens(ms)
    ensures DistinctTokens(Where(ms, p))
  {
    if ms != [] {
      var n := |ms| - 1;
      WhereDistinct(ms[..n], p);
      forall m | m in Where(ms[..n], p)
        ensures m.jwt != ms[n].jwt
      {
        assert m in ms[..n];
      }
    }
  }

  /** Folding the marks that satisfy q by key finds, per key k, the newest that satisfies p,
      when p is q together with that key. */
  lemma FoldFindsNewest(ms: seq<Mark>, q: Mark -> bool, key: Mark -> Str, k: Str, p: Mark -> bool, got: Option<Mark>)
    requires DistinctTokens(ms) && forall m :: p(m) <==> q(m) && key(m) == k
    requires match got case Some(m) => Newest(m, ms, p) case None => forall n :: n in ms ==> !p(n)
    ensures var kept := LatestBy(Where(ms, q), key).at;
            got == if k in kept then Some(kept[k]) else None
  {
    hide Newer, LatestBy;
    var some := Where(ms, q);
    WhereDistinct(ms, q);
    LatestByIsNewest(some, key);
    var kept := LatestBy(some, key).at;
    assert got.Some? ==> got.value in some && key(got.value) == k;
    if k in kept {
      assert Newest(kept[k], some, WithKey(key, k));
      assert Newest(kept[k], ms, p);
      NewestUnique(kept[k], got.value, ms, p);
    }
  }

  /** `listValidForSubject`'s fold keeps, per type, what `getValid` answers for that type. */
  lemma SubjectFoldAgrees(ms: seq<Mark>, markType: Str, subject: Str, t: int)
    requires DistinctTokens(ms)
    ensures var kept := LatestBy(Where(ms, ValidFor(subject, t)), TypeOf).at;
            GetValid(ms, markType, subject, t) == if markType in kept then Some(kept[markType]) else None
  {
    hide GetValid, IsValidAt, LatestBy, Newest;
    GetValidIsNewest(ms, markType, subject, t);
    FoldFindsNewest(ms, ValidFor(subject, t), TypeOf, markType, OfTypeFor(markType, subject, t),
                    GetValid(ms, markType, subject, t));
  }

  function OfType(markType: Str, t: int): Mark -> bool {
    (m: Mark) => m.markType == markType && IsValidAt(m, t)
  }

  /** `latestBySubject`'s fold keeps, per subject, what `getValid` answers for that subject. */
  lemma TypeFoldAgrees(ms: seq<Mark>, markType: Str, subject: Str, t: int)
    requires DistinctTokens(ms)
    ensures var kept := LatestBy(Where(ms, OfType(markType, t)), SubjectOf).at;
            GetValid(ms, markType, subject, t) == if subject in kept then Some(kept[subject]) else None
  {
    hide GetValid, IsValidAt, LatestBy, Newest;
    GetValidIsNewest(ms, markType, subject, t);
    FoldFindsNewest(ms, OfType(markType, t), SubjectOf, subject, OfTypeFor(markType, subject, t),
                    GetValid(ms, markType, subject, t));
  }

  /** The trust-mark condition of the subordinate listing: some mark of a requested type,
      or of any type when none is named, is valid for the record. */
  predicate Listed(ms: seq<Mark>, id: Str, types: Option<seq<Str>>, t: int) {
    exists m :: m in ms && m.subject == id && (types.None? || m.markType in types.value) && IsValidAt(m, t)
  }

  /** The listing's filter says what the other two queries say. */
  lemma ListedAgrees(ms: seq<Mark>, id: Str, types: Option<seq<Str>>, t: int)
    requires DistinctTokens(ms)
    ensures types.None? ==> (Listed(ms, id, types, t) <==> HasAnyValid(ms, id, t))
    ensures types.Some? ==> (Listed(ms, id, types, t) <==>
            exists ty :: ty in types.value && GetValid(ms, ty, id, t).Some?)
  {
    hide GetValid, IsValidAt;
    if m :| m in ms && m.subject == id && (types.None? || m.markType in types.value) && IsValidAt(m, t) {
      assert ValidFor(id, t)(m);
      GetValidIsNewest(ms, m.markType, id, t);
      assert OfTypeFor(m.markType, id, t)(m);
    }
    if types.Some? {
      forall ty | ty in types.value && GetValid(ms, ty, id, t).Some?
        ensures Listed(ms, id, types, t)
      {
        GetValidIsNewest(ms, ty, id, t);
        var m := GetValid(ms, ty, id, t).value;
        assert OfTypeFor(ty, id, t)(m);
      }
    }
    if HasAnyValid(ms, id, t) {
      var m :| m in ms && ValidFor(id, t)(m);
    }
  }

  /** Marks filed under their tokens have distinct tokens. */
  lemma FiledDistinct(marks: OMap<Str, Mark>)
    requires forall jwt :: jwt in marks.at ==> marks.at[jwt].jwt == jwt
    ensures DistinctTokens(Values(marks))
  {
  }
}
