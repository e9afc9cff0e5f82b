/** The trust-mark listing: the store pages the subjects with a valid mark of one type, and
    the endpoint drains the pages. The store may change before every call. */
module TrustMarkList {
  import opened Options
  import opened Text
  import opened Sorting
  import opened OrderedMaps
  import opened Store
  import opened TrustMarks
  import opened Paging

  // ------------------------------------------------- what one store call sees

  predicate SubjectAtMost(a: Mark, b: Mark) {
    AtMost(a.subject, b.subject)
  }

  predicate TypeAtMost(a: Mark, b: Mark) {
    AtMost(a.markType, b.markType)
  }

  function Asked(markType: Str, subject: Option<Str>, t: int): Mark -> bool {
    (m: Mark) => m.markType == markType && (subject.None? || m.subject == subject.value) && IsValidAt(m, t)
  }

  /** All rows of `listValid`: the newest valid mark of every subject, by subject. */
  function SubjectRows(ms: seq<Mark>, markType: Str, subject: Option<Str>, t: int): seq<Mark> {
    Sort(Values(LatestBy(Where(ms, Asked(markType, subject, t)), SubjectOf)), SubjectAtMost)
  }

  /** All of `listValidForSubject`: the newest valid mark of every type, by type. */
  function TypeRows(ms: seq<Mark>, subject: Str, t: int): seq<Mark> {
    Sort(Values(LatestBy(Where(ms, ValidFor(subject, t)), TypeOf)), TypeAtMost)
  }

  /** Sorting the values of a map by its key lists every key once, in order. */
  lemma SortedByKey(kept: OMap<Str, Mark>, key: Mark -> Str, le: (Mark, Mark) -> bool)
    requires forall k :: k in kept.at ==> key(kept.at[k]) == k
    requires ComparesKeys(key, le)
    ensures var rows := Sort(Values(kept), le);
            && Ascending(rows, key)
            && (forall m :: m in rows ==> key(m) in kept.at && kept.at[key(m)] == m)
            && (forall k :: k in kept.at ==> kept.at[k] in rows)
  {
    hide Sort, Less;
    var vs := Values(kept);
    var rows := Sort(vs, le);
    assert DistinctBy(vs, key);
    SortAscends(vs, key, le, rows);
    SortPermutes(vs, le);
    forall k | k in kept.at
      ensures kept.at[k] in rows
    {
      ValuesMembers(kept, kept.at[k]);
    }
  }

  /** `latestBySubject` then sort: ascending subjects, each with the mark `getValid` answers. */
  lemma SubjectRowsAgree(ms: seq<Mark>, markType: Str, subject: Option<Str>, t: int)
    requires DistinctTokens(ms)
    ensures var rows := SubjectRows(ms, markType, subject, t);
            && Ascending(rows, SubjectOf)
            && (forall m :: m in rows <==>
                  && (subject.None? || m.subject == subject.value)
                  && GetValid(ms, markType, m.subject, t) == Some(m))
  {
    hide Sort, LatestBy, GetValid, IsValidAt, Newest;
    var asked := Asked(markType, subject, t);
    var kept := LatestBy(Where(ms, asked), SubjectOf);
    WhereDistinct(ms, asked);
    LatestByIsNewest(Where(ms, asked), SubjectOf);
    KeptUnderKey(Where(ms, asked), SubjectOf);
    SortedByKey(kept, SubjectOf, SubjectAtMost);
    forall m: Mark
      ensures m in SubjectRows(ms, markType, subject, t) <==>
              (subject.None? || m.subject == subject.value) && GetValid(ms, markType, m.subject, t) == Some(m)
    {
      if subject.None? || m.subject == subject.value {
        GetValidIsNewest(ms, markType, m.subject, t);
        FoldFindsNewest(ms, asked, SubjectOf, m.subject, OfTypeFor(markType, m.subject, t),
                        GetValid(ms, markType, m.subject, t));
      } else {
        NoneOfOther(ms, asked, kept, m.subject);
      }
    }
  }

  lemma KeptUnderKey(ms: seq<Mark>, key: Mark -> Str)
    requires DistinctTokens(ms)
    ensures forall k :: k in LatestBy(ms, key).at ==> key(LatestBy(ms, key).at[k]) == k
  {
    hide LatestBy;
    LatestByIsNewest(ms, key);
    forall k | k in LatestBy(ms, key).at
      ensures key(LatestBy(ms, key).at[k]) == k
    {
      assert Newest(LatestBy(ms, key).at[k], ms, WithKey(key, k));
    }
  }

  lemma NoneOfOther(ms: seq<Mark>, asked: Mark -> bool, kept: OMap<Str, Mark>, k: Str)
    requires forall m: Mark :: asked(m) ==> m.subject != k
    requires forall j :: j in kept.at <==> exists m :: m in Where(ms, asked) && SubjectOf(m) == j
    ensures k !in kept.at
  {
  }

  /** `listValidForSubject`: ascending types, each with the mark `getValid` answers. */
  lemma TypeRowsAgree(ms: seq<Mark>, subject: Str, t: int)
    requires DistinctTokens(ms)
    ensures var rows := TypeRows(ms, subject, t);
            && Ascending(rows, TypeOf)
            && (forall m :: m in rows <==> GetValid(ms, m.markType, subject, t) == Some(m))
  {
    hide Sort, LatestBy, GetValid, IsValidAt, Newest;
    var found := Where(ms, ValidFor(subject, t));
    WhereDistinct(ms, ValidFor(subject, t));
    KeptUnderKey(found, TypeOf);
    SortedByKey(LatestBy(found, TypeOf), TypeOf, TypeAtMost);
    forall m: Mark
      ensures m in TypeRows(ms, subject, t) <==> GetValid(ms, m.markType, subject, t) == Some(m)
    {
      SubjectFoldAgrees(ms, m.markType, subject, t);
    }
  }

  // ------------------------------------------------- draining the pages

  function Subjects(rows: seq<Mark>): (ids: seq<Str>)
    ensures |ids| == |rows| && forall i :: 0 <= i < |ids| ==> ids[i] == rows[i].subject
  {
    seq(|rows|, i requires 0 <= i < |rows| => rows[i].subject)
  }

  /** What the calls gather, each on its own listing; unfinished when the listings run out. */
  datatype Drained = Drained(gathered: seq<Mark>, calls: nat, finished: bool)

  function Drain(rows: seq<seq<Mark>>, cursor: Option<Str>, limit: nat): (r: Drained)
    ensures r.calls <= |rows|
  {
    if rows == [] then Drained([], 0, false)
    else
      var page := PageOf(rows[0], SubjectOf, cursor, limit);
      if page.next.None? then Drained(page.items, 1, true)
      else
        var rest := Drain(rows[1..], page.next, limit);
        Drained(page.items + rest.gathered, 1 + rest.calls, rest.finished)
  }

  datatype Outcome = Listed(ids: seq<Str>) | RepeatedCursor | StoreStillChanging

  /** The listing at each of the store's successive states. */
  function RowsOver(stores: seq<seq<Mark>>, markType: Str, subject: Option<Str>, t: int): (rows: seq<seq<Mark>>)
    ensures |rows| == |stores| && forall i :: 0 <= i < |rows| ==>
            rows[i] == SubjectRows(stores[i], markType, subject, t)
  {
    seq(|stores|, i requires 0 <= i < |stores| => SubjectRows(stores[i], markType, subject, t))
  }

  ghost predicate ValidStores(stores: seq<seq<Mark>>) {
    forall i :: 0 <= i < |stores| ==> DistinctTokens(stores[i])
  }

  lemma RowsOverAscend(stores: seq<seq<Mark>>, markType: Str, subject: Option<Str>, t: int)
    requires ValidStores(stores)
    ensures AllAscending(RowsOver(stores, markType, subject, t))
  {
    hide SubjectRows;
    forall i | 0 <= i < |stores|
      ensures Ascending(RowsOver(stores, markType, subject, t)[i], SubjectOf)
    {
      SubjectRowsAgree(stores[i], markType, subject, t);
    }
  }

  /** The endpoint's loop. An empty or missing cursor ends it; a cursor seen before would be
      an error, and never is. */
  method DrainPages(stores: seq<seq<Mark>>, markType: Str, subject: Option<Str>, t: int, limit: nat)
    returns (r: Outcome)
    requires limit > 0 && ValidStores(stores)
    ensures var d := Drain(RowsOver(stores, markType, subject, t), None, limit);
            r == if d.finished then Listed(Subjects(d.gathered)) else StoreStillChanging
  {
    hide SubjectRows;
    ghost var rows := RowsOver(stores, markType, subject, t);
    RowsOverAscend(stores, markType, subject, t);
    var entityIds: seq<Str>, seenCursors: set<Str>, cursor: Option<Str> := [], {}, None;
    ghost var whole := Drain(rows, None, limit);
    var calls := 0;
    while calls < |stores|
      invariant calls <= |stores|
      invariant calls > 0 ==> cursor.Some?
      invariant forall c :: c in seenCursors ==> cursor.Some? && AtMost(c, cursor.value)
      invariant var rest := Drain(rows[calls..], cursor, limit);
                whole.finished == rest.finished && Subjects(whole.gathered) == entityIds + Subjects(rest.gathered)
    {
      hide PageOf, Less, Ascending;
      var result := PageOf(SubjectRows(stores[calls], markType, subject, t), SubjectOf, cursor, limit);
      NextCursorIsLater(rows[calls], cursor, limit);
      assert rows[calls..][1..] == rows[calls + 1..];
      SubjectsJoin(result.items, Drain(rows[calls + 1..], result.next, limit).gathered, entityIds);
      entityIds := entityIds + Subjects(result.items);
      if result.next.Some? && result.next.value != [] && result.next.value in seenCursors {
        return RepeatedCursor;
      }
      if result.next.None? || result.next.value == [] {
        return Listed(entityIds);
      }
      StillBelow(seenCursors, cursor, result.next.value);
      cursor := result.next;
      seenCursors := seenCursors + {cursor.value};
      calls := calls + 1;
    }
    return StoreStillChanging;
  }

  ghost predicate AllAscending(rows: seq<seq<Mark>>) {
    forall i :: 0 <= i < |rows| ==> Ascending(rows[i], SubjectOf)
  }

  lemma SubjectsJoin(a: seq<Mark>, b: seq<Mark>, before: seq<Str>)
    ensures before + Subjects(a + b) == (before + Subjects(a)) + Subjects(b)
    ensures a == a + [] && Subjects([]) == []
  {
  }

  lemma StillBelow(seen: set<Str>, cursor: Option<Str>, next: Str)
    requires forall c :: c in seen ==> cursor.Some? && AtMost(c, cursor.value)
    requires cursor.Some? ==> Less(cursor.value, next)
    ensures forall c :: c in seen + {next} ==> AtMost(c, next)
  {
    hide Less;
    LessIrreflexive(next);
    forall c | c in seen
      ensures AtMost(c, next)
    {
      LessAsymmetric(cursor.value, next);
      AtMostTransitive(c, cursor.value, next);
    }
  }

  lemma LessThenAtMost(a: Str, b: Str, c: Str)
    ensures Less(a, b) && AtMost(b, c) ==> Less(a, c)
    ensures AtMost(a, b) && Less(b, c) ==> Less(a, c)
  {
    LessTotal(a, b);
    LessTotal(b, c);
    if Less(a, b) && Less(b, c) {
      LessTransitive(a, b, c);
    }
  }

  /** A next cursor is never empty and lies strictly above the cursor it follows. */
  lemma NextCursorIsLater(rows: seq<Mark>, cursor: Option<Str>, limit: nat)
    requires limit > 0 && Ascending(rows, SubjectOf)
    ensures var next := PageOf(rows, SubjectOf, cursor, limit).next;
            next.Some? ==>
              && next.value != []
              && (cursor.Some? ==> Less(cursor.value, next.value) && !AtMost(next.value, cursor.value))
  {
    var page := PageOf(rows, SubjectOf, cursor, limit);
    PageWithin(rows, SubjectOf, cursor, limit);
    hide PageOf;
    if page.next.Some? {
      var first := SubjectOf(page.items[0]);
      assert Less(first, page.next.value);
      if cursor.Some? {
        hide Less;
        LessThenAtMost(cursor.value, first, page.next.value);
      }
    }
  }

  /** Whatever happens to the store between calls, the gathered subjects strictly ascend. */
  lemma {:induction false} DrainAscends(rows: seq<seq<Mark>>, cursor: Option<Str>, limit: nat)
    requires limit > 0 && AllAscending(rows)
    ensures var d := Drain(rows, cursor, limit);
            && Ascending(d.gathered, SubjectOf)
            && forall i :: 0 <= i < |d.gathered| ==> AtOrAfter(cursor, SubjectOf(d.gathered[i]))
  {
    hide PageOf, Less;
    if rows != [] {
      var page := PageOf(rows[0], SubjectOf, cursor, limit);
      PageWithin(rows[0], SubjectOf, cursor, limit);
      if page.next.Some? {
        var rest := Drain(rows[1..], page.next, limit).gathered;
        DrainAscends(rows[1..], page.next, limit);
        NextCursorIsLater(rows[0], cursor, limit);
        assert AllBefore(page.items, page.next.value) && AllFrom(rest, page.next.value);
        MeetAscending(page.items, rest, page.next.value);
        if cursor.Some? {
          FromLower(rest, page.next.value, cursor.value);
        }
      }
    }
  }

  ghost predicate AllBefore(rows: seq<Mark>, k: Str) {
    forall i :: 0 <= i < |rows| ==> Less(SubjectOf(rows[i]), k)
  }

  ghost predicate AllFrom(rows: seq<Mark>, k: Str) {
    forall i :: 0 <= i < |rows| ==> AtMost(k, SubjectOf(rows[i]))
  }

  lemma MeetAscending(a: seq<Mark>, b: seq<Mark>, k: Str)
    requires Ascending(a, SubjectOf) && Ascending(b, SubjectOf) && AllBefore(a, k) && AllFrom(b, k)
    ensures Ascending(a + b, SubjectOf)
  {
    hide Less;
    forall i, j | 0 <= i < |a| && 0 <= j < |b|
      ensures Less(SubjectOf(a[i]), SubjectOf(b[j]))
    {
      LessThenAtMost(SubjectOf(a[i]), k, SubjectOf(b[j]));
    }
  }

  lemma FromLower(rows: seq<Mark>, k: Str, lower: Str)
    requires AllFrom(rows, k) && Less(lower, k)
    ensures AllFrom(rows, lower)
  {
    hide Less;
    forall i | 0 <= i < |rows|
      ensures AtMost(lower, SubjectOf(rows[i]))
    {
      LessAsymmetric(lower, k);
      AtMostTransitive(lower, k, SubjectOf(rows[i]));
    }
  }

  /** A finished drain misses no subject that every one of its calls saw listed. */
  lemma {:induction false} DrainCovers(rows: seq<seq<Mark>>, cursor: Option<Str>, limit: nat, id: Str)
    requires limit > 0 && AllAscending(rows) && Drain(rows, cursor, limit).finished && AtOrAfter(cursor, id)
    requires forall c :: 0 <= c < Drain(rows, cursor, limit).calls ==> HasKey(rows[c], SubjectOf, id)
    ensures HasKey(Drain(rows, cursor, limit).gathered, SubjectOf, id)
  {
    hide PageOf, Less, HasKey;
    var page := PageOf(rows[0], SubjectOf, cursor, limit);
    var d := Drain(rows, cursor, limit);
    assert HasKey(rows[0], SubjectOf, id);
    if Before(id, page.next) {
      PageHas(rows[0], SubjectOf, cursor, limit, id);
      assert d.gathered == page.items + d.gathered[|page.items|..];
      HasKeyJoin(page.items, d.gathered[|page.items|..], SubjectOf, id);
    } else {
      var rest := Drain(rows[1..], page.next, limit);
      assert forall c :: 0 <= c < rest.calls ==> rows[1..][c] == rows[c + 1];
      DrainCovers(rows[1..], page.next, limit, id);
      HasKeyJoin(page.items, rest.gathered, SubjectOf, id);
    }
  }

  /** And gathers nothing that no call saw. */
  lemma {:induction false} DrainFromRows(rows: seq<seq<Mark>>, cursor: Option<Str>, limit: nat, i: nat) returns (c: nat)
    requires limit > 0 && AllAscending(rows) && i < |Drain(rows, cursor, limit).gathered|
    ensures c < Drain(rows, cursor, limit).calls && Drain(rows, cursor, limit).gathered[i] in rows[c]
  {
    hide PageOf;
    var page := PageOf(rows[0], SubjectOf, cursor, limit);
    PageWithin(rows[0], SubjectOf, cursor, limit);
    if i < |page.items| {
      c := 0;
    } else {
      c := DrainFromRows(rows[1..], page.next, limit, i - |page.items|);
      c := c + 1;
    }
  }

  /** Over a store that changes between calls a finished drain returns every subject at most
      once and in ascending order, every subject that kept a valid mark throughout, and only
      subjects that had one at some call. */
  lemma DrainOverChanges(stores: seq<seq<Mark>>, markType: Str, t: int, limit: nat)
    requires limit > 0 && ValidStores(stores) && Drain(RowsOver(stores, markType, None, t), None, limit).finished
    ensures var d := Drain(RowsOver(stores, markType, None, t), None, limit);
            && Ascending(d.gathered, SubjectOf)
            && (forall id :: (forall c :: 0 <= c < |stores| ==> GetValid(stores[c], markType, id, t).Some?) ==>
                id in Subjects(d.gathered))
            && (forall id :: id in Subjects(d.gathered) ==>
                exists c :: 0 <= c < |stores| && GetValid(stores[c], markType, id, t).Some?)
  {
    hide SubjectRows, Drain, GetValid, Ascending, HasKey;
    var rows := RowsOver(stores, markType, None, t);
    var d := Drain(rows, None, limit);
    RowsOverAscend(stores, markType, None, t);
    DrainAscends(rows, None, limit);
    forall id | forall c :: 0 <= c < |stores| ==> GetValid(stores[c], markType, id, t).Some?
      ensures id in Subjects(d.gathered)
    {
      forall c | 0 <= c < |stores|
        ensures HasKey(rows[c], SubjectOf, id)
      {
        RowForSubject(stores[c], markType, id, t);
      }
      DrainCovers(rows, None, limit, id);
      KeyIsSubject(d.gathered, id);
    }
    forall id | id in Subjects(d.gathered)
      ensures exists c :: 0 <= c < |stores| && GetValid(stores[c], markType, id, t).Some?
    {
      var i :| 0 <= i < |d.gathered| && Subjects(d.gathered)[i] == id;
      var c := DrainFromRows(rows, None, limit, i);
      SubjectRowsAgree(stores[c], markType, None, t);
    }
  }

  lemma KeyIsSubject(rows: seq<Mark>, id: Str)
    requires HasKey(rows, SubjectOf, id)
    ensures id in Subjects(rows)
  {
    var i :| 0 <= i < |rows| && SubjectOf(rows[i]) == id;
    assert Subjects(rows)[i] == id;
  }

  lemma RowForSubject(ms: seq<Mark>, markType: Str, id: Str, t: int)
    requires DistinctTokens(ms) && GetValid(ms, markType, id, t).Some?
    ensures HasKey(SubjectRows(ms, markType, None, t), SubjectOf, id)
  {
    hide SubjectRows, GetValid, Ascending;
    var m := GetValid(ms, markType, id, t).value;
    GetValidIsNewest(ms, markType, id, t);
    SubjectRowsAgree(ms, markType, None, t);
    assert OfTypeFor(markType, id, t)(m);
    var rows := SubjectRows(ms, markType, None, t);
    assert m in rows;
    var i :| 0 <= i < |rows| && rows[i] == m;
    assert SubjectOf(rows[i]) == id;
  }

  // ------------------------------------------------- on an unchanging store

  /** Enough calls on one unchanging listing finish and return exactly it. */
  lemma {:induction false} DrainStill(rows: seq<seq<Mark>>, l: seq<Mark>, cursor: Option<Str>, limit: nat, p: nat)
    requires limit > 0 && Ascending(l, SubjectOf) && (forall i :: 0 <= i < |rows| ==> rows[i] == l)
    requires p <= |l| && |rows| > |l| - p && StandsAt(l, SubjectOf, cursor, p)
    ensures var d := Drain(rows, cursor, limit);
            d.finished && d.gathered == l[p..]
    decreases |rows|
  {
    hide Ascending, PageOf;
    var n := PageAt(l, SubjectOf, cursor, p, limit);
    if p + n < |l| {
      DrainStill(rows[1..], l, Some(SubjectOf(l[p + n])), limit, p + n);
      assert l[p..p + n] + l[p + n..] == l[p..];
    } else {
      assert l[p..p + n] == l[p..];
    }
  }

  /** On one store the endpoint answers exactly the subjects `getValid` finds a mark for,
      ascending, whatever the page size. */
  lemma StillDrainAnswers(ms: seq<Mark>, markType: Str, subject: Option<Str>, t: int, limit: nat,
                          stores: seq<seq<Mark>>)
    requires limit > 0 && DistinctTokens(ms)
    requires |stores| > |SubjectRows(ms, markType, subject, t)| && forall i :: 0 <= i < |stores| ==> stores[i] == ms
    ensures var d := Drain(RowsOver(stores, markType, subject, t), None, limit);
            && d.finished && Ascending(d.gathered, SubjectOf)
            && forall id :: id in Subjects(d.gathered) <==>
                 (subject.None? || id == subject.value) && GetValid(ms, markType, id, t).Some?
  {
    hide SubjectRows, Drain, Ascending, GetValid;
    var l := SubjectRows(ms, markType, subject, t);
    SubjectRowsAgree(ms, markType, subject, t);
    assert l == l[0..];
    DrainStill(RowsOver(stores, markType, subject, t), l, None, limit, 0);
    var ids := Subjects(l);
    forall id
      ensures id in ids <==> (subject.None? || id == subject.value) && GetValid(ms, markType, id, t).Some?
    {
      if id in ids {
        var i :| 0 <= i < |ids| && ids[i] == id;
        assert l[i] in l;
      }
      if (subject.None? || id == subject.value) && GetValid(ms, markType, id, t).Some? {
        var m := GetValid(ms, markType, id, t).value;
        GetValidIsNewest(ms, markType, id, t);
        assert m.subject == id;
        assert m in l;
        var i :| 0 <= i < |l| && l[i] == m;
        assert ids[i] == id;
      }
    }
  }
}
