/** The extended subordinate listing: one request fills a page of the client's size from
    smaller store batches under a cap on store calls and hands back a resume cursor; a
    client follows the cursors. The store may change before every call. */
module ExtendedList {
  import opened Options
  import opened Text
  import opened Sorting
  import opened OrderedMaps
  import opened Store
  import opened Paging
  import TrustMarks

  // ------------------------------------------------- what one store call sees

  datatype Filter = Filter(
    entityTypes: seq<Str>, intermediate: Option<bool>,
    trustMarked: bool, markTypes: Option<seq<Str>>, validAt: int,
    updatedAfter: Option<int>, updatedBefore: Option<int>)

  predicate WantsMarks(f: Filter) {
    f.trustMarked || f.markTypes.Some?
  }

  predicate Passes(s: State, f: Filter, r: Record) {
    && (f.entityTypes == [] || (r.entityTypes.Some? && exists t :: t in r.entityTypes.value && t in f.entityTypes))
    && (f.intermediate.None? || (r.intermediate.Some? && r.intermediate.value) == f.intermediate.value)
    && (WantsMarks(f) ==> s.marks.Some? && TrustMarks.Listed(Values(s.marks.value), r.entityId, f.markTypes, f.validAt))
    && (f.updatedAfter.None? || r.updatedAt >= f.updatedAfter.value)
    && (f.updatedBefore.None? || r.updatedAt <= f.updatedBefore.value)
  }

  predicate IdAtMost(a: Record, b: Record) {
    AtMost(a.entityId, b.entityId)
  }

  function IdOf(r: Record): Str {
    r.entityId
  }

  function Select(rs: seq<Record>, s: State, f: Filter): (r: seq<Record>)
    ensures forall x :: x in r <==> x in rs && Passes(s, f, x)
  {
    if rs == [] then []
    else if Passes(s, f, rs[0]) then [rs[0]] + Select(rs[1..], s, f)
    else Select(rs[1..], s, f)
  }

  /** The unpaginated listing: the records that pass, by identifier. */
  function Listing(s: State, f: Filter): seq<Record> {
    Sort(Select(Values(s.subordinates), s, f), IdAtMost)
  }

  /** One store call; without a mark store a mark filter throws. */
  function ListCall(s: State, f: Filter, cursor: Option<Str>, limit: nat): Option<Page<Record>> {
    if WantsMarks(f) && s.marks.None? then None else Some(PageOf(Listing(s, f), IdOf, cursor, limit))
  }

  lemma {:induction false} SelectDistinct(rs: seq<Record>, s: State, f: Filter)
    requires DistinctBy(rs, IdOf)
    ensures DistinctBy(Select(rs, s, f), IdOf)
  {
    if rs != [] {
      SelectDistinct(rs[1..], s, f);
      var rest := Select(rs[1..], s, f);
      assert forall i :: 0 <= i < |rest| ==> rest[i] in rs[1..];
    }
  }

  /** The listing holds exactly the stored records that pass, once each, by identifier. */
  lemma ListingIsFilter(s: State, f: Filter)
    requires ValidState(s)
    ensures Ascending(Listing(s, f), IdOf)
    ensures forall r :: r in Listing(s, f) <==>
            r.entityId in s.subordinates.at && s.subordinates.at[r.entityId] == r && Passes(s, f, r)
  {
    hide Passes, Sort;
    var vs := Values(s.subordinates);
    var some := Select(vs, s, f);
    SelectDistinct(vs, s, f);
    SortPermutes(some, IdAtMost);
    SortAscends(some, IdOf, IdAtMost, Sort(some, IdAtMost));
    var l := Listing(s, f);
    forall r
      ensures r in l <==> r.entityId in s.subordinates.at && s.subordinates.at[r.entityId] == r && Passes(s, f, r)
    {
      ValuesMembers(s.subordinates, r);
    }
  }

  /** What the filter asks, question by question, with validity as the mark store answers it. */
  ghost predicate Fits(s: State, f: Filter, r: Record) {
    && (f.entityTypes != [] ==> r.entityTypes.Some? && exists t :: t in f.entityTypes && t in r.entityTypes.value)
    && (f.intermediate == Some(true) ==> r.intermediate == Some(true))
    && (f.intermediate == Some(false) ==> r.intermediate != Some(true))
    && (f.trustMarked || f.markTypes.Some? ==>
          exists ty :: ValidNow(s, ty, r.entityId, f.validAt) && (f.markTypes.Some? ==> ty in f.markTypes.value))
    && (forall u :: f.updatedAfter == Some(u) ==> u <= r.updatedAt)
    && (forall u :: f.updatedBefore == Some(u) ==> r.updatedAt <= u)
  }

  ghost predicate ValidNow(s: State, markType: Str, subject: Str, t: int) {
    s.marks.Some? && TrustMarks.GetValid(Values(s.marks.value), markType, subject, t).Some?
  }

  lemma MarkedFits(s: State, f: Filter, r: Record)
    requires ValidState(s) && s.marks.Some?
    ensures TrustMarks.Listed(Values(s.marks.value), r.entityId, f.markTypes, f.validAt) <==>
            exists ty :: ValidNow(s, ty, r.entityId, f.validAt) && (f.markTypes.Some? ==> ty in f.markTypes.value)
  {
    hide TrustMarks.GetValid;
    var marks := Values(s.marks.value);
    TrustMarks.FiledDistinct(s.marks.value);
    forall ty
      ensures ValidNow(s, ty, r.entityId, f.validAt) <==>
              exists m :: m in marks && TrustMarks.Answers(m, ty, r.entityId, f.validAt)
    {
      TrustMarks.GetValidIs(marks, ty, r.entityId, f.validAt);
    }
    if TrustMarks.Listed(marks, r.entityId, f.markTypes, f.validAt) {
      var m :| m in marks && m.subject == r.entityId && (f.markTypes.None? || m.markType in f.markTypes.value) &&
          TrustMarks.IsValidAt(m, f.validAt);
      assert TrustMarks.Answers(m, m.markType, r.entityId, f.validAt);
      assert ValidNow(s, m.markType, r.entityId, f.validAt);
    }
  }

  /** Which records a listing holds: those on file that fit the filter. */
  lemma ListedFits(s: State, f: Filter, r: Record)
    requires ValidState(s)
    ensures r in Listing(s, f) <==>
            r.entityId in s.subordinates.at && s.subordinates.at[r.entityId] == r && Fits(s, f, r)
  {
    hide Listing, TrustMarks.Listed, ValidNow;
    ListingIsFilter(s, f);
    if s.marks.Some? {
      MarkedFits(s, f, r);
    } else {
      NoMarksNoneValid(s);
    }
  }

  lemma NoMarksNoneValid(s: State)
    requires s.marks.None?
    ensures forall ty, id, t :: !ValidNow(s, ty, id, t)
  {
  }

  // ------------------------------------------------- the store call, filter by filter

  function Keep(rs: seq<Record>, p: Record -> bool): seq<Record> {
    if rs == [] then [] else if p(rs[0]) then [rs[0]] + Keep(rs[1..], p) else Keep(rs[1..], p)
  }

  function Both(p: Record -> bool, q: Record -> bool): Record -> bool {
    (r: Record) => p(r) && q(r)
  }

  lemma {:induction false} KeepBoth(rs: seq<Record>, p: Record -> bool, q: Record -> bool)
    ensures Keep(Keep(rs, p), q) == Keep(rs, Both(p, q))
  {
    if rs != [] {
      KeepBoth(rs[1..], p, q);
      if p(rs[0]) {
        var kept := Keep(rs[1..], p);
        assert ([rs[0]] + kept)[1..] == kept;
      }
    }
  }

  lemma {:induction false} KeepAll(rs: seq<Record>)
    ensures Keep(rs, r => true) == rs
  {
    if rs != [] {
      KeepAll(rs[1..]);
    }
  }

  lemma {:induction false} SelectIsKeep(rs: seq<Record>, s: State, f: Filter, p: Record -> bool)
    requires forall r :: p(r) <==> Passes(s, f, r)
    ensures Select(rs, s, f) == Keep(rs, p)
  {
    if rs != [] {
      hide Passes;
      SelectIsKeep(rs[1..], s, f, p);
    }
  }

  function HasSomeType(types: seq<Str>): Record -> bool {
    (r: Record) => r.entityTypes.Some? && exists t :: t in r.entityTypes.value && t in types
  }

  function IsIntermediate(wanted: bool): Record -> bool {
    (r: Record) => (r.intermediate.Some? && r.intermediate.value) == wanted
  }

  function IsMarked(marks: seq<Mark>, types: Option<seq<Str>>, t: int): Record -> bool {
    (r: Record) => TrustMarks.Listed(marks, r.entityId, types, t)
  }

  /** The store narrows its records one filter at a time, sorts, and cuts the page. */
  method ListPage(s: State, f: Filter, cursor: Option<Str>, limit: nat) returns (r: Option<Page<Record>>)
    ensures r == ListCall(s, f, cursor, limit)
  {
    hide Keep, Sort, TrustMarks.Listed, PageOf, Select;
    var results := Values(s.subordinates);
    ghost var all, p: Record -> bool := results, r => true;
    KeepAll(all);
    if f.entityTypes != [] {
      KeepBoth(all, p, HasSomeType(f.entityTypes));
      results, p := Keep(results, HasSomeType(f.entityTypes)), Both(p, HasSomeType(f.entityTypes));
    }
    if f.intermediate.Some? {
      KeepBoth(all, p, IsIntermediate(f.intermediate.value));
      results, p := Keep(results, IsIntermediate(f.intermediate.value)), Both(p, IsIntermediate(f.intermediate.value));
    }
    if f.trustMarked || f.markTypes.Some? {
      if s.marks.None? {
        return None;
      }
      var marked := IsMarked(Values(s.marks.value), f.markTypes, f.validAt);
      KeepBoth(all, p, marked);
      results, p := Keep(results, marked), Both(p, marked);
    }
    if f.updatedAfter.Some? {
      var recent := (r: Record) => r.updatedAt >= f.updatedAfter.value;
      KeepBoth(all, p, recent);
      results, p := Keep(results, recent), Both(p, recent);
    }
    if f.updatedBefore.Some? {
      var settled := (r: Record) => r.updatedAt <= f.updatedBefore.value;
      KeepBoth(all, p, settled);
      results, p := Keep(results, settled), Both(p, settled);
    }
    SelectIsKeep(all, s, f, p);
    r := Some(PageOf(Sort(results, IdAtMost), IdOf, cursor, limit));
  }

  // ------------------------------------------------- filling one page

  datatype Filled = Filled(items: seq<Record>, next: Option<Str>, calls: nat)

  /** One request against the listings its store calls see. */
  function Fill(rows: seq<seq<Record>>, cursor: Option<Str>, need: nat, batch: nat, budget: nat): (r: Filled)
    requires budget <= |rows|
    ensures r.calls <= budget && (budget > 0 ==> r.calls > 0)
    decreases budget
  {
    if budget == 0 then Filled([], cursor, 0)
    else
      var page := PageOf(rows[0], IdOf, cursor, batch);
      if page.items == [] then Filled([], None, 1)
      else if |page.items| >= need then
        Filled(page.items[..need], if need < |page.items| then Some(IdOf(page.items[need])) else page.next, 1)
      else if page.next.None? then Filled(page.items, None, 1)
      else
        var rest := Fill(rows[1..], page.next, need - |page.items|, batch, budget - 1);
        Filled(page.items + rest.items, rest.next, 1 + rest.calls)
  }

  /** Keep taking records until the page is full. */
  method PushUntilFull(accumulated: seq<Record>, items: seq<Record>, limit: nat) returns (r: seq<Record>)
    requires |accumulated| < limit
    ensures r == accumulated + if |items| <= limit - |accumulated| then items else items[..limit - |accumulated|]
  {
    r := accumulated;
    for i := 0 to |items|
      invariant r == accumulated + items[..i] && |r| <= limit
    {
      if |r| >= limit {
        return;
      }
      r := r + [items[i]];
    }
    assert items[..|items|] == items;
  }

  /** The first record of a page after the last one taken. */
  method FirstAfter(items: seq<Record>, n: nat) returns (found: Option<Str>)
    requires Ascending(items, IdOf) && 0 < n <= |items|
    ensures found == if n < |items| then Some(IdOf(items[n])) else None
  {
    var lastId := IdOf(items[n - 1]);
    for i := 0 to |items|
      invariant forall j :: 0 <= j < i ==> !Less(lastId, IdOf(items[j]))
    {
      BelowIsEarlier(items, IdOf, i, n - 1);
      if Less(lastId, IdOf(items[i])) {
        assert i == n by {
          if n < |items| {
            assert Less(lastId, IdOf(items[n]));
          }
        }
        return Some(IdOf(items[i]));
      }
    }
    return None;
  }

  ghost function Rows(states: seq<State>, f: Filter): (r: seq<seq<Record>>)
    ensures |r| == |states| && forall i :: 0 <= i < |states| ==> r[i] == Listing(states[i], f)
  {
    seq(|states|, i requires 0 <= i < |states| => Listing(states[i], f))
  }

  ghost function Onto(acc: seq<Record>, calls: nat, rest: Filled): Filled {
    Filled(acc + rest.items, rest.next, calls + rest.calls)
  }

  lemma FillNone(rows: seq<seq<Record>>, cursor: Option<Str>, need: nat, batch: nat)
    ensures Fill(rows, cursor, need, batch, 0) == Filled([], cursor, 0)
  {
  }

  /** What a page does to the records gathered so far. */
  datatype Verdict = Full(next: Option<Str>) | Exhausted | More

  function Taken(gathered: seq<Record>, page: Page<Record>, limit: nat): seq<Record>
    requires |gathered| < limit
  {
    gathered + if |page.items| <= limit - |gathered| then page.items else page.items[..limit - |gathered|]
  }

  function Judge(gathered: seq<Record>, page: Page<Record>, limit: nat): Verdict
    requires |gathered| < limit
  {
    var need := limit - |gathered|;
    if page.items == [] then Exhausted
    else if |page.items| >= need then Full(if need < |page.items| then Some(IdOf(page.items[need])) else page.next)
    else if page.next.None? then Exhausted
    else More
  }

  method TakePage(gathered: seq<Record>, page: Page<Record>, limit: nat) returns (accumulated: seq<Record>, v: Verdict)
    requires |gathered| < limit && Ascending(page.items, IdOf)
    ensures accumulated == Taken(gathered, page, limit) && v == Judge(gathered, page, limit)
  {
    accumulated := gathered;
    if |page.items| == 0 {
      v := Exhausted;
      return;
    }
    accumulated := PushUntilFull(accumulated, page.items, limit);
    if |accumulated| >= limit {
      var foundInPage := FirstAfter(page.items, limit - |gathered|);
      v := Full(if foundInPage.Some? then foundInPage else page.next);
    } else if page.next.None? {
      v := Exhausted;
    } else {
      v := More;
    }
  }

  /** The i-th page decides the answer or leaves the rest to later pages. */
  lemma JudgeFills(rows: seq<seq<Record>>, i: nat, gathered: seq<Record>, cursor: Option<Str>, limit: nat, batch: nat,
                   budget: nat)
    requires |gathered| < limit && 0 < budget <= |rows| - i
    ensures var page := PageOf(rows[i], IdOf, cursor, batch);
            var taken := Taken(gathered, page, limit);
            Onto(gathered, i, Fill(rows[i..], cursor, limit - |gathered|, batch, budget)) ==
            match Judge(gathered, page, limit)
            case Full(next) => Filled(taken, next, i + 1)
            case Exhausted => Filled(taken, None, i + 1)
            case More => Onto(taken, i + 1, Fill(rows[i + 1..], page.next, limit - |taken|, batch, budget - 1))
  {
    hide PageOf;
    var page := PageOf(rows[i], IdOf, cursor, batch);
    assert rows[i..][1..] == rows[i + 1..] && rows[i..][0] == rows[i];
    if Judge(gathered, page, limit).More? {
      var rest := Fill(rows[i + 1..], page.next, limit - |gathered| - |page.items|, batch, budget - 1);
      assert gathered + (page.items + rest.items) == (gathered + page.items) + rest.items;
    } else {
      assert page.items[..|page.items|] == page.items;
    }
  }

  /** None of the first calls throws for want of a mark store. */
  predicate AllAnswer(states: seq<State>, f: Filter, calls: nat)
    requires calls <= |states|
  {
    WantsMarks(f) ==> forall c :: 0 <= c < calls ==> states[c].marks.Some?
  }

  /** The handler's loop: state i is the store as the i-th call finds it. */
  method FillPage(states: seq<State>, f: Filter, from: Option<Str>, limit: nat, batch: nat, maxCalls: nat)
    returns (r: Option<Filled>)
    requires limit > 0 && batch > 0 && 0 < maxCalls <= |states|
    requires forall i :: 0 <= i < |states| ==> ValidState(states[i])
    ensures var whole := Fill(Rows(states, f), from, limit, batch, maxCalls);
            r == if AllAnswer(states, f, whole.calls) then Some(whole) else None
  {
    hide PageOf, Listing, Passes, Fill, Ascending, ValidState, Taken;
    var accumulated: seq<Record> := [];
    var storeCursor, nextEntityId := from, None;
    var pagesFetched := 0;
    var storeExhausted := false;
    ghost var rows := Rows(states, f);
    ghost var whole := Fill(rows, from, limit, batch, maxCalls);
    assert rows[0..] == rows && Onto([], 0, whole) == whole;
    while |accumulated| < limit && pagesFetched < maxCalls
      invariant |accumulated| < limit && pagesFetched <= maxCalls && nextEntityId.None? && !storeExhausted
      invariant whole == Onto(accumulated, pagesFetched,
                              Fill(rows[pagesFetched..], storeCursor, limit - |accumulated|, batch,
                                   maxCalls - pagesFetched))
      invariant AllAnswer(states, f, pagesFetched)
      decreases maxCalls - pagesFetched
    {
      var answer := ListPage(states[pagesFetched], f, storeCursor, batch);
      if answer.None? {
        return None;
      }
      var page := answer.value;
      ListingIsFilter(states[pagesFetched], f);
      PageWithin(rows[pagesFetched], IdOf, storeCursor, batch);
      JudgeFills(rows, pagesFetched, accumulated, storeCursor, limit, batch, maxCalls - pagesFetched);
      var before := accumulated;
      var verdict;
      accumulated, verdict := TakePage(before, page, limit);
      pagesFetched := pagesFetched + 1;
      match verdict {
        case Full(next) =>
          nextEntityId := next;
          assert |accumulated| == limit by {
            TakenSize(before, page, limit);
          }
          break;
        case Exhausted =>
          storeExhausted := true;
          break;
        case More =>
          TakenSize(before, page, limit);
          storeCursor := page.next;
      }
    }
    if |accumulated| < limit && pagesFetched >= maxCalls && !storeExhausted {
      FillNone(rows[pagesFetched..], storeCursor, limit - |accumulated|, batch);
      nextEntityId := storeCursor;
      assert accumulated + [] == accumulated;
    }
    r := Some(Filled(accumulated, nextEntityId, pagesFetched));
  }

  lemma TakenSize(gathered: seq<Record>, page: Page<Record>, limit: nat)
    requires |gathered| < limit
    ensures |Taken(gathered, page, limit)| <= limit
    ensures Judge(gathered, page, limit).Full? <==> page.items != [] && |Taken(gathered, page, limit)| == limit
  {
  }

  // ------------------------------------------------- one request on a changing store

  ghost predicate AllAscending(rows: seq<seq<Record>>) {
    forall i :: 0 <= i < |rows| ==> Ascending(rows[i], IdOf)
  }

  /** All of a reply lies between its cursors, in order. */
  ghost predicate Within(items: seq<Record>, cursor: Option<Str>, next: Option<Str>) {
    && Ascending(items, IdOf)
    && forall i :: 0 <= i < |items| ==> AtOrAfter(cursor, IdOf(items[i])) && Before(IdOf(items[i]), next)
  }

  lemma AtOrAfterTransitive(a: Option<Str>, b: Str, c: Str)
    requires AtOrAfter(a, b) && AtMost(b, c)
    ensures AtOrAfter(a, c)
  {
    if a.Some? {
      AtMostTransitive(a.value, b, c);
    }
  }

  lemma BeforeTransitive(a: Str, b: Str, c: Option<Str>)
    requires Less(a, b) && (c.None? || AtMost(b, c.value))
    ensures Before(a, c)
  {
    if c.Some? {
      LessTotal(b, c.value);
      if b != c.value {
        LessTransitive(a, b, c.value);
      }
    }
  }

  /** Two stretches that meet at a cursor make one stretch. */
  lemma JoinWithin(a: seq<Record>, b: seq<Record>, cursor: Option<Str>, middle: Str, next: Option<Str>)
    requires Within(a, cursor, Some(middle)) && Within(b, Some(middle), next)
    requires AtOrAfter(cursor, middle) && (next.Some? ==> AtMost(middle, next.value))
    ensures Within(a + b, cursor, next)
  {
    hide AtOrAfter, Before;
    var ab := a + b;
    forall i | 0 <= i < |a|
      ensures Less(IdOf(a[i]), middle) && Before(IdOf(a[i]), next)
    {
      BelowMiddle(IdOf(a[i]), middle);
      BeforeTransitive(IdOf(a[i]), middle, next);
    }
    forall j | 0 <= j < |b|
      ensures AtMost(middle, IdOf(b[j])) && AtOrAfter(cursor, IdOf(b[j]))
    {
      FromMiddle(IdOf(b[j]), middle);
      AtOrAfterTransitive(cursor, middle, IdOf(b[j]));
    }
    forall i, j | 0 <= i < |a| && 0 <= j < |b|
      ensures Less(IdOf(a[i]), IdOf(b[j]))
    {
      BeforeTransitive(IdOf(a[i]), middle, Some(IdOf(b[j])));
      BelowMiddle(IdOf(a[i]), IdOf(b[j]));
    }
  }

  lemma BelowMiddle(k: Str, middle: Str)
    ensures Before(k, Some(middle)) <==> Less(k, middle)
  {
  }

  lemma FromMiddle(k: Str, middle: Str)
    ensures AtOrAfter(Some(middle), k) <==> AtMost(middle, k)
  {
  }

  /** One reply: ordered, between its cursors, no longer than asked, and never empty while
      a cursor is handed on. */
  lemma {:induction false} FillWithin(rows: seq<seq<Record>>, cursor: Option<Str>, need: nat, batch: nat, budget: nat)
    requires need > 0 && batch > 0 && budget <= |rows| && AllAscending(rows)
    ensures var r := Fill(rows, cursor, need, batch, budget);
            && Within(r.items, cursor, r.next) && |r.items| <= need
            && (r.next.Some? ==> AtOrAfter(cursor, r.next.value))
            && (budget > 0 && r.next.Some? ==> r.items != [])
    decreases budget
  {
    if budget == 0 {
      if cursor.Some? {
        LessIrreflexive(cursor.value);
      }
    } else {
      hide PageOf, Within, AtOrAfter, Ascending;
      var page := PageOf(rows[0], IdOf, cursor, batch);
      PageWithin(rows[0], IdOf, cursor, batch);
      PageStretch(page, cursor);
      if page.items != [] && |page.items| < need && page.next.Some? {
        var rest := Fill(rows[1..], page.next, need - |page.items|, batch, budget - 1);
        FillWithin(rows[1..], page.next, need - |page.items|, batch, budget - 1);
        LaterCursor(cursor, page.next.value, rest.next);
        JoinWithin(page.items, rest.items, cursor, page.next.value, rest.next);
      } else if |page.items| > need {
        CutStretch(page, cursor, need);
      } else {
        assert page.items[..|page.items|] == page.items;
      }
    }
  }

  /** Every record of a reply was seen by one of its calls. */
  lemma {:induction false} FillFromRows(rows: seq<seq<Record>>, cursor: Option<Str>, need: nat, batch: nat,
                                        budget: nat, i: nat) returns (c: nat)
    requires need > 0 && batch > 0 && budget <= |rows| && AllAscending(rows)
    requires i < |Fill(rows, cursor, need, batch, budget).items|
    ensures c < Fill(rows, cursor, need, batch, budget).calls &&
            Fill(rows, cursor, need, batch, budget).items[i] in rows[c]
    decreases budget
  {
    hide PageOf;
    var page := PageOf(rows[0], IdOf, cursor, batch);
    PageWithin(rows[0], IdOf, cursor, batch);
    if |page.items| < need && page.next.Some? && i >= |page.items| {
      c := FillFromRows(rows[1..], page.next, need - |page.items|, batch, budget - 1, i - |page.items|);
      c := c + 1;
    } else {
      c := 0;
      assert Fill(rows, cursor, need, batch, budget).items[i] == page.items[i];
    }
  }

  /** A reply that hands on a cursor has the records asked for, or all the store calls it may
      make were full batches; and it never makes a call it does not need. */
  lemma {:induction false} FillIsFull(rows: seq<seq<Record>>, cursor: Option<Str>, need: nat, batch: nat, budget: nat)
    requires need > 0 && batch > 0 && budget <= |rows| && AllAscending(rows)
    ensures var r := Fill(rows, cursor, need, batch, budget);
            && (r.next.Some? ==> |r.items| == if need <= budget * batch then need else budget * batch)
            && (r.calls > 0 ==> (r.calls - 1) * batch < need)
    decreases budget
  {
    hide PageOf, Ascending, Fill;
    if budget == 0 {
      FillNone(rows, cursor, need, batch);
    } else {
      var page := PageOf(rows[0], IdOf, cursor, batch);
      PageWithin(rows[0], IdOf, cursor, batch);
      FillOnePage(rows, cursor, need, batch, budget, page);
      OneMore(budget - 1, batch);
      if |page.items| < need && page.next.Some? {
        FillIsFull(rows[1..], page.next, need - batch, batch, budget - 1);
        var rest := Fill(rows[1..], page.next, need - batch, batch, budget - 1);
        if rest.calls > 0 {
          OneMore(rest.calls - 1, batch);
        }
      }
    }
  }

  lemma OneMore(n: nat, batch: nat)
    ensures n * batch >= 0 && (n + 1) * batch == batch + n * batch
  {
  }

  lemma LaterCursor(cursor: Option<Str>, middle: Str, next: Option<Str>)
    requires AtOrAfter(cursor, middle) && (next.Some? ==> AtOrAfter(Some(middle), next.value))
    ensures next.Some? ==> AtMost(middle, next.value) && AtOrAfter(cursor, next.value)
  {
    if next.Some? {
      AtOrAfterTransitive(cursor, middle, next.value);
    }
  }

  lemma PageStretch(page: Page<Record>, cursor: Option<Str>)
    requires Ascending(page.items, IdOf)
    requires forall i :: 0 <= i < |page.items| ==>
             AtOrAfter(cursor, IdOf(page.items[i])) && Before(IdOf(page.items[i]), page.next)
    ensures Within(page.items, cursor, page.next)
  {
  }

  lemma CutStretch(page: Page<Record>, cursor: Option<Str>, need: nat)
    requires Within(page.items, cursor, page.next) && 0 < need < |page.items|
    ensures Within(page.items[..need], cursor, Some(IdOf(page.items[need])))
    ensures AtOrAfter(cursor, IdOf(page.items[need]))
  {
  }

  /** One reply skips no record that all its calls saw between its cursors. */
  lemma {:induction false} FillCovers(rows: seq<seq<Record>>, cursor: Option<Str>, need: nat, batch: nat, budget: nat,
                                      id: Str)
    requires need > 0 && batch > 0 && budget <= |rows| && AllAscending(rows) && (budget > 0 || cursor.Some?)
    requires forall c :: 0 <= c < Fill(rows, cursor, need, batch, budget).calls ==> HasKey(rows[c], IdOf, id)
    requires AtOrAfter(cursor, id) && Before(id, Fill(rows, cursor, need, batch, budget).next)
    ensures HasKey(Fill(rows, cursor, need, batch, budget).items, IdOf, id)
    decreases budget
  {
    hide PageOf, AtOrAfter, HasKey;
    if budget == 0 {
      EmptyStretch(cursor, id);
    } else {
      var page := PageOf(rows[0], IdOf, cursor, batch);
      PageWithin(rows[0], IdOf, cursor, batch);
      if page.items == [] || (|page.items| < need && page.next.None?) {
        PageHas(rows[0], IdOf, cursor, batch, id);
      } else if |page.items| < need {
        var rest := Fill(rows[1..], page.next, need - |page.items|, batch, budget - 1);
        if Less(id, page.next.value) {
          PageHas(rows[0], IdOf, cursor, batch, id);
          HasKeyJoin(page.items, rest.items, IdOf, id);
        } else {
          FromMiddle(id, page.next.value);
          forall c | 0 <= c < rest.calls
            ensures HasKey(rows[1..][c], IdOf, id)
          {
            assert rows[1..][c] == rows[c + 1];
          }
          FillCovers(rows[1..], page.next, need - |page.items|, batch, budget - 1, id);
          HasKeyJoin(page.items, rest.items, IdOf, id);
        }
      } else {
        CutCovers(rows[0], cursor, need, batch, id);
      }
    }
  }

  lemma EmptyStretch(cursor: Option<Str>, id: Str)
    requires AtOrAfter(cursor, id) && Before(id, cursor)
    ensures cursor.None?
  {
  }

  lemma CutCovers(rows: seq<Record>, cursor: Option<Str>, need: nat, batch: nat, id: Str)
    requires need > 0 && batch > 0 && Ascending(rows, IdOf) && HasKey(rows, IdOf, id)
    requires |PageOf(rows, IdOf, cursor, batch).items| >= need && AtOrAfter(cursor, id)
    requires var items := PageOf(rows, IdOf, cursor, batch).items;
             Before(id, if need < |items| then Some(IdOf(items[need])) else PageOf(rows, IdOf, cursor, batch).next)
    ensures HasKey(PageOf(rows, IdOf, cursor, batch).items[..need], IdOf, id)
  {
    hide PageOf, AtOrAfter, HasKey, Ascending;
    var page := PageOf(rows, IdOf, cursor, batch);
    PageWithin(rows, IdOf, cursor, batch);
    if need < |page.items| {
      var cut := IdOf(page.items[need]);
      if page.next.Some? {
        LessAtMost(cut, page.next.value);
      }
      BeforeTransitive(id, cut, page.next);
      PageHas(rows, IdOf, cursor, batch, id);
      KeyBelowCut(page.items, need, id);
    } else {
      PageHas(rows, IdOf, cursor, batch, id);
      assert page.items[..need] == page.items;
    }
  }

  lemma LessAtMost(a: Str, b: Str)
    requires Less(a, b)
    ensures AtMost(a, b)
  {
    LessAsymmetric(a, b);
  }

  lemma KeyBelowCut(items: seq<Record>, need: nat, id: Str)
    requires Ascending(items, IdOf) && need < |items| && HasKey(items, IdOf, id) && Less(id, IdOf(items[need]))
    ensures HasKey(items[..need], IdOf, id)
  {
    var i :| 0 <= i < |items| && IdOf(items[i]) == id;
    BelowIsEarlier(items, IdOf, need, i);
    assert items[..need][i] == items[i];
  }

  // ------------------------------------------------- a whole traversal

  /** The store when the cursor is looked up, and then at each store call of the request. */
  datatype Request = Request(lookup: State, states: seq<State>, filter: Filter, limit: nat)

  datatype Config = Config(batch: nat, maxCalls: nat)

  datatype Reply = PageNotFound | ServerError | Listed(filled: Filled)

  ghost predicate ValidRequest(q: Request, cfg: Config) {
    && q.limit > 0 && cfg.batch > 0 && 0 < cfg.maxCalls <= |q.states|
    && (forall i :: 0 <= i < |q.states| ==> ValidState(q.states[i]))
  }

  ghost predicate ValidRequests(qs: seq<Request>, cfg: Config) {
    forall i :: 0 <= i < |qs| ==> ValidRequest(qs[i], cfg)
  }

  ghost function Answer(q: Request, cfg: Config, cursor: Option<Str>): Reply
    requires ValidRequest(q, cfg)
  {
    if cursor.Some? && cursor.value !in q.lookup.subordinates.at then PageNotFound
    else
      var whole := Fill(Rows(q.states, q.filter), cursor, q.limit, cfg.batch, cfg.maxCalls);
      if AllAnswer(q.states, q.filter, whole.calls) then Listed(whole) else ServerError
  }

  /** The request: a cursor must name a record on file when it is looked up, and a mark filter
      needs a mark store at every call made. */
  method Handle(q: Request, cfg: Config, cursor: Option<Str>) returns (r: Reply)
    requires ValidRequest(q, cfg)
    ensures r == Answer(q, cfg, cursor)
    ensures r.PageNotFound? <==> cursor.Some? && cursor.value !in q.lookup.subordinates.at
    ensures r.ServerError? ==> WantsMarks(q.filter) && exists c :: 0 <= c < cfg.maxCalls && q.states[c].marks.None?
    ensures r.Listed? ==> r.filled.calls <= cfg.maxCalls && AllAnswer(q.states, q.filter, r.filled.calls)
  {
    hide Fill, Listing;
    if cursor.Some? && cursor.value !in q.lookup.subordinates.at {
      return PageNotFound;
    }
    var filled := FillPage(q.states, q.filter, cursor, q.limit, cfg.batch, cfg.maxCalls);
    r := if filled.Some? then Listed(filled.value) else ServerError;
  }

  /** The client follows `next` from the cursor on, and the last of these requests has none. */
  ghost predicate Completed(qs: seq<Request>, cfg: Config, cursor: Option<Str>)
    requires ValidRequests(qs, cfg)
  {
    && qs != [] && Answer(qs[0], cfg, cursor).Listed?
    && var next := Answer(qs[0], cfg, cursor).filled.next;
       if next.None? then |qs| == 1 else Completed(qs[1..], cfg, next)
  }

  ghost function Collected(qs: seq<Request>, cfg: Config, cursor: Option<Str>): seq<Record>
    requires ValidRequests(qs, cfg) && Completed(qs, cfg, cursor)
  {
    var r := Answer(qs[0], cfg, cursor).filled;
    r.items + if r.next.None? then [] else Collected(qs[1..], cfg, r.next)
  }

  /** Every store call of the traversal saw this identifier among the records that pass. */
  ghost predicate AlwaysListed(qs: seq<Request>, cfg: Config, cursor: Option<Str>, id: Str)
    requires ValidRequests(qs, cfg) && Completed(qs, cfg, cursor)
  {
    var r := Answer(qs[0], cfg, cursor).filled;
    && (forall c :: 0 <= c < r.calls ==> HasKey(Listing(qs[0].states[c], qs[0].filter), IdOf, id))
    && (r.next.Some? ==> AlwaysListed(qs[1..], cfg, r.next, id))
  }

  lemma RowsAscending(q: Request, cfg: Config)
    requires ValidRequest(q, cfg)
    ensures AllAscending(Rows(q.states, q.filter))
  {
    hide Listing, Ascending;
    forall i | 0 <= i < |q.states|
      ensures Ascending(Listing(q.states[i], q.filter), IdOf)
    {
      ListingIsFilter(q.states[i], q.filter);
    }
  }

  lemma {:induction false} TraversalWithin(qs: seq<Request>, cfg: Config, cursor: Option<Str>)
    requires ValidRequests(qs, cfg) && Completed(qs, cfg, cursor)
    ensures Within(Collected(qs, cfg, cursor), cursor, None)
    decreases |qs|
  {
    hide Fill, Within, AtOrAfter, Listing;
    var r := Answer(qs[0], cfg, cursor).filled;
    RowsAscending(qs[0], cfg);
    FillWithin(Rows(qs[0].states, qs[0].filter), cursor, qs[0].limit, cfg.batch, cfg.maxCalls);
    if r.next.Some? {
      TraversalWithin(qs[1..], cfg, r.next);
      JoinWithin(r.items, Collected(qs[1..], cfg, r.next), cursor, r.next.value, None);
    } else {
      assert r.items + [] == r.items;
    }
  }

  lemma {:induction false} TraversalCovers(qs: seq<Request>, cfg: Config, cursor: Option<Str>, id: Str)
    requires ValidRequests(qs, cfg) && Completed(qs, cfg, cursor) && AlwaysListed(qs, cfg, cursor, id) &&
             AtOrAfter(cursor, id)
    ensures HasKey(Collected(qs, cfg, cursor), IdOf, id)
    decreases |qs|
  {
    hide Fill, AtOrAfter, HasKey, Listing;
    var rows := Rows(qs[0].states, qs[0].filter);
    var r := Answer(qs[0], cfg, cursor).filled;
    RowsAscending(qs[0], cfg);
    if Before(id, r.next) {
      FillCovers(rows, cursor, qs[0].limit, cfg.batch, cfg.maxCalls, id);
      HasKeyJoin(r.items, if r.next.None? then [] else Collected(qs[1..], cfg, r.next), IdOf, id);
    } else {
      FromMiddle(id, r.next.value);
      TraversalCovers(qs[1..], cfg, r.next, id);
      HasKeyJoin(r.items, Collected(qs[1..], cfg, r.next), IdOf, id);
    }
  }

  /** The record was listed at some call of some request. */
  ghost predicate SomewhereListed(qs: seq<Request>, r: Record) {
    exists q, c :: 0 <= q < |qs| && 0 <= c < |qs[q].states| && r in Listing(qs[q].states[c], qs[q].filter)
  }

  lemma {:induction false} TraversalFromRows(qs: seq<Request>, cfg: Config, cursor: Option<Str>, i: nat)
    requires ValidRequests(qs, cfg) && Completed(qs, cfg, cursor) && i < |Collected(qs, cfg, cursor)|
    ensures SomewhereListed(qs, Collected(qs, cfg, cursor)[i])
    decreases |qs|
  {
    hide Fill, Listing;
    var rows := Rows(qs[0].states, qs[0].filter);
    var r := Answer(qs[0], cfg, cursor).filled;
    RowsAscending(qs[0], cfg);
    if i < |r.items| {
      var c := FillFromRows(rows, cursor, qs[0].limit, cfg.batch, cfg.maxCalls, i);
      assert Collected(qs, cfg, cursor)[i] in Listing(qs[0].states[c], qs[0].filter);
    } else {
      TraversalFromRows(qs[1..], cfg, r.next, i - |r.items|);
      var x := Collected(qs[1..], cfg, r.next)[i - |r.items|];
      var q, c :| 0 <= q < |qs[1..]| && 0 <= c < |qs[1..][q].states| &&
          x in Listing(qs[1..][q].states[c], qs[1..][q].filter);
      assert qs[1..][q] == qs[q + 1];
    }
  }

  /** Whatever happens to the store between calls, a completed traversal returns strictly
      increasing identifiers over all its pages, so none twice, every record that stayed
      listed, and only records that some call listed. */
  lemma TraversalIsOrderedAndComplete(qs: seq<Request>, cfg: Config)
    requires ValidRequests(qs, cfg) && Completed(qs, cfg, None)
    ensures Ascending(Collected(qs, cfg, None), IdOf)
    ensures forall id :: AlwaysListed(qs, cfg, None, id) ==> HasKey(Collected(qs, cfg, None), IdOf, id)
    ensures forall r :: r in Collected(qs, cfg, None) ==> SomewhereListed(qs, r)
  {
    hide Completed, Collected, AlwaysListed, SomewhereListed;
    TraversalWithin(qs, cfg, None);
    forall i | 0 <= i < |Collected(qs, cfg, None)|
      ensures SomewhereListed(qs, Collected(qs, cfg, None)[i])
    {
      TraversalFromRows(qs, cfg, None, i);
    }
    forall id | AlwaysListed(qs, cfg, None, id)
      ensures HasKey(Collected(qs, cfg, None), IdOf, id)
    {
      TraversalCovers(qs, cfg, None, id);
    }
  }

  // ------------------------------------------------- on an unchanging store

  ghost predicate Still(rows: seq<seq<Record>>, l: seq<Record>) {
    forall i :: 0 <= i < |rows| ==> rows[i] == l
  }

  lemma StandsWithin(l: seq<Record>, cursor: Option<Str>, p: nat)
    requires StandsAt(l, IdOf, cursor, p)
    ensures p <= |l| && (cursor.Some? ==> p < |l| && cursor == CursorAt(l, IdOf, p))
  {
  }

  /** The reply r is the stretch of l from p on. */
  predicate Stretch(l: seq<Record>, p: nat, r: Filled) {
    p + |r.items| <= |l| && r.items == l[p..p + |r.items|] && r.next == CursorAt(l, IdOf, p + |r.items|)
  }

  lemma StretchAfter(l: seq<Record>, p: nat, n: nat, rest: Filled, calls: nat)
    requires p + n <= |l| && Stretch(l, p + n, rest)
    ensures Stretch(l, p, Filled(l[p..p + n] + rest.items, rest.next, calls))
  {
    assert l[p..p + n] + l[p + n..p + n + |rest.items|] == l[p..p + n + |rest.items|];
  }

  /** On a still listing a reply is the next stretch of it, and the cursor the record after. */
  lemma {:induction false} FillStill(rows: seq<seq<Record>>, l: seq<Record>, cursor: Option<Str>, p: nat, need: nat,
                                     batch: nat, budget: nat)
    requires need > 0 && batch > 0 && budget <= |rows| && Still(rows, l) && Ascending(l, IdOf) &&
             StandsAt(l, IdOf, cursor, p)
    requires budget > 0 || cursor.Some?
    ensures var r := Fill(rows, cursor, need, batch, budget);
            Stretch(l, p, r) && (budget > 0 && p < |l| ==> r.items != [])
    decreases budget
  {
    hide PageOf, Ascending, Fill, StandsAt, Stretch;
    StandsWithin(l, cursor, p);
    if budget == 0 {
      FillNone(rows, cursor, need, batch);
      NothingStretches(l, cursor, p);
    } else {
      var n := PageAt(l, IdOf, cursor, p, batch);
      var page := PageOf(rows[0], IdOf, cursor, batch);
      FillOnePage(rows, cursor, need, batch, budget, page);
      if n < need && page.next.Some? {
        StandsNext(l, page.next, p + n);
        FillStill(rows[1..], l, page.next, p + n, need - n, batch, budget - 1);
        var rest := Fill(rows[1..], page.next, need - n, batch, budget - 1);
        StretchAfter(l, p, n, rest, 1 + rest.calls);
      } else {
        LastPageStretches(l, p, n, need, Fill(rows, cursor, need, batch, budget));
      }
    }
  }

  lemma NothingStretches(l: seq<Record>, cursor: Option<Str>, p: nat)
    requires p < |l| && cursor == CursorAt(l, IdOf, p)
    ensures Stretch(l, p, Filled([], cursor, 0))
  {
  }

  /** A page that fills the reply or ends the listing makes the reply a stretch. */
  lemma LastPageStretches(l: seq<Record>, p: nat, n: nat, need: nat, r: Filled)
    requires need > 0 && p + n <= |l| && (n >= need || p + n == |l|)
    requires r == if n == 0 then Filled([], None, 1)
                  else if n >= need then
                    Filled(l[p..p + n][..need], if need < n then Some(IdOf(l[p..p + n][need]))
                      else CursorAt(l, IdOf, p + n), 1)
                  else Filled(l[p..p + n], None, 1)
    ensures Stretch(l, p, r) && (p < |l| ==> r.items != [])
  {
    if n >= need {
      CutSlice(l, p, n, need);
    }
  }

  lemma CutSlice(l: seq<Record>, p: nat, n: nat, need: nat)
    requires p + n <= |l| && need <= n
    ensures l[p..p + n][..need] == l[p..p + need]
    ensures need < n ==> l[p..p + n][need] == l[p + need]
  {
  }

  lemma StandsNext(l: seq<Record>, cursor: Option<Str>, p: nat)
    requires cursor.Some? && cursor == CursorAt(l, IdOf, p)
    ensures StandsAt(l, IdOf, cursor, p)
  {
  }

  lemma FillOnePage(rows: seq<seq<Record>>, cursor: Option<Str>, need: nat, batch: nat, budget: nat, page: Page<Record>)
    requires 0 < budget <= |rows| && page == PageOf(rows[0], IdOf, cursor, batch)
    ensures Fill(rows, cursor, need, batch, budget) ==
            if page.items == [] then Filled([], None, 1)
            else if |page.items| >= need then
              Filled(page.items[..need], if need < |page.items| then Some(IdOf(page.items[need])) else page.next, 1)
            else if page.next.None? then Filled(page.items, None, 1)
            else
              var rest := Fill(rows[1..], page.next, need - |page.items|, batch, budget - 1);
              Filled(page.items + rest.items, rest.next, 1 + rest.calls)
  {
  }

  /** Every store the request meets has this listing, and its records can be looked up. */
  ghost predicate Quiet(q: Request, l: seq<Record>) {
    && (forall i :: 0 <= i < |q.states| ==> Listing(q.states[i], q.filter) == l)
    && (WantsMarks(q.filter) ==> forall i :: 0 <= i < |q.states| ==> q.states[i].marks.Some?)
    && (forall i :: 0 <= i < |l| ==> IdOf(l[i]) in q.lookup.subordinates.at)
  }

  ghost predicate QuietRequests(qs: seq<Request>, l: seq<Record>) {
    forall i :: 0 <= i < |qs| ==> Quiet(qs[i], l)
  }

  /** On an unchanging store a request with records left returns at least one, and hands on
      a cursor exactly when records remain after it. */
  lemma QuietAnswer(q: Request, cfg: Config, l: seq<Record>, cursor: Option<Str>, p: nat)
    requires ValidRequest(q, cfg) && Quiet(q, l) && StandsAt(l, IdOf, cursor, p)
    ensures Ascending(l, IdOf) && Answer(q, cfg, cursor).Listed?
    ensures var r := Answer(q, cfg, cursor).filled;
            && p + |r.items| <= |l| && r.items == l[p..p + |r.items|]
            && (p < |l| ==> r.items != [])
            && r.next == CursorAt(l, IdOf, p + |r.items|)
  {
    hide Fill, Listing;
    ListingIsFilter(q.states[0], q.filter);
    StandsWithin(l, cursor, p);
    FillStill(Rows(q.states, q.filter), l, cursor, p, q.limit, cfg.batch, cfg.maxCalls);
  }

  /** A traversal of an unchanging store returns exactly the unpaginated listing. */
  lemma {:induction false} QuietTraversal(qs: seq<Request>, cfg: Config, l: seq<Record>, cursor: Option<Str>, p: nat)
    requires ValidRequests(qs, cfg) && QuietRequests(qs, l) && Completed(qs, cfg, cursor) &&
             StandsAt(l, IdOf, cursor, p)
    ensures p <= |l| && Collected(qs, cfg, cursor) == l[p..]
    decreases |qs|
  {
    hide Answer, Quiet;
    QuietAnswer(qs[0], cfg, l, cursor, p);
    var r := Answer(qs[0], cfg, cursor).filled;
    if r.next.Some? {
      QuietTraversal(qs[1..], cfg, l, r.next, p + |r.items|);
      assert l[p..] == l[p..p + |r.items|] + l[p + |r.items|..];
    } else {
      assert l[p..p + |r.items|] == l[p..];
    }
  }

  /** And following the cursors does come to an end: as many requests as records, or one. */
  lemma {:induction false} QuietCompletes(qs: seq<Request>, cfg: Config, l: seq<Record>, cursor: Option<Str>,
                                          p: nat) returns (m: nat)
    requires ValidRequests(qs, cfg) && QuietRequests(qs, l) && StandsAt(l, IdOf, cursor, p) && p <= |l| &&
             |qs| > |l| - p
    ensures 0 < m <= |qs| && m <= 1 + |l| - p && Completed(qs[..m], cfg, cursor)
    decreases |qs|
  {
    hide Answer, Quiet;
    QuietAnswer(qs[0], cfg, l, cursor, p);
    var r := Answer(qs[0], cfg, cursor).filled;
    if r.next.None? {
      m := 1;
    } else {
      var n := QuietCompletes(qs[1..], cfg, l, r.next, p + |r.items|);
      m := n + 1;
      assert qs[..m][1..] == qs[1..][..n];
    }
  }

  /** The paginated listing refines the plain one, for every batch size, page sizes and cap. */
  lemma PaginationRefinesListing(qs: seq<Request>, cfg: Config, l: seq<Record>) returns (m: nat)
    requires ValidRequests(qs, cfg) && QuietRequests(qs, l) && |qs| > |l|
    ensures 0 < m <= |qs| && Completed(qs[..m], cfg, None) && Collected(qs[..m], cfg, None) == l
  {
    hide Completed, Collected, Quiet;
    m := QuietCompletes(qs, cfg, l, None, 0);
    QuietTraversal(qs[..m], cfg, l, None, 0);
  }
}
