/** Pages of rows in ascending key order behind an inclusive cursor: the store answers the
    first `limit` rows from the cursor on and the key of the next one, if any. */
module Paging {
  import opened Options
  import opened Text

  datatype Page<T> = Page(items: seq<T>, next: Option<Str>)

  ghost predicate Ascending<T>(rows: seq<T>, key: T -> Str) {
    forall i, j :: 0 <= i < j < |rows| ==> Less(key(rows[i]), key(rows[j]))
  }

  predicate AtOrAfter(cursor: Option<Str>, k: Str) {
    cursor.None? || AtMost(cursor.value, k)
  }

  predicate Before(k: Str, next: Option<Str>) {
    next.None? || Less(k, next.value)
  }

  predicate HasKey<T>(rows: seq<T>, key: T -> Str, k: Str) {
    exists i :: 0 <= i < |rows| && key(rows[i]) == k
  }

  function From<T>(rows: seq<T>, key: T -> Str, cursor: Option<Str>): seq<T> {
    if rows == [] then []
    else if AtOrAfter(cursor, key(rows[0])) then [rows[0]] + From(rows[1..], key, cursor)
    else From(rows[1..], key, cursor)
  }

  function PageOf<T>(rows: seq<T>, key: T -> Str, cursor: Option<Str>, limit: nat): Page<T> {
    var rest := From(rows, key, cursor);
    if |rest| > limit then Page(rest[..limit], Some(key(rest[limit]))) else Page(rest, None)
  }

  /** On ascending rows the cursor cuts off a prefix. */
  lemma {:induction false} FromIsSuffix<T>(rows: seq<T>, key: T -> Str, cursor: Option<Str>) returns (p: nat)
    requires Ascending(rows, key)
    ensures p <= |rows| && From(rows, key, cursor) == rows[p..]
    ensures forall i :: 0 <= i < |rows| ==> (AtOrAfter(cursor, key(rows[i])) <==> p <= i)
  {
    if rows == [] {
      p := 0;
    } else {
      var q := FromIsSuffix(rows[1..], key, cursor);
      assert rows == [rows[0]] + rows[1..];
      if AtOrAfter(cursor, key(rows[0])) {
        p := 0;
        forall i | 0 <= i < |rows|
          ensures AtOrAfter(cursor, key(rows[i]))
        {
          if i > 0 && cursor.Some? {
            LessAsymmetric(key(rows[0]), key(rows[i]));
            AtMostTransitive(cursor.value, key(rows[0]), key(rows[i]));
          }
        }
        assert forall i :: 0 <= i < |rows[1..]| ==> rows[1..][i] == rows[i + 1];
        assert q == 0 || |rows| == 1;
        assert [rows[0]] + rows[1..] == rows[0..];
      } else {
        p := q + 1;
        assert rows[1..][q..] == rows[p..];
        forall i | 0 <= i < |rows|
          ensures AtOrAfter(cursor, key(rows[i])) <==> p <= i
        {
          if i > 0 {
            assert rows[i] == rows[1..][i - 1];
          }
        }
      }
    }
  }

  /** Within the rows, cursors name positions. */
  lemma FromKey<T>(rows: seq<T>, key: T -> Str, p: nat)
    requires Ascending(rows, key) && p < |rows|
    ensures From(rows, key, Some(key(rows[p]))) == rows[p..]
  {
    var q := FromIsSuffix(rows, key, Some(key(rows[p])));
    LessIrreflexive(key(rows[p]));
    assert AtOrAfter(Some(key(rows[p])), key(rows[p]));
    if p > 0 {
      assert !AtOrAfter(Some(key(rows[p])), key(rows[p - 1]));
    }
  }

  lemma {:induction false} FromStart<T>(rows: seq<T>, key: T -> Str)
    ensures From(rows, key, None) == rows
  {
    if rows != [] {
      FromStart(rows[1..], key);
      assert rows == [rows[0]] + rows[1..];
    }
  }

  /** Keys below the m-th are those of the rows before it. */
  lemma BelowIsEarlier<T>(rows: seq<T>, key: T -> Str, m: nat, i: nat)
    requires Ascending(rows, key) && m < |rows| && i < |rows|
    ensures Less(key(rows[i]), key(rows[m])) <==> i < m
  {
    LessIrreflexive(key(rows[m]));
    if i > m {
      LessAsymmetric(key(rows[m]), key(rows[i]));
    }
  }

  /** A page is the slice of the rows from the cursor up to the next cursor. */
  lemma PageIsSlice<T>(rows: seq<T>, key: T -> Str, cursor: Option<Str>, limit: nat) returns (p: nat)
    requires Ascending(rows, key) && limit > 0
    ensures var page := PageOf(rows, key, cursor, limit);
            var n := |page.items|;
            && n <= limit && p + n <= |rows| && page.items == rows[p..p + n]
            && page.next == (if p + n < |rows| then Some(key(rows[p + n])) else None)
            && (n < limit ==> p + n == |rows|)
    ensures forall i :: 0 <= i < |rows| ==> (AtOrAfter(cursor, key(rows[i])) <==> p <= i)
  {
    p := FromIsSuffix(rows, key, cursor);
  }

  lemma SliceAscending<T>(rows: seq<T>, key: T -> Str, p: nat, q: nat)
    requires Ascending(rows, key) && p <= q <= |rows|
    ensures Ascending(rows[p..q], key)
  {
  }

  /** Nothing between the cursor and the next cursor is skipped. */
  lemma PageHas<T>(rows: seq<T>, key: T -> Str, cursor: Option<Str>, limit: nat, k: Str)
    requires Ascending(rows, key) && limit > 0 && HasKey(rows, key, k)
    requires AtOrAfter(cursor, k) && Before(k, PageOf(rows, key, cursor, limit).next)
    ensures HasKey(PageOf(rows, key, cursor, limit).items, key, k)
  {
    hide PageOf, Ascending;
    var page := PageOf(rows, key, cursor, limit);
    var p := PageIsSlice(rows, key, cursor, limit);
    var i :| 0 <= i < |rows| && key(rows[i]) == k;
    if p + |page.items| < |rows| {
      BelowIsEarlier(rows, key, p + |page.items|, i);
    }
    assert page.items[i - p] == rows[i];
  }

  /** What a page holds lies between its cursors, in order, and comes from the rows. */
  lemma PageWithin<T>(rows: seq<T>, key: T -> Str, cursor: Option<Str>, limit: nat)
    requires Ascending(rows, key) && limit > 0
    ensures var page := PageOf(rows, key, cursor, limit);
            && Ascending(page.items, key) && |page.items| <= limit
            && (page.next.Some? ==> |page.items| == limit && AtOrAfter(cursor, page.next.value))
            && forall i :: 0 <= i < |page.items| ==>
                 page.items[i] in rows && AtOrAfter(cursor, key(page.items[i])) && Before(key(page.items[i]), page.next)
  {
    hide PageOf, AtOrAfter;
    var page := PageOf(rows, key, cursor, limit);
    var p := PageIsSlice(rows, key, cursor, limit);
    SliceAscending(rows, key, p, p + |page.items|);
    forall i | 0 <= i < |page.items|
      ensures page.items[i] in rows && AtOrAfter(cursor, key(page.items[i])) && Before(key(page.items[i]), page.next)
    {
      assert page.items[i] == rows[p + i];
    }
  }

  lemma HasKeyJoin<T>(a: seq<T>, b: seq<T>, key: T -> Str, k: Str)
    requires HasKey(a, key, k) || HasKey(b, key, k)
    ensures HasKey(a + b, key, k)
  {
    if i :| 0 <= i < |a| && key(a[i]) == k {
      assert (a + b)[i] == a[i];
    } else {
      var i :| 0 <= i < |b| && key(b[i]) == k;
      assert (a + b)[|a| + i] == b[i];
    }
  }

  /** The cursor stands at position p of the rows. */
  predicate StandsAt<T>(rows: seq<T>, key: T -> Str, cursor: Option<Str>, p: nat) {
    (cursor.None? && p == 0) || (p < |rows| && cursor == Some(key(rows[p])))
  }

  function CursorAt<T>(rows: seq<T>, key: T -> Str, p: nat): Option<Str> {
    if p < |rows| then Some(key(rows[p])) else None
  }

  /** A page from position p is the next stretch of the rows and the key after it. */
  lemma PageAt<T>(rows: seq<T>, key: T -> Str, cursor: Option<Str>, p: nat, limit: nat) returns (n: nat)
    requires limit > 0 && Ascending(rows, key) && StandsAt(rows, key, cursor, p)
    ensures p + n <= |rows| && n <= limit && (n < limit ==> p + n == |rows|)
    ensures PageOf(rows, key, cursor, limit) == Page(rows[p..p + n], CursorAt(rows, key, p + n))
  {
    hide From, Ascending;
    if cursor.None? {
      FromStart(rows, key);
    } else {
      FromKey(rows, key, p);
    }
    assert From(rows, key, cursor) == rows[p..];
    n := if |rows| - p > limit then limit else |rows| - p;
    assert rows[p..] == rows[p..|rows|];
  }
}
