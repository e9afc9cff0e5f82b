/** The replay store: a claim is accepted once until its record expires. Records are kept
    under a JSON text of three strings and purged by every call. */
module ReplayStore {
  import opened Text
  import opened JsonText
  import opened OrderedMaps
  import C = Canonical

  datatype Triple = Triple(issuer: Str, audience: Str, jti: Str)

  datatype Claim = Claim(triple: Triple, expiresAt: real)

  /** Refusals are thrown. */
  datatype Outcome = Accepted | Replayed | Invalid | Full

  /** `JSON.stringify` of the three strings in an array. */
  function Key(t: Triple): Str {
    var end := Quoted(t.jti) + [C.RBRACKET];
    [C.LBRACKET] + (Quoted(t.issuer) + ([C.COMMA] + (Quoted(t.audience) + ([C.COMMA] + end))))
  }

  /** Distinct triples never share a key. */
  lemma KeyInjective(a: Triple, b: Triple)
    ensures Key(a) == Key(b) <==> a == b
  {
    hide Quoted;
    if Key(a) == Key(b) {
      var endA, endB := Quoted(a.jti) + [C.RBRACKET], Quoted(b.jti) + [C.RBRACKET];
      var midA, midB := Quoted(a.audience) + ([C.COMMA] + endA), Quoted(b.audience) + ([C.COMMA] + endB);
      DropFirst(C.LBRACKET, Quoted(a.issuer) + ([C.COMMA] + midA), Quoted(b.issuer) + ([C.COMMA] + midB));
      QuotedInjective(a.issuer, [C.COMMA] + midA, b.issuer, [C.COMMA] + midB);
      DropFirst(C.COMMA, midA, midB);
      QuotedInjective(a.audience, [C.COMMA] + endA, b.audience, [C.COMMA] + endB);
      DropFirst(C.COMMA, endA, endB);
      QuotedInjective(a.jti, [C.RBRACKET], b.jti, [C.RBRACKET]);
    }
  }

  lemma DropFirst(c: CodeUnit, a: Str, b: Str)
    requires [c] + a == [c] + b
    ensures a == b
  {
    assert ([c] + a)[1..] == a && ([c] + b)[1..] == b;
  }

  // ------------------------------------------------- one call

  predicate ValidClaim(c: Claim) {
    c.triple.issuer != [] && c.triple.audience != [] && c.triple.jti != []
  }

  function Live(m: map<Str, real>, now: real): map<Str, real> {
    map k | k in m && m[k] > now :: m[k]
  }

  /** What a call answers and the records it leaves. */
  function Use(m: map<Str, real>, c: Claim, now: real, maxEntries: nat): (Outcome, map<Str, real>) {
    if !ValidClaim(c) then (Invalid, m)
    else
      var live := Live(m, now);
      if Key(c.triple) in live then (Replayed, live)
      else if |live| >= maxEntries then (Full, live)
      else (Accepted, live[Key(c.triple) := c.expiresAt])
  }

  class MemoryReplayStore {
    const maxEntries: nat
    var entries: OMap<Str, real>

    constructor (maxEntries: nat)
      requires maxEntries > 0
      ensures this.maxEntries == maxEntries && entries == Empty()
    {
      this.maxEntries := maxEntries;
      entries := Empty();
    }

    method RemoveExpired(now: real)
      modifies this`entries
      ensures entries.at == Live(old(entries).at, now)
    {
      var visited := entries;
      for i := 0 to |visited.order|
        invariant forall k :: k in entries.at <==> k in visited.at && !(k in visited.order[..i] && visited.at[k] <= now)
        invariant forall k :: k in entries.at ==> entries.at[k] == visited.at[k]
      {
        var key := visited.order[i];
        assert key in visited.at;
        assert forall k :: k in visited.order[..i + 1] <==> k in visited.order[..i] || k == key;
        if visited.at[key] <= now {
          hide Remove;
          entries := Remove(entries, key);
        }
      }
      assert visited.order[..|visited.order|] == visited.order;
    }

    method UseJti(claim: Claim, now: real) returns (r: Outcome)
      requires |entries.at| <= maxEntries
      modifies this`entries
      ensures |entries.at| <= maxEntries
      ensures (r, entries.at) == Use(old(entries).at, claim, now, maxEntries)
    {
      if claim.triple.issuer == [] || claim.triple.audience == [] || claim.triple.jti == [] {
        return Invalid;
      }
      hide Key;
      LiveSmaller(entries.at, now);
      RemoveExpired(now);
      var key := Key(claim.triple);
      if key in entries.at {
        return Replayed;
      }
      Size(entries);
      if |entries.order| >= maxEntries {
        return Full;
      }
      PutSize(entries.at, key, claim.expiresAt);
      entries := Put(entries, key, claim.expiresAt);
      return Accepted;
    }
  }

  lemma LiveSmaller(m: map<Str, real>, now: real)
    ensures |Live(m, now)| <= |m|
  {
    SubsetSize(Live(m, now).Keys, m.Keys);
    assert |m| == |m.Keys| && |Live(m, now)| == |Live(m, now).Keys|;
  }

  lemma PutSize(m: map<Str, real>, k: Str, e: real)
    requires k !in m
    ensures |m[k := e]| == |m| + 1
  {
    assert m[k := e].Keys == m.Keys + {k};
  }

  // ------------------------------------------------- the history

  datatype Call = Call(claim: Claim, now: real)

  ghost predicate Timely(cs: seq<Call>) {
    forall i, j :: 0 <= i < j < |cs| ==> cs[i].now <= cs[j].now
  }

  function Play(cs: seq<Call>, maxEntries: nat): map<Str, real> {
    if cs == [] then map[]
    else Use(Play(cs[..|cs| - 1], maxEntries), cs[|cs| - 1].claim, cs[|cs| - 1].now, maxEntries).1
  }

  function Answer(cs: seq<Call>, i: nat, maxEntries: nat): Outcome
    requires i < |cs|
  {
    Use(Play(cs[..i], maxEntries), cs[i].claim, cs[i].now, maxEntries).0
  }

  /** The reference: remember for every triple the expiry it was last accepted with, drop
      nothing, and count as live what has not expired. */
  function LiveTriples(records: map<Triple, real>, now: real): set<Triple> {
    set t | t in records && records[t] > now
  }

  function Judge(records: map<Triple, real>, c: Claim, now: real, maxEntries: nat): Outcome {
    if !ValidClaim(c) then Invalid
    else if c.triple in LiveTriples(records, now) then Replayed
    else if |LiveTriples(records, now)| >= maxEntries then Full
    else Accepted
  }

  function Records(cs: seq<Call>, maxEntries: nat): map<Triple, real> {
    if cs == [] then map[]
    else
      var before, c := Records(cs[..|cs| - 1], maxEntries), cs[|cs| - 1];
      if Judge(before, c.claim, c.now, maxEntries).Accepted? then before[c.claim.triple := c.claim.expiresAt]
        else before
  }

  /** Nothing is stored that was not accepted, and nothing live is missing. */
  ghost predicate Agrees(m: map<Str, real>, records: map<Triple, real>, now: real) {
    && (forall k :: k in m ==> exists t :: t in records && Key(t) == k && records[t] == m[k])
    && (forall t :: t in records && records[t] > now ==> Key(t) in m && m[Key(t)] == records[t])
  }

  lemma AgreesLater(m: map<Str, real>, records: map<Triple, real>, now: real, later: real)
    requires Agrees(m, records, now) && now <= later
    ensures Agrees(m, records, later) && Agrees(Live(m, later), records, later)
    ensures forall k :: k in Live(m, later) <==> exists t :: t in LiveTriples(records, later) && Key(t) == k
  {
    hide Key;
    forall k | k in Live(m, later)
      ensures exists t :: t in LiveTriples(records, later) && Key(t) == k
    {
      var t :| t in records && Key(t) == k && records[t] == m[k];
      assert t in LiveTriples(records, later);
    }
  }

  lemma {:induction false} KeysCount(ts: set<Triple>, ks: set<Str>)
    requires forall k :: k in ks <==> exists t :: t in ts && Key(t) == k
    ensures |ks| == |ts|
    decreases |ts|
  {
    hide Key;
    if ts == {} {
      assert ks == {};
    } else {
      var t :| t in ts;
      assert Key(t) in ks;
      forall k
        ensures k in ks - {Key(t)} <==> exists u :: u in ts - {t} && Key(u) == k
      {
        if k in ks - {Key(t)} {
          var u :| u in ts && Key(u) == k;
          assert u in ts - {t};
        }
        if u :| u in ts - {t} && Key(u) == k {
          KeyInjective(u, t);
        }
      }
      KeysCount(ts - {t}, ks - {Key(t)});
    }
  }

  lemma UseAgrees(m: map<Str, real>, records: map<Triple, real>, before: real, c: Claim, now: real, maxEntries: nat)
    requires Agrees(m, records, before) && before <= now
    ensures Use(m, c, now, maxEntries).0 == Judge(records, c, now, maxEntries)
    ensures var accepted := Judge(records, c, now, maxEntries).Accepted?;
            var records' := if accepted then records[c.triple := c.expiresAt] else records;
            Agrees(Use(m, c, now, maxEntries).1, records', now)
  {
    hide Key, Agrees, LiveTriples, Live;
    AgreesLater(m, records, before, now);
    if ValidClaim(c) {
      var live := Live(m, now);
      assert c.triple in LiveTriples(records, now) ==> Key(c.triple) in live;
      if Key(c.triple) in live {
        var t :| t in LiveTriples(records, now) && Key(t) == Key(c.triple);
        KeyInjective(t, c.triple);
      }
      KeysCount(LiveTriples(records, now), live.Keys);
      assert |live.Keys| == |live|;
      if Key(c.triple) !in live && |live| < maxEntries {
        AgreesPut(live, records, now, c.triple, c.expiresAt);
      }
    }
  }

  lemma AgreesPut(m: map<Str, real>, records: map<Triple, real>, now: real, t: Triple, e: real)
    requires Agrees(m, records, now) && Key(t) !in m
    ensures Agrees(m[Key(t) := e], records[t := e], now)
  {
    hide Key;
    var m', records' := m[Key(t) := e], records[t := e];
    forall k | k in m'
      ensures exists u :: u in records' && Key(u) == k && records'[u] == m'[k]
    {
      if k == Key(t) {
        assert t in records';
      } else {
        var u :| u in records && Key(u) == k && records[u] == m[k];
        assert u != t;
        assert u in records' && records'[u] == m'[k];
      }
    }
    forall u | u in records' && records'[u] > now
      ensures Key(u) in m' && m'[Key(u)] == records'[u]
    {
      KeyInjective(u, t);
    }
  }

  lemma {:induction false} StoreAgrees(cs: seq<Call>, maxEntries: nat, now: real)
    requires Timely(cs) && (cs != [] ==> cs[|cs| - 1].now <= now)
    ensures Agrees(Play(cs, maxEntries), Records(cs, maxEntries), now)
  {
    if cs != [] {
      hide Use, Judge, Agrees;
      var n := |cs| - 1;
      StoreAgrees(cs[..n], maxEntries, cs[n].now);
      UseAgrees(Play(cs[..n], maxEntries), Records(cs[..n], maxEntries), cs[n].now, cs[n].claim, cs[n].now, maxEntries);
      AgreesLater(Play(cs, maxEntries), Records(cs, maxEntries), cs[n].now, now);
    }
  }

  /** With a clock that does not go back, every call answers as the reference does: the purge
      drops no live record, and the size the cap looks at is the number of live triples. */
  lemma AnswersAgree(cs: seq<Call>, i: nat, maxEntries: nat)
    requires Timely(cs) && i < |cs|
    ensures Answer(cs, i, maxEntries) == Judge(Records(cs[..i], maxEntries), cs[i].claim, cs[i].now, maxEntries)
  {
    hide Use, Judge, Agrees;
    StoreAgrees(cs[..i], maxEntries, cs[i].now);
    UseAgrees(Play(cs[..i], maxEntries), Records(cs[..i], maxEntries), cs[i].now, cs[i].claim, cs[i].now, maxEntries);
  }

  /** What was accepted stays on record until it expires. */
  lemma {:induction false} AcceptedIsRecorded(cs: seq<Call>, i: nat, j: nat, maxEntries: nat)
    requires Timely(cs) && i < j <= |cs| && Answer(cs, i, maxEntries).Accepted?
    requires forall k :: i < k < j ==> cs[k].now < cs[i].claim.expiresAt
    ensures var records, t := Records(cs[..j], maxEntries), cs[i].claim.triple;
            t in records && records[t] == cs[i].claim.expiresAt
    decreases j
  {
    hide Judge, Answer;
    assert cs[..j][..j - 1] == cs[..j - 1] && cs[..j][j - 1] == cs[j - 1];
    AnswersAgree(cs, j - 1, maxEntries);
    if i < j - 1 {
      AcceptedIsRecorded(cs, i, j - 1, maxEntries);
      LiveIsReplayed(Records(cs[..j - 1], maxEntries), cs[j - 1].claim, cs[j - 1].now, maxEntries, cs[i].claim.triple);
    }
  }

  lemma LiveIsReplayed(records: map<Triple, real>, c: Claim, now: real, maxEntries: nat, t: Triple)
    requires t in records && now < records[t]
    ensures c.triple == t ==> !Judge(records, c, now, maxEntries).Accepted?
    ensures c.triple == t && ValidClaim(c) ==> Judge(records, c, now, maxEntries).Replayed?
  {
  }

  lemma AcceptedIsValid(cs: seq<Call>, i: nat, maxEntries: nat)
    requires i < |cs| && Answer(cs, i, maxEntries).Accepted?
    ensures ValidClaim(cs[i].claim)
  {
  }

  /** A triple accepted with expiry e is answered as a replay, and never accepted, before e. */
  lemma NoSecondAcceptance(cs: seq<Call>, i: nat, j: nat, maxEntries: nat)
    requires Timely(cs) && i < j < |cs| && Answer(cs, i, maxEntries).Accepted?
    requires cs[j].claim.triple == cs[i].claim.triple && cs[j].now < cs[i].claim.expiresAt
    ensures Answer(cs, j, maxEntries).Replayed?
  {
    hide Judge, Answer, Records;
    forall k | i < k < j
      ensures cs[k].now < cs[i].claim.expiresAt
    {
      assert cs[k].now <= cs[j].now;
    }
    AcceptedIsRecorded(cs, i, j, maxEntries);
    AcceptedIsValid(cs, i, maxEntries);
    AnswersAgree(cs, j, maxEntries);
    LiveIsReplayed(Records(cs[..j], maxEntries), cs[j].claim, cs[j].now, maxEntries, cs[i].claim.triple);
  }

  /** What is on record was accepted by some call. */
  lemma {:induction false} RecordedWasAccepted(cs: seq<Call>, j: nat, maxEntries: nat, t: Triple) returns (i: nat)
    requires Timely(cs) && j <= |cs| && t in Records(cs[..j], maxEntries)
    ensures i < j && Answer(cs, i, maxEntries).Accepted? && cs[i].claim.triple == t &&
            cs[i].claim.expiresAt == Records(cs[..j], maxEntries)[t]
    decreases j
  {
    hide Judge, Answer;
    assert cs[..j][..j - 1] == cs[..j - 1] && cs[..j][j - 1] == cs[j - 1];
    AnswersAgree(cs, j - 1, maxEntries);
    if Answer(cs, j - 1, maxEntries).Accepted? && cs[j - 1].claim.triple == t {
      i := j - 1;
    } else {
      i := RecordedWasAccepted(cs, j - 1, maxEntries, t);
    }
  }

  /** Call i accepted the triple, and at the time of call j that has not expired. */
  ghost predicate Guards(cs: seq<Call>, i: nat, j: nat, maxEntries: nat, t: Triple)
    requires j < |cs|
  {
    i < j && Answer(cs, i, maxEntries).Accepted? && cs[i].claim.triple == t && cs[j].now < cs[i].claim.expiresAt
  }

  /** The triples that earlier acceptances guard at call j. */
  ghost function Guarded(cs: seq<Call>, j: nat, maxEntries: nat): set<Triple>
    requires j < |cs|
  {
    set i | 0 <= i < j && Guards(cs, i, j, maxEntries, cs[i].claim.triple) :: cs[i].claim.triple
  }

  lemma LiveIsGuarded(cs: seq<Call>, j: nat, maxEntries: nat, t: Triple)
    requires Timely(cs) && j < |cs|
    ensures t in LiveTriples(Records(cs[..j], maxEntries), cs[j].now) <==> t in Guarded(cs, j, maxEntries)
  {
    hide Records, Answer;
    if t in LiveTriples(Records(cs[..j], maxEntries), cs[j].now) {
      var i := RecordedWasAccepted(cs, j, maxEntries, t);
      assert Guards(cs, i, j, maxEntries, t);
    }
    if t in Guarded(cs, j, maxEntries) {
      var i :| 0 <= i < j && Guards(cs, i, j, maxEntries, t) && cs[i].claim.triple == t;
      forall k | i < k < j
        ensures cs[k].now < cs[i].claim.expiresAt
      {
        assert cs[k].now <= cs[j].now;
      }
      AcceptedIsRecorded(cs, i, j, maxEntries);
    }
  }

  /** Every answer told by the earlier answers alone: a replay exactly when the triple was
      accepted before with an expiry still ahead, full exactly when as many other triples are
      guarded as there are places, and accepted otherwise. */
  lemma AnswerIsTold(cs: seq<Call>, j: nat, maxEntries: nat)
    requires Timely(cs) && j < |cs|
    ensures var c, guarded := cs[j].claim, Guarded(cs, j, maxEntries);
            Answer(cs, j, maxEntries) ==
            if c.triple.issuer == [] || c.triple.audience == [] || c.triple.jti == [] then Invalid
            else if c.triple in guarded then Replayed
            else if |guarded| >= maxEntries then Full
            else Accepted
  {
    hide Records, Answer, LiveTriples, Guarded;
    AnswersAgree(cs, j, maxEntries);
    forall t
      ensures t in LiveTriples(Records(cs[..j], maxEntries), cs[j].now) <==> t in Guarded(cs, j, maxEntries)
    {
      LiveIsGuarded(cs, j, maxEntries, t);
    }
    assert LiveTriples(Records(cs[..j], maxEntries), cs[j].now) == Guarded(cs, j, maxEntries);
  }

  /** The store never holds more than its cap. */
  lemma {:induction false} WithinCap(cs: seq<Call>, maxEntries: nat)
    ensures |Play(cs, maxEntries)| <= maxEntries
  {
    if cs != [] {
      hide Key, Live;
      var n := |cs| - 1;
      var m := Play(cs[..n], maxEntries);
      WithinCap(cs[..n], maxEntries);
      LiveSmaller(m, cs[n].now);
      var live, k := Live(m, cs[n].now), Key(cs[n].claim.triple);
      if k !in live {
        PutSize(live, k, cs[n].claim.expiresAt);
      }
    }
  }
}
