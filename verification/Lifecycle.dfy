/** The record table and the event history stay in step over every run, and an update
    is logged exactly for what changed in meaning. */
module Lifecycle {
  import opened Options
  import opened Text
  import opened OrderedMaps
  import opened Canonical
  import opened PublicKeys
  import opened Store
  import opened AuthorityCalls
  import TrustMarks
  import A = Adapter

  /** A finished call: what was asked and the clock readings it took. */
  datatype Call = Call(op: Operation, seen: seq<int>)

  function Play(ctx: Context, s0: State, calls: seq<Call>): State {
    if calls == [] then s0
    else
      var last := calls[|calls| - 1];
      Effect(ctx, last.op, Play(ctx, s0, calls[..|calls| - 1]), last.seen)
  }

  predicate Tracked(op: Operation) {
    op.Register? || op.Update? || op.RevokeSubordinate?
  }

  /** What a call added to a subject's history. */
  ghost function Added(ctx: Context, s: State, c: Call, subject: Str): seq<HistoryEvent> {
    var before, after := History(s, ctx.issuer, subject), History(Effect(ctx, c.op, s, c.seen), ctx.issuer, subject);
    if |before| <= |after| then after[|before|..] else []
  }

  /** A subject's history without the events recorded from outside. */
  ghost function Kept(ctx: Context, s0: State, calls: seq<Call>, subject: Str): seq<HistoryEvent> {
    if calls == [] then []
    else
      var n := |calls| - 1;
      Kept(ctx, s0, calls[..n], subject)
      + (if Tracked(calls[n].op) then Added(ctx, Play(ctx, s0, calls[..n]), calls[n], subject) else [])
  }

  predicate IsUpdate(name: Str) {
    name == METADATA_UPDATE || name == METADATA_POLICY_UPDATE || name == JWKS_UPDATE
  }

  ghost predicate Follows(h: seq<HistoryEvent>, i: nat)
    requires i < |h|
  {
    && (h[i].name == REGISTRATION || h[i].name == REVOCATION || IsUpdate(h[i].name))
    && (h[i].name == REGISTRATION <==> i == 0 || h[i - 1].name == REVOCATION)
  }

  /** The shape (Registration Update* Revocation)* (Registration Update*)?, said locally:
      registrations stand at the start and right after revocations, and only there. */
  ghost predicate Cycles(h: seq<HistoryEvent>) {
    forall i :: 0 <= i < |h| ==> Follows(h, i)
  }

  predicate Open(h: seq<HistoryEvent>) {
    h != [] && h[|h| - 1].name != REVOCATION
  }

  function LatestRegistration(h: seq<HistoryEvent>): Option<int> {
    if h == [] then None
    else if h[|h| - 1].name == REGISTRATION then Some(h[|h| - 1].iat)
    else LatestRegistration(h[..|h| - 1])
  }

  /** Table and history agree about one subject. */
  ghost predicate InStep(s: State, h: seq<HistoryEvent>, subject: Str) {
    && Cycles(h)
    && (subject in s.subordinates.at <==> Open(h))
    && (subject in s.subordinates.at ==> LatestRegistration(h) == Some(s.subordinates.at[subject].createdAt))
  }

  lemma CyclesExtend(h: seq<HistoryEvent>, e: HistoryEvent)
    requires Cycles(h) && (e.name == REGISTRATION || e.name == REVOCATION || IsUpdate(e.name))
    requires e.name == REGISTRATION <==> !Open(h)
    ensures Cycles(h + [e]) && (Open(h + [e]) <==> e.name != REVOCATION)
    ensures LatestRegistration(h + [e]) == if e.name == REGISTRATION then Some(e.iat) else LatestRegistration(h)
  {
    hide IsUpdate;
    var longer := h + [e];
    assert longer[..|h|] == h && longer[|h|] == e;
    forall i | 0 <= i < |h|
      ensures Follows(longer, i)
    {
      assert Follows(h, i) && longer[i] == h[i] && (i > 0 ==> longer[i - 1] == h[i - 1]);
    }
    assert Follows(longer, |h|);
  }

  lemma {:induction false} CyclesUpdate(h: seq<HistoryEvent>, es: seq<HistoryEvent>)
    requires Cycles(h) && Open(h) && forall i :: 0 <= i < |es| ==> IsUpdate(es[i].name)
    ensures Cycles(h + es) && Open(h + es) && LatestRegistration(h + es) == LatestRegistration(h)
  {
    if es == [] {
      assert h + es == h;
    } else {
      var n := |es| - 1;
      CyclesUpdate(h, es[..n]);
      CyclesExtend(h + es[..n], es[n]);
      assert h + es == (h + es[..n]) + [es[n]];
    }
  }

  /** Every effect keeps what history there was and keeps logging on. */
  lemma HistoryGrows(ctx: Context, s: State, c: Call, subject: Str)
    requires s.events.Some?
    ensures Effect(ctx, c.op, s, c.seen).events.Some?
    ensures History(Effect(ctx, c.op, s, c.seen), ctx.issuer, subject) ==
            History(s, ctx.issuer, subject) + Added(ctx, s, c, subject)
  {
    hide UpdateNames, IssueMark, RevokeMarks, Patched, AddRecord, UpdateRecord, RemoveRecord;
    StorageLeavesEvents(s);
  }

  /** The table and the marks are changed without touching the history. */
  lemma StorageLeavesEvents(s: State)
    ensures forall r, valid :: AddRecord(s, r, valid).Some? ==> AddRecord(s, r, valid).value.events == s.events
    ensures forall id, p, now, valid :: UpdateRecord(s, id, p, now, valid).Some? ==>
            UpdateRecord(s, id, p, now, valid).value.events == s.events
    ensures forall id :: RemoveRecord(s, id).Some? ==> RemoveRecord(s, id).value.events == s.events
    ensures forall m :: IssueMark(s, m).Some? ==> IssueMark(s, m).value.events == s.events
    ensures forall ty, id, at :: RevokeMarks(s, ty, id, at).Some? ==>
            RevokeMarks(s, ty, id, at).value.events == s.events
  {
  }

  /** Logging under one subject is seen only there. */
  lemma LoggedHistory(ctx: Context, s: State, subject: Str, es: seq<HistoryEvent>, other: Str)
    requires s.events.Some?
    ensures History(Logged(ctx, s, subject, es), ctx.issuer, other) ==
            History(s, ctx.issuer, other) + if subject == other then es else []
    ensures Logged(ctx, s, subject, es).subordinates == s.subordinates
  {
  }

  lemma AddedIs(ctx: Context, s: State, c: Call, subject: Str, es: seq<HistoryEvent>)
    requires History(Effect(ctx, c.op, s, c.seen), ctx.issuer, subject) == History(s, ctx.issuer, subject) + es
    ensures Added(ctx, s, c, subject) == es
  {
    hide Effect;
  }

  lemma RegisterInStep(ctx: Context, s: State, c: Call, h: seq<HistoryEvent>, subject: Str)
    requires c.op.Register? && s.events.Some? && InStep(s, h, subject)
    ensures InStep(Effect(ctx, c.op, s, c.seen), h + Added(ctx, s, c, subject), subject)
  {
    hide Cycles, Open, LatestRegistration, Logged;
    var r := c.op.record;
    if |c.seen| >= 2 && Registered(ctx, s, r, c.seen[0]).Some? {
      var iat := c.seen[0];
      var e := Event(iat, REGISTRATION);
      var s' := AddRecord(s, CleanRecord(ctx, r).(createdAt := iat, updatedAt := iat), ctx.valid).value;
      LoggedHistory(ctx, s', r.entityId, [e], subject);
      if subject == r.entityId {
        AddedIs(ctx, s, c, subject, [e]);
        CyclesExtend(h, e);
      } else {
        AddedIs(ctx, s, c, subject, []);
        assert h + [] == h;
      }
    } else {
      AddedIs(ctx, s, c, subject, []);
      assert h + [] == h;
    }
  }

  lemma RevokeInStep(ctx: Context, s: State, c: Call, h: seq<HistoryEvent>, subject: Str)
    requires c.op.RevokeSubordinate? && s.events.Some? && InStep(s, h, subject)
    ensures InStep(Effect(ctx, c.op, s, c.seen), h + Added(ctx, s, c, subject), subject)
  {
    hide Cycles, Open, LatestRegistration, Logged;
    var gone := c.op.subject;
    if |c.seen| >= 2 && Withdrawn(ctx, s, gone, c.seen[1]).Some? {
      var e := Event(c.seen[1], REVOCATION);
      LoggedHistory(ctx, RemoveRecord(s, gone).value, gone, [e], subject);
      if subject == gone {
        AddedIs(ctx, s, c, subject, [e]);
        CyclesExtend(h, e);
      } else {
        AddedIs(ctx, s, c, subject, []);
        assert h + [] == h;
      }
    } else {
      AddedIs(ctx, s, c, subject, []);
      assert h + [] == h;
    }
  }

  lemma UpdateNamesAreUpdates(ctx: Context, before: Record, now: Record)
    ensures forall i :: 0 <= i < |UpdateNames(ctx, before, now)| ==> IsUpdate(UpdateNames(ctx, before, now)[i])
  {
    hide Canon, PublicKeysText;
  }

  lemma UpdateInStep(ctx: Context, s: State, c: Call, h: seq<HistoryEvent>, subject: Str)
    requires c.op.Update? && s.events.Some? && InStep(s, h, subject)
    ensures InStep(Effect(ctx, c.op, s, c.seen), h + Added(ctx, s, c, subject), subject)
  {
    hide Cycles, Open, LatestRegistration, Logged, UpdateNames;
    var id := c.op.subject;
    if |c.seen| >= 3 && Updated(ctx, s, id, c.op.patch, c.seen[1], c.seen[2]).Some? {
      var s' := UpdateRecord(s, id, CleanPatch(ctx, c.op.patch), c.seen[1], ctx.valid).value;
      var names := UpdateNames(ctx, s.subordinates.at[id], s'.subordinates.at[id]);
      UpdateNamesAreUpdates(ctx, s.subordinates.at[id], s'.subordinates.at[id]);
      var es := if names == [] || id != subject then [] else Events(c.seen[2], names);
      LoggedHistory(ctx, s', id, Events(c.seen[2], names), subject);
      AddedIs(ctx, s, c, subject, es);
      if id == subject {
        CyclesUpdate(h, es);
      } else {
        assert h + [] == h;
      }
    } else {
      AddedIs(ctx, s, c, subject, []);
      assert h + [] == h;
    }
  }

  /** The remaining calls leave the table alone. */
  lemma OthersLeaveTable(ctx: Context, s: State, c: Call)
    requires !Tracked(c.op)
    ensures Effect(ctx, c.op, s, c.seen).subordinates == s.subordinates
  {
  }

  lemma CallInStep(ctx: Context, s: State, c: Call, h: seq<HistoryEvent>, subject: Str)
    requires s.events.Some? && InStep(s, h, subject)
    ensures InStep(Effect(ctx, c.op, s, c.seen), h + (if Tracked(c.op) then Added(ctx, s, c, subject) else []), subject)
  {
    hide Effect, Added, InStep;
    match c.op
    case Register(_) => RegisterInStep(ctx, s, c, h, subject);
    case Update(_, _) => UpdateInStep(ctx, s, c, h, subject);
    case RevokeSubordinate(_) => RevokeInStep(ctx, s, c, h, subject);
    case _ =>
      OthersLeaveTable(ctx, s, c);
      assert h + [] == h;
      SameTableInStep(s, Effect(ctx, c.op, s, c.seen), h, subject);
  }

  lemma SameTableInStep(s: State, s': State, h: seq<HistoryEvent>, subject: Str)
    requires InStep(s, h, subject) && s'.subordinates == s.subordinates
    ensures InStep(s', h, subject)
  {
  }

  /** A store just created with an event log. */
  predicate Fresh(s0: State) {
    s0.subordinates == Empty() && s0.events == Some(map[])
  }

  /** Over every run from a fresh store, each subject's kept history has the cycle shape,
      its record exists exactly while the last cycle is open, and that record's creation
      time is the time of its latest registration. */
  lemma {:induction false} HistoryInStep(ctx: Context, s0: State, calls: seq<Call>, subject: Str)
    requires Fresh(s0)
    ensures Play(ctx, s0, calls).events.Some?
    ensures InStep(Play(ctx, s0, calls), Kept(ctx, s0, calls, subject), subject)
  {
    if calls != [] {
      hide InStep, Effect, Added;
      var n := |calls| - 1;
      HistoryInStep(ctx, s0, calls[..n], subject);
      HistoryGrows(ctx, Play(ctx, s0, calls[..n]), calls[n], subject);
      CallInStep(ctx, Play(ctx, s0, calls[..n]), calls[n], Kept(ctx, s0, calls[..n], subject), subject);
    }
  }

  // ------------------------------------------------- through the queue

  ghost predicate Asked(ctx: Context, ts: seq<A.Ticket<State, Local, Reply>>, ops: seq<Operation>) {
    |ops| == |ts| && forall i :: 0 <= i < |ts| ==> ts[i].call == CallOf(ctx, ops[i])
  }

  ghost function CallsOf(ts: seq<A.Ticket<State, Local, Reply>>, ops: seq<Operation>): (r: seq<Call>)
    requires |ops| == |ts|
    ensures |r| == |ts| && forall i :: 0 <= i < |ts| ==> r[i] == Call(ops[i], A.Seen(ts[i]))
  {
    seq(|ts|, i requires 0 <= i < |ts| => Call(ops[i], A.Seen(ts[i])))
  }

  lemma {:induction false} SerialIsPlay(ctx: Context, s0: State, ts: seq<A.Ticket<State, Local, Reply>>,
                                        ops: seq<Operation>)
    requires Asked(ctx, ts, ops)
    ensures A.Serial(s0, ts) == Play(ctx, s0, CallsOf(ts, ops))
  {
    if ts != [] {
      hide A.Atomic, Effect;
      var n := |ts| - 1;
      SerialIsPlay(ctx, s0, ts[..n], ops[..n]);
      assert CallsOf(ts, ops)[..n] == CallsOf(ts[..n], ops[..n]);
      TurnsMakeEffect(ctx, ops[n], A.Serial(s0, ts[..n]), A.Seen(ts[n]));
    }
  }

  /** Whatever the interleaving of clients, every state anyone can read has table and
      history in step, for every subject. */
  lemma EveryReadInStep(ctx: Context, s0: State, trace: seq<A.System<State, Local, Reply>>,
                        es: seq<A.Event<State, Local, Reply>>, ops: seq<Operation>, k: nat, subject: Str)
    returns (calls: seq<Call>)
    requires Fresh(s0) && A.Run(s0, trace, es) && Asked(ctx, trace[|es|].tickets, ops) && k < |trace|
    ensures |calls| <= |ops| && forall i :: 0 <= i < |calls| ==> calls[i].op == ops[i]
    ensures trace[k].state == Play(ctx, s0, calls)
    ensures InStep(trace[k].state, Kept(ctx, s0, calls, subject), subject)
  {
    hide A.Serial, Play, InStep, Kept;
    var at := A.Serializable(s0, trace, es);
    var ts := trace[|es|].tickets[..at[k]];
    calls := CallsOf(ts, ops[..at[k]]);
    SerialIsPlay(ctx, s0, ts, ops[..at[k]]);
    HistoryInStep(ctx, s0, calls, subject);
  }

  // ------------------------------------------------- what an update logs

  /** The events a change of meaning calls for, in the order they are written. */
  ghost function ChangeNames(ctx: Context, before: Record, now: Record): seq<Str> {
    (if !Same(ctx.sanitize(before.metadata), ctx.sanitize(now.metadata)) then [METADATA_UPDATE] else [])
    + (if !Same(before.metadataPolicy, now.metadataPolicy) then [METADATA_POLICY_UPDATE] else [])
    + (if !SameCounts(before.jwks, now.jwks, ctx.strip) then [JWKS_UPDATE] else [])
  }

  /** What a successful update appends: the events its names call for, at one time. */
  lemma UpdateAppends(ctx: Context, s: State, subject: Str, p: Patch, seen: seq<int>)
    requires s.events.Some? && |seen| >= 3 && Updated(ctx, s, subject, p, seen[1], seen[2]).Some?
    ensures var s' := Effect(ctx, Update(subject, p), s, seen);
            && subject in s.subordinates.at && subject in s'.subordinates.at
            && Added(ctx, s, Call(Update(subject, p), seen), subject)
               == Events(seen[2], UpdateNames(ctx, s.subordinates.at[subject], s'.subordinates.at[subject]))
  {
    hide UpdateNames, Patched, Events;
    var stored := UpdateRecord(s, subject, CleanPatch(ctx, p), seen[1], ctx.valid).value;
    var names := UpdateNames(ctx, s.subordinates.at[subject], stored.subordinates.at[subject]);
    StorageLeavesEvents(s);
    LoggedHistory(ctx, stored, subject, Events(seen[2], names), subject);
    assert names == [] ==> Events(seen[2], names) == [];
    AddedIs(ctx, s, Call(Update(subject, p), seen), subject, Events(seen[2], names));
  }

  /** A successful update logs, for metadata, policy and keys, exactly what changed in
      meaning: values up to `Same`, keys as a multiset of stripped keys. */
  lemma UpdateEventsMeanChange(ctx: Context, s: State, subject: Str, p: Patch, seen: seq<int>)
    requires s.events.Some? && |seen| >= 3 && Updated(ctx, s, subject, p, seen[1], seen[2]).Some?
    requires subject in s.subordinates.at && subject in Effect(ctx, Update(subject, p), s, seen).subordinates.at
    requires var before, now := s.subordinates.at[subject],
             Effect(ctx, Update(subject, p), s, seen).subordinates.at[subject];
             && WellFormed(ctx.sanitize(before.metadata)) && WellFormed(ctx.sanitize(now.metadata))
             && WellFormed(before.metadataPolicy) && WellFormed(now.metadataPolicy)
             && StripsWell(before.jwks, ctx.strip) && StripsWell(now.jwks, ctx.strip)
    ensures var before, now := s.subordinates.at[subject],
            Effect(ctx, Update(subject, p), s, seen).subordinates.at[subject];
            Added(ctx, s, Call(Update(subject, p), seen), subject) == Events(seen[2], ChangeNames(ctx, before, now))
  {
    hide Canon, Same, SameCounts, PublicKeysText, Effect, Updated, Added;
    var before, now := s.subordinates.at[subject], Effect(ctx, Update(subject, p), s, seen).subordinates.at[subject];
    UpdateAppends(ctx, s, subject, p, seen);
    CanonDecidesMeaning(ctx.sanitize(before.metadata), ctx.sanitize(now.metadata));
    CanonDecidesMeaning(before.metadataPolicy, now.metadataPolicy);
    PublicKeysDecideMultiset(before.jwks, now.jwks, ctx.strip);
  }

  // ------------------------------------------------- the stored history

  /** h is an interleaving of a and b. */
  ghost predicate Interleaves(h: seq<HistoryEvent>, a: seq<HistoryEvent>, b: seq<HistoryEvent>)
    decreases |h|
  {
    if h == [] then a == [] && b == []
    else
      var n := |h| - 1;
      || (a != [] && a[|a| - 1] == h[n] && Interleaves(h[..n], a[..|a| - 1], b))
      || (b != [] && b[|b| - 1] == h[n] && Interleaves(h[..n], a, b[..|b| - 1]))
  }

  lemma {:induction false} InterleavesAppend(h: seq<HistoryEvent>, a: seq<HistoryEvent>, b: seq<HistoryEvent>,
                                             es: seq<HistoryEvent>)
    requires Interleaves(h, a, b)
    ensures Interleaves(h + es, a + es, b) && Interleaves(h + es, a, b + es)
  {
    if es == [] {
      assert h + es == h && a + es == a && b + es == b;
    } else {
      var n := |es| - 1;
      InterleavesAppend(h, a, b, es[..n]);
      assert (h + es)[..|h + es| - 1] == h + es[..n];
      assert (a + es)[..|a + es| - 1] == a + es[..n];
      assert (b + es)[..|b + es| - 1] == b + es[..n];
    }
  }

  /** What a call tells the history of a subject, by what was asked, the clock readings it took
      and whether it succeeded. */
  ghost function Told(ctx: Context, s: State, c: Call, subject: Str): seq<HistoryEvent> {
    if !Succeeds(ctx, c.op, s, c.seen) then []
    else
      match c.op
      case Register(r) => if r.entityId == subject then [Event(c.seen[0], REGISTRATION)] else []
      case Update(id, _) =>
        var s' := Effect(ctx, c.op, s, c.seen);
        if id == subject && id in s'.subordinates.at
        then Events(c.seen[2], UpdateNames(ctx, s.subordinates.at[id], s'.subordinates.at[id]))
        else []
      case RevokeSubordinate(id) => if id == subject then [Event(c.seen[1], REVOCATION)] else []
      case RecordExtra(id, es) => if id == subject then es else []
      case _ => []
  }

  /** Everything a run told the history of a subject, in order. */
  ghost function ToldBy(ctx: Context, s0: State, calls: seq<Call>, subject: Str): seq<HistoryEvent> {
    if calls == [] then []
    else
      var n := |calls| - 1;
      ToldBy(ctx, s0, calls[..n], subject) + Told(ctx, Play(ctx, s0, calls[..n]), calls[n], subject)
  }

  /** The events handed to successful recordings of a subject, in order. */
  ghost function Recorded(ctx: Context, s0: State, calls: seq<Call>, subject: Str): seq<HistoryEvent> {
    if calls == [] then []
    else
      var n := |calls| - 1;
      var c, before := calls[n], Recorded(ctx, s0, calls[..n], subject);
      if c.op.RecordExtra? && c.op.subject == subject && Succeeds(ctx, c.op, Play(ctx, s0, calls[..n]), c.seen)
      then before + c.op.events
      else before
  }

  lemma AddedIsTold(ctx: Context, s: State, c: Call, subject: Str)
    requires s.events.Some?
    ensures Added(ctx, s, c, subject) == Told(ctx, s, c, subject)
  {
    hide UpdateNames, IssueMark, RevokeMarks, Logged, History, TrustMarks.GetValid, Put, Remove;
    var es := Told(ctx, s, c, subject);
    var h := History(s, ctx.issuer, subject);
    StorageLeavesEvents(s);
    assert h + [] == h;
    if Succeeds(ctx, c.op, s, c.seen) {
      match c.op
      case Register(r) =>
        var iat := c.seen[0];
        var added := AddRecord(s, CleanRecord(ctx, r).(createdAt := iat, updatedAt := iat), ctx.valid).value;
        SameEvents(ctx, s, added, subject);
        LoggedHistory(ctx, added, r.entityId, [Event(iat, REGISTRATION)], subject);
      case Update(id, p) =>
        var stored := UpdateRecord(s, id, CleanPatch(ctx, p), c.seen[1], ctx.valid).value;
        var names := UpdateNames(ctx, s.subordinates.at[id], stored.subordinates.at[id]);
        SameEvents(ctx, s, stored, subject);
        LoggedHistory(ctx, stored, id, Events(c.seen[2], names), subject);
        assert names == [] ==> Events(c.seen[2], names) == [];
      case RevokeSubordinate(id) =>
        SameEvents(ctx, s, RemoveRecord(s, id).value, subject);
        LoggedHistory(ctx, RemoveRecord(s, id).value, id, [Event(c.seen[1], REVOCATION)], subject);
      case RecordExtra(id, extra) => RecordedHistory(ctx, s, c, subject);
      case _ => OthersLeaveEvents(ctx, s, c, subject);
    } else {
      OthersLeaveEvents(ctx, s, c, subject);
    }
    AddedIs(ctx, s, c, subject, es);
  }

  lemma RecordedHistory(ctx: Context, s: State, c: Call, subject: Str)
    requires s.events.Some? && c.op.RecordExtra? && |c.seen| >= 1
    ensures History(Effect(ctx, c.op, s, c.seen), ctx.issuer, subject) ==
            History(s, ctx.issuer, subject) + if c.op.subject == subject then c.op.events else []
  {
  }

  lemma SameEvents(ctx: Context, s: State, s': State, subject: Str)
    requires s'.events == s.events
    ensures History(s', ctx.issuer, subject) == History(s, ctx.issuer, subject)
  {
  }

  /** Calls that fail, and calls about marks, tell no history anything. */
  lemma OthersLeaveEvents(ctx: Context, s: State, c: Call, subject: Str)
    requires s.events.Some? && (!Succeeds(ctx, c.op, s, c.seen) || c.op.Issue? || c.op.RevokeMark?)
    ensures History(Effect(ctx, c.op, s, c.seen), ctx.issuer, subject) == History(s, ctx.issuer, subject)
  {
    hide UpdateNames, IssueMark, RevokeMarks, Logged, History, Put, Remove;
    StorageLeavesEvents(s);
    SameEvents(ctx, s, Effect(ctx, c.op, s, c.seen), subject);
  }

  /** Over every run the stored history of a subject is exactly what the calls told it. */
  lemma {:induction false} HistoryIsTold(ctx: Context, s0: State, calls: seq<Call>, subject: Str)
    requires Fresh(s0)
    ensures Play(ctx, s0, calls).events.Some?
    ensures History(Play(ctx, s0, calls), ctx.issuer, subject) == ToldBy(ctx, s0, calls, subject)
  {
    if calls != [] {
      hide Effect, Added, Told;
      var n := |calls| - 1;
      HistoryIsTold(ctx, s0, calls[..n], subject);
      HistoryGrows(ctx, Play(ctx, s0, calls[..n]), calls[n], subject);
      AddedIsTold(ctx, Play(ctx, s0, calls[..n]), calls[n], subject);
    }
  }

  /** And no call writes under another issuer. */
  lemma OtherIssuerStep(ctx: Context, s: State, c: Call, issuer: Str, subject: Str)
    requires issuer != ctx.issuer
    ensures History(Effect(ctx, c.op, s, c.seen), issuer, subject) == History(s, issuer, subject)
  {
    hide UpdateNames, IssueMark, RevokeMarks, Patched, AddRecord, UpdateRecord, RemoveRecord, Events,
        TrustMarks.GetValid;
    StorageLeavesEvents(s);
  }

  lemma {:induction false} OtherIssuersEmpty(ctx: Context, s0: State, calls: seq<Call>, issuer: Str, subject: Str)
    requires Fresh(s0) && issuer != ctx.issuer
    ensures History(Play(ctx, s0, calls), issuer, subject) == []
  {
    if calls != [] {
      hide Effect;
      var n := |calls| - 1;
      OtherIssuersEmpty(ctx, s0, calls[..n], issuer, subject);
      OtherIssuerStep(ctx, Play(ctx, s0, calls[..n]), calls[n], issuer, subject);
    }
  }

  /** Over every run the stored history of a subject is an interleaving of what the lifecycle
      logged and what was recorded from outside; nothing is lost and nothing else added. */
  lemma {:induction false} HistoryInterleaves(ctx: Context, s0: State, calls: seq<Call>, subject: Str)
    requires Fresh(s0)
    ensures Interleaves(History(Play(ctx, s0, calls), ctx.issuer, subject), Kept(ctx, s0, calls, subject),
                        Recorded(ctx, s0, calls, subject))
  {
    if calls != [] {
      hide InStep, Effect, Added, Interleaves, History;
      var n := |calls| - 1;
      var s := Play(ctx, s0, calls[..n]);
      HistoryInterleaves(ctx, s0, calls[..n], subject);
      HistoryInStep(ctx, s0, calls[..n], subject);
      HistoryGrows(ctx, s, calls[n], subject);
      var kept, recorded := Kept(ctx, s0, calls[..n], subject), Recorded(ctx, s0, calls[..n], subject);
      InterleavesAppend(History(s, ctx.issuer, subject), kept, recorded, Added(ctx, s, calls[n], subject));
      AddedIsTold(ctx, s, calls[n], subject);
      assert kept + [] == kept && recorded + [] == recorded;
    }
  }

  // ------------------------------------------------- what the listings take for granted

  ghost predicate SoundAs(s0: State, s: State) {
    ValidState(s) && s.marks.Some? == s0.marks.Some?
  }

  lemma MutationsKeepValid(s: State)
    requires ValidState(s)
    ensures forall r, valid :: AddRecord(s, r, valid).Some? ==> SoundAs(s, AddRecord(s, r, valid).value)
    ensures forall id, p, now, valid :: UpdateRecord(s, id, p, now, valid).Some? ==>
            SoundAs(s, UpdateRecord(s, id, p, now, valid).value)
    ensures forall id :: RemoveRecord(s, id).Some? ==> SoundAs(s, RemoveRecord(s, id).value)
    ensures forall m :: IssueMark(s, m).Some? ==> SoundAs(s, IssueMark(s, m).value)
    ensures forall ty, id, at :: RevokeMarks(s, ty, id, at).Some? ==> SoundAs(s, RevokeMarks(s, ty, id, at).value)
  {
  }

  lemma LoggedKeepsValid(ctx: Context, s: State, subject: Str, es: seq<HistoryEvent>)
    requires ValidState(s)
    ensures SoundAs(s, Logged(ctx, s, subject, es))
    ensures AppendEvents(s, ctx.issuer, subject, es).Some? ==>
            SoundAs(s, AppendEvents(s, ctx.issuer, subject, es).value)
  {
  }

  lemma EffectKeepsValid(ctx: Context, op: Operation, s: State, seen: seq<int>)
    requires ValidState(s)
    ensures SoundAs(s, Effect(ctx, op, s, seen))
  {
    hide AddRecord, UpdateRecord, RemoveRecord, AppendEvents, IssueMark, RevokeMarks, Logged, UpdateNames, ValidState,
        TrustMarks.GetValid;
    MutationsKeepValid(s);
    match op
    case Register(r) =>
      var added := if |seen| < 2 then None
        else AddRecord(s, CleanRecord(ctx, r).(createdAt := seen[0], updatedAt := seen[0]), ctx.valid);
      if added.Some? {
        LoggedKeepsValid(ctx, added.value, r.entityId, [Event(seen[0], REGISTRATION)]);
      }
    case Update(subject, p) =>
      var stored := if |seen| < 3 then None else UpdateRecord(s, subject, CleanPatch(ctx, p), seen[1], ctx.valid);
      if stored.Some? {
        forall es
          ensures SoundAs(stored.value, Logged(ctx, stored.value, subject, es))
        {
          LoggedKeepsValid(ctx, stored.value, subject, es);
        }
      }
    case RevokeSubordinate(subject) =>
      var removed := if |seen| < 2 then None else RemoveRecord(s, subject);
      if removed.Some? {
        LoggedKeepsValid(ctx, removed.value, subject, [Event(seen[1], REVOCATION)]);
      }
    case RecordExtra(subject, es) => LoggedKeepsValid(ctx, s, subject, es);
    case Issue(candidate) =>
    case RevokeMark(markType, subject, at) =>
  }

  /** Every state anyone can read files records and marks under their own keys, so tokens are
      distinct, and has a mark store exactly when the adapter was made with one. */
  lemma EveryReadIsValid(ctx: Context, s0: State, trace: seq<A.System<State, Local, Reply>>,
                         es: seq<A.Event<State, Local, Reply>>, ops: seq<Operation>, k: nat)
    requires ValidState(s0) && A.Run(s0, trace, es) && Asked(ctx, trace[|es|].tickets, ops) && k < |trace|
    ensures ValidState(trace[k].state) && trace[k].state.marks.Some? == s0.marks.Some?
    ensures trace[k].state.marks.Some? ==> TrustMarks.DistinctTokens(Values(trace[k].state.marks.value))
  {
    hide A.Atomic, Effect;
    var inv := (s: State) => SoundAs(s0, s);
    forall i | 0 <= i < |ops|
      ensures A.Preserves(trace[|es|].tickets[i].call, inv)
    {
      forall s, seen | SoundAs(s0, s)
        ensures SoundAs(s0, A.Atomic(CallOf(ctx, ops[i]), s, seen).0)
      {
        TurnsMakeEffect(ctx, ops[i], s, seen);
        EffectKeepsValid(ctx, ops[i], s, seen);
      }
    }
    A.InvariantOfEveryRead(s0, trace, es, inv, k);
    if trace[k].state.marks.Some? {
      TrustMarks.FiledDistinct(trace[k].state.marks.value);
    }
  }
}
