/** The exclusive queue of the memory adapter as a step machine over any number of
    concurrent clients: every mutation or transaction waits for the promise of the
    caller before it, a transaction works on a copy that is swapped in at its end,
    and reads from outside look at the shared state at any moment. */
module Adapter {

  /** How one turn of a transaction callback ends: at an await, by returning, or by throwing. */
  datatype Turn<!S, !L, !R> = Await(local: L, draft: S) | Return(draft: S, value: R) | Throw

  datatype Applied<!S, !R> = Done(state: S, value: R) | Rejected

  /** Direct calls run in one turn on the shared state; transactions take several turns,
      each with its own reading of the clock, on a draft. */
  datatype Call<!S, !L, !R> =
    | Direct(apply: (S, int) -> Applied<S, R>)
    | Transaction(start: L, turn: (L, S, int) -> Turn<S, L, R>)

  datatype Outcome<!R> = Value(value: R) | Error

  /** The clock readings a call has taken so far travel with its phase. */
  datatype Phase<!S, !L, !R> =
    | Waiting
    | Running(local: L, draft: S, seen: seq<int>)
    | Finished(draft: S, value: R, seen: seq<int>)
    | Settled(outcome: Outcome<R>, seen: seq<int>)

  datatype Ticket<!S, !L, !R> = Ticket(call: Call<S, L, R>, previous: nat, own: nat, phase: Phase<S, L, R>)

  /** Promise 0 is the resolved promise the queue starts from. */
  datatype System<!S, !L, !R> =
    System(state: S, tickets: seq<Ticket<S, L, R>>, promises: seq<bool>, tail: nat)

  datatype Event<!S, !L, !R> =
    | Arrive(call: Call<S, L, R>)
    | Start(i: nat, now: int)
    | Advance(i: nat, now: int)
    | Commit(i: nat)
    | Release(i: nat)

  function Init<S, L, R>(s0: S): System<S, L, R> {
    System(s0, [], [true], 0)
  }

  predicate Enabled<S, L, R>(sys: System<S, L, R>, e: Event<S, L, R>) {
    match e
    case Arrive(_) => true
    case Start(i, _) =>
      && i < |sys.tickets| && sys.tickets[i].phase.Waiting?
      && sys.tickets[i].previous < |sys.promises| && sys.promises[sys.tickets[i].previous]
    case Advance(i, _) =>
      i < |sys.tickets| && sys.tickets[i].phase.Running? && sys.tickets[i].call.Transaction?
    case Commit(i) => i < |sys.tickets| && sys.tickets[i].phase.Finished?
    case Release(i) =>
      && i < |sys.tickets| && sys.tickets[i].phase.Settled?
      && sys.tickets[i].own < |sys.promises| && !sys.promises[sys.tickets[i].own]
  }

  function At<S, L, R>(sys: System<S, L, R>, i: nat, phase: Phase<S, L, R>): System<S, L, R>
    requires i < |sys.tickets|
  {
    sys.(tickets := sys.tickets[i := sys.tickets[i].(phase := phase)])
  }

  function Apply<S, L, R>(sys: System<S, L, R>, e: Event<S, L, R>): System<S, L, R>
    requires Enabled(sys, e)
  {
    match e
    case Arrive(call) =>
      var own := |sys.promises|;
      System(sys.state, sys.tickets + [Ticket(call, sys.tail, own, Waiting)], sys.promises + [false], own)
    case Start(i, now) =>
      (match sys.tickets[i].call
       case Direct(apply) =>
         (match apply(sys.state, now)
          case Done(s, v) => At(sys, i, Settled(Value(v), [now])).(state := s)
          case Rejected => At(sys, i, Settled(Error, [now])))
       case Transaction(start, _) => At(sys, i, Running(start, sys.state, [])))
    case Advance(i, now) =>
      var t := sys.tickets[i];
      (match t.call.turn(t.phase.local, t.phase.draft, now)
       case Await(l, d) => At(sys, i, Running(l, d, t.phase.seen + [now]))
       case Return(d, v) => At(sys, i, Finished(d, v, t.phase.seen + [now]))
       case Throw => At(sys, i, Settled(Error, t.phase.seen + [now])))
    case Commit(i) =>
      var t := sys.tickets[i];
      At(sys, i, Settled(Value(t.phase.value), t.phase.seen)).(state := t.phase.draft)
    case Release(i) =>
      sys.(promises := sys.promises[sys.tickets[i].own := true])
  }

  /** A run: the systems it passes through and the events between them. */
  ghost predicate Run<S, L, R>(s0: S, trace: seq<System<S, L, R>>, es: seq<Event<S, L, R>>) {
    && |trace| == |es| + 1 && trace[0] == Init(s0)
    && forall i :: 0 <= i < |es| ==> Enabled(trace[i], es[i]) && trace[i + 1] == Apply(trace[i], es[i])
  }

  // ------------------------------------------------- the serial reference

  datatype Progress<!S, !L, !R> = Going(local: L, draft: S) | Ended(draft: S, value: R) | Failed

  /** A transaction body alone, from the state it is given, through the readings it takes. */
  function Body<S, L, R>(call: Call<S, L, R>, s: S, seen: seq<int>): Progress<S, L, R>
    requires call.Transaction?
  {
    if seen == [] then Going(call.start, s)
    else
      match Body(call, s, seen[..|seen| - 1])
      case Going(l, d) =>
        (match call.turn(l, d, seen[|seen| - 1])
         case Await(l', d') => Going(l', d')
         case Return(d', v) => Ended(d', v)
         case Throw => Failed)
      case other => other
  }

  /** The same body read from its first turn on. */
  function Onward<S, L, R>(turn: (L, S, int) -> Turn<S, L, R>, l: L, d: S, seen: seq<int>): Progress<S, L, R> {
    if seen == [] then Going(l, d)
    else
      match turn(l, d, seen[0])
      case Await(l', d') => Onward(turn, l', d', seen[1..])
      case Return(d', v) => Ended(d', v)
      case Throw => Failed
  }

  lemma {:induction false} OnwardLast<S, L, R>(turn: (L, S, int) -> Turn<S, L, R>, l: L, d: S, seen: seq<int>)
    requires seen != []
    ensures var before := Onward(turn, l, d, seen[..|seen| - 1]);
            Onward(turn, l, d, seen) ==
            if before.Going? then Onward(turn, before.local, before.draft, [seen[|seen| - 1]]) else before
  {
    if |seen| == 1 {
      assert seen == [seen[0]];
    } else {
      var t := turn(l, d, seen[0]);
      assert seen[..|seen| - 1][1..] == seen[1..][..|seen| - 2];
      if t.Await? {
        OnwardLast(turn, t.local, t.draft, seen[1..]);
      }
    }
  }

  lemma {:induction false} BodyIsOnward<S, L, R>(call: Call<S, L, R>, s: S, seen: seq<int>)
    requires call.Transaction?
    ensures Body(call, s, seen) == Onward(call.turn, call.start, s, seen)
  {
    if seen != [] {
      BodyIsOnward(call, s, seen[..|seen| - 1]);
      OnwardLast(call.turn, call.start, s, seen);
    }
  }

  /** One call as a single step: what it leaves and what it answers. */
  function Atomic<S, L, R>(call: Call<S, L, R>, s: S, seen: seq<int>): (S, Outcome<R>) {
    match call
    case Direct(apply) =>
      if seen == [] then (s, Error)
      else (match apply(s, seen[0]) case Done(s', v) => (s', Value(v)) case Rejected => (s, Error))
    case Transaction(_, _) =>
      (match Body(call, s, seen) case Ended(d, v) => (d, Value(v)) case Going(_, _) => (s, Error)
        case Failed => (s, Error))
  }

  function Seen<S, L, R>(t: Ticket<S, L, R>): seq<int> {
    if t.phase.Waiting? then [] else t.phase.seen
  }

  /** The calls one after the other, in order of arrival. */
  function Serial<S, L, R>(s0: S, ts: seq<Ticket<S, L, R>>): S {
    if ts == [] then s0
    else Atomic(ts[|ts| - 1].call, Serial(s0, ts[..|ts| - 1]), Seen(ts[|ts| - 1])).0
  }

  // ------------------------------------------------- the invariant

  /** The queue discipline: promises chain the tickets, the first n are settled, all but
      the last of those are released, and nobody past ticket n has begun. */
  ghost predicate Queue<S, L, R>(sys: System<S, L, R>, n: nat) {
    && |sys.promises| == |sys.tickets| + 1 && sys.tail == |sys.tickets| && sys.promises[0]
    && (forall i :: 0 <= i < |sys.tickets| ==> sys.tickets[i].previous == i && sys.tickets[i].own == i + 1)
    && n <= |sys.tickets|
    && (forall i :: 0 <= i < n ==> sys.tickets[i].phase.Settled?)
    && (forall i :: n <= i < |sys.tickets| ==> !sys.tickets[i].phase.Settled?)
    && (forall i :: n < i < |sys.tickets| ==> sys.tickets[i].phase.Waiting?)
    && (forall i :: 0 <= i < n ==> sys.promises[i])
    && (forall i :: n < i <= |sys.tickets| ==> !sys.promises[i])
    && (n < |sys.tickets| && !sys.tickets[n].phase.Waiting? ==> sys.promises[n])
  }

  /** The ticket in turn, if it has begun, is where its body alone would be. */
  ghost predicate InTurn<S, L, R>(sys: System<S, L, R>, n: nat) {
    n < |sys.tickets| ==>
      var t := sys.tickets[n];
      match t.phase
      case Running(l, d, seen) => t.call.Transaction? && Body(t.call, sys.state, seen) == Going(l, d)
      case Finished(d, v, seen) => t.call.Transaction? && Body(t.call, sys.state, seen) == Ended(d, v)
      case _ => true
  }

  ghost predicate Answered<S, L, R>(s0: S, ts: seq<Ticket<S, L, R>>, i: nat)
    requires i < |ts| && ts[i].phase.Settled?
  {
    ts[i].phase.outcome == Atomic(ts[i].call, Serial(s0, ts[..i]), ts[i].phase.seen).1
  }

  ghost predicate Serialized<S, L, R>(s0: S, sys: System<S, L, R>, n: nat) {
    && Queue(sys, n)
    && InTurn(sys, n)
    && sys.state == Serial(s0, sys.tickets[..n])
    && forall i :: 0 <= i < n ==> Answered(s0, sys.tickets, i)
  }

  lemma SerialPrefix<S, L, R>(s0: S, ts: seq<Ticket<S, L, R>>, us: seq<Ticket<S, L, R>>, n: nat)
    requires n <= |ts| && n <= |us| && ts[..n] == us[..n]
    requires forall i :: 0 <= i < n ==> ts[i].phase.Settled?
    ensures forall i :: 0 <= i < n ==> (Answered(s0, ts, i) <==> Answered(s0, us, i))
  {
    forall i | 0 <= i < n
      ensures Answered(s0, ts, i) <==> Answered(s0, us, i)
    {
      assert ts[i] == ts[..n][i] && us[i] == us[..n][i];
      assert ts[..i] == ts[..n][..i] && us[..i] == us[..n][..i];
    }
  }

  /** Settling ticket n moves the serial run one call further. */
  lemma SerialNext<S, L, R>(s0: S, sys: System<S, L, R>, sys': System<S, L, R>, n: nat)
    requires Serialized(s0, sys, n) && n < |sys.tickets| && Queue(sys', n + 1)
    requires sys'.tickets == sys.tickets[n := sys'.tickets[n]]
    requires sys'.tickets[n].call == sys.tickets[n].call
    requires (sys'.state, sys'.tickets[n].phase.outcome) ==
             Atomic(sys.tickets[n].call, sys.state, sys'.tickets[n].phase.seen)
    ensures Serialized(s0, sys', n + 1) && sys'.tickets[..n] == sys.tickets[..n]
  {
    hide Atomic, Body;
    var ts, us := sys.tickets, sys'.tickets;
    assert us[..n] == ts[..n];
    assert us[..n + 1][..n] == us[..n];
    assert Serial(s0, us[..n + 1]) == sys'.state;
    SerialPrefix(s0, ts, us, n);
    assert forall i :: 0 <= i < n ==> Answered(s0, ts, i);
    assert Answered(s0, us, n);
  }

  /** A step that settles nobody leaves the serial run where it is. */
  lemma SerialStays<S, L, R>(s0: S, sys: System<S, L, R>, sys': System<S, L, R>, n: nat)
    requires Serialized(s0, sys, n) && Queue(sys', n) && InTurn(sys', n)
    requires sys'.state == sys.state && sys'.tickets[..n] == sys.tickets[..n]
    ensures Serialized(s0, sys', n)
  {
    SerialPrefix(s0, sys.tickets, sys'.tickets, n);
    assert forall i :: 0 <= i < n ==> Answered(s0, sys.tickets, i);
  }

  lemma StartKeeps<S, L, R>(s0: S, sys: System<S, L, R>, e: Event<S, L, R>, n: nat) returns (n': nat)
    requires Serialized(s0, sys, n) && e.Start? && Enabled(sys, e)
    ensures n <= n' <= n + 1 && Serialized(s0, Apply(sys, e), n') && Apply(sys, e).tickets[..n] == sys.tickets[..n]
  {
    var sys' := Apply(sys, e);
    assert e.i == n;
    if sys.tickets[n].call.Direct? {
      n' := n + 1;
      SerialNext(s0, sys, sys', n);
    } else {
      n' := n;
      SerialStays(s0, sys, sys', n);
    }
  }

  lemma BodyStep<S, L, R>(call: Call<S, L, R>, s: S, seen: seq<int>, now: int)
    requires call.Transaction? && Body(call, s, seen).Going?
    ensures Body(call, s, seen + [now]) ==
            var g := Body(call, s, seen);
            match call.turn(g.local, g.draft, now)
            case Await(l, d) => Going(l, d)
            case Return(d, v) => Ended(d, v)
            case Throw => Failed
  {
    assert (seen + [now])[..|seen|] == seen;
  }

  lemma AdvanceKeeps<S, L, R>(s0: S, sys: System<S, L, R>, e: Event<S, L, R>, n: nat) returns (n': nat)
    requires Serialized(s0, sys, n) && e.Advance? && Enabled(sys, e)
    ensures n <= n' <= n + 1 && Serialized(s0, Apply(sys, e), n') && Apply(sys, e).tickets[..n] == sys.tickets[..n]
  {
    hide Body, Serial, Answered;
    var sys' := Apply(sys, e);
    assert e.i == n;
    BodyStep(sys.tickets[n].call, sys.state, sys.tickets[n].phase.seen, e.now);
    if sys'.tickets[n].phase.Settled? {
      n' := n + 1;
      SerialNext(s0, sys, sys', n);
    } else {
      n' := n;
      SerialStays(s0, sys, sys', n);
    }
  }

  lemma CommitKeeps<S, L, R>(s0: S, sys: System<S, L, R>, e: Event<S, L, R>, n: nat)
    requires Serialized(s0, sys, n) && e.Commit? && Enabled(sys, e)
    ensures Serialized(s0, Apply(sys, e), n + 1) && Apply(sys, e).tickets[..n] == sys.tickets[..n]
  {
    hide Body, Serial, Answered;
    assert e.i == n;
    SerialNext(s0, sys, Apply(sys, e), n);
  }

  lemma QueueKeeps<S, L, R>(s0: S, sys: System<S, L, R>, e: Event<S, L, R>, n: nat)
    requires Serialized(s0, sys, n) && (e.Arrive? || e.Release?) && Enabled(sys, e)
    ensures Serialized(s0, Apply(sys, e), n) && Apply(sys, e).tickets[..n] == sys.tickets[..n]
  {
    hide Body, Serial, Answered;
    var sys' := Apply(sys, e);
    assert sys'.tickets[..n] == sys.tickets[..n];
    SerialStays(s0, sys, sys', n);
  }

  /** Every step keeps the serialization and never rewrites a settled call. */
  lemma StepKeeps<S, L, R>(s0: S, sys: System<S, L, R>, e: Event<S, L, R>, n: nat) returns (n': nat)
    requires Serialized(s0, sys, n) && Enabled(sys, e)
    ensures n <= n' <= n + 1 && n' <= |Apply(sys, e).tickets| && Serialized(s0, Apply(sys, e), n')
    ensures |Apply(sys, e).tickets| >= |sys.tickets| && Apply(sys, e).tickets[..n] == sys.tickets[..n]
  {
    hide Body, Serial, Answered, InTurn;
    match e
    case Start(_, _) => n' := StartKeeps(s0, sys, e, n);
    case Advance(_, _) => n' := AdvanceKeeps(s0, sys, e, n);
    case Commit(i) =>
      n' := n + 1;
      CommitKeeps(s0, sys, e, n);
    case Arrive(_) =>
      n' := n;
      QueueKeeps(s0, sys, e, n);
    case Release(_) =>
      n' := n;
      QueueKeeps(s0, sys, e, n);
  }

  // ------------------------------------------------- theorems about runs

  /** How far the serial run has come at each moment of a run. */
  ghost predicate Positions<S, L, R>(s0: S, trace: seq<System<S, L, R>>, at: seq<nat>) {
    && |at| == |trace|
    && (forall k :: 0 <= k < |trace| ==> at[k] <= |trace[k].tickets| && Serialized(s0, trace[k], at[k]))
    && (forall k, m :: 0 <= k <= m < |trace| ==> at[k] <= at[m] && |trace[k].tickets| <= |trace[m].tickets|)
    && (forall k, m :: 0 <= k <= m < |trace| ==> trace[k].tickets[..at[k]] == trace[m].tickets[..at[k]])
  }

  /** The serial run starts at the beginning and moves one call at a time. */
  predicate Gradual(at: seq<nat>) {
    at != [] && at[0] == 0 && forall k :: 0 < k < |at| ==> at[k] <= at[k - 1] + 1
  }

  /** So it passes through every position up to its last. */
  lemma {:induction false} GradualReaches(at: seq<nat>, n: nat) returns (k: nat)
    requires Gradual(at) && n <= at[|at| - 1]
    ensures k < |at| && at[k] == n
  {
    if at[|at| - 1] == n {
      k := |at| - 1;
    } else {
      k := GradualReaches(at[..|at| - 1], n);
    }
  }

  lemma {:induction false} RunPositions<S, L, R>(s0: S, trace: seq<System<S, L, R>>, es: seq<Event<S, L, R>>)
    returns (at: seq<nat>)
    requires Run(s0, trace, es)
    ensures Positions(s0, trace, at) && Gradual(at)
  {
    hide Serialized, Apply, Enabled;
    if es == [] {
      at := [0];
      InitSerialized<S, L, R>(s0);
    } else {
      var k := |es| - 1;
      var before := RunPositions(s0, trace[..k + 1], es[..k]);
      assert trace[..k + 1][k] == trace[k];
      var n := StepKeeps(s0, trace[k], es[k], before[k]);
      at := before + [n];
      assert trace[k + 1] == Apply(trace[k], es[k]);
      ExtendPositions(s0, trace, before, at, k);
    }
  }

  lemma InitSerialized<S, L, R>(s0: S)
    ensures Serialized(s0, Init<S, L, R>(s0), 0)
  {
  }

  lemma ExtendPositions<S, L, R>(s0: S, trace: seq<System<S, L, R>>, before: seq<nat>, at: seq<nat>, k: nat)
    requires |trace| == k + 2 && Positions(s0, trace[..k + 1], before) && |at| == k + 2 && at[..k + 1] == before
    requires at[k + 1] <= |trace[k + 1].tickets| && Serialized(s0, trace[k + 1], at[k + 1]) && before[k] <= at[k + 1]
    requires |trace[k].tickets| <= |trace[k + 1].tickets| &&
             trace[k + 1].tickets[..before[k]] == trace[k].tickets[..before[k]]
    ensures Positions(s0, trace, at)
  {
    hide Serialized;
    var prefix := trace[..k + 1];
    assert forall j :: 0 <= j <= k ==> prefix[j] == trace[j] && before[j] == at[j];
    forall j | 0 <= j < |trace|
      ensures at[j] <= at[k + 1] && |trace[j].tickets| <= |trace[k + 1].tickets|
      ensures trace[j].tickets[..at[j]] == trace[k + 1].tickets[..at[j]]
    {
      if j <= k {
        assert prefix[j].tickets[..before[j]] == prefix[k].tickets[..before[j]];
        assert trace[k].tickets[..before[j]] == trace[k].tickets[..before[k]][..before[j]];
        assert trace[k + 1].tickets[..before[j]] == trace[k + 1].tickets[..before[k]][..before[j]];
      }
    }
  }

  /** Serializability: whatever the interleaving, there is one serial run of the calls in
      arrival order such that every state anyone can read, at any moment, is a state of
      that run, at a position that never goes back; and every settled call answered what
      it answers there. The run moves one call at a time, so every one of its states is
      there to be read at some moment. */
  lemma Serializable<S, L, R>(s0: S, trace: seq<System<S, L, R>>, es: seq<Event<S, L, R>>) returns (at: seq<nat>)
    requires Run(s0, trace, es)
    ensures |at| == |trace| && Gradual(at)
    ensures forall k, m :: 0 <= k <= m < |trace| ==> at[k] <= at[m] <= |trace[m].tickets|
    ensures var calls := trace[|es|].tickets;
            && (forall k :: 0 <= k < |trace| ==> at[k] <= |calls| && trace[k].state == Serial(s0, calls[..at[k]]))
            && (forall i :: 0 <= i < |calls| && calls[i].phase.Settled? ==> i < at[|es|] && Answered(s0, calls, i))
  {
    at := RunPositions(s0, trace, es);
    forall k, m | 0 <= k <= m < |trace|
      ensures at[k] <= at[m] <= |trace[m].tickets|
    {
      assert Serialized(s0, trace[m], at[m]);
    }
    var calls := trace[|es|].tickets;
    assert Serialized(s0, trace[|es|], at[|es|]);
    forall k | 0 <= k < |trace|
      ensures at[k] <= |calls| && trace[k].state == Serial(s0, calls[..at[k]])
    {
      assert Serialized(s0, trace[k], at[k]);
      assert trace[k].tickets[..at[k]] == trace[|es|].tickets[..at[k]];
    }
  }

  /** Call i has resolved the promise the next caller waits for. */
  predicate Released<S, L, R>(sys: System<S, L, R>, i: nat) {
    i < |sys.tickets| && sys.tickets[i].own < |sys.promises| && sys.promises[sys.tickets[i].own]
  }

  predicate Active<S, L, R>(t: Ticket<S, L, R>) {
    t.phase.Running? || t.phase.Finished?
  }

  /** One call at a time, in order of arrival. */
  lemma OneAtATime<S, L, R>(s0: S, trace: seq<System<S, L, R>>, es: seq<Event<S, L, R>>, k: nat, i: nat)
    requires Run(s0, trace, es) && k < |trace| && i < |trace[k].tickets| && !trace[k].tickets[i].phase.Waiting?
    ensures forall j :: 0 <= j < i ==> trace[k].tickets[j].phase.Settled? && Released(trace[k], j)
    ensures forall j :: 0 <= j < |trace[k].tickets| && Active(trace[k].tickets[j]) ==> i <= j
  {
    var at := RunPositions(s0, trace, es);
    assert Serialized(s0, trace[k], at[k]);
  }

  /** A call that throws leaves no trace in the serial run. */
  lemma ErrorChangesNothing<S, L, R>(s0: S, trace: seq<System<S, L, R>>, es: seq<Event<S, L, R>>, i: nat)
    requires Run(s0, trace, es) && i < |trace[|es|].tickets|
    requires trace[|es|].tickets[i].phase.Settled? && trace[|es|].tickets[i].phase.outcome.Error?
    ensures Serial(s0, trace[|es|].tickets[..i + 1]) == Serial(s0, trace[|es|].tickets[..i])
  {
    var at := Serializable(s0, trace, es);
    var calls := trace[|es|].tickets;
    assert Answered(s0, calls, i);
    assert calls[..i + 1][..i] == calls[..i];
  }

  predicate EventOf<S, L, R>(e: Event<S, L, R>, i: nat) {
    !e.Arrive? && e.i == i
  }

  /** The queue never blocks: while some call has not released it, one that arrived before
      all others of that kind has a step to take, and no other call has one. */
  lemma QueueNeverBlocks<S(!new), L(!new), R(!new)>(s0: S, trace: seq<System<S, L, R>>, es: seq<Event<S, L, R>>,
                                                    k: nat, now: int)
    returns (i: nat, e: Event<S, L, R>)
    requires Run(s0, trace, es) && k < |trace|
    requires exists j :: 0 <= j < |trace[k].tickets| && !Released(trace[k], j)
    ensures i < |trace[k].tickets| && EventOf(e, i) && Enabled(trace[k], e)
    ensures forall j :: 0 <= j < i ==> Released(trace[k], j)
    ensures forall e': Event<S, L, R> :: !e'.Arrive? && Enabled(trace[k], e') ==> e'.i == i
  {
    hide Serial, Answered, Body;
    var at := RunPositions(s0, trace, es);
    var sys, n := trace[k], at[k];
    assert Serialized(s0, sys, n);
    if n > 0 && !sys.promises[n] {
      i := n - 1;
      e := Release(i);
    } else {
      i := n;
      e := match sys.tickets[n].phase
           case Waiting => Start(n, now)
           case Running(_, _, _) => Advance(n, now)
           case Finished(_, _, _) => Commit(n)
           case Settled(_, _) => Release(n);
    }
  }

  // ------------------------------------------------- invariants of the stored state

  ghost predicate Preserves<S(!new), L, R>(call: Call<S, L, R>, inv: S -> bool) {
    forall s, seen :: inv(s) ==> inv(Atomic(call, s, seen).0)
  }

  lemma {:induction false} SerialInvariant<S(!new), L, R>(s0: S, ts: seq<Ticket<S, L, R>>, inv: S -> bool)
    requires inv(s0) && forall i :: 0 <= i < |ts| ==> Preserves(ts[i].call, inv)
    ensures inv(Serial(s0, ts))
  {
    if ts != [] {
      SerialInvariant(s0, ts[..|ts| - 1], inv);
    }
  }

  /** What every call keeps when run alone holds of every state anyone can read. */
  lemma InvariantOfEveryRead<S(!new), L, R>(s0: S, trace: seq<System<S, L, R>>, es: seq<Event<S, L, R>>,
                                            inv: S -> bool, k: nat)
    requires Run(s0, trace, es) && inv(s0) && k < |trace|
    requires forall i :: 0 <= i < |trace[|es|].tickets| ==> Preserves(trace[|es|].tickets[i].call, inv)
    ensures inv(trace[k].state)
  {
    var at := Serializable(s0, trace, es);
    SerialInvariant(s0, trace[|es|].tickets[..at[k]], inv);
  }
}
