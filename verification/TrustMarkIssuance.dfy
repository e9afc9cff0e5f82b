/** Trust-mark issuance checks for a valid mark, signs, and checks again inside a
    transaction. Whatever clients interleave, active marks of one type and subject
    never overlap in time. */
module TrustMarkIssuance {
  import opened Options
  import opened Text
  import opened OrderedMaps
  import opened Store
  import opened TrustMarks
  import opened AuthorityCalls
  import A = Adapter

  /** The mark the handler signs: `now` was read before the first check. */
  function Candidate(markType: Str, subject: Str, jwt: Str, now: int, ttl: int): Mark {
    Mark(markType, subject, jwt, now, Some(now + ttl), true, None)
  }

  /** Mark a ends before mark b begins. */
  predicate EndsBefore(a: Mark, b: Mark) {
    a.expiresAt.Some? && a.expiresAt.value <= b.issuedAt
  }

  predicate Rivals(a: Mark, b: Mark) {
    a.active && b.active && a.markType == b.markType && a.subject == b.subject
  }

  /** Active marks of one type and subject have disjoint [issuedAt, expiresAt). */
  ghost predicate NoOverlap(marks: map<Str, Mark>) {
    forall j, k :: j in marks && k in marks && j != k && Rivals(marks[j], marks[k]) ==>
      EndsBefore(marks[j], marks[k]) || EndsBefore(marks[k], marks[j])
  }

  /** Marks are filed under their token and never overlap. */
  ghost predicate Orderly(s: State) {
    s.marks.Some? ==>
      && (forall jwt :: jwt in s.marks.value.at ==> s.marks.value.at[jwt].jwt == jwt)
      && NoOverlap(s.marks.value.at)
  }

  /** No valid mark found means every active rival has ended by then. */
  lemma NoWinnerNoRival(marks: OMap<Str, Mark>, candidate: Mark, jwt: Str)
    requires forall j :: j in marks.at ==> marks.at[j].jwt == j
    requires GetValid(Values(marks), candidate.markType, candidate.subject, candidate.issuedAt).None?
    requires jwt in marks.at && Rivals(marks.at[jwt], candidate)
    ensures EndsBefore(marks.at[jwt], candidate)
  {
    hide GetValid;
    FiledDistinct(marks);
    GetValidIsNewest(Values(marks), candidate.markType, candidate.subject, candidate.issuedAt);
    ValuesMembers(marks, marks.at[jwt]);
    assert !OfTypeFor(candidate.markType, candidate.subject, candidate.issuedAt)(marks.at[jwt]);
  }

  lemma IssueKeepsOrder(s: State, candidate: Mark)
    requires Orderly(s) && Issued(s, candidate).Some?
    ensures Orderly(Issued(s, candidate).value.0)
  {
    hide GetValid;
    var marks := s.marks.value;
    var s' := Issued(s, candidate).value.0;
    if s'.marks != s.marks {
      var now := s'.marks.value.at;
      assert now == marks.at[candidate.jwt := candidate];
      forall j, k | j in now && k in now && j != k && Rivals(now[j], now[k])
        ensures EndsBefore(now[j], now[k]) || EndsBefore(now[k], now[j])
      {
        if j == candidate.jwt {
          NoWinnerNoRival(marks, candidate, k);
        } else if k == candidate.jwt {
          NoWinnerNoRival(marks, candidate, j);
        }
      }
    }
  }

  lemma RevokeKeepsOrder(s: State, markType: Str, subject: Str, at: int)
    requires Orderly(s) && RevokeMarks(s, markType, subject, at).Some?
    ensures Orderly(RevokeMarks(s, markType, subject, at).value)
  {
    var before, after := s.marks.value.at, RevokeMarks(s, markType, subject, at).value.marks.value.at;
    forall j, k | j in after && k in after && j != k && Rivals(after[j], after[k])
      ensures EndsBefore(after[j], after[k]) || EndsBefore(after[k], after[j])
    {
      assert after[j] == before[j] && after[k] == before[k];
    }
  }

  lemma LifecycleLeavesMarks(ctx: Context, op: Operation, s: State, seen: seq<int>)
    requires !op.Issue? && !op.RevokeMark?
    ensures Effect(ctx, op, s, seen).marks == s.marks
  {
    hide UpdateNames;
  }

  lemma EffectKeepsOrder(ctx: Context, op: Operation, s: State, seen: seq<int>)
    requires Orderly(s)
    ensures Orderly(Effect(ctx, op, s, seen))
  {
    hide Orderly, Issued, RevokeMarks;
    if op.Issue? {
      if Issued(s, op.candidate).Some? {
        IssueKeepsOrder(s, op.candidate);
      }
    } else if op.RevokeMark? {
      if RevokeMarks(s, op.markType, op.subject, op.at).Some? {
        RevokeKeepsOrder(s, op.markType, op.subject, op.at);
      }
    } else {
      LifecycleLeavesMarks(ctx, op, s, seen);
      SameMarksOrderly(s, Effect(ctx, op, s, seen));
    }
  }

  lemma SameMarksOrderly(s: State, s': State)
    requires Orderly(s) && s'.marks == s.marks
    ensures Orderly(s')
  {
  }

  lemma CallKeepsOrder(ctx: Context, op: Operation)
    ensures A.Preserves(CallOf(ctx, op), (s: State) => Orderly(s))
  {
    hide Orderly, A.Atomic, Effect;
    forall s, seen | Orderly(s)
      ensures Orderly(A.Atomic(CallOf(ctx, op), s, seen).0)
    {
      TurnsMakeEffect(ctx, op, s, seen);
      EffectKeepsOrder(ctx, op, s, seen);
    }
  }

  /** Under any interleaving of issuances, revocations and lifecycle calls, in every state
      anyone can read the active marks of one type and subject are disjoint in time. */
  lemma EveryReadNoOverlap(ctx: Context, s0: State, trace: seq<A.System<State, Local, Reply>>,
                           es: seq<A.Event<State, Local, Reply>>, ops: seq<Operation>, k: nat)
    requires A.Run(s0, trace, es) && k < |trace| && Orderly(s0)
    requires |ops| == |trace[|es|].tickets|
    requires forall i :: 0 <= i < |ops| ==> trace[|es|].tickets[i].call == CallOf(ctx, ops[i])
    ensures trace[k].state.marks.Some? ==> NoOverlap(trace[k].state.marks.value.at)
  {
    var inv := (s: State) => Orderly(s);
    forall i | 0 <= i < |ops|
      ensures A.Preserves(trace[|es|].tickets[i].call, inv)
    {
      CallKeepsOrder(ctx, ops[i]);
    }
    A.InvariantOfEveryRead(s0, trace, es, inv, k);
  }

  /** The answered mark is on file as answered, and valid at the time it was asked for. */
  predicate OnFile(s: State, m: Mark, t: int) {
    s.marks.Some? && m.jwt in s.marks.value.at && s.marks.value.at[m.jwt] == m && IsValidAt(m, t)
  }

  /** The answer is on file exactly when a valid mark was found or the freshly signed token
      was not yet in the store: a stored twin, revoked since, is left revoked. */
  lemma AnswerOnFile(s: State, markType: Str, subject: Str, jwt: Str, now: int, ttl: int)
    requires Orderly(s) && s.marks.Some? && ttl > 0
    ensures var candidate := Candidate(markType, subject, jwt, now, ttl);
            var answer := Issued(s, candidate);
            && answer.Some?
            && (OnFile(answer.value.0, answer.value.1, now) <==>
                GetValid(Values(s.marks.value), markType, subject, now).Some? || jwt !in s.marks.value.at)
  {
    hide GetValid;
    var candidate := Candidate(markType, subject, jwt, now, ttl);
    var marks := s.marks.value;
    FiledDistinct(marks);
    GetValidIsNewest(Values(marks), markType, subject, now);
    if GetValid(Values(marks), markType, subject, now).Some? {
      ValuesMembers(marks, GetValid(Values(marks), markType, subject, now).value);
    } else if jwt in marks.at {
      ValuesMembers(marks, marks.at[jwt]);
      assert !OfTypeFor(markType, subject, now)(marks.at[jwt]);
    }
  }

  /** A revoked twin of the token just signed: the answer is not on file. */
  lemma RevokedTwinExample()
    ensures var twin := Mark([1], [2], [3], 0, Some(10), false, Some(5));
            var s := State(Empty(), None, Some(OMap([[3]], map[[3] := twin])));
            var answer := Issued(s, Candidate([1], [2], [3], 0, 10));
            answer.Some? && answer.value.1.active && answer.value.0 == s && !OnFile(answer.value.0, answer.value.1, 0)
  {
    var twin := Mark([1], [2], [3], 0, Some(10), false, Some(5));
    var marks: OMap<Str, Mark> := OMap([[3]], map[[3] := twin]);
    var s := State(Empty(), None, Some(marks));
    assert marks.at[[3]].jwt == [3];
    AnswerOnFile(s, [1], [2], [3], 0, 10);
    FiledDistinct(marks);
    GetValidIsNewest(Values(marks), [1], [2], 0);
    assert Values(marks) == [twin];
  }

  /** In every run, a settled issuance answered what its transaction chose from the serial
      state before it, and left the serial state that choice leaves. */
  lemma AnswerOfRun(ctx: Context, s0: State, trace: seq<A.System<State, Local, Reply>>,
                    es: seq<A.Event<State, Local, Reply>>, candidate: Mark, i: nat)
    requires A.Run(s0, trace, es) && i < |trace[|es|].tickets|
    requires trace[|es|].tickets[i].call == CallOf(ctx, Issue(candidate))
    requires trace[|es|].tickets[i].phase.Settled? && trace[|es|].tickets[i].phase.outcome.Value?
    ensures var before, after := A.Serial(s0, trace[|es|].tickets[..i]), A.Serial(s0, trace[|es|].tickets[..i + 1]);
            && Issued(before, candidate).Some?
            && after == Issued(before, candidate).value.0
            && trace[|es|].tickets[i].phase.outcome.value == Chosen(Issued(before, candidate).value.1)
  {
    hide A.Onward, Issued;
    var at := A.Serializable(s0, trace, es);
    var ts := trace[|es|].tickets;
    assert A.Answered(s0, ts, i);
    assert ts[..i + 1][..i] == ts[..i];
    var before, op := A.Serial(s0, ts[..i]), Issue(candidate);
    A.BodyIsOnward(CallOf(ctx, op), before, ts[i].phase.seen);
    IssueTurns(ctx, op, before, ts[i].phase.seen);
  }

  lemma SerialKeepsOrder(ctx: Context, s0: State, ts: seq<A.Ticket<State, Local, Reply>>, ops: seq<Operation>)
    requires Orderly(s0) && |ops| == |ts| && forall i :: 0 <= i < |ts| ==> ts[i].call == CallOf(ctx, ops[i])
    ensures Orderly(A.Serial(s0, ts))
  {
    var inv := (s: State) => Orderly(s);
    forall i | 0 <= i < |ts|
      ensures A.Preserves(ts[i].call, inv)
    {
      CallKeepsOrder(ctx, ops[i]);
    }
    A.SerialInvariant(s0, ts, inv);
  }

  /** Under any interleaving, the mark a settled issuance answered is stored and valid in the
      state its transaction commits, the state of moment k, if and only if a valid mark was found there or the token
      just signed was not yet stored. */
  lemma AnswerOnFileInRun(ctx: Context, s0: State, trace: seq<A.System<State, Local, Reply>>,
                          es: seq<A.Event<State, Local, Reply>>, ops: seq<Operation>, i: nat,
                          markType: Str, subject: Str, jwt: Str, now: int, ttl: int) returns (k: nat)
    requires A.Run(s0, trace, es) && Orderly(s0) && ttl > 0
    requires |ops| == |trace[|es|].tickets| && forall j :: 0 <= j < |ops| ==>
             trace[|es|].tickets[j].call == CallOf(ctx, ops[j])
    requires i < |ops| && ops[i] == Issue(Candidate(markType, subject, jwt, now, ttl))
    requires trace[|es|].tickets[i].phase.Settled? && trace[|es|].tickets[i].phase.outcome.Value?
    ensures var ts := trace[|es|].tickets;
            var before, after, answer := A.Serial(s0, ts[..i]), A.Serial(s0, ts[..i + 1]), ts[i].phase.outcome.value;
            && answer.Chosen? && before.marks.Some? && k < |trace| && trace[k].state == after
            && (OnFile(after, answer.mark, now) <==>
                GetValid(Values(before.marks.value), markType, subject, now).Some? || jwt !in before.marks.value.at)
  {
    hide GetValid, Orderly, A.Serial, A.Apply, A.Enabled, Issued;
    var ts := trace[|es|].tickets;
    AnswerOfRun(ctx, s0, trace, es, Candidate(markType, subject, jwt, now, ttl), i);
    SerialKeepsOrder(ctx, s0, ts[..i], ops[..i]);
    IssuedNeedsMarks(A.Serial(s0, ts[..i]), Candidate(markType, subject, jwt, now, ttl));
    AnswerOnFile(A.Serial(s0, ts[..i]), markType, subject, jwt, now, ttl);
    var at := A.Serializable(s0, trace, es);
    k := A.GradualReaches(at, i + 1);
  }

  lemma IssuedNeedsMarks(s: State, candidate: Mark)
    requires Issued(s, candidate).Some?
    ensures s.marks.Some?
  {
    hide GetValid;
  }
}
