/** What is on file told by the calls alone: every field of a record by the latest call that
    named it, every trust mark by the issuance that filed it and the revocation that ended it. */
module Accounts {
  import opened Options
  import opened Text
  import opened OrderedMaps
  import opened Canonical
  import opened Store
  import opened TrustMarks
  import opened AuthorityCalls
  import opened Lifecycle
  import opened TrustMarkIssuance
  import A = Adapter

  // ------------------------------------------------- records

  datatype Field = Keys | Metadata | Policy | Types | Intermediate | Rest

  datatype Content = OfKeys(keys: seq<Json>) | OfJson(json: Json) | OfTypes(types: Option<seq<Str>>)
                   | OfFlag(flag: Option<bool>)

  function Held(r: Record, f: Field): Content {
    match f
    case Keys => OfKeys(r.jwks)
    case Metadata => OfJson(r.metadata)
    case Policy => OfJson(r.metadataPolicy)
    case Types => OfTypes(r.entityTypes)
    case Intermediate => OfFlag(r.intermediate)
    case Rest => OfJson(r.rest)
  }

  function Naming<T>(named: Option<T>, content: T -> Content): Option<Content> {
    if named.Some? then Some(content(named.value)) else None
  }

  /** What a call says of a field. A registration says something of every field; metadata is
      sanitized on its way in. */
  function Named(ctx: Context, op: Operation, f: Field): Option<Content> {
    match op
    case Register(r) =>
      Some(if f.Metadata? && !r.metadata.JUndefined? then OfJson(ctx.sanitize(r.metadata)) else Held(r, f))
    case Update(_, p) =>
      (match f
       case Keys => Naming(p.jwks, (v: seq<Json>) => OfKeys(v))
       case Metadata => Naming(p.metadata, (v: Json) => OfJson(ctx.sanitize(v)))
       case Policy => Naming(p.metadataPolicy, (v: Json) => OfJson(v))
       case Types => Naming(p.entityTypes, (v: Option<seq<Str>>) => OfTypes(v))
       case Intermediate => Naming(p.intermediate, (v: Option<bool>) => OfFlag(v))
       case Rest => Naming(p.rest, (v: Json) => OfJson(v)))
    case _ => None
  }

  /** The subject whose record the operation writes or removes. */
  function Target(op: Operation): Option<Str> {
    match op
    case Register(r) => Some(r.entityId)
    case Update(subject, _) => Some(subject)
    case RevokeSubordinate(subject) => Some(subject)
    case _ => None
  }

  ghost predicate Reached(ctx: Context, s: State, c: Call, subject: Str) {
    Target(c.op) == Some(subject) && Succeeds(ctx, c.op, s, c.seen)
  }

  /** What the latest successful call that names the field of this subject says of it. */
  ghost function LatestNamed(ctx: Context, s0: State, calls: seq<Call>, subject: Str, f: Field): Option<Content> {
    if calls == [] then None
    else
      var n := |calls| - 1;
      if Reached(ctx, Play(ctx, s0, calls[..n]), calls[n], subject) && Named(ctx, calls[n].op, f).Some?
      then Named(ctx, calls[n].op, f)
      else LatestNamed(ctx, s0, calls[..n], subject, f)
  }

  /** When the latest successful registration or update of this subject was stored. */
  ghost function LatestStoring(ctx: Context, s0: State, calls: seq<Call>, subject: Str): Option<int> {
    if calls == [] then None
    else
      var n := |calls| - 1;
      if !Reached(ctx, Play(ctx, s0, calls[..n]), calls[n], subject) then LatestStoring(ctx, s0, calls[..n], subject)
      else
        match calls[n].op
        case Register(_) => Some(calls[n].seen[0])
        case Update(_, _) => Some(calls[n].seen[1])
        case _ => LatestStoring(ctx, s0, calls[..n], subject)
  }

  /** When the latest successful registration of this subject was made; nothing once the
      subject was revoked after it. */
  ghost function Enrolled(ctx: Context, s0: State, calls: seq<Call>, subject: Str): Option<int> {
    if calls == [] then None
    else
      var n := |calls| - 1;
      if !Reached(ctx, Play(ctx, s0, calls[..n]), calls[n], subject) then Enrolled(ctx, s0, calls[..n], subject)
      else
        match calls[n].op
        case Register(_) => Some(calls[n].seen[0])
        case RevokeSubordinate(_) => None
        case _ => Enrolled(ctx, s0, calls[..n], subject)
  }

  /** The record of a subject after a call that reached it with something to store. */
  ghost predicate StoredBy(ctx: Context, c: Call, before: map<Str, Record>, after: map<Str, Record>, subject: Str)
    requires (c.op.Register? && |c.seen| >= 1) || (c.op.Update? && |c.seen| >= 2 && subject in before)
  {
    && subject in after
    && after[subject].entityId == (if c.op.Register? then subject else before[subject].entityId)
    && after[subject].createdAt == (if c.op.Register? then c.seen[0] else before[subject].createdAt)
    && after[subject].updatedAt == (if c.op.Register? then c.seen[0] else c.seen[1])
    && forall f :: Held(after[subject], f) ==
         if Named(ctx, c.op, f).Some? then Named(ctx, c.op, f).value else Held(before[subject], f)
  }

  ghost predicate Unmoved(before: map<Str, Record>, after: map<Str, Record>, subject: Str) {
    (subject in after <==> subject in before) && (subject in after ==> after[subject] == before[subject])
  }

  lemma RegisterStores(ctx: Context, s: State, c: Call, subject: Str)
    requires c.op.Register?
    ensures var before, after := s.subordinates.at, Effect(ctx, c.op, s, c.seen).subordinates.at;
            if Reached(ctx, s, c, subject) then StoredBy(ctx, c, before, after, subject)
            else Unmoved(before, after, subject)
  {
    hide Logged;
    LoggingLeavesTable(ctx);
  }

  lemma UpdateStores(ctx: Context, s: State, c: Call, subject: Str)
    requires c.op.Update?
    ensures var before, after := s.subordinates.at, Effect(ctx, c.op, s, c.seen).subordinates.at;
            if Reached(ctx, s, c, subject) then StoredBy(ctx, c, before, after, subject)
            else Unmoved(before, after, subject)
  {
    hide Logged, UpdateNames, Events;
    LoggingLeavesTable(ctx);
  }

  lemma RevokeRemoves(ctx: Context, s: State, c: Call, subject: Str)
    requires c.op.RevokeSubordinate?
    ensures var before, after := s.subordinates.at, Effect(ctx, c.op, s, c.seen).subordinates.at;
            if Reached(ctx, s, c, subject) then subject !in after else Unmoved(before, after, subject)
  {
    hide Logged;
    LoggingLeavesTable(ctx);
  }

  /** What one call does to the record of a subject. */
  lemma RecordStep(ctx: Context, s: State, c: Call, subject: Str)
    ensures var before, after := s.subordinates.at, Effect(ctx, c.op, s, c.seen).subordinates.at;
            if !Reached(ctx, s, c, subject) then Unmoved(before, after, subject)
            else if c.op.RevokeSubordinate? then subject !in after
            else StoredBy(ctx, c, before, after, subject)
  {
    match c.op
    case Register(_) =>
      hide Effect, StoredBy;
      RegisterStores(ctx, s, c, subject);
    case Update(_, _) =>
      hide Effect, StoredBy;
      UpdateStores(ctx, s, c, subject);
    case RevokeSubordinate(_) =>
      hide Effect;
      RevokeRemoves(ctx, s, c, subject);
    case _ =>
      hide Effect;
      OthersLeaveTable(ctx, s, c);
  }

  lemma LoggingLeavesTable(ctx: Context)
    ensures forall s: State, subject, es :: Logged(ctx, s, subject, es).subordinates == s.subordinates
  {
  }

  /** Over every run from an empty table a subject has a record exactly while its latest
      registration was not followed by a revocation, and then every field of the record is
      what the latest successful call naming it said, which is the registration if no update
      since named it. */
  lemma {:induction false} RecordIsTold(ctx: Context, s0: State, calls: seq<Call>, subject: Str)
    requires s0.subordinates == Empty()
    ensures var at := Play(ctx, s0, calls).subordinates.at;
            && (subject in at <==> Enrolled(ctx, s0, calls, subject).Some?)
            && (subject in at ==>
                  && at[subject].entityId == subject
                  && (forall f :: LatestNamed(ctx, s0, calls, subject, f) == Some(Held(at[subject], f)))
                  && LatestStoring(ctx, s0, calls, subject) == Some(at[subject].updatedAt)
                  && Enrolled(ctx, s0, calls, subject) == Some(at[subject].createdAt))
  {
    if calls != [] {
      hide Effect, Succeeds, Named, Held;
      var n := |calls| - 1;
      RecordIsTold(ctx, s0, calls[..n], subject);
      RecordStep(ctx, Play(ctx, s0, calls[..n]), calls[n], subject);
      if calls[n].op.Register? {
        assert forall f :: Named(ctx, calls[n].op, f).Some? by { RegisterNamesAll(ctx, calls[n].op); }
      }
    }
  }

  lemma RegisterNamesAll(ctx: Context, op: Operation)
    requires op.Register?
    ensures forall f :: Named(ctx, op, f).Some?
  {
  }

  // ------------------------------------------------- marks

  /** A mark with its revocation, if it has one. */
  function AsOf(m: Mark, revoked: Option<int>): Mark {
    match revoked
    case None => m
    case Some(t) => Mark(m.markType, m.subject, m.jwt, m.issuedAt, m.expiresAt, false, Some(t))
  }

  /** The call files this token. */
  ghost predicate Files(ctx: Context, s: State, c: Call, jwt: Str) {
    c.op.Issue? && c.op.candidate.jwt == jwt && Answer(ctx, c.op, s, c.seen) == A.Value(Chosen(c.op.candidate))
  }

  /** The candidate of the first issuance that answered it under this token. */
  ghost function Filed(ctx: Context, s0: State, calls: seq<Call>, jwt: Str): Option<Mark> {
    if calls == [] then None
    else
      var n := |calls| - 1;
      var s, c, before := Play(ctx, s0, calls[..n]), calls[n], Filed(ctx, s0, calls[..n], jwt);
      if before.None? && Files(ctx, s, c, jwt) then Some(c.op.candidate) else before
  }

  predicate Ends(op: Operation, m: Mark) {
    op.RevokeMark? && op.markType == m.markType && op.subject == m.subject
  }

  /** The time of the first successful revocation of the mark's type and subject since it was
      filed active. */
  ghost function Ended(ctx: Context, s0: State, calls: seq<Call>, jwt: Str): Option<int> {
    if calls == [] then None
    else
      var n := |calls| - 1;
      var s, c, m := Play(ctx, s0, calls[..n]), calls[n], Filed(ctx, s0, calls[..n], jwt);
      var before := Ended(ctx, s0, calls[..n], jwt);
      if before.None? && m.Some? && m.value.active && Ends(c.op, m.value)
          && Succeeds(ctx, c.op, s, c.seen)
      then Some(c.op.at)
      else before
  }

  /** What one call does to the mark under a token. */
  lemma MarkStep(ctx: Context, s: State, c: Call, jwt: Str)
    requires s.marks.Some? && ValidState(s)
    ensures Effect(ctx, c.op, s, c.seen).marks.Some?
    ensures var before, after := s.marks.value.at, Effect(ctx, c.op, s, c.seen).marks.value.at;
            && (jwt in after <==> jwt in before || Files(ctx, s, c, jwt))
            && (jwt in after ==>
                  after[jwt] == if jwt !in before then c.op.candidate
                                else if before[jwt].active && Ends(c.op, before[jwt]) && |c.seen| >= 1
                                then AsOf(before[jwt], Some(c.op.at))
                                else before[jwt])
  {
    hide UpdateNames, GetValid, AddRecord, UpdateRecord, RemoveRecord, AppendEvents, Events;
    match c.op
    case Issue(m) =>
      var marks := s.marks.value;
      FiledDistinct(marks);
      GetValidIsNewest(Values(marks), m.markType, m.subject, m.issuedAt);
      var winner := GetValid(Values(marks), m.markType, m.subject, m.issuedAt);
      if winner.Some? {
        ValuesMembers(marks, winner.value);
      }
    case RevokeMark(_, _, _) =>
      assert jwt in s.marks.value.at && Revocable(s.marks.value.at[jwt], c.op.markType, c.op.subject) ==>
             AnyRevocable(s.marks.value, c.op.markType, c.op.subject);
    case _ => LifecycleLeavesMarks(ctx, c.op, s, c.seen);
  }

  /** A revocation that finds an active mark of its type and subject succeeds. */
  lemma EndsSucceeds(ctx: Context, s: State, c: Call, jwt: Str)
    requires s.marks.Some? && jwt in s.marks.value.at && s.marks.value.at[jwt].active
    requires Ends(c.op, s.marks.value.at[jwt])
    ensures Succeeds(ctx, c.op, s, c.seen) <==> |c.seen| >= 1
  {
  }

  lemma {:induction false} PlayValid(ctx: Context, s0: State, calls: seq<Call>)
    requires ValidState(s0)
    ensures ValidState(Play(ctx, s0, calls)) && Play(ctx, s0, calls).marks.Some? == s0.marks.Some?
  {
    if calls != [] {
      hide Effect, ValidState;
      var n := |calls| - 1;
      PlayValid(ctx, s0, calls[..n]);
      EffectKeepsValid(ctx, calls[n].op, Play(ctx, s0, calls[..n]), calls[n].seen);
    }
  }

  /** Over every run from an empty mark store a token is on file exactly when an issuance
      answered it as its own, and the mark is as that issuance signed it, ended by the first
      successful revocation of its type and subject since. */
  lemma {:induction false} MarkIsTold(ctx: Context, s0: State, calls: seq<Call>, jwt: Str)
    requires ValidState(s0) && s0.marks == Some(Empty())
    ensures var marks := Play(ctx, s0, calls).marks;
            && marks.Some?
            && (jwt in marks.value.at <==> Filed(ctx, s0, calls, jwt).Some?)
            && (jwt in marks.value.at ==>
                marks.value.at[jwt] == AsOf(Filed(ctx, s0, calls, jwt).value, Ended(ctx, s0, calls, jwt)))
    ensures Filed(ctx, s0, calls, jwt).None? ==> Ended(ctx, s0, calls, jwt).None?
    ensures Filed(ctx, s0, calls, jwt).Some? && !Filed(ctx, s0, calls, jwt).value.active ==>
            Ended(ctx, s0, calls, jwt).None?
  {
    if calls != [] {
      hide Effect, Answer, ValidState, Succeeds;
      var n := |calls| - 1;
      var s := Play(ctx, s0, calls[..n]);
      MarkIsTold(ctx, s0, calls[..n], jwt);
      PlayValid(ctx, s0, calls[..n]);
      MarkStep(ctx, s, calls[n], jwt);
      if jwt in s.marks.value.at && s.marks.value.at[jwt].active && Ends(calls[n].op, s.marks.value.at[jwt]) {
        EndsSucceeds(ctx, s, calls[n], jwt);
      }
    }
  }

  /** The calls filed this mark, none ended it, and at t it answers the question. */
  ghost predicate Stands(ctx: Context, s0: State, calls: seq<Call>, m: Mark, markType: Str, subject: Str, t: int) {
    && Filed(ctx, s0, calls, m.jwt) == Some(m) && Ended(ctx, s0, calls, m.jwt).None?
    && Answers(m, markType, subject, t)
  }

  lemma StandsOnFile(ctx: Context, s0: State, calls: seq<Call>, m: Mark, markType: Str, subject: Str, t: int)
    requires ValidState(s0) && s0.marks == Some(Empty())
    ensures Play(ctx, s0, calls).marks.Some?
    ensures Stands(ctx, s0, calls, m, markType, subject, t) <==>
            m in Values(Play(ctx, s0, calls).marks.value) && Answers(m, markType, subject, t)
  {
    MarkIsTold(ctx, s0, calls, m.jwt);
    PlayValid(ctx, s0, calls);
    hide Play, Filed, Ended;
    var marks := Play(ctx, s0, calls).marks.value;
    ValuesMembers(marks, m);
    assert m in Values(marks) <==> m.jwt in marks.at && marks.at[m.jwt] == m;
  }

  /** Over every run the valid mark of a type and subject is the newest of those that stand, by
      time of issuance and then by token, and there is none exactly when none stands. */
  lemma ValidIsTold(ctx: Context, s0: State, calls: seq<Call>, markType: Str, subject: Str, t: int)
    requires ValidState(s0) && s0.marks == Some(Empty())
    ensures var marks := Play(ctx, s0, calls).marks;
            && marks.Some?
            && (forall m :: GetValid(Values(marks.value), markType, subject, t) == Some(m) <==>
                  Stands(ctx, s0, calls, m, markType, subject, t)
                  && forall n :: Stands(ctx, s0, calls, n, markType, subject, t) && n != m ==> Beats(m, n))
            && (GetValid(Values(marks.value), markType, subject, t).None? <==>
                  !exists m :: Stands(ctx, s0, calls, m, markType, subject, t))
  {
    hide Play, GetValid, Stands, Answers, Beats;
    PlayValid(ctx, s0, calls);
    var marks := Play(ctx, s0, calls).marks.value;
    FiledDistinct(marks);
    GetValidIs(Values(marks), markType, subject, t);
    forall m
      ensures Stands(ctx, s0, calls, m, markType, subject, t) <==>
              m in Values(marks) && Answers(m, markType, subject, t)
    {
      StandsOnFile(ctx, s0, calls, m, markType, subject, t);
    }
  }

  // ------------------------------------------------- what a revocation does

  ghost predicate OfPair(m: Mark, markType: Str, subject: Str) {
    m.markType == markType && m.subject == subject
  }

  /** The mark after a revocation of the pair. */
  ghost function RevokedIn(m: Mark, markType: Str, subject: Str, at: int): Mark {
    if OfPair(m, markType, subject) && m.active then AsOf(m, Some(at)) else m
  }

  /** Two stores with the same valid marks of a type and subject answer the same. */
  lemma SameAnswer(a: OMap<Str, Mark>, b: OMap<Str, Mark>, markType: Str, subject: Str, t: int)
    requires forall k :: k in a.at ==> a.at[k].jwt == k
    requires forall k :: k in b.at ==> b.at[k].jwt == k
    requires forall k :: k in a.at && OfPair(a.at[k], markType, subject) ==> k in b.at && b.at[k] == a.at[k]
    requires forall k :: k in b.at && OfPair(b.at[k], markType, subject) ==> k in a.at && a.at[k] == b.at[k]
    ensures GetValid(Values(a), markType, subject, t) == GetValid(Values(b), markType, subject, t)
  {
    hide GetValid, Newer, IsValidAt;
    var p := OfTypeFor(markType, subject, t);
    FiledDistinct(a);
    FiledDistinct(b);
    GetValidIsNewest(Values(a), markType, subject, t);
    GetValidIsNewest(Values(b), markType, subject, t);
    forall m
      ensures m in Values(a) && p(m) <==> m in Values(b) && p(m)
    {
      ValuesMembers(a, m);
      ValuesMembers(b, m);
    }
    var x, y := GetValid(Values(a), markType, subject, t), GetValid(Values(b), markType, subject, t);
    if x.Some? && y.Some? {
      NewestUnique(x.value, y.value, Values(a), p);
    }
  }

  lemma NoneValid(marks: OMap<Str, Mark>, markType: Str, subject: Str, t: int)
    requires forall k :: k in marks.at ==> marks.at[k].jwt == k
    requires forall k :: k in marks.at && OfPair(marks.at[k], markType, subject) ==> !marks.at[k].active
    ensures GetValid(Values(marks), markType, subject, t) == None
  {
    hide GetValid, Newer;
    FiledDistinct(marks);
    GetValidIsNewest(Values(marks), markType, subject, t);
    if GetValid(Values(marks), markType, subject, t).Some? {
      ValuesMembers(marks, GetValid(Values(marks), markType, subject, t).value);
    }
  }

  /** A successful revocation leaves no valid mark of its type and subject at any time, with
      every mark it ended on file as it was but inactive and dated; what the store answers for
      other types and subjects, and every other mark on file, is as before. */
  lemma RevocationRevokes(ctx: Context, s: State, markType: Str, subject: Str, at: int, seen: seq<int>)
    requires ValidState(s) && Succeeds(ctx, RevokeMark(markType, subject, at), s, seen)
    ensures var after := Effect(ctx, RevokeMark(markType, subject, at), s, seen).marks;
            var before := s.marks.value;
            && after.Some?
            && (forall t :: GetValid(Values(after.value), markType, subject, t) == None)
            && (forall ty, id, t :: ty != markType || id != subject ==>
                  GetValid(Values(after.value), ty, id, t) == GetValid(Values(before), ty, id, t))
            && (forall jwt :: jwt in after.value.at <==> jwt in before.at)
            && (forall jwt :: jwt in before.at ==>
                  after.value.at[jwt] == RevokedIn(before.at[jwt], markType, subject, at))
  {
    var c := Call(RevokeMark(markType, subject, at), seen);
    var after, before := Effect(ctx, c.op, s, c.seen), s.marks.value;
    EffectKeepsValid(ctx, c.op, s, c.seen);
    forall jwt
      ensures after.marks.Some? && (jwt in after.marks.value.at <==> jwt in before.at)
      ensures jwt in before.at ==> after.marks.value.at[jwt] == RevokedIn(before.at[jwt], markType, subject, at)
    {
      MarkStep(ctx, s, c, jwt);
    }
    hide GetValid, Effect, Succeeds;
    forall t
      ensures GetValid(Values(after.marks.value), markType, subject, t) == None
    {
      NoneValid(after.marks.value, markType, subject, t);
    }
    forall ty, id, t | ty != markType || id != subject
      ensures GetValid(Values(after.marks.value), ty, id, t) == GetValid(Values(before), ty, id, t)
    {
      SameAnswer(after.marks.value, before, ty, id, t);
    }
  }

  /** An inactive mark stays on file as it is. */
  lemma {:induction false} InactiveStays(ctx: Context, s: State, calls: seq<Call>, jwt: Str)
    requires ValidState(s) && s.marks.Some? && jwt in s.marks.value.at && !s.marks.value.at[jwt].active
    ensures var marks := Play(ctx, s, calls).marks;
            marks.Some? && jwt in marks.value.at && marks.value.at[jwt] == s.marks.value.at[jwt]
  {
    if calls != [] {
      hide Effect, ValidState, Answer;
      var n := |calls| - 1;
      InactiveStays(ctx, s, calls[..n], jwt);
      PlayValid(ctx, s, calls[..n]);
      MarkStep(ctx, Play(ctx, s, calls[..n]), calls[n], jwt);
    }
  }

  /** Over every run: a mark that was on file when its type and subject were revoked stays on
      file and is never valid again. */
  lemma RevokedForGood(ctx: Context, s: State, c: Call, later: seq<Call>, jwt: Str, t: int)
    requires ValidState(s) && c.op.RevokeMark? && Succeeds(ctx, c.op, s, c.seen)
    requires jwt in s.marks.value.at && OfPair(s.marks.value.at[jwt], c.op.markType, c.op.subject)
    ensures var marks := Play(ctx, Play(ctx, s, [c]), later).marks;
            marks.Some? && jwt in marks.value.at && !IsValidAt(marks.value.at[jwt], t)
  {
    var after := Effect(ctx, c.op, s, c.seen);
    assert [c][..0] == [] && Play(ctx, s, []) == s;
    assert Play(ctx, s, [c]) == after;
    EffectKeepsValid(ctx, c.op, s, c.seen);
    MarkStep(ctx, s, c, jwt);
    hide Effect;
    InactiveStays(ctx, after, later, jwt);
  }

  // ------------------------------------------------- through the queue

  /** Whatever the interleaving of clients, in every state anyone can read records and marks
      are what some prefix of the calls, in order of arrival, tells. */
  lemma EveryReadIsTold(ctx: Context, s0: State, trace: seq<A.System<State, Local, Reply>>,
                        es: seq<A.Event<State, Local, Reply>>, ops: seq<Operation>, k: nat)
    returns (calls: seq<Call>)
    requires Fresh(s0) && s0.marks == Some(Empty())
    requires A.Run(s0, trace, es) && Asked(ctx, trace[|es|].tickets, ops) && k < |trace|
    ensures |calls| <= |ops| && forall i :: 0 <= i < |calls| ==> calls[i].op == ops[i]
    ensures trace[k].state == Play(ctx, s0, calls)
    ensures forall subject :: subject in trace[k].state.subordinates.at <==>
              Enrolled(ctx, s0, calls, subject).Some?
    ensures forall subject, f :: subject in trace[k].state.subordinates.at ==>
              LatestNamed(ctx, s0, calls, subject, f) == Some(Held(trace[k].state.subordinates.at[subject], f))
    ensures trace[k].state.marks.Some?
    ensures forall jwt :: jwt in trace[k].state.marks.value.at <==> Filed(ctx, s0, calls, jwt).Some?
    ensures forall jwt :: jwt in trace[k].state.marks.value.at ==>
              AsOf(Filed(ctx, s0, calls, jwt).value, Ended(ctx, s0, calls, jwt)) == trace[k].state.marks.value.at[jwt]
  {
    hide A.Run, Asked, Play, InStep, Kept, Enrolled, LatestNamed, Filed, Ended;
    calls := EveryReadInStep(ctx, s0, trace, es, ops, k, []);
    forall subject
      ensures subject in trace[k].state.subordinates.at <==> Enrolled(ctx, s0, calls, subject).Some?
      ensures subject in trace[k].state.subordinates.at ==> forall f ::
              LatestNamed(ctx, s0, calls, subject, f) == Some(Held(trace[k].state.subordinates.at[subject], f))
    {
      RecordIsTold(ctx, s0, calls, subject);
    }
    forall jwt
      ensures trace[k].state.marks.Some?
      ensures jwt in trace[k].state.marks.value.at <==> Filed(ctx, s0, calls, jwt).Some?
      ensures jwt in trace[k].state.marks.value.at ==>
              AsOf(Filed(ctx, s0, calls, jwt).value, Ended(ctx, s0, calls, jwt)) == trace[k].state.marks.value.at[jwt]
    {
      MarkIsTold(ctx, s0, calls, jwt);
    }
    MarkIsTold(ctx, s0, calls, []);
  }
}
