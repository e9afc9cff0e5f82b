/** What the authority asks of its storage, as calls on the adapter's queue: the four
    lifecycle operations, the transaction of trust-mark issuance and mark revocation.
    Each transaction is written turn by turn, an await ending a turn. */
module AuthorityCalls {
  import opened Options
  import opened Text
  import opened OrderedMaps
  import opened Canonical
  import opened PublicKeys
  import opened Store
  import TrustMarks
  import A = Adapter

  const REGISTRATION: Str := [0x72, 0x65, 0x67, 0x69, 0x73, 0x74, 0x72, 0x61, 0x74, 0x69, 0x6F, 0x6E]
  const REVOCATION: Str := [0x72, 0x65, 0x76, 0x6F, 0x63, 0x61, 0x74, 0x69, 0x6F, 0x6E]
  const METADATA_UPDATE: Str := [0x6D, 0x65, 0x74, 0x61, 0x64, 0x61, 0x74, 0x61, 0x5F, 0x75, 0x70, 0x64, 0x61, 0x74,
                                 0x65]
  const METADATA_POLICY_UPDATE: Str := [0x6D, 0x65, 0x74, 0x61, 0x64, 0x61, 0x74, 0x61, 0x5F, 0x70, 0x6F, 0x6C, 0x69,
                                        0x63, 0x79, 0x5F, 0x75, 0x70, 0x64, 0x61, 0x74, 0x65]
  const JWKS_UPDATE: Str := [0x6A, 0x77, 0x6B, 0x73, 0x5F, 0x75, 0x70, 0x64, 0x61, 0x74, 0x65]

  /** The authority's identifier and the helpers its operations call. */
  datatype Context = Context(issuer: Str, sanitize: Json -> Json, valid: Json -> bool, strip: Json -> Json)

  /** Where a transaction callback stands between two awaits. */
  datatype Local =
    | RegisterAdd(record: Record)
    | RegisterAppend(subject: Str, iat: int)
    | UpdateRead(subject: Str, patch: Patch)
    | UpdateWrite(subject: Str, patch: Patch, before: Record)
    | UpdateCompare(subject: Str, before: Record)
    | RevokeRemove(subject: Str)
    | RevokeAppend(subject: Str)
    | RecordEvents(subject: Str, events: seq<HistoryEvent>)
    | IssueCheck(candidate: Mark)
    | IssueStore(candidate: Mark)

  datatype Reply = Nothing | Chosen(mark: Mark)

  /** History is written only when the adapter keeps it. */
  function Logged(ctx: Context, s: State, subject: Str, es: seq<HistoryEvent>): State {
    match AppendEvents(s, ctx.issuer, subject, es) case Some(s') => s' case None => s
  }

  function Event(iat: int, name: Str): HistoryEvent {
    HistoryEvent(iat, name, JUndefined)
  }

  /** Which of the three update events a change of record calls for. */
  function UpdateNames(ctx: Context, before: Record, now: Record): seq<Str> {
    (if Canon(ctx.sanitize(before.metadata)) != Canon(ctx.sanitize(now.metadata)) then [METADATA_UPDATE] else [])
    + (if Canon(before.metadataPolicy) != Canon(now.metadataPolicy) then [METADATA_POLICY_UPDATE] else [])
    + (if PublicKeysText(before.jwks, ctx.strip) != PublicKeysText(now.jwks, ctx.strip) then [JWKS_UPDATE] else [])
  }

  function Events(iat: int, names: seq<Str>): (r: seq<HistoryEvent>)
    ensures |r| == |names| && forall i :: 0 <= i < |names| ==> r[i] == Event(iat, names[i])
  {
    seq(|names|, i requires 0 <= i < |names| => Event(iat, names[i]))
  }

  function Settle(r: Option<State>, next: Local): A.Turn<State, Local, Reply> {
    match r case Some(s) => A.Await(next, s) case None => A.Throw
  }

  function Turn(ctx: Context, l: Local, s: State, now: int): A.Turn<State, Local, Reply> {
    match l
    case RegisterAdd(r) =>
      Settle(AddRecord(s, r.(createdAt := now, updatedAt := now), ctx.valid), RegisterAppend(r.entityId, now))
    case RegisterAppend(subject, iat) =>
      A.Return(Logged(ctx, s, subject, [Event(iat, REGISTRATION)]), Nothing)
    case UpdateRead(subject, patch) =>
      if subject in s.subordinates.at then A.Await(UpdateWrite(subject, patch, s.subordinates.at[subject]), s)
        else A.Throw
    case UpdateWrite(subject, patch, before) =>
      Settle(UpdateRecord(s, subject, patch, now, ctx.valid), UpdateCompare(subject, before))
    case UpdateCompare(subject, before) =>
      if subject !in s.subordinates.at then A.Throw
      else
        var names := UpdateNames(ctx, before, s.subordinates.at[subject]);
        A.Return(if names == [] then s else Logged(ctx, s, subject, Events(now, names)), Nothing)
    case RevokeRemove(subject) =>
      Settle(RemoveRecord(s, subject), RevokeAppend(subject))
    case RevokeAppend(subject) =>
      A.Return(Logged(ctx, s, subject, [Event(now, REVOCATION)]), Nothing)
    case RecordEvents(subject, es) =>
      (match AppendEvents(s, ctx.issuer, subject, es) case Some(s') => A.Return(s', Nothing) case None => A.Throw)
    case IssueCheck(candidate) =>
      if s.marks.None? then A.Throw
      else
        (match TrustMarks.GetValid(Values(s.marks.value), candidate.markType, candidate.subject, candidate.issuedAt)
         case Some(winner) => A.Return(s, Chosen(winner))
         case None => A.Await(IssueStore(candidate), s))
    case IssueStore(candidate) =>
      (match IssueMark(s, candidate) case Some(s') => A.Return(s', Chosen(candidate)) case None => A.Throw)
  }

  /** What a client asks for. */
  datatype Operation =
    | Register(record: Record)
    | Update(subject: Str, patch: Patch)
    | RevokeSubordinate(subject: Str)
    | RecordExtra(subject: Str, events: seq<HistoryEvent>)
    | Issue(candidate: Mark)
    | RevokeMark(markType: Str, subject: Str, at: int)

  function TurnOf(ctx: Context): (Local, State, int) -> A.Turn<State, Local, Reply> {
    (l: Local, s: State, now: int) => Turn(ctx, l, s, now)
  }

  function CleanRecord(ctx: Context, r: Record): Record {
    if r.metadata.JUndefined? then r else r.(metadata := ctx.sanitize(r.metadata))
  }

  function CleanPatch(ctx: Context, p: Patch): Patch {
    if p.metadata.None? then p else p.(metadata := Some(ctx.sanitize(p.metadata.value)))
  }

  function RevokeMarkCall(markType: Str, subject: Str, at: int): (State, int) -> A.Applied<State, Reply> {
    (s: State, now: int) =>
      match RevokeMarks(s, markType, subject, at) case Some(s') => A.Done(s', Nothing) case None => A.Rejected
  }

  function CallOf(ctx: Context, op: Operation): A.Call<State, Local, Reply> {
    match op
    case Register(r) => A.Transaction(RegisterAdd(CleanRecord(ctx, r)), TurnOf(ctx))
    case Update(subject, p) => A.Transaction(UpdateRead(subject, CleanPatch(ctx, p)), TurnOf(ctx))
    case RevokeSubordinate(subject) => A.Transaction(RevokeRemove(subject), TurnOf(ctx))
    case RecordExtra(subject, es) => A.Transaction(RecordEvents(subject, es), TurnOf(ctx))
    case Issue(candidate) => A.Transaction(IssueCheck(candidate), TurnOf(ctx))
    case RevokeMark(markType, subject, at) => A.Direct(RevokeMarkCall(markType, subject, at))
  }

  // ------------------------------------------------- the operations in one step

  function Registered(ctx: Context, s: State, r: Record, iat: int): Option<State> {
    match AddRecord(s, CleanRecord(ctx, r).(createdAt := iat, updatedAt := iat), ctx.valid)
    case Some(s') => Some(Logged(ctx, s', r.entityId, [Event(iat, REGISTRATION)]))
    case None => None
  }

  function Updated(ctx: Context, s: State, subject: Str, p: Patch, storedAt: int, iat: int): Option<State> {
    match UpdateRecord(s, subject, CleanPatch(ctx, p), storedAt, ctx.valid)
    case Some(s') =>
      var names := UpdateNames(ctx, s.subordinates.at[subject], s'.subordinates.at[subject]);
      Some(if names == [] then s' else Logged(ctx, s', subject, Events(iat, names)))
    case None => None
  }

  function Withdrawn(ctx: Context, s: State, subject: Str, iat: int): Option<State> {
    match RemoveRecord(s, subject)
    case Some(s') => Some(Logged(ctx, s', subject, [Event(iat, REVOCATION)]))
    case None => None
  }

  /** What the issuance transaction leaves and answers. */
  function Issued(s: State, candidate: Mark): Option<(State, Mark)> {
    if s.marks.None? then None
    else
      match TrustMarks.GetValid(Values(s.marks.value), candidate.markType, candidate.subject, candidate.issuedAt)
      case Some(winner) => Some((s, winner))
      case None => (match IssueMark(s, candidate) case Some(s') => Some((s', candidate)) case None => None)
  }

  function FirstOr<T>(r: Option<T>, s: T): T {
    match r case Some(x) => x case None => s
  }

  /** The state after a call that took these clock readings, without any turns. */
  function Effect(ctx: Context, op: Operation, s: State, seen: seq<int>): State {
    match op
    case Register(r) => if |seen| < 2 then s else FirstOr(Registered(ctx, s, r, seen[0]), s)
    case Update(subject, p) => if |seen| < 3 then s else FirstOr(Updated(ctx, s, subject, p, seen[1], seen[2]), s)
    case RevokeSubordinate(subject) => if |seen| < 2 then s else FirstOr(Withdrawn(ctx, s, subject, seen[1]), s)
    case RecordExtra(subject, es) => if |seen| < 1 then s else FirstOr(AppendEvents(s, ctx.issuer, subject, es), s)
    case Issue(candidate) => if |seen| < 2 then s else (match Issued(s, candidate) case Some(p) => p.0 case None => s)
    case RevokeMark(markType, subject, at) =>
      if |seen| < 1 then s else FirstOr(RevokeMarks(s, markType, subject, at), s)
  }

  /** A mark of this type and subject that a revocation would find. */
  ghost predicate HasActive(s: State, markType: Str, subject: Str) {
    && s.marks.Some?
    && exists jwt :: jwt in s.marks.value.at && s.marks.value.at[jwt].active
        && s.marks.value.at[jwt].markType == markType && s.marks.value.at[jwt].subject == subject
  }

  /** The metadata a record would have after an update. */
  function MetadataAfter(ctx: Context, s: State, subject: Str, p: Patch): Json
    requires subject in s.subordinates.at
  {
    if p.metadata.Some? then ctx.sanitize(p.metadata.value) else s.subordinates.at[subject].metadata
  }

  /** When an operation answers instead of throwing: it had its turns and found what it needs. */
  ghost predicate Succeeds(ctx: Context, op: Operation, s: State, seen: seq<int>) {
    match op
    case Register(r) =>
      |seen| >= 2 && r.entityId !in s.subordinates.at
      && ctx.valid(if r.metadata.JUndefined? then JUndefined else ctx.sanitize(r.metadata))
    case Update(subject, p) =>
      |seen| >= 3 && subject in s.subordinates.at && ctx.valid(MetadataAfter(ctx, s, subject, p))
    case RevokeSubordinate(subject) => |seen| >= 2 && subject in s.subordinates.at
    case RecordExtra(_, _) => |seen| >= 1 && s.events.Some?
    case Issue(m) =>
      && s.marks.Some?
      && |seen| >= if TrustMarks.GetValid(Values(s.marks.value), m.markType, m.subject, m.issuedAt).Some? then 1 else 2
    case RevokeMark(markType, subject, _) => |seen| >= 1 && HasActive(s, markType, subject)
  }

  /** What it then answers: an issuance the mark it found or its own candidate. */
  function ReplyOf(op: Operation, s: State): Reply {
    if !op.Issue? || s.marks.None? then Nothing
    else
      var m := op.candidate;
      match TrustMarks.GetValid(Values(s.marks.value), m.markType, m.subject, m.issuedAt)
      case Some(winner) => Chosen(winner)
      case None => Chosen(m)
  }

  ghost function Answer(ctx: Context, op: Operation, s: State, seen: seq<int>): A.Outcome<Reply> {
    if Succeeds(ctx, op, s, seen) then A.Value(ReplyOf(op, s)) else A.Error
  }

  /** The turns of every operation add up to its one-step effect, and it answers exactly when
      it had its turns and found what it needs. */
  lemma TurnsMakeEffect(ctx: Context, op: Operation, s: State, seen: seq<int>)
    ensures A.Atomic(CallOf(ctx, op), s, seen).0 == Effect(ctx, op, s, seen)
    ensures A.Atomic(CallOf(ctx, op), s, seen).1 == Answer(ctx, op, s, seen)
  {
    var call := CallOf(ctx, op);
    if call.Transaction? {
      hide Effect, Answer, Turn;
      A.BodyIsOnward(call, s, seen);
      match op
      case Register(_) => RegisterTurns(ctx, op, s, seen);
      case Update(_, _) => UpdateTurns(ctx, op, s, seen);
      case RevokeSubordinate(_) => RevokeTurns(ctx, op, s, seen);
      case RecordExtra(_, _) => RecordTurns(ctx, op, s, seen);
      case Issue(_) => IssueTurns(ctx, op, s, seen);
    } else {
      assert HasActive(s, op.markType, op.subject) <==>
             s.marks.Some? && AnyRevocable(s.marks.value, op.markType, op.subject);
    }
  }

  function Outcome(t: A.Turn<State, Local, Reply>): A.Progress<State, Local, Reply> {
    match t
    case Await(l, d) => A.Going(l, d)
    case Return(d, v) => A.Ended(d, v)
    case Throw => A.Failed
  }

  lemma OneTurn(ctx: Context, l: Local, s: State, seen: seq<int>)
    requires seen != []
    ensures A.Onward(TurnOf(ctx), l, s, seen) ==
            match Turn(ctx, l, s, seen[0])
            case Await(l', d) => A.Onward(TurnOf(ctx), l', d, seen[1..])
            case done => Outcome(done)
  {
    hide Turn;
  }

  lemma NoTurn(ctx: Context, l: Local, s: State)
    ensures A.Onward(TurnOf(ctx), l, s, []) == A.Going(l, s)
  {
  }

  /** A body that ends, or has not ended, with the state and the answer described. */
  ghost predicate EndsWith(ctx: Context, op: Operation, s: State, seen: seq<int>)
    requires !op.RevokeMark?
  {
    match A.Onward(CallOf(ctx, op).turn, CallOf(ctx, op).start, s, seen)
    case Ended(d, v) => d == Effect(ctx, op, s, seen) && A.Value(v) == Answer(ctx, op, s, seen)
    case _ => s == Effect(ctx, op, s, seen) && A.Error == Answer(ctx, op, s, seen)
  }

  lemma RegisterTurns(ctx: Context, op: Operation, s: State, seen: seq<int>)
    requires op.Register?
    ensures EndsWith(ctx, op, s, seen)
  {
    hide A.Onward, Logged, Put;
    var r := CleanRecord(ctx, op.record);
    if seen != [] {
      OneTurn(ctx, RegisterAdd(r), s, seen);
      var added := AddRecord(s, r.(createdAt := seen[0], updatedAt := seen[0]), ctx.valid);
      if added.Some? {
        var next := RegisterAppend(r.entityId, seen[0]);
        NoTurn(ctx, next, added.value);
        if |seen| > 1 {
          OneTurn(ctx, next, added.value, seen[1..]);
        }
      }
    } else {
      NoTurn(ctx, RegisterAdd(r), s);
    }
  }

  lemma UpdateTurns(ctx: Context, op: Operation, s: State, seen: seq<int>)
    requires op.Update?
    ensures EndsWith(ctx, op, s, seen)
  {
    hide A.Onward, Logged, UpdateNames, Put;
    var p := CleanPatch(ctx, op.patch);
    if seen != [] {
      OneTurn(ctx, UpdateRead(op.subject, p), s, seen);
      if op.subject in s.subordinates.at {
        var write := UpdateWrite(op.subject, p, s.subordinates.at[op.subject]);
        NoTurn(ctx, write, s);
        if |seen| > 1 {
          OneTurn(ctx, write, s, seen[1..]);
          var stored := UpdateRecord(s, op.subject, p, seen[1], ctx.valid);
          if stored.Some? {
            var compare := UpdateCompare(op.subject, s.subordinates.at[op.subject]);
            NoTurn(ctx, compare, stored.value);
            if |seen| > 2 {
              assert seen[1..][1..][0] == seen[2];
              OneTurn(ctx, compare, stored.value, seen[1..][1..]);
            }
          }
        }
      }
    } else {
      NoTurn(ctx, UpdateRead(op.subject, p), s);
    }
  }

  lemma RevokeTurns(ctx: Context, op: Operation, s: State, seen: seq<int>)
    requires op.RevokeSubordinate?
    ensures EndsWith(ctx, op, s, seen)
  {
    hide A.Onward, Remove, Logged;
    if seen != [] {
      OneTurn(ctx, RevokeRemove(op.subject), s, seen);
      var removed := RemoveRecord(s, op.subject);
      if removed.Some? {
        NoTurn(ctx, RevokeAppend(op.subject), removed.value);
        if |seen| > 1 {
          OneTurn(ctx, RevokeAppend(op.subject), removed.value, seen[1..]);
        }
      }
    } else {
      NoTurn(ctx, RevokeRemove(op.subject), s);
    }
  }

  lemma RecordTurns(ctx: Context, op: Operation, s: State, seen: seq<int>)
    requires op.RecordExtra?
    ensures EndsWith(ctx, op, s, seen)
  {
    hide A.Onward;
    if seen != [] {
      OneTurn(ctx, RecordEvents(op.subject, op.events), s, seen);
    } else {
      NoTurn(ctx, RecordEvents(op.subject, op.events), s);
    }
  }

  lemma IssueTurns(ctx: Context, op: Operation, s: State, seen: seq<int>)
    requires op.Issue?
    ensures EndsWith(ctx, op, s, seen)
    ensures match A.Onward(CallOf(ctx, op).turn, CallOf(ctx, op).start, s, seen)
            case Ended(d, v) => Issued(s, op.candidate).Some? && v == Chosen(Issued(s, op.candidate).value.1)
                                && d == Issued(s, op.candidate).value.0
            case _ => true
  {
    hide A.Onward, TrustMarks.GetValid, Put;
    if seen != [] {
      OneTurn(ctx, IssueCheck(op.candidate), s, seen);
      NoTurn(ctx, IssueStore(op.candidate), s);
      assert |seen| == 1 ==> seen[1..] == [];
      if |seen| > 1 {
        OneTurn(ctx, IssueStore(op.candidate), s, seen[1..]);
      }
    } else {
      NoTurn(ctx, IssueCheck(op.candidate), s);
    }
  }
}
