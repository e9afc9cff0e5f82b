/** The state the memory adapter keeps and the mutations of its three storages.
    A mutation that throws is `None`: it has changed nothing. */
module Store {
  import opened Options
  import opened Text
  import opened OrderedMaps
  import opened Canonical

  /** `rest` stands for the optional fields no operation looks into. */
  datatype Record = Record(
    entityId: Str, jwks: seq<Json>, metadata: Json, metadataPolicy: Json,
    entityTypes: Option<seq<Str>>, intermediate: Option<bool>, rest: Json,
    createdAt: int, updatedAt: int)

  /** The fields an update names; naming a field with an undefined value clears it. */
  datatype Patch = Patch(
    jwks: Option<seq<Json>>, metadata: Option<Json>, metadataPolicy: Option<Json>,
    entityTypes: Option<Option<seq<Str>>>, intermediate: Option<Option<bool>>, rest: Option<Json>)

  datatype HistoryEvent = HistoryEvent(iat: int, name: Str, rest: Json)

  datatype Mark = Mark(
    markType: Str, subject: Str, jwt: Str, issuedAt: int, expiresAt: Option<int>,
    active: bool, revokedAt: Option<int>)

  /** `events` and `marks` are missing when the adapter was created without them. */
  datatype State = State(
    subordinates: OMap<Str, Record>,
    events: Option<map<(Str, Str), seq<HistoryEvent>>>,
    marks: Option<OMap<Str, Mark>>)

  ghost predicate ValidState(s: State) {
    && (forall id :: id in s.subordinates.at ==> s.subordinates.at[id].entityId == id)
    && (s.marks.Some? ==> forall jwt :: jwt in s.marks.value.at ==> s.marks.value.at[jwt].jwt == jwt)
  }

  function History(s: State, issuer: Str, subject: Str): seq<HistoryEvent> {
    if s.events.Some? && (issuer, subject) in s.events.value then s.events.value[(issuer, subject)] else []
  }

  function Or<T>(patch: Option<T>, current: T): T {
    if patch.Some? then patch.value else current
  }

  function Patched(r: Record, p: Patch, now: int): Record {
    Record(r.entityId, Or(p.jwks, r.jwks), Or(p.metadata, r.metadata), Or(p.metadataPolicy, r.metadataPolicy),
           Or(p.entityTypes, r.entityTypes), Or(p.intermediate, r.intermediate), Or(p.rest, r.rest),
           r.createdAt, now)
  }

  function AddRecord(s: State, r: Record, valid: Json -> bool): Option<State> {
    if !valid(r.metadata) || r.entityId in s.subordinates.at then None
    else Some(s.(subordinates := Put(s.subordinates, r.entityId, r)))
  }

  function UpdateRecord(s: State, id: Str, p: Patch, now: int, valid: Json -> bool): Option<State> {
    if id !in s.subordinates.at then None
    else
      var r := Patched(s.subordinates.at[id], p, now);
      if !valid(r.metadata) then None else Some(s.(subordinates := Put(s.subordinates, id, r)))
  }

  function RemoveRecord(s: State, id: Str): Option<State> {
    if id !in s.subordinates.at then None
    else Some(s.(subordinates := Remove(s.subordinates, id)))
  }

  function AppendEvents(s: State, issuer: Str, subject: Str, es: seq<HistoryEvent>): Option<State> {
    if s.events.None? then None
    else Some(s.(events := Some(s.events.value[(issuer, subject) := History(s, issuer, subject) + es])))
  }

  function IssueMark(s: State, m: Mark): Option<State> {
    if s.marks.None? then None
    else if m.jwt in s.marks.value.at then Some(s)
    else Some(s.(marks := Some(Put(s.marks.value, m.jwt, m))))
  }

  predicate Revocable(m: Mark, markType: Str, subject: Str) {
    m.markType == markType && m.subject == subject && m.active
  }

  function Revoked(m: Mark, at: int): Mark {
    m.(active := false, revokedAt := Some(at))
  }

  function IfRevocable(m: Mark, markType: Str, subject: Str, at: int): Mark {
    if Revocable(m, markType, subject) then Revoked(m, at) else m
  }

  predicate AnyRevocable(ms: OMap<Str, Mark>, markType: Str, subject: Str) {
    exists jwt :: jwt in ms.at && Revocable(ms.at[jwt], markType, subject)
  }

  function RevokeAll(ms: OMap<Str, Mark>, markType: Str, subject: Str, at: int): OMap<Str, Mark> {
    ms.(at := map jwt | jwt in ms.at :: IfRevocable(ms.at[jwt], markType, subject, at))
  }

  function RevokeMarks(s: State, markType: Str, subject: Str, at: int): Option<State> {
    if s.marks.None? || !AnyRevocable(s.marks.value, markType, subject) then None
    else Some(s.(marks := Some(RevokeAll(s.marks.value, markType, subject, at))))
  }

  /** The loop of a revocation after i entries. */
  ghost function RevokeFirst(ms: OMap<Str, Mark>, markType: Str, subject: Str, at: int, i: nat): OMap<Str, Mark>
    requires i <= |ms.order|
  {
    ms.(at := map jwt | jwt in ms.at ::
      if jwt in ms.order[..i] then IfRevocable(ms.at[jwt], markType, subject, at) else ms.at[jwt])
  }

  lemma RevokeNext(ms: OMap<Str, Mark>, markType: Str, subject: Str, at: int, i: nat)
    requires i < |ms.order|
    ensures var done, k := RevokeFirst(ms, markType, subject, at, i), ms.order[i];
            && k in ms.at && k in done.at && done.at[k] == ms.at[k]
            && RevokeFirst(ms, markType, subject, at, i + 1) ==
               if Revocable(ms.at[k], markType, subject) then Put(done, k, Revoked(ms.at[k], at)) else done
  {
    var done, k := RevokeFirst(ms, markType, subject, at, i), ms.order[i];
    assert ms.order[..i + 1] == ms.order[..i] + [ms.order[i]];
    assert ms.order[i] in ms.order;
    assert RevokeFirst(ms, markType, subject, at, i + 1).at ==
           done.at[k := IfRevocable(ms.at[k], markType, subject, at)];
  }

  lemma RevokeEnds(ms: OMap<Str, Mark>, markType: Str, subject: Str, at: int)
    ensures RevokeFirst(ms, markType, subject, at, 0) == ms
    ensures RevokeFirst(ms, markType, subject, at, |ms.order|) == RevokeAll(ms, markType, subject, at)
    ensures !AnyRevocable(ms, markType, subject) ==> RevokeAll(ms, markType, subject, at) == ms
  {
    assert ms.order[..|ms.order|] == ms.order;
    assert RevokeFirst(ms, markType, subject, at, 0).at == ms.at;
    assert RevokeFirst(ms, markType, subject, at, |ms.order|).at == RevokeAll(ms, markType, subject, at).at;
    assert !AnyRevocable(ms, markType, subject) ==> RevokeAll(ms, markType, subject, at).at == ms.at;
  }

  lemma AnyRevocableInOrder(ms: OMap<Str, Mark>, markType: Str, subject: Str)
    ensures AnyRevocable(ms, markType, subject) <==>
            exists k :: 0 <= k < |ms.order| && ms.order[k] in ms.at && Revocable(ms.at[ms.order[k]], markType, subject)
  {
    if jwt :| jwt in ms.at && Revocable(ms.at[jwt], markType, subject) {
      assert jwt in ms.order;
    }
  }

  /** The walk over the entries, overwriting in place. */
  method RevokeLoop(ms: OMap<Str, Mark>, markType: Str, subject: Str, at: int)
    returns (records: OMap<Str, Mark>, found: bool)
    ensures records == RevokeAll(ms, markType, subject, at)
    ensures found <==> AnyRevocable(ms, markType, subject)
  {
    hide RevokeFirst, RevokeAll, Revocable, Revoked, Put;
    records, found := ms, false;
    RevokeEnds(ms, markType, subject, at);
    for i := 0 to |ms.order|
      invariant records == RevokeFirst(ms, markType, subject, at, i)
      invariant found <==>
                exists k :: 0 <= k < i && ms.order[k] in ms.at && Revocable(ms.at[ms.order[k]], markType, subject)
    {
      RevokeNext(ms, markType, subject, at, i);
      var jwt := ms.order[i];
      var record := records.at[jwt];
      if Revocable(record, markType, subject) {
        records := Put(records, jwt, Revoked(record, at));
        found := true;
      }
    }
    AnyRevocableInOrder(ms, markType, subject);
  }

  /** The state in place. Each method either does what its function says or, answering
      false where the original throws, changes nothing. */
  class MemoryState {
    var subordinates: OMap<Str, Record>
    var events: Option<map<(Str, Str), seq<HistoryEvent>>>
    var marks: Option<OMap<Str, Mark>>

    ghost function View(): State
      reads this
    {
      State(subordinates, events, marks)
    }

    ghost predicate Follows(before: State, ok: bool, spec: Option<State>)
      reads this
    {
      ok == spec.Some? && View() == if ok then spec.value else before
    }

    constructor (withEvents: bool, withMarks: bool)
      ensures ValidState(View()) && subordinates == Empty()
      ensures events == if withEvents then Some(map[]) else None
      ensures marks == if withMarks then Some(Empty()) else None
    {
      subordinates := Empty();
      events := if withEvents then Some(map[]) else None;
      marks := if withMarks then Some(Empty()) else None;
    }

    method Add(r: Record, valid: Json -> bool) returns (ok: bool)
      requires ValidState(View())
      modifies this
      ensures ValidState(View()) && Follows(old(View()), ok, AddRecord(old(View()), r, valid))
    {
      ok := false;
      if valid(r.metadata) {
        if r.entityId !in subordinates.at {
          subordinates := Put(subordinates, r.entityId, r);
          ok := true;
        }
      }
    }

    method Update(id: Str, p: Patch, now: int, valid: Json -> bool) returns (ok: bool)
      requires ValidState(View())
      modifies this
      ensures ValidState(View()) && Follows(old(View()), ok, UpdateRecord(old(View()), id, p, now, valid))
    {
      ok := false;
      if id in subordinates.at {
        var updated := Patched(subordinates.at[id], p, now);
        if valid(updated.metadata) {
          subordinates := Put(subordinates, id, updated);
          ok := true;
        }
      }
    }

    method RemoveSubordinate(id: Str) returns (ok: bool)
      requires ValidState(View())
      modifies this
      ensures ValidState(View()) && Follows(old(View()), ok, RemoveRecord(old(View()), id))
    {
      ok := id in subordinates.at;
      if ok {
        subordinates := Remove(subordinates, id);
      }
    }

    method Append(issuer: Str, subject: Str, es: seq<HistoryEvent>) returns (ok: bool)
      requires ValidState(View())
      modifies this
      ensures ValidState(View()) && Follows(old(View()), ok, AppendEvents(old(View()), issuer, subject, es))
    {
      ok := events.Some?;
      if ok {
        var before := if (issuer, subject) in events.value then events.value[(issuer, subject)] else [];
        events := Some(events.value[(issuer, subject) := before + es]);
      }
    }

    method Issue(m: Mark) returns (ok: bool)
      requires ValidState(View())
      modifies this
      ensures ValidState(View()) && Follows(old(View()), ok, IssueMark(old(View()), m))
    {
      ok := marks.Some?;
      if ok && m.jwt !in marks.value.at {
        marks := Some(Put(marks.value, m.jwt, m));
      }
    }

    method Revoke(markType: Str, subject: Str, at: int) returns (ok: bool)
      requires ValidState(View())
      modifies this
      ensures ValidState(View()) && Follows(old(View()), ok, RevokeMarks(old(View()), markType, subject, at))
    {
      ok := false;
      if marks.None? {
        return;
      }
      var records;
      records, ok := RevokeLoop(marks.value, markType, subject, at);
      RevokeEnds(marks.value, markType, subject, at);
      marks := Some(records);
    }
  }
}
