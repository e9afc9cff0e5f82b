/** Wallet authentication: sessions check two tokens and the freshness of a proof, claim its
    identifier in the shared replay store and check freshness again. Any number of sessions
    interleave, and other users of the store may claim in between. */
module WalletAuth {
  import opened Options
  import opened Text
  import R = ReplayStore

  /** A trust chain by the latest issuance and the earliest expiry of its statements. */
  datatype Chain = Chain(issuedAt: real, expiresAt: real)

  /** `text` is the token itself. An attestation that carries its chain fixes it; otherwise the
      server finds one. */
  datatype Attestation = Attestation(text: Str, sub: Str, exp: real, nbf: Option<real>, chain: Option<Chain>)

  datatype Proof = Proof(text: Str, iss: Str, jti: Str, iat: real, nbf: Option<real>, exp: Option<real>)

  /** `accepts` stands for the checks no clock enters: schemas, signatures, token types, the
      audience, the challenge, the client identifier and the application's policy. */
  datatype Config = Config(audience: Str, maxAge: real, skew: real, maxEntries: nat,
                           accepts: (Attestation, Proof) -> bool)

  /** Each phase is named for the last step that went well. */
  datatype Phase =
    | Trusted
    | Attested
    | Checked
    | Proven
    | Claiming
    | Answered(outcome: R.Outcome, claimedAt: real)
    | Succeeded(claimedAt: real, concludedAt: real)
    | Rejected

  /** `pending` while the store call it made has not run; a session that timed out does not
      wait for it any more. */
  datatype Session = Session(attestation: Attestation, proof: Proof, chain: Chain, phase: Phase, pending: bool)

  datatype State = State(store: map<Str, real>, sessions: seq<Session>, clock: real)

  function Least(a: real, b: real): real {
    if a <= b then a else b
  }

  function Greatest(a: real, b: real): real {
    if a <= b then b else a
  }

  /** The expiry of the replay record, which also bounds the proof's freshness. */
  function ExpiresAt(cfg: Config, a: Attestation, p: Proof): real {
    var bound := Least(p.iat + cfg.maxAge, a.exp);
    (if p.exp.Some? then Least(bound, p.exp.value) else bound) + cfg.skew
  }

  function TripleOf(cfg: Config, p: Proof): R.Triple {
    R.Triple(p.iss, cfg.audience, p.jti)
  }

  function ClaimOf(cfg: Config, a: Attestation, p: Proof): R.Claim {
    R.Claim(TripleOf(cfg, p), ExpiresAt(cfg, a, p))
  }

  // ------------------------------------------------- the checks

  predicate ValidConfig(cfg: Config) {
    cfg.maxAge > 0.0 && cfg.skew >= 0.0 && cfg.audience != []
  }

  /** Validation of a chain reads the clock once. */
  predicate ChainPasses(cfg: Config, c: Chain, now: real) {
    c.issuedAt <= now + cfg.skew && now - cfg.skew <= c.expiresAt
  }

  /** Verification of a token looks at its dates in whole seconds. */
  predicate TokenPasses(cfg: Config, nbf: Option<real>, exp: Option<real>, now: real) {
    && (nbf.Some? ==> nbf.value <= now.Floor as real + cfg.skew)
    && (exp.Some? ==> now.Floor as real - cfg.skew < exp.value)
  }

  /** One freshness check reads the clock three times. */
  datatype Moment = Moment(first: real, second: real, third: real)

  predicate Fresh(cfg: Config, s: Session, m: Moment) {
    && s.proof.iat <= m.first + cfg.skew
    && m.second < ExpiresAt(cfg, s.attestation, s.proof)
    && m.third < s.chain.expiresAt
  }

  // ------------------------------------------------- the steps

  datatype Event =
    | Enter(attestation: Attestation, proof: Proof, chain: Chain, at: real)
    | Check(i: nat, m: Moment)
    | RunClaim(i: nat, now: real)
    | Drop(i: nat)
    | Other(claim: R.Claim, at: real)

  predicate After(clock: real, m: Moment) {
    clock <= m.first <= m.second <= m.third
  }

  /** The clock is shared and does not go back. */
  predicate Enabled(st: State, e: Event) {
    match e
    case Enter(a, _, chain, at) => st.clock <= at && (a.chain.Some? ==> chain == a.chain.value)
    case Check(i, m) => i < |st.sessions| && HasCheck(st.sessions[i].phase) && After(st.clock, m)
    case RunClaim(i, now) => i < |st.sessions| && st.sessions[i].pending && st.clock <= now
    case Drop(i) => i < |st.sessions| && !st.sessions[i].phase.Succeeded?
    case Other(_, at) => st.clock <= at
  }

  predicate HasCheck(phase: Phase) {
    !phase.Claiming? && !phase.Succeeded? && !phase.Rejected?
  }

  /** The next check of a session: the attestation token, freshness, the proof token, freshness
      again, and once the store has answered freshness for the last time. */
  function AfterCheck(cfg: Config, s: Session, m: Moment): Session
    requires HasCheck(s.phase)
  {
    match s.phase
    case Trusted =>
      s.(phase := if TokenPasses(cfg, s.attestation.nbf, Some(s.attestation.exp), m.first) then Attested else Rejected)
    case Attested => s.(phase := if Fresh(cfg, s, m) then Checked else Rejected)
    case Checked =>
      s.(phase := if TokenPasses(cfg, s.proof.nbf, s.proof.exp, m.first) then Proven else Rejected)
    case Proven => if Fresh(cfg, s, m) then s.(phase := Claiming, pending := true) else s.(phase := Rejected)
    case Answered(outcome, at) =>
      s.(phase := if outcome.Accepted? && Fresh(cfg, s, m) then Succeeded(at, m.second) else Rejected)
  }

  function Opening(cfg: Config, a: Attestation, p: Proof, chain: Chain, at: real): Phase {
    if ValidConfig(cfg) && cfg.accepts(a, p) && p.iss == a.sub && ChainPasses(cfg, chain, at) then Trusted else Rejected
  }

  function At(st: State, i: nat, s: Session, clock: real): State
    requires i < |st.sessions|
  {
    st.(sessions := st.sessions[i := s], clock := clock)
  }

  function AfterClaim(s: Session, outcome: R.Outcome, now: real): Session {
    s.(pending := false, phase := if s.phase.Claiming? then Answered(outcome, now) else s.phase)
  }

  function Step(cfg: Config, st: State, e: Event): State
    requires Enabled(st, e)
  {
    match e
    case Enter(a, p, chain, at) =>
      st.(sessions := st.sessions + [Session(a, p, chain, Opening(cfg, a, p, chain, at), false)], clock := at)
    case Check(i, m) => At(st, i, AfterCheck(cfg, st.sessions[i], m), m.third)
    case RunClaim(i, now) =>
      var s := st.sessions[i];
      var used := R.Use(st.store, ClaimOf(cfg, s.attestation, s.proof), now, cfg.maxEntries);
      At(st, i, AfterClaim(s, used.0, now), now).(store := used.1)
    case Drop(i) => At(st, i, st.sessions[i].(phase := Rejected), st.clock)
    case Other(claim, at) => st.(store := R.Use(st.store, claim, at, cfg.maxEntries).1, clock := at)
  }

  // ------------------------------------------------- the window of a pair

  function Ceiling(x: real): real {
    -((-x).Floor as real)
  }

  lemma CeilingBounds(x: real, t: real)
    ensures x <= t.Floor as real <==> Ceiling(x) <= t
  {
    var c := -((-x).Floor);
    assert x <= c as real < x + 1.0;
    assert t.Floor as real <= t < t.Floor as real + 1.0;
    if c <= t.Floor {
      assert c as real <= t.Floor as real;
    } else {
      assert c >= t.Floor + 1;
      assert c as real >= t.Floor as real + 1.0;
    }
  }

  /** The first moment a not-before date allows, rounded up to the second. */
  function From(cfg: Config, nbf: Option<real>, earliest: real): real {
    if nbf.Some? then Greatest(earliest, Ceiling(nbf.value - cfg.skew)) else earliest
  }

  /** The first moment all the dates of a pair allow. */
  function Opens(cfg: Config, a: Attestation, p: Proof): real {
    var dates := From(cfg, p.nbf, From(cfg, a.nbf, p.iat - cfg.skew));
    if a.chain.Some? then Greatest(dates, a.chain.value.issuedAt - cfg.skew) else dates
  }

  /** The first moment they do not allow any more. */
  function Closes(cfg: Config, a: Attestation, p: Proof): real {
    if a.chain.Some? then Least(ExpiresAt(cfg, a, p), a.chain.value.expiresAt) else ExpiresAt(cfg, a, p)
  }

  /** What no clock enters. */
  predicate Eligible(cfg: Config, a: Attestation, p: Proof) {
    ValidConfig(cfg) && cfg.accepts(a, p) && a.sub == p.iss && p.iss != [] && p.jti != [] && cfg.maxEntries > 0
  }

  // ------------------------------------------------- what every state keeps

  /** The session's claim was accepted. */
  predicate Holds(s: Session) {
    s.phase.Succeeded? || (s.phase.Answered? && s.phase.outcome.Accepted?)
  }

  function Expiry(cfg: Config, s: Session): real {
    ExpiresAt(cfg, s.attestation, s.proof)
  }

  /** The record of an accepted claim is kept until it expires. */
  predicate Guarded(cfg: Config, store: map<Str, real>, clock: real, s: Session) {
    clock < Expiry(cfg, s) ==>
      R.Key(TripleOf(cfg, s.proof)) in store && store[R.Key(TripleOf(cfg, s.proof))] == Expiry(cfg, s)
  }

  /** Of two sessions on one identifier the later claimed when the record of the earlier was gone. */
  predicate Exclusive(cfg: Config, s: Session, t: Session)
    requires Holds(s) && Holds(t)
  {
    TripleOf(cfg, s.proof) == TripleOf(cfg, t.proof) ==>
      Expiry(cfg, s) <= t.phase.claimedAt || Expiry(cfg, t) <= s.phase.claimedAt
  }

  ghost predicate Sound(cfg: Config, st: State) {
    && (forall i :: 0 <= i < |st.sessions| && st.sessions[i].pending ==> !Holds(st.sessions[i]))
    && (forall i :: 0 <= i < |st.sessions| && Holds(st.sessions[i]) ==>
          Guarded(cfg, st.store, st.clock, st.sessions[i]))
    && (forall i, j :: 0 <= i < j < |st.sessions| && Holds(st.sessions[i]) && Holds(st.sessions[j]) ==>
          Exclusive(cfg, st.sessions[i], st.sessions[j]))
  }

  /** A claim leaves every live record as it is, and is accepted only where none is live. */
  lemma UseKeeps(m: map<Str, real>, c: R.Claim, now: real, maxEntries: nat, k: Str)
    requires k in m && m[k] > now
    ensures var used := R.Use(m, c, now, maxEntries);
            k in used.1 && used.1[k] == m[k] && (R.Key(c.triple) == k ==> !used.0.Accepted?)
  {
    hide R.Key;
  }

  lemma UseRecords(m: map<Str, real>, c: R.Claim, now: real, maxEntries: nat)
    requires R.Use(m, c, now, maxEntries).0.Accepted?
    ensures var used := R.Use(m, c, now, maxEntries).1;
            R.Key(c.triple) in used && used[R.Key(c.triple)] == c.expiresAt
    ensures R.ValidClaim(c) && maxEntries > 0
  {
    hide R.Key;
  }

  lemma GuardedKeeps(cfg: Config, st: State, s: Session, c: R.Claim, now: real)
    requires Guarded(cfg, st.store, st.clock, s) && st.clock <= now
    ensures var used := R.Use(st.store, c, now, cfg.maxEntries);
            && Guarded(cfg, used.1, now, s)
            && (used.0.Accepted? && c.triple == TripleOf(cfg, s.proof) ==> Expiry(cfg, s) <= now)
  {
    hide R.Key, R.Use, ExpiresAt;
    if Expiry(cfg, s) > now {
      UseKeeps(st.store, c, now, cfg.maxEntries, R.Key(TripleOf(cfg, s.proof)));
    }
  }

  /** Sessions change one at a time. */
  lemma SoundReplace(cfg: Config, st: State, i: nat, s: Session, store: map<Str, real>, clock: real)
    requires Sound(cfg, st) && i < |st.sessions| && st.clock <= clock
    requires forall j :: 0 <= j < |st.sessions| && j != i && Holds(st.sessions[j]) ==>
               Guarded(cfg, store, clock, st.sessions[j])
    requires s.pending ==> !Holds(s)
    requires Holds(s) ==> Guarded(cfg, store, clock, s)
    requires Holds(s) ==> forall j :: 0 <= j < |st.sessions| && j != i && Holds(st.sessions[j]) ==>
               Exclusive(cfg, s, st.sessions[j])
    ensures Sound(cfg, State(store, st.sessions[i := s], clock))
  {
    hide Guarded, Expiry;
    var after := State(store, st.sessions[i := s], clock);
    forall j, k | 0 <= j < k < |after.sessions| && Holds(after.sessions[j]) && Holds(after.sessions[k])
      ensures Exclusive(cfg, after.sessions[j], after.sessions[k])
    {
      if k == i {
        assert Exclusive(cfg, s, st.sessions[j]);
      }
    }
  }

  lemma ClaimSound(cfg: Config, st: State, i: nat, now: real)
    requires Sound(cfg, st) && Enabled(st, RunClaim(i, now))
    ensures Sound(cfg, Step(cfg, st, RunClaim(i, now)))
  {
    hide R.Key, R.Use, ExpiresAt, Guarded;
    var s := st.sessions[i];
    var c := ClaimOf(cfg, s.attestation, s.proof);
    var used := R.Use(st.store, c, now, cfg.maxEntries);
    forall j | 0 <= j < |st.sessions| && j != i && Holds(st.sessions[j])
      ensures Guarded(cfg, used.1, now, st.sessions[j])
      ensures used.0.Accepted? && TripleOf(cfg, s.proof) == TripleOf(cfg, st.sessions[j].proof) ==>
              Expiry(cfg, st.sessions[j]) <= now
    {
      GuardedKeeps(cfg, st, st.sessions[j], c, now);
    }
    var s' := AfterClaim(s, used.0, now);
    if Holds(s') {
      UseRecords(st.store, c, now, cfg.maxEntries);
      GuardedNow(cfg, used.1, now, s');
    }
    SoundReplace(cfg, st, i, s', used.1, now);
  }

  lemma GuardedNow(cfg: Config, store: map<Str, real>, clock: real, s: Session)
    requires R.Key(TripleOf(cfg, s.proof)) in store && store[R.Key(TripleOf(cfg, s.proof))] == Expiry(cfg, s)
    ensures Guarded(cfg, store, clock, s)
  {
  }

  /** Time passes and the session moves without touching the store. */
  lemma MoveSound(cfg: Config, st: State, i: nat, s: Session, clock: real)
    requires Sound(cfg, st) && i < |st.sessions| && st.clock <= clock
    requires s.attestation == st.sessions[i].attestation && s.proof == st.sessions[i].proof
    requires s.pending ==> !Holds(s)
    requires Holds(s) ==> Holds(st.sessions[i]) && s.phase.claimedAt == st.sessions[i].phase.claimedAt
    ensures Sound(cfg, At(st, i, s, clock))
  {
    hide R.Key, ExpiresAt;
    forall j | 0 <= j < |st.sessions| && j != i && Holds(st.sessions[j])
      ensures Holds(s) ==> Exclusive(cfg, s, st.sessions[j])
    {
      if Holds(s) {
        var a, b := if i < j then i else j, if i < j then j else i;
        assert Exclusive(cfg, st.sessions[a], st.sessions[b]);
      }
    }
    SoundReplace(cfg, st, i, s, st.store, clock);
  }

  lemma StepSound(cfg: Config, st: State, e: Event)
    requires Sound(cfg, st) && Enabled(st, e)
    ensures Sound(cfg, Step(cfg, st, e))
  {
    hide R.Key, R.Use, ExpiresAt, Fresh, TokenPasses;
    match e
    case Enter(_, _, _, _) =>
      assert forall j :: 0 <= j < |st.sessions| ==> Step(cfg, st, e).sessions[j] == st.sessions[j];
    case Check(i, m) => MoveSound(cfg, st, i, AfterCheck(cfg, st.sessions[i], m), m.third);
    case RunClaim(i, now) => ClaimSound(cfg, st, i, now);
    case Drop(i) => MoveSound(cfg, st, i, Step(cfg, st, e).sessions[i], st.clock);
    case Other(claim, at) =>
      forall j | 0 <= j < |st.sessions| && Holds(st.sessions[j])
        ensures Guarded(cfg, R.Use(st.store, claim, at, cfg.maxEntries).1, at, st.sessions[j])
      {
        GuardedKeeps(cfg, st, st.sessions[j], claim, at);
      }
  }

  // ------------------------------------------------- what each phase has behind it

  /** What has been checked so far allows every moment from now on. */
  predicate Earned(cfg: Config, clock: real, s: Session) {
    var a, p := s.attestation, s.proof;
    && (a.chain.Some? ==> s.chain == a.chain.value)
    && (!s.phase.Rejected? ==>
          ValidConfig(cfg) && cfg.accepts(a, p) && p.iss == a.sub && s.chain.issuedAt - cfg.skew <= clock)
    && (match s.phase
        case Rejected => true
        case Trusted => true
        case Attested => From(cfg, a.nbf, clock) <= clock
        case Checked => From(cfg, a.nbf, p.iat - cfg.skew) <= clock
        case Succeeded(claimed, t) =>
          && Eligible(cfg, a, p) && claimed <= t && Opens(cfg, a, p) <= t < Closes(cfg, a, p)
          && s.chain.issuedAt - cfg.skew <= t < s.chain.expiresAt
        case Answered(outcome, claimed) =>
          Opens(cfg, a, p) <= clock && claimed <= clock && (outcome.Accepted? ==> Eligible(cfg, a, p))
        case _ => Opens(cfg, a, p) <= clock)
  }

  ghost predicate AllEarned(cfg: Config, st: State) {
    forall i :: 0 <= i < |st.sessions| ==> Earned(cfg, st.clock, st.sessions[i])
  }

  lemma EarnedLater(cfg: Config, clock: real, later: real, s: Session)
    requires Earned(cfg, clock, s) && clock <= later
    ensures Earned(cfg, later, s)
  {
    hide Ceiling, ExpiresAt;
  }

  /** A token that passed has its not-before date behind it. */
  lemma TokenPassed(cfg: Config, nbf: Option<real>, exp: Option<real>, now: real, earliest: real)
    requires TokenPasses(cfg, nbf, exp, now) && earliest <= now
    ensures From(cfg, nbf, earliest) <= now
  {
    if nbf.Some? {
      CeilingBounds(nbf.value - cfg.skew, now);
    }
  }

  lemma CheckEarned(cfg: Config, clock: real, s: Session, m: Moment)
    requires Earned(cfg, clock, s) && HasCheck(s.phase) && After(clock, m)
    ensures Earned(cfg, m.third, AfterCheck(cfg, s, m))
  {
    hide Ceiling, ExpiresAt, TokenPasses, From;
    EarnedLater(cfg, clock, m.first, s);
    EarnedLater(cfg, clock, m.third, s);
    match s.phase
    case Trusted =>
      if TokenPasses(cfg, s.attestation.nbf, Some(s.attestation.exp), m.first) {
        TokenPassed(cfg, s.attestation.nbf, Some(s.attestation.exp), m.first, m.first);
        FromLater(cfg, s.attestation.nbf, m.first, m.third);
      }
    case Attested =>
      if Fresh(cfg, s, m) {
        FromLater(cfg, s.attestation.nbf, m.first, m.third);
        FromEarlier(cfg, s.attestation.nbf, s.proof.iat - cfg.skew, m.first);
      }
    case Checked =>
      if TokenPasses(cfg, s.proof.nbf, s.proof.exp, m.first) {
        var earliest := From(cfg, s.attestation.nbf, s.proof.iat - cfg.skew);
        TokenPassed(cfg, s.proof.nbf, s.proof.exp, m.first, earliest);
      }
    case _ =>
  }

  lemma FromLater(cfg: Config, nbf: Option<real>, t: real, later: real)
    requires From(cfg, nbf, t) <= t <= later
    ensures From(cfg, nbf, later) <= later
  {
    hide Ceiling;
  }

  lemma FromEarlier(cfg: Config, nbf: Option<real>, earliest: real, t: real)
    requires From(cfg, nbf, t) <= t && earliest <= t
    ensures From(cfg, nbf, earliest) <= t
  {
    hide Ceiling;
  }

  lemma ClaimEarned(cfg: Config, st: State, s: Session, now: real)
    requires Earned(cfg, st.clock, s) && st.clock <= now
    ensures var used := R.Use(st.store, ClaimOf(cfg, s.attestation, s.proof), now, cfg.maxEntries);
            Earned(cfg, now, AfterClaim(s, used.0, now))
  {
    hide R.Use, Opens, Closes;
    EarnedLater(cfg, st.clock, now, s);
    if R.Use(st.store, ClaimOf(cfg, s.attestation, s.proof), now, cfg.maxEntries).0.Accepted? {
      UseRecords(st.store, ClaimOf(cfg, s.attestation, s.proof), now, cfg.maxEntries);
    }
  }

  lemma StepEarned(cfg: Config, st: State, e: Event)
    requires AllEarned(cfg, st) && Enabled(st, e)
    ensures AllEarned(cfg, Step(cfg, st, e))
  {
    hide R.Use, Opens, Closes, From, AfterCheck, AfterClaim;
    var after := Step(cfg, st, e);
    forall j | 0 <= j < |after.sessions|
      ensures Earned(cfg, after.clock, after.sessions[j])
    {
      if e.Check? && e.i == j {
        CheckEarned(cfg, st.clock, st.sessions[j], e.m);
      } else if e.RunClaim? && e.i == j {
        ClaimEarned(cfg, st, st.sessions[j], e.now);
      } else if j < |st.sessions| {
        EarnedLater(cfg, st.clock, after.clock, st.sessions[j]);
      }
    }
  }

  // ------------------------------------------------- runs

  ghost predicate Run(cfg: Config, trace: seq<State>, es: seq<Event>) {
    && |trace| == |es| + 1 && trace[0].sessions == [] && trace[0].store == map[]
    && forall k :: 0 <= k < |es| ==> Enabled(trace[k], es[k]) && trace[k + 1] == Step(cfg, trace[k], es[k])
  }

  lemma {:induction false} RunSound(cfg: Config, trace: seq<State>, es: seq<Event>, k: nat)
    requires Run(cfg, trace, es) && k <= |es|
    ensures Sound(cfg, trace[k]) && AllEarned(cfg, trace[k])
  {
    hide Step, Enabled, Earned;
    if k > 0 {
      RunSound(cfg, trace, es, k - 1);
      StepSound(cfg, trace[k - 1], es[k - 1]);
      StepEarned(cfg, trace[k - 1], es[k - 1]);
    }
  }

  predicate Won(s: Session, a: Attestation, p: Proof) {
    s.attestation == a && s.proof == p && s.phase.Succeeded?
  }

  /** Two sessions for one identifier both succeed only if one of them concluded, within its
      own window, after the record of the other had expired. */
  lemma SuccessesDiffer(cfg: Config, trace: seq<State>, es: seq<Event>, k: nat, i: nat, j: nat)
    requires Run(cfg, trace, es) && k <= |es| && i < |trace[k].sessions| && j < |trace[k].sessions| && i != j
    requires TripleOf(cfg, trace[k].sessions[i].proof) == TripleOf(cfg, trace[k].sessions[j].proof)
    requires trace[k].sessions[i].phase.Succeeded? && trace[k].sessions[j].phase.Succeeded?
    ensures var s, t := trace[k].sessions[i], trace[k].sessions[j];
            && Expiry(cfg, s) != Expiry(cfg, t)
            && (Expiry(cfg, s) <= t.phase.concludedAt || Expiry(cfg, t) <= s.phase.concludedAt)
  {
    hide Step, Enabled, ExpiresAt, Opens;
    RunSound(cfg, trace, es, k);
    var s, t := trace[k].sessions[i], trace[k].sessions[j];
    var a, b := if i < j then i else j, if i < j then j else i;
    assert Exclusive(cfg, trace[k].sessions[a], trace[k].sessions[b]);
    assert Earned(cfg, trace[k].clock, s) && Earned(cfg, trace[k].clock, t);
  }

  /** A given attestation and proof authenticate at most once, however sessions, time-outs
      and other users of the store interleave. */
  lemma AtMostOnce(cfg: Config, trace: seq<State>, es: seq<Event>, k: nat, i: nat, j: nat)
    requires Run(cfg, trace, es) && k <= |es| && i < |trace[k].sessions| && j < |trace[k].sessions|
    requires trace[k].sessions[i].attestation == trace[k].sessions[j].attestation
    requires trace[k].sessions[i].proof == trace[k].sessions[j].proof
    requires trace[k].sessions[i].phase.Succeeded? && trace[k].sessions[j].phase.Succeeded?
    ensures i == j
  {
    hide Step, Enabled, ExpiresAt;
    if i != j {
      SuccessesDiffer(cfg, trace, es, k, i, j);
    }
  }

  // ------------------------------------------------- when a pair succeeds

  lemma Next(cfg: Config, trace: seq<State>, es: seq<Event>, e: Event) returns (trace': seq<State>, es': seq<Event>)
    requires Run(cfg, trace, es) && Enabled(trace[|es|], e)
    ensures Run(cfg, trace', es') && trace'[|es'|] == Step(cfg, trace[|es|], e)
  {
    hide Step, Enabled;
    trace', es' := trace + [Step(cfg, trace[|es|], e)], es + [e];
    forall k | 0 <= k < |es'|
      ensures Enabled(trace'[k], es'[k]) && trace'[k + 1] == Step(cfg, trace'[k], es'[k])
    {
      assert k < |es| ==> trace'[k] == trace[k] && trace'[k + 1] == trace[k + 1] && es'[k] == es[k];
    }
  }

  function ChainFor(a: Attestation, t: real): Chain {
    if a.chain.Some? then a.chain.value else Chain(t, t + 1.0)
  }

  lemma FromAllows(cfg: Config, nbf: Option<real>, earliest: real, t: real)
    requires From(cfg, nbf, earliest) <= t
    ensures earliest <= t && (nbf.Some? ==> nbf.value <= t.Floor as real + cfg.skew)
  {
    if nbf.Some? {
      CeilingBounds(nbf.value - cfg.skew, t);
    }
  }

  /** Inside its window a pair passes every check. */
  lemma WindowPasses(cfg: Config, a: Attestation, p: Proof, t: real, phase: Phase, pending: bool)
    requires ValidConfig(cfg) && Opens(cfg, a, p) <= t < Closes(cfg, a, p)
    ensures ChainPasses(cfg, ChainFor(a, t), t)
    ensures TokenPasses(cfg, a.nbf, Some(a.exp), t) && TokenPasses(cfg, p.nbf, p.exp, t)
    ensures Fresh(cfg, Session(a, p, ChainFor(a, t), phase, pending), Moment(t, t, t))
  {
    FromAllows(cfg, p.nbf, From(cfg, a.nbf, p.iat - cfg.skew), t);
    FromAllows(cfg, a.nbf, p.iat - cfg.skew, t);
    assert t.Floor as real <= t;
  }

  /** A session that runs alone within its window, with no live record in its way, succeeds. */
  lemma OneSession(cfg: Config, trace: seq<State>, es: seq<Event>, a: Attestation, p: Proof, t: real)
    returns (trace': seq<State>, es': seq<Event>)
    requires Run(cfg, trace, es) && trace[|es|].clock <= t
    requires Eligible(cfg, a, p) && Opens(cfg, a, p) <= t < Closes(cfg, a, p)
    requires R.Live(trace[|es|].store, t) == map[]
    ensures Run(cfg, trace', es')
    ensures var before, after := trace[|es|], trace'[|es'|];
            && |after.sessions| == |before.sessions| + 1 && after.sessions[..|before.sessions|] == before.sessions
            && Won(after.sessions[|before.sessions|], a, p) && after.clock == t
            && after.store == map[R.Key(TripleOf(cfg, p)) := ExpiresAt(cfg, a, p)]
  {
    hide R.Key, R.Live, ExpiresAt, Opens, Closes, Fresh, TokenPasses, ChainPasses;
    var n, m, chain := |trace[|es|].sessions|, Moment(t, t, t), ChainFor(a, t);
    WindowPasses(cfg, a, p, t, Attested, false);
    WindowPasses(cfg, a, p, t, Proven, false);
    WindowPasses(cfg, a, p, t, Answered(R.Accepted, t), false);
    trace', es' := Next(cfg, trace, es, Enter(a, p, chain, t));
    assert trace'[|es'|].sessions[n] == Session(a, p, chain, Trusted, false);
    trace', es' := Next(cfg, trace', es', Check(n, m));
    assert trace'[|es'|].sessions[n] == Session(a, p, chain, Attested, false);
    trace', es' := Next(cfg, trace', es', Check(n, m));
    assert trace'[|es'|].sessions[n] == Session(a, p, chain, Checked, false);
    trace', es' := Next(cfg, trace', es', Check(n, m));
    assert trace'[|es'|].sessions[n] == Session(a, p, chain, Proven, false);
    trace', es' := Next(cfg, trace', es', Check(n, m));
    assert trace'[|es'|].sessions[n] == Session(a, p, chain, Claiming, true);
    trace', es' := Next(cfg, trace', es', RunClaim(n, t));
    assert trace'[|es'|].sessions[n] == Session(a, p, chain, Answered(R.Accepted, t), false);
    trace', es' := Next(cfg, trace', es', Check(n, m));
  }

  lemma EmptyRun(cfg: Config, t: real) returns (trace: seq<State>, es: seq<Event>)
    ensures Run(cfg, trace, es) && trace[|es|] == State(map[], [], t) && R.Live(map[], t) == map[]
  {
    trace, es := [State(map[], [], t)], [];
  }

  ghost predicate SomeWon(st: State, a: Attestation, p: Proof) {
    exists i :: 0 <= i < |st.sessions| && Won(st.sessions[i], a, p)
  }

  lemma SomeWonTakes(cfg: Config, trace: seq<State>, es: seq<Event>, a: Attestation, p: Proof)
    requires Run(cfg, trace, es) && SomeWon(trace[|es|], a, p)
    ensures Eligible(cfg, a, p) && Opens(cfg, a, p) < Closes(cfg, a, p)
  {
    hide Step, Enabled, Opens, Closes, Eligible;
    var st := trace[|es|];
    var i :| 0 <= i < |st.sessions| && Won(st.sessions[i], a, p);
    RunSound(cfg, trace, es, |es|);
    assert Earned(cfg, st.clock, st.sessions[i]);
  }

  /** A pair can authenticate if and only if nothing but the clock stands against it and its
      dates leave a window. */
  lemma OnceExactly(cfg: Config, a: Attestation, p: Proof)
    ensures (exists trace, es :: Run(cfg, trace, es) && SomeWon(trace[|es|], a, p)) <==>
            Eligible(cfg, a, p) && Opens(cfg, a, p) < Closes(cfg, a, p)
  {
    hide Step, Enabled, Opens, Closes, Eligible;
    if trace, es :| Run(cfg, trace, es) && SomeWon(trace[|es|], a, p) {
      SomeWonTakes(cfg, trace, es, a, p);
    }
    if Eligible(cfg, a, p) && Opens(cfg, a, p) < Closes(cfg, a, p) {
      var trace, es := EmptyRun(cfg, Opens(cfg, a, p));
      trace, es := OneSession(cfg, trace, es, a, p, Opens(cfg, a, p));
      assert SomeWon(trace[|es|], a, p);
    }
  }

  // ------------------------------------------------- the pair, not the proof alone

  /** Both pairs have succeeded, each in a session of its own. */
  ghost predicate BothWon(st: State, a: Attestation, p: Proof, b: Attestation, q: Proof) {
    exists i, j :: 0 <= i < |st.sessions| && 0 <= j < |st.sessions| && i != j &&
      Won(st.sessions[i], a, p) && Won(st.sessions[j], b, q)
  }

  /** The first pair has a window, and the second's reaches past the first's record. */
  predicate OneAfterOther(cfg: Config, a: Attestation, p: Proof, b: Attestation, q: Proof) {
    && Opens(cfg, a, p) < Closes(cfg, a, p)
    && Greatest(ExpiresAt(cfg, a, p), Opens(cfg, b, q)) < Closes(cfg, b, q)
  }

  lemma BothWonTakes(cfg: Config, trace: seq<State>, es: seq<Event>, a: Attestation, p: Proof, b: Attestation, q: Proof)
    requires p.iss == q.iss && p.jti == q.jti && Run(cfg, trace, es) && BothWon(trace[|es|], a, p, b, q)
    ensures Eligible(cfg, a, p) && Eligible(cfg, b, q)
    ensures OneAfterOther(cfg, a, p, b, q) || OneAfterOther(cfg, b, q, a, p)
  {
    hide Step, Enabled, Expiry, Eligible, Opens, Closes;
    var st := trace[|es|];
    var i, j :| 0 <= i < |st.sessions| && 0 <= j < |st.sessions| && i != j &&
      Won(st.sessions[i], a, p) && Won(st.sessions[j], b, q);
    RunSound(cfg, trace, es, |es|);
    assert Earned(cfg, st.clock, st.sessions[i]) && Earned(cfg, st.clock, st.sessions[j]);
    SuccessesDiffer(cfg, trace, es, |es|, i, j);
    hide Sound, AllEarned, Run;
    FollowsFrom(cfg, st.sessions[i], st.sessions[j]);
    FollowsFrom(cfg, st.sessions[j], st.sessions[i]);
  }

  lemma FollowsFrom(cfg: Config, s: Session, t: Session)
    requires s.phase.Succeeded? && t.phase.Succeeded?
    requires Opens(cfg, s.attestation, s.proof) <= s.phase.concludedAt < Closes(cfg, s.attestation, s.proof)
    requires Opens(cfg, t.attestation, t.proof) <= t.phase.concludedAt < Closes(cfg, t.attestation, t.proof)
    ensures Expiry(cfg, s) <= t.phase.concludedAt ==> OneAfterOther(cfg, s.attestation, s.proof, t.attestation, t.proof)
  {
    hide ExpiresAt, Opens, Closes;
  }

  /** The run in which the second follows once the first's record is gone. */
  lemma TwoSessionsSucceed(cfg: Config, a: Attestation, p: Proof, b: Attestation, q: Proof)
    returns (trace: seq<State>, es: seq<Event>)
    requires Eligible(cfg, a, p) && Eligible(cfg, b, q) && OneAfterOther(cfg, a, p, b, q)
    ensures Run(cfg, trace, es) && BothWon(trace[|es|], a, p, b, q) && BothWon(trace[|es|], b, q, a, p)
  {
    hide R.Key, ExpiresAt, Opens, Eligible, Step, Enabled, Won;
    assert Closes(cfg, a, p) <= ExpiresAt(cfg, a, p);
    hide Closes;
    var u := Greatest(ExpiresAt(cfg, a, p), Opens(cfg, b, q));
    trace, es := EmptyRun(cfg, Opens(cfg, a, p));
    trace, es := OneSession(cfg, trace, es, a, p, Opens(cfg, a, p));
    var first := trace[|es|].sessions[0];
    assert R.Live(trace[|es|].store, u) == map[];
    assert trace[|es|].sessions == [first];
    trace, es := OneSession(cfg, trace, es, b, q, u);
    assert trace[|es|].sessions[..1][0] == first;
    assert Won(trace[|es|].sessions[0], a, p) && Won(trace[|es|].sessions[1], b, q);
  }

  /** One identifier is good for two successes in some run exactly when nothing but the clock
      stands against either pair and, in one order or the other, the first has a window and
      the second's reaches past the first's record. So one pair is good for one. */
  lemma TwiceExactly(cfg: Config, a: Attestation, p: Proof, b: Attestation, q: Proof)
    requires p.iss == q.iss && p.jti == q.jti
    ensures (exists trace, es :: Run(cfg, trace, es) && BothWon(trace[|es|], a, p, b, q)) <==>
            && Eligible(cfg, a, p) && Eligible(cfg, b, q)
            && (OneAfterOther(cfg, a, p, b, q) || OneAfterOther(cfg, b, q, a, p))
  {
    hide Eligible, OneAfterOther, BothWon, Step, Enabled;
    if trace, es :| Run(cfg, trace, es) && BothWon(trace[|es|], a, p, b, q) {
      BothWonTakes(cfg, trace, es, a, p, b, q);
    }
    if Eligible(cfg, a, p) && Eligible(cfg, b, q) {
      if OneAfterOther(cfg, a, p, b, q) {
        var trace, es := TwoSessionsSucceed(cfg, a, p, b, q);
      } else if OneAfterOther(cfg, b, q, a, p) {
        var trace, es := TwoSessionsSucceed(cfg, b, q, a, p);
      }
    }
  }

  /** Expiries at 100 and 200: one proof is good for two successes, but not when the second
      attestation's own chain ends at 90, nor when it may not be used before 200. */
  lemma TwoAttestations(cfg: Config, text: Str, iss: Str, jti: Str, early: Attestation, late: Attestation)
    requires cfg.skew == 0.0 && cfg.maxAge == 300.0
    requires early.exp == 100.0 && early.nbf.None? && early.chain.None? && late.exp == 200.0
    requires var p := Proof(text, iss, jti, 0.0, None, None);
             Eligible(cfg, early, p) && Eligible(cfg, late, p)
    ensures var p := Proof(text, iss, jti, 0.0, None, None);
            var both := exists trace, es :: Run(cfg, trace, es) && BothWon(trace[|es|], early, p, late, p);
            && (late.nbf.None? && late.chain.None? ==> both)
            && (late.nbf.None? && late.chain == Some(Chain(0.0, 90.0)) ==> !both)
            && (late.nbf == Some(200.0) && late.chain.None? ==> !both)
  {
    var p := Proof(text, iss, jti, 0.0, None, None);
    assert ExpiresAt(cfg, early, p) == 100.0 && ExpiresAt(cfg, late, p) == 200.0;
    CeilingBounds(200.0, 200.0);
    CeilingBounds(200.0, 199.0);
    assert Ceiling(200.0) == 200.0;
    TwiceExactly(cfg, early, p, late, p);
  }

  // ------------------------------------------------- the windows by their dates

  /** Every date of the two tokens and the chain allows the moment. */
  ghost predicate DatesAllow(cfg: Config, a: Attestation, p: Proof, chain: Chain, t: real) {
    && p.iat <= t + cfg.skew && t < p.iat + cfg.maxAge + cfg.skew
    && (forall d :: a.nbf == Some(d) ==> d <= t.Floor as real + cfg.skew) && t < a.exp + cfg.skew
    && (forall d :: p.nbf == Some(d) ==> d <= t.Floor as real + cfg.skew)
    && (forall d :: p.exp == Some(d) ==> t < d + cfg.skew)
    && chain.issuedAt <= t + cfg.skew && t < chain.expiresAt
  }

  /** The record of a pair has expired: one of its three bounds is past. */
  ghost predicate RecordGone(cfg: Config, a: Attestation, p: Proof, t: real) {
    || p.iat + cfg.maxAge + cfg.skew <= t
    || a.exp + cfg.skew <= t
    || exists d :: p.exp == Some(d) && d + cfg.skew <= t
  }

  lemma ExpiryIsRecordGone(cfg: Config, a: Attestation, p: Proof, t: real)
    ensures RecordGone(cfg, a, p, t) <==> ExpiresAt(cfg, a, p) <= t
  {
  }

  lemma FromIsDate(cfg: Config, nbf: Option<real>, earliest: real, t: real)
    ensures From(cfg, nbf, earliest) <= t <==>
            earliest <= t && forall d :: nbf == Some(d) ==> d <= t.Floor as real + cfg.skew
  {
    if nbf.Some? {
      CeilingBounds(nbf.value - cfg.skew, t);
    }
  }

  /** The window of a pair is the moments all its dates allow. */
  lemma WindowIsDates(cfg: Config, a: Attestation, p: Proof, t: real)
    requires cfg.skew >= 0.0
    ensures Opens(cfg, a, p) <= t < Closes(cfg, a, p) <==> DatesAllow(cfg, a, p, ChainFor(a, t), t)
  {
    hide From;
    FromIsDate(cfg, p.nbf, From(cfg, a.nbf, p.iat - cfg.skew), t);
    FromIsDate(cfg, a.nbf, p.iat - cfg.skew, t);
    ExpiryIsRecordGone(cfg, a, p, t);
  }

  lemma DatesByChain(cfg: Config, a: Attestation, p: Proof, chain: Chain, other: Chain, t: real)
    requires DatesAllow(cfg, a, p, other, t) && chain.issuedAt - cfg.skew <= t < chain.expiresAt
    ensures DatesAllow(cfg, a, p, chain, t)
  {
  }

  /** In every run a success concludes at a moment that all the dates allow, those of the
      chain in use among them, with the claim made before. */
  lemma SuccessWithinDates(cfg: Config, trace: seq<State>, es: seq<Event>, k: nat, i: nat)
    requires Run(cfg, trace, es) && k <= |es| && i < |trace[k].sessions| && trace[k].sessions[i].phase.Succeeded?
    ensures var s := trace[k].sessions[i];
            && Eligible(cfg, s.attestation, s.proof) && s.phase.claimedAt <= s.phase.concludedAt
            && DatesAllow(cfg, s.attestation, s.proof, s.chain, s.phase.concludedAt)
            && (s.attestation.chain.Some? ==> s.chain == s.attestation.chain.value)
  {
    hide Step, Enabled, Opens, Closes, DatesAllow;
    RunSound(cfg, trace, es, k);
    var s := trace[k].sessions[i];
    assert Earned(cfg, trace[k].clock, s);
    var t := s.phase.concludedAt;
    WindowIsDates(cfg, s.attestation, s.proof, t);
    DatesByChain(cfg, s.attestation, s.proof, s.chain, ChainFor(s.attestation, t), t);
  }

  /** A pair can authenticate if and only if nothing but the clock stands against it and there
      is a moment that all its dates allow. */
  lemma OnceByDates(cfg: Config, a: Attestation, p: Proof)
    ensures (exists trace, es :: Run(cfg, trace, es) && SomeWon(trace[|es|], a, p)) <==>
            Eligible(cfg, a, p) && exists t :: DatesAllow(cfg, a, p, ChainFor(a, t), t)
  {
    hide Run, SomeWon, Opens, Closes, DatesAllow;
    OnceExactly(cfg, a, p);
    if Eligible(cfg, a, p) {
      if t :| DatesAllow(cfg, a, p, ChainFor(a, t), t) {
        WindowIsDates(cfg, a, p, t);
      }
      WindowIsDates(cfg, a, p, Opens(cfg, a, p));
    }
  }

  /** The first pair is allowed at some moment, the second at one when the record is gone. */
  ghost predicate InTurn(cfg: Config, a: Attestation, p: Proof, b: Attestation, q: Proof) {
    exists t, u :: DatesAllow(cfg, a, p, ChainFor(a, t), t) && DatesAllow(cfg, b, q, ChainFor(b, u), u) &&
      RecordGone(cfg, a, p, u)
  }

  lemma InTurnIsOrder(cfg: Config, a: Attestation, p: Proof, b: Attestation, q: Proof)
    requires cfg.skew >= 0.0
    ensures InTurn(cfg, a, p, b, q) <==> OneAfterOther(cfg, a, p, b, q)
  {
    hide Opens, Closes, DatesAllow, ExpiresAt, RecordGone;
    if InTurn(cfg, a, p, b, q) {
      var t, u :| DatesAllow(cfg, a, p, ChainFor(a, t), t) && DatesAllow(cfg, b, q, ChainFor(b, u), u) &&
          RecordGone(cfg, a, p, u);
      WindowIsDates(cfg, a, p, t);
      WindowIsDates(cfg, b, q, u);
      ExpiryIsRecordGone(cfg, a, p, u);
    }
    if OneAfterOther(cfg, a, p, b, q) {
      var t, u := Opens(cfg, a, p), Greatest(ExpiresAt(cfg, a, p), Opens(cfg, b, q));
      WindowIsDates(cfg, a, p, t);
      WindowIsDates(cfg, b, q, u);
      ExpiryIsRecordGone(cfg, a, p, u);
    }
  }

  /** And one identifier is good for two successes if and only if, in one order or the other,
      the dates allow the second pair at a moment when the record of the first has expired. */
  lemma TwiceByDates(cfg: Config, a: Attestation, p: Proof, b: Attestation, q: Proof)
    requires p.iss == q.iss && p.jti == q.jti
    ensures (exists trace, es :: Run(cfg, trace, es) && BothWon(trace[|es|], a, p, b, q)) <==>
            && Eligible(cfg, a, p) && Eligible(cfg, b, q)
            && (InTurn(cfg, a, p, b, q) || InTurn(cfg, b, q, a, p))
  {
    hide Run, BothWon, OneAfterOther, InTurn;
    TwiceExactly(cfg, a, p, b, q);
    if Eligible(cfg, a, p) {
      InTurnIsOrder(cfg, a, p, b, q);
      InTurnIsOrder(cfg, b, q, a, p);
    }
  }

  /** In every run a session goes to the store only in a check made at a moment that all the
      dates allow; no other step makes a claim. */
  lemma ClaimsWithinDates(cfg: Config, trace: seq<State>, es: seq<Event>, k: nat, i: nat)
    requires Run(cfg, trace, es) && k < |es| && i < |trace[k + 1].sessions| && trace[k + 1].sessions[i].pending
    requires i < |trace[k].sessions| ==> !trace[k].sessions[i].pending
    ensures var s := trace[k + 1].sessions[i];
            && es[k].Check? && es[k].i == i
            && ValidConfig(cfg) && cfg.accepts(s.attestation, s.proof) && s.proof.iss == s.attestation.sub
            && DatesAllow(cfg, s.attestation, s.proof, s.chain, es[k].m.second)
  {
    hide R.Use, Opens, Closes, DatesAllow, ExpiresAt;
    RunSound(cfg, trace, es, k);
    assert Enabled(trace[k], es[k]) && trace[k + 1] == Step(cfg, trace[k], es[k]);
    var s, t := trace[k].sessions[i], es[k].m.second;
    assert Earned(cfg, trace[k].clock, s);
    WithinWindow(cfg, s, es[k].m);
    WindowIsDates(cfg, s.attestation, s.proof, t);
    DatesByChain(cfg, s.attestation, s.proof, s.chain, ChainFor(s.attestation, t), t);
  }

  lemma WithinWindow(cfg: Config, s: Session, m: Moment)
    requires Fresh(cfg, s, m) && m.second <= m.third && Opens(cfg, s.attestation, s.proof) <= m.second
    requires s.attestation.chain.Some? ==> s.chain == s.attestation.chain.value
    ensures Opens(cfg, s.attestation, s.proof) <= m.second < Closes(cfg, s.attestation, s.proof)
  {
    hide Opens, ExpiresAt;
  }
}
