/** The entity configuration of a leaf: built at most once at a time, cached until it
    expires, and rebuilt under a new generation by a refresh. Builds take several turns and
    may settle in any order. */
module LeafCache {
  import opened Options
  import opened Text

  /** A build first reads the keys and fixes its payload, then signs. */
  datatype Phase = Started | Prepared(exp: int) | Succeeded(jwt: Str, exp: int) | Failed

  /** `finalized` once the callback that clears `inflight` has run, a turn after settling. */
  datatype Build = Build(generation: nat, phase: Phase, finalized: bool)

  /** `inflight` holds the number of the build whose promise it is. */
  datatype State = State(
    cachedJwt: Option<Str>, cachedExp: Option<int>, inflight: Option<nat>, generation: nat, builds: seq<Build>)

  const INITIAL := State(None, None, None, 0, [])

  datatype Reply = Cached(jwt: Str) | Awaiting(build: nat)

  datatype Event =
    | Get(now: int)
    | Refresh
    | Prepare(i: nat, now: int)
    | Succeed(i: nat, jwt: Str)
    | Fail(i: nat)
    | Finalize(i: nat)

  predicate Expired(s: State, now: int) {
    s.cachedExp.None? || now >= s.cachedExp.value
  }

  predicate Serves(s: State, now: int) {
    s.cachedJwt.Some? && s.cachedJwt.value != [] && !Expired(s, now)
  }

  /** A new build of the given generation becomes the one in flight. */
  function Launch(s: State, generation: nat): State {
    s.(inflight := Some(|s.builds|), builds := s.builds + [Build(generation, Started, false)])
  }

  function AnswerGet(s: State, now: int): Reply {
    if Serves(s, now) then Cached(s.cachedJwt.value)
    else if s.inflight.Some? then Awaiting(s.inflight.value)
    else Awaiting(|s.builds|)
  }

  function DoGet(s: State, now: int): State {
    if Serves(s, now) || s.inflight.Some? then s else Launch(s, s.generation)
  }

  function DoRefresh(s: State): State {
    Launch(s.(generation := s.generation + 1, cachedJwt := None, cachedExp := None), s.generation + 1)
  }

  function AnswerRefresh(s: State): Reply {
    Awaiting(|s.builds|)
  }

  function SetPhase(s: State, i: nat, phase: Phase): State
    requires i < |s.builds|
  {
    s.(builds := s.builds[i := s.builds[i].(phase := phase)])
  }

  /** The signed token is cached only while its generation is the current one. */
  function DoSucceed(s: State, i: nat, jwt: Str): State
    requires i < |s.builds| && s.builds[i].phase.Prepared?
  {
    var exp := s.builds[i].phase.exp;
    var settled := SetPhase(s, i, Succeeded(jwt, exp));
    if s.builds[i].generation == s.generation then settled.(cachedJwt := Some(jwt), cachedExp := Some(exp)) else settled
  }

  function DoFinalize(s: State, i: nat): State
    requires i < |s.builds|
  {
    var done := s.(builds := s.builds[i := s.builds[i].(finalized := true)]);
    if s.builds[i].generation == s.generation then done.(inflight := None) else done
  }

  predicate Enabled(s: State, e: Event) {
    match e
    case Get(_) => true
    case Refresh => true
    case Prepare(i, _) => i < |s.builds| && s.builds[i].phase.Started?
    case Succeed(i, jwt) => i < |s.builds| && s.builds[i].phase.Prepared?
    case Fail(i) => i < |s.builds| && (s.builds[i].phase.Started? || s.builds[i].phase.Prepared?)
    case Finalize(i) =>
      i < |s.builds| && !s.builds[i].finalized && (s.builds[i].phase.Succeeded? || s.builds[i].phase.Failed?)
  }

  function Step(s: State, e: Event, ttl: int): State
    requires Enabled(s, e)
  {
    match e
    case Get(now) => DoGet(s, now)
    case Refresh => DoRefresh(s)
    case Prepare(i, now) => SetPhase(s, i, Prepared(now + ttl))
    case Succeed(i, jwt) => DoSucceed(s, i, jwt)
    case Fail(i) => SetPhase(s, i, Failed)
    case Finalize(i) => DoFinalize(s, i)
  }

  // ------------------------------------------------- in place

  /** The leaf's fields; the builds stand for the promises it has created. */
  class Leaf {
    const ttl: int
    var cachedJwt: Option<Str>
    var cachedExp: Option<int>
    var inflight: Option<nat>
    var generation: nat
    var builds: seq<Build>

    ghost function View(): State
      reads this
    {
      State(cachedJwt, cachedExp, inflight, generation, builds)
    }

    constructor (ttl: int)
      requires ttl > 0
      ensures this.ttl == ttl && View() == INITIAL && Sound(View())
    {
      this.ttl := ttl;
      cachedJwt, cachedExp, inflight, generation, builds := None, None, None, 0, [];
    }

    method StartBuild(forGeneration: nat) returns (i: nat)
      modifies this
      ensures i == |old(builds)| && View() == Launch(old(View()), forGeneration)
    {
      i := |builds|;
      builds := builds + [Build(forGeneration, Started, false)];
      inflight := Some(i);
    }

    method GetEntityConfiguration(now: int) returns (r: Reply)
      requires Sound(View())
      modifies this
      ensures Sound(View()) && View() == DoGet(old(View()), now) && r == AnswerGet(old(View()), now)
    {
      GetSound(View(), now);
      var expired := cachedExp.None? || now >= cachedExp.value;
      if cachedJwt.Some? && cachedJwt.value != [] && !expired {
        return Cached(cachedJwt.value);
      }
      if inflight.Some? {
        return Awaiting(inflight.value);
      }
      var i := StartBuild(generation);
      return Awaiting(i);
    }

    method RefreshEntityConfiguration() returns (r: Reply)
      requires Sound(View())
      modifies this
      ensures Sound(View()) && View() == DoRefresh(old(View())) && r == AnswerRefresh(old(View()))
    {
      RefreshSound(View());
      generation := generation + 1;
      cachedJwt, cachedExp := None, None;
      var i := StartBuild(generation);
      return Awaiting(i);
    }

    /** A build has its keys and fixes its payload. */
    method PreparePayload(i: nat, now: int)
      requires Sound(View()) && i < |builds| && builds[i].phase.Started?
      modifies this
      ensures Sound(View()) && View() == SetPhase(old(View()), i, Prepared(now + ttl))
    {
      PhaseSound(View(), i, Prepared(now + ttl));
      builds := builds[i := builds[i].(phase := Prepared(now + ttl))];
    }

    /** The end of a build: the token is signed. */
    method Complete(i: nat, jwt: Str)
      requires Sound(View()) && i < |builds| && builds[i].phase.Prepared?
      modifies this
      ensures Sound(View()) && View() == DoSucceed(old(View()), i, jwt)
    {
      SucceedSound(View(), i, jwt);
      var exp := builds[i].phase.exp;
      if builds[i].generation == generation {
        cachedJwt := Some(jwt);
        cachedExp := Some(exp);
      }
      builds := builds[i := builds[i].(phase := Succeeded(jwt, exp))];
    }

    /** The `finally` callback. */
    method Settle(i: nat)
      requires Sound(View()) && i < |builds| && Enabled(View(), Finalize(i))
      modifies this
      ensures Sound(View()) && View() == DoFinalize(old(View()), i)
    {
      FinalizeSound(View(), i);
      builds := builds[i := builds[i].(finalized := true)];
      if builds[i].generation == generation {
        inflight := None;
      }
    }
  }

  // ------------------------------------------------- what every state keeps

  /** A build of the current generation whose callback has not run. */
  predicate Outstanding(s: State, i: nat) {
    i < |s.builds| && s.builds[i].generation == s.generation && !s.builds[i].finalized
  }

  /** Generations never decrease from one build to a later one. */
  ghost predicate Aged(s: State) {
    && (forall i :: 0 <= i < |s.builds| ==> s.builds[i].generation <= s.generation)
    && (forall i, j :: 0 <= i < j < |s.builds| ==> s.builds[i].generation <= s.builds[j].generation)
  }

  /** `inflight` is set exactly when one build of the current generation is outstanding, and
      is then that build. */
  ghost predicate SingleFlight(s: State) {
    && (s.inflight.Some? ==> Outstanding(s, s.inflight.value))
    && (forall i: nat :: Outstanding(s, i) ==> s.inflight == Some(i))
  }

  /** Token and expiry in the cache come from this build. */
  predicate CachedFrom(s: State, i: nat) {
    && i < |s.builds| && s.builds[i].generation == s.generation
    && s.cachedJwt.Some? && s.cachedExp.Some?
    && s.builds[i].phase == Succeeded(s.cachedJwt.value, s.cachedExp.value)
  }

  ghost predicate Sound(s: State) {
    && Aged(s) && SingleFlight(s)
    && (s.cachedJwt.Some? <==> s.cachedExp.Some?)
    && (s.cachedJwt.Some? ==> exists i: nat :: CachedFrom(s, i))
  }

  lemma LaunchSound(s: State)
    requires Aged(s) && (forall i: nat :: !Outstanding(s, i))
    ensures Aged(Launch(s, s.generation)) && SingleFlight(Launch(s, s.generation))
  {
    var after := Launch(s, s.generation);
    forall i: nat
      ensures Outstanding(after, i) <==> Outstanding(s, i) || i == |s.builds|
    {
    }
  }

  lemma GetSound(s: State, now: int)
    requires Sound(s)
    ensures Sound(DoGet(s, now))
  {
    if !Serves(s, now) && s.inflight.None? {
      LaunchSound(s);
      if s.cachedJwt.Some? {
        var i: nat :| CachedFrom(s, i);
        assert CachedFrom(DoGet(s, now), i);
      }
    }
  }

  lemma RefreshSound(s: State)
    requires Sound(s)
    ensures Sound(DoRefresh(s))
  {
    LaunchSound(s.(generation := s.generation + 1, cachedJwt := None, cachedExp := None));
  }

  lemma SucceedSound(s: State, i: nat, jwt: Str)
    requires Sound(s) && i < |s.builds| && s.builds[i].phase.Prepared?
    ensures Sound(DoSucceed(s, i, jwt))
  {
    var after := DoSucceed(s, i, jwt);
    assert forall j: nat :: Outstanding(after, j) <==> Outstanding(s, j);
    if s.builds[i].generation == s.generation {
      assert CachedFrom(after, i);
    } else if s.cachedJwt.Some? {
      var j: nat :| CachedFrom(s, j);
      assert CachedFrom(after, j);
    }
  }

  lemma PhaseSound(s: State, i: nat, phase: Phase)
    requires Sound(s) && i < |s.builds| && !s.builds[i].phase.Succeeded?
    ensures Sound(SetPhase(s, i, phase))
  {
    var after := SetPhase(s, i, phase);
    assert forall j: nat :: Outstanding(after, j) <==> Outstanding(s, j);
    if s.cachedJwt.Some? {
      var j: nat :| CachedFrom(s, j);
      assert CachedFrom(after, j);
    }
  }

  lemma FinalizeSound(s: State, i: nat)
    requires Sound(s) && i < |s.builds| && !s.builds[i].finalized
    ensures Sound(DoFinalize(s, i))
  {
    var after := DoFinalize(s, i);
    forall j: nat
      ensures Outstanding(after, j) <==> Outstanding(s, j) && i != j
    {
    }
    assert s.builds[i].generation == s.generation ==> Outstanding(s, i);
    if s.cachedJwt.Some? {
      var j: nat :| CachedFrom(s, j);
      assert CachedFrom(after, j);
    }
  }

  lemma StepSound(s: State, e: Event, ttl: int)
    requires Sound(s) && Enabled(s, e)
    ensures Sound(Step(s, e, ttl))
  {
    hide Sound;
    match e
    case Get(now) => GetSound(s, now);
    case Refresh => RefreshSound(s);
    case Prepare(i, now) => PhaseSound(s, i, Prepared(now + ttl));
    case Succeed(i, jwt) => SucceedSound(s, i, jwt);
    case Fail(i) => PhaseSound(s, i, Failed);
    case Finalize(i) => FinalizeSound(s, i);
  }

  // ------------------------------------------------- runs

  ghost predicate Run(trace: seq<State>, es: seq<Event>, ttl: int) {
    && |trace| == |es| + 1 && trace[0] == INITIAL
    && forall i :: 0 <= i < |es| ==> Enabled(trace[i], es[i]) && trace[i + 1] == Step(trace[i], es[i], ttl)
  }

  /** Over every interleaving of gets, refreshes and builds. */
  lemma {:induction false} RunSound(trace: seq<State>, es: seq<Event>, ttl: int, k: nat)
    requires Run(trace, es, ttl) && k <= |es|
    ensures Sound(trace[k])
  {
    if k > 0 {
      RunSound(trace, es, ttl, k - 1);
      StepSound(trace[k - 1], es[k - 1], ttl);
    }
  }

  /** A build keeps its generation, and its outcome once it has one. */
  ghost predicate BuildsGrow(s: State, t: State) {
    && s.generation <= t.generation && |s.builds| <= |t.builds|
    && forall i :: 0 <= i < |s.builds| ==>
         && t.builds[i].generation == s.builds[i].generation
         && (s.builds[i].phase.Succeeded? || s.builds[i].phase.Failed? ==> t.builds[i].phase == s.builds[i].phase)
         && (s.builds[i].finalized ==> t.builds[i].finalized)
  }

  lemma {:induction false} RunGrows(trace: seq<State>, es: seq<Event>, ttl: int, j: nat, k: nat)
    requires Run(trace, es, ttl) && j <= k <= |es|
    ensures BuildsGrow(trace[j], trace[k])
    decreases k
  {
    if j < k {
      RunGrows(trace, es, ttl, j, k - 1);
      assert BuildsGrow(trace[k - 1], Step(trace[k - 1], es[k - 1], ttl));
    }
  }

  /** The builds of the current generation are among those begun at or after the last refresh. */
  lemma CurrentIsRecent(s: State, t: State, i: nat)
    requires Aged(s) && BuildsGrow(DoRefresh(s), t) && i < |t.builds| && t.builds[i].generation == t.generation
    ensures |s.builds| <= i
  {
    assert forall j :: 0 <= j < |s.builds| ==> DoRefresh(s).builds[j] == s.builds[j];
  }

  /** The build signed this token, which has not expired yet. */
  predicate Signed(b: Build, jwt: Str, now: int) {
    b.phase.Succeeded? && b.phase.jwt == jwt && now < b.phase.exp
  }

  /** A get made after a refresh is answered by a build begun at or after that refresh:
      either it waits for one, or it gets the unexpired token of one. */
  lemma FreshAfterRefresh(trace: seq<State>, es: seq<Event>, ttl: int, k: nat, j: nat)
    requires Run(trace, es, ttl) && k < j < |es| && es[k].Refresh? && es[j].Get?
    ensures var first, s := |trace[k].builds|, trace[j];
            match AnswerGet(s, es[j].now)
            case Awaiting(i) => first <= i < |trace[j + 1].builds|
            case Cached(jwt) => exists i :: first <= i < |s.builds| && Signed(s.builds[i], jwt, es[j].now)
  {
    var s := trace[j];
    RunSound(trace, es, ttl, k);
    RunSound(trace, es, ttl, j);
    RunGrows(trace, es, ttl, k + 1, j);
    assert trace[k + 1] == DoRefresh(trace[k]);
    match AnswerGet(s, es[j].now)
    case Awaiting(i) =>
      if i < |s.builds| {
        CurrentIsRecent(trace[k], s, i);
      }
    case Cached(jwt) =>
      var i: nat :| CachedFrom(s, i);
      CurrentIsRecent(trace[k], s, i);
  }

  /** As long as the build one get waits for is outstanding, every later get that must wait
      waits for the same one. */
  lemma GetsShare(trace: seq<State>, es: seq<Event>, ttl: int, j: nat, k: nat)
    requires Run(trace, es, ttl) && j < k < |es| && es[j].Get? && es[k].Get?
    requires AnswerGet(trace[j], es[j].now).Awaiting? && AnswerGet(trace[k], es[k].now).Awaiting?
    requires Outstanding(trace[k], AnswerGet(trace[j], es[j].now).build)
    ensures AnswerGet(trace[j], es[j].now) == AnswerGet(trace[k], es[k].now)
  {
    RunSound(trace, es, ttl, k);
  }

  /** All who wait for one build get one answer: a settled build never changes its outcome. */
  lemma OneOutcome(trace: seq<State>, es: seq<Event>, ttl: int, j: nat, k: nat, i: nat)
    requires Run(trace, es, ttl) && j <= k <= |es| && i < |trace[j].builds|
    requires trace[j].builds[i].phase.Succeeded? || trace[j].builds[i].phase.Failed?
    ensures i < |trace[k].builds| && trace[k].builds[i].phase == trace[j].builds[i].phase
  {
    RunGrows(trace, es, ttl, j, k);
  }

  // ------------------------------------------------- the cache by its history alone

  /** The number of builds begun before the last refresh. */
  ghost function BegunBefore(trace: seq<State>, es: seq<Event>, k: nat): nat
    requires k <= |es| && |trace| == |es| + 1
  {
    if k == 0 then 0
    else if es[k - 1].Refresh? then |trace[k - 1].builds|
    else BegunBefore(trace, es, k - 1)
  }

  /** What the events say of a build: it fixes its expiry, a lifetime ahead, when it has its
      keys, and ends with the token signed or with a failure. */
  ghost function Told(es: seq<Event>, ttl: int, k: nat, i: nat): Phase
    requires k <= |es|
  {
    if k == 0 then Started
    else
      var before := Told(es, ttl, k - 1, i);
      match es[k - 1]
      case Prepare(j, now) => if j == i then Prepared(now + ttl) else before
      case Succeed(j, jwt) => if j == i && before.Prepared? then Succeeded(jwt, before.exp) else before
      case Fail(j) => if j == i then Failed else before
      case _ => before
  }

  /** The token and expiry of the last build to sign since the last refresh, among the builds
      begun since then. */
  ghost function LastSigned(trace: seq<State>, es: seq<Event>, ttl: int, k: nat): Option<(Str, int)>
    requires k <= |es| && |trace| == |es| + 1
  {
    if k == 0 then None
    else
      match es[k - 1]
      case Refresh => None
      case Succeed(i, jwt) =>
        if BegunBefore(trace, es, k - 1) <= i && Told(es, ttl, k - 1, i).Prepared?
        then Some((jwt, Told(es, ttl, k - 1, i).exp))
        else LastSigned(trace, es, ttl, k - 1)
      case _ => LastSigned(trace, es, ttl, k - 1)
  }

  /** The build was begun since the last refresh and its callback has not run. */
  ghost predicate Pending(trace: seq<State>, es: seq<Event>, k: nat, i: nat)
    requires k <= |es| && |trace| == |es| + 1
  {
    BegunBefore(trace, es, k) <= i < |trace[k].builds| && forall j :: 0 <= j < k ==> es[j] != Finalize(i)
  }

  /** Every build is where the events say, and finalized exactly if one finalized it. */
  lemma {:induction false} BuildIsTold(trace: seq<State>, es: seq<Event>, ttl: int, k: nat, i: nat)
    requires Run(trace, es, ttl) && k <= |es|
    ensures i < |trace[k].builds| ==> trace[k].builds[i].phase == Told(es, ttl, k, i)
    ensures i < |trace[k].builds| ==> (trace[k].builds[i].finalized <==> exists j :: 0 <= j < k && es[j] == Finalize(i))
    ensures i >= |trace[k].builds| ==> Told(es, ttl, k, i) == Started && forall j :: 0 <= j < k ==> es[j] != Finalize(i)
  {
    if k > 0 {
      BuildIsTold(trace, es, ttl, k - 1, i);
      assert trace[k] == Step(trace[k - 1], es[k - 1], ttl);
      if i < |trace[k].builds| && trace[k].builds[i].finalized {
        assert es[k - 1] == Finalize(i) || (i < |trace[k - 1].builds| && trace[k - 1].builds[i].finalized);
      }
    }
  }

  /** `inflight` is set exactly while a build begun since the last refresh is pending. */
  lemma InflightIsPending(trace: seq<State>, es: seq<Event>, ttl: int, k: nat)
    requires Run(trace, es, ttl) && k <= |es|
    ensures trace[k].inflight.Some? <==> exists i: nat :: Pending(trace, es, k, i)
    ensures forall i: nat :: Pending(trace, es, k, i) <==> trace[k].inflight == Some(i)
  {
    RunSound(trace, es, ttl, k);
    CurrentIsSince(trace, es, ttl, k);
    forall i: nat
      ensures Pending(trace, es, k, i) <==> Outstanding(trace[k], i)
    {
      BuildIsTold(trace, es, ttl, k, i);
    }
  }

  /** The builds of the current generation are those begun since the last refresh. */
  lemma {:induction false} CurrentIsSince(trace: seq<State>, es: seq<Event>, ttl: int, k: nat)
    requires Run(trace, es, ttl) && k <= |es|
    ensures forall i :: 0 <= i < |trace[k].builds| ==>
              (trace[k].builds[i].generation == trace[k].generation <==> BegunBefore(trace, es, k) <= i)
    ensures BegunBefore(trace, es, k) <= |trace[k].builds|
  {
    if k > 0 {
      CurrentIsSince(trace, es, ttl, k - 1);
      RunSound(trace, es, ttl, k - 1);
      assert trace[k] == Step(trace[k - 1], es[k - 1], ttl);
    }
  }

  /** In every interleaving the cache holds exactly what the last build to sign since the last
      refresh signed, among those begun since then: no stale build ever writes it. */
  lemma {:induction false} CacheIsLastSigned(trace: seq<State>, es: seq<Event>, ttl: int, k: nat)
    requires Run(trace, es, ttl) && k <= |es|
    ensures match LastSigned(trace, es, ttl, k)
            case None => trace[k].cachedJwt == None && trace[k].cachedExp == None
            case Some(signed) => trace[k].cachedJwt == Some(signed.0) && trace[k].cachedExp == Some(signed.1)
  {
    if k > 0 {
      CacheIsLastSigned(trace, es, ttl, k - 1);
      CurrentIsSince(trace, es, ttl, k - 1);
      assert trace[k] == Step(trace[k - 1], es[k - 1], ttl);
      if es[k - 1].Succeed? {
        BuildIsTold(trace, es, ttl, k - 1, es[k - 1].i);
      }
    }
  }

  /** The token last signed, while it can be served. */
  ghost predicate Servable(signed: Option<(Str, int)>, jwt: Str, now: int) {
    signed.Some? && signed.value.0 == jwt && jwt != [] && now < signed.value.1
  }

  /** In every interleaving a get is answered from the cache exactly by the token last signed
      since the last refresh, while that is not empty and has not expired. Else it waits: for
      the build pending, if there is one, and only if there is none for a new one. */
  lemma GetIsTold(trace: seq<State>, es: seq<Event>, ttl: int, k: nat)
    requires Run(trace, es, ttl) && k < |es| && es[k].Get?
    ensures var reply, signed, begun := AnswerGet(trace[k], es[k].now), LastSigned(trace, es, ttl, k),
            |trace[k].builds|;
            && (forall jwt :: reply == Cached(jwt) <==> Servable(signed, jwt, es[k].now))
            && (reply.Awaiting? ==> Pending(trace, es, k + 1, reply.build))
            && (if reply.Cached? || exists i: nat :: Pending(trace, es, k, i) then trace[k + 1] == trace[k]
                else reply == Awaiting(begun) && |trace[k + 1].builds| == begun + 1)
  {
    hide LastSigned, Pending;
    RunAt(trace, es, ttl, k);
    CacheIsLastSigned(trace, es, ttl, k);
    InflightIsPending(trace, es, ttl, k);
    InflightIsPending(trace, es, ttl, k + 1);
  }

  lemma RunAt(trace: seq<State>, es: seq<Event>, ttl: int, k: nat)
    requires Run(trace, es, ttl) && k < |es|
    ensures trace[k + 1] == Step(trace[k], es[k], ttl)
  {
  }

  /** A refresh begins exactly one build, which is then the only one pending, and empties the
      cache; its answer is that build. */
  lemma RefreshIsTold(trace: seq<State>, es: seq<Event>, ttl: int, k: nat)
    requires Run(trace, es, ttl) && 0 < k <= |es| && es[k - 1].Refresh?
    ensures var begun := |trace[k - 1].builds|;
            && |trace[k].builds| == begun + 1 && AnswerRefresh(trace[k - 1]) == Awaiting(begun)
            && (forall i: nat :: Pending(trace, es, k, i) <==> i == begun)
            && LastSigned(trace, es, ttl, k).None?
  {
    hide Pending;
    RunAt(trace, es, ttl, k - 1);
    InflightIsPending(trace, es, ttl, k);
  }
}
