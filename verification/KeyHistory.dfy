/** The key provider told by its calls alone: which keys it has, who signs, what a read of the
    key set answers and what the historical entries say, over every run from construction. */
module KeyHistory {
  import opened Options
  import opened Text
  import opened OrderedMaps
  import opened FederationKeys

  /** A provider made of these keys at this time, and the calls made on it since. */
  datatype Log = Log(rules: Rules, initial: seq<SigningKey>, start: int, cs: seq<Command>)

  ghost predicate Made(l: Log) {
    Install(l.rules, l.initial, l.start).Some?
  }

  ghost function End(l: Log): State
    requires Made(l)
  {
    Play(l.rules, Install(l.rules, l.initial, l.start).value, l.cs)
  }

  function Earlier(l: Log): Log
    requires l.cs != []
  {
    l.(cs := l.cs[..|l.cs| - 1])
  }

  function Last(l: Log): Command
    requires l.cs != []
  {
    l.cs[|l.cs| - 1]
  }

  /** The last call succeeded. */
  ghost predicate Done(l: Log)
    requires Made(l) && l.cs != []
  {
    Attempt(l.rules, End(Earlier(l)), Last(l)).Some?
  }

  lemma EndNext(l: Log)
    requires Made(l) && l.cs != []
    ensures Made(Earlier(l)) && End(l) == Step(l.rules, End(Earlier(l)), Last(l))
  {
    hide Step;
  }

  // ------------------------------------------------- what the calls did to a key

  function KidOf(k: SigningKey): Str {
    k.signer.kid
  }

  function KidsOfAll(keys: seq<SigningKey>): (r: seq<Str>)
    ensures |r| == |keys| && forall i :: 0 <= i < |r| ==> r[i] == KidOf(keys[i])
  {
    seq(|keys|, i requires 0 <= i < |keys| => KidOf(keys[i]))
  }

  /** The key given under this kid to the constructor. */
  function Given(keys: seq<SigningKey>, kid: Str): Option<SigningKey> {
    if keys == [] then None
    else if KidOf(keys[|keys| - 1]) == kid then Some(keys[|keys| - 1])
    else Given(keys[..|keys| - 1], kid)
  }

  /** The kids there are, in the order they came. */
  ghost function Kids(l: Log): seq<Str>
    requires Made(l)
    decreases |l.cs|
  {
    if l.cs == [] then KidsOfAll(l.initial)
    else if Done(l) && Last(l).DoPublish? then Kids(Earlier(l)) + [KidOf(Last(l).key)]
    else Kids(Earlier(l))
  }

  /** The kids that became the signer, in that order. */
  ghost function Turns(l: Log): seq<Str>
    requires Made(l)
    decreases |l.cs|
  {
    if l.cs == [] then KidsOfAll(l.initial)
    else if Done(l) && Last(l).DoSwitch? then Turns(Earlier(l)) + [Last(l).kid]
    else Turns(Earlier(l))
  }

  /** The key that came under this kid, and when. */
  ghost function Came(l: Log, kid: Str): Option<(SigningKey, int)>
    requires Made(l)
    decreases |l.cs|
  {
    if l.cs == [] then
      match Given(l.initial, kid) case None => None case Some(key) => Some((key, l.start))
    else if Done(l) && Last(l).DoPublish? && KidOf(Last(l).key) == kid then Some((Last(l).key, Last(l).at))
    else Came(Earlier(l), kid)
  }

  /** When the key became the signer. */
  ghost function SwitchedIn(l: Log, kid: Str): Option<int>
    requires Made(l)
    decreases |l.cs|
  {
    if l.cs == [] then
      match Given(l.initial, kid) case None => None case Some(_) => Some(l.start)
    else if Done(l) && Last(l).DoSwitch? && Last(l).kid == kid then Some(Last(l).at)
    else SwitchedIn(Earlier(l), kid)
  }

  /** When and why the key was revoked last. */
  ghost function LastRevocation(l: Log, kid: Str): Option<(int, Str)>
    requires Made(l)
    decreases |l.cs|
  {
    if l.cs == [] then None
    else if Done(l) && Last(l).DoRevoke? && Last(l).kid == kid then Some((Last(l).at, Last(l).reason))
    else LastRevocation(Earlier(l), kid)
  }

  /** The key is an active one, to go by the calls: it had its turn, and neither was another
      switched in while it signed nor was it revoked. */
  ghost predicate Standing(l: Log, kid: Str)
    requires Made(l)
    decreases |l.cs|, 1
  {
    kid in Turns(l) && Out(l, kid).None? && LastRevocation(l, kid).None?
  }

  /** The end of the overlap after another key was switched in while this one signed: as asked
      for, or seven days. */
  ghost function Out(l: Log, kid: Str): Option<int>
    requires Made(l)
    decreases |l.cs|, 0
  {
    if l.cs == [] then None
    else if Done(l) && Last(l).DoSwitch? && Signs(Earlier(l)) == Some(kid)
    then Some(Last(l).at + if Last(l).overlap.Some? then Last(l).overlap.value else 604_800_000)
    else Out(Earlier(l), kid)
  }

  /** The last of the kids that is standing. */
  ghost function LastStanding(l: Log, turns: seq<Str>): Option<Str>
    requires Made(l)
    decreases |l.cs|, 2, |turns|
  {
    if turns == [] then None
    else if Standing(l, turns[|turns| - 1]) then Some(turns[|turns| - 1])
    else LastStanding(l, turns[..|turns| - 1])
  }

  /** Who signs, to go by the calls. */
  ghost function Signs(l: Log): Option<Str>
    requires Made(l)
    decreases |l.cs|, 3
  {
    LastStanding(l, Turns(l))
  }

  // ------------------------------------------------- the provider follows the calls

  function StageOf(switchedIn: Option<int>, out: Option<int>, revoked: bool): Stage {
    if revoked then Revoked else if out.Some? then Retiring else if switchedIn.Some? then Active else Published
  }

  ghost predicate EntryTold(e: Entry, came: (SigningKey, int), switchedIn: Option<int>, out: Option<int>,
                            revocation: Option<(int, Str)>) {
    && e.signer == came.0.signer && e.publicJwk == came.0.publicJwk && e.createdAt == Some(came.1)
    && e.activatedAt == switchedIn && e.scheduledRemovalAt == out && e.expiresAt == None
    && e.revokedAt == (if revocation.Some? then Some(revocation.value.0) else None)
    && e.revocationReason == (if revocation.Some? then Some(revocation.value.1) else None)
    && e.stage == StageOf(switchedIn, out, revocation.Some?) && (out.Some? ==> switchedIn.Some?)
  }

  /** The provider knows a kid exactly if it came, and its entry says what the calls did. */
  ghost predicate Fits(l: Log, kid: Str)
    requires Made(l)
  {
    if kid in End(l).keys.at then
      && Came(l, kid).Some?
      && EntryTold(End(l).keys.at[kid], Came(l, kid).value, SwitchedIn(l, kid), Out(l, kid), LastRevocation(l, kid))
    else Came(l, kid).None? && SwitchedIn(l, kid).None? && Out(l, kid).None? && LastRevocation(l, kid).None?
  }

  /** Kids stand in the order they came, and activations are numbered by their turns. */
  ghost predicate RankedAs(st: State, kids: seq<Str>, turns: seq<Str>) {
    && st.keys.order == kids && |turns| == st.activationOrder
    && (forall i :: 0 <= i < |turns| ==> turns[i] in st.keys.at && st.keys.at[turns[i]].activationOrder == Some(i))
    && (forall kid :: kid in st.keys.at && kid !in turns ==> st.keys.at[kid].activatedAt == None)
    && (forall kid :: kid in turns ==> kid in st.keys.at && st.keys.at[kid].activatedAt.Some?)
  }

  ghost predicate Ranked(l: Log)
    requires Made(l)
  {
    RankedAs(End(l), Kids(l), Turns(l))
  }

  lemma EndSound(l: Log)
    requires Made(l)
    ensures Sound(l.rules, End(l))
  {
    InstallSound(l.rules, l.initial, l.start);
    PlaySound(l.rules, Install(l.rules, l.initial, l.start).value, l.cs);
  }

  ghost predicate Accords(l: Log)
    requires Made(l)
  {
    Ranked(l) && forall kid :: Fits(l, kid)
  }

  lemma StandingIsActive(l: Log, kid: Str)
    requires Made(l) && Ranked(l) && Fits(l, kid)
    ensures Standing(l, kid) <==> IsActive(End(l), kid)
  {
    hide Turns, Out, LastRevocation, SwitchedIn, Came, End;
  }

  lemma {:induction false} LastStandingIs(l: Log, n: nat)
    requires Made(l) && n <= |Turns(l)|
    ensures match LastStanding(l, Turns(l)[..n])
            case None => forall i :: 0 <= i < n ==> !Standing(l, Turns(l)[i])
            case Some(kid) => exists i :: 0 <= i < n && Turns(l)[i] == kid && Standing(l, kid)
                                && forall j :: i < j < n ==> !Standing(l, Turns(l)[j])
    decreases n
  {
    hide Turns, Standing;
    if n > 0 {
      var turns := Turns(l);
      assert turns[..n][..n - 1] == turns[..n - 1] && turns[..n][n - 1] == turns[n - 1];
      LastStandingIs(l, n - 1);
    }
  }

  /** Who signs by the calls is the key activated last of those active. */
  lemma SignsIsSigner(l: Log)
    requires Made(l) && Accords(l)
    ensures match Signs(l)
            case None => forall kid :: !IsActive(End(l), kid)
            case Some(kid) => IsSigner(End(l), kid)
  {
    hide Turns, Standing, End, Fits;
    var turns := Turns(l);
    assert turns[..|turns|] == turns;
    LastStandingIs(l, |turns|);
    forall kid
      ensures Standing(l, kid) <==> IsActive(End(l), kid)
      ensures Standing(l, kid) ==> kid in turns
    {
      assert Fits(l, kid);
      StandingIsActive(l, kid);
      StandingInTurns(l, kid);
    }
    forall kid | IsActive(End(l), kid)
      ensures exists i :: 0 <= i < |turns| && turns[i] == kid
    {
      assert kid in turns;
    }
  }

  lemma StandingInTurns(l: Log, kid: Str)
    requires Made(l)
    ensures Standing(l, kid) ==> kid in Turns(l)
  {
  }

  // ------------------------------------------------- construction

  lemma {:induction false} GivenIs(keys: seq<SigningKey>, kid: Str)
    ensures Given(keys, kid).Some? <==> exists i :: 0 <= i < |keys| && KidOf(keys[i]) == kid
    ensures Given(keys, kid).Some? ==> Given(keys, kid).value in keys && KidOf(Given(keys, kid).value) == kid
  {
    if keys != [] {
      GivenIs(keys[..|keys| - 1], kid);
      assert forall i :: 0 <= i < |keys| - 1 ==> keys[..|keys| - 1][i] == keys[i];
    }
  }

  /** The keys are installed as the active ones, in order. */
  ghost predicate InstalledAs(st: State, keys: seq<SigningKey>, now: int) {
    && st.keys.order == KidsOfAll(keys) && st.activationOrder == |keys|
    && forall i :: 0 <= i < |keys| ==>
         KidOf(keys[i]) in st.keys.at && st.keys.at[KidOf(keys[i])] == InitialEntry(keys[i], i, now)
  }

  lemma InstalledNext(before: State, keys: seq<SigningKey>, now: int)
    requires keys != [] && InstalledAs(before, keys[..|keys| - 1], now) && KidOf(keys[|keys| - 1]) !in before.keys.at
    ensures var key := keys[|keys| - 1];
            InstalledAs(State(Put(before.keys, KidOf(key), InitialEntry(key, before.activationOrder, now)),
                              before.activationOrder + 1), keys, now)
  {
    hide InitialEntry, KidsOfAll;
    var n := |keys| - 1;
    var after := Put(before.keys, KidOf(keys[n]), InitialEntry(keys[n], before.activationOrder, now));
    assert KidsOfAll(keys) == KidsOfAll(keys[..n]) + [KidOf(keys[n])];
    forall i | 0 <= i < |keys|
      ensures KidOf(keys[i]) in after.at && after.at[KidOf(keys[i])] == InitialEntry(keys[i], i, now)
    {
      assert i < n ==> keys[..n][i] == keys[i];
    }
  }

  lemma {:induction false} InstalledIs(rules: Rules, keys: seq<SigningKey>, now: int)
    requires Install(rules, keys, now).Some?
    ensures InstalledAs(Install(rules, keys, now).value, keys, now)
  {
    if keys != [] {
      hide Acceptable, InitialEntry, InstalledAs;
      var n := |keys| - 1;
      InstalledIs(rules, keys[..n], now);
      AcceptableIsNew(rules, Install(rules, keys[..n], now).value, keys[n]);
      InstalledNext(Install(rules, keys[..n], now).value, keys, now);
    }
  }

  lemma AcceptableIsNew(rules: Rules, st: State, key: SigningKey)
    ensures Acceptable(rules, st, key) ==> KidOf(key) !in st.keys.at
  {
  }

  lemma {:induction false} GivenAt(keys: seq<SigningKey>, i: nat)
    requires i < |keys| && forall j, k :: 0 <= j < k < |keys| ==> KidOf(keys[j]) != KidOf(keys[k])
    ensures Given(keys, KidOf(keys[i])) == Some(keys[i])
  {
    var n := |keys| - 1;
    if i < n {
      assert keys[..n][i] == keys[i];
      GivenAt(keys[..n], i);
    }
  }

  lemma MadeAccords(l: Log)
    requires Made(l) && l.cs == []
    ensures Accords(l)
  {
    hide Install, Given;
    InstalledIs(l.rules, l.initial, l.start);
    var st := End(l);
    forall i, j | 0 <= i < j < |l.initial|
      ensures KidOf(l.initial[i]) != KidOf(l.initial[j])
    {
      assert st.keys.order[i] != st.keys.order[j];
    }
    forall kid
      ensures Fits(l, kid)
    {
      GivenIs(l.initial, kid);
      if kid in st.keys.at {
        assert kid in st.keys.order;
        var i :| 0 <= i < |l.initial| && st.keys.order[i] == kid;
        GivenAt(l.initial, i);
      }
    }
    assert forall kid :: kid in st.keys.at ==> kid in st.keys.order;
  }

  // ------------------------------------------------- every call

  /** One step of everything the calls are read for. */
  ghost predicate SameTold(l: Log, kid: Str)
    requires Made(l) && l.cs != [] && Made(Earlier(l))
  {
    Came(l, kid) == Came(Earlier(l), kid) && SwitchedIn(l, kid) == SwitchedIn(Earlier(l), kid)
    && Out(l, kid) == Out(Earlier(l), kid) && LastRevocation(l, kid) == LastRevocation(Earlier(l), kid)
  }

  lemma FailedFits(l: Log, kid: Str)
    requires Made(l) && l.cs != [] && !Done(l) && Fits(Earlier(l), kid)
    ensures Fits(l, kid)
  {
    EndNext(l);
    hide End;
    assert SameTold(l, kid);
  }

  lemma PublishFits(l: Log, kid: Str)
    requires Made(l) && l.cs != [] && Done(l) && Last(l).DoPublish? && Fits(Earlier(l), kid)
    ensures Fits(l, kid)
  {
    EndNext(l);
    AcceptableIsNew(l.rules, End(Earlier(l)), Last(l).key);
    hide End, Acceptable, Out;
    assert Out(l, kid) == Out(Earlier(l), kid) by { OutOfOthers(l, kid); }
  }

  lemma OutOfOthers(l: Log, kid: Str)
    requires Made(l) && l.cs != [] && !Last(l).DoSwitch?
    ensures Out(l, kid) == Out(Earlier(l), kid)
  {
  }

  lemma RevokeFits(l: Log, kid: Str)
    requires Made(l) && l.cs != [] && Done(l) && Last(l).DoRevoke? && Fits(Earlier(l), kid)
    ensures Fits(l, kid)
  {
    EndNext(l);
    OutOfOthers(l, kid);
    hide End, Out;
  }

  lemma SwitchFits(l: Log, kid: Str)
    requires Made(l) && l.cs != [] && Done(l) && Last(l).DoSwitch? && Accords(Earlier(l))
    ensures Fits(l, kid)
  {
    var c, before := Last(l), Earlier(l);
    EndNext(l);
    EndSound(before);
    assert Fits(before, kid);
    SignsIsSigner(before);
    hide Sound, Switch, IsSigner, Accords, Signs, Attempt, Done;
    var previous := SwitchStep(l.rules, End(before), c);
    assert Signs(before) == Some(previous) by { OnlySigner(before, previous); }
    SwitchedTold(l, kid);
    hide End, Step;
    ReplacedFits(End(before), End(l), c.kid, previous, c.overlap, c.at, kid, Came(before, kid), SwitchedIn(before, kid),
                 Out(before, kid), LastRevocation(before, kid));
  }

  lemma OnlySigner(l: Log, kid: Str)
    requires Made(l) && Accords(l) && IsSigner(End(l), kid)
    ensures Signs(l) == Some(kid)
  {
    hide Accords;
    EndSound(l);
    SignsIsSigner(l);
    if Signs(l).Some? {
      SignerUnique(l.rules, End(l), kid, Signs(l).value);
    }
  }

  function OverlapEnd(overlap: Option<int>, now: int): int {
    now + if overlap.Some? then overlap.value else DEFAULT_KEY_RETIRE_AFTER_MS
  }

  /** What a successful switch changes in what is told. */
  lemma SwitchedTold(l: Log, kid: Str)
    requires Made(l) && l.cs != [] && Done(l) && Last(l).DoSwitch?
    ensures Came(l, kid) == Came(Earlier(l), kid) && LastRevocation(l, kid) == LastRevocation(Earlier(l), kid)
    ensures SwitchedIn(l, kid) == if Last(l).kid == kid then Some(Last(l).at) else SwitchedIn(Earlier(l), kid)
    ensures Out(l, kid) == if Signs(Earlier(l)) == Some(kid) then Some(OverlapEnd(Last(l).overlap, Last(l).at))
                           else Out(Earlier(l), kid)
  {
    hide Signs, Attempt;
  }

  lemma ReplacedFits(st: State, after: State, k: Str, previous: Str, overlap: Option<int>, now: int, kid: Str,
                     came: Option<(SigningKey, int)>, switchedIn: Option<int>, out: Option<int>,
                     revocation: Option<(int, Str)>)
    requires Replaced(st, after, k, previous, overlap, now)
    requires kid in st.keys.at ==> came.Some? && EntryTold(st.keys.at[kid], came.value, switchedIn, out, revocation)
    ensures kid in after.keys.at <==> kid in st.keys.at
    ensures kid in after.keys.at ==>
              EntryTold(after.keys.at[kid], came.value, if k == kid then Some(now) else switchedIn,
                        if previous == kid then Some(OverlapEnd(overlap, now)) else out, revocation)
  {
  }

  lemma PublishedRanked(rules: Rules, st: State, kids: seq<Str>, turns: seq<Str>, key: SigningKey, now: int)
    requires RankedAs(st, kids, turns) && Publish(rules, st, key, now).Some?
    ensures RankedAs(Publish(rules, st, key, now).value, kids + [KidOf(key)], turns)
  {
    AcceptableIsNew(rules, st, key);
    hide Acceptable;
  }

  lemma RevokedRanked(st: State, kids: seq<Str>, turns: seq<Str>, kid: Str, reason: Str, now: int)
    requires RankedAs(st, kids, turns) && Revoke(st, kid, reason, now).Some?
    ensures RankedAs(Revoke(st, kid, reason, now).value, kids, turns)
  {
  }

  lemma ReplacedRanked(st: State, after: State, kids: seq<Str>, turns: seq<Str>, kid: Str, previous: Str,
                       overlap: Option<int>, now: int)
    requires RankedAs(st, kids, turns) && Replaced(st, after, kid, previous, overlap, now)
    requires st.keys.at[kid].activatedAt.None?
    ensures RankedAs(after, kids, turns + [kid])
  {
    var longer := turns + [kid];
    assert kid !in turns;
    forall i | 0 <= i < |longer|
      ensures longer[i] in after.keys.at && after.keys.at[longer[i]].activationOrder == Some(i)
    {
      if i < |turns| {
        assert longer[i] == turns[i] && turns[i] in turns;
      }
    }
  }

  lemma NextRanked(l: Log)
    requires Made(l) && l.cs != [] && Ranked(Earlier(l))
    ensures Ranked(l)
  {
    var c, before := Last(l), Earlier(l);
    EndNext(l);
    EndSound(before);
    hide Sound, RankedAs, Publish, Revoke, Switch, IsSigner, Replaced;
    if Done(l) {
      match c
      case DoPublish(key, at) => PublishedRanked(l.rules, End(before), Kids(before), Turns(before), key, at);
      case DoRevoke(kid, reason, at) => RevokedRanked(End(before), Kids(before), Turns(before), kid, reason, at);
      case DoSwitch(kid, overlap, _, at) =>
        var previous := SwitchStep(l.rules, End(before), c);
        SwitchedWasPublished(l.rules, End(before), End(l), kid, previous, overlap, at);
        ReplacedRanked(End(before), End(l), Kids(before), Turns(before), kid, previous, overlap, at);
    }
  }

  lemma SwitchedWasPublished(rules: Rules, st: State, after: State, kid: Str, previous: Str, overlap: Option<int>,
                             now: int)
    requires Sound(rules, st) && Replaced(st, after, kid, previous, overlap, now)
    ensures kid in st.keys.at && st.keys.at[kid].activatedAt.None?
  {
    EntrySound(rules, st, kid);
  }

  lemma {:induction false} EveryEndAccords(l: Log)
    requires Made(l)
    ensures Accords(l)
    decreases |l.cs|
  {
    if l.cs == [] {
      MadeAccords(l);
    } else {
      EveryEndAccords(Earlier(l));
      hide Fits, Ranked, Done;
      NextRanked(l);
      forall kid
        ensures Fits(l, kid)
      {
        assert Fits(Earlier(l), kid);
        if !Done(l) {
          FailedFits(l, kid);
        } else {
          match Last(l)
          case DoPublish(_, _) => PublishFits(l, kid);
          case DoRevoke(_, _, _) => RevokeFits(l, kid);
          case DoSwitch(_, _, _, _) => SwitchFits(l, kid);
        }
      }
    }
  }

  // ------------------------------------------------- what the historical entries say

  ghost function ToldExpiry(l: Log, kid: Str, now: int): int
    requires Made(l)
  {
    if Out(l, kid).Some? then Seconds(Out(l, kid).value)
    else if LastRevocation(l, kid).Some? then Seconds(LastRevocation(l, kid).value.0)
    else Seconds(now)
  }

  ghost function ToldRevocation(l: Log, kid: Str): Option<Revocation>
    requires Made(l)
  {
    match LastRevocation(l, kid)
    case None => None
    case Some((at, reason)) => Some(Revocation(Seconds(at), if reason == [] then None else Some(reason)))
  }

  lemma EntryHistory(e: Entry, now: int, came: (SigningKey, int), switchedIn: Option<int>, out: Option<int>,
                     revocation: Option<(int, Str)>)
    requires EntryTold(e, came, switchedIn, out, revocation)
    ensures var h := HistoricalOf(e, Seconds(now));
            && h.jwk == came.0.publicJwk && h.iat == Some(Seconds(came.1))
            && h.nbf == (if switchedIn.Some? then Some(Seconds(switchedIn.value)) else None)
            && h.exp == (if out.Some? then Seconds(out.value)
                         else if revocation.Some? then Seconds(revocation.value.0) else Seconds(now))
            && (h.revoked.Some? <==> revocation.Some?)
            && (revocation.Some? ==>
                  h.revoked.value == Revocation(Seconds(revocation.value.0),
                                                if revocation.value.1 == [] then None else Some(revocation.value.1)))
  {
    hide Seconds;
  }

  ghost predicate HistoricalTold(l: Log, kid: Str, h: Historical, now: int)
    requires Made(l)
  {
    && Came(l, kid).Some?
    && h.jwk == Came(l, kid).value.0.publicJwk && h.iat == Some(Seconds(Came(l, kid).value.1))
    && h.nbf == (if SwitchedIn(l, kid).Some? then Some(Seconds(SwitchedIn(l, kid).value)) else None)
    && h.exp == ToldExpiry(l, kid, now) && h.revoked == ToldRevocation(l, kid)
  }

  /** At every moment of every run there is one historical entry for each kid, in the order the
      kids came. It has the key that came under the kid, issued the second it came, valid from
      the second it became the signer, expiring the second its overlap ends, or else of its
      latest revocation, or else now; and it is revoked exactly if a call revoked it, dated and
      explained by the latest such call. */
  lemma HistoryIsTold(l: Log, now: int)
    requires Made(l)
    ensures |History(End(l), now)| == |Kids(l)|
    ensures forall i :: 0 <= i < |Kids(l)| ==> HistoricalTold(l, Kids(l)[i], History(End(l), now)[i], now)
  {
    EveryEndAccords(l);
    hide End, Kids, Came, SwitchedIn, Out, LastRevocation, Turns, HistoricalOf, EntryTold;
    forall i | 0 <= i < |Kids(l)|
      ensures HistoricalTold(l, Kids(l)[i], History(End(l), now)[i], now)
    {
      var kid := Kids(l)[i];
      assert Fits(l, kid) && kid in End(l).keys.at;
      EntryHistory(End(l).keys.at[kid], now, Came(l, kid).value, SwitchedIn(l, kid), Out(l, kid),
                   LastRevocation(l, kid));
    }
  }

  // ------------------------------------------------- what a read of the key set answers

  ghost predicate IsShown(l: Log, kid: Str, now: int)
    requires Made(l)
  {
    LastRevocation(l, kid).None? && (Out(l, kid).None? || now < Out(l, kid).value)
  }

  /** The keys of these kids that are shown, in order. */
  ghost function Shown(l: Log, kids: seq<Str>, now: int): seq<Jwk>
    requires Made(l)
    decreases |kids|
  {
    if kids == [] then []
    else
      var n := |kids| - 1;
      Shown(l, kids[..n], now)
      + if IsShown(l, kids[n], now) && Came(l, kids[n]).Some? then [Came(l, kids[n]).value.0.publicJwk] else []
  }

  lemma EntryShown(l: Log, kid: Str, now: int)
    requires Made(l) && Fits(l, kid) && kid in End(l).keys.at
    ensures Came(l, kid).Some? && End(l).keys.at[kid].publicJwk == Came(l, kid).value.0.publicJwk
    ensures End(l).keys.at[kid].signer == Came(l, kid).value.0.signer
    ensures IsPublished(End(l).keys.at[kid], now) <==> IsShown(l, kid, now)
  {
    hide End, Came, Out, LastRevocation, SwitchedIn;
  }

  lemma {:induction false} ShownIsPublished(l: Log, n: nat, now: int)
    requires Made(l) && Accords(l) && n <= |Kids(l)|
    ensures |Values(End(l).keys)| == |Kids(l)|
    ensures Shown(l, Kids(l)[..n], now) == PublishedKeys(Values(End(l).keys)[..n], now)
    decreases n
  {
    hide End, Kids, Came, IsShown, Turns, IsPublished, Fits;
    if n > 0 {
      var kids, es := Kids(l), Values(End(l).keys);
      ShownIsPublished(l, n - 1, now);
      assert kids[..n][..n - 1] == kids[..n - 1] && es[..n][..n - 1] == es[..n - 1];
      assert kids[..n][n - 1] == kids[n - 1] && es[..n][n - 1] == es[n - 1];
      assert Fits(l, kids[n - 1]);
      EntryShown(l, kids[n - 1], now);
    }
  }

  /** At every moment of every run a read of the key set throws exactly when nobody signs by
      the calls; else it names that signer and holds the keys shown, in the order they came. */
  lemma ReadIsTold(l: Log, now: int)
    requires Made(l)
    ensures match Signs(l)
            case None => Current(l.rules, End(l), now) == None
            case Some(kid) =>
              && Came(l, kid).Some?
              && Current(l.rules, End(l), now) ==
                 Some(KeySet(Came(l, kid).value.0.signer, Shown(l, Kids(l), now)))
  {
    var st := End(l);
    EveryEndAccords(l);
    EndSound(l);
    SignsIsSigner(l);
    ShownIsPublished(l, |Kids(l)|, now);
    assert Kids(l)[..|Kids(l)|] == Kids(l) && Values(st.keys)[..|Kids(l)|] == Values(st.keys);
    hide End, Kids, Shown, Signs, Selected, PublishedKeys, ValidKeySet, Fits, Sound, Ranked;
    CurrentIsValid(l.rules, st, now);
    if Signs(l).Some? {
      var kid := Signs(l).value;
      assert IsActive(st, kid) by { SignerActive(st, kid); }
      SignerIsActive(l.rules, st, now);
      SignerUnique(l.rules, st, kid, Current(l.rules, st, now).value.signer.kid);
      assert Fits(l, kid);
      EntryShown(l, kid, now);
      ReadNamesSigner(l.rules, st, now);
    }
  }

  lemma ReadNamesSigner(rules: Rules, st: State, now: int)
    requires Sound(rules, st) && Current(rules, st, now).Some?
    ensures var signer := Current(rules, st, now).value.signer;
            signer.kid in st.keys.at && st.keys.at[signer.kid].signer == signer
  {
    hide Selected, PublishedKeys, ValidKeySet, Sound;
    SelectedIsSigner(rules, st);
  }

  // ------------------------------------------------- when a call succeeds

  lemma AcceptableIsKeySet(rules: Rules, st: State, key: SigningKey)
    ensures Acceptable(rules, st, key) <==>
            KidOf(key) !in st.keys.at && ValidKeySet(rules, KeySet(key.signer, [key.publicJwk]))
  {
    var k := key.publicJwk;
    assert [k][..0] == [];
    assert CountKid([k], key.signer.kid) == if k.kid == Some(key.signer.kid) then 1 else 0;
    assert [k][0] == k;
    if ValidKeySet(rules, KeySet(key.signer, [k])) {
      assert k in [k];
    }
  }

  /** A key is published if its kid is new and the set of it alone is valid; a key is switched
      to if it came, never had its turn, was not revoked and somebody signs; a key is revoked
      if it came. */
  ghost predicate Possible(l: Log, c: Command)
    requires Made(l)
  {
    match c
    case DoPublish(key, _) =>
      KidOf(key) !in Kids(l) && ValidKeySet(l.rules, KeySet(key.signer, [key.publicJwk]))
    case DoSwitch(kid, _, _, _) =>
      kid in Kids(l) && kid !in Turns(l) && LastRevocation(l, kid).None? && Signs(l).Some?
    case DoRevoke(kid, _, _) => kid in Kids(l)
  }

  /** At every moment of every run a call succeeds exactly if it is possible by the calls
      before it. */
  lemma SuccessIsTold(l: Log, c: Command)
    requires Made(l)
    ensures Attempt(l.rules, End(l), c).Some? <==> Possible(l, c)
  {
    EveryEndAccords(l);
    EndSound(l);
    SignsIsSigner(l);
    hide End, Sound, Signs, Kids, Turns, ValidKeySet, Acceptable;
    var st := End(l);
    assert forall kid :: kid in st.keys.at <==> kid in Kids(l);
    match c
    case DoPublish(key, _) => AcceptableIsKeySet(l.rules, st, key);
    case DoSwitch(kid, overlap, checked, at) =>
      SwitchChanges(l.rules, st, kid, overlap, checked, at);
      if Signs(l).Some? {
        SignerActive(st, Signs(l).value);
      }
      assert Fits(l, kid);
      if kid in st.keys.at {
        StageIsTold(l, kid);
      }
    case DoRevoke(_, _, _) =>
  }

  lemma StageIsTold(l: Log, kid: Str)
    requires Made(l) && Ranked(l) && Fits(l, kid) && kid in End(l).keys.at
    ensures End(l).keys.at[kid].stage.Published? <==> kid !in Turns(l) && LastRevocation(l, kid).None?
  {
    hide End, Turns, Kids, Out, LastRevocation, SwitchedIn, Came;
    assert kid in Turns(l) <==> End(l).keys.at[kid].activatedAt.Some?;
  }

  ghost predicate ValidAlone(rules: Rules, keys: seq<SigningKey>) {
    forall i :: 0 <= i < |keys| ==> ValidKeySet(rules, KeySet(keys[i].signer, [keys[i].publicJwk]))
  }

  lemma ValidAloneLast(rules: Rules, keys: seq<SigningKey>)
    requires keys != []
    ensures var n := |keys| - 1;
            ValidAlone(rules, keys) <==>
            ValidAlone(rules, keys[..n]) && ValidKeySet(rules, KeySet(keys[n].signer, [keys[n].publicJwk]))
  {
    hide ValidKeySet;
    var n := |keys| - 1;
    assert forall i :: 0 <= i < n ==> keys[..n][i] == keys[i];
  }

  /** A provider is made exactly of keys with different kids each of which is valid alone. */
  lemma {:induction false} MadeIsTold(rules: Rules, keys: seq<SigningKey>, now: int)
    ensures Install(rules, keys, now).Some? <==> NoDuplicates(KidsOfAll(keys)) && ValidAlone(rules, keys)
  {
    if keys != [] {
      hide ValidKeySet, Acceptable, InitialEntry, KidsOfAll, ValidAlone, InstalledAs, NoDuplicates;
      var n := |keys| - 1;
      MadeIsTold(rules, keys[..n], now);
      ValidAloneLast(rules, keys);
      assert KidsOfAll(keys) == KidsOfAll(keys[..n]) + [KidOf(keys[n])];
      NoDuplicatesLast(KidsOfAll(keys[..n]), KidOf(keys[n]));
      if Install(rules, keys[..n], now).Some? {
        var st := Install(rules, keys[..n], now).value;
        InstalledIs(rules, keys[..n], now);
        AcceptableIsKeySet(rules, st, keys[n]);
        KnownIs(st, keys[..n], now, KidOf(keys[n]));
      }
    } else {
      assert KidsOfAll(keys) == [];
    }
  }

  lemma KnownIs(st: State, keys: seq<SigningKey>, now: int, kid: Str)
    requires InstalledAs(st, keys, now)
    ensures kid in st.keys.at <==> kid in KidsOfAll(keys)
  {
    hide InitialEntry, KidsOfAll;
  }

  lemma NoDuplicatesLast(kids: seq<Str>, kid: Str)
    ensures NoDuplicates(kids + [kid]) <==> NoDuplicates(kids) && kid !in kids
  {
    var longer := kids + [kid];
    assert longer[|kids|] == kid && forall i :: 0 <= i < |kids| ==> longer[i] == kids[i];
  }

  // ------------------------------------------------- the same by the other names

  /** Revoked and switched out mean the same here as where publication is told. */
  lemma {:induction false} SameDates(l: Log, kid: Str)
    requires Made(l)
    ensures var st := Install(l.rules, l.initial, l.start).value;
            && (WasRevoked(l.rules, st, l.cs, kid) <==> LastRevocation(l, kid).Some?)
            && SwitchedOut(l.rules, st, l.cs, kid) == Out(l, kid)
    decreases |l.cs|
  {
    if l.cs != [] {
      hide Install, Accords, Made, End, Done, Attempt, WasRevoked, SwitchedOut, Out, LastRevocation, Play, Signs;
      var before, c := Earlier(l), Last(l);
      EndNext(l);
      SameDates(before, kid);
      EveryEndAccords(before);
      DatesTold(l, kid);
      SignerIs(before, kid);
      if c.DoSwitch? && Done(l) {
        SwitchedTold(l, kid);
      } else {
        UnswitchedTold(l, kid);
      }
      RevokeDone(l);
    } else {
      hide Install;
    }
  }

  lemma DatesTold(l: Log, kid: Str)
    requires Made(l) && l.cs != []
    ensures var st, before, c := Install(l.rules, l.initial, l.start).value, Earlier(l), Last(l);
            && Made(before)
            && (WasRevoked(l.rules, st, l.cs, kid) <==>
                WasRevoked(l.rules, st, before.cs, kid) || (c.DoRevoke? && c.kid == kid && kid in End(before).keys.at))
            && SwitchedOut(l.rules, st, l.cs, kid) ==
               if c.DoSwitch? && Done(l) && IsSigner(End(before), kid)
               then Some(OverlapEnd(c.overlap, c.at)) else SwitchedOut(l.rules, st, before.cs, kid)
  {
    hide Install, Attempt, IsSigner, WasRevoked, SwitchedOut, Play;
    DatesNext(l.rules, Install(l.rules, l.initial, l.start).value, l.cs, kid);
  }

  lemma RevokeDone(l: Log)
    requires Made(l) && l.cs != []
    ensures Last(l).DoRevoke? ==> (Done(l) <==> Last(l).kid in End(Earlier(l)).keys.at)
  {
    hide End;
  }

  lemma SignerIs(l: Log, kid: Str)
    requires Made(l) && Accords(l)
    ensures IsSigner(End(l), kid) <==> Signs(l) == Some(kid)
  {
    hide Accords, End, Signs, IsSigner, Made;
    SignsIsSigner(l);
    if IsSigner(End(l), kid) {
      OnlySigner(l, kid);
    }
  }

  lemma DatesNext(rules: Rules, st: State, cs: seq<Command>, kid: Str)
    requires cs != []
    ensures var n := |cs| - 1;
            var before, c := Play(rules, st, cs[..n]), cs[n];
            && (WasRevoked(rules, st, cs, kid) <==>
                WasRevoked(rules, st, cs[..n], kid) || (c.DoRevoke? && c.kid == kid && kid in before.keys.at))
            && SwitchedOut(rules, st, cs, kid) ==
               if c.DoSwitch? && Attempt(rules, before, c).Some? && IsSigner(before, kid)
               then Some(OverlapEnd(c.overlap, c.at)) else SwitchedOut(rules, st, cs[..n], kid)
  {
    hide Attempt, IsSigner;
  }

  lemma UnswitchedTold(l: Log, kid: Str)
    requires Made(l) && l.cs != [] && !(Last(l).DoSwitch? && Done(l))
    ensures Out(l, kid) == Out(Earlier(l), kid)
    ensures LastRevocation(l, kid).Some? <==>
            LastRevocation(Earlier(l), kid).Some? || (Last(l).DoRevoke? && Last(l).kid == kid && Done(l))
  {
    hide Signs, Attempt, End;
  }
}
