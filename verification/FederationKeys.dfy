/** The key provider: keys are published, become the signer, retire after an overlap and may
    be revoked (section 11.2 of OpenID Federation 1.1). Times are milliseconds. */
module FederationKeys {
  import opened Options
  import opened Text
  import opened Canonical
  import opened OrderedMaps

  const SIG: Str := [0x73, 0x69, 0x67]
  const VERIFY: Str := [0x76, 0x65, 0x72, 0x69, 0x66, 0x79]
  const DEFAULT_KEY_RETIRE_AFTER_MS := 7 * 24 * 60 * 60 * 1000

  /** `material` stands for the fields the provider does not look into. */
  datatype Jwk = Jwk(kid: Option<Str>, alg: Option<Str>, use: Option<Str>, keyOps: Option<seq<Str>>, material: Json)

  datatype Signer = Signer(kid: Str, alg: Str)

  datatype SigningKey = SigningKey(signer: Signer, publicJwk: Jwk)

  datatype KeySet = KeySet(signer: Signer, keys: seq<Jwk>)

  /** The schema of one public key and the list of supported algorithms. */
  datatype Rules = Rules(publicKey: Jwk -> bool, supported: Str -> bool)

  datatype Stage = Published | Active | Retiring | Revoked

  datatype Entry = Entry(
    signer: Signer, publicJwk: Jwk, stage: Stage,
    createdAt: Option<int>, activatedAt: Option<int>, activationOrder: Option<nat>,
    expiresAt: Option<int>, scheduledRemovalAt: Option<int>,
    revokedAt: Option<int>, revocationReason: Option<Str>)

  datatype State = State(keys: OMap<Str, Entry>, activationOrder: nat)

  // ------------------------------------------------- validation

  predicate ValidSigner(rules: Rules, s: Signer) {
    s.kid != [] && rules.supported(s.alg)
  }

  predicate PermitsVerification(k: Jwk) {
    (k.use.None? || k.use.value == SIG) && (k.keyOps.None? || VERIFY in k.keyOps.value)
  }

  /** A missing or empty algorithm suits every signer. */
  predicate SuitsAlg(k: Jwk, s: Signer) {
    k.alg.None? || k.alg.value == [] || k.alg.value == s.alg
  }

  /** The schema of a key set: keys, each public with a non-empty kid, no kid twice. */
  ghost predicate PublicKeySet(rules: Rules, keys: seq<Jwk>) {
    && keys != []
    && (forall i :: 0 <= i < |keys| ==> rules.publicKey(keys[i]) && keys[i].kid.Some? && keys[i].kid.value != [])
    && (forall i, j :: 0 <= i < j < |keys| ==> keys[i].kid != keys[j].kid)
  }

  predicate Parses(rules: Rules, keys: seq<Jwk>)
    ensures Parses(rules, keys) <==> PublicKeySet(rules, keys)
  {
    && |keys| > 0
    && (forall i | 0 <= i < |keys| :: rules.publicKey(keys[i]) && keys[i].kid.Some? && keys[i].kid.value != [])
    && (forall i, j | 0 <= i < |keys| && i < j < |keys| :: keys[i].kid != keys[j].kid)
  }

  function CountKid(keys: seq<Jwk>, kid: Str): nat {
    if keys == [] then 0
    else CountKid(keys[..|keys| - 1], kid) + if keys[|keys| - 1].kid == Some(kid) then 1 else 0
  }

  /** The key says it may verify what this signer signs: wherever it restricts its use, its
      operations or, other than with an empty text, its algorithm, the restriction allows it. */
  ghost predicate FitFor(k: Jwk, s: Signer) {
    && (forall use :: k.use == Some(use) ==> use == SIG)
    && (forall ops :: k.keyOps == Some(ops) ==> VERIFY in ops)
    && (forall alg :: k.alg == Some(alg) && alg != [] ==> alg == s.alg)
  }

  /** What a key set must satisfy: it publishes the signer's key exactly once, fit for use. */
  ghost predicate ValidKeySet(rules: Rules, ks: KeySet) {
    && ks.signer.kid != [] && rules.supported(ks.signer.alg) && PublicKeySet(rules, ks.keys)
    && CountKid(ks.keys, ks.signer.kid) == 1
    && forall k :: k in ks.keys && k.kid == Some(ks.signer.kid) ==> FitFor(k, ks.signer)
  }

  method ValidateKeySet(rules: Rules, ks: KeySet) returns (ok: bool)
    ensures ok <==> ValidKeySet(rules, ks)
  {
    if !ValidSigner(rules, ks.signer) || !Parses(rules, ks.keys) {
      return false;
    }
    var signerKeyCount := 0;
    for i := 0 to |ks.keys|
      invariant signerKeyCount == CountKid(ks.keys[..i], ks.signer.kid)
      invariant forall j :: 0 <= j < i && ks.keys[j].kid == Some(ks.signer.kid) ==> FitFor(ks.keys[j], ks.signer)
    {
      var key := ks.keys[i];
      assert ks.keys[..i + 1][..i] == ks.keys[..i];
      if key.kid == Some(ks.signer.kid) {
        signerKeyCount := signerKeyCount + 1;
        if !PermitsVerification(key) || !SuitsAlg(key, ks.signer) {
          assert key in ks.keys;
          return false;
        }
      }
    }
    assert ks.keys[..|ks.keys|] == ks.keys;
    return signerKeyCount == 1;
  }

  /** What `validateNewKey` demands of a key besides a fresh kid. */
  predicate ValidPublicJwk(rules: Rules, k: Jwk, s: Signer) {
    rules.publicKey(k) && k.kid.Some? && k.kid.value != [] && PermitsVerification(k) && k.kid.value == s.kid &&
        SuitsAlg(k, s)
  }

  predicate Acceptable(rules: Rules, st: State, key: SigningKey) {
    ValidSigner(rules, key.signer) && key.signer.kid !in st.keys.at && ValidPublicJwk(rules, key.publicJwk, key.signer)
  }

  // ------------------------------------------------- reading

  predicate IsPublished(e: Entry, now: int) {
    e.stage.Active? || e.stage.Published?
    || (e.stage.Retiring? && (e.scheduledRemovalAt.None? || e.scheduledRemovalAt.value > now))
  }

  function Or0(n: Option<nat>): nat {
    if n.Some? then n.value else 0
  }

  function PublishedKeys(es: seq<Entry>, now: int): seq<Jwk> {
    if es == [] then []
    else PublishedKeys(es[..|es| - 1], now) + if IsPublished(es[|es| - 1], now) then [es[|es| - 1].publicJwk] else []
  }

  function Selected(es: seq<Entry>): Option<Entry> {
    if es == [] then None
    else
      var e, before := es[|es| - 1], Selected(es[..|es| - 1]);
      if e.stage.Active? && (before.None? || Or0(e.activationOrder) > Or0(before.value.activationOrder)) then Some(e)
      else before
  }

  /** The key set read at a moment; nothing where the original throws. */
  ghost function Current(rules: Rules, st: State, now: int): Option<KeySet> {
    var es := Values(st.keys);
    match Selected(es)
    case None => None
    case Some(e) =>
      var ks := KeySet(e.signer, PublishedKeys(es, now));
      if ValidKeySet(rules, ks) then Some(ks) else None
  }

  datatype Revocation = Revocation(revokedAt: int, reason: Option<Str>)

  datatype Historical = Historical(jwk: Jwk, exp: int, iat: Option<int>, nbf: Option<int>, revoked: Option<Revocation>)

  /** Whole seconds, rounded down. */
  function Seconds(ms: int): (s: int)
    ensures 1000 * s <= ms < 1000 * (s + 1)
  {
    ms / 1000
  }

  function HistoricalOf(e: Entry, nowSeconds: int): Historical {
    Historical(
      e.publicJwk,
      if e.expiresAt.Some? then Seconds(e.expiresAt.value)
      else if e.scheduledRemovalAt.Some? then Seconds(e.scheduledRemovalAt.value)
      else if e.revokedAt.Some? then Seconds(e.revokedAt.value)
      else nowSeconds,
      if e.createdAt.Some? then Some(Seconds(e.createdAt.value)) else None,
      if e.activatedAt.Some? then Some(Seconds(e.activatedAt.value)) else None,
      if !e.stage.Revoked? then None
      else Some(Revocation(
        if e.revokedAt.Some? then Seconds(e.revokedAt.value) else nowSeconds,
        if e.revocationReason.Some? && e.revocationReason.value != [] then e.revocationReason else None)))
  }

  function History(st: State, now: int): (r: seq<Historical>)
    ensures |r| == |st.keys.order|
    ensures forall i :: 0 <= i < |r| ==>
            st.keys.order[i] in st.keys.at && r[i] == HistoricalOf(st.keys.at[st.keys.order[i]], Seconds(now))
  {
    var es := Values(st.keys);
    seq(|es|, i requires 0 <= i < |es| => HistoricalOf(es[i], Seconds(now)))
  }

  // ------------------------------------------------- changing

  function Publish(rules: Rules, st: State, key: SigningKey, now: int): Option<State> {
    if !Acceptable(rules, st, key) then None
    else
      var e := Entry(key.signer, key.publicJwk, Published, Some(now), None, None, None, None, None, None);
      Some(st.(keys := Put(st.keys, key.signer.kid, e)))
  }

  function Activated(e: Entry, order: nat, now: int): Entry {
    e.(stage := Active, activatedAt := Some(now), activationOrder := Some(order))
  }

  function Retired(e: Entry, overlap: Option<int>, now: int): Entry {
    var after := if overlap.Some? then overlap.value else DEFAULT_KEY_RETIRE_AFTER_MS;
    e.(stage := Retiring, scheduledRemovalAt := Some(now + after))
  }

  /** The new signer is put in place, then the one the key set named before retires. */
  function SwitchedFrom(st: State, kid: Str, previous: Str, overlap: Option<int>, now: int): Option<State>
    requires kid in st.keys.at
  {
    var keys := Put(st.keys, kid, Activated(st.keys.at[kid], st.activationOrder, now));
    if previous == kid then Some(State(keys, st.activationOrder + 1))
    else if previous !in keys.at then None
    else if !keys.at[previous].stage.Active? then Some(State(keys, st.activationOrder + 1))
    else Some(State(Put(keys, previous, Retired(keys.at[previous], overlap, now)), st.activationOrder + 1))
  }

  /** The clock is read twice: for the key set that names the previous signer, and after. */
  ghost function Switch(rules: Rules, st: State, kid: Str, overlap: Option<int>, checked: int,
                        now: int): Option<State> {
    if kid !in st.keys.at || !st.keys.at[kid].stage.Published? then None
    else
      match Current(rules, st, checked)
      case None => None
      case Some(ks) => SwitchedFrom(st, kid, ks.signer.kid, overlap, now)
  }

  function Revoke(st: State, kid: Str, reason: Str, now: int): Option<State> {
    if kid !in st.keys.at then None
    else
      var e := st.keys.at[kid].(stage := Revoked, revokedAt := Some(now), revocationReason := Some(reason));
      Some(st.(keys := Put(st.keys, kid, e)))
  }

  function InitialEntry(key: SigningKey, order: nat, now: int): Entry {
    Entry(key.signer, key.publicJwk, Active, Some(now), Some(now), Some(order), None, None, None, None)
  }

  /** The constructor's loop over its keys; one bad key and no provider is made. */
  function Install(rules: Rules, keys: seq<SigningKey>, now: int): Option<State> {
    if keys == [] then Some(State(Empty(), 0))
    else
      match Install(rules, keys[..|keys| - 1], now)
      case None => None
      case Some(st) =>
        var key := keys[|keys| - 1];
        if !Acceptable(rules, st, key) then None
        else Some(State(Put(st.keys, key.signer.kid, InitialEntry(key, st.activationOrder, now)),
                        st.activationOrder + 1))
  }

  // ------------------------------------------------- in place

  class Provider {
    const rules: Rules
    var keys: OMap<Str, Entry>
    var activationOrder: nat

    ghost function View(): State
      reads this
    {
      State(keys, activationOrder)
    }

    ghost predicate Follows(before: State, ok: bool, spec: Option<State>)
      reads this
    {
      ok == spec.Some? && View() == if ok then spec.value else before
    }

    constructor (rules: Rules)
      ensures this.rules == rules && View() == State(Empty(), 0)
    {
      this.rules := rules;
      keys := Empty();
      activationOrder := 0;
    }

    method InstallAll(initial: seq<SigningKey>, now: int) returns (ok: bool)
      requires View() == State(Empty(), 0)
      modifies this
      ensures ok == (initial != [] && Install(rules, initial, now).Some?)
      ensures ok ==> View() == Install(rules, initial, now).value && Sound(rules, View())
    {
      hide Acceptable, Put, InitialEntry;
      if initial == [] {
        return false;
      }
      for i := 0 to |initial|
        invariant Install(rules, initial[..i], now) == Some(View())
      {
        var key := initial[i];
        assert initial[..i + 1][..i] == initial[..i];
        if !Acceptable(rules, State(keys, activationOrder), key) {
          InstallFails(rules, initial, now, i + 1);
          return false;
        }
        keys := Put(keys, key.signer.kid, InitialEntry(key, activationOrder, now));
        activationOrder := activationOrder + 1;
      }
      assert initial[..|initial|] == initial;
      InstallSound(rules, initial, now);
      return true;
    }

    method CurrentKeySet(now: int) returns (r: Option<KeySet>)
      ensures r == Current(rules, View(), now)
    {
      var es := Values(keys);
      var selected: Option<Entry>, published: seq<Jwk> := None, [];
      for i := 0 to |es|
        invariant selected == Selected(es[..i]) && published == PublishedKeys(es[..i], now)
      {
        var entry := es[i];
        assert es[..i + 1][..i] == es[..i];
        if IsPublished(entry, now) {
          published := published + [entry.publicJwk];
        }
        if entry.stage.Active? {
          if selected.None? || Or0(entry.activationOrder) > Or0(selected.value.activationOrder) {
            selected := Some(entry);
          }
        }
      }
      assert es[..|es|] == es;
      if selected.None? {
        return None;
      }
      var ks := KeySet(selected.value.signer, published);
      var ok := ValidateKeySet(rules, ks);
      return if ok then Some(ks) else None;
    }

    method GetHistorical(now: int) returns (r: seq<Historical>)
      ensures r == History(View(), now)
    {
      var es := Values(keys);
      r := [];
      for i := 0 to |es|
        invariant |r| == i && forall j :: 0 <= j < i ==> r[j] == HistoricalOf(es[j], Seconds(now))
      {
        var h := MapHistoricalEntry(es[i], Seconds(now));
        r := r + [h];
      }
    }

    method PublishKey(key: SigningKey, now: int) returns (ok: bool)
      requires Sound(rules, View())
      modifies this
      ensures Sound(rules, View()) && Follows(old(View()), ok, Publish(rules, old(View()), key, now))
    {
      hide Sound;
      ok := ValidSigner(rules, key.signer) && key.signer.kid !in keys.at &&
          ValidPublicJwk(rules, key.publicJwk, key.signer);
      if ok {
        keys := Put(keys, key.signer.kid,
                    Entry(key.signer, key.publicJwk, Published, Some(now), None, None, None, None, None, None));
        PublishSound(rules, old(View()), key, now);
      }
    }

    method SwitchActiveKey(kid: Str, overlap: Option<int>, checked: int, now: int) returns (ok: bool)
      requires Sound(rules, View())
      modifies this
      ensures Sound(rules, View()) && Follows(old(View()), ok, Switch(rules, old(View()), kid, overlap, checked, now))
    {
      hide Sound, Current, Activated, Retired, Replaced;
      if kid !in keys.at || !keys.at[kid].stage.Published? {
        return false;
      }
      var entry := keys.at[kid];
      var current := CurrentKeySet(checked);
      if current.None? {
        return false;
      }
      ghost var before := View();
      SignerIsActive(rules, before, checked);
      var previousKid := current.value.signer.kid;
      keys := Put(keys, kid, Activated(entry, activationOrder, now));
      activationOrder := activationOrder + 1;
      if previousKid != kid {
        var previous := keys.at[previousKid];
        if previous.stage.Active? {
          keys := Put(keys, previousKid, Retired(previous, overlap, now));
        }
      }
      SwitchChanges(rules, before, kid, overlap, checked, now);
      return true;
    }

    method RevokeKey(kid: Str, reason: Str, now: int) returns (ok: bool)
      requires Sound(rules, View())
      modifies this
      ensures Sound(rules, View()) && Follows(old(View()), ok, Revoke(old(View()), kid, reason, now))
    {
      hide Sound;
      ok := kid in keys.at;
      if ok {
        RevokeSound(rules, View(), kid, reason, now);
        var entry := keys.at[kid];
        keys := Put(keys, kid, entry.(stage := Revoked, revokedAt := Some(now), revocationReason := Some(reason)));
      }
    }
  }

  lemma {:induction false} InstallFails(rules: Rules, keys: seq<SigningKey>, now: int, i: nat)
    requires i <= |keys| && Install(rules, keys[..i], now).None?
    ensures Install(rules, keys, now).None?
    decreases |keys| - i
  {
    if i == |keys| {
      assert keys[..i] == keys;
    } else {
      assert keys[..i + 1][..i] == keys[..i];
      InstallFails(rules, keys, now, i + 1);
    }
  }

  /** Fields are assigned one after the other on a copy of the key. */
  method MapHistoricalEntry(entry: Entry, nowSeconds: int) returns (h: Historical)
    ensures h == HistoricalOf(entry, nowSeconds)
  {
    h := Historical(entry.publicJwk, 0, None, None, None);
    if entry.expiresAt.Some? {
      h := h.(exp := Seconds(entry.expiresAt.value));
    } else if entry.scheduledRemovalAt.Some? {
      h := h.(exp := Seconds(entry.scheduledRemovalAt.value));
    } else if entry.revokedAt.Some? {
      h := h.(exp := Seconds(entry.revokedAt.value));
    } else {
      h := h.(exp := nowSeconds);
    }
    if entry.createdAt.Some? {
      h := h.(iat := Some(Seconds(entry.createdAt.value)));
    }
    if entry.activatedAt.Some? {
      h := h.(nbf := Some(Seconds(entry.activatedAt.value)));
    }
    if entry.stage.Revoked? {
      var given := entry.revocationReason.Some? && entry.revocationReason.value != [];
      var reason := if given then entry.revocationReason else None;
      var at := if entry.revokedAt.Some? then Seconds(entry.revokedAt.value) else nowSeconds;
      h := h.(revoked := Some(Revocation(at, reason)));
    }
  }

  // ------------------------------------------------- what every state keeps

  /** One entry, apart from its dates. */
  ghost predicate SoundEntry(rules: Rules, kid: Str, e: Entry, order: nat) {
    && e.signer.kid == kid && ValidSigner(rules, e.signer) && ValidPublicJwk(rules, e.publicJwk, e.signer)
    && (e.stage.Published? ==> e.activatedAt.None?)
    && (e.stage.Published? || e.stage.Active? ==> e.scheduledRemovalAt.None? && e.revokedAt.None?)
    && (e.stage.Active? ==> e.activationOrder.Some?)
    && (e.activationOrder.Some? ==> e.activationOrder.value < order)
    && (e.stage.Retiring? ==> e.scheduledRemovalAt.Some?)
    && (e.stage.Revoked? ==> e.revokedAt.Some?)
    && e.expiresAt.None? && e.createdAt.Some?
  }

  ghost predicate Sound(rules: Rules, st: State) {
    && (forall kid :: kid in st.keys.at ==> SoundEntry(rules, kid, st.keys.at[kid], st.activationOrder))
    && (forall k, l :: k in st.keys.at && l in st.keys.at && k != l && st.keys.at[k].activationOrder.Some? ==>
          st.keys.at[k].activationOrder != st.keys.at[l].activationOrder)
  }

  predicate IsActive(st: State, kid: Str) {
    kid in st.keys.at && st.keys.at[kid].stage.Active?
  }

  /** The signer: the active key activated last. */
  ghost predicate IsSigner(st: State, kid: Str) {
    IsActive(st, kid) && forall other :: IsActive(st, other) ==>
        Or0(st.keys.at[other].activationOrder) <= Or0(st.keys.at[kid].activationOrder)
  }

  lemma {:induction false} SelectedIsLatest(es: seq<Entry>)
    ensures match Selected(es)
            case None => forall i :: 0 <= i < |es| ==> !es[i].stage.Active?
            case Some(e) => e in es && e.stage.Active? && forall i :: 0 <= i < |es| && es[i].stage.Active? ==>
                Or0(es[i].activationOrder) <= Or0(e.activationOrder)
  {
    if es != [] {
      SelectedIsLatest(es[..|es| - 1]);
      assert es == es[..|es| - 1] + [es[|es| - 1]];
    }
  }

  /** The loop picks the signer, and finds one exactly when a key is active. */
  lemma SelectedIsSigner(rules: Rules, st: State)
    requires Sound(rules, st)
    ensures match Selected(Values(st.keys))
            case None => forall kid :: !IsActive(st, kid)
            case Some(e) => IsSigner(st, e.signer.kid) && st.keys.at[e.signer.kid] == e
  {
    hide Selected, ValidSigner, ValidPublicJwk;
    var es := Values(st.keys);
    SelectedIsLatest(es);
    forall kid | IsActive(st, kid)
      ensures exists i :: 0 <= i < |es| && es[i] == st.keys.at[kid]
    {
      assert kid in st.keys.order;
      var i :| 0 <= i < |st.keys.order| && st.keys.order[i] == kid;
      assert es[i] == st.keys.at[kid];
    }
    if Selected(es).Some? {
      var e := Selected(es).value;
      ValuesMembers(st.keys, e);
      var k :| k in st.keys.at && st.keys.at[k] == e;
      assert SoundEntry(rules, k, e, st.activationOrder);
    }
  }

  lemma SignerUnique(rules: Rules, st: State, k: Str, l: Str)
    requires Sound(rules, st) && IsSigner(st, k) && IsSigner(st, l)
    ensures k == l
  {
    hide ValidSigner, ValidPublicJwk;
    assert SoundEntry(rules, k, st.keys.at[k], st.activationOrder) &&
           SoundEntry(rules, l, st.keys.at[l], st.activationOrder);
  }

  lemma SignerIsActive(rules: Rules, st: State, now: int)
    requires Sound(rules, st)
    ensures match Current(rules, st, now)
            case None => true
            case Some(ks) => IsSigner(st, ks.signer.kid) && ks.keys == PublishedKeys(Values(st.keys), now)
  {
    hide Selected, ValidKeySet, Sound;
    SelectedIsSigner(rules, st);
  }

  // ------------------------------------------------- the current key set is always valid

  lemma {:induction false} PublishedKeysOf(es: seq<Entry>, now: int)
    ensures forall k :: k in PublishedKeys(es, now) <==>
            exists i :: 0 <= i < |es| && es[i].publicJwk == k && IsPublished(es[i], now)
  {
    if es != [] {
      var n := |es| - 1;
      PublishedKeysOf(es[..n], now);
      assert es == es[..n] + [es[n]];
      forall k
        ensures k in PublishedKeys(es, now) <==>
                exists i :: 0 <= i < |es| && es[i].publicJwk == k && IsPublished(es[i], now)
      {
        if i :| 0 <= i < |es| && es[i].publicJwk == k && IsPublished(es[i], now) {
          assert i < n ==> es[..n][i] == es[i];
        }
        if k in PublishedKeys(es[..n], now) {
          var i :| 0 <= i < n && es[..n][i].publicJwk == k && IsPublished(es[..n][i], now);
          assert es[i] == es[..n][i];
        }
      }
    }
  }

  ghost predicate KidsDiffer(es: seq<Entry>) {
    forall i, j :: 0 <= i < j < |es| ==> es[i].publicJwk.kid != es[j].publicJwk.kid
  }

  ghost predicate Distinct(keys: seq<Jwk>) {
    forall i, j :: 0 <= i < j < |keys| ==> keys[i].kid != keys[j].kid
  }

  lemma DistinctAppend(keys: seq<Jwk>, k: Jwk)
    requires Distinct(keys) && forall i :: 0 <= i < |keys| ==> keys[i].kid != k.kid
    ensures Distinct(keys + [k])
  {
  }

  lemma {:induction false} PublishedKidsDiffer(es: seq<Entry>, now: int)
    requires KidsDiffer(es)
    ensures Distinct(PublishedKeys(es, now))
  {
    if es != [] {
      hide Distinct;
      var n := |es| - 1;
      PublishedKidsDiffer(es[..n], now);
      PublishedKeysOf(es[..n], now);
      var before := PublishedKeys(es[..n], now);
      forall i | 0 <= i < |before|
        ensures before[i].kid != es[n].publicJwk.kid
      {
        assert before[i] in before;
        var j :| 0 <= j < n && es[..n][j].publicJwk == before[i];
        assert es[j] == es[..n][j];
      }
      DistinctAppend(before, es[n].publicJwk);
      assert before + [] == before;
    } else {
      assert Distinct([]);
    }
  }

  lemma {:induction false} CountOnce(keys: seq<Jwk>, kid: Str)
    requires Distinct(keys)
    ensures CountKid(keys, kid) == if exists i :: 0 <= i < |keys| && keys[i].kid == Some(kid) then 1 else 0
  {
    if keys != [] {
      var n := |keys| - 1;
      CountOnce(keys[..n], kid);
      assert forall i :: 0 <= i < n ==> keys[..n][i] == keys[i];
      if i :| 0 <= i < |keys| && keys[i].kid == Some(kid) {
        assert i < n ==> keys[..n][i].kid == Some(kid);
      }
    }
  }

  lemma SoundValues(rules: Rules, st: State)
    requires Sound(rules, st)
    ensures var es := Values(st.keys);
            && KidsDiffer(es)
            && forall i :: 0 <= i < |es| ==>
                es[i].signer.kid == st.keys.order[i] && ValidSigner(rules, es[i].signer) &&
                    ValidPublicJwk(rules, es[i].publicJwk, es[i].signer)
  {
    hide ValidSigner;
    var es := Values(st.keys);
    forall i | 0 <= i < |es|
      ensures es[i].signer.kid == st.keys.order[i] && ValidSigner(rules, es[i].signer) &&
              ValidPublicJwk(rules, es[i].publicJwk, es[i].signer)
    {
      assert SoundEntry(rules, st.keys.order[i], es[i], st.activationOrder);
    }
  }

  ghost predicate HasKid(keys: seq<Jwk>, kid: Str) {
    exists k :: k in keys && k.kid == Some(kid)
  }

  /** A kid is published to whoever reads the key set: the read answers and the set has it. */
  ghost predicate Publishes(rules: Rules, st: State, kid: Str, now: int) {
    Current(rules, st, now).Some? && HasKid(Current(rules, st, now).value.keys, kid)
  }

  /** A kid is collected by a read exactly when its entry says so. */
  lemma CollectsEntry(rules: Rules, st: State, kid: Str, now: int)
    requires Sound(rules, st) && kid in st.keys.at
    ensures HasKid(PublishedKeys(Values(st.keys), now), kid) <==> IsPublished(st.keys.at[kid], now)
    ensures HasKid(PublishedKeys(Values(st.keys), now), kid) ==>
            st.keys.at[kid].publicJwk in PublishedKeys(Values(st.keys), now)
  {
    hide PublishedKeys, IsPublished, Sound, ValidSigner;
    var es := Values(st.keys);
    SoundValues(rules, st);
    PublishedKeysOf(es, now);
    assert kid in st.keys.order;
    var n :| 0 <= n < |st.keys.order| && st.keys.order[n] == kid;
    assert es[n] == st.keys.at[kid];
    if HasKid(PublishedKeys(Values(st.keys), now), kid) {
      var k :| k in PublishedKeys(es, now) && k.kid == Some(kid);
      var i :| 0 <= i < |es| && es[i].publicJwk == k && IsPublished(es[i], now);
      assert st.keys.order[i] == kid;
    }
  }

  /** While a key is active, a read at any moment succeeds: the set passes its own validation,
      the signer is the key activated last, and its kid is published exactly once. With no
      active key every read throws. */
  lemma CurrentIsValid(rules: Rules, st: State, now: int)
    requires Sound(rules, st)
    ensures Current(rules, st, now).Some? <==> exists kid :: IsActive(st, kid)
    ensures Current(rules, st, now).Some? ==>
              var ks := Current(rules, st, now).value;
              && IsSigner(st, ks.signer.kid) && ValidKeySet(rules, ks) && CountKid(ks.keys, ks.signer.kid) == 1
              && st.keys.at[ks.signer.kid].publicJwk in ks.keys
  {
    hide Selected, PublishedKeys, Sound, ValidSigner;
    var es := Values(st.keys);
    SelectedIsSigner(rules, st);
    if Selected(es).Some? {
      var e := Selected(es).value;
      var ks := KeySet(e.signer, PublishedKeys(es, now));
      assert IsActive(st, e.signer.kid);
      SoundValues(rules, st);
      PublishedKidsDiffer(es, now);
      PublishedKeysOf(es, now);
      CollectsEntry(rules, st, e.signer.kid, now);
      CountOnce(ks.keys, e.signer.kid);
      ValuesMembers(st.keys, e);
      forall i | 0 <= i < |ks.keys|
        ensures ValidPublicKeyOf(rules, ks.keys[i], es)
      {
        assert ks.keys[i] in ks.keys;
      }
      SignerKeyFits(rules, ks, es, e);
    }
  }

  ghost predicate ValidPublicKeyOf(rules: Rules, k: Jwk, es: seq<Entry>) {
    exists i :: 0 <= i < |es| && es[i].publicJwk == k && ValidPublicJwk(rules, k, es[i].signer)
  }

  lemma SignerKeyFits(rules: Rules, ks: KeySet, es: seq<Entry>, e: Entry)
    requires KidsDiffer(es) && e in es && ks.signer == e.signer && ValidSigner(rules, e.signer)
    requires ValidPublicJwk(rules, e.publicJwk, e.signer)
    requires forall i :: 0 <= i < |ks.keys| ==> ValidPublicKeyOf(rules, ks.keys[i], es)
    requires Distinct(ks.keys)
    requires e.publicJwk in ks.keys && CountKid(ks.keys, e.signer.kid) == 1
    ensures ValidKeySet(rules, ks)
  {
    hide CountKid;
    var n :| 0 <= n < |es| && es[n] == e;
    forall k | k in ks.keys && k.kid == Some(e.signer.kid)
      ensures k == e.publicJwk
    {
      var i :| 0 <= i < |es| && es[i].publicJwk == k;
      assert es[i].publicJwk.kid == es[n].publicJwk.kid;
    }
  }

  // ------------------------------------------------- every step keeps it

  lemma SoundPut(rules: Rules, st: State, kid: Str, e: Entry, order: nat)
    requires Sound(rules, st) && order >= st.activationOrder && SoundEntry(rules, kid, e, order)
    requires e.activationOrder.Some? ==>
               || e.activationOrder.value == st.activationOrder
               || (kid in st.keys.at && e.activationOrder == st.keys.at[kid].activationOrder)
    ensures Sound(rules, State(Put(st.keys, kid, e), order))
  {
    hide ValidSigner, ValidPublicJwk;
    var keys := Put(st.keys, kid, e);
    forall k | k in keys.at
      ensures SoundEntry(rules, k, keys.at[k], order)
    {
      if k != kid {
        assert SoundEntry(rules, k, st.keys.at[k], st.activationOrder);
      }
    }
    forall k, l | k in keys.at && l in keys.at && k != l && keys.at[k].activationOrder.Some?
      ensures keys.at[k].activationOrder != keys.at[l].activationOrder
    {
      assert k != kid ==> SoundEntry(rules, k, st.keys.at[k], st.activationOrder);
      assert l != kid ==> SoundEntry(rules, l, st.keys.at[l], st.activationOrder);
    }
  }

  lemma {:induction false} InstallSound(rules: Rules, keys: seq<SigningKey>, now: int)
    requires Install(rules, keys, now).Some?
    ensures Sound(rules, Install(rules, keys, now).value)
  {
    if keys != [] {
      hide Sound, ValidSigner, ValidPublicJwk;
      var n := |keys| - 1;
      InstallSound(rules, keys[..n], now);
      var st := Install(rules, keys[..n], now).value;
      SoundPut(rules, st, keys[n].signer.kid, InitialEntry(keys[n], st.activationOrder, now), st.activationOrder + 1);
    }
  }

  lemma PublishSound(rules: Rules, st: State, key: SigningKey, now: int)
    requires Sound(rules, st) && Publish(rules, st, key, now).Some?
    ensures Sound(rules, Publish(rules, st, key, now).value)
  {
    hide Sound, ValidSigner, ValidPublicJwk;
    var after := Publish(rules, st, key, now).value;
    SoundPut(rules, st, key.signer.kid, after.keys.at[key.signer.kid], st.activationOrder);
  }

  lemma EntrySound(rules: Rules, st: State, kid: Str)
    requires Sound(rules, st) && kid in st.keys.at
    ensures SoundEntry(rules, kid, st.keys.at[kid], st.activationOrder)
  {
  }

  lemma RevokeSound(rules: Rules, st: State, kid: Str, reason: Str, now: int)
    requires Sound(rules, st) && kid in st.keys.at
    ensures Sound(rules, Revoke(st, kid, reason, now).value)
  {
    hide Sound, ValidSigner, ValidPublicJwk;
    EntrySound(rules, st, kid);
    SoundPut(rules, st, kid, Revoke(st, kid, reason, now).value.keys.at[kid], st.activationOrder);
  }

  /** What a switch changes: the new key is activated, the previous one retires. */
  ghost predicate Replaced(st: State, after: State, kid: Str, previous: Str, overlap: Option<int>, now: int) {
    && after.keys.order == st.keys.order && after.keys.at.Keys == st.keys.at.Keys
    && after.activationOrder == st.activationOrder + 1
    && kid in st.keys.at && st.keys.at[kid].stage.Published? &&
        after.keys.at[kid] == Activated(st.keys.at[kid], st.activationOrder, now)
    && IsActive(st, previous) && after.keys.at[previous] == Retired(st.keys.at[previous], overlap, now)
    && forall other :: other in st.keys.at && other != kid && other != previous ==>
        after.keys.at[other] == st.keys.at[other]
  }

  /** A switch succeeds exactly for a published key while some key is active; the key becomes
      the signer and the signer before it retires. Nothing else changes. */
  lemma SwitchChanges(rules: Rules, st: State, kid: Str, overlap: Option<int>, checked: int, now: int)
    requires Sound(rules, st)
    ensures Switch(rules, st, kid, overlap, checked, now).Some? <==>
            kid in st.keys.at && st.keys.at[kid].stage.Published? && exists k :: IsActive(st, k)
    ensures Switch(rules, st, kid, overlap, checked, now).Some? ==>
              var after := Switch(rules, st, kid, overlap, checked, now).value;
              && Sound(rules, after) && IsSigner(after, kid)
              && exists previous :: IsSigner(st, previous) && Replaced(st, after, kid, previous, overlap, now)
  {
    hide Current, Sound, SwitchedFrom, Replaced, ValidKeySet;
    CurrentIsValid(rules, st, checked);
    if Switch(rules, st, kid, overlap, checked, now).Some? {
      SwitchedFromChanges(rules, st, kid, Current(rules, st, checked).value.signer.kid, overlap, now);
    } else if kid in st.keys.at && st.keys.at[kid].stage.Published? && Current(rules, st, checked).Some? {
      SwitchedFromChanges(rules, st, kid, Current(rules, st, checked).value.signer.kid, overlap, now);
    }
  }

  lemma SwitchedFromChanges(rules: Rules, st: State, kid: Str, previous: Str, overlap: Option<int>, now: int)
    requires Sound(rules, st) && kid in st.keys.at && st.keys.at[kid].stage.Published? && IsSigner(st, previous)
    ensures SwitchedFrom(st, kid, previous, overlap, now).Some?
    ensures var after := SwitchedFrom(st, kid, previous, overlap, now).value;
            Sound(rules, after) && IsSigner(after, kid) && Replaced(st, after, kid, previous, overlap, now)
  {
    hide Sound, ValidSigner, ValidPublicJwk;
    var activated := Activated(st.keys.at[kid], st.activationOrder, now);
    var retired := Retired(st.keys.at[previous], overlap, now);
    EntrySound(rules, st, kid);
    EntrySound(rules, st, previous);
    SoundPut(rules, st, kid, activated, st.activationOrder + 1);
    var mid := State(Put(st.keys, kid, activated), st.activationOrder + 1);
    SoundPut(rules, mid, previous, retired, mid.activationOrder);
    var after := State(Put(mid.keys, previous, retired), mid.activationOrder);
    assert SwitchedFrom(st, kid, previous, overlap, now) == Some(after);
    LastActivatedSigns(rules, after, kid);
  }

  lemma LastActivatedSigns(rules: Rules, st: State, kid: Str)
    requires Sound(rules, st) && IsActive(st, kid) && Or0(st.keys.at[kid].activationOrder) + 1 == st.activationOrder
    ensures IsSigner(st, kid)
  {
    hide ValidSigner, ValidPublicJwk, Sound;
    forall other | IsActive(st, other)
      ensures Or0(st.keys.at[other].activationOrder) <= Or0(st.keys.at[kid].activationOrder)
    {
      EntrySound(rules, st, other);
    }
  }

  // ------------------------------------------------- runs

  datatype Command =
    | DoPublish(key: SigningKey, at: int)
    | DoSwitch(kid: Str, overlap: Option<int>, checked: int, at: int)
    | DoRevoke(kid: Str, reason: Str, at: int)

  ghost function Attempt(rules: Rules, st: State, c: Command): Option<State> {
    match c
    case DoPublish(key, at) => Publish(rules, st, key, at)
    case DoSwitch(kid, overlap, checked, at) => Switch(rules, st, kid, overlap, checked, at)
    case DoRevoke(kid, reason, at) => Revoke(st, kid, reason, at)
  }

  ghost function Step(rules: Rules, st: State, c: Command): State {
    match Attempt(rules, st, c) case Some(after) => after case None => st
  }

  ghost function Play(rules: Rules, st: State, cs: seq<Command>): State {
    if cs == [] then st else Step(rules, Play(rules, st, cs[..|cs| - 1]), cs[|cs| - 1])
  }

  /** The effect of a successful switch, with the key it retires. */
  lemma SwitchStep(rules: Rules, st: State, c: Command) returns (previous: Str)
    requires Sound(rules, st) && c.DoSwitch? && Attempt(rules, st, c).Some?
    ensures IsSigner(st, previous) && IsActive(st, previous) &&
            Replaced(st, Step(rules, st, c), c.kid, previous, c.overlap, c.at)
  {
    hide Sound, Switch, IsSigner, Replaced;
    SwitchChanges(rules, st, c.kid, c.overlap, c.checked, c.at);
    previous :| IsSigner(st, previous) && Replaced(st, Step(rules, st, c), c.kid, previous, c.overlap, c.at);
    SignerActive(st, previous);
  }

  lemma StepSound(rules: Rules, st: State, c: Command)
    requires Sound(rules, st)
    ensures Sound(rules, Step(rules, st, c))
  {
    hide Sound, Publish, Switch, IsSigner;
    match c
    case DoPublish(key, at) =>
      if Publish(rules, st, key, at).Some? {
        PublishSound(rules, st, key, at);
      }
    case DoSwitch(kid, overlap, checked, at) =>
      SwitchChanges(rules, st, kid, overlap, checked, at);
    case DoRevoke(kid, reason, at) =>
      if kid in st.keys.at {
        RevokeSound(rules, st, kid, reason, at);
      }
  }

  lemma {:induction false} PlaySound(rules: Rules, st: State, cs: seq<Command>)
    requires Sound(rules, st)
    ensures Sound(rules, Play(rules, st, cs))
  {
    hide Sound, Step;
    if cs != [] {
      PlaySound(rules, st, cs[..|cs| - 1]);
      StepSound(rules, Play(rules, st, cs[..|cs| - 1]), cs[|cs| - 1]);
    }
  }

  /** A stage only moves forward. */
  predicate Onward(before: Stage, after: Stage) {
    || before == after
    || after.Revoked?
    || (before.Published? && after.Active?)
    || (before.Published? && after.Retiring?)
    || (before.Active? && after.Retiring?)
  }

  lemma OnwardTransitive(a: Stage, b: Stage, c: Stage)
    requires Onward(a, b) && Onward(b, c)
    ensures Onward(a, c)
  {
  }

  /** No key is lost, replaced or moved, new ones come last, and no key goes back a stage. */
  ghost predicate Continues(before: State, after: State) {
    && before.keys.order <= after.keys.order
    && forall kid :: kid in before.keys.at ==>
      && kid in after.keys.at
      && after.keys.at[kid].publicJwk == before.keys.at[kid].publicJwk
      && after.keys.at[kid].signer == before.keys.at[kid].signer
      && after.keys.at[kid].createdAt == before.keys.at[kid].createdAt
      && Onward(before.keys.at[kid].stage, after.keys.at[kid].stage)
  }

  lemma StepContinues(rules: Rules, st: State, c: Command)
    requires Sound(rules, st)
    ensures Continues(st, Step(rules, st, c))
  {
    hide Sound, Switch, IsSigner, ValidSigner, ValidPublicJwk, Replaced;
    if c.DoSwitch? && Attempt(rules, st, c).Some? {
      hide Continues;
      var previous := SwitchStep(rules, st, c);
      ReplacedContinues(st, Step(rules, st, c), c.kid, previous, c.overlap, c.at);
    }
  }

  lemma ReplacedContinues(st: State, after: State, kid: Str, previous: Str, overlap: Option<int>, now: int)
    requires Replaced(st, after, kid, previous, overlap, now)
    ensures Continues(st, after)
  {
  }

  lemma SignerActive(st: State, kid: Str)
    requires IsSigner(st, kid)
    ensures IsActive(st, kid)
  {
  }

  ghost function After(rules: Rules, st: State, cs: seq<Command>, i: nat): State
    requires i <= |cs|
  {
    Play(rules, st, cs[..i])
  }

  lemma AfterNext(rules: Rules, st: State, cs: seq<Command>, i: nat)
    requires i < |cs|
    ensures After(rules, st, cs, i + 1) == Step(rules, After(rules, st, cs, i), cs[i])
  {
    assert cs[..i + 1][..i] == cs[..i];
  }

  /** Over every run a kid keeps its public key for good, stays in the history, and a
      revoked kid stays revoked. */
  lemma {:induction false} RunContinues(rules: Rules, st: State, cs: seq<Command>, i: nat, j: nat)
    requires Sound(rules, st) && i <= j <= |cs|
    ensures Continues(After(rules, st, cs, i), After(rules, st, cs, j))
    decreases j
  {
    hide Sound, Step, After, Onward;
    if i == j {
      OnwardReflexive();
    } else {
      RunContinues(rules, st, cs, i, j - 1);
      AfterNext(rules, st, cs, j - 1);
      AfterSound(rules, st, cs, j - 1);
      StepContinues(rules, After(rules, st, cs, j - 1), cs[j - 1]);
      ContinuesTransitive(After(rules, st, cs, i), After(rules, st, cs, j - 1), After(rules, st, cs, j));
    }
  }

  lemma OnwardReflexive()
    ensures forall s :: Onward(s, s)
  {
  }

  lemma ContinuesTransitive(a: State, b: State, c: State)
    requires Continues(a, b) && Continues(b, c)
    ensures Continues(a, c)
  {
    hide Onward;
    forall kid | kid in a.keys.at
      ensures kid in c.keys.at && Onward(a.keys.at[kid].stage, c.keys.at[kid].stage)
    {
      OnwardTransitive(a.keys.at[kid].stage, b.keys.at[kid].stage, c.keys.at[kid].stage);
    }
  }

  lemma AfterSound(rules: Rules, st: State, cs: seq<Command>, i: nat)
    requires Sound(rules, st) && i <= |cs|
    ensures Sound(rules, After(rules, st, cs, i))
  {
    PlaySound(rules, st, cs[..i]);
  }

  /** The signer is replaced only by retiring or revoking it. */
  lemma SignerLeaves(rules: Rules, st: State, c: Command, kid: Str)
    requires Sound(rules, st) && IsSigner(st, kid) && !IsSigner(Step(rules, st, c), kid)
    ensures kid in Step(rules, st, c).keys.at && !IsActive(Step(rules, st, c), kid)
  {
    hide Sound, Switch, ValidSigner, ValidPublicJwk;
    StepContinues(rules, st, c);
    if c.DoSwitch? {
      if Attempt(rules, st, c).Some? {
        var previous := SwitchStep(rules, st, c);
        SignerUnique(rules, st, kid, previous);
      }
    }
  }

  /** A key that stops being the signer never signs again. */
  lemma {:induction false} ExSignerNeverReturns(rules: Rules, st: State, cs: seq<Command>, kid: Str, i: nat, j: nat,
                                                k: nat)
    requires Sound(rules, st) && i <= j <= k <= |cs|
    requires IsSigner(After(rules, st, cs, i), kid) && !IsSigner(After(rules, st, cs, j), kid)
    ensures !IsSigner(After(rules, st, cs, k), kid) && !IsActive(After(rules, st, cs, k), kid)
    decreases j
  {
    hide Sound, Step, After, IsSigner;
    if i < j {
      if !IsSigner(After(rules, st, cs, j - 1), kid) {
        ExSignerNeverReturns(rules, st, cs, kid, i, j - 1, k);
      } else {
        AfterNext(rules, st, cs, j - 1);
        AfterSound(rules, st, cs, j - 1);
        SignerActive(After(rules, st, cs, j - 1), kid);
        SignerLeaves(rules, After(rules, st, cs, j - 1), cs[j - 1], kid);
        RunContinues(rules, st, cs, j, k);
        RunContinues(rules, st, cs, j - 1, k);
        RunContinues(rules, st, cs, j - 1, j);
        if IsSigner(After(rules, st, cs, k), kid) {
          SignerActive(After(rules, st, cs, k), kid);
        }
      }
    }
  }

  // ------------------------------------------------- active keys are conserved

  ghost function ActiveKids(st: State): set<Str> {
    set kid | kid in st.keys.at && IsActive(st, kid)
  }

  lemma ReplacedActive(st: State, after: State, kid: Str, previous: Str, overlap: Option<int>, now: int)
    requires Replaced(st, after, kid, previous, overlap, now)
    ensures |ActiveKids(after)| == |ActiveKids(st)|
  {
    forall k
      ensures IsActive(after, k) <==> k == kid || (IsActive(st, k) && k != previous)
    {
    }
    hide Replaced, Activated, Retired;
    KidsOf(st);
    KidsOf(after);
    assert ActiveKids(after) == (ActiveKids(st) - {previous}) + {kid};
  }

  lemma KidsOf(st: State)
    ensures forall k :: k in ActiveKids(st) <==> IsActive(st, k)
  {
  }

  lemma RevokedActive(st: State, kid: Str, reason: Str, now: int)
    requires kid in st.keys.at
    ensures |ActiveKids(Revoke(st, kid, reason, now).value)| == |ActiveKids(st)| - if IsActive(st, kid) then 1 else 0
  {
    assert ActiveKids(Revoke(st, kid, reason, now).value) == ActiveKids(st) - {kid};
  }

  lemma PublishedActive(rules: Rules, st: State, key: SigningKey, now: int)
    requires Publish(rules, st, key, now).Some?
    ensures ActiveKids(Publish(rules, st, key, now).value) == ActiveKids(st)
  {
  }

  /** A switch keeps the number of active keys, a revocation of an active key lowers it by
      one, and nothing else changes it. */
  lemma ActiveConserved(rules: Rules, st: State, c: Command)
    requires Sound(rules, st)
    ensures |ActiveKids(Step(rules, st, c))| == |ActiveKids(st)| - if c.DoRevoke? && IsActive(st, c.kid) then 1 else 0
  {
    hide Sound, Switch, Publish, ActiveKids, IsSigner, Replaced;
    if Attempt(rules, st, c).Some? {
      match c
      case DoRevoke(kid, reason, at) => RevokedActive(st, kid, reason, at);
      case DoPublish(key, at) => PublishedActive(rules, st, key, at);
      case DoSwitch(kid, overlap, checked, at) =>
        var previous := SwitchStep(rules, st, c);
        ReplacedActive(st, Step(rules, st, c), kid, previous, overlap, at);
    }
  }

  /** Once no key is active no sequence of calls makes the provider sign again. */
  lemma {:induction false} SilentForGood(rules: Rules, st: State, cs: seq<Command>, now: int)
    requires Sound(rules, st) && ActiveKids(st) == {}
    ensures ActiveKids(Play(rules, st, cs)) == {} && Current(rules, Play(rules, st, cs), now).None?
  {
    hide Sound, Step, Current, ValidKeySet, ActiveKids;
    if cs != [] {
      var n := |cs| - 1;
      SilentForGood(rules, st, cs[..n], now);
      PlaySound(rules, st, cs[..n]);
      ActiveConserved(rules, Play(rules, st, cs[..n]), cs[n]);
    }
    var end := Play(rules, st, cs);
    PlaySound(rules, st, cs);
    CurrentIsValid(rules, end, now);
    NoneActive(end);
  }

  lemma NoneActive(st: State)
    ensures ActiveKids(st) == {} <==> forall kid :: !IsActive(st, kid)
  {
    assert forall kid :: IsActive(st, kid) <==> kid in ActiveKids(st);
  }

  /** Every read over every run from construction: it answers while a key is active, and
      then with a valid set that publishes the signer once. */
  lemma EveryReadValid(rules: Rules, initial: seq<SigningKey>, start: int, cs: seq<Command>, now: int)
    requires Install(rules, initial, start).Some?
    ensures var st := Play(rules, Install(rules, initial, start).value, cs);
            && (Current(rules, st, now).Some? <==> ActiveKids(st) != {})
            && (Current(rules, st, now).Some? ==>
                  var ks := Current(rules, st, now).value;
                  && IsSigner(st, ks.signer.kid) && ValidKeySet(rules, ks) && CountKid(ks.keys, ks.signer.kid) == 1
                  && st.keys.at[ks.signer.kid].publicJwk in ks.keys)
  {
    hide Sound, Play, Install, ActiveKids, Current, IsSigner, ValidKeySet;
    var st0 := Install(rules, initial, start).value;
    InstallSound(rules, initial, start);
    PlaySound(rules, st0, cs);
    CurrentIsValid(rules, Play(rules, st0, cs), now);
    NoneActive(Play(rules, st0, cs));
  }

  // ------------------------------------------------- publication without a gap

  /** The end of the overlap of the key's switch-out, if the call is one. */
  ghost function OutAfter(rules: Rules, before: State, c: Command, kid: Str, out: Option<int>): Option<int> {
    if c.DoSwitch? && Attempt(rules, before, c).Some? && IsSigner(before, kid)
    then Some(c.at + if c.overlap.Some? then c.overlap.value else DEFAULT_KEY_RETIRE_AFTER_MS)
    else out
  }

  predicate RevokedAfter(before: State, c: Command, kid: Str, revoked: bool) {
    revoked || (c.DoRevoke? && c.kid == kid && kid in before.keys.at)
  }

  /** When the key was switched out by a call that found it signing, the end of its overlap. */
  ghost function SwitchedOut(rules: Rules, st: State, cs: seq<Command>, kid: Str): Option<int> {
    if cs == [] then None
    else
      var n := |cs| - 1;
      OutAfter(rules, Play(rules, st, cs[..n]), cs[n], kid, SwitchedOut(rules, st, cs[..n], kid))
  }

  ghost predicate WasRevoked(rules: Rules, st: State, cs: seq<Command>, kid: Str) {
    cs != [] &&
    var n := |cs| - 1;
    RevokedAfter(Play(rules, st, cs[..n]), cs[n], kid, WasRevoked(rules, st, cs[..n], kid))
  }

  /** The entry of a kid says what the calls have done to it. */
  ghost predicate Reflects(st: State, kid: Str, out: Option<int>, revoked: bool) {
    kid in st.keys.at ==>
      && (st.keys.at[kid].stage.Revoked? <==> revoked)
      && (!revoked ==> (st.keys.at[kid].stage.Retiring? <==> out.Some?))
      && (st.keys.at[kid].stage.Retiring? ==> st.keys.at[kid].scheduledRemovalAt == out)
  }

  ghost predicate Fresh(st: State) {
    forall kid :: kid in st.keys.at ==> st.keys.at[kid].stage.Active?
  }

  lemma {:induction false} EntryReflects(rules: Rules, st: State, cs: seq<Command>, kid: Str)
    requires Sound(rules, st) && Fresh(st)
    ensures Reflects(Play(rules, st, cs), kid, SwitchedOut(rules, st, cs, kid), WasRevoked(rules, st, cs, kid))
    ensures kid !in Play(rules, st, cs).keys.at ==>
            SwitchedOut(rules, st, cs, kid).None? && !WasRevoked(rules, st, cs, kid)
  {
    if cs != [] {
      hide Sound, Step, OutAfter, RevokedAfter, Reflects, Fresh;
      var n := |cs| - 1;
      EntryReflects(rules, st, cs[..n], kid);
      PlaySound(rules, st, cs[..n]);
      StepReflects(rules, Play(rules, st, cs[..n]), cs[n], kid, SwitchedOut(rules, st, cs[..n], kid),
                   WasRevoked(rules, st, cs[..n], kid));
    }
  }

  lemma StepReflects(rules: Rules, before: State, c: Command, kid: Str, out: Option<int>, revoked: bool)
    requires Sound(rules, before) && Reflects(before, kid, out, revoked)
    requires kid !in before.keys.at ==> out.None? && !revoked
    ensures var after := Step(rules, before, c);
            var out', revoked' := OutAfter(rules, before, c, kid, out), RevokedAfter(before, c, kid, revoked);
            && Reflects(after, kid, out', revoked')
            && (kid !in after.keys.at ==> out'.None? && !revoked')
  {
    hide Sound, Switch, IsSigner, Replaced, ValidSigner, ValidPublicJwk;
    var after := Step(rules, before, c);
    if c.DoSwitch? && Attempt(rules, before, c).Some? {
      hide Reflects;
      var previous := SwitchStep(rules, before, c);
      ReplacedReflects(before, after, c.kid, previous, c.overlap, c.at, kid, out, revoked);
      if IsSigner(before, kid) {
        SignerUnique(rules, before, kid, previous);
      }
      ReplacedKids(before, after, c.kid, previous, c.overlap, c.at);
    }
  }

  lemma ReplacedKids(st: State, after: State, kid: Str, previous: Str, overlap: Option<int>, now: int)
    requires Replaced(st, after, kid, previous, overlap, now)
    ensures forall k :: k in after.keys.at <==> k in st.keys.at
  {
  }

  lemma ReplacedReflects(st: State, after: State, k: Str, previous: Str, overlap: Option<int>, now: int, kid: Str,
                         out: Option<int>, revoked: bool)
    requires Replaced(st, after, k, previous, overlap, now) && Reflects(st, kid, out, revoked)
    ensures var retired := Retired(st.keys.at[previous], overlap, now).scheduledRemovalAt;
            Reflects(after, kid, if kid == previous then retired else out, revoked)
  {
  }

  /** What a reader sees of an entry: nothing once no key is active. */
  lemma PublishesEntry(rules: Rules, st: State, kid: Str, now: int)
    requires Sound(rules, st) && kid in st.keys.at
    ensures Publishes(rules, st, kid, now) <==> ActiveKids(st) != {} && IsPublished(st.keys.at[kid], now)
    ensures Publishes(rules, st, kid, now) ==> st.keys.at[kid].publicJwk in Current(rules, st, now).value.keys
  {
    hide Sound, Current, IsSigner, ValidKeySet, PublishedKeys, IsPublished, HasKid, ActiveKids;
    CurrentIsValid(rules, st, now);
    SignerIsActive(rules, st, now);
    CollectsEntry(rules, st, kid, now);
    NoneActive(st);
  }

  /** At every moment of every run a key that is in the history and was never revoked is
      published exactly while some key is active and the overlap after its own switch-out,
      if it was switched out, has not passed; so while a key is active there is no gap. */
  lemma PublishedWithoutGap(rules: Rules, initial: seq<SigningKey>, start: int, cs: seq<Command>, kid: Str, now: int)
    requires Install(rules, initial, start).Some?
    requires var st := Install(rules, initial, start).value;
             kid in Play(rules, st, cs).keys.at && !WasRevoked(rules, st, cs, kid)
    ensures var st := Install(rules, initial, start).value;
            Publishes(rules, Play(rules, st, cs), kid, now) <==>
            && ActiveKids(Play(rules, st, cs)) != {}
            && (SwitchedOut(rules, st, cs, kid).None? || now < SwitchedOut(rules, st, cs, kid).value)
  {
    hide Sound, Play, Install, SwitchedOut, WasRevoked, Publishes, ActiveKids;
    var st := Install(rules, initial, start).value;
    InstallSound(rules, initial, start);
    InstallFresh(rules, initial, start);
    PlaySound(rules, st, cs);
    EntryReflects(rules, st, cs, kid);
    PublishesEntry(rules, Play(rules, st, cs), kid, now);
  }

  /** And never published once revoked. */
  lemma RevokedIsUnpublished(rules: Rules, initial: seq<SigningKey>, start: int, cs: seq<Command>, kid: Str, now: int)
    requires Install(rules, initial, start).Some? && WasRevoked(rules, Install(rules, initial, start).value, cs, kid)
    ensures !Publishes(rules, Play(rules, Install(rules, initial, start).value, cs), kid, now)
  {
    hide Sound, Play, Install, SwitchedOut, WasRevoked, Publishes, ActiveKids;
    var st := Install(rules, initial, start).value;
    InstallSound(rules, initial, start);
    InstallFresh(rules, initial, start);
    PlaySound(rules, st, cs);
    EntryReflects(rules, st, cs, kid);
    PublishesEntry(rules, Play(rules, st, cs), kid, now);
  }

  lemma PlayTwo(rules: Rules, st: State, c: Command, d: Command)
    ensures Play(rules, st, [c]) == Step(rules, st, c)
    ensures Play(rules, st, [c, d]) == Step(rules, Step(rules, st, c), d)
  {
    hide Step;
    assert [c][..0] == [] && [c, d][..1] == [c];
    assert Play(rules, st, []) == st;
  }

  lemma InstallOne(rules: Rules, key: SigningKey, now: int)
    requires Acceptable(rules, State(Empty(), 0), key)
    ensures Install(rules, [key], now) == Some(State(Put(Empty(), key.signer.kid, InitialEntry(key, 0, now)), 1))
  {
    hide Acceptable;
    assert [key][..0] == [];
    assert Install(rules, [], now) == Some(State(Empty(), 0));
  }

  /** A published key that the signer's revocation leaves stranded: never revoked, never
      switched out, and at no time can anyone read it. */
  lemma StrandedKey(rules: Rules, a: SigningKey, b: SigningKey, start: int, published: int, reason: Str, revoked: int,
                    now: int)
    requires Acceptable(rules, State(Empty(), 0), a) && Acceptable(rules, State(Empty(), 0), b) &&
             a.signer.kid != b.signer.kid
    ensures Install(rules, [a], start).Some?
    ensures var st := Install(rules, [a], start).value;
            var cs, kid := [DoPublish(b, published), DoRevoke(a.signer.kid, reason, revoked)], b.signer.kid;
            && kid in Play(rules, st, cs).keys.at && !WasRevoked(rules, st, cs, kid) &&
                SwitchedOut(rules, st, cs, kid).None?
            && !Publishes(rules, Play(rules, st, cs), kid, now)
  {
    hide Sound, ValidSigner, ValidPublicJwk, Publishes, IsSigner;
    InstallOne(rules, a, start);
    InstallSound(rules, [a], start);
    InstallFresh(rules, [a], start);
    var st := Install(rules, [a], start).value;
    var cs, kid := [DoPublish(b, published), DoRevoke(a.signer.kid, reason, revoked)], b.signer.kid;
    PlayTwo(rules, st, cs[0], cs[1]);
    var end := Play(rules, st, cs);
    assert end.keys.at.Keys == {a.signer.kid, kid} && end.keys.at[kid].stage.Published? &&
           end.keys.at[a.signer.kid].stage.Revoked?;
    hide Play, Install;
    PlaySound(rules, st, cs);
    EntryReflects(rules, st, cs, kid);
    PublishesEntry(rules, end, kid, now);
  }

  lemma {:induction false} InstallFresh(rules: Rules, keys: seq<SigningKey>, now: int)
    requires Install(rules, keys, now).Some?
    ensures Fresh(Install(rules, keys, now).value)
  {
    if keys != [] {
      InstallFresh(rules, keys[..|keys| - 1], now);
    }
  }

  lemma NoSecondOut(rules: Rules, before: State, c: Command, kid: Str, out: Option<int>, revoked: bool)
    requires Reflects(before, kid, out, revoked) && out.Some?
    ensures OutAfter(rules, before, c, kid, out) == out
  {
    hide Attempt;
  }

  lemma OutLast(rules: Rules, st: State, cs: seq<Command>, kid: Str)
    requires cs != []
    ensures var n := |cs| - 1;
            SwitchedOut(rules, st, cs, kid) ==
                OutAfter(rules, Play(rules, st, cs[..n]), cs[n], kid, SwitchedOut(rules, st, cs[..n], kid))
  {
  }

  /** A key is switched out at most once. */
  lemma {:induction false} SwitchedOutOnce(rules: Rules, st: State, cs: seq<Command>, kid: Str, i: nat)
    requires Sound(rules, st) && Fresh(st) && i <= |cs| && SwitchedOut(rules, st, cs[..i], kid).Some?
    ensures SwitchedOut(rules, st, cs, kid) == SwitchedOut(rules, st, cs[..i], kid)
  {
    if i == |cs| {
      assert cs[..i] == cs;
    } else {
      hide Sound, Play, Fresh, OutAfter, WasRevoked, Reflects, SwitchedOut;
      var n := |cs| - 1;
      OutLast(rules, st, cs, kid);
      assert cs[..n][..i] == cs[..i];
      SwitchedOutOnce(rules, st, cs[..n], kid, i);
      EntryReflects(rules, st, cs[..n], kid);
      NoSecondOut(rules, Play(rules, st, cs[..n]), cs[n], kid, SwitchedOut(rules, st, cs[..n], kid),
                  WasRevoked(rules, st, cs[..n], kid));
    }
  }

  // ------------------------------------------------- dates of the historical entries

  /** The clock does not go back and overlaps are not negative. */
  ghost predicate Timely(start: int, cs: seq<Command>) {
    && (forall i :: 0 <= i < |cs| ==> start <= cs[i].at)
    && (forall i, j :: 0 <= i < j < |cs| ==> cs[i].at <= cs[j].at)
    && (forall i :: 0 <= i < |cs| && cs[i].DoSwitch? && cs[i].overlap.Some? ==> cs[i].overlap.value >= 0)
  }

  function LastTime(start: int, cs: seq<Command>): int {
    if cs == [] then start else cs[|cs| - 1].at
  }

  ghost predicate Dated(e: Entry, t: int) {
    && e.createdAt.Some? && e.createdAt.value <= t
    && (e.activatedAt.Some? ==> e.createdAt.value <= e.activatedAt.value <= t)
    && (e.scheduledRemovalAt.Some? ==> e.activatedAt.Some? && e.activatedAt.value <= e.scheduledRemovalAt.value)
    && (e.revokedAt.Some? ==>
        e.createdAt.value <= e.revokedAt.value <= t &&
            (e.activatedAt.Some? ==> e.activatedAt.value <= e.revokedAt.value))
    && e.expiresAt.None?
    && (e.stage.Active? ==> e.activatedAt.Some?)
  }

  ghost predicate AllDated(st: State, t: int) {
    forall kid :: kid in st.keys.at ==> Dated(st.keys.at[kid], t)
  }

  lemma StepDated(rules: Rules, st: State, c: Command, t: int)
    requires Sound(rules, st) && AllDated(st, t) && t <= c.at &&
             (c.DoSwitch? && c.overlap.Some? ==> c.overlap.value >= 0)
    ensures AllDated(Step(rules, st, c), c.at)
  {
    hide Sound, Switch, IsSigner, Replaced, Acceptable;
    if c.DoSwitch? && Attempt(rules, st, c).Some? {
      hide AllDated;
      var previous := SwitchStep(rules, st, c);
      ReplacedDated(rules, st, Step(rules, st, c), c.kid, previous, c.overlap, c.at, t);
    }
  }

  lemma ReplacedDated(rules: Rules, st: State, after: State, kid: Str, previous: Str, overlap: Option<int>, now: int,
                      t: int)
    requires Sound(rules, st) && AllDated(st, t) && t <= now && (overlap.Some? ==> overlap.value >= 0)
    requires Replaced(st, after, kid, previous, overlap, now)
    ensures AllDated(after, now)
  {
    hide Sound, ValidSigner, ValidPublicJwk;
    EntrySound(rules, st, kid);
    assert Dated(st.keys.at[kid], t) && Dated(st.keys.at[previous], t);
  }

  lemma {:induction false} PlayDated(rules: Rules, st: State, cs: seq<Command>, start: int)
    requires Sound(rules, st) && AllDated(st, start) && Timely(start, cs)
    ensures AllDated(Play(rules, st, cs), LastTime(start, cs))
  {
    hide Sound, Step, AllDated;
    if cs != [] {
      var n := |cs| - 1;
      PlayDated(rules, st, cs[..n], start);
      PlaySound(rules, st, cs[..n]);
      StepDated(rules, Play(rules, st, cs[..n]), cs[n], LastTime(start, cs[..n]));
    }
  }

  lemma {:induction false} InstallDated(rules: Rules, keys: seq<SigningKey>, now: int)
    requires Install(rules, keys, now).Some?
    ensures AllDated(Install(rules, keys, now).value, now)
  {
    if keys != [] {
      InstallDated(rules, keys[..|keys| - 1], now);
    }
  }

  ghost predicate Ordered(h: Historical) {
    && h.iat.Some? && h.iat.value <= h.exp
    && (h.nbf.Some? ==> h.iat.value <= h.nbf.value <= h.exp)
    && (h.revoked.Some? ==> h.iat.value <= h.revoked.value.revokedAt)
  }

  lemma DatedOrdered(e: Entry, t: int, now: int)
    requires Dated(e, t) && t <= now && (e.stage.Retiring? ==> e.scheduledRemovalAt.Some?)
    ensures Ordered(HistoricalOf(e, Seconds(now)))
    ensures e.stage.Retiring? && IsPublished(e, now) ==> HistoricalOf(e, Seconds(now)).exp >= Seconds(now)
  {
  }

  /** Every historical entry at every moment of every run: issued before valid before
      expired, and a key still published while retiring has not yet expired. */
  lemma HistoryOrdered(rules: Rules, initial: seq<SigningKey>, start: int, cs: seq<Command>, now: int)
    requires Install(rules, initial, start).Some? && Timely(start, cs) && LastTime(start, cs) <= now
    ensures var st := Play(rules, Install(rules, initial, start).value, cs);
            forall i :: 0 <= i < |History(st, now)| ==>
              var kid, h := st.keys.order[i], History(st, now)[i];
              && kid in st.keys.at && Ordered(h)
              && (st.keys.at[kid].stage.Retiring? && IsPublished(st.keys.at[kid], now) ==> h.exp >= Seconds(now))
  {
    hide Play, Install, Dated, Ordered, HistoricalOf, IsPublished, ValidSigner, ValidPublicJwk;
    var st0 := Install(rules, initial, start).value;
    InstallSound(rules, initial, start);
    InstallDated(rules, initial, start);
    PlayDated(rules, st0, cs, start);
    PlaySound(rules, st0, cs);
    var st := Play(rules, st0, cs);
    forall i | 0 <= i < |st.keys.order|
      ensures var kid := st.keys.order[i];
              kid in st.keys.at && Ordered(History(st, now)[i])
              && (st.keys.at[kid].stage.Retiring? && IsPublished(st.keys.at[kid], now) ==>
                  History(st, now)[i].exp >= Seconds(now))
    {
      var kid := st.keys.order[i];
      assert kid in st.keys.at;
      EntrySound(rules, st, kid);
      DatedOrdered(st.keys.at[kid], LastTime(start, cs), now);
    }
  }
}
