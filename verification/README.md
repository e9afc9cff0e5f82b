# OpenID Federation: storage, rollover, pagination, caches and policies

A Dafny model of the state machines and decision procedures of an OpenID Federation
library: an authority's transactional store with its lifecycle log and trust marks, the
cursor pagination over it, federation key rollover, the leaf's single-flight cache, the
LRU cache, the replay store and wallet authentication on top of it, and four validators
(canonical text, claim paths, language tags, metadata policies). `dafny verify
dfyconfig.toml` checks everything.

How the model is laid out:

- Strings are sequences of UTF-16 code units (`Text`), compared as the language compares
  them. A `Map` is `OrderedMaps.OMap`, a dictionary with its insertion order. A throw is
  `None` or a verdict; it is never a precondition.
- Concurrency is interleaving. `Adapter` models the promise queue turn by turn for any
  number of clients; `AuthorityCalls` writes each transaction as the turns between its
  awaits; `Lifecycle` and `TrustMarkIssuance` lift what one call keeps to every state any
  client can read. `LeafCache` and `WalletAuth` are step machines of the same kind.
- What a run leaves behind is also told by its calls alone, without the functions that
  compute it: `Accounts` does so for records and marks, `KeyHistory` for the key provider,
  and lemmas named `…IsTold` for the leaf and the replay store. `PolicyOutcome` says what
  merged policies demand and what applying one leaves, by meaning alone, and `TagPattern`
  what the regular expression for language tags matches.
- State that the source changes in place is a class (`Store.MemoryState`,
  `FederationKeys.Provider`, `LeafCache.Leaf`, `LruCache.MemoryCache`,
  `ReplayStore.MemoryReplayStore`, the heap trie of `ClaimPaths`). Its methods are proved
  against functions of the state, and the theorems are about those functions.
- Clock readings are parameters of every operation, one per call of the clock. Times are
  integers, and reals in `ReplayStore` and `WalletAuth`, where fractions can occur.
- Signing, JWT decoding, the Zod schemas and the helpers behind them are opaque values or
  functions handed in (`Context`, `Rules`).

Where the code does less than a caller may expect, and exactly when:

- A metadata policy compares values by reading the keys of one from the other, inherited
  ones included, and an array's keys are its indices. So `{"length": 1}` passes for any array
  of one, a member `__proto__` with an empty value for any other member, and `["q"]` for
  `{"0": "q"}`.
  - `PolicyValues.ClearIsExact`: up to reading arrays as keyed by index the comparison is
    equality of meaning if and only if the value is clear, that is, holds no object that
    names an empty prototype or counts its own keys beside indices.
  - `StrictValues.StrictIsMeaning` and `StrictTwin`: it is equality of meaning itself among
    strict values, which are clear and hold no object keyed by exactly the indices below its
    size, the empty object included; every other plain value compares equal to one of another
    meaning.
  - `PolicyLaw.OutcomeGrantsAll`: on strict values no subordinate loosens a superior's policy,
    demands being measured by meaning. Every other plain value, put under a key, has a chain
    on which one does (`LaxDenies`); `ArrayPassesForObject` and
    `MetadataPolicy.LengthPassesCeiling` are instances.
- A published key can be read only while some key is active: revoking the one active key
  strands the next one (`FederationKeys.StrandedKey`). `PublishedWithoutGap` has the exact
  condition.
- A freshly signed trust mark whose token is already stored and revoked is answered but
  stays revoked (`TrustMarkIssuance.AnswerOnFile` and `AnswerOnFileInRun`;
  `RevokedTwinExample` is an instance).
- A wallet proof is good once per attestation, not once as such: `WalletAuth.TwiceExactly`
  says that one identifier is good for two successes if and only if, in one order or the
  other, the first pair's dates leave a window and the second's window reaches past the
  first's record. `TwoAttestations` has instances both ways.
- The lower-cased lookup of grandfathered language tags reads a Kelvin sign as a k. An
  accepted tag is one of the RFC if and only if it has no Kelvin sign
  (`LanguageTags.AcceptedWithinRfc`; `KelvinSignPasses` is an instance).
- The LRU cache stays within its capacity if and only if that is a whole number of at least
  one; a part of a place counts as one, and one entry is always kept
  (`LruCache.CapacityHolds`, `RoomIsFilled`, `OneIsKept`).

## Model

| member | source | states |
|---|---|---|
| `Adapter.Serializable` | packages/authority/src/storage/memory.ts:361-409 | For every interleaving: each state anyone can read is the state of a serial run of a prefix of the calls in arrival order, never a draft; the run moves one call at a time; and every settled call has the answer the serial run gives it. |
| `Adapter.OneAtATime` | packages/authority/src/storage/memory.ts:397-409 | When a call has begun, all calls that arrived before it have settled and released the queue; at most one is active. |
| `Adapter.ErrorChangesNothing` | packages/authority/src/storage/memory.ts:378-409 | A call that throws leaves the serial state exactly as it was. |
| `Adapter.QueueNeverBlocks` | packages/authority/src/storage/memory.ts:397-409 | While a call has not released the queue, the earliest such call has a step to take and no other call has one. |
| `Adapter.InvariantOfEveryRead` | packages/authority/src/storage/memory.ts:361-395 | What every call keeps when run alone holds in every state anyone can read. |
| `AuthorityCalls.TurnsMakeEffect` | packages/authority/src/subordinate-lifecycle.ts:59-120 | The awaited steps of each operation, with their separate clock readings, add up to its one-step effect, and it answers instead of throwing exactly when it found what it needs: the record absent or present, the metadata valid, a log or a mark to write to. |
| `Lifecycle.HistoryInStep` | packages/authority/src/subordinate-lifecycle.ts:58-120 | Over every run from empty, a subject's history without recorded extras is (Registration Update* Revocation)* with an optional open part; the record exists exactly while it is open and was created at its latest Registration. |
| `Lifecycle.EveryReadInStep` | packages/authority/src/subordinate-lifecycle.ts:58-120 | The same for every state read under any interleaving of clients. |
| `Lifecycle.HistoryInterleaves` | packages/authority/src/subordinate-lifecycle.ts:58-120 | Over every run the stored history is an interleaving of what the lifecycle logged and the events handed to successful recordings, nothing lost and nothing else added. |
| `Lifecycle.HistoryIsTold` | packages/authority/src/subordinate-lifecycle.ts:58-120 | Over every run the stored history of a subject is exactly what the successful calls told it, in order and with the readings they took. |
| `Lifecycle.OtherIssuersEmpty` | packages/authority/src/storage/memory.ts:307-323 | Over every run nothing is ever stored under another issuer. |
| `Accounts.RecordIsTold` | packages/authority/src/storage/memory.ts:158-190 | Over every run a subject has a record exactly while its latest successful registration was not followed by a revocation; then every field is what the latest successful call naming it said, sanitized for metadata, it was created at that registration and updated when the latest registration or update was stored. |
| `Accounts.EveryReadIsTold` | packages/authority/src/storage/memory.ts:361-409 | The same for records and for marks in every state read under any interleaving, told by a prefix of the calls in order of arrival. |
| `Lifecycle.EveryReadIsValid` | packages/authority/src/storage/memory.ts:158-323 | Every state read under any interleaving files records and marks under their own keys, has distinct tokens, and has a mark store exactly when the adapter was made with one. |
| `Lifecycle.UpdateEventsMeanChange` | packages/authority/src/subordinate-lifecycle.ts:72-98 | A successful update appends exactly, in this order and at the time read last, the metadata event if metadata changed in meaning, the policy event if the policy did, and the keys event if the multiset of stripped public keys did. |
| `Lifecycle.UpdateAppends` | packages/authority/src/subordinate-lifecycle.ts:81-97 | What a successful update adds to the history is the list of its events, all at the time read last. |
| `Canonical.CanonDecidesMeaning` | packages/authority/src/subordinate-lifecycle.ts:17-27 | Two values print alike if and only if they are equal up to key order, undefined-valued members and the sign of zero. |
| `Canonical.CanonInjective` | packages/authority/src/subordinate-lifecycle.ts:17-27 | Equal texts mean equal values, by reading the nested text apart. |
| `Canonical.CanonRespects` | packages/authority/src/subordinate-lifecycle.ts:17-27 | Values equal in meaning print alike, whatever their member order. |
| `JsonText.ReadQuoted` | packages/authority/src/subordinate-lifecycle.ts:23-26 | Reading a quoted string undoes its escapes, whatever follows the closing quote (section 7 of RFC 8259). |
| `JsonText.NumberTextInjective` | packages/authority/src/subordinate-lifecycle.ts:26 | Two finite numbers print alike only if they are the same number, zero having one text. |
| `PublicKeys.PublicKeysDecideMultiset` | packages/authority/src/subordinate-lifecycle.ts:29-31 | The sorted key text is equal exactly when every stripped key occurs equally often. |
| `Store.MemoryState.Add` | packages/authority/src/storage/memory.ts:158-166 | Adds a new valid record, or throws with nothing changed. |
| `Store.MemoryState.Update` | packages/authority/src/storage/memory.ts:168-182 | Overwrites the named fields, keeps identifier and creation time, restamps, or throws with nothing changed. |
| `Store.MemoryState.RemoveSubordinate` | packages/authority/src/storage/memory.ts:184-190 | Removes exactly the named record, or throws with nothing changed. |
| `Store.MemoryState.Append` | packages/authority/src/storage/memory.ts:307-323 | Appends to the history of one issuer and subject and to no other. |
| `Store.MemoryState.Issue` | packages/authority/src/storage/memory.ts:278-284 | Files a mark under its token, leaving a stored twin as it is. |
| `Store.MemoryState.Revoke` | packages/authority/src/storage/memory.ts:286-299 | Deactivates every active mark of the type and subject in place, keeping order; throws with nothing changed when there is none. |
| `Store.RevokeLoop` | packages/authority/src/storage/memory.ts:286-299 | The walk that overwrites while iterating revokes exactly the matching entries and finds one exactly when one exists. |
| `Accounts.MarkIsTold` | packages/authority/src/storage/memory.ts:278-299 | Over every run a token is on file exactly when an issuance answered it as its own; the mark is as that issuance signed it, made inactive and dated by the first successful revocation of its type and subject since, if there was one. |
| `Accounts.RevocationRevokes` | packages/authority/src/storage/memory.ts:286-299 | After a successful revocation no mark of its type and subject is valid at any time; the marks it ended are on file inactive, dated and otherwise as they were; every other mark and every answer for other types and subjects is as before. |
| `Accounts.RevokedForGood` | packages/authority/src/storage/memory.ts:286-299 | A mark on file when its type and subject are revoked is never valid again, whatever calls follow. |
| `Accounts.ValidIsTold` | packages/authority/src/storage/memory.ts:205-221 | Over every run the valid mark of a type and subject is the one among the marks filed, not ended and not yet expired that was issued last, ties going to the later token; there is none exactly when no mark stands. |
| `TrustMarks.GetValidIsNewest` | packages/authority/src/storage/memory.ts:205-221 | The sorted form answers the newest valid mark, and nothing exactly when none is valid. |
| `TrustMarks.GetValidIs` | packages/authority/src/storage/memory.ts:70-83 | The answer is a given mark if and only if that is on file, active, unexpired and of the type and subject, and was issued later, or together under a later token, than every other such mark. |
| `TrustMarks.LatestPer` | packages/authority/src/storage/memory.ts:85-92 | The loop over the records computes the fold by key. |
| `TrustMarks.LatestByIsNewest` | packages/authority/src/storage/memory.ts:78-92 | The fold keeps, for exactly the keys that occur, the newest mark. |
| `TrustMarks.SubjectFoldAgrees` | packages/authority/src/storage/memory.ts:256-270 | The fold per type picks for every type what the sorted form answers. |
| `TrustMarks.TypeFoldAgrees` | packages/authority/src/storage/memory.ts:228-243 | The fold per subject picks for every subject what the sorted form answers. |
| `TrustMarks.ListedAgrees` | packages/authority/src/storage/memory.ts:120-137 | The listing's mark filter says what `hasAnyValid` and `getValid` say. |
| `TrustMarkIssuance.EveryReadNoOverlap` | packages/authority/src/endpoints/trust-mark.ts:110-135 | Under any interleaving, active marks of one type and subject have disjoint [issuedAt, expiresAt) in every state anyone can read. |
| `TrustMarkIssuance.AnswerOnFile` | packages/authority/src/endpoints/trust-mark.ts:128-134 | The answered mark is stored and valid if and only if a valid mark was found or the signed token was not yet stored. |
| `TrustMarkIssuance.RevokedTwinExample` | packages/authority/src/storage/memory.ts:278-284 | A stored revoked twin makes the answer one that is not on file. |
| `TrustMarkIssuance.AnswerOfRun` | packages/authority/src/endpoints/trust-mark.ts:128-136 | In every run an issuance answers what its transaction chose from the serial state before it. |
| `TrustMarkIssuance.AnswerOnFileInRun` | packages/authority/src/endpoints/trust-mark.ts:110-136 | Under any interleaving, the mark an issuance answered is stored and valid in the state its transaction commits if and only if a valid mark was found there or the signed token was not yet stored. |
| `TrustMarkList.SubjectRowsAgree` | packages/authority/src/storage/memory.ts:228-243 | The rows of a listing ascend by subject and are exactly the marks `getValid` answers. |
| `TrustMarkList.TypeRowsAgree` | packages/authority/src/storage/memory.ts:256-270 | A subject's marks ascend by type and are exactly the marks `getValid` answers. |
| `TrustMarkList.NextCursorIsLater` | packages/authority/src/storage/memory.ts:244-252 | A next cursor is never empty and lies strictly above the cursor before it. |
| `TrustMarkList.DrainPages` | packages/authority/src/endpoints/trust-mark-list.ts:34-53 | The draining loop gathers the pages over a changing store and never meets a repeated cursor. |
| `TrustMarkList.DrainOverChanges` | packages/authority/src/endpoints/trust-mark-list.ts:34-53 | A finished drain lists subjects in ascending order, each once, all that kept a valid mark throughout and only such as had one at some call. |
| `TrustMarkList.StillDrainAnswers` | packages/authority/src/endpoints/trust-mark-list.ts:34-53 | On an unchanging store it finishes with exactly the subjects that have a valid mark, for every page size. |
| `Paging.PageIsSlice` | packages/authority/src/storage/memory.ts:144-155 | A page is the slice from the cursor up to the next cursor, which is present exactly when rows remain. |
| `Paging.PageAt` | packages/authority/src/storage/memory.ts:144-155 | From a cursor that stands at a row, a page is the next stretch of the rows and the key after it. |
| `ExtendedList.ListingIsFilter` | packages/authority/src/storage/memory.ts:106-144 | The listing ascends by identifier and holds exactly the records that pass the filter. |
| `ExtendedList.ListedFits` | packages/authority/src/storage/memory.ts:106-144 | A record is listed if and only if it is on file, has one of the types asked for, is an intermediate or not as asked, has a mark that `getValid` answers for one of the mark types asked for, and was updated within the bounds, both included. |
| `ExtendedList.ListPage` | packages/authority/src/storage/memory.ts:106-155 | Narrowing the records one filter after the other, sorting and cutting gives the page of the description, or throws exactly when marks are asked for and there is no mark store. |
| `ExtendedList.FillPage` | packages/authority/src/endpoints/extended-list.ts:249-298 | The page-filling loop, with its work cap, computes the page and resume cursor of the recursive description, and fails exactly when one of the calls it makes throws. |
| `ExtendedList.FillWithin` | packages/authority/src/endpoints/extended-list.ts:255-298 | A reply ascends between its two cursors, is no longer than asked, and hands on a cursor only with records. |
| `ExtendedList.FillIsFull` | packages/authority/src/endpoints/extended-list.ts:255-298 | A reply that hands on a cursor has as many records as were asked for, or as the permitted store calls can bring if that is fewer, and no reply makes a call it does not need. |
| `ExtendedList.FillCovers` | packages/authority/src/endpoints/extended-list.ts:255-298 | A reply skips no record that all its store calls saw between its cursors. |
| `ExtendedList.FillFromRows` | packages/authority/src/endpoints/extended-list.ts:258-268 | Every record of a reply was listed by one of the store calls the reply made. |
| `ExtendedList.Handle` | packages/authority/src/endpoints/extended-list.ts:225-298 | A request is answered as not found exactly when its cursor names no record on file; it fails only when marks are asked for and a call met no mark store; else it answers the filled page. |
| `ExtendedList.TraversalIsOrderedAndComplete` | packages/authority/src/endpoints/extended-list.ts:225-298 | With any store changes between calls, a completed traversal has strictly increasing identifiers over all pages, every record that stayed listed, and only records that some call listed. |
| `ExtendedList.QuietAnswer` | packages/authority/src/endpoints/extended-list.ts:241-298 | On an unchanging store a request with records left returns at least one and hands on a cursor exactly when more remain. |
| `ExtendedList.PaginationRefinesListing` | packages/authority/src/endpoints/extended-list.ts:241-298 | On an unchanging store, following the cursors ends and concatenates to exactly the unpaginated listing, for every batch size, limit and cap of at least one. |
| `FederationKeys.ValidateKeySet` | packages/core/src/federation-keys.ts:233-256 | The validator accepts exactly public key sets that publish the signer's kid once with a key fit for it. |
| `FederationKeys.MapHistoricalEntry` | packages/core/src/federation-keys.ts:283-310 | The field-by-field construction gives the historical entry of the description. |
| `FederationKeys.Provider.InstallAll` | packages/core/src/federation-keys.ts:90-111 | Construction installs all keys active in order, or fails on the first unacceptable one; the result is sound. |
| `FederationKeys.Provider.CurrentKeySet` | packages/core/src/federation-keys.ts:117-143 | The loop selects the signer and the published keys of the description, or throws. |
| `FederationKeys.Provider.GetHistorical` | packages/core/src/federation-keys.ts:145-148 | One historical entry per key ever installed or published, in order. |
| `FederationKeys.Provider.PublishKey` | packages/core/src/federation-keys.ts:150-159 | Adds an acceptable key as published, or throws with nothing changed. |
| `FederationKeys.Provider.SwitchActiveKey` | packages/core/src/federation-keys.ts:161-192 | Activates a published key and retires the signer, or throws with nothing changed; soundness is kept. |
| `FederationKeys.Provider.RevokeKey` | packages/core/src/federation-keys.ts:194-203 | Marks one key revoked, or throws with nothing changed. |
| `FederationKeys.SwitchChanges` | packages/core/src/federation-keys.ts:161-192 | A switch succeeds exactly for a published key while some key is active; then that key signs, the signer before it retires, and no other entry changes. |
| `FederationKeys.CurrentIsValid` | packages/core/src/federation-keys.ts:117-143 | A read answers exactly while a key is active, at any time; its set passes its own validation and publishes the last activated key's kid once. |
| `FederationKeys.EveryReadValid` | packages/core/src/federation-keys.ts:117-256 | The same over every run from construction. |
| `FederationKeys.PublishesEntry` | packages/core/src/federation-keys.ts:117-143 | A key set read has a kid exactly when some key is active and the kid's entry counts as published; it is then the entry's own key. |
| `FederationKeys.RunContinues` | packages/core/src/federation-keys.ts:150-203 | Over every run a kid keeps its key and its place in the history, new keys come last, no key goes back a stage, and revoked stays revoked. |
| `FederationKeys.ExSignerNeverReturns` | packages/core/src/federation-keys.ts:117-203 | A key that stops being the signer never signs again. |
| `FederationKeys.ActiveConserved` | packages/core/src/federation-keys.ts:150-203 | A switch keeps the number of active keys, revoking an active key lowers it by one, nothing else changes it. |
| `FederationKeys.SilentForGood` | packages/core/src/federation-keys.ts:117-203 | Once no key is active, no sequence of calls makes the provider sign again. |
| `FederationKeys.PublishedWithoutGap` | packages/core/src/federation-keys.ts:117-143 | At every moment of every run an unrevoked key can be read from the key set if and only if some key is active and it was not switched out or its overlap has not passed. |
| `FederationKeys.StrandedKey` | packages/core/src/federation-keys.ts:117-203 | Install one key, publish a second, revoke the first: the second, never revoked nor switched out, can be read at no time. |
| `FederationKeys.RevokedIsUnpublished` | packages/core/src/federation-keys.ts:121-143 | A revoked key can never be read from the key set. |
| `FederationKeys.SwitchedOutOnce` | packages/core/src/federation-keys.ts:161-192 | A key is switched out at most once, so its overlap has one end. |
| `FederationKeys.HistoryOrdered` | packages/core/src/federation-keys.ts:283-310 | With a clock that does not go back and overlaps not negative, every entry has iat ≤ nbf ≤ exp in seconds, and a retiring key still published has not expired. |
| `KeyHistory.HistoryIsTold` | packages/core/src/federation-keys.ts:145-148 | Over every run the history has one entry per kid in the order they came, told by the calls: the key that came, `iat` the second it came, `nbf` the second it became the signer, `exp` the second its overlap ends, or else of its latest revocation, or else now, and `revoked` exactly if a call revoked it, with second and non-empty reason of the latest such call. |
| `KeyHistory.ReadIsTold` | packages/core/src/federation-keys.ts:117-143 | At every moment of every run a read throws exactly when nobody signs by the calls; else it names that signer and holds, in the order they came, the keys neither revoked nor past their overlap. |
| `KeyHistory.SuccessIsTold` | packages/core/src/federation-keys.ts:150-220 | At every moment of every run a call succeeds exactly if the calls before make it possible: a new kid with a key fit for its signer, a switch to a kid still waiting while somebody signs, a revocation of a kid that came. |
| `KeyHistory.MadeIsTold` | packages/core/src/federation-keys.ts:90-111 | A provider is made exactly of keys with different kids each of which is valid alone. |
| `LeafCache.Leaf.GetEntityConfiguration` | packages/leaf/src/entity-configuration.ts:241-251 | Serves the unexpired token, joins the build in flight, or starts one of the current generation. |
| `LeafCache.Leaf.RefreshEntityConfiguration` | packages/leaf/src/entity-configuration.ts:259-267 | Clears the cache and starts a build of a new generation. |
| `LeafCache.Leaf.PreparePayload` | packages/leaf/src/entity-configuration.ts:213-228 | A build fixes its expiry when its keys are in, before it signs. |
| `LeafCache.Leaf.Complete` | packages/leaf/src/entity-configuration.ts:230-239 | A signed build writes token and expiry only under the current generation. |
| `LeafCache.Leaf.Settle` | packages/leaf/src/entity-configuration.ts:247-249 | The later callback clears `inflight` only under the current generation. |
| `LeafCache.RunSound` | packages/leaf/src/entity-configuration.ts:212-267 | In every interleaving `inflight` is set exactly when one build of the current generation is outstanding, and cached token and expiry come from one build of that generation. |
| `LeafCache.CurrentIsSince` | packages/leaf/src/entity-configuration.ts:241-267 | The builds of the current generation are exactly those begun since the last refresh. |
| `LeafCache.CacheIsLastSigned` | packages/leaf/src/entity-configuration.ts:230-267 | In every interleaving the cache holds exactly the token the last build to sign since the last refresh signed, among the builds begun since then, with the expiry fixed when its keys were in; a stale build never writes it. |
| `LeafCache.GetIsTold` | packages/leaf/src/entity-configuration.ts:241-257 | In every interleaving a get is answered from the cache if and only if the token last signed since the last refresh is not empty and has not expired, and then by it; otherwise it waits for the pending build. A build is added exactly when there is neither. |
| `LeafCache.RefreshIsTold` | packages/leaf/src/entity-configuration.ts:259-267 | A refresh adds exactly one build, answers it, leaves it the only one pending and the cache empty. |
| `LeafCache.BuildIsTold` | packages/leaf/src/entity-configuration.ts:212-251 | Every build is in the phase the events say and finalized exactly if one finalized it. |
| `LeafCache.InflightIsPending` | packages/leaf/src/entity-configuration.ts:245-249 | `inflight` is set exactly while a build begun since the last refresh is pending, and is that build. |
| `LeafCache.FreshAfterRefresh` | packages/leaf/src/entity-configuration.ts:241-267 | A get after a refresh waits for, or gets the unexpired token of, a build begun at or after that refresh. |
| `LeafCache.GetsShare` | packages/leaf/src/entity-configuration.ts:245-250 | While one get's build is outstanding, every later get that must wait waits for the same build. |
| `LeafCache.OneOutcome` | packages/leaf/src/entity-configuration.ts:212-251 | A settled build never changes its outcome, so all who wait get one answer. |
| `LruCache.MemoryCache.Get` | packages/core/src/cache/index.ts:32-46 | Answers the unexpired value and moves its key last, or drops the expired entry. |
| `LruCache.MemoryCache.Set` | packages/core/src/cache/index.ts:48-60 | Evicts the first key only for a new key in a full cache, then sets; the size bound is kept. |
| `LruCache.SizeBounded` | packages/core/src/cache/index.ts:48-60 | The size never exceeds the capacity rounded up, or one, for every real capacity. |
| `LruCache.OneIsKept` | packages/core/src/cache/index.ts:48-60 | With a capacity of at most one a set leaves exactly its own entry. |
| `LruCache.RoomIsFilled` | packages/core/src/cache/index.ts:48-60 | Setting as many different keys as the capacity rounded up keeps them all. |
| `LruCache.CapacityHolds` | packages/core/src/cache/index.ts:48-60 | The size stays within the capacity over all runs if and only if the capacity is a whole number of at least one. |
| `LruCache.HitIsLatestSet` | packages/core/src/cache/index.ts:32-68 | A hit is the value of the latest set with no later delete or clear, before its expiry. |
| `LruCache.NotEvicted` | packages/core/src/cache/index.ts:41-59 | A key just inserted or hit stays while fewer than capacity distinct other keys are inserted or hit. |
| `LruCache.ReadAnswersLatestSet` | packages/core/src/cache/index.ts:32-68 | Within those bounds a read answers exactly the latest set until it expires. |
| `LruCache.ReadDropsExpired` | packages/core/src/cache/index.ts:32-46 | A read leaves its key in the cache exactly when it hits, and every other key and every entry as it was. |
| `LruCache.KeptExactly` | packages/core/src/cache/index.ts:32-60 | From its last insertion or hit on, while nothing is deleted, cleared or found expired, a key is in the cache if and only if fewer different keys than there are places were inserted or hit since: the cache holds the most recently used keys and no others. |
| `ReplayStore.KeyInjective` | packages/core/src/memory-replay-store.ts:37 | Distinct triples never share a key, the JSON text of three strings being injective. |
| `ReplayStore.MemoryReplayStore.RemoveExpired` | packages/core/src/memory-replay-store.ts:47-51 | The purge, deleting while iterating, leaves exactly the unexpired records. |
| `ReplayStore.MemoryReplayStore.UseJti` | packages/core/src/memory-replay-store.ts:32-45 | A call purges, then refuses a known key, throws when full, or records; the size stays within the cap. |
| `ReplayStore.AnswersAgree` | packages/core/src/memory-replay-store.ts:32-51 | With a clock that does not go back, every call answers as a reference that remembers every acceptance and drops nothing. |
| `ReplayStore.NoSecondAcceptance` | packages/core/src/memory-replay-store.ts:32-45 | A triple accepted with expiry e is answered as a replay before e. |
| `ReplayStore.AnswerIsTold` | packages/core/src/memory-replay-store.ts:32-45 | Every answer is told by the earlier ones: a replay exactly when the triple was accepted before with an expiry still ahead, full exactly when otherwise as many triples are guarded as there are places, accepted in all other cases with non-empty fields. |
| `ReplayStore.WithinCap` | packages/core/src/memory-replay-store.ts:39-43 | The store never holds more than its cap. |
| `WalletAuth.RunSound` | packages/wallet/src/attestation.ts:110-210 | In every interleaving of sessions, time-outs and other users, an accepted claim's record is kept until it expires, of two sessions on one identifier the later claimed after the other's record was gone, and every success lies in the window its pair's dates leave. |
| `WalletAuth.SuccessesDiffer` | packages/wallet/src/attestation.ts:175-210 | Two successes on one identifier have different expiries, and one concluded after the record of the other had expired. |
| `WalletAuth.AtMostOnce` | packages/wallet/src/attestation.ts:175-210 | A given attestation and proof authenticate at most once. |
| `WalletAuth.WindowPasses` | packages/wallet/src/jwt.ts:33-78 | Inside that window every check passes: the chain, both tokens with their not-before and expiry dates, and freshness. |
| `WalletAuth.OnceExactly` | packages/wallet/src/attestation.ts:110-210 | A pair can authenticate if and only if nothing but the clock stands against it and its dates, those of its own trust chain included, leave a window. |
| `WalletAuth.SuccessWithinDates` | packages/wallet/src/attestation.ts:110-210 | In every run a success concludes at a moment that every date allows: the proof's age and expiry, the attestation's expiry, both not-before dates to the second, and issuance and expiry of the chain in use. |
| `WalletAuth.ClaimsWithinDates` | packages/wallet/src/attestation.ts:175-195 | In every run a session goes to the replay store only in a check made at a moment that every date allows, so a stale proof uses up no identifier. |
| `WalletAuth.OnceByDates` | packages/wallet/src/attestation.ts:110-210 | A pair can authenticate if and only if nothing but the clock stands against it and some moment is allowed by every one of its dates. |
| `WalletAuth.TwoSessionsSucceed` | packages/wallet/src/attestation.ts:110-210 | The run in which the second pair succeeds once the first's record is gone. |
| `WalletAuth.TwiceExactly` | packages/wallet/src/attestation.ts:110-210 | One identifier is good for two successes in some run if and only if nothing but the clock stands against either pair and, in one order or the other, the first's dates leave a window and the second's window reaches past the first's record. |
| `WalletAuth.TwiceByDates` | packages/wallet/src/attestation.ts:110-210 | One identifier is good for two successes if and only if, in one order or the other, one moment is allowed by all dates of the first pair and one by all dates of the second when the age, the attestation or the expiry of the first proof has run out. |
| `WalletAuth.TwoAttestations` | packages/wallet/src/attestation.ts:110-210 | Expiries at 100 and 200: one proof succeeds twice, but not when the second attestation's chain ends at 90 or its not-before date is 200. |
| `ClaimPaths.Validate` | packages/wallet/src/metadata.ts:170-224 | The trie validator answers for the first path at fault what the pairwise rule says, and accepts exactly the lists that satisfy the rule. |
| `ClaimPaths.Insert` | packages/wallet/src/metadata.ts:190-222 | Growing the heap trie by one path finds a conflict exactly when a step clashes with an earlier one, and a repeat exactly when the path ended there before. |
| `ClaimPaths.Descend` | packages/wallet/src/metadata.ts:191-217 | The flags of a node refuse a component exactly when some earlier step from it clashes; otherwise the trie grows by that step alone. |
| `ClaimPaths.JudgeIsRule` | packages/wallet/src/metadata.ts:176-223 | Path-by-path acceptance is the rule: every path suits the format, no two are equal, no two clash where they part. |
| `ClaimPaths.OrderDoesNotMatter` | packages/wallet/src/metadata.ts:170-224 | Acceptance is the same for every order of the list. |
| `ClaimPaths.AcceptedIsShape` | packages/wallet/src/metadata.ts:170-224 | A list is accepted if and only if its paths are of the format, all different, and can all be followed in documents of one shape, each place an object or an array, with no wildcard beside an index. |
| `LanguageTags.ParseSound` | packages/core/src/language-tags.ts:30-31 | What the expression matches is a tag of the grammar of section 2.1 of RFC 5646 and spells the input. |
| `LanguageTags.ParseComplete` | packages/core/src/language-tags.ts:30-31 | Every tag of the grammar is matched, in one way only. |
| `LanguageTags.MatchIsGrammar` | packages/core/src/language-tags.ts:34-37 | On text: the match is that tag exactly when the tag is well-formed and joins to the text. |
| `TagPattern.PatternIsGrammar` | packages/core/src/language-tags.ts:30-31 | The regular expression, taken as an expression with its language, matches a text if and only if that is a tag of the grammar, which is when the parse finds one. |
| `LanguageTags.MarksDiffer` | packages/core/src/language-tags.ts:35-50 | The loop refuses exactly when it would remember a subtag twice. |
| `LanguageTags.MarksAreVariantsAndSingletons` | packages/core/src/language-tags.ts:39-48 | The loop takes for variants and singletons exactly the subtags the grammar parses as such. |
| `LanguageTags.IsLanguageTag` | packages/core/src/language-tags.ts:32-51 | Accepts exactly grandfathered tags and well-formed tags with no repeated variant or singleton. |
| `LanguageTags.LookupReadsKelvinAsK` | packages/core/src/language-tags.ts:33 | For every tag the lookup is the ASCII case-insensitive one with a Kelvin sign read as a k. |
| `LanguageTags.AcceptedWithinRfc` | packages/core/src/language-tags.ts:32-51 | An accepted tag is registered or valid by the RFC if and only if it has no Kelvin sign, which is also when it is ASCII. |
| `LanguageTags.KelvinSignPasses` | packages/core/src/language-tags.ts:33 | A tag outside ASCII, and outside the grammar, is accepted through the lower-cased lookup. |
| `LanguageTags.BaseUnique` | packages/core/src/language-tags.ts:59-65 | At most one base of a name leaves an accepted tag. |
| `LanguageTags.SplitInformationalClaim` | packages/core/src/language-tags.ts:54-67 | A declared name stands for itself; else the declared base that leaves an accepted tag is split off; else the name stays whole. |
| `LanguageTags.SplitIgnoresOrder` | packages/core/src/language-tags.ts:54-67 | The split does not depend on the order of the declared names. |
| `PolicyValues.DeepIsSame` | packages/core/src/metadata-policy/operators.ts:10-30 | On a clear left value the comparison is equality of meaning once arrays are read as keyed by index. |
| `PolicyValues.DeepIsText` | packages/core/src/metadata-policy/operators.ts:10-30 | Two clear values compare equal exactly when one canonical text of the index-keyed form names both, so among them the comparison is an equivalence. |
| `PolicyValues.InheritedConfuses` | packages/core/src/metadata-policy/operators.ts:20-27 | Only a confusing object compares equal through a key the other value inherits. |
| `PolicyValues.UnclearWitness` | packages/core/src/metadata-policy/operators.ts:20-27 | Every plain value that is not clear compares equal to some plain value that does not compare equal to it. |
| `PolicyValues.ClearIsExact` | packages/core/src/metadata-policy/operators.ts:10-30 | For every plain value: comparing it with plain values is equality of meaning up to reading arrays as keyed by index, if and only if it is clear. |
| `StrictValues.StrictIsMeaning` | packages/core/src/metadata-policy/operators.ts:10-30 | Among strict values the comparison is equality of meaning, key order and the sign of zero aside. |
| `StrictValues.MeaningIsDeep` | packages/core/src/metadata-policy/operators.ts:10-30 | Values of equal meaning compare equal, on all plain values. |
| `StrictValues.StrictTwin` | packages/core/src/metadata-policy/operators.ts:10-30 | Every plain value that is not strict compares equal to a plain value of another meaning. |
| `MetadataPolicy.ArrayUnion` | packages/core/src/metadata-policy/operators.ts:38-46 | The pushing loop computes the union of the description. |
| `MetadataPolicy.UnionNames` | packages/core/src/metadata-policy/operators.ts:38-46 | On clear values the union holds exactly the values of both arrays up to equality and is the first array when that has them all. |
| `MetadataPolicy.IntersectionNames` | packages/core/src/metadata-policy/operators.ts:48-50 | On clear values the intersection holds exactly the common values up to equality. |
| `MetadataPolicy.MergeInto` | packages/core/src/metadata-policy/merge.ts:86-129 | The loop over one policy's operators merges each, or fails, and demands that all pairs combine. |
| `MetadataPolicy.ResolvePolicies` | packages/core/src/metadata-policy/merge.ts:64-134 | The backward walk over the statements merges the policies from the trust anchor down. |
| `MetadataPolicy.MergeEntails` | packages/core/src/metadata-policy/operators.ts:208-535 | On clear values, by the code's own comparison, a merged operator demands exactly what the two demanded together. |
| `MetadataPolicy.ApplyPolicy` | packages/core/src/metadata-policy/apply.ts:49-83 | The operators are applied in their order, stopping at the first violation. |
| `MetadataPolicy.ApplyMeets` | packages/core/src/metadata-policy/apply.ts:49-83 | On clear values, by the code's own comparison, what an applied policy leaves meets all of its operators: no later operator undoes an earlier one. |
| `MetadataPolicy.PoliciesOnlyTighten` | packages/core/src/metadata-policy/merge.ts:64-134 | On clear values, when a chain's merged policy applies, the outcome meets every operator of every superior as the code compares. |
| `MetadataPolicy.UnclearBreaks` | packages/core/src/metadata-policy/operators.ts:463-480 | Every plain value that is not clear, put under a key, has a chain that resolves and applies with an outcome that fails one of its policies even as the code compares. |
| `MetadataPolicy.LengthPassesCeiling` | packages/core/src/metadata-policy/operators.ts:404-418 | Anchor, subordinate and leaf value with which the merge loses the subordinate's `subset_of`: the outcome fails it. |
| `PolicyOutcome.MergeDemandsBoth` | packages/core/src/metadata-policy/operators.ts:208-535 | On strict values a merged operator grants a parameter exactly if both operators do, by meaning, for every operator. |
| `PolicyOutcome.MergeSucceeds` | packages/core/src/metadata-policy/operators.ts:208-535 | Two operators merge if and only if both are configured and, for a fixed value or a default, they mean the same, and for one_of, some value is in both. |
| `PolicyOutcome.OperatorTypes` | packages/core/src/metadata-policy/operators.ts:66-145 | For every operator, the types it can be configured with and the types of parameter it takes, elements of arrays included. |
| `PolicyOutcome.CombineIsAgree` | packages/core/src/metadata-policy/operators.ts:187-535 | Whether two operators combine, asked of each about the other, is whether their values agree by meaning. |
| `PolicyOutcome.ResolvedDemandsAll` | packages/core/src/metadata-policy/merge.ts:64-134 | On strict values the merged policy of a chain grants a parameter exactly if every policy of the chain does. |
| `PolicyOutcome.ResolvesExactly` | packages/core/src/metadata-policy/merge.ts:64-134 | On strict values a chain resolves if and only if its policies are in concord: all configured, all fixed values and all defaults the same, one value held by every one_of where there are several, and every two different operators in any of them agreeing. So the order of the chain does not matter to it. |
| `PolicyOutcome.OutcomeIs` | packages/core/src/metadata-policy/apply.ts:49-83 | On strict values a policy applies if and only if the parameter passes it, and it then leaves what it starts from, the fixed value, the given one or for an absent one the default, with the additions and cut to the ceiling. |
| `PolicyOutcome.GrantedIsKept` | packages/core/src/metadata-policy/merge.ts:64-134 | A parameter that grants every policy of a chain and has the types their operators take is what the merged policy leaves of it. |
| `PolicyOutcome.AnchorFirst` | packages/core/src/metadata-policy/merge.ts:64-67 | The policies are merged in the reverse of the order of the statements, the anchor's first, leaving none out. |
| `PolicyLaw.SatisfiesIsDemands` | packages/core/src/metadata-policy/operators.ts:187-522 | Among strict values an operator is content as the code compares exactly when its demand is granted by meaning. |
| `PolicyLaw.OutcomeGrantsAll` | packages/core/src/metadata-policy/merge.ts:64-134 | On strict values, when a chain's merged policy applies, the outcome grants every demand of every superior, measured by meaning: no subordinate loosens a demand. |
| `PolicyLaw.LaxDenies` | packages/core/src/metadata-policy/operators.ts:463-480 | Every plain value that is not strict, put under a key, has a chain that resolves and applies with an outcome that does not grant one of its demands. |
| `PolicyLaw.ArrayPassesForObject` | packages/core/src/metadata-policy/operators.ts:463-480 | Anchor, subordinate and leaf value, all clear, with which the merge loses the subordinate's `superset_of`: no item of the outcome has the meaning it demands. |

## Left out

- Signing, JWT decoding, hashing and key import; a token is an opaque string and a signature may be any value.
- The Zod schemas and `sanitizeSubordinateMetadata`, `stripPrivateFields`, `validateSubordinateRecord`: opaque functions handed to the operations.
- HTTP plumbing, headers, routing, query parsing, client authentication and the statement builders.
- Trust-chain discovery and validation, constraints and entity collections.
- Transaction handles used after commit, transactions that call the outer adapter from inside, and raw adapter writes beside the lifecycle operations.
- Timers and abort signals; a timed-out hook is a session that gives up while its store call may still run.
- Optional record fields no operation looks into are one field `rest`; the event map of maps is keyed by issuer and subject together.
- The check that event-enabled storage has transaction-bound events: the modelled adapter always has them.
- The first look for an existing mark before signing: it only answers a stored mark and changes nothing.
- `StaticFederationKeyProvider`, and deriving a signing key from a private JWK.
- Custom policy operators, critical-operator checks, superior metadata overrides and the splitting of a `scope` string; policies are modelled for one parameter, as the loops treat each alone.
- PolicyLaw.OutcomeGrantsAll: assumes strict values, because the code breaks the law on every other plain one (`PolicyLaw.LaxDenies`).
- MetadataPolicy.PoliciesOnlyTighten: measures demands by the code's own comparison and assumes clear values, because it is a step towards `PolicyLaw.OutcomeGrantsAll`.
- PolicyValues.DeepIsSame: the methods a value inherits are read as undefined, because they differ from every JSON value just as undefined does.
- LanguageTags.IsLanguageTag: lower-casing is modelled as far as an ASCII result can come of it.
- WalletAuth.OnceExactly: a chain that the attestation does not carry may be any the server finds; the checks that read no clock, the wallet policy among them, are one predicate `accepts`.
- LruCache.SizeBounded: a capacity that is not a number or infinite is not modelled.
- ExtendedList.TraversalIsOrderedAndComplete: about traversals that complete; a cursor whose record is gone is answered as not found and ends the traversal.
- TrustMarkList.DrainPages: runs over a finite sequence of store states, because a store that grows ahead of the cursor for ever keeps the loop going.
- FederationKeys.HistoryOrdered: assumes overlaps are not negative, which the provider does not check.
