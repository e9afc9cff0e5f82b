/** The in-memory cache: entries expire, a full cache evicts the first key of its
    insertion-ordered map, and a hit moves its key to the end. */
module LruCache {
  import opened Options
  import opened Text
  import opened OrderedMaps

  datatype Entry<V> = Entry(value: V, expiresAt: int)

  type Store<V> = OMap<Str, Entry<V>>

  datatype Event<V> =
    | Get(key: Str, now: int)
    | Set(key: Str, value: V, ttl: int, now: int)
    | Delete(key: Str)
    | Clear

  function Lookup<V>(s: Store<V>, key: Str, now: int): Option<V> {
    if key in s.at && now < s.at[key].expiresAt then Some(s.at[key].value) else None
  }

  function AfterGet<V>(s: Store<V>, key: Str, now: int): Store<V> {
    if key !in s.at then s
    else if now >= s.at[key].expiresAt then Remove(s, key)
    else Put(Remove(s, key), key, s.at[key])
  }

  /** Room for a new key: the first key goes when the cache is full. */
  function Evict<V>(s: Store<V>, capacity: real, key: Str): Store<V> {
    if |s.order| as real >= capacity && key !in s.at && s.order != [] then Remove(s, s.order[0]) else s
  }

  function AfterSet<V>(s: Store<V>, capacity: real, key: Str, value: V, ttl: int, now: int): Store<V> {
    Put(Evict(s, capacity, key), key, Entry(value, now + ttl))
  }

  function Step<V>(s: Store<V>, capacity: real, e: Event<V>): Store<V> {
    match e
    case Get(key, now) => AfterGet(s, key, now)
    case Set(key, value, ttl, now) => AfterSet(s, capacity, key, value, ttl, now)
    case Delete(key) => Remove(s, key)
    case Clear => Empty()
  }

  function Play<V>(s: Store<V>, capacity: real, es: seq<Event<V>>): Store<V> {
    if es == [] then s else Step(Play(s, capacity, es[..|es| - 1]), capacity, es[|es| - 1])
  }

  // ------------------------------------------------- in place

  class MemoryCache<V> {
    const maxEntries: real
    var store: Store<V>

    constructor (maxEntries: real)
      ensures this.maxEntries == maxEntries && store == Empty() && Fits(store, maxEntries)
    {
      this.maxEntries := maxEntries;
      store := Empty();
    }

    method Get(key: Str, now: int) returns (r: Option<V>)
      requires Fits(store, maxEntries)
      modifies this
      ensures Fits(store, maxEntries)
      ensures store == AfterGet(old(store), key, now) && r == Lookup(old(store), key, now)
    {
      RemoveShrinks(store, key);
      if key !in store.at {
        return None;
      }
      var entry := store.at[key];
      store := Remove(store, key);
      if now >= entry.expiresAt {
        return None;
      }
      store := Put(store, key, entry);
      return Some(entry.value);
    }

    method Set(key: Str, value: V, ttl: int, now: int)
      requires Fits(store, maxEntries)
      modifies this
      ensures Fits(store, maxEntries)
      ensures store == AfterSet(old(store), maxEntries, key, value, ttl, now)
    {
      SetFits(store, maxEntries, key, value, ttl, now);
      Size(store);
      if |store.at| as real >= maxEntries && key !in store.at {
        if store.order != [] {
          store := Remove(store, store.order[0]);
        }
      }
      store := Put(store, key, Entry(value, now + ttl));
    }

    method Delete(key: Str)
      requires Fits(store, maxEntries)
      modifies this
      ensures Fits(store, maxEntries) && store == Remove(old(store), key)
    {
      RemoveShrinks(store, key);
      store := Remove(store, key);
    }

    method Clear()
      modifies this
      ensures store == Empty() && Fits(store, maxEntries)
    {
      store := Empty();
    }
  }

  // ------------------------------------------------- the size

  /** The places a capacity makes: a part of one counts as one, and there is always one. */
  function Room(capacity: real): nat {
    if capacity <= 1.0 then 1 else -((-capacity).Floor)
  }

  predicate Fits<V>(s: Store<V>, capacity: real) {
    |s.order| <= Room(capacity)
  }

  lemma {:induction false} WithoutShrinks<T(!new)>(s: seq<T>, x: T)
    requires NoDuplicates(s)
    ensures |Without(s, x)| == |s| - if x in s then 1 else 0
  {
    if s != [] {
      WithoutShrinks(s[1..], x);
      WithoutMembers(s[1..], x);
      assert s == [s[0]] + s[1..];
      assert s[0] !in s[1..];
    }
  }

  lemma RemoveShrinks<V>(s: Store<V>, key: Str)
    ensures |Remove(s, key).order| == |s.order| - if key in s.at then 1 else 0
  {
    WithoutShrinks(s.order, key);
  }

  /** Below the capacity there is a place left, and at it there is none. */
  lemma RoomLeft(capacity: real, n: nat)
    requires n as real < capacity
    ensures n + 1 <= Room(capacity)
  {
    var c := -((-capacity).Floor);
    assert capacity <= c as real;
    assert n as real < c as real;
  }

  lemma SetFits<V>(s: Store<V>, capacity: real, key: Str, value: V, ttl: int, now: int)
    requires Fits(s, capacity)
    ensures Fits(AfterSet(s, capacity, key, value, ttl, now), capacity)
  {
    hide Remove;
    if s.order != [] {
      assert s.order[0] in s.at;
      RemoveShrinks(s, s.order[0]);
    }
    if |s.order| as real < capacity {
      hide Room;
      RoomLeft(capacity, |s.order|);
    }
  }

  /** The size never exceeds the places the capacity makes, whatever the capacity. */
  lemma {:induction false} SizeBounded<V>(capacity: real, es: seq<Event<V>>)
    ensures Fits(Play(Empty(), capacity, es), capacity)
  {
    if es != [] {
      var n := |es| - 1;
      SizeBounded(capacity, es[..n]);
      var s := Play(Empty(), capacity, es[..n]);
      match es[n]
      case Get(key, now) => RemoveShrinks(s, key);
      case Set(key, value, ttl, now) => SetFits(s, capacity, key, value, ttl, now);
      case Delete(key) => RemoveShrinks(s, key);
      case Clear =>
    }
  }

  /** A capacity of at most one keeps exactly the entry set last. */
  lemma OneIsKept<V>(capacity: real, es: seq<Event<V>>)
    requires capacity <= 1.0 && es != [] && es[|es| - 1].Set?
    ensures Play(Empty(), capacity, es).order == [es[|es| - 1].key]
  {
    hide Remove;
    var n := |es| - 1;
    var s, e := Play(Empty(), capacity, es[..n]), es[n];
    SizeBounded(capacity, es[..n]);
    if s.order != [] && e.key !in s.at {
      assert s.order[0] in s.at;
      RemoveShrinks(s, s.order[0]);
    } else if s.order != [] {
      assert e.key in s.order;
    }
  }

  function Zeros(n: nat): Str {
    seq(n, _ => 0)
  }

  /** A run that sets n different keys. */
  function Sets<V>(n: nat, value: V): seq<Event<V>> {
    seq(n, i requires 0 <= i < n => Set(Zeros(i), value, 0, 0))
  }

  /** The places are all used: setting that many keys keeps them all. */
  lemma {:induction false} RoomIsFilled<V>(capacity: real, n: nat, value: V)
    requires n as real < capacity + 1.0
    ensures |Play(Empty(), capacity, Sets(n, value)).order| == n
    ensures forall k :: k in Play(Empty(), capacity, Sets(n, value)).at ==> |k| < n
  {
    hide Remove;
    var es := Sets(n, value);
    if n > 0 {
      RoomIsFilled(capacity, n - 1, value);
      assert es[..n - 1] == Sets(n - 1, value);
      assert es[n - 1] == Set(Zeros(n - 1), value, 0, 0);
      var s := Play(Empty(), capacity, Sets(n - 1, value));
      assert Zeros(n - 1) !in s.at;
      assert s.order == [] || |s.order| as real < capacity;
    }
  }

  predicate Whole(x: real) {
    x == x.Floor as real
  }

  /** The size stays within the capacity over all runs if and only if that is a whole number
      of at least one. */
  lemma CapacityHolds<V(!new)>(capacity: real, value: V)
    ensures (forall es: seq<Event<V>> :: |Play(Empty(), capacity, es).order| as real <= capacity) <==>
            Whole(capacity) && capacity >= 1.0
  {
    if Whole(capacity) && capacity >= 1.0 {
      assert (-capacity).Floor == -(capacity.Floor);
      forall es: seq<Event<V>>
        ensures |Play(Empty(), capacity, es).order| as real <= capacity
      {
        SizeBounded(capacity, es);
      }
    } else {
      var n := Room(capacity);
      var es := if capacity < 1.0 then [Set([], value, 0, 0)] else Sets(n, value);
      if capacity < 1.0 {
        OneIsKept(capacity, es);
      } else {
        assert (-capacity).Floor as real <= -capacity < (-capacity).Floor as real + 1.0;
        RoomIsFilled(capacity, n, value);
        NotWhole(capacity);
      }
      assert |Play(Empty(), capacity, es).order| as real > capacity;
    }
  }

  lemma NotWhole(capacity: real)
    requires !Whole(capacity)
    ensures -((-capacity).Floor) as real > capacity
  {
    var f := (-capacity).Floor;
    assert f as real <= -capacity;
    assert -(f as real) == capacity ==> capacity.Floor == -f;
  }

  // ------------------------------------------------- agreement with the history

  /** The latest set of the key with no later delete or clear. */
  function LatestSet<V>(es: seq<Event<V>>, key: Str): Option<Entry<V>> {
    if es == [] then None
    else
      match es[|es| - 1]
      case Set(k, value, ttl, now) => if k == key then Some(Entry(value, now + ttl)) else LatestSet(es[..|es| - 1], key)
      case Delete(k) => if k == key then None else LatestSet(es[..|es| - 1], key)
      case Clear => None
      case Get(_, _) => LatestSet(es[..|es| - 1], key)
  }

  lemma {:induction false} HeldIsLatest<V>(capacity: real, es: seq<Event<V>>, key: Str)
    ensures var s := Play(Empty(), capacity, es);
            key in s.at ==> LatestSet(es, key) == Some(s.at[key])
  {
    if es != [] {
      HeldIsLatest(capacity, es[..|es| - 1], key);
    }
  }

  /** A hit returns the value of the latest set, before its expiry. */
  lemma HitIsLatestSet<V>(capacity: real, es: seq<Event<V>>, key: Str, now: int)
    ensures var r := Lookup(Play(Empty(), capacity, es), key, now);
            r.Some? ==> exists e :: LatestSet(es, key) == Some(e) && e.value == r.value && now < e.expiresAt
  {
    hide Play, LatestSet;
    HeldIsLatest(capacity, es, key);
  }

  // ------------------------------------------------- what is not evicted

  /** The key an event inserts anew or hits; overwriting an entry is neither. */
  function Touch<V>(s: Store<V>, e: Event<V>): set<Str> {
    match e
    case Get(key, now) => if Lookup(s, key, now).Some? then {key} else {}
    case Set(key, _, _, _) => if key in s.at then {} else {key}
    case Delete(_) => {}
    case Clear => {}
  }

  function Touched<V>(s: Store<V>, capacity: real, es: seq<Event<V>>): set<Str> {
    if es == [] then {}
    else Touched(s, capacity, es[..|es| - 1]) + Touch(Play(s, capacity, es[..|es| - 1]), es[|es| - 1])
  }

  /** The event neither deletes the key nor finds it expired. */
  predicate Spares<V>(s: Store<V>, e: Event<V>, key: Str) {
    match e
    case Get(k, now) => k == key && key in s.at ==> now < s.at[key].expiresAt
    case Set(_, _, _, _) => true
    case Delete(k) => k != key
    case Clear => false
  }

  predicate SparedBy<V>(s: Store<V>, capacity: real, es: seq<Event<V>>, key: Str) {
    es == [] ||
    (SparedBy(s, capacity, es[..|es| - 1], key) && Spares(Play(s, capacity, es[..|es| - 1]), es[|es| - 1], key))
  }

  /** The keys behind a key in insertion order. */
  function Behind<T>(order: seq<T>, key: T): set<T> {
    if order == [] then {}
    else if order[0] == key then set x | x in order[1..]
    else Behind(order[1..], key)
  }

  lemma {:induction false} BehindWithout<T(!new)>(order: seq<T>, key: T, x: T)
    requires NoDuplicates(order) && x != key
    ensures Behind(Without(order, x), key) == Behind(order, key) - {x}
  {
    if order != [] {
      BehindWithout(order[1..], key, x);
      if order[0] == key {
        WithoutMembers(order[1..], x);
      } else if order[0] == x {
        BehindWithin(order[1..], key);
      } else {
        assert Without(order, x)[1..] == Without(order[1..], x);
        BehindWithin(order[1..], key);
      }
    }
  }

  lemma {:induction false} BehindWithin<T(!new)>(order: seq<T>, key: T)
    ensures forall x :: x in Behind(order, key) ==> x in order
  {
    if order != [] {
      BehindWithin(order[1..], key);
    }
  }

  lemma {:induction false} BehindAppend<T(!new)>(order: seq<T>, key: T, x: T)
    requires key in order
    ensures Behind(order + [x], key) == Behind(order, key) + {x}
  {
    assert (order + [x])[1..] == order[1..] + [x];
    if order[0] != key {
      BehindAppend(order[1..], key, x);
    }
  }

  lemma {:induction false} BehindLast<T(!new)>(order: seq<T>, key: T)
    requires key !in order
    ensures Behind(order + [key], key) == {}
  {
    if order != [] {
      assert (order + [key])[1..] == order[1..] + [key];
      BehindLast(order[1..], key);
    }
  }

  lemma BehindFirst<T(!new)>(order: seq<T>, key: T)
    requires NoDuplicates(order) && order != [] && order[0] == key
    ensures |Behind(order, key)| == |order| - 1
  {
    OrderSize(order[1..], set x | x in order[1..]);
  }

  /** Evicting the key would take as many touched others as the cache has places. */
  lemma EvictionSpares<V>(s: Store<V>, capacity: real, key: Str, k: Str, touched: set<Str>)
    requires key in s.at && k !in s.at && Behind(s.order, key) <= touched && key !in touched
    requires |touched + {k}| as real < capacity
    ensures key in Evict(s, capacity, k).at && Behind(Evict(s, capacity, k).order, key) <= touched
  {
    if s.order != [] {
      if s.order[0] == key {
        BehindFirst(s.order, key);
        BehindWithin(s.order, key);
        assert k !in s.order;
        SubsetSize(Behind(s.order, key) + {k}, touched + {k});
      } else {
        BehindWithout(s.order, key, s.order[0]);
      }
    }
  }

  lemma GetBehind<V>(s: Store<V>, key: Str, k: Str, now: int)
    requires key in s.at && (k == key ==> now < s.at[key].expiresAt)
    ensures var after := AfterGet(s, k, now);
            && key in after.at
            && Behind(after.order, key) <= Behind(s.order, key) + if Lookup(s, k, now).Some? then {k} - {key} else {}
  {
    hide Behind;
    if k in s.at {
      WithoutMembers(s.order, k);
      if k == key {
        BehindLast(Without(s.order, k), key);
      } else {
        BehindWithout(s.order, key, k);
        assert key in Without(s.order, k);
        BehindAppend(Without(s.order, k), key, k);
      }
    }
  }

  lemma SetBehind<V>(s: Store<V>, capacity: real, key: Str, k: Str, value: V, ttl: int, now: int, touched: set<Str>)
    requires key in s.at && k !in s.at && Behind(s.order, key) <= touched && key !in touched &&
             |touched + {k}| as real < capacity
    ensures var after := AfterSet(s, capacity, k, value, ttl, now);
            key in after.at && Behind(after.order, key) <= touched + {k}
  {
    hide Behind, Evict;
    EvictionSpares(s, capacity, key, k, touched);
    var room := Evict(s, capacity, k);
    assert key in room.order;
    EvictKeepsOut(s, capacity, k);
    BehindAppend(room.order, key, k);
  }

  lemma EvictKeepsOut<V>(s: Store<V>, capacity: real, k: Str)
    requires k !in s.at
    ensures k !in Evict(s, capacity, k).at
  {
  }

  lemma TouchesBehind<V>(s: Store<V>, capacity: real, e: Event<V>, key: Str, touched: set<Str>)
    requires key in s.at && Spares(s, e, key) && Behind(s.order, key) <= touched && key !in touched
    requires |touched + (Touch(s, e) - {key})| as real < capacity
    ensures var after := Step(s, capacity, e);
            key in after.at && Behind(after.order, key) <= touched + (Touch(s, e) - {key})
  {
    hide Behind, AfterGet, Evict;
    match e
    case Clear =>
    case Delete(k) => BehindWithout(s.order, key, k);
    case Get(k, now) => GetBehind(s, key, k, now);
    case Set(k, value, ttl, now) =>
      if k !in s.at {
        assert Touch(s, e) - {key} == {k};
        SetBehind(s, capacity, key, k, value, ttl, now, touched);
      } else {
        EvictNone(s, capacity, k);
      }
  }

  lemma EvictNone<V>(s: Store<V>, capacity: real, k: Str)
    requires k in s.at
    ensures Evict(s, capacity, k) == s
  {
  }

  /** A key that was just inserted or hit stays while fewer than capacity distinct other keys
      are inserted or hit, unless it is deleted, cleared or read after its expiry. */
  lemma {:induction false} NotEvicted<V>(s: Store<V>, capacity: real, es: seq<Event<V>>, key: Str)
    requires key in s.at && Behind(s.order, key) == {}
    requires SparedBy(s, capacity, es, key) && |Touched(s, capacity, es) - {key}| as real < capacity
    ensures key in Play(s, capacity, es).at &&
            Behind(Play(s, capacity, es).order, key) <= Touched(s, capacity, es) - {key}
  {
    hide Behind, Touch, Step;
    if es != [] {
      var n := |es| - 1;
      var before, touched := Play(s, capacity, es[..n]), Touched(s, capacity, es[..n]) - {key};
      assert Touched(s, capacity, es) - {key} == touched + (Touch(before, es[n]) - {key});
      SubsetSize(touched, Touched(s, capacity, es) - {key});
      NotEvicted(s, capacity, es[..n], key);
      TouchesBehind(before, capacity, es[n], key, touched);
    }
  }

  /** After an insertion or a hit the key stands last. */
  lemma TouchedStandsLast<V>(s: Store<V>, capacity: real, e: Event<V>, key: Str)
    requires key in Touch(s, e)
    ensures key in Step(s, capacity, e).at && Behind(Step(s, capacity, e).order, key) == {}
  {
    hide Behind;
    if e.Get? {
      WithoutMembers(s.order, key);
      BehindLast(Without(s.order, key), key);
    } else {
      if s.order != [] {
        WithoutMembers(s.order, s.order[0]);
      }
      BehindLast(Evict(s, capacity, key).order, key);
    }
  }

  lemma {:induction false} PlayJoin<V>(s: Store<V>, capacity: real, a: seq<Event<V>>, b: seq<Event<V>>)
    ensures Play(s, capacity, a + b) == Play(Play(s, capacity, a), capacity, b)
  {
    if b == [] {
      assert a + b == a;
    } else {
      assert (a + b)[..|a + b| - 1] == a + b[..|b| - 1];
      PlayJoin(s, capacity, a, b[..|b| - 1]);
    }
  }

  /** So a read within those bounds answers the latest set: from its insertion or hit e on,
      through fewer than capacity distinct other insertions and hits, until it expires. */
  lemma ReadAnswersLatestSet<V>(capacity: real, before: seq<Event<V>>, e: Event<V>, after: seq<Event<V>>, key: Str,
                                now: int)
    requires var s := Play(Empty(), capacity, before);
             var t := Step(s, capacity, e);
             && key in Touch(s, e) && SparedBy(t, capacity, after, key) &&
                 |Touched(t, capacity, after) - {key}| as real < capacity
    ensures var es := before + [e] + after;
            && LatestSet(es, key).Some?
            && Lookup(Play(Empty(), capacity, es), key, now)
               == if now < LatestSet(es, key).value.expiresAt then Some(LatestSet(es, key).value.value) else None
  {
    hide Behind, Touch, Step, LatestSet;
    var s := Play(Empty(), capacity, before);
    var t := Step(s, capacity, e);
    TouchedStandsLast(s, capacity, e, key);
    NotEvicted(t, capacity, after, key);
    assert (before + [e])[..|before|] == before;
    assert Play(Empty(), capacity, before + [e]) == t;
    PlayJoin(Empty(), capacity, before + [e], after);
    HeldIsLatest(capacity, before + [e] + after, key);
  }

  // ------------------------------------------------- what is evicted

  /** A read leaves its key in the cache exactly when it hits, and the other keys as they are. */
  lemma ReadDropsExpired<V>(s: Store<V>, key: Str, now: int)
    ensures key in AfterGet(s, key, now).at <==> Lookup(s, key, now).Some?
    ensures forall k :: k != key ==> (k in AfterGet(s, key, now).at <==> k in s.at)
    ensures forall k :: k in AfterGet(s, key, now).at ==> AfterGet(s, key, now).at[k] == s.at[k]
  {
  }

  /** The event takes no key away by itself. */
  predicate Gentle<V>(s: Store<V>, e: Event<V>) {
    e.Set? || (e.Get? && (e.key in s.at ==> e.now < s.at[e.key].expiresAt))
  }

  predicate AllGentle<V>(s: Store<V>, capacity: real, es: seq<Event<V>>) {
    es == [] ||
    (AllGentle(s, capacity, es[..|es| - 1]) && Gentle(Play(s, capacity, es[..|es| - 1]), es[|es| - 1]))
  }

  /** The key is kept exactly while there is room for the touched others, which then are what
      stands behind it. */
  ghost predicate Held<V>(s: Store<V>, capacity: real, key: Str, touched: set<Str>) {
    && Fits(s, capacity)
    && (key in s.at <==> |touched| < Room(capacity))
    && (key in s.at ==> Behind(s.order, key) == touched)
  }

  lemma {:induction false} BehindSmaller<T(!new)>(order: seq<T>, key: T)
    requires NoDuplicates(order) && key in order
    ensures key !in Behind(order, key) && |Behind(order, key)| < |order|
    ensures |Behind(order, key)| == |order| - 1 <==> order[0] == key
  {
    if order[0] == key {
      BehindFirst(order, key);
    } else {
      BehindSmaller(order[1..], key);
    }
  }

  lemma RoomIsCapacity(capacity: real, n: nat)
    requires n >= 1
    ensures n < Room(capacity) <==> (n as real) < capacity
  {
    var c := -((-capacity).Floor);
    assert capacity <= c as real < capacity + 1.0;
    if n < Room(capacity) {
      assert n <= c - 1;
      assert n as real <= (c - 1) as real;
    } else if (n as real) < capacity {
      RoomLeft(capacity, n);
    }
  }

  /** A new key evicts the key in question exactly when that leaves too little room. */
  lemma SetHolds<V>(s: Store<V>, capacity: real, key: Str, e: Event<V>, touched: set<Str>)
    requires e.Set? && e.key !in s.at && e.key != key && Held(s, capacity, key, touched)
    ensures Held(Step(s, capacity, e), capacity, key, touched + {e.key})
  {
    hide Behind, Room, Remove;
    SetFits(s, capacity, e.key, e.value, e.ttl, e.now);
    var room := Evict(s, capacity, e.key);
    EvictKeepsOut(s, capacity, e.key);
    if key in s.at {
      assert key in s.order;
      BehindSmaller(s.order, key);
      BehindWithin(s.order, key);
      assert e.key !in touched;
      assert |touched + {e.key}| == |touched| + 1;
      EvictsFirst(s, capacity, e.key, key);
      RoomIsCapacity(capacity, |s.order|);
      if key in room.at {
        assert key in room.order;
        BehindAppend(room.order, key, e.key);
      }
    } else {
      SubsetSize(touched, touched + {e.key});
    }
  }

  lemma EvictsFirst<V>(s: Store<V>, capacity: real, k: Str, key: Str)
    requires k !in s.at && key in s.at
    ensures key in Evict(s, capacity, k).at <==> |s.order| as real < capacity || s.order[0] != key
    ensures key in Evict(s, capacity, k).at ==> Behind(Evict(s, capacity, k).order, key) == Behind(s.order, key)
  {
    hide Behind;
    assert key in s.order;
    if |s.order| as real >= capacity && s.order[0] != key {
      assert s.order[0] in s.at;
      BehindWithout(s.order, key, s.order[0]);
      FirstNotBehind(s.order, key);
    }
  }

  lemma FirstNotBehind<T(!new)>(order: seq<T>, key: T)
    requires NoDuplicates(order) && order != [] && order[0] != key
    ensures order[0] !in Behind(order, key)
  {
    BehindWithin(order[1..], key);
    assert order[0] !in order[1..];
  }

  lemma GetHolds<V>(s: Store<V>, capacity: real, key: Str, e: Event<V>, touched: set<Str>)
    requires e.Get? && e.key in s.at && e.now < s.at[e.key].expiresAt && e.key != key
    requires Held(s, capacity, key, touched)
    ensures Held(Step(s, capacity, e), capacity, key, touched + {e.key})
  {
    hide Behind, Room;
    RemoveShrinks(s, e.key);
    var after := Step(s, capacity, e);
    if key in s.at {
      assert key in s.order;
      WithoutMembers(s.order, e.key);
      BehindWithout(s.order, key, e.key);
      BehindAppend(Without(s.order, e.key), key, e.key);
      assert Behind(after.order, key) == touched + {e.key};
      assert key in after.order;
      BehindSmaller(after.order, key);
    } else {
      SubsetSize(touched, touched + {e.key});
    }
  }

  lemma GentleHolds<V>(s: Store<V>, capacity: real, key: Str, e: Event<V>, touched: set<Str>)
    requires Gentle(s, e) && Held(s, capacity, key, touched) && key !in Touch(s, e)
    ensures Held(Step(s, capacity, e), capacity, key, touched + Touch(s, e))
  {
    hide Behind, Room, Held;
    if e.Set? && e.key !in s.at {
      SetHolds(s, capacity, key, e, touched);
    } else if e.Get? && e.key in s.at {
      GetHolds(s, capacity, key, e, touched);
    } else {
      assert touched + {} == touched;
      SameHolds(s, capacity, key, e, touched);
    }
  }

  lemma SameHolds<V>(s: Store<V>, capacity: real, key: Str, e: Event<V>, touched: set<Str>)
    requires Held(s, capacity, key, touched) && ((e.Set? && e.key in s.at) || (e.Get? && e.key !in s.at))
    ensures Held(Step(s, capacity, e), capacity, key, touched)
  {
    hide Behind, Room;
    if e.Set? {
      EvictNone(s, capacity, e.key);
    }
  }

  lemma {:induction false} HeldThroughout<V>(s: Store<V>, capacity: real, es: seq<Event<V>>, key: Str)
    requires Held(s, capacity, key, {}) && AllGentle(s, capacity, es) && key !in Touched(s, capacity, es)
    ensures Held(Play(s, capacity, es), capacity, key, Touched(s, capacity, es))
  {
    if es != [] {
      hide Held, Step, Gentle, Touch;
      var n := |es| - 1;
      HeldThroughout(s, capacity, es[..n], key);
      GentleHolds(Play(s, capacity, es[..n]), capacity, key, es[n], Touched(s, capacity, es[..n]));
    }
  }

  /** From its last insertion or hit on, while nothing is deleted, cleared or found expired, a
      key is in the cache if and only if fewer different keys than there are places were
      inserted or hit since: the cache holds the most recently used keys and no others. */
  lemma KeptExactly<V>(capacity: real, before: seq<Event<V>>, e: Event<V>, after: seq<Event<V>>, key: Str)
    requires var s := Play(Empty(), capacity, before);
             var t := Step(s, capacity, e);
             key in Touch(s, e) && AllGentle(t, capacity, after) && key !in Touched(t, capacity, after)
    ensures var t := Step(Play(Empty(), capacity, before), capacity, e);
            key in Play(Empty(), capacity, before + [e] + after).at <==>
            |Touched(t, capacity, after)| < Room(capacity)
  {
    hide Behind, Touch, Step, Room;
    var s := Play(Empty(), capacity, before);
    var t := Step(s, capacity, e);
    TouchedStandsLast(s, capacity, e, key);
    assert (before + [e])[..|before|] == before;
    assert Play(Empty(), capacity, before + [e]) == t;
    SizeBounded(capacity, before + [e]);
    SomeRoom(capacity);
    HeldThroughout(t, capacity, after, key);
    PlayJoin(Empty(), capacity, before + [e], after);
  }

  lemma SomeRoom(capacity: real)
    ensures Room(capacity) >= 1
  {
  }
}
