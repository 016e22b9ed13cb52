// The session cache in front of the session store, and the authenticate and
// logout paths that use it (crates/coder-auth/src/session_cache.rs, lib.rs).
module SessionCache {
  import opened Common

  type TokenHash = string
  type UserId = nat
  type Time = nat

  datatype User = User(id: UserId, payload: string)

  datatype Cached = Cached(user: User, at: Time)

  type Entries = map<TokenHash, Cached>

  const SWEEP_INTERVAL := 100
  const SWEEP_SIZE_THRESHOLD := 10_000

  /** The entries and the 64-bit insert counter. */
  datatype Cache = Cache(entries: Entries, inserts: u64)

  const EMPTY := Cache(map[], 0)

  // ------------------------------------------------------------- cache operations

  predicate Live(ttl: nat, c: Cached, now: Time) {
    now - c.at < ttl
  }

  function Lookup(ttl: nat, entries: Entries, h: TokenHash, now: Time): Option<User> {
    if h in entries && Live(ttl, entries[h], now) then Some(entries[h].user) else None
  }

  function Sweep(ttl: nat, entries: Entries, now: Time): Entries {
    map h | h in entries && Live(ttl, entries[h], now) :: entries[h]
  }

  /** Every hundredth insert, and every insert into a large table, first sweeps what has expired. */
  function Insert(ttl: nat, c: Cache, h: TokenHash, u: User, now: Time): Cache {
    var kept := if c.inserts % SWEEP_INTERVAL == 0 || |c.entries| >= SWEEP_SIZE_THRESHOLD
                then Sweep(ttl, c.entries, now) else c.entries;
    Cache(kept[h := Cached(u, now)], (c.inserts + 1) % 0x1_0000_0000_0000_0000)
  }

  function WithoutUser(entries: Entries, id: UserId): Entries {
    map h | h in entries && entries[h].user.id != id :: entries[h]
  }

  /**
   * Memory stays bounded: an insert that is due, being the hundredth or finding
   * ten thousand entries, leaves nothing behind that has expired but its own.
   */
  lemma SweepsWhenDue(ttl: nat, c: Cache, h: TokenHash, u: User, now: Time)
    ensures
      var after := Insert(ttl, c, h, u, now);
      && after.inserts == (c.inserts + 1) % 0x1_0000_0000_0000_0000
      && after.entries.Keys <= c.entries.Keys + {h} && h in after.entries && after.entries[h] == Cached(u, now)
      && (c.inserts % 100 == 0 || |c.entries| >= 10_000 ==>
            forall k :: k in after.entries && k != h ==> now - after.entries[k].at < ttl)
      && (!(c.inserts % 100 == 0 || |c.entries| >= 10_000) ==> after.entries == c.entries[h := Cached(u, now)])
  {
  }

  class Store {
    const ttl: nat
    var entries: Entries
    var inserts: u64

    ghost function View(): Cache
      reads this
    {
      Cache(entries, inserts)
    }

    constructor (ttl: nat)
      ensures this.ttl == ttl && View() == EMPTY
    {
      this.ttl := ttl;
      entries, inserts := map[], 0;
    }

    method Get(h: TokenHash, now: Time) returns (user: Option<User>)
      ensures user == Lookup(ttl, entries, h, now)
    {
      if h in entries {
        if now - entries[h].at < ttl {
          return Some(entries[h].user);
        }
        return None;
      }
      return None;
    }

    method Put(h: TokenHash, user: User, now: Time)
      modifies this
      ensures View() == Insert(ttl, old(View()), h, user, now)
    {
      var count := inserts;
      inserts := (inserts + 1) % 0x1_0000_0000_0000_0000;
      var shouldSweep := count % SWEEP_INTERVAL == 0 || |entries| >= SWEEP_SIZE_THRESHOLD;
      if shouldSweep {
        Retain(now);
      }
      entries := entries[h := Cached(user, now)];
    }

    /** `retain`: visits the entries one by one and drops those that have expired. */
    method Retain(now: Time)
      modifies this`entries
      ensures entries == Sweep(ttl, old(entries), now)
    {
      var todo := entries.Keys;
      ghost var before := entries;
      while todo != {}
        invariant todo <= before.Keys
        invariant forall h :: h in entries <==> h in before && (h in todo || Live(ttl, before[h], now))
        invariant forall h :: h in entries ==> entries[h] == before[h]
      {
        var h :| h in todo;
        if !(now - entries[h].at < ttl) {
          entries := entries - {h};
        }
        todo := todo - {h};
      }
    }

    method Evict(h: TokenHash)
      modifies this`entries
      ensures entries == old(entries) - {h}
    {
      entries := entries - {h};
    }

    method EvictUser(id: UserId)
      modifies this`entries
      ensures entries == WithoutUser(old(entries), id)
    {
      var todo := entries.Keys;
      ghost var before := entries;
      while todo != {}
        invariant todo <= before.Keys
        invariant forall h :: h in entries <==> h in before && (h in todo || before[h].user.id != id)
        invariant forall h :: h in entries ==> entries[h] == before[h]
      {
        var h :| h in todo;
        if entries[h].user.id == id {
          entries := entries - {h};
        }
        todo := todo - {h};
      }
    }
  }

  // -------------------------------------------------------------------------- runs

  datatype Event =
    | Inserted(h: TokenHash, user: User)
    | Evicted(h: TokenHash)
    | UserEvicted(id: UserId)

  datatype Timed = Timed(at: Time, event: Event)

  datatype State = State(cache: Cache, plain: Entries, now: Time)

  /** The cache beside a plain table that never sweeps; None when the clock runs backwards. */
  function Apply(ttl: nat, s: State, e: Timed): Option<State> {
    if e.at < s.now then None
    else match e.event
    case Inserted(h, u) => Some(State(Insert(ttl, s.cache, h, u, e.at), s.plain[h := Cached(u, e.at)], e.at))
    case Evicted(h) => Some(State(s.cache.(entries := s.cache.entries - {h}), s.plain - {h}, e.at))
    case UserEvicted(id) =>
      Some(State(s.cache.(entries := WithoutUser(s.cache.entries, id)), WithoutUser(s.plain, id), e.at))
  }

  function Exec(ttl: nat, events: seq<Timed>): Option<State> {
    if events == [] then Some(State(EMPTY, map[], 0))
    else match Exec(ttl, events[..|events| - 1])
    case None => None
    case Some(s) => Apply(ttl, s, events[|events| - 1])
  }

  /** The cache is the plain table minus entries that have expired. */
  ghost predicate Agrees(ttl: nat, s: State) {
    && (forall h :: h in s.cache.entries ==> h in s.plain && s.plain[h] == s.cache.entries[h])
    && (forall h :: h in s.plain && h !in s.cache.entries ==> !Live(ttl, s.plain[h], s.now))
  }

  lemma {:induction false} CacheAgrees(ttl: nat, events: seq<Timed>)
    requires Exec(ttl, events).Some?
    ensures Agrees(ttl, Exec(ttl, events).value)
    decreases |events|
  {
    if events != [] {
      CacheAgrees(ttl, events[..|events| - 1]);
    }
  }

  /** Whether the insert at index `i` is still what a lookup of `h` should find. */
  ghost predicate Stands(events: seq<Timed>, i: nat, h: TokenHash, u: User)
    requires i < |events|
  {
    && events[i].event == Inserted(h, u)
    && (forall j :: i < j < |events| ==> Spares(events[j].event, h, u))
  }

  lemma StandsLonger(events: seq<Timed>, i: nat, h: TokenHash, u: User)
    requires i + 1 < |events|
    ensures Stands(events, i, h, u) <==>
            && Stands(events[..|events| - 1], i, h, u)
            && Spares(events[|events| - 1].event, h, u)
  {
    var shorter := events[..|events| - 1];
    assert forall j :: 0 <= j < |shorter| ==> shorter[j] == events[j];
  }

  /** The event leaves an entry of `h` for `u` alone. */
  predicate Spares(e: Event, h: TokenHash, u: User) {
    !(e.Inserted? && e.h == h) && e != Evicted(h) && e != UserEvicted(u.id)
  }

  ghost predicate InHistory(events: seq<Timed>, h: TokenHash, c: Cached) {
    exists i :: 0 <= i < |events| && events[i].at == c.at && Stands(events, i, h, c.user)
  }

  /** What one event does to the entry of `h` in the plain table. */
  lemma PlainStep(ttl: nat, s: State, e: Timed, h: TokenHash, c: Cached)
    requires Apply(ttl, s, e).Some?
    ensures
      var after := Apply(ttl, s, e).value.plain;
      (h in after && after[h] == c) <==>
        (e == Timed(c.at, Inserted(h, c.user)) || (h in s.plain && s.plain[h] == c && Spares(e.event, h, c.user)))
  {
  }

  /** The same for the history. */
  lemma HistoryStep(events: seq<Timed>, e: Timed, h: TokenHash, c: Cached)
    ensures InHistory(events + [e], h, c) <==>
            e == Timed(c.at, Inserted(h, c.user)) || (InHistory(events, h, c) && Spares(e.event, h, c.user))
  {
    var all, n := events + [e], |events|;
    if i :| 0 <= i < |all| && all[i].at == c.at && Stands(all, i, h, c.user) {
      if i < n {
        StandsLonger(all, i, h, c.user);
        assert all[..n] == events;
      }
    }
    if e == Timed(c.at, Inserted(h, c.user)) {
      assert Stands(all, n, h, c.user);
    }
    if i :| 0 <= i < n && events[i].at == c.at && Stands(events, i, h, c.user) {
      StandsLonger(all, i, h, c.user);
      assert all[..n] == events && all[i] == events[i];
    }
  }

  lemma {:induction false} PlainIsHistory(ttl: nat, events: seq<Timed>, h: TokenHash, c: Cached)
    requires Exec(ttl, events).Some?
    ensures
      var plain := Exec(ttl, events).value.plain;
      (h in plain && plain[h] == c) <==> InHistory(events, h, c)
    decreases |events|
  {
    if events != [] {
      var shorter, e := events[..|events| - 1], events[|events| - 1];
      PlainIsHistory(ttl, shorter, h, c);
      PlainStep(ttl, Exec(ttl, shorter).value, e, h, c);
      HistoryStep(shorter, e, h, c);
      assert shorter + [e] == events;
    }
  }

  /**
   * Sweeping is invisible: at any time t not before the last event, a lookup
   * finds u exactly when the latest insert for the hash was u, less than the
   * time-to-live ago, with no eviction of the hash or of the user since.
   */
  lemma {:induction false} LookupIsHistory(ttl: nat, events: seq<Timed>, h: TokenHash, u: User, t: Time)
    requires Exec(ttl, events).Some? && Exec(ttl, events).value.now <= t
    ensures Lookup(ttl, Exec(ttl, events).value.cache.entries, h, t) == Some(u) <==>
            exists i :: 0 <= i < |events| && t - events[i].at < ttl && Stands(events, i, h, u)
  {
    CacheAgrees(ttl, events);
    var s := Exec(ttl, events).value;
    if i :| 0 <= i < |events| && t - events[i].at < ttl && Stands(events, i, h, u) {
      PlainIsHistory(ttl, events, h, Cached(u, events[i].at));
    }
    if h in s.plain && s.plain[h].user == u {
      PlainIsHistory(ttl, events, h, s.plain[h]);
    }
  }

  // ------------------------------------------------------- agreement with the store

  /** find_user_by_session_token_hash. */
  function Direct(sessions: map<TokenHash, UserId>, users: map<UserId, User>, h: TokenHash): Option<User> {
    if h in sessions && sessions[h] in users then Some(users[sessions[h]]) else None
  }

  class AuthService {
    const users: map<UserId, User>
    var sessions: map<TokenHash, UserId>
    const cache: Store

    /** Whatever is cached is what the store would answer. */
    ghost predicate Valid()
      reads this, cache
    {
      forall h :: h in cache.entries ==> Direct(sessions, users, h) == Some(cache.entries[h].user)
    }

    constructor (users: map<UserId, User>, ttl: nat)
      ensures Valid() && this.users == users && sessions == map[] && fresh(cache)
    {
      this.users := users;
      sessions := map[];
      cache := new Store(ttl);
    }

    /** Cache first, store second: the answer is always the store's. */
    method Authenticate(h: TokenHash, now: Time) returns (user: Option<User>)
      requires Valid()
      modifies cache
      ensures Valid() && user == Direct(sessions, users, h)
      ensures user.Some? && cache.ttl > 0 ==> Lookup(cache.ttl, cache.entries, h, now) == user
      ensures old(Lookup(cache.ttl, cache.entries, h, now)).Some? || user.None? ==> cache.View() == old(cache.View())
    {
      user := cache.Get(h, now);
      if user.Some? {
        return;
      }
      if h !in sessions || sessions[h] !in users {
        return None;
      }
      user := Some(users[sessions[h]]);
      cache.Put(h, user.value, now);
    }

    /** A new session under a token hash not in use. */
    method Login(h: TokenHash, id: UserId)
      requires Valid() && h !in sessions
      modifies this
      ensures Valid() && sessions == old(sessions)[h := id]
    {
      sessions := sessions[h := id];
    }

    method Logout(h: TokenHash)
      requires Valid()
      modifies this, cache
      ensures Valid() && sessions == old(sessions) - {h}
      ensures cache.entries == old(cache.entries) - {h}
    {
      sessions := sessions - {h};
      cache.Evict(h);
    }
  }
}
