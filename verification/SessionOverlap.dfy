// Authenticate and logout calls that overlap: each store call and each cache
// call is one atomic step, and requests interleave freely between them
// (crates/coder-auth/src/lib.rs, crates/coder-auth/src/session_cache.rs).
module SessionOverlap {
  import opened Common
  import opened SessionCache

  type Req = nat

  /** A row that an authenticate has read from the store and not yet put into the cache. */
  datatype Row = Row(h: TokenHash, user: User)

  datatype World = World(
    sessions: map<TokenHash, UserId>,
    ever: map<TokenHash, UserId>,             // every session there ever was
    cache: Cache,
    fetched: map<Req, Row>,
    leaving: map<Req, TokenHash>,             // logouts that have deleted the row and not yet evicted the hash
    now: Time)

  const INITIAL := World(map[], map[], EMPTY, map[], map[], 0)

  datatype Step =
    | SignIn(h: TokenHash, id: UserId)        // under a token that was never used before
    | Fetch(req: Req, h: TokenHash)           // an authenticate that missed the cache reads the store
    | Fill(req: Req)                          // and puts what it read into the cache
    | Delete(req: Req, h: TokenHash)          // a logout deletes the session row
    | EvictHash(req: Req)                     // and evicts the hash
    | EvictAll(id: UserId)                    // a password change evicts the user

  datatype Moment = Moment(at: Time, step: Step)

  /** The world after one step, or None when the step is not enabled. */
  function Apply(ttl: nat, users: map<UserId, User>, w: World, e: Moment): Option<World> {
    if e.at < w.now then None
    else
      var w := w.(now := e.at);
      match e.step
      case SignIn(h, id) =>
        if h in w.ever || id !in users then None else Some(w.(sessions := w.sessions[h := id], ever := w.ever[h := id]))
      case Fetch(r, h) =>
        if r in w.fetched then None
        else
          var found := Direct(w.sessions, users, h);
          Some(if found.None? then w else w.(fetched := w.fetched[r := Row(h, found.value)]))
      case Fill(r) =>
        if r !in w.fetched then None
        else
          var row := w.fetched[r];
          Some(w.(cache := Insert(ttl, w.cache, row.h, row.user, e.at), fetched := w.fetched - {r}))
      case Delete(r, h) =>
        if r in w.leaving then None else Some(w.(sessions := w.sessions - {h}, leaving := w.leaving[r := h]))
      case EvictHash(r) =>
        if r !in w.leaving then None
        else Some(w.(cache := w.cache.(entries := w.cache.entries - {w.leaving[r]}), leaving := w.leaving - {r}))
      case EvictAll(id) => Some(w.(cache := w.cache.(entries := WithoutUser(w.cache.entries, id))))
  }

  function Exec(ttl: nat, users: map<UserId, User>, run: seq<Moment>): Option<World> {
    if run == [] then Some(INITIAL)
    else match Exec(ttl, users, run[..|run| - 1])
    case None => None
    case Some(w) => Apply(ttl, users, w, run[|run| - 1])
  }

  /** Whenever the clock allows it, calls start, and what they have started they can go on with. */
  lemma StepsHappen(ttl: nat, users: map<UserId, User>, w: World, e: Moment)
    ensures Apply(ttl, users, w, e).Some? <==>
            && e.at >= w.now
            && (e.step.SignIn? ==> e.step.h !in w.ever && e.step.id in users)
            && (e.step.Fetch? ==> e.step.req !in w.fetched)
            && (e.step.Fill? ==> e.step.req in w.fetched)
            && (e.step.Delete? ==> e.step.req !in w.leaving)
            && (e.step.EvictHash? ==> e.step.req in w.leaving)
  {
  }

  // ----------------------------------------------- what holds whatever overlaps

  /** `u` is the user some session under `h` was opened for. */
  ghost predicate Owner(users: map<UserId, User>, w: World, h: TokenHash, u: User) {
    h in w.ever && w.ever[h] in users && users[w.ever[h]] == u
  }

  ghost predicate OwnersOk(users: map<UserId, User>, w: World) {
    && (forall h :: h in w.sessions ==> h in w.ever && w.ever[h] == w.sessions[h])
    && (forall h :: h in w.cache.entries ==> Owner(users, w, h, w.cache.entries[h].user))
    && (forall r :: r in w.fetched ==> Owner(users, w, w.fetched[r].h, w.fetched[r].user))
  }

  /** After an insert, every entry is the new one or was there before. */
  lemma InsertHas(ttl: nat, c: Cache, h: TokenHash, u: User, now: Time)
    ensures
      var after := Insert(ttl, c, h, u, now).entries;
      && h in after && after[h] == Cached(u, now)
      && (forall k :: k in after && k != h ==> k in c.entries && after[k] == c.entries[k])
  {
  }

  lemma OwnersFill(users: map<UserId, User>, w: World, v: World, r: Req)
    requires OwnersOk(users, w) && r in w.fetched && v.fetched == w.fetched - {r}
    requires v.sessions == w.sessions && v.ever == w.ever
    requires forall k :: k in v.cache.entries && k != w.fetched[r].h ==>
               k in w.cache.entries && v.cache.entries[k] == w.cache.entries[k]
    requires w.fetched[r].h in v.cache.entries && v.cache.entries[w.fetched[r].h].user == w.fetched[r].user
    ensures OwnersOk(users, v)
  {
  }

  /** More sessions and more rows read rightly, fewer sessions and cached entries: owners stay owners. */
  lemma OwnersOther(users: map<UserId, User>, w: World, v: World)
    requires OwnersOk(users, w)
    requires forall h :: h in w.ever ==> h in v.ever && v.ever[h] == w.ever[h]
    requires forall h :: h in v.sessions ==> h in v.ever && v.ever[h] == v.sessions[h]
    requires forall h :: h in v.cache.entries ==> h in w.cache.entries && v.cache.entries[h] == w.cache.entries[h]
    requires forall r :: r in v.fetched ==>
               (r in w.fetched && v.fetched[r] == w.fetched[r]) || Owner(users, v, v.fetched[r].h, v.fetched[r].user)
    ensures OwnersOk(users, v)
  {
  }

  lemma OwnersKept(ttl: nat, users: map<UserId, User>, w: World, e: Moment)
    requires OwnersOk(users, w) && Apply(ttl, users, w, e).Some?
    ensures OwnersOk(users, Apply(ttl, users, w, e).value)
  {
    var v := Apply(ttl, users, w, e).value;
    if e.step.Fill? {
      var row := w.fetched[e.step.req];
      InsertHas(ttl, w.cache, row.h, row.user, e.at);
      OwnersFill(users, w, v, e.step.req);
    } else {
      OwnersOther(users, w, v);
    }
  }

  /** However calls overlap, a token is never answered with anyone but the user it was issued to. */
  lemma {:induction false} NeverSomeoneElse(ttl: nat, users: map<UserId, User>, run: seq<Moment>, h: TokenHash, t: Time)
    requires Exec(ttl, users, run).Some?
    ensures
      var w := Exec(ttl, users, run).value;
      && OwnersOk(users, w)
      && var answer := Lookup(ttl, w.cache.entries, h, t);
      answer.Some? ==> h in w.ever && w.ever[h] in users && answer.value == users[w.ever[h]]
    decreases |run|
  {
    if run != [] {
      NeverSomeoneElse(ttl, users, run[..|run| - 1], h, t);
      OwnersKept(ttl, users, Exec(ttl, users, run[..|run| - 1]).value, run[|run| - 1]);
    }
  }

  /** A password change leaves nothing of that user in the cache, and everything else. */
  lemma EvictAllEvicts(ttl: nat, users: map<UserId, User>, w: World, at: Time, id: UserId)
    requires w.now <= at
    ensures Apply(ttl, users, w, Moment(at, EvictAll(id))).Some?
    ensures
      var v := Apply(ttl, users, w, Moment(at, EvictAll(id))).value;
      && (forall h :: h in v.cache.entries <==> h in w.cache.entries && w.cache.entries[h].user.id != id)
      && (forall h :: h in v.cache.entries ==> v.cache.entries[h] == w.cache.entries[h])
      && v.sessions == w.sessions && v.fetched == w.fetched && v.leaving == w.leaving
  {
  }

  // ------------------------------------------------ when a logout takes effect

  ghost predicate BeingLoggedOut(w: World, h: TokenHash) {
    exists r :: r in w.leaving && w.leaving[r] == h
  }

  /** Every row read is still what the store says, and so is every cached one outside a logout of it. */
  ghost predicate Current(users: map<UserId, User>, w: World) {
    && (forall r :: r in w.fetched ==> Direct(w.sessions, users, w.fetched[r].h) == Some(w.fetched[r].user))
    && (forall h :: h in w.cache.entries ==>
          BeingLoggedOut(w, h) || Direct(w.sessions, users, h) == Some(w.cache.entries[h].user))
  }

  /** A logout deletes a live session while an authenticate of it sits between its store read and its cache insert. */
  ghost predicate Overlaps(w: World, step: Step) {
    step.Delete? && step.h in w.sessions && exists r :: r in w.fetched && w.fetched[r].h == step.h
  }

  /** A logout that is under way stays under way until its own eviction. */
  lemma StillLeaving(ttl: nat, users: map<UserId, User>, w: World, e: Moment, h: TokenHash)
    requires Apply(ttl, users, w, e).Some? && BeingLoggedOut(w, h) && h in Apply(ttl, users, w, e).value.cache.entries
    requires !e.step.Fill?
    ensures BeingLoggedOut(Apply(ttl, users, w, e).value, h)
  {
    var v := Apply(ttl, users, w, e).value;
    var r :| r in w.leaving && w.leaving[r] == h;
    assert r in v.leaving && v.leaving[r] == h;
  }

  lemma FillKept(ttl: nat, users: map<UserId, User>, w: World, e: Moment)
    requires Current(users, w) && e.step.Fill? && Apply(ttl, users, w, e).Some?
    ensures Current(users, Apply(ttl, users, w, e).value)
  {
    var v := Apply(ttl, users, w, e).value;
    assert v.leaving == w.leaving && v.sessions == w.sessions;
    forall h | h in v.cache.entries
      ensures BeingLoggedOut(v, h) || Direct(v.sessions, users, h) == Some(v.cache.entries[h].user)
    {
      if h != w.fetched[e.step.req].h {
        assert h in w.cache.entries && v.cache.entries[h] == w.cache.entries[h];
        if BeingLoggedOut(w, h) {
          var r :| r in w.leaving && w.leaving[r] == h;
          assert r in v.leaving && v.leaving[r] == h;
        }
      }
    }
  }

  lemma CachedStays(ttl: nat, users: map<UserId, User>, w: World, e: Moment, h: TokenHash)
    requires OwnersOk(users, w) && !e.step.Fill? && Apply(ttl, users, w, e).Some?
    requires h in w.cache.entries ==>
               BeingLoggedOut(w, h) || Direct(w.sessions, users, h) == Some(w.cache.entries[h].user)
    ensures
      var v := Apply(ttl, users, w, e).value;
      h in v.cache.entries ==>
        BeingLoggedOut(v, h) || Direct(v.sessions, users, h) == Some(v.cache.entries[h].user)
  {
    var v := Apply(ttl, users, w, e).value;
    if h in v.cache.entries {
      assert h in w.cache.entries && v.cache.entries[h] == w.cache.entries[h];
      if BeingLoggedOut(w, h) {
        StillLeaving(ttl, users, w, e, h);
      } else if e.step.Delete? && e.step.h == h {
        assert v.leaving[e.step.req] == h;
      }
    }
  }

  lemma FetchedStays(ttl: nat, users: map<UserId, User>, w: World, e: Moment, r: Req)
    requires OwnersOk(users, w) && !e.step.Fill? && Apply(ttl, users, w, e).Some? && !Overlaps(w, e.step)
    requires r in w.fetched ==> Direct(w.sessions, users, w.fetched[r].h) == Some(w.fetched[r].user)
    ensures
      var v := Apply(ttl, users, w, e).value;
      r in v.fetched ==> Direct(v.sessions, users, v.fetched[r].h) == Some(v.fetched[r].user)
  {
  }

  /** The exact condition, step by step. */
  lemma {:induction false} CurrentKeptIff(ttl: nat, users: map<UserId, User>, w: World, e: Moment)
    requires OwnersOk(users, w) && Current(users, w) && Apply(ttl, users, w, e).Some?
    ensures Current(users, Apply(ttl, users, w, e).value) <==> !Overlaps(w, e.step)
  {
    var v := Apply(ttl, users, w, e).value;
    if Overlaps(w, e.step) {
      var r :| r in w.fetched && w.fetched[r].h == e.step.h;
      assert r in v.fetched && v.fetched[r] == w.fetched[r];
      assert Direct(v.sessions, users, e.step.h) == None;
    } else if e.step.Fill? {
      FillKept(ttl, users, w, e);
    } else {
      forall h {
        CachedStays(ttl, users, w, e, h);
      }
      forall r {
        FetchedStays(ttl, users, w, e, r);
      }
    }
  }

  ghost predicate NoOverlap(ttl: nat, users: map<UserId, User>, run: seq<Moment>) {
    forall k :: 0 <= k < |run| && Exec(ttl, users, run[..k]).Some? ==>
      !Overlaps(Exec(ttl, users, run[..k]).value, run[k].step)
  }

  /**
   * In every run in which no logout cuts between the store read and the cache
   * insert of an authenticate of the same session, a cache hit is what the
   * store would answer, except while a logout of that very session is under way.
   */
  lemma {:induction false} HitsAreCurrent(ttl: nat, users: map<UserId, User>, run: seq<Moment>, h: TokenHash, t: Time)
    requires Exec(ttl, users, run).Some? && NoOverlap(ttl, users, run)
    ensures
      var w := Exec(ttl, users, run).value;
      && OwnersOk(users, w) && Current(users, w)
      && var answer := Lookup(ttl, w.cache.entries, h, t);
      answer.Some? && !BeingLoggedOut(w, h) ==> answer == Direct(w.sessions, users, h)
    decreases |run|
  {
    NeverSomeoneElse(ttl, users, run, h, t);
    if run != [] {
      var before := run[..|run| - 1];
      forall k | 0 <= k < |before| && Exec(ttl, users, before[..k]).Some?
        ensures !Overlaps(Exec(ttl, users, before[..k]).value, before[k].step)
      {
        assert before[..k] == run[..k];
      }
      HitsAreCurrent(ttl, users, before, h, t);
      assert run[..|before|] == before;
      CurrentKeptIff(ttl, users, Exec(ttl, users, before).value, run[|run| - 1]);
    }
  }

  /**
   * Without that proviso a logout can be undone: from any state with a row
   * read and not yet cached, the logout runs through, the row is cached, and
   * the session that is gone authenticates again, for one time-to-live exactly.
   */
  lemma {:induction false} OverlappingLogoutIsUndone(ttl: nat, users: map<UserId, User>, w: World,
                                                     auth: Req, logout: Req, at: Time, t: Time)
    requires auth in w.fetched && logout !in w.leaving && w.now <= at <= t
    ensures
      var h := w.fetched[auth].h;
      var r1 := Apply(ttl, users, w, Moment(at, Delete(logout, h)));
      && r1.Some?
      && var r2 := Apply(ttl, users, r1.value, Moment(at, EvictHash(logout)));
      && r2.Some?
      && var r3 := Apply(ttl, users, r2.value, Moment(at, Fill(auth)));
      && r3.Some? && r3.value.leaving == w.leaving && Direct(r3.value.sessions, users, h) == None
      && (Lookup(ttl, r3.value.cache.entries, h, t) == Some(w.fetched[auth].user) <==> t < at + ttl)
  {
    var row := w.fetched[auth];
    var w1 := w.(now := at, sessions := w.sessions - {row.h}, leaving := w.leaving[logout := row.h]);
    assert Apply(ttl, users, w, Moment(at, Delete(logout, row.h))) == Some(w1);
    assert w1.leaving - {logout} == w.leaving;
    var w2 := w1.(cache := w.cache.(entries := w.cache.entries - {row.h}), leaving := w.leaving);
    assert Apply(ttl, users, w1, Moment(at, EvictHash(logout))) == Some(w2);
    FilledAgain(ttl, users, w2, auth, at, t);
  }

  lemma FilledAgain(ttl: nat, users: map<UserId, User>, w: World, auth: Req, at: Time, t: Time)
    requires auth in w.fetched && w.now <= at <= t
    ensures
      var row, r := w.fetched[auth], Apply(ttl, users, w, Moment(at, Fill(auth)));
      && r.Some? && r.value.leaving == w.leaving && r.value.sessions == w.sessions
      && (Lookup(ttl, r.value.cache.entries, row.h, t) == Some(row.user) <==> t < at + ttl)
  {
    InsertHas(ttl, w.cache, w.fetched[auth].h, w.fetched[auth].user, at);
  }

  lemma {:induction false} Then(ttl: nat, users: map<UserId, User>, run: seq<Moment>, w: World, e: Moment)
    returns (longer: seq<Moment>, v: World)
    requires Exec(ttl, users, run) == Some(w) && Apply(ttl, users, w, e).Some?
    ensures longer == run + [e] && v == Apply(ttl, users, w, e).value && Exec(ttl, users, longer) == Some(v)
  {
    longer, v := run + [e], Apply(ttl, users, w, e).value;
    assert longer[..|longer| - 1] == run;
  }

  /** One sign-in, one authenticate and one logout are enough: the session is gone and still authenticates. */
  lemma UndoneLogoutIsReachable(ttl: nat, users: map<UserId, User>, h: TokenHash, id: UserId) returns (run: seq<Moment>)
    requires id in users && ttl > 0
    ensures Exec(ttl, users, run).Some?
    ensures
      var w := Exec(ttl, users, run).value;
      && w.leaving == map[] && Direct(w.sessions, users, h) == None
      && forall t: Time :: w.now <= t ==> (Lookup(ttl, w.cache.entries, h, t) == Some(users[id]) <==> t < w.now + ttl)
  {
    var w := INITIAL;
    run := [];
    run, w := Then(ttl, users, run, w, Moment(0, SignIn(h, id)));
    run, w := Then(ttl, users, run, w, Moment(0, Fetch(1, h)));
    assert w.fetched == map[1 := Row(h, users[id])];
    ghost var before := w;
    forall t: Time {
      OverlappingLogoutIsUndone(ttl, users, before, 1, 2, 0, t);
    }
    OverlappingLogoutIsUndone(ttl, users, before, 1, 2, 0, 0);
    run, w := Then(ttl, users, run, w, Moment(0, Delete(2, h)));
    run, w := Then(ttl, users, run, w, Moment(0, EvictHash(2)));
    run, w := Then(ttl, users, run, w, Moment(0, Fill(1)));
  }
}
