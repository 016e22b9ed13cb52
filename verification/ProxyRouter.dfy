// Health-aware proxy routing: a list of proxies that share breaker objects
// across refreshes (crates/coder-connectivity/src/proxy_routing.rs).
module ProxyRouter {
  import opened Common
  import opened CircuitBreaker

  type Id = nat

  datatype Record = Record(id: Id, deleted: bool)

  datatype Entry = Entry(record: Record, breaker: Breaker)

  /** The records a refresh keeps, in order. */
  function Kept(proxies: seq<Record>): seq<Record> {
    if proxies == [] then []
    else (if proxies[0].deleted then [] else [proxies[0]]) + Kept(proxies[1..])
  }

  lemma {:induction false} KeptHas(proxies: seq<Record>, r: Record)
    ensures r in Kept(proxies) <==> r in proxies && !r.deleted
  {
    if proxies != [] {
      KeptHas(proxies[1..], r);
    }
  }

  ghost predicate DistinctIds(records: seq<Record>) {
    forall i, j :: 0 <= i < j < |records| ==> records[i].id != records[j].id
  }

  // ----------------------------------------------------- the abstract router

  /** What the router is meant to be: a breaker state per proxy id. */
  type Health = map<Id, Inner>

  datatype Op =
    | Refresh(proxies: seq<Record>)
    | Outcome(id: Id, ok: bool, at: Time)
    | Select(at: Time)

  ghost function RefreshHealth(h: Health, kept: seq<Record>): Health {
    map r | r in kept :: r.id := if r.id in h then h[r.id] else FRESH
  }

  function OutcomeHealth(cfg: Config, h: Health, id: Id, ok: bool, at: Time): Health {
    if id !in h then h
    else h[id := if ok then Success(cfg, h[id]) else Failure(cfg, h[id], at)]
  }

  function SelectHealth(cfg: Config, h: Health, at: Time): Health {
    map id | id in h :: Poll(cfg, h[id], at)
  }

  ghost predicate Allowed(op: Op) {
    op.Refresh? ==> DistinctIds(Kept(op.proxies))
  }

  ghost function ApplyOp(cfg: Config, h: Health, op: Op): Health {
    match op
    case Refresh(proxies) => RefreshHealth(h, Kept(proxies))
    case Outcome(id, ok, at) => OutcomeHealth(cfg, h, id, ok, at)
    case Select(at) => SelectHealth(cfg, h, at)
  }

  ghost function ExecOps(cfg: Config, ops: seq<Op>): Health {
    if ops == [] then map[] else ApplyOp(cfg, ExecOps(cfg, ops[..|ops| - 1]), ops[|ops| - 1])
  }

  // --------------------------------- a proxy's health is its own history, replayed

  datatype Touch = Recorded(ok: bool, at: Time) | Polled(at: Time)

  predicate Listed(proxies: seq<Record>, id: Id) {
    Record(id, false) in proxies
  }

  /** What happened to proxy `id` since it was last listed without interruption; None while it is not listed. */
  function SinceListed(ops: seq<Op>, id: Id): Option<seq<Touch>> {
    if ops == [] then None
    else
      var earlier := SinceListed(ops[..|ops| - 1], id);
      match ops[|ops| - 1]
      case Refresh(proxies) =>
        if !Listed(proxies, id) then None else if earlier.Some? then earlier else Some([])
      case Outcome(i, ok, at) =>
        if earlier.Some? && i == id then Some(earlier.value + [Recorded(ok, at)]) else earlier
      case Select(at) =>
        if earlier.Some? then Some(earlier.value + [Polled(at)]) else None
  }

  function TouchOnce(cfg: Config, b: Inner, t: Touch): Inner {
    match t
    case Recorded(ok, at) => if ok then Success(cfg, b) else Failure(cfg, b, at)
    case Polled(at) => Poll(cfg, b, at)
  }

  /** A fresh breaker taken through a history. */
  function Replay(cfg: Config, touches: seq<Touch>): Inner {
    if touches == [] then FRESH
    else TouchOnce(cfg, Replay(cfg, touches[..|touches| - 1]), touches[|touches| - 1])
  }

  lemma {:induction false} ReplaySnoc(cfg: Config, touches: seq<Touch>, t: Touch)
    ensures Replay(cfg, touches + [t]) == TouchOnce(cfg, Replay(cfg, touches), t)
  {
    assert (touches + [t])[..|touches + [t]| - 1] == touches;
  }

  /**
   * Over any run of refreshes, outcomes and selections, a proxy is in the table
   * exactly while it is listed, and its breaker stands where a fresh breaker
   * would after that proxy's own outcomes since it was last newly listed:
   * other proxies, and refreshes that keep it, leave no trace.
   */
  lemma {:induction false} HealthIsOwnHistory(cfg: Config, ops: seq<Op>, id: Id)
    ensures id in ExecOps(cfg, ops) <==> SinceListed(ops, id).Some?
    ensures id in ExecOps(cfg, ops) ==> ExecOps(cfg, ops)[id] == Replay(cfg, SinceListed(ops, id).value)
    decreases |ops|
  {
    if ops != [] {
      var before, op := ops[..|ops| - 1], ops[|ops| - 1];
      HealthIsOwnHistory(cfg, before, id);
      var earlier := SinceListed(before, id);
      match op
      case Refresh(proxies) =>
        ListedIsKept(ExecOps(cfg, before), proxies, id);
      case Outcome(i, ok, at) =>
        if earlier.Some? {
          ReplaySnoc(cfg, earlier.value, Recorded(ok, at));
        }
      case Select(at) =>
        if earlier.Some? {
          ReplaySnoc(cfg, earlier.value, Polled(at));
        }
    }
  }

  lemma {:induction false} ListedIsKept(h: Health, proxies: seq<Record>, id: Id)
    ensures id in RefreshHealth(h, Kept(proxies)) <==> Listed(proxies, id)
    ensures Listed(proxies, id) ==>
              RefreshHealth(h, Kept(proxies))[id] == if id in h then h[id] else FRESH
  {
    KeptHas(proxies, Record(id, false));
    KeptHas(proxies, Record(id, true));
  }

  // ------------------------------------------------------------- the real router

  /** The entries whose mode is not Open, in order. */
  function NotOpen(entries: seq<Entry>, modes: seq<Mode>): seq<Entry>
    requires |entries| == |modes|
  {
    if entries == [] then []
    else
      var n := |entries| - 1;
      NotOpen(entries[..n], modes[..n]) + if modes[n] != Open then [entries[n]] else []
  }

  /** The last entry of that id: the one whose breaker the refresh index keeps. */
  ghost function LastOf(entries: seq<Entry>, id: Id): Option<Breaker> {
    if entries == [] then None
    else if entries[|entries| - 1].record.id == id then Some(entries[|entries| - 1].breaker)
    else LastOf(entries[..|entries| - 1], id)
  }

  /** `ys` are the elements of `xs` to be kept, each once and in order: those at the places `at`. */
  ghost predicate Filters<T>(ys: seq<T>, xs: seq<T>, keep: seq<bool>, at: seq<nat>) {
    && |keep| == |xs| && |ys| == |at|
    && (forall i, j :: 0 <= i < j < |at| ==> at[i] < at[j])
    && (forall i :: 0 <= i < |at| ==> at[i] < |xs| && keep[at[i]] && ys[i] == xs[at[i]])
    && (forall k :: 0 <= k < |xs| && keep[k] ==> k in at)
  }

  /** Appending an element, and its place if it is to be kept. */
  lemma FiltersSnoc<T>(ys: seq<T>, xs: seq<T>, keep: seq<bool>, at: seq<nat>, x: T, b: bool,
                       ys': seq<T>, xs': seq<T>, keep': seq<bool>, at': seq<nat>)
    requires Filters(ys, xs, keep, at)
    requires ys' == ys + (if b then [x] else []) && at' == at + (if b then [|xs|] else [])
    requires xs' == xs + [x] && keep' == keep + [b]
    ensures Filters(ys', xs', keep', at')
  {
    forall k | 0 <= k < |xs'| && keep'[k]
      ensures k in at'
    {
      if k < |xs| {
        assert keep[k] && k in at;
      }
    }
  }

  /** Which modes are not Open. */
  function Usable(modes: seq<Mode>): (keep: seq<bool>)
    ensures |keep| == |modes| && forall i :: 0 <= i < |modes| ==> (keep[i] <==> modes[i] != Open)
  {
    seq(|modes|, i requires 0 <= i < |modes| => modes[i] != Open)
  }

  /** The selection is the entries whose mode is not Open, each once and in the order of the list. */
  lemma {:induction false} NotOpenIsFilter(entries: seq<Entry>, modes: seq<Mode>) returns (at: seq<nat>)
    requires |entries| == |modes|
    ensures Filters(NotOpen(entries, modes), entries, Usable(modes), at)
    decreases |entries|
  {
    if entries == [] {
      at := [];
    } else {
      var n := |entries| - 1;
      var shorter, keep, b := entries[..n], Usable(modes[..n]), modes[n] != Open;
      var fewer := NotOpenIsFilter(shorter, modes[..n]);
      at := fewer + if b then [n] else [];
      assert keep + [b] == Usable(modes) && shorter + [entries[n]] == entries;
      FiltersSnoc(NotOpen(shorter, modes[..n]), shorter, keep, fewer, entries[n], b,
                  NotOpen(entries, modes), entries, Usable(modes), at);
    }
  }

  /** Which records are not deleted. */
  function Undeleted(proxies: seq<Record>): (keep: seq<bool>)
    ensures |keep| == |proxies| && forall i :: 0 <= i < |proxies| ==> (keep[i] <==> !proxies[i].deleted)
  {
    seq(|proxies|, i requires 0 <= i < |proxies| => !proxies[i].deleted)
  }

  lemma {:induction false} KeptSnoc(proxies: seq<Record>, last: Record)
    ensures Kept(proxies + [last]) == Kept(proxies) + if !last.deleted then [last] else []
  {
    if proxies == [] {
      assert proxies + [last] == [last] && [last][1..] == [];
    } else {
      KeptSnoc(proxies[1..], last);
      assert (proxies + [last])[1..] == proxies[1..] + [last];
    }
  }

  /** A refresh keeps the records that are not deleted, each once and in the order given. */
  lemma {:induction false} KeptIsFilter(proxies: seq<Record>) returns (at: seq<nat>)
    ensures Filters(Kept(proxies), proxies, Undeleted(proxies), at)
    decreases |proxies|
  {
    if proxies == [] {
      at := [];
    } else {
      var n := |proxies| - 1;
      var shorter, b := proxies[..n], !proxies[n].deleted;
      var fewer := KeptIsFilter(shorter);
      at := fewer + if b then [n] else [];
      KeptSnoc(shorter, proxies[n]);
      assert Undeleted(shorter) + [b] == Undeleted(proxies) && shorter + [proxies[n]] == proxies;
      FiltersSnoc(Kept(shorter), shorter, Undeleted(shorter), fewer, proxies[n], b,
                  Kept(proxies), proxies, Undeleted(proxies), at);
    }
  }

  /** Of several entries of one id, the refresh keeps the breaker of the last. */
  lemma {:induction false} LastOfIsLast(entries: seq<Entry>, i: nat)
    requires i < |entries| && forall j :: i < j < |entries| ==> entries[j].record.id != entries[i].record.id
    ensures LastOf(entries, entries[i].record.id) == Some(entries[i].breaker)
    decreases |entries|
  {
    var n := |entries| - 1;
    if i < n {
      LastOfIsLast(entries[..n], i);
    }
  }

  lemma {:induction false} LastOfIsEntry(entries: seq<Entry>, id: Id)
    ensures
      match LastOf(entries, id)
      case Some(b) => exists i :: 0 <= i < |entries| && entries[i].record.id == id && entries[i].breaker == b
      case None => forall i :: 0 <= i < |entries| ==> entries[i].record.id != id
    decreases |entries|
  {
    if entries != [] && entries[|entries| - 1].record.id != id {
      LastOfIsEntry(entries[..|entries| - 1], id);
      assert entries == entries[..|entries| - 1] + [entries[|entries| - 1]];
    }
  }

  /** The proxy of this entry was not listed in `was`. */
  ghost predicate IsNew(was: seq<Entry>, e: Entry) {
    LastOf(was, e.record.id).None?
  }

  /** A proxy that was listed keeps its breaker object. */
  ghost predicate Carries(was: seq<Entry>, next: seq<Entry>) {
    forall n :: 0 <= n < |next| && !IsNew(was, next[n]) ==> next[n].breaker == LastOf(was, next[n].record.id).value
  }

  lemma {:induction false} CarriedIsOld(was: seq<Entry>, e: Entry)
    requires !IsNew(was, e) && e.breaker == LastOf(was, e.record.id).value
    ensures exists i :: 0 <= i < |was| && was[i].breaker == e.breaker
  {
    LastOfIsEntry(was, e.record.id);
  }

  /** No two ids share a breaker, no id has two. */
  ghost predicate Aligned(entries: seq<Entry>) {
    forall i, j :: 0 <= i < |entries| && 0 <= j < |entries| ==>
      (entries[i].record.id == entries[j].record.id <==> entries[i].breaker == entries[j].breaker)
  }

  ghost predicate HasId(entries: seq<Entry>, id: Id) {
    exists i :: 0 <= i < |entries| && entries[i].record.id == id
  }

  /** `i` is the first entry of that id. */
  ghost predicate IsFirst(entries: seq<Entry>, i: int, id: Id) {
    0 <= i < |entries| && entries[i].record.id == id && forall j :: 0 <= j < i ==> entries[j].record.id != id
  }

  /** The listed breakers stand exactly where `h` says. */
  ghost predicate Represents(entries: seq<Entry>, h: Health)
    reads set i | 0 <= i < |entries| :: entries[i].breaker
  {
    && (forall i :: 0 <= i < |entries| ==>
          entries[i].record.id in h && h[entries[i].record.id] == entries[i].breaker.View())
    && (forall id :: id in h ==> HasId(entries, id))
  }

  class Router {
    const config: Config
    var entries: seq<Entry>

    ghost function Breakers(): set<Breaker>
      reads this
    {
      set i | 0 <= i < |entries| :: entries[i].breaker
    }

    ghost predicate Valid()
      reads this
    {
      forall i :: 0 <= i < |entries| ==> entries[i].breaker.config == config
    }

    constructor (config: Config)
      ensures this.config == config && entries == [] && Valid()
      ensures Aligned(entries) && Represents(entries, map[])
    {
      this.config := config;
      entries := [];
    }

    /** Indexes the present breakers by id; a later entry of the same id wins. */
    method Index() returns (breakers: map<Id, Breaker>)
      requires Valid()
      ensures forall id :: LastOf(entries, id) == if id in breakers then Some(breakers[id]) else None
      ensures forall id :: id in breakers ==> breakers[id].config == config
    {
      breakers := map[];
      for k := 0 to |entries|
        invariant forall id :: LastOf(entries[..k], id) == if id in breakers then Some(breakers[id]) else None
        invariant forall id :: id in breakers ==> breakers[id].config == config
      {
        assert entries[..k + 1][..k] == entries[..k];
        breakers := breakers[entries[k].record.id := entries[k].breaker];
      }
      assert entries[..|entries|] == entries;
    }

    /** The indexed breaker of a proxy, or a new one. */
    method BreakerFor(id: Id, breakers: map<Id, Breaker>) returns (breaker: Breaker)
      requires id in breakers ==> breakers[id].config == config
      ensures breaker.config == config
      ensures id in breakers ==> breaker == breakers[id]
      ensures id !in breakers ==> fresh(breaker) && breaker.View() == FRESH
    {
      if id in breakers {
        breaker := breakers[id];
      } else {
        breaker := new Breaker(config);
      }
    }

    /** Entries for the kept proxies, each with its indexed breaker or a new one of its own. */
    method Rebuild(proxies: seq<Record>, breakers: map<Id, Breaker>) returns (next: seq<Entry>)
      requires forall id :: id in breakers ==> breakers[id].config == config
      ensures Lists(next, Kept(proxies))
      ensures forall n :: 0 <= n < |next| ==> next[n].breaker.config == config
      ensures forall n :: 0 <= n < |next| && next[n].record.id in breakers ==>
        next[n].breaker == breakers[next[n].record.id]
      ensures forall n :: 0 <= n < |next| && next[n].record.id !in breakers ==>
        fresh(next[n].breaker) && next[n].breaker.View() == FRESH
      ensures forall m, n :: 0 <= m < n < |next| && next[m].breaker == next[n].breaker ==> next[m].record.id in breakers
    {
      next := [];
      ghost var kept: seq<Record> := [];
      for i := 0 to |proxies|
        invariant Kept(proxies) == kept + Kept(proxies[i..]) && Lists(next, kept)
        invariant forall n :: 0 <= n < |next| ==> next[n].breaker.config == config
        invariant forall n :: 0 <= n < |next| && next[n].record.id in breakers ==>
          next[n].breaker == breakers[next[n].record.id]
        invariant forall n :: 0 <= n < |next| && next[n].record.id !in breakers ==>
          fresh(next[n].breaker) && next[n].breaker.View() == FRESH
        invariant forall m, n :: 0 <= m < n < |next| && next[m].breaker == next[n].breaker ==>
          next[m].record.id in breakers
      {
        var proxy := proxies[i];
        KeptStep(Kept(proxies), proxies[i..], kept);
        assert proxies[i..][1..] == proxies[i + 1..];
        if !proxy.deleted {
          var breaker := BreakerFor(proxy.id, breakers);
          next := next + [Entry(proxy, breaker)];
          kept := kept + [proxy];
        }
      }
    }

    /** The next list: a proxy that is listed keeps its breaker object, a new one gets a fresh breaker. */
    method NextEntries(proxies: seq<Record>, ghost h: Health) returns (next: seq<Entry>)
      requires Valid()
      ensures Lists(next, Kept(proxies))
      ensures forall n :: 0 <= n < |next| ==> next[n].breaker.config == config
      ensures Carries(entries, next)
      ensures forall n :: 0 <= n < |next| && IsNew(entries, next[n]) ==>
        fresh(next[n].breaker) && next[n].breaker.View() == FRESH
      ensures forall n :: 0 <= n < |next| ==> next[n].breaker in Breakers() || fresh(next[n].breaker)
      ensures Aligned(entries) && DistinctIds(Kept(proxies)) ==> Aligned(next)
      ensures Represents(entries, h) ==> Represents(next, RefreshHealth(h, Kept(proxies)))
    {
      var breakers := Index();
      IndexIsEntries(entries, breakers);
      next := Rebuild(proxies, breakers);
      IndexCarries(entries, breakers, next);
      forall n | 0 <= n < |next| && !IsNew(entries, next[n])
        ensures next[n].breaker in Breakers()
      {
        CarriedIsOld(entries, next[n]);
      }
      if Aligned(entries) && DistinctIds(Kept(proxies)) {
        RebuiltAligned(entries, breakers, next, Kept(proxies));
      }
      if Represents(entries, h) {
        KnownHealth(entries, breakers, next, h);
        RebuiltHealth(next, h, Kept(proxies));
      }
    }

    method RefreshFrom(proxies: seq<Record>, ghost h: Health)
      requires Valid()
      modifies this
      ensures Valid() && Lists(entries, Kept(proxies)) && fresh(Breakers() - old(Breakers()))
      ensures Carries(old(entries), entries)
      ensures forall n :: 0 <= n < |entries| && IsNew(old(entries), entries[n]) ==>
        fresh(entries[n].breaker) && entries[n].breaker.View() == FRESH
      ensures old(Aligned(entries)) && DistinctIds(Kept(proxies)) ==> Aligned(entries)
      ensures old(Represents(entries, h)) ==> Represents(entries, RefreshHealth(h, Kept(proxies)))
    {
      var next := NextEntries(proxies, h);
      entries := next;
    }

    /** The first entry of that id, if any. */
    method Find(id: Id) returns (found: Option<Breaker>)
      ensures found.None? ==> !HasId(entries, id)
      ensures found.Some? ==> exists i :: IsFirst(entries, i, id) && found.value == entries[i].breaker
    {
      for i := 0 to |entries|
        invariant forall j :: 0 <= j < i ==> entries[j].record.id != id
      {
        if entries[i].record.id == id {
          assert IsFirst(entries, i, id);
          return Some(entries[i].breaker);
        }
      }
      return None;
    }

    /** record_success and record_failure: only that proxy's breaker moves. */
    method RecordOutcome(id: Id, ok: bool, now: Time, ghost h: Health)
      requires Valid()
      modifies Breakers()
      ensures Valid()
      ensures forall i :: IsFirst(entries, i, id) ==>
        entries[i].breaker.View() ==
        (if ok then Success(config, old(entries[i].breaker.View()))
         else Failure(config, old(entries[i].breaker.View()), now))
      ensures forall i, j ::
        IsFirst(entries, i, id) && 0 <= j < |entries| && entries[j].breaker != entries[i].breaker ==>
        entries[j].breaker.View() == old(entries[j].breaker.View())
      ensures !HasId(entries, id) ==>
        forall j :: 0 <= j < |entries| ==> entries[j].breaker.View() == old(entries[j].breaker.View())
      ensures old(Aligned(entries) && Represents(entries, h)) ==>
        Represents(entries, OutcomeHealth(config, h, id, ok, now))
    {
      var found := Find(id);
      if found.Some? {
        if ok {
          found.value.RecordSuccess();
        } else {
          found.value.RecordFailure(now);
        }
      }
    }

    /** The selection loop over a fixed list of entries whose breakers stand at `was`. */
    method PollEach(list: seq<Entry>, now: Time, ghost was: map<Breaker, Inner>)
      returns (healthy: seq<Entry>, ghost modes: seq<Mode>)
      requires forall i :: 0 <= i < |list| ==> list[i].breaker in was && list[i].breaker.config == config
      requires Tracks(config, was, {}, now)
      modifies was.Keys
      ensures |modes| == |list| && healthy == NotOpen(list, modes)
      ensures forall i :: 0 <= i < |list| ==> modes[i] == Poll(config, was[list[i].breaker], now).mode
      ensures forall i :: 0 <= i < |list| ==> list[i].breaker.View() == Poll(config, was[list[i].breaker], now)
    {
      healthy, modes := [], [];
      ghost var polled: set<Breaker> := {};
      var i := 0;
      while i < |list|
        invariant 0 <= i <= |list| && |modes| == i && Tracks(config, was, polled, now)
        invariant Visited(config, list, was, polled, modes, now)
        invariant healthy == NotOpen(list[..i], modes)
      {
        var e := list[i];
        var m := PollOne(e.breaker, config, now, was, polled);
        VisitedSnoc(config, list, was, polled, modes, now, m);
        NotOpenSnoc(list, i, modes, m);
        polled, modes := polled + {e.breaker}, modes + [m];
        if m != Open {
          healthy := healthy + [e];
        }
        i := i + 1;
      }
      assert list[..i] == list;
    }

    /** Returns, in order, the entries whose breaker is not open at `now`. */
    method SelectHealthy(now: Time, ghost h: Health) returns (healthy: seq<Entry>, ghost modes: seq<Mode>)
      requires Valid()
      modifies Breakers()
      ensures Valid() && |modes| == |entries| && healthy == NotOpen(entries, modes)
      ensures forall i :: 0 <= i < |entries| ==> modes[i] == entries[i].breaker.View().mode
      ensures forall i :: 0 <= i < |entries| ==>
        entries[i].breaker.View() == Poll(config, old(entries[i].breaker.View()), now)
      ensures old(Represents(entries, h)) ==> Represents(entries, SelectHealth(config, h, now))
    {
      ghost var was := map b | b in Breakers() :: b.View();
      healthy, modes := PollEach(entries, now, was);
      if old(Represents(entries, h)) {
        PolledHealth(entries, config, h, now, was);
      }
    }

    /** One operation of a run: the real router follows the abstract one. */
    method Perform(op: Op, ghost h: Health)
      requires Valid() && Aligned(entries) && Represents(entries, h) && Allowed(op)
      modifies this, Breakers()
      ensures Valid() && fresh(Breakers() - old(Breakers()))
      ensures Aligned(entries) && Represents(entries, ApplyOp(config, h, op))
    {
      match op {
        case Refresh(proxies) => RefreshFrom(proxies, h);
        case Outcome(id, ok, at) => RecordOutcome(id, ok, at, h);
        case Select(at) => var _, _ := SelectHealthy(at, h);
      }
    }
  }

  /** The breakers in `polled` have been polled since they stood at `was`, the others are untouched. */
  ghost predicate Tracks(config: Config, was: map<Breaker, Inner>, polled: set<Breaker>, now: Time)
    reads was.Keys
  {
    forall b :: b in was ==> (b.View() == if b in polled then Poll(config, was[b], now) else was[b])
  }

  lemma PolledHealth(list: seq<Entry>, config: Config, h: Health, now: Time, was: map<Breaker, Inner>)
    requires forall i :: 0 <= i < |list| ==>
               && list[i].breaker in was && list[i].record.id in h
               && h[list[i].record.id] == was[list[i].breaker]
    requires forall i :: 0 <= i < |list| ==> list[i].breaker.View() == Poll(config, was[list[i].breaker], now)
    requires forall id :: id in h ==> HasId(list, id)
    ensures Represents(list, SelectHealth(config, h, now))
  {
  }

  /** The entries that have a mode so far were polled and found in that mode. */
  ghost predicate Visited(config: Config, list: seq<Entry>, was: map<Breaker, Inner>, polled: set<Breaker>,
                          modes: seq<Mode>, now: Time)
  {
    && |modes| <= |list|
    && (forall j :: 0 <= j < |modes| ==>
          && list[j].breaker in was && list[j].breaker in polled
          && modes[j] == Poll(config, was[list[j].breaker], now).mode)
  }

  lemma VisitedSnoc(config: Config, list: seq<Entry>, was: map<Breaker, Inner>, polled: set<Breaker>,
                    modes: seq<Mode>, now: Time, m: Mode)
    requires Visited(config, list, was, polled, modes, now) && |modes| < |list| && list[|modes|].breaker in was
    requires m == Poll(config, was[list[|modes|].breaker], now).mode
    ensures Visited(config, list, was, polled + {list[|modes|].breaker}, modes + [m], now)
  {
  }

  method PollOne(b: Breaker, config: Config, now: Time, ghost was: map<Breaker, Inner>, ghost polled: set<Breaker>)
    returns (m: Mode)
    requires b.config == config && b in was && Tracks(config, was, polled, now)
    modifies b
    ensures Tracks(config, was, polled + {b}, now) && m == Poll(config, was[b], now).mode
  {
    PollTwice(config, was[b], now);
    m := b.State(now);
  }

  /**
   * The refinement over whole runs: whatever is done to a new router, its
   * entries carry the breakers of the abstract one, no two ids sharing any.
   */
  method RunAll(config: Config, ops: seq<Op>) returns (router: Router)
    requires forall i :: 0 <= i < |ops| ==> Allowed(ops[i])
    ensures fresh(router) && Aligned(router.entries) && Represents(router.entries, ExecOps(config, ops))
  {
    router := new Router(config);
    for k := 0 to |ops|
      invariant fresh(router) && fresh(router.Breakers()) && router.config == config && router.Valid()
      invariant Aligned(router.entries) && Represents(router.entries, ExecOps(config, ops[..k]))
    {
      assert ops[..k + 1][..k] == ops[..k];
      router.Perform(ops[k], ExecOps(config, ops[..k]));
    }
    assert ops[..|ops|] == ops;
  }

  lemma PollTwice(cfg: Config, b: Inner, now: Time)
    ensures Poll(cfg, Poll(cfg, b, now), now) == Poll(cfg, b, now)
  {
  }

  lemma {:induction false} NotOpenSnoc(entries: seq<Entry>, i: nat, modes: seq<Mode>, m: Mode)
    requires i < |entries| && |modes| == i
    ensures NotOpen(entries[..i + 1], modes + [m]) ==
            NotOpen(entries[..i], modes) + if m != Open then [entries[i]] else []
  {
    assert entries[..i + 1][..i] == entries[..i] && (modes + [m])[..i] == modes;
  }

  /** `entries` carries exactly these records, in order. */
  ghost predicate Lists(entries: seq<Entry>, records: seq<Record>) {
    |entries| == |records| && forall n :: 0 <= n < |entries| ==> entries[n].record == records[n]
  }

  lemma {:induction false} KeptStep(all: seq<Record>, rest: seq<Record>, kept: seq<Record>)
    requires rest != [] && all == kept + Kept(rest)
    ensures all == (if rest[0].deleted then kept else kept + [rest[0]]) + Kept(rest[1..])
  {
    var tail := Kept(rest[1..]);
    if rest[0].deleted {
      assert Kept(rest) == [] + tail == tail;
    } else {
      assert Kept(rest) == [rest[0]] + tail;
      assert kept + ([rest[0]] + tail) == kept + [rest[0]] + tail;
    }
  }

  /** Some entry of that id has that breaker. */
  ghost predicate Provides(was: seq<Entry>, id: Id, b: Breaker) {
    exists i :: 0 <= i < |was| && was[i].record.id == id && was[i].breaker == b
  }

  lemma {:induction false} IndexIsEntries(was: seq<Entry>, breakers: map<Id, Breaker>)
    requires forall id :: LastOf(was, id) == if id in breakers then Some(breakers[id]) else None
    ensures forall id :: id in breakers ==> Provides(was, id, breakers[id])
    ensures forall i :: 0 <= i < |was| ==> was[i].record.id in breakers
  {
    forall id | id in breakers
      ensures Provides(was, id, breakers[id])
    {
      LastOfIsEntry(was, id);
    }
    forall i | 0 <= i < |was|
      ensures was[i].record.id in breakers
    {
      LastOfIsEntry(was, was[i].record.id);
    }
  }

  lemma {:induction false} IndexCarries(was: seq<Entry>, breakers: map<Id, Breaker>, next: seq<Entry>)
    requires forall id :: LastOf(was, id) == if id in breakers then Some(breakers[id]) else None
    requires forall n :: 0 <= n < |next| && next[n].record.id in breakers ==>
               next[n].breaker == breakers[next[n].record.id]
    ensures Carries(was, next)
    ensures forall n :: 0 <= n < |next| ==> (IsNew(was, next[n]) <==> next[n].record.id !in breakers)
  {
  }

  lemma RebuiltAligned(was: seq<Entry>, breakers: map<Id, Breaker>, next: seq<Entry>, kept: seq<Record>)
    requires Aligned(was) && DistinctIds(kept) && Lists(next, kept)
    requires forall id :: id in breakers ==> Provides(was, id, breakers[id])
    requires forall n :: 0 <= n < |next| && next[n].record.id in breakers ==>
               next[n].breaker == breakers[next[n].record.id]
    requires forall m, n :: 0 <= m < n < |next| && next[m].breaker == next[n].breaker ==> next[m].record.id in breakers
    requires forall n, i :: 0 <= n < |next| && next[n].record.id !in breakers && 0 <= i < |was| ==>
               next[n].breaker != was[i].breaker
    ensures Aligned(next)
  {
    forall m, n | 0 <= m < n < |next|
      ensures next[m].record.id != next[n].record.id && next[m].breaker != next[n].breaker
    {
      if next[m].record.id in breakers {
        var i :| 0 <= i < |was| && was[i].record.id == next[m].record.id && was[i].breaker == next[m].breaker;
        if next[n].record.id in breakers {
          var j :| 0 <= j < |was| && was[j].record.id == next[n].record.id && was[j].breaker == next[n].breaker;
        }
      }
    }
  }

  lemma KnownHealth(was: seq<Entry>, breakers: map<Id, Breaker>, next: seq<Entry>, h: Health)
    requires Represents(was, h)
    requires forall id :: id in breakers ==> Provides(was, id, breakers[id])
    requires forall i :: 0 <= i < |was| ==> was[i].record.id in breakers
    requires forall n :: 0 <= n < |next| && next[n].record.id in breakers ==>
               next[n].breaker == breakers[next[n].record.id]
    requires forall n :: 0 <= n < |next| && next[n].record.id !in breakers ==> next[n].breaker.View() == FRESH
    ensures forall n :: 0 <= n < |next| ==>
              next[n].breaker.View() == if next[n].record.id in h then h[next[n].record.id] else FRESH
  {
  }

  lemma RebuiltHealth(next: seq<Entry>, h: Health, kept: seq<Record>)
    requires Lists(next, kept)
    requires forall n :: 0 <= n < |next| ==>
               next[n].breaker.View() == if next[n].record.id in h then h[next[n].record.id] else FRESH
    ensures Represents(next, RefreshHealth(h, kept))
  {
    var h' := RefreshHealth(h, kept);
    forall n | 0 <= n < |next|
      ensures next[n].record.id in h' && h'[next[n].record.id] == next[n].breaker.View()
    {
      assert kept[n] in kept;
    }
    forall id | id in h'
      ensures HasId(next, id)
    {
      var r :| r in kept && r.id == id;
      var i :| 0 <= i < |kept| && kept[i] == r;
      assert next[i].record.id == id;
    }
  }
}
