// Connection watching between two DERP servers: the client and watcher tables
// of the watched server, the bounded notification channel, and the mesh link
// that replays notifications onto its own server's forwarding table
// (crates/coder-connectivity/src/derp.rs).
module DerpWatch {
  import opened Common

  type Key = nat
  type Channel = nat

  /** Capacity of every notification channel. */
  const CLIENT_CHANNEL_CAPACITY := 64

  datatype Note = Present(key: Key) | Gone(key: Key)

  /** The tables of a server; `queues` holds what each channel has not yet delivered. */
  datatype Tables = Tables(clients: set<Key>, watchers: map<Key, Channel>, queues: map<Channel, seq<Note>>)

  // ---------------------------------------------------------- server operations

  /** `try_send`: a full channel drops the note. */
  function TrySend(q: seq<Note>, n: Note): seq<Note> {
    if |q| < CLIENT_CHANNEL_CAPACITY then q + [n] else q
  }

  function Notify(s: Tables, n: Note): Tables {
    s.(queues := map c | c in s.queues :: if c in s.watchers.Values then TrySend(s.queues[c], n) else s.queues[c])
  }

  // The critical sections of the server's operations.

  function AddClient(s: Tables, key: Key): Tables {
    s.(clients := s.clients + {key})
  }

  function DropClient(s: Tables, key: Key): Tables {
    s.(clients := s.clients - {key})
  }

  function DropWatcher(s: Tables, key: Key): Tables {
    s.(watchers := s.watchers - {key})
  }

  function OpenChannel(s: Tables, c: Channel, order: seq<Key>): Tables {
    s.(queues := s.queues[c := Snapshot([], order)])
  }

  function Register(s: Tables, watcher: Key, c: Channel): Tables {
    s.(watchers := s.watchers[watcher := c])
  }

  // The operations, nothing coming between their sections.

  function Accept(s: Tables, key: Key): Tables {
    Notify(AddClient(s, key), Present(key))
  }

  function Remove(s: Tables, key: Key): Tables {
    Notify(DropWatcher(DropClient(s, key), key), Gone(key))
  }

  /** Sending the snapshot, the clients being listed in the table's own order. */
  function Snapshot(q: seq<Note>, order: seq<Key>): seq<Note>
    decreases |order|
  {
    if order == [] then q else Snapshot(TrySend(q, Present(order[0])), order[1..])
  }

  function Watch(s: Tables, watcher: Key, c: Channel, order: seq<Key>): Tables {
    Register(OpenChannel(s, c, order), watcher, c)
  }

  /** `order` lists each element of `keys` once. */
  ghost predicate Lists(order: seq<Key>, keys: set<Key>) {
    && (forall i, j :: 0 <= i < j < |order| ==> order[i] != order[j])
    && (forall k :: k in keys <==> k in order)
  }

  /** Every watcher's channel has taken the note if there was room for it, and no other channel has changed. */
  ghost predicate Told(watchers: map<Key, Channel>, before: map<Channel, seq<Note>>,
                       after: map<Channel, seq<Note>>, n: Note)
  {
    && after.Keys == before.Keys
    && (forall w :: w in watchers && watchers[w] in before ==>
          (after[watchers[w]] == if |before[watchers[w]]| < 64 then before[watchers[w]] + [n] else before[watchers[w]]))
    && (forall c :: c in before && c !in watchers.Values ==> after[c] == before[c])
  }

  class DerpServer {
    var clients: set<Key>
    var watchers: map<Key, Channel>
    var queues: map<Channel, seq<Note>>
    var nextChannel: Channel

    ghost function View(): Tables
      reads this
    {
      Tables(clients, watchers, queues)
    }

    /** Every watcher has a channel of its own. */
    ghost predicate Valid()
      reads this
    {
      && (forall w :: w in watchers ==> watchers[w] in queues)
      && (forall v, w :: v in watchers && w in watchers && watchers[v] == watchers[w] ==> v == w)
      && (forall c :: c in queues ==> c < nextChannel)
    }

    constructor ()
      ensures Valid() && View() == Tables({}, map[], map[])
    {
      clients, watchers, queues, nextChannel := {}, map[], map[], 0;
    }

    method NotifyWatchers(n: Note)
      requires Valid()
      modifies this`queues
      ensures Valid() && View() == Notify(old(View()), n)
      ensures Told(watchers, old(queues), queues, n)
    {
      ghost var before := queues;
      var todo := watchers.Keys;
      while todo != {}
        invariant todo <= watchers.Keys && queues.Keys == before.Keys
        invariant forall w :: w in watchers ==>
          queues[watchers[w]] == if w in todo then before[watchers[w]] else TrySend(before[watchers[w]], n)
        invariant forall c :: c in before && c !in watchers.Values ==> queues[c] == before[c]
      {
        var w :| w in todo;
        queues := queues[watchers[w] := TrySend(queues[watchers[w]], n)];
        todo := todo - {w};
      }
    }

    method AcceptClient(key: Key)
      requires Valid()
      modifies this`clients, this`queues
      ensures Valid() && View() == Accept(old(View()), key)
      ensures clients == old(clients) + {key} && Told(watchers, old(queues), queues, Present(key))
    {
      clients := clients + {key};
      NotifyWatchers(Present(key));
    }

    method RemoveClient(key: Key)
      requires Valid()
      modifies this`clients, this`watchers, this`queues
      ensures Valid() && View() == Remove(old(View()), key)
      ensures clients == old(clients) - {key} && watchers == old(watchers) - {key}
      ensures Told(watchers, old(queues), queues, Gone(key))
      ensures key in old(watchers) ==> queues[old(watchers)[key]] == old(queues)[old(watchers)[key]]
    {
      clients := clients - {key};
      watchers := watchers - {key};
      NotifyWatchers(Gone(key));
    }

    method WatchConns(watcher: Key) returns (c: Channel, ghost order: seq<Key>)
      requires Valid()
      modifies this`watchers, this`queues, this`nextChannel
      ensures Valid() && Lists(order, clients) && c !in old(queues)
      ensures View() == Watch(old(View()), watcher, c, order)
      ensures watchers == old(watchers)[watcher := c] && queues.Keys == old(queues).Keys + {c}
      ensures |queues[c]| == Min(|order|, 64) && forall i :: 0 <= i < |queues[c]| ==> queues[c][i] == Present(order[i])
      ensures forall d :: d in old(queues) ==> queues[d] == old(queues)[d]
    {
      c := nextChannel;
      nextChannel := nextChannel + 1;
      order := [];
      var q: seq<Note> := [];
      var todo := clients;
      while todo != {}
        modifies {}
        invariant todo <= clients && Lists(order, clients - todo) && q == Snapshot([], order)
      {
        var k :| k in todo;
        SnapshotSnoc([], order, k);
        q := TrySend(q, Present(k));
        order := order + [k];
        todo := todo - {k};
      }
      SnapshotIs(order);
      queues := queues[c := q];
      watchers := watchers[watcher := c];
    }
  }

  lemma {:induction false} SnapshotSnoc(q: seq<Note>, order: seq<Key>, k: Key)
    ensures Snapshot(q, order + [k]) == TrySend(Snapshot(q, order), Present(k))
    decreases |order|
  {
    if order == [] {
      assert order + [k] == [k] && [k][1..] == [];
    } else {
      assert (order + [k])[1..] == order[1..] + [k];
      SnapshotSnoc(TrySend(q, Present(order[0])), order[1..], k);
    }
  }

  // ------------------------------------------------------------- one mesh link

  /**
   * The link's side: notes that left the channel and are on their way, its
   * `registered_peers`, and the keys of its own server's forwarding table.
   */
  datatype Link = Link(watcher: Key, channel: Channel, onTheWay: seq<Note>, peers: seq<Key>, forwarders: set<Key>)

  type CallId = nat

  /** A server operation between two of its critical sections. */
  datatype Call =
    | Announcing(note: Note)                    // the table has changed, the watchers are not yet told
    | Leaving(key: Key)                         // the client is gone, its watcher entry not yet
    | Opening(watcher: Key, channel: Channel)   // the snapshot is taken, the watcher not yet registered

  datatype System = System(tables: Tables, link: Link, calls: map<CallId, Call>)

  function Start(watcher: Key, channel: Channel): System {
    System(Tables({}, map[], map[]), Link(watcher, channel, [], [], {}), map[])
  }

  datatype Step =
    | Connect(call: CallId, key: Key)
    | Disconnect(call: CallId, key: Key)
    | Subscribe(call: CallId, watcher: Key, channel: Channel, order: seq<Key>)
    | Go(call: CallId)                          // a call under way enters its next section
    | Transmit                                  // the next note leaves the channel
    | Handle                                    // the link processes the next note

  function ApplyNote(keys: set<Key>, n: Note): set<Key> {
    match n
    case Present(k) => keys + {k}
    case Gone(k) => keys - {k}
  }

  function HandleNote(l: Link, n: Note): Link {
    match n
    case Present(k) => l.(forwarders := l.forwarders + {k}, peers := l.peers + [k])
    case Gone(k) => l.(forwarders := l.forwarders - {k}, peers := Without(l.peers, k))
  }

  /** The subscription of the link itself is between its two sections. */
  ghost predicate BeingOpened(s: System) {
    exists id :: id in s.calls && s.calls[id] == Opening(s.link.watcher, s.link.channel)
  }

  ghost predicate Enabled(s: System, step: Step) {
    var t, l := s.tables, s.link;
    match step
    case Connect(id, _) => id !in s.calls
    case Disconnect(id, _) => id !in s.calls
    case Subscribe(id, w, c, order) =>
      id !in s.calls && c !in t.queues && Lists(order, t.clients) && (c == l.channel ==> w == l.watcher)
    case Go(id) => id in s.calls
    case Transmit => l.channel in t.queues && t.queues[l.channel] != [] && !BeingOpened(s)
    case Handle => l.onTheWay != []
  }

  function GoOn(s: System, id: CallId): System
    requires id in s.calls
  {
    match s.calls[id]
    case Announcing(n) => s.(tables := Notify(s.tables, n), calls := s.calls - {id})
    case Leaving(k) => s.(tables := DropWatcher(s.tables, k), calls := s.calls[id := Announcing(Gone(k))])
    case Opening(w, c) => s.(tables := Register(s.tables, w, c), calls := s.calls - {id})
  }

  ghost function Apply(s: System, step: Step): System
    requires Enabled(s, step)
  {
    var t, l := s.tables, s.link;
    match step
    case Connect(id, k) => s.(tables := AddClient(t, k), calls := s.calls[id := Announcing(Present(k))])
    case Disconnect(id, k) => s.(tables := DropClient(t, k), calls := s.calls[id := Leaving(k)])
    case Subscribe(id, w, c, order) => s.(tables := OpenChannel(t, c, order), calls := s.calls[id := Opening(w, c)])
    case Go(id) => GoOn(s, id)
    case Transmit =>
      var q := t.queues[l.channel];
      s.(tables := t.(queues := t.queues[l.channel := q[1..]]), link := l.(onTheWay := l.onTheWay + [q[0]]))
    case Handle => s.(link := HandleNote(l.(onTheWay := l.onTheWay[1..]), l.onTheWay[0]))
  }

  ghost predicate Registered(s: System) {
    && s.link.watcher in s.tables.watchers && s.tables.watchers[s.link.watcher] == s.link.channel
    && s.link.channel in s.tables.queues
  }

  function Replay(notes: seq<Note>, keys: set<Key>): set<Key>
    decreases |notes|
  {
    if notes == [] then keys else Replay(notes[1..], ApplyNote(keys, notes[0]))
  }

  /** Everything not yet handled, oldest first. */
  ghost function InFlight(s: System): seq<Note>
    requires Registered(s)
  {
    s.link.onTheWay + s.tables.queues[s.link.channel]
  }

  /** The keys the link will forward once the notes in flight are handled. */
  ghost function Shown(s: System): set<Key>
    requires Registered(s)
  {
    Replay(InFlight(s), s.link.forwarders)
  }

  /** The key whose announcement a call still owes. */
  function Owed(c: Call): Option<Key> {
    match c
    case Announcing(n) => Some(n.key)
    case Leaving(k) => Some(k)
    case Opening(_, _) => None
  }

  /** Some call other than `but` still owes an announcement of `k`. */
  ghost predicate OwedElsewhere(s: System, but: CallId, k: Key) {
    exists id :: id in s.calls && id != but && Owed(s.calls[id]) == Some(k)
  }

  ghost predicate Pending(s: System, k: Key) {
    exists id :: id in s.calls && Owed(s.calls[id]) == Some(k)
  }

  /**
   * Once the notes in flight are handled, the link forwards to exactly the
   * watched server's clients, save those whose announcement is still to come.
   */
  ghost predicate Synced(s: System)
    requires Registered(s)
  {
    forall k :: !Pending(s, k) ==> (k in Shown(s) <==> k in s.tables.clients)
  }

  /**
   * The exact condition. It concerns two steps. The last announcement of a key
   * must be true and find room in the channel, unless what the link is going
   * to believe is true anyway. And a subscription must register with a snapshot
   * that is complete and has not gone stale.
   */
  ghost predicate Fits(s: System, step: Step) {
    var t, l := s.tables, s.link;
    step.Go? && step.call in s.calls ==>
      match s.calls[step.call]
      case Announcing(n) =>
        Registered(s) && !OwedElsewhere(s, step.call, n.key) ==>
          if |t.queues[l.channel]| < CLIENT_CHANNEL_CAPACITY then n.Present? <==> n.key in t.clients
          else n.key in Shown(s) <==> n.key in t.clients
      case Leaving(_) => true
      case Opening(_, c) =>
        c == l.channel && c in t.queues ==>
          forall k :: !Pending(s, k) ==> (Present(k) in t.queues[c] <==> k in t.clients)
  }

  /** Nothing but the snapshot has happened to the link's channel. */
  ghost predicate Untouched(s: System) {
    var t, l := s.tables, s.link;
    && l.channel in t.queues && l.channel !in t.watchers.Values && l.onTheWay == [] && l.forwarders == {}
    && (forall i :: 0 <= i < |t.queues[l.channel]| ==> t.queues[l.channel][i].Present?)
  }

  /** Call `id` is the subscription of the link's channel. */
  ghost predicate OpensOwn(s: System, id: CallId) {
    id in s.calls && s.calls[id].Opening? && s.calls[id].channel == s.link.channel
  }

  /** Facts that hold in every state, synced or not. */
  ghost predicate Inv(s: System) {
    var t, l := s.tables, s.link;
    && (forall w :: w in t.watchers ==> t.watchers[w] in t.queues)
    && (forall w :: w in t.watchers && t.watchers[w] == l.channel ==> w == l.watcher)
    && (l.channel !in t.queues ==> l.onTheWay == [] && l.forwarders == {})
    && (forall k :: k in l.forwarders <==> k in l.peers)
    && (forall id :: id in s.calls && s.calls[id].Opening? ==> s.calls[id].channel in t.queues)
    && (forall id :: OpensOwn(s, id) ==> s.calls[id].watcher == l.watcher && Untouched(s))
    && (forall i, j :: OpensOwn(s, i) && OpensOwn(s, j) ==> i == j)
  }

  // ----------------------------------------------------------------- the proof

  lemma {:induction false} ReplaySnoc(notes: seq<Note>, keys: set<Key>, n: Note)
    ensures Replay(notes + [n], keys) == ApplyNote(Replay(notes, keys), n)
    decreases |notes|
  {
    if notes == [] {
      assert notes + [n] == [n] && [n][1..] == [];
    } else {
      assert (notes + [n])[1..] == notes[1..] + [n];
      ReplaySnoc(notes[1..], ApplyNote(keys, notes[0]), n);
    }
  }

  function Announce(order: seq<Key>): seq<Note> {
    seq(|order|, i requires 0 <= i < |order| => Present(order[i]))
  }

  /** The snapshot that gets into an empty channel: the first 64 clients of the listing. */
  lemma {:induction false} SnapshotIs(order: seq<Key>)
    ensures Snapshot([], order) == Announce(order[..Min(|order|, CLIENT_CHANNEL_CAPACITY)])
    decreases |order|
  {
    if order != [] {
      var shorter, k := order[..|order| - 1], order[|order| - 1];
      SnapshotIs(shorter);
      SnapshotSnoc([], shorter, k);
      assert shorter + [k] == order;
      var n, m := Min(|order|, CLIENT_CHANNEL_CAPACITY), Min(|shorter|, CLIENT_CHANNEL_CAPACITY);
      assert order[..m] == shorter[..m];
      if |order| <= CLIENT_CHANNEL_CAPACITY {
        assert Announce(order[..n]) == Announce(shorter[..m]) + [Present(k)];
      }
    }
  }

  /** Presences alone show exactly the keys they name. */
  lemma {:induction false} ReplayPresences(notes: seq<Note>, k: Key)
    requires forall i :: 0 <= i < |notes| ==> notes[i].Present?
    ensures k in Replay(notes, {}) <==> Present(k) in notes
    decreases |notes|
  {
    if notes != [] {
      var shorter, last := notes[..|notes| - 1], notes[|notes| - 1];
      ReplayPresences(shorter, k);
      ReplaySnoc(shorter, {}, last);
      assert notes == shorter + [last];
    }
  }

  lemma HandleKeepsPeers(l: Link, n: Note)
    requires forall k :: k in l.forwarders <==> k in l.peers
    ensures
      var m := HandleNote(l, n);
      forall k :: k in m.forwarders <==> k in m.peers
  {
    if n.Gone? {
      forall k {
        WithoutHas(l.peers, n.key, k);
      }
    }
  }

  lemma OpenKeepsInv(s: System, id: CallId, w: Key, c: Channel, order: seq<Key>)
    requires Inv(s) && Enabled(s, Subscribe(id, w, c, order))
    ensures Inv(Apply(s, Subscribe(id, w, c, order)))
  {
    var u := Apply(s, Subscribe(id, w, c, order));
    SnapshotIs(order);
    assert forall i :: OpensOwn(u, i) ==> i == id || OpensOwn(s, i);
  }

  lemma GoKeepsInv(s: System, id: CallId)
    requires Inv(s) && id in s.calls
    ensures Inv(GoOn(s, id))
  {
    var u := GoOn(s, id);
    forall i | OpensOwn(u, i)
      ensures OpensOwn(s, i) && !OpensOwn(s, id)
    {
      assert OpensOwn(s, i) && i in u.calls;
    }
    assert s.calls[id].Announcing? ==> u.tables.queues.Keys == s.tables.queues.Keys;
    if s.calls[id].Announcing? && Untouched(s) {
      assert u.tables.queues[s.link.channel] == s.tables.queues[s.link.channel];
      assert Untouched(u);
    }
  }

  lemma InvKept(s: System, step: Step)
    requires Inv(s) && Enabled(s, step)
    ensures Inv(Apply(s, step))
  {
    assert !step.Subscribe? ==> forall i :: OpensOwn(Apply(s, step), i) ==> OpensOwn(s, i);
    match step
    case Subscribe(id, w, c, order) => OpenKeepsInv(s, id, w, c, order);
    case Go(id) => GoKeepsInv(s, id);
    case Handle => HandleKeepsPeers(s.link.(onTheWay := s.link.onTheWay[1..]), s.link.onTheWay[0]);
    case _ =>
  }

  /** With nothing coming between their sections, the calls are the server's operations. */
  lemma SectionsCompose(s: System, id: CallId, k: Key, c: Channel, order: seq<Key>)
    requires id !in s.calls && c !in s.tables.queues && Lists(order, s.tables.clients)
    requires c == s.link.channel ==> k == s.link.watcher
    ensures GoOn(Apply(s, Connect(id, k)), id) == s.(tables := Accept(s.tables, k))
    ensures GoOn(GoOn(Apply(s, Disconnect(id, k)), id), id) == s.(tables := Remove(s.tables, k))
    ensures GoOn(Apply(s, Subscribe(id, k, c, order)), id) == s.(tables := Watch(s.tables, k, c, order))
  {
    assert s.calls[id := Announcing(Present(k))] - {id} == s.calls;
    assert s.calls[id := Opening(k, c)] - {id} == s.calls;
    assert s.calls[id := Leaving(k)][id := Announcing(Gone(k))] - {id} == s.calls;
  }

  /** A step that shows the link nothing new and changes only clients whose announcement is owed. */
  lemma SyncFrame(s: System, u: System)
    requires Registered(s) && Registered(u) && Synced(s) && Shown(u) == Shown(s)
    requires forall k :: !Pending(u, k) ==> !Pending(s, k) && (k in u.tables.clients <==> k in s.tables.clients)
    ensures Synced(u)
  {
  }

  lemma PendingStays(s: System, u: System, id: CallId, k: Key)
    requires Pending(s, k)
    requires forall j :: j in s.calls && j != id ==> j in u.calls && u.calls[j] == s.calls[j]
    requires id in s.calls ==> id in u.calls && Owed(u.calls[id]) == Owed(s.calls[id])
    ensures Pending(u, k)
  {
    var j :| j in s.calls && Owed(s.calls[j]) == Some(k);
    assert j in u.calls && Owed(u.calls[j]) == Some(k);
  }

  lemma BeginKeepsSync(s: System, u: System, id: CallId, k: Key)
    requires Registered(s) && Synced(s) && id !in s.calls && id in u.calls && u.link == s.link
    requires u.calls == s.calls[id := u.calls[id]] && Owed(u.calls[id]) == Some(k)
    requires u.tables.watchers == s.tables.watchers && u.tables.queues == s.tables.queues
    requires forall j :: j != k ==> (j in u.tables.clients <==> j in s.tables.clients)
    ensures Registered(u) && Synced(u)
  {
    assert Pending(u, k);
    forall j | !Pending(u, j)
      ensures !Pending(s, j) && j != k
    {
      if Pending(s, j) {
        PendingStays(s, u, id, j);
      }
    }
    SyncFrame(s, u);
  }

  lemma SubscribeKeepsSync(s: System, u: System, id: CallId)
    requires Registered(s) && Synced(s) && Registered(u) && id !in s.calls && id in u.calls && u.link == s.link
    requires u.calls == s.calls[id := u.calls[id]] && u.tables.clients == s.tables.clients
    requires u.tables.queues[s.link.channel] == s.tables.queues[s.link.channel]
    ensures Synced(u)
  {
    forall j | !Pending(u, j)
      ensures !Pending(s, j)
    {
      if Pending(s, j) {
        PendingStays(s, u, id, j);
      }
    }
    SyncFrame(s, u);
  }

  lemma LeavingKeepsSync(s: System, u: System, id: CallId)
    requires Registered(s) && Synced(s) && id in s.calls && s.calls[id].Leaving? && u == GoOn(s, id) && Registered(u)
    ensures Synced(u)
  {
    forall j | !Pending(u, j)
      ensures !Pending(s, j)
    {
      if Pending(s, j) {
        PendingStays(s, u, id, j);
      }
    }
    SyncFrame(s, u);
  }

  /** Once an announcement is made, its key is owed only by others; every other key as before. */
  lemma PaidOff(s: System, u: System, id: CallId, k: Key)
    requires id in s.calls && u.calls == s.calls - {id}
    ensures Pending(u, k) <==> OwedElsewhere(s, id, k)
    ensures Owed(s.calls[id]) != Some(k) ==> (Pending(u, k) <==> Pending(s, k))
  {
    if Pending(u, k) {
      var j :| j in u.calls && Owed(u.calls[j]) == Some(k);
      assert j in s.calls && s.calls[j] == u.calls[j];
    }
    if OwedElsewhere(s, id, k) {
      var j :| j in s.calls && j != id && Owed(s.calls[j]) == Some(k);
      assert j in u.calls && u.calls[j] == s.calls[j];
    }
  }

  /** What the link is shown after a note was offered to its channel. */
  lemma ShownAfter(s: System, u: System, n: Note)
    requires Registered(s) && Registered(u) && u.link == s.link
    requires u.tables.queues[s.link.channel] == TrySend(s.tables.queues[s.link.channel], n)
    ensures Shown(u) ==
            if |s.tables.queues[s.link.channel]| < CLIENT_CHANNEL_CAPACITY then ApplyNote(Shown(s), n) else Shown(s)
  {
    var q := s.tables.queues[s.link.channel];
    if |q| < CLIENT_CHANNEL_CAPACITY {
      ReplaySnoc(s.link.onTheWay + q, s.link.forwarders, n);
      assert s.link.onTheWay + (q + [n]) == s.link.onTheWay + q + [n];
    }
  }

  /** An announcement leaves the link in step exactly when it fits. */
  lemma AnnounceIff(s: System, id: CallId)
    requires Inv(s) && Registered(s) && Synced(s) && id in s.calls && s.calls[id].Announcing?
    ensures Registered(GoOn(s, id)) && (Synced(GoOn(s, id)) <==> Fits(s, Go(id)))
  {
    var u, n := GoOn(s, id), s.calls[id].note;
    assert s.link.channel in s.tables.watchers.Values;
    ShownAfter(s, u, n);
    forall k {
      PaidOff(s, u, id, k);
    }
    forall k | k != n.key
      ensures !Pending(u, k) ==> (k in Shown(u) <==> k in u.tables.clients)
    {
    }
  }

  /** A subscription starts in step exactly when its snapshot is complete and current. */
  lemma RegisterIff(s: System, id: CallId)
    requires Inv(s) && id in s.calls && s.calls[id] == Opening(s.link.watcher, s.link.channel)
    ensures Registered(GoOn(s, id)) && (Synced(GoOn(s, id)) <==> Fits(s, Go(id)))
  {
    var u, q := GoOn(s, id), s.tables.queues[s.link.channel];
    assert InFlight(u) == [] + q == q;
    forall k
      ensures k in Shown(u) <==> Present(k) in q
      ensures Pending(u, k) <==> Pending(s, k)
    {
      ReplayPresences(q, k);
      PaidOff(s, u, id, k);
    }
  }

  /**
   * A client that is accepted between the two sections of a subscription is
   * never announced: its one note goes to the watchers registered at the time.
   */
  lemma MissedClient(s: System, subscription: CallId, accept: CallId, k: Key)
    requires Inv(s) && subscription in s.calls
    requires s.calls[subscription] == Opening(s.link.watcher, s.link.channel)
    requires accept !in s.calls && !Pending(s, k) && Present(k) !in s.tables.queues[s.link.channel]
    ensures
      var s1 := Apply(s, Connect(accept, k));
      var u := GoOn(GoOn(s1, accept), subscription);
      Registered(u) && !Pending(u, k) && k in u.tables.clients && k !in Shown(u)
  {
    var s1 := Apply(s, Connect(accept, k));
    var s2 := GoOn(s1, accept);
    InvKept(s, Connect(accept, k));
    GoKeepsInv(s1, accept);
    assert OpensOwn(s1, subscription) && OpensOwn(s2, subscription);
    var q := s2.tables.queues[s.link.channel];
    assert q == s1.tables.queues[s.link.channel] == s.tables.queues[s.link.channel];
    assert s2.calls == s.calls;
    var u := GoOn(s2, subscription);
    assert InFlight(u) == [] + q == q;
    ReplayPresences(q, k);
    PaidOff(s2, u, subscription, k);
  }

  /** The registration of another channel does not concern the link. */
  lemma OtherRegisterKeepsSync(s: System, id: CallId)
    requires Inv(s) && id in s.calls && s.calls[id].Opening? && s.calls[id].channel != s.link.channel
    requires Registered(GoOn(s, id)) && (Registered(s) ==> Synced(s))
    ensures Synced(GoOn(s, id))
  {
    var u := GoOn(s, id);
    assert Registered(s);
    forall k {
      PaidOff(s, u, id, k);
    }
    SyncFrame(s, u);
  }

  lemma MovesKeepSync(s: System, step: Step)
    requires Registered(s) && Synced(s) && Enabled(s, step) && (step == Transmit || step == Handle)
    ensures Registered(Apply(s, step)) && Synced(Apply(s, step))
  {
    var u, q := Apply(s, step), s.tables.queues[s.link.channel];
    if step == Transmit {
      assert s.link.onTheWay + [q[0]] + q[1..] == s.link.onTheWay + q;
    } else {
      assert InFlight(s)[0] == s.link.onTheWay[0];
      assert InFlight(s)[1..] == s.link.onTheWay[1..] + q;
    }
    forall k
      ensures Pending(u, k) <==> Pending(s, k)
    {
    }
    SyncFrame(s, u);
  }

  lemma GoSyncIff(s: System, id: CallId)
    requires Inv(s) && id in s.calls && (Registered(s) ==> Synced(s)) && Registered(GoOn(s, id))
    ensures Synced(GoOn(s, id)) <==> Fits(s, Go(id))
  {
    match s.calls[id]
    case Announcing(_) => AnnounceIff(s, id);
    case Leaving(_) => LeavingKeepsSync(s, GoOn(s, id), id);
    case Opening(w, c) =>
      if c == s.link.channel {
        RegisterIff(s, id);
      } else {
        OtherRegisterKeepsSync(s, id);
      }
  }

  /**
   * However server calls overlap, a link that stays registered stays in step,
   * and a link that becomes registered starts in step, if and only if the step
   * fits.
   */
  lemma SyncKeptIff(s: System, step: Step)
    requires Inv(s) && Enabled(s, step) && (Registered(s) ==> Synced(s))
    requires Registered(Apply(s, step))
    ensures Synced(Apply(s, step)) <==> Fits(s, step)
  {
    var u := Apply(s, step);
    match step
    case Connect(id, k) => BeginKeepsSync(s, u, id, k);
    case Disconnect(id, k) => BeginKeepsSync(s, u, id, k);
    case Subscribe(id, w, c, order) => SubscribeKeepsSync(s, u, id);
    case Go(id) => GoSyncIff(s, id);
    case _ => MovesKeepSync(s, step);
  }

  // -------------------------------------------------------------- main results

  /** A run from two empty servers. */
  ghost predicate Run(watcher: Key, channel: Channel, states: seq<System>, steps: seq<Step>) {
    && |states| == |steps| + 1
    && states[0] == Start(watcher, channel)
    && (forall i :: 0 <= i < |steps| ==> Enabled(states[i], steps[i]) && states[i + 1] == Apply(states[i], steps[i]))
  }

  /**
   * In every state of every run whose steps fit, however the server's calls
   * overlap, as long as the link is registered it is in step: its forwarders
   * brought up to date with the notes in flight are the watched server's
   * clients, save those whose announcement is still to come.
   */
  lemma {:induction false} ForwardersTrackClients(watcher: Key, channel: Channel, states: seq<System>,
                                                  steps: seq<Step>, i: nat)
    requires Run(watcher, channel, states, steps) && i < |states|
    requires forall j :: 0 <= j < i ==> Fits(states[j], steps[j])
    ensures Inv(states[i])
    ensures Registered(states[i]) ==> Synced(states[i])
    ensures Registered(states[i]) && states[i].calls == map[] ==> Shown(states[i]) == states[i].tables.clients
  {
    if i > 0 {
      ForwardersTrackClients(watcher, channel, states, steps, i - 1);
      InvKept(states[i - 1], steps[i - 1]);
      if Registered(states[i]) {
        SyncKeptIff(states[i - 1], steps[i - 1]);
      }
    }
  }

  // ------------------------------------------- when calls do not get in each other's way

  /**
   * No two calls on one key overlap, no client comes or goes between the two
   * sections of the link's subscription, and no channel overflows.
   */
  ghost predicate Orderly(s: System, step: Step) {
    var t, l := s.tables, s.link;
    match step
    case Connect(_, k) => !Pending(s, k) && !BeingOpened(s)
    case Disconnect(_, k) => !Pending(s, k) && !BeingOpened(s)
    case Subscribe(_, _, c, order) => c == l.channel ==> |order| <= CLIENT_CHANNEL_CAPACITY
    case Go(id) =>
      id in s.calls && s.calls[id].Announcing? && Registered(s) ==> |t.queues[l.channel]| < CLIENT_CHANNEL_CAPACITY
    case _ => true
  }

  /** What a call is going to announce is true. */
  predicate Truthful(c: Call, clients: set<Key>) {
    match c
    case Announcing(n) => n.Present? <==> n.key in clients
    case Leaving(k) => k !in clients
    case Opening(_, _) => true
  }

  ghost predicate Order(s: System) {
    && (forall id :: id in s.calls ==> Truthful(s.calls[id], s.tables.clients))
    && (forall i, j :: i in s.calls && j in s.calls && Owed(s.calls[i]) == Owed(s.calls[j]) != None ==> i == j)
    && (BeingOpened(s) && s.link.channel in s.tables.queues ==>
          forall k :: Present(k) in s.tables.queues[s.link.channel] <==> k in s.tables.clients)
  }

  lemma OrderlyFits(s: System, step: Step)
    requires Inv(s) && Order(s) && Enabled(s, step) && Orderly(s, step)
    ensures Fits(s, step)
  {
    if step.Go? && s.calls[step.call].Opening? && s.calls[step.call].channel == s.link.channel {
      assert BeingOpened(s);
    }
  }

  lemma BeginKeepsOrder(s: System, u: System, id: CallId, k: Key)
    requires Order(s) && id !in s.calls && id in u.calls && u.link == s.link && !BeingOpened(s) && !Pending(s, k)
    requires u.calls == s.calls[id := u.calls[id]] && Owed(u.calls[id]) == Some(k)
    requires Truthful(u.calls[id], u.tables.clients)
    requires forall j :: j != k ==> (j in u.tables.clients <==> j in s.tables.clients)
    ensures Order(u)
  {
    forall i | i in u.calls
      ensures Truthful(u.calls[i], u.tables.clients) && (Owed(u.calls[i]) == Some(k) ==> i == id)
    {
      if i != id {
        assert i in s.calls && u.calls[i] == s.calls[i] && Truthful(s.calls[i], s.tables.clients);
        assert Owed(s.calls[i]) != Some(k);
      }
    }
    forall i, j | i in u.calls && j in u.calls && Owed(u.calls[i]).Some? && Owed(u.calls[i]) == Owed(u.calls[j])
      ensures i == j
    {
      if i != id && j != id {
        assert i in s.calls && j in s.calls;
      }
    }
    assert forall x :: x in u.calls && u.calls[x].Opening? ==> x in s.calls;
  }

  lemma SubscribeKeepsOrder(s: System, step: Step)
    requires Inv(s) && Order(s) && step.Subscribe? && Enabled(s, step) && Orderly(s, step)
    ensures Order(Apply(s, step))
  {
    var u := Apply(s, step);
    if step.channel == s.link.channel {
      var order := step.order;
      SnapshotIs(order);
      assert order[..Min(|order|, CLIENT_CHANNEL_CAPACITY)] == order;
      var q := u.tables.queues[step.channel];
      assert q == Announce(order);
      forall k
        ensures Present(k) in q <==> k in order
      {
        if k in order {
          var i :| 0 <= i < |order| && order[i] == k;
          assert q[i] == Present(k);
        }
      }
    } else if BeingOpened(u) {
      var x :| x in u.calls && u.calls[x] == Opening(u.link.watcher, u.link.channel);
      assert x in s.calls && BeingOpened(s);
    }
  }

  lemma GoKeepsOrder(s: System, id: CallId)
    requires Inv(s) && Order(s) && id in s.calls
    ensures Order(GoOn(s, id))
  {
    var u := GoOn(s, id);
    forall i | i in u.calls
      ensures i in s.calls && Owed(u.calls[i]) == Owed(s.calls[i]) && Truthful(u.calls[i], u.tables.clients)
    {
      assert Truthful(s.calls[i], s.tables.clients);
    }
    if BeingOpened(u) {
      var x :| x in u.calls && u.calls[x] == Opening(u.link.watcher, u.link.channel);
      assert x in s.calls && s.calls[x] == u.calls[x];
      assert BeingOpened(s) && Untouched(s);
      assert u.tables.queues[s.link.channel] == s.tables.queues[s.link.channel];
    }
  }

  lemma OrderKept(s: System, step: Step)
    requires Inv(s) && Order(s) && Enabled(s, step) && Orderly(s, step)
    ensures Order(Apply(s, step))
  {
    match step
    case Connect(id, k) => BeginKeepsOrder(s, Apply(s, step), id, k);
    case Disconnect(id, k) => BeginKeepsOrder(s, Apply(s, step), id, k);
    case Subscribe(_, _, _, _) => SubscribeKeepsOrder(s, step);
    case Go(id) => GoKeepsOrder(s, id);
    case _ => assert BeingOpened(Apply(s, step)) ==> BeingOpened(s);
  }

  /** In every orderly run every step fits, so the link is in step in every state in which it is registered. */
  lemma {:induction false} OrderlyRunsTrackClients(watcher: Key, channel: Channel, states: seq<System>,
                                                   steps: seq<Step>, i: nat)
    requires Run(watcher, channel, states, steps) && i < |states|
    requires forall j :: 0 <= j < i ==> Orderly(states[j], steps[j])
    ensures Inv(states[i]) && Order(states[i])
    ensures Registered(states[i]) ==> Synced(states[i])
  {
    if i > 0 {
      OrderlyRunsTrackClients(watcher, channel, states, steps, i - 1);
      OrderlyFits(states[i - 1], steps[i - 1]);
      InvKept(states[i - 1], steps[i - 1]);
      OrderKept(states[i - 1], steps[i - 1]);
      if Registered(states[i]) {
        SyncKeptIff(states[i - 1], steps[i - 1]);
      }
    }
  }

  /** A run of one subscription and one accept is enough to miss a client. */
  lemma MissedClientIsReachable(watcher: Key, channel: Channel, k: Key) returns (states: seq<System>, steps: seq<Step>)
    ensures Run(watcher, channel, states, steps)
    ensures
      var u := states[|steps|];
      Registered(u) && u.calls == map[] && u.tables.clients == {k} && k !in Shown(u)
  {
    var s := Start(watcher, channel);
    var subscribe, connect := Subscribe(1, watcher, channel, []), Connect(2, k);
    var s1 := Apply(s, subscribe);
    var s2 := Apply(s1, connect);
    var s3 := Apply(s2, Go(2));
    InvKept(s, subscribe);
    MissedClient(s1, 1, 2, k);
    var u := Apply(s3, Go(1));
    states, steps := [s, s1, s2, s3, u], [subscribe, connect, Go(2), Go(1)];
  }
}
