// Mesh links and the forwarding table of one DERP server: any number of links
// register and clean up forwarders concurrently
// (crates/coder-connectivity/src/derp.rs, run_mesh_connection_once).
module DerpForwarders {
  import opened Common

  type Key = nat
  type LinkId = nat

  /** Where the read loop of a link stands; `peers` is its `registered_peers`. */
  datatype Link =
    | Reading(peers: seq<Key>)
    | Adding(peers: seq<Key>, peer: Key)       // PeerPresent parsed, forwarder not yet inserted
    | Added(peers: seq<Key>, peer: Key)        // inserted, not yet pushed onto registered_peers
    | Removing(peers: seq<Key>, peer: Key)     // PeerGone parsed, forwarder not yet removed
    | Removed(peers: seq<Key>, peer: Key)      // removed, not yet dropped from registered_peers
    | Cleaning(left: seq<Key>)                 // the final loop over registered_peers
    | Finished

  datatype State = State(forwarders: map<Key, LinkId>, links: map<LinkId, Link>)

  const INITIAL := State(map[], map[])

  datatype Step =
    | Open(link: LinkId)
    | Present(link: LinkId, key: Key)
    | Gone(link: LinkId, key: Key)
    | HangUp(link: LinkId)                     // cancelled, closed, or read error
    | Go(link: LinkId)                         // the link carries on with what it is doing

  function SetLink(s: State, l: LinkId, link: Link): Option<State> {
    Some(s.(links := s.links[l := link]))
  }

  function GoStep(s: State, l: LinkId, link: Link): Option<State> {
    match link
    case Reading(_) => None
    case Adding(peers, peer) => Some(State(s.forwarders[peer := l], s.links[l := Added(peers, peer)]))
    case Added(peers, peer) => SetLink(s, l, Reading(peers + [peer]))
    case Removing(peers, peer) => Some(State(s.forwarders - {peer}, s.links[l := Removed(peers, peer)]))
    case Removed(peers, peer) => SetLink(s, l, Reading(Without(peers, peer)))
    case Cleaning(left) =>
      if left == [] then SetLink(s, l, Finished)
      else Some(State(s.forwarders - {left[0]}, s.links[l := Cleaning(left[1..])]))
    case Finished => None
  }

  function Apply(s: State, step: Step): Option<State> {
    if step.Open? then
      if step.link in s.links then None else SetLink(s, step.link, Reading([]))
    else if step.link !in s.links then None
    else if step.Go? then GoStep(s, step.link, s.links[step.link])
    else if !s.links[step.link].Reading? then None
    else
      var peers := s.links[step.link].peers;
      match step
      case Present(l, key) => SetLink(s, l, Adding(peers, key))
      case Gone(l, key) => SetLink(s, l, Removing(peers, key))
      case HangUp(l) => SetLink(s, l, Cleaning(peers))
      case _ => None
  }

  function Exec(steps: seq<Step>): Option<State> {
    if steps == [] then Some(INITIAL)
    else match Exec(steps[..|steps| - 1])
    case None => None
    case Some(s) => Apply(s, steps[|steps| - 1])
  }

  /** A PeerPresent, handled: the link is the key's forwarder and has it among its peers. */
  lemma PresentHandled(s: State, l: LinkId, key: Key)
    requires l in s.links && s.links[l].Reading?
    ensures Apply(s, Present(l, key)).Some?
    ensures
      var r := Apply(Apply(s, Present(l, key)).value, Go(l));
      && r.Some? && Apply(r.value, Go(l)).Some?
      && var t := Apply(r.value, Go(l)).value;
      && t.forwarders == s.forwarders[key := l]
      && t.links == s.links[l := Reading(s.links[l].peers + [key])]
  {
    var peers := s.links[l].peers;
    assert s.links[l := Adding(peers, key)][l := Added(peers, key)][l := Reading(peers + [key])] ==
           s.links[l := Reading(peers + [key])];
  }

  /** A PeerGone, handled: the key is in neither the table nor the link's peers, and every other key stays. */
  lemma GoneHandled(s: State, l: LinkId, key: Key)
    requires l in s.links && s.links[l].Reading?
    ensures Apply(s, Gone(l, key)).Some?
    ensures
      var r := Apply(Apply(s, Gone(l, key)).value, Go(l));
      && r.Some? && Apply(r.value, Go(l)).Some?
      && var t := Apply(r.value, Go(l)).value;
      && t.forwarders == s.forwarders - {key}
      && l in t.links && t.links[l].Reading?
      && (forall k :: k in t.links[l].peers <==> k in s.links[l].peers && k != key)
      && (forall m :: m != l ==> (m in t.links <==> m in s.links) && (m in t.links ==> t.links[m] == s.links[m]))
  {
    forall k {
      WithoutHas(s.links[l].peers, key, k);
    }
  }

  /** A link that hangs up removes the entry of every peer it had, and is finished then. */
  lemma {:induction false} CleanupRuns(s: State, l: LinkId, left: seq<Key>) returns (t: State)
    requires l in s.links && s.links[l] == Cleaning(left)
    ensures Cleans(s, l, |left| + 1, t)
    ensures l in t.links && t.links[l] == Finished
    ensures forall k :: k in t.forwarders <==> k in s.forwarders && k !in left
    ensures forall k :: k in t.forwarders ==> t.forwarders[k] == s.forwarders[k]
    decreases |left|
  {
    var u := Apply(s, Go(l)).value;
    if left == [] {
      t := u;
      assert Cleans(u, l, 0, t);
    } else {
      t := CleanupRuns(u, l, left[1..]);
      assert left == [left[0]] + left[1..];
    }
  }

  /** `n` steps of link `l` lead from `s` to `t`. */
  ghost predicate Cleans(s: State, l: LinkId, n: nat, t: State)
    decreases n
  {
    if n == 0 then t == s else Apply(s, Go(l)).Some? && Cleans(Apply(s, Go(l)).value, l, n - 1, t)
  }

  /** A link may open, and one that is reading may hang up, at any time. */
  lemma OpensAndHangsUp(s: State, l: LinkId)
    ensures l !in s.links ==> Apply(s, Open(l)) == Some(s.(links := s.links[l := Reading([])]))
    ensures l in s.links && s.links[l].Reading? ==>
              Apply(s, HangUp(l)) == Some(s.(links := s.links[l := Cleaning(s.links[l].peers)]))
  {
  }

  // ------------------------------------------------------- no stale forwarders

  /** The peers this link has registered and not yet cleaned up. */
  predicate Owes(link: Link, key: Key) {
    match link
    case Reading(peers) => key in peers
    case Adding(peers, _) => key in peers
    case Added(peers, peer) => key in peers || key == peer
    case Removing(peers, _) => key in peers
    case Removed(peers, peer) => key in peers && key != peer
    case Cleaning(left) => key in left
    case Finished => false
  }

  ghost predicate NoStale(s: State) {
    forall key :: key in s.forwarders ==>
      s.forwarders[key] in s.links && Owes(s.links[s.forwarders[key]], key)
  }

  /** What a link owes changes only at the key it is working on. */
  lemma GoOwes(s: State, l: LinkId, key: Key)
    requires l in s.links && Apply(s, Go(l)).Some?
    ensures
      var t := Apply(s, Go(l)).value;
      && (key in s.forwarders && s.forwarders[key] == l ==> Owes(s.links[l], key))
      && key in t.forwarders && t.forwarders[key] == l
      ==> Owes(t.links[l], key)
  {
    if s.links[l].Removed? {
      WithoutHas(s.links[l].peers, s.links[l].peer, key);
    }
  }

  lemma NoStaleKept(s: State, step: Step)
    requires NoStale(s) && Apply(s, step).Some?
    ensures NoStale(Apply(s, step).value)
  {
    var t := Apply(s, step).value;
    forall key | key in t.forwarders
      ensures t.forwarders[key] in t.links && Owes(t.links[t.forwarders[key]], key)
    {
      if step.Go? {
        GoOwes(s, step.link, key);
      }
    }
  }

  /**
   * However links interleave, inside each other's cleanup and with overlapping
   * keys, an entry points at an unfinished link that still owes its removal.
   */
  lemma {:induction false} NoStaleForwarders(steps: seq<Step>)
    requires Exec(steps).Some?
    ensures NoStale(Exec(steps).value)
    decreases |steps|
  {
    if steps != [] {
      NoStaleForwarders(steps[..|steps| - 1]);
      NoStaleKept(Exec(steps[..|steps| - 1]).value, steps[|steps| - 1]);
    }
  }

  /** So a packet is never forwarded into a link that is gone, and a finished link leaves no entry behind. */
  lemma {:induction false} FinishedLinksLeaveNothing(steps: seq<Step>, l: LinkId, key: Key)
    requires Exec(steps).Some? && l in Exec(steps).value.links && Exec(steps).value.links[l] == Finished
    ensures
      var s := Exec(steps).value;
      key in s.forwarders ==> s.forwarders[key] != l
  {
    NoStaleForwarders(steps);
  }

  // --------------------------------------------- when a reachable peer has a route

  /** The peers a live link believes it has registered. */
  predicate Serves(link: Link, key: Key) {
    Owes(link, key) && !link.Cleaning?
  }

  /** Every peer of every live link has a forwarder entry, through that link or another. */
  ghost predicate Routable(s: State) {
    forall l, key :: l in s.links && Serves(s.links[l], key) ==> key in s.forwarders
  }

  /** The key whose table entry the step removes. */
  function Dropped(s: State, step: Step): Option<Key> {
    if !step.Go? || step.link !in s.links then None
    else match s.links[step.link]
    case Removing(_, peer) => Some(peer)
    case Cleaning(left) => if left == [] then None else Some(left[0])
    case _ => None
  }

  /** The step removes the entry of a key that another live link serves. */
  ghost predicate DropsRoute(s: State, step: Step) {
    Dropped(s, step).Some? &&
    exists l :: l in s.links && l != step.link && Serves(s.links[l], Dropped(s, step).value)
  }

  lemma OwnKeysRoutable(s: State, step: Step, key: Key)
    requires Routable(s) && Apply(s, step).Some?
    requires Serves(Apply(s, step).value.links[step.link], key)
    ensures Dropped(s, step) == Some(key) || key in Apply(s, step).value.forwarders
  {
    if step.link in s.links && s.links[step.link].Removed? {
      WithoutHas(s.links[step.link].peers, s.links[step.link].peer, key);
    }
  }

  /** A link that drops a key does not itself go on serving it. */
  lemma DropperIsDone(s: State, step: Step, key: Key)
    requires Apply(s, step).Some? && Dropped(s, step) == Some(key)
    ensures !Serves(Apply(s, step).value.links[step.link], key)
  {
  }

  /**
   * The exact condition: a step keeps every peer of every live link routable
   * if and only if it does not remove the entry of a key another live link
   * serves. It may well redirect such a key.
   */
  lemma RoutableKeptIff(s: State, step: Step)
    requires Routable(s) && Apply(s, step).Some?
    ensures Routable(Apply(s, step).value) <==> !DropsRoute(s, step)
  {
    var t := Apply(s, step).value;
    if DropsRoute(s, step) {
      var l :| l in s.links && l != step.link && Serves(s.links[l], Dropped(s, step).value);
      OthersUnchanged(s, step, l);
      assert Serves(t.links[l], Dropped(s, step).value) && Dropped(s, step).value !in t.forwarders;
    } else {
      forall l, key | l in t.links && Serves(t.links[l], key)
        ensures key in t.forwarders
      {
        if l == step.link {
          OwnKeysRoutable(s, step, key);
          if Dropped(s, step) == Some(key) {
            DropperIsDone(s, step, key);
          }
        } else {
          OthersUnchanged(s, step, l);
          assert Serves(s.links[l], key);
        }
      }
    }
  }

  lemma {:induction false} PrefixesRun(steps: seq<Step>, k: nat)
    requires k <= |steps| && Exec(steps).Some?
    ensures Exec(steps[..k]).Some?
    ensures k < |steps| ==> Exec(steps[..k + 1]) == Apply(Exec(steps[..k]).value, steps[k])
    decreases |steps|
  {
    if k == |steps| {
      assert steps[..k] == steps;
    } else {
      var before := steps[..|steps| - 1];
      PrefixesRun(before, k);
      assert before[..k] == steps[..k];
      if k < |before| {
        assert before[..k + 1] == steps[..k + 1];
      } else {
        assert steps[..k + 1] == steps && steps[..k] == before;
      }
    }
  }

  /** The state before step `k` of a run. */
  function At(steps: seq<Step>, k: nat): State
    requires k <= |steps|
  {
    match Exec(steps[..k])
    case None => INITIAL
    case Some(s) => s
  }

  /** Up to step `n` of the run every peer of every live link has been routable at all times. */
  ghost predicate RoutableUpTo(steps: seq<Step>, n: nat)
    requires n <= |steps|
  {
    forall k :: 0 <= k <= n ==> Routable(At(steps, k))
  }

  ghost predicate NoRouteDropped(steps: seq<Step>, n: nat)
    requires n <= |steps|
  {
    forall k :: 0 <= k < n ==> !DropsRoute(At(steps, k), steps[k])
  }

  lemma {:induction false} RoutableNextIff(steps: seq<Step>, k: nat)
    requires k < |steps| && Exec(steps).Some? && Routable(At(steps, k))
    ensures Routable(At(steps, k + 1)) <==> !DropsRoute(At(steps, k), steps[k])
  {
    PrefixesRun(steps, k);
    PrefixesRun(steps, k + 1);
    RoutableKeptIff(At(steps, k), steps[k]);
  }

  lemma {:induction false} StaysRoutable(steps: seq<Step>, n: nat, k: nat)
    requires k <= n <= |steps| && Exec(steps).Some? && NoRouteDropped(steps, n)
    ensures Routable(At(steps, k))
    decreases k
  {
    if k == 0 {
      assert steps[..0] == [];
    } else {
      StaysRoutable(steps, n, k - 1);
      RoutableNextIff(steps, k - 1);
    }
  }

  lemma {:induction false} DropsNothing(steps: seq<Step>, n: nat, k: nat)
    requires k < n <= |steps| && Exec(steps).Some? && RoutableUpTo(steps, n)
    ensures !DropsRoute(At(steps, k), steps[k])
  {
    assert Routable(At(steps, k)) && Routable(At(steps, k + 1));
    RoutableNextIff(steps, k);
  }

  /** Over whole runs: peers stay routable throughout if and only if no step drops a route another link needs. */
  lemma {:induction false} RoutableThroughoutIff(steps: seq<Step>)
    requires Exec(steps).Some?
    ensures RoutableUpTo(steps, |steps|) <==> NoRouteDropped(steps, |steps|)
  {
    if NoRouteDropped(steps, |steps|) {
      forall k | 0 <= k <= |steps|
        ensures Routable(At(steps, k))
      {
        StaysRoutable(steps, |steps|, k);
      }
    } else if RoutableUpTo(steps, |steps|) {
      forall k | 0 <= k < |steps|
        ensures !DropsRoute(At(steps, k), steps[k])
      {
        DropsNothing(steps, |steps|, k);
      }
    }
  }

  /** Every peer of every live link has a forwarder entry that leads through that very link. */
  ghost predicate Covered(s: State) {
    forall l, key :: l in s.links && Serves(s.links[l], key) ==> key in s.forwarders && s.forwarders[key] == l
  }

  /** The key whose table entry the step writes or removes. */
  function Touched(s: State, step: Step): Option<Key> {
    if !step.Go? || step.link !in s.links then None
    else match s.links[step.link]
    case Adding(_, peer) => Some(peer)
    case Removing(_, peer) => Some(peer)
    case Cleaning(left) => if left == [] then None else Some(left[0])
    case _ => None
  }

  /** Another live link serves the very key the step touches. */
  ghost predicate Overlaps(s: State, step: Step) {
    Touched(s, step).Some? &&
    exists l :: l in s.links && l != step.link && Serves(s.links[l], Touched(s, step).value)
  }

  lemma OthersUnchanged(s: State, step: Step, l: LinkId)
    requires Apply(s, step).Some? && l in s.links && l != step.link
    ensures l in Apply(s, step).value.links && Apply(s, step).value.links[l] == s.links[l]
  {
  }

  lemma OwnKeysCovered(s: State, step: Step, key: Key)
    requires Covered(s) && Apply(s, step).Some?
    requires Serves(Apply(s, step).value.links[step.link], key)
    ensures
      var t := Apply(s, step).value;
      key in t.forwarders && t.forwarders[key] == step.link
  {
    if step.link in s.links && s.links[step.link].Removed? {
      WithoutHas(s.links[step.link].peers, s.links[step.link].peer, key);
    }
  }

  /**
   * From a table in which every peer is routed through each link that serves
   * it, a step keeps that if and only if it does not touch, be it to remove or
   * to redirect, a key that another live link serves.
   */
  lemma CoverageKeptIff(s: State, step: Step)
    requires Covered(s) && Apply(s, step).Some?
    ensures Covered(Apply(s, step).value) <==> !Overlaps(s, step)
  {
    var t := Apply(s, step).value;
    if Overlaps(s, step) {
      var l :| l in s.links && l != step.link && Serves(s.links[l], Touched(s, step).value);
      var key := Touched(s, step).value;
      OthersUnchanged(s, step, l);
      assert Serves(t.links[l], key);
      assert key in t.forwarders ==> t.forwarders[key] == step.link;
    } else {
      forall l, key | l in t.links && Serves(t.links[l], key)
        ensures key in t.forwarders && t.forwarders[key] == l
      {
        if l == step.link {
          OwnKeysCovered(s, step, key);
        } else {
          OthersUnchanged(s, step, l);
          assert Serves(s.links[l], key);
        }
      }
    }
  }

  lemma {:induction false} DisjointLinksStayCovered(steps: seq<Step>)
    requires Exec(steps).Some?
    requires forall k :: 0 <= k < |steps| && Exec(steps[..k]).Some? ==> !Overlaps(Exec(steps[..k]).value, steps[k])
    ensures Covered(Exec(steps).value)
    decreases |steps|
  {
    if steps != [] {
      var before := steps[..|steps| - 1];
      forall k | 0 <= k < |before| && Exec(before[..k]).Some?
        ensures !Overlaps(Exec(before[..k]).value, before[k])
      {
        assert before[..k] == steps[..k];
      }
      DisjointLinksStayCovered(before);
      CoverageKeptIff(Exec(before).value, steps[|steps| - 1]);
    }
  }

  /**
   * With overlapping keys a live peer does lose its route: when link `l` hangs
   * up, its cleanup removes the entry although link `m` still serves the key.
   */
  lemma CleanupDropsOthersRoute(s: State, l: LinkId, m: LinkId, key: Key)
    requires l in s.links && s.links[l].Reading? && s.links[l].peers != [] && s.links[l].peers[0] == key
    requires m in s.links && m != l && Serves(s.links[m], key)
    ensures Apply(s, HangUp(l)).Some? && Apply(Apply(s, HangUp(l)).value, Go(l)).Some?
    ensures
      var t := Apply(Apply(s, HangUp(l)).value, Go(l)).value;
      m in t.links && Serves(t.links[m], key) && key !in t.forwarders && !Routable(t)
  {
  }

  lemma {:induction false} Then(steps: seq<Step>, s: State, step: Step) returns (longer: seq<Step>, t: State)
    requires Exec(steps) == Some(s) && Apply(s, step).Some?
    ensures longer == steps + [step] && t == Apply(s, step).value && Exec(longer) == Some(t)
  {
    longer, t := steps + [step], Apply(s, step).value;
    assert longer[..|longer| - 1] == steps;
  }

  /** Such a state, with every peer still routable, is reached as soon as two links announce the same key. */
  lemma OverlapIsReachable(key: Key) returns (steps: seq<Step>)
    ensures Exec(steps) == Some(State(map[key := 2], map[1 := Reading([key]), 2 := Reading([key])]))
    ensures Routable(Exec(steps).value)
  {
    var s := INITIAL;
    steps := [];
    steps, s := Then(steps, s, Open(1));
    steps, s := Then(steps, s, Open(2));
    steps, s := Then(steps, s, Present(1, key));
    steps, s := Then(steps, s, Go(1));
    steps, s := Then(steps, s, Go(1));
    steps, s := Then(steps, s, Present(2, key));
    steps, s := Then(steps, s, Go(2));
    steps, s := Then(steps, s, Go(2));
    assert s.forwarders == map[key := 2];
    assert [] + [key] == [key];
    assert s.links[1] == Reading([key]) && s.links[2] == Reading([key]);
    assert s.links == map[1 := Reading([key]), 2 := Reading([key])];
  }
}
