// The API keys behind OAuth2 token records. A key is the access token itself,
// so a key that nobody is going to delete is access nobody can take back
// (crates/coder-auth/src/lib.rs). Each store call is one atomic step, and the
// checks that decide whether a request gets this far are in OAuth2Grants.
module ApiKeys {
  import opened Common

  type Id = nat

  datatype Owner = Owner(app: Id, user: Id)

  datatype Record = Record(owner: Owner, key: Id)

  /** Where a request stands: named after the store call it makes next. */
  datatype Call =
    | Generate(owner: Owner)                    // create the new key
    | Attach(owner: Owner, key: Id)             // create the record of that key
    | Undo(key: Id)                             // the record failed: delete the key again
    | DropOld(owner: Owner, key: Id)            // the refreshed record is gone: delete its key
    | Collect(owner: Owner)                     // a revocation lists the keys
    | DeleteAll(owner: Owner, listed: seq<Id>)  // deletes the records
    | DropListed(left: seq<Id>)                 // and deletes the keys it has listed
    | Finished

  datatype State = State(keys: set<Id>, everUsed: set<Id>, records: map<Id, Record>, calls: map<Id, Call>)

  const INITIAL := State({}, {}, map[], map[])

  /** Whether a store call succeeds, and whether it takes effect all the same when it reports failure. */
  datatype Outcome = Succeeds | FailsAfterEffect | Fails

  datatype Step =
    | Exchange(call: Id, owner: Owner)          // a code has been consumed
    | Refresh(call: Id, record: Id)             // a record has been consumed
    | Revoke(call: Id, owner: Owner)
    | Spoil(record: Id)                         // a record expires, or goes with its secret or app
    | KeyGone(key: Id)                          // a key is deleted by other means
    | Abandon(call: Id)                         // a request is dropped where it stands
    | Go(call: Id, outcome: Outcome, newId: Id, listing: seq<Id>)

  function OwnedBy(s: State, owner: Owner): set<Id> {
    set r | r in s.records && s.records[r].owner == owner
  }

  /** Some record has the key `k`. */
  ghost predicate OnRecord(s: State, k: Id) {
    exists r :: r in s.records && s.records[r].key == k
  }

  ghost predicate Lists(s: State, owner: Owner, listing: seq<Id>) {
    forall k :: k in listing <==> exists r :: r in s.records && s.records[r] == Record(owner, k)
  }

  function Goto(s: State, c: Id, next: Call): Option<State> {
    Some(s.(calls := s.calls[c := next]))
  }

  /** A best-effort key deletion: the request goes on whatever becomes of it. */
  function DropKey(s: State, k: Id, outcome: Outcome): State {
    if outcome == Fails then s else s.(keys := s.keys - {k})
  }

  ghost function GoStep(s: State, c: Id, step: Step): Option<State>
    requires c in s.calls && step.Go?
  {
    var outcome := step.outcome;
    match s.calls[c]
    case Generate(owner) =>
      if outcome == Fails then Goto(s, c, Finished)
      else if step.newId in s.everUsed then None
      else
        Goto(s.(keys := s.keys + {step.newId}, everUsed := s.everUsed + {step.newId}), c,
             if outcome == Succeeds then Attach(owner, step.newId) else Finished)
    case Attach(owner, key) =>
      if outcome == Fails then Goto(s, c, Undo(key))
      else if step.newId in s.records then None
      else
        Goto(s.(records := s.records[step.newId := Record(owner, key)]), c,
             if outcome == Succeeds then Finished else Undo(key))
    case Undo(key) => Goto(DropKey(s, key, outcome), c, Finished)
    case DropOld(owner, key) => Goto(DropKey(s, key, outcome), c, Generate(owner))
    case Collect(owner) =>
      if outcome != Succeeds then Goto(s, c, Finished)
      else if Lists(s, owner, step.listing) then Goto(s, c, DeleteAll(owner, step.listing))
      else None
    case DeleteAll(owner, listed) =>
      Goto(if outcome == Fails then s else s.(records := s.records - OwnedBy(s, owner)), c,
           if outcome == Succeeds then DropListed(listed) else Finished)
    case DropListed(left) =>
      if left == [] then Goto(s, c, Finished)
      else Goto(DropKey(s, left[0], outcome), c, DropListed(left[1..]))
    case Finished => None
  }

  ghost function Apply(s: State, step: Step): Option<State> {
    match step
    case Exchange(c, owner) => if c in s.calls then None else Goto(s, c, Generate(owner))
    case Refresh(c, r) =>
      if c in s.calls || r !in s.records then None
      else Goto(s.(records := s.records - {r}), c, DropOld(s.records[r].owner, s.records[r].key))
    case Revoke(c, owner) => if c in s.calls then None else Goto(s, c, Collect(owner))
    case Spoil(r) => Some(s.(records := s.records - {r}))
    case KeyGone(k) => Some(s.(keys := s.keys - {k}))
    case Abandon(c) => if c in s.calls then Goto(s, c, Finished) else None
    case Go(c, _, _, _) => if c in s.calls then GoStep(s, c, step) else None
  }

  ghost function Exec(steps: seq<Step>): Option<State> {
    if steps == [] then Some(INITIAL)
    else match Exec(steps[..|steps| - 1])
    case None => None
    case Some(s) => Apply(s, steps[|steps| - 1])
  }

  /** Requests begin at any time: an exchange to mint, a refresh on a record that is there, a revocation to list. */
  lemma RequestsBegin(s: State, c: Id, owner: Owner, r: Id)
    requires c !in s.calls
    ensures Apply(s, Exchange(c, owner)) == Some(s.(calls := s.calls[c := Generate(owner)]))
    ensures Apply(s, Revoke(c, owner)) == Some(s.(calls := s.calls[c := Collect(owner)]))
    ensures r in s.records ==>
              Apply(s, Refresh(c, r)) ==
              Some(s.(records := s.records - {r}, calls := s.calls[c := DropOld(s.records[r].owner, s.records[r].key)]))
  {
  }

  // ------------------------------------------------------------- who looks after a key

  /** The keys a request is still going to attach or delete. */
  function Held(c: Call): seq<Id> {
    match c
    case Attach(_, key) => [key]
    case Undo(key) => [key]
    case DropOld(_, key) => [key]
    case DeleteAll(_, listed) => listed
    case DropListed(left) => left
    case _ => []
  }

  ghost predicate HeldByCall(s: State, k: Id) {
    exists c :: c in s.calls && k in Held(s.calls[c])
  }

  /** Every stored key has a record, or a request that is still going to deal with it. */
  ghost predicate Owned(s: State) {
    forall k :: k in s.keys ==> OnRecord(s, k) || HeldByCall(s, k)
  }

  // ------------------------------------------------------- when a key is orphaned

  /** The records the step deletes. */
  ghost function Removed(s: State, step: Step): set<Id> {
    match step
    case Refresh(_, r) => {r}
    case Spoil(r) => {r}
    case Go(c, outcome, _, _) =>
      if c in s.calls && s.calls[c].DeleteAll? && outcome != Fails then OwnedBy(s, s.calls[c].owner) else {}
    case _ => {}
  }

  /** The step moves request `c`, on or away. */
  predicate Moves(step: Step, c: Id) {
    (step.Go? || step.Abandon?) && step.call == c
  }

  /** What the call `step` advances holds on to afterwards, of the keys it held before. */
  ghost function HeldOn(s: State, step: Step): seq<Id>
    requires step.Go? && step.call in s.calls
  {
    match s.calls[step.call]
    case DeleteAll(_, listed) => if step.outcome == Succeeds then listed else []
    case DropListed(left) => if left == [] then [] else left[1..]
    case Attach(_, key) => [key]
    case _ => []
  }

  /** The step stores `k` or lets go of it, without deleting it or handing it on. */
  ghost predicate LetsGo(s: State, step: Step, k: Id) {
    match step
    case Spoil(r) => r in s.records && s.records[r].key == k
    case Abandon(c) => c in s.calls && k in Held(s.calls[c])
    case Go(c, outcome, newId, _) =>
      c in s.calls &&
      (match s.calls[c]
       case Generate(_) => outcome == FailsAfterEffect && k == newId
       case Undo(key) => outcome == Fails && k == key
       case DropOld(_, key) => outcome == Fails && k == key
       case DropListed(left) => outcome == Fails && left != [] && k == left[0]
       case DeleteAll(owner, listed) =>
         || (outcome != Succeeds && k in listed)
         || (outcome != Fails && exists r :: r in s.records && s.records[r] == Record(owner, k))
       case _ => false)
    case _ => false
  }

  /** A record the step leaves alone, or a request it leaves holding the key, still looks after `k`. */
  ghost predicate LookedAfter(s: State, step: Step, k: Id) {
    || (exists r :: r in s.records && r !in Removed(s, step) && s.records[r].key == k)
    || (exists c :: c in s.calls && !Moves(step, c) && k in Held(s.calls[c]))
    || (step.Go? && step.call in s.calls && k in HeldOn(s, step))
  }

  ghost predicate Orphans(s: State, step: Step) {
    exists k :: LetsGo(s, step, k) && (k in s.keys || (step.Go? && k == step.newId && Creates(s, step)))
                && !LookedAfter(s, step, k)
  }

  ghost predicate Creates(s: State, step: Step) {
    step.Go? && step.call in s.calls && s.calls[step.call].Generate?
  }

  lemma RecordStays(s: State, step: Step, r: Id)
    requires Apply(s, step).Some? && r in s.records && r !in Removed(s, step)
    ensures r in Apply(s, step).value.records && Apply(s, step).value.records[r] == s.records[r]
  {
  }

  lemma CallStays(s: State, step: Step, c: Id)
    requires Apply(s, step).Some? && c in s.calls && !Moves(step, c)
    ensures c in Apply(s, step).value.calls && Apply(s, step).value.calls[c] == s.calls[c]
  {
  }

  /** Looked after before the step is looked after behind it, by the new record if it is the one that is attached. */
  lemma StillLookedAfter(s: State, step: Step, k: Id)
    requires Apply(s, step).Some? && LookedAfter(s, step, k)
    ensures OnRecord(Apply(s, step).value, k) || HeldByCall(Apply(s, step).value, k)
  {
    var t := Apply(s, step).value;
    if r :| r in s.records && r !in Removed(s, step) && s.records[r].key == k {
      RecordStays(s, step, r);
      assert OnRecord(t, k);
    } else if c :| c in s.calls && !Moves(step, c) && k in Held(s.calls[c]) {
      CallStays(s, step, c);
      assert HeldByCall(t, k);
    } else if s.calls[step.call].Attach? && step.outcome == Succeeds {
      assert step.newId in t.records && t.records[step.newId].key == k;
    } else {
      assert step.call in t.calls && k in Held(t.calls[step.call]);
    }
  }

  /** The converse: what is looked after behind the step was so before, or is new to it. */
  lemma LookedAfterBefore(s: State, step: Step, k: Id)
    requires Apply(s, step).Some? && LetsGo(s, step, k)
    requires OnRecord(Apply(s, step).value, k) || HeldByCall(Apply(s, step).value, k)
    ensures LookedAfter(s, step, k)
  {
    var t := Apply(s, step).value;
    if r :| r in t.records && t.records[r].key == k {
      assert r in s.records && r !in Removed(s, step) && s.records[r].key == k;
    } else {
      var c :| c in t.calls && k in Held(t.calls[c]);
      assert !Moves(step, c) ==> c in s.calls && k in Held(s.calls[c]);
    }
  }

  /** A stored key that the step does not let go of is looked after behind it. */
  lemma KeptInHand(s: State, step: Step, k: Id)
    requires Owned(s) && Apply(s, step).Some? && k in Apply(s, step).value.keys && !LetsGo(s, step, k)
    ensures OnRecord(Apply(s, step).value, k) || HeldByCall(Apply(s, step).value, k)
  {
    var t := Apply(s, step).value;
    if k !in s.keys {
      assert t.calls[step.call] == Attach(s.calls[step.call].owner, k);
    } else if LookedAfter(s, step, k) {
      StillLookedAfter(s, step, k);
    } else {
      HandedOn(s, step, k);
    }
  }

  /** Only a refresh and an attachment hand a key from a record to a request or the other way round. */
  lemma HandedOn(s: State, step: Step, k: Id)
    requires k in s.keys && (OnRecord(s, k) || HeldByCall(s, k)) && Apply(s, step).Some?
    requires k in Apply(s, step).value.keys && !LetsGo(s, step, k) && !LookedAfter(s, step, k)
    ensures HeldByCall(Apply(s, step).value, k)
  {
    var t := Apply(s, step).value;
    if r :| r in s.records && s.records[r].key == k {
      assert r in Removed(s, step);
      assert s.records[r] == Record(s.records[r].owner, k);
      assert step.Refresh?;
      assert t.calls[step.call] == DropOld(s.records[r].owner, k);
    }
  }

  /**
   * The exact condition: a step keeps every stored key looked after if and only
   * if it does not let go of one that nobody else looks after.
   */
  lemma OwnedKeptIff(s: State, step: Step)
    requires Owned(s) && Apply(s, step).Some?
    ensures Owned(Apply(s, step).value) <==> !Orphans(s, step)
  {
    var t := Apply(s, step).value;
    if Orphans(s, step) {
      var k :| LetsGo(s, step, k) && (k in s.keys || (step.Go? && k == step.newId && Creates(s, step)))
               && !LookedAfter(s, step, k);
      assert k in t.keys;
      if OnRecord(t, k) || HeldByCall(t, k) {
        LookedAfterBefore(s, step, k);
      }
    } else {
      forall k | k in t.keys
        ensures OnRecord(t, k) || HeldByCall(t, k)
      {
        if !LetsGo(s, step, k) {
          KeptInHand(s, step, k);
        } else {
          assert k in s.keys || (step.Go? && k == step.newId && Creates(s, step));
          assert LookedAfter(s, step, k);
          StillLookedAfter(s, step, k);
        }
      }
    }
  }

  /** The state before step `k` of a run. */
  ghost function At(steps: seq<Step>, k: nat): State
    requires k <= |steps|
  {
    match Exec(steps[..k])
    case None => INITIAL
    case Some(s) => s
  }

  ghost predicate NeverOrphans(steps: seq<Step>) {
    forall i :: 0 <= i < |steps| ==> !Orphans(At(steps, i), steps[i])
  }

  /** So in every run without such a step, every stored key has a record or a request that deals with it. */
  lemma {:induction false} EveryKeyIsOwned(steps: seq<Step>)
    requires Exec(steps).Some? && NeverOrphans(steps)
    ensures Owned(Exec(steps).value)
    decreases |steps|
  {
    if steps != [] {
      var before := steps[..|steps| - 1];
      forall i | 0 <= i < |before|
        ensures !Orphans(At(before, i), before[i])
      {
        assert before[..i] == steps[..i] && At(before, i) == At(steps, i);
      }
      EveryKeyIsOwned(before);
      assert At(steps, |before|) == Exec(before).value;
      OwnedKeptIff(Exec(before).value, steps[|steps| - 1]);
    }
  }

  /**
   * And a revocation can be such a step: a record created between its listing
   * and its deletion loses the record and keeps the key, for good.
   */
  lemma RevocationRaceOrphans(s: State, revoke: Id, mint: Id, owner: Owner, listed: seq<Id>, key: Id, record: Id)
    requires revoke in s.calls && s.calls[revoke] == DeleteAll(owner, listed)
    requires mint in s.calls && mint != revoke && s.calls[mint] == Attach(owner, key)
    requires key in s.keys && key !in listed && record !in s.records && !OnRecord(s, key)
    requires forall c :: c in s.calls && c != mint ==> key !in Held(s.calls[c])
    ensures
      var r1 := Apply(s, Go(mint, Succeeds, record, []));
      && r1.Some?
      && var r2 := Apply(r1.value, Go(revoke, Succeeds, 0, []));
      && r2.Some?
      && key in r2.value.keys && !OnRecord(r2.value, key) && !HeldByCall(r2.value, key)
  {
    var s1 := Apply(s, Go(mint, Succeeds, record, [])).value;
    var s2 := Apply(s1, Go(revoke, Succeeds, 0, [])).value;
    assert s1.records[record].owner == owner;
    assert forall r :: r in s2.records ==> r in s.records && s2.records[r] == s.records[r];
    assert forall c :: c in s2.calls ==> c in s.calls && (c != mint && c != revoke ==> s2.calls[c] == s.calls[c]);
  }

  lemma {:induction false} Then(steps: seq<Step>, s: State, step: Step) returns (longer: seq<Step>, t: State)
    requires Exec(steps) == Some(s) && Apply(s, step).Some?
    ensures longer == steps + [step] && t == Apply(s, step).value && Exec(longer) == Some(t)
  {
    longer, t := steps + [step], Apply(s, step).value;
    assert longer[..|longer| - 1] == steps;
  }

  /** The race needs no more than one revocation and one exchange of the same user. */
  lemma RaceIsReachable(owner: Owner) returns (steps: seq<Step>)
    ensures Exec(steps).Some?
    ensures
      var s := Exec(steps).value;
      s.keys == {7} && !OnRecord(s, 7) && !HeldByCall(s, 7) && !Owned(s)
  {
    var s := INITIAL;
    steps := [];
    steps, s := Then(steps, s, Revoke(1, owner));
    assert Lists(s, owner, []);
    steps, s := Then(steps, s, Go(1, Succeeds, 0, []));
    steps, s := Then(steps, s, Exchange(2, owner));
    steps, s := Then(steps, s, Go(2, Succeeds, 7, []));
    assert s.calls[1] == DeleteAll(owner, []) && s.calls[2] == Attach(owner, 7) && s.keys == {7};
    assert forall c :: c in s.calls ==> c == 1 || c == 2;
    RevocationRaceOrphans(s, 1, 2, owner, [], 7, 5);
    steps, s := Then(steps, s, Go(2, Succeeds, 5, []));
    steps, s := Then(steps, s, Go(1, Succeeds, 0, []));
  }
}
