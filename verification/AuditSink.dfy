// The batched audit sink: recorders, closers, a timer and one flush task over
// an unbounded channel (crates/coder-audit/src/batched_sink.rs).
module AuditSink {
  import opened Common

  type Event = nat
  type Closer = nat

  /** Where the flush task stands; `next` is where a flush returns to. */
  datatype Flusher =
    | AwaitFirst                    // the outer select on recv
    | Drain                         // the try_recv loop
    | AwaitMore                     // the inner select on timer and recv
    | Flushing(batch: seq<Event>, next: Next)
    | Exited
    | Panicked                      // the inner sink panicked inside record_batch

  datatype Next = Again | Exit

  datatype Close =
    | TakeSender
    | TakeHandle                    // waiting for the lock on the task handle
    | Joining                       // holds that lock and awaits the task
    | Returned
    | Cancelled                     // the caller dropped the future before it returned

  datatype State = State(
    open: bool,                     // the sender is still in its mutex
    queue: seq<Event>,
    batch: seq<Event>,
    flusher: Flusher,
    handle: bool,                   // the join handle is still in its mutex
    closers: map<Closer, Close>,
    accepted: seq<Event>,           // events the channel took, in order
    flushed: seq<seq<Event>>)       // batches the inner sink has finished recording

  const INITIAL := State(true, [], [], AwaitFirst, true, map[], [], [])

  datatype Step =
    | Record(event: Event)
    | Receive                       // recv or try_recv, whichever the task is at
    | Timer
    | FlushDone
    | FlushPanics
    | BeginClose(closer: Closer)
    | AdvanceClose(closer: Closer)
    | CancelClose(closer: Closer)

  /** The channel lost its receiver: the task is gone and with it the queue. */
  predicate ReceiverGone(s: State) {
    s.flusher == Exited || s.flusher == Panicked
  }

  function RecordStep(s: State, e: Event): State {
    if s.open && !ReceiverGone(s) then s.(queue := s.queue + [e], accepted := s.accepted + [e]) else s
  }

  /** flush_batch: an empty batch is not handed on. */
  function Flush(s: State, next: Next): State {
    if s.batch == [] then s.(flusher := if next == Exit then Exited else AwaitFirst)
    else s.(batch := [], flusher := Flushing(s.batch, next))
  }

  function Pop(s: State): State
    requires s.queue != []
  {
    s.(queue := s.queue[1..], batch := s.batch + [s.queue[0]])
  }

  function ReceiveStep(s: State, max: nat): Option<State> {
    match s.flusher
    case AwaitFirst =>
      if s.queue != [] then Some(Pop(s).(flusher := Drain))
      else if !s.open then Some(Flush(s, Exit))
      else None
    case Drain =>
      if |s.batch| >= max then Some(Flush(s, Again))
      else if s.queue != [] then Some(Pop(s))
      else Some(s.(flusher := AwaitMore))
    case AwaitMore =>
      if s.queue != [] then
        var t := Pop(s);
        Some(if |t.batch| >= max then Flush(t, Again) else t)
      else if !s.open then Some(Flush(s, Exit))
      else None
    case _ => None
  }

  function CloseStep(s: State, c: Closer): Option<State>
    requires c in s.closers
  {
    match s.closers[c]
    case TakeSender => Some(s.(open := false, closers := s.closers[c := TakeHandle]))
    case TakeHandle =>
      if exists d :: d in s.closers && s.closers[d] == Joining then None
      else if s.handle then Some(s.(handle := false, closers := s.closers[c := Joining]))
      else Some(s.(closers := s.closers[c := Returned]))
    case Joining =>
      if ReceiverGone(s) then Some(s.(closers := s.closers[c := Returned])) else None
    case _ => None
  }

  function Apply(s: State, max: nat, step: Step): Option<State> {
    match step
    case Record(e) => Some(RecordStep(s, e))
    case Receive => ReceiveStep(s, max)
    case Timer => if s.flusher == AwaitMore then Some(Flush(s, Again)) else None
    case FlushDone =>
      if !s.flusher.Flushing? then None
      else Some(s.(flushed := s.flushed + [s.flusher.batch],
                   flusher := if s.flusher.next == Exit then Exited else AwaitFirst))
    case FlushPanics => if s.flusher.Flushing? then Some(s.(flusher := Panicked)) else None
    case BeginClose(c) => if c in s.closers then None else Some(s.(closers := s.closers[c := TakeSender]))
    case AdvanceClose(c) => if c in s.closers then CloseStep(s, c) else None
    case CancelClose(c) =>
      if c in s.closers && s.closers[c] != Returned then Some(s.(closers := s.closers[c := Cancelled])) else None
  }

  function Exec(max: nat, steps: seq<Step>): Option<State> {
    if steps == [] then Some(INITIAL)
    else match Exec(max, steps[..|steps| - 1])
    case None => None
    case Some(s) => Apply(s, max, steps[|steps| - 1])
  }

  // ------------------------------------------------------------- the invariant

  /** The batch handed to the inner sink and not yet acknowledged. */
  function Handed(s: State): seq<Event> {
    if s.flusher.Flushing? then s.flusher.batch else []
  }

  /** Everything on its way to the inner sink, oldest first. */
  function Pipeline(s: State): seq<Event> {
    Handed(s) + s.batch + s.queue
  }

  /** Nothing is lost, duplicated or reordered on the way to the inner sink. */
  ghost predicate Conserved(s: State) {
    Flatten(s.flushed) + Pipeline(s) == s.accepted
  }

  ghost predicate SizesOk(s: State, max: nat) {
    && (forall i :: 0 <= i < |s.flushed| ==> 1 <= |s.flushed[i]| <= Max(1, max))
    && (match s.flusher
        case AwaitFirst => s.batch == []
        case Drain => 1 <= |s.batch| <= Max(1, max)
        case AwaitMore => 1 <= |s.batch| < max
        case Flushing(b, next) =>
          s.batch == [] && 1 <= |b| <= Max(1, max) && (next == Exit ==> !s.open && s.queue == [])
        case Exited => s.batch == [] && !s.open && s.queue == []
        case Panicked => true)
  }

  /** The handle is in the mutex, or with the one closer that joins, or was lost to a cancelled closer, or is spent. */
  ghost predicate ClosersOk(s: State) {
    && (forall c :: c in s.closers && s.closers[c] == Returned ==> !s.open && !s.handle)
    && (forall c :: c in s.closers && (s.closers[c] == TakeHandle || s.closers[c] == Joining) ==> !s.open)
    && (forall c :: c in s.closers && s.closers[c] == Joining ==> !s.handle)
    && (forall c, d :: c in s.closers && d in s.closers && s.closers[c] == s.closers[d] == Joining ==> c == d)
  }

  ghost predicate Inv(s: State, max: nat) {
    (s.flusher != Panicked ==> Conserved(s)) && SizesOk(s, max) && ClosersOk(s)
  }

  lemma FlushMoves(s: State, next: Next)
    requires !s.flusher.Flushing?
    ensures Pipeline(Flush(s, next)) == Pipeline(s)
  {
    assert [] + s.batch == s.batch && s.batch + [] == s.batch;
  }

  lemma PopMoves(s: State, f: Flusher)
    requires s.queue != [] && !s.flusher.Flushing? && !f.Flushing?
    ensures Pipeline(Pop(s).(flusher := f)) == Pipeline(s)
  {
    assert s.queue == [s.queue[0]] + s.queue[1..];
    assert [] + (s.batch + [s.queue[0]]) + s.queue[1..] == [] + s.batch + ([s.queue[0]] + s.queue[1..]);
  }

  lemma ReceiveMoves(s: State, max: nat)
    requires ReceiveStep(s, max).Some?
    ensures
      var t := ReceiveStep(s, max).value;
      Pipeline(t) == Pipeline(s) && t.flushed == s.flushed && t.accepted == s.accepted
  {
    match s.flusher
    case AwaitFirst =>
      if s.queue != [] {
        PopMoves(s, Drain);
      } else {
        FlushMoves(s, Exit);
      }
    case Drain =>
      if |s.batch| >= max {
        FlushMoves(s, Again);
      } else if s.queue != [] {
        PopMoves(s, Drain);
      }
    case AwaitMore =>
      if s.queue != [] {
        PopMoves(s, AwaitMore);
        FlushMoves(Pop(s), Again);
      } else {
        FlushMoves(s, Exit);
      }
  }

  lemma RecordConserves(s: State, e: Event)
    requires Conserved(s)
    ensures Conserved(RecordStep(s, e))
  {
    assert Flatten(s.flushed) + (Handed(s) + s.batch + (s.queue + [e])) ==
           Flatten(s.flushed) + (Handed(s) + s.batch + s.queue) + [e];
  }

  lemma FlushDoneConserves(s: State, f: Flusher)
    requires s.flusher.Flushing? && !f.Flushing? && Conserved(s)
    ensures Conserved(s.(flushed := s.flushed + [s.flusher.batch], flusher := f))
  {
    FlattenSnoc(s.flushed, s.flusher.batch);
    var b := s.flusher.batch;
    assert Flatten(s.flushed) + b + ([] + s.batch + s.queue) == Flatten(s.flushed) + (b + s.batch + s.queue);
  }

  /** Nothing that counts has changed, end to end. */
  lemma PipelineConserves(s: State, t: State)
    requires Conserved(s)
    requires t.flushed == s.flushed && t.accepted == s.accepted && Pipeline(t) == Pipeline(s)
    ensures Conserved(t)
  {
  }

  lemma TimerConserves(s: State)
    requires Conserved(s) && s.flusher == AwaitMore
    ensures Conserved(Flush(s, Again))
  {
    FlushMoves(s, Again);
    PipelineConserves(s, Flush(s, Again));
  }

  lemma CloseConserves(s: State, max: nat, step: Step)
    requires Conserved(s) && (step.BeginClose? || step.AdvanceClose? || step.CancelClose?) && Apply(s, max, step).Some?
    ensures Conserved(Apply(s, max, step).value)
  {
    var t := Apply(s, max, step).value;
    assert t.flusher == s.flusher && t.batch == s.batch && t.queue == s.queue;
    PipelineConserves(s, t);
  }

  lemma ConservedKept(s: State, max: nat, step: Step)
    requires s.flusher != Panicked ==> Conserved(s)
    requires Apply(s, max, step).Some?
    ensures
      var t := Apply(s, max, step).value;
      t.flusher != Panicked ==> Conserved(t)
  {
    var t := Apply(s, max, step).value;
    if s.flusher != Panicked {
      match step
      case Record(e) => RecordConserves(s, e);
      case Receive =>
        ReceiveMoves(s, max);
        PipelineConserves(s, t);
      case Timer => TimerConserves(s);
      case FlushDone => FlushDoneConserves(s, t.flusher);
      case FlushPanics =>
      case _ => CloseConserves(s, max, step);
    }
  }

  lemma ReceiveSizes(s: State, max: nat)
    requires SizesOk(s, max) && ReceiveStep(s, max).Some?
    ensures SizesOk(ReceiveStep(s, max).value, max)
  {
  }

  lemma SizesKept(s: State, max: nat, step: Step)
    requires SizesOk(s, max) && Apply(s, max, step).Some?
    ensures SizesOk(Apply(s, max, step).value, max)
  {
    match step
    case Receive => ReceiveSizes(s, max);
    case FlushDone =>
      var t := Apply(s, max, step).value;
      assert forall i :: 0 <= i < |s.flushed| ==> t.flushed[i] == s.flushed[i];
    case AdvanceClose(c) => assert Apply(s, max, step).value.flusher == s.flusher;
    case _ =>
  }

  lemma CloseKept(s: State, c: Closer)
    requires ClosersOk(s) && c in s.closers && CloseStep(s, c).Some?
    ensures ClosersOk(CloseStep(s, c).value)
  {
  }

  lemma ClosersKept(s: State, max: nat, step: Step)
    requires ClosersOk(s) && Apply(s, max, step).Some?
    ensures ClosersOk(Apply(s, max, step).value)
  {
    match step
    case AdvanceClose(c) => CloseKept(s, c);
    case BeginClose(_) =>
    case CancelClose(_) =>
    case _ =>
      var t := Apply(s, max, step).value;
      assert t.closers == s.closers && t.open == s.open && t.handle == s.handle;
  }

  lemma StepKept(s: State, max: nat, step: Step)
    requires Inv(s, max) && Apply(s, max, step).Some?
    ensures Inv(Apply(s, max, step).value, max)
  {
    ConservedKept(s, max, step);
    SizesKept(s, max, step);
    ClosersKept(s, max, step);
  }

  lemma {:induction false} Invariant(max: nat, steps: seq<Step>)
    requires Exec(max, steps).Some?
    ensures Inv(Exec(max, steps).value, max)
    decreases |steps|
  {
    if steps != [] {
      Invariant(max, steps[..|steps| - 1]);
      StepKept(Exec(max, steps[..|steps| - 1]).value, max, steps[|steps| - 1]);
    }
  }

  // -------------------------------------------------------------- main results

  /**
   * The events a run has recorded, in order: those whose record() came while
   * the sender was in its place and the flush task neither over nor panicked.
   */
  function Recorded(max: nat, steps: seq<Step>): seq<Event> {
    if steps == [] then []
    else
      var before, step := steps[..|steps| - 1], steps[|steps| - 1];
      Recorded(max, before) +
      match Exec(max, before)
      case None => []
      case Some(s) =>
        if step.Record? && s.open && s.flusher != Exited && s.flusher != Panicked then [step.event] else []
  }

  lemma {:induction false} AcceptedIsRecorded(max: nat, steps: seq<Step>)
    requires Exec(max, steps).Some?
    ensures Exec(max, steps).value.accepted == Recorded(max, steps)
    decreases |steps|
  {
    if steps != [] {
      var before, step := steps[..|steps| - 1], steps[|steps| - 1];
      AcceptedIsRecorded(max, before);
      AcceptedGrows(Exec(max, before).value, max, step);
    }
  }

  lemma AcceptedGrows(s: State, max: nat, step: Step)
    requires Apply(s, max, step).Some?
    ensures Apply(s, max, step).value.accepted == s.accepted +
            if step.Record? && s.open && s.flusher != Exited && s.flusher != Panicked then [step.event] else []
  {
    assert s.accepted + [] == s.accepted;
    if step.Receive? {
      ReceiveMoves(s, max);
    }
  }

  /**
   * In every interleaving, unless the inner sink panics: finished batches, the
   * batch being recorded, the batch being collected and the queue are, end to
   * end, exactly the recorded events in the order of recording; and every
   * batch has between one and max(1, max_batch_size) events.
   */
  lemma {:induction false} NothingLostNothingReordered(max: nat, steps: seq<Step>)
    requires Exec(max, steps).Some?
    ensures
      var s := Exec(max, steps).value;
      && (s.flusher != Panicked ==> Flatten(s.flushed) + (Handed(s) + s.batch + s.queue) == Recorded(max, steps))
      && (forall i :: 0 <= i < |s.flushed| ==> 1 <= |s.flushed[i]| <= Max(1, max))
  {
    Invariant(max, steps);
    AcceptedIsRecorded(max, steps);
  }

  /**
   * A batch is handed on only when it is full, when the timer fires, or when
   * the sink is closed and nothing is left to collect.
   */
  lemma BatchesAreCutFor(s: State, max: nat, step: Step)
    requires SizesOk(s, max) && Apply(s, max, step).Some? && !s.flusher.Flushing?
    requires Apply(s, max, step).value.flusher.Flushing?
    ensures |Apply(s, max, step).value.flusher.batch| >= max || step == Timer || (!s.open && s.queue == [])
  {
  }

  // --------------------------------------------------------------------- progress

  lemma {:induction false} Continue(max: nat, s: State, steps: seq<Step>, t: State, step: Step)
    requires ExecFrom(max, s, steps) == Some(t)
    ensures ExecFrom(max, s, steps + [step]) == Apply(t, max, step)
  {
    assert (steps + [step])[..|steps + [step]| - 1] == steps;
  }

  /** The run goes on from `s`. */
  function ExecFrom(max: nat, s: State, steps: seq<Step>): Option<State> {
    if steps == [] then Some(s)
    else match ExecFrom(max, s, steps[..|steps| - 1])
    case None => None
    case Some(t) => Apply(t, max, steps[|steps| - 1])
  }

  /** One step by which the flush task gets on with its work, when there is any. */
  function Urge(s: State): Step {
    if s.flusher.Flushing? then FlushDone
    else if s.flusher == AwaitMore && s.queue == [] && s.open then Timer
    else Receive
  }

  /** How far the task is from having nothing left to do. */
  function Work(s: State): nat {
    4 * |s.queue| +
    match s.flusher
    case AwaitFirst => 1
    case Drain => 4
    case AwaitMore => 3
    case Flushing(_, _) => 2
    case _ => 0
  }

  /** Nothing is left to do: all is flushed, and a closed sink's task is over. */
  predicate Idle(s: State) {
    (s.flusher == AwaitFirst && s.queue == [] && s.open) || s.flusher == Exited
  }

  lemma FlushWorks(s: State, next: Next)
    requires
      s.flusher == Drain || s.flusher == AwaitMore || (s.flusher == AwaitFirst && next == Exit && s.batch == [])
    ensures Work(Flush(s, next)) < Work(s)
  {
  }

  lemma ReceiveWorks(s: State, max: nat)
    requires SizesOk(s, max) && ReceiveStep(s, max).Some?
    ensures Work(ReceiveStep(s, max).value) < Work(s)
    ensures
      var t := ReceiveStep(s, max).value;
      t.flusher != Panicked && t.open == s.open && t.closers == s.closers
  {
    match s.flusher
    case AwaitFirst =>
      if s.queue == [] {
        FlushWorks(s, Exit);
      }
    case Drain =>
      if |s.batch| >= max {
        FlushWorks(s, Again);
      }
    case AwaitMore =>
      if s.queue == [] {
        FlushWorks(s, Exit);
      } else {
        FlushWorks(Pop(s), Again);
      }
  }

  lemma UrgeWorks(s: State, max: nat)
    requires Inv(s, max) && s.flusher != Panicked && !Idle(s)
    ensures Apply(s, max, Urge(s)).Some?
    ensures
      var t := Apply(s, max, Urge(s)).value;
      t.flusher != Panicked && t.open == s.open && t.closers == s.closers && Work(t) < Work(s)
  {
    if Urge(s) == Receive {
      ReceiveWorks(s, max);
    } else if Urge(s) == Timer {
      FlushWorks(s, Again);
    }
  }

  /**
   * The task can always get through: from every reachable state short of a
   * panic it can, by its own steps and its timer alone, flush everything that
   * was recorded, and come to its end when the sink is closed.
   */
  lemma {:induction false} CanDrain(s: State, max: nat) returns (steps: seq<Step>, t: State)
    requires Inv(s, max) && s.flusher != Panicked
    ensures ExecFrom(max, s, steps) == Some(t)
    ensures forall i :: 0 <= i < |steps| ==> steps[i] in {Receive, Timer, FlushDone}
    ensures Idle(t) && t.open == s.open && t.closers == s.closers && Flatten(t.flushed) == s.accepted
    decreases Work(s)
  {
    if Idle(s) {
      steps, t := [], s;
      assert Flatten(s.flushed) + ([] + [] + []) == Flatten(s.flushed);
    } else {
      UrgeWorks(s, max);
      StepKept(s, max, Urge(s));
      var u := Apply(s, max, Urge(s)).value;
      AcceptedGrows(s, max, Urge(s));
      var later;
      later, t := CanDrain(u, max);
      steps := [Urge(s)] + later;
      Prefixed(max, s, Urge(s), u, later);
    }
  }

  lemma {:induction false} Prefixed(max: nat, s: State, step: Step, u: State, later: seq<Step>)
    requires Apply(s, max, step) == Some(u)
    ensures ExecFrom(max, s, [step] + later) == ExecFrom(max, u, later)
    decreases |later|
  {
    if later == [] {
      assert [step] + later == [] + [step];
      Continue(max, s, [], s, step);
    } else {
      var n := |later| - 1;
      Prefixed(max, s, step, u, later[..n]);
      assert ([step] + later)[..|[step] + later| - 1] == [step] + later[..n];
    }
  }

  lemma {:induction false} Concatenated(max: nat, s: State, early: seq<Step>, t: State, late: seq<Step>)
    requires ExecFrom(max, s, early) == Some(t)
    ensures ExecFrom(max, s, early + late) == ExecFrom(max, t, late)
    decreases |late|
  {
    if late == [] {
      assert early + late == early;
    } else {
      var n := |late| - 1;
      Concatenated(max, s, early, t, late[..n]);
      assert (early + late)[..|early + late| - 1] == early + late[..n];
    }
  }

  lemma {:induction false} Onward(max: nat, s: State, steps: seq<Step>, t: State, step: Step)
    returns (longer: seq<Step>, u: State)
    requires ExecFrom(max, s, steps) == Some(t) && Apply(t, max, step).Some?
    ensures longer == steps + [step] && u == Apply(t, max, step).value && ExecFrom(max, s, longer) == Some(u)
  {
    longer, u := steps + [step], Apply(t, max, step).value;
    Continue(max, s, steps, t, step);
  }

  /** A close() that has dropped the sender of a task that is over can return: whoever joins does so first. */
  lemma {:induction false} ReturnsFrom(max: nat, s: State, c: Closer) returns (steps: seq<Step>, t: State)
    requires s.flusher == Exited && c in s.closers && s.closers[c] == TakeHandle && ClosersOk(s)
    ensures ExecFrom(max, s, steps) == Some(t)
    ensures t.flusher == Exited && t.flushed == s.flushed && c in t.closers && t.closers[c] == Returned
  {
    steps, t := [], s;
    if d :| d in s.closers && s.closers[d] == Joining {
      steps, t := Onward(max, s, steps, t, AdvanceClose(d));
      assert forall e :: e in t.closers && e != d ==> t.closers[e] == s.closers[e];
    }
    assert !exists d :: d in t.closers && t.closers[d] == Joining;
    steps, t := Onward(max, s, steps, t, AdvanceClose(c));
    if t.closers[c] == Joining {
      steps, t := Onward(max, s, steps, t, AdvanceClose(c));
    }
  }

  /**
   * A close() can always get through: from every reachable state short of a
   * panic it can return with everything flushed that had been recorded.
   */
  lemma CloseCanReturn(max: nat, s: State, c: Closer) returns (steps: seq<Step>, t: State)
    requires Inv(s, max) && s.flusher != Panicked && c !in s.closers
    ensures ExecFrom(max, s, steps) == Some(t)
    ensures c in t.closers && t.closers[c] == Returned && t.flusher == Exited && Flatten(t.flushed) == s.accepted
  {
    var u;
    steps, u := Onward(max, s, [], s, BeginClose(c));
    StepKept(s, max, BeginClose(c));
    var v;
    steps, v := Onward(max, s, steps, u, AdvanceClose(c));
    StepKept(u, max, AdvanceClose(c));
    var drained, w := CanDrain(v, max);
    Concatenated(max, s, steps, v, drained);
    Kept(v, max, drained, w);
    var closing;
    closing, t := ReturnsFrom(max, w, c);
    Concatenated(max, s, steps + drained, w, closing);
    steps := steps + drained + closing;
  }

  lemma {:induction false} Kept(s: State, max: nat, steps: seq<Step>, t: State)
    requires Inv(s, max) && ExecFrom(max, s, steps) == Some(t)
    ensures Inv(t, max)
    decreases |steps|
  {
    if steps != [] {
      var before := steps[..|steps| - 1];
      Kept(s, max, before, ExecFrom(max, s, before).value);
      StepKept(ExecFrom(max, s, before).value, max, steps[|steps| - 1]);
    }
  }

  /**
   * A closer is cancelled while it holds the handle of a task that is not over:
   * nobody can await the task any more.
   */
  ghost predicate LosesHandle(s: State, step: Step) {
    step.CancelClose? && step.closer in s.closers && s.closers[step.closer] == Joining && !ReceiverGone(s)
  }

  ghost predicate NeverLosesHandle(max: nat, steps: seq<Step>) {
    forall k :: 0 <= k < |steps| && Exec(max, steps[..k]).Some? ==> !LosesHandle(Exec(max, steps[..k]).value, steps[k])
  }

  /** A missing handle is being joined, or its task is over. */
  ghost predicate HandleAccounted(s: State) {
    s.handle || ReceiverGone(s) || exists c :: c in s.closers && s.closers[c] == Joining
  }

  lemma HandleKept(s: State, max: nat, step: Step)
    requires HandleAccounted(s) && Apply(s, max, step).Some? && !LosesHandle(s, step)
    ensures HandleAccounted(Apply(s, max, step).value)
  {
    var t := Apply(s, max, step).value;
    if !s.handle && !ReceiverGone(s) {
      var c :| c in s.closers && s.closers[c] == Joining;
      assert ReceiverGone(t) || t.closers[c] == Joining;
    } else if s.handle && !t.handle {
      assert t.closers[step.closer] == Joining;
    }
  }

  lemma HandleLost(s: State, max: nat, step: Step)
    requires ClosersOk(s) && Apply(s, max, step).Some? && LosesHandle(s, step)
    ensures !HandleAccounted(Apply(s, max, step).value)
  {
    var t := Apply(s, max, step).value;
    assert t.closers == s.closers[step.closer := Cancelled];
  }

  /**
   * The exact condition: the handle stays accounted for if and only if no
   * close() is cancelled while it waits for a task that is not over.
   */
  lemma HandleKeptIff(s: State, max: nat, step: Step)
    requires ClosersOk(s) && HandleAccounted(s) && Apply(s, max, step).Some?
    ensures HandleAccounted(Apply(s, max, step).value) <==> !LosesHandle(s, step)
  {
    if LosesHandle(s, step) {
      HandleLost(s, max, step);
    } else {
      HandleKept(s, max, step);
    }
  }

  lemma GoneStays(s: State, max: nat, step: Step)
    requires ReceiverGone(s) && Apply(s, max, step).Some?
    ensures ReceiverGone(Apply(s, max, step).value)
  {
  }

  /** A close() returns only once the task is over. */
  lemma ReturnsWhenGone(s: State, c: Closer)
    requires HandleAccounted(s) && c in s.closers && s.closers[c] != Returned && CloseStep(s, c).Some?
    requires CloseStep(s, c).value.closers[c] == Returned
    ensures ReceiverGone(s)
  {
  }

  lemma OthersAsBefore(s: State, max: nat, step: Step, c: Closer)
    requires Apply(s, max, step).Some? && c in Apply(s, max, step).value.closers
    requires Apply(s, max, step).value.closers[c] == Returned && step != AdvanceClose(c)
    ensures c in s.closers && s.closers[c] == Returned
  {
  }

  lemma ReturnedMeansGone(s: State, max: nat, step: Step)
    requires HandleAccounted(s) && Apply(s, max, step).Some?
    requires forall c :: c in s.closers && s.closers[c] == Returned ==> ReceiverGone(s)
    ensures
      var t := Apply(s, max, step).value;
      forall c :: c in t.closers && t.closers[c] == Returned ==> ReceiverGone(t)
  {
    var t := Apply(s, max, step).value;
    forall c | c in t.closers && t.closers[c] == Returned
      ensures ReceiverGone(t)
    {
      if step != AdvanceClose(c) {
        OthersAsBefore(s, max, step, c);
      } else if s.closers[c] != Returned {
        ReturnsWhenGone(s, c);
      }
      GoneStays(s, max, step);
    }
  }

  lemma {:induction false} CloseWaits(max: nat, steps: seq<Step>)
    requires Exec(max, steps).Some? && NeverLosesHandle(max, steps)
    ensures
      var s := Exec(max, steps).value;
      HandleAccounted(s) && forall c :: c in s.closers && s.closers[c] == Returned ==> ReceiverGone(s)
    decreases |steps|
  {
    if steps != [] {
      var before := steps[..|steps| - 1];
      forall k | 0 <= k < |before| && Exec(max, before[..k]).Some?
        ensures !LosesHandle(Exec(max, before[..k]).value, before[k])
      {
        assert before[..k] == steps[..k];
      }
      CloseWaits(max, before);
      Invariant(max, before);
      assert steps[..|before|] == before;
      HandleKeptIff(Exec(max, before).value, max, steps[|steps| - 1]);
      ReturnedMeansGone(Exec(max, before).value, max, steps[|steps| - 1]);
    }
  }

  /**
   * When a close() returns, every recorded event has been flushed exactly once
   * and in order, provided the inner sink never panicked and no close() was
   * cancelled while it was waiting for a task that was not over.
   */
  lemma {:induction false} CloseFlushesEverything(max: nat, steps: seq<Step>, c: Closer)
    requires Exec(max, steps).Some? && NeverLosesHandle(max, steps)
    requires
      var s := Exec(max, steps).value;
      c in s.closers && s.closers[c] == Returned && s.flusher != Panicked
    ensures
      var s := Exec(max, steps).value;
      s.flusher == Exited && Flatten(s.flushed) == Recorded(max, steps)
  {
    Invariant(max, steps);
    AcceptedIsRecorded(max, steps);
    CloseWaits(max, steps);
    var s := Exec(max, steps).value;
    assert Flatten(s.flushed) + ([] + [] + []) == Flatten(s.flushed);
  }

  /**
   * Once the handle is unaccounted for, the next close() runs straight through
   * while the task is still alive.
   */
  lemma {:induction false} LostHandleReturnsEarly(s: State, max: nat, c: Closer)
    requires !HandleAccounted(s) && c !in s.closers
    ensures Apply(s, max, BeginClose(c)).Some?
    ensures
      var s1 := Apply(s, max, BeginClose(c)).value;
      Apply(s1, max, AdvanceClose(c)).Some?
    ensures
      var s2 := Apply(Apply(s, max, BeginClose(c)).value, max, AdvanceClose(c)).value;
      && Apply(s2, max, AdvanceClose(c)).Some?
      && var s3 := Apply(s2, max, AdvanceClose(c)).value;
      s3.closers[c] == Returned && !ReceiverGone(s3) && s3.flushed == s.flushed
  {
    var s1 := Apply(s, max, BeginClose(c)).value;
    var s2 := Apply(s1, max, AdvanceClose(c)).value;
    assert forall d :: d in s2.closers && d != c ==> s2.closers[d] == s.closers[d];
  }

  lemma {:induction false} Then(max: nat, steps: seq<Step>, s: State, step: Step) returns (longer: seq<Step>, t: State)
    requires Exec(max, steps) == Some(s) && Apply(s, max, step).Some?
    ensures longer == steps + [step] && t == Apply(s, max, step).value && Exec(max, longer) == Some(t)
  {
    longer, t := steps + [step], Apply(s, max, step).value;
    assert longer[..|longer| - 1] == steps;
  }

  /**
   * The proviso is needed: a close() cancelled while joining loses the handle
   * with an event still unflushed, and by the lemma above the next close()
   * returns at once.
   */
  lemma HandleCanBeLost(max: nat, e: Event) returns (steps: seq<Step>)
    ensures Exec(max, steps).Some?
    ensures
      var s := Exec(max, steps).value;
      !HandleAccounted(s) && s.accepted == [e] && s.flushed == [] && s.closers.Keys == {1}
  {
    var s := INITIAL;
    steps := [];
    steps, s := Then(max, steps, s, Record(e));
    steps, s := Then(max, steps, s, BeginClose(1));
    steps, s := Then(max, steps, s, AdvanceClose(1));
    assert s.closers == map[1 := TakeHandle];
    steps, s := Then(max, steps, s, AdvanceClose(1));
    assert s.closers == map[1 := Joining] && !s.handle;
    steps, s := Then(max, steps, s, CancelClose(1));
    assert s.closers == map[1 := Cancelled];
  }
}
