// The bidi driver: reader pump, handler and writer pump running concurrently
// over two bounded queues (crates/coder-agent-rpc/src/server.rs, drive_bidi).
// Every await point is a step; a run is any sequence of enabled steps.
module DrpcBidi {
  import opened Common
  import opened DrpcWire
  import opened DrpcServer

  const QUEUE_CAPACITY := 32

  /** What one `read_packet` call of the reader pump yields. */
  datatype Arrival = Got(packet: Packet) | Broken

  datatype Stop = AtTerminator | HandlerGone | Aborted

  datatype Reader = Reading | Holding(data: Bytes) | Stopped(why: Stop)

  datatype End = ByClose | ByError | ByFailure

  datatype Writer = Draining | Writing(item: Reply) | Closing | Ended(how: End)

  datatype State = State(
    pos: nat,                  // arrivals the reader has consumed
    reader: Reader,
    requests: seq<Bytes>,      // the request channel
    requestsDropped: bool,     // the handler let go of its receiver
    received: seq<Bytes>,      // everything the handler has received
    responses: seq<Reply>,     // the response channel
    sinkDropped: bool,
    accepted: seq<Reply>,      // every send the response channel took
    writer: Writer,
    written: seq<Packet>)      // packets fully written to the transport

  const INITIAL := State(0, Reading, [], false, [], [], false, [], Draining, [])

  datatype Step =
    | Read                     // the reader takes the next arrival
    | Enqueue                  // its pending send completes, or finds the receiver gone
    | Receive                  // the handler receives a request
    | DropRequests
    | Accept(item: Reply)      // a handler's send is taken by the response channel
    | DropSink
    | Take                     // the writer receives a response, or the end of them
    | WriteDone
    | WriteFails
    | FlushFails               // the packet got out, the flush behind it failed
    | Abort                    // the driver aborts the reader once it is done writing

  predicate Terminator(a: Arrival) {
    a.Broken? || a.packet.kind in {CloseSend, Cancel, Close}
  }

  function ReadStep(inbound: seq<Arrival>, s: State): Option<State> {
    if s.reader != Reading || s.pos >= |inbound| then None
    else if Terminator(inbound[s.pos]) then Some(s.(reader := Stopped(AtTerminator)))
    else if inbound[s.pos].packet.kind == Message then
      Some(s.(pos := s.pos + 1, reader := Holding(inbound[s.pos].packet.data)))
    else Some(s.(pos := s.pos + 1))
  }

  function EnqueueStep(s: State): Option<State> {
    if !s.reader.Holding? then None
    else if s.requestsDropped then Some(s.(reader := Stopped(HandlerGone)))
    else if |s.requests| >= QUEUE_CAPACITY then None
    else Some(s.(reader := Reading, requests := s.requests + [s.reader.data]))
  }

  function TakeStep(s: State): Option<State> {
    if s.writer != Draining then None
    else if s.responses != [] then Some(s.(writer := Writing(s.responses[0]), responses := s.responses[1..]))
    else if s.sinkDropped then Some(s.(writer := Closing))
    else None
  }

  function WriteStep(stream: u64, s: State): Option<State> {
    var id := OutId(stream, |s.written| + 1);
    match s.writer
    case Writing(Ok(payload)) =>
      Some(s.(writer := Draining, written := s.written + [Packet(Message, id, payload)]))
    case Writing(Err(e)) =>
      Some(s.(writer := Ended(ByError), written := s.written + [Packet(Error, id, ErrorBody(e))]))
    case Closing =>
      Some(s.(writer := Ended(ByClose), written := s.written + [Packet(Close, id, [])]))
    case _ => None
  }

  /** The state after one step, or None when the step is not enabled. */
  function Apply(inbound: seq<Arrival>, stream: u64, s: State, step: Step): Option<State> {
    match step
    case Read => ReadStep(inbound, s)
    case Enqueue => EnqueueStep(s)
    case Receive =>
      if s.requests == [] || s.requestsDropped then None
      else Some(s.(received := s.received + [s.requests[0]], requests := s.requests[1..]))
    case DropRequests => Some(s.(requestsDropped := true, requests := []))
    case Accept(item) =>
      // A failed write returns from the driver, which drops the receiving end at once.
      if s.sinkDropped || |s.responses| >= QUEUE_CAPACITY || s.writer == Ended(ByFailure) then None
      else Some(s.(responses := s.responses + [item], accepted := s.accepted + [item]))
    case DropSink => Some(s.(sinkDropped := true))
    case Take => TakeStep(s)
    case WriteDone => WriteStep(stream, s)
    case WriteFails =>
      if s.writer.Writing? || s.writer == Closing then Some(s.(writer := Ended(ByFailure))) else None
    case FlushFails =>
      var t := WriteStep(stream, s);
      if t.None? then None else Some(t.value.(writer := Ended(ByFailure)))
    case Abort =>
      if s.writer in {Ended(ByClose), Ended(ByError)} && !s.reader.Stopped? then Some(s.(reader := Stopped(Aborted)))
      else None
  }

  /** The state a run reaches; None when some step was not enabled. */
  function Exec(inbound: seq<Arrival>, stream: u64, steps: seq<Step>): Option<State> {
    if steps == [] then Some(INITIAL)
    else match Exec(inbound, stream, steps[..|steps| - 1])
    case None => None
    case Some(s) => Apply(inbound, stream, s, steps[|steps| - 1])
  }

  // ------------------------------------------------------------- what is promised

  /** The Message payloads, in wire order, before the first terminator. */
  function Requests(inbound: seq<Arrival>): seq<Bytes> {
    if inbound == [] || Terminator(inbound[0]) then []
    else (if inbound[0].packet.kind == Message then [inbound[0].packet.data] else []) + Requests(inbound[1..])
  }

  ghost predicate Promises(inbound: seq<Arrival>, stream: u64, s: State) {
    // Requests arrive in wire order, nothing after the first terminator, nothing twice ...
    && s.received <= Requests(inbound)
    // ... and nothing is missing once the reader met the terminator and the queue is drained.
    && (s.reader == Stopped(AtTerminator) && s.requests == [] && !s.requestsDropped ==>
        s.received == Requests(inbound))
    // The wire carries the accepted sends in order, then Close or the first error, numbered from 1.
    && s.written <= Replies(stream, 1, s.accepted)
    && (s.writer in {Ended(ByClose), Ended(ByError)} ==> s.written == Replies(stream, 1, s.accepted))
    // Close comes only after the sink is gone and every accepted send has been written.
    && ((exists p :: p in s.written && p.kind == Close) ==>
        s.sinkDropped && |s.written| == |s.accepted| + 1 &&
        forall i :: 0 <= i < |s.accepted| ==> s.accepted[i] == Ok(s.written[i].data))
    // Back-pressure: neither queue exceeds its capacity.
    && |s.requests| <= QUEUE_CAPACITY && |s.responses| <= QUEUE_CAPACITY
  }

  // ------------------------------------------------------------------ the invariant

  function Held(s: State): seq<Bytes> {
    if s.reader.Holding? then [s.reader.data] else []
  }

  ghost predicate InboundInv(inbound: seq<Arrival>, s: State) {
    && s.pos <= |inbound|
    && (forall i :: 0 <= i < s.pos ==> !Terminator(inbound[i]))
    && (s.reader == Stopped(AtTerminator) ==> s.pos < |inbound| && Terminator(inbound[s.pos]))
    && (s.reader == Stopped(HandlerGone) ==> s.requestsDropped)
    && (s.requestsDropped ==> s.requests == [])
    && |s.requests| <= QUEUE_CAPACITY
    && s.received + s.requests <= Requests(inbound[..s.pos])
    && (!s.requestsDropped && s.reader != Stopped(Aborted) ==>
        s.received + s.requests + Held(s) == Requests(inbound[..s.pos]))
  }

  /** The first `n` accepted sends are exactly the Message packets written so far. */
  ghost predicate Sent(stream: u64, s: State, n: nat) {
    && n <= |s.written| && n <= |s.accepted|
    && (forall i :: 0 <= i < n ==> s.accepted[i].Ok?)
    && (forall i :: 0 <= i < n ==> s.written[i] == Packet(Message, OutId(stream, i + 1), s.accepted[i].payload))
  }

  ghost predicate OutboundInv(stream: u64, s: State) {
    && |s.responses| <= QUEUE_CAPACITY
    && var n := |s.written|;
    match s.writer
    case Draining => Sent(stream, s, n) && s.accepted == s.accepted[..n] + s.responses
    case Writing(item) => Sent(stream, s, n) && s.accepted == s.accepted[..n] + [item] + s.responses
    case Closing => Sent(stream, s, n) && s.sinkDropped && |s.accepted| == n
    case Ended(ByClose) => ClosedOff(stream, s)
    case Ended(ByError) => ErroredOff(stream, s)
    case Ended(ByFailure) => Sent(stream, s, n) || ClosedOff(stream, s) || ErroredOff(stream, s)
  }

  /** Close has been written, behind every accepted send. */
  ghost predicate ClosedOff(stream: u64, s: State) {
    && var n := |s.written|;
    && n > 0 && Sent(stream, s, n - 1) && s.sinkDropped && |s.accepted| == n - 1
    && s.written[n - 1] == Packet(Close, OutId(stream, n), [])
  }

  /** The first error among the accepted sends has been written, behind those before it. */
  ghost predicate ErroredOff(stream: u64, s: State) {
    && var n := |s.written|;
    && n > 0 && Sent(stream, s, n - 1) && |s.accepted| >= n && s.accepted[n - 1].Err?
    && s.written[n - 1] == Packet(Error, OutId(stream, n), ErrorBody(s.accepted[n - 1].error))
  }

  lemma {:induction false} RequestsSnoc(inbound: seq<Arrival>, a: Arrival)
    requires forall i :: 0 <= i < |inbound| ==> !Terminator(inbound[i])
    ensures Requests(inbound + [a]) ==
            Requests(inbound) + if !Terminator(a) && a.packet.kind == Message then [a.packet.data] else []
  {
    if inbound == [] {
      assert inbound + [a] == [a] && [a][1..] == [];
    } else {
      RequestsSnoc(inbound[1..], a);
      assert (inbound + [a])[1..] == inbound[1..] + [a];
    }
  }

  lemma {:induction false} RequestsMonotone(inbound: seq<Arrival>, k: nat)
    requires k <= |inbound| && forall i :: 0 <= i < k ==> !Terminator(inbound[i])
    ensures Requests(inbound[..k]) <= Requests(inbound)
    ensures k < |inbound| && Terminator(inbound[k]) ==> Requests(inbound[..k]) == Requests(inbound)
  {
    if k > 0 {
      RequestsMonotone(inbound[1..], k - 1);
      assert inbound[..k][1..] == inbound[1..][..k - 1];
    }
  }

  lemma ReadKept(inbound: seq<Arrival>, s: State)
    requires InboundInv(inbound, s) && ReadStep(inbound, s).Some?
    ensures InboundInv(inbound, ReadStep(inbound, s).value)
  {
    var a := inbound[s.pos];
    if !Terminator(a) {
      RequestsSnoc(inbound[..s.pos], a);
      assert inbound[..s.pos + 1] == inbound[..s.pos] + [a];
    }
  }

  lemma EnqueueKept(inbound: seq<Arrival>, s: State)
    requires InboundInv(inbound, s) && EnqueueStep(s).Some?
    ensures InboundInv(inbound, EnqueueStep(s).value)
  {
    var t := EnqueueStep(s).value;
    assert s.received + (s.requests + [s.reader.data]) == s.received + s.requests + [s.reader.data];
    assert t.received + t.requests + [] == t.received + t.requests;
  }

  lemma ReceiveKept(inbound: seq<Arrival>, s: State, t: State)
    requires InboundInv(inbound, s) && s.requests != [] && !s.requestsDropped
    requires t.received == s.received + [s.requests[0]] && t.requests == s.requests[1..]
    requires t.reader == s.reader && t.pos == s.pos && !t.requestsDropped
    ensures InboundInv(inbound, t)
  {
    assert t.received + t.requests == s.received + s.requests;
  }

  /** The writer side does not touch what the reader relies on; a receiver or a reader may go away. */
  lemma InboundFrame(inbound: seq<Arrival>, s: State, t: State)
    requires InboundInv(inbound, s)
    requires t.pos == s.pos && t.received == s.received
    requires t.reader == s.reader || t.reader == Stopped(Aborted)
    requires
      || (t.requests == s.requests && t.requestsDropped == s.requestsDropped)
      || (t.requests == [] && t.requestsDropped)
    ensures InboundInv(inbound, t)
  {
    assert s.received + [] == s.received;
    assert s.received <= s.received + s.requests;
  }

  lemma InboundKept(inbound: seq<Arrival>, stream: u64, s: State, step: Step)
    requires InboundInv(inbound, s) && Apply(inbound, stream, s, step).Some?
    ensures InboundInv(inbound, Apply(inbound, stream, s, step).value)
  {
    match step
    case Read => ReadKept(inbound, s);
    case Enqueue => EnqueueKept(inbound, s);
    case Receive => ReceiveKept(inbound, s, Apply(inbound, stream, s, step).value);
    case _ => InboundFrame(inbound, s, Apply(inbound, stream, s, step).value);
  }

  /** `Sent` looks only at the first `n` of both lists. */
  lemma SentStays(stream: u64, s: State, t: State, n: nat)
    requires Sent(stream, s, n) && s.accepted <= t.accepted && s.written <= t.written
    ensures Sent(stream, t, n) && t.accepted[..n] == s.accepted[..n]
  {
    assert forall i :: 0 <= i < n ==> t.accepted[i] == s.accepted[i] && t.written[i] == s.written[i];
  }

  lemma AcceptKept(stream: u64, s: State, item: Reply)
    requires OutboundInv(stream, s)
    requires !s.sinkDropped && |s.responses| < QUEUE_CAPACITY && s.writer != Ended(ByFailure)
    ensures OutboundInv(stream, s.(responses := s.responses + [item], accepted := s.accepted + [item]))
  {
    var t := s.(responses := s.responses + [item], accepted := s.accepted + [item]);
    SentStays(stream, s, t, if s.writer.Ended? then |s.written| - 1 else |s.written|);
  }

  lemma TakeKept(stream: u64, s: State)
    requires OutboundInv(stream, s) && TakeStep(s).Some?
    ensures OutboundInv(stream, TakeStep(s).value)
  {
    var t := TakeStep(s).value;
    SentStays(stream, s, t, |s.written|);
    if s.responses != [] {
      assert [s.responses[0]] + s.responses[1..] == s.responses;
      assert s.accepted[..|s.written|] + [s.responses[0]] + s.responses[1..] ==
             s.accepted[..|s.written|] + ([s.responses[0]] + s.responses[1..]);
    }
  }

  /** A Message just written is the next accepted send. */
  lemma SentOneMore(stream: u64, s: State, t: State, n: nat)
    requires Sent(stream, s, n) && n == |s.written| && n < |s.accepted| && s.accepted[n].Ok?
    requires t.accepted == s.accepted
    requires t.written == s.written + [Packet(Message, OutId(stream, n + 1), s.accepted[n].payload)]
    ensures Sent(stream, t, n + 1)
  {
  }

  lemma WroteItem(stream: u64, s: State)
    requires OutboundInv(stream, s) && s.writer.Writing?
    ensures OutboundInv(stream, WriteStep(stream, s).value)
  {
    var t, n := WriteStep(stream, s).value, |s.written|;
    assert s.accepted[n] == s.writer.item;
    if s.writer.item.Ok? {
      SentOneMore(stream, s, t, n);
      assert s.accepted[..n + 1] == s.accepted[..n] + [s.accepted[n]];
    } else {
      SentStays(stream, s, t, n);
    }
  }

  lemma WriteKept(stream: u64, s: State)
    requires OutboundInv(stream, s) && WriteStep(stream, s).Some?
    ensures OutboundInv(stream, WriteStep(stream, s).value)
  {
    if s.writer.Writing? {
      WroteItem(stream, s);
    } else {
      SentStays(stream, s, WriteStep(stream, s).value, |s.written|);
    }
  }

  /** Wherever a completed write leads, ending by failure there keeps the invariant. */
  lemma FlushKept(stream: u64, s: State)
    requires OutboundInv(stream, s) && WriteStep(stream, s).Some?
    ensures OutboundInv(stream, WriteStep(stream, s).value.(writer := Ended(ByFailure)))
  {
    WriteKept(stream, s);
    var t := WriteStep(stream, s).value;
    var u := t.(writer := Ended(ByFailure));
    assert Sent(stream, t, |t.written|) ==> Sent(stream, u, |u.written|);
    assert ClosedOff(stream, t) ==> ClosedOff(stream, u);
    assert ErroredOff(stream, t) ==> ErroredOff(stream, u);
  }

  /** The reader and the handler's receiving side do not touch what the writer relies on. */
  lemma OutboundFrame(stream: u64, s: State, t: State)
    requires OutboundInv(stream, s)
    requires t.responses == s.responses && t.accepted == s.accepted && t.written == s.written
    requires t.writer == s.writer || (t.writer == Ended(ByFailure) && (s.writer.Writing? || s.writer == Closing))
    requires s.sinkDropped ==> t.sinkDropped
    ensures OutboundInv(stream, t)
  {
    forall n: nat
      ensures Sent(stream, s, n) ==> Sent(stream, t, n)
    {
    }
  }

  lemma OutboundKept(inbound: seq<Arrival>, stream: u64, s: State, step: Step)
    requires OutboundInv(stream, s) && Apply(inbound, stream, s, step).Some?
    ensures OutboundInv(stream, Apply(inbound, stream, s, step).value)
  {
    match step
    case Accept(item) => AcceptKept(stream, s, item);
    case Take => TakeKept(stream, s);
    case WriteDone => WriteKept(stream, s);
    case FlushFails => FlushKept(stream, s);
    case _ => OutboundFrame(stream, s, Apply(inbound, stream, s, step).value);
  }

  lemma {:induction false} Invariant(inbound: seq<Arrival>, stream: u64, steps: seq<Step>)
    requires Exec(inbound, stream, steps).Some?
    ensures InboundInv(inbound, Exec(inbound, stream, steps).value)
    ensures OutboundInv(stream, Exec(inbound, stream, steps).value)
    decreases |steps|
  {
    if steps != [] {
      var before, step := steps[..|steps| - 1], steps[|steps| - 1];
      Invariant(inbound, stream, before);
      var s := Exec(inbound, stream, before).value;
      InboundKept(inbound, stream, s, step);
      OutboundKept(inbound, stream, s, step);
    }
  }

  /** What was sent is the beginning of the full response. */
  lemma {:induction false} SentIsPrefix(stream: u64, s: State, n: nat)
    requires Sent(stream, s, n)
    ensures
      var full, k := Replies(stream, 1, s.accepted), LeadingOk(s.accepted);
      && n <= k < |full| == k + 1
      && (forall i :: 0 <= i < n ==> full[i] == s.written[i])
      && full[k] == (if k == |s.accepted| then Packet(Close, OutId(stream, k + 1), [])
                     else Packet(Error, OutId(stream, k + 1), ErrorBody(s.accepted[k].error)))
  {
    RepliesFrom(stream, 1, s.accepted);
  }

  lemma {:induction false} OutboundPromise(stream: u64, s: State)
    requires OutboundInv(stream, s)
    ensures s.written <= Replies(stream, 1, s.accepted)
    ensures s.writer in {Ended(ByClose), Ended(ByError)} ==> s.written == Replies(stream, 1, s.accepted)
  {
    if ClosedOff(stream, s) || ErroredOff(stream, s) {
      SentIsPrefix(stream, s, |s.written| - 1);
    } else {
      SentIsPrefix(stream, s, |s.written|);
    }
  }

  lemma {:induction false} InboundPromise(inbound: seq<Arrival>, s: State)
    requires InboundInv(inbound, s)
    ensures s.received <= Requests(inbound)
    ensures s.reader == Stopped(AtTerminator) && s.requests == [] && !s.requestsDropped ==>
              s.received == Requests(inbound)
  {
    RequestsMonotone(inbound, s.pos);
    assert s.received <= s.received + s.requests;
    assert s.received + [] == s.received;
  }

  /** Only a writer that ended by closing has written a Close. */
  lemma ClosePromise(stream: u64, s: State, i: nat)
    requires OutboundInv(stream, s) && i < |s.written| && s.written[i].kind == Close
    ensures s.sinkDropped && |s.written| == |s.accepted| + 1
    ensures forall j :: 0 <= j < |s.accepted| ==> s.accepted[j] == Ok(s.written[j].data)
  {
  }

  /** In every interleaving of reader, handler and writer, every reachable state keeps the promises. */
  lemma {:induction false} EveryRunKeepsPromises(inbound: seq<Arrival>, stream: u64, steps: seq<Step>)
    requires Exec(inbound, stream, steps).Some?
    ensures Promises(inbound, stream, Exec(inbound, stream, steps).value)
  {
    Invariant(inbound, stream, steps);
    var s := Exec(inbound, stream, steps).value;
    InboundPromise(inbound, s);
    OutboundPromise(stream, s);
    if p :| p in s.written && p.kind == Close {
      var i :| 0 <= i < |s.written| && s.written[i] == p;
      ClosePromise(stream, s, i);
    }
  }

  lemma StepGrows(inbound: seq<Arrival>, stream: u64, s: State, step: Step)
    requires Apply(inbound, stream, s, step).Some?
    ensures
      var t := Apply(inbound, stream, s, step).value;
      s.written <= t.written && s.received <= t.received && s.accepted <= t.accepted
  {
  }

  /** Nothing is ever taken back: what is written or received at some point stays the beginning of what is later. */
  lemma {:induction false} OnlyGrows(inbound: seq<Arrival>, stream: u64, steps: seq<Step>, k: nat)
    requires k <= |steps| && Exec(inbound, stream, steps).Some?
    ensures Exec(inbound, stream, steps[..k]).Some?
    ensures Exec(inbound, stream, steps[..k]).value.written <= Exec(inbound, stream, steps).value.written
    ensures Exec(inbound, stream, steps[..k]).value.received <= Exec(inbound, stream, steps).value.received
    decreases |steps|
  {
    if k == |steps| {
      assert steps[..k] == steps;
    } else {
      var before := steps[..|steps| - 1];
      OnlyGrows(inbound, stream, before, k);
      assert before[..k] == steps[..k];
      StepGrows(inbound, stream, Exec(inbound, stream, before).value, steps[|steps| - 1]);
    }
  }

  // -------------------------------------------------------------------- progress

  /** When the queues take something on, and when they give it out. */
  lemma QueuesMove(inbound: seq<Arrival>, stream: u64, s: State, item: Reply)
    ensures Apply(inbound, stream, s, Accept(item)).Some? <==>
            !s.sinkDropped && |s.responses| < 32 && s.writer != Ended(ByFailure)
    ensures Apply(inbound, stream, s, Enqueue).Some? <==>
            s.reader.Holding? && (s.requestsDropped || |s.requests| < 32)
    ensures Apply(inbound, stream, s, Receive).Some? <==> s.requests != [] && !s.requestsDropped
    ensures Apply(inbound, stream, s, Read).Some? <==> s.reader == Reading && s.pos < |inbound|
    ensures Apply(inbound, stream, s, Take).Some? <==> s.writer == Draining && (s.responses != [] || s.sinkDropped)
    ensures Apply(inbound, stream, s, WriteDone).Some? <==> s.writer.Writing? || s.writer == Closing
  {
  }

  lemma {:induction false} Then(inbound: seq<Arrival>, stream: u64, steps: seq<Step>, s: State, step: Step)
    returns (longer: seq<Step>, t: State)
    requires Exec(inbound, stream, steps) == Some(s) && Apply(inbound, stream, s, step).Some?
    ensures longer == steps + [step] && t == Apply(inbound, stream, s, step).value
    ensures Exec(inbound, stream, longer) == Some(t)
  {
    longer, t := steps + [step], Apply(inbound, stream, s, step).value;
    assert longer[..|longer| - 1] == steps;
  }

  /** The reader, the handler and nobody else, have dealt with the first `k` arrivals. */
  ghost predicate Delivered(inbound: seq<Arrival>, s: State, k: nat) {
    && k <= |inbound| && (forall i :: 0 <= i < k ==> !Terminator(inbound[i]))
    && s == INITIAL.(pos := k, received := Requests(inbound[..k]))
  }

  /** One more arrival is read and, if it is a Message, handed through to the handler. */
  lemma {:induction false} DeliverOne(inbound: seq<Arrival>, stream: u64, steps: seq<Step>, s: State, k: nat)
    returns (longer: seq<Step>, t: State)
    requires Exec(inbound, stream, steps) == Some(s) && Delivered(inbound, s, k)
    requires k < |inbound| && !Terminator(inbound[k])
    ensures Exec(inbound, stream, longer) == Some(t) && Delivered(inbound, t, k + 1)
  {
    RequestsSnoc(inbound[..k], inbound[k]);
    assert inbound[..k + 1] == inbound[..k] + [inbound[k]];
    longer, t := Then(inbound, stream, steps, s, Read);
    if inbound[k].packet.kind == Message {
      longer, t := Then(inbound, stream, longer, t, Enqueue);
      assert t.requests == [inbound[k].packet.data];
      longer, t := Then(inbound, stream, longer, t, Receive);
      assert [inbound[k].packet.data][1..] == [];
    }
  }

  lemma {:induction false} DeliverUpTo(inbound: seq<Arrival>, stream: u64, k: nat) returns (steps: seq<Step>, s: State)
    requires k <= |inbound| && forall i :: 0 <= i < k ==> !Terminator(inbound[i])
    ensures Exec(inbound, stream, steps) == Some(s) && Delivered(inbound, s, k)
    decreases k
  {
    if k == 0 {
      steps, s := [], INITIAL;
      assert inbound[..0] == [];
    } else {
      steps, s := DeliverUpTo(inbound, stream, k - 1);
      steps, s := DeliverOne(inbound, stream, steps, s, k - 1);
    }
  }

  lemma {:induction false} FirstTerminator(inbound: seq<Arrival>) returns (k: nat)
    ensures k <= |inbound| && (forall i :: 0 <= i < k ==> !Terminator(inbound[i]))
    ensures k < |inbound| ==> Terminator(inbound[k])
  {
    if inbound == [] || Terminator(inbound[0]) {
      k := 0;
    } else {
      var later := FirstTerminator(inbound[1..]);
      k := later + 1;
      assert forall i :: 0 < i < k ==> inbound[i] == inbound[1..][i - 1];
    }
  }

  /** Whatever arrives, some run hands all the requests in it to the handler. */
  lemma AllRequestsCanArrive(inbound: seq<Arrival>, stream: u64) returns (steps: seq<Step>)
    ensures Exec(inbound, stream, steps).Some?
    ensures Exec(inbound, stream, steps).value.received == Requests(inbound)
  {
    var k := FirstTerminator(inbound);
    var s;
    steps, s := DeliverUpTo(inbound, stream, k);
    RequestsMonotone(inbound, k);
    assert k == |inbound| ==> inbound[..k] == inbound;
  }

  /** Nothing is on its way from the handler to the wire. */
  predicate Idle(s: State) {
    s.writer == Draining && s.responses == [] && !s.sinkDropped
  }

  /** A send is accepted, taken up by the writer and written. */
  lemma SendSteps(stream: u64, s: State, item: Reply)
    requires Idle(s)
    ensures
      var accepted, id := s.accepted + [item], OutId(stream, |s.written| + 1);
      var t1 := s.(responses := [item], accepted := accepted);
      var t2 := s.(accepted := accepted, writer := Writing(item));
      && Apply([], stream, s, Accept(item)) == Some(t1)
      && Apply([], stream, t1, Take) == Some(t2)
      && Apply([], stream, t2, WriteDone) == Some(
           if item.Ok? then
             s.(accepted := accepted, written := s.written + [Packet(Message, id, item.payload)])
           else
             s.(accepted := accepted, written := s.written + [Packet(Error, id, ErrorBody(item.error))],
                writer := Ended(ByError)))
  {
    assert [] + [item] == [item] && [item][1..] == [];
  }

  /** The sink is dropped, and Close written. */
  lemma CloseSteps(stream: u64, s: State)
    requires Idle(s)
    ensures
      var t1 := s.(sinkDropped := true);
      var t2 := t1.(writer := Closing);
      && Apply([], stream, s, DropSink) == Some(t1)
      && Apply([], stream, t1, Take) == Some(t2)
      && Apply([], stream, t2, WriteDone) == Some(
           t1.(written := s.written + [Packet(Close, OutId(stream, |s.written| + 1), [])], writer := Ended(ByClose)))
  {
  }

  /** Three steps more. */
  lemma {:induction false} Thrice(stream: u64, steps: seq<Step>, a: Step, b: Step, c: Step)
    returns (longer: seq<Step>, t: State)
    requires Exec([], stream, steps).Some?
    requires Apply([], stream, Exec([], stream, steps).value, a).Some?
    requires Apply([], stream, Apply([], stream, Exec([], stream, steps).value, a).value, b).Some?
    requires
      var s1 := Apply([], stream, Exec([], stream, steps).value, a).value;
      Apply([], stream, Apply([], stream, s1, b).value, c).Some?
    ensures Exec([], stream, longer) == Some(t)
    ensures
      var s1 := Apply([], stream, Exec([], stream, steps).value, a).value;
      Some(t) == Apply([], stream, Apply([], stream, s1, b).value, c)
  {
    longer, t := Then([], stream, steps, Exec([], stream, steps).value, a);
    longer, t := Then([], stream, longer, t, b);
    longer, t := Then([], stream, longer, t, c);
  }

  /** The handler and the writer, and nobody else, have dealt with the first `k` sends, none of them an error. */
  ghost predicate WrittenOut(sends: seq<Reply>, full: seq<Packet>, s: State, k: nat) {
    k <= |sends| && k <= |full| && s == INITIAL.(accepted := sends[..k], written := full[..k])
  }

  lemma OneLonger<T>(xs: seq<T>, k: nat)
    requires k < |xs|
    ensures xs[..k + 1] == xs[..k] + [xs[k]]
    ensures k + 1 == |xs| ==> xs[..k + 1] == xs
  {
  }

  /** `full` starts with the Messages for the first `n` sends. */
  ghost predicate Starting(stream: u64, sends: seq<Reply>, full: seq<Packet>, n: nat) {
    && n <= |sends| && n <= |full|
    && (forall i :: 0 <= i < n ==> sends[i].Ok? && full[i] == Packet(Message, OutId(stream, i + 1), sends[i].payload))
  }

  lemma {:induction false} WriteUpTo(stream: u64, sends: seq<Reply>, full: seq<Packet>, n: nat, k: nat)
    returns (steps: seq<Step>, s: State)
    requires Starting(stream, sends, full, n) && k <= n
    ensures Exec([], stream, steps) == Some(s) && WrittenOut(sends, full, s, k)
    decreases k
  {
    if k == 0 {
      steps, s := [], INITIAL;
      assert sends[..0] == [] && full[..0] == [];
    } else {
      steps, s := WriteUpTo(stream, sends, full, n, k - 1);
      SendSteps(stream, s, sends[k - 1]);
      steps, s := Thrice(stream, steps, Accept(sends[k - 1]), Take, WriteDone);
      OneLonger(sends, k - 1);
      OneLonger(full, k - 1);
    }
  }

  /** The whole response has been written, the last packet being a Close or the first error. */
  ghost predicate WroteAll(sends: seq<Reply>, full: seq<Packet>, s: State, k: nat) {
    && s.accepted == sends[..Min(k + 1, |sends|)] && s.written == full
    && s.writer == Ended(if k < |sends| then ByError else ByClose)
  }

  lemma {:induction false} WriteAll(stream: u64, sends: seq<Reply>, full: seq<Packet>, k: nat)
    returns (steps: seq<Step>)
    requires Starting(stream, sends, full, k) && |full| == k + 1
    requires k < |sends| ==> sends[k].Err? && full[k] == Packet(Error, OutId(stream, k + 1), ErrorBody(sends[k].error))
    requires k == |sends| ==> full[k] == Packet(Close, OutId(stream, k + 1), [])
    ensures Exec([], stream, steps).Some? && WroteAll(sends, full, Exec([], stream, steps).value, k)
  {
    var s;
    steps, s := WriteUpTo(stream, sends, full, k, k);
    OneLonger(full, k);
    if k < |sends| {
      OneLonger(sends, k);
      SendSteps(stream, s, sends[k]);
      steps, s := Thrice(stream, steps, Accept(sends[k]), Take, WriteDone);
    } else {
      CloseSteps(stream, s);
      steps, s := Thrice(stream, steps, DropSink, Take, WriteDone);
    }
  }

  /** Whatever the handler sends, some run writes the whole response to it: up to Close, or to the first error. */
  lemma WholeResponseCanBeWritten(stream: u64, sends: seq<Reply>) returns (steps: seq<Step>)
    ensures Exec([], stream, steps).Some?
    ensures WroteAll(sends, Replies(stream, 1, sends), Exec([], stream, steps).value, LeadingOk(sends))
  {
    RepliesFrom(stream, 1, sends);
    steps := WriteAll(stream, sends, Replies(stream, 1, sends), LeadingOk(sends));
  }

  // --------------------------------------------------------- from byte to byte

  /** What the reader pump will find on a connection that decodes to `t`. */
  function Arrivals(t: Transcript): seq<Arrival>
    decreases |t.packets|
  {
    if t.packets == [] then [Broken]
    else [Got(t.packets[0])] + Arrivals(Transcript(t.packets[1..], t.end))
  }

  /** The Message payloads before the first CloseSend, Cancel or Close. */
  function Uploaded(ps: seq<Packet>): seq<Bytes> {
    if ps == [] || ps[0].kind in {CloseSend, Cancel, Close} then []
    else (if ps[0].kind == Message then [ps[0].data] else []) + Uploaded(ps[1..])
  }

  lemma {:induction false} ArrivingRequests(t: Transcript)
    ensures Requests(Arrivals(t)) == Uploaded(t.packets)
    decreases |t.packets|
  {
    if t.packets != [] {
      var rest := Transcript(t.packets[1..], t.end);
      assert Arrivals(t)[1..] == Arrivals(rest);
      ArrivingRequests(rest);
    }
  }

  /**
   * A bidi call from end to end: on whatever bytes the client sends, in every
   * interleaving, the handler has received a prefix of the payloads that follow
   * the Invoke on the wire, and whatever has been written reads at the client
   * as a prefix of what the handler sent, all of it once the call has ended.
   */
  lemma {:induction false} BidiEndToEnd(input: seq<byte>, h: Handlers, t: Transport, steps: seq<Step>)
    requires Serve(input, h, t).served.Bidi?
    requires
      var served := Serve(input, h, t).served;
      Prelude(input, []).Done? && Exec(Arrivals(ReadAll(Prelude(input, []).rest)), served.stream, steps).Some?
    ensures
      var ps, served := ReadAll(input).packets, Serve(input, h, t).served;
      var md := LeadingMetadata(ps);
      var s := Exec(Arrivals(ReadAll(Prelude(input, []).rest)), served.stream, steps).value;
      var full := Replies(served.stream, 1, s.accepted);
      && |md| < |ps| && served == Bidi(Context(ps[|md|].data, md), ps[|md|].id.stream)
      && s.received <= Uploaded(ps[|md| + 1..])
      && ReadAll(EncodePackets(s.written)).packets <= full
      && (s.writer in {Ended(ByClose), Ended(ByError)} && FitsCap(full) ==>
            ReadAll(EncodePackets(s.written)) == Transcript(full, Closed))
  {
    BidiContext(input, h, t);
    PreludeMeaning(input);
    var stream, rest := Serve(input, h, t).served.stream, ReadAll(Prelude(input, []).rest);
    EveryRunKeepsPromises(Arrivals(rest), stream, steps);
    ArrivingRequests(rest);
    var s := Exec(Arrivals(rest), stream, steps).value;
    WrittenReads(s.written, Replies(stream, 1, s.accepted));
  }

  /** A client reads at most what was written, and all of it when it fits. */
  lemma {:induction false} WrittenReads(written: seq<Packet>, full: seq<Packet>)
    requires written <= full
    ensures ReadAll(EncodePackets(written)).packets <= full
    ensures written == full && FitsCap(full) ==> ReadAll(EncodePackets(written)) == Transcript(full, Closed)
  {
    var bytes := EncodePackets(written);
    BrokenOffIsPrefix(written, |bytes|);
    assert bytes[..|bytes|] == bytes;
    if FitsCap(full) {
      WrittenIsRead(written);
    }
  }
}
