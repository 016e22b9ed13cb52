// The per-stream DRPC server: prelude, routing, and the unary and server-stream
// drivers (crates/coder-agent-rpc/src/server.rs). The bidi driver is in DrpcBidi.
module DrpcServer {
  import opened Common
  import opened DrpcWire

  const MAX_INVOKE_METADATA_PACKETS := 16

  /** A Rust `String` as bytes; no allocation exceeds `isize::MAX`. */
  type Text = s: seq<byte> | |s| < 0x8000_0000_0000_0000

  /** A handler's error, with its text as rendered for the wire. */
  datatype RpcError = Unimplemented(text: Text) | InvalidArgument(text: Text) | Internal(text: Text)

  datatype Reply = Ok(payload: Bytes) | Err(error: RpcError)

  /**
   * What a server-stream handler answers: an error; a stream that has yielded
   * `items` so far and has ended or not; or nothing as yet.
   */
  datatype StreamStart = Refuse(error: RpcError) | Yield(items: seq<Reply>, ends: bool) | Silent

  /** The DRPC code of an error. */
  function ErrorCode(e: RpcError): byte {
    match e
    case Unimplemented(_) => 12
    case InvalidArgument(_) => 3
    case Internal(_) => 13
  }

  /** The body of an Error packet: the code as eight big-endian bytes, then the rendered text. */
  function ErrorBody(e: RpcError): Bytes {
    [0, 0, 0, 0, 0, 0, 0, ErrorCode(e)] + e.text
  }

  // ------------------------------------------------ what one RPC writes back

  /** The id of the n-th packet sent on `stream`: a 64-bit counter that starts at 1. */
  function OutId(stream: u64, n: nat): PacketId {
    PacketId(stream, n % U64_RANGE)
  }

  /** All packets owed for `items`, the first of them being number `n`. */
  function Replies(stream: u64, n: nat, items: seq<Reply>): (ps: seq<Packet>)
    ensures ps != []
    decreases |items|
  {
    if items == [] then [Packet(Close, OutId(stream, n), [])]
    else match items[0]
    case Ok(payload) => [Packet(Message, OutId(stream, n), payload)] + Replies(stream, n + 1, items[1..])
    case Err(e) => [Packet(Error, OutId(stream, n), ErrorBody(e))]
  }

  /** How many items come before the first error. */
  function LeadingOk(items: seq<Reply>): (n: nat)
    ensures n <= |items|
    ensures forall i :: 0 <= i < n ==> items[i].Ok?
    ensures n < |items| ==> items[n].Err?
  {
    if items == [] || items[0].Err? then 0 else 1 + LeadingOk(items[1..])
  }

  /** Message packets only, then one Close or Error, all on `stream`, numbered 1, 2, 3 and so on. */
  ghost predicate CompleteResponse(ps: seq<Packet>, stream: u64) {
    && ps != []
    && (forall i :: 0 <= i < |ps| ==> ps[i].id.stream == stream && ps[i].id.message == (i + 1) % U64_RANGE)
    && (forall i :: 0 <= i < |ps| - 1 ==> ps[i].kind == Message)
    && (ps[|ps| - 1].kind == Close || ps[|ps| - 1].kind == Error)
  }

  lemma {:induction false} RepliesFrom(stream: u64, n: nat, items: seq<Reply>)
    ensures
      var ps, k := Replies(stream, n, items), LeadingOk(items);
      && |ps| == k + 1
      && (forall i :: 0 <= i < k ==> ps[i] == Packet(Message, OutId(stream, n + i), items[i].payload))
      && ps[k] == (if k == |items| then Packet(Close, OutId(stream, n + k), [])
                   else Packet(Error, OutId(stream, n + k), ErrorBody(items[k].error)))
    decreases |items|
  {
    if items != [] && items[0].Ok? {
      RepliesFrom(stream, n + 1, items[1..]);
      var ps, rest, k := Replies(stream, n, items), Replies(stream, n + 1, items[1..]), LeadingOk(items);
      forall i | 0 <= i < k
        ensures ps[i] == Packet(Message, OutId(stream, n + i), items[i].payload)
      {
        if i > 0 {
          assert ps[i] == rest[i - 1] && items[1..][i - 1] == items[i];
        }
      }
      assert ps[k] == rest[k - 1];
    }
  }

  /**
   * The response says exactly what the handler produced: its payloads in order
   * up to the first error, then that error, or Close when there was none.
   */
  lemma {:induction false} ResponseMeaning(stream: u64, items: seq<Reply>)
    ensures CompleteResponse(Replies(stream, 1, items), stream)
    ensures |Replies(stream, 1, items)| == LeadingOk(items) + 1
    ensures forall i :: 0 <= i < LeadingOk(items) ==> Replies(stream, 1, items)[i].data == items[i].payload
    ensures Replies(stream, 1, items)[LeadingOk(items)].kind == (if LeadingOk(items) == |items| then Close else Error)
  {
    RepliesFrom(stream, 1, items);
  }

  // ----------------------------------------------------------- one RPC, whole

  /** How the server returned; Waiting when the handler owes it more. */
  datatype Served = Finished | Failed(error: DrpcError) | Bidi(ctx: Context, stream: u64) | Waiting

  datatype Context = Context(path: Bytes, metadata: seq<Bytes>)

  /** The user code behind the server; the unary one is `dispatch`, None while it has not answered. */
  datatype Handlers = Handlers(
    validUtf8: Bytes -> bool,
    bidi: set<Bytes>,
    serverStream: map<Bytes, (Context, Bytes) -> StreamStart>,
    unary: (Bytes, Bytes) -> Option<Reply>)

  /** A run of the server: the bytes it wrote, and how it returned. */
  datatype Session = Session(written: seq<byte>, served: Served)

  /** A transport that takes `room` more bytes and then fails, and flushes `flushes` more times and then fails. */
  datatype Transport = Transport(room: nat, flushes: nat)

  /** What one `write_packet` leaves on the wire: the whole frame, or the part that fitted. */
  function Wrote(t: Transport, p: Packet): seq<byte> {
    if |PacketBytes(p)| <= t.room then PacketBytes(p) else PacketBytes(p)[..t.room]
  }

  /** The transport after a `write_packet`; None when the write or the flush failed. */
  function AfterWrite(t: Transport, p: Packet): Option<Transport> {
    if |PacketBytes(p)| <= t.room && t.flushes > 0
    then Some(Transport(t.room - |PacketBytes(p)|, t.flushes - 1)) else None
  }

  function Ahead(bytes: seq<byte>, s: Session): Session {
    Session(bytes + s.written, s.served)
  }

  /** Writing `ps` and then returning `last`. */
  function Send(ps: seq<Packet>, t: Transport, last: Served): Session
    decreases |ps|
  {
    if ps == [] then Session([], last)
    else match AfterWrite(t, ps[0])
    case None => Session(Wrote(t, ps[0]), Failed(Io))
    case Some(t') => Ahead(Wrote(t, ps[0]), Send(ps[1..], t', last))
  }

  /** What the routed handler produces for a request body, and whether there is an end to it. */
  datatype Produced = Produced(items: seq<Reply>, ends: bool)

  function Produce(h: Handlers, ctx: Context, body: Bytes): Produced {
    if ctx.path in h.serverStream then
      match h.serverStream[ctx.path](ctx, body)
      case Refuse(e) => Produced([Err(e)], true)
      case Yield(items, ends) => Produced(items, ends)
      case Silent => Produced([], false)
    else match h.unary(ctx.path, body)
    case None => Produced([], false)
    case Some(reply) => Produced([reply], true)
  }

  /** Whether the response to `made` is complete: the handler ended, or failed. */
  predicate Concludes(made: Produced) {
    made.ends || LeadingOk(made.items) < |made.items|
  }

  /** The packets due for `made`: without an end there is no Close. */
  function Due(stream: u64, n: nat, made: Produced): seq<Packet> {
    var all := Replies(stream, n, made.items);
    if Concludes(made) then all else all[..|all| - 1]
  }

  function Answered(stream: u64, n: nat, made: Produced, t: Transport): Session {
    Send(Due(stream, n, made), t, if Concludes(made) then Finished else Waiting)
  }

  /** Reads the request and sends what the handler makes of it, on the request's own stream id. */
  function Exchange(input: seq<byte>, h: Handlers, ctx: Context, t: Transport): Session {
    match ReadPacket(input)
    case Fail(e) => Session([], Failed(e))
    case Done(p, _) =>
      match p.kind
      case Message => Answered(p.id.stream, 1, Produce(h, ctx, p.data), t)
      case Cancel => Session([], Finished)
      case Close => Session([], Finished)
      case _ => Session([], Failed(Protocol))
  }

  datatype Invocation = Invocation(metadata: seq<Bytes>, invoke: Packet)

  /** Collects metadata until the Invoke packet. */
  function Prelude(input: seq<byte>, metadata: seq<Bytes>): (r: Read<Invocation>)
    ensures r.Done? ==> |r.rest| < |input|
    decreases |input|
  {
    match ReadPacket(input)
    case Fail(e) => Fail(e)
    case Done(p, rest) =>
      match p.kind
      case InvokeMetadata =>
        if |metadata| + 1 > MAX_INVOKE_METADATA_PACKETS then Fail(Protocol) else Prelude(rest, metadata + [p.data])
      case Invoke => Done(Invocation(metadata, p), rest)
      case _ => Fail(Protocol)
  }

  function Serve(input: seq<byte>, h: Handlers, t: Transport): Session {
    match Prelude(input, [])
    case Fail(e) => Session([], Failed(e))
    case Done(inv, rest) =>
      var name := inv.invoke.data;
      var ctx := Context(name, inv.metadata);
      if !h.validUtf8(name) then Session([], Failed(Protocol))
      else if name in h.bidi then Session([], Bidi(ctx, inv.invoke.id.stream))
      else Exchange(rest, h, ctx, t)
  }

  // -------------------------------------------------------------- main results

  /** The payloads of the metadata packets that open `ps`, in order. */
  function LeadingMetadata(ps: seq<Packet>): (md: seq<Bytes>)
    ensures |md| <= |ps|
    ensures forall i :: 0 <= i < |md| ==> ps[i].kind == InvokeMetadata && md[i] == ps[i].data
    ensures |md| < |ps| ==> ps[|md|].kind != InvokeMetadata
  {
    if ps == [] || ps[0].kind != InvokeMetadata then [] else [ps[0].data] + LeadingMetadata(ps[1..])
  }

  /** The packets `ps` start an RPC whose context already holds `metadata`. */
  ghost predicate Starts(ps: seq<Packet>, metadata: seq<Bytes>) {
    var md := LeadingMetadata(ps);
    |metadata| + |md| <= MAX_INVOKE_METADATA_PACKETS && |md| < |ps| && ps[|md|].kind == Invoke
  }

  /** The RPC that `ps` start, `after` being the packets left for the driver. */
  ghost predicate Started(ps: seq<Packet>, metadata: seq<Bytes>, inv: Invocation, after: seq<Packet>)
    requires Starts(ps, metadata)
  {
    var md := LeadingMetadata(ps);
    inv == Invocation(metadata + md, ps[|md|]) && after == ps[|md| + 1..]
  }

  /** Why no RPC starts: too much metadata, something else in place of the Invoke, or the end of the stream. */
  ghost function NoStartError(t: Transcript, metadata: seq<Bytes>): DrpcError {
    var md := LeadingMetadata(t.packets);
    if |metadata| + |md| > 16 || |md| < |t.packets| then Protocol else t.end
  }

  lemma StartsLater(p: Packet, ps: seq<Packet>, metadata: seq<Bytes>, inv: Invocation, after: seq<Packet>)
    requires p.kind == InvokeMetadata
    ensures Starts([p] + ps, metadata) <==> Starts(ps, metadata + [p.data])
    ensures Starts(ps, metadata + [p.data]) && Started(ps, metadata + [p.data], inv, after) ==>
              Started([p] + ps, metadata, inv, after)
  {
    var all := [p] + ps;
    assert all[1..] == ps;
    var md := LeadingMetadata(ps);
    assert LeadingMetadata(all) == [p.data] + md;
    assert metadata + [p.data] + md == metadata + ([p.data] + md);
    if |md| < |ps| {
      assert all[|md| + 1] == ps[|md|] && all[|md| + 2..] == ps[|md| + 1..];
    }
  }

  lemma {:induction false} PreludeFrom(input: seq<byte>, metadata: seq<Bytes>)
    requires |metadata| <= MAX_INVOKE_METADATA_PACKETS
    ensures
      var ps, r := ReadAll(input).packets, Prelude(input, metadata);
      && (r.Done? <==> Starts(ps, metadata))
      && (r.Done? ==> Started(ps, metadata, r.value, ReadAll(r.rest).packets))
      && (r.Done? ==> ReadAll(r.rest).end == ReadAll(input).end)
      && (r.Fail? ==> r.error == NoStartError(ReadAll(input), metadata))
    decreases |input|
  {
    match ReadPacket(input)
    case Fail(_) =>
      assert ReadAll(input).packets == [];
    case Done(p, rest) =>
      var qs := ReadAll(rest).packets;
      assert ReadAll(input).packets == [p] + qs;
      if p.kind == InvokeMetadata {
        if |metadata| + 1 <= MAX_INVOKE_METADATA_PACKETS {
          PreludeFrom(rest, metadata + [p.data]);
          var r := Prelude(rest, metadata + [p.data]);
          if r.Done? {
            StartsLater(p, qs, metadata, r.value, ReadAll(r.rest).packets);
          } else {
            StartsLater(p, qs, metadata, Invocation([], p), []);
          }
        }
      } else {
        assert LeadingMetadata([p] + qs) == [];
        assert metadata + [] == metadata && ([p] + qs)[1..] == qs;
      }
  }

  /**
   * An RPC starts exactly when the packets on the wire are at most sixteen
   * InvokeMetadata followed by an Invoke; the handler's context then holds
   * those payloads in arrival order, and the driver sees what follows.
   */
  lemma {:induction false} PreludeMeaning(input: seq<byte>)
    ensures
      var ps, r := ReadAll(input).packets, Prelude(input, []);
      var md := LeadingMetadata(ps);
      && (r.Done? <==> |md| <= 16 && |md| < |ps| && ps[|md|].kind == Invoke)
      && (r.Done? ==> r.value == Invocation(md, ps[|md|]))
      && (r.Done? ==> ReadAll(r.rest) == Transcript(ps[|md| + 1..], ReadAll(input).end))
      && (r.Fail? ==> r.error == if |md| > 16 || |md| < |ps| then Protocol else ReadAll(input).end)
  {
    PreludeFrom(input, []);
    var ps, r := ReadAll(input).packets, Prelude(input, []);
    if r.Done? {
      StartedFromNothing(ps, r.value, ReadAll(r.rest).packets);
    }
  }

  lemma {:induction false} StartedFromNothing(ps: seq<Packet>, inv: Invocation, after: seq<Packet>)
    requires Starts(ps, []) && Started(ps, [], inv, after)
    ensures
      var md := LeadingMetadata(ps);
      inv == Invocation(md, ps[|md|]) && after == ps[|md| + 1..]
  {
    assert [] + LeadingMetadata(ps) == LeadingMetadata(ps);
  }

  /**
   * What gets out is the beginning of what was to be sent, cut at any byte by a
   * failure; all of it otherwise.
   */
  lemma {:induction false} SentIsPrefix(ps: seq<Packet>, t: Transport, last: Served)
    ensures
      var s := Send(ps, t, last);
      && s.written <= EncodePackets(ps)
      && (s.served == Failed(Io) || (s.served == last && s.written == EncodePackets(ps)))
    decreases |ps|
  {
    if ps != [] {
      var b := PacketBytes(ps[0]);
      assert Wrote(t, ps[0]) <= b;
      var t' := AfterWrite(t, ps[0]);
      if t'.Some? {
        SentIsPrefix(ps[1..], t'.value, last);
        assert EncodePackets(ps) == b + EncodePackets(ps[1..]);
      }
    }
  }

  /** With enough room, everything gets out. */
  lemma {:induction false} AllSent(ps: seq<Packet>, t: Transport, last: Served)
    requires |EncodePackets(ps)| <= t.room && |ps| <= t.flushes
    ensures Send(ps, t, last) == Session(EncodePackets(ps), last)
    decreases |ps|
  {
    if ps != [] {
      AllSent(ps[1..], Transport(t.room - |PacketBytes(ps[0])|, t.flushes - 1), last);
    }
  }

  /**
   * The bytes written are nothing, or belong to a complete response: all of it
   * when the server finished, whole Messages while it waits for the handler,
   * and any part of it, even all, when the transport failed.
   */
  ghost predicate ResponseShape(s: Session) {
    || s.written == []
    || exists full, stream :: CompleteResponse(full, stream) && PartOf(s, full)
  }

  ghost predicate PartOf(s: Session, full: seq<Packet>)
    requires full != []
  {
    match s.served
    case Finished => s.written == EncodePackets(full)
    case Waiting => s.written == EncodePackets(full[..|full| - 1])
    case Failed(Io) => s.written <= EncodePackets(full)
    case _ => false
  }

  lemma {:induction false} EncodeFront(ps: seq<Packet>, k: nat)
    requires k <= |ps|
    ensures EncodePackets(ps[..k]) <= EncodePackets(ps)
    decreases k
  {
    if k > 0 {
      EncodeFront(ps[1..], k - 1);
      assert ps[..k][1..] == ps[1..][..k - 1];
    }
  }

  lemma {:induction false} AnsweredShape(stream: u64, made: Produced, t: Transport)
    ensures PartOf(Answered(stream, 1, made, t), Replies(stream, 1, made.items))
  {
    var full := Replies(stream, 1, made.items);
    SentIsPrefix(Due(stream, 1, made), t, if Concludes(made) then Finished else Waiting);
    EncodeFront(full, |full| - 1);
  }

  lemma ExchangeShape(input: seq<byte>, h: Handlers, ctx: Context, t: Transport)
    ensures ResponseShape(Exchange(input, h, ctx, t))
  {
    var r := ReadPacket(input);
    if r.Done? && r.value.kind == Message {
      var stream, made := r.value.id.stream, Produce(h, ctx, r.value.data);
      ResponseMeaning(stream, made.items);
      AnsweredShape(stream, made, t);
      assert CompleteResponse(Replies(stream, 1, made.items), stream);
    }
  }

  /**
   * Whatever the client sends and the handlers do, and wherever the transport
   * fails, the server writes nothing, or Messages and one final Close or Error
   * on one stream id numbered from 1, or the part of that which got out.
   */
  lemma EveryResponseIsWellFormed(input: seq<byte>, h: Handlers, t: Transport)
    ensures ResponseShape(Serve(input, h, t))
  {
    var r, s := Prelude(input, []), Serve(input, h, t);
    if r.Done? && h.validUtf8(r.value.invoke.data) && r.value.invoke.data !in h.bidi {
      ExchangeShape(r.rest, h, Context(r.value.invoke.data, r.value.metadata), t);
    } else {
      assert s.written == [];
    }
  }

  /** A call handed to the bidi driver: nothing written yet, and the context is that of the prelude. */
  lemma {:induction false} BidiContext(input: seq<byte>, h: Handlers, t: Transport)
    requires Serve(input, h, t).served.Bidi?
    ensures
      var r, s := Prelude(input, []), Serve(input, h, t);
      && r.Done? && s.written == []
      && s.served == Bidi(Context(r.value.invoke.data, r.value.metadata), r.value.invoke.id.stream)
      && |r.value.metadata| <= MAX_INVOKE_METADATA_PACKETS
  {
    PreludeMeaning(input);
    var r := Prelude(input, []);
    if r.Done? {
      NotBidi(r.rest, h, Context(r.value.invoke.data, r.value.metadata), t);
    }
  }

  lemma NotBidi(input: seq<byte>, h: Handlers, ctx: Context, t: Transport)
    ensures !Exchange(input, h, ctx, t).served.Bidi?
  {
    var r := ReadPacket(input);
    if r.Done? && r.value.kind == Message {
      AnsweredShape(r.value.id.stream, Produce(h, ctx, r.value.data), t);
    }
  }

  /** So whatever happens, what the client reads is a prefix of one complete response. */
  lemma ClientReadsPrefix(input: seq<byte>, h: Handlers, t: Transport)
    ensures
      var seen := ReadAll(Serve(input, h, t).written).packets;
      seen == [] || exists full, stream :: CompleteResponse(full, stream) && seen <= full
  {
    EveryResponseIsWellFormed(input, h, t);
    var s := Serve(input, h, t);
    if s.written != [] {
      var full, stream :| CompleteResponse(full, stream) && PartOf(s, full);
      PartReads(s, full);
    } else {
      NothingReads();
    }
  }

  lemma NothingReads()
    ensures ReadAll([]).packets == []
  {
  }

  lemma PartReads(s: Session, full: seq<Packet>)
    requires full != [] && PartOf(s, full)
    ensures ReadAll(s.written).packets <= full
  {
    EncodeFront(full, |full| - 1);
    PrefixReads(s.written, full);
  }

  lemma {:induction false} PrefixReads(bytes: seq<byte>, full: seq<Packet>)
    requires bytes <= EncodePackets(full)
    ensures ReadAll(bytes).packets <= full
  {
    assert bytes == EncodePackets(full)[..|bytes|];
    BrokenOffIsPrefix(full, |bytes|);
  }

  ghost predicate FitsCap(ps: seq<Packet>) {
    forall p :: p in ps ==> |p.data| <= MAX_PACKET_SIZE
  }

  /** The payloads of a list of packets. */
  function Payloads(ps: seq<Packet>): (data: seq<Bytes>)
    ensures |data| == |ps| && forall i :: 0 <= i < |ps| ==> data[i] == ps[i].data
  {
    if ps == [] then [] else [ps[0].data] + Payloads(ps[1..])
  }

  lemma {:induction false} LeadingMetadataOf(opening: seq<Packet>, others: seq<Packet>)
    requires forall p :: p in opening ==> p.kind == InvokeMetadata
    requires others != [] && others[0].kind != InvokeMetadata
    ensures LeadingMetadata(opening + others) == Payloads(opening)
  {
    if opening == [] {
      assert opening + others == others;
    } else {
      assert (opening + others)[1..] == opening[1..] + others;
      LeadingMetadataOf(opening[1..], others);
    }
  }

  /** The bytes `input` decode to metadata, an Invoke and whatever follows. */
  ghost predicate IsCall(input: seq<byte>, opening: seq<Packet>, invoke: Packet, rest: seq<Packet>) {
    && |opening| <= 16 && (forall p :: p in opening ==> p.kind == InvokeMetadata)
    && invoke.kind == Invoke
    && ReadAll(input).packets == opening + ([invoke] + rest)
  }

  lemma {:induction false} PreludeOf(input: seq<byte>, opening: seq<Packet>, invoke: Packet, rest: seq<Packet>)
    requires IsCall(input, opening, invoke, rest)
    ensures
      var r := Prelude(input, []);
      && r.Done? && r.value == Invocation(Payloads(opening), invoke)
      && ReadAll(r.rest) == Transcript(rest, ReadAll(input).end)
  {
    PreludeMeaning(input);
    LeadingMetadataOf(opening, [invoke] + rest);
    AfterInvoke(opening, invoke, rest);
  }

  lemma AfterInvoke(opening: seq<Packet>, invoke: Packet, rest: seq<Packet>)
    ensures
      var ps, n := opening + ([invoke] + rest), |opening|;
      |ps| > n && ps[n] == invoke && ps[n + 1..] == rest
  {
  }

  lemma {:induction false} FirstOfAll(input: seq<byte>, p: Packet)
    requires ReadAll(input).packets != [] && ReadAll(input).packets[0] == p
    ensures ReadPacket(input).Done? && ReadPacket(input).value == p
  {
    var first := ReadPacket(input);
    if first.Done? {
      assert ReadAll(input) == Prepend(first.value, ReadAll(first.rest));
    }
  }

  /** The bytes of an Error packet's body for `e`: the code as eight bytes, big-endian, then the text. */
  ghost predicate IsErrorBody(data: Bytes, e: RpcError) {
    && |data| >= 8 && data[8..] == e.text
    && (forall i :: 0 <= i < 7 ==> data[i] == 0)
    && data[7] == (if e.Unimplemented? then 12 else if e.InvalidArgument? then 3 else 13)
  }

  lemma ErrorBodyIs(e: RpcError)
    ensures IsErrorBody(ErrorBody(e), e)
  {
  }

  /**
   * The server answers with `ps` and then returns `last`: with room enough all
   * of it gets out and is what the client decodes, and in any case nothing but
   * the beginning of it.
   */
  ghost predicate AnswersWith(s: Session, t: Transport, ps: seq<Packet>, last: Served) {
    && s.written <= EncodePackets(ps)
    && (|EncodePackets(ps)| <= t.room && |ps| <= t.flushes ==>
          && s == Session(EncodePackets(ps), last)
          && (FitsCap(ps) ==> ReadAll(s.written) == Transcript(ps, Closed)))
  }

  lemma {:induction false} SendAnswers(ps: seq<Packet>, t: Transport, last: Served)
    ensures AnswersWith(Send(ps, t, last), t, ps, last)
  {
    SentIsPrefix(ps, t, last);
    if |EncodePackets(ps)| <= t.room && |ps| <= t.flushes {
      AllSent(ps, t, last);
      if FitsCap(ps) {
        WrittenIsRead(ps);
      }
    }
  }

  /** The server's part in a call to a method that is not bidi. */
  lemma {:induction false} ServesRequest(input: seq<byte>, opening: seq<Packet>, invoke: Packet, request: Packet,
                                         more: seq<Packet>, h: Handlers, t: Transport)
    requires IsCall(input, opening, invoke, [request] + more) && h.validUtf8(invoke.data) && invoke.data !in h.bidi
    ensures
      var made := Produce(h, Context(invoke.data, Payloads(opening)), request.data);
      Serve(input, h, t) ==
      if request.kind == Message then Answered(request.id.stream, 1, made, t)
      else Session([], if request.kind == Cancel || request.kind == Close then Finished else Failed(Protocol))
  {
    PreludeOf(input, opening, invoke, [request] + more);
    FirstOfAll(Prelude(input, []).rest, request);
  }

  /** Cancel or Close in place of the request ends the call in silence; anything else is a protocol error. */
  lemma NotARequest(input: seq<byte>, opening: seq<Packet>, invoke: Packet, other: Packet, more: seq<Packet>,
                    h: Handlers, t: Transport)
    requires IsCall(input, opening, invoke, [other] + more) && h.validUtf8(invoke.data) && invoke.data !in h.bidi
    requires other.kind != Message
    ensures Serve(input, h, t) ==
            Session([], if other.kind == Cancel || other.kind == Close then Finished else Failed(Protocol))
  {
    ServesRequest(input, opening, invoke, other, more, h, t);
  }

  /** A stream that ends behind the Invoke fails with the error that ended it. */
  lemma {:induction false} NoRequest(input: seq<byte>, opening: seq<Packet>, invoke: Packet, h: Handlers, t: Transport)
    requires IsCall(input, opening, invoke, []) && h.validUtf8(invoke.data) && invoke.data !in h.bidi
    ensures Serve(input, h, t) == Session([], Failed(ReadAll(input).end))
  {
    PreludeOf(input, opening, invoke, []);
    var rest := Prelude(input, []).rest;
    var first := ReadPacket(rest);
    assert first.Done? ==> ReadAll(rest) == Prepend(first.value, ReadAll(first.rest));
  }

  /** A method name that is not UTF-8 is a protocol error; a bidi method goes to the bidi driver before all others. */
  lemma {:induction false} MethodRouting(input: seq<byte>, opening: seq<Packet>, invoke: Packet, rest: seq<Packet>,
                                         h: Handlers, t: Transport)
    requires IsCall(input, opening, invoke, rest)
    ensures !h.validUtf8(invoke.data) ==> Serve(input, h, t) == Session([], Failed(Protocol))
    ensures h.validUtf8(invoke.data) && invoke.data in h.bidi ==>
              Serve(input, h, t) == Session([], Bidi(Context(invoke.data, Payloads(opening)), invoke.id.stream))
  {
    PreludeOf(input, opening, invoke, rest);
  }

  /** No call: too much metadata or another packet in place of the Invoke is a protocol error. */
  lemma {:induction false} NoInvoke(input: seq<byte>, h: Handlers, t: Transport)
    requires
      var ps := ReadAll(input).packets;
      var md := LeadingMetadata(ps);
      |md| > 16 || |md| == |ps| || ps[|md|].kind != Invoke
    ensures
      var ps := ReadAll(input).packets;
      var md := LeadingMetadata(ps);
      Serve(input, h, t) == Session([], Failed(if |md| > 16 || |md| < |ps| then Protocol else ReadAll(input).end))
  {
    PreludeMeaning(input);
  }

  /**
   * A unary call from end to end: on bytes that decode to metadata, Invoke,
   * request and whatever else, the handler is asked for that method with that
   * request's body, and the client decodes its answer: one Message with the
   * payload and a Close, or one Error.
   */
  lemma UnaryCall(input: seq<byte>, opening: seq<Packet>, invoke: Packet, request: Packet, more: seq<Packet>,
                  h: Handlers, t: Transport) returns (body: Bytes)
    requires IsCall(input, opening, invoke, [request] + more) && h.validUtf8(invoke.data)
    requires invoke.data !in h.bidi && invoke.data !in h.serverStream && request.kind == Message
    ensures
      var s, answer, stream := Serve(input, h, t), h.unary(invoke.data, request.data), request.id.stream;
      && (answer.None? ==> s == Session([], Waiting))
      && (answer.Some? && answer.value.Ok? ==>
            AnswersWith(s, t, [Packet(Message, PacketId(stream, 1), answer.value.payload),
                               Packet(Close, PacketId(stream, 2), [])], Finished))
      && (answer.Some? && answer.value.Err? ==>
            && IsErrorBody(body, answer.value.error)
            && AnswersWith(s, t, [Packet(Error, PacketId(stream, 1), body)], Finished))
  {
    body := [];
    ServesRequest(input, opening, invoke, request, more, h, t);
    var answer, stream := h.unary(invoke.data, request.data), request.id.stream;
    if answer.None? {
      SilentAnswer(stream, t);
    } else {
      OneReply(stream, answer.value);
      SendAnswers(Due(stream, 1, Produced([answer.value], true)), t, Finished);
      if answer.value.Err? {
        body := ErrorBody(answer.value.error);
        ErrorBodyIs(answer.value.error);
        assert [Packet(Error, PacketId(stream, 1), body)] + [] == [Packet(Error, PacketId(stream, 1), body)];
      } else {
        var message := Packet(Message, PacketId(stream, 1), answer.value.payload);
        var close := Packet(Close, PacketId(stream, 2), []);
        assert [message] + [close] == [message, close];
      }
    }
  }

  /**
   * `ps` answers a stream of which `items` have come: a Message for each
   * payload, numbered from 1, up to the first error, which is sent and ends it,
   * or to a Close once the stream has ended.
   */
  ghost predicate IsStreamAnswer(ps: seq<Packet>, stream: u64, items: seq<Reply>, ends: bool, k: nat) {
    && k <= |items| && (forall i :: 0 <= i < k ==> items[i].Ok?) && (k < |items| ==> items[k].Err?)
    && |ps| == k + (if k < |items| || ends then 1 else 0)
    && (forall i :: 0 <= i < |ps| ==> ps[i].id.stream == stream && ps[i].id.message == (i + 1) % U64_RANGE)
    && (forall i :: 0 <= i < k ==> ps[i].kind == Message && ps[i].data == items[i].payload)
    && (k < |items| ==> ps[k].kind == Error && IsErrorBody(ps[k].data, items[k].error))
    && (k == |items| && ends ==> ps[k].kind == Close && ps[k].data == [])
  }

  lemma {:induction false} DueIsStreamAnswer(stream: u64, items: seq<Reply>, ends: bool)
    ensures IsStreamAnswer(Due(stream, 1, Produced(items, ends)), stream, items, ends, LeadingOk(items))
  {
    RepliesFrom(stream, 1, items);
    if LeadingOk(items) < |items| {
      ErrorBodyIs(items[LeadingOk(items)].error);
    }
  }

  /**
   * A server-stream call from end to end: the handler is asked with the
   * method, the metadata and the request's body, and the client decodes what
   * it answers: nothing as yet, one Error, or its items in order.
   */
  lemma StreamCall(input: seq<byte>, opening: seq<Packet>, invoke: Packet, request: Packet, more: seq<Packet>,
                   h: Handlers, t: Transport) returns (ps: seq<Packet>, k: nat)
    requires IsCall(input, opening, invoke, [request] + more) && h.validUtf8(invoke.data)
    requires invoke.data !in h.bidi && invoke.data in h.serverStream && request.kind == Message
    ensures
      var s := Serve(input, h, t);
      var start := h.serverStream[invoke.data](Context(invoke.data, Payloads(opening)), request.data);
      && (start.Silent? ==> s == Session([], Waiting))
      && (start.Refuse? ==>
            && |ps| == 1 && ps[0].kind == Error && ps[0].id == PacketId(request.id.stream, 1)
            && IsErrorBody(ps[0].data, start.error) && AnswersWith(s, t, ps, Finished))
      && (start.Yield? ==>
            && IsStreamAnswer(ps, request.id.stream, start.items, start.ends, k)
            && AnswersWith(s, t, ps, if k < |start.items| || start.ends then Finished else Waiting))
  {
    ps, k := [], 0;
    ServesRequest(input, opening, invoke, request, more, h, t);
    var stream := request.id.stream;
    var start := h.serverStream[invoke.data](Context(invoke.data, Payloads(opening)), request.data);
    match start {
      case Silent => SilentAnswer(stream, t);
      case Refuse(e) =>
        OneReply(stream, Err(e));
        ErrorBodyIs(e);
        ps := Due(stream, 1, Produced([Err(e)], true));
        SendAnswers(ps, t, Finished);
      case Yield(items, ends) =>
        ps, k := Due(stream, 1, Produced(items, ends)), LeadingOk(items);
        DueIsStreamAnswer(stream, items, ends);
        SendAnswers(ps, t, if Concludes(Produced(items, ends)) then Finished else Waiting);
    }
  }

  /** In one statement: what the client decodes is exactly what the routed handler produced. */
  lemma {:induction false} CallEndToEnd(input: seq<byte>, opening: seq<Packet>, invoke: Packet, request: Packet,
                                        more: seq<Packet>, h: Handlers, t: Transport)
    requires IsCall(input, opening, invoke, [request] + more)
    requires h.validUtf8(invoke.data) && invoke.data !in h.bidi && request.kind == Message
    ensures
      var made := Produce(h, Context(invoke.data, Payloads(opening)), request.data);
      var replies := Replies(request.id.stream, 1, made.items);
      Concludes(made) ==> AnswersWith(Serve(input, h, t), t, replies, Finished)
  {
    ServesRequest(input, opening, invoke, request, more, h, t);
    var made := Produce(h, Context(invoke.data, Payloads(opening)), request.data);
    SendAnswers(Due(request.id.stream, 1, made), t, if Concludes(made) then Finished else Waiting);
  }

  // --------------------------------------------------------------- the drivers

  /** Both directions of an accepted stream. */
  class Connection {
    const reader: ByteStream
    var written: seq<byte>
    var transport: Transport

    constructor (reader: ByteStream, transport: Transport)
      ensures this.reader == reader && this.transport == transport && written == []
    {
      this.reader := reader;
      this.transport := transport;
      written := [];
    }

    /** `write_packet`: write all of the frame, then flush; either may fail. */
    method WritePacket(p: Packet) returns (ok: bool)
      modifies this
      ensures written == old(written) + Wrote(old(transport), p)
      ensures ok == AfterWrite(old(transport), p).Some?
      ensures ok ==> transport == AfterWrite(old(transport), p).value
    {
      var buf := WriteFrame([], Frame(p.kind, p.id, p.data, true));
      assert buf == PacketBytes(p);
      if |buf| > transport.room {
        written := written + buf[..transport.room];
        transport := transport.(room := 0);
        return false;
      }
      written := written + buf;
      transport := transport.(room := transport.room - |buf|);
      if transport.flushes == 0 {
        return false;
      }
      transport := transport.(flushes := transport.flushes - 1);
      return true;
    }
  }

  /** The session `s` is what `conn` gained and how the driver returned. */
  ghost predicate Drove(s: Session, before: seq<byte>, after: seq<byte>, served: Served) {
    after == before + s.written && served == s.served
  }

  lemma {:induction false} SendStep(p: Packet, later: seq<Packet>, t: Transport, last: Served)
    ensures
      var s := Send([p] + later, t, last);
      match AfterWrite(t, p)
      case None => s == Session(Wrote(t, p), Failed(Io))
      case Some(t') => s == Ahead(Wrote(t, p), Send(later, t', last))
  {
    assert ([p] + later)[1..] == later;
  }

  method DriveUnary(conn: Connection, h: Handlers, ctx: Context) returns (r: Served)
    requires ctx.path !in h.serverStream
    modifies conn, conn.reader
    ensures Drove(Exchange(old(conn.reader.input), h, ctx, old(conn.transport)),
                  old(conn.written), conn.written, r)
  {
    var p := NextPacket(conn.reader);
    if p.Fail? {
      return Failed(p.error);
    }
    match p.value.kind {
      case Message =>
      case Cancel => return Finished;
      case Close => return Finished;
      case _ => return Failed(Protocol);
    }
    var stream := p.value.id.stream;
    var result := h.unary(ctx.path, p.value.data);
    if result.None? {
      SilentAnswer(stream, conn.transport);
      return Waiting;
    }
    r := SendReply(conn, stream, result.value);
  }

  lemma SilentAnswer(stream: u64, t: Transport)
    ensures Answered(stream, 1, Produced([], false), t) == Session([], Waiting)
  {
    assert Due(stream, 1, Produced([], false)) == [];
  }

  lemma OneReply(stream: u64, reply: Reply)
    ensures Concludes(Produced([reply], true))
    ensures Due(stream, 1, Produced([reply], true)) ==
            match reply
            case Ok(payload) => [Packet(Message, OutId(stream, 1), payload)] + [Packet(Close, OutId(stream, 2), [])]
            case Err(e) => [Packet(Error, OutId(stream, 1), ErrorBody(e))] + []
  {
    var items := [reply];
    assert items[1..] == [];
    if reply.Ok? {
      assert Replies(stream, 2, []) == [Packet(Close, OutId(stream, 2), [])];
      var message := Packet(Message, OutId(stream, 1), reply.payload);
      assert Replies(stream, 1, items) == [message] + Replies(stream, 2, items[1..]);
    }
  }

  /** The answer of `drive_unary`: Message and Close, or Error. */
  method SendReply(conn: Connection, stream: u64, reply: Reply) returns (r: Served)
    modifies conn
    ensures Drove(Answered(stream, 1, Produced([reply], true), old(conn.transport)),
                  old(conn.written), conn.written, r)
  {
    OneReply(stream, reply);
    var out := 0;
    match reply {
      case Ok(payload) =>
        out := out + 1;
        var message := Packet(Message, OutId(stream, out), payload);
        ghost var close := Packet(Close, OutId(stream, 2), []);
        SendStep(message, [close], conn.transport, Finished);
        var sent := conn.WritePacket(message);
        if !sent { return Failed(Io); }
        out := out + 1;
        SendStep(close, [], conn.transport, Finished);
        sent := conn.WritePacket(Packet(Close, OutId(stream, out), []));
        if !sent { return Failed(Io); }
      case Err(e) =>
        out := out + 1;
        var error := Packet(Error, OutId(stream, out), ErrorBody(e));
        SendStep(error, [], conn.transport, Finished);
        var sent := conn.WritePacket(error);
        if !sent { return Failed(Io); }
    }
    return Finished;
  }

  lemma DueNext(stream: u64, n: nat, payload: Bytes, rest: Produced)
    ensures
      var made := Produced([Ok(payload)] + rest.items, rest.ends);
      && Concludes(made) == Concludes(rest)
      && Due(stream, n, made) == [Packet(Message, OutId(stream, n), payload)] + Due(stream, n + 1, rest)
  {
    var items := [Ok(payload)] + rest.items;
    assert items[1..] == rest.items;
    var later := Replies(stream, n + 1, rest.items);
    assert Replies(stream, n, items) == [Packet(Message, OutId(stream, n), payload)] + later;
  }

  /** The packet that ends a response when no more payloads come. */
  function LastPacket(stream: u64, n: nat, items: seq<Reply>): Packet
    requires items == [] || items[0].Err?
  {
    if items == [] then Packet(Close, OutId(stream, n), [])
    else Packet(Error, OutId(stream, n), ErrorBody(items[0].error))
  }

  lemma DueLast(stream: u64, n: nat, items: seq<Reply>, ends: bool)
    requires items == [] || items[0].Err?
    ensures Concludes(Produced(items, ends)) <==> items != [] || ends
    ensures Due(stream, n, Produced(items, ends)) ==
            (if items != [] || ends then [LastPacket(stream, n, items)] else []) + []
  {
  }

  lemma Regroup(a: seq<byte>, b: seq<byte>, c: seq<byte>)
    ensures a + b + c == a + (b + c)
  {
  }

  lemma AheadTwice(a: seq<byte>, b: seq<byte>, s: Session)
    ensures Ahead(a, Ahead(b, s)) == Ahead(a + b, s)
  {
    Regroup(a, b, s.written);
  }

  /** One turn of the response loop, on values. */
  lemma NextItem(goal: Session, sent: seq<byte>, stream: u64, n: nat, items: seq<Reply>, ends: bool, t: Transport)
    requires items != [] && items[0].Ok?
    requires goal == Ahead(sent, Answered(stream, n, Produced(items, ends), t))
    ensures
      var p := Packet(Message, OutId(stream, n), items[0].payload);
      match AfterWrite(t, p)
      case None => goal == Session(sent + Wrote(t, p), Failed(Io))
      case Some(t') => goal == Ahead(sent + Wrote(t, p), Answered(stream, n + 1, Produced(items[1..], ends), t'))
  {
    var p, rest := Packet(Message, OutId(stream, n), items[0].payload), Produced(items[1..], ends);
    assert [Ok(items[0].payload)] + items[1..] == items;
    DueNext(stream, n, items[0].payload, rest);
    SendStep(p, Due(stream, n + 1, rest), t, if Concludes(rest) then Finished else Waiting);
    var t' := AfterWrite(t, p);
    if t'.Some? {
      AheadTwice(sent, Wrote(t, p), Answered(stream, n + 1, rest, t'.value));
    }
  }

  lemma LastItem(goal: Session, sent: seq<byte>, stream: u64, n: nat, items: seq<Reply>, ends: bool, t: Transport)
    requires items == [] || items[0].Err?
    requires goal == Ahead(sent, Answered(stream, n, Produced(items, ends), t))
    ensures
      var p := LastPacket(stream, n, items);
      if items == [] && !ends then goal == Session(sent, Waiting)
      else goal == Session(sent + Wrote(t, p), if AfterWrite(t, p).Some? then Finished else Failed(Io))
  {
    DueLast(stream, n, items, ends);
    if items != [] || ends {
      var p := LastPacket(stream, n, items);
      SendStep(p, [], t, Finished);
      assert sent + (Wrote(t, p) + []) == sent + Wrote(t, p);
    } else {
      assert sent + [] == sent;
    }
  }

  /** The response loop of `drive_server_stream`: one Message per item, then Close, or Error and stop. */
  method SendItems(conn: Connection, stream: u64, all: seq<Reply>, ends: bool) returns (r: Served)
    modifies conn
    ensures Drove(Answered(stream, 1, Produced(all, ends), old(conn.transport)), old(conn.written), conn.written, r)
  {
    var items := all;
    var out := 0;
    ghost var sent: seq<byte> := [];
    ghost var goal := Answered(stream, 1, Produced(all, ends), conn.transport);
    while items != [] && items[0].Ok?
      invariant conn.written == old(conn.written) + sent
      invariant goal == Ahead(sent, Answered(stream, out + 1, Produced(items, ends), conn.transport))
      decreases |items|
    {
      ghost var t := conn.transport;
      NextItem(goal, sent, stream, out + 1, items, ends, t);
      out := out + 1;
      var p := Packet(Message, OutId(stream, out), items[0].payload);
      var ok := conn.WritePacket(p);
      Regroup(old(conn.written), sent, Wrote(t, p));
      sent := sent + Wrote(t, p);
      if !ok {
        return Failed(Io);
      }
      items := items[1..];
    }
    ghost var t := conn.transport;
    LastItem(goal, sent, stream, out + 1, items, ends, t);
    if items == [] && !ends {
      return Waiting;
    }
    out := out + 1;
    var last := LastPacket(stream, out, items);
    var ok := conn.WritePacket(last);
    Regroup(old(conn.written), sent, Wrote(t, last));
    return if ok then Finished else Failed(Io);
  }

  method DriveServerStream(conn: Connection, h: Handlers, ctx: Context) returns (r: Served)
    requires ctx.path in h.serverStream
    modifies conn, conn.reader
    ensures Drove(Exchange(old(conn.reader.input), h, ctx, old(conn.transport)),
                  old(conn.written), conn.written, r)
  {
    var p := NextPacket(conn.reader);
    if p.Fail? {
      return Failed(p.error);
    }
    match p.value.kind {
      case Message =>
      case Cancel => return Finished;
      case Close => return Finished;
      case _ => return Failed(Protocol);
    }
    var stream := p.value.id.stream;
    var start := h.serverStream[ctx.path](ctx, p.value.data);
    match start {
      case Refuse(e) =>
        OneReply(stream, Err(e));
        var error := Packet(Error, OutId(stream, 1), ErrorBody(e));
        SendStep(error, [], conn.transport, Finished);
        var sent := conn.WritePacket(error);
        return if sent then Finished else Failed(Io);
      case Silent =>
        SilentAnswer(stream, conn.transport);
        return Waiting;
      case Yield(items, ends) =>
        r := SendItems(conn, stream, items, ends);
    }
  }

  /** The whole server: reads the prelude, then routes bidi before server-stream before unary. */
  method ServeStream(conn: Connection, h: Handlers) returns (r: Served)
    modifies conn, conn.reader
    ensures Drove(Serve(old(conn.reader.input), h, old(conn.transport)), old(conn.written), conn.written, r)
  {
    var metadata: seq<Bytes> := [];
    ghost var input := conn.reader.input;
    var invoke: Packet;
    while true
      invariant |metadata| <= MAX_INVOKE_METADATA_PACKETS
      invariant conn.written == old(conn.written) && conn.transport == old(conn.transport)
      invariant Prelude(input, []) == Prelude(conn.reader.input, metadata)
      decreases |conn.reader.input|
    {
      var p := NextPacket(conn.reader);
      if p.Fail? {
        return Failed(p.error);
      }
      match p.value.kind {
        case InvokeMetadata =>
          if |metadata| + 1 > MAX_INVOKE_METADATA_PACKETS {
            return Failed(Protocol);
          }
          metadata := metadata + [p.value.data];
        case Invoke =>
          invoke := p.value;
          assert Prelude(input, []) == Done(Invocation(metadata, invoke), conn.reader.input);
          break;
        case _ => return Failed(Protocol);
      }
    }
    var name := invoke.data;
    if !h.validUtf8(name) {
      return Failed(Protocol);
    }
    var ctx := Context(name, metadata);
    if name in h.bidi {
      return Bidi(ctx, invoke.id.stream);
    }
    if name in h.serverStream {
      r := DriveServerStream(conn, h, ctx);
    } else {
      r := DriveUnary(conn, h, ctx);
    }
  }
}
