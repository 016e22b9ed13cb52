// DRPC framing: varints, frames, multi-frame reassembly and the packet reader
// (crates/coder-agent-rpc/src/wire.rs).
module DrpcWire {
  import opened Common

  const MAX_VARINT_LEN := 10
  const MAX_PACKET_SIZE := 4 * 1024 * 1024
  const U64_RANGE := 0x1_0000_0000_0000_0000

  datatype DrpcError = Closed | Io | Protocol

  datatype Kind = Invoke | Message | Error | Cancel | Close | CloseSend | InvokeMetadata

  datatype PacketId = PacketId(stream: u64, message: u64)

  /** A Rust `Vec<u8>`: its length fits a `usize`. */
  type Bytes = s: seq<byte> | |s| < U64_RANGE

  datatype Packet = Packet(kind: Kind, id: PacketId, data: Bytes)

  datatype Frame = Frame(kind: Kind, id: PacketId, data: Bytes, done: bool)

  /** What a reader obtains from the front of a byte stream, and what it leaves behind. */
  datatype Read<+T> = Done(value: T, rest: seq<byte>) | Fail(error: DrpcError)

  // ---------------------------------------------------------------- varints

  /** The little-endian base-128 digits of `v`, continuation bit on all but the last. */
  function Varint(v: nat): (bytes: seq<byte>)
    ensures 1 <= |bytes|
  {
    if v >= 128 then [v % 128 + 128] + Varint(v / 128) else [v]
  }

  /**
   * The number in the bytes at the front of `s`, `i` bytes of it having been
   * read before: base-128 digits modulo 2^64, so whatever byte ten carries
   * above bit 63 is dropped.
   */
  function DecodeVarint(s: seq<byte>, i: nat): (r: Read<u64>)
    ensures r.Done? ==> |r.rest| < |s|
    decreases |s|
  {
    if i >= MAX_VARINT_LEN then Fail(Protocol)
    else if s == [] then Fail(Io)
    else if s[0] < 128 then Done(s[0], s[1..])
    else UnderHigher(s[0] % 128, DecodeVarint(s[1..], i + 1))
  }

  function UnderHigher(digit: nat, higher: Read<u64>): Read<u64> {
    match higher
    case Fail(e) => Fail(e)
    case Done(high, rest) => Done((digit + 128 * high) % U64_RANGE, rest)
  }

  lemma UnderSmall(digit: nat, high: u64, rest: seq<byte>)
    requires digit + 128 * high < U64_RANGE
    ensures UnderHigher(digit, Done(high, rest)) == Done(digit + 128 * high, rest)
  {
  }

  lemma {:induction false} DecodeFirst(b: byte, s: seq<byte>, i: nat)
    requires i < MAX_VARINT_LEN
    ensures DecodeVarint([b] + s, i) == if b < 128 then Done(b, s) else UnderHigher(b % 128, DecodeVarint(s, i + 1))
  {
    assert ([b] + s)[1..] == s;
  }

  /** How many numbers fit the varint bytes that are left after `i` of them. */
  function Capacity(i: nat): nat
    decreases MAX_VARINT_LEN - i
  {
    if i >= MAX_VARINT_LEN then 1 else 128 * Capacity(i + 1)
  }

  lemma {:induction false} DecodeAfter(w: u64, i: nat, rest: seq<byte>)
    requires i < MAX_VARINT_LEN && w < Capacity(i)
    ensures DecodeVarint(Varint(w) + rest, i) == Done(w, rest)
    decreases w
  {
    if w < 128 {
      DecodeFirst(w, rest, i);
    } else {
      var higher := Varint(w / 128) + rest;
      assert Varint(w) + rest == [w % 128 + 128] + higher;
      DecodeFirst(w % 128 + 128, higher, i);
      DecodeAfter(w / 128, i + 1, rest);
      UnderSmall(w % 128, w / 128, rest);
    }
  }

  /** Decoding undoes encoding for every u64, whatever follows on the wire. */
  lemma {:induction false} VarintRoundTrip(v: u64, rest: seq<byte>)
    ensures DecodeVarint(Varint(v) + rest, 0) == Done(v, rest)
  {
    assert Capacity(0) >= U64_RANGE;
    DecodeAfter(v, 0, rest);
  }

  /** `v` moved up by `n` digits. */
  function Scaled(v: nat, n: nat): (w: nat)
    ensures v == 0 ==> w == 0
    ensures w >= v
  {
    if n == 0 then v else 128 * Scaled(v, n - 1)
  }

  lemma {:induction false} Padding(n: nat, i: nat, v: u64, tail: seq<byte>, rest: seq<byte>)
    requires i + n < MAX_VARINT_LEN && DecodeVarint(tail, i + n) == Done(v, rest)
    requires Scaled(v, n) < U64_RANGE
    ensures DecodeVarint(Padded(n, tail), i) == Done(Scaled(v, n), rest)
    decreases n
  {
    if n > 0 {
      var shorter := Padded(n - 1, tail);
      Padding(n - 1, i + 1, v, tail, rest);
      DecodeFirst(0x80, shorter, i);
      UnderSmall(0, Scaled(v, n - 1), rest);
    }
  }

  /** `tail` behind `n` continuation bytes that carry no digit. */
  function Padded(n: nat, tail: seq<byte>): seq<byte> {
    if n == 0 then tail else [0x80] + Padded(n - 1, tail)
  }

  /**
   * The converse fails: zero is also read from every padded encoding, and from
   * ten bytes whose only set bit lies above bit 63.
   */
  lemma {:induction false} VarintNotCanonical(padding: nat, rest: seq<byte>)
    requires 1 <= padding < MAX_VARINT_LEN
    ensures DecodeVarint(Padded(padding, [0] + rest), 0) == Done(0, rest)
    ensures DecodeVarint([0x80] + Padded(8, [2] + rest), 0) == Done(0, rest)
  {
    DecodeFirst(0, rest, padding);
    Padding(padding, 0, 0, [0] + rest, rest);
    assert Scaled(2, 8) == 0x200_0000_0000_0000;
    DecodeFirst(2, rest, 9);
    Padding(8, 1, 2, [2] + rest, rest);
    DecodeFirst(0x80, Padded(8, [2] + rest), 0);
  }

  /** The number that a run of digits stands for, not cut to 64 bits. */
  function Value(b: seq<byte>): nat
    requires b != []
  {
    if |b| == 1 then b[0] else b[0] % 128 + 128 * Value(b[1..])
  }

  /** One encoded number: the continuation bit is on all bytes but the last. */
  ghost predicate OneNumber(b: seq<byte>) {
    b != [] && if |b| == 1 then b[0] < 128 else b[0] >= 128 && OneNumber(b[1..])
  }

  /** What was read is a run of at most ten digits, and the result is its value modulo 2^64. */
  lemma {:induction false} DecodedIsValue(s: seq<byte>, i: nat)
    requires DecodeVarint(s, i).Done?
    ensures
      var n := |s| - |DecodeVarint(s, i).rest|;
      && 1 <= n <= |s| && i + n <= MAX_VARINT_LEN
      && DecodeVarint(s, i).rest == s[n..]
      && OneNumber(s[..n]) && DecodeVarint(s, i).value == Value(s[..n]) % U64_RANGE
    decreases |s|
  {
    if s[0] >= 128 {
      DecodedIsValue(s[1..], i + 1);
      var n := |s| - |DecodeVarint(s, i).rest|;
      var b := s[..n];
      assert b[1..] == s[1..][..n - 1];
      ModDigit(s[0] % 128, Value(b[1..]));
    } else {
      assert s[..1] == [s[0]];
    }
  }

  lemma ModDigit(digit: nat, high: nat)
    ensures (digit + 128 * (high % U64_RANGE)) % U64_RANGE == (digit + 128 * high) % U64_RANGE
  {
    var m := U64_RANGE;
    assert high % m == high - high / m * m;
    ModShift(digit + 128 * high, -(128 * (high / m)));
  }

  /** The last digit bounds the value from both sides. */
  lemma {:induction false} LastDigitBounds(b: seq<byte>)
    requires OneNumber(b)
    ensures b[|b| - 1] < 128
    ensures Scaled(b[|b| - 1], |b| - 1) <= Value(b) < Scaled(b[|b| - 1] + 1, |b| - 1)
    decreases |b|
  {
    if |b| > 1 {
      LastDigitBounds(b[1..]);
    }
  }

  lemma {:induction false} ScaledGrows(v: nat, w: nat, m: nat, n: nat)
    requires v <= w && m <= n
    ensures Scaled(v, m) <= Scaled(w, n)
    decreases n
  {
    if m > 0 {
      ScaledGrows(v, w, m - 1, n - 1);
    } else if n > 0 {
      ScaledGrows(v, w, m, n - 1);
    }
  }

  /** A run of at most ten digits fits 64 bits exactly when a tenth digit is at most one. */
  lemma {:induction false} FitsU64(b: seq<byte>)
    requires OneNumber(b) && |b| <= MAX_VARINT_LEN
    ensures Value(b) < U64_RANGE <==> (|b| == MAX_VARINT_LEN ==> b[9] <= 1)
  {
    LastDigitBounds(b);
    assert Scaled(1, 9) == 0x8000_0000_0000_0000 && Scaled(2, 9) == U64_RANGE;
    if |b| == MAX_VARINT_LEN {
      if b[9] <= 1 {
        ScaledGrows(b[9] + 1, 2, 9, 9);
      } else {
        ScaledGrows(2, b[9], 9, 9);
      }
    } else {
      ScaledGrows(b[|b| - 1] + 1, 128, |b| - 1, 8);
      assert Scaled(128, 8) == 0x8000_0000_0000_0000;
    }
  }

  lemma {:induction false} OneDigitMore(b: byte, high: seq<byte>)
    requires b >= 128 && OneNumber(high)
    ensures OneNumber([b] + high) && Value([b] + high) == b - 128 + 128 * Value(high)
  {
    assert ([b] + high)[1..] == high;
  }

  /** The encoding of a number is one number, of that value, with no idle last digit. */
  lemma {:induction false} VarintValue(v: nat)
    ensures OneNumber(Varint(v)) && Value(Varint(v)) == v
    ensures |Varint(v)| == 1 || Varint(v)[|Varint(v)| - 1] != 0
    decreases v
  {
    if v >= 128 {
      var digit, high := v % 128 + 128, Varint(v / 128);
      VarintValue(v / 128);
      OneDigitMore(digit, high);
      assert Varint(v) == [digit] + high;
      assert high != [0];
    }
  }

  lemma {:induction false} VarintOf(digit: byte, tail: seq<byte>, high: nat, v: nat)
    requires digit >= 128 && high >= 1 && Varint(high) == tail && v == digit - 128 + 128 * high
    ensures Varint(v) == [digit] + tail
  {
    assert v / 128 == high && v % 128 == digit - 128;
  }

  /** Digits without an idle last one are the encoding of their value. */
  lemma {:induction false} ValueVarint(b: seq<byte>, v: nat)
    requires OneNumber(b) && (|b| == 1 || b[|b| - 1] != 0) && v == Value(b)
    ensures Varint(v) == b
    ensures b != [0] ==> v >= 1
    decreases |b|
  {
    if |b| > 1 {
      var digit, tail, high := b[0], b[1..], Value(b[1..]);
      ValueVarint(tail, high);
      assert b == [digit] + tail;
      OneDigitMore(digit, tail);
      VarintOf(digit, tail, high, v);
    }
  }

  /**
   * When the converse does hold: the bytes a number was read from are its
   * encoding if and only if they have no idle last digit and, if there are
   * ten of them, the tenth is at most one.
   */
  lemma {:induction false} CanonicalIff(s: seq<byte>, v: u64, rest: seq<byte>)
    requires DecodeVarint(s, 0) == Done(v, rest)
    ensures
      var n := |s| - |rest|;
      && 1 <= n <= MAX_VARINT_LEN && n <= |s|
      && (s == Varint(v) + rest <==> (n == 1 || s[n - 1] != 0) && (n == MAX_VARINT_LEN ==> s[9] <= 1))
  {
    var b := DecodedDigits(s, v, rest);
    FitsU64(b);
    SameFront(b, Varint(v), rest);
    CanonicalDigits(b, v);
  }

  lemma DecodedDigits(s: seq<byte>, v: u64, rest: seq<byte>) returns (b: seq<byte>)
    requires DecodeVarint(s, 0) == Done(v, rest)
    ensures OneNumber(b) && |b| <= MAX_VARINT_LEN && s == b + rest
    ensures Value(b) < U64_RANGE ==> v == Value(b)
  {
    DecodedIsValue(s, 0);
    b := s[..|s| - |rest|];
  }

  lemma SameFront(b: seq<byte>, w: seq<byte>, rest: seq<byte>)
    ensures b + rest == w + rest <==> b == w
  {
    if b + rest == w + rest {
      assert |b| == |w|;
      assert b == (b + rest)[..|b|] && w == (w + rest)[..|w|];
    }
  }

  lemma {:induction false} CanonicalDigits(b: seq<byte>, v: u64)
    requires OneNumber(b) && (Value(b) < U64_RANGE ==> v == Value(b))
    ensures b == Varint(v) <==> (|b| == 1 || b[|b| - 1] != 0) && Value(b) < U64_RANGE
  {
    VarintValue(v);
    if (|b| == 1 || b[|b| - 1] != 0) && Value(b) < U64_RANGE {
      ValueVarint(b, v);
    }
  }

  // ----------------------------------------------------------------- frames

  function KindToU8(k: Kind): (v: byte) {
    match k
    case Invoke => 1
    case Message => 2
    case Error => 3
    case Cancel => 4
    case Close => 5
    case CloseSend => 6
    case InvokeMetadata => 7
  }

  function KindFromU8(v: int): (k: Option<Kind>) {
    match v
    case 1 => Some(Invoke)
    case 2 => Some(Message)
    case 3 => Some(Error)
    case 4 => Some(Cancel)
    case 5 => Some(Close)
    case 6 => Some(CloseSend)
    case 7 => Some(InvokeMetadata)
    case _ => None
  }

  /** Consecutive varints: a frame header has three of them. */
  function EncodeFields(ns: seq<u64>): (bytes: seq<byte>)
    ensures |bytes| >= |ns|
  {
    if ns == [] then [] else Varint(ns[0]) + EncodeFields(ns[1..])
  }

  function FieldThen(v: u64, r: Read<seq<u64>>): Read<seq<u64>> {
    match r
    case Fail(e) => Fail(e)
    case Done(vs, rest) => Done([v] + vs, rest)
  }

  function DecodeFields(s: seq<byte>, n: nat): (r: Read<seq<u64>>)
    ensures r.Done? ==> |r.value| == n && |r.rest| + n <= |s|
    decreases |s|
  {
    if n == 0 then Done([], s)
    else match DecodeVarint(s, 0)
    case Fail(e) => Fail(e)
    case Done(v, s1) => FieldThen(v, DecodeFields(s1, n - 1))
  }

  lemma DecodeField(s: seq<byte>, v: u64, tail: seq<byte>, n: nat)
    requires n > 0 && DecodeVarint(s, 0) == Done(v, tail)
    ensures DecodeFields(s, n) == FieldThen(v, DecodeFields(tail, n - 1))
  {
  }

  lemma {:induction false} FieldsRoundTrip(ns: seq<u64>, rest: seq<byte>)
    ensures DecodeFields(EncodeFields(ns) + rest, |ns|) == Done(ns, rest)
  {
    if ns == [] {
      assert EncodeFields(ns) + rest == rest;
    } else {
      var tail := EncodeFields(ns[1..]) + rest;
      assert EncodeFields(ns) + rest == Varint(ns[0]) + tail;
      VarintRoundTrip(ns[0], tail);
      FieldsRoundTrip(ns[1..], rest);
      DecodeField(EncodeFields(ns) + rest, ns[0], tail, |ns|);
      HeadAndTail(ns);
    }
  }

  lemma HeadAndTail<T>(xs: seq<T>)
    requires xs != []
    ensures [xs[0]] + xs[1..] == xs
  {
  }

  /** The bytes `write_frame` puts on the wire. */
  function EncodeFrame(f: Frame): (bytes: seq<byte>)
    ensures |bytes| >= 4
  {
    [KindToU8(f.kind) * 2 + if f.done then 1 else 0]
    + EncodeFields([f.id.stream, f.id.message, |f.data|])
    + f.data
  }

  /** The frame at the front of `s`; bit 7 of the header is ignored. */
  function DecodeFrame(s: seq<byte>): (r: Read<Frame>)
    ensures r.Done? ==> |r.rest| + 4 <= |s| && |r.value.data| <= MAX_PACKET_SIZE
  {
    if s == [] then Fail(Closed)
    else match KindFromU8(s[0] / 2 % 64)
    case None => Fail(Protocol)
    case Some(kind) =>
      match DecodeFields(s[1..], 3)
      case Fail(e) => Fail(e)
      case Done(ns, body) =>
        var length := ns[2];
        if length > MAX_PACKET_SIZE then Fail(Protocol)
        else if |body| < length then Fail(Io)
        else Done(Frame(kind, PacketId(ns[0], ns[1]), body[..length], s[0] % 2 == 1), body[length..])
  }

  /** Every frame within the cap survives the wire; every other frame is refused. */
  lemma FrameRoundTrip(f: Frame, rest: seq<byte>)
    ensures DecodeFrame(EncodeFrame(f) + rest) ==
            if |f.data| <= MAX_PACKET_SIZE then Done(f, rest) else Fail(Protocol)
  {
    var s := EncodeFrame(f) + rest;
    var ns := [f.id.stream, f.id.message, |f.data|];
    var body := f.data + rest;
    assert s[1..] == EncodeFields(ns) + body;
    FieldsRoundTrip(ns, body);
    assert body[..|f.data|] == f.data && body[|f.data|..] == rest;
  }

  /** The number of a kind on the wire. */
  ghost predicate Numbers(k: Kind, v: int) {
    || (k == Invoke && v == 1) || (k == Message && v == 2) || (k == Error && v == 3) || (k == Cancel && v == 4)
    || (k == Close && v == 5) || (k == CloseSend && v == 6) || (k == InvokeMetadata && v == 7)
  }

  /** The kinds are numbered 1 to 7, and no other number is a kind. */
  lemma KindNumbers(k: Kind, v: int)
    ensures Numbers(k, KindToU8(k))
    ensures KindFromU8(v) == Some(k) <==> Numbers(k, v)
    ensures KindFromU8(v) == None <==> !(1 <= v <= 7)
  {
  }

  /** The layout of a frame: header, stream id, message id and length as varints, then the data. */
  lemma FrameLayout(f: Frame)
    ensures Numbers(f.kind, EncodeFrame(f)[0] / 2) && (EncodeFrame(f)[0] % 2 == 1 <==> f.done)
    ensures EncodeFrame(f) ==
            [EncodeFrame(f)[0]] + Varint(f.id.stream) + Varint(f.id.message) + Varint(|f.data|) + f.data
  {
    ThreeFields(f.id.stream, f.id.message, |f.data|);
    var header := [EncodeFrame(f)[0]];
    var a, b, c := Varint(f.id.stream), Varint(f.id.message), Varint(|f.data|);
    assert EncodeFrame(f) == header + (a + b + c) + f.data;
    assert header + (a + b + c) == header + a + b + c;
  }

  /** Bit 7 of a header does not matter: a frame is decoded alike with and without it. */
  lemma HeaderBit7(b: byte, s: seq<byte>)
    requires b < 128
    ensures DecodeFrame([b + 128] + s) == DecodeFrame([b] + s)
  {
    assert ([b + 128] + s)[1..] == s && ([b] + s)[1..] == s;
  }

  // ------------------------------------------------------------- reassembly

  datatype Partial = Partial(kind: Kind, id: PacketId, data: Bytes)

  type Pending = map<u64, Partial>

  datatype Outcome = Nothing | Complete(packet: Packet) | Refused

  predicate Terminal(k: Kind) {
    k == Cancel || k == Close || k == Error
  }

  /** What `push` answers for one frame. */
  function Answer(pending: Pending, f: Frame): Outcome {
    var stream := f.id.stream;
    if Terminal(f.kind) then Complete(Packet(f.kind, f.id, f.data))
    else if stream in pending then
      var p := pending[stream];
      if p.kind != f.kind || |p.data| + |f.data| > MAX_PACKET_SIZE then Refused
      else if f.done then Complete(Packet(p.kind, p.id, p.data + f.data))
      else Nothing
    else if |f.data| > MAX_PACKET_SIZE then Refused
    else if f.done then Complete(Packet(f.kind, f.id, f.data))
    else Nothing
  }

  /** What `push` leaves buffered: only an unfinished packet keeps an entry. */
  function Buffer(pending: Pending, f: Frame): Pending {
    var stream := f.id.stream;
    if Answer(pending, f) != Nothing then pending - {stream}
    else if stream in pending then
      pending[stream := Partial(f.kind, f.id, pending[stream].data + f.data)]
    else pending[stream := Partial(f.kind, f.id, f.data)]
  }

  /**
   * What push does with a frame, case by case: a terminal kind is handed on at
   * once; a frame of another kind than what is buffered, or that takes the sum
   * above four mebibytes, is refused; the last frame completes the packet under
   * the id of the frame before it. Whatever is answered ends what was buffered
   * for the stream, and other streams are not touched.
   */
  lemma PushCases(pending: Pending, f: Frame)
    ensures
      var stream, answer := f.id.stream, Answer(pending, f);
      var held := if stream in pending then pending[stream].data else [];
      var id := if stream in pending then pending[stream].id else f.id;
      var terminal := f.kind == Cancel || f.kind == Close || f.kind == Error;
      && (terminal ==> answer == Complete(Packet(f.kind, f.id, f.data)))
      && (!terminal ==>
            (answer == Refused <==>
              (stream in pending && pending[stream].kind != f.kind) || |held| + |f.data| > 4_194_304))
      && (!terminal && answer != Refused ==>
            answer == (if !f.done then Nothing else Complete(Packet(f.kind, id, held + f.data))))
    ensures
      var stream, after := f.id.stream, Buffer(pending, f);
      && (forall k :: k != stream ==> (k in after <==> k in pending) && (k in after ==> after[k] == pending[k]))
      && (stream in after <==> Answer(pending, f) == Nothing)
      && (stream in after ==>
            after[stream] == Partial(f.kind, f.id, (if stream in pending then pending[stream].data else []) + f.data))
  {
    assert [] + f.data == f.data;
  }

  class PacketReassembler {
    var pending: Pending

    constructor ()
      ensures pending == map[]
    {
      pending := map[];
    }

    method Push(f: Frame) returns (answer: Outcome)
      modifies this
      ensures answer == Answer(old(pending), f)
      ensures pending == Buffer(old(pending), f)
    {
      var stream := f.id.stream;
      if f.kind == Cancel || f.kind == Close || f.kind == Error {
        pending := pending - {stream};
        return Complete(Packet(f.kind, f.id, f.data));
      }
      if stream in pending {
        var partial := pending[stream];
        pending := pending - {stream};
        if partial.kind != f.kind {
          return Refused;
        }
        if |partial.data| + |f.data| > MAX_PACKET_SIZE {
          return Refused;
        }
        partial := partial.(data := partial.data + f.data);
        if f.done {
          return Complete(Packet(partial.kind, partial.id, partial.data));
        }
        partial := partial.(id := f.id);
        pending := pending[stream := partial];
        return Nothing;
      } else if f.done {
        if |f.data| > MAX_PACKET_SIZE {
          assert pending - {stream} == pending;
          return Refused;
        }
        assert pending - {stream} == pending;
        return Complete(Packet(f.kind, f.id, f.data));
      } else {
        if |f.data| > MAX_PACKET_SIZE {
          assert pending - {stream} == pending;
          return Refused;
        }
        pending := pending[stream := Partial(f.kind, f.id, f.data)];
        return Nothing;
      }
    }
  }

  /** The answers to a whole sequence of frames, in order. */
  function Answers(pending: Pending, frames: seq<Frame>): (a: seq<Outcome>)
    ensures |a| == |frames|
    decreases |frames|
  {
    if frames == [] then []
    else [Answer(pending, frames[0])] + Answers(Buffer(pending, frames[0]), frames[1..])
  }

  function OnStream(frames: seq<Frame>, stream: u64): seq<Frame> {
    if frames == [] then []
    else (if frames[0].id.stream == stream then [frames[0]] else []) + OnStream(frames[1..], stream)
  }

  /** The answers that were given to the frames of one stream. */
  function AnswersOn(frames: seq<Frame>, answers: seq<Outcome>, stream: u64): seq<Outcome>
    requires |frames| == |answers|
  {
    if frames == [] then []
    else (if frames[0].id.stream == stream then [answers[0]] else []) + AnswersOn(frames[1..], answers[1..], stream)
  }

  ghost predicate AgreeOn(a: Pending, b: Pending, stream: u64) {
    (stream in a <==> stream in b) && (stream in a ==> a[stream] == b[stream])
  }

  lemma {:induction false} NonInterferenceFrom(mixed: Pending, alone: Pending, frames: seq<Frame>, stream: u64)
    requires AgreeOn(mixed, alone, stream)
    ensures AnswersOn(frames, Answers(mixed, frames), stream) == Answers(alone, OnStream(frames, stream))
    decreases |frames|
  {
    if frames != [] {
      var f := frames[0];
      if f.id.stream == stream {
        var own := OnStream(frames, stream);
        assert own[0] == f && own[1..] == OnStream(frames[1..], stream);
        NonInterferenceFrom(Buffer(mixed, f), Buffer(alone, f), frames[1..], stream);
      } else {
        NonInterferenceFrom(Buffer(mixed, f), alone, frames[1..], stream);
        assert OnStream(frames, stream) == OnStream(frames[1..], stream);
      }
    }
  }

  /**
   * Reassembly is non-interfering: however the frames of any number of streams
   * interleave, one stream's frames are answered as if they had come alone.
   */
  lemma {:induction false} NonInterference(frames: seq<Frame>, stream: u64)
    ensures AnswersOn(frames, Answers(map[], frames), stream) == Answers(map[], OnStream(frames, stream))
  {
    NonInterferenceFrom(map[], map[], frames, stream);
  }

  // ------------------------------------------------------------ read_packet

  /** Reads frames into `pending` until one completes a packet. */
  function ReadPacketFrom(pending: Pending, s: seq<byte>): (r: Read<Packet>)
    ensures r.Done? ==> |r.rest| + 4 <= |s| && |r.value.data| <= MAX_PACKET_SIZE
    decreases |s|
  {
    match DecodeFrame(s)
    case Fail(e) => Fail(e)
    case Done(f, rest) =>
      match Answer(pending, f)
      case Refused => Fail(Protocol)
      case Complete(packet) => Done(packet, rest)
      case Nothing => ReadPacketFrom(Buffer(pending, f), rest)
  }

  /** `read_packet`: a fresh reassembler for every packet. */
  function ReadPacket(s: seq<byte>): Read<Packet> {
    ReadPacketFrom(map[], s)
  }

  /** The bytes of a packet cut into `frags`, one frame each, `done` on the last. */
  function Fragments(kind: Kind, id: PacketId, frags: seq<Bytes>): seq<byte>
    requires frags != []
  {
    if |frags| == 1 then EncodeFrame(Frame(kind, id, frags[0], true))
    else EncodeFrame(Frame(kind, id, frags[0], false)) + Fragments(kind, id, frags[1..])
  }

  /** What `read_packet` does once the frame `f` has been taken off the front of the stream. */
  function AfterFrame(pending: Pending, f: Frame, rest: seq<byte>): Read<Packet> {
    if |f.data| > MAX_PACKET_SIZE then Fail(Protocol)
    else match Answer(pending, f)
    case Refused => Fail(Protocol)
    case Complete(packet) => Done(packet, rest)
    case Nothing => ReadPacketFrom(Buffer(pending, f), rest)
  }

  lemma {:induction false} ReadStep(pending: Pending, s: seq<byte>, f: Frame, rest: seq<byte>)
    requires DecodeFrame(s) == if |f.data| <= MAX_PACKET_SIZE then Done(f, rest) else Fail(Protocol)
    ensures ReadPacketFrom(pending, s) == AfterFrame(pending, f, rest)
  {
  }

  lemma {:induction false} FirstFragment(pending: Pending, kind: Kind, id: PacketId, frags: seq<Bytes>, rest: seq<byte>)
    requires frags != []
    ensures |frags| == 1 ==>
              ReadPacketFrom(pending, Fragments(kind, id, frags) + rest) ==
              AfterFrame(pending, Frame(kind, id, frags[0], true), rest)
    ensures |frags| > 1 ==>
              ReadPacketFrom(pending, Fragments(kind, id, frags) + rest) ==
              AfterFrame(pending, Frame(kind, id, frags[0], false), Fragments(kind, id, frags[1..]) + rest)
  {
    var f := Frame(kind, id, frags[0], |frags| == 1);
    var tail := if |frags| == 1 then rest else Fragments(kind, id, frags[1..]) + rest;
    assert Fragments(kind, id, frags) + rest == EncodeFrame(f) + tail;
    FrameRoundTrip(f, tail);
    ReadStep(pending, EncodeFrame(f) + tail, f, tail);
  }

  lemma {:induction false} FlattenOne<T>(parts: seq<seq<T>>)
    requires |parts| == 1
    ensures Flatten(parts) == parts[0]
  {
    assert parts[1..] == [];
  }

  /** Pushing one more fragment onto a buffered partial. */
  lemma PushFragment(kind: Kind, id: PacketId, acc: Bytes, frag: Bytes, done: bool)
    requires !Terminal(kind) && |acc| <= MAX_PACKET_SIZE
    ensures
      var pending: Pending := map[id.stream := Partial(kind, id, acc)];
      var f := Frame(kind, id, frag, done);
      if |acc| + |frag| > MAX_PACKET_SIZE then Answer(pending, f) == Refused
      else if done then Answer(pending, f) == Complete(Packet(kind, id, acc + frag))
      else Answer(pending, f) == Nothing && Buffer(pending, f) == map[id.stream := Partial(kind, id, acc + frag)]
  {
  }

  /** What becomes of the stream once a fragment has been pushed onto a buffered partial. */
  lemma {:induction false} AfterFragment(kind: Kind, id: PacketId, acc: Bytes, frag: Bytes, done: bool, rest: seq<byte>)
    requires !Terminal(kind) && |acc| <= MAX_PACKET_SIZE
    ensures AfterFrame(map[id.stream := Partial(kind, id, acc)], Frame(kind, id, frag, done), rest) ==
            if |acc| + |frag| > MAX_PACKET_SIZE then Fail(Protocol)
            else if done then Done(Packet(kind, id, acc + frag), rest)
            else ReadPacketFrom(map[id.stream := Partial(kind, id, acc + frag)], rest)
  {
    PushFragment(kind, id, acc, frag, done);
  }

  lemma {:induction false} FlattenSplit(acc: seq<byte>, frags: seq<Bytes>)
    requires frags != []
    ensures acc + Flatten(frags) == acc + frags[0] + Flatten(frags[1..])
  {
  }

  lemma {:induction false} FragmentsContinue(kind: Kind, id: PacketId, acc: Bytes, frags: seq<Bytes>, rest: seq<byte>)
    requires !Terminal(kind) && frags != []
    requires |acc| <= MAX_PACKET_SIZE
    ensures ReadPacketFrom(map[id.stream := Partial(kind, id, acc)], Fragments(kind, id, frags) + rest) ==
            if |acc + Flatten(frags)| <= MAX_PACKET_SIZE then Done(Packet(kind, id, acc + Flatten(frags)), rest)
            else Fail(Protocol)
    decreases |frags|
  {
    FirstFragment(map[id.stream := Partial(kind, id, acc)], kind, id, frags, rest);
    FlattenSplit(acc, frags);
    if |frags| == 1 {
      AfterFragment(kind, id, acc, frags[0], true, rest);
      FlattenOne(frags);
    } else {
      AfterFragment(kind, id, acc, frags[0], false, Fragments(kind, id, frags[1..]) + rest);
      if |acc| + |frags[0]| <= MAX_PACKET_SIZE {
        FragmentsContinue(kind, id, acc + frags[0], frags[1..], rest);
      }
    }
  }

  /** A Cancel, Close or Error cut in two or more is read as its first fragment alone. */
  lemma {:induction false} TerminalFragments(kind: Kind, id: PacketId, frags: seq<Bytes>, rest: seq<byte>)
    requires Terminal(kind) && |frags| > 1
    ensures ReadPacket(Fragments(kind, id, frags) + rest) ==
            if |frags[0]| <= MAX_PACKET_SIZE
            then Done(Packet(kind, id, frags[0]), Fragments(kind, id, frags[1..]) + rest)
            else Fail(Protocol)
  {
    FirstFragment(map[], kind, id, frags, rest);
  }

  lemma {:induction false} DataFragments(kind: Kind, id: PacketId, frags: seq<Bytes>, rest: seq<byte>)
    requires !Terminal(kind) && |frags| > 1
    ensures ReadPacket(Fragments(kind, id, frags) + rest) ==
            if |Flatten(frags)| <= MAX_PACKET_SIZE then Done(Packet(kind, id, Flatten(frags)), rest)
            else Fail(Protocol)
  {
    FirstFragment(map[], kind, id, frags, rest);
    if |frags[0]| <= MAX_PACKET_SIZE {
      var f := Frame(kind, id, frags[0], false);
      assert Buffer(map[], f) == map[id.stream := Partial(kind, id, frags[0])];
      FragmentsContinue(kind, id, frags[0], frags[1..], rest);
    }
  }

  lemma {:induction false} SingleFrame(kind: Kind, id: PacketId, data: Bytes, rest: seq<byte>)
    ensures ReadPacket(Fragments(kind, id, [data]) + rest) ==
            if |data| <= MAX_PACKET_SIZE then Done(Packet(kind, id, data), rest) else Fail(Protocol)
  {
    FirstFragment(map[], kind, id, [data], rest);
  }

  lemma {:induction false} FragmentsTake4(kind: Kind, id: PacketId, frags: seq<Bytes>)
    requires frags != []
    ensures |Fragments(kind, id, frags)| >= 4
  {
  }

  /**
   * End-to-end round trip. A packet cut into any positive number of possibly
   * empty fragments is read back unchanged, leaving exactly the bytes that
   * follow, if and only if it fits the cap and, when its kind is Cancel, Close
   * or Error, it was sent as one frame.
   */
  lemma {:induction false} FragmentRoundTrip(p: Packet, frags: seq<Bytes>, rest: seq<byte>)
    requires frags != [] && Flatten(frags) == p.data
    ensures ReadPacket(Fragments(p.kind, p.id, frags) + rest) == Done(p, rest) <==>
            |p.data| <= MAX_PACKET_SIZE && (Terminal(p.kind) ==> |frags| == 1)
  {
    if |frags| == 1 {
      FlattenOne(frags);
      assert frags == [p.data];
      SingleFrame(p.kind, p.id, p.data, rest);
    } else if Terminal(p.kind) {
      TerminalFragments(p.kind, p.id, frags, rest);
      FragmentsTake4(p.kind, p.id, frags[1..]);
    } else {
      DataFragments(p.kind, p.id, frags, rest);
    }
  }

  // ------------------------------------------------------- where a stream may end

  /** The bytes `s` are, to their end, exactly these frames. */
  ghost predicate DecodesTo(s: seq<byte>, frames: seq<Frame>)
    decreases |s|
  {
    if frames == [] then s == []
    else
      var r := DecodeFrame(s);
      r.Done? && r.value == frames[0] && DecodesTo(r.rest, frames[1..])
  }

  /** Every frame is taken in and none completes a packet. */
  ghost predicate AllBuffered(pending: Pending, frames: seq<Frame>) {
    forall i :: 0 <= i < |frames| ==> Answers(pending, frames)[i] == Nothing
  }

  lemma BufferedCons(pending: Pending, f: Frame, frames: seq<Frame>)
    ensures AllBuffered(pending, [f] + frames) <==>
            Answer(pending, f) == Nothing && AllBuffered(Buffer(pending, f), frames)
  {
    var all, later := [f] + frames, Answers(Buffer(pending, f), frames);
    assert all[1..] == frames;
    assert Answers(pending, all) == [Answer(pending, f)] + later;
    var given := Answers(pending, all);
    assert given[0] == Answer(pending, f);
    if AllBuffered(pending, all) {
      forall i | 0 <= i < |frames|
        ensures later[i] == Nothing
      {
        assert given[i + 1] == later[i];
      }
    }
  }

  lemma {:induction false} ClosedAfter(pending: Pending, s: seq<byte>, frames: seq<Frame>)
    requires DecodesTo(s, frames) && AllBuffered(pending, frames)
    ensures ReadPacketFrom(pending, s) == Fail(Closed)
    decreases |s|
  {
    if frames != [] {
      assert [frames[0]] + frames[1..] == frames;
      BufferedCons(pending, frames[0], frames[1..]);
      ClosedAfter(Buffer(pending, frames[0]), DecodeFrame(s).rest, frames[1..]);
    }
  }

  /** Only the header byte of a frame can report a clean close. */
  lemma {:induction false} VarintNeverCloses(s: seq<byte>, i: nat)
    ensures DecodeVarint(s, i) != Fail(Closed)
    decreases |s|
  {
    if s != [] {
      VarintNeverCloses(s[1..], i + 1);
    }
  }

  lemma {:induction false} FieldsNeverClose(s: seq<byte>, n: nat)
    ensures DecodeFields(s, n) != Fail(Closed)
    decreases |s|
  {
    if n > 0 {
      VarintNeverCloses(s, 0);
      var first := DecodeVarint(s, 0);
      if first.Done? {
        FieldsNeverClose(first.rest, n - 1);
      }
    }
  }

  lemma FrameClosesIff(s: seq<byte>)
    ensures DecodeFrame(s) == Fail(Closed) <==> s == []
  {
    if s != [] {
      FieldsNeverClose(s[1..], 3);
    }
  }

  lemma {:induction false} FramesBeforeClose(pending: Pending, s: seq<byte>) returns (frames: seq<Frame>)
    requires ReadPacketFrom(pending, s) == Fail(Closed)
    ensures DecodesTo(s, frames) && AllBuffered(pending, frames)
    decreases |s|
  {
    FrameClosesIff(s);
    var r := DecodeFrame(s);
    if r.Fail? {
      frames := [];
    } else {
      var later := FramesBeforeClose(Buffer(pending, r.value), r.rest);
      frames := [r.value] + later;
      assert frames[1..] == later;
      BufferedCons(pending, r.value, later);
    }
  }

  /**
   * read_packet reports a clean close if and only if the stream ends between
   * two frames without having completed a packet, whatever is buffered then.
   */
  lemma {:induction false} ClosedIff(pending: Pending, s: seq<byte>)
    ensures ReadPacketFrom(pending, s) == Fail(Closed) <==>
            exists frames :: DecodesTo(s, frames) && AllBuffered(pending, frames)
  {
    if ReadPacketFrom(pending, s) == Fail(Closed) {
      var frames := FramesBeforeClose(pending, s);
    }
    if frames :| DecodesTo(s, frames) && AllBuffered(pending, frames) {
      ClosedAfter(pending, s, frames);
    }
  }

  /** What is buffered once these frames have been taken in. */
  function BufferAfter(pending: Pending, frames: seq<Frame>): Pending
    decreases |frames|
  {
    if frames == [] then pending else BufferAfter(Buffer(pending, frames[0]), frames[1..])
  }

  lemma {:induction false} BufferNotEmpty(pending: Pending, frames: seq<Frame>)
    requires frames != [] && AllBuffered(pending, frames)
    ensures BufferAfter(pending, frames) != map[]
    decreases |frames|
  {
    var f, later := frames[0], frames[1..];
    assert [f] + later == frames;
    BufferedCons(pending, f, later);
    assert f.id.stream in Buffer(pending, f);
    if later != [] {
      BufferNotEmpty(Buffer(pending, f), later);
    }
  }

  /**
   * When the report is right: a reader that starts afresh and is told of a
   * clean close is left with nothing buffered if and only if the stream had
   * nothing more in it.
   */
  lemma {:induction false} ClosedIsCleanIff(s: seq<byte>, frames: seq<Frame>)
    requires DecodesTo(s, frames) && AllBuffered(map[], frames)
    ensures ReadPacket(s) == Fail(Closed)
    ensures BufferAfter(map[], frames) == map[] <==> s == []
  {
    ClosedAfter(map[], s, frames);
    if frames != [] {
      BufferNotEmpty(map[], frames);
    }
  }

  /** So a stream that breaks off after an unfinished packet is reported as cleanly closed, its data dropped. */
  lemma PartialReportedClosed(kind: Kind, id: PacketId, data: Bytes)
    requires !Terminal(kind) && |data| <= MAX_PACKET_SIZE
    ensures
      var f := Frame(kind, id, data, false);
      Buffer(map[], f) == map[id.stream := Partial(kind, id, data)] && ReadPacket(EncodeFrame(f)) == Fail(Closed)
  {
    var f := Frame(kind, id, data, false);
    FrameRoundTrip(f, []);
    assert EncodeFrame(f) + [] == EncodeFrame(f);
    ReadStep(map[], EncodeFrame(f), f, []);
  }

  // -------------------------------------------------- reading a whole stream

  /** Everything a peer reads before the error that ends the stream. */
  datatype Transcript = Transcript(packets: seq<Packet>, end: DrpcError)

  function Prepend(p: Packet, t: Transcript): Transcript {
    Transcript([p] + t.packets, t.end)
  }

  /** Repeated `read_packet`, a fresh reassembler each time. */
  function ReadAll(s: seq<byte>): Transcript
    decreases |s|
  {
    match ReadPacket(s)
    case Fail(e) => Transcript([], e)
    case Done(p, rest) => Prepend(p, ReadAll(rest))
  }

  /** The same stream read through one reassembler that lives on between packets. */
  function ReadAllKeeping(pending: Pending, s: seq<byte>): Transcript
    decreases |s|
  {
    match DecodeFrame(s)
    case Fail(e) => Transcript([], e)
    case Done(f, rest) =>
      match Answer(pending, f)
      case Refused => Transcript([], Protocol)
      case Complete(packet) => Prepend(packet, ReadAllKeeping(Buffer(pending, f), rest))
      case Nothing => ReadAllKeeping(Buffer(pending, f), rest)
  }

  /** Every frame of `s` carries the stream id `stream`. */
  ghost predicate OneStream(s: seq<byte>, stream: u64)
    decreases |s|
  {
    match DecodeFrame(s)
    case Fail(_) => true
    case Done(f, rest) => f.id.stream == stream && OneStream(rest, stream)
  }

  /** Reading `s` on from `pending`, nothing is buffered whenever a packet completes. */
  ghost predicate NothingHeld(pending: Pending, s: seq<byte>)
    decreases |s|
  {
    match DecodeFrame(s)
    case Fail(_) => true
    case Done(f, rest) =>
      match Answer(pending, f)
      case Refused => true
      case Complete(_) => Buffer(pending, f) == map[] && NothingHeld(map[], rest)
      case Nothing => NothingHeld(Buffer(pending, f), rest)
  }

  lemma {:induction false} KeepingFrom(pending: Pending, s: seq<byte>)
    requires NothingHeld(pending, s)
    ensures ReadAllKeeping(pending, s) ==
            match ReadPacketFrom(pending, s)
            case Fail(e) => Transcript([], e)
            case Done(p, rest) => Prepend(p, ReadAll(rest))
    decreases |s|
  {
    match DecodeFrame(s)
    case Fail(_) =>
    case Done(f, rest) =>
      match Answer(pending, f) {
        case Refused =>
        case Nothing => KeepingFrom(Buffer(pending, f), rest);
        case Complete(_) => KeepingFrom(map[], rest);
      }
  }

  /** As long as nothing is buffered when a packet completes, throwing the reassembler away then loses nothing. */
  lemma {:induction false} NothingHeldSuffices(s: seq<byte>)
    requires NothingHeld(map[], s)
    ensures ReadAll(s) == ReadAllKeeping(map[], s)
  {
    KeepingFrom(map[], s);
  }

  /** A frame that tells a reader that holds `pending[stream]` from one that holds nothing. */
  lemma HeldShows(pending: Pending, stream: u64) returns (s: seq<byte>)
    requires stream in pending
    ensures ReadPacketFrom(pending, s) != ReadPacket(s)
  {
    var f := Frame(if pending[stream].kind == Message then Invoke else Message, PacketId(stream, 0), [], true);
    s := EncodeFrame(f) + [];
    FrameRoundTrip(f, []);
    ReadStep(pending, s, f, []);
    ReadStep(map[], s, f, []);
  }

  /**
   * And that is the exact condition: a buffer may be thrown away without any
   * continuation of the stream telling the difference if and only if it is
   * empty.
   */
  lemma DiscardHarmlessIff(pending: Pending)
    ensures (forall s: seq<byte> :: ReadPacketFrom(pending, s) == ReadPacket(s)) <==> pending == map[]
  {
    if pending != map[] {
      var stream :| stream in pending;
      var s := HeldShows(pending, stream);
    }
  }

  lemma {:induction false} OneStreamHoldsNothing(pending: Pending, s: seq<byte>, stream: u64)
    requires pending.Keys <= {stream} && OneStream(s, stream)
    ensures NothingHeld(pending, s)
    decreases |s|
  {
    match DecodeFrame(s)
    case Fail(_) =>
    case Done(f, rest) =>
      if Answer(pending, f).Complete? {
        assert Buffer(pending, f) == map[];
        OneStreamHoldsNothing(map[], rest, stream);
      } else if Answer(pending, f) == Nothing {
        OneStreamHoldsNothing(Buffer(pending, f), rest, stream);
      }
  }

  /** In particular on a connection that carries one stream id. */
  lemma {:induction false} FreshReassemblerSuffices(s: seq<byte>, stream: u64)
    requires OneStream(s, stream)
    ensures ReadAll(s) == ReadAllKeeping(map[], s)
  {
    OneStreamHoldsNothing(map[], s, stream);
    NothingHeldSuffices(s);
  }

  /**
   * With two stream ids it does lose: on bytes that decode to a partial of
   * stream `m`, a packet of stream `n` and the rest of the partial, the partial
   * is gone as soon as the packet completes.
   */
  lemma {:induction false} FreshReassemblerLosesPartials(m: PacketId, n: PacketId, x: Bytes, y: Bytes, z: Bytes,
                                                         s: seq<byte>, s1: seq<byte>, s2: seq<byte>)
    requires m.stream != n.stream && |x| + |z| <= MAX_PACKET_SIZE && |y| <= MAX_PACKET_SIZE
    requires DecodeFrame(s) == Done(Frame(Message, m, x, false), s1)
    requires DecodeFrame(s1) == Done(Frame(Message, n, y, true), s2)
    requires DecodeFrame(s2) == Done(Frame(Message, m, z, true), [])
    ensures ReadAll(s) == Transcript([Packet(Message, n, y), Packet(Message, m, z)], Closed)
    ensures ReadAllKeeping(map[], s) == Transcript([Packet(Message, n, y), Packet(Message, m, x + z)], Closed)
  {
    var a, b, c := Frame(Message, m, x, false), Frame(Message, n, y, true), Frame(Message, m, z, true);
    var held: Pending := map[m.stream := Partial(Message, m, x)];
    assert Buffer(map[], a) == held;
    assert Buffer(held, b) == held;
    assert Buffer(held, c) == map[];
    ReadStep(map[], s, a, s1);
    ReadStep(held, s1, b, s2);
    ReadStep(map[], s2, c, []);
    assert ReadAll([]) == Transcript([], Closed);
    assert ReadAll(s2) == Prepend(Packet(Message, m, z), ReadAll([]));
    assert ReadAllKeeping(map[], []) == Transcript([], Closed);
    assert ReadAllKeeping(held, s2) == Prepend(Packet(Message, m, x + z), ReadAllKeeping(map[], []));
    assert ReadAllKeeping(held, s1) == Prepend(Packet(Message, n, y), ReadAllKeeping(held, s2));
  }

  /** The bytes `write_packet` puts on the wire. */
  function PacketBytes(p: Packet): (bytes: seq<byte>)
    ensures |bytes| >= 4
  {
    EncodeFrame(Frame(p.kind, p.id, p.data, true))
  }

  function EncodePackets(ps: seq<Packet>): seq<byte> {
    if ps == [] then [] else PacketBytes(ps[0]) + EncodePackets(ps[1..])
  }

  /** A peer that reads what `write_packet` wrote sees exactly those packets, then a clean close. */
  lemma {:induction false} WrittenIsRead(ps: seq<Packet>)
    requires forall p :: p in ps ==> |p.data| <= MAX_PACKET_SIZE
    ensures ReadAll(EncodePackets(ps)) == Transcript(ps, Closed)
  {
    if ps != [] {
      var p := ps[0];
      var tail := EncodePackets(ps[1..]);
      FrameRoundTrip(Frame(p.kind, p.id, p.data, true), tail);
      assert ReadPacket(EncodePackets(ps)) == Done(p, tail);
      WrittenIsRead(ps[1..]);
      assert [p] + ps[1..] == ps;
    }
  }

  // ----------------------------------------------------- a stream that breaks off

  lemma {:induction false} TruncatedVarint(w: u64, i: nat, cut: nat)
    requires i < MAX_VARINT_LEN && w < Capacity(i) && cut < |Varint(w)|
    ensures DecodeVarint(Varint(w)[..cut], i) == Fail(Io)
    decreases w
  {
    if cut > 0 {
      var digit, high := w % 128 + 128, Varint(w / 128)[..cut - 1];
      assert Varint(w)[..cut] == [digit] + high;
      DecodeFirst(digit, high, i);
      TruncatedVarint(w / 128, i + 1, cut - 1);
    }
  }

  lemma {:induction false} TruncatedFields(ns: seq<u64>, cut: nat)
    requires cut < |EncodeFields(ns)|
    ensures DecodeFields(EncodeFields(ns)[..cut], |ns|) == Fail(Io)
    decreases |ns|
  {
    var first, later := Varint(ns[0]), EncodeFields(ns[1..]);
    var s := EncodeFields(ns)[..cut];
    if cut < |first| {
      assert Capacity(0) >= U64_RANGE;
      TruncatedVarint(ns[0], 0, cut);
      assert s == first[..cut];
    } else {
      var tail := later[..cut - |first|];
      assert s == first + tail;
      VarintRoundTrip(ns[0], tail);
      TruncatedFields(ns[1..], cut - |first|);
      DecodeField(s, ns[0], tail, |ns|);
    }
  }

  /** No proper prefix of a frame is mistaken for a frame. */
  lemma TruncatedFrame(f: Frame, cut: nat)
    requires cut < |EncodeFrame(f)|
    ensures DecodeFrame(EncodeFrame(f)[..cut]).Fail?
    ensures |f.data| <= MAX_PACKET_SIZE ==>
              DecodeFrame(EncodeFrame(f)[..cut]) == Fail(if cut == 0 then Closed else Io)
  {
    var ns := [f.id.stream, f.id.message, |f.data|];
    var fields := EncodeFields(ns);
    var s := EncodeFrame(f)[..cut];
    if cut > 0 {
      if cut - 1 < |fields| {
        assert s[1..] == fields[..cut - 1];
        TruncatedFields(ns, cut - 1);
      } else {
        var body := f.data[..cut - 1 - |fields|];
        assert s[1..] == fields + body;
        FieldsRoundTrip(ns, body);
      }
    }
  }

  /** How many of the packets arrived whole when the stream breaks off after `cut` bytes. */
  function WholePackets(ps: seq<Packet>, cut: nat): (k: nat)
    ensures k <= |ps|
    decreases |ps|
  {
    if ps == [] then 0
    else
      var n := |PacketBytes(ps[0])|;
      if cut < n then 0 else 1 + WholePackets(ps[1..], cut - n)
  }

  /** What a peer reads off the front of a stream that starts with a packet, whole or broken off. */
  lemma FirstRead(p: Packet, tail: seq<byte>, cut: nat)
    ensures ReadPacket(PacketBytes(p) + tail) == if |p.data| <= MAX_PACKET_SIZE then Done(p, tail) else Fail(Protocol)
    ensures cut < |PacketBytes(p)| ==> ReadPacket(PacketBytes(p)[..cut]).Fail?
    ensures cut < |PacketBytes(p)| && |p.data| <= MAX_PACKET_SIZE ==>
              ReadPacket(PacketBytes(p)[..cut]) == Fail(if cut == 0 then Closed else Io)
  {
    var f := Frame(p.kind, p.id, p.data, true);
    FrameRoundTrip(f, tail);
    ReadStep(map[], PacketBytes(p) + tail, f, tail);
    if cut < |PacketBytes(p)| {
      TruncatedFrame(f, cut);
    }
  }

  lemma {:induction false} CutConcat(b: seq<byte>, later: seq<byte>, cut: nat)
    requires cut <= |b + later|
    ensures (b + later)[..cut] == if cut < |b| then b[..cut] else b + later[..cut - |b|]
  {
  }

  /** What a peer sees of `ps` when the stream breaks off after `cut` bytes. */
  function BrokenOff(ps: seq<Packet>, cut: nat): Transcript {
    var k := WholePackets(ps, cut);
    Transcript(ps[..k], if cut == |EncodePackets(ps[..k])| then Closed else Io)
  }

  lemma {:induction false} BrokenOffLater(ps: seq<Packet>, cut: nat)
    requires ps != [] && cut >= |PacketBytes(ps[0])|
    ensures BrokenOff(ps, cut) == Prepend(ps[0], BrokenOff(ps[1..], cut - |PacketBytes(ps[0])|))
  {
    var k := WholePackets(ps, cut);
    assert ps[..k][1..] == ps[1..][..k - 1];
    assert ps[..k] == [ps[0]] + ps[1..][..k - 1];
  }

  /** What a peer reads of a packet and what follows it, when the stream breaks off after `cut` bytes. */
  lemma {:induction false} ReadCut(p: Packet, later: seq<byte>, cut: nat)
    requires cut <= |PacketBytes(p) + later|
    ensures
      var n, fits := |PacketBytes(p)|, |p.data| <= MAX_PACKET_SIZE;
      var t := ReadAll((PacketBytes(p) + later)[..cut]);
      && (cut < n || !fits ==> t.packets == [])
      && (cut < n && fits ==> t == Transcript([], if cut == 0 then Closed else Io))
      && (cut >= n && fits ==> t == Prepend(p, ReadAll(later[..cut - n])))
  {
    var b := PacketBytes(p);
    CutConcat(b, later, cut);
    FirstRead(p, if cut < |b| then [] else later[..cut - |b|], cut);
  }

  /** A stream that breaks off anywhere is never misread: the peer sees a prefix of what was written. */
  lemma {:induction false} BrokenOffIsPrefix(ps: seq<Packet>, cut: nat)
    requires cut <= |EncodePackets(ps)|
    ensures ReadAll(EncodePackets(ps)[..cut]).packets <= ps
    decreases |ps|
  {
    if ps == [] {
      assert EncodePackets(ps)[..cut] == [];
    } else {
      var n, later := |PacketBytes(ps[0])|, EncodePackets(ps[1..]);
      assert EncodePackets(ps) == PacketBytes(ps[0]) + later;
      var t := ReadAll(EncodePackets(ps)[..cut]);
      ReadCut(ps[0], later, cut);
      if cut >= n && |ps[0].data| <= MAX_PACKET_SIZE {
        BrokenOffIsPrefix(ps[1..], cut - n);
        PrependPrefix(ps, t, ReadAll(later[..cut - n]));
      }
    }
  }

  lemma PrependPrefix(ps: seq<Packet>, t: Transcript, tail: Transcript)
    requires ps != [] && tail.packets <= ps[1..] && t == Prepend(ps[0], tail)
    ensures t.packets <= ps
  {
  }

  /**
   * When every packet fits the cap, the peer sees exactly those that arrived
   * whole, then a clean close on a packet boundary and an I/O error elsewhere.
   */
  lemma {:induction false} BrokenOffExactly(ps: seq<Packet>, cut: nat)
    requires cut <= |EncodePackets(ps)| && forall i :: 0 <= i < |ps| ==> |ps[i].data| <= MAX_PACKET_SIZE
    ensures ReadAll(EncodePackets(ps)[..cut]) == BrokenOff(ps, cut)
    decreases |ps|
  {
    if ps != [] {
      var n := |PacketBytes(ps[0])|;
      ReadCut(ps[0], EncodePackets(ps[1..]), cut);
      if cut >= n {
        BrokenOffExactly(ps[1..], cut - n);
        BrokenOffLater(ps, cut);
      } else {
        assert ps[..0] == [];
      }
    }
  }

  // ------------------------------------------------- the reading procedures

  /** The receiving half of a connection: the bytes not yet consumed. */
  class ByteStream {
    var input: seq<byte>

    constructor (bytes: seq<byte>)
      ensures input == bytes
    {
      input := bytes;
    }

    method ReadByte() returns (b: Option<byte>)
      modifies this
      ensures b == if old(input) == [] then None else Some(old(input)[0])
      ensures input == if old(input) == [] then [] else old(input)[1..]
    {
      if input == [] {
        return None;
      }
      b := Some(input[0]);
      input := input[1..];
    }
  }

  /** The result `r` of a reading procedure that found `before` and left `after` is the one specified. */
  ghost predicate Reads<T>(r: Read<T>, spec: Read<T>, after: seq<byte>) {
    r == spec && (r.Done? ==> after == r.rest)
  }

  method EncodeVarint(buf: seq<byte>, value: u64) returns (out: seq<byte>)
    ensures out == buf + Varint(value)
  {
    out := buf;
    var v: nat := value;
    while v >= 0x80
      invariant out + Varint(v) == buf + Varint(value)
    {
      assert Varint(v) == [v % 128 + 128] + Varint(v / 128);
      out := out + [v % 128 + 128];
      v := v / 128;
    }
    out := out + [v];
  }

  /** `res` moved up by `weight` on top of the low digits `low`: what an accumulating reader makes of it. */
  function OnTop(low: nat, weight: nat, res: Read<u64>): Read<u64> {
    match res
    case Fail(e) => Fail(e)
    case Done(high, rest) => Done((low + weight * high) % U64_RANGE, rest)
  }

  lemma ModShift(a: int, k: int)
    ensures (a + k * U64_RANGE) % U64_RANGE == a % U64_RANGE
  {
    var m := U64_RANGE;
    assert a + k * m == (a / m + k) * m + a % m;
  }

  /** Moving one digit from the unread number into the accumulator changes nothing. */
  lemma Accumulate(low: nat, weight: nat, digit: nat, high: nat)
    ensures (low + weight * ((digit + 128 * high) % U64_RANGE)) % U64_RANGE ==
            ((low + digit * weight) % U64_RANGE + (weight * 128) * high) % U64_RANGE
  {
    var m := U64_RANGE;
    var x, y := digit + 128 * high, low + digit * weight;
    var total := low + weight * x;
    assert x % m == x - x / m * m;
    assert weight * (x % m) == weight * x - weight * (x / m) * m;
    ModShift(total, -(weight * (x / m)));
    assert weight * x == weight * digit + (weight * 128) * high;
    assert total == y + (weight * 128) * high;
    assert y % m == y - y / m * m;
    ModShift(total, -(y / m));
  }

  /** One turn of the reading loop, on values: taking a byte with more to come moves it under the accumulator. */
  lemma ReadDigit(low: nat, weight: nat, s: seq<byte>, i: nat)
    requires s != [] && i < MAX_VARINT_LEN
    ensures OnTop(low, weight, DecodeVarint(s, i)) ==
            var low' := (low + s[0] % 128 * weight) % U64_RANGE;
            if s[0] < 128 then Done(low', s[1..]) else OnTop(low', weight * 128, DecodeVarint(s[1..], i + 1))
  {
    var higher := DecodeVarint(s[1..], i + 1);
    if s[0] >= 128 && higher.Done? {
      Accumulate(low, weight, s[0] % 128, higher.value);
    }
    assert weight * (s[0] % 128) == s[0] % 128 * weight;
  }

  method ReadVarint(r: ByteStream) returns (res: Read<u64>)
    modifies r
    ensures Reads(res, DecodeVarint(old(r.input), 0), r.input)
  {
    var value: u64 := 0;
    var weight: nat := 1;
    for i := 0 to MAX_VARINT_LEN
      invariant DecodeVarint(old(r.input), 0) == OnTop(value, weight, DecodeVarint(r.input, i))
    {
      ghost var s := r.input;
      var b := r.ReadByte();
      if b.None? {
        return Fail(Io);
      }
      ReadDigit(value, weight, s, i);
      value := (value + b.value % 128 * weight) % U64_RANGE;
      if b.value < 0x80 {
        return Done(value, r.input);
      }
      weight := weight * 128;
    }
    return Fail(Protocol);
  }

  method WriteFrame(out: seq<byte>, f: Frame) returns (out': seq<byte>)
    ensures out' == out + EncodeFrame(f)
  {
    var header := [KindToU8(f.kind) * 2 + if f.done then 1 else 0];
    var buf := EncodeVarint(header, f.id.stream);
    buf := EncodeVarint(buf, f.id.message);
    buf := EncodeVarint(buf, |f.data|);
    buf := buf + f.data;
    out' := out + buf;
    ThreeFields(f.id.stream, f.id.message, |f.data|);
    assert buf == EncodeFrame(f);
  }

  lemma {:induction false} EncodeFieldsHead(a: u64, ns: seq<u64>)
    ensures EncodeFields([a] + ns) == Varint(a) + EncodeFields(ns)
  {
    assert ([a] + ns)[1..] == ns;
  }

  lemma {:induction false} ThreeFields(a: u64, b: u64, c: u64)
    ensures EncodeFields([a, b, c]) == Varint(a) + Varint(b) + Varint(c)
  {
    assert [a] + [b, c] == [a, b, c] && [b] + [c] == [b, c] && [c] + [] == [c];
    EncodeFieldsHead(a, [b, c]);
    EncodeFieldsHead(b, [c]);
    EncodeFieldsHead(c, []);
  }

  method ReadFrame(r: ByteStream) returns (res: Read<Frame>)
    modifies r
    ensures Reads(res, DecodeFrame(old(r.input)), r.input)
  {
    var header := r.ReadByte();
    if header.None? {
      return Fail(Closed);
    }
    var kind := KindFromU8(header.value / 2 % 64);
    if kind.None? {
      return Fail(Protocol);
    }
    ghost var s := r.input;
    var stream := ReadVarint(r);
    if stream.Fail? { return Fail(stream.error); }
    ghost var s1 := r.input;
    assert DecodeFields(s, 3) == FieldThen(stream.value, DecodeFields(s1, 2));
    var message := ReadVarint(r);
    if message.Fail? { return Fail(message.error); }
    ghost var s2 := r.input;
    assert DecodeFields(s1, 2) == FieldThen(message.value, DecodeFields(s2, 1));
    var length := ReadVarint(r);
    if length.Fail? { return Fail(length.error); }
    ghost var s3 := r.input;
    assert DecodeFields(s2, 1) == FieldThen(length.value, DecodeFields(s3, 0));
    assert [stream.value] + ([message.value] + ([length.value] + [])) == [stream.value, message.value, length.value];
    if length.value > MAX_PACKET_SIZE {
      return Fail(Protocol);
    }
    if |r.input| < length.value {
      return Fail(Io);
    }
    var data := r.input[..length.value];
    r.input := r.input[length.value..];
    res := Done(Frame(kind.value, PacketId(stream.value, message.value), data, header.value % 2 == 1), r.input);
  }

  /** The `read_packet` loop: it terminates on every finite stream and computes `ReadPacket`. */
  method NextPacket(r: ByteStream) returns (res: Read<Packet>)
    modifies r
    ensures Reads(res, ReadPacket(old(r.input)), r.input)
  {
    var reassembler := new PacketReassembler();
    while true
      invariant fresh(reassembler)
      invariant ReadPacket(old(r.input)) == ReadPacketFrom(reassembler.pending, r.input)
      decreases |r.input|
    {
      var frame := ReadFrame(r);
      if frame.Fail? {
        return Fail(frame.error);
      }
      var answer := reassembler.Push(frame.value);
      match answer {
        case Refused => return Fail(Protocol);
        case Complete(packet) => return Done(packet, r.input);
        case Nothing =>
      }
    }
  }
}
