/** Length-prefixed framing: the push-based decoder returns the messages that were encoded, however
    the byte stream was cut into chunks and whenever it is asked. */
module Frames {
  import opened Bytes
  import opened Options

  const LEN_PREFIX: nat := 4
  const MAX_FRAME_LEN: nat := 256 * 1024 * 1024
  const U32_MAX: nat := 0xFFFF_FFFF

  /** Message serialization, as far as framing sees it. */
  datatype Codec<!M> = Codec(encode: M -> Option<Bytes>, decode: Bytes -> Option<M>)

  datatype ProtoError = EncodeFailed | DecodeFailed | FrameTooLarge(len: nat)
  datatype Encoded = Frame(bytes: Bytes) | Unencodable(error: ProtoError)

  /** What a call of `next` reports. */
  datatype Output<+M> = Got(message: M) | Waiting | Error(error: ProtoError)

  /** Serialization is lossless on what it can serialize. */
  ghost predicate RoundTrips<M(!new)>(codec: Codec<M>) {
    forall m :: codec.encode(m).Some? ==> codec.decode(codec.encode(m).value) == Some(m)
  }

  // ---- Encoding ----

  ghost predicate Encodable<M>(codec: Codec<M>, m: M) {
    codec.encode(m).Some? && |codec.encode(m).value| <= MAX_FRAME_LEN
  }

  ghost function FrameBytes<M>(codec: Codec<M>, m: M): Bytes
    requires Encodable(codec, m)
  {
    LittleEndian(|codec.encode(m).value|, LEN_PREFIX) + codec.encode(m).value
  }

  method Encode<M>(codec: Codec<M>, m: M) returns (result: Encoded)
    ensures result.Frame? <==> Encodable(codec, m)
    ensures result.Frame? ==> result.bytes == FrameBytes(codec, m)
    ensures codec.encode(m).None? ==> result == Unencodable(EncodeFailed)
    ensures codec.encode(m).Some? && !result.Frame?
            ==> result == Unencodable(FrameTooLarge(if |codec.encode(m).value| > U32_MAX then U32_MAX else |codec.encode(m).value|))
  {
    match codec.encode(m)
    case None =>
      return Unencodable(EncodeFailed);
    case Some(payload) =>
      if |payload| > U32_MAX {
        return Unencodable(FrameTooLarge(U32_MAX));
      }
      if |payload| > MAX_FRAME_LEN {
        return Unencodable(FrameTooLarge(|payload|));
      }
      result := Frame(LittleEndian(|payload|, LEN_PREFIX) + payload);
  }

  // ---- Decoding one frame ----

  ghost function DeclaredLength(rest: Bytes): nat
    requires |rest| >= LEN_PREFIX
  {
    FromLittleEndian(rest[..LEN_PREFIX])
  }

  /** The verdict on the unconsumed bytes. */
  ghost function Peek<M>(codec: Codec<M>, rest: Bytes): Output<M> {
    if |rest| < LEN_PREFIX then Waiting
    else
      var len := DeclaredLength(rest);
      if len > MAX_FRAME_LEN then Error(FrameTooLarge(len))
      else if |rest| < LEN_PREFIX + len then Waiting
      else
        match codec.decode(rest[LEN_PREFIX..LEN_PREFIX + len])
        case None => Error(DecodeFailed)
        case Some(m) => Got(m)
  }

  /** What is left unconsumed: only a message advances. */
  ghost function Advance<M>(codec: Codec<M>, rest: Bytes): (left: Bytes)
    ensures !Peek(codec, rest).Got? ==> left == rest
    ensures Peek(codec, rest).Got? ==> |left| < |rest|
  {
    if Peek(codec, rest).Got? then rest[LEN_PREFIX + DeclaredLength(rest)..] else rest
  }

  class FrameDecoder<M> {
    const codec: Codec<M>
    var buf: Bytes
    var pos: nat

    constructor (codec: Codec<M>)
      ensures Valid() && Rest() == [] && this.codec == codec
    {
      this.codec := codec;
      buf, pos := [], 0;
    }

    ghost predicate Valid()
      reads this
    {
      pos <= |buf|
    }

    /** The unconsumed bytes. */
    ghost function Rest(): Bytes
      requires Valid()
      reads this
    {
      buf[pos..]
    }

    method Push(bytes: Bytes)
      requires Valid()
      modifies this
      ensures Valid() && Rest() == old(Rest()) + bytes
      ensures |buf| == |old(Rest())| + |bytes|
    {
      if pos > 0 {
        buf := buf[pos..];
        pos := 0;
      }
      buf := buf + bytes;
    }

    method Next() returns (output: Output<M>)
      requires Valid()
      modifies this`pos
      ensures Valid() && Rest() == Advance(codec, old(Rest()))
      ensures output == Peek(codec, old(Rest()))
    {
      var avail := buf[pos..];
      if |avail| < LEN_PREFIX {
        return Waiting;
      }
      var len := FromLittleEndian(avail[..LEN_PREFIX]);
      if len > MAX_FRAME_LEN {
        return Error(FrameTooLarge(len));
      }
      var end := LEN_PREFIX + len;
      if |avail| < end {
        return Waiting;
      }
      match codec.decode(avail[LEN_PREFIX..end]) {
        case None =>
          return Error(DecodeFailed);
        case Some(message) =>
          pos := pos + end;
          assert buf[pos..] == avail[end..];
          return Got(message);
      }
    }
  }

  // ---- Sessions: any interleaving of pushes and calls of next ----

  datatype Call = PushCall(bytes: Bytes) | NextCall
  datatype Session<+M> = Session(rest: Bytes, outputs: seq<Output<M>>)

  ghost function After<M>(codec: Codec<M>, s: Session<M>, call: Call): Session<M> {
    match call
    case PushCall(bytes) => s.(rest := s.rest + bytes)
    case NextCall => Session(Advance(codec, s.rest), s.outputs + [Peek(codec, s.rest)])
  }

  ghost function Run<M>(codec: Codec<M>, calls: seq<Call>): Session<M> {
    if calls == [] then Session([], []) else After(codec, Run(codec, calls[..|calls| - 1]), calls[|calls| - 1])
  }

  /** All bytes pushed. */
  ghost function Fed(calls: seq<Call>): Bytes {
    if calls == [] then []
    else
      var last := calls[|calls| - 1];
      Fed(calls[..|calls| - 1]) + (if last.PushCall? then last.bytes else [])
  }

  /** The messages among the outputs. */
  ghost function Received<M>(outputs: seq<Output<M>>): seq<M> {
    if outputs == [] then []
    else
      var last := outputs[|outputs| - 1];
      Received(outputs[..|outputs| - 1]) + (if last.Got? then [last.message] else [])
  }

  /** The whole stream decoded at once: its messages and what is left of it. */
  datatype Drained<+M> = Drained(messages: seq<M>, left: Bytes)

  ghost function Drain<M>(codec: Codec<M>, stream: Bytes): Drained<M>
    decreases |stream|
  {
    if Peek(codec, stream).Got? then
      var d := Drain(codec, Advance(codec, stream));
      Drained([Peek(codec, stream).message] + d.messages, d.left)
    else Drained([], stream)
  }

  /** More bytes change neither a message nor an error, only what is left behind it. */
  lemma VerdictIsFinal<M>(codec: Codec<M>, rest: Bytes, more: Bytes)
    requires !Peek(codec, rest).Waiting?
    ensures Peek(codec, rest + more) == Peek(codec, rest)
    ensures Advance(codec, rest + more) == Advance(codec, rest) + more
  {
    hide FromLittleEndian;
    assert (rest + more)[..LEN_PREFIX] == rest[..LEN_PREFIX];
    var len := DeclaredLength(rest);
    if len <= MAX_FRAME_LEN {
      var end := LEN_PREFIX + len;
      assert (rest + more)[LEN_PREFIX..end] == rest[LEN_PREFIX..end];
      assert (rest + more)[end..] == rest[end..] + more;
    }
  }

  lemma {:induction false} DrainExtended<M>(codec: Codec<M>, stream: Bytes, more: Bytes)
    ensures var d := Drain(codec, stream);
            var e := Drain(codec, d.left + more);
            Drain(codec, stream + more) == Drained(d.messages + e.messages, e.left)
    decreases |stream|
  {
    hide Peek, Advance;
    if Peek(codec, stream).Got? {
      VerdictIsFinal(codec, stream, more);
      var rest := Advance(codec, stream);
      DrainExtended(codec, rest, more);
      var d := Drain(codec, rest);
      JoinMessages([Peek(codec, stream).message], d.messages, Drain(codec, d.left + more).messages);
    } else {
      JoinMessages([], [], Drain(codec, stream + more).messages);
    }
  }

  /** What a session has received, followed by what its unconsumed bytes hold, is what the bytes
      fed so far hold: for every stream, well-formed or not. */
  lemma {:induction false} SessionDecodesStream<M>(codec: Codec<M>, calls: seq<Call>)
    ensures var s := Run(codec, calls);
            var d := Drain(codec, s.rest);
            Drain(codec, Fed(calls)) == Drained(Received(s.outputs) + d.messages, d.left)
  {
    hide Peek;
    if calls != [] {
      var before, call := Run(codec, calls[..|calls| - 1]), calls[|calls| - 1];
      SessionDecodesStream(codec, calls[..|calls| - 1]);
      var d := Drain(codec, before.rest);
      match call
      case PushCall(bytes) =>
        var fed := Fed(calls[..|calls| - 1]);
        DrainExtended(codec, fed, bytes);
        DrainExtended(codec, before.rest, bytes);
        JoinMessages(Received(before.outputs), d.messages, Drain(codec, d.left + bytes).messages);
      case NextCall =>
        assert Fed(calls) == Fed(calls[..|calls| - 1]) + [] == Fed(calls[..|calls| - 1]);
        var output := Peek(codec, before.rest);
        assert (before.outputs + [output])[..|before.outputs|] == before.outputs;
        if output.Got? {
          JoinMessages(Received(before.outputs), [output.message], Drain(codec, Advance(codec, before.rest)).messages);
        }
    }
  }

  lemma JoinMessages<M>(a: seq<M>, b: seq<M>, c: seq<M>)
    ensures a + b + c == a + (b + c)
    ensures a + [] == a
  {
  }

  /** Chunking invariance: two sessions fed the same bytes and asked until no message is left have
      received the same messages, hold the same bytes, and report the same thing next, although
      the bytes came in different chunks and `next` was called at different times. */
  lemma ChunkingInvariance<M>(codec: Codec<M>, calls: seq<Call>, others: seq<Call>)
    requires Fed(calls) == Fed(others)
    requires !Peek(codec, Run(codec, calls).rest).Got? && !Peek(codec, Run(codec, others).rest).Got?
    ensures Received(Run(codec, calls).outputs) == Received(Run(codec, others).outputs)
    ensures Run(codec, calls).rest == Run(codec, others).rest
  {
    hide Peek, Run, Received;
    SessionDecodesStream(codec, calls);
    SessionDecodesStream(codec, others);
    JoinMessages(Received(Run(codec, calls).outputs), [], []);
    JoinMessages(Received(Run(codec, others).outputs), [], []);
  }

  // ---- Streams of encoded messages ----

  ghost predicate AllEncodable<M>(codec: Codec<M>, messages: seq<M>) {
    forall i :: 0 <= i < |messages| ==> Encodable(codec, messages[i])
  }

  /** The concatenated frames. */
  ghost function Stream<M>(codec: Codec<M>, messages: seq<M>): Bytes
    requires AllEncodable(codec, messages)
  {
    if messages == [] then [] else FrameBytes(codec, messages[0]) + Stream(codec, messages[1..])
  }

  lemma FrameLength<M>(codec: Codec<M>, m: M, rest: Bytes)
    requires Encodable(codec, m) && FrameBytes(codec, m)[..|FrameBytes(codec, m)|] <= rest
    ensures |rest| >= LEN_PREFIX && DeclaredLength(rest) == |codec.encode(m).value|
    ensures rest[LEN_PREFIX..LEN_PREFIX + |codec.encode(m).value|] == codec.encode(m).value
  {
    hide FromLittleEndian;
    var payload := codec.encode(m).value;
    var prefix := LittleEndian(|payload|, LEN_PREFIX);
    assert rest[..|prefix| + |payload|] == prefix + payload;
    assert rest[..LEN_PREFIX] == prefix;
    assert rest[LEN_PREFIX..LEN_PREFIX + |payload|] == payload;
    CapacityIsU64();
    LittleEndianRoundTrip(|payload|, LEN_PREFIX);
  }

  /** A frame followed by anything decodes to its message and leaves exactly what follows. */
  lemma FrameRoundTrip<M(!new)>(codec: Codec<M>, m: M, more: Bytes)
    requires RoundTrips(codec) && Encodable(codec, m)
    ensures Peek(codec, FrameBytes(codec, m) + more) == Got(m)
    ensures Advance(codec, FrameBytes(codec, m) + more) == more
  {
    hide FromLittleEndian, DeclaredLength;
    var frame := FrameBytes(codec, m);
    assert (frame + more)[..|frame|] == frame;
    FrameLength(codec, m, frame + more);
    assert (frame + more)[|frame|..] == more;
  }

  /** A strict prefix of a frame is never mistaken for anything. */
  lemma PartialFrameWaits<M>(codec: Codec<M>, m: M, part: Bytes)
    requires Encodable(codec, m) && part < FrameBytes(codec, m)
    ensures Peek(codec, part) == Waiting
  {
    hide FromLittleEndian;
    if |part| >= LEN_PREFIX {
      FrameLength(codec, m, FrameBytes(codec, m));
      assert part[..LEN_PREFIX] == FrameBytes(codec, m)[..LEN_PREFIX];
    }
  }

  lemma {:induction false} StreamSplits<M>(codec: Codec<M>, a: seq<M>, b: seq<M>)
    requires AllEncodable(codec, a) && AllEncodable(codec, b)
    ensures AllEncodable(codec, a + b) && Stream(codec, a + b) == Stream(codec, a) + Stream(codec, b)
  {
    hide FrameBytes, Encodable;
    if a == [] {
      assert a + b == b;
    } else {
      StreamSplits(codec, a[1..], b);
      assert (a + b)[1..] == a[1..] + b && (a + b)[0] == a[0];
      Associate(FrameBytes(codec, a[0]), Stream(codec, a[1..]), Stream(codec, b));
    }
  }

  /** Part of a stream either waits for the rest of its first frame, or yields its first message
      and leaves part of the remaining stream. */
  lemma PeekOfPartialStream<M(!new)>(codec: Codec<M>, messages: seq<M>, rest: Bytes)
    requires RoundTrips(codec) && AllEncodable(codec, messages) && rest <= Stream(codec, messages)
    ensures Peek(codec, rest) == Waiting
            || (messages != [] && Peek(codec, rest) == Got(messages[0]) && rest == FrameBytes(codec, messages[0]) + Advance(codec, rest))
    ensures messages != [] && rest == Stream(codec, messages) ==> Peek(codec, rest).Got?
  {
    hide RoundTrips, FromLittleEndian, Encodable, Advance, FrameBytes;
    if messages == [] {
      assert |rest| == 0;
    } else {
      assert Encodable(codec, messages[0]);
      var frame, stream := FrameBytes(codec, messages[0]), Stream(codec, messages);
      if |rest| < |frame| {
        assert rest == stream[..|rest|] == frame[..|rest|];
        PartialFrameWaits(codec, messages[0], rest);
      } else {
        assert stream[..|frame|] == frame && rest == stream[..|rest|];
        assert rest[..|frame|] == frame;
        assert rest == frame + rest[|frame|..];
        FrameRoundTrip(codec, messages[0], rest[|frame|..]);
      }
    }
  }

  /** A session fed part of the frames of `messages` has received some first messages, its
      unconsumed bytes are exactly what was fed beyond their frames, and it has met no error. */
  ghost predicate Faithful<M>(codec: Codec<M>, s: Session<M>, fed: Bytes, messages: seq<M>) {
    var received := Received(s.outputs);
    && received <= messages
    && AllEncodable(codec, received)
    && fed == Stream(codec, received) + s.rest
    && forall i :: 0 <= i < |s.outputs| ==> !s.outputs[i].Error?
  }

  lemma StreamRemainder<M>(codec: Codec<M>, messages: seq<M>, received: seq<M>, rest: Bytes)
    requires AllEncodable(codec, messages) && received <= messages && AllEncodable(codec, received)
    requires Stream(codec, received) + rest <= Stream(codec, messages)
    ensures AllEncodable(codec, messages[|received|..])
    ensures rest <= Stream(codec, messages[|received|..])
    ensures Stream(codec, received) + rest == Stream(codec, messages) ==> rest == Stream(codec, messages[|received|..])
  {
    hide FrameBytes, Encodable;
    var later := messages[|received|..];
    assert messages == received + later;
    StreamSplits(codec, received, later);
    var a, b := Stream(codec, received), Stream(codec, later);
    assert rest == (a + rest)[|a|..] && b == (a + b)[|a|..];
    assert (a + rest) == (a + b)[..|a + rest|];
    assert rest == b[..|rest|];
  }

  lemma OneMoreReceived<M>(codec: Codec<M>, received: seq<M>, m: M, rest: Bytes, left: Bytes)
    requires AllEncodable(codec, received) && Encodable(codec, m) && rest == FrameBytes(codec, m) + left
    ensures AllEncodable(codec, received + [m])
    ensures Stream(codec, received + [m]) + left == Stream(codec, received) + rest
  {
    hide FrameBytes, Encodable;
    StreamSplits(codec, received, [m]);
    assert Stream(codec, [m]) == FrameBytes(codec, m) + Stream(codec, [m][1..]) == FrameBytes(codec, m);
    Associate(Stream(codec, received), FrameBytes(codec, m), left);
  }

  lemma NextStaysFaithful<M(!new)>(codec: Codec<M>, s: Session<M>, fed: Bytes, messages: seq<M>)
    requires RoundTrips(codec) && AllEncodable(codec, messages) && fed <= Stream(codec, messages)
    requires Faithful(codec, s, fed, messages)
    ensures Faithful(codec, After(codec, s, NextCall), fed, messages)
  {
    hide Peek, Advance, RoundTrips, FrameBytes, Encodable, Stream;
    var received, output := Received(s.outputs), Peek(codec, s.rest);
    var later := messages[|received|..];
    StreamRemainder(codec, messages, received, s.rest);
    PeekOfPartialStream(codec, later, s.rest);
    var after := After(codec, s, NextCall);
    assert after.outputs[..|s.outputs|] == s.outputs;
    if output.Got? {
      OneMoreReceived(codec, received, later[0], s.rest, after.rest);
      assert received + [later[0]] == messages[..|received| + 1];
    } else {
      assert Advance(codec, s.rest) == s.rest;
      JoinMessages(received, [], []);
      assert Received(after.outputs) == received;
    }
  }

  lemma PushStaysFaithful<M>(codec: Codec<M>, s: Session<M>, fed: Bytes, bytes: Bytes, messages: seq<M>)
    requires Faithful(codec, s, fed, messages)
    ensures Faithful(codec, After(codec, s, PushCall(bytes)), fed + bytes, messages)
  {
    hide Encodable, Stream;
    Associate(Stream(codec, Received(s.outputs)), s.rest, bytes);
  }

  /** Every split of the frames into chunks and every interleaving with `next`: at each moment
      the session is faithful. */
  lemma {:induction false} SessionIsFaithful<M(!new)>(codec: Codec<M>, calls: seq<Call>, messages: seq<M>)
    requires RoundTrips(codec) && AllEncodable(codec, messages) && Fed(calls) <= Stream(codec, messages)
    ensures Faithful(codec, Run(codec, calls), Fed(calls), messages)
  {
    hide RoundTrips, After, Faithful, AllEncodable;
    if calls == [] {
      EmptyIsFaithful(codec, messages);
    } else {
      var front, call := calls[..|calls| - 1], calls[|calls| - 1];
      SessionIsFaithful(codec, front, messages);
      match call {
        case PushCall(bytes) => PushStaysFaithful(codec, Run(codec, front), Fed(front), bytes, messages);
        case NextCall =>
          assert Fed(front) + [] == Fed(front);
          NextStaysFaithful(codec, Run(codec, front), Fed(front), messages);
      }
    }
  }

  lemma EmptyIsFaithful<M>(codec: Codec<M>, messages: seq<M>)
    ensures Faithful(codec, Session([], []), [], messages)
  {
    assert Received<M>([]) == [];
  }

  /** Once every frame has been fed and `next` has no message left, exactly the encoded messages
      have been received, in order, and nothing is left over. */
  lemma SessionRoundTrip<M(!new)>(codec: Codec<M>, calls: seq<Call>, messages: seq<M>)
    requires RoundTrips(codec) && AllEncodable(codec, messages) && Fed(calls) == Stream(codec, messages)
    requires !Peek(codec, Run(codec, calls).rest).Got?
    ensures Received(Run(codec, calls).outputs) == messages
    ensures Run(codec, calls).rest == []
  {
    hide RoundTrips, Run, Peek, FrameBytes, Encodable;
    var s := Run(codec, calls);
    var received := Received(s.outputs);
    SessionIsFaithful(codec, calls, messages);
    StreamRemainder(codec, messages, received, s.rest);
    PeekOfPartialStream(codec, messages[|received|..], s.rest);
  }

  // ---- Streams that are not encoded messages ----

  /** Four bytes of a length, then that many bytes of anything. */
  ghost function Prefixed(len: nat, body: Bytes): Bytes {
    LittleEndian(len, LEN_PREFIX) + body
  }

  lemma PrefixDeclares(len: nat, body: Bytes)
    requires len <= U32_MAX
    ensures |Prefixed(len, body)| == 4 + |body| && DeclaredLength(Prefixed(len, body)) == len
    ensures Prefixed(len, body)[LEN_PREFIX..] == body
  {
    hide FromLittleEndian;
    assert Prefixed(len, body)[..LEN_PREFIX] == LittleEndian(len, LEN_PREFIX);
    CapacityIsU64();
    LittleEndianRoundTrip(len, LEN_PREFIX);
  }

  /** What `next` answers to any declared length and any bytes after it: a length over 256 MiB is an error
      at once, whatever follows; a shorter body waits; a complete one is decoded, and what cannot be
      decoded is an error. Fewer than four bytes wait. */
  lemma PeekAnswers<M>(codec: Codec<M>, len: nat, body: Bytes, few: Bytes)
    requires len <= U32_MAX && |few| < 4
    ensures Peek(codec, few) == Waiting
    ensures len > 256 * 1024 * 1024 ==> Peek(codec, Prefixed(len, body)) == Error(FrameTooLarge(len))
    ensures len <= 256 * 1024 * 1024 && |body| < len ==> Peek(codec, Prefixed(len, body)) == Waiting
    ensures len <= 256 * 1024 * 1024 && len <= |body| ==>
              Peek(codec, Prefixed(len, body)) ==
              match codec.decode(body[..len])
              case None => Error(DecodeFailed)
              case Some(m) => Got(m)
    ensures len <= 256 * 1024 * 1024 && len <= |body| && codec.decode(body[..len]).Some?
            ==> Advance(codec, Prefixed(len, body)) == body[len..]
  {
    hide DeclaredLength;
    PrefixDeclares(len, body);
    var stream := Prefixed(len, body);
    if len <= |body| {
      assert stream[LEN_PREFIX..LEN_PREFIX + len] == body[..len];
      assert stream[LEN_PREFIX + len..] == body[len..];
    }
  }

  // ---- Errors are terminal ----

  ghost function Asked(calls: seq<Call>): nat {
    if calls == [] then 0
    else Asked(calls[..|calls| - 1]) + (if calls[|calls| - 1].NextCall? then 1 else 0)
  }

  function Repeated<T>(x: T, n: nat): seq<T> {
    seq(n, _ => x)
  }

  lemma RepeatedOnce<T>(before: seq<T>, x: T, n: nat)
    ensures before + Repeated(x, n) + [x] == before + Repeated(x, n + 1)
    ensures before + Repeated(x, 0) == before
  {
  }

  lemma StuckStep<M>(codec: Codec<M>, s: Session<M>, call: Call)
    requires Peek(codec, s.rest).Error?
    ensures Peek(codec, After(codec, s, call).rest) == Peek(codec, s.rest)
    ensures call.PushCall? ==> After(codec, s, call) == Session(s.rest + call.bytes, s.outputs)
    ensures call.NextCall? ==> After(codec, s, call) == Session(s.rest, s.outputs + [Peek(codec, s.rest)])
  {
    hide Peek;
    if call.PushCall? {
      VerdictIsFinal(codec, s.rest, call.bytes);
    }
  }

  /** Once `next` would fail, every later call of it reports the same error and consumes nothing,
      whatever else arrives. */
  lemma {:induction false} ErrorIsSticky<M>(codec: Codec<M>, calls: seq<Call>, later: seq<Call>)
    requires Peek(codec, Run(codec, calls).rest).Error?
    ensures var error := Peek(codec, Run(codec, calls).rest);
            && Peek(codec, Run(codec, calls + later).rest) == error
            && Run(codec, calls + later) == Session(Run(codec, calls).rest + Fed(later),
                                                    Run(codec, calls).outputs + Repeated(error, Asked(later)))
    decreases |later|
  {
    hide Peek, Advance, After, Repeated;
    var s := Run(codec, calls);
    var error := Peek(codec, s.rest);
    if later == [] {
      assert calls + later == calls;
      RepeatedOnce(s.outputs, error, 0);
      assert s.rest + [] == s.rest;
    } else {
      var front, call := later[..|later| - 1], later[|later| - 1];
      ErrorIsSticky(codec, calls, front);
      assert (calls + later)[..|calls + later| - 1] == calls + front;
      StuckStep(codec, Run(codec, calls + front), call);
      RepeatedOnce(s.outputs, error, Asked(front));
      Associate(s.rest, Fed(front), if call.PushCall? then call.bytes else []);
      assert s.rest + Fed(front) + [] == s.rest + Fed(front);
    }
  }
}
