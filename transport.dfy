/**
  Length-prefixed framing over the host's input and output handles
  (src/transport.cpp).

  Every frame is the payload length as a little-endian u32 followed by the
  payload. The receiving side reads frames until a read comes up short, and
  hands each parsed message to the dispatcher in arrival order.
 */
module Transport {
  import opened Wrappers
  import opened Bytes
  import opened Wire

  const U32_LIMIT: nat := 0x1_0000_0000

  /** The 4-byte length prefix: `static_cast<uint32_t>(payload.size())`, little-endian. */
  function FrameHeader(payload: seq<byte>): (h: seq<byte>)
    ensures |h| == 4
    ensures |payload| < U32_LIMIT ==> LittleEndian(h) == |payload|
  {
    assert Pow256(4) == U32_LIMIT;
    var h := ToLittleEndian(|payload| % U32_LIMIT, 4);
    ReadWrittenLittleEndian(|payload| % U32_LIMIT, 4);
    h
  }

  /** One frame as `send_message` writes it. */
  function Frame(payload: seq<byte>): seq<byte>
  {
    FrameHeader(payload) + payload
  }

  /** The frames of several payloads, one after the other. */
  function Frames(payloads: seq<seq<byte>>): seq<byte>
  {
    if payloads == [] then [] else Frame(payloads[0]) + Frames(payloads[1..])
  }

  /** What the receive loop has dispatched, and the parse error that ended the process, if any. */
  datatype Received = Received(messages: seq<Message>, failure: Option<ParseError>)

  /**
    The receive loop over the whole input stream: a short read of the length or
    of the payload ends it quietly; a payload that does not parse is fatal.
    Each message needs at least the header and two terminators, with its
    length prefix 22 bytes of input.
   */
  function Receive(stream: seq<byte>): (r: Received)
    ensures 22 * |r.messages| <= |stream|
    ensures forall i | 0 <= i < |r.messages| :: WellFormed(r.messages[i])
    decreases |stream|
  {
    if |stream| < 4 then Received([], None)
    else
      var size := LittleEndian(stream[..4]);
      if |stream| - 4 < size then Received([], None)
      else match Parse(stream[4..4 + size])
        case Failure(e) => Received([], Some(e))
        case Success(m) =>
          ParseSucceedsIffTwoTerminators(stream[4..4 + size]);
          var rest := Receive(stream[4 + size..]);
          Received([m] + rest.messages, rest.failure)
  }

  /** A frame whose payload parses contributes its message ahead of what follows it. */
  lemma ReceiveFrame(payload: seq<byte>, tail: seq<byte>)
    requires |payload| < U32_LIMIT && Parse(payload).Success?
    ensures var more := Receive(tail);
      Receive(Frame(payload) + tail) == Received([Parse(payload).value] + more.messages, more.failure)
  {
    var s := Frame(payload) + tail;
    assert s[..4] == FrameHeader(payload);
    assert s[4..4 + |payload|] == payload;
    assert s[4 + |payload|..] == tail;
  }

  /** A stream that starts with a whole frame: the frame's payload decides what the receive loop does first. */
  lemma ReceiveStep(stream: seq<byte>, payload: seq<byte>, tail: seq<byte>)
    requires |stream| >= 4 && stream == stream[..4] + payload + tail && LittleEndian(stream[..4]) == |payload|
    ensures Parse(payload).Failure? ==> Receive(stream) == Received([], Some(Parse(payload).error))
    ensures Parse(payload).Success? ==>
      Receive(stream) == Received([Parse(payload).value] + Receive(tail).messages, Receive(tail).failure)
  {
    assert stream[4..4 + |payload|] == payload && stream[4 + |payload|..] == tail;
  }

  /** A payload `send_message` frames faithfully and `parse` accepts. */
  predicate Sendable(payload: seq<byte>)
  {
    |payload| < U32_LIMIT && Parse(payload).Success?
  }

  /** The messages the given payloads parse to. */
  function ParseAll(payloads: seq<seq<byte>>): (ms: seq<Message>)
    requires forall i | 0 <= i < |payloads| :: Sendable(payloads[i])
    ensures |ms| == |payloads|
    ensures forall i | 0 <= i < |ms| :: Sendable(payloads[i]) && ms[i] == Parse(payloads[i]).value
  {
    if payloads == [] then [] else
      assert Sendable(payloads[0]);
      [Parse(payloads[0]).value] + ParseAll(payloads[1..])
  }

  /**
    Receiving the frames `send_message` wrote gives the sent messages, in the
    order they were sent, followed by whatever the tail then yields.
   */
  lemma {:induction false} ReceiveFrames(payloads: seq<seq<byte>>, tail: seq<byte>)
    requires forall i | 0 <= i < |payloads| :: Sendable(payloads[i])
    ensures var more := Receive(tail);
      Receive(Frames(payloads) + tail) == Received(ParseAll(payloads) + more.messages, more.failure)
  {
    FramesThenAppends(payloads, tail);
    ReceiveFramesThen(payloads, tail);
  }

  lemma AppendAssociates<T>(a: seq<T>, b: seq<T>, c: seq<T>)
    ensures (a + b) + c == a + (b + c)
  {
  }

  /** The frames of the payloads followed by `tail`. */
  function FramesThen(payloads: seq<seq<byte>>, tail: seq<byte>): seq<byte>
  {
    if payloads == [] then tail else Frame(payloads[0]) + FramesThen(payloads[1..], tail)
  }

  lemma {:induction false} FramesThenAppends(payloads: seq<seq<byte>>, tail: seq<byte>)
    ensures FramesThen(payloads, tail) == Frames(payloads) + tail
  {
    if payloads != [] {
      FramesThenAppends(payloads[1..], tail);
    }
  }

  lemma {:induction false} ReceiveFramesThen(payloads: seq<seq<byte>>, tail: seq<byte>)
    requires forall i | 0 <= i < |payloads| :: Sendable(payloads[i])
    ensures var more := Receive(tail);
      Receive(FramesThen(payloads, tail)) == Received(ParseAll(payloads) + more.messages, more.failure)
  {
    if payloads != [] {
      var p, ps := payloads[0], payloads[1..];
      assert Sendable(p);
      forall i | 0 <= i < |ps| ensures Sendable(ps[i]) {
        assert Sendable(payloads[i + 1]);
      }
      var more := Receive(tail);
      ReceiveFramesThen(ps, tail);
      ReceiveFrame(p, FramesThen(ps, tail));
      var m := Parse(p).value;
      assert ParseAll(payloads) == [m] + ParseAll(ps);
      AppendAssociates([m], ParseAll(ps), more.messages);
    } else {
      assert ParseAll(payloads) + Receive(tail).messages == Receive(tail).messages;
    }
  }

  /** A stream that ends cleanly after the frames delivers exactly the sent messages and no error. */
  lemma ReceiveExactlyFrames(payloads: seq<seq<byte>>)
    requires forall i | 0 <= i < |payloads| :: Sendable(payloads[i])
    ensures Receive(Frames(payloads)) == Received(ParseAll(payloads), None)
  {
    ReceiveFrames(payloads, []);
    assert Frames(payloads) + [] == Frames(payloads);
  }

  /** A zero-length frame skips the payload read and is fatal as a payload without IDs. */
  lemma EmptyFrameIsMissingIds(tail: seq<byte>)
    ensures Receive(Frame([]) + tail) == Received([], Some(MissingIds))
  {
    var s := Frame([]) + tail;
    assert s[..4] == FrameHeader([]);
    assert s[4..4] == [];
  }

  /** A length prefix promising more bytes than remain ends the loop without an error. */
  lemma ShortPayloadEndsQuietly(payload: seq<byte>, cut: nat)
    requires |payload| < U32_LIMIT && cut < |payload|
    ensures Receive(Frame(payload)[..4 + cut]) == Received([], None)
  {
    var s := Frame(payload)[..4 + cut];
    assert s[..4] == FrameHeader(payload);
  }

  /** The length of a 4 GiB payload wraps to 0 in its u32 prefix. */
  lemma FrameLengthWraps(payload: seq<byte>)
    requires |payload| == U32_LIMIT
    ensures LittleEndian(FrameHeader(payload)) == 0
  {
    assert Pow256(4) == U32_LIMIT;
    ReadWrittenLittleEndian(0, 4);
  }

  /** An end-to-end round trip: encoded messages sent as frames are received with the same fields. */
  lemma {:induction false} EncodedFramesRoundTrip(
      ids: seq<nat>, requestIds: seq<nat>, names: seq<seq<byte>>, jsons: seq<seq<byte>>, blobs: seq<seq<byte>>,
      payloads: seq<seq<byte>>)
    requires |ids| == |requestIds| == |names| == |jsons| == |blobs| == |payloads|
    requires forall i | 0 <= i < |payloads| ::
      && ids[i] < U64_LIMIT && requestIds[i] < U64_LIMIT && NoNul(names[i]) && NoNul(jsons[i])
      && payloads[i] == Encode(ids[i], requestIds[i], names[i], jsons[i], blobs[i])
      && |payloads[i]| < U32_LIMIT
    ensures var r := Receive(Frames(payloads));
      && r.failure == None && |r.messages| == |payloads|
      && forall i | 0 <= i < |payloads| ::
           && r.messages[i].id == ids[i] && r.messages[i].requestId == requestIds[i]
           && Name(r.messages[i]) == names[i] && JsonText(r.messages[i]) == jsons[i]
           && Blob(r.messages[i]) == blobs[i]
  {
    forall i | 0 <= i < |payloads| ensures Sendable(payloads[i]) {
      ParseEncode(ids[i], requestIds[i], names[i], jsons[i], blobs[i]);
    }
    ReceiveExactlyFrames(payloads);
    var ms := ParseAll(payloads);
    forall i | 0 <= i < |payloads|
      ensures && ms[i].id == ids[i] && ms[i].requestId == requestIds[i]
              && Name(ms[i]) == names[i] && JsonText(ms[i]) == jsons[i] && Blob(ms[i]) == blobs[i]
    {
      ParseEncode(ids[i], requestIds[i], names[i], jsons[i], blobs[i]);
    }
  }

  /**
    The transport's globals: the bytes still to be read from the input handle,
    whether that handle is still set (`input != nullptr`), and the bytes
    written to the output handle.
   */
  class Connection {
    var input: seq<byte>
    var connected: bool
    var output: seq<byte>

    constructor (stream: seq<byte>)
      ensures input == stream && connected && output == []
    {
      input := stream;
      connected := true;
      output := [];
    }

    /** `is_connected`: the input handle has not been reset. */
    predicate IsConnected()
      reads this
    {
      connected
    }

    /**
      `send_message`: write the length prefix, then the payload. Whether each
      write is accepted is an input. A failed write resets the input handle.
     */
    method SendMessage(payload: seq<byte>, headerAccepted: bool, payloadAccepted: bool)
      modifies this`output, this`connected
      ensures output == old(output)
        + (if headerAccepted then FrameHeader(payload) else [])
        + (if headerAccepted && payloadAccepted then payload else [])
      ensures IsConnected() == (old(IsConnected()) && headerAccepted && payloadAccepted)
    {
      if headerAccepted {
        output := output + FrameHeader(payload);
        if payloadAccepted {
          output := output + payload;
          return;
        }
      }
      connected := false;
    }

    /**
      One pass of `receive_worker`'s reads: the length prefix, then that many
      payload bytes (no read for an empty payload). A short read gives
      nothing and exhausts the input.
     */
    method ReadFrame() returns (payload: Option<seq<byte>>)
      modifies this`input
      ensures payload.None? ==> input == [] && Receive(old(input)) == Received([], None)
      ensures payload.Some? ==>
        && |old(input)| >= 4 && |payload.value| == LittleEndian(old(input)[..4])
        && old(input) == old(input)[..4] + payload.value + input
        && |old(input)| - 4 >= |payload.value|
        && payload.value == old(input)[4..4 + |payload.value|] && input == old(input)[4 + |payload.value|..]
    {
      if |input| < 4 {
        input := [];
        return None;
      }
      var size := LittleEndian(input[..4]);
      ghost var before := input;
      input := input[4..];
      var bytes := [];
      if size > 0 {
        if |input| < size {
          input := [];
          return None;
        }
        bytes := input[..size];
        input := input[size..];
      }
      assert bytes == before[4..4 + size] && input == before[4 + size..];
      assert before == before[..4] + bytes + input;
      payload := Some(bytes);
    }

    /**
      `receive_worker`: read frames until the input runs short, dispatching
      each parsed message in order; then reset the input handle. A parse
      error is fatal and ends the process before the handle is reset.
     */
    method ReceiveWorker() returns (dispatched: seq<Message>, failure: Option<ParseError>)
      modifies this`input, this`connected
      ensures Received(dispatched, failure) == Receive(old(input))
      ensures failure.None? ==> input == [] && !IsConnected()
      ensures failure.Some? ==> IsConnected() == old(IsConnected())
    {
      dispatched, failure := [], None;
      while true
        invariant connected == old(connected)
        invariant var rest := Receive(input);
          Receive(old(input)) == Received(dispatched + rest.messages, rest.failure)
        decreases |input|
      {
        ghost var before := input;
        var payload := ReadFrame();
        if payload.None? {
          break;
        }
        match Parse(payload.value)
        case Failure(e) =>
          ReceiveStep(before, payload.value, input);
          failure := Some(e);
          return;
        case Success(m) =>
          var rest := Receive(input);
          ReceiveStep(before, payload.value, input);
          AppendAssociates(dispatched, [m], rest.messages);
          dispatched := dispatched + [m];
      }
      connected := false;
    }
  }
}
