/**
  The protocol engine of src/host.cpp: the file-scope globals become the
  fields of one `Engine`, and each handler a method on it.

  Fatal errors and termination end the process; the model records them in
  `status`, and every handler requires a running engine. Messages reach the
  engine through `MessageReceived`; the methods that wait for the client
  take the messages that will arrive as a sequence, and an exhausted
  sequence stands for a closed connection.
 */
module Host {
  import opened Wrappers
  import opened Bytes
  import opened Json
  import opened Wire
  import opened Protocol

  datatype ResponseState = Unexpected | Expected | ResponseReceived

  datatype Termination = ShutdownRequested | LostConnection

  /** Running, or ended by `fatal_error` or by `terminate`. */
  datatype Status = Running | Failed(reason: Fatal) | Terminated(why: Termination)

  /** A message the host sent, before JSON serialisation. */
  datatype Outgoing = Outgoing(id: nat, requestId: nat, name: seq<byte>, args: seq<Json>, blob: seq<byte>)

  /**
    What the R evaluator does with one eval request: whether the `before` hook
    runs, how many incoming messages the receive thread delivers while R is
    busy, the parse status, and the result.
   */
  datatype EvalOutcome = EvalOutcome(beforeRuns: bool, arrivalsDuring: nat, status: nat, result: EvalResult)

  /** How a wait for a response ends. */
  datatype WaitOutcome = Answered(msg: Message) | Unwound | Stopped

  /** The numeric blob ids among JSON values. */
  function NumericIds(args: seq<Json>): set<nat>
  {
    set i | 0 <= i < |args| && args[i].Num? :: args[i].n
  }

  /** The routes that `blobs.h` handles. */
  predicate IsBlobRoute(r: Route)
  {
    r == Route.CreateBlob || r == Route.GetBlob || r == Route.DestroyBlob
  }

  /** A name that asks for a reply. */
  predicate IsRequestName(name: seq<byte>)
  {
    |name| >= 1 && name[0] == QUESTION
  }

  /** Every value is a number. */
  predicate AllNumeric(args: seq<Json>)
  {
    forall i | 0 <= i < |args| :: args[i].Num?
  }

  /** `rest` is what is left of `all` after some of its front was consumed. */
  predicate IsSuffix(rest: seq<Message>, all: seq<Message>)
  {
    |rest| <= |all| && rest == all[|all| - |rest|..]
  }

  lemma SuffixTransitive(a: seq<Message>, b: seq<Message>, c: seq<Message>)
    requires IsSuffix(a, b) && IsSuffix(b, c)
    ensures IsSuffix(a, c)
  {
    assert b[|b| - |a|..] == c[|c| - |b|..][|b| - |a|..];
  }

  /** The arrivals taken so far, when `rest` is what is left of `all`. */
  ghost function Consumed(all: seq<Message>, rest: seq<Message>): seq<Message>
    requires |rest| <= |all|
  {
    all[..|all| - |rest|]
  }

  /** What two successive stretches take, together, is what the whole stretch takes. */
  lemma ConsumedSplit(all: seq<Message>, mid: seq<Message>, rest: seq<Message>)
    requires IsSuffix(mid, all) && IsSuffix(rest, mid)
    ensures Consumed(all, rest) == Consumed(all, mid) + Consumed(mid, rest)
  {
    assert mid[..|mid| - |rest|] == all[|all| - |mid|..|all| - |rest|];
  }

  // ---------------------------------------------------------------------
  // The response slot

  /** `response_state` together with `response`, the last stored response. */
  datatype Slot = Slot(state: ResponseState, held: Message)

  /** `message_received` for a response: refused unless one is expected, stored otherwise. */
  function Deposit(s: Slot, m: Message): (r: Result<Slot, Fatal>)
    ensures r.Success? <==> s.state != Unexpected
    ensures r.Failure? ==> r.error == UnexpectedResponse
  {
    if s.state == Unexpected then Failure(UnexpectedResponse) else Success(Slot(ResponseReceived, m))
  }

  /**
    A wait taking the received response as `send_request_and_get_response`
    does: the state goes back to the one saved when the wait began, and the
    slot keeps the message just taken.
   */
  function TakeAsWritten(s: Slot, saved: ResponseState): (Message, Slot)
  {
    (s.held, Slot(saved, s.held))
  }

  /** A wait taking the received response and putting back the whole slot it saved. */
  function TakeRestoring(s: Slot, saved: Slot): (Message, Slot)
  {
    (s.held, saved)
  }

  /**
    The outer wait has its response stored when it takes a queued eval
    first, and that eval makes a blocking callback. As written, the nested
    wait saves only the state, so the nested response overwrites the outer
    one and the outer wait takes a response to a different request, which
    it rejects as fatal.
   */
  lemma NestedWaitLosesOuterResponse(
      before: Message, outer: Message, inner: Message, outerId: nat, name: seq<byte>)
    requires |name| >= 1
    requires outer.requestId == outerId && NameTail(outer) == name[1..]
    requires inner.requestId != outerId
    ensures CheckResponse(outerId, name, outer).Success?
    ensures var waiting := Slot(Expected, before);
      var stored := Deposit(waiting, outer).value;
      var nestedSaved := stored.state;
      var nestedStored := Deposit(Slot(Expected, stored.held), inner).value;
      var (nestedAnswer, afterNested) := TakeAsWritten(nestedStored, nestedSaved);
      var (outerAnswer, _) := TakeAsWritten(afterNested, Unexpected);
      && nestedAnswer == inner
      && afterNested.state == ResponseReceived
      && outerAnswer == inner
      && CheckResponse(outerId, name, outerAnswer) == Failure(ResponseIdMismatch)
  {
  }

  /** Restoring the whole slot, the same interleaving hands each wait its own response. */
  lemma NestedWaitKeepsOuterResponse(
      before: Message, outer: Message, inner: Message, outerId: nat, name: seq<byte>)
    requires |name| >= 1
    requires outer.requestId == outerId && NameTail(outer) == name[1..]
    ensures var waiting := Slot(Expected, before);
      var stored := Deposit(waiting, outer).value;
      var nestedStored := Deposit(Slot(Expected, stored.held), inner).value;
      var (nestedAnswer, afterNested) := TakeRestoring(nestedStored, stored);
      var (outerAnswer, _) := TakeRestoring(afterNested, waiting);
      && nestedAnswer == inner
      && afterNested == stored
      && outerAnswer == outer
      && CheckResponse(outerId, name, outerAnswer) == Success(outer)
  {
  }

  /** How a blocking callback ends: it returns, raises an R error, or unwinds for a cancellation. */
  datatype CallbackResult<T> = Returned(value: T) | RaisedError | Interrupted | Halted

  /** How `CallBack` ends. */
  datatype CallBackOutcome = CallBackReturned | CallBackInterrupted | CallBackUnwound | CallBackHalted

  /** The lines `R_ReadConsole` answers a browser prompt with by itself. */
  const CONTINUE_LINE: seq<byte> := [99, 10]  // "c\n"
  const STEP_OVER_LINE: seq<byte> := [110, 10]  // "n\n"

  /** The arguments of a `?>` request: the context, the buffer size, the history flag, the retry reason, the prompt. */
  function ConsoleRequest(context: seq<Json>, len: nat, addToHistory: bool, retry: Json, prompt: seq<byte>): seq<Json>
  {
    [Array(context), Num(len), Bool(addToHistory), retry, Str(prompt)]
  }

  /**
    What `R_ReadConsole` makes of a final reading: end of input is no line,
    a line is the line; an overflow is never final.
   */
  function ConsoleResult(a: CallbackResult<ConsoleAnswer>): (r: CallbackResult<Option<seq<byte>>>)
    requires a != Returned(Overflow)
    ensures r.Returned? <==> a.Returned?
    ensures a.Returned? ==> (r.value.None? <==> a.value.EndOfInput?) && (a.value.Line? ==> r.value == Some(a.value.text))
    ensures !a.Returned? ==> (r.Halted? <==> a.Halted?) && (r.Interrupted? <==> a.Interrupted?) && (r.RaisedError? <==> a.RaisedError?)
  {
    match a
    case Returned(EndOfInput) => Returned(None)
    case Returned(Line(text)) => Returned(Some(text))
    case RaisedError => RaisedError
    case Interrupted => Interrupted
    case Halted => Halted
  }

  /** The names `YesNoCancel`, `YesNo` and `OkCancel` pass to `ShowMessageBox`. */
  const YES_NO_CANCEL_NAME: seq<byte> := [63, 89, 101, 115, 78, 111, 67, 97, 110, 99, 101, 108]  // "?YesNoCancel"
  const YES_NO_NAME: seq<byte> := [63, 89, 101, 115, 78, 111]  // "?YesNo"
  const OK_CANCEL_NAME: seq<byte> := [63, 79, 107, 67, 97, 110, 99, 101, 108]  // "?OkCancel"

  class Engine {
    /** The JSON parser and the R value marshalling, which this model does not look into. */
    const parseJson: seq<byte> -> JsonParse
    const toJson: RValue -> Option<Json>
    const toBlob: RValue -> Option<seq<byte>>

    var status: Status
    /** `transport::is_connected()`. */
    var connected: bool
    var allowCallbacks: bool
    var allowIntrInCallBack: bool
    var responseState: ResponseState
    var response: Message
    /** `eval_requests`, front first. */
    var queue: seq<Message>
    var evalStack: seq<EvalInfo>
    var canceling: bool
    var cancelTarget: nat
    var nextBlobId: nat
    var blobs: map<nat, seq<byte>>
    /** The id the next sent message gets. */
    var nextMessageId: nat
    /** Every message sent, oldest first. */
    var outbox: seq<Outgoing>

    /** The invariants the handlers keep. */
    ghost predicate Valid()
      reads this`evalStack, this`nextBlobId, this`blobs, this`responseState, this`response, this`queue
    {
      StackValid() && BlobsValid() && SlotValid() && QueueValid()
    }

    /** The dummy entry stays at the bottom of the eval stack. */
    ghost predicate StackValid()
      reads this`evalStack
    {
      |evalStack| >= 1 && evalStack[0] == BOTTOM
    }

    /** Every stored handle was issued by the counter, which starts at 1 and is incremented before use. */
    ghost predicate BlobsValid()
      reads this`nextBlobId, this`blobs
    {
      nextBlobId >= 1 && forall id | id in blobs :: 2 <= id <= nextBlobId
    }

    /** A received response is a response. */
    ghost predicate SlotValid()
      reads this`responseState, this`response
    {
      responseState == ResponseReceived ==> IsResponse(response)
    }

    /** Only eval requests are queued. */
    ghost predicate QueueValid()
      reads this`queue
    {
      forall i | 0 <= i < |queue| :: IsEvalName(Name(queue[i]))
    }

    /** A message the handlers can process without undefined behaviour: `?GetBlob` reads `json[0]` unchecked. */
    predicate Defined(m: Message)
    {
      RouteOf(m) == GetBlob && JsonArgs(parseJson, m).Success? ==> |JsonArgs(parseJson, m).value| >= 1
    }

    predicate AllDefined(ms: seq<Message>)
    {
      forall i {:trigger Defined(ms[i])} | 0 <= i < |ms| :: Defined(ms[i])
    }

    /** The initial values of the globals. */
    constructor (parseJson: seq<byte> -> JsonParse, toJson: RValue -> Option<Json>, toBlob: RValue -> Option<seq<byte>>)
      ensures Valid() && status == Running && connected
      ensures this.parseJson == parseJson && this.toJson == toJson && this.toBlob == toBlob
      ensures allowCallbacks && allowIntrInCallBack && responseState == Unexpected
      ensures queue == [] && evalStack == [BOTTOM] && !canceling
      ensures nextBlobId == 1 && blobs == map[] && outbox == []
    {
      this.parseJson := parseJson;
      this.toJson := toJson;
      this.toBlob := toBlob;
      status := Running;
      connected := true;
      allowCallbacks := true;
      allowIntrInCallBack := true;
      responseState := Unexpected;
      response := DefaultMessage();
      queue := [];
      evalStack := [BOTTOM];
      canceling := false;
      cancelTarget := 0;
      nextBlobId := 1;
      blobs := map[];
      nextMessageId := 1;
      outbox := [];
    }

    /** `fatal_error`. */
    method Fail(reason: Fatal)
      modifies this`status
      ensures status == Failed(reason)
    {
      status := Failed(reason);
    }

    /** `terminate_if_closed`. */
    method TerminateIfClosed()
      modifies this`status
      ensures status == if connected then old(status) else Terminated(LostConnection)
    {
      if !connected {
        status := Terminated(LostConnection);
      }
    }

    /** Constructing a message, which takes the next id, and `transport::send_message`. */
    method Send(requestId: nat, name: seq<byte>, args: seq<Json>, blob: seq<byte>) returns (id: nat)
      requires Valid()
      modifies this`outbox, this`nextMessageId
      ensures Valid()
      ensures id == old(nextMessageId) && nextMessageId == id + 1
      ensures outbox == old(outbox) + [Outgoing(id, requestId, name, args, blob)]
    {
      id := nextMessageId;
      outbox := outbox + [Outgoing(id, requestId, name, args, blob)];
      nextMessageId := id + 1;
    }

    /** `send_notification`: request id 0 and a `!` name. */
    method SendNotification(name: seq<byte>, args: seq<Json>, blob: seq<byte>) returns (id: nat)
      requires Valid() && |name| >= 1 && name[0] == BANG
      modifies this`outbox, this`nextMessageId
      ensures Valid()
      ensures id == old(nextMessageId) && nextMessageId == id + 1
      ensures outbox == old(outbox) + [Outgoing(id, 0, name, args, blob)]
    {
      id := Send(0, name, args, blob);
    }

    /** `respond_to_message`: the request's id becomes the request id, and its `?` becomes `:`. */
    method RespondToMessage(request: Message, args: seq<Json>, blob: seq<byte>) returns (id: nat)
      requires Valid() && IsRequestName(Name(request))
      modifies this`outbox, this`nextMessageId
      ensures Valid()
      ensures id == old(nextMessageId) && nextMessageId == id + 1
      ensures outbox == old(outbox) + [Outgoing(id, request.id, ResponseName(Name(request)), args, blob)]
    {
      id := Send(request.id, ResponseName(Name(request)), args, blob);
    }

    // -------------------------------------------------------------------
    // Blobs

    /**
      `create_blob(blob&&)`: the handle is the incremented counter, so it is
      fresh; a handle a double cannot hold exactly is fatal.
     */
    method CreateBlobFrom(blob: seq<byte>) returns (id: nat)
      requires Valid() && status == Running
      modifies this`nextBlobId, this`blobs, this`status
      ensures Valid()
      ensures id == old(nextBlobId) + 1 && nextBlobId == id && id !in old(blobs)
      ensures ExactInDouble(id) ==> status == Running && blobs == old(blobs)[id := blob]
      ensures !ExactInDouble(id) ==> status == Failed(BlobIdOverflow) && blobs == old(blobs)
    {
      id := nextBlobId + 1;
      nextBlobId := id;
      if !ExactInDouble(id) {
        Fail(BlobIdOverflow);
        return;
      }
      blobs := blobs[id := blob];
    }

    /**
      What `create_blob(msg)` leaves behind: the counter is one higher, and
      either the blob is stored under it and the handle is the reply's only
      argument, or the handle overflowed and nothing was stored or sent.
     */
    twostate predicate CreateBlobHandled(m: Message)
      requires IsRequestName(Name(m))
      reads this
    {
      && nextBlobId == old(nextBlobId) + 1
      && (status == Running ==>
            && blobs == old(blobs)[nextBlobId := Blob(m)]
            && nextMessageId == old(nextMessageId) + 1
            && outbox == old(outbox) + [Outgoing(old(nextMessageId), m.id, ResponseName(Name(m)), [Num(nextBlobId)], [])])
      && (status != Running ==>
            status == Failed(BlobIdOverflow) && blobs == old(blobs) && outbox == old(outbox) && nextMessageId == old(nextMessageId))
    }

    /** `create_blob(msg)`: store the message's blob and reply with the handle as the only argument. */
    method CreateBlobRequest(m: Message)
      requires Valid() && status == Running && IsRequestName(Name(m))
      modifies this`nextBlobId, this`blobs, this`status, this`outbox, this`nextMessageId
      ensures Valid() && CreateBlobHandled(m)
    {
      var id := CreateBlobFrom(Blob(m));
      if status == Running {
        var _ := RespondToMessage(m, [Num(id)], []);
      }
    }

    /** `get_blob(id, blob)`: the stored bytes if the handle is known, the given buffer untouched otherwise. */
    method GetBlobInto(id: nat, out: seq<byte>) returns (found: bool, result: seq<byte>)
      ensures found == (id in blobs)
      ensures result == if found then blobs[id] else out
    {
      if id !in blobs {
        return false, out;
      }
      return true, blobs[id];
    }

    /**
      What `get_blob(msg)` leaves behind: the blob store is untouched, and
      either the blob named by the first argument is the reply's trailing
      bytes, or the host failed with the error for a malformed argument list,
      a non-numeric handle or an unknown one, and nothing was sent.
     */
    twostate predicate GetBlobHandled(m: Message)
      requires IsRequestName(Name(m))
      requires JsonArgs(parseJson, m).Success? ==> |JsonArgs(parseJson, m).value| >= 1
      reads this
    {
      var parsed := JsonArgs(parseJson, m);
      && blobs == old(blobs) && nextBlobId == old(nextBlobId)
      && (parsed.Failure? ==> status == Failed(BadJson(parsed.error)))
      && (parsed.Success? && !parsed.value[0].Num? ==> status == Failed(GetBlobNonNumeric))
      && (parsed.Success? && parsed.value[0].Num? && parsed.value[0].n !in blobs ==>
            status == Failed(GetBlobUnknown(parsed.value[0].n)))
      && (status == Running <==> parsed.Success? && parsed.value[0].Num? && parsed.value[0].n in blobs)
      && (status == Running ==>
            && nextMessageId == old(nextMessageId) + 1
            && outbox == old(outbox) + [Outgoing(old(nextMessageId), m.id, ResponseName(Name(m)), [], blobs[parsed.value[0].n])])
      && (status != Running ==> outbox == old(outbox) && nextMessageId == old(nextMessageId))
    }

    /**
      `get_blob(msg)`: the first argument must be a number naming a stored
      blob; the reply has no arguments and the blob as its trailing bytes.
     */
    method GetBlobRequest(m: Message)
      requires Valid() && status == Running && IsRequestName(Name(m))
      requires JsonArgs(parseJson, m).Success? ==> |JsonArgs(parseJson, m).value| >= 1
      modifies this`status, this`outbox, this`nextMessageId
      ensures Valid() && GetBlobHandled(m)
    {
      var parsed := JsonArgs(parseJson, m);
      if parsed.Failure? {
        Fail(BadJson(parsed.error));
        return;
      }
      var first := parsed.value[0];
      if !first.Num? {
        Fail(GetBlobNonNumeric);
        return;
      }
      var id := first.n;
      if id !in blobs {
        Fail(GetBlobUnknown(id));
        return;
      }
      var _ := RespondToMessage(m, [], blobs[id]);
    }

    /** `destroy_blob`: forget one handle, if it is stored. */
    method DestroyBlob(id: nat)
      requires Valid()
      modifies this`blobs
      ensures Valid()
      ensures blobs == old(blobs) - {id}
    {
      blobs := blobs - {id};
    }

    /**
      What `destroy_blobs` leaves behind: nothing is sent and the counter is
      untouched; every handle named is gone, or the host failed on a
      malformed argument list or a non-numeric handle.
     */
    twostate predicate DestroyBlobsHandled(m: Message)
      reads this
    {
      var parsed := JsonArgs(parseJson, m);
      && outbox == old(outbox) && nextMessageId == old(nextMessageId) && nextBlobId == old(nextBlobId)
      && (parsed.Failure? ==> status == Failed(BadJson(parsed.error)) && blobs == old(blobs))
      && (parsed.Success? && !AllNumeric(parsed.value) ==> status == Failed(DestroyBlobNonNumeric))
      && (parsed.Success? && AllNumeric(parsed.value) ==>
            status == Running && blobs == old(blobs) - NumericIds(parsed.value))
    }

    /**
      `destroy_blobs`: erase every handle the arguments name, in order; a
      non-numeric argument is fatal.
     */
    method DestroyBlobsRequest(m: Message)
      requires Valid() && status == Running
      modifies this`blobs, this`status
      ensures Valid() && DestroyBlobsHandled(m)
    {
      var parsed := JsonArgs(parseJson, m);
      if parsed.Failure? {
        Fail(BadJson(parsed.error));
        return;
      }
      var args := parsed.value;
      var i := 0;
      while i < |args|
        invariant 0 <= i <= |args| && status == Running
        invariant AllNumeric(args[..i])
        invariant blobs == old(blobs) - NumericIds(args[..i])
      {
        if !args[i].Num? {
          assert !AllNumeric(args) by { assert !args[i].Num?; }
          Fail(DestroyBlobNonNumeric);
          return;
        }
        assert args[..i + 1] == args[..i] + [args[i]];
        NumericIdsAppend(args[..i], args[i]);
        blobs := blobs - {args[i].n};
        i := i + 1;
      }
      assert args[..i] == args;
    }

    // -------------------------------------------------------------------
    // Cancellation and the eval stack

    /**
      What `handle_cancel` leaves behind: the cancellation state the scan of
      the eval stack computes (`CancelEffect` states it in closed form), or
      the fatal error for a malformed request with the state as it was.
     */
    twostate predicate CancelHandled(m: Message)
      reads this
    {
      var parsed := JsonArgs(parseJson, m);
      && (parsed.Failure? ==> status == Failed(BadJson(parsed.error)))
      && (parsed.Success? && CancelTargetOf(parsed.value).Failure? ==>
            status == Failed(CancelTargetOf(parsed.value).error))
      && (status == Running <==> parsed.Success? && CancelTargetOf(parsed.value).Success?)
      && (status == Running ==>
            CancelState(canceling, cancelTarget) ==
            CancelScan(old(evalStack), 0, old(CancelState(canceling, cancelTarget)), CancelTargetOf(parsed.value).value))
      && (status != Running ==> canceling == old(canceling) && cancelTarget == old(cancelTarget))
    }

    /**
      `handle_cancel`: one argument, null for everything or the id of an
      eval; the stack is scanned from the bottom for the requested eval,
      stopping early at the eval already being canceled.
     */
    method HandleCancel(m: Message)
      requires Valid() && status == Running
      modifies this`canceling, this`cancelTarget, this`status
      ensures Valid() && CancelHandled(m)
    {
      var parsed := JsonArgs(parseJson, m);
      if parsed.Failure? {
        Fail(BadJson(parsed.error));
        return;
      }
      var target := CancelTargetOf(parsed.value);
      if target.Failure? {
        Fail(target.error);
        return;
      }
      var evalId := target.value;
      ghost var start := CancelState(canceling, cancelTarget);
      var i := 0;
      while i < |evalStack|
        invariant 0 <= i <= |evalStack|
        invariant CancelState(canceling, cancelTarget) == start
        invariant CancelScan(evalStack, 0, start, evalId) == CancelScan(evalStack, i, start, evalId)
      {
        var id := evalStack[i].id;
        if canceling && id == cancelTarget {
          break;
        }
        if id == evalId {
          canceling := true;
          cancelTarget := id;
          break;
        }
        i := i + 1;
      }
    }

    /** The `before` hook: register the eval as a cancellation target. */
    method Before(id: nat, cancelable: bool)
      requires Valid()
      modifies this`evalStack
      ensures Valid()
      ensures evalStack == old(evalStack) + [EvalInfo(id, cancelable)]
    {
      evalStack := evalStack + [EvalInfo(id, cancelable)];
    }

    /**
      The `after` hook: a canceled eval that is the target ends the
      cancellation, and the entry `before` pushed is popped. The bottom entry
      is never popped.
     */
    method After(id: nat, beforeRan: bool)
      requires Valid()
      requires beforeRan ==> |evalStack| >= 2 && evalStack[|evalStack| - 1].id == id
      modifies this`evalStack, this`canceling
      ensures Valid()
      ensures evalStack == if beforeRan then old(evalStack)[..|old(evalStack)| - 1] else old(evalStack)
      ensures canceling == (old(canceling) && id != cancelTarget)
    {
      if canceling && id == cancelTarget {
        canceling := false;
      }
      if beforeRan {
        evalStack := evalStack[..|evalStack| - 1];
      }
    }

    // -------------------------------------------------------------------
    // Dispatch

    /**
      A received response is the one held before, or one of `consumed`: no
      response appears in the slot that did not arrive.
     */
    twostate predicate ResponseFrom(consumed: seq<Message>)
      reads this
    {
      responseState == ResponseReceived ==>
        (old(responseState) == ResponseReceived && response == old(response)) || response in consumed
    }

    /**
      `message_received`: route by name first. A response is stored only
      while one is expected; in a release build a second response overwrites
      the first.
     */
    method MessageReceived(m: Message)
      requires Valid() && status == Running && Defined(m)
      modifies this`status, this`queue, this`responseState, this`response, this`canceling,
        this`cancelTarget, this`blobs, this`nextBlobId, this`outbox, this`nextMessageId
      ensures Valid()
      ensures old(queue) <= queue && |queue| <= |old(queue)| + 1 && old(outbox) <= outbox
      ensures old(responseState) != Unexpected ==> responseState != Unexpected
      ensures var route := RouteOf(m);
        && (route == Shutdown ==> status == Terminated(ShutdownRequested))
        && (route == QueueEval ==> status == Running && queue == old(queue) + [m])
        && (route != QueueEval ==> queue == old(queue))
        && (route == StoreResponse && old(responseState) == Unexpected ==>
              status == Failed(UnexpectedResponse) && responseState == Unexpected && response == old(response))
        && (route == StoreResponse && old(responseState) != Unexpected ==>
              status == Running && responseState == ResponseReceived && response == m)
        && (route != StoreResponse ==> responseState == old(responseState) && response == old(response))
        && (route == Unrecognized ==> status == Failed(UnrecognizedMessage))
        && (route == Cancel ==> CancelHandled(m))
        && (route != Cancel ==> canceling == old(canceling) && cancelTarget == old(cancelTarget))
        && (route == Route.CreateBlob ==> CreateBlobHandled(m))
        && (route == Route.GetBlob ==> GetBlobHandled(m))
        && (route == Route.DestroyBlob ==> DestroyBlobsHandled(m))
        && (!IsBlobRoute(route) ==>
              blobs == old(blobs) && nextBlobId == old(nextBlobId) && outbox == old(outbox) && nextMessageId == old(nextMessageId))
    {
      if IsBlobRoute(RouteOf(m)) {
        BlobRequestReceived(m);
      } else {
        ControlMessageReceived(m);
      }
    }

    /** The routes of `message_received` that neither touch blobs nor send anything. */
    method ControlMessageReceived(m: Message)
      requires Valid() && status == Running && !IsBlobRoute(RouteOf(m))
      modifies this`status, this`queue, this`responseState, this`response, this`canceling, this`cancelTarget
      ensures Valid()
      ensures old(queue) <= queue && |queue| <= |old(queue)| + 1
      ensures old(responseState) != Unexpected ==> responseState != Unexpected
      ensures var route := RouteOf(m);
        && (route == Shutdown ==> status == Terminated(ShutdownRequested))
        && (route == QueueEval ==> status == Running && queue == old(queue) + [m])
        && (route != QueueEval ==> queue == old(queue))
        && (route == StoreResponse && old(responseState) == Unexpected ==>
              status == Failed(UnexpectedResponse) && responseState == Unexpected && response == old(response))
        && (route == StoreResponse && old(responseState) != Unexpected ==>
              status == Running && responseState == ResponseReceived && response == m)
        && (route != StoreResponse ==> responseState == old(responseState) && response == old(response))
        && (route == Unrecognized ==> status == Failed(UnrecognizedMessage))
        && (route == Cancel ==> CancelHandled(m))
        && (route != Cancel ==> canceling == old(canceling) && cancelTarget == old(cancelTarget))
    {
      var route := RouteOf(m);
      match route
      case Shutdown =>
        status := Terminated(ShutdownRequested);
      case Cancel =>
        HandleCancel(m);
      case QueueEval =>
        RouteNames(m);
        queue := queue + [m];
      case StoreResponse =>
        if responseState == Unexpected {
          Fail(UnexpectedResponse);
          return;
        }
        RouteNames(m);
        response := m;
        responseState := ResponseReceived;
      case Unrecognized =>
        Fail(UnrecognizedMessage);
    }

    /** The three blob routes of `message_received`. */
    method BlobRequestReceived(m: Message)
      requires Valid() && status == Running && Defined(m) && IsBlobRoute(RouteOf(m))
      modifies this`status, this`blobs, this`nextBlobId, this`outbox, this`nextMessageId
      ensures Valid() && old(outbox) <= outbox
      ensures RouteOf(m) == Route.CreateBlob ==> CreateBlobHandled(m)
      ensures RouteOf(m) == Route.GetBlob ==> GetBlobHandled(m)
      ensures RouteOf(m) == Route.DestroyBlob ==> DestroyBlobsHandled(m)
    {
      RouteNames(m);
      match RouteOf(m)
      case CreateBlob =>
        CreateBlobRequest(m);
      case GetBlob =>
        GetBlobRequest(m);
      case DestroyBlob =>
        DestroyBlobsRequest(m);
    }

    /**
      The receive thread delivering up to `n` messages while the main thread
      is busy; delivery stops early once the engine has stopped.
     */
    method DeliverArrivals(n: nat, arrivals: seq<Message>) returns (rest: seq<Message>)
      requires Valid() && status == Running && AllDefined(arrivals)
      modifies this`status, this`queue, this`responseState, this`response, this`canceling,
        this`cancelTarget, this`blobs, this`nextBlobId, this`outbox, this`nextMessageId
      ensures Valid() && IsSuffix(rest, arrivals) && AllDefined(rest) && |arrivals| - |rest| <= n
      ensures old(queue) <= queue && |queue| <= |old(queue)| + (|arrivals| - |rest|)
      ensures old(outbox) <= outbox
      ensures responseState == ResponseReceived ==> old(responseState) == ResponseReceived || |rest| < |arrivals|
      ensures ResponseFrom(Consumed(arrivals, rest))
      ensures old(responseState) != Unexpected ==> responseState != Unexpected
      ensures status == Running && rest != [] ==> |arrivals| - |rest| == n
    {
      rest := arrivals;
      var k := 0;
      while k < n && rest != [] && status == Running
        invariant Valid() && IsSuffix(rest, arrivals) && AllDefined(rest) && k == |arrivals| - |rest| <= n
        invariant old(queue) <= queue && |queue| <= |old(queue)| + k
        invariant old(outbox) <= outbox
        invariant responseState == ResponseReceived ==> old(responseState) == ResponseReceived || k > 0
        invariant ResponseFrom(Consumed(arrivals, rest))
        invariant old(responseState) != Unexpected ==> responseState != Unexpected
        invariant status == Running || k > 0
        decreases n - k
      {
        assert Defined(rest[0]);
        MessageReceived(rest[0]);
        ConsumedSplit(arrivals, rest, rest[1..]);
        assert Consumed(rest, rest[1..]) == [rest[0]];
        rest := rest[1..];
        k := k + 1;
      }
    }

    /**
      `R_WaitEvent` and `R_ProcessEvents`: the next message arrives and is
      dispatched, or, when none will arrive, the connection is closed.
     */
    method WaitForEvent(arrivals: seq<Message>) returns (rest: seq<Message>)
      requires Valid() && status == Running && AllDefined(arrivals)
      modifies this`status, this`queue, this`responseState, this`response, this`canceling,
        this`cancelTarget, this`blobs, this`nextBlobId, this`outbox, this`nextMessageId, this`connected
      ensures Valid() && IsSuffix(rest, arrivals) && AllDefined(rest)
      ensures arrivals == [] ==> rest == [] && !connected && status == Running
      ensures arrivals != [] ==> |rest| == |arrivals| - 1 && connected == old(connected)
      ensures old(queue) <= queue && |queue| <= |old(queue)| + (|arrivals| - |rest|)
      ensures old(outbox) <= outbox
      ensures responseState == ResponseReceived ==> old(responseState) == ResponseReceived || |rest| < |arrivals|
      ensures ResponseFrom(Consumed(arrivals, rest))
      ensures old(responseState) != Unexpected ==> responseState != Unexpected
    {
      if arrivals == [] {
        connected := false;
        return [];
      }
      assert Defined(arrivals[0]);
      MessageReceived(arrivals[0]);
      rest := arrivals[1..];
      assert Consumed(arrivals, rest) == [arrivals[0]];
    }

    /**
      `handle_eval`, with the evaluation itself supplied by `outcome`: the
      request must carry one string, and its name the flags after `?=`.
     */
    method HandleEval(m: Message, outcome: EvalOutcome, arrivals: seq<Message>) returns (unwound: bool, rest: seq<Message>)
      requires Valid() && status == Running && IsEvalName(Name(m)) && AllDefined(arrivals)
      modifies this`status, this`queue, this`responseState, this`response, this`canceling,
        this`cancelTarget, this`blobs, this`nextBlobId, this`outbox, this`nextMessageId,
        this`evalStack, this`allowCallbacks, this`allowIntrInCallBack
      ensures Valid() && (status == Running ==> evalStack == old(evalStack))
      ensures IsSuffix(rest, arrivals) && AllDefined(rest) && |arrivals| - |rest| <= outcome.arrivalsDuring
      ensures old(queue) <= queue && |queue| <= |old(queue)| + (|arrivals| - |rest|)
      ensures old(outbox) <= outbox
      ensures responseState == ResponseReceived ==> old(responseState) == ResponseReceived || |rest| < |arrivals|
      ensures ResponseFrom(Consumed(arrivals, rest))
      ensures old(responseState) != Unexpected ==> responseState != Unexpected
      ensures unwound ==> status == Running
      ensures status == Running ==> |outbox| > |old(outbox)|
      ensures EvalHandled(m, outcome, old(allowCallbacks), unwound)
    {
      unwound, rest := false, arrivals;
      var parsed := JsonArgs(parseJson, m);
      if parsed.Failure? {
        Fail(BadJson(parsed.error));
        return;
      }
      var args := parsed.value;
      if |args| != 1 || !args[0].Str? {
        Fail(InvalidEvalRequest);
        return;
      }
      var flags := ParseEvalFlags(Name(m)[2..]);
      if flags.Failure? {
        Fail(flags.error);
        return;
      }
      unwound, rest := RunEval(m, flags.value, outcome, arrivals);
    }

    /**
      What `handle_eval` leaves behind: the fatal error for a request that is
      not one string, or whose flags do not parse; otherwise the completed
      eval.
     */
    ghost predicate EvalHandled(m: Message, outcome: EvalOutcome, callbacksBefore: bool, unwound: bool)
      requires IsEvalName(Name(m))
      reads this
    {
      var parsed := JsonArgs(parseJson, m);
      var flags := EvalFlagsOf(Name(m)[2..]);
      && (parsed.Failure? ==> status == Failed(BadJson(parsed.error)))
      && (parsed.Success? && !(|parsed.value| == 1 && parsed.value[0].Str?) ==> status == Failed(InvalidEvalRequest))
      && (parsed.Success? && |parsed.value| == 1 && parsed.value[0].Str? && flags.Failure? ==>
            status == Failed(flags.error))
      && (status == Running ==> parsed.Success? && flags.Success? && EvalDone(m, flags.value, outcome, callbacksBefore, unwound))
    }

    /**
      After a completed `handle_eval`: callbacks as they were before it,
      interrupts allowed again, the reply as the last message sent, and an
      unwinding exactly when the interrupt query says so.
     */
    ghost predicate EvalDone(m: Message, flags: EvalFlags, outcome: EvalOutcome, callbacksBefore: bool, unwound: bool)
      requires IsRequestName(Name(m))
      reads this
    {
      var reply := EvalReply(flags, outcome.status, outcome.result, toJson, toBlob);
      && allowCallbacks == callbacksBefore && allowIntrInCallBack
      && unwound == QueryInterrupt(canceling, evalStack)
      && reply.Success? && |outbox| > 0
      && var last := outbox[|outbox| - 1];
         && last.id + 1 == nextMessageId && last.requestId == m.id && last.name == ResponseName(Name(m))
         && last.args == reply.value.args && last.blob == reply.value.blob
    }

    /**
      The evaluation part of `handle_eval`: callbacks are off during the
      eval unless `@` is given; the eval is on the stack between `before`
      and `after`; messages arriving meanwhile are dispatched; then the value
      is marshalled and the reply sent.
     */
    method RunEval(m: Message, flags: EvalFlags, outcome: EvalOutcome, arrivals: seq<Message>) returns (unwound: bool, rest: seq<Message>)
      requires Valid() && status == Running && IsEvalName(Name(m)) && AllDefined(arrivals)
      modifies this`status, this`queue, this`responseState, this`response, this`canceling,
        this`cancelTarget, this`blobs, this`nextBlobId, this`outbox, this`nextMessageId,
        this`evalStack, this`allowCallbacks, this`allowIntrInCallBack
      ensures Valid() && (status == Running ==> evalStack == old(evalStack))
      ensures IsSuffix(rest, arrivals) && AllDefined(rest) && |arrivals| - |rest| <= outcome.arrivalsDuring
      ensures old(queue) <= queue && |queue| <= |old(queue)| + (|arrivals| - |rest|)
      ensures old(outbox) <= outbox
      ensures responseState == ResponseReceived ==> old(responseState) == ResponseReceived || |rest| < |arrivals|
      ensures ResponseFrom(Consumed(arrivals, rest))
      ensures old(responseState) != Unexpected ==> responseState != Unexpected
      ensures unwound ==> status == Running
      ensures status == Running ==> |outbox| > |old(outbox)| && EvalDone(m, flags, outcome, old(allowCallbacks), unwound)
    {
      unwound := false;
      var savedCallbacks := allowCallbacks;
      allowCallbacks := flags.callbacks;
      if outcome.beforeRuns {
        Before(m.id, flags.cancelable);
      }
      rest := DeliverArrivals(outcome.arrivalsDuring, arrivals);
      if status != Running {
        return;
      }
      unwound := FinishEval(m, flags, outcome, savedCallbacks);
    }

    /**
      The end of `handle_eval`: the `after` hook, the reply, the restored
      callback flag, and the interrupt query.
     */
    method FinishEval(m: Message, flags: EvalFlags, outcome: EvalOutcome, savedCallbacks: bool) returns (unwound: bool)
      requires Valid() && status == Running && IsEvalName(Name(m))
      requires outcome.beforeRuns ==> |evalStack| >= 2 && evalStack[|evalStack| - 1].id == m.id
      modifies this`status, this`evalStack, this`canceling, this`allowIntrInCallBack, this`outbox,
        this`nextMessageId, this`allowCallbacks
      ensures Valid() && old(outbox) <= outbox
      ensures evalStack == if outcome.beforeRuns then old(evalStack)[..|old(evalStack)| - 1] else old(evalStack)
      ensures unwound ==> status == Running
      ensures status == Running ==> |outbox| > |old(outbox)| && EvalDone(m, flags, outcome, savedCallbacks, unwound)
      ensures status != Running ==> status == Failed(MarshalFailed)
    {
      unwound := false;
      After(m.id, outcome.beforeRuns);
      allowIntrInCallBack := true;
      var sent := SendEvalReply(m, flags, outcome);
      if !sent {
        return;
      }
      allowCallbacks := savedCallbacks;
      unwound := QueryInterrupt(canceling, evalStack);
    }

    /** The reply to an eval request: its value marshalled, or a fatal error when that fails. */
    method SendEvalReply(m: Message, flags: EvalFlags, outcome: EvalOutcome) returns (sent: bool)
      requires Valid() && status == Running && IsEvalName(Name(m))
      modifies this`status, this`outbox, this`nextMessageId
      ensures Valid() && old(outbox) <= outbox
      ensures sent <==> status == Running
      ensures !sent ==> status == Failed(MarshalFailed)
      ensures sent ==>
        var reply := EvalReply(flags, outcome.status, outcome.result, toJson, toBlob);
        && reply.Success? && |outbox| == |old(outbox)| + 1
        && var last := outbox[|outbox| - 1];
           && last.id + 1 == nextMessageId && last.requestId == m.id && last.name == ResponseName(Name(m))
           && last.args == reply.value.args && last.blob == reply.value.blob
    {
      var reply := EvalReply(flags, outcome.status, outcome.result, toJson, toBlob);
      if reply.Failure? {
        Fail(reply.error);
        return false;
      }
      var id := RespondToMessage(m, reply.value.args, reply.value.blob);
      assert outbox[|outbox| - 1] == Outgoing(id, m.id, ResponseName(Name(m)), reply.value.args, reply.value.blob);
      return true;
    }

    /**
      The loop of `send_request_and_get_response`: queued eval requests
      first, then a received response, else wait for the next event. A
      response must answer the request with id `id` and name `name`.
      `restoreWhole` chooses between putting back only the saved state, as
      the source does, and putting back the saved response as well. The
      state is never unexpected during the wait, so the source's check for
      that transition cannot fire.
     */
    method AwaitResponse(
        id: nat, name: seq<byte>, saved: Slot, restoreWhole: bool,
        arrivals: seq<Message>, evaluate: Message -> EvalOutcome)
      returns (r: WaitOutcome, rest: seq<Message>)
      requires Valid() && status == Running && responseState == Expected
      requires IsRequestName(name) && !IsEvalName(name) && AllDefined(arrivals)
      requires saved.state == ResponseReceived ==> IsResponse(saved.held)
      modifies this
      ensures Valid() && old(outbox) <= outbox
      ensures IsSuffix(rest, arrivals) && AllDefined(rest)
      ensures r.Stopped? <==> status != Running
      ensures !r.Stopped? ==> evalStack == old(evalStack)
      ensures r.Answered? ==> |rest| < |arrivals| && IsResponse(r.msg) && r.msg in Consumed(arrivals, rest)
      ensures r.Answered? ==> r.msg.requestId == id && NameTail(r.msg) == name[1..]
      ensures r.Answered? ==> responseState == saved.state && response == (if restoreWhole then saved.held else r.msg)
      ensures r.Answered? ==> queue == []
      ensures r.Unwound? ==> QueryInterrupt(canceling, evalStack) && responseState != Unexpected
    {
      rest := arrivals;
      while true
        invariant Valid() && status == Running && old(outbox) <= outbox
        invariant IsSuffix(rest, arrivals) && AllDefined(rest)
        invariant evalStack == old(evalStack) && responseState != Unexpected
        invariant responseState == ResponseReceived ==> |rest| < |arrivals| && response in Consumed(arrivals, rest)
        decreases 2 * |rest| + |queue|
      {
        ghost var before := rest;
        var done: Option<WaitOutcome>;
        if queue != [] {
          done, rest := ServeQueuedEval(id, name, rest, evaluate);
        } else if responseState == ResponseReceived {
          r := TakeResponse(id, name, saved, restoreWhole);
          return r, rest;
        } else {
          done, rest := WaitStep(rest);
        }
        SuffixTransitive(rest, before, arrivals);
        ConsumedSplit(arrivals, before, rest);
        if done.Some? {
          return done.value, rest;
        }
      }
    }

    /**
      The wait loop finding its response: the slot is put back and the
      response must answer the request sent; otherwise the host fails.
     */
    method TakeResponse(id: nat, name: seq<byte>, saved: Slot, restoreWhole: bool) returns (r: WaitOutcome)
      requires Valid() && status == Running && responseState == ResponseReceived && |name| >= 1
      requires saved.state == ResponseReceived ==> IsResponse(saved.held)
      modifies this`responseState, this`response, this`status
      ensures Valid() && !r.Unwound?
      ensures r.Stopped? <==> status != Running
      ensures r.Answered? ==> IsResponse(r.msg) && r.msg.requestId == id && NameTail(r.msg) == name[1..]
      ensures r.Answered? ==> r.msg == old(response)
      ensures r.Answered? ==> responseState == saved.state && response == (if restoreWhole then saved.held else r.msg)
    {
      var (msg, slot) := if restoreWhole then TakeRestoring(Slot(responseState, response), saved)
                         else TakeAsWritten(Slot(responseState, response), saved.state);
      responseState, response := slot.state, slot.held;
      var check := CheckResponse(id, name, msg);
      if check.Failure? {
        Fail(check.error);
        return Stopped;
      }
      return Answered(msg);
    }

    /** `handle_eval` of a queued request, the evaluation supplied by `evaluate`. */
    method ServeEval(m: Message, evaluate: Message -> EvalOutcome, arrivals: seq<Message>) returns (unwound: bool, rest: seq<Message>)
      requires Valid() && status == Running && IsEvalName(Name(m)) && AllDefined(arrivals)
      modifies this`status, this`queue, this`responseState, this`response, this`canceling,
        this`cancelTarget, this`blobs, this`nextBlobId, this`outbox, this`nextMessageId,
        this`evalStack, this`allowCallbacks, this`allowIntrInCallBack
      ensures Valid() && (status == Running ==> evalStack == old(evalStack))
      ensures IsSuffix(rest, arrivals) && AllDefined(rest) && |queue| + |rest| <= |old(queue)| + |arrivals|
      ensures old(outbox) <= outbox
      ensures responseState == ResponseReceived ==> old(responseState) == ResponseReceived || |rest| < |arrivals|
      ensures ResponseFrom(Consumed(arrivals, rest))
      ensures old(responseState) != Unexpected ==> responseState != Unexpected
      ensures unwound ==> status == Running && QueryInterrupt(canceling, evalStack)
      ensures old(queue) <= queue
      ensures status == Running ==> |outbox| > |old(outbox)|
      ensures EvalHandled(m, evaluate(m), old(allowCallbacks), unwound)
    {
      unwound, rest := HandleEval(m, evaluate(m), arrivals);
    }

    /**
      One pass of the wait loop that finds an eval request queued: it is
      served, unless it is a response, which cannot be the one awaited.
     */
    method ServeQueuedEval(id: nat, name: seq<byte>, arrivals: seq<Message>, evaluate: Message -> EvalOutcome)
      returns (done: Option<WaitOutcome>, rest: seq<Message>)
      requires Valid() && status == Running && queue != [] && responseState != Unexpected
      requires IsRequestName(name) && !IsEvalName(name) && AllDefined(arrivals)
      modifies this`status, this`queue, this`responseState, this`response, this`canceling,
        this`cancelTarget, this`blobs, this`nextBlobId, this`outbox, this`nextMessageId,
        this`evalStack, this`allowCallbacks, this`allowIntrInCallBack
      ensures Valid() && old(outbox) <= outbox && IsSuffix(rest, arrivals) && AllDefined(rest)
      ensures responseState != Unexpected
      ensures responseState == ResponseReceived ==> old(responseState) == ResponseReceived || |rest| < |arrivals|
      ensures ResponseFrom(Consumed(arrivals, rest))
      ensures done == Some(Stopped) <==> status != Running
      ensures done.Some? ==> done == Some(Stopped) || done == Some(Unwound)
      ensures done == Some(Unwound) ==> QueryInterrupt(canceling, evalStack) && evalStack == old(evalStack)
      ensures done.None? ==> evalStack == old(evalStack) && 2 * |rest| + |queue| < 2 * |arrivals| + |old(queue)|
      ensures old(queue)[1..] <= queue
      ensures IsResponse(old(queue)[0]) ==>
        done == Some(Stopped) && CheckResponse(id, name, old(queue)[0]).Failure? &&
        status == Failed(CheckResponse(id, name, old(queue)[0]).error)
      ensures !IsResponse(old(queue)[0]) ==>
        EvalHandled(old(queue)[0], evaluate(old(queue)[0]), old(allowCallbacks), done == Some(Unwound))
    {
      var msg := queue[0];
      queue := queue[1..];
      rest := arrivals;
      if IsResponse(msg) {
        // A queued message is an eval request, so it cannot pass as the response awaited.
        EvalRequestFailsCheck(id, name, msg);
        Fail(CheckResponse(id, name, msg).error);
        return Some(Stopped), rest;
      }
      var unwound;
      unwound, rest := ServeEval(msg, evaluate, rest);
      if status != Running {
        return Some(Stopped), rest;
      }
      if unwound {
        return Some(Unwound), rest;
      }
      done := None;
    }

    /**
      One pass of the wait loop with nothing to take: callbacks may not
      interrupt while R waits for and processes the next event; afterwards
      a closed connection terminates, and a pending cancellation unwinds.
     */
    method WaitStep(arrivals: seq<Message>) returns (done: Option<WaitOutcome>, rest: seq<Message>)
      requires Valid() && status == Running && responseState != Unexpected && AllDefined(arrivals)
      modifies this`status, this`queue, this`responseState, this`response, this`canceling,
        this`cancelTarget, this`blobs, this`nextBlobId, this`outbox, this`nextMessageId,
        this`connected, this`allowIntrInCallBack
      ensures Valid() && old(outbox) <= outbox && IsSuffix(rest, arrivals) && AllDefined(rest)
      ensures responseState != Unexpected
      ensures responseState == ResponseReceived ==> old(responseState) == ResponseReceived || |rest| < |arrivals|
      ensures ResponseFrom(Consumed(arrivals, rest))
      ensures done == Some(Stopped) <==> status != Running
      ensures done.Some? ==> done == Some(Stopped) || done == Some(Unwound)
      ensures done == Some(Unwound) ==> QueryInterrupt(canceling, evalStack)
      ensures done.None? ==> 2 * |rest| + |queue| < 2 * |arrivals| + |old(queue)|
    {
      allowIntrInCallBack := false;
      rest := WaitForEvent(arrivals);
      if status != Running {
        return Some(Stopped), rest;
      }
      allowIntrInCallBack := true;
      TerminateIfClosed();
      if status != Running {
        return Some(Stopped), rest;
      }
      assert |rest| == |arrivals| - 1;
      if QueryInterrupt(canceling, evalStack) {
        return Some(Unwound), rest;
      }
      done := None;
    }

    /**
      `send_request_and_get_response` as written: the request goes out with
      the request marker, and an answered wait puts back the response state
      it found but leaves the answer it took in the response slot.
     */
    method SendRequestAndGetResponse(
        name: seq<byte>, args: seq<Json>, arrivals: seq<Message>, evaluate: Message -> EvalOutcome)
      returns (r: WaitOutcome, rest: seq<Message>)
      requires Valid() && status == Running
      requires IsRequestName(name) && !IsEvalName(name) && AllDefined(arrivals)
      modifies this
      ensures Valid() && IsSuffix(rest, arrivals) && AllDefined(rest)
      ensures |outbox| > |old(outbox)|
      ensures outbox[..|old(outbox)| + 1] == old(outbox) + [Outgoing(old(nextMessageId), REQUEST_MARKER, name, args, [])]
      ensures r.Stopped? <==> status != Running
      ensures !r.Stopped? ==> evalStack == old(evalStack)
      ensures r.Answered? ==> |rest| < |arrivals| && IsResponse(r.msg) && r.msg in Consumed(arrivals, rest)
      ensures r.Answered? ==> r.msg.requestId == old(nextMessageId) && NameTail(r.msg) == name[1..]
      ensures r.Answered? ==> responseState == old(responseState) && response == r.msg
      ensures r.Answered? ==> queue == []
      ensures r.Unwound? ==> QueryInterrupt(canceling, evalStack) && responseState != Unexpected
    {
      var saved := Slot(responseState, response);
      responseState := Expected;
      var id := Send(REQUEST_MARKER, name, args, []);
      ghost var sent := outbox;
      TerminateIfClosed();
      if status != Running {
        return Stopped, arrivals;
      }
      r, rest := AwaitResponse(id, name, saved, false, arrivals, evaluate);
      assert sent <= outbox;
    }

    /**
      `send_request_and_get_response` putting back the whole response slot,
      so that a nested wait leaves a stored outer response in place.
     */
    method SendRequestRestoringResponse(
        name: seq<byte>, args: seq<Json>, arrivals: seq<Message>, evaluate: Message -> EvalOutcome)
      returns (r: WaitOutcome, rest: seq<Message>)
      requires Valid() && status == Running
      requires IsRequestName(name) && !IsEvalName(name) && AllDefined(arrivals)
      modifies this
      ensures Valid() && IsSuffix(rest, arrivals) && AllDefined(rest)
      ensures |outbox| > |old(outbox)|
      ensures outbox[..|old(outbox)| + 1] == old(outbox) + [Outgoing(old(nextMessageId), REQUEST_MARKER, name, args, [])]
      ensures r.Stopped? <==> status != Running
      ensures !r.Stopped? ==> evalStack == old(evalStack)
      ensures r.Answered? ==> |rest| < |arrivals| && IsResponse(r.msg) && r.msg in Consumed(arrivals, rest)
      ensures r.Answered? ==> r.msg.requestId == old(nextMessageId) && NameTail(r.msg) == name[1..]
      ensures r.Answered? ==> responseState == old(responseState) && response == old(response)
      ensures r.Answered? ==> queue == []
      ensures r.Unwound? ==> QueryInterrupt(canceling, evalStack) && responseState != Unexpected
    {
      var saved := Slot(responseState, response);
      responseState := Expected;
      var id := Send(REQUEST_MARKER, name, args, []);
      ghost var sent := outbox;
      TerminateIfClosed();
      if status != Running {
        return Stopped, arrivals;
      }
      r, rest := AwaitResponse(id, name, saved, true, arrivals, evaluate);
      assert sent <= outbox;
    }

    // -------------------------------------------------------------------
    // Callbacks from R

    /**
      `CallBack`: nothing while interrupts are held off; an interrupt when a
      cancellation applies; otherwise, with callbacks allowed, every queued
      eval request is served in arrival order.
     */
    method CallBack(arrivals: seq<Message>, evaluate: Message -> EvalOutcome)
      returns (r: CallBackOutcome, handled: seq<Message>, rest: seq<Message>, ghost replyAt: seq<nat>)
      requires Valid() && status == Running && AllDefined(arrivals)
      modifies this`status, this`queue, this`responseState, this`response, this`canceling,
        this`cancelTarget, this`blobs, this`nextBlobId, this`outbox, this`nextMessageId,
        this`evalStack, this`allowCallbacks, this`allowIntrInCallBack
      ensures Valid() && IsSuffix(rest, arrivals) && AllDefined(rest)
      ensures !old(allowIntrInCallBack) ==> r == CallBackReturned && handled == [] && rest == arrivals && queue == old(queue)
      ensures old(allowIntrInCallBack) && old(QueryInterrupt(canceling, evalStack)) ==>
        r == CallBackInterrupted && !allowIntrInCallBack && handled == [] && queue == old(queue)
      ensures r == CallBackInterrupted ==> old(allowIntrInCallBack) && old(QueryInterrupt(canceling, evalStack))
      ensures !old(allowCallbacks) ==> handled == [] && queue == old(queue)
      ensures old(queue) <= handled + queue
      ensures r == CallBackReturned && old(allowIntrInCallBack) && old(allowCallbacks) ==> queue == [] && old(queue) <= handled
      ensures r == CallBackHalted <==> status != Running
      ensures r == CallBackUnwound ==> QueryInterrupt(canceling, evalStack)
      ensures old(outbox) <= outbox
      ensures r != CallBackHalted ==> RepliedInOrder(handled, replyAt, outbox, |old(outbox)|)
      ensures r == CallBackHalted ==> handled != [] && RepliedInOrder(handled[..|handled| - 1], replyAt, outbox, |old(outbox)|)
    {
      handled, rest, replyAt := [], arrivals, [];
      if !allowIntrInCallBack {
        return CallBackReturned, handled, rest, replyAt;
      }
      if QueryInterrupt(canceling, evalStack) {
        allowIntrInCallBack := false;
        return CallBackInterrupted, handled, rest, replyAt;
      }
      if !allowCallbacks {
        return CallBackReturned, handled, rest, replyAt;
      }
      r, handled, rest, replyAt := DrainQueue(arrivals, evaluate);
    }

    /**
      The loop of `CallBack`: queued eval requests are taken from the front
      and handled until the queue is empty, the host stops, or an eval unwinds.
     */
    method DrainQueue(arrivals: seq<Message>, evaluate: Message -> EvalOutcome)
      returns (r: CallBackOutcome, handled: seq<Message>, rest: seq<Message>, ghost replyAt: seq<nat>)
      requires Valid() && status == Running && AllDefined(arrivals)
      modifies this`status, this`queue, this`responseState, this`response, this`canceling,
        this`cancelTarget, this`blobs, this`nextBlobId, this`outbox, this`nextMessageId,
        this`evalStack, this`allowCallbacks, this`allowIntrInCallBack
      ensures Valid() && IsSuffix(rest, arrivals) && AllDefined(rest)
      ensures r != CallBackInterrupted && old(queue) <= handled + queue
      ensures r == CallBackReturned ==> queue == [] && old(queue) <= handled
      ensures r == CallBackHalted <==> status != Running
      ensures r == CallBackUnwound ==> QueryInterrupt(canceling, evalStack)
      ensures old(outbox) <= outbox
      ensures r != CallBackHalted ==> RepliedInOrder(handled, replyAt, outbox, |old(outbox)|)
      ensures r == CallBackHalted ==> handled != [] && RepliedInOrder(handled[..|handled| - 1], replyAt, outbox, |old(outbox)|)
    {
      handled, rest, replyAt := [], arrivals, [];
      while queue != []
        invariant Valid() && status == Running && IsSuffix(rest, arrivals) && AllDefined(rest)
        invariant old(queue) <= handled + queue
        invariant old(outbox) <= outbox && RepliedInOrder(handled, replyAt, outbox, |old(outbox)|)
        decreases 2 * |rest| + |queue|
      {
        ghost var before := rest;
        ghost var handledBefore := handled;
        var unwound;
        handled, replyAt, unwound, rest := DrainStep(handled, replyAt, |old(outbox)|, old(queue), rest, evaluate);
        SuffixTransitive(rest, before, arrivals);
        if status != Running {
          assert handled[..|handled| - 1] == handledBefore;
          return CallBackHalted, handled, rest, replyAt;
        }
        if unwound {
          return CallBackUnwound, handled, rest, replyAt;
        }
      }
      r := CallBackReturned;
      assert handled + [] == handled;
    }


    /**
      One pass of the drain in `CallBack`, with its bookkeeping: the front of
      the queue joins the handled messages, and its reply, when the host
      still runs, joins the replies in order.
     */
    method DrainStep(
        handled: seq<Message>, ghost replyAt: seq<nat>, ghost from: nat, ghost original: seq<Message>,
        arrivals: seq<Message>, evaluate: Message -> EvalOutcome)
      returns (handled': seq<Message>, ghost replyAt': seq<nat>, unwound: bool, rest: seq<Message>)
      requires Valid() && status == Running && queue != [] && AllDefined(arrivals)
      requires original <= handled + queue && from <= |outbox| && RepliedInOrder(handled, replyAt, outbox, from)
      modifies this`status, this`queue, this`responseState, this`response, this`canceling,
        this`cancelTarget, this`blobs, this`nextBlobId, this`outbox, this`nextMessageId,
        this`evalStack, this`allowCallbacks, this`allowIntrInCallBack
      ensures Valid() && IsSuffix(rest, arrivals) && AllDefined(rest)
      ensures handled' == handled + [old(queue)[0]] && original <= handled' + queue
      ensures 2 * |rest| + |queue| < 2 * |arrivals| + |old(queue)|
      ensures old(outbox) <= outbox
      ensures unwound ==> status == Running && QueryInterrupt(canceling, evalStack)
      ensures status == Running ==> RepliedInOrder(handled', replyAt', outbox, from)
      ensures status != Running ==> RepliedInOrder(handled, replyAt', outbox, from)
    {
      ghost var (queueBefore, sent) := (queue, outbox);
      var msg;
      msg, unwound, rest := ServeFront(arrivals, evaluate);
      handled' := handled + [msg];
      PrefixAfterPop(original, handled, queueBefore, queue);
      if status != Running {
        RepliedGrows(handled, replyAt, sent, outbox, from);
        replyAt' := replyAt;
        return;
      }
      RepliedExtend(handled, replyAt, sent, outbox, from, msg);
      replyAt' := replyAt + [|outbox| - 1];
    }

    /** One pass of the drain in `CallBack`: the front of the queue is taken and handled. */
    method ServeFront(arrivals: seq<Message>, evaluate: Message -> EvalOutcome)
      returns (msg: Message, unwound: bool, rest: seq<Message>)
      requires Valid() && status == Running && queue != [] && AllDefined(arrivals)
      modifies this`status, this`queue, this`responseState, this`response, this`canceling,
        this`cancelTarget, this`blobs, this`nextBlobId, this`outbox, this`nextMessageId,
        this`evalStack, this`allowCallbacks, this`allowIntrInCallBack
      ensures Valid() && IsSuffix(rest, arrivals) && AllDefined(rest)
      ensures msg == old(queue)[0] && old(queue)[1..] <= queue
      ensures 2 * |rest| + |queue| < 2 * |arrivals| + |old(queue)|
      ensures old(outbox) <= outbox
      ensures unwound ==> status == Running && QueryInterrupt(canceling, evalStack)
      ensures status == Running ==>
        && |outbox| > |old(outbox)| && |Name(msg)| >= 1
        && outbox[|outbox| - 1].requestId == msg.id && outbox[|outbox| - 1].name == ResponseName(Name(msg))
      ensures IsEvalName(Name(msg))
    {
      msg := queue[0];
      assert IsEvalName(Name(queue[0]));
      queue := queue[1..];
      unwound, rest := ServeEval(msg, evaluate, arrivals);
    }

    /**
      One question to the client on behalf of an R callback: the request goes
      out, the answer's arguments are parsed, and a cancellation that arrives
      meanwhile unwinds the callback with interrupts held off until the next
      prompt.
     */
    method AskClient(name: seq<byte>, args: seq<Json>, arrivals: seq<Message>, evaluate: Message -> EvalOutcome)
      returns (r: CallbackResult<seq<Json>>, rest: seq<Message>, ghost answer: Message)
      requires Valid() && status == Running
      requires IsRequestName(name) && !IsEvalName(name) && AllDefined(arrivals)
      modifies this
      ensures Valid() && IsSuffix(rest, arrivals) && AllDefined(rest)
      ensures r == Halted <==> status != Running
      ensures r != RaisedError
      ensures |outbox| > |old(outbox)| && outbox[..|old(outbox)| + 1] == old(outbox) + [Outgoing(old(nextMessageId), REQUEST_MARKER, name, args, [])]
      ensures r.Returned? ==> |rest| < |arrivals| && answer in Consumed(arrivals, rest)
      ensures r.Returned? ==>
        answer.requestId == old(nextMessageId) && NameTail(answer) == name[1..] && JsonArgs(parseJson, answer) == Success(r.value)
      ensures r.Returned? ==> response == old(response) && responseState == old(responseState)
      ensures r == Interrupted ==> !allowIntrInCallBack
    {
      answer := DefaultMessage();
      var out;
      out, rest := SendRequestRestoringResponse(name, args, arrivals, evaluate);
      if out.Stopped? {
        return Halted, rest, answer;
      }
      if out.Unwound? {
        allowIntrInCallBack := false;
        return Interrupted, rest, answer;
      }
      answer := out.msg;
      var parsed := JsonArgs(parseJson, out.msg);
      if parsed.Failure? {
        Fail(BadJson(parsed.error));
        return Halted, rest, answer;
      }
      r := Returned(parsed.value);
    }

    /** `answer` is a reply to a `?>` request, and `R_ReadConsole` reads it as `a` for a buffer of `len` bytes. */
    ghost predicate ConsoleReadFrom(answer: Message, len: nat, a: ConsoleAnswer)
    {
      && NameTail(answer) == READ_CONSOLE_NAME[1..]
      && JsonArgs(parseJson, answer).Success? && ConsoleAnswerOf(JsonArgs(parseJson, answer).value, len) == Success(a)
    }

    /**
      `answer` is a reply to a `?>` request whose single argument is the
      line handed to R, or null for the end of input.
     */
    ghost predicate ConsoleLineFrom(answer: Message, line: Option<seq<byte>>)
    {
      && NameTail(answer) == READ_CONSOLE_NAME[1..]
      && JsonArgs(parseJson, answer) == Success(if line.Some? then [Str(line.value)] else [Null])
    }

    /** One `?>` request with retry reason `retry`, and the reading of its answer. */
    method AskConsole(
        prompt: seq<byte>, len: nat, addToHistory: bool, context: seq<Json>, retry: Json,
        arrivals: seq<Message>, evaluate: Message -> EvalOutcome)
      returns (r: CallbackResult<ConsoleAnswer>, rest: seq<Message>, ghost taken: Message)
      requires Valid() && status == Running && AllDefined(arrivals)
      modifies this
      ensures Valid() && IsSuffix(rest, arrivals) && AllDefined(rest)
      ensures r == Halted <==> status != Running
      ensures r != RaisedError && (r == Interrupted ==> !allowIntrInCallBack)
      ensures |outbox| > |old(outbox)| && old(outbox) <= outbox
      ensures outbox[|old(outbox)|] ==
        Outgoing(old(nextMessageId), REQUEST_MARKER, READ_CONSOLE_NAME, ConsoleRequest(context, len, addToHistory, retry, prompt), [])
      ensures r.Returned? ==> |rest| < |arrivals| && taken in Consumed(arrivals, rest)
      ensures r.Returned? ==> taken.requestId == old(nextMessageId) && ConsoleReadFrom(taken, len, r.value)
      ensures r.Returned? ==> AnswersReadConsole(taken, outbox, |old(outbox)|, |old(outbox)|)
      ensures r.Returned? && r.value.Line? ==> |r.value.text| < len
    {
      ghost var sent := outbox;
      var reply;
      reply, rest, taken := AskClient(READ_CONSOLE_NAME, ConsoleRequest(context, len, addToHistory, retry, prompt), arrivals, evaluate);
      ExtendedPrefix(sent, outbox);
      if !reply.Returned? {
        return if reply.Halted? then Halted else Interrupted, rest, taken;
      }
      var answer := ConsoleAnswerOf(reply.value, len);
      if answer.Failure? {
        Fail(answer.error);
        return Halted, rest, taken;
      }
      r := Returned(answer.value);
    }

    /**
      The retry loop of `R_ReadConsole`, from the reading `first` of the
      first answer: while the line sent does not fit the buffer of `len`
      bytes the client is asked again, each time with the overflow reason.
     */
    method ConsoleLoop(
        prompt: seq<byte>, len: nat, addToHistory: bool, context: seq<Json>,
        first: CallbackResult<ConsoleAnswer>, ghost firstAnswer: Message, ghost firstAt: nat,
        arrivals: seq<Message>, evaluate: Message -> EvalOutcome)
      returns (r: CallbackResult<Option<seq<byte>>>, rest: seq<Message>, ghost last: Message, ghost lastAt: nat)
      requires Valid() && AllDefined(arrivals)
      requires first == Halted <==> status != Running
      requires first != RaisedError && (first == Interrupted ==> !allowIntrInCallBack)
      requires first.Returned? ==> ConsoleReadFrom(firstAnswer, len, first.value)
      requires first.Returned? ==> AnswersReadConsole(firstAnswer, outbox, firstAt, firstAt)
      modifies this
      ensures Valid() && IsSuffix(rest, arrivals) && AllDefined(rest)
      ensures r == Halted <==> status != Running
      ensures r != RaisedError && (r == Interrupted ==> !allowIntrInCallBack)
      ensures old(outbox) <= outbox
      ensures r.Returned? ==> ConsoleLineFrom(last, r.value)
      ensures r.Returned? ==> (first.Returned? && last == firstAnswer) || last in Consumed(arrivals, rest)
      ensures r.Returned? ==> first.Returned? && AnswersReadConsole(last, outbox, lastAt, firstAt)
      ensures r.Returned? && r.value.Some? ==> |r.value.value| < len
    {
      var answer := first;
      rest, last, lastAt := arrivals, firstAnswer, firstAt;
      while answer == Returned(Overflow)
        invariant Valid() && IsSuffix(rest, arrivals) && AllDefined(rest)
        invariant answer == Halted <==> status != Running
        invariant answer != RaisedError && (answer == Interrupted ==> !allowIntrInCallBack)
        invariant answer.Returned? ==> ConsoleReadFrom(last, len, answer.value)
        invariant answer.Returned? ==> (first.Returned? && last == firstAnswer) || last in Consumed(arrivals, rest)
        invariant answer.Returned? ==> first.Returned? && AnswersReadConsole(last, outbox, lastAt, firstAt)
        invariant old(outbox) <= outbox
        decreases |rest| + if answer == Returned(Overflow) then 1 else 0
      {
        ghost var before := rest;
        lastAt := |outbox|;
        answer, rest, last := AskConsole(prompt, len, addToHistory, context, Str(BUFFER_OVERFLOW), rest, evaluate);
        SuffixTransitive(rest, before, arrivals);
        ConsumedSplit(arrivals, before, rest);
      }
      r := ConsoleResult(answer);
    }

    /**
      Asking the client for a line: the first `?>` request carries no retry
      reason, the repeated ones the overflow reason.
     */
    method ConsolePrompt(
        prompt: seq<byte>, len: nat, addToHistory: bool, context: seq<Json>,
        arrivals: seq<Message>, evaluate: Message -> EvalOutcome)
      returns (r: CallbackResult<Option<seq<byte>>>, rest: seq<Message>, ghost last: Message, ghost lastAt: nat)
      requires Valid() && status == Running && AllDefined(arrivals)
      modifies this
      ensures Valid() && IsSuffix(rest, arrivals) && AllDefined(rest)
      ensures r == Halted <==> status != Running
      ensures r != RaisedError && (r == Interrupted ==> !allowIntrInCallBack)
      ensures |outbox| > |old(outbox)| && old(outbox) <= outbox
      ensures outbox[|old(outbox)|] ==
        Outgoing(old(nextMessageId), REQUEST_MARKER, READ_CONSOLE_NAME, ConsoleRequest(context, len, addToHistory, Null, prompt), [])
      ensures r.Returned? ==> ConsoleLineFrom(last, r.value) && last in Consumed(arrivals, rest)
      ensures r.Returned? ==> AnswersReadConsole(last, outbox, lastAt, |old(outbox)|)
      ensures r.Returned? && r.value.Some? ==> |r.value.value| < len
    {
      var first;
      ghost var firstAnswer;
      first, rest, firstAnswer := AskConsole(prompt, len, addToHistory, context, Null, arrivals, evaluate);
      ghost var sent := outbox;
      ghost var before := rest;
      r, rest, last, lastAt := ConsoleLoop(prompt, len, addToHistory, context, first, firstAnswer, |old(outbox)|, rest, evaluate);
      SuffixTransitive(rest, before, arrivals);
      ConsumedSplit(arrivals, before, rest);
      assert outbox[|old(outbox)|] == sent[|old(outbox)|];
    }

    /**
      `R_ReadConsole` for a buffer of `len` bytes, inside `with_cancellation`.
      After a cancellation that unwound every eval, the client is told
      `!CanceledAll` first. A prompt while callbacks are off is refused, or,
      for a browser prompt, answered with `c`; a browser prompt at an
      auto-step location is answered with `n`; otherwise the retry loop asks
      the client.
     */
    method ReadConsole(
        prompt: seq<byte>, len: nat, addToHistory: bool, isBrowser: bool, autoStep: bool, context: seq<Json>,
        arrivals: seq<Message>, evaluate: Message -> EvalOutcome)
      returns (r: CallbackResult<Option<seq<byte>>>, rest: seq<Message>, ghost last: Message, ghost lastAt: nat)
      requires Valid() && status == Running && AllDefined(arrivals)
      modifies this
      ensures Valid() && IsSuffix(rest, arrivals) && AllDefined(rest)
      ensures r == Halted <==> status != Running
      ensures !old(connected) ==> r == Halted && outbox == old(outbox)
      ensures old(connected) && !old(allowIntrInCallBack) ==>
        |outbox| > |old(outbox)| && outbox[|old(outbox)|] == Outgoing(old(nextMessageId), 0, CANCELED_ALL_NAME, [], [])
      ensures r == RaisedError <==> old(connected) && !old(allowCallbacks) && len >= 3 && !isBrowser
      ensures old(connected) && !old(allowCallbacks) && len >= 3 && isBrowser ==> r == Returned(Some(CONTINUE_LINE))
      ensures old(connected) && (old(allowCallbacks) || len < 3) && isBrowser && autoStep ==>
        r == Returned(Some(STEP_OVER_LINE))
      ensures r.Returned? && r.value.Some? ==> |r.value.value| < len || r.value.value == STEP_OVER_LINE
      ensures r == Interrupted ==> !allowIntrInCallBack
      ensures old(connected) && (old(allowCallbacks) || len < 3) && !(isBrowser && autoStep) ==>
        var k := if old(allowIntrInCallBack) then 0 else 1;
        |outbox| > |old(outbox)| + k &&
        outbox[|old(outbox)| + k] ==
          Outgoing(old(nextMessageId) + k, REQUEST_MARKER, READ_CONSOLE_NAME, ConsoleRequest(context, len, addToHistory, Null, prompt), [])
      ensures old(connected) && (old(allowCallbacks) || len < 3) && !(isBrowser && autoStep) && r.Returned? ==>
        ConsoleLineFrom(last, r.value) && last in Consumed(arrivals, rest) && AnswersReadConsole(last, outbox, lastAt, |old(outbox)|)
    {
      rest, last, lastAt := arrivals, DefaultMessage(), 0;
      ConsoleEntry();
      if status != Running {
        return Halted, rest, last, lastAt;
      }
      ghost var k := if old(allowIntrInCallBack) then 0 else 1;
      assert |outbox| == |old(outbox)| + k && nextMessageId == old(nextMessageId) + k;
      ghost var sent := outbox;
      r, rest, last, lastAt := ConsoleInput(prompt, len, addToHistory, isBrowser, autoStep, context, arrivals, evaluate);
      assert outbox[..|sent|] == sent;
      assert k == 1 ==> outbox[|old(outbox)|] == sent[|old(outbox)|];
    }

    /**
      The start of `ReadConsole`: a closed connection terminates the host;
      otherwise an eval that is unwinding after a cancellation is over, so
      interrupts are allowed again and the client is told that everything
      was canceled.
     */
    method ConsoleEntry()
      requires Valid() && status == Running
      modifies this`status, this`canceling, this`allowIntrInCallBack, this`outbox, this`nextMessageId
      ensures Valid()
      ensures !old(connected) ==> status == Terminated(LostConnection) && outbox == old(outbox)
      ensures old(connected) ==> status == Running && allowIntrInCallBack
      ensures old(connected) && !old(allowIntrInCallBack) ==>
        !canceling && nextMessageId == old(nextMessageId) + 1 &&
        outbox == old(outbox) + [Outgoing(old(nextMessageId), 0, CANCELED_ALL_NAME, [], [])]
      ensures old(connected) && old(allowIntrInCallBack) ==>
        canceling == old(canceling) && nextMessageId == old(nextMessageId) && outbox == old(outbox)
    {
      TerminateIfClosed();
      if status != Running {
        return;
      }
      if !allowIntrInCallBack {
        canceling := false;
        allowIntrInCallBack := true;
        var _ := SendNotification(CANCELED_ALL_NAME, [], []);
      }
    }

    /** What `ReadConsole` does once the connection is known to be up and interrupts are allowed again. */
    method ConsoleInput(
        prompt: seq<byte>, len: nat, addToHistory: bool, isBrowser: bool, autoStep: bool, context: seq<Json>,
        arrivals: seq<Message>, evaluate: Message -> EvalOutcome)
      returns (r: CallbackResult<Option<seq<byte>>>, rest: seq<Message>, ghost last: Message, ghost lastAt: nat)
      requires Valid() && status == Running && AllDefined(arrivals)
      modifies this
      ensures Valid() && IsSuffix(rest, arrivals) && AllDefined(rest)
      ensures r == Halted <==> status != Running
      ensures old(outbox) <= outbox
      ensures r == RaisedError <==> !old(allowCallbacks) && len >= 3 && !isBrowser
      ensures !old(allowCallbacks) && len >= 3 && isBrowser ==> r == Returned(Some(CONTINUE_LINE))
      ensures (old(allowCallbacks) || len < 3) && isBrowser && autoStep ==> r == Returned(Some(STEP_OVER_LINE))
      ensures r.Returned? && r.value.Some? ==> |r.value.value| < len || r.value.value == STEP_OVER_LINE
      ensures r == Interrupted ==> !allowIntrInCallBack
      ensures (old(allowCallbacks) || len < 3) && !(isBrowser && autoStep) ==>
        |outbox| > |old(outbox)| &&
        outbox[|old(outbox)|] ==
          Outgoing(old(nextMessageId), REQUEST_MARKER, READ_CONSOLE_NAME, ConsoleRequest(context, len, addToHistory, Null, prompt), [])
      ensures (old(allowCallbacks) || len < 3) && !(isBrowser && autoStep) && r.Returned? ==>
        ConsoleLineFrom(last, r.value) && last in Consumed(arrivals, rest) && AnswersReadConsole(last, outbox, lastAt, |old(outbox)|)
    {
      rest, last, lastAt := arrivals, DefaultMessage(), 0;
      if !allowCallbacks && len >= 3 {
        if isBrowser {
          return Returned(Some(CONTINUE_LINE)), rest, last, lastAt;
        }
        return RaisedError, rest, last, lastAt;
      }
      if isBrowser && autoStep {
        return Returned(Some(STEP_OVER_LINE)), rest, last, lastAt;
      }
      r, rest, last, lastAt := ConsolePrompt(prompt, len, addToHistory, context, arrivals, evaluate);
    }

    /**
      `ShowMessageBox`, inside `with_cancellation`: refused while callbacks
      are off; otherwise the client is asked with `cmd`, and the one-letter
      answer it sends back, kept in `answer`, picks the button.
     */
    method ShowMessageBox(
        text: seq<byte>, cmd: seq<byte>, context: seq<Json>, arrivals: seq<Message>, evaluate: Message -> EvalOutcome)
      returns (r: CallbackResult<int>, rest: seq<Message>, ghost answer: Message)
      requires Valid() && status == Running && AllDefined(arrivals)
      requires cmd == YES_NO_CANCEL_NAME || cmd == YES_NO_NAME || cmd == OK_CANCEL_NAME
      modifies this
      ensures Valid() && IsSuffix(rest, arrivals) && AllDefined(rest)
      ensures r == Halted <==> status != Running
      ensures r == RaisedError <==> old(connected) && !old(allowCallbacks)
      ensures old(connected) && old(allowCallbacks) ==>
        |outbox| > |old(outbox)| && outbox[|old(outbox)|] == Outgoing(old(nextMessageId), REQUEST_MARKER, cmd, [Array(context), Str(text)], [])
      ensures r.Returned? ==>
        && answer in Consumed(arrivals, rest) && answer.requestId == old(nextMessageId) && NameTail(answer) == cmd[1..]
        && JsonArgs(parseJson, answer).Success? && MessageBoxAnswer(JsonArgs(parseJson, answer).value) == Success(r.value)
      ensures r == Interrupted ==> !allowIntrInCallBack
    {
      rest, answer := arrivals, DefaultMessage();
      TerminateIfClosed();
      if status != Running {
        return Halted, rest, answer;
      }
      if !allowCallbacks {
        return RaisedError, rest, answer;
      }
      r, rest, answer := AskButton(text, cmd, context, rest, evaluate);
    }

    /** The message box request itself, and the button the answer picks. */
    method AskButton(
        text: seq<byte>, cmd: seq<byte>, context: seq<Json>, arrivals: seq<Message>, evaluate: Message -> EvalOutcome)
      returns (r: CallbackResult<int>, rest: seq<Message>, ghost answer: Message)
      requires Valid() && status == Running && AllDefined(arrivals)
      requires cmd == YES_NO_CANCEL_NAME || cmd == YES_NO_NAME || cmd == OK_CANCEL_NAME
      modifies this
      ensures Valid() && IsSuffix(rest, arrivals) && AllDefined(rest)
      ensures r == Halted <==> status != Running
      ensures r != RaisedError
      ensures |outbox| > |old(outbox)| && outbox[|old(outbox)|] == Outgoing(old(nextMessageId), REQUEST_MARKER, cmd, [Array(context), Str(text)], [])
      ensures r.Returned? ==>
        && answer in Consumed(arrivals, rest) && answer.requestId == old(nextMessageId) && NameTail(answer) == cmd[1..]
        && JsonArgs(parseJson, answer).Success? && MessageBoxAnswer(JsonArgs(parseJson, answer).value) == Success(r.value)
      ensures r == Interrupted ==> !allowIntrInCallBack
    {
      var reply;
      reply, rest, answer := AskClient(cmd, [Array(context), Str(text)], arrivals, evaluate);
      assert outbox[|old(outbox)|] == (outbox[..|old(outbox)| + 1])[|old(outbox)|];
      if !reply.Returned? {
        return if reply.Halted? then Halted else Interrupted, rest, answer;
      }
      var button := MessageBoxAnswer(reply.value);
      if button.Failure? {
        Fail(button.error);
        return Halted, rest, answer;
      }
      r := Returned(button.value);
    }
  }

  /**
    `answer` replies to the `?>` request at position `at` of the outbox,
    one sent at or after position `from`.
   */
  ghost predicate AnswersReadConsole(answer: Message, outbox: seq<Outgoing>, at: nat, from: nat)
  {
    && from <= at < |outbox|
    && outbox[at].id == answer.requestId && outbox[at].requestId == REQUEST_MARKER && outbox[at].name == READ_CONSOLE_NAME
  }

  /**
    Each message of `handled` is answered, in order, by the outbox entry at
    the matching position of `at`: a reply to its id under its response
    name, sent at or after position `from`.
   */
  ghost predicate RepliedInOrder(handled: seq<Message>, at: seq<nat>, outbox: seq<Outgoing>, from: nat)
  {
    && |at| == |handled|
    && (forall k | 0 <= k < |at| ::
          && from <= at[k] < |outbox|
          && |Name(handled[k])| >= 1
          && outbox[at[k]].requestId == handled[k].id
          && outbox[at[k]].name == ResponseName(Name(handled[k])))
    && (forall k | 0 < k < |at| :: at[k - 1] < at[k])
  }

  /** Sending more keeps the replies already sent where they were. */
  lemma RepliedGrows(handled: seq<Message>, at: seq<nat>, sent: seq<Outgoing>, outbox: seq<Outgoing>, from: nat)
    requires RepliedInOrder(handled, at, sent, from) && sent <= outbox
    ensures RepliedInOrder(handled, at, outbox, from)
  {
    forall k | 0 <= k < |at| ensures outbox[at[k]] == sent[at[k]] {
    }
  }

  /** A reply sent after all the others extends the replies in order by one. */
  lemma RepliedExtend(handled: seq<Message>, at: seq<nat>, sent: seq<Outgoing>, outbox: seq<Outgoing>, from: nat, msg: Message)
    requires RepliedInOrder(handled, at, sent, from) && sent <= outbox && from <= |sent| < |outbox|
    requires |Name(msg)| >= 1
    requires outbox[|outbox| - 1].requestId == msg.id && outbox[|outbox| - 1].name == ResponseName(Name(msg))
    ensures RepliedInOrder(handled + [msg], at + [|outbox| - 1], outbox, from)
  {
    RepliedGrows(handled, at, sent, outbox, from);
    var h, a := handled + [msg], at + [|outbox| - 1];
    forall k | 0 <= k < |a|
      ensures from <= a[k] < |outbox| && |Name(h[k])| >= 1
      ensures outbox[a[k]].requestId == h[k].id && outbox[a[k]].name == ResponseName(Name(h[k]))
    {
      if k < |at| {
        assert a[k] == at[k] && h[k] == handled[k];
      }
    }
    forall k | 0 < k < |a| ensures a[k - 1] < a[k] {
      if k < |at| {
        assert a[k - 1] == at[k - 1] && a[k] == at[k];
      } else {
        assert a[k - 1] == at[k - 1] < |sent|;
      }
    }
  }

  /** A sequence that begins with `sent` and one more message has `sent` as a prefix. */
  lemma ExtendedPrefix(sent: seq<Outgoing>, outbox: seq<Outgoing>)
    requires |outbox| > |sent| && outbox[..|sent| + 1] == sent + [outbox[|sent|]]
    ensures sent <= outbox
  {
    assert outbox[..|sent|] == (sent + [outbox[|sent|]])[..|sent|];
  }

  /** Moving the front of the queue to the served list keeps the original queue a prefix of both together. */
  lemma PrefixAfterPop(original: seq<Message>, handled: seq<Message>, queue: seq<Message>, grown: seq<Message>)
    requires original <= handled + queue && queue != [] && queue[1..] <= grown
    ensures original <= (handled + [queue[0]]) + grown
  {
    var before := handled + queue;
    var after := (handled + [queue[0]]) + grown;
    assert |before| <= |after|;
    forall i | 0 <= i < |before| ensures before[i] == after[i] {
      if i > |handled| {
        assert before[i] == queue[i - |handled|] == queue[1..][i - |handled| - 1];
      }
    }
    assert before <= after;
  }

  /** Erasing one more handle extends the erased set by that handle. */
  lemma NumericIdsAppend(args: seq<Json>, last: Json)
    requires last.Num?
    ensures NumericIds(args + [last]) == NumericIds(args) + {last.n}
  {
    var all := args + [last];
    assert all[|args|] == last;
    forall id | id in NumericIds(all) ensures id in NumericIds(args) + {last.n} {
      var i :| 0 <= i < |all| && all[i].Num? && all[i].n == id;
      if i < |args| { assert args[i] == all[i]; }
    }
    forall id | id in NumericIds(args) ensures id in NumericIds(all) {
      var i :| 0 <= i < |args| && args[i].Num? && args[i].n == id;
      assert all[i] == args[i];
    }
  }
}
