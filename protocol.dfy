/**
  The pure decisions of the protocol engine (src/host.cpp): how incoming
  messages are routed, how eval requests are read, how replies are shaped,
  how the eval stack answers interrupt and cancel queries, and how clients'
  answers to blocking callbacks are decoded.
 */
module Protocol {
  import opened Wrappers
  import opened Bytes
  import opened Json
  import opened Wire

  /** Every condition under which the engine calls `fatal_error`. */
  datatype Fatal =
    | BadJson(error: JsonError)
    | BlobIdOverflow
    | GetBlobNonNumeric
    | GetBlobUnknown(id: nat)
    | DestroyBlobNonNumeric
    | InvalidEvalRequest
    | MultipleEnvironments
    | UnrecognizedFlag(flag: byte)
    | MarshalFailed
    | CancelArity
    | CancelNonNumeric
    | InvalidResponseState
    | ResponseIdMismatch
    | ResponseNameMismatch
    | UnrecognizedIncoming
    | UnexpectedResponse
    | UnrecognizedMessage
    | ReadConsoleArity
    | ReadConsoleNotString
    | MessageBoxNotString
    | MessageBoxBadLetter

  // ---------------------------------------------------------------------
  // Message names

  const QUESTION: byte := '?' as int
  const BANG: byte := '!' as int
  const COLON: byte := ':' as int
  const EQUALS: byte := '=' as int

  const END_NAME: seq<byte> := [33, 69, 110, 100]  // "!End"
  const CANCEL_NAME: seq<byte> := [33, 47]  // "!/"
  const CREATE_BLOB_NAME: seq<byte> := [63, 67, 114, 101, 97, 116, 101, 66, 108, 111, 98]  // "?CreateBlob"
  const GET_BLOB_NAME: seq<byte> := [63, 71, 101, 116, 66, 108, 111, 98]  // "?GetBlob"
  const DESTROY_BLOB_NAME: seq<byte> := [33, 68, 101, 115, 116, 114, 111, 121, 66, 108, 111, 98]  // "!DestroyBlob"
  const CANCELED_ALL_NAME: seq<byte> := [33, 67, 97, 110, 99, 101, 108, 101, 100, 65, 108, 108]  // "!CanceledAll"
  const READ_CONSOLE_NAME: seq<byte> := [63, 62]  // "?>"

  /** A name of the form `?=flags`: an eval request. */
  predicate IsEvalName(name: seq<byte>)
  {
    |name| >= 2 && name[0] == QUESTION && name[1] == EQUALS
  }

  /** The name of the reply to a request: the leading `?` becomes `:`. */
  function ResponseName(requestName: seq<byte>): (r: seq<byte>)
    requires |requestName| >= 1
    ensures |r| == |requestName| && r[0] == COLON && r[1..] == requestName[1..]
  {
    [COLON] + requestName[1..]
  }

  // ---------------------------------------------------------------------
  // Dispatch

  /** Where `message_received` sends an incoming message. */
  datatype Route =
    | Shutdown
    | Cancel
    | CreateBlob
    | GetBlob
    | DestroyBlob
    | QueueEval
    | StoreResponse
    | Unrecognized

  /**
    `message_received` decides by the name first, and looks at the request id
    only for names it does not recognise.
   */
  function RouteOf(m: Message): Route
  {
    var name := Name(m);
    if name == END_NAME then Shutdown
    else if name == CANCEL_NAME then Cancel
    else if name == CREATE_BLOB_NAME then CreateBlob
    else if name == GET_BLOB_NAME then GetBlob
    else if name == DESTROY_BLOB_NAME then DestroyBlob
    else if IsEvalName(name) then QueueEval
    else if IsResponse(m) then StoreResponse
    else Unrecognized
  }

  /** Each route is taken for exactly the names (and, last, the kinds) that select it. */
  lemma RouteOfMeaning(m: Message)
    ensures var r := RouteOf(m);
      && (r == Shutdown <==> Name(m) == END_NAME)
      && (r == Cancel <==> Name(m) == CANCEL_NAME)
      && (r == CreateBlob <==> Name(m) == CREATE_BLOB_NAME)
      && (r == GetBlob <==> Name(m) == GET_BLOB_NAME)
      && (r == DestroyBlob <==> Name(m) == DESTROY_BLOB_NAME)
      && (r == QueueEval <==> IsEvalName(Name(m)))
      && (r == StoreResponse <==> IsResponse(m) && !IsEvalName(Name(m)) && !IsFixedName(Name(m)))
      && (r == Unrecognized <==> !IsResponse(m) && !IsEvalName(Name(m)) && !IsFixedName(Name(m)))
  {
    if IsFixedName(Name(m)) {
      FixedNamesAreNotEvalNames(Name(m));
    }
  }

  /** The routes whose handlers reply, and the eval route, see the names they rely on. */
  lemma RouteNames(m: Message)
    ensures RouteOf(m) == CreateBlob || RouteOf(m) == GetBlob ==> |Name(m)| >= 1 && Name(m)[0] == QUESTION
    ensures RouteOf(m) == QueueEval ==> IsEvalName(Name(m))
    ensures RouteOf(m) == StoreResponse ==> IsResponse(m)
  {
    RouteOfMeaning(m);
  }

  /** The five names `message_received` compares against. */
  predicate IsFixedName(name: seq<byte>)
  {
    name == END_NAME || name == CANCEL_NAME || name == CREATE_BLOB_NAME
    || name == GET_BLOB_NAME || name == DESTROY_BLOB_NAME
  }

  /** The fixed names are not eval names, so the routes above never overlap. */
  lemma FixedNamesAreNotEvalNames(name: seq<byte>)
    requires IsFixedName(name)
    ensures !IsEvalName(name)
  {
    assert END_NAME[0] == BANG && CANCEL_NAME[0] == BANG && DESTROY_BLOB_NAME[0] == BANG;
    assert CREATE_BLOB_NAME[1] != EQUALS && GET_BLOB_NAME[1] != EQUALS;
  }

  /**
    The name wins over the request id: an eval request is queued even when
    its request id makes it a response, and a response is stored only when
    its name is none of the recognised ones.
   */
  lemma NameBeforeKind(m: Message)
    ensures IsEvalName(Name(m)) ==> RouteOf(m) == QueueEval
    ensures RouteOf(m) == StoreResponse ==> IsResponse(m)
    ensures IsNotification(m) || IsRequest(m) ==> RouteOf(m) != StoreResponse
  {
    RouteOfMeaning(m);
  }

  // ---------------------------------------------------------------------
  // Correlation

  /**
    What `strcmp(msg.name() + 1, ...)` reads: the C string one byte past the
    start of the name. For an empty name that is the JSON text.
   */
  function NameTail(m: Message): seq<byte>
  {
    CStringAt(m.payload, m.nameOffset + 1)
  }

  /** For a non-empty name the compared text is the name without its first byte. */
  lemma NameTailOfNonEmptyName(m: Message)
    requires Name(m) != []
    ensures NameTail(m) == Name(m)[1..]
  {
    assert m.nameOffset < |m.payload| && m.payload[m.nameOffset] != NUL;
    CStringAtNext(m.payload, m.nameOffset);
  }

  /**
    The check `send_request_and_get_response` applies to a response: its
    request id must be the id of the sent request, and its name must agree
    with the request name after the first byte.
   */
  function CheckResponse(sentId: nat, requestName: seq<byte>, m: Message): (r: Result<Message, Fatal>)
    requires |requestName| >= 1
    ensures r.Success? <==> m.requestId == sentId && NameTail(m) == requestName[1..]
    ensures r.Success? ==> r.value == m
    ensures m.requestId != sentId ==> r == Failure(ResponseIdMismatch)
  {
    if m.requestId != sentId then Failure(ResponseIdMismatch)
    else if NameTail(m) != requestName[1..] then Failure(ResponseNameMismatch)
    else Success(m)
  }

  /**
    An eval request never passes the check of a request that is not an
    eval: its compared name starts with `=`, the awaited one does not.
   */
  lemma EvalRequestFailsCheck(sentId: nat, requestName: seq<byte>, m: Message)
    requires IsEvalName(Name(m)) && |requestName| >= 1 && !IsEvalName(requestName) && requestName[0] == QUESTION
    ensures CheckResponse(sentId, requestName, m).Failure?
  {
    NameTailOfNonEmptyName(m);
    assert NameTail(m)[0] == EQUALS;
  }

  /**
    A reply built the way `respond_to_message` builds one, sent back over the
    wire, passes the requester's correlation check.
   */
  lemma {:induction false} ReplyPassesCheck(
      sentId: nat, requestName: seq<byte>, replyId: nat, json: seq<byte>, blob: seq<byte>)
    requires |requestName| >= 1 && NoNul(requestName) && NoNul(json)
    requires sentId < U64_LIMIT && replyId < U64_LIMIT
    ensures var r := Parse(Encode(replyId, sentId, ResponseName(requestName), json, blob));
      r.Success? && CheckResponse(sentId, requestName, r.value) == Success(r.value)
  {
    var name := ResponseName(requestName);
    assert NoNul(name) by {
      forall i | 0 <= i < |name| ensures name[i] != NUL {
        if i > 0 { assert name[i] == requestName[i]; }
      }
    }
    ParseEncode(replyId, sentId, name, json, blob);
    var m := Parse(Encode(replyId, sentId, name, json, blob)).value;
    NameTailOfNonEmptyName(m);
  }

  // ---------------------------------------------------------------------
  // The eval stack

  /** One entry of `eval_stack`. */
  datatype EvalInfo = EvalInfo(id: nat, cancelable: bool)

  /** The dummy bottom entry standing for the input evaluated at the last prompt. */
  const BOTTOM: EvalInfo := EvalInfo(0, true)

  /** `find_if(..., !is_cancelable)`: the index of the first non-cancelable entry, or the length. */
  function FirstNonCancelable(stack: seq<EvalInfo>): (r: nat)
    ensures r <= |stack|
    ensures forall i | 0 <= i < r :: stack[i].cancelable
    ensures r < |stack| ==> !stack[r].cancelable
  {
    if stack == [] then 0
    else if !stack[0].cancelable then 0
    else 1 + FirstNonCancelable(stack[1..])
  }

  /** `query_interrupt`: a cancellation is in progress and nothing on the stack shields it. */
  function QueryInterrupt(canceling: bool, stack: seq<EvalInfo>): (r: bool)
    ensures r <==> canceling && forall i | 0 <= i < |stack| :: stack[i].cancelable
  {
    canceling && FirstNonCancelable(stack) == |stack|
  }

  /** A non-cancelable eval shields itself and everything nested in it. */
  lemma NonCancelableShields(canceling: bool, stack: seq<EvalInfo>, nested: seq<EvalInfo>, e: EvalInfo)
    requires !e.cancelable
    ensures !QueryInterrupt(canceling, stack + [e] + nested)
  {
    assert (stack + [e] + nested)[|stack|] == e;
  }

  /** Pushing a cancelable eval leaves the answer as it was. */
  lemma CancelablePushKeeps(canceling: bool, stack: seq<EvalInfo>, e: EvalInfo)
    requires e.cancelable
    ensures QueryInterrupt(canceling, stack + [e]) == QueryInterrupt(canceling, stack)
  {
    if QueryInterrupt(canceling, stack) {
      assert forall i | 0 <= i < |stack| + 1 :: (stack + [e])[i].cancelable by {
        forall i | 0 <= i < |stack| + 1 ensures (stack + [e])[i].cancelable {
          if i < |stack| { assert (stack + [e])[i] == stack[i]; }
        }
      }
    } else if canceling {
      var k := FirstNonCancelable(stack);
      assert (stack + [e])[k] == stack[k];
    }
  }

  // ---------------------------------------------------------------------
  // Cancellation

  /** The cancellation globals: `canceling_eval` and `eval_cancel_target`. */
  datatype CancelState = CancelState(canceling: bool, target: nat)

  /** The first index of an entry with this id, or the length of the stack. */
  function IndexOf(stack: seq<EvalInfo>, id: nat): (r: nat)
    ensures r <= |stack|
    ensures r < |stack| ==> stack[r].id == id
    ensures forall i | 0 <= i < r :: stack[i].id != id
  {
    if stack == [] then 0
    else if stack[0].id == id then 0
    else 1 + IndexOf(stack[1..], id)
  }

  /** The loop of `handle_cancel` from the given entry on, bottom to top. */
  function CancelScan(stack: seq<EvalInfo>, from: nat, s: CancelState, evalId: nat): (r: CancelState)
    requires from <= |stack|
    decreases |stack| - from
  {
    if from == |stack| then s
    else if s.canceling && stack[from].id == s.target then s
    else if stack[from].id == evalId then CancelState(true, stack[from].id)
    else CancelScan(stack, from + 1, s, evalId)
  }

  /**
    What a cancel request does, stated without the loop: the requested eval
    becomes the target exactly when it sits strictly below the current target
    (or nothing is being canceled); otherwise nothing changes, both when the
    request is subsumed by a deeper cancellation and when the eval is gone.
   */
  lemma CancelEffect(stack: seq<EvalInfo>, s: CancelState, evalId: nat)
    ensures var i := IndexOf(stack, evalId);
      var j := if s.canceling then IndexOf(stack, s.target) else |stack|;
      CancelScan(stack, 0, s, evalId) == if i < j then CancelState(true, evalId) else s
  {
    CancelEffectFrom(stack, 0, s, evalId);
    assert IndexFrom(stack, 0, evalId) == IndexOf(stack, evalId);
    assert IndexFrom(stack, 0, s.target) == IndexOf(stack, s.target);
  }

  /** The first index at or after `from` of an entry with this id, or the length. */
  function IndexFrom(stack: seq<EvalInfo>, from: nat, id: nat): (r: nat)
    requires from <= |stack|
    ensures from <= r <= |stack|
    ensures r < |stack| ==> stack[r].id == id
    ensures forall i | from <= i < r :: stack[i].id != id
    decreases |stack| - from
  {
    if from == |stack| then from
    else if stack[from].id == id then from
    else IndexFrom(stack, from + 1, id)
  }

  lemma {:induction false} CancelEffectFrom(stack: seq<EvalInfo>, from: nat, s: CancelState, evalId: nat)
    requires from <= |stack|
    ensures var i := IndexFrom(stack, from, evalId);
      var j := if s.canceling then IndexFrom(stack, from, s.target) else |stack|;
      CancelScan(stack, from, s, evalId) == if i < j then CancelState(true, evalId) else s
    decreases |stack| - from
  {
    if from < |stack| {
      if s.canceling && stack[from].id == s.target {
      } else if stack[from].id == evalId {
      } else {
        CancelEffectFrom(stack, from + 1, s, evalId);
      }
    }
  }

  /** A cancel request for an eval that is not on the stack changes nothing. */
  lemma CancelOfFinishedEvalIgnored(stack: seq<EvalInfo>, s: CancelState, evalId: nat)
    requires forall i | 0 <= i < |stack| :: stack[i].id != evalId
    ensures CancelScan(stack, 0, s, evalId) == s
  {
    CancelEffect(stack, s, evalId);
  }

  /** Repeating a cancel request has no further effect. */
  lemma CancelIdempotent(stack: seq<EvalInfo>, s: CancelState, evalId: nat)
    ensures var once := CancelScan(stack, 0, s, evalId);
      CancelScan(stack, 0, once, evalId) == once
  {
    CancelEffect(stack, s, evalId);
    var once := CancelScan(stack, 0, s, evalId);
    CancelEffect(stack, once, evalId);
  }

  /**
    Cancellation only ever widens: once canceling, a request leaves it
    canceling, and the target can only move down the stack, towards the
    bottom entry.
   */
  lemma CancelOnlyWidens(stack: seq<EvalInfo>, s: CancelState, evalId: nat)
    ensures var r := CancelScan(stack, 0, s, evalId);
      && (s.canceling ==> r.canceling)
      && (s.canceling && r.canceling ==> IndexOf(stack, r.target) <= IndexOf(stack, s.target))
  {
    CancelEffect(stack, s, evalId);
  }

  /** `handle_cancel`'s argument check: one argument, null (cancel everything) or a number. */
  function CancelTargetOf(args: seq<Json>): (r: Result<nat, Fatal>)
    ensures |args| != 1 ==> r == Failure(CancelArity)
    ensures |args| == 1 && args[0] == Null ==> r == Success(BOTTOM.id)
    ensures |args| == 1 && args[0].Num? ==> r == Success(args[0].n)
    ensures r.Failure? ==> r.error == CancelArity || r.error == CancelNonNumeric
  {
    if |args| != 1 then Failure(CancelArity)
    else match args[0]
      case Null => Success(0)
      case Num(n) => Success(n)
      case _ => Failure(CancelNonNumeric)
  }

  // ---------------------------------------------------------------------
  // Eval request flags

  const FLAG_BASE: byte := 'B' as int
  const FLAG_EMPTY: byte := 'E' as int
  const FLAG_NEW_ENV: byte := 'N' as int
  const FLAG_CALLBACKS: byte := '@' as int
  const FLAG_CANCELABLE: byte := '/' as int
  const FLAG_NO_RESULT: byte := '0' as int
  const FLAG_RAW: byte := 'r' as int

  /** The characters the flag loop accepts. */
  predicate IsFlag(c: byte)
  {
    c == FLAG_BASE || c == FLAG_EMPTY || c == FLAG_NEW_ENV || c == FLAG_CALLBACKS
    || c == FLAG_CANCELABLE || c == FLAG_NO_RESULT || c == FLAG_RAW
  }

  datatype Env = GlobalEnv | BaseEnv | EmptyEnv

  /** The locals of `handle_eval` the flag loop sets; `env` is the null pointer until a flag sets it. */
  datatype EvalFlags = EvalFlags(
    env: Option<Env>, newEnv: bool, callbacks: bool, cancelable: bool, noResult: bool, raw: bool)

  const NO_FLAGS: EvalFlags := EvalFlags(None, false, false, false, false, false)

  /** One iteration of the flag loop's switch. */
  function StepFlag(f: EvalFlags, c: byte): (r: Result<EvalFlags, Fatal>)
    ensures r.Failure? <==> !IsFlag(c) || ((c == FLAG_BASE || c == FLAG_EMPTY) && f.env.Some?)
  {
    if c == FLAG_BASE || c == FLAG_EMPTY then
      if f.env.Some? then Failure(MultipleEnvironments)
      else Success(f.(env := Some(if c == FLAG_BASE then BaseEnv else EmptyEnv)))
    else if c == FLAG_NEW_ENV then Success(f.(newEnv := true))
    else if c == FLAG_CALLBACKS then Success(f.(callbacks := true))
    else if c == FLAG_CANCELABLE then Success(f.(cancelable := true))
    else if c == FLAG_NO_RESULT then Success(f.(noResult := true))
    else if c == FLAG_RAW then Success(f.(raw := true))
    else Failure(UnrecognizedFlag(c))
  }

  /** The flag loop over the remaining characters, stopping at the first fatal one. */
  function ScanFlags(f: EvalFlags, flags: seq<byte>): (r: Result<EvalFlags, Fatal>)
    ensures r.Failure? ==>
      (r.error == MultipleEnvironments
       || (r.error.UnrecognizedFlag? && r.error.flag in flags && !IsFlag(r.error.flag)))
    decreases |flags|
  {
    if flags == [] then Success(f)
    else match StepFlag(f, flags[0])
      case Failure(e) => Failure(e)
      case Success(g) =>
        var r := ScanFlags(g, flags[1..]);
        assert r.Failure? && r.error.UnrecognizedFlag? ==> r.error.flag in flags;
        r
  }

  /** The flags of an eval request, with the environment defaulting to the global one. */
  function EvalFlagsOf(flags: seq<byte>): Result<EvalFlags, Fatal>
  {
    match ScanFlags(NO_FLAGS, flags)
    case Failure(e) => Failure(e)
    case Success(f) => Success(f.(env := Some(if f.env.Some? then f.env.value else GlobalEnv)))
  }

  /** How many environment flags (`B` or `E`) the text holds. */
  function EnvFlagCount(flags: seq<byte>): nat
  {
    if flags == [] then 0
    else (if flags[0] == FLAG_BASE || flags[0] == FLAG_EMPTY then 1 else 0) + EnvFlagCount(flags[1..])
  }

  /** The environment the first environment flag names, if any. */
  function FirstEnv(flags: seq<byte>): Option<Env>
  {
    if flags == [] then None
    else if flags[0] == FLAG_BASE then Some(BaseEnv)
    else if flags[0] == FLAG_EMPTY then Some(EmptyEnv)
    else FirstEnv(flags[1..])
  }

  /** Every character is a flag. */
  predicate AllFlags(flags: seq<byte>)
  {
    forall c | c in flags :: IsFlag(c)
  }

  /** The loop from a given state succeeds exactly on flag characters with at most one environment in all. */
  lemma {:induction false} ScanFlagsAccepts(f: EvalFlags, flags: seq<byte>)
    ensures ScanFlags(f, flags).Success? <==>
      AllFlags(flags) && EnvFlagCount(flags) + (if f.env.Some? then 1 else 0) <= 1
    decreases |flags|
  {
    if flags != [] {
      var c, rest := flags[0], flags[1..];
      assert flags == [c] + rest;
      assert AllFlags(flags) <==> IsFlag(c) && AllFlags(rest);
      match StepFlag(f, c)
      case Failure(_) =>
      case Success(g) =>
        ScanFlagsAccepts(g, rest);
    }
  }

  /** On success each field is its starting value or-ed with the presence of its flag. */
  lemma {:induction false} ScanFlagsFields(f: EvalFlags, flags: seq<byte>)
    requires ScanFlags(f, flags).Success?
    ensures var v := ScanFlags(f, flags).value;
      && v.env == (if f.env.Some? then f.env else FirstEnv(flags))
      && v.newEnv == (f.newEnv || FLAG_NEW_ENV in flags)
      && v.callbacks == (f.callbacks || FLAG_CALLBACKS in flags)
      && v.cancelable == (f.cancelable || FLAG_CANCELABLE in flags)
      && v.noResult == (f.noResult || FLAG_NO_RESULT in flags)
      && v.raw == (f.raw || FLAG_RAW in flags)
    decreases |flags|
  {
    if flags != [] {
      var c, rest := flags[0], flags[1..];
      assert flags == [c] + rest;
      var g := StepFlag(f, c).value;
      StepFlagFields(f, c);
      ScanFlagsFields(g, rest);
      assert FLAG_NEW_ENV in flags <==> c == FLAG_NEW_ENV || FLAG_NEW_ENV in rest;
      assert FLAG_CALLBACKS in flags <==> c == FLAG_CALLBACKS || FLAG_CALLBACKS in rest;
      assert FLAG_CANCELABLE in flags <==> c == FLAG_CANCELABLE || FLAG_CANCELABLE in rest;
      assert FLAG_NO_RESULT in flags <==> c == FLAG_NO_RESULT || FLAG_NO_RESULT in rest;
      assert FLAG_RAW in flags <==> c == FLAG_RAW || FLAG_RAW in rest;
    }
  }

  /** One step sets exactly the field its character names. */
  lemma StepFlagFields(f: EvalFlags, c: byte)
    requires StepFlag(f, c).Success?
    ensures var g := StepFlag(f, c).value;
      && g.env == (if c == FLAG_BASE then Some(BaseEnv) else if c == FLAG_EMPTY then Some(EmptyEnv) else f.env)
      && g.newEnv == (f.newEnv || c == FLAG_NEW_ENV)
      && g.callbacks == (f.callbacks || c == FLAG_CALLBACKS)
      && g.cancelable == (f.cancelable || c == FLAG_CANCELABLE)
      && g.noResult == (f.noResult || c == FLAG_NO_RESULT)
      && g.raw == (f.raw || c == FLAG_RAW)
  {
  }

  /**
    An eval request's flags are accepted exactly when every character is one
    of `B E N @ / 0 r` and at most one names an environment; each flag then
    sets its own field, and with no environment flag the global environment
    is used.
   */
  lemma EvalFlagsMeaning(flags: seq<byte>)
    ensures var r := EvalFlagsOf(flags);
      && (r.Success? <==> AllFlags(flags) && EnvFlagCount(flags) <= 1)
      && (r.Success? ==>
           && r.value.env == Some(if FirstEnv(flags).Some? then FirstEnv(flags).value else GlobalEnv)
           && r.value.newEnv == (FLAG_NEW_ENV in flags)
           && r.value.callbacks == (FLAG_CALLBACKS in flags)
           && r.value.cancelable == (FLAG_CANCELABLE in flags)
           && r.value.noResult == (FLAG_NO_RESULT in flags)
           && r.value.raw == (FLAG_RAW in flags))
  {
    ScanFlagsAccepts(NO_FLAGS, flags);
    if ScanFlags(NO_FLAGS, flags).Success? {
      ScanFlagsFields(NO_FLAGS, flags);
    }
  }

  /** Two environment flags are fatal, whatever else the request holds. */
  lemma TwoEnvironmentsFatal(flags: seq<byte>)
    requires EnvFlagCount(flags) >= 2
    ensures EvalFlagsOf(flags).Failure?
  {
    EvalFlagsMeaning(flags);
  }

  /**
    The flag loop of `handle_eval`, character by character. It computes
    `EvalFlagsOf`.
   */
  method ParseEvalFlags(flags: seq<byte>) returns (r: Result<EvalFlags, Fatal>)
    ensures r == EvalFlagsOf(flags)
  {
    var f := NO_FLAGS;
    var i := 0;
    while i < |flags|
      invariant 0 <= i <= |flags|
      invariant ScanFlags(NO_FLAGS, flags) == ScanFlags(f, flags[i..])
    {
      assert flags[i..][1..] == flags[i + 1..];
      var c := flags[i];
      if c == FLAG_BASE || c == FLAG_EMPTY {
        if f.env.Some? {
          return Failure(MultipleEnvironments);
        }
        f := f.(env := Some(if c == FLAG_BASE then BaseEnv else EmptyEnv));
      } else if c == FLAG_NEW_ENV {
        f := f.(newEnv := true);
      } else if c == FLAG_CALLBACKS {
        f := f.(callbacks := true);
      } else if c == FLAG_CANCELABLE {
        f := f.(cancelable := true);
      } else if c == FLAG_NO_RESULT {
        f := f.(noResult := true);
      } else if c == FLAG_RAW {
        f := f.(raw := true);
      } else {
        return Failure(UnrecognizedFlag(c));
      }
      i := i + 1;
    }
    assert flags[i..] == [];
    if f.env.None? {
      f := f.(env := Some(GlobalEnv));
    }
    r := Success(f);
  }

  // ---------------------------------------------------------------------
  // Eval replies

  const PARSE_NULL: nat := 0
  const PARSE_OK: nat := 1
  const PARSE_INCOMPLETE: nat := 2
  const PARSE_ERROR: nat := 3
  const PARSE_EOF: nat := 4

  const NULL_TEXT: seq<byte> := Ascii("NULL")
  const OK_TEXT: seq<byte> := Ascii("OK")
  const INCOMPLETE_TEXT: seq<byte> := Ascii("INCOMPLETE")
  const ERROR_TEXT: seq<byte> := Ascii("ERROR")
  const EOF_TEXT: seq<byte> := Ascii("EOF")

  /** The parse-status switch: a name for the five known codes, the number otherwise. */
  function ParseStatusJson(ps: nat): (j: Json)
    ensures ps <= PARSE_EOF ==> j.Str?
    ensures ps > PARSE_EOF ==> j == Num(ps)
  {
    if ps == PARSE_NULL then Str(NULL_TEXT)
    else if ps == PARSE_OK then Str(OK_TEXT)
    else if ps == PARSE_INCOMPLETE then Str(INCOMPLETE_TEXT)
    else if ps == PARSE_ERROR then Str(ERROR_TEXT)
    else if ps == PARSE_EOF then Str(EOF_TEXT)
    else Num(ps)
  }

  /** How a client reads the parse status back. */
  function StatusOfJson(j: Json): Option<nat>
  {
    match j
    case Str(s) =>
      if s == NULL_TEXT then Some(PARSE_NULL)
      else if s == OK_TEXT then Some(PARSE_OK)
      else if s == INCOMPLETE_TEXT then Some(PARSE_INCOMPLETE)
      else if s == ERROR_TEXT then Some(PARSE_ERROR)
      else if s == EOF_TEXT then Some(PARSE_EOF)
      else None
    case Num(n) => if n > PARSE_EOF then Some(n) else None
    case _ => None
  }

  /** Every parse status is reported so that it can be read back; distinct statuses are distinguishable. */
  lemma ParseStatusRoundTrip(ps: nat)
    ensures StatusOfJson(ParseStatusJson(ps)) == Some(ps)
  {
    assert |NULL_TEXT| == 4 && |OK_TEXT| == 2 && |INCOMPLETE_TEXT| == 10 && |ERROR_TEXT| == 5 && |EOF_TEXT| == 3;
  }

  /** An R value the evaluator returned; only the marshalling functions look inside. */
  datatype RValue = RValue(handle: nat)

  /** The last of the results of `r_try_eval`, or the empty result when there were none. */
  datatype EvalResult = EvalResult(
    hasError: bool, error: seq<byte>, hasValue: bool, value: RValue, isCanceled: bool)

  /** The arguments and trailing blob of a reply. */
  datatype Reply = Reply(args: seq<Json>, blob: seq<byte>)

  /**
    The reply to an eval request. The value is marshalled first (to JSON, or
    to a blob for `r`, and not at all for `0`); a marshalling error is fatal
    even for a canceled eval. A canceled eval replies `[null]` with no blob,
    any other `[parse status, error, value]` with the blob.
   */
  function EvalReply(
      flags: EvalFlags, status: nat, result: EvalResult,
      toJson: RValue -> Option<Json>, toBlob: RValue -> Option<seq<byte>>): (r: Result<Reply, Fatal>)
  {
    var marshal := result.hasValue && !flags.noResult;
    if marshal && flags.raw && toBlob(result.value).None? then Failure(MarshalFailed)
    else if marshal && !flags.raw && toJson(result.value).None? then Failure(MarshalFailed)
    else
      var error := if result.hasError then Str(result.error) else Null;
      var value := if marshal && !flags.raw then toJson(result.value).value else Null;
      var blob := if marshal && flags.raw then toBlob(result.value).value else [];
      if result.isCanceled then Success(Reply([Null], []))
      else Success(Reply([ParseStatusJson(status), error, value], blob))
  }

  /** What a client learns from an eval reply. */
  datatype EvalAnswer =
    | Canceled
    | Completed(status: nat, error: Option<seq<byte>>, value: Option<Json>, blob: seq<byte>)
    | Garbled

  /** The client's reading of an eval reply. */
  function DecodeEvalReply(r: Reply): EvalAnswer
  {
    if r.args == [Null] && r.blob == [] then Canceled
    else if |r.args| == 3 && StatusOfJson(r.args[0]).Some? && (r.args[1].Null? || r.args[1].Str?) then
      Completed(
        StatusOfJson(r.args[0]).value,
        if r.args[1].Str? then Some(r.args[1].s) else None,
        if r.args[2].Null? then None else Some(r.args[2]),
        r.blob)
    else Garbled
  }

  /**
    The reply carries what the evaluation produced: a client tells a canceled
    eval from a finished one, and recovers the parse status, the error text,
    and the marshalled value (as JSON or as the blob, and neither for `0`).
   */
  lemma EvalReplyDecodes(
      flags: EvalFlags, status: nat, result: EvalResult,
      toJson: RValue -> Option<Json>, toBlob: RValue -> Option<seq<byte>>)
    requires toJson(result.value) != Some(Null)
    ensures var r := EvalReply(flags, status, result, toJson, toBlob);
      var marshal := result.hasValue && !flags.noResult;
      && (r.Failure? <==> marshal && (if flags.raw then toBlob(result.value).None? else toJson(result.value).None?))
      && (r.Success? && result.isCanceled ==> DecodeEvalReply(r.value) == Canceled)
      && (r.Success? && !result.isCanceled ==>
            DecodeEvalReply(r.value) == Completed(
              status,
              if result.hasError then Some(result.error) else None,
              if marshal && !flags.raw then toJson(result.value) else None,
              if marshal && flags.raw then toBlob(result.value).value else []))
  {
    ParseStatusRoundTrip(status);
  }

  // ---------------------------------------------------------------------
  // Answers to blocking callbacks

  /**
    `ShowMessageBox`: the single string argument maps `N` to -1 (no), `C` to
    0 (cancel), and `Y` and `O` to 1 (yes); anything else is fatal.
   */
  function MessageBoxAnswer(args: seq<Json>): (r: Result<int, Fatal>)
    ensures r.Success? ==> -1 <= r.value <= 1
    ensures r.Success? <==>
      (|args| == 1 && args[0] in {Str(Ascii("N")), Str(Ascii("C")), Str(Ascii("Y")), Str(Ascii("O"))})
    ensures !(|args| == 1 && args[0].Str?) ==> r == Failure(MessageBoxNotString)
  {
    if |args| != 1 || !args[0].Str? then Failure(MessageBoxNotString)
    else if args[0].s == Ascii("N") then Success(-1)
    else if args[0].s == Ascii("C") then Success(0)
    else if args[0].s == Ascii("Y") then Success(1)
    else if args[0].s == Ascii("O") then Success(1)
    else Failure(MessageBoxBadLetter)
  }

  /** Each answer a client can give yields the button it names. */
  lemma MessageBoxLetters()
    ensures MessageBoxAnswer([Str(Ascii("N"))]) == Success(-1)
    ensures MessageBoxAnswer([Str(Ascii("C"))]) == Success(0)
    ensures MessageBoxAnswer([Str(Ascii("Y"))]) == Success(1)
    ensures MessageBoxAnswer([Str(Ascii("O"))]) == Success(1)
    ensures MessageBoxAnswer([Str(Ascii("n"))]) == Failure(MessageBoxBadLetter)
  {
    // the letters differ in their one byte
    assert Ascii("N")[0] == 78 && Ascii("C")[0] == 67 && Ascii("Y")[0] == 89;
    assert Ascii("O")[0] == 79 && Ascii("n")[0] == 110;
  }

  /** What one `?>` reply asks `R_ReadConsole` to do. */
  datatype ConsoleAnswer = EndOfInput | Overflow | Line(text: seq<byte>)

  /**
    `R_ReadConsole`'s reading of a reply for a buffer of `len` bytes: null is
    end of input, a string that leaves no room for the terminator asks for a
    retry, a shorter one is the line.
   */
  function ConsoleAnswerOf(args: seq<Json>, len: nat): (r: Result<ConsoleAnswer, Fatal>)
    ensures |args| != 1 ==> r == Failure(ReadConsoleArity)
    ensures r.Success? ==> |args| == 1 && (args[0].Null? || args[0].Str?)
    ensures r == Success(EndOfInput) <==> args == [Null]
    ensures r == Success(Overflow) <==> |args| == 1 && args[0].Str? && |args[0].s| >= len
    ensures r.Success? && r.value.Line? ==> args == [Str(r.value.text)] && |r.value.text| < len
  {
    if |args| != 1 then Failure(ReadConsoleArity)
    else if args[0].Null? then Success(EndOfInput)
    else if !args[0].Str? then Failure(ReadConsoleNotString)
    else if |args[0].s| >= len then Success(Overflow)
    else Success(Line(args[0].s))
  }

  /** The retry reason sent with a repeated `?>` request. */
  const BUFFER_OVERFLOW: seq<byte> := Ascii("BUFFER_OVERFLOW")

  // ---------------------------------------------------------------------
  // Blob handles

  const DOUBLE_MANTISSA_LIMIT: nat := 0x20_0000_0000_0000

  /**
    Whether an unsigned integer survives conversion to an IEEE double and
    back: it is below 2^53, or it is even and its half survives.
   */
  predicate ExactInDouble(n: nat)
    decreases n
  {
    n < DOUBLE_MANTISSA_LIMIT || (n % 2 == 0 && ExactInDouble(n / 2))
  }

  /** Every handle up to 2^53 survives the check. */
  lemma SmallHandlesExact(n: nat)
    requires n <= DOUBLE_MANTISSA_LIMIT
    ensures ExactInDouble(n)
  {
    if n == DOUBLE_MANTISSA_LIMIT {
      assert ExactInDouble(n / 2);
    }
  }

  /** The first handle that fails the check is 2^53 + 1. */
  lemma FirstInexactHandle()
    ensures !ExactInDouble(DOUBLE_MANTISSA_LIMIT + 1)
  {
  }
}
