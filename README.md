# R-Host protocol core in Dafny

R-Host is the process that embeds the R interpreter and talks to an IDE over
a binary message protocol on its standard input and output. This project
models the core of that host and proves properties of the model:

- **Wire format** (`Wire`, `Bytes`, `Json`). A message payload is a 16-byte
  header holding the message id and the request id as little-endian u64
  values. A NUL-terminated name follows, then NUL-terminated JSON text, then
  a blob that runs to the end of the payload. `Parse` splits a payload into
  offsets or names the error the host treats as fatal. `Encode` lays a
  message out. The two are proved to be inverses. A request id of 0 marks a
  notification, the largest u64 marks a request, and any other value marks
  a response.
- **Framing** (`Transport`). Each payload is sent after its length as a
  little-endian u32. The receive loop reads frames until a read comes up
  short, then marks the connection closed. Decoding a stream of frames gives
  back the messages in order.
- **Protocol engine** (`Protocol` for the pure decisions, `Host` for the
  state). The `Host.Engine` class holds the file-scope globals of
  `host.cpp`. It models:
  - the blob store and its handle counter;
  - the three-state response slot;
  - the eval queue, the eval stack and the cancellation state;
  - the callback flags;
  - every message sent, in `outbox`.

  Its methods are the handlers:
  - message dispatch;
  - blob requests;
  - cancellation;
  - eval requests, with their flag parsing, the `before`/`after` hooks and
    the reply;
  - the wait for a response, with its correlation checks;
  - `CallBack`, `R_ReadConsole` and `ShowMessageBox`.
- **Plot history** (`Plots`). This is the plot list of the IDE graphics
  device. Its cursor points at a plot, or past the end only when there are
  no plots. Each plot has a pending-render flag.
- **Helpers** (`Util`, `FlagsEnum`, `Log`):
  - the cleanup guard that runs at most once;
  - the guard that puts a variable back on scope exit;
  - the order-preserving `append`;
  - the flag-enumeration operators;
  - the clamped log indent and the tabs a log record gets;
  - the CR LF conversion of the fatal-error text;
  - the log and dump file names.

Several inputs are parameters of the model rather than computed by it:

- Incoming messages are a sequence `arrivals`. A wait consumes one message
  at a time. When the sequence is exhausted, the connection is closed.
- The R evaluator is a parameter `evaluate: Message -> EvalOutcome`. It says
  whether `before` runs, how many messages arrive during the evaluation, the
  parse status and the result.
- The JSON parser (`parseJson`) and the value marshalling (`toJson`,
  `toBlob`) are function-valued constants of the engine.
- Whether each write to the output handle is accepted is an argument of
  `SendMessage`.
- The render-timeout clock is the argument `timeoutElapsed` of
  `RenderRequest`.
- What a redraw of a stored plot sends to the device is a sequence of
  `DeviceCall`s: page starts and mode changes.
- Whether a prompt is a browser prompt, and whether an auto-step applies,
  are arguments of `ReadConsole`.

Where the code and its design description disagree, the model follows the
code:

- `message_received` decides by name first and looks at the request id
  only for names it does not recognise. An eval request is therefore queued
  even when its request id makes it a response (`Protocol.NameBeforeKind`).
- A response is refused only while the slot is `UNEXPECTED`. The check that
  the slot is not already `RECEIVED` is a debug assertion. In the build
  modelled here, a second response overwrites the first.
- Parsing has five distinct errors, in the code's order: missing IDs,
  missing name, missing name terminator, missing JSON, and missing JSON
  terminator. A payload of exactly 16 bytes is "missing name". A payload
  whose name terminator is its last byte is "missing JSON". No hex dump of
  the payload is made before the error.

## Model

| member | source | states |
|---|---|---|
| Bytes.ReadWrittenLittleEndian | src/message.h:9-12 | Reading back the k little-endian bytes written for any number below 256^k gives that number. |
| Bytes.WriteReadLittleEndian | src/message.h:9-12 | Any k bytes are the little-endian encoding of the number they read as, so the header fields lose nothing. |
| Bytes.FindNul | src/message.cpp:22-25 | The `memchr` scan finds the first NUL at or after the start, with no NUL before it. It finds nothing exactly when the rest holds no NUL. |
| Bytes.FindNulNoLater | src/message.cpp:31-34 | If there is a NUL at position i, the scan finds one, at or before i. |
| Bytes.CStringAt | src/message.h:48-50 | The C string at an offset holds no NUL, is a prefix of the bytes there, and is followed by a NUL unless it runs to the end. |
| Bytes.CStringAtNext | src/host.cpp:553 | The C string one byte further into a non-empty C string is that string without its first byte. |
| Bytes.CStringPrefix | src/message.h:76-80 | NUL-free bytes followed by a NUL, or by the end, are exactly the C string read at their offset. |
| Wire.DefaultMessage | src/message.h:18-20 | A default message has id 0 and request id 0. It is a notification, and its name, JSON text and blob are empty. |
| Wire.KindOf | src/message.h:36-46 | A message is a notification iff its request id is 0, a request iff it is the marker, and a response otherwise. |
| Wire.ExactlyOneKind | src/message.h:36-46 | Every message has exactly one of the three kinds. |
| Wire.RequestMarkerIsAllOnes | src/message.h:16 | The request marker is the largest u64. Its 8 bytes are all 0xFF, and it differs from the notification id 0. |
| Wire.LargestIsAllOnes | src/message.h:16 | The largest k-byte number is written as k bytes of 0xFF. |
| Wire.BlobSize | src/message.h:56-58 | The blob size is the payload length minus the blob offset. |
| Wire.Blob | src/message.h:52-62 | The blob is exactly the payload suffix after the blob offset, with the blob size as its length. |
| Wire.Parse | src/message.cpp:6-39 | A payload shorter than 16 bytes is "missing IDs", and one of exactly 16 bytes is "missing name". A success is well formed and keeps the payload. |
| Wire.ParseMissingTerminators | src/message.cpp:21-34 | No NUL after the header gives "missing name terminator". "Missing JSON" happens exactly when the first NUL after the header is the last byte. |
| Wire.ParseSucceedsIffTwoTerminators | src/message.cpp:18-36 | Parsing succeeds iff the payload holds two NULs after the 16-byte header. |
| Wire.WellFormedFields | src/message.h:76-80 | In a well-formed message, the name and JSON offsets delimit NUL-terminated strings, and the blob is the rest of the payload. |
| Wire.ParsedFields | src/message.cpp:21-38 | The name, JSON text and blob of a parsed message are the three slices between and after the two terminators. |
| Wire.EncodeLayout | src/message.h:9-12 | An encoded payload is the id, the request id, the name, a NUL, the JSON text, a NUL and the blob, at the offsets the layout gives. |
| Wire.ParseEncode | src/message.cpp:6-39 | For NUL-free name and JSON and u64 ids, parsing an encoded payload succeeds and returns those five fields. |
| Wire.FindFirstNul | src/message.cpp:22 | When the bytes from the start up to a NUL hold no other NUL, the scan stops at that NUL. |
| Wire.EncodeParsed | src/message.cpp:6-39 | Encoding the fields of any successfully parsed payload gives back that payload byte for byte. |
| Wire.EncodeWellFormed | src/message.h:76-80 | Each well-formed message is the encoding of its own fields. |
| Wire.JsonArgs | src/message.cpp:41-53 | `json()` succeeds exactly when the text parses to an array, and then returns its elements. Malformed text becomes the fatal error carrying the parser's reason. |
| Transport.FrameHeader | src/transport.cpp:112-113 | The prefix is 4 bytes. For payloads below 2^32 it reads back as the payload length. |
| Transport.Receive | src/transport.cpp:61-82 | The messages decoded from a stream are all well formed. Each one used at least 22 bytes of the stream. |
| Transport.ReceiveFrame | src/transport.cpp:64-78 | A well-formed frame in front of a stream contributes its parsed message, followed by whatever the rest of the stream decodes to. |
| Transport.ReceiveStep | src/transport.cpp:64-78 | A stream that starts with a complete frame stops with the parse error when the payload is malformed. Otherwise it yields the message and then the rest of the stream. |
| Transport.ReceiveFrames | src/transport.cpp:61-82 | Frames of parsable payloads followed by a tail decode to the payloads' messages in order, then to the tail's messages. |
| Transport.ReceiveFramesThen | src/transport.cpp:61-82 | The same holds for frames built by appending one after the other onto a tail. |
| Transport.ReceiveExactlyFrames | src/transport.cpp:107-124 | The frames sent for parsable payloads decode to exactly those messages, in order, with no error. |
| Transport.EmptyFrameIsMissingIds | src/transport.cpp:69-76 | A zero-length frame reads no payload and fails with "missing IDs". |
| Transport.ShortPayloadEndsQuietly | src/transport.cpp:70-74 | A frame cut short inside its payload ends the loop without a message and without an error. |
| Transport.FrameLengthWraps | src/transport.cpp:113 | A payload of exactly 2^32 bytes gets the length prefix 0, because the cast to u32 wraps. |
| Transport.EncodedFramesRoundTrip | src/transport.cpp:107-124 | Encoded messages, framed and sent in order, decode to messages with the same ids, request ids, names, JSON texts and blobs, in order, with no error. |
| Transport.Connection.constructor | src/transport.cpp:38-39 | A new connection has the given bytes to read, is connected, and has written nothing. |
| Transport.Connection.SendMessage | src/transport.cpp:107-124 | The output grows by the accepted prefix, then by the payload if that was accepted too. The connection stays up iff both writes are accepted. |
| Transport.Connection.ReadFrame | src/transport.cpp:64-74 | A short read consumes the input, and the stream then decodes to nothing. Otherwise the prefix and exactly the announced number of payload bytes are consumed. |
| Transport.Connection.ReceiveWorker | src/transport.cpp:61-82 | The loop dispatches exactly `Receive` of the input, in order. When the input runs out, the handle is reset. A parse error leaves the connection as it was. |
| Protocol.ResponseName | src/host.cpp:140-141 | The reply name is the request name with its first character replaced by `:`, and has the same length. |
| Protocol.RouteOfMeaning | src/host.cpp:724-755 | Each route is taken exactly for its fixed name, for `?=` names, or, for other names, for the request-id kind: a response is stored and anything else is unrecognised. |
| Protocol.RouteNames | src/host.cpp:730-741 | Blob replies go to `?` names, queued evals have `?=` names, and stored responses are responses. |
| Protocol.FixedNamesAreNotEvalNames | src/host.cpp:726-736 | None of the five fixed names is an eval name, so the routes never overlap. |
| Protocol.NameBeforeKind | src/host.cpp:736-741 | An eval name is queued whatever its request id. Only responses are stored, and notifications and requests never are. |
| Protocol.NameTailOfNonEmptyName | src/host.cpp:553 | For a non-empty name, `msg.name() + 1` compares the name without its first byte. |
| Protocol.CheckResponse | src/host.cpp:549-558 | A reply passes iff its request id is the sent id and its name matches after the first byte. A wrong id is the id-mismatch error. |
| Protocol.ReplyPassesCheck | src/host.cpp:133-146 | A reply built as `respond_to_message` builds it passes the requester's correlation check once sent and parsed. |
| Protocol.EvalRequestFailsCheck | src/host.cpp:553-555 | A message with an eval name never passes the check of a wait for a request that is not an eval, because the compared names differ in their first byte. |
| Protocol.FirstNonCancelable | src/host.cpp:161-162 | The `find_if` result: all entries before it are cancelable, and the one at it, if any, is not. |
| Protocol.QueryInterrupt | src/host.cpp:154-163 | An interrupt applies iff a cancellation is in progress and every stack entry is cancelable. |
| Protocol.NonCancelableShields | src/host.cpp:160-162 | A non-cancelable entry blocks the interrupt, whatever lies below or above it. |
| Protocol.CancelablePushKeeps | src/host.cpp:318-322 | Pushing a cancelable eval leaves the interrupt answer unchanged. |
| Protocol.CancelEffect | src/host.cpp:441-457 | A cancel request makes the requested eval the target iff it sits strictly below the current target, or nothing is being canceled. Otherwise nothing changes. |
| Protocol.CancelEffectFrom | src/host.cpp:443-457 | The same statement for the loop started at any position of the stack. |
| Protocol.CancelOfFinishedEvalIgnored | src/host.cpp:462-465 | A cancel for an id that is not on the stack changes nothing. |
| Protocol.CancelIdempotent | src/host.cpp:441-457 | Repeating a cancel request changes nothing more. |
| Protocol.CancelOnlyWidens | src/host.cpp:446-456 | Once canceling, a request leaves it canceling, and the target only moves towards the bottom of the stack. |
| Protocol.CancelTargetOf | src/host.cpp:428-439 | Anything but one argument is fatal. Null targets the bottom entry, a number targets that id, and anything else is fatal. |
| Protocol.StepFlag | src/host.cpp:276-301 | One character fails iff it is not a flag, or it names a second environment. |
| Protocol.ScanFlags | src/host.cpp:275-302 | The flag loop fails only with "multiple environments" or with an unrecognised character taken from the flags. |
| Protocol.ScanFlagsAccepts | src/host.cpp:275-302 | From any state, the loop succeeds iff every character is a flag and at most one environment is named in all. |
| Protocol.ScanFlagsFields | src/host.cpp:275-302 | On success, each field is its start value or-ed with the presence of its flag. The environment is the first one named. |
| Protocol.StepFlagFields | src/host.cpp:276-298 | One accepted character sets exactly the field it names. |
| Protocol.EvalFlagsMeaning | src/host.cpp:272-306 | Eval flags are accepted iff all are in `B E N @ / 0 r` with at most one environment. Each flag sets its own field, and the environment defaults to global. |
| Protocol.TwoEnvironmentsFatal | src/host.cpp:277-281 | Two environment flags are fatal, whatever else the name holds. |
| Protocol.ParseEvalFlags | src/host.cpp:275-306 | The character loop computes the flags the specification function defines, stopping at the first fatal character. |
| Protocol.ParseStatusJson | src/host.cpp:366-386 | The five known parse statuses become strings, and any other code becomes its number. |
| Protocol.ParseStatusRoundTrip | src/host.cpp:366-386 | Every parse status is reported so that a client reads back the same status. |
| Protocol.EvalReplyDecodes | src/host.cpp:388-412 | Marshalling fails exactly when the requested form cannot be produced. A canceled eval decodes as canceled. Any other eval decodes to its parse status, its error text and its JSON or blob value, and `0` sends no value. |
| Protocol.MessageBoxAnswer | src/host.cpp:790-806 | The answer is one of -1, 0, 1. It succeeds iff the single argument is `N`, `C`, `Y` or `O`. Anything but a single string is the not-a-string error. |
| Protocol.MessageBoxLetters | src/host.cpp:795-806 | `N`, `C`, `Y` and `O` give -1, 0, 1 and 1, and a lower-case letter is fatal. |
| Protocol.ConsoleAnswerOf | src/host.cpp:678-699 | A reply needs one argument. Null is end of input. A string of at least `len` bytes asks for a retry. A shorter string is the line, and anything else is fatal. |
| Protocol.SmallHandlesExact | src/host.cpp:198-201 | Every blob handle up to 2^53 survives the round trip through a double. |
| Protocol.FirstInexactHandle | src/host.cpp:198-201 | The handle 2^53 + 1 does not survive it, so creating it is fatal. |
| Host.Deposit | src/host.cpp:741-751 | A response is stored iff one is expected. Otherwise it is the unexpected-response error. |
| Host.NestedWaitLosesOuterResponse | src/host.cpp:515-519 | As written, a nested wait replaces a stored outer response. The outer wait then takes the inner response and fails the id check. |
| Host.NestedWaitKeepsOuterResponse | src/host.cpp:515-519 | Restoring the whole slot lets the nested wait take its response while the outer one keeps its own, which passes its check. |
| Host.ConsoleResult | src/host.cpp:684-699 | End of input returns no line, and a line returns the line. Halts, interrupts and errors are passed on. |
| Host.Engine.constructor | src/host.cpp:48-91 | The initial globals: callbacks allowed, nothing expected, an empty queue, the stack of the bottom entry, not canceling, handle counter 1, no blobs. |
| Host.Engine.Fail | src/log.cpp:261-266 | `fatal_error` ends the engine with the given reason. |
| Host.Engine.TerminateIfClosed | src/host.cpp:93-105 | A lost connection terminates the engine, and otherwise nothing changes. |
| Host.Engine.Send | src/host.cpp:488-490 | A sent message gets the next message id and is appended to the outbox with the given fields. |
| Host.Engine.SendNotification | src/host.cpp:126-131 | A notification has request id 0 and a `!` name, and is appended to the outbox. |
| Host.Engine.RespondToMessage | src/host.cpp:133-152 | The reply carries the request's id as its request id and the `:` name, and is appended to the outbox. |
| Host.Engine.CreateBlobFrom | src/host.cpp:194-205 | The handle is the previous counter + 1 and was never used. A handle that survives the double round trip stores the blob, and any other is fatal. |
| Host.Engine.CreateBlobRequest | src/host.cpp:188-192 | `CreateBlobHandled`: the counter goes up by one. Then either the blob is stored under the new handle and the reply carries the handle as its only argument, or the handle overflowed, which is fatal, and nothing is stored or sent. |
| Host.Engine.GetBlobInto | src/host.cpp:207-217 | The lookup reports whether the id is present, and copies the stored bytes or leaves the output as it was. |
| Host.Engine.GetBlobRequest | src/host.cpp:219-235 | `GetBlobHandled`: bad JSON, a non-numeric id and an unknown id are each fatal with their own error, and nothing is sent. Otherwise the reply carries exactly the stored bytes as its blob. The store is never changed. |
| Host.Engine.DestroyBlob | src/host.cpp:237-240 | Only the named id is removed. An absent id is ignored. |
| Host.Engine.DestroyBlobsRequest | src/host.cpp:242-256 | `DestroyBlobsHandled`: exactly the numeric ids named are removed. A non-numeric id or bad JSON is fatal. Nothing is sent. |
| Host.Engine.HandleCancel | src/host.cpp:427-466 | `CancelHandled`: bad arguments are fatal and leave the cancellation state as it was. Otherwise the cancellation state becomes the result of the bottom-up scan, which `Protocol.CancelEffect` states in closed form. |
| Host.Engine.Before | src/host.cpp:318-322 | `before` pushes the eval's id and cancelability. |
| Host.Engine.After | src/host.cpp:325-346 | `after` pops exactly the top entry if `before` ran, and stops the cancellation when this eval is its target. |
| Host.Engine.MessageReceived | src/host.cpp:724-755 | Each route does its effect. `!End` terminates. `!/` is `CancelHandled`. The three blob names are `CreateBlobHandled`, `GetBlobHandled` and `DestroyBlobsHandled`. `?=` names join the back of the queue. A response is stored iff one is expected and is fatal otherwise. Anything else is fatal. Only the blob routes touch blobs or send, and only `!/` touches the cancellation state. |
| Host.Engine.ControlMessageReceived | src/host.cpp:726-754 | The non-blob routes of `message_received`, with the same effects, including `CancelHandled` for `!/`, and the same frames. |
| Host.Engine.BlobRequestReceived | src/host.cpp:730-735 | Each blob name has its handler's effect: `CreateBlobHandled`, `GetBlobHandled` or `DestroyBlobsHandled`. |
| Host.Engine.DeliverArrivals | src/transport.cpp:76-78 | Up to n arrivals are dispatched in order. The queue only grows at its back, and the outbox only grows. A response now in the slot was there before or is one of the messages dispatched (`ResponseFrom`). |
| Host.Engine.WaitForEvent | src/host.cpp:528-535 | One arrival is dispatched, or, with none left, the connection is closed. A response now in the slot was there before or is that arrival. |
| Host.Engine.HandleEval | src/host.cpp:258-425 | `EvalHandled`: bad JSON, a non-`[string]` argument list and bad flags are each fatal. Otherwise the eval runs with the parsed flags, the stack is back as it was, one more message is sent, and the reply is as `EvalDone` states. |
| Host.Engine.RunEval | src/host.cpp:308-364 | The evaluation with its hooks leaves the stack as it was and ends as `EvalDone` states. |
| Host.Engine.FinishEval | src/host.cpp:359-424 | The manual `after`, the reply and the final interrupt check. Only a marshalling error is fatal. |
| Host.Engine.SendEvalReply | src/host.cpp:388-412 | The reply is sent iff marshalling succeeds. It goes to the request with the `:` name and carries the reply's arguments and blob. |
| Host.Engine.AwaitResponse | src/host.cpp:496-566 | An answer is a response that arrived during the wait, with the sent id and a matching name. It is taken only once the eval queue is empty, and the slot is restored as saved. An unwind happens only when an interrupt applies. |
| Host.Engine.TakeResponse | src/host.cpp:515-558 | The message taken is exactly the stored response. The saved slot is restored and the correlation check applied. |
| Host.Engine.ServeEval | src/host.cpp:560-561 | A queued eval taken during a wait is handled as `EvalHandled` states: its errors, or its reply and `EvalDone`. An unwind means an interrupt applies. |
| Host.Engine.ServeQueuedEval | src/host.cpp:500-507 | The front of the queue is the message served, and the rest of the queue stays in front of anything that arrives meanwhile. A queued response fails the correlation check. A queued eval is handled as `EvalHandled` states. It either stops, unwinds or makes progress. |
| Host.Engine.WaitStep | src/host.cpp:522-546 | One round of waiting: interrupts are held off while an event is processed, then a lost connection stops the wait and an applicable interrupt unwinds it. |
| Host.Engine.SendRequestAndGetResponse | src/host.cpp:478-566 | As written: the request goes out with the marker. An answer is a message that arrived during the wait, has the sent id and a matching name, and is taken only with the eval queue empty. The answer stays in the response slot. |
| Host.Engine.SendRequestRestoringResponse | src/host.cpp:478-566 | Corrected: the same answer, an arrived message with the same checks, again only with the eval queue empty. The whole slot, including a stored outer response, is put back. |
| Host.Engine.DrainQueue | src/host.cpp:600-616 | The drain loop: the queue ends empty unless the host stops or an eval unwinds. Every eval taken is replied to, in order, except one whose handling stopped the host. |
| Host.Engine.DrainStep | src/host.cpp:601-614 | One pass of the drain: the front of the queue joins the handled evals, and its reply joins the replies in order. |
| Host.Engine.ServeFront | src/host.cpp:604-614 | The front of the queue is taken and handled. While the host runs, the last message sent is its reply. |
| Host.Engine.CallBack | src/host.cpp:576-617 | Nothing happens while interrupts are held off. An applicable interrupt is raised. Otherwise, with callbacks allowed, queued evals are served in arrival order until the queue is empty. Each eval served is answered in the outbox by a reply to its id under its response name, in the same order (`RepliedInOrder`). |
| Host.Engine.AskClient | src/host.cpp:789-790 | The request goes out. An answer is an arrived, correlated reply, and its JSON arguments are returned. The slot is left as it was. |
| Host.Engine.AskConsole | src/host.cpp:673-698 | The `?>` request carries the context, the buffer size, the history flag, the retry reason and the prompt. The result is `ConsoleAnswerOf` the arguments of an arrived reply to that request. A line fits the buffer. |
| Host.Engine.ConsoleLoop | src/host.cpp:672-700 | Overflowing answers are asked again with `BUFFER_OVERFLOW`. A returned line comes from the reply that ended the loop. That reply is the first one or one that arrived meanwhile, and its request id is that of a `?>` request sent from the first one on. Its single argument is the line, or null for end of input, and a line always fits the buffer. |
| Host.Engine.ConsolePrompt | src/host.cpp:672-700 | The first `?>` request has no retry reason. A returned line is the string of an arrived reply to one of the `?>` requests sent by this call, or end of input for a null, and it fits the buffer. |
| Host.Engine.ReadConsole | src/host.cpp:619-702 | Closed connections halt. `!CanceledAll` is sent after a full unwind. A prompt while callbacks are off is an error, or `c` for a browser. Auto-step answers `n`. Otherwise `?>` is sent. The line handed to R is the string the client sent, or none for null, in an arrived reply whose request id is that of a `?>` request this call sent. The line fits the buffer. |
| Host.Engine.ConsoleEntry | src/host.cpp:621-634 | After a full unwind, canceling is cleared, interrupts are allowed again and `!CanceledAll` is sent. A closed connection terminates. |
| Host.Engine.ConsoleInput | src/host.cpp:644-700 | The callback, browser and auto-step cases, and the prompted line taken from the client's reply to this call's `?>` request, exactly as `ReadConsole` states them for a live connection. |
| Host.Engine.ShowMessageBox | src/host.cpp:783-808 | The box is refused while callbacks are off. Otherwise the request carries the context and the text, and the result is the button named by an arrived, correlated answer. |
| Host.Engine.AskButton | src/host.cpp:789-806 | The button request, and the letter mapping of an arrived, correlated answer. |
| Plots.Plot.constructor | src/grdeviceside.cpp:194-199 | A new plot has nothing pending. |
| Plots.Plot.SetPendingRender | src/grdeviceside.cpp:214-217 | The plot is marked as changed. |
| Plots.Plot.Render | src/grdeviceside.cpp:239-260 | Nothing happens with nothing pending. Otherwise one image is sent and the flag is cleared. |
| Plots.PlotHistory.constructor | src/grdeviceside.cpp:312-316 | An empty history that is not replaying. |
| Plots.PlotHistory.PlotCount | src/grdeviceside.cpp:401-403 | It is the number of plots. |
| Plots.PlotHistory.ActivePlotIndex | src/grdeviceside.cpp:405-412 | It is -1 iff there are no plots, and otherwise the position of the active plot, within range. |
| Plots.PlotHistory.MoveNext | src/grdeviceside.cpp:326-334 | It moves one step forward iff a later plot exists. It is a no-op otherwise, including on an empty history. |
| Plots.PlotHistory.MovePrevious | src/grdeviceside.cpp:336-340 | It moves one step back unless at the first plot. |
| Plots.PlotHistory.Append | src/grdeviceside.cpp:359-362 | The plot is added at the end, earlier plots are kept in order, and the new plot becomes active. |
| Plots.PlotHistory.Clear | src/grdeviceside.cpp:364-367 | No plots remain, and the index is -1. |
| Plots.PlotHistory.RemoveActive | src/grdeviceside.cpp:369-378 | Exactly the active plot is removed, and the others keep their order. The follower becomes active, or the new last plot. An empty history is unchanged. |
| Plots.PlotHistory.NewPage | src/grdeviceside.cpp:342-357 | Outside a replay, a changed previous plot is rendered and a fresh plot is appended and made active. During a replay, nothing changes. |
| Plots.PlotHistory.BeginReplay | src/grdeviceside.cpp:93-96 | `replay_mode` sets replaying. |
| Plots.PlotHistory.EndReplay | src/grdeviceside.cpp:98-100 | Leaving `replay_mode` clears replaying. |
| Plots.PlotHistory.Redraw | src/grdeviceside.cpp:548-555 | Replayed device calls add no plots. A mode change marks the active plot pending even during a replay, and nothing is rendered. |
| Plots.PlotHistory.RenderFromSnapshot | src/grdeviceside.cpp:393-399 | The redraw adds no plots and keeps the active plot. Nothing is replaying afterwards. The active plot is pending afterwards iff it was before or the redraw changed the mode, and it is not rendered. |
| Plots.PlotHistory.Resize | src/grdeviceside.cpp:380-391 | A changed active plot is redrawn in replay mode and rendered exactly once, so nothing is pending. An unchanged one is redrawn from its snapshot: it becomes pending iff the redraw changed the mode, and it is not rendered. Without an active plot, nothing happens. |
| Plots.PlotHistory.HistoryNext | src/grdeviceside.cpp:802-805 | `move_next`, then a snapshot redraw of the plot now active. That plot is pending iff it was before or the mode changed, and it is not rendered. No plot is added, and no other plot can change. |
| Plots.PlotHistory.HistoryPrevious | src/grdeviceside.cpp:807-810 | `move_previous`, then a snapshot redraw of the plot now active, with the same flags and frame as `HistoryNext`. |
| Plots.PlotHistory.HistoryRemoveActive | src/grdeviceside.cpp:817-824 | An empty history is left as it is. Otherwise the active plot is removed, and its successor, or the new last plot, becomes active. When plots remain, that plot is redrawn with the same flags as in `HistoryNext`. No other plot changes. |
| Plots.PlotHistory.RenderRequest | src/grdeviceside.cpp:662-671 | The active plot renders iff it is pending and the request is immediate or the timeout has passed. |
| Plots.PlotHistory.SetActivePending | src/grdeviceside.cpp:795-800 | The active plot, if any, is marked as changed, and nothing is rendered. |
| Util.ScopeWarden.constructor | src/util.h:46-48 | A new warden is armed and its action has not run. |
| Util.ScopeWarden.Dismiss | src/util.h:50-52 | Dismissing disarms the warden, so the action never runs. |
| Util.ScopeWarden.Run | src/util.h:54-59 | The action runs once if the warden is armed, and the warden is then disarmed. |
| Util.ScopeWarden.Destroy | src/util.h:61-69 | The destructor runs the action iff the warden is still armed, so the action runs at most once overall. |
| Util.RestoreWarden.constructor | src/util.h:37-39 | The guard saves the variable's value at the point of the macro. |
| Util.RestoreWarden.Dismiss | src/util.h:50-52 | A dismissed guard leaves the variable as it is. |
| Util.RestoreWarden.Exit | src/util.h:37-39 | On scope exit, an armed guard writes back the saved value, whatever was assigned in between. |
| Util.JsonArray.PushBack | src/util.h:169-171 | One value is added at the end. |
| Util.JsonArray.Append | src/util.h:165-177 | The arguments are pushed in order after the existing elements. |
| FlagsEnum.Union | src/util.h:29-30 | A union contains both operands, and is empty iff both are. |
| FlagsEnum.HasFlagUnion | src/util.h:29-31 | A union has a flag iff one of its parts has it. |
| FlagsEnum.HasFlagSelf | src/util.h:31 | Every non-empty set has itself, and the empty set has no flag. |
| Log.IndentAfter | src/log.cpp:201-206 | The indent moves by n but never goes below zero. |
| Log.IndentRoundTrip | src/log.cpp:201-206 | For n ≥ 0, indenting by n and back by -n restores the level. |
| Log.IndentOutThenInDiffers | src/log.cpp:201-206 | Going out first does not round-trip, because the clamp forgets. |
| Log.Logger.constructor | src/log.cpp:146-157 | The log starts at level 0, with the file open or not, and empty. |
| Log.Logger.IndentLog | src/log.cpp:201-206 | `indent_log` moves the level as `IndentAfter` and keeps it non-negative. |
| Log.Logger.Vlogf | src/log.cpp:172-183 | With the file open, a record is written after exactly `indent` tabs. With no file, nothing is written. |
| Log.MessageBoxText | src/log.cpp:229-236 | The loop builds the message with a carriage return inserted before every line feed. |
| Log.CrLfLength | src/log.cpp:229-236 | The text grows by one character per line feed. |
| Log.CrLfPrecedesLf | src/log.cpp:229-236 | Every line feed of the text has a carriage return right before it. |
| Log.DropCrCrLf | src/log.cpp:229-236 | Deleting the carriage return before each line feed gives back the original message. |
| Log.Decimal | src/log.cpp:139 | `std::to_string` gives at least one decimal digit. |
| Log.DecimalRoundTrip | src/log.cpp:139 | The digits read back as the pid they came from. |
| Log.DecimalInjective | src/log.cpp:139 | Different pids give different digits. |
| Log.Pad2 | src/log.cpp:134 | A field below 100 takes exactly two characters. |
| Log.TimestampLength | src/log.cpp:134 | A four-digit year with in-range fields gives a 15-character time stamp. |
| Log.LogFileNames | src/log.cpp:141-143 | The three names are one stem followed by `.log`, `.stack.dmp` and `.full.dmp`. |
| Log.LogFileNamesDistinct | src/log.cpp:141-143 | The three names are different files. |
| Log.StemsDifferByPid | src/log.cpp:137-139 | Hosts started in the same second with the same suffix get different names when their pids differ. |
| Log.StemSuffix | src/log.cpp:119-123 | The stem holds `Microsoft.R.Host_`, then the suffix and `_` only when there is a suffix, then the time stamp. |

## Left out

- The R evaluator is left out: `r_try_eval`, `Rf_onintr`/`interrupt_eval`, `R_ToplevelExec`, `R_WaitEvent`/`R_ProcessEvents`, `Rf_error` and environment creation. The evaluator is the `evaluate` parameter. An interrupt is an `Unwound`/`Interrupted` result, and a raised R error is `RaisedError`.
- `get_context` and the context-chain walk that detects a browser prompt are left out. The context is an argument, and so is the browser test.
- The `R_Srcref` attribute lookup for auto-stepping is left out; the `autoStep` argument stands for its result.
- Threads and mutexes are left out: the detached receive thread, the `is_waiting_for_wm` flag and `unblock_message_loop`. Arrivals are delivered one at a time between engine steps.
- The JSON library (picojson) and R value marshalling (`to_json`, `to_blob`) are left out. They are the engine's function-valued constants.
- JSON numbers are modelled as non-negative integers. The truncating `static_cast<blob_id>` of negative or fractional doubles is not modelled.
- UTF-8 conversion is left out: `to_utf8`, `from_utf8` and `to_utf8_json`. Strings pass through unchanged.
- `log_message`, the `TRACE_JSON` dump and the log calls inside handlers are left out.
- `vsprintf` formatting, `flush_log`, the flush thread, minidumps and the message box are left out. The log models only the written text and the indent.
- The copy that debug builds write to standard error is left out.
- `initialize` in both host.cpp and transport.cpp is left out: the handle duplication and the redirection to the null device. A connection starts from a byte stream.
- `WriteConsoleEx`, `Busy`, `ShowMessage` and `atexit_handler` are left out. They only forward to sending or terminating, outside the protocol state modelled here.
- `YesNoCancel`, `YesNo` and `OkCancel` are the three names `ShowMessageBox` accepts, not separate members.
- `propagate_cancellation` and `with_cancellation` are left out as functions. Their effect is modelled: interrupts are held off, and the callback ends as `Interrupted`.
- The graphics glue in grdeviceside.cpp is left out: drawing primitives, file devices, snapshots and file paths. Of a redraw only its page starts and mode changes are modelled, as `DeviceCall`s, and the `render_empty` fallback of `plot::render_from_snapshot` is left out. The render clock is the `timeoutElapsed` argument.
- FlagsEnum.Flags: an 8-bit underlying integer is modelled. The operators act bit by bit, so the width does not change what is proved.
- Host.Engine.GetBlobRequest requires a non-empty argument array, because the source reads `json[0]` without checking the size.
- Plots.PlotHistory.RenderFromSnapshot, HistoryNext and HistoryPrevious require a non-empty history, because the source reads the active plot without an end check.
- Host.Engine.After requires the top entry to be this eval's when `before` ran. The source only asserts this in debug builds.
- Host.Engine.HandleEval does not model nested evals started by the evaluation itself: the `evaluate` outcome does not call back into the engine. Only arrivals the receive thread delivers meanwhile are modelled.
- Host.Engine.ReadConsole does not state the debug assertion that the stack holds only the bottom entry after a full unwind.
- Host.Engine.AskClient uses the corrected wait `SendRequestRestoringResponse`, so `ReadConsole` and `ShowMessageBox` keep a stored outer response. In the source, `R_ReadConsole` (src/host.cpp:673) and `ShowMessageBox` (src/host.cpp:789) call `send_request_and_get_response` as written, which leaves the answer in the response slot. The as-written wait and its consequence are `SendRequestAndGetResponse` and `Host.NestedWaitLosesOuterResponse` (see Findings).
- Host.Engine.Send treats every write as delivered and never clears `connected`. In the source a failed `fwrite` disconnects (src/transport.cpp:116-123), and the next `terminate_if_closed` ends the host, for example right after a request is sent (src/host.cpp:491). The failed write is modelled only in `Transport.Connection.SendMessage`. In the engine a closed connection shows only when `arrivals` runs out.
- Host.Engine.ServeFront and DrainQueue tie each eval they serve to its reply's id and name only. The reply's arguments are stated by `EvalHandled` and `EvalDone`, which `ServeEval` and `HandleEval` ensure for a single eval.
- Host.Engine.AwaitResponse states the outbox as growing, not message by message, for the messages sent while waiting.
- src/util.cpp, src/main.cpp, src/host.h and the declaration-only headers are not part of this model.

## Findings

| source | as written | input that shows it | evidently intended | confidence | as-written member | corrected member |
|---|---|---|---|---|---|---|
| src/host.cpp:515-519 | A wait that takes the received response restores only the saved state. The response slot keeps the message just taken. | The outer `?>` wait has its response stored. The wait then takes a queued `?=@` eval first, as it must, and that eval opens a message box. The nested wait saves `RECEIVED` and gets its own response, which overwrites the outer one. It then restores `RECEIVED`, and the outer wait takes the inner response. The request id does not match, so the host ends with a fatal error. | A nested wait leaves a stored outer response in place, so each wait takes the reply to its own request. | not executed | Host.NestedWaitLosesOuterResponse | Host.NestedWaitKeepsOuterResponse |
| src/host.cpp:478-566 | `send_request_and_get_response` puts back only the response state. | The same nesting as in the row above. | The whole slot is saved and restored. In this model `Host.Engine.AskClient`, which stands for `R_ReadConsole` and `ShowMessageBox`, uses this version. | not executed | Host.Engine.SendRequestAndGetResponse | Host.Engine.SendRequestRestoringResponse |
