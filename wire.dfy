/**
  The wire format of one protocol message (src/message.h, src/message.cpp).

  A payload is a 16-byte header holding two little-endian u64 fields, `id`
  and `request_id`, followed by a NUL-terminated name, NUL-terminated JSON
  text, and a trailing blob that runs to the end of the payload. A parsed
  message keeps the payload and three offsets into it.
 */
module Wire {
  import opened Wrappers
  import opened Bytes
  import opened Json

  const U64_LIMIT: nat := 0x1_0000_0000_0000_0000

  /** `request_marker`: the largest u64, the request id of an outgoing request. */
  const REQUEST_MARKER: nat := U64_LIMIT - 1

  /** `sizeof(message_repr)`: the two u64 ids. */
  const HEADER_SIZE: nat := 16

  datatype RawMessage = RawMessage(
    id: nat,
    requestId: nat,
    payload: seq<byte>,
    nameOffset: nat,
    jsonOffset: nat,
    blobOffset: nat)

  /** A message whose offsets lie inside (or at the end of) its payload. */
  type Message = m: RawMessage |
    && m.nameOffset <= |m.payload|
    && m.jsonOffset <= |m.payload|
    && m.blobOffset <= |m.payload|
    witness RawMessage(0, 0, [], 0, 0, 0)

  /** A default-constructed message: both ids 0, an empty payload. */
  function DefaultMessage(): (m: Message)
    ensures m.id == 0 && m.requestId == 0
    ensures IsNotification(m) && !IsRequest(m) && !IsResponse(m)
    ensures Name(m) == [] && JsonText(m) == [] && Blob(m) == []
  {
    var m: Message := RawMessage(0, 0, [], 0, 0, 0);
    assert |Blob(m)| == 0;
    m
  }

  predicate IsNotification(m: Message)
  {
    m.requestId == 0
  }

  predicate IsRequest(m: Message)
  {
    m.requestId == REQUEST_MARKER
  }

  predicate IsResponse(m: Message)
  {
    !IsNotification(m) && !IsRequest(m)
  }

  datatype Kind = Notification | Request | Response

  /** The kind of a message, derived from its request id alone. */
  function KindOf(m: Message): (k: Kind)
    ensures k == Notification <==> m.requestId == 0
    ensures k == Request <==> m.requestId == REQUEST_MARKER
    ensures k == Response <==> m.requestId != 0 && m.requestId != REQUEST_MARKER
  {
    if IsNotification(m) then Notification
    else if IsRequest(m) then Request
    else Response
  }

  /** Every message is exactly one of notification, request and response. */
  lemma ExactlyOneKind(m: Message)
    ensures IsNotification(m) || IsRequest(m) || IsResponse(m)
    ensures !(IsNotification(m) && IsRequest(m))
    ensures !(IsNotification(m) && IsResponse(m))
    ensures !(IsRequest(m) && IsResponse(m))
  {
  }

  /** `k` bytes of 0xff. */
  function AllOnes(k: nat): (r: seq<byte>)
    ensures |r| == k
    ensures forall i | 0 <= i < k :: r[i] == 255
  {
    if k == 0 then [] else [255] + AllOnes(k - 1)
  }

  /** The marker is the largest u64, all ones in its eight little-endian bytes. */
  lemma RequestMarkerIsAllOnes()
    ensures ToLittleEndian(REQUEST_MARKER, 8) == AllOnes(8)
    ensures REQUEST_MARKER != 0
  {
    assert Pow256(8) == U64_LIMIT;
    LargestIsAllOnes(8);
  }

  lemma {:induction false} LargestIsAllOnes(k: nat)
    ensures ToLittleEndian(Pow256(k) - 1, k) == AllOnes(k)
  {
    if k > 0 {
      var p := Pow256(k - 1);
      assert Pow256(k) == 256 * p;
      assert (256 * p - 1) % 256 == 255 && (256 * p - 1) / 256 == p - 1;
      LargestIsAllOnes(k - 1);
    }
  }

  /** `name()`: the NUL-terminated string at the name offset. */
  function Name(m: Message): seq<byte>
  {
    CStringAt(m.payload, m.nameOffset)
  }

  /** `json_text()`: the NUL-terminated string at the JSON offset. */
  function JsonText(m: Message): seq<byte>
  {
    CStringAt(m.payload, m.jsonOffset)
  }

  /** `blob_size()`: from the blob offset to the end of the payload. */
  function BlobSize(m: Message): (n: nat)
    ensures n + m.blobOffset == |m.payload|
  {
    |m.payload| - m.blobOffset
  }

  /** `blob()`: the payload suffix from the blob offset. */
  function Blob(m: Message): (b: seq<byte>)
    ensures |b| == BlobSize(m)
    ensures m.payload == m.payload[..m.blobOffset] + b
  {
    m.payload[m.blobOffset..]
  }

  /** What `parse` reports before terminating the process. */
  datatype ParseError =
    | MissingIds
    | MissingName
    | MissingNameTerminator
    | MissingJson
    | MissingJsonTerminator

  /**
    The layout `parse` guarantees: the header decodes to the ids, the name
    starts right after it, and the name and the JSON text are NUL-terminated
    strings that follow one another, the blob starting after the second NUL.
   */
  ghost predicate WellFormed(m: Message)
  {
    && |m.payload| >= HEADER_SIZE
    && m.id == LittleEndian(m.payload[..8])
    && m.requestId == LittleEndian(m.payload[8..HEADER_SIZE])
    && m.nameOffset == HEADER_SIZE
    && HEADER_SIZE < m.jsonOffset < m.blobOffset
    && m.payload[m.jsonOffset - 1] == NUL && NoNul(m.payload[HEADER_SIZE..m.jsonOffset - 1])
    && m.payload[m.blobOffset - 1] == NUL && NoNul(m.payload[m.jsonOffset..m.blobOffset - 1])
  }

  /** `message::parse`: validate the layout and split the payload into offsets. */
  function Parse(payload: seq<byte>): (r: Result<Message, ParseError>)
    ensures |payload| < HEADER_SIZE ==> r == Failure(MissingIds)
    ensures |payload| == HEADER_SIZE ==> r == Failure(MissingName)
    ensures r.Success? ==> WellFormed(r.value) && r.value.payload == payload
  {
    if |payload| < HEADER_SIZE then Failure(MissingIds)
    else if HEADER_SIZE >= |payload| then Failure(MissingName)
    else match FindNul(payload, HEADER_SIZE)
      case None => Failure(MissingNameTerminator)
      case Some(nameEnd) =>
        if nameEnd + 1 >= |payload| then Failure(MissingJson)
        else match FindNul(payload, nameEnd + 1)
          case None => Failure(MissingJsonTerminator)
          case Some(jsonEnd) =>
            Success(RawMessage(
              LittleEndian(payload[..8]), LittleEndian(payload[8..HEADER_SIZE]), payload,
              HEADER_SIZE, nameEnd + 1, jsonEnd + 1))
  }

  /**
    A name that runs to the end of the payload has no terminator, and a
    name whose terminator is the last byte leaves no room for the JSON text.
   */
  lemma ParseMissingTerminators(payload: seq<byte>)
    ensures |payload| > HEADER_SIZE && NoNul(payload[HEADER_SIZE..]) ==> Parse(payload) == Failure(MissingNameTerminator)
    ensures Parse(payload) == Failure(MissingJson) <==>
              (exists j | HEADER_SIZE <= j < |payload| ::
                 j == |payload| - 1 && payload[j] == NUL && NoNul(payload[HEADER_SIZE..j]))
  {
    if |payload| > HEADER_SIZE {
      match FindNul(payload, HEADER_SIZE)
      case None =>
      case Some(nameEnd) =>
        assert payload[nameEnd] == NUL && NoNul(payload[HEADER_SIZE..nameEnd]);
    }
  }

  /** The accessors of a well-formed message return the name, the JSON text and the blob that its layout delimits. */
  lemma WellFormedFields(m: Message)
    requires WellFormed(m)
    ensures Name(m) == m.payload[HEADER_SIZE..m.jsonOffset - 1]
    ensures JsonText(m) == m.payload[m.jsonOffset..m.blobOffset - 1]
    ensures Blob(m) == m.payload[m.blobOffset..]
  {
    CStringPrefix(m.payload, HEADER_SIZE, m.payload[HEADER_SIZE..m.jsonOffset - 1]);
    CStringPrefix(m.payload, m.jsonOffset, m.payload[m.jsonOffset..m.blobOffset - 1]);
  }

  /** On success the accessors return the name, the JSON text and the blob that the layout delimits. */
  lemma ParsedFields(payload: seq<byte>)
    requires Parse(payload).Success?
    ensures var m := Parse(payload).value;
      && Name(m) == payload[HEADER_SIZE..m.jsonOffset - 1]
      && JsonText(m) == payload[m.jsonOffset..m.blobOffset - 1]
      && Blob(m) == payload[m.blobOffset..]
  {
    WellFormedFields(Parse(payload).value);
  }

  /** Parsing succeeds exactly when two NULs follow the header. */
  lemma ParseSucceedsIffTwoTerminators(payload: seq<byte>)
    ensures Parse(payload).Success? <==>
      exists i, j | HEADER_SIZE <= i < j < |payload| :: payload[i] == NUL && payload[j] == NUL
  {
    if exists i, j | HEADER_SIZE <= i < j < |payload| :: payload[i] == NUL && payload[j] == NUL {
      var i, j :| HEADER_SIZE <= i < j < |payload| && payload[i] == NUL && payload[j] == NUL;
      FindNulNoLater(payload, HEADER_SIZE, i);
      var n := FindNul(payload, HEADER_SIZE).value;
      FindNulNoLater(payload, n + 1, j);
    }
  }

  /** The payload holding the given fields, laid out as `message_repr` followed by the data. */
  function Encode(id: nat, requestId: nat, name: seq<byte>, json: seq<byte>, blob: seq<byte>): seq<byte>
  {
    ToLittleEndian(id, 8) + ToLittleEndian(requestId, 8) + name + [NUL] + json + [NUL] + blob
  }

  /** Where each field sits in an encoded payload. */
  lemma EncodeLayout(id: nat, requestId: nat, name: seq<byte>, json: seq<byte>, blob: seq<byte>)
    ensures var p := Encode(id, requestId, name, json, blob);
      var nameEnd := HEADER_SIZE + |name|;
      var jsonEnd := nameEnd + 1 + |json|;
      && |p| == jsonEnd + 1 + |blob|
      && p[..8] == ToLittleEndian(id, 8) && p[8..HEADER_SIZE] == ToLittleEndian(requestId, 8)
      && p[HEADER_SIZE..nameEnd] == name && p[nameEnd] == NUL
      && p[nameEnd + 1..jsonEnd] == json && p[jsonEnd] == NUL
      && p[jsonEnd + 1..] == blob
  {
    var header := ToLittleEndian(id, 8) + ToLittleEndian(requestId, 8);
    var withName := header + name + [NUL];
    var withJson := withName + json + [NUL];
    assert Encode(id, requestId, name, json, blob) == withJson + blob;
    ConcatParts(header, name);
    ConcatParts(withName, json);
    ConcatParts(withJson, blob);
    ConcatParts(ToLittleEndian(id, 8), ToLittleEndian(requestId, 8));
  }

  /** The two halves of a concatenation can be sliced back out of it. */
  lemma ConcatParts(a: seq<byte>, b: seq<byte>)
    ensures (a + b)[..|a|] == a && (a + b)[|a|..] == b
    ensures forall c: seq<byte> {:trigger a + b + c} :: (a + b + c)[|a|..|a| + |b|] == b && (a + b + c)[..|a|] == a
  {
    forall c: seq<byte> ensures (a + b + c)[|a|..|a| + |b|] == b && (a + b + c)[..|a|] == a {
      assert a + b + c == a + (b + c);
    }
  }

  /** Parsing an encoded message gives back the five fields it was built from. */
  lemma ParseEncode(id: nat, requestId: nat, name: seq<byte>, json: seq<byte>, blob: seq<byte>)
    requires id < U64_LIMIT && requestId < U64_LIMIT
    requires NoNul(name) && NoNul(json)
    ensures var r := Parse(Encode(id, requestId, name, json, blob));
      && r.Success?
      && r.value.id == id && r.value.requestId == requestId
      && Name(r.value) == name && JsonText(r.value) == json && Blob(r.value) == blob
  {
    var p := Encode(id, requestId, name, json, blob);
    EncodeLayout(id, requestId, name, json, blob);
    assert Pow256(8) == U64_LIMIT;
    ReadWrittenLittleEndian(id, 8);
    ReadWrittenLittleEndian(requestId, 8);
    var nameEnd := HEADER_SIZE + |name|;
    FindFirstNul(p, HEADER_SIZE, nameEnd);
    FindFirstNul(p, nameEnd + 1, nameEnd + 1 + |json|);
    ParsedFields(p);
  }

  /** `memchr` stops at the first NUL: one that only non-NUL bytes precede. */
  lemma FindFirstNul(s: seq<byte>, from: nat, j: nat)
    requires from <= j < |s| && s[j] == NUL && NoNul(s[from..j])
    ensures FindNul(s, from) == Some(j)
    decreases j - from
  {
    if from < j {
      assert s[from] == s[from..j][0];
      assert s[from + 1..j] == s[from..j][1..];
      FindFirstNul(s, from + 1, j);
    }
  }

  /** Parsing then re-encoding the fields gives back the payload. */
  lemma EncodeParsed(payload: seq<byte>)
    requires Parse(payload).Success?
    ensures var m := Parse(payload).value;
      Encode(m.id, m.requestId, Name(m), JsonText(m), Blob(m)) == payload
  {
    EncodeWellFormed(Parse(payload).value);
  }

  /** A well-formed message is the encoding of its own fields. */
  lemma EncodeWellFormed(m: Message)
    requires WellFormed(m)
    ensures Encode(m.id, m.requestId, Name(m), JsonText(m), Blob(m)) == m.payload
  {
    WellFormedFields(m);
    Reassemble(m.payload, m.jsonOffset, m.blobOffset);
  }

  /** A payload is its header, its two terminated strings and what follows them, put back together. */
  lemma Reassemble(s: seq<byte>, j: nat, b: nat)
    requires HEADER_SIZE < j < b <= |s| && s[j - 1] == NUL && s[b - 1] == NUL
    ensures Encode(LittleEndian(s[..8]), LittleEndian(s[8..HEADER_SIZE]), s[HEADER_SIZE..j - 1], s[j..b - 1], s[b..]) == s
  {
    WriteReadLittleEndian(s[..8]);
    WriteReadLittleEndian(s[8..HEADER_SIZE]);
    PrefixGrows(s, 8, HEADER_SIZE);
    PrefixGrows(s, HEADER_SIZE, j - 1);
    PrefixGrows(s, j - 1, j);
    assert s[j - 1..j] == [NUL];
    PrefixGrows(s, j, b - 1);
    PrefixGrows(s, b - 1, b);
    assert s[b - 1..b] == [NUL];
    PrefixGrows(s, b, |s|);
  }

  /** A prefix of `s` grows by the slice that follows it. */
  lemma PrefixGrows(s: seq<byte>, i: nat, j: nat)
    requires i <= j <= |s|
    ensures s[..j] == s[..i] + s[i..j]
  {
  }

  /** `message::json`: the JSON text must parse, and its top-level value must be an array. */
  datatype JsonError = MalformedJson(reason: seq<byte>) | NotAnArray

  function JsonArgs(parse: seq<byte> -> JsonParse, m: Message): (r: Result<seq<Json>, JsonError>)
    ensures r.Success? <==> parse(JsonText(m)).Parsed? && parse(JsonText(m)).value.Array?
    ensures r.Success? ==> parse(JsonText(m)) == Parsed(Array(r.value))
    ensures parse(JsonText(m)).Malformed? ==> r == Failure(MalformedJson(parse(JsonText(m)).reason))
  {
    match parse(JsonText(m))
    case Malformed(reason) => Failure(MalformedJson(reason))
    case Parsed(Array(items)) => Success(items)
    case Parsed(_) => Failure(NotAnArray)
  }
}
