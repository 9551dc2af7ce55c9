/** `mlclient`: the bounded read of a dependency's reply, and the staged decoding and validation of it. */
module MlClient {
  import opened Wrappers
  import opened Whitespace
  import opened GoErrors

  const MAX_RESPONSE_BODY := 0x10_0000

  /**
   What a response body delivers: its bytes, then `io.EOF` or a failure. An eager transport reports the
   end together with the last bytes, others only on the read after them.
   */
  datatype Stream = Stream(data: string, failure: Option<Error>, eager: bool)

  datatype ReadStatus = More | Eof | Failed(cause: Error)

  function EndOf(stream: Stream): ReadStatus {
    if stream.failure.None? then Eof else Failed(stream.failure.value)
  }

  /** An `io.ReadCloser` over a stream; `chunks` bounds the sizes of its next reads, zero included. */
  class Body {
    const stream: Stream
    var position: nat
    var chunks: seq<nat>

    ghost predicate Valid()
      reads this
    {
      position <= |stream.data|
    }

    constructor (stream: Stream, chunks: seq<nat>)
      ensures Valid() && this.stream == stream && position == 0
    {
      this.stream := stream;
      this.position := 0;
      this.chunks := chunks;
    }

    method Read(room: nat) returns (chunk: string, status: ReadStatus)
      requires Valid() && room > 0
      modifies this
      ensures Valid() && |chunk| <= room
      ensures position == old(position) + |chunk| && chunk == stream.data[old(position)..position]
      ensures status != More ==> status == EndOf(stream) && position == |stream.data| && (stream.eager || chunk == "")
      ensures position == |stream.data| && (stream.eager || chunk == "") ==> status != More
      ensures status == More ==> |chunk| > 0 || |chunks| < |old(chunks)|
    {
      var available := |stream.data| - position;
      if available == 0 {
        return "", EndOf(stream);
      }
      var size := if chunks == [] || chunks[0] > available then available else chunks[0];
      if size > room {
        size := room;
      }
      if chunks != [] {
        chunks := chunks[1..];
      }
      chunk := stream.data[position..position + size];
      position := position + size;
      status := if position == |stream.data| && stream.eager then EndOf(stream) else More;
    }
  }

  /** `io.LimitedReader`. */
  class LimitedReader {
    const inner: Body
    var remaining: nat

    constructor (inner: Body, limit: nat)
      ensures this.inner == inner && remaining == limit
    {
      this.inner := inner;
      this.remaining := limit;
    }

    method Read(room: nat) returns (chunk: string, status: ReadStatus)
      requires inner.Valid() && room > 0
      modifies this, inner
      ensures inner.Valid()
      ensures old(remaining) == 0 ==> chunk == "" && status == Eof && unchanged(inner) && remaining == 0
      ensures remaining + |chunk| == old(remaining)
      ensures inner.position == old(inner.position) + |chunk|
      ensures chunk == inner.stream.data[old(inner.position)..inner.position]
      ensures old(remaining) > 0 && status != More ==>
        status == EndOf(inner.stream) && inner.position == |inner.stream.data| && (inner.stream.eager || chunk == "")
      ensures old(remaining) > 0 && inner.position == |inner.stream.data| && (inner.stream.eager || chunk == "") ==>
        status != More
      ensures status == More ==> |chunk| > 0 || |inner.chunks| < |old(inner.chunks)|
    {
      if remaining == 0 {
        return "", Eof;
      }
      chunk, status := inner.Read(if room > remaining then remaining else room);
      remaining := remaining - |chunk|;
    }
  }

  function Min(a: nat, b: nat): nat { if a < b then a else b }

  /**
   `io.ReadAll` over a limited reader, for any growth of its buffer: everything up to the limit, and the
   stream's failure exactly when the failure is reported before the limit stops the reading.
   */
  method ReadAll(limited: LimitedReader) returns (buffer: string, err: Option<Error>)
    requires limited.inner.Valid() && limited.inner.position == 0
    modifies limited, limited.inner
    ensures var stream, limit := limited.inner.stream, old(limited.remaining);
      && buffer == stream.data[..Min(|stream.data|, limit)]
      && limited.inner.position == |buffer|
      && err ==
           if |stream.data| < limit || (|stream.data| == limit && stream.eager && limit > 0) then stream.failure
           else None
  {
    var body, limit := limited.inner, limited.remaining;
    var capacity := 512;
    buffer := "";
    while true
      invariant body.Valid() && body == limited.inner
      invariant body.position == |buffer| && buffer == body.stream.data[..|buffer|]
      invariant limited.remaining + |buffer| == limit && |buffer| < capacity
      invariant buffer != "" && |buffer| == |body.stream.data| ==> !body.stream.eager
      decreases |body.stream.data| - body.position, |body.chunks|
    {
      var chunk, status := limited.Read(capacity - |buffer|);
      buffer := buffer + chunk;
      if status != More {
        err := if status == Eof then None else Some(status.cause);
        return;
      }
      if |buffer| >= capacity {
        capacity :| capacity > |buffer|;
      }
    }
  }

  predicate Oversize(stream: Stream) {
    |stream.data| > MAX_RESPONSE_BODY
  }

  /** The failure of the stream is seen before the byte that makes the body too long ends the reading. */
  predicate FailureSeen(stream: Stream) {
    && stream.failure.Some?
    && (|stream.data| <= MAX_RESPONSE_BODY || (|stream.data| == MAX_RESPONSE_BODY + 1 && stream.eager))
  }

  /** What `readBoundedBody` returns for a stream, however it is chunked. */
  function BoundedBody(stream: Stream): Result<string, Error> {
    if FailureSeen(stream) then Failure(Wrap(stream.failure.value))
    else if Oversize(stream) then Failure(Wrap(Sentinel(InvalidResponse)))
    else Success(stream.data)
  }

  method ReadBoundedBody(reader: Body) returns (r: Result<string, Error>)
    requires reader.Valid() && reader.position == 0
    modifies reader
    ensures r == BoundedBody(reader.stream)
    ensures reader.position <= MAX_RESPONSE_BODY + 1
  {
    var limited := new LimitedReader(reader, MAX_RESPONSE_BODY + 1);
    var body, err := ReadAll(limited);
    if err.Some? {
      return Failure(Wrap(err.value));
    }
    if |body| > MAX_RESPONSE_BODY {
      return Failure(Wrap(Sentinel(InvalidResponse)));
    }
    assert body == reader.stream.data;
    return Success(body);
  }

  // ---------------------------------------------------------------------------------------------
  // Decoding and validation
  // ---------------------------------------------------------------------------------------------

  datatype ModelInfo = ModelInfo(
    service: string, version: string, status: string, mode: string,
    embeddingModel: Option<string>, rerankerModel: Option<string>,
    pythonVersion: string, environment: string)

  /** One JSON value met by the decoder, with what becomes of it as a `ModelInfo`; or input that is no JSON. */
  datatype Item = Value(asInfo: Result<ModelInfo, Error>) | Malformed(cause: Error)

  function FirstInfo(items: seq<Item>): Result<ModelInfo, Error> {
    if items == [] then Failure(Sentinel(EndOfFile))
    else match items[0]
      case Value(info) => info
      case Malformed(cause) => Failure(cause)
  }

  /** `json.Decoder`: the items still ahead of it; past the last one it answers `io.EOF`. */
  class Decoder {
    var ahead: seq<Item>

    constructor (items: seq<Item>)
      ensures ahead == items
    {
      ahead := items;
    }

    /** `Decode` into a `ModelInfo` with unknown fields disallowed. */
    method DecodeInfo() returns (r: Result<ModelInfo, Error>)
      modifies this
      ensures r == FirstInfo(old(ahead))
      ensures ahead == if old(ahead) == [] then [] else old(ahead)[1..]
    {
      r := FirstInfo(ahead);
      if ahead != [] {
        ahead := ahead[1..];
      }
    }

    /** `Decode` into an `any`. */
    method DecodeAny() returns (err: Option<Error>)
      modifies this
      ensures err == if old(ahead) == [] then Some(Sentinel(EndOfFile))
                     else if old(ahead)[0].Malformed? then Some(old(ahead)[0].cause) else None
    {
      if ahead == [] {
        return Some(Sentinel(EndOfFile));
      }
      err := if ahead[0].Malformed? then Some(ahead[0].cause) else None;
      ahead := ahead[1..];
    }
  }

  /** Nothing but the end of the input is left. */
  predicate AtEnd(items: seq<Item>) {
    items == [] || (items[0].Malformed? && Is(items[0].cause, EndOfFile))
  }

  method EnsureSingleJsonValue(decoder: Decoder) returns (err: Option<Error>)
    modifies decoder
    ensures err == if AtEnd(old(decoder.ahead)) then None else Some(Wrap(Sentinel(InvalidResponse)))
  {
    var cause := decoder.DecodeAny();
    if cause.Some? && Is(cause.value, EndOfFile) {
      return None;
    }
    return Some(Wrap(Sentinel(InvalidResponse)));
  }

  function ValidateModelInfo(info: ModelInfo): Option<Error> {
    var invalid := Some(Wrap(Sentinel(InvalidResponse)));
    if info.service != "ml-service" then invalid
    else if Trim(GoRuneBlank, info.version) == "" then invalid
    else if info.status != "ready" then invalid
    else if info.mode != "foundation" then invalid
    else if Trim(GoRuneBlank, info.pythonVersion) == "" then invalid
    else if Trim(GoRuneBlank, info.environment) == "" then invalid
    else None
  }

  predicate HasText(s: string) {
    exists i | 0 <= i < |s| :: !GoSpace(s[i] as int)
  }

  /** The versioned contract for a model description. */
  predicate ContractInfo(info: ModelInfo) {
    && info.service == "ml-service" && info.status == "ready" && info.mode == "foundation"
    && HasText(info.version) && HasText(info.pythonVersion) && HasText(info.environment)
  }

  lemma ValidationMeans(info: ModelInfo)
    ensures ValidateModelInfo(info) == if ContractInfo(info) then None else Some(Wrap(Sentinel(InvalidResponse)))
  {
    TrimsToNothing(info.version);
    TrimsToNothing(info.pythonVersion);
    TrimsToNothing(info.environment);
  }

  // ---------------------------------------------------------------------------------------------
  // The whole call
  // ---------------------------------------------------------------------------------------------

  /** What can become of a request: not built, not answered, or answered with a status and a body. */
  datatype Reply = NotBuilt(cause: Error) | NotAnswered(cause: Error) | Answered(status: int, stream: Stream)

  /** The single acceptable description carried by a body, if there is one. */
  predicate Describes(items: seq<Item>, info: ModelInfo) {
    items != [] && items[0] == Value(Success(info)) && AtEnd(items[1..]) && ContractInfo(info)
  }

  predicate Accepts(reply: Reply, parse: string -> seq<Item>, info: ModelInfo) {
    && reply.Answered? && reply.status == 200
    && !Oversize(reply.stream) && reply.stream.failure.None?
    && Describes(parse(reply.stream.data), info)
  }

  /** The transport error the caller gets to see, if any. */
  function TransportFailure(reply: Reply): Option<Error> {
    match reply
    case NotBuilt(cause) => Some(cause)
    case NotAnswered(cause) => Some(cause)
    case Answered(_, stream) => if FailureSeen(stream) then stream.failure else None
  }

  /** The error of a call that yields no description: transport first, then size, then status, then content. */
  function CallError(reply: Reply): Error {
    var transport := TransportFailure(reply);
    if transport.Some? then Wrap(transport.value)
    else if Oversize(reply.stream) || reply.status == 200 then Wrap(Sentinel(InvalidResponse))
    else Wrap(Sentinel(UnexpectedStatus))
  }

  /**
   `Client.ModelInfo`, for every chunking of the reply and every JSON grammar: it succeeds exactly on an
   accepted reply, and otherwise its error depends on the transport, size and status alone. Nothing of a
   decoding error's own tree gets into it.
   */
  method GetModelInfo(reply: Reply, chunks: seq<nat>, parse: string -> seq<Item>) returns (r: Result<ModelInfo, Error>)
    ensures r.Success? ==> Accepts(reply, parse, r.value)
    ensures r.Failure? ==> r.error == CallError(reply) && forall info :: !Accepts(reply, parse, info)
  {
    if reply.NotBuilt? || reply.NotAnswered? {
      return Failure(Wrap(reply.cause));
    }
    var reader := new Body(reply.stream, chunks);
    var body := ReadBoundedBody(reader);
    if body.Failure? {
      return Failure(body.error);
    }
    if reply.status != 200 {
      return Failure(Wrap(Sentinel(UnexpectedStatus)));
    }
    var decoder := new Decoder(parse(body.value));
    var info := decoder.DecodeInfo();
    if info.Failure? {
      return Failure(Wrap(Sentinel(InvalidResponse)));
    }
    var extra := EnsureSingleJsonValue(decoder);
    if extra.Some? {
      return Failure(extra.value);
    }
    ValidationMeans(info.value);
    var invalid := ValidateModelInfo(info.value);
    if invalid.Some? {
      return Failure(invalid.value);
    }
    return Success(info.value);
  }
}
