// The WebInspector wire format: framing, fragmentation, reassembly and the read loop, as functions.

module WebInspectorModel {
  import opened Wrappers
  import opened Rpc
  import opened Sequences
  import opened Plist

  /** The longest piece of a message that is sent in one packet. */
  const MAX_RPC_LEN: nat := 8096 - 500

  /** The longest packet body that is accepted. */
  const MAX_BODY_LENGTH: nat := 0x400_0000

  const FINAL := "WIRFinalMessageKey"
  const PARTIAL := "WIRPartialMessageKey"

  datatype WiError = HeaderTooShort | BodyTooLong | NotPlist | NotDictionary | NotData | NoMessageKey | BadRpc

  // ---------------------------------------------------------------------------
  // Framing
  // ---------------------------------------------------------------------------

  function Header(n: nat): Bytes {
    [n / 0x100_0000 % 0x100, n / 0x1_0000 % 0x100, n / 0x100 % 0x100, n % 0x100]
  }

  function BuildPacket(data: Bytes): Bytes {
    Header(|data|) + data
  }

  function ParseLength(buf: Bytes): Result<nat, WiError> {
    if |buf| < 4 then Failure(HeaderTooShort)
    else
      var b0: int, b1: int, b2: int, b3: int := buf[0], buf[1], buf[2], buf[3];
      var length: nat := b0 * 0x100_0000 + b1 * 0x1_0000 + b2 * 0x100 + b3;
      if length > MAX_BODY_LENGTH then Failure(BodyTooLong) else Success(length)
  }

  // ---------------------------------------------------------------------------
  // Fragmentation
  // ---------------------------------------------------------------------------

  function Chunks(bin: Bytes): seq<Bytes>
    decreases |bin|
  {
    if |bin| > MAX_RPC_LEN then [bin[..MAX_RPC_LEN]] + Chunks(bin[MAX_RPC_LEN..]) else [bin]
  }

  function Wrap(key: string, chunk: Bytes): Value {
    Dictionary([Field(key, Data(chunk))])
  }

  /** All chunks but the last go out as partial messages. */
  function Wrapped(lib: Library, chunks: seq<Bytes>): seq<Bytes>
    decreases |chunks|
  {
    if chunks == [] then []
    else [lib.write(Wrap(if |chunks| > 1 then PARTIAL else FINAL, chunks[0]))] + Wrapped(lib, chunks[1..])
  }

  function Packets(bodies: seq<Bytes>): seq<Bytes> {
    if bodies == [] then [] else [BuildPacket(bodies[0])] + Packets(bodies[1..])
  }

  /** The bodies of the packets that carry one message. */
  function Bodies(lib: Library, isSim: bool, partialsSupported: bool, bin: Bytes): seq<Bytes> {
    if partialsSupported then Wrapped(lib, Chunks(bin))
    else if isSim then [bin]
    else [bin, []]
  }

  function Encode(lib: Library, isSim: bool, partialsSupported: bool, bin: Bytes): seq<Bytes> {
    Packets(Bodies(lib, isSim, partialsSupported, bin))
  }

  /** Everything that is written for a list of messages. */
  function Wire(lib: Library, isSim: bool, partialsSupported: bool, msgs: seq<Value>): Bytes {
    if msgs == [] then []
    else Concat(Encode(lib, isSim, partialsSupported, lib.write(msgs[0]))) + Wire(lib, isSim, partialsSupported, msgs[1..])
  }

  // ---------------------------------------------------------------------------
  // Reassembly
  // ---------------------------------------------------------------------------

  /** One piece of a message. */
  datatype Piece = Piece(data: Bytes, isPartial: bool)

  function Unwrap(lib: Library, body: Bytes): Result<Piece, WiError> {
    match lib.read(body)
    case None => Failure(NotPlist)
    case Some(Dictionary(fields)) =>
      (match Lookup(fields, FINAL)
       case Some(Data(bytes)) => Success(Piece(bytes, false))
       case Some(_) => Failure(NotData)
       case None =>
         match Lookup(fields, PARTIAL)
         case Some(Data(bytes)) => Success(Piece(bytes, true))
         case Some(_) => Failure(NotData)
         case None => Failure(NoMessageKey))
    case Some(_) => Failure(NotDictionary)
  }

  /** What one body does to the partial buffer, and what comes of it. */
  datatype Parsed = Parsed(buffer: Bytes, outcome: Result<Option<Value>, WiError>)

  function ParsePlist(lib: Library, partialsSupported: bool, buffer: Bytes, body: Bytes): Parsed {
    if !partialsSupported then
      Parsed(buffer, match lib.read(body) case Some(v) => Success(Some(v)) case None => Failure(NotPlist))
    else
      match Unwrap(lib, body)
      case Failure(e) => Parsed(buffer, Failure(e))
      case Success(Piece(data, true)) => Parsed(buffer + data, Success(None))
      case Success(Piece(data, false)) =>
        Parsed([], match lib.read(buffer + data) case Some(v) => Success(Some(v)) case None => Failure(BadRpc))
  }

  function Events(outcome: Result<Option<Value>, WiError>): seq<Value> {
    match outcome
    case Success(Some(v)) => [v]
    case _ => []
  }

  // ---------------------------------------------------------------------------
  // The read loop
  // ---------------------------------------------------------------------------

  /** Why the loop ended: the stream ran out in a header or in a body, or a header was refused. */
  datatype Stop = EndInHeader | EndInBody | RefusedHeader

  datatype Reading = Reading(events: seq<Value>, buffer: Bytes, stop: Stop)

  function Read(lib: Library, partialsSupported: bool, buffer: Bytes, stream: Bytes): Reading
    decreases |stream|
  {
    if |stream| < 4 then Reading([], buffer, EndInHeader)
    else
      match ParseLength(stream[..4])
      case Failure(_) => Reading([], buffer, RefusedHeader)
      case Success(length) =>
        if length == 0 then Read(lib, partialsSupported, buffer, stream[4..])
        else if |stream| < 4 + length then Reading([], buffer, EndInBody)
        else
          var parsed := ParsePlist(lib, partialsSupported, buffer, stream[4..4 + length]);
          var rest := Read(lib, partialsSupported, parsed.buffer, stream[4 + length..]);
          Reading(Events(parsed.outcome) + rest.events, rest.buffer, rest.stop)
  }
}
