// The usbmuxd connection as a whole stream: cutting packets, reading messages, keeping the table.

module DeviceListenerModel {
  import opened Wrappers
  import opened Rpc
  import opened Plist

  const TYPE_PLIST: nat := 8
  const HEADER_SIZE: nat := 16

  datatype DeviceEvent =
    | Attached(deviceId: string, deviceNum: int)
    | Detached(deviceId: string, deviceNum: int)

  datatype UsbError =
    | PacketTooShort
    | LengthMismatch
    | NotPlist
    | NotDictionary
    | ListenRefused(code: nat)
    | MissingProperties
    | MissingDeviceId

  // ---------------------------------------------------------------------------
  // Cutting the stream
  // ---------------------------------------------------------------------------

  /** The little-endian number in the first four bytes. */
  function LittleEndian(b: Bytes): nat
    requires |b| >= 4
  {
    var b0: int, b1: int, b2: int, b3: int := b[0], b[1], b[2], b[3];
    b0 + b1 * 0x100 + b2 * 0x1_0000 + b3 * 0x100_0000
  }

  datatype Cutting = Cutting(packets: seq<Bytes>, rest: Bytes)

  /** A declared length of zero cuts nothing off. */
  predicate Cuttable(b: Bytes) {
    |b| >= 4 && 0 < LittleEndian(b) <= |b|
  }

  function Cut(b: Bytes): Cutting
    decreases |b|
  {
    if Cuttable(b) then
      var more := Cut(b[LittleEndian(b)..]);
      Cutting([b[..LittleEndian(b)]] + more.packets, more.rest)
    else Cutting([], b)
  }

  /** No packet of the stream declares the length zero. */
  predicate Framed(b: Bytes)
    decreases |b|
  {
    |b| < 4 || (LittleEndian(b) != 0 && (Cuttable(b) ==> Framed(b[LittleEndian(b)..])))
  }

  // ---------------------------------------------------------------------------
  // Messages
  // ---------------------------------------------------------------------------

  /** What a packet says, as far as the device table is concerned. */
  datatype Message =
    | Ignored
    | Attach(num: nat, id: string)
    | Detach(num: nat)

  function AsText(v: Option<Value>): Option<string> {
    match v case Some(Text(t)) => Some(t) case _ => None
  }

  /** Unsigned 64-bit view of a property-list integer. */
  function AsUnsigned(v: Option<Value>): Option<nat> {
    match v case Some(Integer(i)) => if i >= 0 then Some(i) else None case _ => None
  }

  function AsFields(v: Option<Value>): Option<seq<Field>> {
    match v case Some(Dictionary(fs)) => Some(fs) case _ => None
  }

  /** A serial number of 24 characters gets its dash after the eighth. */
  function Normalized(serial: string): string {
    if |serial| == 24 then serial[..8] + "-" + serial[8..] else serial
  }

  /** The cast of an unsigned 64-bit number to a signed 32-bit one. */
  function AsI32(n: nat): int {
    var m := n % 0x1_0000_0000;
    if m < 0x8000_0000 then m else m - 0x1_0000_0000
  }

  function MessageOf(fields: seq<Field>): Result<Message, UsbError> {
    var kind := OrElse(AsText(Lookup(fields, "MessageType")), "");
    if kind == "Result" then
      var number := OrElse(AsUnsigned(Lookup(fields, "Number")), 0);
      if number != 0 then Failure(ListenRefused(number)) else Success(Ignored)
    else if kind == "Attached" then
      match AsFields(Lookup(fields, "Properties"))
      case None => Failure(MissingProperties)
      case Some(props) =>
        Success(Attach(OrElse(AsUnsigned(Lookup(props, "DeviceID")), 0),
                       Normalized(OrElse(AsText(Lookup(props, "SerialNumber")), ""))))
    else if kind == "Detached" then
      match AsUnsigned(Lookup(fields, "DeviceID"))
      case None => Failure(MissingDeviceId)
      case Some(num) => Success(Detach(num))
    else Success(Ignored)
  }

  function MessageOfXml(lib: Library, xml: Bytes): Result<Message, UsbError> {
    match lib.read(xml)
    case None => Failure(NotPlist)
    case Some(Dictionary(fields)) => MessageOf(fields)
    case Some(_) => Failure(NotDictionary)
  }

  function Classify(lib: Library, packet: Bytes): Result<Message, UsbError> {
    if |packet| < HEADER_SIZE then Failure(PacketTooShort)
    else if LittleEndian(packet) != |packet| then Failure(LengthMismatch)
    else if LittleEndian(packet[4..]) != 1 || LittleEndian(packet[8..]) != TYPE_PLIST then Success(Ignored)
    else MessageOfXml(lib, packet[HEADER_SIZE..])
  }

  // ---------------------------------------------------------------------------
  // The device table
  // ---------------------------------------------------------------------------

  type Table = map<nat, string>

  function Update(table: Table, msg: Message): Table {
    match msg
    case Ignored => table
    case Attach(num, id) => table[num := id]
    case Detach(num) => table - {num}
  }

  function EventOf(table: Table, msg: Message): Option<DeviceEvent> {
    match msg
    case Ignored => None
    case Attach(num, id) => Some(Attached(id, AsI32(num)))
    case Detach(num) => if num in table then Some(Detached(table[num], AsI32(num))) else None
  }

  /** Packets that cannot be read change nothing. */
  function Accepted(lib: Library, packet: Bytes): Message {
    match Classify(lib, packet)
    case Success(msg) => msg
    case Failure(_) => Ignored
  }

  function Tabulate(lib: Library, table: Table, packets: seq<Bytes>): Table
    decreases |packets|
  {
    if packets == [] then table
    else Update(Tabulate(lib, table, packets[..|packets| - 1]), Accepted(lib, packets[|packets| - 1]))
  }

  function AsSeq<T>(o: Option<T>): seq<T> {
    if o.Some? then [o.value] else []
  }

  function Report(lib: Library, table: Table, packets: seq<Bytes>): seq<DeviceEvent>
    decreases |packets|
  {
    if packets == [] then []
    else
      var before, last := packets[..|packets| - 1], packets[|packets| - 1];
      Report(lib, table, before) + AsSeq(EventOf(Tabulate(lib, table, before), Accepted(lib, last)))
  }

  // ---------------------------------------------------------------------------
  // The parser between two calls
  // ---------------------------------------------------------------------------

  datatype Parser = Parser(table: Table, buffer: Bytes, hasLength: bool, bodyLength: nat)

  const NEW_PARSER := Parser(map[], [], false, 0)

  /** The length is known exactly when four bytes are buffered, and then more bytes are awaited. */
  predicate Resting(p: Parser) {
    && (p.hasLength <==> |p.buffer| >= 4)
    && (p.hasLength ==> p.bodyLength == LittleEndian(p.buffer) && p.bodyLength > |p.buffer|)
  }

  /** The length last read: that of the bytes awaited, else of the last packet cut. */
  function LastLength(c: Cutting, before: nat): nat {
    if |c.rest| >= 4 then LittleEndian(c.rest)
    else if c.packets != [] then |c.packets[|c.packets| - 1]|
    else before
  }

  /** The parser and the events after receiving `data`, from the stream alone. */
  function After(lib: Library, p: Parser, data: Bytes): Parser {
    var c := Cut(p.buffer + data);
    Parser(Tabulate(lib, p.table, c.packets), c.rest, |c.rest| >= 4, LastLength(c, p.bodyLength))
  }

  function EventsOf(lib: Library, p: Parser, data: Bytes): seq<DeviceEvent> {
    Report(lib, p.table, Cut(p.buffer + data).packets)
  }

  // ---------------------------------------------------------------------------
  // Writing packets
  // ---------------------------------------------------------------------------

  function Word(n: nat): Bytes {
    [n % 0x100, n / 0x100 % 0x100, n / 0x1_0000 % 0x100, n / 0x100_0000 % 0x100]
  }

  /** A property-list packet; the request to listen is one of these. */
  function BuildPacket(xml: Bytes): Bytes {
    Word(HEADER_SIZE + |xml|) + Word(1) + Word(TYPE_PLIST) + Word(1) + xml
  }

  function BuildPackets(xmls: seq<Bytes>): seq<Bytes> {
    if xmls == [] then [] else [BuildPacket(xmls[0])] + BuildPackets(xmls[1..])
  }
}
