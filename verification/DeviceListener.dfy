// The incremental usbmuxd parser, updating its buffer and its device table in place.

module DeviceListener {
  import opened Wrappers
  import opened Rpc
  import opened Sequences
  import opened Plist
  import opened DeviceListenerModel
  import opened DeviceListenerLaws

  /** The packets in `done` have been drained and handled; the rest of the bytes are in the buffer. */
  ghost predicate Underway(lib: Library, p0: Parser, data: Bytes, done: seq<Bytes>, p: Parser, events: seq<DeviceEvent>)
  {
    && Framed(p.buffer)
    && Cut(p0.buffer + data) == Cutting(done + Cut(p.buffer).packets, Cut(p.buffer).rest)
    && p.table == Tabulate(lib, p0.table, done)
    && events == Report(lib, p0.table, done)
    && (if p.hasLength then |p.buffer| >= 4 && p.bodyLength == LittleEndian(p.buffer)
        else p.bodyLength == if done != [] then |done[|done| - 1]| else p0.bodyLength)
  }

  /** The effect of draining and handling one whole packet. */
  function Drained(lib: Library, p: Parser): Parser
    requires p.bodyLength <= |p.buffer|
  {
    Parser(Update(p.table, Accepted(lib, p.buffer[..p.bodyLength])), p.buffer[p.bodyLength..], false, p.bodyLength)
  }

  lemma OneMore(lib: Library, p0: Parser, data: Bytes, done: seq<Bytes>, p: Parser, events: seq<DeviceEvent>)
    requires Underway(lib, p0, data, done, p, events) && p.hasLength && p.bodyLength <= |p.buffer|
    ensures var packet := p.buffer[..p.bodyLength];
      Underway(lib, p0, data, done + [packet], Drained(lib, p), events + AsSeq(EventOf(p.table, Accepted(lib, packet))))
    ensures p.bodyLength > 0
  {
    var n := p.bodyLength;
    var packet := p.buffer[..n];
    assert done + ([packet] + Cut(p.buffer[n..]).packets) == done + [packet] + Cut(p.buffer[n..]).packets;
    assert (done + [packet])[..|done|] == done;
  }

  lemma NoMore(lib: Library, p0: Parser, data: Bytes, done: seq<Bytes>, p: Parser, events: seq<DeviceEvent>)
    requires Underway(lib, p0, data, done, p, events) && Resting(p)
    ensures p == After(lib, p0, data) && events == EventsOf(lib, p0, data)
  {
    assert done + [] == done;
  }

  class DeviceListenerParser {
    const lib: Library
    var deviceNumToId: map<nat, string>
    var buffer: Bytes
    var hasLength: bool
    var bodyLength: nat

    ghost function Model(): Parser
      reads this
    {
      Parser(deviceNumToId, buffer, hasLength, bodyLength)
    }

    constructor (lib: Library)
      ensures this.lib == lib && Model() == NEW_PARSER && Resting(Model())
    {
      this.lib := lib;
      deviceNumToId, buffer, hasLength, bodyLength := map[], [], false, 0;
    }

    /** Processes received bytes. It would not return if a packet declared the length zero. */
    method OnRecv(data: Bytes) returns (events: seq<DeviceEvent>)
      requires Resting(Model()) && Framed(buffer + data)
      modifies this
      ensures Model() == After(lib, old(Model()), data)
      ensures events == EventsOf(lib, old(Model()), data)
      ensures Resting(Model())
    {
      ghost var p0 := Model();
      ghost var done: seq<Bytes> := [];
      buffer := buffer + data;
      events := [];
      while true
        invariant Underway(lib, p0, data, done, Model(), events)
        decreases |buffer|
      {
        if !hasLength && |buffer| >= 4 {
          bodyLength := LittleEndian(buffer);
          hasLength := true;
        }
        if hasLength && |buffer| >= bodyLength {
          OneMore(lib, p0, data, done, Model(), events);
          done := done + [buffer[..bodyLength]];
          var event := DrainPacket();
          events := events + event;
        } else {
          NoMore(lib, p0, data, done, Model(), events);
          break;
        }
      }
    }

    /** Drains the packet at the head of the buffer and handles it: at most one event. */
    method DrainPacket() returns (event: seq<DeviceEvent>)
      requires hasLength && bodyLength <= |buffer|
      modifies this
      ensures Model() == Drained(lib, old(Model()))
      ensures event == AsSeq(EventOf(old(deviceNumToId), Accepted(lib, old(buffer[..bodyLength]))))
    {
      var packet := buffer[..bodyLength];
      buffer := buffer[bodyLength..];
      hasLength := false;
      var parsed := ParsePacket(packet);
      event := if parsed.Success? && parsed.value.Some? then [parsed.value.value] else [];
    }

    /** Reads one packet; a packet that cannot be read leaves the table as it is. */
    method ParsePacket(packet: Bytes) returns (r: Result<Option<DeviceEvent>, UsbError>)
      modifies this`deviceNumToId
      ensures deviceNumToId == Update(old(deviceNumToId), Accepted(lib, packet))
      ensures match Classify(lib, packet)
        case Success(msg) => r == Success(EventOf(old(deviceNumToId), msg))
        case Failure(e) => r == Failure(e)
    {
      if |packet| < HEADER_SIZE {
        return Failure(PacketTooShort);
      }
      var len := LittleEndian(packet);
      var version := LittleEndian(packet[4..]);
      var ptype := LittleEndian(packet[8..]);
      if len != |packet| {
        return Failure(LengthMismatch);
      }
      if version != 1 || ptype != TYPE_PLIST {
        return Success(None);
      }
      r := ParsePlistMessage(packet[HEADER_SIZE..]);
    }

    method ParsePlistMessage(xml: Bytes) returns (r: Result<Option<DeviceEvent>, UsbError>)
      modifies this`deviceNumToId
      ensures match MessageOfXml(lib, xml)
        case Success(msg) =>
          r == Success(EventOf(old(deviceNumToId), msg)) && deviceNumToId == Update(old(deviceNumToId), msg)
        case Failure(e) => r == Failure(e) && deviceNumToId == old(deviceNumToId)
      ensures forall num, id | MessageOfXml(lib, xml) == Success(Attach(num, id)) ::
        r == Success(Some(Attached(id, AsI32(num)))) && deviceNumToId == old(deviceNumToId)[num := id]
      ensures forall num | MessageOfXml(lib, xml) == Success(Detach(num)) ::
        && r == Success(if num in old(deviceNumToId) then Some(Detached(old(deviceNumToId)[num], AsI32(num))) else None)
        && deviceNumToId == old(deviceNumToId) - {num}
    {
      var parsed := lib.read(xml);
      if parsed.None? {
        return Failure(NotPlist);
      }
      if !parsed.value.Dictionary? {
        return Failure(NotDictionary);
      }
      var dict := parsed.value.fields;
      var messageType := OrElse(AsText(Lookup(dict, "MessageType")), "");
      if messageType == "Result" {
        var number := AsUnsigned(Lookup(dict, "Number"));
        if number.Some? && number.value != 0 {
          return Failure(ListenRefused(number.value));
        }
        r := Success(None);
      } else if messageType == "Attached" {
        var props := AsFields(Lookup(dict, "Properties"));
        if props.None? {
          return Failure(MissingProperties);
        }
        var deviceNum := OrElse(AsUnsigned(Lookup(props.value, "DeviceID")), 0);
        var deviceId := OrElse(AsText(Lookup(props.value, "SerialNumber")), "");
        if |deviceId| == 24 {
          deviceId := deviceId[..8] + "-" + deviceId[8..];
        }
        deviceNumToId := deviceNumToId[deviceNum := deviceId];
        r := Success(Some(Attached(deviceId, AsI32(deviceNum))));
      } else if messageType == "Detached" {
        var deviceNum := AsUnsigned(Lookup(dict, "DeviceID"));
        if deviceNum.None? {
          return Failure(MissingDeviceId);
        }
        var n := deviceNum.value;
        if n in deviceNumToId {
          r := Success(Some(Detached(deviceNumToId[n], AsI32(n))));
          deviceNumToId := deviceNumToId - {n};
        } else {
          assert deviceNumToId - {n} == deviceNumToId;
          r := Success(None);
        }
      } else {
        r := Success(None);
      }
    }
  }

  /** Feeds a stream to a parser in pieces, as the connection does. */
  method FeedAll(parser: DeviceListenerParser, chunks: seq<Bytes>) returns (events: seq<DeviceEvent>)
    requires Resting(parser.Model()) && Framed(parser.buffer)
    requires Framed(parser.buffer + Concat(chunks))
    modifies parser
    ensures parser.Model() == After(parser.lib, old(parser.Model()), Concat(chunks))
    ensures events == EventsOf(parser.lib, old(parser.Model()), Concat(chunks))
  {
    ghost var p0 := parser.Model();
    events := [];
    EveryCallEndsIff(parser.lib, p0, chunks);
    for i := 0 to |chunks|
      invariant parser.Model() == Feed(parser.lib, p0, chunks[..i]) && Resting(parser.Model())
      invariant events == FeedEvents(parser.lib, p0, chunks[..i])
    {
      EveryCallPrefix(parser.lib, p0, chunks, i + 1);
      assert chunks[..i + 1][..i] == chunks[..i];
      var more := parser.OnRecv(chunks[i]);
      events := events + more;
    }
    assert chunks[..|chunks|] == chunks;
    ChunkingIndependence(parser.lib, p0, chunks);
  }

  lemma {:induction false} EveryCallPrefix(lib: Library, p: Parser, chunks: seq<Bytes>, i: nat)
    requires i <= |chunks| && EveryCallFramed(lib, p, chunks)
    ensures EveryCallFramed(lib, p, chunks[..i])
    decreases |chunks|
  {
    if i == |chunks| {
      assert chunks[..i] == chunks;
    } else {
      EveryCallPrefix(lib, p, chunks[..|chunks| - 1], i);
      assert chunks[..|chunks| - 1][..i] == chunks[..i];
    }
  }

  lemma OneBuiltPacket(xml: Bytes)
    requires HEADER_SIZE + |xml| < 0x1_0000_0000
    ensures var p := BuildPacket(xml);
      && Framed(p) && Cut(p) == Cutting([p], [])
      && forall lib: Library :: Classify(lib, p) == MessageOfXml(lib, xml)
  {
    var p := BuildPacket(xml);
    var rest: Bytes := [];
    BuiltPacketLeads(xml, rest);
    CutLeads(p, rest);
    assert p + rest == p && Cut(rest) == Cutting([], rest);
    forall lib: Library ensures Classify(lib, p) == MessageOfXml(lib, xml) {
      BuiltPacketClassified(lib, xml);
    }
  }

  /**
   * A property-list packet around the XML of the request to listen. A reader cuts it off whole,
   * accepts its header and reads what the XML says.
   */
  method CreateListenPacket(xml: Bytes) returns (packet: Bytes)
    ensures packet == BuildPacket(xml)
    ensures |packet| == 16 + |xml| && packet[16..] == xml
    ensures packet[4..16] == [1, 0, 0, 0, 8, 0, 0, 0, 1, 0, 0, 0]
    ensures |packet| < 0x1_0000_0000 ==> LittleEndian(packet) == |packet|
    ensures HEADER_SIZE + |xml| < 0x1_0000_0000 ==>
      && Framed(packet) && Cut(packet) == Cutting([packet], [])
      && forall lib: Library :: Classify(lib, packet) == MessageOfXml(lib, xml)
  {
    var length := HEADER_SIZE + |xml|;
    packet := Word(length);
    packet := packet + Word(1);
    packet := packet + Word(TYPE_PLIST);
    packet := packet + Word(1);
    packet := packet + xml;
    if length < 0x1_0000_0000 {
      OneBuiltPacket(xml);
    }
  }
}
