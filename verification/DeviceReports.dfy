// What the stream of usbmuxd messages makes the parser report, down to the dictionaries it carries.

module DeviceReports {
  import opened Wrappers
  import opened Rpc
  import opened Sequences
  import opened Plist
  import opened DeviceListenerModel
  import opened DeviceListenerLaws

  // ---------------------------------------------------------------------------
  // One more message
  // ---------------------------------------------------------------------------

  lemma OneMorePacket(packets: seq<Bytes>, last: Bytes)
    ensures (packets + [last])[..|packets + [last]| - 1] == packets && (packets + [last])[|packets + [last]| - 1] == last
  {
  }

  /** The number reported is the signed 32-bit one with the same low bits. */
  lemma ReportedNumber(n: nat)
    ensures -0x8000_0000 <= AsI32(n) < 0x8000_0000 && (n - AsI32(n)) % 0x1_0000_0000 == 0
    ensures n < 0x8000_0000 ==> AsI32(n) == n
  {
  }

  /** An attachment is reported with its id, and the table has it under its number from then on. */
  lemma AttachIsReported(lib: Library, table: Table, packets: seq<Bytes>, last: Bytes, num: nat, id: string)
    requires Accepted(lib, last) == Attach(num, id)
    ensures Report(lib, table, packets + [last]) == Report(lib, table, packets) + [Attached(id, AsI32(num))]
    ensures var before, r := Tabulate(lib, table, packets), Tabulate(lib, table, packets + [last]);
      num in r && r[num] == id && forall n | n != num :: n in r <==> n in before && r[n] == before[n]
  {
    OneMorePacket(packets, last);
  }

  /** A detachment is reported with the id the table has for its number, and not if it has none. */
  lemma DetachIsReported(lib: Library, table: Table, packets: seq<Bytes>, last: Bytes, num: nat)
    requires Accepted(lib, last) == Detach(num)
    ensures var before, r := Tabulate(lib, table, packets), Tabulate(lib, table, packets + [last]);
      && num !in r && (forall n | n != num :: n in r <==> n in before && r[n] == before[n])
      && Report(lib, table, packets + [last]) ==
         Report(lib, table, packets) + (if num in before then [Detached(before[num], AsI32(num))] else [])
  {
    OneMorePacket(packets, last);
  }

  /** A packet that is ignored or cannot be read is not reported and leaves the table as it is. */
  lemma OthersAreSilent(lib: Library, table: Table, packets: seq<Bytes>, last: Bytes)
    requires Accepted(lib, last) == Ignored
    ensures Report(lib, table, packets + [last]) == Report(lib, table, packets)
    ensures Tabulate(lib, table, packets + [last]) == Tabulate(lib, table, packets)
  {
    OneMorePacket(packets, last);
  }

  // ---------------------------------------------------------------------------
  // Safety of the report
  // ---------------------------------------------------------------------------

  /** What is in the table has been reported as attached. */
  lemma {:induction false} TableWasReported(lib: Library, packets: seq<Bytes>, num: nat)
    ensures var table := Tabulate(lib, map[], packets);
      num in table ==> Attached(table[num], AsI32(num)) in Report(lib, map[], packets)
    decreases |packets|
  {
    if packets != [] {
      var front, last := packets[..|packets| - 1], packets[|packets| - 1];
      assert packets == front + [last];
      TableWasReported(lib, front, num);
      match Accepted(lib, last) {
        case Attach(n, id) => AttachIsReported(lib, map[], front, last, n, id);
        case Detach(n) => DetachIsReported(lib, map[], front, last, n);
        case Ignored => OthersAreSilent(lib, map[], front, last);
      }
    }
  }

  /** A device reported as detached has been reported as attached before, with the same id and number. */
  lemma {:induction false} DetachFollowsAttach(lib: Library, packets: seq<Bytes>, i: nat)
    requires i < |Report(lib, map[], packets)| && Report(lib, map[], packets)[i].Detached?
    ensures var e := Report(lib, map[], packets)[i];
      Attached(e.deviceId, e.deviceNum) in Report(lib, map[], packets)[..i]
    decreases |packets|
  {
    var front, last := packets[..|packets| - 1], packets[|packets| - 1];
    assert packets == front + [last];
    var before := Report(lib, map[], front);
    var all := Report(lib, map[], packets);
    assert before <= all by { OneMorePacket(front, last); }
    if i < |before| {
      DetachFollowsAttach(lib, front, i);
      assert all[..i] == before[..i];
    } else {
      match Accepted(lib, last) {
        case Attach(n, id) => AttachIsReported(lib, map[], front, last, n, id);
        case Detach(n) =>
          DetachIsReported(lib, map[], front, last, n);
          TableWasReported(lib, front, n);
          assert all[..i] == before;
        case Ignored => OthersAreSilent(lib, map[], front, last);
      }
    }
  }

  // ---------------------------------------------------------------------------
  // What a dictionary says
  // ---------------------------------------------------------------------------

  /** A look-up gives the value of the first field with the key, and nothing if no field has it. */
  lemma {:induction false} LookupExact(fields: seq<Field>, key: string)
    ensures Lookup(fields, key).None? <==> forall i | 0 <= i < |fields| :: fields[i].key != key
    ensures Lookup(fields, key).Some? ==>
      exists i | 0 <= i < |fields| ::
        fields[i] == Field(key, Lookup(fields, key).value) && forall j | 0 <= j < i :: fields[j].key != key
  {
    if fields != [] && fields[0].key != key {
      var rest := fields[1..];
      LookupExact(rest, key);
      forall i | 0 < i < |fields| ensures fields[i] == rest[i - 1] {}
      if Lookup(rest, key).Some? {
        var i :| 0 <= i < |rest| && rest[i] == Field(key, Lookup(rest, key).value) &&
                 forall j | 0 <= j < i :: rest[j].key != key;
        assert fields[i + 1] == Field(key, Lookup(fields, key).value);
        forall j | 0 <= j < i + 1 ensures fields[j].key != key {
          if j > 0 { assert fields[j] == rest[j - 1]; }
        }
      } else {
        forall i | 0 <= i < |fields| ensures fields[i].key != key {
          if i > 0 { assert fields[i] == rest[i - 1]; }
        }
      }
    }
  }

  /** The property list is a dictionary whose message type is `kind`. */
  predicate IsMessage(lib: Library, xml: Bytes, fields: seq<Field>, kind: string) {
    lib.read(xml) == Some(Dictionary(fields)) && Lookup(fields, "MessageType") == Some(Text(kind))
  }

  /**
   * An announcement with properties attaches the device under the number given, zero if there is
   * none, and under the serial number given. One of 24 characters gets a dash at index 8, and
   * dropping it gives the serial number back.
   */
  lemma AttachedSays(lib: Library, xml: Bytes, fields: seq<Field>, props: seq<Field>) returns (num: nat, id: string)
    requires IsMessage(lib, xml, fields, "Attached") && Lookup(fields, "Properties") == Some(Dictionary(props))
    ensures MessageOfXml(lib, xml) == Success(Attach(num, id))
    ensures match Lookup(props, "DeviceID")
      case Some(Integer(i)) => num == (if i >= 0 then i else 0)
      case _ => num == 0
    ensures match Lookup(props, "SerialNumber")
      case Some(Text(serial)) =>
        if |serial| == 24 then |id| == 25 && id[8] == '-' && id[..8] + id[9..] == serial else id == serial
      case _ => id == ""
  {
    var msg := MessageOfXml(lib, xml).value;
    num, id := msg.num, msg.id;
    if Lookup(props, "SerialNumber").Some? && Lookup(props, "SerialNumber").value.Text? {
      var serial := Lookup(props, "SerialNumber").value.text;
      if |serial| == 24 {
        assert serial == serial[..8] + serial[8..];
      }
    }
  }

  /** A value that is a dictionary, one that is an unsigned number, and one that is the number `n`. */
  predicate HasFields(v: Option<Value>) {
    v.Some? && v.value.Dictionary?
  }

  predicate IsUnsigned(v: Option<Value>) {
    v.Some? && v.value.Integer? && v.value.number >= 0
  }

  predicate IsNumber(v: Option<Value>, n: nat) {
    v.Some? && v.value.Integer? && v.value.number == n
  }

  /** Nothing else attaches a device, and a device is detached only by its number. */
  lemma OnlyAnnouncementsCount(lib: Library, xml: Bytes, fields: seq<Field>)
    requires lib.read(xml) == Some(Dictionary(fields))
    ensures var msg := MessageOfXml(lib, xml);
      && (msg.Success? && msg.value.Attach? <==>
            Lookup(fields, "MessageType") == Some(Text("Attached")) && HasFields(Lookup(fields, "Properties")))
      && (forall num: nat :: msg == Success(Detach(num)) <==>
            Lookup(fields, "MessageType") == Some(Text("Detached")) && IsNumber(Lookup(fields, "DeviceID"), num))
  {
  }

  /**
   * A dictionary is refused in three cases: as a result other than zero, as the announcement of
   * a device without properties, and as that of a device gone without a number.
   */
  lemma RefusalsExact(lib: Library, xml: Bytes, fields: seq<Field>)
    requires lib.read(xml) == Some(Dictionary(fields))
    ensures var msg, kind := MessageOfXml(lib, xml), Lookup(fields, "MessageType");
      && (forall code: nat :: msg == Failure(ListenRefused(code)) <==>
            code > 0 && kind == Some(Text("Result")) && IsNumber(Lookup(fields, "Number"), code))
      && (msg == Failure(MissingProperties) <==>
            kind == Some(Text("Attached")) && !HasFields(Lookup(fields, "Properties")))
      && (msg == Failure(MissingDeviceId) <==>
            kind == Some(Text("Detached")) && !IsUnsigned(Lookup(fields, "DeviceID")))
      && (msg.Failure? ==> msg.error.ListenRefused? || msg.error.MissingProperties? || msg.error.MissingDeviceId?)
  {
  }

  /** Bytes that are no property list, or one that is no dictionary, are refused as that. */
  lemma UnreadableRefused(lib: Library, xml: Bytes)
    ensures MessageOfXml(lib, xml) == Failure(NotPlist) <==> lib.read(xml) == None
    ensures MessageOfXml(lib, xml) == Failure(NotDictionary) <==> lib.read(xml).Some? && !lib.read(xml).value.Dictionary?
  {
  }

  /** A packet counts exactly if it has the length it declares, version 1, type 8 and a message that counts. */
  lemma AcceptedExact(lib: Library, packet: Bytes)
    ensures Accepted(lib, packet) != Ignored <==>
      && |packet| >= 16 && LittleEndian(packet) == |packet|
      && packet[4..12] == [1, 0, 0, 0, 8, 0, 0, 0]
      && MessageOfXml(lib, packet[16..]).Success? && MessageOfXml(lib, packet[16..]).value != Ignored
    ensures Accepted(lib, packet) != Ignored ==> MessageOfXml(lib, packet[16..]) == Success(Accepted(lib, packet))
  {
    if |packet| >= 16 {
      WordExact(packet, 4, 1);
      WordExact(packet, 8, 8);
      assert packet[4..12] == packet[4..8] + packet[8..12];
      assert packet[4..12][..4] == packet[4..8] && packet[4..12][4..] == packet[8..12];
    }
  }

  lemma WordExact(packet: Bytes, at: nat, n: nat)
    requires at + 4 <= |packet| && n < 0x100
    ensures LittleEndian(packet[at..]) == n <==> packet[at..at + 4] == [n, 0, 0, 0]
  {
    assert packet[at..at + 4] == packet[at..][..4];
  }

  // ---------------------------------------------------------------------------
  // From the bytes received to the report
  // ---------------------------------------------------------------------------

  lemma PacketAlone(xml: Bytes)
    requires HEADER_SIZE + |xml| < 0x1_0000_0000
    ensures Framed(BuildPacket(xml)) && Cut(BuildPacket(xml)) == Cutting([BuildPacket(xml)], [])
  {
    assert BuildPackets([xml][1..]) == [] && BuildPackets([xml]) == [BuildPacket(xml)];
    BuiltPacketsCutApart([xml]);
    assert [BuildPacket(xml)][1..] == [];
    assert Concat([BuildPacket(xml)]) == BuildPacket(xml);
  }

  /**
   * A parser that awaits nothing and receives the packet of an announcement returns one event, the
   * attachment of that device, and has the device in its table.
   */
  lemma AnnouncementArrives(lib: Library, p: Parser, xml: Bytes, fields: seq<Field>, props: seq<Field>)
    returns (num: nat, id: string)
    requires p.buffer == [] && HEADER_SIZE + |xml| < 0x1_0000_0000
    requires IsMessage(lib, xml, fields, "Attached") && Lookup(fields, "Properties") == Some(Dictionary(props))
    ensures Framed(p.buffer + BuildPacket(xml))
    ensures EventsOf(lib, p, BuildPacket(xml)) == [Attached(id, AsI32(num))]
    ensures After(lib, p, BuildPacket(xml)).table == p.table[num := id] && After(lib, p, BuildPacket(xml)).buffer == []
    ensures match Lookup(props, "DeviceID")
      case Some(Integer(i)) => num == (if i >= 0 then i else 0)
      case _ => num == 0
    ensures match Lookup(props, "SerialNumber")
      case Some(Text(serial)) =>
        if |serial| == 24 then |id| == 25 && id[8] == '-' && id[..8] + id[9..] == serial else id == serial
      case _ => id == ""
  {
    var packet := BuildPacket(xml);
    num, id := AttachedSays(lib, xml, fields, props);
    PacketAlone(xml);
    assert p.buffer + packet == packet;
    BuiltPacketClassified(lib, xml);
    AttachIsReported(lib, p.table, [], packet, num, id);
    assert [] + [packet] == [packet];
    OneMorePacket([], packet);
  }

  /**
   * Whatever messages a new parser is sent, in packets cut anywhere into pieces, it reports what
   * the messages say one after another, and ends with nothing buffered.
   */
  lemma StreamReports(lib: Library, xmls: seq<Bytes>, chunks: seq<Bytes>)
    requires forall xml | xml in xmls :: HEADER_SIZE + |xml| < 0x1_0000_0000
    requires Concat(chunks) == Concat(BuildPackets(xmls))
    ensures FeedEvents(lib, NEW_PARSER, chunks) == Report(lib, map[], BuildPackets(xmls))
    ensures Feed(lib, NEW_PARSER, chunks).table == Tabulate(lib, map[], BuildPackets(xmls))
    ensures Feed(lib, NEW_PARSER, chunks).buffer == []
  {
    ChunkingIndependence(lib, NEW_PARSER, chunks);
    BuiltPacketsCutApart(xmls);
    assert NEW_PARSER.buffer + Concat(chunks) == Concat(chunks);
  }
}
