// The packets a message is sent in, and what one packet body means, byte by byte and key by key.

module WebInspectorPackets {
  import opened Wrappers
  import opened Rpc
  import opened Sequences
  import opened Plist
  import opened WebInspectorModel
  import opened WebInspectorLaws

  // ---------------------------------------------------------------------------
  // Packets
  // ---------------------------------------------------------------------------

  /** The length that the first four bytes announce, the highest first. */
  function Announced(stream: Bytes): nat
    requires |stream| >= 4
  {
    var b0: int, b1: int, b2: int, b3: int := stream[0], stream[1], stream[2], stream[3];
    b0 * 0x100_0000 + b1 * 0x1_0000 + b2 * 0x100 + b3
  }

  /** Four bytes that announce the length of the body, and the body. */
  predicate IsPacket(packet: Bytes, body: Bytes) {
    && |packet| == 4 + |body| && packet[4..] == body
    && (|body| < 0x1_0000_0000 ==> Announced(packet) == |body|)
  }

  lemma BuiltIsPacket(body: Bytes)
    ensures IsPacket(BuildPacket(body), body)
  {
    var n := |body|;
    var a, b, c := n / 0x100_0000, n / 0x1_0000, n / 0x100;
    assert c / 0x100 == b && b / 0x100 == a;
    assert n == c * 0x100 + n % 0x100 && c == b * 0x100 + c % 0x100 && b == a * 0x100 + b % 0x100;
  }

  lemma {:induction false} PacketsAt(bodies: seq<Bytes>, i: nat)
    requires i < |bodies|
    ensures |Packets(bodies)| == |bodies| && Packets(bodies)[i] == BuildPacket(bodies[i])
  {
    if i > 0 {
      PacketsAt(bodies[1..], i - 1);
    } else if |bodies| > 1 {
      PacketsAt(bodies[1..], 0);
    }
  }

  // ---------------------------------------------------------------------------
  // Fragments
  // ---------------------------------------------------------------------------

  /** The `i`-th stretch of 7596 bytes of a message; the last may be shorter. */
  function Stretch(bin: Bytes, i: nat): Bytes {
    if 7596 * (i + 1) <= |bin| then bin[7596 * i..7596 * (i + 1)]
    else if 7596 * i <= |bin| then bin[7596 * i..]
    else []
  }

  lemma {:induction false} ChunkAt(bin: Bytes, i: nat)
    requires i < |Chunks(bin)|
    ensures Chunks(bin)[i] == Stretch(bin, i)
    decreases |bin|
  {
    if |bin| > MAX_RPC_LEN {
      var rest := bin[MAX_RPC_LEN..];
      if i > 0 {
        ChunkAt(rest, i - 1);
        assert Chunks(bin)[i] == Chunks(rest)[i - 1];
        assert 7596 * i == 7596 * (i - 1) + 7596;
        assert Stretch(rest, i - 1) == Stretch(bin, i);
      }
    }
  }

  lemma {:induction false} WrappedAt(lib: Library, chunks: seq<Bytes>, i: nat)
    requires i < |chunks|
    ensures |Wrapped(lib, chunks)| == |chunks|
    ensures Wrapped(lib, chunks)[i] == lib.write(Wrap(if i < |chunks| - 1 then PARTIAL else FINAL, chunks[i]))
    decreases |chunks|
  {
    if i > 0 {
      WrappedAt(lib, chunks[1..], i - 1);
    } else if |chunks| > 1 {
      WrappedAt(lib, chunks[1..], 0);
    }
  }

  /** The dictionary that carries a fragment: its key says whether more follow. */
  function Carrier(bin: Bytes, i: nat, more: bool): Value {
    Dictionary([Field(if more then "WIRPartialMessageKey" else "WIRFinalMessageKey", Data(Stretch(bin, i)))])
  }

  /** How many fragments a message has. */
  function FragmentCount(bin: Bytes): nat {
    if |bin| == 0 then 1 else (|bin| + 7595) / 7596
  }

  /**
   * Where fragments are supported, a message goes out in one packet for each stretch of 7596
   * bytes, the last marked as final and the others as partial.
   */
  predicate SentInFragments(lib: Library, bin: Bytes, packets: seq<Bytes>) {
    && |packets| == FragmentCount(bin)
    && forall i | 0 <= i < |packets| :: IsPacket(packets[i], lib.write(Carrier(bin, i, i < |packets| - 1)))
  }

  /** Elsewhere it goes out whole, with an empty packet behind it unless the device is a simulator. */
  predicate SentWhole(isSim: bool, bin: Bytes, packets: seq<Bytes>) {
    && |packets| == (if isSim then 1 else 2)
    && IsPacket(packets[0], bin)
    && (!isSim ==> packets[1] == [0, 0, 0, 0])
  }

  lemma EncodedInFragments(lib: Library, isSim: bool, bin: Bytes)
    ensures SentInFragments(lib, bin, Encode(lib, isSim, true, bin))
  {
    var chunks := Chunks(bin);
    var bodies, packets := Wrapped(lib, chunks), Encode(lib, isSim, true, bin);
    ChunksExact(bin);
    WrappedAt(lib, chunks, 0);
    PacketsAt(bodies, 0);
    forall i | 0 <= i < |packets| ensures IsPacket(packets[i], lib.write(Carrier(bin, i, i < |packets| - 1))) {
      ChunkAt(bin, i);
      WrappedAt(lib, chunks, i);
      PacketsAt(bodies, i);
      BuiltIsPacket(bodies[i]);
    }
  }

  lemma EncodedWhole(lib: Library, isSim: bool, bin: Bytes)
    ensures SentWhole(isSim, bin, Encode(lib, isSim, false, bin))
  {
    var bodies := Bodies(lib, isSim, false, bin);
    PacketsAt(bodies, 0);
    BuiltIsPacket(bin);
    if |bodies| > 1 {
      PacketsAt(bodies, 1);
    }
  }

  /** No fragment has an empty body, which a reader would pass over. */
  lemma FragmentsNotEmpty(lib: Library, bin: Bytes, packets: seq<Bytes>)
    requires Lawful(lib) && SentInFragments(lib, bin, packets)
    ensures forall i | 0 <= i < |packets| :: |packets[i]| > 4
  {
    forall i | 0 <= i < |packets| ensures |packets[i]| > 4 {
      var v := Carrier(bin, i, i < |packets| - 1);
      assert WellFormed(v);
    }
  }

  // ---------------------------------------------------------------------------
  // Packet bodies
  // ---------------------------------------------------------------------------

  /**
   * What a body that is a dictionary means where fragments are supported. The key of a final
   * fragment comes before that of a partial one. A final fragment empties the buffer, whether or not
   * the message can be read; a partial one is added to it; anything else leaves it as it is.
   */
  lemma FragmentExact(lib: Library, buffer: Bytes, body: Bytes, fields: seq<Field>)
    requires lib.read(body) == Some(Dictionary(fields))
    ensures var parsed := ParsePlist(lib, true, buffer, body);
      match Lookup(fields, "WIRFinalMessageKey")
      case Some(Data(bytes)) =>
        && parsed.buffer == []
        && (match lib.read(buffer + bytes)
            case Some(v) => parsed.outcome == Success(Some(v))
            case None => parsed.outcome == Failure(BadRpc))
      case Some(_) => parsed == Parsed(buffer, Failure(NotData))
      case None =>
        match Lookup(fields, "WIRPartialMessageKey")
        case Some(Data(bytes)) => parsed == Parsed(buffer + bytes, Success(None))
        case Some(_) => parsed == Parsed(buffer, Failure(NotData))
        case None => parsed == Parsed(buffer, Failure(NoMessageKey))
  {
  }

  /** A body is a message by itself where fragments are not supported, and no fragment if no dictionary. */
  lemma WholeBodyExact(lib: Library, partialsSupported: bool, buffer: Bytes, body: Bytes)
    ensures !partialsSupported ==>
      var parsed := ParsePlist(lib, partialsSupported, buffer, body);
      parsed.buffer == buffer && forall v :: parsed.outcome == Success(Some(v)) <==> lib.read(body) == Some(v)
    ensures lib.read(body) == None ==>
      ParsePlist(lib, partialsSupported, buffer, body) == Parsed(buffer, Failure(NotPlist))
    ensures partialsSupported && lib.read(body).Some? && !lib.read(body).value.Dictionary? ==>
      ParsePlist(lib, partialsSupported, buffer, body) == Parsed(buffer, Failure(NotDictionary))
  {
  }

  // ---------------------------------------------------------------------------
  // Where reading ends
  // ---------------------------------------------------------------------------

  /**
   * Behind whole packets the loop ends when fewer than four bytes follow, when a header announces
   * more than 67108864 bytes, or when the body announced is not there; the events before that stand.
   */
  lemma ReadEndsExact(lib: Library, partialsSupported: bool, bodies: seq<Bytes>, tail: Bytes)
    requires forall i | 0 <= i < |bodies| :: |bodies[i]| <= 0x400_0000
    ensures var r, d := Read(lib, partialsSupported, [], Concat(Packets(bodies)) + tail), Decode(lib, partialsSupported, [], bodies);
      && (|tail| < 4 ==> r == Reading(d.events, d.buffer, EndInHeader))
      && (|tail| >= 4 && Announced(tail) > 0x400_0000 ==> r == Reading(d.events, d.buffer, RefusedHeader))
      && (|tail| >= 4 && |tail| - 4 < Announced(tail) <= 0x400_0000 ==> r == Reading(d.events, d.buffer, EndInBody))
  {
    var d := Decode(lib, partialsSupported, [], bodies);
    ReadFramed(lib, partialsSupported, [], bodies, tail);
    if |tail| >= 4 {
      assert tail[..4][0] == tail[0] && tail[..4][1] == tail[1] && tail[..4][2] == tail[2] && tail[..4][3] == tail[3];
      assert ParseLength(tail[..4]) == if Announced(tail) > MAX_BODY_LENGTH then Failure(BodyTooLong) else Success(Announced(tail));
    }
    assert d.events + [] == d.events;
  }

  /** Bodies are worked in one after another: one more adds its message, if there is one, and passes on the buffer. */
  lemma OneMoreBody(lib: Library, partialsSupported: bool, bodies: seq<Bytes>, body: Bytes)
    requires body != []
    ensures var d, r := Decode(lib, partialsSupported, [], bodies), Decode(lib, partialsSupported, [], bodies + [body]);
      var parsed := ParsePlist(lib, partialsSupported, d.buffer, body);
      && r.buffer == parsed.buffer
      && (forall v :: parsed.outcome == Success(Some(v)) ==> r.events == d.events + [v])
      && (parsed.outcome.Failure? || parsed.outcome == Success(None) ==> r.events == d.events)
  {
    DecodeAppend(lib, partialsSupported, [], bodies, [body]);
    DecodeOne(lib, partialsSupported, Decode(lib, partialsSupported, [], bodies).buffer, body);
  }
}
