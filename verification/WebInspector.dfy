// The WebInspector codec and its read loop, working step by step on buffers.

module WebInspector {
  import opened Wrappers
  import opened Rpc
  import opened Sequences
  import opened Plist
  import opened WebInspectorModel
  import opened WebInspectorPackets
  import WebInspectorLaws

  class WebInspectorCodec {
    const lib: Library
    const isSim: bool
    const partialsSupported: bool
    var partialBuffer: Bytes

    constructor (lib: Library, isSim: bool, partialsSupported: bool)
      ensures this.lib == lib && this.isSim == isSim && this.partialsSupported == partialsSupported
      ensures partialBuffer == []
    {
      this.lib, this.isSim, this.partialsSupported := lib, isSim, partialsSupported;
      partialBuffer := [];
    }

    /** Splits a message into packets; fragments are cut off at a moving offset. */
    method EncodePlist(bin: Bytes) returns (packets: seq<Bytes>)
      ensures packets == Encode(lib, isSim, partialsSupported, bin)
      ensures !partialsSupported ==> SentWhole(isSim, bin, packets)
      ensures partialsSupported ==> SentInFragments(lib, bin, packets)
      ensures partialsSupported && Lawful(lib) ==> forall i | 0 <= i < |packets| :: |packets[i]| > 4
    {
      EncodedExact(lib, isSim, partialsSupported, bin);
      packets := [];
      if !partialsSupported {
        PacketsOne(bin);
        packets := packets + [BuildPacket(bin)];
        if !isSim {
          packets := packets + [BuildPacket([])];
        }
        return;
      }
      var offset := 0;
      while true
        invariant 0 <= offset <= |bin|
        invariant packets + Fragments(lib, bin[offset..]) == Fragments(lib, bin)
        decreases |bin| - offset
      {
        var isPartial := |bin| - offset > MAX_RPC_LEN;
        var chunkEnd := if isPartial then offset + MAX_RPC_LEN else |bin|;
        var chunk := bin[offset..chunkEnd];
        var packet := BuildPacket(lib.write(Wrap(if isPartial then PARTIAL else FINAL, chunk)));
        CutAt(lib, bin, offset);
        packets := packets + [packet];
        if !isPartial {
          assert chunk == bin[offset..];
          break;
        }
        offset := chunkEnd;
      }
    }

    /** Works one packet body into the partial buffer. */
    method ParsePlist(data: Bytes) returns (outcome: Result<Option<Value>, WiError>)
      modifies this`partialBuffer
      ensures Parsed(partialBuffer, outcome) ==
        WebInspectorModel.ParsePlist(lib, partialsSupported, old(partialBuffer), data)
    {
      var value := lib.read(data);
      if value.None? {
        return Failure(NotPlist);
      }
      if !partialsSupported {
        return Success(value);
      }
      if !value.value.Dictionary? {
        return Failure(NotDictionary);
      }
      var rpcData, isPartial := [], false;
      var final, partial := Lookup(value.value.fields, FINAL), Lookup(value.value.fields, PARTIAL);
      if final.Some? {
        if !final.value.Data? {
          return Failure(NotData);
        }
        rpcData, isPartial := final.value.bytes, false;
      } else if partial.Some? {
        if !partial.value.Data? {
          return Failure(NotData);
        }
        rpcData, isPartial := partial.value.bytes, true;
      } else {
        return Failure(NoMessageKey);
      }
      if isPartial || partialBuffer != [] {
        partialBuffer := partialBuffer + rpcData;
        if isPartial {
          return Success(None);
        }
      }
      var fullData := rpcData;
      if partialBuffer != [] {
        fullData, partialBuffer := partialBuffer, [];
      }
      assert fullData == old(partialBuffer) + rpcData;
      var rpc := lib.read(fullData);
      return if rpc.Some? then Success(rpc) else Failure(BadRpc);
    }
  }

  lemma EncodedExact(lib: Library, isSim: bool, partialsSupported: bool, bin: Bytes)
    ensures var packets := Encode(lib, isSim, partialsSupported, bin);
      && (!partialsSupported ==> SentWhole(isSim, bin, packets))
      && (partialsSupported ==> SentInFragments(lib, bin, packets))
      && (partialsSupported && Lawful(lib) ==> forall i | 0 <= i < |packets| :: |packets[i]| > 4)
  {
    if partialsSupported {
      EncodedInFragments(lib, isSim, bin);
      if Lawful(lib) {
        FragmentsNotEmpty(lib, bin, Encode(lib, isSim, true, bin));
      }
    } else {
      EncodedWhole(lib, isSim, bin);
    }
  }

  /** The packets a fragmented message takes. */
  function Fragments(lib: Library, bin: Bytes): seq<Bytes> {
    Packets(Wrapped(lib, Chunks(bin)))
  }

  /** Cutting one chunk off a message. */
  lemma CutOne(lib: Library, bin: Bytes)
    ensures Fragments(lib, bin) ==
      if |bin| > MAX_RPC_LEN
      then [BuildPacket(lib.write(Wrap(PARTIAL, bin[..MAX_RPC_LEN])))] + Fragments(lib, bin[MAX_RPC_LEN..])
      else [BuildPacket(lib.write(Wrap(FINAL, bin)))]
  {
    var cs := Chunks(bin);
    var bodies := Wrapped(lib, cs);
    if |bin| > MAX_RPC_LEN {
      assert cs[1..] == Chunks(bin[MAX_RPC_LEN..]);
      WebInspectorLaws.ChunksExact(bin[MAX_RPC_LEN..]);
      assert bodies[1..] == Wrapped(lib, cs[1..]);
    } else {
      assert cs[1..] == [];
      assert Wrapped(lib, cs[1..]) == [];
      PacketsOne(bodies[0]);
    }
  }

  lemma PacketsOne(body: Bytes)
    ensures Packets([body]) == [BuildPacket(body)]
    ensures Packets([body, []]) == [BuildPacket(body), BuildPacket([])]
  {
    var nothing: Bytes := [];
    assert [body][1..] == [] && [nothing][1..] == [];
    assert [body, nothing][1..] == [nothing];
  }

  lemma CutAt(lib: Library, bin: Bytes, offset: nat)
    requires offset <= |bin|
    ensures Fragments(lib, bin[offset..]) ==
      if |bin| - offset > MAX_RPC_LEN
      then [BuildPacket(lib.write(Wrap(PARTIAL, bin[offset..offset + MAX_RPC_LEN])))] + Fragments(lib, bin[offset + MAX_RPC_LEN..])
      else [BuildPacket(lib.write(Wrap(FINAL, bin[offset..])))]
  {
    CutOne(lib, bin[offset..]);
    if |bin| - offset > MAX_RPC_LEN {
      assert bin[offset..][..MAX_RPC_LEN] == bin[offset..offset + MAX_RPC_LEN];
      assert bin[offset..][MAX_RPC_LEN..] == bin[offset + MAX_RPC_LEN..];
    }
  }

  /** What one turn of the read loop yields, and where the next one starts. */
  datatype Advance = Advance(events: seq<Value>, buffer: Bytes, stop: Option<Stop>, next: nat)

  function AdvanceAt(lib: Library, partialsSupported: bool, buffer: Bytes, stream: Bytes, pos: nat): (t: Advance)
    requires pos <= |stream|
    ensures pos <= t.next <= |stream| && (t.stop.None? ==> pos < t.next)
  {
    if |stream| - pos < 4 then Advance([], buffer, Some(EndInHeader), pos)
    else
      match ParseLength(stream[pos..pos + 4])
      case Failure(_) => Advance([], buffer, Some(RefusedHeader), pos)
      case Success(length) =>
        if length == 0 then Advance([], buffer, None, pos + 4)
        else if |stream| - pos < 4 + length then Advance([], buffer, Some(EndInBody), pos)
        else
          var parsed := WebInspectorModel.ParsePlist(lib, partialsSupported, buffer, stream[pos + 4..pos + 4 + length]);
          Advance(Events(parsed.outcome), parsed.buffer, None, pos + 4 + length)
  }

  lemma SliceOfRest(stream: Bytes, pos: nat, from: nat, to: nat)
    requires from <= to <= |stream| - pos
    ensures stream[pos..][from..to] == stream[pos + from..pos + to]
    ensures stream[pos..][to..] == stream[pos + to..]
  {
  }

  /** A turn at `pos` is a first turn on what is left of the stream. */
  lemma AdvanceShifted(lib: Library, partialsSupported: bool, buffer: Bytes, stream: Bytes, pos: nat)
    requires pos <= |stream|
    ensures var t := AdvanceAt(lib, partialsSupported, buffer, stream[pos..], 0);
      && AdvanceAt(lib, partialsSupported, buffer, stream, pos) == t.(next := pos + t.next)
      && stream[pos..][t.next..] == stream[pos + t.next..]
  {
    var rest := stream[pos..];
    if |rest| >= 4 {
      SliceOfRest(stream, pos, 0, 4);
      var length := ParseLength(rest[0..4]);
      if length.Success? && |rest| >= 4 + length.value {
        SliceOfRest(stream, pos, 4, 4 + length.value);
      }
    }
  }

  /** The reading that a turn on the stream begins. */
  function FromAdvance(lib: Library, partialsSupported: bool, t: Advance, stream: Bytes): Reading
    requires t.next <= |stream|
  {
    if t.stop.Some? then Reading(t.events, t.buffer, t.stop.value)
    else WebInspectorLaws.Then(Reading(t.events, t.buffer, EndInHeader),
                               Read(lib, partialsSupported, t.buffer, stream[t.next..]))
  }

  lemma ReadFirst(lib: Library, partialsSupported: bool, buffer: Bytes, stream: Bytes)
    ensures Read(lib, partialsSupported, buffer, stream) ==
            FromAdvance(lib, partialsSupported, AdvanceAt(lib, partialsSupported, buffer, stream, 0), stream)
  {
    if |stream| >= 4 {
      assert stream[..4] == stream[0..4];
    }
  }

  lemma SameFromAdvance(lib: Library, partialsSupported: bool, t: Advance, rest: Bytes, u: Advance, stream: Bytes)
    requires t.next <= |rest| && u.next <= |stream| && rest[t.next..] == stream[u.next..]
    requires t.(next := u.next) == u
    ensures FromAdvance(lib, partialsSupported, t, rest) == FromAdvance(lib, partialsSupported, u, stream)
  {
  }

  lemma ReadAt(lib: Library, partialsSupported: bool, buffer: Bytes, stream: Bytes, pos: nat)
    requires pos <= |stream|
    ensures Read(lib, partialsSupported, buffer, stream[pos..]) ==
            FromAdvance(lib, partialsSupported, AdvanceAt(lib, partialsSupported, buffer, stream, pos), stream)
  {
    var rest := stream[pos..];
    AdvanceShifted(lib, partialsSupported, buffer, stream, pos);
    ReadFirst(lib, partialsSupported, buffer, rest);
    SameFromAdvance(lib, partialsSupported, AdvanceAt(lib, partialsSupported, buffer, rest, 0), rest,
                 AdvanceAt(lib, partialsSupported, buffer, stream, pos), stream);
  }

  lemma WireAt(lib: Library, isSim: bool, partialsSupported: bool, msgs: seq<Value>, i: nat)
    requires i < |msgs|
    ensures Wire(lib, isSim, partialsSupported, msgs[i..]) ==
            Concat(Encode(lib, isSim, partialsSupported, lib.write(msgs[i]))) +
            Wire(lib, isSim, partialsSupported, msgs[i + 1..])
  {
    assert msgs[i..][0] == msgs[i] && msgs[i..][1..] == msgs[i + 1..];
  }

  /** The write side of a connection: what has been put into the write channel, in order. */
  class WebInspectorHandle {
    var written: Bytes

    constructor ()
      ensures written == []
    {
      written := [];
    }

    method SendPlist(codec: WebInspectorCodec, bin: Bytes)
      modifies this
      ensures written == old(written) + Concat(Encode(codec.lib, codec.isSim, codec.partialsSupported, bin))
    {
      var packets := codec.EncodePlist(bin);
      SendPackets(packets);
    }

    method SendPackets(packets: seq<Bytes>)
      modifies this
      ensures written == old(written) + Concat(packets)
    {
      assert packets[0..] == packets;
      for i := 0 to |packets|
        invariant written + Concat(packets[i..]) == old(written) + Concat(packets)
      {
        assert packets[i..][0] == packets[i] && packets[i..][1..] == packets[i + 1..];
        written := written + packets[i];
      }
    }

    /** Sends a list of messages; read back by `ReadLoop` with the same flags, they come out as sent. */
    method SendAll(codec: WebInspectorCodec, msgs: seq<Value>)
      modifies this
      ensures written == old(written) + Wire(codec.lib, codec.isSim, codec.partialsSupported, msgs)
    {
      assert msgs[0..] == msgs;
      for i := 0 to |msgs|
        invariant written + Wire(codec.lib, codec.isSim, codec.partialsSupported, msgs[i..]) ==
                  old(written) + Wire(codec.lib, codec.isSim, codec.partialsSupported, msgs)
      {
        WireAt(codec.lib, codec.isSim, codec.partialsSupported, msgs, i);
        Associates(written, Concat(Encode(codec.lib, codec.isSim, codec.partialsSupported, codec.lib.write(msgs[i]))),
                   Wire(codec.lib, codec.isSim, codec.partialsSupported, msgs[i + 1..]));
        SendPlist(codec, codec.lib.write(msgs[i]));
      }
    }
  }

  /** One turn of the loop: reads a header and a body at `pos` and works the body in. */
  method ReadOne(codec: WebInspectorCodec, stream: Bytes, pos: nat)
    returns (events: seq<Value>, stop: Option<Stop>, next: nat)
    requires pos <= |stream|
    modifies codec`partialBuffer
    ensures Advance(events, codec.partialBuffer, stop, next) ==
            AdvanceAt(codec.lib, codec.partialsSupported, old(codec.partialBuffer), stream, pos)
  {
    if |stream| - pos < 4 {
      return [], Some(EndInHeader), pos;
    }
    var length := ParseLength(stream[pos..pos + 4]);
    if length.Failure? {
      return [], Some(RefusedHeader), pos;
    }
    if length.value == 0 {
      return [], None, pos + 4;
    }
    if |stream| - pos - 4 < length.value {
      return [], Some(EndInBody), pos;
    }
    var outcome := codec.ParsePlist(stream[pos + 4..pos + 4 + length.value]);
    return Events(outcome), None, pos + 4 + length.value;
  }

  /** Reads packets until the stream ends or a header is refused. */
  method ReadLoop(lib: Library, isSim: bool, partialsSupported: bool, stream: Bytes)
    returns (events: seq<Value>, pending: Bytes, stop: Stop)
    ensures Reading(events, pending, stop) == Read(lib, partialsSupported, [], stream)
  {
    var codec := new WebInspectorCodec(lib, isSim, partialsSupported);
    var pos := 0;
    events := [];
    assert stream[0..] == stream;
    ghost var whole := Read(lib, partialsSupported, [], stream);
    while true
      invariant codec.lib == lib && codec.partialsSupported == partialsSupported && fresh(codec)
      invariant 0 <= pos <= |stream|
      invariant WebInspectorLaws.Then(Reading(events, codec.partialBuffer, EndInHeader),
                                      Read(lib, partialsSupported, codec.partialBuffer, stream[pos..])) == whole
      decreases |stream| - pos
    {
      ghost var before := Reading(events, codec.partialBuffer, EndInHeader);
      ReadAt(lib, partialsSupported, codec.partialBuffer, stream, pos);
      var more, ended, next := ReadOne(codec, stream, pos);
      events := events + more;
      if ended.Some? {
        return events, codec.partialBuffer, ended.value;
      }
      WebInspectorLaws.ThenAssociates(
        before,
        Reading(more, codec.partialBuffer, EndInHeader),
        Read(lib, partialsSupported, codec.partialBuffer, stream[next..]));
      pos := next;
    }
  }
}
