// Round trips and resynchronisation of the WebInspector wire format.

module WebInspectorLaws {
  import opened Wrappers
  import opened Rpc
  import opened Sequences
  import opened Plist
  import opened WebInspectorModel

  // ---------------------------------------------------------------------------
  // Headers
  // ---------------------------------------------------------------------------

  /** A built header gives its length back exactly when the length is one that is accepted. */
  lemma HeaderRoundTrip(n: nat)
    requires n < 0x1_0000_0000
    ensures ParseLength(Header(n)) == if n <= MAX_BODY_LENGTH then Success(n) else Failure(BodyTooLong)
  {
    var a, b, c := n / 0x100_0000, n / 0x1_0000, n / 0x100;
    assert c / 0x100 == b && b / 0x100 == a;
    assert a % 0x100 == a;
    assert n == c * 0x100 + n % 0x100 && c == b * 0x100 + c % 0x100 && b == a * 0x100 + b % 0x100;
  }

  // ---------------------------------------------------------------------------
  // Chunks
  // ---------------------------------------------------------------------------

  /** The number of packets a message of `n` bytes takes. */
  function PacketCount(n: nat): nat {
    if n == 0 then 1 else (n + MAX_RPC_LEN - 1) / MAX_RPC_LEN
  }

  /** Chunks make up the message; all but the last are full, and the last is not empty unless the message is. */
  lemma {:induction false} ChunksExact(bin: Bytes)
    ensures var cs := Chunks(bin);
      && Concat(cs) == bin
      && |cs| == PacketCount(|bin|)
      && (forall i | 0 <= i < |cs| - 1 :: |cs[i]| == MAX_RPC_LEN)
      && |cs[|cs| - 1]| <= MAX_RPC_LEN
      && (bin != [] ==> cs[|cs| - 1] != [])
    decreases |bin|
  {
    if |bin| > MAX_RPC_LEN {
      var rest := bin[MAX_RPC_LEN..];
      ChunksExact(rest);
      assert bin == bin[..MAX_RPC_LEN] + rest;
      assert Chunks(bin)[1..] == Chunks(rest);
    } else {
      assert Concat([bin]) == bin + Concat([]);
      if bin != [] {
        assert PacketCount(|bin|) == 1;
      }
    }
  }

  // ---------------------------------------------------------------------------
  // Reading what was framed
  // ---------------------------------------------------------------------------

  /** The decoder run over packet bodies, without the bytes between them. */
  function Decode(lib: Library, partialsSupported: bool, buffer: Bytes, bodies: seq<Bytes>): Reading
    decreases |bodies|
  {
    if bodies == [] then Reading([], buffer, EndInHeader)
    else if bodies[0] == [] then Decode(lib, partialsSupported, buffer, bodies[1..])
    else
      var parsed := ParsePlist(lib, partialsSupported, buffer, bodies[0]);
      var rest := Decode(lib, partialsSupported, parsed.buffer, bodies[1..]);
      Reading(Events(parsed.outcome) + rest.events, rest.buffer, rest.stop)
  }

  predicate Fit(bodies: seq<Bytes>) {
    forall i | 0 <= i < |bodies| :: |bodies[i]| <= MAX_BODY_LENGTH
  }

  function Then(first: Reading, second: Reading): Reading {
    Reading(first.events + second.events, second.buffer, second.stop)
  }

  lemma ThenAssociates(a: Reading, b: Reading, c: Reading)
    ensures Then(a, Then(b, c)) == Then(Then(a, b), c)
  {
    assert a.events + (b.events + c.events) == a.events + b.events + c.events;
  }

  lemma FitRest(bodies: seq<Bytes>)
    requires Fit(bodies) && bodies != []
    ensures Fit(bodies[1..])
  {
    forall i | 0 <= i < |bodies[1..]| ensures |bodies[1..][i]| <= MAX_BODY_LENGTH {
      assert bodies[1..][i] == bodies[i + 1];
    }
  }

  lemma ReadPacket(lib: Library, partialsSupported: bool, buffer: Bytes, body: Bytes, rest: Bytes)
    requires |body| <= MAX_BODY_LENGTH
    ensures Read(lib, partialsSupported, buffer, BuildPacket(body) + rest) ==
      if body == [] then Read(lib, partialsSupported, buffer, rest)
      else
        var parsed := ParsePlist(lib, partialsSupported, buffer, body);
        Then(Reading(Events(parsed.outcome), parsed.buffer, EndInHeader), Read(lib, partialsSupported, parsed.buffer, rest))
  {
    var stream := BuildPacket(body) + rest;
    HeaderRoundTrip(|body|);
    assert stream[..4] == Header(|body|);
    assert stream[4..4 + |body|] == body;
    assert stream[4 + |body|..] == rest;
  }

  /** Framed bodies are read back as they are, and reading goes on behind them. */
  lemma {:induction false} ReadFramed(lib: Library, partialsSupported: bool, buffer: Bytes, bodies: seq<Bytes>, rest: Bytes)
    requires Fit(bodies)
    ensures var d := Decode(lib, partialsSupported, buffer, bodies);
      Read(lib, partialsSupported, buffer, Concat(Packets(bodies)) + rest) == Then(d, Read(lib, partialsSupported, d.buffer, rest))
    decreases |bodies|
  {
    if bodies == [] {
      assert Concat(Packets(bodies)) + rest == rest;
    } else {
      var more := Concat(Packets(bodies[1..])) + rest;
      assert Packets(bodies)[1..] == Packets(bodies[1..]);
      assert Concat(Packets(bodies)) + rest == BuildPacket(bodies[0]) + more;
      ReadPacket(lib, partialsSupported, buffer, bodies[0], more);
      FitRest(bodies);
      var parsed := ParsePlist(lib, partialsSupported, buffer, bodies[0]);
      if bodies[0] == [] {
        ReadFramed(lib, partialsSupported, buffer, bodies[1..], rest);
      } else {
        ReadFramed(lib, partialsSupported, parsed.buffer, bodies[1..], rest);
        var d := Decode(lib, partialsSupported, parsed.buffer, bodies[1..]);
        ThenAssociates(Reading(Events(parsed.outcome), parsed.buffer, EndInHeader), d, Read(lib, partialsSupported, d.buffer, rest));
      }
    }
  }

  // ---------------------------------------------------------------------------
  // One message
  // ---------------------------------------------------------------------------

  /** Wrapped chunks stay within what a header may announce. */
  ghost predicate WrapsSmall(lib: Library) {
    forall chunk: Bytes | |chunk| <= MAX_RPC_LEN ::
      |lib.write(Wrap(FINAL, chunk))| <= MAX_BODY_LENGTH && |lib.write(Wrap(PARTIAL, chunk))| <= MAX_BODY_LENGTH
  }

  lemma WritesBack(lib: Library, v: Value)
    requires Lawful(lib) && WellFormed(v)
    ensures lib.read(lib.write(v)) == Some(v) && lib.write(v) != []
  {
  }

  lemma WrapWritesBack(lib: Library, key: string, chunk: Bytes)
    requires Lawful(lib)
    ensures var v := Wrap(key, chunk); lib.read(lib.write(v)) == Some(v) && lib.write(v) != []
  {
    assert WellFormed(Data(chunk)) && WellFormed(Wrap(key, chunk));
  }

  lemma UnwrapWrap(lib: Library, chunk: Bytes)
    requires Lawful(lib)
    ensures Unwrap(lib, lib.write(Wrap(FINAL, chunk))) == Success(Piece(chunk, false))
    ensures Unwrap(lib, lib.write(Wrap(PARTIAL, chunk))) == Success(Piece(chunk, true))
  {
    var f, p := Wrap(FINAL, chunk), Wrap(PARTIAL, chunk);
    WrapWritesBack(lib, FINAL, chunk);
    WrapWritesBack(lib, PARTIAL, chunk);
    assert FINAL != PARTIAL by { assert |FINAL| != |PARTIAL|; }
    assert Lookup(f.fields, FINAL) == Some(Data(chunk));
    assert Lookup(p.fields, FINAL) == Lookup(p.fields[1..], FINAL) == None;
    assert Lookup(p.fields, PARTIAL) == Some(Data(chunk));
  }

  /** The pieces of a message, decoded on top of a buffer, yield the whole and leave no buffer. */
  lemma {:induction false} DecodeWrapped(lib: Library, buffer: Bytes, chunks: seq<Bytes>)
    requires Lawful(lib) && chunks != []
    ensures Decode(lib, true, buffer, Wrapped(lib, chunks)) ==
      Reading(match lib.read(buffer + Concat(chunks)) case Some(v) => [v] case None => [], [], EndInHeader)
    decreases |chunks|
  {
    var bodies := Wrapped(lib, chunks);
    UnwrapWrap(lib, chunks[0]);
    WrapWritesBack(lib, if |chunks| > 1 then PARTIAL else FINAL, chunks[0]);
    assert bodies[1..] == Wrapped(lib, chunks[1..]);
    if |chunks| > 1 {
      DecodeWrapped(lib, buffer + chunks[0], chunks[1..]);
      assert buffer + chunks[0] + Concat(chunks[1..]) == buffer + Concat(chunks);
    } else {
      assert chunks[1..] == [] && Wrapped(lib, chunks[1..]) == [];
      assert Concat(chunks) == chunks[0];
    }
  }

  lemma {:induction false} WrappedFit(lib: Library, chunks: seq<Bytes>)
    requires WrapsSmall(lib)
    requires forall i | 0 <= i < |chunks| :: |chunks[i]| <= MAX_RPC_LEN
    ensures Fit(Wrapped(lib, chunks))
    decreases |chunks|
  {
    if chunks != [] {
      WrappedFit(lib, chunks[1..]);
      assert |chunks[0]| <= MAX_RPC_LEN;
    }
  }

  /** A message that can be written, and small enough to be sent: any size when it is fragmented, else within one body. */
  ghost predicate Sendable(lib: Library, partialsSupported: bool, msg: Value) {
    WellFormed(msg) && if partialsSupported then WrapsSmall(lib) else |lib.write(msg)| <= MAX_BODY_LENGTH
  }

  lemma OneMessage(lib: Library, isSim: bool, partialsSupported: bool, msg: Value)
    requires Lawful(lib) && Sendable(lib, partialsSupported, msg)
    ensures var bodies := Bodies(lib, isSim, partialsSupported, lib.write(msg));
      Fit(bodies) && Decode(lib, partialsSupported, [], bodies) == Reading([msg], [], EndInHeader)
  {
    var bin := lib.write(msg);
    WritesBack(lib, msg);
    if partialsSupported {
      OneFragmented(lib, bin);
    } else {
      OneWhole(lib, isSim, bin);
    }
  }

  lemma OneFragmented(lib: Library, bin: Bytes)
    requires Lawful(lib) && WrapsSmall(lib) && lib.read(bin).Some?
    ensures var bodies := Wrapped(lib, Chunks(bin));
      Fit(bodies) && Decode(lib, true, [], bodies) == Reading([lib.read(bin).value], [], EndInHeader)
  {
    ChunksExact(bin);
    WrappedFit(lib, Chunks(bin));
    DecodeWrapped(lib, [], Chunks(bin));
    assert [] + Concat(Chunks(bin)) == bin;
  }

  lemma OneWhole(lib: Library, isSim: bool, bin: Bytes)
    requires |bin| <= MAX_BODY_LENGTH && bin != [] && lib.read(bin).Some?
    ensures var bodies := Bodies(lib, isSim, false, bin);
      Fit(bodies) && Decode(lib, false, [], bodies) == Reading([lib.read(bin).value], [], EndInHeader)
  {
    if isSim {
      DecodeOne(lib, false, [], bin);
    } else {
      assert Bodies(lib, isSim, false, bin) == [bin] + [[]];
      DecodeOne(lib, false, [], bin);
      DecodeOne(lib, false, [], []);
      DecodeAppend(lib, false, [], [bin], [[]]);
    }
  }

  // ---------------------------------------------------------------------------
  // Whole streams
  // ---------------------------------------------------------------------------

  lemma ReadMessage(lib: Library, isSim: bool, partialsSupported: bool, msg: Value, rest: Bytes)
    requires Lawful(lib) && Sendable(lib, partialsSupported, msg)
    ensures Read(lib, partialsSupported, [], Concat(Encode(lib, isSim, partialsSupported, lib.write(msg))) + rest) ==
            Then(Reading([msg], [], EndInHeader), Read(lib, partialsSupported, [], rest))
  {
    OneMessage(lib, isSim, partialsSupported, msg);
    ReadFramed(lib, partialsSupported, [], Bodies(lib, isSim, partialsSupported, lib.write(msg)), rest);
  }

  ghost predicate AllSendable(lib: Library, partialsSupported: bool, msgs: seq<Value>) {
    forall msg | msg in msgs :: Sendable(lib, partialsSupported, msg)
  }

  /**
   * Whatever is written for a list of messages is read back as that list, in order, by a reader
   * with the same flags; no partial buffer remains and the stream ends between packets.
   */
  lemma {:induction false} StreamRoundTrip(lib: Library, isSim: bool, partialsSupported: bool, msgs: seq<Value>)
    requires Lawful(lib) && AllSendable(lib, partialsSupported, msgs)
    ensures Read(lib, partialsSupported, [], Wire(lib, isSim, partialsSupported, msgs)) == Reading(msgs, [], EndInHeader)
    decreases |msgs|
  {
    if msgs != [] {
      ReadMessage(lib, isSim, partialsSupported, msgs[0], Wire(lib, isSim, partialsSupported, msgs[1..]));
      StreamRoundTrip(lib, isSim, partialsSupported, msgs[1..]);
      assert msgs == [msgs[0]] + msgs[1..];
    }
  }

  // ---------------------------------------------------------------------------
  // Arbitrary frames
  // ---------------------------------------------------------------------------

  predicate IsFinal(lib: Library, body: Bytes) {
    Unwrap(lib, body).Success? && !Unwrap(lib, body).value.isPartial
  }

  predicate IsPartial(lib: Library, body: Bytes) {
    Unwrap(lib, body).Success? && Unwrap(lib, body).value.isPartial
  }

  /** The data of the partial frames since the last well-formed final one; other frames do not count. */
  function Pending(lib: Library, bodies: seq<Bytes>): Bytes
    decreases |bodies|
  {
    if bodies == [] then []
    else
      var before, last := bodies[..|bodies| - 1], bodies[|bodies| - 1];
      if last == [] then Pending(lib, before)
      else if IsFinal(lib, last) then []
      else if IsPartial(lib, last) then Pending(lib, before) + Unwrap(lib, last).value.data
      else Pending(lib, before)
  }

  lemma {:induction false} DecodeAppend(lib: Library, partialsSupported: bool, buffer: Bytes, a: seq<Bytes>, b: seq<Bytes>)
    ensures var first := Decode(lib, partialsSupported, buffer, a);
      Decode(lib, partialsSupported, buffer, a + b) == Then(first, Decode(lib, partialsSupported, first.buffer, b))
    decreases |a|
  {
    if a == [] {
      assert a + b == b;
    } else {
      assert (a + b)[0] == a[0] && (a + b)[1..] == a[1..] + b;
      var next := if a[0] == [] then buffer else ParsePlist(lib, partialsSupported, buffer, a[0]).buffer;
      DecodeAppend(lib, partialsSupported, next, a[1..], b);
    }
  }

  lemma DecodeOne(lib: Library, partialsSupported: bool, buffer: Bytes, body: Bytes)
    ensures Decode(lib, partialsSupported, buffer, [body]) ==
      if body == [] then Reading([], buffer, EndInHeader)
      else
        var parsed := ParsePlist(lib, partialsSupported, buffer, body);
        Reading(Events(parsed.outcome), parsed.buffer, EndInHeader)
  {
    assert [body][1..] == [];
  }

  /** The partial buffer is exactly what is pending, whatever frames have come, good or bad. */
  lemma {:induction false} BufferIsPending(lib: Library, bodies: seq<Bytes>)
    ensures Decode(lib, true, [], bodies).buffer == Pending(lib, bodies)
    decreases |bodies|
  {
    if bodies != [] {
      var before, last := bodies[..|bodies| - 1], bodies[|bodies| - 1];
      assert bodies == before + [last];
      BufferIsPending(lib, before);
      DecodeAppend(lib, true, [], before, [last]);
      DecodeOne(lib, true, Decode(lib, true, [], before).buffer, last);
    }
  }

  /** A final frame completes the message of the partial frames pending before it. */
  lemma FinalCompletesPending(lib: Library, before: seq<Bytes>, last: Bytes)
    requires last != [] && IsFinal(lib, last)
    ensures var d := Decode(lib, true, [], before + [last]);
      && d.buffer == []
      && d.events == Decode(lib, true, [], before).events +
           (match lib.read(Pending(lib, before) + Unwrap(lib, last).value.data) case Some(v) => [v] case None => [])
  {
    BufferIsPending(lib, before);
    DecodeAppend(lib, true, [], before, [last]);
    DecodeOne(lib, true, Decode(lib, true, [], before).buffer, last);
  }

  /**
   * After any frames at all that end in a well-formed final frame, even one whose message cannot
   * be parsed, the messages written next are read back as if nothing had come before them.
   */
  lemma Resynchronises(lib: Library, isSim: bool, junk: seq<Bytes>, last: Bytes, msgs: seq<Value>)
    requires Lawful(lib) && AllSendable(lib, true, msgs)
    requires Fit(junk + [last]) && last != [] && IsFinal(lib, last)
    ensures var r := Read(lib, true, [], Concat(Packets(junk + [last])) + Wire(lib, isSim, true, msgs));
      r == Reading(Decode(lib, true, [], junk + [last]).events + msgs, [], EndInHeader)
  {
    FinalCompletesPending(lib, junk, last);
    ReadFramed(lib, true, [], junk + [last], Wire(lib, isSim, true, msgs));
    StreamRoundTrip(lib, isSim, true, msgs);
  }
}
