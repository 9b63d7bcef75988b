// The parser does not depend on how the stream is split, and the table is what the trace says.

module DeviceListenerLaws {
  import opened Wrappers
  import opened Rpc
  import opened Sequences
  import opened Plist
  import opened DeviceListenerModel

  // ---------------------------------------------------------------------------
  // Cutting
  // ---------------------------------------------------------------------------

  lemma ConcatCons(first: Bytes, others: seq<Bytes>, rest: Bytes)
    ensures Concat([first] + others) + rest == first + (Concat(others) + rest)
  {
    assert ([first] + others)[1..] == others;
  }

  /** Cutting loses no byte and adds none. */
  lemma {:induction false} CutConserves(b: Bytes)
    ensures Concat(Cut(b).packets) + Cut(b).rest == b
    decreases |b|
  {
    if Cuttable(b) {
      var n := LittleEndian(b);
      CutConserves(b[n..]);
      ConcatCons(b[..n], Cut(b[n..]).packets, Cut(b[n..]).rest);
    } else {
      assert Concat(Cut(b).packets) == [];
    }
  }

  /** What is left is less than a packet: its declared length, if known, exceeds it. */
  lemma {:induction false} CutLeavesLessThanOne(b: Bytes)
    ensures !Cuttable(Cut(b).rest)
    ensures Framed(b) ==> Framed(Cut(b).rest)
    decreases |b|
  {
    if Cuttable(b) {
      CutLeavesLessThanOne(b[LittleEndian(b)..]);
    }
  }

  /** Packets are never empty, and each that can hold a length has the length it declares. */
  predicate Sized(packet: Bytes) {
    packet != [] && (|packet| >= 4 ==> LittleEndian(packet) == |packet|)
  }

  lemma {:induction false} CutPacketsAreSized(b: Bytes, i: nat)
    requires i < |Cut(b).packets|
    ensures Sized(Cut(b).packets[i])
    decreases |b|
  {
    var n := LittleEndian(b);
    if i == 0 {
      assert Cut(b).packets[0] == b[..n];
    } else {
      assert Cut(b).packets[i] == Cut(b[n..]).packets[i - 1];
      CutPacketsAreSized(b[n..], i - 1);
    }
  }

  /** The length check inside a packet never fires for packets cut from the stream. */
  lemma CutNeverMismatches(lib: Library, b: Bytes, i: nat)
    requires i < |Cut(b).packets|
    ensures Classify(lib, Cut(b).packets[i]) != Failure(LengthMismatch)
  {
    CutPacketsAreSized(b, i);
  }

  /** A stream is framed exactly when its first part is, and so is what that leaves with the second. */
  lemma {:induction false} FramedSplits(a: Bytes, b: Bytes)
    ensures Framed(a + b) <==> Framed(a) && Framed(Cut(a).rest + b)
    decreases |a|
  {
    if |a| >= 4 {
      assert LittleEndian(a + b) == LittleEndian(a);
      if Cuttable(a) {
        var n := LittleEndian(a);
        assert (a + b)[n..] == a[n..] + b;
        FramedSplits(a[n..], b);
      }
    }
  }

  lemma PacketInFront(a: Bytes, b: Bytes)
    requires Cuttable(a)
    ensures var n := LittleEndian(a);
      Cut(a + b) == Cutting([a[..n]] + Cut(a[n..] + b).packets, Cut(a[n..] + b).rest)
  {
    var n := LittleEndian(a);
    assert (a + b)[..4] == a[..4];
    assert (a + b)[n..] == a[n..] + b && (a + b)[..n] == a[..n];
  }

  lemma PacketsAssociate(p: Bytes, a: seq<Bytes>, b: seq<Bytes>)
    ensures [p] + (a + b) == [p] + a + b
  {
  }

  /** Cutting can be interrupted anywhere and resumed with what was left. */
  lemma {:induction false} CutResumes(a: Bytes, b: Bytes)
    ensures Cut(a + b) == Cutting(Cut(a).packets + Cut(Cut(a).rest + b).packets, Cut(Cut(a).rest + b).rest)
    decreases |a|
  {
    if Cuttable(a) {
      var tail := a[LittleEndian(a)..];
      PacketInFront(a, b);
      CutResumes(tail, b);
      PacketsAssociate(a[..LittleEndian(a)], Cut(tail).packets, Cut(Cut(tail).rest + b).packets);
    } else {
      assert Cut(a).packets == [];
    }
  }

  lemma {:induction false} TabulateAppend(lib: Library, table: Table, a: seq<Bytes>, b: seq<Bytes>)
    ensures Tabulate(lib, table, a + b) == Tabulate(lib, Tabulate(lib, table, a), b)
    ensures Report(lib, table, a + b) == Report(lib, table, a) + Report(lib, Tabulate(lib, table, a), b)
    decreases |b|
  {
    if b == [] {
      assert a + b == a;
    } else {
      var b', last := b[..|b| - 1], b[|b| - 1];
      assert (a + b)[..|a + b| - 1] == a + b' && (a + b)[|a + b| - 1] == last;
      TabulateAppend(lib, table, a, b');
    }
  }

  // ---------------------------------------------------------------------------
  // Chunking independence
  // ---------------------------------------------------------------------------

  /** Between two calls the parser rests, and its buffer is what the stream leaves uncut. */
  lemma AfterRests(lib: Library, p: Parser, data: Bytes)
    requires Framed(p.buffer + data)
    ensures Resting(After(lib, p, data))
  {
    CutLeavesLessThanOne(p.buffer + data);
  }

  /** Two calls amount to one. */
  lemma TwoCalls(lib: Library, p: Parser, a: Bytes, b: Bytes)
    ensures After(lib, After(lib, p, a), b) == After(lib, p, a + b)
    ensures EventsOf(lib, p, a) + EventsOf(lib, After(lib, p, a), b) == EventsOf(lib, p, a + b)
  {
    var c := Cut(p.buffer + a);
    assert p.buffer + (a + b) == p.buffer + a + b;
    CutResumes(p.buffer + a, b);
    TabulateAppend(lib, p.table, c.packets, Cut(c.rest + b).packets);
    LastLengthResumes(p, a, b);
  }

  lemma {:induction false} LastPacketResumes(front: seq<Bytes>, back: Cutting, before: nat, first: Cutting)
    requires first.packets == front && (back.packets == [] ==> |first.rest| <= |back.rest|)
    requires back.packets == [] && |first.rest| >= 4 ==> back.rest[..4] == first.rest[..4]
    ensures LastLength(back, LastLength(first, before)) ==
      LastLength(Cutting(front + back.packets, back.rest), before)
  {
    var all := front + back.packets;
    if back.packets != [] {
      assert all[|all| - 1] == back.packets[|back.packets| - 1];
    } else {
      assert all == front;
    }
  }

  lemma LastLengthResumes(p: Parser, a: Bytes, b: Bytes)
    ensures var c := Cut(p.buffer + a);
      LastLength(Cut(c.rest + b), LastLength(c, p.bodyLength)) == LastLength(Cut(p.buffer + a + b), p.bodyLength)
  {
    var c := Cut(p.buffer + a);
    var d := Cut(c.rest + b);
    CutResumes(p.buffer + a, b);
    assert d.packets == [] ==> d.rest == c.rest + b;
    LastPacketResumes(c.packets, d, p.bodyLength, c);
  }

  /** A parser fed one chunk after another. */
  function Feed(lib: Library, p: Parser, chunks: seq<Bytes>): Parser
    decreases |chunks|
  {
    if chunks == [] then p else After(lib, Feed(lib, p, chunks[..|chunks| - 1]), chunks[|chunks| - 1])
  }

  function FeedEvents(lib: Library, p: Parser, chunks: seq<Bytes>): seq<DeviceEvent>
    decreases |chunks|
  {
    if chunks == [] then []
    else
      var before, last := chunks[..|chunks| - 1], chunks[|chunks| - 1];
      FeedEvents(lib, p, before) + EventsOf(lib, Feed(lib, p, before), last)
  }

  lemma {:induction false} ConcatAppend(parts: seq<Bytes>, last: Bytes)
    ensures Concat(parts + [last]) == Concat(parts) + last
    decreases |parts|
  {
    if parts == [] {
      assert parts + [last] == [last];
      assert Concat([last]) == last + Concat([last][1..]);
    } else {
      assert (parts + [last])[0] == parts[0] && (parts + [last])[1..] == parts[1..] + [last];
      ConcatAppend(parts[1..], last);
    }
  }

  /**
   * However a stream is split into received pieces, the events, the device table, the buffer and
   * the cached length come out as if it had arrived in one piece.
   */
  lemma {:induction false} ChunkingIndependence(lib: Library, p: Parser, chunks: seq<Bytes>)
    requires Resting(p) && Framed(p.buffer)
    ensures Feed(lib, p, chunks) == After(lib, p, Concat(chunks))
    ensures FeedEvents(lib, p, chunks) == EventsOf(lib, p, Concat(chunks))
    decreases |chunks|
  {
    if chunks == [] {
      assert p.buffer + [] == p.buffer;
      assert !Cuttable(p.buffer);
    } else {
      var before, last := chunks[..|chunks| - 1], chunks[|chunks| - 1];
      assert chunks == before + [last];
      ChunkingIndependence(lib, p, before);
      ConcatAppend(before, last);
      TwoCalls(lib, p, Concat(before), last);
    }
  }

  /** Every call gets bytes that make no packet of length zero. */
  predicate EveryCallFramed(lib: Library, p: Parser, chunks: seq<Bytes>)
    decreases |chunks|
  {
    chunks == [] || (
      && EveryCallFramed(lib, p, chunks[..|chunks| - 1])
      && Framed(Feed(lib, p, chunks[..|chunks| - 1]).buffer + chunks[|chunks| - 1]))
  }

  /** Whether every call ends does not depend on the split either: it is a property of the stream. */
  lemma {:induction false} EveryCallEndsIff(lib: Library, p: Parser, chunks: seq<Bytes>)
    requires Resting(p) && Framed(p.buffer)
    ensures EveryCallFramed(lib, p, chunks) <==> Framed(p.buffer + Concat(chunks))
    decreases |chunks|
  {
    if chunks == [] {
      assert p.buffer + [] == p.buffer;
    } else {
      var before, last := chunks[..|chunks| - 1], chunks[|chunks| - 1];
      assert chunks == before + [last];
      EveryCallEndsIff(lib, p, before);
      ConcatAppend(before, last);
      assert p.buffer + Concat(chunks) == p.buffer + Concat(before) + last;
      ChunkingIndependence(lib, p, before);
      FramedSplits(p.buffer + Concat(before), last);
    }
  }

  // ---------------------------------------------------------------------------
  // When the loop of one call ends
  // ---------------------------------------------------------------------------

  /** One turn of the loop: the state after it if a packet was drained, nothing if the loop ends. */
  function DrainOnce(lib: Library, p: Parser): Option<Parser>
    requires p.hasLength ==> |p.buffer| >= 4 && p.bodyLength == LittleEndian(p.buffer)
  {
    var n := if p.hasLength then p.bodyLength else if |p.buffer| >= 4 then LittleEndian(p.buffer) else 0;
    if |p.buffer| >= 4 && n <= |p.buffer|
    then Some(Parser(Update(p.table, Accepted(lib, p.buffer[..n])), p.buffer[n..], false, n))
    else None
  }

  predicate EndsWithin(lib: Library, p: Parser, turns: nat)
    requires p.hasLength ==> |p.buffer| >= 4 && p.bodyLength == LittleEndian(p.buffer)
    decreases turns
  {
    DrainOnce(lib, p) == None || (turns > 0 && EndsWithin(lib, DrainOnce(lib, p).value, turns - 1))
  }

  lemma {:induction false} FramedEnds(lib: Library, p: Parser)
    requires p.hasLength ==> |p.buffer| >= 4 && p.bodyLength == LittleEndian(p.buffer)
    requires Framed(p.buffer)
    ensures EndsWithin(lib, p, |p.buffer|)
    decreases |p.buffer|
  {
    if DrainOnce(lib, p).Some? {
      var next := DrainOnce(lib, p).value;
      FramedEnds(lib, next);
      EndsLater(lib, next, |next.buffer|, |p.buffer| - 1);
    }
  }

  lemma {:induction false} EndsLater(lib: Library, p: Parser, turns: nat, more: nat)
    requires p.hasLength ==> |p.buffer| >= 4 && p.bodyLength == LittleEndian(p.buffer)
    requires turns <= more && EndsWithin(lib, p, turns)
    ensures EndsWithin(lib, p, more)
    decreases turns
  {
    if DrainOnce(lib, p).Some? {
      EndsLater(lib, DrainOnce(lib, p).value, turns - 1, more - 1);
    }
  }

  lemma {:induction false} UnframedNeverEnds(lib: Library, p: Parser, turns: nat)
    requires p.hasLength ==> |p.buffer| >= 4 && p.bodyLength == LittleEndian(p.buffer)
    requires !Framed(p.buffer)
    ensures !EndsWithin(lib, p, turns)
    decreases turns
  {
    if turns > 0 {
      assert LittleEndian(p.buffer) == 0 ==> p.buffer[0..] == p.buffer;
      UnframedNeverEnds(lib, DrainOnce(lib, p).value, turns - 1);
    }
  }

  ghost predicate Ends(lib: Library, p: Parser)
    requires p.hasLength ==> |p.buffer| >= 4 && p.bodyLength == LittleEndian(p.buffer)
  {
    exists turns: nat :: EndsWithin(lib, p, turns)
  }

  /** The loop of `on_recv` ends exactly when no packet in the buffered bytes declares length zero. */
  lemma LoopEndsIff(lib: Library, p: Parser)
    requires p.hasLength ==> |p.buffer| >= 4 && p.bodyLength == LittleEndian(p.buffer)
    ensures Ends(lib, p) <==> Framed(p.buffer)
  {
    if Framed(p.buffer) {
      FramedEnds(lib, p);
    }
    if turns: nat :| EndsWithin(lib, p, turns) {
      if !Framed(p.buffer) {
        UnframedNeverEnds(lib, p, turns);
      }
    }
  }

  // ---------------------------------------------------------------------------
  // The table and the trace
  // ---------------------------------------------------------------------------

  predicate About(msg: Message, num: nat) {
    (msg.Attach? || msg.Detach?) && msg.num == num
  }

  /** The id under which `num` was attached last, unless it has been detached since. */
  function Latest(lib: Library, packets: seq<Bytes>, num: nat): Option<string>
    decreases |packets|
  {
    if packets == [] then None
    else
      var msg := Accepted(lib, packets[|packets| - 1]);
      if !About(msg, num) then Latest(lib, packets[..|packets| - 1], num)
      else if msg.Attach? then Some(msg.id)
      else None
  }

  /** A number is in the table with an id exactly when its last accepted message attached that id. */
  lemma {:induction false} TableIsLatest(lib: Library, packets: seq<Bytes>, num: nat)
    ensures var table := Tabulate(lib, map[], packets);
      Latest(lib, packets, num) == if num in table then Some(table[num]) else None
    decreases |packets|
  {
    if packets != [] {
      TableIsLatest(lib, packets[..|packets| - 1], num);
    }
  }

  /** A detach is reported exactly for a number attached and not detached before, with its latest id. */
  lemma DetachReportsLatest(lib: Library, packets: seq<Bytes>, last: Bytes, num: nat)
    requires Accepted(lib, last) == Detach(num)
    ensures Report(lib, map[], packets + [last]) ==
      Report(lib, map[], packets) +
      (match Latest(lib, packets, num) case Some(id) => [Detached(id, AsI32(num))] case None => [])
  {
    TableIsLatest(lib, packets, num);
    assert (packets + [last])[..|packets + [last]| - 1] == packets;
  }

  // ---------------------------------------------------------------------------
  // Packets that were built
  // ---------------------------------------------------------------------------

  lemma WordRoundTrip(n: nat, rest: Bytes)
    requires n < 0x1_0000_0000
    ensures LittleEndian(Word(n) + rest) == n
  {
    var a, b, c := n / 0x100, n / 0x1_0000, n / 0x100_0000;
    assert a / 0x100 == b && b / 0x100 == c && c % 0x100 == c;
    assert n == a * 0x100 + n % 0x100 && a == b * 0x100 + a % 0x100 && b == c * 0x100 + b % 0x100;
  }

  /** A built packet says what its property list says. */
  lemma BuiltPacketClassified(lib: Library, xml: Bytes)
    requires HEADER_SIZE + |xml| < 0x1_0000_0000
    ensures Classify(lib, BuildPacket(xml)) == MessageOfXml(lib, xml)
  {
    var p := BuildPacket(xml);
    WordRoundTrip(HEADER_SIZE + |xml|, Word(1) + Word(TYPE_PLIST) + Word(1) + xml);
    WordRoundTrip(1, Word(TYPE_PLIST) + Word(1) + xml);
    WordRoundTrip(TYPE_PLIST, Word(1) + xml);
    assert p == Word(HEADER_SIZE + |xml|) + (Word(1) + Word(TYPE_PLIST) + Word(1) + xml);
    assert p[4..] == Word(1) + (Word(TYPE_PLIST) + Word(1) + xml);
    assert p[8..] == Word(TYPE_PLIST) + (Word(1) + xml);
    assert p[HEADER_SIZE..] == xml;
  }

  lemma BuiltPacketLeads(xml: Bytes, rest: Bytes)
    requires HEADER_SIZE + |xml| < 0x1_0000_0000
    ensures var p := BuildPacket(xml);
      && |p| == HEADER_SIZE + |xml| && LittleEndian(p + rest) == |p|
      && (p + rest)[..|p|] == p && (p + rest)[|p|..] == rest
  {
    var body := Word(1) + Word(TYPE_PLIST) + Word(1) + xml;
    WordRoundTrip(HEADER_SIZE + |xml|, body + rest);
    assert BuildPacket(xml) + rest == Word(HEADER_SIZE + |xml|) + (body + rest);
  }

  /** Built packets, sent one after another, are cut apart again, and nothing is left over. */
  lemma {:induction false} BuiltPacketsCutApart(xmls: seq<Bytes>)
    requires forall xml | xml in xmls :: HEADER_SIZE + |xml| < 0x1_0000_0000
    ensures Framed(Concat(BuildPackets(xmls)))
    ensures Cut(Concat(BuildPackets(xmls))) == Cutting(BuildPackets(xmls), [])
    decreases |xmls|
  {
    if xmls != [] {
      var p, more := BuildPacket(xmls[0]), BuildPackets(xmls[1..]);
      BuiltPacketsCutApart(xmls[1..]);
      BuiltPacketLeads(xmls[0], Concat(more));
      assert ([p] + more)[1..] == more;
      CutLeads(p, Concat(more));
    }
  }

  lemma CutLeads(p: Bytes, rest: Bytes)
    requires |p + rest| >= 4 && LittleEndian(p + rest) == |p| > 0
    requires (p + rest)[..|p|] == p && (p + rest)[|p|..] == rest
    ensures Cut(p + rest) == Cutting([p] + Cut(rest).packets, Cut(rest).rest)
    ensures Framed(p + rest) == Framed(rest)
  {
  }
}
