// Lines read back what was printed, stop at their terminator, and never disturb earlier entries.

module PortConfigLaws {
  import opened Wrappers
  import opened PortGrammar
  import opened PortGrammarLaws
  import opened PortConfigModel

  // ---------------------------------------------------------------------------
  // Numbers
  // ---------------------------------------------------------------------------

  lemma {:induction false} DecimalRoundTrip(n: nat)
    ensures IsNumber(Decimal(n)) && Value(Decimal(n)) == n
  {
    var last := ['0' + (n % 10) as char];
    if n < 10 {
      assert Decimal(n) == last && last[..0] == "";
    } else {
      DecimalRoundTrip(n / 10);
      assert Decimal(n)[..|Decimal(n)| - 1] == Decimal(n / 10);
    }
  }

  lemma SignedRoundTrip(n: int)
    requires I32_MIN <= n <= I32_MAX
    ensures IsSignedNumber(Signed(n)) && ParseI32(Signed(n)) == Some(n)
  {
    DecimalRoundTrip(if n < 0 then -n else n);
    if n < 0 {
      assert Signed(n)[1..] == Decimal(-n);
    }
  }

  // ---------------------------------------------------------------------------
  // Pieces
  // ---------------------------------------------------------------------------

  lemma JoinCons(p: string, parts: seq<string>)
    requires parts != []
    ensures Join([p] + parts) == p + ("," + Join(parts))
  {
    assert ([p] + parts)[1..] == parts;
  }

  lemma {:induction false} PiecesHaveNoComma(text: string)
    ensures forall p | p in Pieces(text) :: All(NotComma, p)
    decreases |text|
  {
    TakeSound(NotComma, text);
    TakeShortens(NotComma, text);
    if Take(NotComma, text).back != "" {
      PiecesHaveNoComma(Take(NotComma, text).back[1..]);
    }
  }

  lemma AtComma(text: string)
    requires Take(NotComma, text).back != ""
    ensures var h := Take(NotComma, text); text == h.front + ("," + h.back[1..])
  {
    TakeSound(NotComma, text);
    assert Take(NotComma, text).back == "," + Take(NotComma, text).back[1..];
  }

  /** The pieces are the text between its commas: they join to it, and contain no comma themselves. */
  lemma {:induction false} PiecesJoin(text: string)
    ensures Join(Pieces(text)) == text
    ensures forall p | p in Pieces(text) :: All(NotComma, p)
    decreases |text|
  {
    PiecesHaveNoComma(text);
    TakeShortens(NotComma, text);
    var h := Take(NotComma, text);
    if h.back == "" {
      TakeSound(NotComma, text);
      assert h.front + h.back == h.front;
    } else {
      PiecesJoin(h.back[1..]);
      AtComma(text);
      JoinCons(h.front, Pieces(h.back[1..]));
    }
  }

  lemma PiecesOfCons(p: string, rest: string)
    requires All(NotComma, p)
    ensures Pieces(p + ("," + rest)) == [p] + Pieces(rest)
  {
    TakeIs(NotComma, p, "," + rest);
    assert ("," + rest)[1..] == rest;
  }

  lemma {:induction false} JoinPieces(parts: seq<string>)
    requires parts != [] && forall p | p in parts :: All(NotComma, p)
    ensures Pieces(Join(parts)) == parts
  {
    if |parts| == 1 {
      TakeAll(NotComma, parts[0]);
    } else {
      JoinPieces(parts[1..]);
      PiecesOfCons(parts[0], Join(parts[1..]));
    }
  }

  // ---------------------------------------------------------------------------
  // Terminators
  // ---------------------------------------------------------------------------

  lemma {:induction false} TakeBeforeStop(cl: CharClass, a: string, b: string)
    requires b != "" && !Has(cl, b[0])
    ensures Take(cl, a + b).front == Take(cl, a).front
  {
    if a == "" {
      assert a + b == b;
    } else {
      assert (a + b)[1..] == a[1..] + b;
      TakeBeforeStop(cl, a[1..], b);
    }
  }

  /** Text after a `#`, a newline or a NUL never matters. */
  lemma AfterTerminatorIgnored(line: string, stop: char, comment: string)
    requires !Has(NotStop, stop)
    ensures ReadLine(Match, line + ([stop] + comment)) == ReadLine(Match, line)
  {
    TakeBeforeStop(NotStop, line, [stop] + comment);
  }

  // ---------------------------------------------------------------------------
  // Which lines are accepted, and where reading stops
  // ---------------------------------------------------------------------------

  ghost predicate Readable(p: string) {
    All(Blank, p) || exists s :: Derives(s, p)
  }

  /** The pattern skips blanks in front of a segment, so it matches the same with and without them. */
  lemma BlanksInFront(p: string)
    requires !All(Blank, p)
    ensures Take(Blank, p).back != ""
    ensures Match(p).Some? <==> Match(Take(Blank, p).back).Some?
  {
    var h := Take(Blank, p);
    TakeSound(Blank, p);
    TakeIs(Blank, "", h.back);
    assert "" + h.back == h.back && h.front + "" == h.front;
  }

  /** A piece is refused exactly when it is neither blank nor derived, at its first character. */
  lemma RefusedIff(p: string)
    ensures ReadPiece(Match, p).Bad? <==> !Readable(p)
    ensures ReadPiece(Match, p).Bad? ==> ReadPiece(Match, p).blanks == |Take(Blank, p).front|
  {
    LeftmostFirst(p);
    if All(Blank, p) {
      TakeAll(Blank, p);
    } else {
      BlanksInFront(p);
    }
  }

  lemma {:induction false} WalkAcceptsIff(read: string -> Reading, pieces: seq<string>, at: nat)
    ensures Walk(read, pieces, at).invalid.None? <==> forall p | p in pieces :: !read(p).Bad?
    decreases |pieces|
  {
    if pieces != [] {
      var p := pieces[0];
      WalkAcceptsIff(read, pieces[1..], at + |p| + 1);
      assert forall q :: q in pieces <==> q == p || q in pieces[1..];
    }
  }

  /** A line is accepted exactly when each piece before its terminator is blank or a segment. */
  lemma AcceptedIff(line: string)
    ensures ReadLine(Match, line).invalid.None? <==> forall p | p in Pieces(Visible(line)) :: Readable(p)
  {
    WalkAcceptsIff(Reader(Match), Pieces(Visible(line)), 0);
    forall p ensures ReadPiece(Match, p).Bad? <==> !Readable(p) {
      RefusedIff(p);
    }
  }

  /** The outcome of a piece followed by what the rest of the text comes to. */
  function Then(reading: Reading, at: nat, rest: Outcome): Outcome {
    match reading
    case Skip => rest
    case Good(entry) => Prepend(entry, rest)
    case Bad(blanks) => Outcome([], Some(at + blanks))
  }

  lemma WalkStep(read: string -> Reading, p: string, rest: string, at: nat)
    requires All(NotComma, p)
    ensures Walk(read, Pieces(p + ("," + rest)), at) == Then(read(p), at, Walk(read, Pieces(rest), at + |p| + 1))
  {
    PiecesOfCons(p, rest);
    assert Pieces(p + ("," + rest))[1..] == Pieces(rest);
  }

  /** The first piece of `text` that cannot be read starts at `start`; what is before it is read. */
  predicate StopsAt(read: string -> Reading, text: string, at: nat, start: nat) {
    && start <= |text| && (start == 0 || text[start - 1] == ',')
    && var r := read(Take(NotComma, text[start..]).front);
    && r.Bad?
    && Walk(read, Pieces(text), at).invalid == Some(at + start + r.blanks)
    && Walk(read, Pieces(text[..start]), at) == Outcome(Walk(read, Pieces(text), at).entries, None)
  }

  lemma StopsLater(read: string -> Reading, p: string, rest: string, at: nat, start: nat)
    requires All(NotComma, p) && !read(p).Bad? && StopsAt(read, rest, at + |p| + 1, start)
    ensures StopsAt(read, p + ("," + rest), at, |p| + 1 + start)
  {
    TextUpTo(p, rest, start);
    WalkStep(read, p, rest, at);
    WalkStep(read, p, rest[..start], at);
  }

  lemma StopsHere(read: string -> Reading, text: string, at: nat)
    requires read("") == Skip && read(Take(NotComma, text).front).Bad?
    ensures StopsAt(read, text, at, 0)
  {
    assert text[0..] == text && text[..0] == "";
    assert Pieces("") == [""];
  }

  lemma {:induction false} WalkStops(read: string -> Reading, text: string, at: nat) returns (start: nat)
    requires read("") == Skip
    requires Walk(read, Pieces(text), at).invalid.Some?
    ensures StopsAt(read, text, at, start)
    decreases |text|
  {
    var p := Take(NotComma, text).front;
    if read(p).Bad? {
      start := 0;
      StopsHere(read, text, at);
    } else {
      var rest := AfterComma(read, text, at);
      var more := WalkStops(read, rest, at + |p| + 1);
      StopsLater(read, p, rest, at, more);
      start := |p| + 1 + more;
    }
  }

  lemma AfterComma(read: string -> Reading, text: string, at: nat) returns (rest: string)
    requires !read(Take(NotComma, text).front).Bad? && Walk(read, Pieces(text), at).invalid.Some?
    ensures All(NotComma, Take(NotComma, text).front) && text == Take(NotComma, text).front + ("," + rest)
    ensures Walk(read, Pieces(rest), at + |Take(NotComma, text).front| + 1).invalid.Some?
  {
    var h := Take(NotComma, text);
    TakeSound(NotComma, text);
    rest := h.back[1..];
    assert h.back == "," + rest;
  }

  lemma TextUpTo(p: string, rest: string, n: nat)
    requires n <= |rest|
    ensures var text, start := p + ("," + rest), |p| + 1 + n;
      && text[..start] == p + ("," + rest[..n])
      && text[start..] == rest[n..]
      && text[start - 1] == if n == 0 then ',' else rest[n - 1]
  {
  }

  lemma VisiblePrefix(line: string, n: nat)
    requires n <= |Visible(line)|
    ensures Visible(Visible(line)[..n]) == Visible(line)[..n]
  {
    TakeSound(NotStop, line);
    TakeAll(NotStop, Visible(line)[..n]);
  }

  /** The same for a line, for any way to read pieces. */
  lemma LineStops(read: string -> Reading, line: string) returns (start: nat)
    requires read("") == Skip && Walk(read, Pieces(Visible(line)), 0).invalid.Some?
    ensures start <= |Visible(line)| && (start == 0 || Visible(line)[start - 1] == ',')
    ensures var r := read(Take(NotComma, Visible(line)[start..]).front);
      r.Bad? && Walk(read, Pieces(Visible(line)), 0).invalid == Some(start + r.blanks)
    ensures Walk(read, Pieces(Visible(Visible(line)[..start])), 0) ==
            Outcome(Walk(read, Pieces(Visible(line)), 0).entries, None)
  {
    start := WalkStops(read, Visible(line), 0);
    VisiblePrefix(line, start);
  }

  /**
   * A rejected line stops at its first refused piece: the position returned is where that piece
   * starts after its blanks, and the entries added are those of the text before the piece.
   */
  lemma RejectedAtFirstInvalid(re: Regex, line: string) returns (start: nat)
    requires ReadLine(re, line).invalid.Some?
    ensures start <= |Visible(line)| && (start == 0 || Visible(line)[start - 1] == ',')
    ensures var r := ReadPiece(re, Take(NotComma, Visible(line)[start..]).front);
      r.Bad? && ReadLine(re, line).invalid == Some(start + r.blanks)
    ensures ReadLine(re, Visible(line)[..start]) == Outcome(ReadLine(re, line).entries, None)
  {
    start := LineStops(Reader(re), line);
  }

  // ---------------------------------------------------------------------------
  // Round trip
  // ---------------------------------------------------------------------------

  function IdText(e: Entry): string {
    if e.deviceId.Some? then e.deviceId.value else "null"
  }

  lemma Printed(e: Entry)
    requires Printable(e)
    ensures ReadPiece(Match, Print(e)) == Good(e)
  {
    var id, min, max := IdText(e), Signed(e.minPort), Decimal(e.maxPort);
    SignedRoundTrip(e.minPort);
    DecimalRoundTrip(e.maxPort);
    ColonAndMinimumForce(Plain(id, min, max));
    PlainSpelled(id, min, max);
    PlainEntry(e, min, max);
    LeadForced(Plain(id, min, max));
  }

  lemma PlainEntry(e: Entry, min: string, max: string)
    requires Printable(e) && IsSignedNumber(min) && IsNumber(max)
    requires ParseI32(min) == Some(e.minPort) && Value(max) == e.maxPort
    ensures EntryOf(Plain(IdText(e), min, max)) == e
  {
  }

  /** Neither a comma nor a terminator. */
  predicate Harmless(s: string) {
    All(NotComma, s) && All(NotStop, s)
  }

  lemma HarmlessAppend(a: string, b: string)
    requires Harmless(a) && Harmless(b)
    ensures Harmless(a + b)
  {
  }

  lemma HarmlessNumbers(s: string)
    requires IsSignedNumber(s)
    ensures Harmless(s)
  {
    if StartsWith(s, '-') {
      assert s == "-" + s[1..];
    }
  }

  lemma HarmlessId(e: Entry)
    requires Printable(e)
    ensures Harmless(IdText(e))
  {
  }

  lemma PrintedIsOnePiece(e: Entry)
    requires Printable(e)
    ensures All(NotComma, Print(e)) && All(NotStop, Print(e))
  {
    var id, min, max := IdText(e), Signed(e.minPort), Decimal(e.maxPort);
    SignedRoundTrip(e.minPort);
    DecimalRoundTrip(e.maxPort);
    HarmlessId(e);
    HarmlessNumbers(min);
    HarmlessNumbers(max);
    HarmlessAppend(id, ":");
    HarmlessAppend(id + ":", min);
    HarmlessAppend(id + ":" + min, "-");
    HarmlessAppend(id + ":" + min + "-", max);
  }

  lemma PlainSpelled(id: string, min: string, max: string)
    ensures Spell(Plain(id, min, max)) == id + ":" + min + "-" + max
  {
    assert "" + (id + ("" + (":" + ("" + (min + ("" + ("-" + ("" + (max + ""))))))))) == id + ":" + min + "-" + max;
  }

  lemma {:induction false} WalkGood(read: string -> Reading, pieces: seq<string>, entries: seq<Entry>, at: nat)
    requires |pieces| == |entries|
    requires forall i | 0 <= i < |pieces| :: read(pieces[i]) == Good(entries[i])
    ensures Walk(read, pieces, at) == Outcome(entries, None)
    decreases |pieces|
  {
    if pieces != [] {
      WalkGood(read, pieces[1..], entries[1..], at + |pieces[0]| + 1);
    }
  }

  lemma {:induction false} PrintAllLength(entries: seq<Entry>)
    requires forall e | e in entries :: Printable(e)
    ensures |PrintAll(entries)| == |entries|
  {
    if entries != [] {
      PrintAllLength(entries[1..]);
    }
  }

  lemma {:induction false} PrintAllAt(entries: seq<Entry>, i: nat)
    requires (forall e | e in entries :: Printable(e)) && i < |entries|
    ensures i < |PrintAll(entries)| && PrintAll(entries)[i] == Print(entries[i])
    decreases |entries|
  {
    PrintAllLength(entries);
    if i > 0 {
      PrintAllAt(entries[1..], i - 1);
    }
  }

  lemma PrintedPieces(entries: seq<Entry>)
    requires forall e | e in entries :: Printable(e)
    ensures forall p | p in PrintAll(entries) :: All(NotComma, p) && All(NotStop, p)
  {
    PrintAllLength(entries);
    forall i | 0 <= i < |entries| ensures All(NotComma, PrintAll(entries)[i]) && All(NotStop, PrintAll(entries)[i]) {
      PrintAllAt(entries, i);
      PrintedIsOnePiece(entries[i]);
    }
  }

  lemma {:induction false} JoinHasNoStop(parts: seq<string>)
    requires forall p | p in parts :: All(NotStop, p)
    ensures All(NotStop, Join(parts))
  {
    if parts != [] {
      assert All(NotStop, parts[0]);
      JoinHasNoStop(parts[1..]);
    }
  }

  /** Printing entries and reading the line gives the entries back, all of them and in order. */
  lemma PrintReadRoundTrip(entries: seq<Entry>)
    requires forall e | e in entries :: Printable(e)
    ensures ReadLine(Match, Join(PrintAll(entries))) == Outcome(entries, None)
  {
    var parts := PrintAll(entries);
    PrintAllLength(entries);
    forall i | 0 <= i < |entries| ensures ReadPiece(Match, parts[i]) == Good(entries[i]) {
      PrintAllAt(entries, i);
      Printed(entries[i]);
    }
    WalkGood(Reader(Match), parts, entries, 0);
    PrintedPieces(entries);
    JoinHasNoStop(parts);
    TakeAll(NotStop, Join(parts));
    if entries == [] {
      assert Pieces("") == [""];
    } else {
      JoinPieces(parts);
    }
  }

  // ---------------------------------------------------------------------------
  // Look-up
  // ---------------------------------------------------------------------------

  /** What is found covers the device, and nothing before it does. */
  lemma {:induction false} FindsFirst(entries: seq<Entry>, deviceId: Option<string>)
    ensures FirstCovering(entries, deviceId).None? <==> forall e | e in entries :: !Covers(e, deviceId)
    ensures forall i | 0 <= i < |entries| && Covers(entries[i], deviceId) &&
                       (forall j | 0 <= j < i :: !Covers(entries[j], deviceId)) ::
      FirstCovering(entries, deviceId) == Some(entries[i])
  {
    if entries != [] {
      var rest := entries[1..];
      FindsFirst(rest, deviceId);
      forall i | 0 <= i < |entries| && Covers(entries[i], deviceId) &&
                 (forall j | 0 <= j < i :: !Covers(entries[j], deviceId))
        ensures FirstCovering(entries, deviceId) == Some(entries[i])
      {
        if i > 0 {
          assert rest[i - 1] == entries[i] && forall j | 0 <= j < i - 1 :: rest[j] == entries[j + 1];
        }
      }
    }
  }

  /** Entries added later never change a look-up that already succeeds. */
  lemma {:induction false} AppendKeepsFinds(entries: seq<Entry>, more: seq<Entry>, deviceId: Option<string>)
    ensures FirstCovering(entries + more, deviceId) ==
      if FirstCovering(entries, deviceId).Some? then FirstCovering(entries, deviceId)
      else FirstCovering(more, deviceId)
  {
    if entries == [] {
      assert entries + more == more;
    } else {
      assert (entries + more)[1..] == entries[1..] + more;
      AppendKeepsFinds(entries[1..], more, deviceId);
    }
  }
}
