// The port configuration: entries added line by line, and the port selected for a device.

module PortConfigs {
  import opened Wrappers
  import opened PortGrammar
  import opened PortGrammarLaws
  import opened PortConfigModel
  import opened PortConfigLaws
  import opened PortReadings

  /** Entries read before, with what the rest comes to. */
  function Glue(added: seq<Entry>, more: Outcome): Outcome {
    Outcome(added + more.entries, more.invalid)
  }

  lemma TextOfLine(line: string)
    ensures var n := |Visible(line)|;
      && n <= |line| && Visible(line) == line[..n] && All(NotStop, line[..n])
      && (n < |line| ==> !Has(NotStop, line[n]))
  {
    TakeSound(NotStop, line);
  }

  /** What one piece adds to `whole`, when `more` is what the pieces after it come to. */
  lemma GlueThen(added: seq<Entry>, r: Reading, at: nat, more: Outcome)
    ensures Glue(added, Then(r, at, more)) ==
      match r
      case Skip => Glue(added, more)
      case Good(entry) => Glue(added + [entry], more)
      case Bad(blanks) => Outcome(added, Some(at + blanks))
  {
    if r.Good? {
      assert added + ([r.entry] + more.entries) == added + [r.entry] + more.entries;
    }
  }

  lemma LastPiece(read: string -> Reading, p: string, at: nat)
    requires All(NotComma, p)
    ensures Walk(read, Pieces(p), at) == Then(read(p), at, Outcome([], None))
  {
    TakeAll(NotComma, p);
    assert Pieces(p) == [p] && [p][1..] == [];
  }

  function Remaining(read: string -> Reading, text: string, at: nat): Outcome {
    if at <= |text| then Walk(read, Pieces(text[at..]), at) else Outcome([], None)
  }

  /** One turn of the loop over the line: past the end of the text nothing is left. */
  lemma OnePiece(read: string -> Reading, text: string, start: nat, end: nat)
    requires start <= end <= |text| && All(NotComma, text[start..end]) && (end < |text| ==> text[end] == ',')
    ensures Remaining(read, text, start) == Then(read(text[start..end]), start, Remaining(read, text, end + 1))
  {
    var p := text[start..end];
    if end < |text| {
      assert text[start..] == p + ("," + text[end + 1..]);
      WalkStep(read, p, text[end + 1..], start);
    } else {
      assert text[start..] == p;
      LastPiece(read, p, start);
    }
  }

  /** The indices have come to rest around one piece. */
  predicate Around(line: string, text: string, start: nat, curr: nat, end: nat) {
    && start <= curr <= end <= |text| <= |line| && text == line[..|text|]
    && All(Blank, line[start..curr]) && All(NotComma, line[curr..end])
    && (curr < end ==> !Has(Blank, line[curr]))
    && (end < |text| <==> end < |line| && line[end] == ',')
  }

  function Classified(captures: Option<Segment>, blanks: nat): Reading {
    match captures case None => Bad(blanks) case Some(s) => Good(EntryOf(s))
  }

  lemma PieceReads(re: Regex, blanks: string, segment: string)
    requires All(Blank, blanks) && (segment == "" || !Has(Blank, segment[0]))
    ensures Reader(re)(blanks + segment) == if segment == "" then Skip else Classified(re(segment), |blanks|)
  {
    TakeIs(Blank, blanks, segment);
    assert segment == "" ==> blanks + segment == blanks;
  }

  lemma SlicesOfPiece(line: string, text: string, start: nat, curr: nat, end: nat)
    requires Around(line, text, start, curr, end)
    ensures text[start..end] == line[start..curr] + line[curr..end] && All(NotComma, text[start..end])
  {
    assert text[start..end] == line[start..end];
    assert line[start..end] == line[start..curr] + line[curr..end];
  }

  lemma PieceAdds(read: string -> Reading, whole: Outcome, text: string, added: seq<Entry>,
                  start: nat, end: nat, empty: bool, captures: Option<Segment>, blanks: nat)
    requires start <= end <= |text| && All(NotComma, text[start..end]) && (end < |text| ==> text[end] == ',')
    requires whole == Glue(added, Remaining(read, text, start))
    requires read(text[start..end]) == if empty then Skip else Classified(captures, blanks)
    ensures
      if empty then whole == Glue(added, Remaining(read, text, end + 1))
      else if captures.Some? then whole == Glue(added + [EntryOf(captures.value)], Remaining(read, text, end + 1))
      else whole == Outcome(added, Some(start + blanks))
  {
    OnePiece(read, text, start, end);
    GlueThen(added, read(text[start..end]), start, Remaining(read, text, end + 1));
  }

  /** What the loop matches is the piece without the blanks in front. */
  lemma ReadsPiece(re: Regex, line: string, added: seq<Entry>, start: nat, curr: nat, end: nat)
    requires Around(line, Visible(line), start, curr, end)
    requires ReadLine(re, line) == Glue(added, Remaining(Reader(re), Visible(line), start))
    ensures var text, captures := Visible(line), re(line[curr..end]);
      if curr == end then ReadLine(re, line) == Glue(added, Remaining(Reader(re), text, end + 1))
      else if captures.Some? then
        ReadLine(re, line) == Glue(added + [EntryOf(captures.value)], Remaining(Reader(re), text, end + 1))
      else ReadLine(re, line) == Outcome(added, Some(curr))
  {
    var text := Visible(line);
    var blanks, segment := line[start..curr], line[curr..end];
    SlicesOfPiece(line, text, start, curr, end);
    PieceReads(re, blanks, segment);
    PieceAdds(Reader(re), ReadLine(re, line), text, added, start, end, curr == end, re(segment), curr - start);
  }

  lemma AtEnd(read: string -> Reading, whole: Outcome, text: string, added: seq<Entry>, at: nat)
    requires read("") == Skip
    requires at >= |text| && whole == Glue(added, Remaining(read, text, at))
    ensures whole == Outcome(added, None)
  {
    if at == |text| {
      assert text[at..] == "";
      LastPiece(read, "", at);
    }
  }

  class PortConfig {
    var entries: seq<Entry>
    const re: Regex

    constructor ()
      ensures entries == [] && re == Match
    {
      entries, re := [], Match;
    }

    method Clear()
      modifies this
      ensures entries == []
    {
      entries := [];
    }

    method Add(deviceId: Option<string>, minPort: int, maxPort: int)
      modifies this
      ensures entries == old(entries) + [Entry(deviceId, minPort, maxPort)]
    {
      entries := entries + [Entry(deviceId, minPort, maxPort)];
    }

    /** Adds the entries of a line; returns the position of its first invalid piece, if any. */
    method AddLine(line: string) returns (invalid: Option<nat>)
      modifies this
      ensures entries == old(entries) + ReadLine(re, line).entries
      ensures invalid == ReadLine(re, line).invalid
    {
      ghost var added: seq<Entry> := [];
      ghost var text := Visible(line);
      var curr, len := 0, |line|;
      TextOfLine(line);
      assert text[0..] == text;
      while curr < len
        invariant curr <= |text|
        invariant entries == old(entries) + added
        invariant ReadLine(re, line) == Glue(added, Remaining(Reader(re), text, curr))
        decreases len - curr
      {
        ghost var start := curr;
        var end: nat;
        curr, end := ScanPiece(line, curr);
        ReadsPiece(re, line, added, start, curr, end);
        if curr < end {
          var ok := AddSegment(line[curr..end]);
          if !ok {
            return Some(curr);
          }
          added := added + [EntryOf(re(line[curr..end]).value)];
        }
        if end >= len || line[end] != ',' {
          AtEnd(Reader(re), ReadLine(re, line), text, added, end + 1);
          return None;
        }
        curr := end + 1;
      }
      AtEnd(Reader(re), ReadLine(re, line), text, added, curr);
      return None;
    }

    /** Skips blanks from `start`, then runs to the end of the piece. */
    method ScanPiece(line: string, start: nat) returns (curr: nat, end: nat)
      requires start <= |Visible(line)|
      ensures Around(line, Visible(line), start, curr, end)
    {
      ghost var text := Visible(line);
      TextOfLine(line);
      var len := |line|;
      curr := start;
      while curr < len && (line[curr] == ' ' || line[curr] == '\t')
        invariant start <= curr <= |text| && All(Blank, line[start..curr])
      {
        assert line[start..curr + 1] == line[start..curr] + [line[curr]];
        curr := curr + 1;
      }
      end := curr;
      while end < len && line[end] != '\0' && line[end] != '\n' && line[end] != '#' && line[end] != ','
        invariant curr <= end <= |text| && All(NotComma, line[curr..end])
      {
        assert line[curr..end + 1] == line[curr..end] + [line[end]];
        end := end + 1;
      }
    }

    /** Adds the entry of a segment, if it matches. */
    method AddSegment(segment: string) returns (ok: bool)
      modifies this
      ensures ok <==> re(segment).Some?
      ensures entries == old(entries) + if ok then [EntryOf(re(segment).value)] else []
    {
      var captures := re(segment);
      if captures.Some? {
        AddCaptures(captures.value);
      }
      ok := captures.Some?;
    }

    /** Adds the entry a match stands for; numbers that do not fit count as absent. */
    method AddCaptures(caps: Segment)
      modifies this
      ensures entries == old(entries) + [EntryOf(caps)]
      ensures Valid(caps) ==> Means(caps, entries[|entries| - 1])
    {
      if Valid(caps) {
        EntryMeans(caps);
      }
      var deviceId: Option<string> := Some("*");
      if caps.id != "" {
        deviceId := if EqualsIgnoringCase(caps.id, "null") then None else Some(caps.id);
      }
      var minPort := 0;
      if caps.rest.ports.min != "" {
        minPort := OrElse(ParseI32(caps.rest.ports.min), 0);
      }
      var maxPort := minPort;
      if caps.rest.ports.tail.Some? {
        maxPort := OrElse(ParseI32(caps.rest.ports.tail.value.digits), minPort);
      }
      Add(deviceId, minPort, maxPort);
    }

    /** The first entry for a device. */
    method Find(deviceId: Option<string>) returns (found: Option<Entry>)
      ensures found == FirstCovering(entries, deviceId)
    {
      for i := 0 to |entries|
        invariant FirstCovering(entries, deviceId) == FirstCovering(entries[i..], deviceId)
      {
        var entry := entries[i];
        match (entry.deviceId, deviceId) {
          case (Some(s), did) =>
            if s == "*" || (did.Some? && EqualsIgnoringCase(s, did.value)) {
              return Some(entry);
            }
          case (None, None) => return Some(entry);
          case (None, Some(_)) =>
        }
      }
      return None;
    }

    /**
     * Selects the range of a device, and drops a current port that is outside it. A negative current
     * port stands for none.
     */
    method SelectPort(deviceId: Option<string>, currentPort: int)
      returns (ok: bool, current: int, minPort: int, maxPort: int)
      ensures ok <==> FirstCovering(entries, deviceId).Some?
      ensures ok ==> minPort == FirstCovering(entries, deviceId).value.minPort
      ensures ok ==> maxPort == FirstCovering(entries, deviceId).value.maxPort
      ensures ok ==> current == if currentPort < 0 || minPort <= currentPort <= maxPort then currentPort else -1
      ensures !ok ==> current == minPort == maxPort == -1
    {
      var config := Find(deviceId);
      if config.Some? {
        minPort, maxPort := config.value.minPort, config.value.maxPort;
        current := currentPort;
        if currentPort >= 0 && (currentPort < minPort || currentPort > maxPort) {
          current := -1;
        }
        ok := true;
      } else {
        minPort, maxPort, current := -1, -1, -1;
        ok := false;
      }
    }
  }
}
