// What each form of a port-configuration segment comes to, and what a line of them adds.

module PortReadings {
  import opened Wrappers
  import opened PortGrammar
  import opened PortGrammarLaws
  import opened PortConfigModel
  import opened PortConfigLaws

  // ---------------------------------------------------------------------------
  // Numbers that do not fit
  // ---------------------------------------------------------------------------

  /** A written number is read if it is a signed 32-bit one, and counts for nothing otherwise. */
  lemma ParseExact(n: nat)
    ensures ParseI32(Decimal(n)) == if n <= 0x7FFF_FFFF then Some(n) else None
    ensures ParseI32("-" + Decimal(n)).Some? <==> n <= 0x8000_0000
    ensures n <= 0x8000_0000 ==> ParseI32("-" + Decimal(n)).value + n == 0
    ensures IsNumber(Decimal(n)) && IsSignedNumber("-" + Decimal(n))
  {
    DecimalRoundTrip(n);
    assert ("-" + Decimal(n))[1..] == Decimal(n);
  }

  /** Zeros in front do not count. */
  lemma {:induction false} LeadingZero(digits: string)
    ensures Value("0" + digits) == Value(digits)
    decreases |digits|
  {
    if digits == "" {
      assert "0" + digits == "0" && "0"[..0] == "";
    } else {
      var front := digits[..|digits| - 1];
      assert ("0" + digits)[..|"0" + digits| - 1] == "0" + front;
      LeadingZero(front);
    }
  }

  // ---------------------------------------------------------------------------
  // The entry of a derivation
  // ---------------------------------------------------------------------------

  /**
   * `e` is what the pieces of a segment stand for: any device if there is no id, the device list if
   * it is `null`, else the device; from the minimum, or zero if there is none that fits, to
   * the maximum, or the minimum if there is none that fits.
   */
  predicate Means(s: Segment, e: Entry) {
    && (s.id == "" ==> e.deviceId == Some("*"))
    && (s.id != "" && EqualsIgnoringCase(s.id, "null") ==> e.deviceId == None)
    && (s.id != "" && !EqualsIgnoringCase(s.id, "null") ==> e.deviceId == Some(s.id))
    && Reads(s.rest.ports.min, 0, e.minPort)
    && Reads(if s.rest.ports.tail.Some? then s.rest.ports.tail.value.digits else "", e.minPort, e.maxPort)
  }

  /** The number written is `n`; without one that fits, `n` is the default. */
  predicate Reads(text: string, otherwise: int, n: int) {
    var number := if StartsWith(text, '-') then -Value(text[1..]) else Value(text);
    if text != "" && -0x8000_0000 <= number <= 0x7FFF_FFFF then n == number else n == otherwise
  }

  lemma DigitsAreUnsigned(s: string)
    requires IsNumber(s)
    ensures !StartsWith(s, '-')
  {
  }

  lemma EntryMeans(s: Segment)
    requires Valid(s)
    ensures Means(s, EntryOf(s))
  {
    if s.rest.ports.tail.Some? {
      DigitsAreUnsigned(s.rest.ports.tail.value.digits);
    }
  }

  /**
   * A piece that is not blank and can be derived gives one entry: what its most preferred derivation,
   * without the blanks in front, stands for. A blank piece gives none.
   */
  lemma PieceExact(p: string)
    ensures ReadPiece(Match, p) == Skip <==> All(Blank, p)
    ensures ReadPiece(Match, p).Good? ==>
      exists s :: Derives(s, Take(Blank, p).back) && Means(s, ReadPiece(Match, p).entry) &&
        forall d | Derives(d, Take(Blank, p).back) :: AtLeast(s, d)
  {
    var text := Take(Blank, p).back;
    TakeSound(Blank, p);
    assert Take(Blank, p).front + "" == Take(Blank, p).front;
    if All(Blank, p) {
      TakeAll(Blank, p);
    }
    if ReadPiece(Match, p).Good? {
      LeftmostFirst(text);
      EntryMeans(Match(text).value);
    }
  }

  // ---------------------------------------------------------------------------
  // The forms a segment may take
  // ---------------------------------------------------------------------------

  /**
   * A derivation is the one matched if no piece of it could have been given more text: with the
   * ports after it starting with no blank and, without the colon, no character of a long id.
   */
  lemma NoBetterForces(e: Segment)
    requires Valid(e) && !ReadsAsRange(e.rest.ports)
    requires var ports := SpellPorts(e.rest.ports);
      Stops(Blank, ports) && (!e.rest.colon ==> e.rest.gap == "" && !StartsWith(ports, ':'))
    requires IsLongId(e.id) ==> Stops(IdChar, SpellRest(e.rest))
    ensures Match(Spell(e)) == Some(e)
  {
    var next := SpellRest(e.rest);
    LeadForced(e);
    RestNoBetter(e.rest);
    if e.id == "" {
      assert "" + next == next;
      assert next == "" + (":" + (e.rest.gap + SpellPorts(e.rest.ports)));
      TakeIdNone(next);
    } else {
      TakeIdIs(e.id, next);
      if IsLongId(e.id) {
        TakeIs(IdChar, "", next);
        assert "" + next == next && e.id + "" == e.id;
      }
    }
  }

  lemma RestNoBetter(r: Rest)
    requires ValidRest(r) && !ReadsAsRange(r.ports)
    requires var ports := SpellPorts(r.ports);
      Stops(Blank, ports) && (!r.colon ==> r.gap == "" && !StartsWith(ports, ':'))
    ensures MatchRest(SpellRest(r)) == Some(r)
  {
    var ports := SpellPorts(r.ports);
    PortsForced(r.ports);
    TakeIs(Blank, r.gap, ports);
    if r.colon {
      TakeIs(Blank, r.space, ":" + (r.gap + ports));
      assert (":" + (r.gap + ports))[1..] == r.gap + ports;
    } else {
      assert r.gap + ports == ports;
      TakeIs(Blank, r.space, ports);
    }
  }

  /** A segment as one writes it: `who`, a colon or a blank or neither, and the numbers there are. */
  datatype Form = Form(who: string, sep: string, min: Option<int>, max: Option<nat>)

  /** Without a colon an id needs a blank before numbers, else they belong to it; no id needs the colon. */
  predicate Written(f: Form) {
    && (f.who == "" || IsId(f.who)) && (f.who == "" ==> f.sep == ":")
    && (f.sep == ":" || f.sep == " " ||
        (f.sep == "" && (IsLongId(f.who) ==> f.min.None? && f.max.None?)))
  }

  /** A lone maximum is set off from its hyphen, else it would be a negative minimum. */
  function MaxText(f: Form): string {
    if f.max.None? then "" else (if f.min.Some? then "-" else "- ") + Decimal(f.max.value)
  }

  function MinText(f: Form): string {
    if f.min.None? then "" else Signed(f.min.value)
  }

  function FormText(f: Form): string {
    f.who + f.sep + MinText(f) + MaxText(f)
  }

  function FormSegment(f: Form): Segment {
    var tail := if f.max.None? then None else Some(Tail("", if f.min.Some? then "" else " ", Decimal(f.max.value)));
    Segment("", f.who, Rest(if f.sep == " " then " " else "", f.sep == ":", "", Ports(MinText(f), tail, "")))
  }

  lemma FormPortsSpelled(f: Form)
    ensures SpellPorts(FormSegment(f).rest.ports) == MinText(f) + MaxText(f)
  {
    if f.max.Some? {
      var after, digits := if f.min.Some? then "" else " ", Decimal(f.max.value);
      assert "" + ("-" + (after + (digits + ""))) == ("-" + after) + digits;
      assert "-" + "" == "-" && "-" + " " == "- ";
    }
  }

  lemma FormSpelled(f: Form)
    requires Written(f)
    ensures Spell(FormSegment(f)) == FormText(f)
    ensures SpellRest(FormSegment(f).rest) == f.sep + (MinText(f) + MaxText(f))
  {
    FormPortsSpelled(f);
    RestSpelled(FormSegment(f).rest, f.sep, MinText(f) + MaxText(f));
    Regrouped(f.who, f.sep, MinText(f), MaxText(f));
  }

  lemma RestSpelled(r: Rest, sep: string, ports: string)
    requires r.gap == "" && SpellPorts(r.ports) == ports
    requires r.colon == (sep == ":") && r.space == (if sep == " " then " " else "") && (sep == ":" || sep == " " || sep == "")
    ensures SpellRest(r) == sep + ports
  {
    assert "" + ports == ports;
    assert "" + (":" + ports) == ":" + ports;
  }

  lemma Regrouped(who: string, sep: string, min: string, max: string)
    ensures "" + (who + (sep + (min + max))) == who + sep + min + max
  {
  }

  lemma FormValid(f: Form)
    requires Written(f)
    ensures Valid(FormSegment(f)) && !ReadsAsRange(FormSegment(f).rest.ports)
  {
    if f.min.Some? {
      SignedIsNumber(f.min.value);
    }
    if f.max.Some? {
      DecimalRoundTrip(f.max.value);
    }
  }

  lemma SignedIsNumber(n: int)
    ensures IsSignedNumber(Signed(n))
    ensures ParseI32(Signed(n)) == if -0x8000_0000 <= n <= 0x7FFF_FFFF then Some(n) else None
  {
    ParseExact(if n < 0 then -n else n);
  }

  lemma FormPortsStart(f: Form)
    requires Written(f)
    ensures var ports := MinText(f) + MaxText(f); Stops(Blank, ports) && !StartsWith(ports, ':')
  {
    if f.min.Some? {
      SignedIsNumber(f.min.value);
      assert (MinText(f) + MaxText(f))[0] == MinText(f)[0];
    } else {
      assert MinText(f) + MaxText(f) == MaxText(f);
    }
  }

  lemma FormForced(f: Form)
    requires Written(f)
    ensures Match(FormText(f)) == Some(FormSegment(f))
  {
    FormSpelled(f);
    FormPortsSpelled(f);
    FormValid(f);
    FormPortsStart(f);
    NoBetterForces(FormSegment(f));
  }

  /** The default of a number that is absent or does not fit in a signed 32-bit one. */
  function Fitting(n: Option<int>, otherwise: int): int {
    if n.Some? && -0x8000_0000 <= n.value <= 0x7FFF_FFFF then n.value else otherwise
  }

  lemma FormEntry(f: Form)
    requires Written(f)
    ensures EntryOf(FormSegment(f)) ==
      Entry(if f.who == "" then Some("*") else if EqualsIgnoringCase(f.who, "null") then None else Some(f.who),
            Fitting(f.min, 0), Fitting(f.max, Fitting(f.min, 0)))
  {
    if f.min.Some? {
      SignedIsNumber(f.min.value);
    }
    if f.max.Some? {
      ParseExact(f.max.value);
    }
  }

  /**
   * Every form is read as it is meant: for any device without an id, for the device list with
   * `null` in any case, else for the device; without a minimum from zero, without a maximum no further
   * than the minimum. A number that does not fit counts as absent.
   */
  lemma FormReads(f: Form)
    requires Written(f)
    ensures ReadPiece(Match, FormText(f)) ==
      Good(Entry(if f.who == "" then Some("*") else if EqualsIgnoringCase(f.who, "null") then None else Some(f.who),
                 Fitting(f.min, 0), Fitting(f.max, Fitting(f.min, 0))))
  {
    FormForced(f);
    FormEntry(f);
    FormSpelled(f);
    FormValid(f);
    LeadForced(FormSegment(f));
    assert "" + FormText(f) == FormText(f);
  }

  lemma RangeSpelled(min: string, max: string)
    ensures "" + ":" + min + ("-" + max) == ":" + min + "-" + max
  {
  }

  /** A range without an id is for any device. */
  lemma RangeForAnyDevice(min: nat, max: nat)
    requires min <= 0x7FFF_FFFF && max <= 0x7FFF_FFFF
    ensures ReadPiece(Match, ":" + Decimal(min) + "-" + Decimal(max)) == Good(Entry(Some("*"), min, max))
  {
    var f := Form("", ":", Some(min), Some(max));
    FormReads(f);
    RangeSpelled(Decimal(min), Decimal(max));
  }

  /** A single number is both ends of the range. */
  lemma SinglePort(id: string, sep: string, min: nat)
    requires IsLongId(id) && (sep == ":" || sep == " ") && min <= 0x7FFF_FFFF
    ensures ReadPiece(Match, id + sep + Decimal(min)) == Good(Entry(Some(id), min, min))
  {
    var f := Form(id, sep, Some(min), None);
    FormReads(f);
    assert FormText(f) == id + sep + Decimal(min);
  }

  /** Without numbers the port is left to the system: an id by itself, or a colon by itself. */
  lemma NoPorts(id: string)
    requires IsLongId(id)
    ensures ReadPiece(Match, id) == Good(Entry(Some(id), 0, 0))
    ensures ReadPiece(Match, ":") == Good(Entry(Some("*"), 0, 0))
  {
    var f, g := Form(id, "", None, None), Form("", ":", None, None);
    FormReads(f);
    FormReads(g);
    assert FormText(f) == id && FormText(g) == ":";
  }

  // ---------------------------------------------------------------------------
  // A whole line
  // ---------------------------------------------------------------------------

  /** The entries among the readings, in order. */
  function Entries(readings: seq<Reading>): seq<Entry>
    decreases |readings|
  {
    if readings == [] then []
    else
      var front, last := readings[..|readings| - 1], readings[|readings| - 1];
      if last.Good? then Entries(front) + [last.entry] else Entries(front)
  }

  lemma {:induction false} EntriesCons(r: Reading, more: seq<Reading>)
    ensures Entries([r] + more) == (if r.Good? then [r.entry] else []) + Entries(more)
    decreases |more|
  {
    if more == [] {
      assert [r] + more == [r] && [r][..0] == [];
    } else {
      var front, last := more[..|more| - 1], more[|more| - 1];
      assert ([r] + more)[..|more|] == [r] + front && ([r] + more)[|more|] == last;
      EntriesCons(r, front);
    }
  }

  /** What the pieces before `n` are read as. */
  function Readings(read: string -> Reading, pieces: seq<string>, n: nat): seq<Reading>
    requires n <= |pieces|
  {
    seq(n, i requires 0 <= i < n => read(pieces[i]))
  }

  lemma {:induction false} WalkAddsAll(read: string -> Reading, pieces: seq<string>, at: nat, n: nat)
    requires n <= |pieces| && forall i | 0 <= i < n :: !read(pieces[i]).Bad?
    requires n < |pieces| ==> read(pieces[n]).Bad?
    ensures Walk(read, pieces, at).entries == Entries(Readings(read, pieces, n))
    ensures Walk(read, pieces, at).invalid.None? <==> n == |pieces|
    decreases |pieces|
  {
    if n > 0 {
      WalkAddsAll(read, pieces[1..], at + |pieces[0]| + 1, n - 1);
      EntriesCons(read(pieces[0]), Readings(read, pieces[1..], n - 1));
      assert Readings(read, pieces, n) == [read(pieces[0])] + Readings(read, pieces[1..], n - 1);
    }
  }

  /**
   * A line adds the entries of its pieces, in order, blank ones passed over, up to the first that
   * cannot be read.
   */
  lemma LineAddsAll(line: string, n: nat)
    requires n <= |Pieces(Visible(line))|
    requires forall i | 0 <= i < n :: !ReadPiece(Match, Pieces(Visible(line))[i]).Bad?
    requires n < |Pieces(Visible(line))| ==> ReadPiece(Match, Pieces(Visible(line))[n]).Bad?
    ensures ReadLine(Match, line).entries == Entries(Readings(Reader(Match), Pieces(Visible(line)), n))
    ensures ReadLine(Match, line).invalid.None? <==> n == |Pieces(Visible(line))|
  {
    WalkAddsAll(Reader(Match), Pieces(Visible(line)), 0, n);
  }

  lemma {:induction false} EntryAmong(readings: seq<Reading>, i: nat)
    requires i < |readings| && readings[i].Good?
    ensures readings[i].entry in Entries(readings)
    decreases |readings|
  {
    if i < |readings| - 1 {
      EntryAmong(readings[..|readings| - 1], i);
    }
  }

  // ---------------------------------------------------------------------------
  // Look-up
  // ---------------------------------------------------------------------------

  /** The characters are the same, or an upper-case and a lower-case letter of the same kind. */
  predicate SameLetter(c: char, d: char) {
    || c == d
    || ('A' <= c <= 'Z' && d as int == c as int + 32)
    || ('A' <= d <= 'Z' && c as int == d as int + 32)
  }

  predicate SameId(a: string, b: string) {
    |a| == |b| && forall i | 0 <= i < |a| :: SameLetter(a[i], b[i])
  }

  lemma SameLetterIff(c: char, d: char)
    ensures Lower(c) == Lower(d) <==> SameLetter(c, d)
  {
    assert 'a' as int == 'A' as int + 32 && 'z' as int == 'Z' as int + 32;
    assert 'A' <= c <= 'Z' ==> Lower(c) as int == c as int + 32;
    assert 'A' <= d <= 'Z' ==> Lower(d) as int == d as int + 32;
  }

  lemma SameIdIff(a: string, b: string)
    ensures EqualsIgnoringCase(a, b) <==> SameId(a, b)
  {
    forall i | 0 <= i < |a| && i < |b| ensures Lower(a[i]) == Lower(b[i]) <==> SameLetter(a[i], b[i]) {
      SameLetterIff(a[i], b[i]);
    }
  }

  /** An entry serves any device, the device list if it has no id, or the device it names, in any case. */
  predicate Serves(e: Entry, deviceId: Option<string>) {
    || e.deviceId == Some("*")
    || (e.deviceId == None && deviceId == None)
    || (e.deviceId.Some? && deviceId.Some? && SameId(e.deviceId.value, deviceId.value))
  }

  lemma ServesIff(e: Entry, deviceId: Option<string>)
    ensures Covers(e, deviceId) <==> Serves(e, deviceId)
  {
    if e.deviceId.Some? && deviceId.Some? {
      SameIdIff(e.deviceId.value, deviceId.value);
    }
  }

  /** A look-up finds the first entry that serves the device, and fails if none does. */
  lemma FoundExact(entries: seq<Entry>, deviceId: Option<string>)
    ensures FirstCovering(entries, deviceId) == None <==> forall i | 0 <= i < |entries| :: !Serves(entries[i], deviceId)
    ensures forall i | 0 <= i < |entries| && Serves(entries[i], deviceId) &&
                       (forall j | 0 <= j < i :: !Serves(entries[j], deviceId)) ::
      FirstCovering(entries, deviceId) == Some(entries[i])
  {
    FindsFirst(entries, deviceId);
    forall i | 0 <= i < |entries| ensures Covers(entries[i], deviceId) <==> Serves(entries[i], deviceId) {
      ServesIff(entries[i], deviceId);
    }
  }

  /** After an accepted line with a segment that has no id, every look-up succeeds. */
  lemma AnyDeviceServesAll(before: seq<Entry>, line: string, p: string, deviceId: Option<string>)
    requires ReadLine(Match, line).invalid.None? && p in Pieces(Visible(line)) && StartsWith(Take(Blank, p).back, ':')
    ensures FirstCovering(before + ReadLine(Match, line).entries, deviceId).Some?
  {
    var read, pieces := Reader(Match), Pieces(Visible(line));
    var entry := EntryIsAdded(read, pieces, p);
    assert read(p) == ReadPiece(Match, p);
    NoIdReads(p);
    AnyServes(before, ReadLine(Match, line).entries, entry, deviceId);
  }

  /** In an accepted line every piece with an entry adds it. */
  lemma EntryIsAdded(read: string -> Reading, pieces: seq<string>, p: string) returns (entry: Entry)
    requires Walk(read, pieces, 0).invalid.None? && p in pieces
    ensures !read(p).Bad? && (read(p).Good? ==> read(p).entry == entry && entry in Walk(read, pieces, 0).entries)
  {
    var i :| 0 <= i < |pieces| && pieces[i] == p;
    WalkAcceptsIff(read, pieces, 0);
    WalkAddsAll(read, pieces, 0, |pieces|);
    var readings := Readings(read, pieces, |pieces|);
    assert readings[i] == read(p);
    if read(p).Good? {
      entry := read(p).entry;
      EntryAmong(readings, i);
    } else {
      entry := Entry(None, 0, 0);
    }
  }

  lemma AnyServes(before: seq<Entry>, added: seq<Entry>, entry: Entry, deviceId: Option<string>)
    requires entry in added && entry.deviceId == Some("*")
    ensures FirstCovering(before + added, deviceId).Some?
  {
    var i :| 0 <= i < |added| && added[i] == entry;
    assert (before + added)[|before| + i] == entry;
    FoundExact(before + added, deviceId);
  }

  lemma NoIdReads(p: string)
    requires StartsWith(Take(Blank, p).back, ':') && !ReadPiece(Match, p).Bad?
    ensures ReadPiece(Match, p).Good? && ReadPiece(Match, p).entry.deviceId == Some("*")
  {
    var text := Take(Blank, p).back;
    TakeIs(Blank, "", text);
    assert "" + text == text;
    TakeIdNone(text);
  }
}
