// Port-configuration lines: pieces between commas, numbers, entries, and the first match.

module PortConfigModel {
  import opened Wrappers
  import opened PortGrammar

  const I32_MIN: int := -0x8000_0000
  const I32_MAX: int := 0x7FFF_FFFF

  /** No id is the device list; the id `*` is any device. */
  datatype Entry = Entry(deviceId: Option<string>, minPort: int, maxPort: int)

  // ---------------------------------------------------------------------------
  // Numbers
  // ---------------------------------------------------------------------------

  function Value(digits: string): int {
    if digits == "" then 0
    else 10 * Value(digits[..|digits| - 1]) + (digits[|digits| - 1] as int - '0' as int)
  }

  /** A signed 32-bit number, or nothing when it does not fit. */
  function ParseI32(text: string): Option<int> {
    var n := if StartsWith(text, '-') then -Value(text[1..]) else Value(text);
    if I32_MIN <= n <= I32_MAX then Some(n) else None
  }

  function Decimal(n: nat): string {
    var last := ['0' + (n % 10) as char];
    if n < 10 then last else Decimal(n / 10) + last
  }

  function Signed(n: int): string {
    if n < 0 then "-" + Decimal(-n) else Decimal(n)
  }

  // ---------------------------------------------------------------------------
  // Entries
  // ---------------------------------------------------------------------------

  function EntryOf(s: Segment): Entry {
    var id :=
      if s.id == "" then Some("*") else if EqualsIgnoringCase(s.id, "null") then None else Some(s.id);
    var ports := s.rest.ports;
    var min := if ports.min == "" then 0 else OrElse(ParseI32(ports.min), 0);
    var max := if ports.tail.Some? then OrElse(ParseI32(ports.tail.value.digits), min) else min;
    Entry(id, min, max)
  }

  // ---------------------------------------------------------------------------
  // Lines
  // ---------------------------------------------------------------------------

  /** The part of a line before the first `#`, newline or NUL. */
  function Visible(line: string): string {
    Take(NotStop, line).front
  }

  lemma TakeShortens(cl: CharClass, s: string)
    ensures |Take(cl, s).back| <= |s|
  {
  }

  /** The pieces between the commas; there is always at least one. */
  function Pieces(text: string): (ps: seq<string>)
    ensures ps != []
    decreases |text|
  {
    var h := Take(NotComma, text);
    TakeShortens(NotComma, text);
    if h.back == "" then [h.front] else [h.front] + Pieces(h.back[1..])
  }

  /** The compiled pattern: the captures of a segment, if it matches. */
  type Regex = string -> Option<Segment>

  /** What a piece says: nothing, an entry, or that it is invalid, after so many blanks. */
  datatype Reading = Skip | Good(entry: Entry) | Bad(blanks: nat)

  function ReadPiece(re: Regex, p: string): Reading {
    var h := Take(Blank, p);
    if h.back == "" then Skip
    else
      match re(h.back)
      case None => Bad(|h.front|)
      case Some(captures) => Good(EntryOf(captures))
  }

  function Reader(re: Regex): string -> Reading {
    p => ReadPiece(re, p)
  }

  datatype Outcome = Outcome(entries: seq<Entry>, invalid: Option<nat>)

  function Prepend(entry: Entry, more: Outcome): Outcome {
    Outcome([entry] + more.entries, more.invalid)
  }

  /** Reads pieces of which the first stands at position `at`, up to the first that cannot be read. */
  function Walk(read: string -> Reading, pieces: seq<string>, at: nat): Outcome {
    if pieces == [] then Outcome([], None)
    else
      var next := at + |pieces[0]| + 1;
      match read(pieces[0])
      case Skip => Walk(read, pieces[1..], next)
      case Good(entry) => Prepend(entry, Walk(read, pieces[1..], next))
      case Bad(blanks) => Outcome([], Some(at + blanks))
  }

  function ReadLine(re: Regex, line: string): Outcome {
    Walk(Reader(re), Pieces(Visible(line)), 0)
  }

  // ---------------------------------------------------------------------------
  // Look-up
  // ---------------------------------------------------------------------------

  /** Whether an entry is for a device, or for the device list when there is no id. */
  predicate Covers(entry: Entry, deviceId: Option<string>) {
    match entry.deviceId
    case None => deviceId == None
    case Some(id) => id == "*" || (deviceId.Some? && EqualsIgnoringCase(id, deviceId.value))
  }

  function FirstCovering(entries: seq<Entry>, deviceId: Option<string>): Option<Entry> {
    if entries == [] then None
    else if Covers(entries[0], deviceId) then Some(entries[0])
    else FirstCovering(entries[1..], deviceId)
  }

  // ---------------------------------------------------------------------------
  // Printing
  // ---------------------------------------------------------------------------

  function Join(parts: seq<string>): string {
    if parts == [] then ""
    else if |parts| == 1 then parts[0]
    else parts[0] + ("," + Join(parts[1..]))
  }

  predicate Printable(e: Entry) {
    && (e.deviceId.Some? ==> e.deviceId.value == "*" || IsLongId(e.deviceId.value))
    && I32_MIN <= e.minPort <= I32_MAX
    && 0 <= e.maxPort <= I32_MAX
  }

  /** `id:min-max`. */
  function Print(e: Entry): string
    requires Printable(e)
  {
    (if e.deviceId.Some? then e.deviceId.value else "null") + ":" + Signed(e.minPort) + "-" + Decimal(e.maxPort)
  }

  function PrintAll(entries: seq<Entry>): seq<string>
    requires forall e | e in entries :: Printable(e)
  {
    if entries == [] then [] else [Print(entries[0])] + PrintAll(entries[1..])
  }
}
