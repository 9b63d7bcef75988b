// The grammar of one port-configuration segment: what it derives, and which derivation is taken.
//
// The pattern of src/port_config.rs:28 is matched leftmost-first: of all derivations of a segment,
// the one that gives its pieces, from left to right, as much text as possible.

module PortGrammar {
  import opened Wrappers

  datatype CharClass = Blank | Digit | IdChar | NotComma | NotStop

  predicate Has(cl: CharClass, c: char) {
    match cl
    case Blank => c == ' ' || c == '\t'
    case Digit => '0' <= c <= '9'
    case IdChar => '0' <= c <= '9' || 'a' <= c <= 'f' || 'A' <= c <= 'F' || c == '-'
    case NotComma => c != ','
    case NotStop => c != '#' && c != '\n' && c != '\0'
  }

  predicate All(cl: CharClass, s: string) {
    forall i | 0 <= i < |s| :: Has(cl, s[i])
  }

  /** A text in two pieces. */
  datatype Halves = Halves(front: string, back: string)

  /** Splits off the longest prefix of characters in the class. */
  function Take(cl: CharClass, s: string): Halves {
    if s == "" || !Has(cl, s[0]) then Halves("", s)
    else
      var more := Take(cl, s[1..]);
      Halves([s[0]] + more.front, more.back)
  }

  predicate StartsWith(s: string, c: char) {
    s != "" && s[0] == c
  }

  function Lower(c: char): char {
    if 'A' <= c <= 'Z' then c + 32 as char else c
  }

  predicate EqualsIgnoringCase(a: string, b: string) {
    |a| == |b| && forall i | 0 <= i < |a| :: Lower(a[i]) == Lower(b[i])
  }

  // ---------------------------------------------------------------------------
  // Derivations
  // ---------------------------------------------------------------------------

  const MIN_ID_LENGTH: nat := 25

  /** `before - after digits`: the fourth group, with the fifth inside. */
  datatype Tail = Tail(before: string, after: string, digits: string)

  /** The third group (empty if absent), the fourth, and the blanks at the end. */
  datatype Ports = Ports(min: string, tail: Option<Tail>, trail: string)

  datatype Rest = Rest(space: string, colon: bool, gap: string, ports: Ports)

  /** The id is empty for a segment that starts with its colon. */
  datatype Segment = Segment(lead: string, id: string, rest: Rest)

  function SpellTail(t: Option<Tail>, next: string): string {
    match t
    case None => next
    case Some(t) => t.before + ("-" + (t.after + (t.digits + next)))
  }

  function SpellPorts(p: Ports): string {
    p.min + SpellTail(p.tail, p.trail)
  }

  function SpellRest(r: Rest): string {
    r.space + SpellColon(r.colon, r.gap + SpellPorts(r.ports))
  }

  function SpellColon(colon: bool, next: string): string {
    if colon then ":" + next else next
  }

  function Spell(s: Segment): string {
    s.lead + (s.id + SpellRest(s.rest))
  }

  predicate IsNumber(s: string) {
    s != "" && All(Digit, s)
  }

  predicate IsSignedNumber(s: string) {
    IsNumber(s) || (StartsWith(s, '-') && IsNumber(s[1..]))
  }

  predicate IsLongId(s: string) {
    |s| >= MIN_ID_LENGTH && All(IdChar, s)
  }

  predicate IsId(s: string) {
    IsLongId(s) || s == "*" || EqualsIgnoringCase(s, "null")
  }

  predicate ValidTail(t: Tail) {
    All(Blank, t.before) && All(Blank, t.after) && IsNumber(t.digits)
  }

  predicate ValidPorts(p: Ports) {
    && (p.min == "" || IsSignedNumber(p.min))
    && (p.tail.Some? ==> ValidTail(p.tail.value))
    && All(Blank, p.trail)
  }

  predicate ValidRest(r: Rest) {
    All(Blank, r.space) && All(Blank, r.gap) && ValidPorts(r.ports)
  }

  predicate Valid(s: Segment) {
    && All(Blank, s.lead)
    && ((s.id == "" && s.rest.space == "" && s.rest.colon) || IsId(s.id))
    && ValidRest(s.rest)
  }

  predicate Derives(s: Segment, text: string) {
    Valid(s) && Spell(s) == text
  }

  // ---------------------------------------------------------------------------
  // Preference: every piece is greedy, and earlier pieces come first
  // ---------------------------------------------------------------------------

  predicate TailAtLeast(x: Option<Tail>, y: Option<Tail>) {
    y.Some? ==>
      && x.Some?
      && (|x.value.before| > |y.value.before| || (|x.value.before| == |y.value.before| &&
         (|x.value.after| > |y.value.after| || (|x.value.after| == |y.value.after| &&
          |x.value.digits| >= |y.value.digits|))))
  }

  predicate PortsAtLeast(x: Ports, y: Ports) {
    |x.min| > |y.min| || (|x.min| == |y.min| && TailAtLeast(x.tail, y.tail))
  }

  predicate RestAtLeast(x: Rest, y: Rest) {
    |x.space| > |y.space| || (|x.space| == |y.space| &&
    ((x.colon && !y.colon) || (x.colon == y.colon &&
    (|x.gap| > |y.gap| || (|x.gap| == |y.gap| && PortsAtLeast(x.ports, y.ports))))))
  }

  predicate AtLeast(x: Segment, y: Segment) {
    |x.lead| > |y.lead| || (|x.lead| == |y.lead| &&
    (|x.id| > |y.id| || (|x.id| == |y.id| && RestAtLeast(x.rest, y.rest))))
  }

  // ---------------------------------------------------------------------------
  // A matcher that never goes back
  // ---------------------------------------------------------------------------

  function MatchTail(u: string): Option<Ports> {
    var b := Take(Blank, u);
    if b.back == "" then Some(Ports("", None, b.front))
    else if b.back[0] != '-' then None
    else
      var a := Take(Blank, b.back[1..]);
      var n := Take(Digit, a.back);
      if n.front != "" && All(Blank, n.back) then Some(Ports("", Some(Tail(b.front, a.front, n.front)), n.back))
      else None
  }

  /** Splits off a signed number at the start, or nothing. */
  function TakeNumber(t: string): Halves {
    if StartsWith(t, '-') then
      var h := Take(Digit, t[1..]);
      if h.front == "" then Halves("", t) else Halves("-" + h.front, h.back)
    else Take(Digit, t)
  }

  function MatchPorts(t: string): Option<Ports> {
    var n := TakeNumber(t);
    match MatchTail(n.back)
    case None => None
    case Some(p) => Some(Ports(n.front, p.tail, p.trail))
  }

  /** Splits off the colon at the start, or nothing. */
  function TakeColon(t: string): (bool, string) {
    if StartsWith(t, ':') then (true, t[1..]) else (false, t)
  }

  function MatchRest(r: string): Option<Rest> {
    var s := Take(Blank, r);
    var (colon, t) := TakeColon(s.back);
    var g := Take(Blank, t);
    match MatchPorts(g.back)
    case None => None
    case Some(p) => Some(Rest(s.front, colon, g.front, p))
  }

  /** Splits off an id at the start, or nothing. */
  function TakeId(r: string): Halves {
    if StartsWith(r, '*') then Halves("*", r[1..])
    else if |r| >= 4 && EqualsIgnoringCase(r[..4], "null") then Halves(r[..4], r[4..])
    else
      var h := Take(IdChar, r);
      if |h.front| >= MIN_ID_LENGTH then h else Halves("", r)
  }

  function Match(text: string): Option<Segment> {
    var l := Take(Blank, text);
    var id := TakeId(l.back);
    if id.front == "" && !StartsWith(id.back, ':') then None
    else
      match MatchRest(id.back)
      case None => None
      case Some(rest) => Some(Segment(l.front, id.front, rest))
  }
}
