// The matcher takes exactly the derivation that leftmost-first matching prefers.

module PortGrammarLaws {
  import opened Wrappers
  import opened PortGrammar

  // ---------------------------------------------------------------------------
  // Splitting off the longest prefix
  // ---------------------------------------------------------------------------

  predicate Stops(cl: CharClass, s: string) {
    s == "" || !Has(cl, s[0])
  }

  lemma {:induction false} TakeParts(cl: CharClass, s: string)
    ensures Take(cl, s).front + Take(cl, s).back == s
  {
    if s != "" && Has(cl, s[0]) {
      var more := Take(cl, s[1..]);
      TakeParts(cl, s[1..]);
      assert s == [s[0]] + s[1..];
      assert [s[0]] + more.front + more.back == [s[0]] + (more.front + more.back);
    }
  }

  lemma {:induction false} TakeSound(cl: CharClass, s: string)
    ensures var h := Take(cl, s); h.front + h.back == s && All(cl, h.front) && Stops(cl, h.back)
  {
    TakeParts(cl, s);
    if s != "" && Has(cl, s[0]) {
      TakeSound(cl, s[1..]);
    }
  }

  lemma {:induction false} TakeMore(cl: CharClass, a: string, b: string)
    requires All(cl, a)
    ensures Take(cl, a + b) == Halves(a + Take(cl, b).front, Take(cl, b).back)
  {
    if a == "" {
      assert a + b == b;
    } else {
      assert (a + b)[1..] == a[1..] + b;
      TakeMore(cl, a[1..], b);
    }
  }

  lemma TakeIs(cl: CharClass, a: string, b: string)
    requires All(cl, a) && Stops(cl, b)
    ensures Take(cl, a + b) == Halves(a, b)
  {
    TakeMore(cl, a, b);
  }

  lemma TakeAll(cl: CharClass, a: string)
    requires All(cl, a)
    ensures Take(cl, a) == Halves(a, "")
  {
    TakeIs(cl, a, "");
    assert a + "" == a;
  }

  // ---------------------------------------------------------------------------
  // Soundness
  // ---------------------------------------------------------------------------

  lemma TailSound(u: string)
    requires MatchTail(u).Some?
    ensures var p := MatchTail(u).value; ValidPorts(p) && p.min == "" && SpellPorts(p) == u
  {
    var b := Take(Blank, u);
    TakeSound(Blank, u);
    if b.back != "" {
      var v := b.back[1..];
      var a := Take(Blank, v);
      TakeSound(Blank, v);
      TakeSound(Digit, a.back);
      assert b.back == "-" + v;
    }
  }

  lemma NumberSound(t: string)
    ensures var n := TakeNumber(t); n.front + n.back == t && (n.front == "" || IsSignedNumber(n.front))
  {
    if StartsWith(t, '-') {
      TakeSound(Digit, t[1..]);
      var h := Take(Digit, t[1..]);
      assert ("-" + h.front)[1..] == h.front;
    } else {
      TakeSound(Digit, t);
    }
  }

  lemma PortsSound(t: string)
    requires MatchPorts(t).Some?
    ensures var p := MatchPorts(t).value; ValidPorts(p) && SpellPorts(p) == t
  {
    var n := TakeNumber(t);
    NumberSound(t);
    TailSound(n.back);
    SpellWithMinimum(n.front, MatchTail(n.back).value);
  }

  lemma SpellWithMinimum(min: string, p: Ports)
    requires p.min == ""
    ensures SpellPorts(Ports(min, p.tail, p.trail)) == min + SpellPorts(p)
  {
    assert "" + SpellTail(p.tail, p.trail) == SpellTail(p.tail, p.trail);
  }

  lemma RestSound(r: string)
    requires MatchRest(r).Some?
    ensures ValidRest(MatchRest(r).value) && SpellRest(MatchRest(r).value) == r
  {
    TakeSound(Blank, r);
    var (colon, t) := TakeColon(Take(Blank, r).back);
    TakeSound(Blank, t);
    PortsSound(Take(Blank, t).back);
    assert SpellColon(colon, t) == Take(Blank, r).back;
  }

  lemma IdSound(r: string)
    ensures var h := TakeId(r); h.front + h.back == r && (h.front == "" || IsId(h.front))
  {
    TakeSound(IdChar, r);
  }

  /** What the matcher returns is a derivation of the text. */
  lemma MatchSound(text: string)
    requires Match(text).Some?
    ensures Derives(Match(text).value, text)
  {
    TakeSound(Blank, text);
    IdSound(Take(Blank, text).back);
    RestSound(TakeId(Take(Blank, text).back).back);
  }

  // ---------------------------------------------------------------------------
  // Completeness, piece by piece
  // ---------------------------------------------------------------------------

  lemma TailForced(p: Ports)
    requires ValidPorts(p) && p.min == ""
    ensures MatchTail(SpellTail(p.tail, p.trail)) == Some(p)
  {
    if p.tail.None? {
      TakeAll(Blank, p.trail);
    } else {
      var t := p.tail.value;
      var v := t.after + (t.digits + p.trail);
      TakeIs(Blank, t.before, "-" + v);
      assert ("-" + v)[1..] == v;
      TakeIs(Blank, t.after, t.digits + p.trail);
      TakeIs(Digit, t.digits, p.trail);
    }
  }

  lemma NumberForced(m: string, u: string)
    requires IsSignedNumber(m) && Stops(Digit, u)
    ensures TakeNumber(m + u) == Halves(m, u)
  {
    if m[0] == '-' {
      TakeIs(Digit, m[1..], u);
      assert (m + u)[1..] == m[1..] + u;
      assert "-" + m[1..] == m;
    } else {
      TakeIs(Digit, m, u);
    }
  }

  /** The two ways to read a hyphen and digits: as a negative number, or as the end of a range. */
  predicate ReadsAsRange(p: Ports) {
    p.min == "" && p.tail.Some? && p.tail.value.before == "" && p.tail.value.after == ""
  }

  function AsNegative(p: Ports): Ports
    requires ReadsAsRange(p)
  {
    Ports("-" + p.tail.value.digits, None, p.trail)
  }

  lemma NoNumber(p: Ports)
    requires ValidPorts(p) && !ReadsAsRange(p) && p.min == ""
    ensures TakeNumber(SpellPorts(p)) == Halves("", SpellTail(p.tail, p.trail))
  {
    var t := SpellTail(p.tail, p.trail);
    assert SpellPorts(p) == t;
    if StartsWith(t, '-') {
      var v := p.tail.value.after + (p.tail.value.digits + p.trail);
      assert t[1..] == v;
      TakeIs(Digit, "", v);
      assert "" + v == v;
    } else {
      TakeIs(Digit, "", t);
      assert "" + t == t;
    }
  }

  lemma PortsForced(p: Ports)
    requires ValidPorts(p) && !ReadsAsRange(p)
    ensures MatchPorts(SpellPorts(p)) == Some(p)
  {
    TailForced(p.(min := ""));
    if p.min == "" {
      NoNumber(p);
    } else {
      NumberForced(p.min, SpellTail(p.tail, p.trail));
    }
  }

  lemma NegativeSpellsTheSame(p: Ports)
    requires ReadsAsRange(p) && ValidPorts(p)
    ensures SpellPorts(AsNegative(p)) == SpellPorts(p) && ValidPorts(AsNegative(p))
  {
    var d := p.tail.value.digits;
    assert ("-" + d)[1..] == d;
    assert ("-" + d) + p.trail == "" + ("" + ("-" + ("" + (d + p.trail))));
  }

  lemma PortsPreferred(p: Ports)
    requires ValidPorts(p)
    ensures MatchPorts(SpellPorts(p)).Some? && PortsAtLeast(MatchPorts(SpellPorts(p)).value, p)
  {
    if ReadsAsRange(p) {
      NegativeSpellsTheSame(p);
      PortsForced(AsNegative(p));
    } else {
      PortsForced(p);
    }
  }

  // Blanks in front of the ports belong to the pieces before them.

  function Stripped(p: Ports): Ports {
    if p.min != "" then p
    else match p.tail
      case None => Ports("", None, "")
      case Some(t) => Ports("", Some(t.(before := "")), p.trail)
  }

  lemma Strips(p: Ports)
    requires ValidPorts(p)
    ensures ValidPorts(Stripped(p))
    ensures Take(Blank, SpellPorts(p)).back == SpellPorts(Stripped(p))
    ensures Take(Blank, SpellPorts(p)).front == "" ==> Stripped(p) == p
    ensures Stops(Blank, SpellPorts(Stripped(p))) && !StartsWith(SpellPorts(Stripped(p)), ':')
  {
    var t := SpellPorts(p);
    if p.min != "" {
      TakeIs(Blank, "", t);
      assert "" + t == t;
    } else if p.tail.None? {
      TakeAll(Blank, p.trail);
      assert t == p.trail && SpellPorts(Stripped(p)) == "";
    } else {
      var u := "-" + (p.tail.value.after + (p.tail.value.digits + p.trail));
      TakeIs(Blank, p.tail.value.before, u);
      assert t == p.tail.value.before + u;
      assert SpellPorts(Stripped(p)) == u;
    }
  }

  lemma ColonRestPreferred(e: Rest)
    requires ValidRest(e) && e.colon
    ensures MatchRest(SpellRest(e)).Some? && RestAtLeast(MatchRest(SpellRest(e)).value, e)
  {
    var text := SpellPorts(e.ports);
    Strips(e.ports);
    PortsPreferred(e.ports);
    PortsPreferred(Stripped(e.ports));
    TakeMore(Blank, e.gap, text);
    TakeIs(Blank, e.space, ":" + (e.gap + text));
    assert (":" + (e.gap + text))[1..] == e.gap + text;
  }

  lemma PlainRestPreferred(e: Rest)
    requires ValidRest(e) && !e.colon
    ensures MatchRest(SpellRest(e)).Some? && RestAtLeast(MatchRest(SpellRest(e)).value, e)
  {
    var text, t := SpellPorts(e.ports), SpellPorts(Stripped(e.ports));
    Strips(e.ports);
    PortsPreferred(e.ports);
    PortsPreferred(Stripped(e.ports));
    TakeMore(Blank, e.gap, text);
    TakeMore(Blank, e.space, e.gap + text);
    TakeIs(Blank, "", t);
    assert "" + t == t;
    assert |Take(Blank, SpellRest(e)).front| == |e.space| ==> e.gap == "" && "" + text == text;
  }

  lemma RestPreferred(e: Rest)
    requires ValidRest(e)
    ensures MatchRest(SpellRest(e)).Some? && RestAtLeast(MatchRest(SpellRest(e)).value, e)
  {
    if e.colon {
      ColonRestPreferred(e);
    } else {
      PlainRestPreferred(e);
    }
  }

  // ---------------------------------------------------------------------------
  // Ids: taking the longest run of id characters never loses a match
  // ---------------------------------------------------------------------------

  /** What is left of the ports once their leading id characters have gone to the id. */
  function Remainder(p: Ports): Rest {
    match p.tail
    case None => Rest(p.trail, false, "", Ports("", None, ""))
    case Some(t) =>
      if t.before != "" then Rest("", false, "", Ports("", p.tail, p.trail))
      else if t.after != "" then Rest(t.after, false, "", Ports(t.digits, None, p.trail))
      else Rest(p.trail, false, "", Ports("", None, ""))
  }

  lemma RemainderSpelled(p: Ports)
    requires ValidPorts(p)
    ensures ValidRest(Remainder(p)) && SpellRest(Remainder(p)) == Take(IdChar, SpellPorts(p)).back
  {
    var next := SpellTail(p.tail, p.trail);
    if p.tail.None? || p.tail.value.before != "" {
      TakeIs(IdChar, p.min, next);
      SpellUnspaced(Remainder(p), next);
    } else if p.tail.value.after != "" {
      RemainderAfterHyphen(p);
    } else {
      RemainderAfterRange(p);
    }
  }

  lemma RemainderAfterHyphen(p: Ports)
    requires ValidPorts(p) && p.tail.Some? && p.tail.value.before == "" && p.tail.value.after != ""
    ensures SpellRest(Remainder(p)) == Take(IdChar, SpellPorts(p)).back
  {
    var t := p.tail.value;
    var next := t.after + (t.digits + p.trail);
    TakeAcross(p.min, "", next);
    assert "" + next == next;
    RestOfNumber(t.after, t.digits, p.trail);
  }

  lemma RestOfNumber(space: string, digits: string, trail: string)
    ensures SpellRest(Rest(space, false, "", Ports(digits, None, trail))) == space + (digits + trail)
  {
    assert "" + (digits + trail) == digits + trail;
  }

  lemma RemainderAfterRange(p: Ports)
    requires ValidPorts(p) && p.tail.Some? && p.tail.value.before == "" && p.tail.value.after == ""
    ensures SpellRest(Remainder(p)) == Take(IdChar, SpellPorts(p)).back
  {
    var digits := p.tail.value.digits;
    TakeAcross(p.min, digits, p.trail);
    assert "" + (digits + p.trail) == digits + p.trail;
    SpellUnspaced(Remainder(p), p.trail);
  }

  lemma SpellUnspaced(r: Rest, next: string)
    requires !r.colon && r.gap == "" && r.ports.min == ""
    requires r.space + SpellTail(r.ports.tail, r.ports.trail) == next
    ensures SpellRest(r) == next
  {
  }

  lemma TakeAcross(min: string, digits: string, next: string)
    requires (min == "" || IsSignedNumber(min)) && All(Digit, digits) && Stops(IdChar, next)
    ensures Take(IdChar, min + ("" + ("-" + (digits + next)))).back == next
  {
    var front := min + "-" + digits;
    TakeIs(IdChar, front, next);
    assert front + next == min + ("" + ("-" + (digits + next)));
  }

  lemma StartsAfterId(e: Rest)
    requires ValidRest(e) && !Stops(IdChar, SpellRest(e))
    ensures SpellRest(e) == SpellPorts(e.ports)
  {
    assert SpellRest(e) == "" + ("" + SpellPorts(e.ports));
  }

  lemma LongerIdStillMatches(e: Rest)
    requires ValidRest(e) && !Stops(IdChar, SpellRest(e))
    ensures MatchRest(Take(IdChar, SpellRest(e)).back).Some?
  {
    StartsAfterId(e);
    RemainderSpelled(e.ports);
    RestPreferred(Remainder(e.ports));
  }

  lemma TakeIdNone(r: string)
    requires StartsWith(r, ':')
    ensures TakeId(r) == Halves("", r)
  {
    assert Take(IdChar, r) == Halves("", r);
    assert |r| >= 4 ==> Lower(r[..4][0]) != Lower("null"[0]);
  }

  lemma TakeIdIs(id: string, next: string)
    requires IsId(id)
    ensures IsLongId(id) ==> TakeId(id + next) == Halves(id + Take(IdChar, next).front, Take(IdChar, next).back)
    ensures !IsLongId(id) ==> TakeId(id + next) == Halves(id, next)
  {
    var r := id + next;
    assert |r| >= 4 ==> Lower(r[..4][0]) == Lower(r[0]);
    if IsLongId(id) {
      TakeMore(IdChar, id, next);
      assert r[0] == id[0];
      assert Lower(id[0]) != Lower("null"[0]);
    } else if id != "*" {
      assert r[..4] == id && r[4..] == next;
      assert Lower(id[0]) == Lower("null"[0]);
    }
  }

  lemma LeadForced(e: Segment)
    requires Valid(e)
    ensures Take(Blank, Spell(e)) == Halves(e.lead, e.id + SpellRest(e.rest))
  {
    var r := e.id + SpellRest(e.rest);
    if e.id != "" && !IsLongId(e.id) && e.id != "*" {
      assert Lower(e.id[0]) == Lower("null"[0]);
    }
    TakeIs(Blank, e.lead, r);
  }

  /** The id taken is the one written or a longer one, and what follows it is read on. */
  lemma IdPreferred(id: string, e: Rest)
    requires IsId(id) && ValidRest(e)
    ensures var h := TakeId(id + SpellRest(e));
      h.front != "" && |h.front| >= |id| && MatchRest(h.back).Some? && (|h.front| == |id| ==> h == Halves(id, SpellRest(e)))
  {
    var next := SpellRest(e);
    RestPreferred(e);
    TakeIdIs(id, next);
    if IsLongId(id) {
      if Stops(IdChar, next) {
        TakeIs(IdChar, "", next);
        assert "" + next == next && id + "" == id;
      } else {
        LongerIdStillMatches(e);
      }
    }
  }

  /** The matcher succeeds on every derivable text, and its derivation is at least as preferred. */
  lemma MatchPreferred(e: Segment)
    requires Valid(e)
    ensures Match(Spell(e)).Some? && AtLeast(Match(Spell(e)).value, e)
  {
    LeadForced(e);
    RestPreferred(e.rest);
    if e.id == "" {
      var next := SpellRest(e.rest);
      assert "" + next == next;
      TakeIdNone(next);
    } else {
      IdPreferred(e.id, e.rest);
    }
  }

  /** A segment is accepted exactly when the grammar derives it, with the preferred derivation. */
  lemma LeftmostFirst(text: string)
    ensures Match(text).Some? <==> exists e :: Derives(e, text)
    ensures Match(text).Some? ==>
      && Derives(Match(text).value, text)
      && forall e | Derives(e, text) :: AtLeast(Match(text).value, e)
  {
    if Match(text).Some? {
      MatchSound(text);
    }
    forall e | Derives(e, text) ensures Match(text).Some? && AtLeast(Match(text).value, e) {
      MatchPreferred(e);
    }
  }

  /** No two derivations of a text are equally preferred, so the preferred one is unique. */
  lemma PreferenceIsStrict(d: Segment, e: Segment)
    requires Valid(d) && Valid(e) && Spell(d) == Spell(e)
    requires AtLeast(d, e) && AtLeast(e, d)
    ensures d == e
  {
    LeadForced(d);
    LeadForced(e);
    CancelPrefix(d.id, SpellRest(d.rest), e.id, SpellRest(e.rest));
    var dx, ex := SpellColon(d.rest.colon, d.rest.gap + SpellPorts(d.rest.ports)),
                  SpellColon(e.rest.colon, e.rest.gap + SpellPorts(e.rest.ports));
    CancelPrefix(d.rest.space, dx, e.rest.space, ex);
    CancelPrefix(if d.rest.colon then ":" else "", d.rest.gap + SpellPorts(d.rest.ports),
                 if e.rest.colon then ":" else "", e.rest.gap + SpellPorts(e.rest.ports));
    CancelPrefix(d.rest.gap, SpellPorts(d.rest.ports), e.rest.gap, SpellPorts(e.rest.ports));
    SamePorts(d.rest.ports, e.rest.ports);
  }

  lemma CancelPrefix(a: string, b: string, c: string, d: string)
    requires a + b == c + d && |a| == |c|
    ensures a == c && b == d
  {
    assert (a + b)[..|a|] == a && (c + d)[..|c|] == c;
    assert (a + b)[|a|..] == b && (c + d)[|c|..] == d;
  }

  lemma SamePorts(p: Ports, q: Ports)
    requires SpellPorts(p) == SpellPorts(q) && |p.min| == |q.min|
    requires TailAtLeast(p.tail, q.tail) && TailAtLeast(q.tail, p.tail)
    ensures p == q
  {
    CancelPrefix(p.min, SpellTail(p.tail, p.trail), q.min, SpellTail(q.tail, q.trail));
    if p.tail.Some? {
      var s, t := p.tail.value, q.tail.value;
      var sx, tx := s.digits + p.trail, t.digits + q.trail;
      CancelPrefix(s.before, "-" + (s.after + sx), t.before, "-" + (t.after + tx));
      CancelPrefix("-", s.after + sx, "-", t.after + tx);
      CancelPrefix(s.after, sx, t.after, tx);
      CancelPrefix(s.digits, p.trail, t.digits, q.trail);
    }
  }

  // ---------------------------------------------------------------------------
  // Segments without a choice
  // ---------------------------------------------------------------------------

  /** `id:min-max`, without blanks. */
  function Plain(id: string, min: string, max: string): Segment {
    Segment("", id, Rest("", true, "", Ports(min, Some(Tail("", "", max)), "")))
  }

  lemma NoColonNoColon(e: Segment)
    requires Valid(e) && !e.rest.colon
    ensures ':' !in Spell(e)
  {
    var p := e.rest.ports;
    assert ':' !in SpellTail(p.tail, p.trail);
    assert ':' !in p.min;
    assert ':' !in SpellRest(e.rest);
    if !IsLongId(e.id) && e.id != "*" {
      assert forall i | 0 <= i < 4 :: Lower(e.id[i]) == Lower("null"[i]);
    }
    assert ':' !in e.id;
  }

  /** With the colon written, the id ends before it: nothing of the rest can move into the id. */
  lemma ColonForces(e: Segment)
    requires Valid(e) && e.rest.colon
    ensures var d := Match(Spell(e));
      d.Some? && d.value.lead == e.lead && d.value.id == e.id && RestAtLeast(d.value.rest, e.rest)
  {
    LeadForced(e);
    RestPreferred(e.rest);
    IdForced(e.id, SpellRest(e.rest));
  }

  lemma RestForced(e: Rest)
    requires ValidRest(e) && e.colon && e.ports.min != ""
    ensures MatchRest(SpellRest(e)) == Some(e)
  {
    var text := SpellPorts(e.ports);
    PortsForced(e.ports);
    TakeIs(Blank, e.space, ":" + (e.gap + text));
    assert (":" + (e.gap + text))[1..] == e.gap + text;
    assert text[0] == e.ports.min[0];
    TakeIs(Blank, e.gap, text);
  }

  lemma IdForced(id: string, next: string)
    requires (id == "" && StartsWith(next, ':')) || IsId(id)
    requires Stops(IdChar, next)
    ensures TakeId(id + next) == Halves(id, next)
  {
    if id == "" {
      assert "" + next == next;
      TakeIdNone(next);
    } else {
      TakeIdIs(id, next);
      TakeIs(IdChar, "", next);
      assert "" + next == next && id + "" == id;
    }
  }

  /** With the colon and the minimum written, blanks anywhere, the derivation is the one matched. */
  lemma ColonAndMinimumForce(e: Segment)
    requires Valid(e) && e.rest.colon && e.rest.ports.min != ""
    ensures Match(Spell(e)) == Some(e)
  {
    LeadForced(e);
    RestForced(e.rest);
    var next := SpellRest(e.rest);
    assert e.rest.space == "" ==> next == "" + (":" + (e.rest.gap + SpellPorts(e.rest.ports)));
    IdForced(e.id, next);
  }

  /** A lone hyphen and number is a negative minimum, never a range from zero. */
  lemma LoneHyphenIsNegative(id: string, digits: string)
    requires (id == "" || IsId(id)) && IsNumber(digits)
    ensures Match(id + ":-" + digits) == Some(Segment("", id, Rest("", true, "", Ports("-" + digits, None, ""))))
  {
    var e := Segment("", id, Rest("", true, "", Ports("-" + digits, None, "")));
    assert ("-" + digits)[1..] == digits;
    ColonAndMinimumForce(e);
    LoneHyphenSpelled(id, digits);
  }

  lemma LoneHyphenSpelled(id: string, digits: string)
    ensures Spell(Segment("", id, Rest("", true, "", Ports("-" + digits, None, "")))) == id + ":-" + digits
  {
    assert "" + (id + ("" + (":" + ("" + (("-" + digits) + ""))))) == id + ":-" + digits;
  }

  /** A printed entry has one derivation, despite the optional colon and the signed minimum. */
  lemma PlainUnambiguous(id: string, min: string, max: string, f: Segment)
    requires IsId(id) && IsSignedNumber(min) && IsNumber(max)
    requires Derives(f, Spell(Plain(id, min, max)))
    ensures f == Plain(id, min, max)
  {
    var e := Plain(id, min, max);
    ColonAndMinimumForce(e);
    assert Spell(e)[|id|] == ':';
    if !f.rest.colon {
      NoColonNoColon(f);
    }
    ColonForces(f);
    var ft, et := SpellPorts(f.rest.ports), SpellPorts(e.rest.ports);
    assert f.lead == "" && f.id == id && f.rest.space == "" && f.rest.gap == "";
    CancelPrefix("", f.id + SpellRest(f.rest), "", e.id + SpellRest(e.rest));
    CancelPrefix(f.id, SpellRest(f.rest), e.id, SpellRest(e.rest));
    CancelPrefix("", ":" + ("" + ft), "", ":" + ("" + et));
    CancelPrefix(":", "" + ft, ":", "" + et);
    assert "" + ft == ft && "" + et == et;
    RangeForced(e.rest.ports, f.rest.ports);
  }

  /** With a minimum and a maximum written, the ports have no other reading. */
  lemma RangeForced(p: Ports, q: Ports)
    requires ValidPorts(p) && ValidPorts(q) && SpellPorts(p) == SpellPorts(q)
    requires p.min != "" && p.tail.Some?
    ensures q == p
  {
    PortsForced(p);
    if ReadsAsRange(q) {
      NegativeSpellsTheSame(q);
      PortsForced(AsNegative(q));
    } else {
      PortsForced(q);
    }
  }
}
