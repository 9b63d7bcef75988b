// One WebSocket client: what it tells the proxy core, in which order, and when it stops.

module HttpServer {
  import opened Rpc
  import opened Sequences
  import R = Routing

  /** What one turn of the bridging loop receives, from the client's socket or from the core's channel. */
  datatype Input =
    | Text(data: Bytes)
    | Binary(data: Bytes)
    | Ping(data: Bytes)
    | Pong
    | Close
    | EndOfStream
    | ReceiveError
    | FromCore(data: Bytes)
    | CoreGone

  /** An input, and whether a reply to the client could be sent. */
  datatype Turn = Turn(input: Input, replySent: bool)

  datatype Reply = PongReply(data: Bytes) | TextReply(data: Bytes) | CloseReply

  // ---------------------------------------------------------------------------
  // Specification
  // ---------------------------------------------------------------------------

  predicate Ends(t: Turn) {
    match t.input
    case Ping(_) => !t.replySent
    case FromCore(_) => !t.replySent
    case Close => true
    case EndOfStream => true
    case ReceiveError => true
    case CoreGone => true
    case _ => false
  }

  /** The turns that take place: up to the first that ends the loop. */
  function Heard(turns: seq<Turn>): seq<Turn> {
    if turns == [] then []
    else [turns[0]] + if Ends(turns[0]) then [] else Heard(turns[1..])
  }

  /** The empty message asks the core to open a debug session. */
  function Init(pageNum: nat, wsId: string): WsMessage {
    WsMessage(pageNum, wsId, [], false)
  }

  function ToCore(pageNum: nat, wsId: string, t: Turn): seq<WsMessage> {
    match t.input
    case Text(data) => [WsMessage(pageNum, wsId, data, false)]
    case Binary(data) => [WsMessage(pageNum, wsId, data, false)]
    case Close => [WsMessage(pageNum, wsId, [], true)]
    case EndOfStream => [WsMessage(pageNum, wsId, [], true)]
    case _ => []
  }

  function ToClient(t: Turn): seq<Reply> {
    match t.input
    case Ping(data) => if t.replySent then [PongReply(data)] else []
    case FromCore(data) => if t.replySent then [TextReply(data)] else []
    case CoreGone => if t.replySent then [CloseReply] else []
    case _ => []
  }

  function Said(pageNum: nat, wsId: string, turns: seq<Turn>): seq<WsMessage>
    decreases |turns|
  {
    if turns == [] then []
    else Said(pageNum, wsId, turns[..|turns| - 1]) + ToCore(pageNum, wsId, turns[|turns| - 1])
  }

  function Replied(turns: seq<Turn>): seq<Reply>
    decreases |turns|
  {
    if turns == [] then [] else Replied(turns[..|turns| - 1]) + ToClient(turns[|turns| - 1])
  }

  /** The opening, and what the turns so far have added. */
  function Opened(pageNum: nat, wsId: string, turns: seq<Turn>): seq<WsMessage> {
    [Init(pageNum, wsId)] + Said(pageNum, wsId, turns)
  }

  /** Everything one client sends to the core. */
  function Conversation(pageNum: nat, wsId: string, turns: seq<Turn>): seq<WsMessage> {
    Opened(pageNum, wsId, Heard(turns))
  }

  // ---------------------------------------------------------------------------
  // The bridging loop
  // ---------------------------------------------------------------------------

  lemma {:induction false} HeardIs(turns: seq<Turn>, i: nat)
    requires i <= |turns| && forall j | 0 <= j < i :: !Ends(turns[j])
    ensures i == |turns| ==> Heard(turns) == turns
    ensures i < |turns| && Ends(turns[i]) ==> Heard(turns) == turns[..i + 1]
    decreases |turns|
  {
    if turns != [] && i > 0 {
      forall j | 0 <= j < i - 1 ensures !Ends(turns[1..][j]) {
        assert turns[1..][j] == turns[j + 1];
      }
      HeardIs(turns[1..], i - 1);
      assert i < |turns| ==> turns[1..][i - 1] == turns[i] && turns[..i + 1] == [turns[0]] + turns[1..][..i];
      assert turns == [turns[0]] + turns[1..];
    }
  }

  lemma OneMoreTurn(pageNum: nat, wsId: string, turns: seq<Turn>, i: nat)
    requires i < |turns|
    ensures Opened(pageNum, wsId, turns[..i + 1]) == Opened(pageNum, wsId, turns[..i]) + ToCore(pageNum, wsId, turns[i])
    ensures Replied(turns[..i + 1]) == Replied(turns[..i]) + ToClient(turns[i])
  {
    assert turns[..i + 1][..i] == turns[..i];
  }

  // ---------------------------------------------------------------------------
  // The loop in terms of what it receives
  // ---------------------------------------------------------------------------

  /** The socket and the channel are open, and whatever had to be answered was. */
  predicate CarriesOn(t: Turn) {
    && !t.input.Close? && !t.input.EndOfStream? && !t.input.ReceiveError? && !t.input.CoreGone?
    && (t.input.Ping? || t.input.FromCore? ==> t.replySent)
  }

  /** The turn `i` is the first that does not carry on, or there is none and `i` is their number. */
  predicate StopsAt(turns: seq<Turn>, i: nat) {
    i <= |turns| && (forall j | 0 <= j < i :: CarriesOn(turns[j])) && (i < |turns| ==> !CarriesOn(turns[i]))
  }

  lemma {:induction false} StopsSomewhere(turns: seq<Turn>) returns (i: nat)
    ensures StopsAt(turns, i)
  {
    if turns == [] || !CarriesOn(turns[0]) {
      i := 0;
    } else {
      var k := StopsSomewhere(turns[1..]);
      i := k + 1;
      forall j | 0 < j < i ensures CarriesOn(turns[j]) {
        assert turns[j] == turns[1..][j - 1];
      }
    }
  }

  /** The data of all texts and binaries, the empty ones too, each in a message of the client. */
  function DataMessages(pageNum: nat, wsId: string, turns: seq<Turn>): seq<WsMessage>
    decreases |turns|
  {
    if turns == [] then []
    else
      var front, t := DataMessages(pageNum, wsId, turns[..|turns| - 1]), turns[|turns| - 1].input;
      if t.Text? || t.Binary? then front + [WsMessage(pageNum, wsId, t.data, false)] else front
  }

  /** The answer to each ping, and the text of each message from the core. */
  function Answers(turns: seq<Turn>): seq<Reply>
    decreases |turns|
  {
    if turns == [] then []
    else
      var front, t := Answers(turns[..|turns| - 1]), turns[|turns| - 1].input;
      if t.Ping? then front + [PongReply(t.data)]
      else if t.FromCore? then front + [TextReply(t.data)]
      else front
  }

  lemma {:induction false} CarriedOn(pageNum: nat, wsId: string, turns: seq<Turn>, i: nat)
    requires i <= |turns| && forall j | 0 <= j < i :: CarriesOn(turns[j])
    ensures forall j | 0 <= j < i :: !Ends(turns[j])
    ensures Said(pageNum, wsId, turns[..i]) == DataMessages(pageNum, wsId, turns[..i])
    ensures Replied(turns[..i]) == Answers(turns[..i])
  {
    if i > 0 {
      CarriedOn(pageNum, wsId, turns, i - 1);
      assert turns[..i][..i - 1] == turns[..i - 1] && turns[..i][i - 1] == turns[i - 1];
    }
  }

  /**
   * All that the client says is its opening and the data of its frames, and all it is sent are
   * the answers, before the turn `i`. That turn adds a closing message if the socket was closed
   * or ended, a closing reply if the core has gone and the client can be told, and nothing otherwise.
   */
  predicate BridgedUntil(pageNum: nat, wsId: string, turns: seq<Turn>, i: nat, toCore: seq<WsMessage>, toClient: seq<Reply>)
    requires i <= |turns|
  {
    && toCore ==
       [WsMessage(pageNum, wsId, [], false)] + DataMessages(pageNum, wsId, turns[..i]) +
       (if i < |turns| && (turns[i].input.Close? || turns[i].input.EndOfStream?)
        then [WsMessage(pageNum, wsId, [], true)] else [])
    && toClient ==
       Answers(turns[..i]) + (if i < |turns| && turns[i].input.CoreGone? && turns[i].replySent then [CloseReply] else [])
  }

  /** So it is at the first turn that does not carry on: what comes after it is neither forwarded nor answered. */
  lemma BridgesUntilStopped(pageNum: nat, wsId: string, turns: seq<Turn>, i: nat)
    requires StopsAt(turns, i)
    ensures BridgedUntil(pageNum, wsId, turns, i, Conversation(pageNum, wsId, turns), Replied(Heard(turns)))
  {
    CarriedOn(pageNum, wsId, turns, i);
    HeardIs(turns, i);
    if i < |turns| {
      OneMoreTurn(pageNum, wsId, turns, i);
    } else {
      assert turns[..i] == turns;
    }
  }

  /** Registers the client, asks for a session, and bridges until a turn ends the loop. */
  method HandleWsConnection(pageNum: nat, wsId: string, channel: nat, turns: seq<Turn>)
    returns (registration: Registration, toCore: seq<WsMessage>, toClient: seq<Reply>)
    ensures registration == Registration(pageNum, wsId, channel)
    ensures toCore == Conversation(pageNum, wsId, turns)
    ensures toClient == Replied(Heard(turns))
    ensures forall i: nat | StopsAt(turns, i) :: BridgedUntil(pageNum, wsId, turns, i, toCore, toClient)
  {
    forall i: nat | StopsAt(turns, i)
      ensures BridgedUntil(pageNum, wsId, turns, i, Conversation(pageNum, wsId, turns), Replied(Heard(turns)))
    {
      BridgesUntilStopped(pageNum, wsId, turns, i);
    }
    registration := Registration(pageNum, wsId, channel);
    toCore := [Init(pageNum, wsId)];
    toClient := [];
    for i := 0 to |turns|
      invariant forall j | 0 <= j < i :: !Ends(turns[j])
      invariant toCore == Opened(pageNum, wsId, turns[..i])
      invariant toClient == Replied(turns[..i])
    {
      OneMoreTurn(pageNum, wsId, turns, i);
      var messages, replies, ends := BridgeOne(pageNum, wsId, turns[i]);
      toCore := toCore + messages;
      toClient := toClient + replies;
      if ends {
        HeardIs(turns, i);
        return;
      }
    }
    HeardIs(turns, |turns|);
    assert turns[..|turns|] == turns;
  }

  /** One turn of the loop: what goes to the core, what goes to the client, and whether it was the last. */
  method BridgeOne(pageNum: nat, wsId: string, t: Turn)
    returns (messages: seq<WsMessage>, replies: seq<Reply>, ends: bool)
    ensures messages == ToCore(pageNum, wsId, t) && replies == ToClient(t) && ends == Ends(t)
  {
    messages, replies, ends := [], [], false;
    match t.input {
      case Text(data) => messages := [WsMessage(pageNum, wsId, data, false)];
      case Binary(data) => messages := [WsMessage(pageNum, wsId, data, false)];
      case Ping(data) =>
        if t.replySent {
          replies := [PongReply(data)];
        } else {
          ends := true;
        }
      case Pong =>
      case Close => messages, ends := [WsMessage(pageNum, wsId, [], true)], true;
      case EndOfStream => messages, ends := [WsMessage(pageNum, wsId, [], true)], true;
      case ReceiveError => ends := true;
      case FromCore(data) =>
        if t.replySent {
          replies := [TextReply(data)];
        } else {
          ends := true;
        }
      case CoreGone =>
        if t.replySent {
          replies := [CloseReply];
        }
        ends := true;
    }
  }

  // ---------------------------------------------------------------------------
  // What the core can rely on
  // ---------------------------------------------------------------------------

  /** The non-empty payloads the client sent, in order. */
  function Payloads(turns: seq<Turn>): seq<Bytes>
    decreases |turns|
  {
    if turns == [] then []
    else
      var t := turns[|turns| - 1].input;
      if (t.Text? || t.Binary?) && t.data != [] then Payloads(turns[..|turns| - 1]) + [t.data]
      else Payloads(turns[..|turns| - 1])
  }

  predicate Hangs(t: Turn) {
    t.input.Close? || t.input.EndOfStream?
  }

  /** None of the turns ends the loop. */
  predicate NoneEnds(turns: seq<Turn>) {
    forall i | 0 <= i < |turns| :: !Ends(turns[i])
  }

  /** The messages carry the client's page and id, and none closes. */
  predicate Plain(pageNum: nat, wsId: string, ms: seq<WsMessage>) {
    forall i | 0 <= i < |ms| :: ms[i].pageNum == pageNum && ms[i].wsId == wsId && !ms[i].isClose
  }

  function PayloadOf(t: Turn): seq<Bytes> {
    if (t.input.Text? || t.input.Binary?) && t.input.data != [] then [t.input.data] else []
  }

  /** What one more turn adds to what was said, and to the payloads. */
  lemma SaidOneMore(pageNum: nat, wsId: string, turns: seq<Turn>, t: Turn)
    ensures Said(pageNum, wsId, turns + [t]) == Said(pageNum, wsId, turns) + ToCore(pageNum, wsId, t)
    ensures Payloads(turns + [t]) == Payloads(turns) + PayloadOf(t)
  {
    assert (turns + [t])[..|turns + [t]| - 1] == turns;
  }

  lemma FramesOneMore(pageNum: nat, wsId: string, ms: seq<WsMessage>, t: Turn)
    ensures R.Frames(ms + ToCore(pageNum, wsId, t), wsId) == R.Frames(ms, wsId) + PayloadOf(t)
  {
    var all := ms + ToCore(pageNum, wsId, t);
    if ToCore(pageNum, wsId, t) == [] {
      assert all == ms;
    } else {
      assert all[..|all| - 1] == ms;
    }
  }

  lemma PlainOneMore(pageNum: nat, wsId: string, ms: seq<WsMessage>, t: Turn)
    requires Plain(pageNum, wsId, ms) && !Ends(t)
    ensures Plain(pageNum, wsId, ms + ToCore(pageNum, wsId, t))
  {
  }

  lemma NoneEndsFront(turns: seq<Turn>)
    requires NoneEnds(turns) && turns != []
    ensures NoneEnds(turns[..|turns| - 1]) && !Ends(turns[|turns| - 1])
  {
  }

  lemma {:induction false} SaidPlain(pageNum: nat, wsId: string, turns: seq<Turn>)
    requires NoneEnds(turns)
    ensures Plain(pageNum, wsId, Said(pageNum, wsId, turns))
    ensures R.Frames(Said(pageNum, wsId, turns), wsId) == Payloads(turns)
    decreases |turns|
  {
    if turns != [] {
      var front, t := turns[..|turns| - 1], turns[|turns| - 1];
      assert turns == front + [t];
      NoneEndsFront(turns);
      SaidPlain(pageNum, wsId, front);
      SaidOneMore(pageNum, wsId, front, t);
      FramesOneMore(pageNum, wsId, Said(pageNum, wsId, front), t);
      PlainOneMore(pageNum, wsId, Said(pageNum, wsId, front), t);
    }
  }

  lemma {:induction false} HeardShape(turns: seq<Turn>)
    ensures Heard(turns) != [] ==> NoneEnds(Heard(turns)[..|Heard(turns)| - 1])
    ensures Heard(turns) <= turns
    decreases |turns|
  {
    if turns != [] {
      var rest := if Ends(turns[0]) then [] else Heard(turns[1..]);
      assert turns == [turns[0]] + turns[1..] && Heard(turns) == [turns[0]] + rest;
      if !Ends(turns[0]) {
        HeardShape(turns[1..]);
        assert rest != [] ==> ([turns[0]] + rest)[..|rest|] == [turns[0]] + rest[..|rest| - 1];
      }
    }
  }

  lemma {:induction false} FramesCons(m: WsMessage, ms: seq<WsMessage>, id: string)
    requires !R.IsFrame(m, id)
    ensures R.Frames([m] + ms, id) == R.Frames(ms, id)
    decreases |ms|
  {
    if ms == [] {
      assert [m] + ms == [m] && [m][..0] == [];
    } else {
      assert ([m] + ms)[..|ms|] == [m] + ms[..|ms| - 1];
      FramesCons(m, ms[..|ms| - 1], id);
    }
  }

  /** The last message may close, and does so exactly if the last turn closed the socket. */
  predicate Shaped(pageNum: nat, wsId: string, said: seq<WsMessage>, closes: bool) {
    && (forall i | 0 <= i < |said| :: said[i].pageNum == pageNum && said[i].wsId == wsId)
    && (forall i | 0 <= i < |said| - 1 :: !said[i].isClose)
    && (closes <==> said != [] && said[|said| - 1].isClose)
  }

  lemma LastTurnShapes(pageNum: nat, wsId: string, ms: seq<WsMessage>, t: Turn)
    requires Plain(pageNum, wsId, ms)
    ensures Shaped(pageNum, wsId, ms + ToCore(pageNum, wsId, t), Hangs(t))
  {
  }

  /** The turns that take place, of which only the last may end the loop. */
  lemma SaidShape(pageNum: nat, wsId: string, heard: seq<Turn>)
    requires heard != [] ==> NoneEnds(heard[..|heard| - 1])
    ensures Shaped(pageNum, wsId, Said(pageNum, wsId, heard), heard != [] && Hangs(heard[|heard| - 1]))
    ensures R.Frames(Said(pageNum, wsId, heard), wsId) == Payloads(heard)
  {
    if heard != [] {
      var front, t := heard[..|heard| - 1], heard[|heard| - 1];
      assert heard == front + [t];
      SaidPlain(pageNum, wsId, front);
      SaidOneMore(pageNum, wsId, front, t);
      FramesOneMore(pageNum, wsId, Said(pageNum, wsId, front), t);
      LastTurnShapes(pageNum, wsId, Said(pageNum, wsId, front), t);
    }
  }

  lemma OpenedShape(pageNum: nat, wsId: string, said: seq<WsMessage>, closes: bool, i: nat)
    requires Shaped(pageNum, wsId, said, closes) && i <= |said|
    ensures var m := ([Init(pageNum, wsId)] + said)[i];
      m.pageNum == pageNum && m.wsId == wsId && (m.isClose <==> i == |said| && closes)
  {
    if i > 0 {
      assert ([Init(pageNum, wsId)] + said)[i] == said[i - 1];
    }
  }

  /** Whether the last turn that took place closed the socket. */
  predicate HungUp(turns: seq<Turn>) {
    var heard := Heard(turns);
    heard != [] && Hangs(heard[|heard| - 1])
  }

  /**
   * A client opens with the empty message; every message carries its page and its id; it closes at
   * most once, last, and exactly when the socket was closed or ended, not after an error; and its
   * non-empty frames are its payloads.
   */
  lemma ConversationShape(pageNum: nat, wsId: string, turns: seq<Turn>)
    ensures var c := Conversation(pageNum, wsId, turns);
      && c[0] == Init(pageNum, wsId)
      && (forall i | 0 <= i < |c| :: c[i].pageNum == pageNum && c[i].wsId == wsId)
      && (forall i | 0 <= i < |c| :: c[i].isClose <==> i == |c| - 1 && HungUp(turns))
      && R.Frames(c, wsId) == Payloads(Heard(turns))
  {
    var heard := Heard(turns);
    var said := Said(pageNum, wsId, heard);
    HeardShape(turns);
    SaidShape(pageNum, wsId, heard);
    FramesCons(Init(pageNum, wsId), said, wsId);
    forall i | 0 <= i <= |said|
      ensures var m := ([Init(pageNum, wsId)] + said)[i];
        m.pageNum == pageNum && m.wsId == wsId && (m.isClose <==> i == |said| && HungUp(turns))
    {
      OpenedShape(pageNum, wsId, said, HungUp(turns), i);
    }
  }

  // ---------------------------------------------------------------------------
  // What the client can rely on
  // ---------------------------------------------------------------------------

  /** What was read from the core's channel, in order. */
  function FromChannel(turns: seq<Turn>): seq<Bytes>
    decreases |turns|
  {
    if turns == [] then []
    else
      var front, t := turns[..|turns| - 1], turns[|turns| - 1].input;
      if t.FromCore? then FromChannel(front) + [t.data] else FromChannel(front)
  }

  /** The texts among the replies. */
  function Texts(replies: seq<Reply>): seq<Bytes>
    decreases |replies|
  {
    if replies == [] then []
    else
      var front, last := replies[..|replies| - 1], replies[|replies| - 1];
      if last.TextReply? then Texts(front) + [last.data] else Texts(front)
  }

  lemma TextsOneMore(turns: seq<Turn>, t: Turn)
    ensures Texts(Replied(turns + [t])) ==
      Texts(Replied(turns)) + if t.input.FromCore? && t.replySent then [t.input.data] else []
    ensures FromChannel(turns + [t]) == FromChannel(turns) + if t.input.FromCore? then [t.input.data] else []
  {
    assert (turns + [t])[..|turns + [t]| - 1] == turns;
    var more := ToClient(t);
    if more == [] {
      assert Replied(turns) + more == Replied(turns);
    } else {
      assert (Replied(turns) + more)[..|Replied(turns) + more| - 1] == Replied(turns);
    }
  }

  lemma {:induction false} AllTextsSent(turns: seq<Turn>)
    requires NoneEnds(turns)
    ensures Texts(Replied(turns)) == FromChannel(turns)
    decreases |turns|
  {
    if turns != [] {
      var front, t := turns[..|turns| - 1], turns[|turns| - 1];
      assert turns == front + [t];
      NoneEndsFront(turns);
      AllTextsSent(front);
      TextsOneMore(front, t);
    }
  }

  lemma {:induction false} FromChannelAppend(a: seq<Turn>, b: seq<Turn>)
    ensures FromChannel(a) <= FromChannel(a + b)
    decreases |b|
  {
    if b == [] {
      assert a + b == a;
    } else {
      var front, t := b[..|b| - 1], b[|b| - 1];
      FromChannelAppend(a, front);
      TextsOneMore(a + front, t);
      assert a + b == (a + front) + [t];
    }
  }

  lemma HeardTexts(front: seq<Turn>, last: Turn)
    requires NoneEnds(front)
    ensures Texts(Replied(front + [last])) <= FromChannel(front + [last])
  {
    AllTextsSent(front);
    TextsOneMore(front, last);
    PrefixExtends(FromChannel(front),
                  if last.input.FromCore? && last.replySent then [last.input.data] else [],
                  if last.input.FromCore? then [last.input.data] else []);
  }

  /** The texts a client is sent are the beginning of what its channel held, unchanged and in order. */
  lemma TextsAreFromChannel(turns: seq<Turn>)
    ensures Texts(Replied(Heard(turns))) <= FromChannel(turns)
  {
    var heard := Heard(turns);
    HeardShape(turns);
    if heard != [] {
      assert heard == heard[..|heard| - 1] + [heard[|heard| - 1]];
      HeardTexts(heard[..|heard| - 1], heard[|heard| - 1]);
    }
    PrefixSplits(heard, turns);
    FromChannelAppend(heard, turns[|heard|..]);
    PrefixTransitive(Texts(Replied(heard)), FromChannel(heard), FromChannel(turns));
  }

  // ---------------------------------------------------------------------------
  // Nothing is lost while the loop carries on
  // ---------------------------------------------------------------------------

  /** The data of the pings, and of the pongs among the replies. */
  function Pings(turns: seq<Turn>): seq<Bytes>
    decreases |turns|
  {
    if turns == [] then []
    else
      var front, t := turns[..|turns| - 1], turns[|turns| - 1].input;
      if t.Ping? then Pings(front) + [t.data] else Pings(front)
  }

  function Pongs(replies: seq<Reply>): seq<Bytes>
    decreases |replies|
  {
    if replies == [] then []
    else
      var front, last := replies[..|replies| - 1], replies[|replies| - 1];
      if last.PongReply? then Pongs(front) + [last.data] else Pongs(front)
  }

  lemma AnswersOneMore(turns: seq<Turn>, t: Turn)
    ensures Answers(turns + [t]) == Answers(turns) +
      if t.input.Ping? then [PongReply(t.input.data)] else if t.input.FromCore? then [TextReply(t.input.data)] else []
    ensures Pings(turns + [t]) == Pings(turns) + if t.input.Ping? then [t.input.data] else []
    ensures FromChannel(turns + [t]) == FromChannel(turns) + if t.input.FromCore? then [t.input.data] else []
  {
    assert (turns + [t])[..|turns + [t]| - 1] == turns;
  }

  lemma RepliesOneMore(replies: seq<Reply>, r: Reply)
    ensures Pongs(replies + [r]) == Pongs(replies) + if r.PongReply? then [r.data] else []
    ensures Texts(replies + [r]) == Texts(replies) + if r.TextReply? then [r.data] else []
  {
    assert (replies + [r])[..|replies + [r]| - 1] == replies;
  }

  lemma {:induction false} AnswersExact(turns: seq<Turn>)
    ensures Texts(Answers(turns)) == FromChannel(turns)
    ensures Pongs(Answers(turns)) == Pings(turns)
    decreases |turns|
  {
    if turns != [] {
      var front, t := turns[..|turns| - 1], turns[|turns| - 1];
      assert turns == front + [t];
      AnswersExact(front);
      AnswersOneMore(front, t);
      if t.input.Ping? {
        RepliesOneMore(Answers(front), PongReply(t.input.data));
      } else if t.input.FromCore? {
        RepliesOneMore(Answers(front), TextReply(t.input.data));
      } else {
        assert Answers(front) + [] == Answers(front);
      }
    }
  }

  lemma {:induction false} DataMessagesFrames(pageNum: nat, wsId: string, turns: seq<Turn>)
    ensures R.Frames(DataMessages(pageNum, wsId, turns), wsId) == Payloads(turns)
    decreases |turns|
  {
    if turns != [] {
      var front, t := turns[..|turns| - 1], turns[|turns| - 1];
      var ms := DataMessages(pageNum, wsId, front);
      DataMessagesFrames(pageNum, wsId, front);
      if t.input.Text? || t.input.Binary? {
        var m := WsMessage(pageNum, wsId, t.input.data, false);
        assert (ms + [m])[..|ms + [m]| - 1] == ms;
      }
    }
  }

  /**
   * If every turn carries on, the core gets every payload of the client, the client gets every
   * message of the core, and every ping is answered with its own data.
   */
  lemma NothingIsLost(pageNum: nat, wsId: string, turns: seq<Turn>)
    requires forall i | 0 <= i < |turns| :: CarriesOn(turns[i])
    ensures R.Frames(Conversation(pageNum, wsId, turns), wsId) == Payloads(turns)
    ensures Texts(Replied(Heard(turns))) == FromChannel(turns)
    ensures Pongs(Replied(Heard(turns))) == Pings(turns)
  {
    BridgesUntilStopped(pageNum, wsId, turns, |turns|);
    assert turns[..|turns|] == turns;
    var ms := DataMessages(pageNum, wsId, turns);
    assert [Init(pageNum, wsId)] + ms + [] == [Init(pageNum, wsId)] + ms;
    assert Answers(turns) + [] == Answers(turns);
    FramesCons(Init(pageNum, wsId), ms, wsId);
    DataMessagesFrames(pageNum, wsId, turns);
    AnswersExact(turns);
  }
}
