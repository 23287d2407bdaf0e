/** Gateway and agent together: every relayed request reaches the local server once and whole. */
module EndToEnd {
  import opened Sequences
  import opened Bytes
  import opened FrameCodec
  import opened Wire
  import R = RegistryModel
  import L = RelayLifecycle
  import opened Untouched
  import opened AgentModel
  import opened AgentTransport

  // ---- what the gateway puts on a socket --------------------------------------

  /** A binary message is one frame, whole. */
  predicate Whole(m: Message) {
    m.Binary? ==> Complete(m.bytes) && FrameLength(m.bytes) == |m.bytes|
  }

  /** The channel a message is about. */
  function MessageChannel(m: Message): int {
    if !m.Binary? then m.channel else if Complete(m.bytes) then FirstFrame(m.bytes).channel else -1
  }

  predicate AllWhole(ms: seq<Message>) {
    forall i :: 0 <= i < |ms| ==> Whole(ms[i])
  }

  function MessagesOn(ms: seq<Message>, c: int): seq<Message> {
    if ms == [] then []
    else (if MessageChannel(ms[0]) == c then [ms[0]] else []) + MessagesOn(ms[1..], c)
  }

  lemma {:induction false} MessagesOnConcat(a: seq<Message>, b: seq<Message>, c: int)
    ensures MessagesOn(a + b, c) == MessagesOn(a, c) + MessagesOn(b, c)
  {
    if a == [] {
      assert a + b == b;
    } else {
      assert (a + b)[1..] == a[1..] + b && (a + b)[0] == a[0];
      MessagesOnConcat(a[1..], b, c);
      var head := if MessageChannel(a[0]) == c then [a[0]] else [];
      assert head + (MessagesOn(a[1..], c) + MessagesOn(b, c)) == head + MessagesOn(a[1..], c) + MessagesOn(b, c);
    }
  }

  /** What an event sends, and to which socket. */
  function Outgoing(s: R.Registry, e: R.Event): (nat, seq<Message>) {
    match e
    case EvRelay(machineId, request, body) =>
      var node := R.ConsoleNode(s, machineId);
      if node.None? || !node.value.approved then (0, [])
      else (node.value.ws, if |body| >= U32 then [RelayRequest(s.channelSeq + 1, request, |body|)]
                           else R.RequestMessages(s.channelSeq + 1, request, body))
    case EvWsOpen(machineId, path, headers) =>
      var node := R.ConsoleNode(s, machineId);
      if node.None? || !node.value.approved then (0, [])
      else (node.value.ws, [RelayWsOpen(s.channelSeq + 1, path, headers)])
    case EvBrowserSend(channel, kind, data) =>
      if channel !in s.wsChannelNode then (0, [])
      else
        var node := R.ConsoleNode(s, s.wsChannelNode[channel]);
        if node.None? || |data| >= U32 then (0, [])
        else (node.value.ws, [Binary(Encode(Frame(kind % 256, Word(channel), 0, data)))])
    case EvBrowserClose(channel) =>
      if channel !in s.wsChannelNode then (0, [])
      else
        var node := R.ConsoleNode(s, s.wsChannelNode[channel]);
        if node.None? then (0, []) else (node.value.ws, [RelayWsClose(channel)])
    case _ => (0, [])
  }

  predicate SendsNews(s: R.Registry, e: R.Event, ws: nat) {
    R.SentTo(R.Step(s, e).sent, ws) == R.SentTo(s.sent, ws) + if Outgoing(s, e).0 == ws then Outgoing(s, e).1 else []
  }

  lemma OpeningSends(s: R.Registry, e: R.Event, ws: nat)
    requires e.EvRelay? || e.EvWsOpen?
    ensures SendsNews(s, e, ws)
  {
  }

  lemma TunnelSends(s: R.Registry, e: R.Event, ws: nat)
    requires e.EvBrowserSend? || e.EvBrowserClose?
    ensures SendsNews(s, e, ws)
  {
  }

  /** The outgoing messages of an event are what its socket's log grows by. */
  lemma StepSends(s: R.Registry, e: R.Event, ws: nat)
    ensures SendsNews(s, e, ws)
  {
    if e.EvRelay? || e.EvWsOpen? {
      OpeningSends(s, e, ws);
    } else if e.EvBrowserSend? || e.EvBrowserClose? {
      TunnelSends(s, e, ws);
    } else if OfNodes(e) {
      NodesKeep(s, e);
    } else {
      TrafficKeeps(s, e);
    }
  }

  lemma FrameIsWhole(f: Frame)
    requires InRange(f)
    ensures Whole(Binary(Encode(f))) && MessageChannel(Binary(Encode(f))) == f.channel
    ensures FirstFrame(Encode(f)) == f
  {
    EncodedFrameParses(f, []);
    assert Encode(f) + [] == Encode(f);
  }

  /** The events that number a new channel. */
  predicate Numbers(e: R.Event) {
    e.EvRelay? || e.EvWsOpen?
  }

  /** Whole messages, on the channel being numbered or on a tunnel already known. */
  ghost predicate Lawful(s: R.Registry, e: R.Event, news: seq<Message>) {
    && AllWhole(news)
    && (forall i :: 0 <= i < |news| ==>
          if Numbers(e) then MessageChannel(news[i]) == s.channelSeq + 1 else MessageChannel(news[i]) in s.tunnels)
  }

  lemma BodyIsLawful(s: R.Registry, e: R.Event, line: Message, f: Frame)
    requires Numbers(e) && InRange(f) && f.channel == s.channelSeq + 1
    requires !line.Binary? && line.channel == f.channel
    ensures Lawful(s, e, [line, Binary(Encode(f))])
  {
    FrameIsWhole(f);
    var bytes := Binary(Encode(f));
    assert forall i :: 0 <= i < 2 ==> [line, bytes][i] == line || [line, bytes][i] == bytes;
  }

  lemma LineIsLawful(s: R.Registry, e: R.Event, line: Message)
    requires Numbers(e) && !line.Binary? && line.channel == s.channelSeq + 1
    ensures Lawful(s, e, [line])
  {
  }

  lemma RequestIsLawful(s: R.Registry, e: R.Event, request: Request, body: seq<byte>)
    requires Numbers(e) && s.channelSeq + 1 < U32 && |body| < U32
    ensures Lawful(s, e, R.RequestMessages(s.channelSeq + 1, request, body))
  {
    var c := s.channelSeq + 1;
    var line := RelayRequest(c, request, |body|);
    if body == [] {
      assert [line] + [] == [line];
      LineIsLawful(s, e, line);
    } else {
      var f := Frame(BINARY, c, 0, body);
      assert Word(c) == c;
      assert [line] + [Binary(Encode(f))] == [line, Binary(Encode(f))];
      BodyIsLawful(s, e, line, f);
    }
  }

  lemma RelayIsLawful(s: R.Registry, e: R.Event)
    requires e.EvRelay? && s.channelSeq + 1 < U32
    ensures Lawful(s, e, Outgoing(s, e).1)
  {
    if |e.body| < U32 {
      RequestIsLawful(s, e, e.request, e.body);
    } else {
      LineIsLawful(s, e, RelayRequest(s.channelSeq + 1, e.request, |e.body|));
    }
  }

  lemma TunnelFrameIsLawful(s: R.Registry, e: R.Event, m: Message)
    requires !Numbers(e) && Whole(m) && MessageChannel(m) in s.tunnels
    ensures Lawful(s, e, [m])
  {
  }

  lemma SendIsLawful(s: R.Registry, e: R.Event)
    requires e.EvBrowserSend? && L.Tables(s) && s.channelSeq + 1 < U32
    ensures Lawful(s, e, Outgoing(s, e).1)
  {
    var news := Outgoing(s, e).1;
    if news != [] {
      var f := Frame(e.kind % 256, Word(e.channel), 0, e.data);
      assert Word(e.channel) == e.channel;
      FrameIsWhole(f);
      TunnelFrameIsLawful(s, e, Binary(Encode(f)));
    }
  }

  lemma OutgoingIsLawful(s: R.Registry, e: R.Event)
    requires L.Tables(s) && s.channelSeq + 1 < U32
    ensures Lawful(s, e, Outgoing(s, e).1)
  {
    if e.EvRelay? {
      RelayIsLawful(s, e);
    } else if e.EvBrowserSend? {
      SendIsLawful(s, e);
    } else {
      assert forall i :: 0 <= i < |Outgoing(s, e).1| ==> !Outgoing(s, e).1[i].Binary?;
    }
  }

  predicate NoRequest(ms: seq<Message>) {
    forall i :: 0 <= i < |ms| ==> !ms[i].RelayRequest?
  }

  /** Whether messages are the announcement of a request that threw: it waits for bytes that never come. */
  predicate Announced(ms: seq<Message>) {
    |ms| == 1 && ms[0].RelayRequest? && ms[0].contentLength > 0
  }

  /** What an event does to the numbering, and what it sends on a channel it numbers. */
  predicate NumbersWell(s: R.Registry, e: R.Event, s': R.Registry, news: seq<Message>, c: int) {
    && s.channelSeq <= s'.channelSeq <= s.channelSeq + (if Numbers(e) then 1 else 0)
    && (c != s.channelSeq + 1 || !Numbers(e) ==>
          (c in s'.relays <==> c in s.relays) && (c in s'.tunnels <==> c in s.tunnels))
    && (c == s.channelSeq + 1 && Numbers(e) ==>
          && (c in s'.tunnels ==> NoRequest(news))
          && (c !in s'.relays && c !in s'.tunnels ==> news == [] || Announced(news))
          && (c > s'.channelSeq ==> news == []))
    && (!Numbers(e) ==> NoRequest(news))
  }

  lemma RelayNumbers(s: R.Registry, e: R.Event, c: int)
    requires L.Tables(s) && e.EvRelay?
    ensures NumbersWell(s, e, R.Step(s, e), Outgoing(s, e).1, c)
  {
  }

  lemma WsOpenNumbers(s: R.Registry, e: R.Event, c: int)
    requires L.Tables(s) && e.EvWsOpen?
    ensures NumbersWell(s, e, R.Step(s, e), Outgoing(s, e).1, c)
  {
  }

  lemma StepNumbers(s: R.Registry, e: R.Event, c: int)
    requires L.Tables(s)
    ensures NumbersWell(s, e, R.Step(s, e), Outgoing(s, e).1, c)
  {
    if e.EvRelay? {
      RelayNumbers(s, e, c);
    } else if e.EvWsOpen? {
      WsOpenNumbers(s, e, c);
    } else {
      OnlyOpeningsNumber(s, e);
      NoRequestSent(s, e);
    }
  }

  lemma NoRequestSent(s: R.Registry, e: R.Event)
    requires !Numbers(e)
    ensures NoRequest(Outgoing(s, e).1)
  {
  }

  /** The messages of a channel so far: none before it is numbered, no request on a tunnel, and
      of a request that threw only its announcement. */
  ghost predicate Shape(s: R.Registry, sent: seq<Message>, c: int) {
    && AllWhole(sent)
    && var ms := MessagesOn(sent, c);
       && (c > s.channelSeq ==> ms == [])
       && (c in s.tunnels ==> NoRequest(ms))
       && (c !in s.relays && c !in s.tunnels ==> ms == [] || Announced(ms))
  }

  lemma {:induction false} FilterKeepsNoRequest(ms: seq<Message>, c: int)
    requires NoRequest(ms)
    ensures NoRequest(MessagesOn(ms, c))
  {
    if ms != [] { FilterKeepsNoRequest(ms[1..], c); }
  }

  /** Lawful messages are on a channel only if it is being numbered or is a tunnel. */
  lemma LawfulOn(s: R.Registry, e: R.Event, news: seq<Message>, c: int)
    requires Lawful(s, e, news)
    ensures Numbers(e) ==> MessagesOn(news, c) == if c == s.channelSeq + 1 then news else []
    ensures !Numbers(e) && c !in s.tunnels ==> MessagesOn(news, c) == []
  {
  }

  lemma ShapeStep(s: R.Registry, e: R.Event, ws: nat, c: int)
    requires L.Tables(s) && Shape(s, R.SentTo(s.sent, ws), c) && s.channelSeq + 1 < U32
    ensures Shape(R.Step(s, e), R.SentTo(R.Step(s, e).sent, ws), c)
    ensures c in s.relays ==> MessagesOn(R.SentTo(R.Step(s, e).sent, ws), c) == MessagesOn(R.SentTo(s.sent, ws), c)
    ensures c == s.channelSeq + 1 && Numbers(e) && Outgoing(s, e).0 == ws ==>
              MessagesOn(R.SentTo(R.Step(s, e).sent, ws), c) == Outgoing(s, e).1
  {
    var sent, news := R.SentTo(s.sent, ws), if Outgoing(s, e).0 == ws then Outgoing(s, e).1 else [];
    StepSends(s, e, ws);
    StepNumbers(s, e, c);
    OutgoingIsLawful(s, e);
    ShapeAdds(s, e, R.Step(s, e), sent, news, c);
  }

  lemma ShapeAdds(s: R.Registry, e: R.Event, s': R.Registry, sent: seq<Message>, news: seq<Message>, c: int)
    requires L.Tables(s) && Shape(s, sent, c) && Lawful(s, e, news) && NumbersWell(s, e, s', news, c)
    ensures Shape(s', sent + news, c)
    ensures c in s.relays ==> MessagesOn(sent + news, c) == MessagesOn(sent, c)
    ensures c == s.channelSeq + 1 && Numbers(e) ==> MessagesOn(sent + news, c) == news
  {
    MessagesOnConcat(sent, news, c);
    LawfulOn(s, e, news, c);
    if !Numbers(e) { FilterKeepsNoRequest(news, c); }
  }

  /** Channel numbers only grow. */
  lemma {:induction false} NumbersGrow(s: R.Registry, events: seq<R.Event>)
    requires L.Inv(s)
    ensures s.channelSeq <= R.Run(s, events).channelSeq
    decreases events
  {
    if events != [] {
      StepNumbers(s, events[0], 0);
      L.InvStep(s, events[0]);
      NumbersGrow(R.Step(s, events[0]), events[1..]);
    }
  }

  /** In every run the messages of a channel keep their shape, and once its request is sent a
      relay channel carries nothing more. */
  lemma {:induction false} ShapeRun(s: R.Registry, events: seq<R.Event>, ws: nat, c: int)
    requires L.Inv(s) && Shape(s, R.SentTo(s.sent, ws), c) && R.Run(s, events).channelSeq + 1 < U32
    ensures L.Inv(R.Run(s, events)) && Shape(R.Run(s, events), R.SentTo(R.Run(s, events).sent, ws), c)
    ensures c in s.relays ==>
              MessagesOn(R.SentTo(R.Run(s, events).sent, ws), c) == MessagesOn(R.SentTo(s.sent, ws), c)
    decreases events
  {
    if events != [] {
      var e := events[0];
      NumbersGrow(s, events);
      L.InvStep(s, e);
      ShapeStep(s, e, ws, c);
      StepNumbers(s, e, c);
      ShapeRun(R.Step(s, e), events[1..], ws, c);
    }
  }

  // ---- what the agent makes of it ---------------------------------------------

  /** The gateway's messages among the agent's inputs. */
  function FromPeer(inputs: seq<Input>): seq<Message> {
    if inputs == [] then []
    else (if inputs[0].FromGateway? then [inputs[0].m] else []) + FromPeer(inputs[1..])
  }

  function ItemOf(m: Message): Item {
    if m.Binary? && Complete(m.bytes) then Arrives(FirstFrame(m.bytes)) else Control(m)
  }

  function ItemsOf(ms: seq<Message>): seq<Item> {
    if ms == [] then [] else [ItemOf(ms[0])] + ItemsOf(ms[1..])
  }

  lemma WholeParses(m: Message)
    requires m.Binary? && Whole(m)
    ensures ParseAll(m.bytes) == ([FirstFrame(m.bytes)], [])
  {
    FirstFrameEncodes(m.bytes);
    ParseIsUnique(m.bytes, [FirstFrame(m.bytes)], []);
  }

  /** A whole message is one item, and leaves nothing in the parser. */
  lemma MessageIsItem(m: Message, rest: seq<Input>)
    requires Whole(m)
    ensures Items([], [FromGateway(m)] + rest) == [ItemOf(m)] + Items([], rest)
  {
    assert ([FromGateway(m)] + rest)[1..] == rest;
    if m.Binary? {
      WholeParses(m);
      assert [] + m.bytes == m.bytes;
      assert Arrivals([FirstFrame(m.bytes)]) == [Arrives(FirstFrame(m.bytes))];
    }
  }

  lemma OnlyHead(item: Item, rest: seq<Item>, c: int)
    ensures Only([item] + rest, c) == (if On(item, c) then [item] else []) + Only(rest, c)
  {
  }

  /** The agent meets the messages of a channel one item each, in the order sent. */
  lemma {:induction false} ItemsOnChannel(inputs: seq<Input>, c: int)
    requires AllWhole(FromPeer(inputs))
    ensures Only(Items([], inputs), c) == ItemsOf(MessagesOn(FromPeer(inputs), c))
    decreases inputs
  {
    if inputs != [] {
      var i, rest := inputs[0], inputs[1..];
      var ms := FromPeer(rest);
      assert inputs == [i] + rest;
      if i.FromGateway? {
        var m := i.m;
        assert FromPeer(inputs)[0] == m && FromPeer(inputs)[1..] == ms;
        ItemsOnChannel(rest, c);
        MessageIsItem(m, rest);
        OnlyHead(ItemOf(m), Items([], rest), c);
        var others := MessagesOn(ms, c);
        assert On(ItemOf(m), c) <==> MessageChannel(m) == c;
        assert ([m] + others)[0] == m && ([m] + others)[1..] == others;
        assert ItemsOf([m] + others) == [ItemOf(m)] + ItemsOf(others);
        assert [] + others == others && [] + ItemsOf(others) == ItemsOf(others);
        assert inputs == [FromGateway(m)] + rest;
      } else {
        assert FromPeer(inputs) == ms;
        ItemsOnChannel(rest, c);
        OnlyHead(Local(i), Items([], rest), c);
        assert Items([], inputs) == [Local(i)] + Items([], rest);
      }
    }
  }

  /** The registry that has accepted a relay, and the channel it gave it. */
  function Relaying(s: R.Registry, machineId: string, request: Request, body: seq<byte>): R.Registry {
    R.RelayStream(s, machineId, request, body).0
  }

  function ConsoleSocket(s: R.Registry, machineId: string): nat {
    var node := R.ConsoleNode(s, machineId);
    if node.None? then 0 else node.value.ws
  }

  /** The agent has received a front part of what its socket was sent. */
  predicate Receives(inputs: seq<Input>, s: R.Registry, ws: nat) {
    FromPeer(inputs) <= R.SentTo(s.sent, ws)
  }

  /** All of a request has come in. */
  predicate HasArrived(inputs: seq<Input>, f: Forward) {
    |f.body| < U32 && MessagesOn(FromPeer(inputs), f.channel) == R.RequestMessages(f.channel, f.request, f.body)
  }

  /** What became of one request at the local server: handed over once and whole if it has arrived,
      else not at all; and perhaps a second time, which takes a denial. */
  predicate Forwarded(a: Agent, inputs: seq<Input>, f: Forward) {
    && ForwardsOn(a.forwards, f.channel) == (if HasArrived(inputs, f) then [f] else [])
    && (ForwardsOn(a.retries, f.channel) == [] || ForwardsOn(a.retries, f.channel) == ForwardsOn(a.forwards, f.channel))
    && (Happens(Denied(f.channel)) !in inputs ==> ForwardsOn(a.retries, f.channel) == [])
  }

  /** In one gateway lifetime, whatever comes before, meanwhile and after on any channel: an agent
      that has received any front part of what its socket was sent has handed an accepted relay to the
      local server exactly once if all of it has come in, with its own method, path and headers and the
      exact bytes of its body, and not at all otherwise; and a second time, the same, only if the first
      was denied. */
  lemma {:induction false} RelayedExactlyOnce(
    before: seq<R.Event>, machineId: string, request: Request, body: seq<byte>, after: seq<R.Event>,
    inputs: seq<Input>)
    requires R.RelayStream(R.Run(R.BOOT, before), machineId, request, body).1.Opened?
    requires R.Run(Relaying(R.Run(R.BOOT, before), machineId, request, body), after).channelSeq + 1 < U32
    requires Receives(inputs, R.Run(Relaying(R.Run(R.BOOT, before), machineId, request, body), after),
                      ConsoleSocket(R.Run(R.BOOT, before), machineId))
    ensures var c := R.RelayStream(R.Run(R.BOOT, before), machineId, request, body).1.channel;
            Forwarded(RunAgent(IDLE, inputs), inputs, Forward(c, request, body))
  {
    var s := R.Run(R.BOOT, before);
    L.LifecycleHolds(before);
    ChannelsFit(s, machineId, request, body, after);
    ShapeAtBoot(before, ConsoleSocket(s, machineId), s.channelSeq + 1);
    RelayedReachable(s, machineId, request, body, after, inputs);
  }

  lemma RelayedReachable(
    s: R.Registry, machineId: string, request: Request, body: seq<byte>, after: seq<R.Event>, inputs: seq<Input>)
    requires L.Inv(s) && R.RelayStream(s, machineId, request, body).1.Opened?
    requires Shape(s, R.SentTo(s.sent, ConsoleSocket(s, machineId)), s.channelSeq + 1)
    requires R.Run(Relaying(s, machineId, request, body), after).channelSeq + 1 < U32
    requires Receives(inputs, R.Run(Relaying(s, machineId, request, body), after), ConsoleSocket(s, machineId))
    ensures var c := R.RelayStream(s, machineId, request, body).1.channel;
            Forwarded(RunAgent(IDLE, inputs), inputs, Forward(c, request, body))
  {
    RelayAccepted(s, machineId, request, body);
    RelayedFrom(s, machineId, request, body, after, inputs);
    RetriedAtMostOnce(inputs, s.channelSeq + 1);
  }

  lemma RelayAccepted(s: R.Registry, machineId: string, request: Request, body: seq<byte>)
    requires R.RelayStream(s, machineId, request, body).1.Opened?
    ensures var c, e := s.channelSeq + 1, R.EvRelay(machineId, request, body);
            && R.RelayStream(s, machineId, request, body).1 == R.Opened(c) && |body| < U32
            && Relaying(s, machineId, request, body) == R.Step(s, e)
            && c in R.Step(s, e).relays && R.Step(s, e).channelSeq == c
            && Outgoing(s, e) == (ConsoleSocket(s, machineId), R.RequestMessages(c, request, body))
  {
  }

  lemma ChannelsFit(s: R.Registry, machineId: string, request: Request, body: seq<byte>, after: seq<R.Event>)
    requires L.Inv(s) && R.RelayStream(s, machineId, request, body).1.Opened?
    requires R.Run(Relaying(s, machineId, request, body), after).channelSeq + 1 < U32
    ensures L.Inv(Relaying(s, machineId, request, body)) && s.channelSeq + 2 < U32
  {
    RelayAccepted(s, machineId, request, body);
    L.InvStep(s, R.EvRelay(machineId, request, body));
    NumbersGrow(Relaying(s, machineId, request, body), after);
  }

  /** A channel not numbered yet carries nothing. */
  lemma ShapeAtBoot(before: seq<R.Event>, ws: nat, c: nat)
    requires R.Run(R.BOOT, before).channelSeq + 1 < U32
    ensures Shape(R.Run(R.BOOT, before), R.SentTo(R.Run(R.BOOT, before).sent, ws), c)
  {
    L.LifecycleHolds([]);
    ShapeRun(R.BOOT, before, ws, c);
  }

  lemma RelayedFrom(
    s: R.Registry, machineId: string, request: Request, body: seq<byte>, after: seq<R.Event>, inputs: seq<Input>)
    requires L.Inv(s) && R.RelayStream(s, machineId, request, body).1.Opened?
    requires Shape(s, R.SentTo(s.sent, ConsoleSocket(s, machineId)), s.channelSeq + 1)
    requires R.Run(Relaying(s, machineId, request, body), after).channelSeq + 1 < U32
    requires Receives(inputs, R.Run(Relaying(s, machineId, request, body), after), ConsoleSocket(s, machineId))
    ensures var f := Forward(s.channelSeq + 1, request, body);
            ForwardsOn(RunAgent(IDLE, inputs).forwards, f.channel) == if HasArrived(inputs, f) then [f] else []
  {
    var ws, e := ConsoleSocket(s, machineId), R.EvRelay(machineId, request, body);
    RelayAccepted(s, machineId, request, body);
    ChannelsFit(s, machineId, request, body, after);
    ShapeStep(s, e, ws, s.channelSeq + 1);
    AnnouncedIsForwarded(R.Step(s, e), ws, s.channelSeq + 1, request, body, after, inputs);
  }

  lemma AnnouncedIsForwarded(
    s: R.Registry, ws: nat, c: nat, request: Request, body: seq<byte>, after: seq<R.Event>, inputs: seq<Input>)
    requires L.Inv(s) && Shape(s, R.SentTo(s.sent, ws), c) && c in s.relays && c < U32 && |body| < U32
    requires MessagesOn(R.SentTo(s.sent, ws), c) == R.RequestMessages(c, request, body)
    requires R.Run(s, after).channelSeq + 1 < U32 && Receives(inputs, R.Run(s, after), ws)
    ensures var f := Forward(c, request, body);
            ForwardsOn(RunAgent(IDLE, inputs).forwards, c) == if HasArrived(inputs, f) then [f] else []
  {
    ShapeRun(s, after, ws, c);
    MessagesFront(FromPeer(inputs), R.SentTo(R.Run(s, after).sent, ws), c);
    if HasArrived(inputs, Forward(c, request, body)) {
      ForwardsTheRequest(inputs, c, request, body);
    } else {
      FrontOfRequest(MessagesOn(FromPeer(inputs), c), c, request, body);
      ForwardsNothing(inputs, c);
    }
  }

  lemma MessagesFront(part: seq<Message>, all: seq<Message>, c: int)
    requires part <= all
    ensures MessagesOn(part, c) <= MessagesOn(all, c)
  {
    assert all == part + all[|part|..];
    MessagesOnConcat(part, all[|part|..], c);
  }

  /** A request that has not arrived whole has not been announced, or waits for its body. */
  lemma FrontOfRequest(ms: seq<Message>, c: int, request: Request, body: seq<byte>)
    requires |body| < U32 && ms < R.RequestMessages(c, request, body)
    ensures ms == [] || Announced(ms)
  {
  }

  /** Nothing else is forwarded, however much has arrived: not tunnels, and not a request whose body was
      too large to send. */
  lemma NothingElseForwarded(events: seq<R.Event>, ws: nat, inputs: seq<Input>, c: int)
    requires R.Run(R.BOOT, events).channelSeq + 1 < U32
    requires Receives(inputs, R.Run(R.BOOT, events), ws)
    requires c !in R.Run(R.BOOT, events).relays
    ensures ForwardsOn(RunAgent(IDLE, inputs).forwards, c) == []
  {
    L.LifecycleHolds([]);
    ShapeRun(R.BOOT, events, ws, c);
    MessagesFront(FromPeer(inputs), R.SentTo(R.Run(R.BOOT, events).sent, ws), c);
    ForwardsNothing(inputs, c);
  }

  // ---- a denied request -------------------------------------------------------

  /** What the agent holds of a channel's exchange: the last request handed over, and while there was
      only one, whether it was sent again. */
  predicate RetryInv(a: Agent, c: int) {
    var firsts, seconds := ForwardsOn(a.forwards, c), ForwardsOn(a.retries, c);
    && (forall k :: k in a.exchanges ==> a.exchanges[k].forward.channel == k)
    && if c !in a.exchanges then firsts == [] && seconds == []
    else
      && firsts != [] && a.exchanges[c].forward == firsts[|firsts| - 1]
      && (|firsts| == 1 ==> seconds == if a.exchanges[c].retried then firsts else [])
  }

  lemma HandOverKeeps(a: Agent, f: Forward, c: int)
    requires RetryInv(a, c)
    ensures RetryInv(HandOver(a, f), c)
  {
    ForwardsPush(a.forwards, f, c);
  }

  lemma FrameKeeps(a: Agent, f: Frame, c: int)
    requires RetryInv(a, c)
    ensures RetryInv(AcceptFrame(a, f), c)
  {
    if f.channel !in a.upstreams && f.channel in a.pending {
      var p := a.pending[f.channel];
      HandOverKeeps(a.(pending := a.pending - {f.channel}),
                    Forward(f.channel, p.request, Flat(p.chunks + [f.data])), c);
    }
  }

  lemma {:induction false} FramesKeep(a: Agent, frames: seq<Frame>, c: int)
    requires RetryInv(a, c)
    ensures RetryInv(AcceptFrames(a, frames), c)
    ensures AcceptFrames(a, frames).retries == a.retries
    decreases frames
  {
    if frames != [] {
      FrameKeeps(a, frames[0], c);
      FramesKeep(AcceptFrame(a, frames[0]), frames[1..], c);
    }
  }

  lemma BytesKeep(a: Agent, bytes: seq<byte>, c: int)
    requires RetryInv(a, c)
    ensures RetryInv(Accept(a, Binary(bytes)), c) && Accept(a, Binary(bytes)).retries == a.retries
  {
    var (frames, buf) := ParseAll(a.buf + bytes);
    FramesKeep(a.(buf := buf), frames, c);
  }

  lemma MessageKeeps(a: Agent, m: Message, c: int)
    requires RetryInv(a, c)
    ensures RetryInv(Accept(a, m), c) && Accept(a, m).retries == a.retries
  {
    if m.Binary? {
      BytesKeep(a, m.bytes, c);
    } else if m.RelayRequest? {
      HandOverKeeps(a, Forward(m.channel, m.request, []), c);
    }
  }

  lemma ReactKeeps(a: Agent, i: Input, c: int)
    requires RetryInv(a, c)
    ensures RetryInv(React(a, i), c)
    ensures i != Happens(Denied(c)) ==> ForwardsOn(React(a, i).retries, c) == ForwardsOn(a.retries, c)
  {
    match i
    case FromGateway(m) => MessageKeeps(a, m, c);
    case Happens(l) =>
      if l.Denied? && l.channel in a.exchanges { DenialKeeps(a, l.channel, c); }
    case _ =>
  }

  lemma DenialKeeps(a: Agent, d: int, c: int)
    requires RetryInv(a, c) && d in a.exchanges
    ensures RetryInv(LocalHappens(a, Denied(d)), c)
    ensures d != c ==> ForwardsOn(LocalHappens(a, Denied(d)).retries, c) == ForwardsOn(a.retries, c)
  {
    ForwardsPush(a.retries, a.exchanges[d].forward, c);
  }

  lemma {:induction false} RetryRun(a: Agent, inputs: seq<Input>, c: int)
    requires RetryInv(a, c)
    ensures RetryInv(RunAgent(a, inputs), c)
    ensures Happens(Denied(c)) !in inputs ==>
              ForwardsOn(RunAgent(a, inputs).retries, c) == ForwardsOn(a.retries, c)
    decreases inputs
  {
    if inputs != [] {
      ReactKeeps(a, inputs[0], c);
      RetryRun(React(a, inputs[0]), inputs[1..], c);
    }
  }

  /** A request handed over at most once is sent a second time at most once, the same, and only after a
      denial. */
  lemma RetriedAtMostOnce(inputs: seq<Input>, c: int)
    requires |ForwardsOn(RunAgent(IDLE, inputs).forwards, c)| <= 1
    ensures var a := RunAgent(IDLE, inputs);
            && (ForwardsOn(a.retries, c) == [] || ForwardsOn(a.retries, c) == ForwardsOn(a.forwards, c))
            && (Happens(Denied(c)) !in inputs ==> ForwardsOn(a.retries, c) == [])
  {
    RetryRun(IDLE, inputs, c);
  }

  lemma ForwardsNothing(inputs: seq<Input>, c: int)
    requires AllWhole(FromPeer(inputs))
    requires var ms := MessagesOn(FromPeer(inputs), c); NoRequest(ms) || Announced(ms)
    ensures ForwardsOn(RunAgent(IDLE, inputs).forwards, c) == []
  {
    var ms := MessagesOn(FromPeer(inputs), c);
    ItemsOnChannel(inputs, c);
    RunIsItems(IDLE, inputs);
    ItemsArePlain([], inputs);
    ChannelsAreIndependent(IDLE, IDLE, Items([], inputs), c);
    FilterKeepsWhole(FromPeer(inputs), c);
    if NoRequest(ms) {
      NoRequestNoForward(IDLE, ms, c);
    } else {
      AnnouncementWaits(ms);
    }
  }

  lemma AnnouncementWaits(ms: seq<Message>)
    requires Announced(ms)
    ensures MeetAll(IDLE, ItemsOf(ms)).forwards == []
  {
  }

  lemma {:induction false} FilterKeepsWhole(ms: seq<Message>, c: int)
    requires AllWhole(ms)
    ensures AllWhole(MessagesOn(ms, c))
  {
    if ms != [] { FilterKeepsWhole(ms[1..], c); }
  }

  lemma {:induction false} NoRequestNoForward(a: Agent, ms: seq<Message>, c: int)
    requires NoRequest(ms) && AllWhole(ms) && a.pending == map[] && a.forwards == []
    ensures MeetAll(a, ItemsOf(ms)).forwards == []
    decreases ms
  {
    if ms != [] {
      var item, rest := ItemOf(ms[0]), ItemsOf(ms[1..]);
      assert ([item] + rest)[1..] == rest;
      NoRequestNoForward(Meet(a, item), ms[1..], c);
    }
  }

  /** An agent whose traffic on a channel is one request as the gateway sends it. */
  lemma ForwardsTheRequest(inputs: seq<Input>, c: nat, request: Request, body: seq<byte>)
    requires c < U32 && |body| < U32 && AllWhole(FromPeer(inputs))
    requires MessagesOn(FromPeer(inputs), c) == R.RequestMessages(c, request, body)
    ensures ForwardsOn(RunAgent(IDLE, inputs).forwards, c) == [Forward(c, request, body)]
  {
    var frame := Frame(BINARY, c, 0, body);
    var frames := if body == [] then [] else [frame];
    RequestItems(c, request, body);
    ItemsOnChannel(inputs, c);
    OnePayload(frame);
    RequestsForwardedOnce(IDLE, inputs, c, request, body, frames);
  }

  lemma OnePayload(frame: Frame)
    ensures Flat(Payloads([frame])) == frame.data
  {
  }

  lemma RequestItems(c: nat, request: Request, body: seq<byte>)
    requires c < U32 && |body| < U32
    ensures ItemsOf(R.RequestMessages(c, request, body))
         == [Control(RelayRequest(c, request, |body|))]
            + Arrivals(if body == [] then [] else [Frame(BINARY, c, 0, body)])
  {
    var line := RelayRequest(c, request, |body|);
    if body == [] {
      LineItems(line);
    } else {
      BodyItems(line, Frame(BINARY, c, 0, body));
      assert Word(c) == c;
    }
  }

  lemma LineItems(line: Message)
    requires !line.Binary?
    ensures ItemsOf([line] + []) == [Control(line)] + Arrivals([])
  {
    assert [line] + [] == [line] && [line][1..] == [];
    assert ItemsOf([line]) == [ItemOf(line)] + ItemsOf([]);
  }

  lemma BodyItems(line: Message, frame: Frame)
    requires InRange(frame) && !line.Binary?
    ensures ItemsOf([line] + [Binary(Encode(frame))]) == [Control(line)] + Arrivals([frame])
  {
    FrameIsWhole(frame);
    assert [line] + [Binary(Encode(frame))] == [line, Binary(Encode(frame))];
    PairItems(line, Binary(Encode(frame)));
    assert Arrivals([frame]) == [Arrives(frame)];
  }

  lemma PairItems(a: Message, b: Message)
    ensures ItemsOf([a, b]) == [ItemOf(a), ItemOf(b)]
  {
    assert [a, b][1..] == [b] && [b][1..] == [];
    assert ItemsOf([b]) == [ItemOf(b)];
  }
}
