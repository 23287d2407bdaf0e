/** The way back of a WebSocket tunnel: what the local upstream sends is what the browser is sent. */
module TunnelBack {
  import opened Bytes
  import opened FrameCodec
  import opened Wire
  import R = RegistryModel
  import L = RelayLifecycle
  import opened AgentModel
  import opened AgentReplies
  import opened GatewayInbox
  import opened ChannelHearing
  import opened WayBack
  import opened Seats
  import E = EndToEnd
  import opened UpstreamLine
  import T = Tunnels

  /** Data of an upstream that fits a frame. */
  predicate IsData(i: Input) {
    i.Happens? && i.l.UpstreamSays? && |i.l.data| < U32
  }

  /** What a local upstream does, and what it comes to for the browser's side of the tunnel. Data too
      long for a frame makes the codec throw. */
  function TunnelCall(i: Input): seq<R.Call> {
    match i
    case Opens(_, _) => [R.WsOnOpen]
    case Dies(_, _, code) => [R.WsOnClose(code)]
    case Happens(l) =>
      if IsData(i) then [R.WsOnData(if l.binary then BINARY else TEXT, l.data)] else []
    case _ => []
  }

  function TunnelCalls(ls: seq<Input>): seq<R.Call> {
    if ls == [] then [] else TunnelCall(ls[0]) + TunnelCalls(ls[1..])
  }

  /** The pieces an upstream says. */
  function Said(ls: seq<Input>): seq<Piece> {
    if ls == [] then []
    else
      var i := ls[0];
      (if IsData(i) then [Piece(i.l.data, i.l.binary)] else []) + Said(ls[1..])
  }

  /** The pieces put on the browser's socket. */
  function Handed(calls: seq<R.Call>): seq<Piece> {
    if calls == [] then []
    else (if calls[0].WsOnData? then [Piece(calls[0].wsData, calls[0].kind == BINARY)] else []) + Handed(calls[1..])
  }

  lemma {:induction false} HandedConcat(a: seq<R.Call>, b: seq<R.Call>)
    ensures Handed(a + b) == Handed(a) + Handed(b)
  {
    if a == [] {
      assert a + b == b;
    } else {
      assert (a + b)[1..] == a[1..] + b && (a + b)[0] == a[0];
      HandedConcat(a[1..], b);
    }
  }

  lemma HandedOne(call: R.Call)
    ensures Handed([call]) == if call.WsOnData? then [Piece(call.wsData, call.kind == BINARY)] else []
  {
    assert [call][1..] == [];
  }

  /** Opening, data and closing of the channel's upstreams, and nothing of a relay. */
  predicate OfUpstream(ls: seq<Input>, c: int) {
    forall k :: 0 <= k < |ls| ==> OneOfUpstream(ls[k], c)
  }

  predicate OneOfUpstream(i: Input, c: int) {
    match i
    case Opens(at, _) => at == c
    case Dies(at, _, _) => at == c
    case Happens(l) => l.UpstreamSays? && l.channel == c
    case _ => false
  }

  lemma InputAsks(i: Input, c: int)
    requires OneOfUpstream(i, c) && 0 <= c < U32
    ensures CallsBy(Says(i), c, true) == TunnelCall(i)
    ensures Handed(TunnelCall(i)) == Said([i])
  {
    match i
    case Opens(at, _) => CallsByOne(RelayWsOpenOk(at), R.EvWsOpenOk(at), c, true);
    case Dies(at, _, code) => CallsByOne(RelayWsClosed(at, code), R.EvWsClose(at, code), c, true);
    case Happens(l) => DataAsks(l, c);
  }

  lemma DataAsks(l: LocalEvent, c: int)
    requires l.UpstreamSays? && l.channel == c && 0 <= c < U32
    ensures CallsBy(RepliesTo(l), c, true) == TunnelCall(Happens(l))
    ensures Handed(TunnelCall(Happens(l))) == Said([Happens(l)])
  {
    assert [Happens(l)][1..] == [];
    if |l.data| < U32 {
      var f := Frame(if l.binary then BINARY else TEXT, Word(c), 0, l.data);
      var call := R.WsOnData(f.kind, l.data);
      FrameIsWhole(f);
      CallsByOne(Bytes(Encode(f)), R.EvFrame(c, f.kind, l.data), c, true);
      HandedOne(call);
    }
  }

  /** What the upstream does is asked of the tunnel, call by call, its pieces in order and with their kinds. */
  lemma {:induction false} InputsAsk(ls: seq<Input>, c: int)
    requires OfUpstream(ls, c) && 0 <= c < U32
    ensures CallsBy(SaidBy(ls), c, true) == TunnelCalls(ls)
    ensures Handed(TunnelCalls(ls)) == Said(ls)
  {
    if ls != [] {
      InputAsks(ls[0], c);
      InputsAsk(ls[1..], c);
      CallsByConcat(Says(ls[0]), SaidBy(ls[1..]), c, true);
      HandedConcat(TunnelCall(ls[0]), TunnelCalls(ls[1..]));
      assert [ls[0]][1..] == [];
    }
  }

  lemma HandedFront(part: seq<R.Call>, all: seq<R.Call>)
    requires part <= all
    ensures Handed(part) <= Handed(all)
  {
    assert all == part + all[|part|..];
    HandedConcat(part, all[|part|..]);
  }

  /** A closed upstream is heard no more. */
  predicate ClosesLast(ls: seq<Input>) {
    forall i :: 0 <= i < |ls| - 1 ==> !ls[i].Dies?
  }

  lemma {:induction false} CloseIsLast(ls: seq<Input>)
    requires ClosesLast(ls)
    ensures forall i :: 0 <= i < |TunnelCalls(ls)| - 1 ==> !L.Terminal(TunnelCalls(ls)[i])
  {
    if ls != [] {
      CloseIsLast(ls[1..]);
      assert |ls| > 1 ==> !ls[0].Dies?;
    }
  }

  /** A tunnel's browser is handed a front part of what is asked. */
  lemma HandedInOrder(calls: seq<R.Call>, asked: seq<R.Call>, k: nat, fate: Fate, open: bool)
    requires Comes(calls, [], asked, k, fate, open) && Tells(fate, true)
    ensures Handed(calls) == Handed(asked[..k]) && Handed(calls) <= Handed(asked)
  {
    var last := if fate.Broken? then fate.last else [];
    HandedConcat(asked[..k], last);
    assert [] + asked[..k] == asked[..k];
    HandedOne(R.WsOnClose(1011));
    HandedFront(asked[..k], asked);
  }

  /** What a tunnel opened before has come to: the calls of its handlers, and the pieces handed on. */
  ghost predicate Answered(
    g: Gateway, xs: seq<Arrival>, ws: nat, inputs: seq<Input>, c: int, k: nat, fate: Fate)
  {
    var s, asked, ls := TakeAll(g, xs).registry, AskedAll(AllEvents(g, xs), c, true), InputsOn(inputs, c);
    var calls, whole := R.CallsOf(s.calls, c), HeardAll(xs, ws, inputs, c);
    && asked <= TunnelCalls(ls) && (whole ==> asked == TunnelCalls(ls))
    && Comes(calls, [], asked, k, fate, c in s.wsChannels)
    && (Unbroken(g.registry, AllEvents(g, xs), c, true) <==> !fate.Broken?) && Tells(fate, true)
    && Handed(calls) <= Said(ls)
    && (whole && !fate.Broken? && ClosesLast(ls) ==> Handed(calls) == Said(ls))
  }

  /** Upstream to browser, in every run of agent and gateway and at every point of it: a tunnel that is
      open and has not been called yet is called exactly as its upstream does, as far as the gateway has
      heard it, up to the first close; or up to the event that broke it off, exactly if there is one. The
      browser is handed a front part of what the upstream says, in order and with its kinds, and all of it
      if nothing broke the tunnel off and all was heard. */
  lemma TunnelAnswered(g: Gateway, xs: seq<Arrival>, ws: nat, inputs: seq<Input>, c: int) returns (k: nat, fate: Fate)
    requires L.Inv(g.registry) && c in g.registry.wsChannels && R.CallsOf(g.registry.calls, c) == [] && 0 <= c < U32
    requires Hears(g, xs, ws, inputs, c) && OfUpstream(InputsOn(inputs, c), c)
    ensures Answered(g, xs, ws, inputs, c, k, fate)
  {
    var events, ls := AllEvents(g, xs), InputsOn(inputs, c);
    ArrivalsAreEvents(g, xs);
    HeardIsAsked(g, xs, ws, inputs, c, true);
    InputsAsk(ls, c);
    k, fate := CallsFollow(g.registry, events, c, true);
    var calls, asked := R.CallsOf(R.Run(g.registry, events).calls, c), AskedAll(events, c, true);
    HandedInOrder(calls, asked, k, fate, c in R.Run(g.registry, events).wsChannels);
    HandedFront(asked, TunnelCalls(ls));
    assert asked[..|asked|] == asked;
    if ClosesLast(ls) { CloseIsLast(ls); }
  }

  // ---- there and back ---------------------------------------------------------

  /** The gateway right after opening a tunnel. */
  function Opening(
    before: seq<R.Event>, machineId: string, path: string, headers: map<string, string>, bufs: map<nat, seq<byte>>)
    : Gateway
  {
    Gateway(R.RelayWsOpenStep(R.Run(R.BOOT, before), machineId, path, headers).0, bufs)
  }

  lemma OpenedTunnelIsOpen(before: seq<R.Event>, machineId: string, path: string, headers: map<string, string>)
    requires R.RelayWsOpenStep(R.Run(R.BOOT, before), machineId, path, headers).1.Opened?
    ensures var s := R.RelayWsOpenStep(R.Run(R.BOOT, before), machineId, path, headers).0;
            var c := R.Run(R.BOOT, before).channelSeq + 1;
            && L.Inv(s) && c in s.wsChannels && R.CallsOf(s.calls, c) == [] && s.channelSeq == c
            && R.RelayWsOpenStep(R.Run(R.BOOT, before), machineId, path, headers).1.channel == c
            && E.ConsoleSocket(R.Run(R.BOOT, before), machineId) in s.sockets
  {
    var s := R.Run(R.BOOT, before);
    L.LifecycleHolds(before);
    L.InvStep(s, R.EvWsOpen(machineId, path, headers));
    RunSeated(R.BOOT, before);
    assert L.History(s, s.channelSeq + 1);
  }

  /** There and back through a tunnel, in one gateway lifetime and at every point of it. */
  lemma {:induction false} BothWays(
    before: seq<R.Event>, machineId: string, path: string, headers: map<string, string>, bufs: map<nat, seq<byte>>,
    xs: seq<Arrival>, inputs: seq<Input>) returns (k: nat, fate: Fate)
    requires R.RelayWsOpenStep(R.Run(R.BOOT, before), machineId, path, headers).1.Opened?
    requires var g := Opening(before, machineId, path, headers, bufs);
             var ws := E.ConsoleSocket(R.Run(R.BOOT, before), machineId);
             var c := R.Run(R.BOOT, before).channelSeq + 1;
             && TakeAll(g, xs).registry.channelSeq + 1 < U32 && E.Receives(inputs, TakeAll(g, xs).registry, ws)
             && BufOf(bufs, ws) == [] && ChannelHearing.AllWhole(OnSocket(xs, ws)) && Elsewhere(g, xs, ws, c) == []
             && AllFit(inputs) && RepliesOn(OnSocket(xs, ws), c) <= RepliesOn(SaidBy(inputs), c)
             && OfUpstream(InputsOn(inputs, c), c)
    ensures var g := Opening(before, machineId, path, headers, bufs);
            var ws := E.ConsoleSocket(R.Run(R.BOOT, before), machineId);
            var c := R.Run(R.BOOT, before).channelSeq + 1;
            && Answered(g, xs, ws, inputs, c, k, fate)
            && Carries(RunAgent(IDLE, inputs), LineOf(inputs, c), c)
            && T.Faithful(LineOf(inputs, c), path, headers, T.Posted(g.registry, AllEvents(g, xs), ws, c), false)
  {
    var g, ws := Opening(before, machineId, path, headers, bufs), E.ConsoleSocket(R.Run(R.BOOT, before), machineId);
    var c := R.Run(R.BOOT, before).channelSeq + 1;
    ArrivalsAreEvents(g, xs);
    OpenedTunnelIsOpen(before, machineId, path, headers);
    T.TunnelEndToEnd(before, machineId, path, headers, AllEvents(g, xs), inputs);
    E.NumbersGrow(g.registry, AllEvents(g, xs));
    k, fate := TunnelAnswered(g, xs, ws, inputs, c);
  }
}
