/** Which messages of which sockets reach a channel: they are routed by their channel alone. */
module ChannelHearing {
  import opened Sequences
  import opened Bytes
  import opened FrameCodec
  import opened Wire
  import R = RegistryModel
  import L = RelayLifecycle
  import opened AgentModel
  import opened GatewayInbox
  import opened AgentReplies
  import opened Seats
  import opened WayBack

  predicate IsMessage(e: R.Event) {
    e.EvFrame? || e.EvResponse? || e.EvEnd? || e.EvWsOpenOk? || e.EvWsClose?
  }

  /** The event is a message about the channel. */
  predicate Concerns(e: R.Event, c: int) {
    IsMessage(e) && e.channel == c
  }

  function EventsOn(events: seq<R.Event>, c: int): seq<R.Event> {
    if events == [] then [] else (if Concerns(events[0], c) then [events[0]] else []) + EventsOn(events[1..], c)
  }

  lemma {:induction false} EventsOnConcat(a: seq<R.Event>, b: seq<R.Event>, c: int)
    ensures EventsOn(a + b, c) == EventsOn(a, c) + EventsOn(b, c)
  {
    if a == [] {
      assert a + b == b;
    } else {
      assert (a + b)[1..] == a[1..] + b && (a + b)[0] == a[0];
      EventsOnConcat(a[1..], b, c);
      Grouped(if Concerns(a[0], c) then [a[0]] else [], EventsOn(a[1..], c), EventsOn(b, c));
    }
  }

  /** Only messages about a channel ask anything of it. */
  lemma {:induction false} OnlyMessagesAsk(events: seq<R.Event>, c: int, tunnel: bool)
    ensures AskedAll(EventsOn(events, c), c, tunnel) == AskedAll(events, c, tunnel)
  {
    if events != [] {
      var e, rest := events[0], EventsOn(events[1..], c);
      OnlyMessagesAsk(events[1..], c, tunnel);
      if Concerns(e, c) {
        assert EventsOn(events, c) == [e] + rest && ([e] + rest)[1..] == rest;
      } else {
        assert EventsOn(events, c) == rest && Asked(e, c, tunnel) == [];
      }
    }
  }

  // ---- all sockets together ---------------------------------------------------

  /** What a whole message amounts to. */
  function EventsOfReply(m: Reply): seq<R.Event> {
    if !m.Bytes? then [ControlEvent(m)]
    else if Complete(m.bytes) then
      var f := FirstFrame(m.bytes);
      [R.EvFrame(f.channel, f.kind, f.data)]
    else []
  }

  function EventsOfAll(ms: seq<Reply>): seq<R.Event> {
    if ms == [] then [] else EventsOfReply(ms[0]) + EventsOfAll(ms[1..])
  }

  lemma {:induction false} EventsOfConcat(a: seq<Reply>, b: seq<Reply>)
    ensures EventsOfAll(a + b) == EventsOfAll(a) + EventsOfAll(b)
  {
    if a == [] {
      assert a + b == b;
    } else {
      assert (a + b)[1..] == a[1..] + b && (a + b)[0] == a[0];
      EventsOfConcat(a[1..], b);
      Grouped(EventsOfReply(a[0]), EventsOfAll(a[1..]), EventsOfAll(b));
    }
  }

  lemma EventsOfOne(m: Reply)
    ensures EventsOfAll([m]) == EventsOfReply(m)
  {
    assert [m][1..] == [] && EventsOfReply(m) + [] == EventsOfReply(m);
  }

  /** The message an arrival is taken for: any bytes, and what an onboarded socket says. */
  function Heeded(g: Gateway, x: Arrival): seq<Reply> {
    if x.FromSocket? && (x.m.Bytes? || x.ws in g.registry.sockets) then [x.m] else []
  }

  /** Everything heeded, from all sockets, in the order it arrives. */
  function HeededAll(g: Gateway, xs: seq<Arrival>): seq<Reply>
    decreases xs
  {
    if xs == [] then [] else Heeded(g, xs[0]) + HeededAll(Take(g, xs[0]), xs[1..])
  }

  /** Messages are whole, and the registry's other events are no messages. */
  predicate Orderly(xs: seq<Arrival>) {
    forall k :: 0 <= k < |xs| ==> OrderlyOne(xs[k])
  }

  predicate OrderlyOne(x: Arrival) {
    match x
    case FromSocket(_, m) => Whole(m)
    case Own(e) => !IsMessage(e)
  }

  /** No parser holds back anything. */
  predicate Clear(bufs: map<nat, seq<byte>>) {
    forall ws :: ws in bufs ==> bufs[ws] == []
  }

  lemma WholeParses(bytes: seq<byte>)
    requires Whole(Bytes(bytes))
    ensures ParseAll([] + bytes) == ([FirstFrame(bytes)], [])
    ensures FrameEvents(ParseAll([] + bytes).0) == EventsOfReply(Bytes(bytes))
  {
    FirstFrameEncodes(bytes);
    assert [] + bytes == bytes && EncodeAll([FirstFrame(bytes)]) + [] == bytes by {
      assert [FirstFrame(bytes)][1..] == [];
    }
    ParseIsUnique(bytes, [FirstFrame(bytes)], []);
    assert [FirstFrame(bytes)][1..] == [];
  }

  lemma OneEventOn(m: Reply, c: int)
    requires Whole(m)
    ensures EventsOn(EventsOfReply(m), c) == if About(m) == c then EventsOfReply(m) else []
  {
    assert EventsOfReply(m)[1..] == [];
  }

  lemma ArrivalAmounts(g: Gateway, x: Arrival, c: int)
    requires OrderlyOne(x) && (x.FromSocket? ==> BufOf(g.bufs, x.ws) == [])
    ensures EventsOn(EventsOf(g, x), c) == EventsOfAll(RepliesOn(Heeded(g, x), c))
    ensures x.FromSocket? ==> BufOf(BufsAfter(g, x), x.ws) == []
  {
    match x
    case Own(e) => assert [e][1..] == [];
    case FromSocket(ws, m) =>
      if m.Bytes? { WholeParses(m.bytes); }
      OneEventOn(m, c);
      EventsOfOne(m);
      assert [m][1..] == [];
  }

  /** A channel is asked exactly what all sockets together say about it, in the order it arrives,
      control messages counting only from onboarded ones. */
  lemma {:induction false} AskedIsSaid(g: Gateway, xs: seq<Arrival>, c: int)
    requires Orderly(xs) && Clear(g.bufs)
    ensures EventsOn(AllEvents(g, xs), c) == EventsOfAll(RepliesOn(HeededAll(g, xs), c))
    decreases xs
  {
    if xs != [] {
      var x, rest, g' := xs[0], xs[1..], Take(g, xs[0]);
      ArrivalAmounts(g, x, c);
      AskedIsSaid(g', rest, c);
      EventsOnConcat(EventsOf(g, x), AllEvents(g', rest), c);
      RepliesOnConcat(Heeded(g, x), HeededAll(g', rest), c);
      EventsOfConcat(RepliesOn(Heeded(g, x), c), RepliesOn(HeededAll(g', rest), c));
    }
  }

  // ---- one socket and the others ----------------------------------------------

  /** The messages about a channel that one socket's arrivals amount to. */
  function From(g: Gateway, xs: seq<Arrival>, ws: nat, c: int): seq<R.Event>
    decreases xs
  {
    if xs == [] then []
    else (if xs[0].FromSocket? && xs[0].ws == ws then EventsOn(EventsOf(g, xs[0]), c) else [])
         + From(Take(g, xs[0]), xs[1..], ws, c)
  }

  /** Those that everything else amounts to. */
  function Elsewhere(g: Gateway, xs: seq<Arrival>, ws: nat, c: int): seq<R.Event>
    decreases xs
  {
    if xs == [] then []
    else (if xs[0].FromSocket? && xs[0].ws == ws then [] else EventsOn(EventsOf(g, xs[0]), c))
         + Elsewhere(Take(g, xs[0]), xs[1..], ws, c)
  }

  lemma {:induction false} Divided(g: Gateway, xs: seq<Arrival>, ws: nat, c: int)
    ensures |EventsOn(AllEvents(g, xs), c)| == |From(g, xs, ws, c)| + |Elsewhere(g, xs, ws, c)|
    ensures Elsewhere(g, xs, ws, c) == [] ==> EventsOn(AllEvents(g, xs), c) == From(g, xs, ws, c)
    decreases xs
  {
    if xs != [] {
      Divided(Take(g, xs[0]), xs[1..], ws, c);
      EventsOnConcat(EventsOf(g, xs[0]), AllEvents(Take(g, xs[0]), xs[1..]), c);
    }
  }

  /** The messages arriving on a socket. */
  function OnSocket(xs: seq<Arrival>, ws: nat): seq<Reply> {
    if xs == [] then []
    else (if xs[0].FromSocket? && xs[0].ws == ws then [xs[0].m] else []) + OnSocket(xs[1..], ws)
  }

  predicate AllWhole(ms: seq<Reply>) {
    forall i :: 0 <= i < |ms| ==> Whole(ms[i])
  }

  /** The gateway reads an onboarded socket's messages as they were sent. */
  predicate Reads(g: Gateway, xs: seq<Arrival>, ws: nat) {
    ws in g.registry.sockets && BufOf(g.bufs, ws) == [] && AllWhole(OnSocket(xs, ws))
  }

  lemma {:induction false} FromIsSaid(g: Gateway, xs: seq<Arrival>, ws: nat, c: int)
    requires Reads(g, xs, ws)
    ensures From(g, xs, ws, c) == EventsOfAll(RepliesOn(OnSocket(xs, ws), c))
    decreases xs
  {
    if xs != [] {
      var x, rest, g' := xs[0], xs[1..], Take(g, xs[0]);
      SocketsStay(g.registry, EventsOf(g, x), ws);
      if x.FromSocket? && x.ws == ws {
        var said := OnSocket(rest, ws);
        assert OnSocket(xs, ws)[0] == x.m && OnSocket(xs, ws)[1..] == said;
        ArrivalAmounts(g, x, c);
        FromIsSaid(g', rest, ws, c);
        RepliesOnConcat([x.m], said, c);
        EventsOfConcat(RepliesOn([x.m], c), RepliesOn(said, c));
      } else {
        assert OnSocket(xs, ws) == OnSocket(rest, ws);
        assert BufOf(BufsAfter(g, x), ws) == BufOf(g.bufs, ws);
        FromIsSaid(g', rest, ws, c);
      }
    }
  }

  /** A channel is asked just what one socket says about it if and only if nothing else amounts to a
      message about it, whatever bytes, whole or not, the other sockets send. */
  lemma OwnSocketAloneIff(g: Gateway, xs: seq<Arrival>, ws: nat, c: int)
    requires Reads(g, xs, ws)
    ensures EventsOn(AllEvents(g, xs), c) == EventsOfAll(RepliesOn(OnSocket(xs, ws), c))
       <==> Elsewhere(g, xs, ws, c) == []
  {
    Divided(g, xs, ws, c);
    FromIsSaid(g, xs, ws, c);
  }

  // ---- what an agent's socket asks --------------------------------------------

  /** The calls messages ask of a channel. */
  function CallsBy(ms: seq<Reply>, c: int, tunnel: bool): seq<R.Call> {
    AskedAll(EventsOfAll(ms), c, tunnel)
  }

  lemma CallsByConcat(a: seq<Reply>, b: seq<Reply>, c: int, tunnel: bool)
    ensures CallsBy(a + b, c, tunnel) == CallsBy(a, c, tunnel) + CallsBy(b, c, tunnel)
  {
    EventsOfConcat(a, b);
    AskedConcat(EventsOfAll(a), EventsOfAll(b), c, tunnel);
  }

  lemma CallsByOne(m: Reply, e: R.Event, c: int, tunnel: bool)
    requires EventsOfReply(m) == [e]
    ensures CallsBy([m], c, tunnel) == Asked(e, c, tunnel)
  {
    EventsOfOne(m);
    OneAsked(e, c, tunnel);
  }

  lemma OneAsked(e: R.Event, c: int, tunnel: bool)
    ensures AskedAll([e], c, tunnel) == Asked(e, c, tunnel)
  {
    assert [e][1..] == [] && Asked(e, c, tunnel) + [] == Asked(e, c, tunnel);
  }

  lemma CallsByFront(part: seq<Reply>, all: seq<Reply>, c: int, tunnel: bool)
    requires part <= all
    ensures CallsBy(part, c, tunnel) <= CallsBy(all, c, tunnel)
  {
    assert all == part + all[|part|..];
    CallsByConcat(part, all[|part|..], c, tunnel);
  }

  /** The gateway has heard, on the agent's socket, a front part of what the agent says about the
      channel, and of the channel nothing else. */
  predicate Hears(g: Gateway, xs: seq<Arrival>, ws: nat, inputs: seq<Input>, c: int) {
    && Reads(g, xs, ws) && Elsewhere(g, xs, ws, c) == []
    && AllFit(inputs) && RepliesOn(OnSocket(xs, ws), c) <= RepliesOn(SaidBy(inputs), c)
  }

  predicate HeardAll(xs: seq<Arrival>, ws: nat, inputs: seq<Input>, c: int) {
    RepliesOn(OnSocket(xs, ws), c) == RepliesOn(SaidBy(inputs), c)
  }

  /** The channel is asked a front part of what the local side does on it. */
  lemma HeardIsAsked(g: Gateway, xs: seq<Arrival>, ws: nat, inputs: seq<Input>, c: int, tunnel: bool)
    requires Hears(g, xs, ws, inputs, c)
    ensures var asked, all := AskedAll(AllEvents(g, xs), c, tunnel), CallsBy(SaidBy(InputsOn(inputs, c)), c, tunnel);
            asked <= all && (HeardAll(xs, ws, inputs, c) ==> asked == all)
  {
    OnlyMessagesAsk(AllEvents(g, xs), c, tunnel);
    OwnSocketAloneIff(g, xs, ws, c);
    SaidOnChannel(inputs, c);
    CallsByFront(RepliesOn(OnSocket(xs, ws), c), RepliesOn(SaidBy(inputs), c), c, tunnel);
  }

  // ---- another socket ---------------------------------------------------------

  /** One frame on another socket, onboarded or not, is data of an open relay whose own machine's socket
      has said nothing. */
  lemma {:induction false} StrangerIsHeard(g: Gateway, ws: nat, stranger: nat, c: int, data: seq<byte>)
    requires L.Inv(g.registry) && c in g.registry.streams && 0 <= c < U32 && |data| < U32
    requires BufOf(g.bufs, stranger) == [] && stranger != ws
    ensures var xs := [FromSocket(stranger, Bytes(Encode(Frame(BINARY, c, 0, data))))];
            && OnSocket(xs, ws) == []
            && R.CallsOf(TakeAll(g, xs).registry.calls, c) == R.CallsOf(g.registry.calls, c) + [R.OnData(data)]
  {
    var f := Frame(BINARY, c, 0, data);
    var x := FromSocket(stranger, Bytes(Encode(f)));
    FrameIsWhole(f);
    WholeParses(Encode(f));
    var e := R.EvFrame(c, BINARY, data);
    assert EventsOf(g, x) == [e] && [e][1..] == [] && [x][1..] == [];
    assert R.Run(g.registry, [e]) == R.Run(R.Step(g.registry, e), []);
    assert c !in g.registry.wsChannels;
  }
}
