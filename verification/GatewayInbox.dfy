/** Messages coming in on node sockets: each socket has a frame parser of its own, and what comes out
    is routed by its channel alone. */
module GatewayInbox {
  import opened Sequences
  import opened Bytes
  import opened FrameCodec
  import opened Wire
  import R = RegistryModel
  import opened NodeRegistries

  datatype Gateway = Gateway(registry: R.Registry, bufs: map<nat, seq<byte>>)

  /** A message on a socket, or anything else the registry reacts to. */
  datatype Arrival = FromSocket(ws: nat, m: Reply) | Own(e: R.Event)

  function BufOf(bufs: map<nat, seq<byte>>, ws: nat): seq<byte> {
    if ws in bufs then bufs[ws] else []
  }

  function FrameEvents(frames: seq<Frame>): seq<R.Event> {
    if frames == [] then []
    else [R.EvFrame(frames[0].channel, frames[0].kind, frames[0].data)] + FrameEvents(frames[1..])
  }

  function ControlEvent(m: Reply): R.Event
    requires !m.Bytes?
  {
    match m
    case RelayResponse(channel, status, headers) => R.EvResponse(channel, status, headers)
    case RelayEnd(channel) => R.EvEnd(channel)
    case RelayWsOpenOk(channel) => R.EvWsOpenOk(channel)
    case RelayWsClosed(channel, code) => R.EvWsClose(channel, code)
  }

  /** What an arrival amounts to. A control message on a socket not yet onboarded is taken for an
      attempt to onboard. */
  function EventsOf(g: Gateway, x: Arrival): seq<R.Event> {
    match x
    case Own(e) => [e]
    case FromSocket(ws, m) =>
      if m.Bytes? then FrameEvents(ParseAll(BufOf(g.bufs, ws) + m.bytes).0)
      else if ws in g.registry.sockets then [ControlEvent(m)]
      else []
  }

  function BufsAfter(g: Gateway, x: Arrival): map<nat, seq<byte>> {
    if x.FromSocket? && x.m.Bytes? then g.bufs[x.ws := ParseAll(BufOf(g.bufs, x.ws) + x.m.bytes).1] else g.bufs
  }

  function Take(g: Gateway, x: Arrival): Gateway {
    Gateway(R.Run(g.registry, EventsOf(g, x)), BufsAfter(g, x))
  }

  function TakeAll(g: Gateway, xs: seq<Arrival>): Gateway
    decreases xs
  {
    if xs == [] then g else TakeAll(Take(g, xs[0]), xs[1..])
  }

  /** Everything a run of arrivals amounts to. */
  function AllEvents(g: Gateway, xs: seq<Arrival>): seq<R.Event>
    decreases xs
  {
    if xs == [] then [] else EventsOf(g, xs[0]) + AllEvents(Take(g, xs[0]), xs[1..])
  }

  lemma {:induction false} RunConcat(s: R.Registry, a: seq<R.Event>, b: seq<R.Event>)
    ensures R.Run(s, a + b) == R.Run(R.Run(s, a), b)
    decreases a
  {
    if a == [] {
      assert a + b == b;
    } else {
      assert (a + b)[1..] == a[1..] + b;
      RunConcat(R.Step(s, a[0]), a[1..], b);
    }
  }

  lemma {:induction false} ArrivalsAreEvents(g: Gateway, xs: seq<Arrival>)
    ensures TakeAll(g, xs).registry == R.Run(g.registry, AllEvents(g, xs))
    decreases xs
  {
    if xs != [] {
      ArrivalsAreEvents(Take(g, xs[0]), xs[1..]);
      RunConcat(g.registry, EventsOf(g, xs[0]), AllEvents(Take(g, xs[0]), xs[1..]));
    }
  }

  /** The bytes a socket has sent. */
  function BytesOn(xs: seq<Arrival>, ws: nat): seq<byte> {
    if xs == [] then []
    else (if xs[0].FromSocket? && xs[0].ws == ws && xs[0].m.Bytes? then xs[0].m.bytes else []) + BytesOn(xs[1..], ws)
  }

  /** What the registry is made to do by those bytes. */
  function EventsByBytes(g: Gateway, xs: seq<Arrival>, ws: nat): seq<R.Event>
    decreases xs
  {
    if xs == [] then []
    else
      (if xs[0].FromSocket? && xs[0].ws == ws && xs[0].m.Bytes? then EventsOf(g, xs[0]) else [])
      + EventsByBytes(Take(g, xs[0]), xs[1..], ws)
  }

  lemma {:induction false} FrameEventsConcat(a: seq<Frame>, b: seq<Frame>)
    ensures FrameEvents(a + b) == FrameEvents(a) + FrameEvents(b)
  {
    if a == [] {
      assert a + b == b;
    } else {
      assert (a + b)[1..] == a[1..] + b;
      FrameEventsConcat(a[1..], b);
    }
  }

  /** However a socket's bytes are cut into messages, and whatever comes in between on other sockets,
      they amount to the frames of its bytes in one piece, and its parser holds what is left of them. */
  lemma {:induction false} CutsAreInvisible(g: Gateway, xs: seq<Arrival>, ws: nat)
    requires ParseAll(BufOf(g.bufs, ws)).0 == []
    ensures var (frames, rest) := ParseAll(BufOf(g.bufs, ws) + BytesOn(xs, ws));
            EventsByBytes(g, xs, ws) == FrameEvents(frames) && BufOf(TakeAll(g, xs).bufs, ws) == rest
    decreases xs
  {
    var buf := BufOf(g.bufs, ws);
    if xs == [] {
      assert buf + [] == buf;
      ParseConserves(buf);
      assert [] + buf == buf;
    } else {
      var x, g' := xs[0], Take(g, xs[0]);
      if x.FromSocket? && x.ws == ws && x.m.Bytes? {
        var bytes, more := x.m.bytes, BytesOn(xs[1..], ws);
        ParseConserves(buf + bytes);
        CutsAreInvisible(g', xs[1..], ws);
        ParseInTwoSteps(buf + bytes, more);
        Grouped(buf, bytes, more);
        FrameEventsConcat(ParseAll(buf + bytes).0, ParseAll(ParseAll(buf + bytes).1 + more).0);
      } else {
        assert [] + BytesOn(xs[1..], ws) == BytesOn(xs[1..], ws);
        assert [] + EventsByBytes(g', xs[1..], ws) == EventsByBytes(g', xs[1..], ws);
        CutsAreInvisible(g', xs[1..], ws);
      }
    }
  }

  /** Everything else the registry reacts to reaches it as it is, and no parser. */
  lemma OwnIsTaken(g: Gateway, e: R.Event)
    ensures Take(g, Own(e)) == Gateway(R.Step(g.registry, e), g.bufs)
  {
    assert [e][1..] == [];
    assert R.Run(g.registry, [e]) == R.Run(R.Step(g.registry, e), []);
  }

  // ---- the code ---------------------------------------------------------------

  /** One attached socket: its parser, and the registry its messages go to. */
  class NodeSocket {
    const ws: nat
    const registry: NodeRegistry
    const parser: BinaryFrameParser

    /** The gateway as this socket sees it. */
    ghost function State(): Gateway
      reads registry, parser
    {
      var none: map<nat, seq<byte>> := map[];
      Gateway(registry.State(), none[ws := parser.buf])
    }

    constructor (ws: nat, registry: NodeRegistry)
      ensures this.ws == ws && this.registry == registry && fresh(parser) && parser.buf == []
    {
      this.ws, this.registry := ws, registry;
      parser := new BinaryFrameParser();
    }

    method OnMessage(m: Reply)
      requires registry.Valid()
      modifies registry, parser
      ensures State() == Take(old(State()), FromSocket(ws, m))
      ensures registry.Valid()
    {
      ghost var s := registry.State();
      if m.Bytes? {
        var frames := parser.Push(m.bytes);
        Dispatch(frames);
      } else if ws in registry.sockets {
        assert [ControlEvent(m)][1..] == [];
        Handle(m);
        assert registry.State() == R.Run(s, [ControlEvent(m)]);
      }
    }

    method Dispatch(frames: seq<Frame>)
      requires registry.Valid()
      modifies registry
      ensures registry.State() == R.Run(old(registry.State()), FrameEvents(frames))
      ensures registry.Valid()
    {
      var i := 0;
      while i < |frames|
        invariant i <= |frames| && registry.Valid()
        invariant R.Run(registry.State(), FrameEvents(frames[i..])) == R.Run(old(registry.State()), FrameEvents(frames))
      {
        assert frames[i..][1..] == frames[i + 1..];
        assert FrameEvents(frames[i..])[1..] == FrameEvents(frames[i + 1..]);
        registry.Frame(frames[i].channel, frames[i].kind, frames[i].data);
        i := i + 1;
      }
    }

    method Handle(m: Reply)
      requires registry.Valid() && !m.Bytes?
      modifies registry
      ensures registry.State() == R.Step(old(registry.State()), ControlEvent(m))
      ensures registry.Valid()
    {
      match m
      case RelayResponse(channel, status, headers) => registry.Response(channel, status, headers);
      case RelayEnd(channel) => registry.End(channel);
      case RelayWsOpenOk(channel) => registry.WsOpenOk(channel);
      case RelayWsClosed(channel, code) => registry.WsClose(channel, code);
    }
  }
}
