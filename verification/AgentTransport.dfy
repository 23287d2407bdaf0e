/** Request bodies and WebSocket frames through the agent, channel by channel: what happens
    on one channel depends on the traffic of that channel alone. */
module AgentTransport {
  import opened Sequences
  import opened Bytes
  import opened FrameCodec
  import opened Wire
  import opened AgentModel

  function ChannelOf(m: Message): int
    requires !m.Binary?
  {
    m.channel
  }

  /** Whether an item concerns a channel. */
  predicate On(item: Item, c: int) {
    match item
    case Arrives(f) => f.channel == c
    case Control(m) => !m.Binary? && ChannelOf(m) == c
    case Local(i) => false
  }

  /** The traffic of one channel, in order. */
  function Only(items: seq<Item>, c: int): seq<Item> {
    if items == [] then []
    else (if On(items[0], c) then [items[0]] else []) + Only(items[1..], c)
  }

  function ForwardsOn(forwards: seq<Forward>, c: int): seq<Forward> {
    if forwards == [] then []
    else (if forwards[0].channel == c then [forwards[0]] else []) + ForwardsOn(forwards[1..], c)
  }

  lemma {:induction false} ForwardsConcat(a: seq<Forward>, b: seq<Forward>, c: int)
    ensures ForwardsOn(a + b, c) == ForwardsOn(a, c) + ForwardsOn(b, c)
  {
    if a == [] {
      assert a + b == b;
    } else {
      assert (a + b)[1..] == a[1..] + b && (a + b)[0] == a[0];
      ForwardsConcat(a[1..], b, c);
      Grouped(if a[0].channel == c then [a[0]] else [], ForwardsOn(a[1..], c), ForwardsOn(b, c));
    }
  }

  /** Two agents that look alike on a channel. */
  predicate Alike(a: Agent, b: Agent, c: int) {
    && (c in a.pending <==> c in b.pending)
    && (c in a.pending ==> a.pending[c] == b.pending[c])
    && (c in a.upstreams <==> c in b.upstreams)
    && ForwardsOn(a.forwards, c) == ForwardsOn(b.forwards, c)
  }

  lemma ForwardsPush(forwards: seq<Forward>, f: Forward, c: int)
    ensures ForwardsOn(forwards + [f], c) == ForwardsOn(forwards, c) + if f.channel == c then [f] else []
  {
    ForwardsConcat(forwards, [f], c);
  }

  lemma HandOverElsewhere(a: Agent, f: Forward, c: int)
    requires f.channel != c
    ensures ForwardsOn(HandOver(a, f).forwards, c) == ForwardsOn(a.forwards, c)
  {
    ForwardsPush(a.forwards, f, c);
  }

  lemma FrameElsewhere(a: Agent, f: Frame, c: int)
    requires f.channel != c
    ensures Alike(AcceptFrame(a, f), a, c)
  {
    if f.channel !in a.upstreams && f.channel in a.pending {
      var p := a.pending[f.channel];
      HandOverElsewhere(a.(pending := a.pending - {f.channel}),
                        Forward(f.channel, p.request, Flat(p.chunks + [f.data])), c);
    }
  }

  lemma ControlElsewhere(a: Agent, m: Message, c: int)
    requires !m.Binary? && ChannelOf(m) != c
    ensures Alike(Accept(a, m), a, c)
  {
    if m.RelayRequest? { HandOverElsewhere(a, Forward(m.channel, m.request, []), c); }
  }

  /** Traffic of other channels leaves a channel as it was. */
  lemma MeetElsewhere(a: Agent, item: Item, c: int)
    requires Plain(item) && !On(item, c)
    ensures Alike(Meet(a, item), a, c)
  {
    match item
    case Arrives(f) => FrameElsewhere(a, f, c);
    case Control(m) => ControlElsewhere(a, m, c);
    case Local(i) =>
  }

  lemma FrameAlike(a: Agent, b: Agent, f: Frame)
    requires Alike(a, b, f.channel)
    ensures Alike(AcceptFrame(a, f), AcceptFrame(b, f), f.channel)
  {
    var c := f.channel;
    if c !in a.upstreams && c in a.pending {
      var p := a.pending[c];
      ForwardsPush(a.forwards, Forward(c, p.request, Flat(p.chunks + [f.data])), c);
      ForwardsPush(b.forwards, Forward(c, p.request, Flat(p.chunks + [f.data])), c);
    }
  }

  lemma RequestAlike(a: Agent, b: Agent, c: int, request: Request, contentLength: nat)
    requires Alike(a, b, c)
    ensures Alike(AcceptRequest(a, c, request, contentLength), AcceptRequest(b, c, request, contentLength), c)
  {
    ForwardsPush(a.forwards, Forward(c, request, []), c);
    ForwardsPush(b.forwards, Forward(c, request, []), c);
  }

  /** On the channel itself, agents that look alike go on looking alike. */
  lemma MeetAlike(a: Agent, b: Agent, item: Item, c: int)
    requires Plain(item) && On(item, c) && Alike(a, b, c)
    ensures Alike(Meet(a, item), Meet(b, item), c)
  {
    if item.Arrives? {
      FrameAlike(a, b, item.f);
    } else if item.m.RelayRequest? {
      RequestAlike(a, b, c, item.m.request, item.m.contentLength);
    }
  }

  /** Interleaving is invisible: the channel fares as if its own traffic were all there was. */
  lemma {:induction false} ChannelsAreIndependent(a: Agent, b: Agent, items: seq<Item>, c: int)
    requires forall i :: 0 <= i < |items| ==> Plain(items[i])
    requires Alike(a, b, c)
    ensures Alike(MeetAll(a, items), MeetAll(b, Only(items, c)), c)
    decreases items
  {
    if items != [] {
      var item, rest := items[0], items[1..];
      if On(item, c) {
        MeetAlike(a, b, item, c);
        ChannelsAreIndependent(Meet(a, item), Meet(b, item), rest, c);
        assert Only(items, c) == [item] + Only(rest, c);
      } else {
        MeetElsewhere(a, item, c);
        ChannelsAreIndependent(Meet(a, item), b, rest, c);
        assert Only(items, c) == Only(rest, c);
      }
    }
  }

  // ---- request bodies ---------------------------------------------------------

  function Payloads(frames: seq<Frame>): seq<seq<byte>> {
    if frames == [] then [] else [frames[0].data] + Payloads(frames[1..])
  }

  predicate AllOn(frames: seq<Frame>, c: int) {
    forall i :: 0 <= i < |frames| ==> frames[i].channel == c
  }

  /** Frames of a channel nobody waits on are dropped. */
  lemma {:induction false} StrayFrames(a: Agent, frames: seq<Frame>, c: int)
    requires AllOn(frames, c) && c !in a.pending && c !in a.upstreams
    ensures AcceptFrames(a, frames) == a
    decreases frames
  {
    if frames != [] { StrayFrames(a, frames[1..], c); }
  }

  /** However the missing bytes are cut into frames, empty ones included, the request goes out
      once, with the whole body. */
  lemma {:induction false} BodyCompletes(a: Agent, frames: seq<Frame>, c: int)
    requires AllOn(frames, c) && c in a.pending && c !in a.upstreams
    requires var p := a.pending[c];
             |Flat(p.chunks)| < p.expected == |Flat(p.chunks)| + |Flat(Payloads(frames))|
    ensures var p := a.pending[c];
            AcceptFrames(a, frames)
            == HandOver(a.(pending := a.pending - {c}), Forward(c, p.request, Flat(p.chunks) + Flat(Payloads(frames))))
    decreases frames
  {
    assert frames != [];
    var p, f := a.pending[c], frames[0];
    var chunks := p.chunks + [f.data];
    FlatConcat(p.chunks, [f.data]);
    assert Flat([f.data]) == f.data + [];
    assert Flat(Payloads(frames)) == f.data + Flat(Payloads(frames[1..]));
    var a' := AcceptFrame(a, f);
    assert AllOn(frames[1..], c);
    if |Flat(chunks)| < p.expected {
      BodyCompletes(a', frames[1..], c);
      assert a'.pending - {c} == a.pending - {c};
      assert Flat(chunks) + Flat(Payloads(frames[1..])) == Flat(p.chunks) + Flat(Payloads(frames));
    } else {
      StrayFrames(a', frames[1..], c);
      assert Flat(chunks) == Flat(p.chunks) + Flat(Payloads(frames));
    }
  }

  /** Any interleaving: a channel announced once and followed by any splitting of its body is
      forwarded exactly once, with its own request and exact body. */
  lemma RequestsForwardedOnce(
    a: Agent, inputs: seq<Input>, c: int, request: Request, body: seq<byte>, frames: seq<Frame>)
    requires c !in a.pending && c !in a.upstreams && ForwardsOn(a.forwards, c) == []
    requires AllOn(frames, c) && Flat(Payloads(frames)) == body
    requires Only(Items(a.buf, inputs), c) == [Control(RelayRequest(c, request, |body|))] + Arrivals(frames)
    ensures ForwardsOn(RunAgent(a, inputs).forwards, c) == [Forward(c, request, body)]
  {
    var items := Items(a.buf, inputs);
    var own := Only(items, c);
    RunIsItems(a, inputs);
    ItemsArePlain(a.buf, inputs);
    ChannelsAreIndependent(a, a, items, c);
    assert own[1..] == Arrivals(frames);
    var a1 := AcceptRequest(a, c, request, |body|);
    MeetArrivals(a1, frames);
    if body == [] {
      StrayFrames(a1, frames, c);
    } else {
      BodyCompletes(a1, frames, c);
      assert [] + body == body;
    }
    ForwardsPush(a.forwards, Forward(c, request, body), c);
  }

  // ---- WebSocket tunnels ------------------------------------------------------

  function ArrivedNext(item: Item, c: int, sofar: seq<Piece>): seq<Piece> {
    if !On(item, c) then sofar
    else if item.Arrives? then sofar + [PieceOf(item.f)]
    else if item.m.RelayWsOpen? then [] else sofar
  }

  /** The frames that came in on a channel since its last open. */
  function Arrived(items: seq<Item>, c: int, sofar: seq<Piece>): seq<Piece>
    decreases items
  {
    if items == [] then sofar else Arrived(items[1..], c, ArrivedNext(items[0], c, sofar))
  }

  lemma {:induction false} ArrivedOnly(items: seq<Item>, c: int, sofar: seq<Piece>)
    ensures Arrived(items, c, sofar) == Arrived(Only(items, c), c, sofar)
    decreases items
  {
    if items != [] {
      var rest := Only(items[1..], c);
      if On(items[0], c) {
        assert Only(items, c) == [items[0]] + rest && ([items[0]] + rest)[1..] == rest;
        ArrivedOnly(items[1..], c, ArrivedNext(items[0], c, sofar));
      } else {
        assert Only(items, c) == rest;
        ArrivedOnly(items[1..], c, sofar);
      }
    }
  }
}
