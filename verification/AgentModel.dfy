/** The data plane of the agent's gateway connection: request bodies put together again, frames
    passed on to local WebSocket upstreams or queued until those are open, and what the local
    server and the upstreams say sent back. */
module AgentModel {
  import opened Sequences
  import opened Bytes
  import opened FrameCodec
  import opened Wire

  /** The states of a local WebSocket; frames are passed on in `Live` alone. */
  datatype Readiness = Connecting | Live | Closing | Dead

  /** A WebSocket message to the local server. */
  datatype Piece = Piece(data: seq<byte>, binary: bool)

  /** One local upstream: what it was opened with, what it has been sent, and what waits for it to open. */
  datatype Upstream = Upstream(
    uid: nat, path: string, headers: map<string, string>, readiness: Readiness, delivered: seq<Piece>, queue: seq<Piece>)

  datatype Pending = Pending(expected: nat, chunks: seq<seq<byte>>, request: Request)

  /** One request handed to the local server. */
  datatype Forward = Forward(channel: int, request: Request, body: seq<byte>)

  /** The request a channel waits on, and whether it has been sent a second time. */
  datatype Exchange = Exchange(forward: Forward, retried: bool)

  /** `forwards` and `retries` are the requests handed over for the first and for a second time,
      `said` is what has been sent to the gateway. */
  datatype Agent = Agent(
    buf: seq<byte>, // of the frame parser
    pending: map<int, Pending>,
    upstreams: map<int, Upstream>,
    created: nat, // upstreams created so far
    exchanges: map<int, Exchange>,
    forwards: seq<Forward>,
    retries: seq<Forward>,
    said: seq<Reply>)

  const IDLE := Agent([], map[], map[], 0, map[], [], [], [])

  function PieceOf(f: Frame): Piece {
    Piece(f.data, f.kind == BINARY)
  }

  function HandOver(a: Agent, f: Forward): Agent {
    a.(forwards := a.forwards + [f], exchanges := a.exchanges[f.channel := Exchange(f, false)])
  }

  function CollectBody(a: Agent, f: Frame): Agent {
    if f.channel !in a.pending then a
    else
      var p := a.pending[f.channel];
      var chunks := p.chunks + [f.data];
      if |Flat(chunks)| < p.expected then a.(pending := a.pending[f.channel := p.(chunks := chunks)])
      else HandOver(a.(pending := a.pending - {f.channel}), Forward(f.channel, p.request, Flat(chunks)))
  }

  function AcceptFrame(a: Agent, f: Frame): Agent {
    if f.channel in a.upstreams then
      var u := a.upstreams[f.channel];
      a.(upstreams := a.upstreams[f.channel :=
             if u.readiness.Live? then u.(delivered := u.delivered + [PieceOf(f)])
             else u.(queue := u.queue + [PieceOf(f)])])
    else CollectBody(a, f)
  }

  function AcceptFrames(a: Agent, frames: seq<Frame>): Agent
    decreases frames
  {
    if frames == [] then a else AcceptFrames(AcceptFrame(a, frames[0]), frames[1..])
  }

  function AcceptRequest(a: Agent, channel: int, request: Request, contentLength: nat): Agent {
    if contentLength == 0 then HandOver(a, Forward(channel, request, []))
    else a.(pending := a.pending[channel := Pending(contentLength, [], request)])
  }

  function AcceptWsOpen(a: Agent, channel: int, path: string, headers: map<string, string>): Agent {
    a.(upstreams := a.upstreams[channel := Upstream(a.created, path, headers, Connecting, [], [])],
       created := a.created + 1)
  }

  function AcceptWsClose(a: Agent, channel: int): Agent {
    a.(upstreams := a.upstreams - {channel})
  }

  function Accept(a: Agent, m: Message): Agent {
    match m
    case Binary(bytes) =>
      var (frames, buf) := ParseAll(a.buf + bytes);
      AcceptFrames(a.(buf := buf), frames)
    case RelayRequest(channel, request, contentLength) => AcceptRequest(a, channel, request, contentLength)
    case RelayWsOpen(channel, path, headers) => AcceptWsOpen(a, channel, path, headers)
    case RelayWsClose(channel) => AcceptWsClose(a, channel)
  }

  /** The upstream numbered `uid` of a channel opens: the gateway is told, and everything queued for
      it is sent. The queue of one that has been replaced or closed meanwhile is out of sight. */
  function UpstreamOpens(a: Agent, channel: int, uid: nat): Agent {
    var told := a.(said := a.said + [RelayWsOpenOk(channel)]);
    if channel !in a.upstreams || a.upstreams[channel].uid != uid || !a.upstreams[channel].readiness.Connecting? then told
    else
      var u := a.upstreams[channel];
      told.(upstreams := a.upstreams[channel := u.(readiness := Live, delivered := u.delivered + u.queue, queue := [])])
  }

  /** The upstream starts to close: frames that come in now are queued. */
  function UpstreamCloses(a: Agent, channel: int, uid: nat): Agent {
    if channel !in a.upstreams || a.upstreams[channel].uid != uid || a.upstreams[channel].readiness.Dead? then a
    else a.(upstreams := a.upstreams[channel := a.upstreams[channel].(readiness := Closing)])
  }

  function UpstreamDies(a: Agent, channel: int, uid: nat, code: int): Agent {
    var told := a.(said := a.said + [RelayWsClosed(channel, code)]);
    if channel !in a.upstreams || a.upstreams[channel].uid != uid then told
    else told.(upstreams := a.upstreams[channel := a.upstreams[channel].(readiness := Dead)])
  }

  /** What the local side does: a 401 for which a fresh cookie could be minted, the response to a
      request, its failure, or a message of an upstream. */
  datatype LocalEvent =
    | Denied(channel: int)
    | Responds(channel: int, status: int, headers: map<string, string>)
    | Streams(channel: int, chunk: seq<byte>)
    | Finishes(channel: int)
    | Fails(channel: int)
    | UpstreamSays(channel: int, binary: bool, data: seq<byte>)

  /** The messages to the gateway, in order. Chunks too long for a frame make the codec throw. */
  function RepliesTo(l: LocalEvent): seq<Reply> {
    match l
    case Denied(_) => []
    case Responds(channel, status, headers) => [RelayResponse(channel, status, headers)]
    case Streams(channel, chunk) =>
      if |chunk| >= U32 then [] else [Bytes(Encode(Frame(BINARY, Word(channel), 0, chunk)))]
    case Finishes(channel) => [RelayEnd(channel)]
    case Fails(channel) => [RelayResponse(channel, 502, map[]), RelayEnd(channel)]
    case UpstreamSays(channel, binary, data) =>
      if |data| >= U32 then []
      else [Bytes(Encode(Frame(if binary then BINARY else TEXT, Word(channel), 0, data)))]
  }

  /** A request denied for the first time is sent once more, and nothing is said about it. */
  function LocalHappens(a: Agent, l: LocalEvent): Agent {
    if l.Denied? then
      if l.channel in a.exchanges && !a.exchanges[l.channel].retried then
        var f := a.exchanges[l.channel].forward;
        a.(retries := a.retries + [f], exchanges := a.exchanges[l.channel := Exchange(f, true)])
      else a
    else a.(said := a.said + RepliesTo(l))
  }

  /** Everything the connection reacts to: messages of the gateway, of its own upstreams, and of the
      local server. */
  datatype Input =
    | FromGateway(m: Message)
    | Opens(at: int, uid: nat)
    | Closes(at: int, uid: nat)
    | Dies(at: int, uid: nat, code: int)
    | Happens(l: LocalEvent)

  function React(a: Agent, i: Input): Agent {
    match i
    case FromGateway(m) => Accept(a, m)
    case Opens(channel, uid) => UpstreamOpens(a, channel, uid)
    case Closes(channel, uid) => UpstreamCloses(a, channel, uid)
    case Dies(channel, uid, code) => UpstreamDies(a, channel, uid, code)
    case Happens(l) => LocalHappens(a, l)
  }

  function RunAgent(a: Agent, inputs: seq<Input>): Agent
    decreases inputs
  {
    if inputs == [] then a else RunAgent(React(a, inputs[0]), inputs[1..])
  }

  // ---- what the inputs amount to, frame by frame ------------------------------

  /** A binary message taken apart: its frames, as the parser completes them. */
  datatype Item = Control(m: Message) | Arrives(f: Frame) | Local(i: Input)

  function Items(buf: seq<byte>, inputs: seq<Input>): seq<Item>
    decreases inputs
  {
    if inputs == [] then []
    else if inputs[0].FromGateway? && inputs[0].m.Binary? then
      var (frames, buf') := ParseAll(buf + inputs[0].m.bytes);
      Arrivals(frames) + Items(buf', inputs[1..])
    else if inputs[0].FromGateway? then [Control(inputs[0].m)] + Items(buf, inputs[1..])
    else [Local(inputs[0])] + Items(buf, inputs[1..])
  }

  function Arrivals(frames: seq<Frame>): seq<Item> {
    seq(|frames|, i requires 0 <= i < |frames| => Arrives(frames[i]))
  }

  /** An item that no longer carries raw bytes. */
  predicate Plain(item: Item) {
    !(item.Control? && item.m.Binary?) && !(item.Local? && item.i.FromGateway?)
  }

  function Meet(a: Agent, item: Item): Agent {
    match item
    case Arrives(f) => AcceptFrame(a, f)
    case Control(m) => Accept(a, m)
    case Local(i) => React(a, i)
  }

  function MeetAll(a: Agent, items: seq<Item>): Agent
    decreases items
  {
    if items == [] then a else MeetAll(Meet(a, items[0]), items[1..])
  }

  lemma {:induction false} MeetConcat(a: Agent, x: seq<Item>, y: seq<Item>)
    ensures MeetAll(a, x + y) == MeetAll(MeetAll(a, x), y)
    decreases x
  {
    if x == [] {
      assert x + y == y;
    } else {
      assert (x + y)[1..] == x[1..] + y;
      MeetConcat(Meet(a, x[0]), x[1..], y);
    }
  }

  lemma {:induction false} MeetArrivals(a: Agent, frames: seq<Frame>)
    ensures MeetAll(a, Arrivals(frames)) == AcceptFrames(a, frames)
    decreases frames
  {
    if frames != [] {
      assert Arrivals(frames)[1..] == Arrivals(frames[1..]);
      MeetArrivals(AcceptFrame(a, frames[0]), frames[1..]);
    }
  }

  lemma {:induction false} AcceptKeepsBuffer(a: Agent, frames: seq<Frame>, buf: seq<byte>)
    ensures AcceptFrames(a.(buf := buf), frames) == AcceptFrames(a, frames).(buf := buf)
    decreases frames
  {
    if frames != [] {
      AcceptKeepsBuffer(AcceptFrame(a, frames[0]), frames[1..], buf);
      assert AcceptFrame(a.(buf := buf), frames[0]) == AcceptFrame(a, frames[0]).(buf := buf);
    }
  }

  lemma MeetKeepsBuffer(a: Agent, item: Item, buf: seq<byte>)
    requires Plain(item)
    ensures Meet(a.(buf := buf), item) == Meet(a, item).(buf := buf)
  {
    if item.Local? { LocalKeepsBuffer(a, item.i, buf); }
  }

  lemma LocalKeepsBuffer(a: Agent, i: Input, buf: seq<byte>)
    requires !i.FromGateway?
    ensures React(a.(buf := buf), i) == React(a, i).(buf := buf)
  {
  }

  lemma {:induction false} ItemsKeepBuffer(a: Agent, items: seq<Item>, buf: seq<byte>)
    requires forall i :: 0 <= i < |items| ==> Plain(items[i])
    ensures MeetAll(a.(buf := buf), items) == MeetAll(a, items).(buf := buf)
    decreases items
  {
    if items != [] {
      MeetKeepsBuffer(a, items[0], buf);
      ItemsKeepBuffer(Meet(a, items[0]), items[1..], buf);
    }
  }

  lemma {:induction false} ItemsArePlain(buf: seq<byte>, inputs: seq<Input>)
    ensures forall i :: 0 <= i < |Items(buf, inputs)| ==> Plain(Items(buf, inputs)[i])
    decreases inputs
  {
    if inputs != [] {
      if inputs[0].FromGateway? && inputs[0].m.Binary? {
        var (frames, buf') := ParseAll(buf + inputs[0].m.bytes);
        ItemsArePlain(buf', inputs[1..]);
        assert Items(buf, inputs) == Arrivals(frames) + Items(buf', inputs[1..]);
      } else {
        ItemsArePlain(buf, inputs[1..]);
      }
    }
  }

  /** Running the connection is meeting its items: the cutting of the byte stream is invisible. */
  lemma {:induction false} RunIsItems(a: Agent, inputs: seq<Input>)
    ensures RunAgent(a, inputs).(buf := []) == MeetAll(a, Items(a.buf, inputs)).(buf := [])
    decreases inputs
  {
    if inputs != [] {
      var i, rest := inputs[0], inputs[1..];
      RunIsItems(React(a, i), rest);
      if i.FromGateway? && i.m.Binary? {
        BytesAreItems(a, i.m.bytes, rest);
      } else if i.FromGateway? {
        assert Items(a.buf, inputs) == [Control(i.m)] + Items(a.buf, rest);
      } else {
        assert Items(a.buf, inputs) == [Local(i)] + Items(a.buf, rest);
        LocalKeepsBuffer(a, i, a.buf);
      }
    }
  }

  lemma BytesAreItems(a: Agent, bytes: seq<byte>, rest: seq<Input>)
    ensures var (frames, buf) := ParseAll(a.buf + bytes);
            && Accept(a, Binary(bytes)).buf == buf
            && MeetAll(a, Arrivals(frames) + Items(buf, rest)).(buf := [])
               == MeetAll(Accept(a, Binary(bytes)), Items(buf, rest)).(buf := [])
  {
    var (frames, buf) := ParseAll(a.buf + bytes);
    MeetConcat(a, Arrivals(frames), Items(buf, rest));
    MeetArrivals(a, frames);
    AcceptKeepsBuffer(a, frames, buf);
    ItemsArePlain(buf, rest);
    ItemsKeepBuffer(AcceptFrames(a, frames), Items(buf, rest), buf);
  }
}
