/** The agent's connection as the object it keeps: the frame parser, the bodies being put
    together and the local upstreams, updated in place by the message handlers. */
module AgentConnections {
  import opened Sequences
  import opened Bytes
  import opened FrameCodec
  import opened Wire
  import opened AgentModel

  class Connection {
    const parser: BinaryFrameParser
    var pendingBodies: map<int, Pending>
    var wsUpstreams: map<int, Upstream>
    var created: nat
    var exchanges: map<int, Exchange>
    ghost var forwards: seq<Forward>
    ghost var retries: seq<Forward>
    ghost var said: seq<Reply>

    ghost function State(): Agent
      reads this, parser
    {
      Agent(parser.buf, pendingBodies, wsUpstreams, created, exchanges, forwards, retries, said)
    }

    constructor ()
      ensures State() == IDLE && fresh(parser)
    {
      parser := new BinaryFrameParser();
      pendingBodies, wsUpstreams, created, exchanges := map[], map[], 0, map[];
      forwards, retries, said := [], [], [];
    }

    method OnMessage(m: Message)
      modifies this, parser
      ensures State() == Accept(old(State()), m)
    {
      match m
      case Binary(bytes) =>
        var frames := parser.Push(bytes);
        DispatchFrames(frames);
      case RelayRequest(channel, request, contentLength) => HandleRelayRequest(channel, request, contentLength);
      case RelayWsOpen(channel, path, headers) => HandleWsOpen(channel, path, headers);
      case RelayWsClose(channel) => wsUpstreams := wsUpstreams - {channel};
    }

    method DispatchFrames(frames: seq<Frame>)
      modifies this
      ensures State() == AcceptFrames(old(State()), frames)
    {
      var i := 0;
      while i < |frames|
        invariant i <= |frames|
        invariant AcceptFrames(old(State()), frames) == AcceptFrames(State(), frames[i..])
      {
        var f := frames[i];
        if f.channel in wsUpstreams {
          var u := wsUpstreams[f.channel];
          wsUpstreams := wsUpstreams[f.channel :=
            if u.readiness.Live? then u.(delivered := u.delivered + [PieceOf(f)])
            else u.(queue := u.queue + [PieceOf(f)])];
        } else {
          CollectRequestBody(f);
        }
        assert frames[i..][1..] == frames[i + 1..];
        i := i + 1;
      }
    }

    method CollectRequestBody(f: Frame)
      modifies this
      ensures State() == CollectBody(old(State()), f)
    {
      if f.channel !in pendingBodies { return; }
      var p := pendingBodies[f.channel];
      p := p.(chunks := p.chunks + [f.data]);
      pendingBodies := pendingBodies[f.channel := p];
      var total := TotalLength(p.chunks);
      if total >= p.expected {
        pendingBodies := pendingBodies - {f.channel};
        assert pendingBodies == old(pendingBodies) - {f.channel};
        ForwardUpstream(Forward(f.channel, p.request, Flat(p.chunks)));
      }
    }

    /** Hands a request to the local server for the first time. */
    method ForwardUpstream(f: Forward)
      modifies this
      ensures State() == HandOver(old(State()), f)
    {
      forwards := forwards + [f];
      exchanges := exchanges[f.channel := Exchange(f, false)];
    }

    /** The local server's side of a request: a first denial sends it again, anything else is said. */
    method OnLocal(l: LocalEvent)
      modifies this
      ensures State() == LocalHappens(old(State()), l)
    {
      if l.Denied? {
        if l.channel in exchanges && !exchanges[l.channel].retried {
          var f := exchanges[l.channel].forward;
          exchanges := exchanges[l.channel := Exchange(f, true)];
          retries := retries + [f];
        }
      } else {
        said := said + RepliesTo(l);
      }
    }

    method TotalLength(chunks: seq<seq<byte>>) returns (total: nat)
      ensures total == |Flat(chunks)|
    {
      total := 0;
      var i := 0;
      while i < |chunks|
        invariant i <= |chunks| && total + |Flat(chunks[i..])| == |Flat(chunks)|
      {
        assert chunks[i..][1..] == chunks[i + 1..];
        total := total + |chunks[i]|;
        i := i + 1;
      }
    }

    method HandleRelayRequest(channel: int, request: Request, contentLength: nat)
      modifies this
      ensures State() == AcceptRequest(old(State()), channel, request, contentLength)
    {
      if contentLength == 0 {
        ForwardUpstream(Forward(channel, request, []));
      } else {
        pendingBodies := pendingBodies[channel := Pending(contentLength, [], request)];
      }
    }

    method HandleWsOpen(channel: int, path: string, headers: map<string, string>)
      modifies this
      ensures State() == AcceptWsOpen(old(State()), channel, path, headers)
    {
      wsUpstreams := wsUpstreams[channel := Upstream(created, path, headers, Connecting, [], [])];
      created := created + 1;
    }

    method UpstreamOpened(channel: int, uid: nat)
      modifies this
      ensures State() == UpstreamOpens(old(State()), channel, uid)
    {
      said := said + [RelayWsOpenOk(channel)];
      if channel in wsUpstreams && wsUpstreams[channel].uid == uid && wsUpstreams[channel].readiness.Connecting? {
        var u := wsUpstreams[channel];
        var delivered := u.delivered;
        var i := 0;
        while i < |u.queue|
          invariant i <= |u.queue| && delivered == u.delivered + u.queue[..i]
        {
          delivered := delivered + [u.queue[i]];
          i := i + 1;
        }
        assert u.queue[..i] == u.queue;
        wsUpstreams := wsUpstreams[channel := u.(readiness := Live, delivered := delivered, queue := [])];
      }
    }

    method UpstreamClosing(channel: int, uid: nat)
      modifies this
      ensures State() == UpstreamCloses(old(State()), channel, uid)
    {
      if channel in wsUpstreams && wsUpstreams[channel].uid == uid && !wsUpstreams[channel].readiness.Dead? {
        wsUpstreams := wsUpstreams[channel := wsUpstreams[channel].(readiness := Closing)];
      }
    }

    method UpstreamClosed(channel: int, uid: nat, code: int)
      modifies this
      ensures State() == UpstreamDies(old(State()), channel, uid, code)
    {
      said := said + [RelayWsClosed(channel, code)];
      if channel in wsUpstreams && wsUpstreams[channel].uid == uid {
        wsUpstreams := wsUpstreams[channel := wsUpstreams[channel].(readiness := Dead)];
      }
    }
  }
}
