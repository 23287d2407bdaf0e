/** What each group of the registry's handlers leaves as it is. */
module Untouched {
  import opened Bytes
  import opened RegistryModel
  import opened Wire
  import opened FrameCodec

  /** The handlers of the nodes' own sockets and leases. */
  predicate OfNodes(e: Event) {
    e.EvAttached? || e.EvHeartbeat? || e.EvExpire? || e.EvApprove? || e.EvDetach? || e.EvSocketClose? || e.EvStop?
  }

  /** What a browser does: it opens a channel, sends on it, or leaves. */
  predicate OfBrowsers(e: Event) {
    e.EvRelay? || e.EvWsOpen? || e.EvBrowserSend? || e.EvBrowserClose?
  }

  predicate SameNodes(s: Registry, s': Registry) {
    s'.nodes == s.nodes && s'.sockets == s.sockets && s'.notices == s.notices
  }

  predicate SameNumbers(s: Registry, s': Registry) {
    s'.channelSeq == s.channelSeq && s'.relays == s.relays && s'.tunnels == s.tunnels
  }

  predicate SameOwners(s: Registry, s': Registry) {
    && (forall c :: c in s'.streamsNode ==> c in s.streamsNode && s'.streamsNode[c] == s.streamsNode[c])
    && (forall c :: c in s'.wsChannelNode ==> c in s.wsChannelNode && s'.wsChannelNode[c] == s.wsChannelNode[c])
  }

  lemma RelayKeepsNodes(s: Registry, machineId: string, request: Request, body: seq<byte>)
    ensures SameNodes(s, RelayStream(s, machineId, request, body).0)
  {
    if ConsoleNode(s, machineId).Some? && |body| >= U32 {
      assert RelayStream(s, machineId, request, body).0.nodes == s.nodes;
    }
  }

  lemma TunnelKeepsNodes(s: Registry, machineId: string, path: string, headers: map<string, string>)
    ensures SameNodes(s, RelayWsOpenStep(s, machineId, path, headers).0)
  {
  }

  predicate KeptByTunnel(s: Registry, s': Registry) {
    SameNodes(s, s') && SameNumbers(s, s') && SameOwners(s, s')
  }

  lemma SendKeeps(s: Registry, c: int, kind: int, data: seq<byte>)
    ensures KeptByTunnel(s, SendWs(s, c, kind, data).0)
  {
    assert SameNumbers(s, SendWs(s, c, kind, data).0);
  }

  lemma CloseKeeps(s: Registry, c: int)
    ensures KeptByTunnel(s, CloseWsChannel(s, c))
  {
  }

  /** Browsers change no node, and only by opening a channel do they number one. */
  lemma BrowsersKeep(s: Registry, e: Event)
    requires OfBrowsers(e)
    ensures SameNodes(s, Step(s, e))
    ensures !e.EvRelay? && !e.EvWsOpen? ==> SameNumbers(s, Step(s, e)) && SameOwners(s, Step(s, e))
  {
    match e
    case EvBrowserSend(c, kind, data) => SendKeeps(s, c, kind, data);
    case EvBrowserClose(c) => CloseKeeps(s, c);
    case EvRelay(machineId, request, body) => RelayKeepsNodes(s, machineId, request, body);
    case EvWsOpen(machineId, path, headers) => TunnelKeepsNodes(s, machineId, path, headers);
  }

  predicate KeptByTraffic(s: Registry, s': Registry) {
    SameNodes(s, s') && SameNumbers(s, s') && SameOwners(s, s') && s'.sent == s.sent
  }

  lemma FrameKeeps(s: Registry, c: int, kind: int, data: seq<byte>)
    ensures KeptByTraffic(s, OnFrame(s, c, kind, data))
  {
    if c in s.wsChannels {
      assert KeptByTraffic(s, s.(calls := LogCall(s.calls, c, WsOnData(kind, data))));
    } else if c in s.streams {
      assert KeptByTraffic(s, s.(timers := Armed(s.timers, c), calls := LogCall(s.calls, c, OnData(data))));
    }
  }

  lemma ResponseKeeps(s: Registry, c: int, status: int, headers: map<string, string>)
    ensures KeptByTraffic(s, OnRelayResponse(s, c, status, headers))
  {
    if c in s.streams {
      assert SameOwners(s, OnRelayResponse(s, c, status, headers));
    }
  }

  lemma OpenOkKeeps(s: Registry, c: int)
    ensures KeptByTraffic(s, OnWsOpenOk(s, c))
  {
  }

  lemma EndKeeps(s: Registry, c: int)
    ensures KeptByTraffic(s, OnRelayEnd(s, c))
  {
  }

  lemma IdleKeeps(s: Registry, c: int)
    ensures KeptByTraffic(s, OnIdle(s, c))
  {
  }

  lemma TunnelCloseKeeps(s: Registry, c: int, code: int)
    ensures KeptByTraffic(s, OnWsClose(s, c, code))
  {
  }

  /** What comes from the nodes about channels, and idle timers, change no node, number nothing and
      send nothing. */
  lemma TrafficKeeps(s: Registry, e: Event)
    requires !OfNodes(e) && !OfBrowsers(e)
    ensures KeptByTraffic(s, Step(s, e))
  {
    match e
    case EvFrame(c, kind, data) => FrameKeeps(s, c, kind, data);
    case EvResponse(c, status, headers) => ResponseKeeps(s, c, status, headers);
    case EvWsOpenOk(c) => OpenOkKeeps(s, c);
    case EvEnd(c) => EndKeeps(s, c);
    case EvIdle(c) => IdleKeeps(s, c);
    case EvWsClose(c, code) => TunnelCloseKeeps(s, c, code);
  }

  lemma OthersKeepNodes(s: Registry, e: Event)
    requires !OfNodes(e)
    ensures SameNodes(s, Step(s, e))
  {
    if OfBrowsers(e) { BrowsersKeep(s, e); } else { TrafficKeeps(s, e); }
  }

  predicate KeptByNodes(s: Registry, s': Registry) {
    && SameNumbers(s, s') && SameOwners(s, s') && s'.sent == s.sent
    && forall ws :: ws in s.sockets ==> ws in s'.sockets
  }

  lemma StopKeeps(s: Registry)
    ensures KeptByNodes(s, Stop(s))
  {
  }

  lemma DroppingKeeps(s: Registry, machineId: string)
    ensures KeptByNodes(s, DropChannels(s, machineId)) && DropChannels(s, machineId).sockets == s.sockets
  {
  }

  lemma SocketCloseKeeps(s: Registry, ws: nat)
    ensures KeptByNodes(s, OnSocketClose(s, ws))
  {
    if ws in s.sockets {
      var id := s.sockets[ws];
      var t := Unseat(s, ws, NodeKey(id.machineId, id.role), id.role);
      assert KeptByNodes(s, t);
      DroppingKeeps(t, id.machineId);
    }
  }

  lemma HeartbeatKeeps(s: Registry, ws: nat, now: nat)
    ensures KeptByNodes(s, OnHeartbeat(s, ws, now))
  {
    if ws in s.sockets {
      var key := NodeKey(s.sockets[ws].machineId, s.sockets[ws].role);
      if key in s.nodes {
        assert OnHeartbeat(s, ws, now).streamsNode == s.streamsNode;
      }
    }
  }

  lemma EntriesKeep(s: Registry, e: Event)
    requires e.EvAttached? || e.EvExpire? || e.EvApprove? || e.EvDetach?
    ensures KeptByNodes(s, Step(s, e))
  {
  }

  /** The nodes' own handlers number nothing, send nothing and forget no socket. */
  lemma NodesKeep(s: Registry, e: Event)
    requires OfNodes(e)
    ensures KeptByNodes(s, Step(s, e))
  {
    match e
    case EvSocketClose(ws) => SocketCloseKeeps(s, ws);
    case EvStop => StopKeeps(s);
    case EvHeartbeat(ws, now) => HeartbeatKeeps(s, ws, now);
    case _ => EntriesKeep(s, e);
  }

  /** Channels are numbered, and given an owner, by openings only. */
  lemma OnlyOpeningsNumber(s: Registry, e: Event)
    requires !e.EvRelay? && !e.EvWsOpen?
    ensures SameNumbers(s, Step(s, e)) && SameOwners(s, Step(s, e))
  {
    if OfNodes(e) {
      NodesKeep(s, e);
    } else if OfBrowsers(e) {
      BrowsersKeep(s, e);
    } else {
      TrafficKeeps(s, e);
    }
  }
}
