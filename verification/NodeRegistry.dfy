/** The registry as the object the gateway keeps: tables updated in place by every handler, the
    channel life cycle kept by each. Handler calls, messages and notices are logs; each method is
    tied to RegistryModel. */
module NodeRegistries {
  import opened Options
  import opened Bytes
  import opened FrameCodec
  import opened Wire
  import opened RegistryModel
  import L = RelayLifecycle

  class NodeRegistry {
    var nodes: map<string, Node>
    var sockets: map<nat, Identity>
    var streams: set<int>
    var streamsNode: map<int, string>
    var wsChannels: set<int>
    var wsChannelNode: map<int, string>
    var channelSeq: nat
    var timers: map<int, nat>
    ghost var calls: map<int, seq<Call>>
    ghost var sent: map<nat, seq<Message>>
    ghost var notices: set<Notice>
    ghost var relays: set<int>
    ghost var tunnels: set<int>

    ghost function State(): Registry
      reads this
    {
      Registry(nodes, sockets, streams, streamsNode, wsChannels, wsChannelNode, channelSeq, timers,
               calls, sent, notices, relays, tunnels)
    }

    /** The life cycle of every channel so far. */
    ghost predicate Valid()
      reads this
    {
      L.Inv(State())
    }

    constructor ()
      ensures Valid() && State() == BOOT
    {
      L.LifecycleHolds([]);
      nodes, sockets := map[], map[];
      streams, streamsNode, wsChannels, wsChannelNode := {}, map[], {}, map[];
      channelSeq, timers := 0, map[];
      calls, sent, notices, relays, tunnels := map[], map[], {}, {}, {};
    }

    method OpenStream(machineId: string, request: Request, body: seq<byte>) returns (result: Opening)
      requires Valid()
      modifies this
      ensures (State(), result) == RelayStream(old(State()), machineId, request, body)
      ensures Valid()
    {
      L.InvStep(State(), EvRelay(machineId, request, body));
      ghost var after := RelayStream(State(), machineId, request, body);
      result := TryOpen(machineId, request, body);
      assert State() == after.0;
    }

    method TryOpen(machineId: string, request: Request, body: seq<byte>) returns (result: Opening)
      modifies this
      ensures (State(), result) == RelayStream(old(State()), machineId, request, body)
    {
      var key := NodeKey(machineId, Console);
      if key !in nodes {
        return Refused("node not connected");
      }
      if !nodes[key].approved {
        return Refused("node not approved");
      }
      channelSeq := channelSeq + 1;
      var channel := channelSeq;
      var ok := SendRequest(nodes[key].ws, channel, request, body);
      if !ok {
        return Threw;
      }
      RegisterStream(channel, machineId);
      return Opened(channel);
    }

    method RegisterStream(channel: int, machineId: string)
      modifies this`streams, this`streamsNode, this`timers, this`relays
      ensures State() == old(State()).(streams := old(streams) + {channel},
                                       streamsNode := old(streamsNode)[channel := machineId],
                                       timers := Armed(old(timers), channel), relays := old(relays) + {channel})
    {
      streams := streams + {channel};
      streamsNode := streamsNode[channel := machineId];
      timers := Armed(timers, channel);
      relays := relays + {channel};
    }

    /** The request line, then its body in one frame; an oversized body throws after the line is out. */
    method SendRequest(ws: nat, channel: int, request: Request, body: seq<byte>) returns (ok: bool)
      modifies this`sent
      ensures ok <==> |body| < U32
      ensures sent == Send(old(sent), ws, if ok then RequestMessages(channel, request, body)
                                          else [RelayRequest(channel, request, |body|)])
    {
      sent := Send(sent, ws, [RelayRequest(channel, request, |body|)]);
      if |body| > 0 {
        var frame := EncodeFrame(BINARY, channel, 0, body);
        if frame.None? {
          return false;
        }
        sent := Send(sent, ws, [Binary(frame.value)]);
        assert SentTo(sent, ws) == SentTo(old(sent), ws) + RequestMessages(channel, request, body);
      } else {
        assert RequestMessages(channel, request, body) == [RelayRequest(channel, request, |body|)];
      }
      return true;
    }

    method OpenWs(machineId: string, path: string, headers: map<string, string>) returns (result: Opening)
      requires Valid()
      modifies this
      ensures (State(), result) == RelayWsOpenStep(old(State()), machineId, path, headers)
      ensures Valid()
    {
      L.InvStep(State(), EvWsOpen(machineId, path, headers));
      var key := NodeKey(machineId, Console);
      if key !in nodes || !nodes[key].approved {
        return Threw;
      }
      channelSeq := channelSeq + 1;
      RegisterWs(channelSeq, machineId);
      sent := Send(sent, nodes[key].ws, [RelayWsOpen(channelSeq, path, headers)]);
      return Opened(channelSeq);
    }

    method RegisterWs(channel: int, machineId: string)
      modifies this`wsChannels, this`wsChannelNode, this`tunnels
      ensures State() == old(State()).(wsChannels := old(wsChannels) + {channel},
                                       wsChannelNode := old(wsChannelNode)[channel := machineId],
                                       tunnels := old(tunnels) + {channel})
    {
      wsChannels := wsChannels + {channel};
      wsChannelNode := wsChannelNode[channel := machineId];
      tunnels := tunnels + {channel};
    }

    /** Throws when the data is too long for a frame. */
    method BrowserSend(channel: int, kind: int, data: seq<byte>) returns (threw: bool)
      requires Valid()
      modifies this
      ensures (State(), threw) == SendWs(old(State()), channel, kind, data)
      ensures Valid()
    {
      L.InvStep(State(), EvBrowserSend(channel, kind, data));
      if channel in wsChannelNode {
        var key := NodeKey(wsChannelNode[channel], Console);
        if key in nodes {
          var frame := EncodeFrame(kind, channel, 0, data);
          if frame.None? {
            return true;
          }
          sent := Send(sent, nodes[key].ws, [Binary(frame.value)]);
        }
      }
      return false;
    }

    method BrowserClose(channel: int)
      requires Valid()
      modifies this
      ensures State() == CloseWsChannel(old(State()), channel)
      ensures Valid()
    {
      if channel in wsChannelNode {
        var key := NodeKey(wsChannelNode[channel], Console);
        if key in nodes {
          sent := Send(sent, nodes[key].ws, [RelayWsClose(channel)]);
        }
      }
      wsChannels := wsChannels - {channel};
      wsChannelNode := wsChannelNode - {channel};
      L.InvStep(old(State()), EvBrowserClose(channel));
    }

    method Frame(channel: int, kind: int, data: seq<byte>)
      requires Valid()
      modifies this
      ensures State() == OnFrame(old(State()), channel, kind, data)
      ensures Valid()
    {
      if channel in wsChannels {
        calls := LogCall(calls, channel, WsOnData(kind, data));
      } else if channel in streams {
        timers := Armed(timers, channel);
        calls := LogCall(calls, channel, OnData(data));
      }
      L.InvStep(old(State()), EvFrame(channel, kind, data));
    }

    method Response(channel: int, status: int, headers: map<string, string>)
      requires Valid()
      modifies this
      ensures State() == OnRelayResponse(old(State()), channel, status, headers)
      ensures Valid()
    {
      if channel in streams {
        timers := Armed(timers, channel);
        calls := LogCall(calls, channel, OnResponse(status, headers));
      }
      L.InvStep(old(State()), EvResponse(channel, status, headers));
    }

    method End(channel: int)
      requires Valid()
      modifies this
      ensures State() == OnRelayEnd(old(State()), channel)
      ensures Valid()
    {
      if channel in streams {
        timers := timers - {channel};
        streams := streams - {channel};
        streamsNode := streamsNode - {channel};
        calls := LogCall(calls, channel, OnEnd);
      }
      L.InvStep(old(State()), EvEnd(channel));
    }

    method IdleTimeout(channel: int)
      requires Valid()
      modifies this
      ensures State() == OnIdle(old(State()), channel)
      ensures Valid()
    {
      if channel in timers {
        timers := timers - {channel};
        streams := streams - {channel};
        streamsNode := streamsNode - {channel};
        calls := LogCall(calls, channel, OnError);
      }
      L.InvStep(old(State()), EvIdle(channel));
    }

    method WsOpenOk(channel: int)
      requires Valid()
      modifies this
      ensures State() == OnWsOpenOk(old(State()), channel)
      ensures Valid()
    {
      if channel in wsChannels {
        calls := LogCall(calls, channel, WsOnOpen);
      }
      L.InvStep(old(State()), EvWsOpenOk(channel));
    }

    method WsClose(channel: int, code: int)
      requires Valid()
      modifies this
      ensures State() == OnWsClose(old(State()), channel, code)
      ensures Valid()
    {
      if channel in wsChannels {
        calls := LogCall(calls, channel, WsOnClose(code));
      }
      wsChannels := wsChannels - {channel};
      wsChannelNode := wsChannelNode - {channel};
      L.InvStep(old(State()), EvWsClose(channel, code));
    }

    method Attached(ws: nat, id: Identity, approved: bool, now: nat)
      requires Valid()
      modifies this
      ensures State() == OnAttached(old(State()), ws, id, approved, now)
      ensures Valid()
    {
      sockets := sockets[ws := id];
      nodes := nodes[NodeKey(id.machineId, id.role) := Node(ws, id.machineId, id.role, approved, now + LEASE_TTL_MS)];
      L.InvStep(old(State()), EvAttached(ws, id, approved, now));
    }

    method Heartbeat(ws: nat, now: nat)
      requires Valid()
      modifies this
      ensures State() == OnHeartbeat(old(State()), ws, now)
      ensures Valid()
    {
      L.InvStep(State(), EvHeartbeat(ws, now));
      if ws in sockets {
        var key := NodeKey(sockets[ws].machineId, sockets[ws].role);
        if key !in nodes {
          notices := notices + {SocketClosed(ws, 4004)};
          return;
        }
        nodes := nodes[key := nodes[key].(leaseExpiry := now + LEASE_TTL_MS)];
        notices := notices + {LeaseGranted(ws, now)};
      }
    }

    method ExpireLeases(now: nat)
      requires Valid()
      modifies this`nodes, this`notices
      ensures State() == Expire(old(State()), now)
      ensures Valid()
    {
      RemoveExpired(now);
      L.InvStep(old(State()), EvExpire(now));
    }

    method RemoveExpired(now: nat)
      modifies this`nodes, this`notices
      ensures State() == Expire(old(State()), now)
    {
      var todo := nodes.Keys;
      ghost var gone: set<string> := {};
      while todo != {}
        invariant todo <= old(nodes).Keys && gone == RunOut(old(nodes), now) - todo
        invariant nodes == old(nodes) - gone
        invariant notices == old(notices) + ClosedWith(old(nodes), gone, 4005)
        decreases todo
      {
        var k :| k in todo;
        todo := todo - {k};
        if now > nodes[k].leaseExpiry {
          ClosedOneMore(old(nodes), gone, k, 4005);
          notices := notices + {SocketClosed(nodes[k].ws, 4005)};
          nodes := nodes - {k};
          gone := gone + {k};
        }
      }
    }

    method ApproveMachine(machineId: string)
      requires Valid()
      modifies this`nodes, this`notices
      ensures State() == Approve(old(State()), machineId)
      ensures Valid()
    {
      Promote(machineId);
      L.InvStep(old(State()), EvApprove(machineId));
    }

    method Promote(machineId: string)
      modifies this`nodes, this`notices
      ensures State() == Approve(old(State()), machineId)
    {
      var todo := nodes.Keys;
      ghost var done: set<string> := {};
      NobodyPromoted(nodes);
      while todo != {}
        invariant todo <= old(nodes).Keys && done == EntriesOf(old(nodes), machineId) - todo
        invariant nodes.Keys == old(nodes).Keys && forall k :: k in todo ==> nodes[k] == old(nodes)[k]
        invariant nodes == Promoted(old(nodes), done)
        invariant notices == old(notices) + ToldApproved(old(nodes), done)
        decreases todo
      {
        var k :| k in todo;
        todo := todo - {k};
        if nodes[k].machineId == machineId {
          ToldOneMore(old(nodes), done, k);
          nodes := nodes[k := nodes[k].(approved := true)];
          notices := notices + {ApprovalSent(nodes[k].ws)};
          done := done + {k};
        }
      }
    }

    method DetachMachine(machineId: string, deleted: bool)
      requires Valid()
      modifies this`nodes, this`notices
      ensures State() == Detach(old(State()), machineId, deleted)
      ensures Valid()
    {
      RemoveNodes(machineId, deleted);
      L.InvStep(old(State()), EvDetach(machineId, deleted));
    }

    method RemoveNodes(machineId: string, deleted: bool)
      modifies this`nodes, this`notices
      ensures State() == Detach(old(State()), machineId, deleted)
    {
      CloseMachine(machineId, if deleted then 4000 else 4003);
      notices := notices + {ControlsFailed(if deleted then "machine deleted" else "machine revoked")};
    }

    method CloseMachine(machineId: string, code: int)
      modifies this`nodes, this`notices
      ensures nodes == old(nodes) - EntriesOf(old(nodes), machineId)
      ensures notices == old(notices) + ClosedWith(old(nodes), EntriesOf(old(nodes), machineId), code)
    {
      var todo := nodes.Keys;
      ghost var gone: set<string> := {};
      while todo != {}
        invariant todo <= old(nodes).Keys && gone == EntriesOf(old(nodes), machineId) - todo
        invariant nodes == old(nodes) - gone
        invariant notices == old(notices) + ClosedWith(old(nodes), gone, code)
        decreases todo
      {
        var k :| k in todo;
        todo := todo - {k};
        if nodes[k].machineId == machineId {
          ClosedOneMore(old(nodes), gone, k, code);
          notices := notices + {SocketClosed(nodes[k].ws, code)};
          nodes := nodes - {k};
          gone := gone + {k};
        }
      }
    }

    /** The channels a table gives to a machine, collected before any of them is deleted. */
    method Collect(table: map<int, string>, machineId: string) returns (mine: set<int>)
      ensures mine == OwnedBy(table, machineId)
    {
      mine := {};
      var todo := table.Keys;
      while todo != {}
        invariant todo <= table.Keys
        invariant mine == set c | c in table && c !in todo && table[c] == machineId
        decreases todo
      {
        Inhabited(todo);
        var c :| c in todo;
        todo := todo - {c};
        if table[c] == machineId {
          mine := mine + {c};
        }
      }
    }

    method DropChannelsForMachine(machineId: string)
      modifies this
      ensures State() == DropChannels(old(State()), machineId)
    {
      var toClose := Collect(wsChannelNode, machineId);
      CloseAll(toClose);
      var toFail := Collect(streamsNode, machineId);
      FailAll(toFail);
    }

    method CloseAll(toClose: set<int>)
      modifies this`calls, this`wsChannels, this`wsChannelNode
      ensures calls == LogAll(old(calls), toClose * old(wsChannels), WsOnClose(1011))
      ensures wsChannels == old(wsChannels) - toClose && wsChannelNode == old(wsChannelNode) - toClose
    {
      var todo := toClose;
      ghost var told := {};
      LogNone(calls, WsOnClose(1011));
      while todo != {}
        invariant todo <= toClose && told == (toClose - todo) * old(wsChannels)
        invariant calls == LogAll(old(calls), told, WsOnClose(1011))
        invariant wsChannels == old(wsChannels) - (toClose - todo)
        invariant wsChannelNode == old(wsChannelNode) - (toClose - todo)
        decreases todo
      {
        Inhabited(todo);
        var c :| c in todo;
        todo := todo - {c};
        if c in wsChannels {
          LogStep(old(calls), told, c, WsOnClose(1011));
          calls := LogCall(calls, c, WsOnClose(1011));
          told := told + {c};
        }
        wsChannels := wsChannels - {c};
        wsChannelNode := wsChannelNode - {c};
      }
      assert told == toClose * old(wsChannels);
    }

    method FailAll(toFail: set<int>)
      modifies this`calls, this`timers, this`streams, this`streamsNode
      ensures calls == LogAll(old(calls), toFail * old(streams), OnError)
      ensures timers == old(timers) - toFail * old(streams)
      ensures streams == old(streams) - toFail && streamsNode == old(streamsNode) - toFail
    {
      var todo := toFail;
      ghost var told := {};
      LogNone(calls, OnError);
      while todo != {}
        invariant todo <= toFail && told == (toFail - todo) * old(streams)
        invariant calls == LogAll(old(calls), told, OnError) && timers == old(timers) - told
        invariant streams == old(streams) - (toFail - todo)
        invariant streamsNode == old(streamsNode) - (toFail - todo)
        decreases todo
      {
        Inhabited(todo);
        var c :| c in todo;
        todo := todo - {c};
        if c in streams {
          timers := timers - {c};
          LogStep(old(calls), told, c, OnError);
          calls := LogCall(calls, c, OnError);
          told := told + {c};
        }
        streams := streams - {c};
        streamsNode := streamsNode - {c};
      }
      assert told == toFail * old(streams);
    }

    method SocketClose(ws: nat)
      requires Valid()
      modifies this
      ensures State() == OnSocketClose(old(State()), ws)
      ensures Valid()
    {
      if ws in sockets {
        UnseatSocket(ws, NodeKey(sockets[ws].machineId, sockets[ws].role), sockets[ws].role);
        DropChannelsForMachine(sockets[ws].machineId);
      }
      L.InvStep(old(State()), EvSocketClose(ws));
    }

    method UnseatSocket(ws: nat, key: string, role: Role)
      modifies this`nodes, this`notices
      ensures State() == Unseat(old(State()), ws, key, role)
    {
      if key in nodes && nodes[key].ws == ws {
        nodes := nodes - {key};
      }
      if role.Supervisor? {
        notices := notices + {ControlsFailed("supervisor disconnected")};
      }
    }

    method Shutdown()
      requires Valid()
      modifies this
      ensures State() == Stop(old(State()))
      ensures Valid()
    {
      L.InvStep(State(), EvStop);
      ghost var stopped := Stop(State());
      EmptyTables();
      assert State() == stopped;
    }

    method EmptyTables()
      modifies this
      ensures State() == Stop(old(State()))
    {
      CloseNodes();
      ErrorAll();
      ClearTables();
    }

    method ClearTables()
      modifies this`streams, this`streamsNode, this`wsChannels, this`wsChannelNode
      ensures State() == old(State()).(streams := {}, streamsNode := map[], wsChannels := {}, wsChannelNode := map[])
    {
      streams, streamsNode := {}, map[];
      wsChannels, wsChannelNode := {}, map[];
    }

    method CloseNodes()
      modifies this`nodes, this`notices
      ensures nodes == map[] && notices == Stop(old(State())).notices
    {
      var todo := nodes.Keys;
      ghost var told: set<string> := {};
      while todo != {}
        invariant todo <= nodes.Keys && told == nodes.Keys - todo && nodes == old(nodes)
        invariant notices == old(notices) + ClosedWith(nodes, told, 4000)
        decreases todo
      {
        var k :| k in todo;
        todo := todo - {k};
        ClosedOneMore(nodes, told, k, 4000);
        notices := notices + {SocketClosed(nodes[k].ws, 4000)};
        told := told + {k};
      }
      assert told == nodes.Keys;
      nodes := map[];
      notices := notices + {ControlsFailed("gateway shutting down")};
    }

    method ErrorAll()
      modifies this`calls, this`timers
      ensures calls == LogAll(old(calls), streams, OnError) && timers == old(timers) - streams
    {
      var todo := streams;
      LogNone(calls, OnError);
      assert streams - todo == {};
      while todo != {}
        invariant todo <= streams
        invariant calls == LogAll(old(calls), streams - todo, OnError) && timers == old(timers) - (streams - todo)
        decreases todo
      {
        Inhabited(todo);
        var c :| c in todo;
        LogStep(old(calls), streams - todo, c, OnError);
        assert streams - (todo - {c}) == (streams - todo) + {c};
        todo := todo - {c};
        timers := timers - {c};
        calls := LogCall(calls, c, OnError);
      }
      assert streams - todo == streams;
    }
  }
}
