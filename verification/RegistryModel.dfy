/** The gateway's node registry as functions on its tables, one per synchronous handler:
    live nodes and their leases, HTTP relays, browser WebSocket channels. */
module RegistryModel {
  import opened Options
  import opened Bytes
  import opened FrameCodec
  import opened Wire

  const HEARTBEAT_INTERVAL_MS := 15_000
  const LEASE_TTL_MS := 45_000

  datatype Role = Console | Supervisor

  datatype Node = Node(ws: nat, machineId: string, role: Role, approved: bool, leaseExpiry: int)

  /** Whose socket it is, once onboarded. */
  datatype Identity = Identity(machineId: string, role: Role)

  /** A call on the handlers of a channel. */
  datatype Call =
    | OnResponse(status: int, headers: map<string, string>)
    | OnData(data: seq<byte>)
    | OnEnd
    | OnError
    | WsOnOpen
    | WsOnData(kind: int, wsData: seq<byte>)
    | WsOnClose(code: int)

  /** What else a socket or the supervisor's waiting requests are told. */
  datatype Notice =
    | SocketClosed(ws: nat, code: int)
    | LeaseGranted(ws: nat, now: nat)
    | ApprovalSent(ws: nat)
    | ControlsFailed(reason: string)

  /** The registry's fields, and what they did to the outside: armed idle timers, each with how often it
      has been started, handler calls by channel, messages by socket, other notices given, and the
      channels ever opened of each kind. */
  datatype Registry = Registry(
    nodes: map<string, Node>,
    sockets: map<nat, Identity>,
    streams: set<int>,
    streamsNode: map<int, string>,
    wsChannels: set<int>,
    wsChannelNode: map<int, string>,
    channelSeq: nat,
    timers: map<int, nat>,
    calls: map<int, seq<Call>>,
    sent: map<nat, seq<Message>>,
    notices: set<Notice>,
    relays: set<int>,
    tunnels: set<int>)

  const BOOT := Registry(map[], map[], {}, map[], {}, map[], 0, map[], map[], map[], {}, {}, {})

  function RoleName(role: Role): string {
    if role.Console? then "console" else "supervisor"
  }

  function NodeKey(machineId: string, role: Role): string {
    machineId + ":" + RoleName(role)
  }

  /** Two sockets share a key only if they have the same machine and the same role,
      even when a machine id holds a colon. */
  lemma NodeKeyInjective(m1: string, r1: Role, m2: string, r2: Role)
    ensures NodeKey(m1, r1) == NodeKey(m2, r2) ==> m1 == m2 && r1 == r2
  {
    var k1, k2 := NodeKey(m1, r1), NodeKey(m2, r2);
    if k1 == k2 {
      assert k1[|k1| - 3] == RoleName(r1)[|RoleName(r1)| - 3];
      assert k2[|k2| - 3] == RoleName(r2)[|RoleName(r2)| - 3];
      assert r1 == r2;
      assert m1 == k1[..|m1|] && m2 == k2[..|m2|];
    }
  }

  function CallsOf(calls: map<int, seq<Call>>, c: int): seq<Call> {
    if c in calls then calls[c] else []
  }

  function SentTo(sent: map<nat, seq<Message>>, ws: nat): seq<Message> {
    if ws in sent then sent[ws] else []
  }

  function LogCall(calls: map<int, seq<Call>>, c: int, call: Call): map<int, seq<Call>> {
    calls[c := CallsOf(calls, c) + [call]]
  }

  function LogAll(calls: map<int, seq<Call>>, cs: set<int>, call: Call): map<int, seq<Call>> {
    map c | c in calls.Keys + cs :: CallsOf(calls, c) + if c in cs then [call] else []
  }

  lemma LogNone(calls: map<int, seq<Call>>, call: Call)
    ensures LogAll(calls, {}, call) == calls
  {
    assert forall c :: c in calls ==> calls[c] + [] == calls[c];
  }

  lemma LogStep(calls: map<int, seq<Call>>, told: set<int>, c: int, call: Call)
    requires c !in told
    ensures LogCall(LogAll(calls, told, call), c, call) == LogAll(calls, told + {c}, call)
  {
    assert calls.Keys + (told + {c}) == (calls.Keys + told) + {c};
    assert CallsOf(calls, c) + [] == CallsOf(calls, c);
  }

  /** An idle timer starts anew. */
  function Armed(timers: map<int, nat>, channel: int): map<int, nat> {
    timers[channel := (if channel in timers then timers[channel] else 0) + 1]
  }

  function Send(sent: map<nat, seq<Message>>, ws: nat, messages: seq<Message>): map<nat, seq<Message>> {
    sent[ws := SentTo(sent, ws) + messages]
  }

  function ConsoleNode(s: Registry, machineId: string): Option<Node> {
    var key := NodeKey(machineId, Console);
    if key in s.nodes then Some(s.nodes[key]) else None
  }

  // ---- opening ----------------------------------------------------------------

  /** A refused relay's handler is called at once with the error. */
  datatype Opening = Refused(error: string) | Threw | Opened(channel: int)

  /** One request and its whole body in one frame. */
  function RequestMessages(channel: int, request: Request, body: seq<byte>): seq<Message>
    requires |body| < U32
  {
    [RelayRequest(channel, request, |body|)]
    + if body == [] then [] else [Binary(Encode(Frame(BINARY, Word(channel), 0, body)))]
  }

  function RelayStream(s: Registry, machineId: string, request: Request, body: seq<byte>): (Registry, Opening) {
    var node := ConsoleNode(s, machineId);
    if node.None? then (s, Refused("node not connected"))
    else if !node.value.approved then (s, Refused("node not approved"))
    else
      var channel := s.channelSeq + 1;
      if |body| >= U32 then // the request is announced, then the frame codec throws
        (s.(channelSeq := channel, sent := Send(s.sent, node.value.ws, [RelayRequest(channel, request, |body|)])), Threw)
      else
        (s.(channelSeq := channel,
            sent := Send(s.sent, node.value.ws, RequestMessages(channel, request, body)),
            streams := s.streams + {channel}, streamsNode := s.streamsNode[channel := machineId],
            timers := Armed(s.timers, channel), relays := s.relays + {channel}),
         Opened(channel))
  }

  function RelayWsOpenStep(s: Registry, machineId: string, path: string, headers: map<string, string>): (Registry, Opening) {
    var node := ConsoleNode(s, machineId);
    if node.None? || !node.value.approved then (s, Threw)
    else
      var channel := s.channelSeq + 1;
      (s.(channelSeq := channel,
          wsChannels := s.wsChannels + {channel}, wsChannelNode := s.wsChannelNode[channel := machineId],
          sent := Send(s.sent, node.value.ws, [RelayWsOpen(channel, path, headers)]),
          tunnels := s.tunnels + {channel}),
       Opened(channel))
  }

  // ---- traffic ----------------------------------------------------------------

  /** Data too long for a frame makes the frame codec throw; the flag says whether it did. */
  function SendWs(s: Registry, channel: int, kind: int, data: seq<byte>): (Registry, bool) {
    if channel !in s.wsChannelNode then (s, false)
    else
      var node := ConsoleNode(s, s.wsChannelNode[channel]);
      if node.None? then (s, false)
      else if |data| >= U32 then (s, true)
      else (s.(sent := Send(s.sent, node.value.ws, [Binary(Encode(Frame(kind % 256, Word(channel), 0, data)))])), false)
  }

  function CloseWsChannel(s: Registry, channel: int): Registry {
    var node := if channel in s.wsChannelNode then ConsoleNode(s, s.wsChannelNode[channel]) else None;
    s.(sent := if node.Some? then Send(s.sent, node.value.ws, [RelayWsClose(channel)]) else s.sent,
       wsChannels := s.wsChannels - {channel}, wsChannelNode := s.wsChannelNode - {channel})
  }

  /** An incoming frame is routed by its channel alone. */
  function OnFrame(s: Registry, channel: int, kind: int, data: seq<byte>): Registry {
    if channel in s.wsChannels then s.(calls := LogCall(s.calls, channel, WsOnData(kind, data)))
    else if channel in s.streams then
      s.(timers := Armed(s.timers, channel), calls := LogCall(s.calls, channel, OnData(data)))
    else s
  }

  function OnRelayResponse(s: Registry, channel: int, status: int, headers: map<string, string>): Registry {
    if channel !in s.streams then s
    else s.(timers := Armed(s.timers, channel), calls := LogCall(s.calls, channel, OnResponse(status, headers)))
  }

  function OnRelayEnd(s: Registry, channel: int): Registry {
    if channel !in s.streams then s
    else s.(timers := s.timers - {channel}, streams := s.streams - {channel},
            streamsNode := s.streamsNode - {channel}, calls := LogCall(s.calls, channel, OnEnd))
  }

  /** The idle timer of a relay fires; only an armed one can. */
  function OnIdle(s: Registry, channel: int): Registry {
    if channel !in s.timers then s
    else s.(timers := s.timers - {channel}, streams := s.streams - {channel},
            streamsNode := s.streamsNode - {channel}, calls := LogCall(s.calls, channel, OnError))
  }

  function OnWsOpenOk(s: Registry, channel: int): Registry {
    if channel !in s.wsChannels then s else s.(calls := LogCall(s.calls, channel, WsOnOpen))
  }

  function OnWsClose(s: Registry, channel: int, code: int): Registry {
    s.(calls := if channel in s.wsChannels then LogCall(s.calls, channel, WsOnClose(code)) else s.calls,
       wsChannels := s.wsChannels - {channel}, wsChannelNode := s.wsChannelNode - {channel})
  }

  // ---- nodes ------------------------------------------------------------------

  function OnAttached(s: Registry, ws: nat, id: Identity, approved: bool, now: nat): Registry {
    s.(sockets := s.sockets[ws := id],
       nodes := s.nodes[NodeKey(id.machineId, id.role)
                        := Node(ws, id.machineId, id.role, approved, now + LEASE_TTL_MS)])
  }

  /** A heartbeat renews the lease of the sender's machine and role, whoever holds the entry; a
      sender without one is closed. */
  function OnHeartbeat(s: Registry, ws: nat, now: nat): Registry {
    if ws !in s.sockets then s
    else
      var key := NodeKey(s.sockets[ws].machineId, s.sockets[ws].role);
      if key !in s.nodes then s.(notices := s.notices + {SocketClosed(ws, 4004)})
      else s.(nodes := s.nodes[key := s.nodes[key].(leaseExpiry := now + LEASE_TTL_MS)],
              notices := s.notices + {LeaseGranted(ws, now)})
  }

  /** The sockets behind some entries are closed with a code. */
  function ClosedWith(nodes: map<string, Node>, keys: set<string>, code: int): set<Notice> {
    set k | k in keys && k in nodes :: SocketClosed(nodes[k].ws, code)
  }

  lemma ClosedOneMore(nodes: map<string, Node>, keys: set<string>, k: string, code: int)
    requires k in nodes
    ensures ClosedWith(nodes, keys + {k}, code) == ClosedWith(nodes, keys, code) + {SocketClosed(nodes[k].ws, code)}
  {
  }

  function RunOut(nodes: map<string, Node>, now: nat): set<string> {
    set k | k in nodes && now > nodes[k].leaseExpiry
  }

  function EntriesOf(nodes: map<string, Node>, machineId: string): set<string> {
    set k | k in nodes && nodes[k].machineId == machineId
  }

  function Expire(s: Registry, now: nat): Registry {
    var gone := RunOut(s.nodes, now);
    s.(nodes := s.nodes - gone, notices := s.notices + ClosedWith(s.nodes, gone, 4005))
  }

  function Promoted(nodes: map<string, Node>, keys: set<string>): map<string, Node> {
    map k | k in nodes :: if k in keys then nodes[k].(approved := true) else nodes[k]
  }

  function ToldApproved(nodes: map<string, Node>, keys: set<string>): set<Notice> {
    set k | k in keys && k in nodes :: ApprovalSent(nodes[k].ws)
  }

  lemma NobodyPromoted(nodes: map<string, Node>)
    ensures Promoted(nodes, {}) == nodes && ToldApproved(nodes, {}) == {}
  {
  }

  lemma ToldOneMore(nodes: map<string, Node>, keys: set<string>, k: string)
    requires k in nodes
    ensures ToldApproved(nodes, keys + {k}) == ToldApproved(nodes, keys) + {ApprovalSent(nodes[k].ws)}
    ensures Promoted(nodes, keys + {k}) == Promoted(nodes, keys)[k := nodes[k].(approved := true)]
  {
  }

  function Approve(s: Registry, machineId: string): Registry {
    var mine := EntriesOf(s.nodes, machineId);
    s.(nodes := Promoted(s.nodes, mine), notices := s.notices + ToldApproved(s.nodes, mine))
  }

  /** Revoking or deleting a machine: its sockets leave the table at once, and close later. */
  function Detach(s: Registry, machineId: string, deleted: bool): Registry {
    var mine := EntriesOf(s.nodes, machineId);
    s.(nodes := s.nodes - mine,
       notices := s.notices + ClosedWith(s.nodes, mine, if deleted then 4000 else 4003)
                  + {ControlsFailed(if deleted then "machine deleted" else "machine revoked")})
  }

  function OwnedBy(table: map<int, string>, machineId: string): set<int> {
    set c | c in table && table[c] == machineId
  }

  function DropChannels(s: Registry, machineId: string): Registry {
    var ws, hs := OwnedBy(s.wsChannelNode, machineId), OwnedBy(s.streamsNode, machineId);
    s.(calls := LogAll(LogAll(s.calls, ws * s.wsChannels, WsOnClose(1011)), hs * s.streams, OnError),
       wsChannels := s.wsChannels - ws, wsChannelNode := s.wsChannelNode - ws,
       timers := s.timers - hs * s.streams,
       streams := s.streams - hs, streamsNode := s.streamsNode - hs)
  }

  /** A socket closes: its own node entry goes, never a replacement's, and all channels of its machine. */
  function OnSocketClose(s: Registry, ws: nat): Registry {
    if ws !in s.sockets then s
    else
      var id := s.sockets[ws];
      var key := NodeKey(id.machineId, id.role);
      DropChannels(Unseat(s, ws, key, id.role), id.machineId)
  }

  /** The closed socket's own entry goes; without its supervisor a machine's requests fail. */
  function Unseat(s: Registry, ws: nat, key: string, role: Role): Registry {
    s.(nodes := if key in s.nodes && s.nodes[key].ws == ws then s.nodes - {key} else s.nodes,
       notices := s.notices + if role.Supervisor? then {ControlsFailed("supervisor disconnected")} else {})
  }

  function Stop(s: Registry): Registry {
    s.(nodes := map[],
       notices := s.notices + ClosedWith(s.nodes, s.nodes.Keys, 4000)
                  + {ControlsFailed("gateway shutting down")},
       timers := s.timers - s.streams, calls := LogAll(s.calls, s.streams, OnError),
       streams := {}, streamsNode := map[], wsChannels := {}, wsChannelNode := map[])
  }

  // ---- runs -------------------------------------------------------------------

  datatype Event =
    | EvRelay(machineId: string, request: Request, body: seq<byte>)
    | EvWsOpen(machineId: string, path: string, headers: map<string, string>)
    | EvBrowserSend(channel: int, kind: int, data: seq<byte>)
    | EvBrowserClose(channel: int)
    | EvFrame(channel: int, kind: int, data: seq<byte>)
    | EvResponse(channel: int, status: int, headers: map<string, string>)
    | EvEnd(channel: int)
    | EvIdle(channel: int)
    | EvWsOpenOk(channel: int)
    | EvWsClose(channel: int, code: int)
    | EvAttached(ws: nat, id: Identity, nodeApproved: bool, now: nat)
    | EvHeartbeat(ws: nat, now: nat)
    | EvExpire(now: nat)
    | EvApprove(machineId: string)
    | EvDetach(machineId: string, deleted: bool)
    | EvSocketClose(ws: nat)
    | EvStop

  function Step(s: Registry, e: Event): Registry {
    match e
    case EvRelay(machineId, request, body) => RelayStream(s, machineId, request, body).0
    case EvWsOpen(machineId, path, headers) => RelayWsOpenStep(s, machineId, path, headers).0
    case EvBrowserSend(channel, kind, data) => SendWs(s, channel, kind, data).0
    case EvBrowserClose(channel) => CloseWsChannel(s, channel)
    case EvFrame(channel, kind, data) => OnFrame(s, channel, kind, data)
    case EvResponse(channel, status, headers) => OnRelayResponse(s, channel, status, headers)
    case EvEnd(channel) => OnRelayEnd(s, channel)
    case EvIdle(channel) => OnIdle(s, channel)
    case EvWsOpenOk(channel) => OnWsOpenOk(s, channel)
    case EvWsClose(channel, code) => OnWsClose(s, channel, code)
    case EvAttached(ws, id, approved, now) => OnAttached(s, ws, id, approved, now)
    case EvHeartbeat(ws, now) => OnHeartbeat(s, ws, now)
    case EvExpire(now) => Expire(s, now)
    case EvApprove(machineId) => Approve(s, machineId)
    case EvDetach(machineId, deleted) => Detach(s, machineId, deleted)
    case EvSocketClose(ws) => OnSocketClose(s, ws)
    case EvStop => Stop(s)
  }

  function Run(s: Registry, events: seq<Event>): Registry
    decreases events
  {
    if events == [] then s else Run(Step(s, events[0]), events[1..])
  }
}
