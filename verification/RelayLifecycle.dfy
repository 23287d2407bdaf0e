/** The life of a relay channel in every run: opened once under a fresh id, in the tables
    until it ends, ended once, and silent afterwards. */
module RelayLifecycle {
  import opened Wire
  import opened RegistryModel

  predicate Terminal(call: Call) {
    call.OnEnd? || call.OnError? || call.WsOnClose?
  }

  predicate Ended(calls: seq<Call>) {
    calls != [] && Terminal(calls[|calls| - 1])
  }

  /** At most one terminal call, and nothing after it. */
  predicate OnceAtMost(calls: seq<Call>) {
    forall i :: 0 <= i < |calls| - 1 ==> !Terminal(calls[i])
  }

  predicate HttpCall(call: Call) {
    call.OnResponse? || call.OnData? || call.OnEnd? || call.OnError?
  }

  /** The tables fit together: equal keys, disjoint kinds, ids already handed out, and a timer
      for exactly the registered relays. */
  ghost predicate Tables(s: Registry) {
    && s.streams == s.streamsNode.Keys
    && s.wsChannels == s.wsChannelNode.Keys
    && s.streams <= s.relays && s.wsChannels <= s.tunnels
    && s.relays !! s.tunnels
    && (forall c :: c in s.relays || c in s.tunnels ==> 1 <= c <= s.channelSeq)
    && s.timers.Keys == s.streams
  }

  /** What the handlers of a channel have seen. A relay is registered or ended, never both or neither;
      its timer has started at its opening and again with every call. */
  predicate History(s: Registry, c: int) {
    var calls := CallsOf(s.calls, c);
    && OnceAtMost(calls)
    && (c in s.relays ==> (c in s.streams <==> !Ended(calls)))
    && (c in s.wsChannels ==> !Ended(calls))
    && (c in s.streams ==> c in s.timers && s.timers[c] == |calls| + 1)
    && (c !in s.relays && c !in s.tunnels ==> calls == [])
    && (forall i :: 0 <= i < |calls| ==> (HttpCall(calls[i]) <==> c in s.relays))
  }

  ghost predicate Inv(s: Registry) {
    Tables(s) && forall c :: History(s, c)
  }

  lemma OneMore(calls: seq<Call>, call: Call)
    requires OnceAtMost(calls) && !Ended(calls)
    ensures OnceAtMost(calls + [call]) && (Ended(calls + [call]) <==> Terminal(call))
  {
  }

  // ---- every handler keeps the invariant --------------------------------------

  /** A new relay enters all its tables at once, under a number never used. */
  lemma RegisterKeeps(s: Registry, machineId: string, sent: map<nat, seq<Message>>)
    requires Inv(s)
    ensures var c := s.channelSeq + 1;
            Inv(s.(channelSeq := c, sent := sent, streams := s.streams + {c}, streamsNode := s.streamsNode[c := machineId],
                   timers := Armed(s.timers, c), relays := s.relays + {c}))
    ensures Inv(s.(channelSeq := s.channelSeq + 1, sent := sent))
  {
    var c := s.channelSeq + 1;
    var s1 := s.(channelSeq := c, sent := sent, streams := s.streams + {c}, streamsNode := s.streamsNode[c := machineId],
                 timers := Armed(s.timers, c), relays := s.relays + {c});
    var s2 := s.(channelSeq := c, sent := sent);
    forall x ensures History(s1, x) && History(s2, x) { assert History(s, x); }
  }

  lemma OpenRelayKeeps(s: Registry, e: Event)
    requires Inv(s) && e.EvRelay?
    ensures Inv(Step(s, e))
  {
    RegisterKeeps(s, e.machineId, Step(s, e).sent);
    RelayRegisters(s, e);
  }

  lemma RelayRegisters(s: Registry, e: Event)
    requires e.EvRelay?
    ensures var c, s' := s.channelSeq + 1, Step(s, e);
            || s' == s || s' == s.(channelSeq := c, sent := s'.sent)
            || s' == s.(channelSeq := c, sent := s'.sent, streams := s.streams + {c},
                        streamsNode := s.streamsNode[c := e.machineId], timers := Armed(s.timers, c),
                        relays := s.relays + {c})
  {
  }

  lemma OpenWsKeeps(s: Registry, e: Event)
    requires Inv(s) && e.EvWsOpen?
    ensures Inv(Step(s, e))
  {
    var s' := Step(s, e);
    assert Tables(s');
    forall c ensures History(s', c) { assert History(s, c); }
  }

  /** A call that keeps the channel registered; a relay's timer starts anew. */
  lemma CallKeeps(s: Registry, channel: int, call: Call)
    requires Inv(s) && !Terminal(call)
    requires if HttpCall(call) then channel in s.streams else channel in s.wsChannels
    ensures Inv(s.(calls := LogCall(s.calls, channel, call),
                   timers := if HttpCall(call) then Armed(s.timers, channel) else s.timers))
  {
    var s' := s.(calls := LogCall(s.calls, channel, call),
                 timers := if HttpCall(call) then Armed(s.timers, channel) else s.timers);
    assert HttpCall(call) ==> s'.timers.Keys == s.timers.Keys;
    forall c ensures History(s', c) {
      assert History(s, c);
      if c == channel { OneMore(CallsOf(s.calls, c), call); }
    }
  }

  lemma TrafficKeeps(s: Registry, e: Event)
    requires Inv(s) && (e.EvFrame? || e.EvResponse? || e.EvWsOpenOk?)
    ensures Inv(Step(s, e))
  {
    var channel, s' := e.channel, Step(s, e);
    var call := if e.EvResponse? then OnResponse(e.status, e.headers)
                else if e.EvWsOpenOk? then WsOnOpen
                else if channel in s.wsChannels then WsOnData(e.kind, e.data) else OnData(e.data);
    if if HttpCall(call) then channel in s.streams else channel in s.wsChannels {
      CallKeeps(s, channel, call);
    }
  }

  lemma EndKeeps(s: Registry, e: Event)
    requires Inv(s) && (e.EvEnd? || e.EvIdle? || e.EvWsClose? || e.EvBrowserClose?)
    ensures Inv(Step(s, e))
  {
    var s' := Step(s, e);
    assert Tables(s');
    forall c ensures History(s', c) { assert History(s, c); }
  }

  lemma DropKeeps(s: Registry, machineId: string)
    requires Inv(s)
    ensures Inv(DropChannels(s, machineId))
  {
    var s' := DropChannels(s, machineId);
    assert Tables(s');
    forall c ensures History(s', c) { DropHistory(s, machineId, c); }
  }

  /** What a dropped machine does to one channel: a last call if it was its own, else nothing. */
  lemma DropCalls(s: Registry, machineId: string, c: int)
    requires Tables(s)
    ensures CallsOf(DropChannels(s, machineId).calls, c) == CallsOf(s.calls, c)
              + (if c in s.wsChannels && s.wsChannelNode[c] == machineId then [WsOnClose(1011)]
                 else if c in s.streams && s.streamsNode[c] == machineId then [OnError]
                 else [])
  {
  }

  lemma DropHistory(s: Registry, machineId: string, c: int)
    requires Inv(s)
    ensures History(DropChannels(s, machineId), c)
  {
    assert History(s, c);
    DropCalls(s, machineId, c);
    if !Ended(CallsOf(s.calls, c)) {
      OneMore(CallsOf(s.calls, c), WsOnClose(1011));
      OneMore(CallsOf(s.calls, c), OnError);
    }
  }

  lemma StopKeeps(s: Registry)
    requires Inv(s)
    ensures Inv(Stop(s))
  {
    var s' := Stop(s);
    assert Tables(s');
    forall c ensures History(s', c) { assert History(s, c); }
  }

  /** A registry that differs in its nodes, sockets or messages only. */
  predicate SameChannels(s: Registry, s': Registry) {
    s'.(nodes := s.nodes, sockets := s.sockets, sent := s.sent, notices := s.notices) == s
  }

  lemma SameChannelsKeep(s: Registry, s': Registry)
    requires Inv(s) && SameChannels(s, s')
    ensures Inv(s')
  {
    forall c ensures History(s', c) { assert History(s, c); }
  }

  lemma InvStep(s: Registry, e: Event)
    requires Inv(s)
    ensures Inv(Step(s, e))
  {
    if e.EvRelay? {
      OpenRelayKeeps(s, e);
    } else if e.EvWsOpen? {
      OpenWsKeeps(s, e);
    } else if e.EvFrame? || e.EvResponse? || e.EvWsOpenOk? {
      TrafficKeeps(s, e);
    } else if e.EvEnd? || e.EvIdle? || e.EvWsClose? || e.EvBrowserClose? {
      EndKeeps(s, e);
    } else if e.EvSocketClose? {
      if e.ws in s.sockets {
        var id := s.sockets[e.ws];
        var key := NodeKey(id.machineId, id.role);
        var s1 := Unseat(s, e.ws, key, id.role);
        SameChannelsKeep(s, s1);
        DropKeeps(s1, id.machineId);
      }
    } else if e.EvStop? {
      StopKeeps(s);
    } else {
      SameChannelsKeep(s, Step(s, e));
    }
  }

  /** Everything above holds in every reachable registry. */
  lemma {:induction false} InvRun(s: Registry, events: seq<Event>)
    requires Inv(s)
    ensures Inv(Run(s, events))
    decreases events
  {
    if events != [] {
      InvStep(s, events[0]);
      InvRun(Step(s, events[0]), events[1..]);
    }
  }

  /** The channel life cycle, in every run from start-up. */
  lemma LifecycleHolds(events: seq<Event>)
    ensures Inv(Run(BOOT, events))
  {
    forall c ensures History(BOOT, c) {}
    InvRun(BOOT, events);
  }

  /** Once a channel has left the tables nothing ever reaches its handlers again. */
  lemma {:induction false} SilentOnceGone(s: Registry, events: seq<Event>, c: int)
    requires Inv(s) && c <= s.channelSeq && c !in s.streams && c !in s.wsChannels
    ensures CallsOf(Run(s, events).calls, c) == CallsOf(s.calls, c)
    ensures c !in Run(s, events).streams && c !in Run(s, events).wsChannels
    decreases events
  {
    if events != [] {
      var e := events[0];
      InvStep(s, e);
      GoneStep(s, e, c);
      SilentOnceGone(Step(s, e), events[1..], c);
    }
  }

  /** The channel is in no table and none of its handlers has been called. */
  predicate StaysGone(s: Registry, s': Registry, c: int) {
    && CallsOf(s'.calls, c) == CallsOf(s.calls, c)
    && c <= s'.channelSeq && c !in s'.streams && c !in s'.wsChannels
  }

  lemma GoneStep(s: Registry, e: Event, c: int)
    requires Inv(s) && c <= s.channelSeq && c !in s.streams && c !in s.wsChannels
    ensures StaysGone(s, Step(s, e), c)
  {
    if e.EvSocketClose? {
      if e.ws in s.sockets { GoneDrop(s, e.ws, c); }
    } else if e.EvRelay? || e.EvWsOpen? {
      GoneOpening(s, e, c);
    } else if e.EvFrame? || e.EvResponse? || e.EvWsOpenOk? {
      GoneTraffic(s, e, c);
    } else if e.EvEnd? || e.EvIdle? || e.EvWsClose? || e.EvBrowserClose? || e.EvStop? {
      GoneEnding(s, e, c);
    } else {
      assert SameChannels(s, Step(s, e));
    }
  }

  lemma GoneOpening(s: Registry, e: Event, c: int)
    requires c <= s.channelSeq && c !in s.streams && c !in s.wsChannels
    requires e.EvRelay? || e.EvWsOpen?
    ensures StaysGone(s, Step(s, e), c)
  {
  }

  lemma GoneTraffic(s: Registry, e: Event, c: int)
    requires c <= s.channelSeq && c !in s.streams && c !in s.wsChannels
    requires e.EvFrame? || e.EvResponse? || e.EvWsOpenOk?
    ensures StaysGone(s, Step(s, e), c)
  {
    if e.EvFrame? {
      GoneFrame(s, e, c);
    } else if e.EvResponse? {
      assert StaysGone(s, OnRelayResponse(s, e.channel, e.status, e.headers), c);
    } else {
      assert StaysGone(s, OnWsOpenOk(s, e.channel), c);
    }
  }

  lemma GoneFrame(s: Registry, e: Event, c: int)
    requires c <= s.channelSeq && c !in s.streams && c !in s.wsChannels && e.EvFrame?
    ensures StaysGone(s, Step(s, e), c)
  {
    assert StaysGone(s, OnFrame(s, e.channel, e.kind, e.data), c);
  }

  lemma GoneEnding(s: Registry, e: Event, c: int)
    requires Tables(s) && c <= s.channelSeq && c !in s.streams && c !in s.wsChannels
    requires e.EvEnd? || e.EvIdle? || e.EvWsClose? || e.EvBrowserClose? || e.EvStop?
    ensures StaysGone(s, Step(s, e), c)
  {
  }

  lemma GoneDrop(s: Registry, ws: nat, c: int)
    requires Inv(s) && ws in s.sockets && c !in s.streams && c !in s.wsChannels
    ensures var s' := OnSocketClose(s, ws);
            CallsOf(s'.calls, c) == CallsOf(s.calls, c) && c !in s'.streams && c !in s'.wsChannels
  {
  }

  /** Any socket close of a machine ends all of that machine's channels, each with its one last
      call, and touches no channel of any other machine. */
  lemma SocketCloseDropsExactly(s: Registry, ws: nat, c: int)
    requires Inv(s) && ws in s.sockets
    ensures var m, s' := s.sockets[ws].machineId, OnSocketClose(s, ws);
            && OwnedBy(s'.streamsNode, m) == {} && OwnedBy(s'.wsChannelNode, m) == {}
            && (c in s.streams && s.streamsNode[c] == m ==>
                  c !in s'.streams && c !in s'.timers && CallsOf(s'.calls, c) == CallsOf(s.calls, c) + [OnError])
            && (c in s.wsChannels && s.wsChannelNode[c] == m ==>
                  c !in s'.wsChannels && CallsOf(s'.calls, c) == CallsOf(s.calls, c) + [WsOnClose(1011)])
            && (c in s.streams && s.streamsNode[c] != m ==>
                  c in s'.streams && c in s'.timers && s'.streamsNode[c] == s.streamsNode[c]
                  && CallsOf(s'.calls, c) == CallsOf(s.calls, c))
            && (c in s.wsChannels && s.wsChannelNode[c] != m ==>
                  c in s'.wsChannels && s'.wsChannelNode[c] == s.wsChannelNode[c]
                  && CallsOf(s'.calls, c) == CallsOf(s.calls, c))
  {
    var id := s.sockets[ws];
    var key := NodeKey(id.machineId, id.role);
    DropCalls(Unseat(s, ws, key, id.role), id.machineId, c);
  }
}
