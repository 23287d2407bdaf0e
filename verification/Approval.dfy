/** Who is connected and who is approved, told from the events alone; and that nothing is opened to
    anyone else. */
module Approval {
  import opened Options
  import opened Bytes
  import opened FrameCodec
  import opened Wire
  import R = RegistryModel
  import opened Untouched

  /** Whose socket it is, by its last onboarding. */
  function IdOf(events: seq<R.Event>, ws: nat): Option<R.Identity> {
    if events == [] then None
    else
      var e := events[|events| - 1];
      if e.EvAttached? && e.ws == ws then Some(e.id) else IdOf(events[..|events| - 1], ws)
  }

  /** The place of a machine in one role: free, or taken by a socket until its lease runs out. */
  datatype Seat = Vacant | Seat(ws: nat, approved: bool, expiry: int)

  function SeatOf(events: seq<R.Event>, id: R.Identity): Seat {
    if events == [] then Vacant
    else NextSeat(events[..|events| - 1], SeatOf(events[..|events| - 1], id), events[|events| - 1], id)
  }

  function NextSeat(before: seq<R.Event>, seat: Seat, e: R.Event, id: R.Identity): Seat {
    match e
    case EvAttached(ws, whose, approved, now) => if whose == id then Seat(ws, approved, now + 45_000) else seat
    case EvStop => Vacant
    case EvDetach(machineId, _) => if machineId == id.machineId then Vacant else seat
    case EvApprove(machineId) => if seat.Seat? && machineId == id.machineId then seat.(approved := true) else seat
    case EvHeartbeat(ws, now) =>
      if seat.Seat? && IdOf(before, ws) == Some(id) then seat.(expiry := now + 45_000) else seat
    case EvExpire(now) => if seat.Seat? && now > seat.expiry then Vacant else seat
    case EvSocketClose(ws) =>
      if seat.Seat? && seat.ws == ws && IdOf(before, ws) == Some(id) then Vacant else seat
    case _ => seat
  }

  /** The registry has the seat just so. */
  predicate Sits(s: R.Registry, seat: Seat, id: R.Identity) {
    var key := R.NodeKey(id.machineId, id.role);
    if seat.Vacant? then key !in s.nodes
    else key in s.nodes && s.nodes[key] == R.Node(seat.ws, id.machineId, id.role, seat.approved, seat.expiry)
  }

  predicate Knows(s: R.Registry, events: seq<R.Event>, ws: nat) {
    if IdOf(events, ws).None? then ws !in s.sockets else ws in s.sockets && s.sockets[ws] == IdOf(events, ws).value
  }

  /** Every entry stands under the key of its own machine and role. */
  predicate KeysOwn(s: R.Registry) {
    forall k :: k in s.nodes ==> k == R.NodeKey(s.nodes[k].machineId, s.nodes[k].role)
  }

  ghost predicate Told(s: R.Registry, events: seq<R.Event>) {
    KeysOwn(s) && (forall ws :: Knows(s, events, ws)) && (forall id :: Sits(s, SeatOf(events, id), id))
  }

  lemma KeysStay(s: R.Registry, e: R.Event)
    requires KeysOwn(s)
    ensures KeysOwn(R.Step(s, e))
  {
    if !OfNodes(e) { OthersKeepNodes(s, e); }
  }

  lemma KnowsStep(s: R.Registry, events: seq<R.Event>, e: R.Event, ws: nat)
    requires Knows(s, events, ws)
    ensures Knows(R.Step(s, e), events + [e], ws)
  {
    assert (events + [e])[..|events|] == events;
    if !OfNodes(e) { OthersKeepNodes(s, e); }
  }

  lemma SitsStep(s: R.Registry, events: seq<R.Event>, e: R.Event, id: R.Identity)
    requires Told(s, events)
    ensures Sits(R.Step(s, e), SeatOf(events + [e], id), id)
  {
    assert (events + [e])[..|events|] == events;
    assert Sits(s, SeatOf(events, id), id);
    if e.EvAttached? {
      R.NodeKeyInjective(e.id.machineId, e.id.role, id.machineId, id.role);
      assert Sits(R.OnAttached(s, e.ws, e.id, e.nodeApproved, e.now), NextSeat(events, SeatOf(events, id), e, id), id);
    } else if e.EvHeartbeat? {
      HeartbeatSits(s, events, e, id);
    } else if e.EvSocketClose? {
      SocketCloseSits(s, events, e, id);
    } else if OfNodes(e) {
      TableSits(s, events, e, id);
    } else {
      OthersKeepNodes(s, e);
    }
  }

  lemma HeartbeatSits(s: R.Registry, events: seq<R.Event>, e: R.Event, id: R.Identity)
    requires Told(s, events) && Sits(s, SeatOf(events, id), id) && e.EvHeartbeat?
    ensures Sits(R.OnHeartbeat(s, e.ws, e.now), NextSeat(events, SeatOf(events, id), e, id), id)
  {
    OfSocket(s, events, e.ws, id);
  }

  lemma SocketCloseSits(s: R.Registry, events: seq<R.Event>, e: R.Event, id: R.Identity)
    requires Told(s, events) && Sits(s, SeatOf(events, id), id) && e.EvSocketClose?
    ensures Sits(R.OnSocketClose(s, e.ws), NextSeat(events, SeatOf(events, id), e, id), id)
  {
    OfSocket(s, events, e.ws, id);
    if e.ws in s.sockets {
      var own := s.sockets[e.ws];
      assert R.OnSocketClose(s, e.ws).nodes
          == R.Unseat(s, e.ws, R.NodeKey(own.machineId, own.role), own.role).nodes;
    }
  }

  lemma TableSits(s: R.Registry, events: seq<R.Event>, e: R.Event, id: R.Identity)
    requires Sits(s, SeatOf(events, id), id) && (e.EvExpire? || e.EvApprove? || e.EvDetach? || e.EvStop?)
    ensures Sits(R.Step(s, e), NextSeat(events, SeatOf(events, id), e, id), id)
  {
  }

  lemma OfSocket(s: R.Registry, events: seq<R.Event>, ws: nat, id: R.Identity)
    requires Told(s, events)
    ensures IdOf(events, ws) == Some(id)
       <==> ws in s.sockets
            && R.NodeKey(s.sockets[ws].machineId, s.sockets[ws].role) == R.NodeKey(id.machineId, id.role)
  {
    assert Knows(s, events, ws);
    if ws in s.sockets {
      R.NodeKeyInjective(s.sockets[ws].machineId, s.sockets[ws].role, id.machineId, id.role);
    }
  }

  lemma ToldStep(s: R.Registry, events: seq<R.Event>, e: R.Event)
    requires Told(s, events)
    ensures Told(R.Step(s, e), events + [e])
  {
    KeysStay(s, e);
    forall ws ensures Knows(R.Step(s, e), events + [e], ws) { KnowsStep(s, events, e, ws); }
    forall id ensures Sits(R.Step(s, e), SeatOf(events + [e], id), id) { SitsStep(s, events, e, id); }
  }

  lemma {:induction false} ToldRun(s: R.Registry, before: seq<R.Event>, events: seq<R.Event>)
    requires Told(s, before)
    ensures Told(R.Run(s, events), before + events)
    decreases events
  {
    if events == [] {
      assert before + [] == before;
    } else {
      ToldStep(s, before, events[0]);
      ToldRun(R.Step(s, events[0]), before + [events[0]], events[1..]);
      assert before + [events[0]] + events[1..] == before + events;
    }
  }

  /** In every run the registry has an entry for a machine in a role exactly if the events leave one,
      held by that socket, approved or not, and with that lease. */
  lemma SeatsAreTold(events: seq<R.Event>, id: R.Identity)
    ensures Sits(R.Run(R.BOOT, events), SeatOf(events, id), id)
  {
    ToldRun(R.BOOT, [], events);
    assert [] + events == events;
  }

  /** Only this socket is sent anything. */
  ghost predicate SentOnlyTo(s: R.Registry, s': R.Registry, ws: nat) {
    forall other :: other != ws ==> R.SentTo(s'.sent, other) == R.SentTo(s.sent, other)
  }

  /** In every run a relay to a machine is opened if and only if the machine has a console that is
      connected and approved, and is sent to that console's socket and no other; without a console or
      without an approval it is refused, each with its own reason, and nothing is sent. */
  lemma RelayedIffApproved(events: seq<R.Event>, machineId: string, request: Request, body: seq<byte>)
    ensures var s, seat := R.Run(R.BOOT, events), SeatOf(events, R.Identity(machineId, R.Console));
            var (s', opening) := R.RelayStream(s, machineId, request, body);
            && (seat.Vacant? ==> opening == R.Refused("node not connected") && s' == s)
            && (seat.Seat? && !seat.approved ==> opening == R.Refused("node not approved") && s' == s)
            && (seat.Seat? && seat.approved ==>
                  && (if |body| < U32 then opening == R.Opened(s.channelSeq + 1) else opening == R.Threw)
                  && SentOnlyTo(s, s', seat.ws))
  {
    SeatsAreTold(events, R.Identity(machineId, R.Console));
  }

  /** The same for a browser's WebSocket. */
  lemma TunnelledIffApproved(events: seq<R.Event>, machineId: string, path: string, headers: map<string, string>)
    ensures var s, seat := R.Run(R.BOOT, events), SeatOf(events, R.Identity(machineId, R.Console));
            var (s', opening) := R.RelayWsOpenStep(s, machineId, path, headers);
            if seat.Seat? && seat.approved then opening == R.Opened(s.channelSeq + 1) && SentOnlyTo(s, s', seat.ws)
            else opening == R.Threw && s' == s
  {
    SeatsAreTold(events, R.Identity(machineId, R.Console));
  }

  // ---- who is told ------------------------------------------------------------

  /** Some seat of the table is held by the socket, and the event takes it away or changes it. */
  ghost predicate Closed(events: seq<R.Event>, e: R.Event, id: R.Identity, code: int) {
    && SeatOf(events, id).Seat?
    && match e
       case EvExpire(now) => now > SeatOf(events, id).expiry && code == 4005
       case EvDetach(machineId, deleted) => machineId == id.machineId && code == if deleted then 4000 else 4003
       case EvStop => code == 4000
       case _ => false
  }

  predicate HoldsSeat(events: seq<R.Event>, id: R.Identity, ws: nat) {
    SeatOf(events, id).Seat? && SeatOf(events, id).ws == ws
  }

  /** A heartbeat of an onboarded socket is answered: with a lease, or with a close if its seat is free. */
  predicate Answered(events: seq<R.Event>, e: R.Event, ws: nat, seated: bool) {
    e.EvHeartbeat? && e.ws == ws && IdOf(events, ws).Some? && SeatOf(events, IdOf(events, ws).value).Seat? == seated
  }

  predicate Failing(events: seq<R.Event>, e: R.Event, reason: string) {
    match e
    case EvDetach(_, deleted) => reason == if deleted then "machine deleted" else "machine revoked"
    case EvSocketClose(ws) =>
      IdOf(events, ws).Some? && IdOf(events, ws).value.role.Supervisor? && reason == "supervisor disconnected"
    case EvStop => reason == "gateway shutting down"
    case _ => false
  }

  /** The event, after the others, is a reason for the notice. */
  ghost predicate Warranted(events: seq<R.Event>, e: R.Event, n: R.Notice) {
    match n
    case SocketClosed(ws, code) =>
      || (code == 4004 && Answered(events, e, ws, false))
      || exists id :: Closed(events, e, id, code) && SeatOf(events, id).ws == ws
    case LeaseGranted(ws, now) => Answered(events, e, ws, true) && e.now == now
    case ApprovalSent(ws) =>
      e.EvApprove? && exists role :: HoldsSeat(events, R.Identity(e.machineId, role), ws)
    case ControlsFailed(reason) => Failing(events, e, reason)
  }

  lemma EntrySits(s: R.Registry, events: seq<R.Event>, k: string)
    requires Told(s, events) && k in s.nodes
    ensures var n := s.nodes[k];
            SeatOf(events, R.Identity(n.machineId, n.role)) == Seat(n.ws, n.approved, n.leaseExpiry)
  {
    assert Sits(s, SeatOf(events, R.Identity(s.nodes[k].machineId, s.nodes[k].role)),
                R.Identity(s.nodes[k].machineId, s.nodes[k].role));
  }

  lemma ClosesWarranted(s: R.Registry, events: seq<R.Event>, e: R.Event, keys: set<string>, ws: nat, code: int)
    requires Told(s, events) && (e.EvExpire? || e.EvDetach? || e.EvStop?)
    requires keys == if e.EvExpire? then R.RunOut(s.nodes, e.now)
                     else if e.EvDetach? then R.EntriesOf(s.nodes, e.machineId) else s.nodes.Keys
    requires code == if e.EvExpire? then 4005 else if e.EvDetach? && !e.deleted then 4003 else 4000
    ensures R.SocketClosed(ws, code) in R.ClosedWith(s.nodes, keys, code)
       <==> Warranted(events, e, R.SocketClosed(ws, code))
  {
    if R.SocketClosed(ws, code) in R.ClosedWith(s.nodes, keys, code) {
      var k :| k in keys && k in s.nodes && R.SocketClosed(s.nodes[k].ws, code) == R.SocketClosed(ws, code);
      EntrySits(s, events, k);
      assert Closed(events, e, R.Identity(s.nodes[k].machineId, s.nodes[k].role), code);
    }
    if Warranted(events, e, R.SocketClosed(ws, code)) {
      var id :| Closed(events, e, id, code) && SeatOf(events, id).ws == ws;
      assert Sits(s, SeatOf(events, id), id);
      assert R.NodeKey(id.machineId, id.role) in keys;
    }
  }

  lemma ApprovalsWarranted(s: R.Registry, events: seq<R.Event>, e: R.Event, ws: nat)
    requires Told(s, events) && e.EvApprove?
    ensures R.ApprovalSent(ws) in R.ToldApproved(s.nodes, R.EntriesOf(s.nodes, e.machineId))
       <==> Warranted(events, e, R.ApprovalSent(ws))
  {
    var keys := R.EntriesOf(s.nodes, e.machineId);
    if R.ApprovalSent(ws) in R.ToldApproved(s.nodes, keys) {
      var k :| k in keys && k in s.nodes && R.ApprovalSent(s.nodes[k].ws) == R.ApprovalSent(ws);
      EntrySits(s, events, k);
      assert HoldsSeat(events, R.Identity(e.machineId, s.nodes[k].role), ws);
    }
    if Warranted(events, e, R.ApprovalSent(ws)) {
      var role :| HoldsSeat(events, R.Identity(e.machineId, role), ws);
      var id := R.Identity(e.machineId, role);
      assert Sits(s, SeatOf(events, id), id);
      assert R.NodeKey(id.machineId, id.role) in keys;
    }
  }

  lemma HeartbeatWarranted(s: R.Registry, events: seq<R.Event>, e: R.Event, n: R.Notice)
    requires Told(s, events) && e.EvHeartbeat?
    ensures n in R.Step(s, e).notices <==> n in s.notices || Warranted(events, e, n)
  {
    assert Knows(s, events, e.ws);
    if e.ws in s.sockets { assert Sits(s, SeatOf(events, s.sockets[e.ws]), s.sockets[e.ws]); }
  }

  lemma CloseWarranted(s: R.Registry, events: seq<R.Event>, e: R.Event, n: R.Notice)
    requires Told(s, events) && e.EvSocketClose?
    ensures n in R.Step(s, e).notices <==> n in s.notices || Warranted(events, e, n)
  {
    assert Knows(s, events, e.ws);
  }

  lemma ApproveWarranted(s: R.Registry, events: seq<R.Event>, e: R.Event, n: R.Notice)
    requires Told(s, events) && e.EvApprove?
    ensures n in R.Step(s, e).notices <==> n in s.notices || Warranted(events, e, n)
  {
    if n.ApprovalSent? { ApprovalsWarranted(s, events, e, n.ws); }
  }

  lemma TableWarranted(s: R.Registry, events: seq<R.Event>, e: R.Event, n: R.Notice)
    requires Told(s, events) && (e.EvExpire? || e.EvDetach? || e.EvStop?)
    ensures n in R.Step(s, e).notices <==> n in s.notices || Warranted(events, e, n)
  {
    var code := if e.EvExpire? then 4005 else if e.EvDetach? && !e.deleted then 4003 else 4000;
    var keys := if e.EvExpire? then R.RunOut(s.nodes, e.now)
                else if e.EvDetach? then R.EntriesOf(s.nodes, e.machineId) else s.nodes.Keys;
    TableNotices(s, events, e, n, keys, code);
    if n.SocketClosed? && n.code == code { ClosesWarranted(s, events, e, keys, n.ws, code); }
  }

  lemma TableNotices(s: R.Registry, events: seq<R.Event>, e: R.Event, n: R.Notice, keys: set<string>, code: int)
    requires e.EvExpire? || e.EvDetach? || e.EvStop?
    requires keys == if e.EvExpire? then R.RunOut(s.nodes, e.now)
                     else if e.EvDetach? then R.EntriesOf(s.nodes, e.machineId) else s.nodes.Keys
    requires code == if e.EvExpire? then 4005 else if e.EvDetach? && !e.deleted then 4003 else 4000
    ensures n in R.Step(s, e).notices
       <==> n in s.notices || n in R.ClosedWith(s.nodes, keys, code) || (n.ControlsFailed? && Warranted(events, e, n))
    ensures n in R.ClosedWith(s.nodes, keys, code) ==> n.SocketClosed? && n.code == code
  {
  }

  lemma NothingElseTold(s: R.Registry, e: R.Event)
    requires !OfNodes(e) || e.EvAttached?
    ensures R.Step(s, e).notices == s.notices
  {
    if !OfNodes(e) { OthersKeepNodes(s, e); }
  }

  /** In every run each socket, and each waiting request of a supervisor, is told exactly what the
      events are a reason for: closes with the code of their cause, leases, approvals, failures. */
  lemma ToldExactly(events: seq<R.Event>, e: R.Event, n: R.Notice)
    ensures n in R.Step(R.Run(R.BOOT, events), e).notices
       <==> n in R.Run(R.BOOT, events).notices || Warranted(events, e, n)
  {
    var s := R.Run(R.BOOT, events);
    ToldRun(R.BOOT, [], events);
    assert [] + events == events;
    if e.EvHeartbeat? {
      HeartbeatWarranted(s, events, e, n);
    } else if e.EvSocketClose? {
      CloseWarranted(s, events, e, n);
    } else if e.EvApprove? {
      ApproveWarranted(s, events, e, n);
    } else if OfNodes(e) && !e.EvAttached? {
      TableWarranted(s, events, e, n);
    } else {
      NothingElseTold(s, e);
    }
  }
}
