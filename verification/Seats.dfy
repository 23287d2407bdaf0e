/** Sockets once onboarded stay known, and every node entry has one. */
module Seats {
  import R = RegistryModel
  import opened Untouched

  lemma StepKeepsSocket(s: R.Registry, e: R.Event, ws: nat)
    requires ws in s.sockets
    ensures ws in R.Step(s, e).sockets
  {
    if OfNodes(e) { NodesKeep(s, e); } else { OthersKeepNodes(s, e); }
  }

  lemma {:induction false} SocketsStay(s: R.Registry, events: seq<R.Event>, ws: nat)
    requires ws in s.sockets
    ensures ws in R.Run(s, events).sockets
    decreases events
  {
    if events != [] {
      StepKeepsSocket(s, events[0], ws);
      SocketsStay(R.Step(s, events[0]), events[1..], ws);
    }
  }

  predicate Seated(s: R.Registry) {
    forall k :: k in s.nodes ==> s.nodes[k].ws in s.sockets
  }

  lemma ClosingSeatsNobody(s: R.Registry, ws: nat, k: string)
    requires k in R.OnSocketClose(s, ws).nodes
    ensures k in s.nodes && R.OnSocketClose(s, ws).nodes[k] == s.nodes[k]
  {
  }

  lemma Renewed(s: R.Registry, ws: nat, now: nat)
    requires ws in s.sockets
    ensures var key := R.NodeKey(s.sockets[ws].machineId, s.sockets[ws].role);
            R.OnHeartbeat(s, ws, now).nodes
            == if key in s.nodes then s.nodes[key := s.nodes[key].(leaseExpiry := now + R.LEASE_TTL_MS)] else s.nodes
  {
  }

  lemma BeatingSeatsNobody(s: R.Registry, ws: nat, now: nat, k: string)
    requires k in R.OnHeartbeat(s, ws, now).nodes
    ensures k in s.nodes && R.OnHeartbeat(s, ws, now).nodes[k].ws == s.nodes[k].ws
  {
    if ws in s.sockets { Renewed(s, ws, now); }
  }

  lemma TableSeatsNobody(s: R.Registry, e: R.Event, k: string)
    requires e.EvExpire? || e.EvApprove? || e.EvDetach? || e.EvStop?
    requires k in R.Step(s, e).nodes
    ensures k in s.nodes && R.Step(s, e).nodes[k].ws == s.nodes[k].ws
  {
  }

  /** Only attaching seats anyone. */
  lemma NobodyNew(s: R.Registry, e: R.Event, k: string)
    requires k in R.Step(s, e).nodes && !e.EvAttached?
    ensures k in s.nodes && R.Step(s, e).nodes[k].ws == s.nodes[k].ws
  {
    if !OfNodes(e) {
      OthersKeepNodes(s, e);
    } else if e.EvSocketClose? {
      ClosingSeatsNobody(s, e.ws, k);
    } else if e.EvHeartbeat? {
      BeatingSeatsNobody(s, e.ws, e.now, k);
    } else {
      TableSeatsNobody(s, e, k);
    }
  }

  lemma StepSeated(s: R.Registry, e: R.Event)
    requires Seated(s)
    ensures Seated(R.Step(s, e))
  {
    if e.EvAttached? {
      assert Seated(R.OnAttached(s, e.ws, e.id, e.nodeApproved, e.now));
    } else {
      var s' := R.Step(s, e);
      forall k | k in s'.nodes ensures s'.nodes[k].ws in s'.sockets {
        NobodyNew(s, e, k);
        StepKeepsSocket(s, e, s.nodes[k].ws);
      }
    }
  }

  lemma {:induction false} RunSeated(s: R.Registry, events: seq<R.Event>)
    requires Seated(s)
    ensures Seated(R.Run(s, events))
    decreases events
  {
    if events != [] {
      StepSeated(s, events[0]);
      RunSeated(R.Step(s, events[0]), events[1..]);
    }
  }
}
