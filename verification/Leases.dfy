/** Node leases: an entry that keeps beating is never expired, a silent one is gone in time,
    and a superseded socket cannot take its replacement's entry with it. */
module Leases {
  import opened RegistryModel

  /** The instant of an event the clock matters to. */
  predicate Timed(e: Event) {
    e.EvAttached? || e.EvHeartbeat? || e.EvExpire?
  }

  predicate Clock(from: int, events: seq<Event>)
    decreases events
  {
    events == [] || (if Timed(events[0]) then from <= events[0].now && Clock(events[0].now, events[1..])
                     else Clock(from, events[1..]))
  }

  function ClockAfter(from: int, events: seq<Event>): int
    decreases events
  {
    if events == [] then from
    else ClockAfter(if Timed(events[0]) then events[0].now else from, events[1..])
  }

  /** The event is a sign of life of the entry at `key`: its attachment, or a heartbeat of a
      socket with that identity. */
  predicate Beat(s: Registry, e: Event, key: string) {
    || (e.EvAttached? && NodeKey(e.id.machineId, e.id.role) == key)
    || (e.EvHeartbeat? && e.ws in s.sockets && key in s.nodes
        && NodeKey(s.sockets[e.ws].machineId, s.sockets[e.ws].role) == key)
  }

  /** The last sign of life in a run, `last` if there is none. */
  function LastBeat(s: Registry, events: seq<Event>, key: string, last: int): int
    decreases events
  {
    if events == [] then last
    else LastBeat(Step(s, events[0]), events[1..], key, if Beat(s, events[0], key) then events[0].now else last)
  }

  /** A lease always runs from the last sign of life. */
  predicate LeaseFrom(s: Registry, key: string, last: int) {
    key in s.nodes ==> s.nodes[key].leaseExpiry == last + LEASE_TTL_MS
  }

  lemma LeaseStep(s: Registry, e: Event, key: string, last: int)
    requires LeaseFrom(s, key, last)
    ensures LeaseFrom(Step(s, e), key, if Beat(s, e, key) then e.now else last)
    ensures key in Step(s, e).nodes ==> key in s.nodes || Beat(s, e, key)
  {
  }

  lemma {:induction false} LeaseRun(s: Registry, events: seq<Event>, key: string, last: int)
    requires LeaseFrom(s, key, last)
    ensures LeaseFrom(Run(s, events), key, LastBeat(s, events, key, last))
    decreases events
  {
    if events != [] {
      var e := events[0];
      LeaseStep(s, e, key, last);
      LeaseRun(Step(s, e), events[1..], key, if Beat(s, e, key) then e.now else last);
    }
  }

  /** After any run, an expiry tick removes an entry exactly when it has been silent for longer than the lease. */
  lemma ExpiryIsSilence(events: seq<Event>, key: string, now: nat)
    requires key in Run(BOOT, events).nodes
    ensures key !in Step(Run(BOOT, events), EvExpire(now)).nodes
       <==> now > LastBeat(BOOT, events, key, 0) + LEASE_TTL_MS
  {
    LeaseRun(BOOT, events, key, 0);
  }

  /** Signs of life at most one lease apart, the last one no further from the end of the run. */
  predicate BeatsClose(s: Registry, events: seq<Event>, key: string, last: int, end: int)
    decreases events
  {
    if events == [] then end <= last + LEASE_TTL_MS
    else if Beat(s, events[0], key) then
      events[0].now <= last + LEASE_TTL_MS && BeatsClose(Step(s, events[0]), events[1..], key, events[0].now, end)
    else BeatsClose(Step(s, events[0]), events[1..], key, last, end)
  }

  /** No expiry tick of the run removes the entry. */
  predicate NeverExpired(s: Registry, events: seq<Event>, key: string)
    decreases events
  {
    events == [] || (
      && (events[0].EvExpire? && key in s.nodes ==> key in Step(s, events[0]).nodes)
      && NeverExpired(Step(s, events[0]), events[1..], key))
  }

  lemma {:induction false} BeatsCloseBound(s: Registry, events: seq<Event>, key: string, last: int, from: int, end: int)
    requires Clock(from, events) && BeatsClose(s, events, key, last, end) && ClockAfter(from, events) <= end
    ensures from <= last + LEASE_TTL_MS
    decreases events
  {
    if events != [] && !Beat(s, events[0], key) {
      BeatsCloseBound(Step(s, events[0]), events[1..], key, last,
                      if Timed(events[0]) then events[0].now else from, end);
    }
  }

  /** Beating at most one lease apart is enough to stay. */
  lemma {:induction false} BeatingIsNeverExpired(
    s: Registry, events: seq<Event>, key: string, last: int, from: int, end: int)
    requires LeaseFrom(s, key, last)
    requires Clock(from, events) && BeatsClose(s, events, key, last, end) && ClockAfter(from, events) <= end
    ensures NeverExpired(s, events, key)
    decreases events
  {
    if events != [] {
      var e := events[0];
      var last', from' := if Beat(s, e, key) then e.now else last, if Timed(e) then e.now else from;
      LeaseStep(s, e, key, last);
      if e.EvExpire? {
        BeatsCloseBound(Step(s, e), events[1..], key, last, e.now, end);
      }
      BeatingIsNeverExpired(Step(s, e), events[1..], key, last', from', end);
    }
  }

  predicate Silent(s: Registry, events: seq<Event>, key: string)
    decreases events
  {
    events == [] || (!Beat(s, events[0], key) && Silent(Step(s, events[0]), events[1..], key))
  }

  /** The last expiry tick of the run, `last` if there is none. */
  function LastTick(last: int, events: seq<Event>): int
    decreases events
  {
    if events == [] then last
    else LastTick(if events[0].EvExpire? then events[0].now else last, events[1..])
  }

  lemma {:induction false} SilentIsGone(s: Registry, events: seq<Event>, key: string, last: int, tick: int)
    requires LeaseFrom(s, key, last) && Silent(s, events, key)
    requires key in s.nodes ==> tick <= last + LEASE_TTL_MS
    requires LastTick(tick, events) > last + LEASE_TTL_MS
    ensures key !in Run(s, events).nodes
    decreases events
  {
    if events != [] {
      var e := events[0];
      LeaseStep(s, e, key, last);
      var tick' := if e.EvExpire? then e.now else tick;
      if e.EvExpire? && e.now > last + LEASE_TTL_MS {
        StaysGone(Step(s, e), events[1..], key);
      } else {
        SilentIsGone(Step(s, e), events[1..], key, last, tick');
      }
    } else {
      assert key !in s.nodes;
    }
  }

  lemma {:induction false} StaysGone(s: Registry, events: seq<Event>, key: string)
    requires key !in s.nodes && Silent(s, events, key)
    ensures key !in Run(s, events).nodes
    decreases events
  {
    if events != [] {
      LeaseStep(s, events[0], key, 0);
      StaysGone(Step(s, events[0]), events[1..], key);
    }
  }

  /** An entry whose last sign of life was at `last`, with expiry ticks at most one interval apart, is
      gone one lease and one interval later: at that instant if the latest tick is more recent than a
      whole interval, and at any later one. */
  lemma GoneInTime(s: Registry, events: seq<Event>, key: string, last: int, tick: int, end: int)
    requires LeaseFrom(s, key, last) && Silent(s, events, key)
    requires tick <= last && end - LastTick(tick, events) <= HEARTBEAT_INTERVAL_MS
    requires var due := last + LEASE_TTL_MS + HEARTBEAT_INTERVAL_MS;
             end > due || (end == due && end - LastTick(tick, events) < HEARTBEAT_INTERVAL_MS)
    ensures key !in Run(s, events).nodes
  {
    SilentIsGone(s, events, key, last, tick);
  }

  /** Closing a socket evicts an entry exactly when the entry is still that socket's own. */
  lemma SupersededCloseIsHarmless(s: Registry, ws: nat, key: string)
    requires ws in s.sockets && key in s.nodes
    requires key == NodeKey(s.sockets[ws].machineId, s.sockets[ws].role)
    ensures key in OnSocketClose(s, ws).nodes <==> s.nodes[key].ws != ws
    ensures OnSocketClose(s, ws).nodes == if s.nodes[key].ws == ws then s.nodes - {key} else s.nodes
  {
  }
}
