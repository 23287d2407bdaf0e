/** DaemonControlRegistry: every control request settles exactly once. */
module DaemonControls {
  import opened Sequences
  import opened Options
  import opened OrderedMaps
  import opened ControlModel

  class DaemonControlRegistry {
    var seqNo: nat
    var pending: OrderedMap<string>
    var timers: set<string>
    ghost var ids: seq<string>
    ghost var settled: seq<Settlement>

    ghost function State(): Control reads this {
      Control(seqNo, pending, timers, ids, settled)
    }

    ghost predicate Valid() reads this {
      Consistent(State())
    }

    constructor ()
      ensures State() == NO_REQUESTS && Valid()
    {
      seqNo, pending, timers, ids, settled := 0, [], {}, [], [];
    }

    method Size() returns (size: nat)
      requires Valid()
      ensures size == |ids| - |settled|
    {
      size := |pending|;
    }

    method Register(action: string, now: nat) returns (id: string)
      requires Valid()
      modifies this
      ensures Valid() && State() == RegisterIn(old(State()), action, now)
      ensures ids == old(ids) + [id] && id !in old(ids) && id in timers
    {
      RegisterConsistent(State(), action, now);
      ghost var c := State();
      seqNo := seqNo + 1;
      id := RequestId(seqNo, now);
      timers := timers + {id};
      pending := Put(pending, id, action);
      ids := ids + [id];
      assert State() == EnterIn(c, action, id);
    }

    method Settle(id: string, result: ControlResult) returns (found: bool)
      requires Valid()
      modifies this
      ensures Valid() && State() == ResultIn(old(State()), id, result)
      ensures found <==> HasId(old(pending), id)
    {
      LookupOf(pending, id);
      SettleConsistent(State(), id, Resolved(result));
      var entry := Lookup(pending, id);
      if entry.None? { return false; }
      pending := Remove(pending, id);
      timers := timers - {id};
      settled := settled + [Settlement(id, Resolved(result))];
      found := true;
    }

    /** The callback of a request's timer. */
    method OnTimeout(id: string)
      requires Valid() && id in timers
      modifies this
      ensures Valid() && State() == FireIn(old(State()), id)
      ensures exists action :: settled == old(settled) + [Settlement(id, TimedOut(action))]
    {
      LookupOf(pending, id);
      var entry := Lookup(pending, id);
      SettleConsistent(State(), id, TimedOut(entry.value));
      pending := Remove(pending, id);
      timers := timers - {id};
      settled := settled + [Settlement(id, TimedOut(entry.value))];
    }

    method FailAll(reason: string)
      requires Valid()
      modifies this
      ensures Valid() && State() == FailAllIn(old(State()), reason)
      ensures pending == [] && timers == {}
    {
      FailAllConsistent(State(), reason);
      var entries := pending;
      pending := [];
      var i := 0;
      ghost var before, armed := settled, timers;
      assert entries[0..] == entries;
      while i < |entries|
        invariant i <= |entries| && pending == [] && ids == old(ids) && seqNo == old(seqNo)
        invariant timers == armed - Ids(entries[..i])
        invariant settled + Failures(entries[i..], reason) == before + Failures(entries, reason)
      {
        assert entries[i..][1..] == entries[i + 1..];
        assert entries[..i + 1] == entries[..i] + [entries[i]];
        timers := timers - {entries[i].id};
        settled := settled + [Settlement(entries[i].id, Failure(reason))];
        i := i + 1;
      }
      assert entries[i..] == [] && entries[..i] == entries;
    }
  }

  // ---- what every step keeps --------------------------------------------------

  /** Ids below the counter, one each; a timer for exactly the pending ones; what was registered is
      pending or settled, in numbers. */
  ghost predicate Consistent(c: Control) {
    && Unique(c.pending)
    && (forall id :: id in c.timers <==> HasId(c.pending, id))
    && (forall id :: HasId(c.pending, id) ==> id in c.ids)
    && Numbered(c.ids, c.seqNo)
    && |c.ids| == |c.pending| + |c.settled|
  }

  /** The k-th id carries the number k + 1. */
  ghost predicate Numbered(ids: seq<string>, seqNo: nat) {
    |ids| == seqNo && forall k :: 0 <= k < |ids| ==> Carries(ids[k], k + 1)
  }

  ghost predicate Carries(id: string, n: nat) {
    exists now: nat :: id == RequestId(n, now)
  }

  lemma FreshNumber(ids: seq<string>, seqNo: nat, now: nat)
    requires Numbered(ids, seqNo)
    ensures RequestId(seqNo + 1, now) !in ids
    ensures Numbered(ids + [RequestId(seqNo + 1, now)], seqNo + 1)
  {
    var id := RequestId(seqNo + 1, now);
    if id in ids {
      var k :| 0 <= k < |ids| && ids[k] == id;
      var t: nat :| id == RequestId(k + 1, t);
      RequestIdsDiffer(k + 1, t, seqNo + 1, now);
    }
    assert Carries(id, seqNo + 1);
  }

  lemma IdsDiffer(ids: seq<string>, seqNo: nat, i: nat, j: nat)
    requires Numbered(ids, seqNo) && i < j < |ids|
    ensures ids[i] != ids[j]
  {
    var t: nat :| ids[i] == RequestId(i + 1, t);
    var u: nat :| ids[j] == RequestId(j + 1, u);
    if ids[i] == ids[j] { RequestIdsDiffer(i + 1, t, j + 1, u); }
  }

  lemma RegisterConsistent(c: Control, action: string, now: nat)
    requires Consistent(c)
    ensures Consistent(RegisterIn(c, action, now))
    ensures RequestId(c.seqNo + 1, now) !in c.ids
  {
    FreshNumber(c.ids, c.seqNo, now);
    EnterConsistent(c, action, RequestId(c.seqNo + 1, now));
  }

  lemma EnterConsistent(c: Control, action: string, id: string)
    requires Consistent(c) && id !in c.ids && Numbered(c.ids + [id], c.seqNo + 1)
    ensures Consistent(EnterIn(c, action, id))
  {
    PutOf(c.pending, id, action);
  }

  lemma SettleConsistent(c: Control, id: string, outcome: Outcome)
    requires Consistent(c)
    ensures HasId(c.pending, id) ==> Consistent(SettleIn(c, id, outcome))
  {
    RemoveOf(c.pending, id);
  }

  lemma {:induction false} FailuresOf(pending: OrderedMap<string>, reason: string)
    ensures |Failures(pending, reason)| == |pending|
  {
    if pending != [] { FailuresOf(pending[1..], reason); }
  }

  lemma {:induction false} IdsOf(pending: OrderedMap<string>, id: string)
    ensures id in Ids(pending) <==> HasId(pending, id)
  {
    if pending != [] {
      IdsOf(pending[1..], id);
      if HasId(pending[1..], id) {
        var e :| e in pending[1..] && e.id == id;
        assert e in pending;
      }
      if id in Ids(pending) {
        var e :| e in pending && e.id == id;
        MemberHasId(pending, e);
      }
    }
  }

  lemma FailAllConsistent(c: Control, reason: string)
    requires Consistent(c)
    ensures Consistent(FailAllIn(c, reason)) && FailAllIn(c, reason).timers == {}
  {
    FailuresOf(c.pending, reason);
    forall id ensures id in Ids(c.pending) <==> HasId(c.pending, id) { IdsOf(c.pending, id); }
  }

  lemma StepConsistent(c: Control, e: Event)
    requires Consistent(c)
    ensures Consistent(Step(c, e))
  {
    match e
    case Register(action, now) => RegisterConsistent(c, action, now);
    case Result(id, result) => SettleConsistent(c, id, Resolved(result));
    case Fire(id) =>
      LookupOf(c.pending, id);
      if id in c.timers { SettleConsistent(c, id, TimedOut(Lookup(c.pending, id).value)); }
    case FailAll(reason) => FailAllConsistent(c, reason);
  }

  /** Over every run: pairwise distinct ids, a timer for exactly the pending requests, and as many
      pending as were registered and not yet settled. */
  lemma {:induction false} RunConsistent(events: seq<Event>)
    ensures var c := Run(events);
            && Consistent(c)
            && (forall i, j :: 0 <= i < j < |c.ids| ==> c.ids[i] != c.ids[j])
            && |c.pending| == |c.ids| - |c.settled|
  {
    var c := Run(events);
    if events != [] {
      RunConsistent(events[..|events| - 1]);
      StepConsistent(Run(events[..|events| - 1]), events[|events| - 1]);
    }
    forall i, j | 0 <= i < j < |c.ids| ensures c.ids[i] != c.ids[j] { IdsDiffer(c.ids, c.seqNo, i, j); }
  }

  // ---- exactly once -----------------------------------------------------------

  /** What the events alone say of a request: it waits from its registration until the first of its
      result, its timer and a failure of all, and that one settles it. */
  datatype Story = NotYet | Waiting(action: string) | Done(outcome: Outcome)

  function Registrations(events: seq<Event>): nat {
    if events == [] then 0
    else Registrations(events[..|events| - 1]) + (if events[|events| - 1].Register? then 1 else 0)
  }

  function Chapter(story: Story, registered: nat, e: Event, id: string): Story {
    match story
    case NotYet => if e.Register? && id == RequestId(registered + 1, e.now) then Waiting(e.action) else NotYet
    case Waiting(action) =>
      (match e
       case Result(i, result) => if i == id then Done(Resolved(result)) else story
       case Fire(i) => if i == id then Done(TimedOut(action)) else story
       case FailAll(reason) => Done(Resolved(ControlResult(false, None, Some(reason))))
       case Register(_, _) => story)
    case Done(_) => story
  }

  function StoryOf(events: seq<Event>, id: string): Story
    decreases events
  {
    if events == [] then NotYet
    else
      var before := events[..|events| - 1];
      Chapter(StoryOf(before, id), Registrations(before), events[|events| - 1], id)
  }

  ghost predicate Tells(c: Control, story: Story, id: string) {
    match story
    case NotYet => !HasId(c.pending, id) && id !in c.ids && OutcomesOf(c.settled, id) == []
    case Waiting(action) => Lookup(c.pending, id) == Some(action) && id in c.ids && OutcomesOf(c.settled, id) == []
    case Done(outcome) => !HasId(c.pending, id) && id in c.ids && OutcomesOf(c.settled, id) == [outcome]
  }

  lemma OutcomesPush(settled: seq<Settlement>, s: Settlement, id: string)
    ensures OutcomesOf(settled + [s], id) == OutcomesOf(settled, id) + (if s.id == id then [s.outcome] else [])
  {
  }

  lemma {:induction false} OutcomesOfFailures(settled: seq<Settlement>, pending: OrderedMap<string>, reason: string, id: string)
    requires Unique(pending)
    ensures OutcomesOf(settled + Failures(pending, reason), id)
         == OutcomesOf(settled, id) + (if HasId(pending, id) then [Failure(reason)] else [])
    decreases pending
  {
    if pending == [] {
      assert settled + [] == settled;
    } else {
      var s, rest := Settlement(pending[0].id, Failure(reason)), Failures(pending[1..], reason);
      OutcomesPush(settled, s, id);
      OutcomesOfFailures(settled + [s], pending[1..], reason, id);
      Grouped(settled, [s], rest);
    }
  }

  lemma SettleTells(c: Control, settling: string, outcome: Outcome, story: Story, id: string)
    requires Consistent(c) && HasId(c.pending, settling) && Tells(c, story, id)
    ensures Tells(SettleIn(c, settling, outcome), if id == settling then Done(outcome) else story, id)
  {
    OutcomesPush(c.settled, Settlement(settling, outcome), id);
    RemoveOf(c.pending, settling);
    LookupOf(c.pending, id);
    if id != settling { LookupAfterRemove(c.pending, settling, id); }
  }

  lemma RegisterTells(c: Control, action: string, now: nat, story: Story, id: string)
    requires Consistent(c) && Tells(c, story, id)
    ensures Tells(RegisterIn(c, action, now), Chapter(story, c.seqNo, Register(action, now), id), id)
  {
    FreshNumber(c.ids, c.seqNo, now);
    EnterTells(c, action, RequestId(c.seqNo + 1, now), story, id);
  }

  lemma EnterTells(c: Control, action: string, entering: string, story: Story, id: string)
    requires Consistent(c) && Tells(c, story, id) && entering !in c.ids
    ensures Tells(EnterIn(c, action, entering), if story.NotYet? && id == entering then Waiting(action) else story, id)
  {
    LookupAfterPut(c.pending, entering, action, id);
    LookupOf(c.pending, id);
    LookupOf(EnterIn(c, action, entering).pending, id);
  }

  lemma StepTells(c: Control, e: Event, story: Story, id: string)
    requires Consistent(c) && Tells(c, story, id)
    ensures Tells(Step(c, e), Chapter(story, c.seqNo, e, id), id)
  {
    LookupOf(c.pending, id);
    match e
    case Register(action, now) => RegisterTells(c, action, now, story, id);
    case Result(i, result) =>
      if HasId(c.pending, i) { SettleTells(c, i, Resolved(result), story, id); }
    case Fire(i) =>
      LookupOf(c.pending, i);
      if i in c.timers { SettleTells(c, i, TimedOut(Lookup(c.pending, i).value), story, id); }
    case FailAll(reason) => OutcomesOfFailures(c.settled, c.pending, reason, id);
  }

  lemma {:induction false} CounterCounts(events: seq<Event>)
    ensures Run(events).seqNo == Registrations(events)
  {
    if events != [] { CounterCounts(events[..|events| - 1]); }
  }

  /** Every request is pending or settled exactly once, and by the first event that could: the
      outcome its caller gets is the one its own events name, whatever happens to other requests. */
  lemma {:induction false} SettledExactlyOnce(events: seq<Event>, id: string)
    ensures Tells(Run(events), StoryOf(events, id), id)
  {
    if events != [] {
      var before := events[..|events| - 1];
      SettledExactlyOnce(before, id);
      RunConsistent(before);
      CounterCounts(before);
      StepTells(Run(before), events[|events| - 1], StoryOf(before, id), id);
    }
  }

  /** An outcome, once given, stands. */
  lemma {:induction false} OutcomeStands(events: seq<Event>, more: seq<Event>, id: string)
    requires StoryOf(events, id).Done?
    ensures OutcomesOf(Run(events + more).settled, id) == [StoryOf(events, id).outcome]
    decreases more
  {
    StoryStands(events, more, id);
    SettledExactlyOnce(events + more, id);
  }

  lemma {:induction false} StoryStands(events: seq<Event>, more: seq<Event>, id: string)
    requires StoryOf(events, id).Done?
    ensures StoryOf(events + more, id) == StoryOf(events, id)
    decreases more
  {
    if more == [] {
      assert events + more == events;
    } else {
      var n := |more| - 1;
      assert (events + more)[..|events + more| - 1] == events + more[..n];
      StoryStands(events, more[..n], id);
    }
  }
}
