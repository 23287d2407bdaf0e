/** SessionStore, and what holds of it over every run. */
module Sessions {
  import opened Options
  import opened OrderedMaps
  import opened SessionModel

  class SessionStore {
    const limits: Limits
    var sessions: Table

    ghost predicate Valid() reads this {
      Unique(sessions)
    }

    constructor (limits: Limits)
      ensures Valid() && sessions == [] && this.limits == limits
    {
      this.limits, sessions := limits, [];
    }

    method Create(id: string, userId: string, now: int)
      requires Valid()
      modifies this
      ensures Valid() && sessions == Step(limits, old(sessions), Event(now, Op.Create(id, userId))).0
      ensures |sessions| <= limits.max
    {
      var s := Issue(limits, userId, now);
      PutOf(sessions, id, s);
      sessions := Put(sessions, id, s);
      EvictSessions(now);
    }

    method GetUser(id: string, now: int) returns (userId: Option<string>)
      requires Valid()
      modifies this
      ensures Valid() && (sessions, userId) == Step(limits, old(sessions), Event(now, Get(id)))
    {
      var s := Lookup(sessions, id);
      if s.None? { return None; }
      if Expired(limits, s.value, now) {
        Delete(id);
        return None;
      }
      RenewKeeps(sessions, id, s.value.(expiresAt := now + limits.idle));
      sessions := Put(sessions, id, s.value.(expiresAt := now + limits.idle));
      userId := Some(s.value.userId);
    }

    method BindMachine(id: string, machineId: string, now: int)
      requires Valid()
      modifies this
      ensures Valid() && sessions == Step(limits, old(sessions), Event(now, Bind(id, machineId))).0
    {
      var s := Lookup(sessions, id);
      if s.Some? {
        var bound := s.value.(machineId := Some(machineId), expiresAt := now + limits.idle);
        RenewKeeps(sessions, id, bound);
        sessions := Put(sessions, id, bound);
      }
    }

    method BoundMachine(id: string, now: int) returns (machineId: Option<string>)
      requires Valid()
      modifies this
      ensures Valid() && (sessions, machineId) == Step(limits, old(sessions), Event(now, Op.MachineOf(id)))
    {
      var s := Lookup(sessions, id);
      if s.None? { return None; }
      if Expired(limits, s.value, now) {
        Delete(id);
        return None;
      }
      machineId := s.value.machineId;
    }

    method Delete(id: string)
      requires Valid()
      modifies this
      ensures Valid() && sessions == Remove(old(sessions), id)
    {
      RemoveOf(sessions, id);
      sessions := Remove(sessions, id);
    }

    /** Goes over the table once, deleting as it goes. */
    method DeleteExpired(now: int)
      requires Valid()
      modifies this
      ensures Valid() && sessions == Unexpired(limits, old(sessions), now)
    {
      var i := 0;
      ghost var whole := sessions;
      assert sessions[..0] == [] && sessions[0..] == sessions;
      while i < |sessions|
        invariant Valid() && Sweeping(limits, whole, sessions, i, now)
        decreases |sessions| - i
      {
        SweepOne(limits, whole, sessions, i, now);
        if Expired(limits, sessions[i].value, now) {
          Delete(sessions[i].id);
        } else {
          i := i + 1;
        }
      }
      assert sessions[i..] == [] && sessions[..i] == sessions;
    }

    method EvictSessions(now: int)
      requires Valid()
      modifies this
      ensures Valid() && sessions == Evict(limits, old(sessions), now)
      ensures |sessions| <= limits.max
    {
      EvictOf(limits, sessions, now);
      if |sessions| <= limits.max { return; }
      DeleteExpired(now);
      if |sessions| > limits.max {
        var oldest := ByIssue(sessions);
        var remove := |sessions| - limits.max;
        var i := 0;
        ghost var live := sessions;
        while i < remove
          invariant i <= remove && Valid()
          invariant RemoveAll(live, oldest[..remove]) == RemoveAll(sessions, oldest[i..remove])
        {
          assert oldest[i..remove][1..] == oldest[i + 1..remove];
          Delete(oldest[i].id);
          i := i + 1;
        }
      }
    }
  }

  /** The first `i` sessions have been looked at and stay. */
  ghost predicate Sweeping(l: Limits, whole: Table, t: Table, i: nat, now: int) {
    i <= |t| && Unexpired(l, whole, now) == t[..i] + Unexpired(l, t[i..], now)
  }

  lemma SweepOne(l: Limits, whole: Table, t: Table, i: nat, now: int)
    requires Unique(t) && i < |t| && Sweeping(l, whole, t, i, now)
    ensures if Expired(l, t[i].value, now)
            then |Remove(t, t[i].id)| == |t| - 1 && Sweeping(l, whole, Remove(t, t[i].id), i, now)
            else Sweeping(l, whole, t, i + 1, now)
  {
    assert t[i..][1..] == t[i + 1..];
    RemoveAtIndex(t, i);
    var cut := t[..i] + t[i + 1..];
    assert cut[..i] == t[..i] && cut[i..] == t[i + 1..];
    if !Expired(l, t[i].value, now) {
      assert t[..i] + ([t[i]] + Unexpired(l, t[i + 1..], now)) == t[..i + 1] + Unexpired(l, t[i + 1..], now);
    }
  }

  lemma {:induction false} RemoveAtIndex(t: Table, i: nat)
    requires Unique(t) && i < |t|
    ensures Remove(t, t[i].id) == t[..i] + t[i + 1..]
  {
    if i > 0 {
      MemberHasId(t[1..], t[i]);
      RemoveAtIndex(t[1..], i - 1);
      assert t[..i] == [t[0]] + t[1..][..i - 1];
    }
  }

  // ---- every run --------------------------------------------------------------

  lemma StepUnique(l: Limits, t: Table, e: Event)
    requires Unique(t)
    ensures Unique(Step(l, t, e).0)
    ensures |t| <= l.max ==> |Step(l, t, e).0| <= l.max
  {
    match e.op
    case Create(id, userId) =>
      PutOf(t, id, Issue(l, userId, e.now));
      EvictOf(l, Put(t, id, Issue(l, userId, e.now)), e.now);
    case Get(id) =>
      RemoveKeeps(t, id);
      if Lookup(t, id).Some? { RenewKeeps(t, id, Lookup(t, id).value.(expiresAt := e.now + l.idle)); }
    case Bind(id, machineId) =>
      if Lookup(t, id).Some? {
        RenewKeeps(t, id, Lookup(t, id).value.(machineId := Some(machineId), expiresAt := e.now + l.idle));
      }
    case MachineOf(id) => RemoveKeeps(t, id);
    case Destroy(id) => RemoveKeeps(t, id);
    case Sweep => UnexpiredOf(l, t, e.now);
  }

  /** The table stays bounded, with one record an id. */
  lemma {:induction false} TableIsBounded(l: Limits, events: seq<Event>)
    ensures Unique(After(l, [], events)) && |After(l, [], events)| <= l.max
  {
    if events != [] {
      var n := |events| - 1;
      TableIsBounded(l, events[..n]);
      StepUnique(l, After(l, [], events[..n]), events[n]);
    }
  }

  /** What the events say about one id, whatever the table did with it: the last creation still in
      force, when it was last touched, and the machine bound to it since. */
  datatype Story = Untold | Told(userId: string, created: int, touched: int, machineId: Option<string>)

  function Chapter(story: Story, e: Event, id: string): Story {
    match e.op
    case Create(i, userId) => if i == id then Told(userId, e.now, e.now, None) else story
    case Destroy(i) => if i == id then Untold else story
    case Get(i) => if i == id && story.Told? then story.(touched := e.now) else story
    case Bind(i, m) => if i == id && story.Told? then story.(touched := e.now, machineId := Some(m)) else story
    case _ => story
  }

  function StoryOf(events: seq<Event>, id: string): Story
    decreases events
  {
    if events == [] then Untold
    else Chapter(StoryOf(events[..|events| - 1], id), events[|events| - 1], id)
  }

  /** The record is what the events say. */
  predicate Tells(l: Limits, story: Story, s: Session) {
    && story.Told?
    && s.userId == story.userId && s.issuedAt == story.created
    && s.expiresAt == story.touched + l.idle && s.machineId == story.machineId
  }

  ghost predicate Traced(l: Limits, events: seq<Event>, t: Table) {
    forall e :: e in t ==> Tells(l, StoryOf(events, e.id), e.value)
  }

  lemma StoryPush(events: seq<Event>, e: Event, id: string)
    ensures StoryOf(events + [e], id) == Chapter(StoryOf(events, id), e, id)
  {
  }

  /** One record is set, in step with its story, and the event concerns no other id. */
  lemma TracedPut(l: Limits, events: seq<Event>, t: Table, e: Event, id: string, s: Session)
    requires Unique(t) && Traced(l, events, t)
    requires Tells(l, StoryOf(events + [e], id), s)
    requires (e.op.Create? || e.op.Get? || e.op.Bind?) && e.op.id == id
    ensures Traced(l, events + [e], Put(t, id, s))
  {
    PutOf(t, id, s);
    forall x | x in Put(t, id, s) ensures Tells(l, StoryOf(events + [e], x.id), x.value) {
      StoryPush(events, e, x.id);
    }
  }

  /** Records may go, and no story of one that stays moves on. */
  lemma TracedPart(l: Limits, events: seq<Event>, t: Table, e: Event, part: Table)
    requires Traced(l, events, t) && (forall x :: x in part ==> x in t)
    requires forall x :: x in part ==> Chapter(StoryOf(events, x.id), e, x.id) == StoryOf(events, x.id)
    ensures Traced(l, events + [e], part)
  {
  }

  lemma TracedRemove(l: Limits, events: seq<Event>, t: Table, e: Event, id: string)
    requires Unique(t) && Traced(l, events, t)
    requires !e.op.Create? && (e.op.Sweep? || e.op.id == id)
    ensures Traced(l, events + [e], Remove(t, id))
  {
    RemoveOf(t, id);
    TracedPart(l, events, t, e, Remove(t, id));
  }

  lemma TracedAbsent(l: Limits, events: seq<Event>, t: Table, e: Event, id: string)
    requires Unique(t) && Traced(l, events, t) && Lookup(t, id).None?
    requires !e.op.Create? && !e.op.Sweep? && e.op.id == id
    ensures Traced(l, events + [e], t)
  {
  }

  lemma TracedStep(l: Limits, events: seq<Event>, t: Table, e: Event)
    requires Unique(t) && Traced(l, events, t)
    ensures Traced(l, events + [e], Step(l, t, e).0)
  {
    match e.op
    case Create(id, userId) =>
      StoryPush(events, e, id);
      PutOf(t, id, Issue(l, userId, e.now));
      TracedPut(l, events, t, e, id, Issue(l, userId, e.now));
      EvictOf(l, Put(t, id, Issue(l, userId, e.now)), e.now);
    case Get(id) =>
      LookupOf(t, id);
      StoryPush(events, e, id);
      if Lookup(t, id).None? { TracedAbsent(l, events, t, e, id); }
      else if Expired(l, Lookup(t, id).value, e.now) { TracedRemove(l, events, t, e, id); }
      else { TracedPut(l, events, t, e, id, Lookup(t, id).value.(expiresAt := e.now + l.idle)); }
    case Bind(id, machineId) =>
      LookupOf(t, id);
      StoryPush(events, e, id);
      if Lookup(t, id).None? { TracedAbsent(l, events, t, e, id); }
      else {
        var bound := Lookup(t, id).value.(machineId := Some(machineId), expiresAt := e.now + l.idle);
        TracedPut(l, events, t, e, id, bound);
      }
    case MachineOf(id) =>
      TracedRemove(l, events, t, e, id);
      TracedPart(l, events, t, e, t);
    case Destroy(id) => TracedRemove(l, events, t, e, id);
    case Sweep =>
      UnexpiredOf(l, t, e.now);
      TracedPart(l, events, t, e, Unexpired(l, t, e.now));
  }

  lemma {:induction false} AlwaysTraced(l: Limits, events: seq<Event>)
    ensures Traced(l, events, After(l, [], events))
  {
    if events != [] {
      var n := |events| - 1;
      AlwaysTraced(l, events[..n]);
      TableIsBounded(l, events[..n]);
      TracedStep(l, events[..n], After(l, [], events[..n]), events[n]);
      assert events[..n] + [events[n]] == events;
    }
  }

  predicate Reads(op: Op) { op.Get? || op.MachineOf? }

  /** However often a session is renewed, a read that answers comes no later than the absolute limit
      after the session was created and the idle limit after it was last touched, the session was not
      destroyed since, and the answer is its own user or the machine bound to it last. */
  lemma NoUseBeyondTheLimits(l: Limits, events: seq<Event>, e: Event)
    requires Reads(e.op) && Step(l, After(l, [], events), e).1.Some?
    ensures var story := StoryOf(events, e.op.id);
            && story.Told?
            && e.now <= story.created + l.absolute && e.now <= story.touched + l.idle
            && Step(l, After(l, [], events), e).1 == (if e.op.Get? then Some(story.userId) else story.machineId)
  {
    AlwaysTraced(l, events);
    LookupOf(After(l, [], events), e.op.id);
  }

  /** The instant lies within both limits of the session the events tell of. */
  predicate WithinLimits(l: Limits, story: Story, now: int) {
    story.Told? && now <= story.created + l.absolute && now <= story.touched + l.idle
  }

  /** The converse, and so the exact answer of every read in every run: a session that is in the table
      answers with its own user, or with the machine bound to it last, exactly while the instant lies
      within both limits; after that it answers nothing and is gone. */
  lemma ReadsAreAnswered(l: Limits, events: seq<Event>, e: Event)
    requires Reads(e.op)
    ensures var t, story := After(l, [], events), StoryOf(events, e.op.id);
            var (t', answer) := Step(l, t, e);
            if !HasId(t, e.op.id) then answer == None && t' == t
            else if WithinLimits(l, story, e.now) then
              answer == (if e.op.Get? then Some(story.userId) else story.machineId) && HasId(t', e.op.id)
            else story.Told? && answer == None && !HasId(t', e.op.id)
  {
    var t := After(l, [], events);
    AlwaysTraced(l, events);
    TableIsBounded(l, events);
    LookupOf(t, e.op.id);
    if Lookup(t, e.op.id).Some? {
      ReadOf(l, t, e, StoryOf(events, e.op.id), Lookup(t, e.op.id).value);
    }
  }

  lemma ReadOf(l: Limits, t: Table, e: Event, story: Story, s: Session)
    requires Unique(t) && Reads(e.op) && HasId(t, e.op.id) && Lookup(t, e.op.id) == Some(s) && Tells(l, story, s)
    ensures var (t', answer) := Step(l, t, e);
            if WithinLimits(l, story, e.now) then
              answer == (if e.op.Get? then Some(story.userId) else story.machineId) && HasId(t', e.op.id)
            else answer == None && !HasId(t', e.op.id)
  {
    if Expired(l, s, e.now) {
      RemoveOf(t, e.op.id);
    } else {
      PutOf(t, e.op.id, s.(expiresAt := e.now + l.idle));
    }
  }

  /** A sweep, in any run, leaves exactly the sessions still within both limits; and so does an eviction
      of a table that is too large, before it takes any other. */
  lemma OnlyExpiredAreSwept(l: Limits, events: seq<Event>, now: int, x: Entry<Session>)
    ensures var t := After(l, [], events);
            x in Step(l, t, Event(now, Op.Sweep)).0 <==> x in t && WithinLimits(l, StoryOf(events, x.id), now)
  {
    AlwaysTraced(l, events);
    TableIsBounded(l, events);
    UnexpiredOf(l, After(l, [], events), now);
  }

  lemma ExpiredGoFirst(l: Limits, t: Table, now: int, x: Entry<Session>)
    requires Unique(t) && |t| > l.max
    ensures x in Evict(l, t, now) ==> now <= x.value.expiresAt && now <= x.value.issuedAt + l.absolute
  {
    if x in Evict(l, t, now) {
      EvictedFromLive(l, t, now, x);
      LiveUnexpired(l, t, now, x);
    }
  }

  lemma EvictedFromLive(l: Limits, t: Table, now: int, x: Entry<Session>)
    requires Unique(t) && |t| > l.max && x in Evict(l, t, now)
    ensures x in Unexpired(l, t, now)
  {
    if |Unexpired(l, t, now)| > l.max {
      UniqueLive(l, t, now);
      KeptWereLive(l, Unexpired(l, t, now), x);
    }
  }

  lemma UniqueLive(l: Limits, t: Table, now: int)
    requires Unique(t)
    ensures Unique(Unexpired(l, t, now))
  {
    UnexpiredOf(l, t, now);
  }

  lemma {:induction false} LiveUnexpired(l: Limits, t: Table, now: int, x: Entry<Session>)
    requires x in Unexpired(l, t, now)
    ensures !Expired(l, x.value, now)
  {
    if Expired(l, t[0].value, now) || x != t[0] { LiveUnexpired(l, t[1..], now, x); }
  }

  lemma KeptWereLive(l: Limits, live: Table, x: Entry<Session>)
    requires Unique(live) && |live| > l.max
    ensures x in RemoveAll(live, ByIssue(live)[..|live| - l.max]) ==> x in live
  {
    RemoveOldest(live, |live| - l.max);
  }

  predicate StillThere(t: Table, x: Entry<Session>) {
    var s := Lookup(t, x.id);
    s.Some? && s.value.userId == x.value.userId && s.value.issuedAt == x.value.issuedAt
  }

  /** A session ends for a reason: a record neither destroyed, replaced nor expired is still there
      after a step, for the same user and issued at the same time, unless the step was a creation
      that filled the table with sessions issued no earlier. */
  lemma LostOnlyWithCause(l: Limits, t: Table, e: Event, x: Entry<Session>)
    requires Unique(t) && x in t && !Expired(l, x.value, e.now)
    requires e.op != Destroy(x.id) && !(e.op.Create? && e.op.id == x.id)
    ensures var t' := Step(l, t, e).0;
            || StillThere(t', x)
            || (e.op.Create? && FairlyEvicted(l, x, t'))
  {
    var t' := Step(l, t, e).0;
    MemberHasId(t, x);
    StepUnique(l, t, e);
    Kept(l, t, e, x);
    if y :| y in t' && Same(y, x) {
      MemberHasId(t', y);
    }
  }

  predicate Same(y: Entry<Session>, x: Entry<Session>) {
    y.id == x.id && y.value.userId == x.value.userId && y.value.issuedAt == x.value.issuedAt
  }

  lemma KeptRenewed(t: Table, x: Entry<Session>, id: string, s: Session)
    requires Unique(t) && x in t && HasId(t, id) && (id == x.id ==> Same(Entry(id, s), x))
    ensures KeptIn(Put(t, id, s), x)
  {
    PutOf(t, id, s);
    assert (if id == x.id then Entry(id, s) else x) in Put(t, id, s);
  }

  ghost predicate KeptIn(t: Table, x: Entry<Session>) {
    exists y :: y in t && Same(y, x)
  }

  lemma KeptAsIs(t: Table, x: Entry<Session>)
    requires x in t
    ensures KeptIn(t, x)
  {
  }

  lemma KeptCreate(l: Limits, t: Table, now: int, id: string, s: Session, x: Entry<Session>)
    requires Unique(t) && x in t && !Expired(l, x.value, now) && id != x.id
    ensures var t' := Evict(l, Put(t, id, s), now);
            KeptIn(t', x) || FairlyEvicted(l, x, t')
  {
    PutOf(t, id, s);
    EvictOf(l, Put(t, id, s), now);
    var t' := Evict(l, Put(t, id, s), now);
    if x in t' { KeptAsIs(t', x); }
  }

  lemma Kept(l: Limits, t: Table, e: Event, x: Entry<Session>)
    requires Unique(t) && x in t && !Expired(l, x.value, e.now)
    requires e.op != Destroy(x.id) && !(e.op.Create? && e.op.id == x.id)
    ensures var t' := Step(l, t, e).0;
            KeptIn(t', x) || (e.op.Create? && FairlyEvicted(l, x, t'))
  {
    MemberHasId(t, x);
    match e.op
    case Create(id, userId) => KeptCreate(l, t, e.now, id, Issue(l, userId, e.now), x);
    case Get(id) =>
      KeptAsIs(t, x);
      KeptRead(l, t, e.now, id, x);
      LookupOf(t, id);
      if Lookup(t, id).Some? { KeptRenewed(t, x, id, Lookup(t, id).value.(expiresAt := e.now + l.idle)); }
    case Bind(id, machineId) =>
      KeptAsIs(t, x);
      LookupOf(t, id);
      if Lookup(t, id).Some? {
        KeptRenewed(t, x, id, Lookup(t, id).value.(machineId := Some(machineId), expiresAt := e.now + l.idle));
      }
    case MachineOf(id) =>
      KeptAsIs(t, x);
      KeptRead(l, t, e.now, id, x);
    case Destroy(id) => KeptRemove(t, id, x);
    case Sweep =>
      UnexpiredOf(l, t, e.now);
      KeptAsIs(Unexpired(l, t, e.now), x);
  }

  lemma KeptRemove(t: Table, id: string, x: Entry<Session>)
    requires Unique(t) && x in t && id != x.id
    ensures KeptIn(Remove(t, id), x)
  {
    RemoveOf(t, id);
    KeptAsIs(Remove(t, id), x);
  }

  /** A read deletes only an expired session. */
  lemma KeptRead(l: Limits, t: Table, now: int, id: string, x: Entry<Session>)
    requires Unique(t) && x in t && !Expired(l, x.value, now)
    ensures Lookup(t, id).Some? && Expired(l, Lookup(t, id).value, now) ==> KeptIn(Remove(t, id), x)
  {
    MemberHasId(t, x);
    if id != x.id { KeptRemove(t, id, x); }
  }

  ghost predicate Clocked(events: seq<Event>) {
    forall i, j :: 0 <= i < j < |events| ==> events[i].now <= events[j].now
  }

  lemma {:induction false} StoryInThePast(events: seq<Event>, id: string, now: int)
    requires forall k :: 0 <= k < |events| ==> events[k].now <= now
    ensures var story := StoryOf(events, id);
            story.Told? ==> story.created <= now && story.touched <= now
  {
    if events != [] { StoryInThePast(events[..|events| - 1], id, now); }
  }

  /** After a creation under a fresh id, with a clock that does not run backwards, the new session is
      in the table and answers for its user. */
  lemma NewSessionIsThere(l: Limits, events: seq<Event>, now: int, id: string, userId: string)
    requires Clocked(events + [Event(now, Create(id, userId))])
    requires !HasId(After(l, [], events), id)
    ensures var t := After(l, [], events + [Event(now, Create(id, userId))]);
            && |t| <= l.max && Entry(id, Issue(l, userId, now)) in t
            && Step(l, t, Event(now, Get(id))).1 == Some(userId)
  {
    var e := Event(now, Create(id, userId));
    var t, entry := After(l, [], events), Entry(id, Issue(l, userId, now));
    assert (events + [e])[..|events|] == events;
    TableIsBounded(l, events);
    AlwaysTraced(l, events);
    PutOf(t, id, entry.value);
    forall k | 0 <= k < |events| ensures events[k].now <= now {
      assert (events + [e])[k] == events[k] && (events + [e])[|events|] == e;
    }
    forall x | x in t ensures x.value.issuedAt <= now { StoryInThePast(events, x.id, now); }
    NewestSurvives(l, t, entry, now);
    EvictOf(l, t + [entry], now);
    MemberHasId(Step(l, t, e).0, entry);
  }
}
