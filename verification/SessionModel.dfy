/** The session table: a Map from session id to record, in insertion order, bounded by eviction. */
module SessionModel {
  import opened Options
  import opened OrderedMaps

  datatype Session = Session(userId: string, issuedAt: int, expiresAt: int, machineId: Option<string>)
  type Table = OrderedMap<Session>

  /** SESSION_MAX and the idle and absolute time limits, all positive. */
  type Limits = l: LimitValues | l.max >= 1 && l.idle > 0 && l.absolute > 0
    witness LimitValues(10_000, 28_800_000, 86_400_000)
  datatype LimitValues = LimitValues(max: int, idle: int, absolute: int)

  // ---- the operations ---------------------------------------------------------

  predicate Expired(l: Limits, s: Session, now: int) {
    now > s.expiresAt || now > s.issuedAt + l.absolute
  }

  function Unexpired(l: Limits, t: Table, now: int): Table {
    if t == [] then []
    else (if Expired(l, t[0].value, now) then [] else [t[0]]) + Unexpired(l, t[1..], now)
  }

  function Insert(e: Entry<Session>, t: Table): (r: Table)
    ensures |r| == |t| + 1
  {
    if t == [] || e.value.issuedAt <= t[0].value.issuedAt then [e] + t else [t[0]] + Insert(e, t[1..])
  }

  /** The stable sort by time of issue. */
  function ByIssue(t: Table): (r: Table)
    ensures |r| == |t|
  {
    if t == [] then [] else Insert(t[0], ByIssue(t[1..]))
  }

  function RemoveAll(t: Table, gone: Table): Table
    decreases gone
  {
    if gone == [] then t else RemoveAll(Remove(t, gone[0].id), gone[1..])
  }

  /** Above the bound: expired ones first, then the oldest by issue. */
  function Evict(l: Limits, t: Table, now: int): Table {
    if |t| <= l.max then t
    else
      var live := Unexpired(l, t, now);
      if |live| <= l.max then live else RemoveAll(live, ByIssue(live)[..|live| - l.max])
  }

  function Issue(l: Limits, userId: string, now: int): Session {
    Session(userId, now, now + l.idle, None)
  }

  datatype Op =
    | Create(id: string, userId: string)
    | Get(id: string)
    | Bind(id: string, machineId: string)
    | MachineOf(id: string)
    | Destroy(id: string)
    | Sweep

  datatype Event = Event(now: int, op: Op)

  /** The new table, and the user or machine a read answers. */
  function Step(l: Limits, t: Table, e: Event): (Table, Option<string>) {
    match e.op
    case Create(id, userId) => (Evict(l, Put(t, id, Issue(l, userId, e.now)), e.now), None)
    case Get(id) =>
      var s := Lookup(t, id);
      if s.None? then (t, None)
      else if Expired(l, s.value, e.now) then (Remove(t, id), None)
      else (Put(t, id, s.value.(expiresAt := e.now + l.idle)), Some(s.value.userId))
    case Bind(id, machineId) =>
      var s := Lookup(t, id);
      if s.None? then (t, None)
      else (Put(t, id, s.value.(machineId := Some(machineId), expiresAt := e.now + l.idle)), None)
    case MachineOf(id) =>
      var s := Lookup(t, id);
      if s.None? then (t, None)
      else if Expired(l, s.value, e.now) then (Remove(t, id), None)
      else (t, s.value.machineId)
    case Destroy(id) => (Remove(t, id), None)
    case Sweep => (Unexpired(l, t, e.now), None)
  }

  function After(l: Limits, t: Table, events: seq<Event>): Table
    decreases events
  {
    if events == [] then t else Step(l, After(l, t, events[..|events| - 1]), events[|events| - 1]).0
  }

  // ---- the sweep --------------------------------------------------------------

  lemma {:induction false} UnexpiredOf(l: Limits, t: Table, now: int)
    requires Unique(t)
    ensures Unique(Unexpired(l, t, now)) && |Unexpired(l, t, now)| <= |t|
    ensures forall id :: HasId(Unexpired(l, t, now), id) ==> HasId(t, id)
    ensures forall e :: e in Unexpired(l, t, now) <==> e in t && !Expired(l, e.value, now)
  {
    if t != [] {
      UnexpiredOf(l, t[1..], now);
      assert ([t[0]] + Unexpired(l, t[1..], now))[1..] == Unexpired(l, t[1..], now);
      assert [] + Unexpired(l, t[1..], now) == Unexpired(l, t[1..], now);
    }
  }

  // ---- the sort ---------------------------------------------------------------

  ghost predicate InIssueOrder(t: Table) {
    forall i, j :: 0 <= i < j < |t| ==> t[i].value.issuedAt <= t[j].value.issuedAt
  }

  lemma {:induction false} InsertOf(e: Entry<Session>, t: Table)
    requires Unique(t) && !HasId(t, e.id)
    ensures Unique(Insert(e, t)) && |Insert(e, t)| == |t| + 1
    ensures forall id :: HasId(Insert(e, t), id) <==> id == e.id || HasId(t, id)
    ensures forall x :: x in Insert(e, t) <==> x == e || x in t
  {
    if t != [] && e.value.issuedAt > t[0].value.issuedAt { InsertOf(e, t[1..]); }
  }

  lemma {:induction false} InsertInOrder(e: Entry<Session>, t: Table)
    requires InIssueOrder(t)
    ensures InIssueOrder(Insert(e, t))
    ensures Insert(e, t)[0] == (if t == [] || e.value.issuedAt <= t[0].value.issuedAt then e else t[0])
  {
    if t != [] && e.value.issuedAt > t[0].value.issuedAt {
      InsertInOrder(e, t[1..]);
      var rest := Insert(e, t[1..]);
      assert forall j :: 0 <= j < |rest| ==> rest[0].value.issuedAt <= rest[j].value.issuedAt;
    }
  }

  lemma {:induction false} ByIssueOf(t: Table)
    requires Unique(t)
    ensures Unique(ByIssue(t)) && |ByIssue(t)| == |t| && InIssueOrder(ByIssue(t))
    ensures forall id :: HasId(ByIssue(t), id) <==> HasId(t, id)
    ensures forall e :: e in ByIssue(t) <==> e in t
  {
    if t != [] {
      ByIssueOf(t[1..]);
      InsertOf(t[0], ByIssue(t[1..]));
      InsertInOrder(t[0], ByIssue(t[1..]));
    }
  }

  lemma {:induction false} InsertBeforeLast(e: Entry<Session>, t: Table)
    requires t != [] && e.value.issuedAt <= t[|t| - 1].value.issuedAt
    ensures |Insert(e, t)| == |t| + 1 && Insert(e, t)[|t|] == t[|t| - 1]
  {
    if e.value.issuedAt > t[0].value.issuedAt { InsertBeforeLast(e, t[1..]); }
  }

  /** Of sessions issued at the same time the sort keeps the last added last. */
  lemma {:induction false} NewestIsLast(t: Table, e: Entry<Session>)
    requires forall x :: x in t ==> x.value.issuedAt <= e.value.issuedAt
    ensures |ByIssue(t + [e])| == |t| + 1 && ByIssue(t + [e])[|t|] == e
  {
    if t == [] {
      assert [] + [e] == [e] && [e][1..] == [];
    } else {
      assert (t + [e])[1..] == t[1..] + [e];
      NewestIsLast(t[1..], e);
      InsertBeforeLast(t[0], ByIssue(t[1..] + [e]));
    }
  }

  // ---- eviction ---------------------------------------------------------------

  lemma {:induction false} RemoveAllOf(t: Table, gone: Table)
    requires Unique(t) && Unique(gone) && (forall e :: e in gone ==> HasId(t, e.id))
    ensures Unique(RemoveAll(t, gone)) && |RemoveAll(t, gone)| == |t| - |gone|
    ensures forall e :: e in RemoveAll(t, gone) <==> e in t && !HasId(gone, e.id)
    decreases gone
  {
    if gone != [] {
      RemoveOf(t, gone[0].id);
      forall e | e in gone[1..] ensures HasId(Remove(t, gone[0].id), e.id) {
        MemberHasId(gone[1..], e);
      }
      RemoveAllOf(Remove(t, gone[0].id), gone[1..]);
    }
  }

  /** Taking out the `n` oldest leaves the others. */
  lemma RemoveOldest(t: Table, n: nat)
    requires Unique(t) && n <= |t|
    ensures var kept := RemoveAll(t, ByIssue(t)[..n]);
            && Unique(kept) && |kept| == |t| - n
            && (forall e :: e in kept <==> e in t && !HasId(ByIssue(t)[..n], e.id))
  {
    var sorted := ByIssue(t);
    ByIssueOf(t);
    assert sorted == sorted[..n] + sorted[n..];
    UniqueParts(sorted[..n], sorted[n..]);
    forall e | e in sorted[..n] ensures HasId(t, e.id) {
      assert e in sorted;
      MemberHasId(t, e);
    }
    RemoveAllOf(t, sorted[..n]);
  }

  lemma {:induction false} SortedSplit(t: Table, n: nat, e: Entry<Session>)
    requires Unique(t) && n <= |t| && e in t
    ensures HasId(ByIssue(t)[..n], e.id) <==> e in ByIssue(t)[..n]
    ensures e in ByIssue(t)[n..] <==> e !in ByIssue(t)[..n]
  {
    var sorted := ByIssue(t);
    ByIssueOf(t);
    assert sorted == sorted[..n] + sorted[n..];
    SplitMember(sorted[..n], sorted[n..], e);
  }

  /** `e` may have gone: nothing that stayed was issued before it, and the table is full. */
  ghost predicate FairlyEvicted(l: Limits, e: Entry<Session>, kept: Table) {
    |kept| == l.max && forall y :: y in kept ==> e.value.issuedAt <= y.value.issuedAt
  }

  lemma OldestGo(l: Limits, live: Table)
    requires Unique(live) && |live| > l.max
    ensures var kept := RemoveAll(live, ByIssue(live)[..|live| - l.max]);
            && Unique(kept) && |kept| == l.max
            && (forall e :: e in kept ==> e in live)
            && (forall e :: e in live && e !in kept ==> FairlyEvicted(l, e, kept))
  {
    var n := |live| - l.max;
    var kept := RemoveAll(live, ByIssue(live)[..n]);
    RemoveOldest(live, n);
    ByIssueOf(live);
    forall e, y | e in live && e !in kept && y in kept ensures e.value.issuedAt <= y.value.issuedAt {
      SortedSplit(live, n, e);
      SortedSplit(live, n, y);
      InOrderAcross(ByIssue(live), n, e, y);
    }
  }

  ghost predicate Evicted(l: Limits, t: Table, now: int, kept: Table) {
    && Unique(kept) && |kept| <= l.max
    && (forall e :: e in kept ==> e in t)
    && (forall e :: e in t && e !in kept && !Expired(l, e.value, now) ==> FairlyEvicted(l, e, kept))
  }

  lemma EvictOldest(l: Limits, t: Table, now: int)
    requires Unique(t) && |Unexpired(l, t, now)| > l.max
    ensures var live := Unexpired(l, t, now);
            Evicted(l, t, now, RemoveAll(live, ByIssue(live)[..|live| - l.max]))
  {
    UnexpiredOf(l, t, now);
    OldestGo(l, Unexpired(l, t, now));
  }

  /** After an eviction the bound holds, nothing was added, and an unexpired session that went was
      issued no later than any that stayed, of which there are then SESSION_MAX. */
  lemma EvictOf(l: Limits, t: Table, now: int)
    requires Unique(t)
    ensures Evicted(l, t, now, Evict(l, t, now))
  {
    if |t| <= l.max {
      assert Evicted(l, t, now, t);
    } else if |Unexpired(l, t, now)| <= l.max {
      EvictExpired(l, t, now);
    } else {
      EvictOldest(l, t, now);
    }
  }

  lemma EvictExpired(l: Limits, t: Table, now: int)
    requires Unique(t) && |Unexpired(l, t, now)| <= l.max
    ensures Evicted(l, t, now, Unexpired(l, t, now))
  {
    UnexpiredOf(l, t, now);
  }

  lemma InOrderAcross(t: Table, n: nat, e: Entry<Session>, y: Entry<Session>)
    requires InIssueOrder(t) && n <= |t| && e in t[..n] && y in t[n..]
    ensures e.value.issuedAt <= y.value.issuedAt
  {
  }

  lemma {:induction false} UnexpiredPush(l: Limits, t: Table, e: Entry<Session>, now: int)
    requires !Expired(l, e.value, now)
    ensures Unexpired(l, t + [e], now) == Unexpired(l, t, now) + [e]
  {
    if t == [] {
      assert [] + [e] == [e] && [e][1..] == [];
    } else {
      assert (t + [e])[1..] == t[1..] + [e];
      UnexpiredPush(l, t[1..], e, now);
    }
  }

  lemma NewestSurvives(l: Limits, t: Table, e: Entry<Session>, now: int)
    requires Unique(t + [e]) && !Expired(l, e.value, now)
    requires forall x :: x in t ==> x.value.issuedAt <= e.value.issuedAt
    ensures e in Evict(l, t + [e], now)
  {
    var whole := t + [e];
    var live := Unexpired(l, whole, now);
    UnexpiredPush(l, t, e, now);
    UniqueParts(t, [e]);
    UnexpiredOf(l, t, now);
    UnexpiredOf(l, whole, now);
    if |whole| > l.max && |live| > l.max {
      var n := |live| - l.max;
      NewestIsLast(Unexpired(l, t, now), e);
      RemoveOldest(live, n);
      assert ByIssue(live)[n..][|live| - 1 - n] == e;
      SortedSplit(live, n, e);
    }
  }
}
