/** Account lockouts: how long a lock lasts, and that it holds to its last millisecond. */
module Lockout {
  import opened ThrottleModel
  import opened ThrottleRestart
  import opened LoginDesk

  // ---- how long a lock lasts --------------------------------------------------

  predicate IsLocked(t: Throttle, account: string, now: int) {
    account in t.mem.accounts && t.mem.accounts[account].lockUntil > now
  }

  /** The event is a check that puts a new lock on the account. */
  predicate SetsLock(cfg: Config, t: Throttle, e: Event, account: string) {
    && e.op.CheckOp? && e.op.account == account && !IsLocked(t, account, e.now)
    && var answer := Step(cfg, t, e).1.value; answer.Refused? && answer.reason == ByAccount
  }

  /** The locks put on the account over a run, counted since its entry last vanished. */
  function EarlierLocks(cfg: Config, events: seq<Event>, account: string): nat {
    if events == [] || account !in After(cfg, FRESH, events).mem.accounts then 0
    else
      var before := events[..|events| - 1];
      EarlierLocks(cfg, before, account)
      + if SetsLock(cfg, After(cfg, FRESH, before), events[|events| - 1], account) then 1 else 0
  }

  lemma AfterLast(cfg: Config, t: Throttle, events: seq<Event>)
    requires events != []
    ensures var before := events[..|events| - 1];
            After(cfg, t, events) == Step(cfg, After(cfg, t, before), events[|events| - 1]).0
  {
    var before, e := events[..|events| - 1], events[|events| - 1];
    assert events == before + [e];
    AfterConcat(cfg, t, before, [e]);
    assert After(cfg, After(cfg, t, before), [e]) == Step(cfg, After(cfg, t, before), e).0;
  }

  lemma OrderedLast(from: int, events: seq<Event>)
    requires events != [] && Ordered(from, events)
    ensures var before := events[..|events| - 1];
            Ordered(from, before) && Latest(from, before) <= events[|events| - 1].now
  {
    var before, e := events[..|events| - 1], events[|events| - 1];
    assert events == before + [e];
    OrderedConcat(from, before, [e]);
  }

  /** An entry that survives an event keeps its lock count, or gains one with a new lock. */
  lemma LockCountStep(cfg: Config, t: Throttle, e: Event, account: string)
    requires Synced(cfg, t, e.now) && account in Step(cfg, t, e).0.mem.accounts
    ensures Step(cfg, t, e).0.mem.accounts[account].lockCount
         == AccountOf(t.mem, account).lockCount + if SetsLock(cfg, t, e, account) then 1 else 0
    ensures SetsLock(cfg, t, e, account) ==>
              Step(cfg, t, e).0.mem.accounts[account]
              == Account([], e.now + Backoff(cfg, AccountOf(t.mem, account).lockCount),
                         AccountOf(t.mem, account).lockCount + 1)
  {
    if e.op.RestartOp? {
      assert SameAccount(cfg, t.mem.accounts[account], t.sink.value.accounts[account], e.now);
    }
  }

  /** The stored counter is the history: earlier locks since the entry was last deleted. */
  lemma {:induction false} LockCountIsHistory(cfg: Config, start: int, events: seq<Event>, account: string)
    requires Ordered(start, events)
    ensures AccountOf(After(cfg, FRESH, events).mem, account).lockCount == EarlierLocks(cfg, events, account)
    decreases |events|
  {
    if events != [] {
      var before, e := events[..|events| - 1], events[|events| - 1];
      AfterLast(cfg, FRESH, events);
      OrderedLast(start, events);
      LockCountIsHistory(cfg, start, before, account);
      if account in After(cfg, FRESH, events).mem.accounts {
        RunSynced(cfg, FRESH, start, before);
        var t := After(cfg, FRESH, before);
        AgreeLater(cfg, t.mem, t.sink.value, Latest(start, before), e.now);
        LockCountStep(cfg, t, e, account);
      }
    }
  }

  /** A lock set at an instant lasts the back-off of the locks before it, through any restarts. */
  lemma LockLastsBackoff(cfg: Config, start: int, history: seq<Event>, e: Event, account: string)
    requires Ordered(start, history) && Latest(start, history) <= e.now
    requires SetsLock(cfg, After(cfg, FRESH, history), e, account)
    ensures var n, steps := EarlierLocks(cfg, history, account), cfg.backoffMs;
            Step(cfg, After(cfg, FRESH, history), e).0.mem.accounts[account].lockUntil
            == e.now + if n < |steps| then steps[n] else steps[|steps| - 1]
  {
    LockCountIsHistory(cfg, start, history, account);
    RunSynced(cfg, FRESH, start, history);
    var t := After(cfg, FRESH, history);
    AgreeLater(cfg, t.mem, t.sink.value, Latest(start, history), e.now);
    LockCountStep(cfg, t, e, account);
  }

  // ---- the lock holds ---------------------------------------------------------

  /** Locked until `until`, with nothing counted against the account and none of its logins in flight. */
  ghost predicate Locked(cfg: Config, d: Desk, now: int, account: string, until: int) {
    && Synced(cfg, d.t, now)
    && account in d.t.mem.accounts
    && d.t.mem.accounts[account].lockUntil == until
    && Live(d.t.mem.accounts[account].fails, cfg.accountWindowMs, now) == []
    && forall i :: 0 <= i < |d.open| ==> d.open[i].account != account
  }

  /** Every check of the account in the run is refused. */
  predicate AllRefused(cfg: Config, d: Desk, events: seq<DeskEvent>, account: string)
    decreases events
  {
    events == [] || (
      && (events[0].act.Begin? && events[0].act.login.account == account ==>
            Verdict(cfg, d, events[0]).value.Refused?)
      && AllRefused(cfg, DeskStep(cfg, d, events[0]), events[1..], account))
  }

  /** A locked entry outlives every operation but its own success, and refuses its own checks. */
  lemma LockedEntryAfter(cfg: Config, t: Throttle, e: Event, account: string)
    requires Synced(cfg, t, e.now) && IsLocked(t, account, e.now)
    requires Live(t.mem.accounts[account].fails, cfg.accountWindowMs, e.now) == []
    requires !(e.op.SuccessOp? && e.op.okAccount == account)
    requires !(e.op.FailureOp? && e.op.failAccount == account)
    ensures var mem := Step(cfg, t, e).0.mem;
            && account in mem.accounts
            && mem.accounts[account].lockUntil == t.mem.accounts[account].lockUntil
            && Live(mem.accounts[account].fails, cfg.accountWindowMs, e.now) == []
    ensures e.op.CheckOp? && e.op.account == account ==> Step(cfg, t, e).1.value.Refused?
  {
    if e.op.PruneOp? {
      LiveLater(t.mem.accounts[account].fails, cfg.accountWindowMs, e.now, e.now);
    } else if e.op.RestartOp? {
      assert SameAccount(cfg, t.mem.accounts[account], t.sink.value.accounts[account], e.now);
      LiveLater(t.sink.value.accounts[account].fails, cfg.accountWindowMs, e.now, e.now);
    }
  }

  /** A lock that was not there before is set by a check of that account, with a clean slate. */
  lemma NewLock(cfg: Config, t: Throttle, e: Event, account: string)
    requires Synced(cfg, t, e.now)
    requires !IsLocked(t, account, e.now) && IsLocked(Step(cfg, t, e).0, account, e.now)
    ensures SetsLock(cfg, t, e, account)
    ensures Step(cfg, t, e).0.mem.accounts[account].fails == []
  {
  }

  lemma LockedLater(cfg: Config, d: Desk, now: int, later: int, account: string, until: int)
    requires Locked(cfg, d, now, account, until) && now <= later
    ensures Locked(cfg, d, later, account, until)
  {
    AgreeLater(cfg, d.t.mem, d.t.sink.value, now, later);
    LiveLater(d.t.mem.accounts[account].fails, cfg.accountWindowMs, now, later);
  }

  lemma LockedStep(cfg: Config, d: Desk, now: int, e: DeskEvent, account: string, until: int)
    requires Locked(cfg, d, now, account, until) && now <= e.now < until
    ensures Locked(cfg, DeskStep(cfg, d, e), e.now, account, until)
    ensures e.act.Begin? && e.act.login.account == account ==> Verdict(cfg, d, e).value.Refused?
  {
    LockedLater(cfg, d, now, e.now, account, until);
    DeskStepSynced(cfg, d, now, e);
    var op := OpOf(d, e.act);
    if op.Some? {
      LockedEntryAfter(cfg, d.t, Event(e.now, op.value), account);
    }
  }

  lemma {:induction false} DeskOrderedLatest(from: int, events: seq<DeskEvent>)
    requires DeskOrdered(from, events)
    ensures from <= DeskLatest(from, events)
    decreases events
  {
    if events != [] { DeskOrderedLatest(events[0].now, events[1..]); }
  }

  /** From the instant a lock is set until it ends, every check of the account is refused and
      nothing shortens or clears the lock: not prunes, not restarts, not other logins. */
  lemma {:induction false} LockHolds(
    cfg: Config, d: Desk, now: int, events: seq<DeskEvent>, account: string, until: int)
    requires Locked(cfg, d, now, account, until)
    requires DeskOrdered(now, events) && DeskLatest(now, events) < until
    ensures AllRefused(cfg, d, events, account)
    ensures Locked(cfg, DeskAfter(cfg, d, events), DeskLatest(now, events), account, until)
    decreases events
  {
    if events != [] {
      var e, rest := events[0], events[1..];
      DeskOrderedLatest(e.now, rest);
      LockedStep(cfg, d, now, e, account, until);
      LockHolds(cfg, DeskStep(cfg, d, e), e.now, rest, account, until);
    }
  }

  /** The whole life of a lock: set by a check while none of the account's logins is in flight,
      it refuses every check before its end, whatever happens meanwhile, and none right after. */
  lemma LockoutLifetime(
    cfg: Config, start: int, history: seq<DeskEvent>, e: DeskEvent, events: seq<DeskEvent>, later: int)
    requires DeskOrdered(start, history) && DeskLatest(start, history) <= e.now && DeskOrdered(e.now, events)
    requires e.act.Begin?
    requires var d := DeskAfter(cfg, OPENING, history);
             && SetsLock(cfg, d.t, Event(e.now, CheckOp(e.act.login.ip, e.act.login.account)), e.act.login.account)
             && (forall i :: 0 <= i < |d.open| ==> d.open[i].account != e.act.login.account)
             && DeskLatest(e.now, events) < DeskStep(cfg, d, e).t.mem.accounts[e.act.login.account].lockUntil <= later
    ensures var d := DeskStep(cfg, DeskAfter(cfg, OPENING, history), e);
            && AllRefused(cfg, d, events, e.act.login.account)
            && CheckAccount(cfg, DeskAfter(cfg, d, events).t, later, e.act.login.account).1 == Allowed
  {
    var account, d := e.act.login.account, DeskAfter(cfg, OPENING, history);
    var d' := DeskStep(cfg, d, e);
    var until := d'.t.mem.accounts[account].lockUntil;
    DeskRunSynced(cfg, OPENING, start, history);
    DeskStepSynced(cfg, d, DeskLatest(start, history), e);
    LockHolds(cfg, d', e.now, events, account, until);
    LockedLater(cfg, DeskAfter(cfg, d', events), DeskLatest(e.now, events), later, account, until);
  }
}
