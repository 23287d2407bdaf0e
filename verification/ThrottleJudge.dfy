/** The throttle against its rules: a judge that knows nothing of memory, storage, filtering or
    restarts, and decides each check from the failures and successes before it. */
module ThrottleJudge {
  import opened ThrottleModel
  import opened ThrottleRestart
  import opened SlidingWindow
  import opened Lockout

  /** What counts against an account: its failures since its last success and its last lock, the end of
      that lock, and how many locks came before without being forgotten. */
  datatype Record = Record(fails: seq<int>, until: int, locks: nat)

  const CLEAN := Record([], 0, 0)

  function IpFailures(events: seq<Event>, ip: string): seq<int> {
    if events == [] then []
    else
      var e := events[|events| - 1];
      IpFailures(events[..|events| - 1], ip) + if e.op.FailureOp? && e.op.failIp == ip then [e.now] else []
  }

  /** As many failures of the IP as the cap lie within one window. */
  predicate IpFull(cfg: Config, events: seq<Event>, ip: string, now: int) {
    |Live(IpFailures(events, ip), cfg.ipWindowMs, now)| >= cfg.ipMax
  }

  /** Enough failures to lock lie within one window. */
  predicate Due(cfg: Config, r: Record, now: int) {
    |Live(r.fails, cfg.accountWindowMs, now)| >= cfg.accountMax
  }

  function RecordOf(cfg: Config, events: seq<Event>, account: string): Record
    decreases |events|
  {
    if events == [] then CLEAN
    else
      var before, e := events[..|events| - 1], events[|events| - 1];
      var r := RecordOf(cfg, before, account);
      match e.op
      case FailureOp(_, a) => if a == account then r.(fails := r.fails + [e.now]) else r
      case SuccessOp(a) => if a == account then CLEAN else r
      case CheckOp(ip, a) =>
        if a == account && !IpFull(cfg, before, ip, e.now) && r.until <= e.now && Due(cfg, r, e.now) then
          Record([], e.now + Backoff(cfg, r.locks), r.locks + 1)
        else r
      case PruneOp => if r.until <= e.now && Live(r.fails, cfg.accountWindowMs, e.now) == [] then CLEAN else r
      case RestartOp => r
  }

  /** The verdict on a check: the IP first, then the account's lock, then a new lock. */
  function Judge(cfg: Config, events: seq<Event>, now: int, ip: string, account: string): CheckResult {
    var live, r := Live(IpFailures(events, ip), cfg.ipWindowMs, now), RecordOf(cfg, events, account);
    if |live| >= cfg.ipMax then Refused(RetryAfterSec(live[0] + cfg.ipWindowMs - now), ByIp)
    else if r.until > now then Refused(RetryAfterSec(r.until - now), ByAccount)
    else if Due(cfg, r, now) then Refused(RetryAfterSec(Backoff(cfg, r.locks)), ByAccount)
    else Allowed
  }

  /** The verdicts of a run after `before`. */
  function Verdicts(cfg: Config, before: seq<Event>, events: seq<Event>): seq<CheckResult>
    decreases events
  {
    if events == [] then []
    else
      var e := events[0];
      (if e.op.CheckOp? then [Judge(cfg, before, e.now, e.op.ip, e.op.account)] else [])
      + Verdicts(cfg, before + [e], events[1..])
  }

  // ---- the throttle keeps to the record ---------------------------------------

  predicate SameRecord(cfg: Config, a: Account, r: Record, now: int) {
    && a.lockUntil == r.until && a.lockCount == r.locks
    && Live(a.fails, cfg.accountWindowMs, now) == Live(r.fails, cfg.accountWindowMs, now)
  }

  /** Memory holds all that still counts, and nothing else. */
  ghost predicate Keeps(cfg: Config, t: Throttle, events: seq<Event>, now: int) {
    && Synced(cfg, t, now)
    && (forall a :: SameRecord(cfg, AccountOf(t.mem, a), RecordOf(cfg, events, a), now))
    && (forall ip ::
          Live(AttemptsOf(t.mem, ip), cfg.ipWindowMs, now) == Live(IpFailures(events, ip), cfg.ipWindowMs, now))
  }

  lemma KeepsLater(cfg: Config, t: Throttle, events: seq<Event>, now: int, later: int)
    requires Keeps(cfg, t, events, now) && now <= later
    ensures Keeps(cfg, t, events, later)
  {
    AgreeLater(cfg, t.mem, t.sink.value, now, later);
    forall a ensures SameRecord(cfg, AccountOf(t.mem, a), RecordOf(cfg, events, a), later) {
      assert SameRecord(cfg, AccountOf(t.mem, a), RecordOf(cfg, events, a), now);
      SameLater(AccountOf(t.mem, a).fails, RecordOf(cfg, events, a).fails, cfg.accountWindowMs, now, later);
    }
    forall ip
      ensures Live(AttemptsOf(t.mem, ip), cfg.ipWindowMs, later) == Live(IpFailures(events, ip), cfg.ipWindowMs, later)
    {
      SameLater(AttemptsOf(t.mem, ip), IpFailures(events, ip), cfg.ipWindowMs, now, later);
    }
  }

  lemma Pushed(events: seq<Event>, e: Event)
    ensures (events + [e])[..|events|] == events && (events + [e])[|events|] == e
  {
  }

  lemma CheckJudged(cfg: Config, t: Throttle, events: seq<Event>, now: nat, ip: string, account: string)
    requires Keeps(cfg, t, events, now)
    ensures Check(cfg, t, now, ip, account).1 == Judge(cfg, events, now, ip, account)
  {
    assert SameRecord(cfg, AccountOf(t.mem, account), RecordOf(cfg, events, account), now);
    assert Live(AttemptsOf(t.mem, ip), cfg.ipWindowMs, now) == Live(IpFailures(events, ip), cfg.ipWindowMs, now);
    assert Live([], cfg.accountWindowMs, now) == [];
  }

  /** What a check makes of an account's entry. */
  lemma CheckEntry(cfg: Config, t: Throttle, now: nat, ip: string, account: string, a: string)
    ensures var was, next := AccountOf(t.mem, a), AccountOf(Check(cfg, t, now, ip, account).0.mem, a);
            if a == account && a in t.mem.accounts && !CheckIp(cfg, t.mem, now, ip).1.Refused? && was.lockUntil <= now
            then
              if |Live(was.fails, cfg.accountWindowMs, now)| < cfg.accountMax
              then next == was.(fails := Live(was.fails, cfg.accountWindowMs, now))
              else next == Account([], now + Backoff(cfg, was.lockCount), was.lockCount + 1)
            else next == was
  {
  }

  lemma CheckKeeps(cfg: Config, t: Throttle, events: seq<Event>, e: Event, a: string)
    requires Keeps(cfg, t, events, e.now) && e.op.CheckOp?
    ensures SameRecord(cfg, AccountOf(Step(cfg, t, e).0.mem, a), RecordOf(cfg, events + [e], a), e.now)
  {
    var ip := e.op.ip;
    Pushed(events, e);
    assert SameRecord(cfg, AccountOf(t.mem, a), RecordOf(cfg, events, a), e.now);
    assert Live(AttemptsOf(t.mem, ip), cfg.ipWindowMs, e.now) == Live(IpFailures(events, ip), cfg.ipWindowMs, e.now);
    CheckEntry(cfg, t, e.now, ip, e.op.account, a);
    LiveLater(AccountOf(t.mem, a).fails, cfg.accountWindowMs, e.now, e.now);
  }

  lemma PruneEntry(cfg: Config, t: Throttle, now: nat, a: string)
    ensures var was, next := AccountOf(t.mem, a), AccountOf(PruneAll(cfg, t, now).mem, a);
            next == if Spent(cfg, was, now) then Account([], 0, 0)
                  else was.(fails := Live(was.fails, cfg.accountWindowMs, now))
  {
  }

  lemma RestartEntry(cfg: Config, t: Throttle, now: nat, a: string)
    requires Synced(cfg, t, now)
    ensures SameAccount(cfg, AccountOf(Restart(cfg, t, now).mem, a), AccountOf(t.mem, a), now)
  {
    RestartSynced(cfg, t, now);
    if a in t.mem.accounts {
      assert SameAccount(cfg, t.mem.accounts[a], t.sink.value.accounts[a], now);
    }
  }

  lemma OtherKeeps(cfg: Config, t: Throttle, events: seq<Event>, e: Event, a: string)
    requires Keeps(cfg, t, events, e.now) && !e.op.CheckOp?
    ensures SameRecord(cfg, AccountOf(Step(cfg, t, e).0.mem, a), RecordOf(cfg, events + [e], a), e.now)
  {
    var was, r := AccountOf(t.mem, a), RecordOf(cfg, events, a);
    Pushed(events, e);
    assert SameRecord(cfg, was, r, e.now);
    match e.op
    case FailureOp(_, _) => PushSame(was.fails, r.fails, cfg.accountWindowMs, e.now);
    case SuccessOp(_) =>
    case PruneOp =>
      PruneEntry(cfg, t, e.now, a);
      LiveLater(was.fails, cfg.accountWindowMs, e.now, e.now);
    case RestartOp => RestartEntry(cfg, t, e.now, a);
  }

  lemma AttemptsKept(cfg: Config, t: Throttle, events: seq<Event>, e: Event, ip: string)
    requires Keeps(cfg, t, events, e.now)
    ensures Live(AttemptsOf(Step(cfg, t, e).0.mem, ip), cfg.ipWindowMs, e.now)
         == Live(IpFailures(events + [e], ip), cfg.ipWindowMs, e.now)
  {
    var added := if e.op.FailureOp? && e.op.failIp == ip then [e.now] else [];
    Pushed(events, e);
    AttemptsAfter(cfg, t, e, ip);
    LiveConcat(AttemptsOf(t.mem, ip), added, cfg.ipWindowMs, e.now);
    LiveConcat(IpFailures(events, ip), added, cfg.ipWindowMs, e.now);
  }

  lemma KeepsStep(cfg: Config, t: Throttle, events: seq<Event>, now: int, e: Event)
    requires Keeps(cfg, t, events, now) && now <= e.now
    ensures Keeps(cfg, Step(cfg, t, e).0, events + [e], e.now)
  {
    KeepsLater(cfg, t, events, now, e.now);
    StepSynced(cfg, t, now, e);
    forall a ensures SameRecord(cfg, AccountOf(Step(cfg, t, e).0.mem, a), RecordOf(cfg, events + [e], a), e.now) {
      if e.op.CheckOp? { CheckKeeps(cfg, t, events, e, a); } else { OtherKeeps(cfg, t, events, e, a); }
    }
    forall ip
      ensures Live(AttemptsOf(Step(cfg, t, e).0.mem, ip), cfg.ipWindowMs, e.now)
           == Live(IpFailures(events + [e], ip), cfg.ipWindowMs, e.now)
    {
      AttemptsKept(cfg, t, events, e, ip);
    }
  }

  /** In every run, through restarts and prunes, memory stands for the record. */
  lemma {:induction false} KeepsRun(cfg: Config, start: int, events: seq<Event>)
    requires Ordered(start, events)
    ensures Keeps(cfg, After(cfg, FRESH, events), events, Latest(start, events))
    decreases |events|
  {
    if events != [] {
      var before, e := events[..|events| - 1], events[|events| - 1];
      OrderedLast(start, events);
      KeepsRun(cfg, start, before);
      AfterLast(cfg, FRESH, events);
      KeepsStep(cfg, After(cfg, FRESH, before), before, Latest(start, before), e);
      assert before + [e] == events;
    }
  }

  lemma {:induction false} JudgedFrom(cfg: Config, t: Throttle, before: seq<Event>, now: int, events: seq<Event>)
    requires Keeps(cfg, t, before, now) && Ordered(now, events)
    ensures Answers(cfg, t, events) == Verdicts(cfg, before, events)
    decreases events
  {
    if events != [] {
      var e := events[0];
      KeepsLater(cfg, t, before, now, e.now);
      if e.op.CheckOp? { CheckJudged(cfg, t, before, e.now, e.op.ip, e.op.account); }
      KeepsStep(cfg, t, before, now, e);
      JudgedFrom(cfg, Step(cfg, t, e).0, before + [e], e.now, events[1..]);
    }
  }

  predicate Counts(stamps: seq<int>, window: int, now: int) {
    exists i :: 0 <= i < |stamps| && now - stamps[i] < window
  }

  lemma {:induction false} LiveIffCounts(stamps: seq<int>, window: int, now: int)
    ensures Live(stamps, window, now) != [] <==> Counts(stamps, window, now)
  {
    if stamps != [] {
      LiveIffCounts(stamps[1..], window, now);
      if Counts(stamps[1..], window, now) {
        var i :| 0 <= i < |stamps[1..]| && now - stamps[1..][i] < window;
        assert now - stamps[i + 1] < window;
      }
      if i :| 0 <= i < |stamps| && now - stamps[i] < window && i > 0 {
        assert now - stamps[1..][i - 1] < window;
      }
    }
  }

  /** A prune leaves exactly what still counts, in memory and in storage: IPs with an attempt within the
      window, accounts that are locked or have a failure within theirs. */
  lemma PruneLeavesWhatCounts(cfg: Config, t: Throttle, now: nat, key: string)
    requires Synced(cfg, t, now)
    ensures var t' := PruneAll(cfg, t, now);
            && (key in t'.mem.ips <==> key in t.mem.ips && Counts(t.mem.ips[key], cfg.ipWindowMs, now))
            && (key in t'.mem.accounts <==>
                  key in t.mem.accounts
                  && (t.mem.accounts[key].lockUntil > now
                      || Counts(t.mem.accounts[key].fails, cfg.accountWindowMs, now)))
            && t'.sink.Some? && t'.sink.value.ips.Keys == t'.mem.ips.Keys
            && t'.sink.value.accounts.Keys == t'.mem.accounts.Keys
  {
    if key in t.mem.ips { LiveIffCounts(t.mem.ips[key], cfg.ipWindowMs, now); }
    if key in t.mem.accounts { LiveIffCounts(t.mem.accounts[key].fails, cfg.accountWindowMs, now); }
    PruneSynced(cfg, t, now);
  }

  /** Every check of every run is answered as the judge decides it. */
  lemma EveryCheckIsJudged(cfg: Config, start: int, events: seq<Event>)
    requires Ordered(start, events)
    ensures Answers(cfg, FRESH, events) == Verdicts(cfg, [], events)
  {
    JudgedFrom(cfg, FRESH, [], start, events);
  }
}
