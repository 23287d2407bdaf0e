/** Restart transparency: a gateway that dies and reloads its rows answers every later
    login check as if it had never stopped. Memory and storage are not equal (several
    paths filter a list and do not save it); they simulate each other. */
module ThrottleRestart {
  import opened ThrottleModel

  /** Same lock fields, and stamps that differ only in expired entries. */
  predicate SameAccount(cfg: Config, a: Account, b: Account, now: int) {
    && a.lockUntil == b.lockUntil && a.lockCount == b.lockCount
    && Live(a.fails, cfg.accountWindowMs, now) == Live(b.fails, cfg.accountWindowMs, now)
  }

  ghost predicate Agree(cfg: Config, a: Tables, b: Tables, now: int) {
    && a.accounts.Keys == b.accounts.Keys && a.ips.Keys == b.ips.Keys
    && (forall k :: k in a.accounts ==> SameAccount(cfg, a.accounts[k], b.accounts[k], now))
    && (forall k :: k in a.ips ==> Live(a.ips[k], cfg.ipWindowMs, now) == Live(b.ips[k], cfg.ipWindowMs, now))
  }

  /** The stored rows stand for the memory at `now`. */
  ghost predicate Synced(cfg: Config, t: Throttle, now: int) {
    t.sink.Some? && Agree(cfg, t.mem, t.sink.value, now)
  }

  lemma AgreeTransitive(cfg: Config, a: Tables, b: Tables, c: Tables, now: int)
    requires Agree(cfg, a, b, now) && Agree(cfg, b, c, now)
    ensures Agree(cfg, a, c, now)
  {
  }

  lemma SameLater(xs: seq<int>, ys: seq<int>, window: int, now: int, later: int)
    requires now <= later && Live(xs, window, now) == Live(ys, window, now)
    ensures Live(xs, window, later) == Live(ys, window, later)
  {
    LiveLater(xs, window, now, later);
    LiveLater(ys, window, now, later);
  }

  lemma AgreeLater(cfg: Config, a: Tables, b: Tables, now: int, later: int)
    requires Agree(cfg, a, b, now) && now <= later
    ensures Agree(cfg, a, b, later)
  {
    forall k | k in a.accounts ensures SameAccount(cfg, a.accounts[k], b.accounts[k], later) {
      SameLater(a.accounts[k].fails, b.accounts[k].fails, cfg.accountWindowMs, now, later);
    }
    forall k | k in a.ips ensures Live(a.ips[k], cfg.ipWindowMs, later) == Live(b.ips[k], cfg.ipWindowMs, later) {
      SameLater(a.ips[k], b.ips[k], cfg.ipWindowMs, now, later);
    }
  }

  // ---- every operation respects the relation ---------------------------------

  lemma CheckIpAgrees(cfg: Config, a: Tables, b: Tables, now: int, ip: string)
    requires Agree(cfg, a, b, now)
    ensures CheckIp(cfg, a, now, ip).1 == CheckIp(cfg, b, now, ip).1
    ensures Agree(cfg, CheckIp(cfg, a, now, ip).0, CheckIp(cfg, b, now, ip).0, now)
  {
  }

  lemma CheckAccountAgrees(cfg: Config, t: Throttle, u: Throttle, now: int, account: string)
    requires Agree(cfg, t.mem, u.mem, now)
    ensures CheckAccount(cfg, t, now, account).1 == CheckAccount(cfg, u, now, account).1
    ensures Agree(cfg, CheckAccount(cfg, t, now, account).0.mem, CheckAccount(cfg, u, now, account).0.mem, now)
  {
    if account in t.mem.accounts {
      assert SameAccount(cfg, t.mem.accounts[account], u.mem.accounts[account], now);
    }
  }

  lemma CheckAgrees(cfg: Config, t: Throttle, u: Throttle, now: int, ip: string, account: string)
    requires Agree(cfg, t.mem, u.mem, now)
    ensures Check(cfg, t, now, ip, account).1 == Check(cfg, u, now, ip, account).1
    ensures Agree(cfg, Check(cfg, t, now, ip, account).0.mem, Check(cfg, u, now, ip, account).0.mem, now)
  {
    CheckIpAgrees(cfg, t.mem, u.mem, now, ip);
    var a, b := CheckIp(cfg, t.mem, now, ip).0, CheckIp(cfg, u.mem, now, ip).0;
    CheckAccountAgrees(cfg, t.(mem := a), u.(mem := b), now, account);
  }

  lemma CheckSynced(cfg: Config, t: Throttle, now: int, ip: string, account: string)
    requires Synced(cfg, t, now)
    ensures Synced(cfg, Check(cfg, t, now, ip, account).0, now)
  {
    if ip in t.mem.ips { LiveLater(t.mem.ips[ip], cfg.ipWindowMs, now, now); }
    if account in t.mem.accounts { LiveLater(t.mem.accounts[account].fails, cfg.accountWindowMs, now, now); }
  }

  lemma PushSame(xs: seq<int>, ys: seq<int>, window: int, now: int)
    requires Live(xs, window, now) == Live(ys, window, now)
    ensures Live(xs + [now], window, now) == Live(ys + [now], window, now)
  {
    LiveConcat(xs, [now], window, now);
    LiveConcat(ys, [now], window, now);
  }

  lemma FailureAgrees(cfg: Config, t: Throttle, u: Throttle, now: int, ip: string, account: string)
    requires Agree(cfg, t.mem, u.mem, now)
    ensures Agree(cfg, RecordFailure(t, now, ip, account).mem, RecordFailure(u, now, ip, account).mem, now)
  {
    PushSame(AttemptsOf(t.mem, ip), AttemptsOf(u.mem, ip), cfg.ipWindowMs, now);
    PushSame(AccountOf(t.mem, account).fails, AccountOf(u.mem, account).fails, cfg.accountWindowMs, now);
  }

  lemma PruneAgrees(cfg: Config, t: Throttle, u: Throttle, now: int)
    requires Agree(cfg, t.mem, u.mem, now)
    ensures SpentAccounts(cfg, t.mem, now) == SpentAccounts(cfg, u.mem, now)
    ensures SpentIps(cfg, t.mem, now) == SpentIps(cfg, u.mem, now)
    ensures Agree(cfg, PruneAll(cfg, t, now).mem, PruneAll(cfg, u, now).mem, now)
  {
  }

  lemma PruneSynced(cfg: Config, t: Throttle, now: int)
    requires Synced(cfg, t, now)
    ensures Synced(cfg, PruneAll(cfg, t, now), now)
  {
    var t' := PruneAll(cfg, t, now);
    forall k | k in t'.mem.accounts ensures SameAccount(cfg, t'.mem.accounts[k], t'.sink.value.accounts[k], now) {
      LiveLater(t.mem.accounts[k].fails, cfg.accountWindowMs, now, now);
      assert SameAccount(cfg, t.mem.accounts[k], t.sink.value.accounts[k], now);
    }
    forall k | k in t'.mem.ips
      ensures Live(t'.mem.ips[k], cfg.ipWindowMs, now) == Live(t'.sink.value.ips[k], cfg.ipWindowMs, now)
    {
      LiveLater(t.mem.ips[k], cfg.ipWindowMs, now, now);
    }
  }

  /** Hydrating an empty process yields a memory the rows stand for. */
  lemma RestartSynced(cfg: Config, t: Throttle, now: int)
    requires t.sink.Some?
    ensures Restart(cfg, t, now).sink == t.sink
    ensures Synced(cfg, Restart(cfg, t, now), now)
  {
    var t', rows := Restart(cfg, t, now), t.sink.value;
    forall k | k in rows.accounts ensures SameAccount(cfg, t'.mem.accounts[k], rows.accounts[k], now) {
      LiveLater(rows.accounts[k].fails, cfg.accountWindowMs, now, now);
    }
    forall k | k in rows.ips
      ensures Live(t'.mem.ips[k], cfg.ipWindowMs, now) == Live(rows.ips[k], cfg.ipWindowMs, now)
    {
      LiveLater(rows.ips[k], cfg.ipWindowMs, now, now);
    }
  }

  /** What each operation keeps: the rows go on standing for the memory. */
  lemma StepSynced(cfg: Config, t: Throttle, now: int, e: Event)
    requires Synced(cfg, t, now) && now <= e.now
    ensures Synced(cfg, Step(cfg, t, e).0, e.now)
  {
    AgreeLater(cfg, t.mem, t.sink.value, now, e.now);
    match e.op
    case CheckOp(ip, account) => CheckSynced(cfg, t, e.now, ip, account);
    case FailureOp(ip, account) =>
    case SuccessOp(account) =>
    case PruneOp => PruneSynced(cfg, t, e.now);
    case RestartOp => RestartSynced(cfg, t, e.now);
  }

  /** Two throttles with agreeing memories answer alike and go on agreeing. */
  lemma StepAgrees(cfg: Config, t: Throttle, u: Throttle, now: int, e: Event)
    requires Agree(cfg, t.mem, u.mem, now) && now <= e.now && !e.op.RestartOp?
    ensures Step(cfg, t, e).1 == Step(cfg, u, e).1
    ensures Agree(cfg, Step(cfg, t, e).0.mem, Step(cfg, u, e).0.mem, e.now)
  {
    AgreeLater(cfg, t.mem, u.mem, now, e.now);
    match e.op
    case CheckOp(ip, account) => CheckAgrees(cfg, t, u, e.now, ip, account);
    case FailureOp(ip, account) => FailureAgrees(cfg, t, u, e.now, ip, account);
    case SuccessOp(account) =>
    case PruneOp => PruneAgrees(cfg, t, u, e.now);
  }

  // ---- whole runs -------------------------------------------------------------

  function WithoutRestarts(events: seq<Event>): seq<Event> {
    if events == [] then []
    else (if events[0].op.RestartOp? then [] else [events[0]]) + WithoutRestarts(events[1..])
  }

  lemma {:induction false} RunSynced(cfg: Config, t: Throttle, now: int, events: seq<Event>)
    requires Synced(cfg, t, now) && Ordered(now, events)
    ensures Synced(cfg, After(cfg, t, events), Latest(now, events))
    decreases events
  {
    if events != [] {
      StepSynced(cfg, t, now, events[0]);
      RunSynced(cfg, Step(cfg, t, events[0]).0, events[0].now, events[1..]);
    }
  }

  /** The simulation: `t` may restart at any time, `u` never does. */
  lemma {:induction false} Simulation(cfg: Config, t: Throttle, u: Throttle, now: int, events: seq<Event>)
    requires Synced(cfg, t, now) && Agree(cfg, t.mem, u.mem, now) && Ordered(now, events)
    ensures Answers(cfg, t, events) == Answers(cfg, u, WithoutRestarts(events))
    decreases events
  {
    if events != [] {
      var e, rest := events[0], events[1..];
      var t' := Step(cfg, t, e).0;
      StepSynced(cfg, t, now, e);
      if e.op.RestartOp? {
        AgreeLater(cfg, t.mem, t.sink.value, now, e.now);
        AgreeLater(cfg, t.mem, u.mem, now, e.now);
        RestartSynced(cfg, t, e.now);
        AgreeTransitive(cfg, t'.mem, t.sink.value, t.mem, e.now);
        AgreeTransitive(cfg, t'.mem, t.mem, u.mem, e.now);
        Simulation(cfg, t', u, e.now, rest);
        assert WithoutRestarts(events) == WithoutRestarts(rest);
      } else {
        StepAgrees(cfg, t, u, now, e);
        Simulation(cfg, t', Step(cfg, u, e).0, e.now, rest);
        assert WithoutRestarts(events)[1..] == WithoutRestarts(rest);
      }
    }
  }

  /** Any number of restarts, anywhere in a run, changes no answer of the run. */
  lemma RestartsAreInvisible(cfg: Config, start: int, events: seq<Event>)
    requires Ordered(start, events)
    ensures Answers(cfg, FRESH, events) == Answers(cfg, FRESH, WithoutRestarts(events))
  {
    Simulation(cfg, FRESH, FRESH, start, events);
  }

  /** After any history, a process restarted at `now` answers every future as the old one would. */
  lemma RestartTransparency(cfg: Config, start: int, history: seq<Event>, now: nat, future: seq<Event>)
    requires Ordered(start, history) && Latest(start, history) <= now && Ordered(now, future)
    ensures var was := After(cfg, FRESH, history);
            Answers(cfg, Restart(cfg, was, now), future) == Answers(cfg, was, WithoutRestarts(future))
  {
    RunSynced(cfg, FRESH, start, history);
    var t := After(cfg, FRESH, history);
    var restart := Event(now, RestartOp);
    Simulation(cfg, t, t, Latest(start, history), [restart] + future);
    assert ([restart] + future)[1..] == future;
    assert WithoutRestarts([restart] + future) == WithoutRestarts(future);
    assert Answers(cfg, t, [restart] + future) == Answers(cfg, Restart(cfg, t, now), future);
  }
}
