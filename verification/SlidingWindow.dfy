/** The per-IP volume cap over whole runs, with concurrent logins, prunes and restarts. */
module SlidingWindow {
  import opened Options
  import opened ThrottleModel
  import opened ThrottleRestart
  import opened LoginDesk

  /** How many stamps lie in the half-open interval [lo, lo + window). */
  function InWindow(stamps: seq<int>, lo: int, window: int): nat {
    if stamps == [] then 0
    else (if lo <= stamps[0] < lo + window then 1 else 0) + InWindow(stamps[1..], lo, window)
  }

  function OpenFrom(open: seq<Login>, ip: string): nat {
    if open == [] then 0 else (if open[0].ip == ip then 1 else 0) + OpenFrom(open[1..], ip)
  }

  /** At every instant of the run at most `crowd` logins from `ip` are in flight. */
  predicate Crowd(cfg: Config, d: Desk, events: seq<DeskEvent>, ip: string, crowd: nat)
    decreases events
  {
    && OpenFrom(d.open, ip) <= crowd
    && (events == [] || Crowd(cfg, DeskStep(cfg, d, events[0]), events[1..], ip, crowd))
  }

  lemma {:induction false} InWindowConcat(a: seq<int>, b: seq<int>, lo: int, window: int)
    ensures InWindow(a + b, lo, window) == InWindow(a, lo, window) + InWindow(b, lo, window)
  {
    if a == [] {
      assert a + b == b;
    } else {
      assert (a + b)[1..] == a[1..] + b;
      InWindowConcat(a[1..], b, lo, window);
    }
  }

  lemma {:induction false} OpenFromConcat(a: seq<Login>, b: seq<Login>, ip: string)
    ensures OpenFrom(a + b, ip) == OpenFrom(a, ip) + OpenFrom(b, ip)
  {
    if a == [] {
      assert a + b == b;
    } else {
      assert (a + b)[1..] == a[1..] + b;
      OpenFromConcat(a[1..], b, ip);
    }
  }

  lemma OpenFromRemove(open: seq<Login>, i: nat, ip: string)
    requires i < |open|
    ensures OpenFrom(open, ip)
         == OpenFrom(open[..i] + open[i + 1..], ip) + if open[i].ip == ip then 1 else 0
  {
    assert open == open[..i] + ([open[i]] + open[i + 1..]);
    OpenFromConcat(open[..i], [open[i]] + open[i + 1..], ip);
    OpenFromConcat([open[i]], open[i + 1..], ip);
    OpenFromConcat(open[..i], open[i + 1..], ip);
  }

  /** A window that is still open at `now` holds live stamps only. */
  lemma {:induction false} OpenWindowIsLive(stamps: seq<int>, lo: int, window: int, now: int)
    requires now < lo + window
    ensures InWindow(stamps, lo, window) <= |Live(stamps, window, now)|
  {
    if stamps != [] { OpenWindowIsLive(stamps[1..], lo, window, now); }
  }

  /** What a throttle operation does to the live attempts of one IP: a failure appends, nothing else matters. */
  lemma AttemptsAfter(cfg: Config, t: Throttle, e: Event, ip: string)
    requires Synced(cfg, t, e.now)
    ensures Live(AttemptsOf(Step(cfg, t, e).0.mem, ip), cfg.ipWindowMs, e.now)
         == Live(AttemptsOf(t.mem, ip) + if e.op.FailureOp? && e.op.failIp == ip then [e.now] else [],
                 cfg.ipWindowMs, e.now)
  {
    var attempts := AttemptsOf(t.mem, ip);
    assert attempts + [] == attempts;
    match e.op
    case FailureOp(failIp, account) => FailureAttempts(t, e.now, failIp, account, ip);
    case RestartOp => RestartAttempts(cfg, t, e.now, ip);
    case _ => OtherAttempts(cfg, t, e, ip);
  }

  lemma FailureAttempts(t: Throttle, now: int, failIp: string, account: string, ip: string)
    ensures AttemptsOf(RecordFailure(t, now, failIp, account).mem, ip)
         == AttemptsOf(t.mem, ip) + if failIp == ip then [now] else []
  {
  }

  lemma RestartAttempts(cfg: Config, t: Throttle, now: int, ip: string)
    requires Synced(cfg, t, now)
    ensures Live(AttemptsOf(Restart(cfg, t, now).mem, ip), cfg.ipWindowMs, now)
         == Live(AttemptsOf(t.mem, ip), cfg.ipWindowMs, now)
  {
    LiveLater(AttemptsOf(t.sink.value, ip), cfg.ipWindowMs, now, now);
  }

  lemma OtherAttempts(cfg: Config, t: Throttle, e: Event, ip: string)
    requires !e.op.FailureOp? && !e.op.RestartOp?
    ensures Live(AttemptsOf(Step(cfg, t, e).0.mem, ip), cfg.ipWindowMs, e.now)
         == Live(AttemptsOf(t.mem, ip), cfg.ipWindowMs, e.now)
  {
    LiveLater(AttemptsOf(t.mem, ip), cfg.ipWindowMs, e.now, e.now);
  }

  /** Memory still holds every live failure, and the window at `lo` has room for every login in flight. */
  ghost predicate Guarded(cfg: Config, d: Desk, now: int, ip: string, crowd: nat, lo: int) {
    var failures := FailuresOf(d, ip);
    && Synced(cfg, d.t, now)
    && Live(AttemptsOf(d.t.mem, ip), cfg.ipWindowMs, now) == Live(failures, cfg.ipWindowMs, now)
    && OpenFrom(d.open, ip) <= crowd
    && InWindow(failures, lo, cfg.ipWindowMs)
       + (if now < lo + cfg.ipWindowMs then OpenFrom(d.open, ip) else 0) <= cfg.ipMax + crowd - 1
  }

  lemma GuardedLater(cfg: Config, d: Desk, now: int, later: int, ip: string, crowd: nat, lo: int)
    requires Guarded(cfg, d, now, ip, crowd, lo) && now <= later
    ensures Guarded(cfg, d, later, ip, crowd, lo)
  {
    AgreeLater(cfg, d.t.mem, d.t.sink.value, now, later);
    SameLater(AttemptsOf(d.t.mem, ip), FailuresOf(d, ip), cfg.ipWindowMs, now, later);
  }

  /** An accepted check has seen fewer than `ipMax` live attempts. */
  lemma AcceptedHasRoom(cfg: Config, t: Throttle, now: int, ip: string, account: string)
    requires Check(cfg, t, now, ip, account).1 == Allowed
    ensures |Live(AttemptsOf(t.mem, ip), cfg.ipWindowMs, now)| < cfg.ipMax
  {
  }

  /** The failures an event adds to the record of `ip`. */
  function NewFailures(d: Desk, e: DeskEvent, ip: string): seq<int> {
    if e.act.Finish? && e.act.i < |d.open| && !e.act.ok && d.open[e.act.i].ip == ip then [e.now] else []
  }

  lemma FailuresAfter(cfg: Config, d: Desk, e: DeskEvent, ip: string)
    ensures FailuresOf(DeskStep(cfg, d, e), ip) == FailuresOf(d, ip) + NewFailures(d, e, ip)
  {
  }

  /** What an event does to the live attempts of one IP. */
  lemma LiveAttemptsStep(cfg: Config, d: Desk, e: DeskEvent, ip: string)
    requires Synced(cfg, d.t, e.now)
    ensures Live(AttemptsOf(DeskStep(cfg, d, e).t.mem, ip), cfg.ipWindowMs, e.now)
         == Live(AttemptsOf(d.t.mem, ip), cfg.ipWindowMs, e.now) + NewFailures(d, e, ip)
  {
    var op, added := OpOf(d, e.act), NewFailures(d, e, ip);
    LiveConcat(AttemptsOf(d.t.mem, ip), added, cfg.ipWindowMs, e.now);
    if op.Some? {
      AttemptsAfter(cfg, d.t, Event(e.now, op.value), ip);
    }
  }

  /** Memory goes on holding every live failure. */
  lemma MemoryStep(cfg: Config, d: Desk, e: DeskEvent, ip: string)
    requires Synced(cfg, d.t, e.now)
    requires Live(AttemptsOf(d.t.mem, ip), cfg.ipWindowMs, e.now) == Live(FailuresOf(d, ip), cfg.ipWindowMs, e.now)
    ensures Live(AttemptsOf(DeskStep(cfg, d, e).t.mem, ip), cfg.ipWindowMs, e.now)
         == Live(FailuresOf(DeskStep(cfg, d, e), ip), cfg.ipWindowMs, e.now)
  {
    FailuresAfter(cfg, d, e, ip);
    LiveAttemptsStep(cfg, d, e, ip);
    LiveConcat(FailuresOf(d, ip), NewFailures(d, e, ip), cfg.ipWindowMs, e.now);
  }

  /** The window keeps its room: only an accepted check puts a login in flight, only a login in flight fails. */
  lemma RoomStep(cfg: Config, d: Desk, e: DeskEvent, ip: string, crowd: nat, lo: int)
    requires Guarded(cfg, d, e.now, ip, crowd, lo)
    requires OpenFrom(DeskStep(cfg, d, e).open, ip) <= crowd
    ensures var d' := DeskStep(cfg, d, e);
            InWindow(FailuresOf(d', ip), lo, cfg.ipWindowMs)
            + (if e.now < lo + cfg.ipWindowMs then OpenFrom(d'.open, ip) else 0) <= cfg.ipMax + crowd - 1
  {
    var failures := FailuresOf(d, ip);
    FailuresAfter(cfg, d, e, ip);
    InWindowConcat(failures, NewFailures(d, e, ip), lo, cfg.ipWindowMs);
    match e.act
    case Begin(login) =>
      OpenFromConcat(d.open, [login], ip);
      if Verdict(cfg, d, e) == Some(Allowed) && login.ip == ip && e.now < lo + cfg.ipWindowMs {
        AcceptedHasRoom(cfg, d.t, e.now, ip, login.account);
        OpenWindowIsLive(failures, lo, cfg.ipWindowMs, e.now);
      }
    case Finish(i, ok) => if i < |d.open| { OpenFromRemove(d.open, i, ip); }
    case Sweep =>
    case Reboot =>
  }

  lemma GuardedStep(cfg: Config, d: Desk, now: int, e: DeskEvent, ip: string, crowd: nat, lo: int)
    requires Guarded(cfg, d, now, ip, crowd, lo) && now <= e.now
    requires OpenFrom(DeskStep(cfg, d, e).open, ip) <= crowd
    ensures Guarded(cfg, DeskStep(cfg, d, e), e.now, ip, crowd, lo)
  {
    GuardedLater(cfg, d, now, e.now, ip, crowd, lo);
    DeskStepSynced(cfg, d, now, e);
    MemoryStep(cfg, d, e, ip);
    RoomStep(cfg, d, e, ip, crowd, lo);
  }

  lemma {:induction false} GuardedRun(
    cfg: Config, d: Desk, now: int, events: seq<DeskEvent>, ip: string, crowd: nat, lo: int)
    requires Guarded(cfg, d, now, ip, crowd, lo) && DeskOrdered(now, events)
    requires Crowd(cfg, d, events, ip, crowd)
    ensures Guarded(cfg, DeskAfter(cfg, d, events), DeskLatest(now, events), ip, crowd, lo)
    decreases events
  {
    if events != [] {
      var e, d' := events[0], DeskStep(cfg, d, events[0]);
      assert Crowd(cfg, d', events[1..], ip, crowd);
      GuardedStep(cfg, d, now, e, ip, crowd, lo);
      GuardedRun(cfg, d', e.now, events[1..], ip, crowd, lo);
    }
  }

  /** No interval of one window length ever holds more than `ipMax + crowd - 1` recorded failures of an IP. */
  lemma SlidingWindowBound(cfg: Config, start: int, events: seq<DeskEvent>, ip: string, crowd: nat, lo: int)
    requires DeskOrdered(start, events) && Crowd(cfg, OPENING, events, ip, crowd)
    ensures InWindow(FailuresOf(DeskAfter(cfg, OPENING, events), ip), lo, cfg.ipWindowMs) <= cfg.ipMax + crowd - 1
  {
    GuardedRun(cfg, OPENING, start, events, ip, crowd, lo);
  }
}
