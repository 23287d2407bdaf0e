/** The Retry-After header over whole runs: when a refusal ends, and when waiting as told is enough. */
module RetryAfter {
  import opened Options
  import opened ThrottleModel
  import opened ThrottleRestart
  import opened LoginDesk
  import opened SlidingWindow
  import opened Lockout

  // ---- stamps in order --------------------------------------------------------

  predicate Ascending(stamps: seq<int>, top: int) {
    && (forall i, j :: 0 <= i < j < |stamps| ==> stamps[i] <= stamps[j])
    && (forall i :: 0 <= i < |stamps| ==> stamps[i] <= top)
  }

  /** A filtered list is the list minus a set of entries: what held of all still holds. */
  lemma {:induction false} LiveAscending(stamps: seq<int>, top: int, window: int, now: int)
    requires Ascending(stamps, top)
    ensures Ascending(Live(stamps, window, now), top)
    ensures |Live(stamps, window, now)| <= |stamps|
  {
    if stamps != [] {
      LiveAscending(stamps[1..], top, window, now);
      var rest := Live(stamps[1..], window, now);
      forall i | 0 <= i < |rest| ensures stamps[0] <= rest[i] {
        LiveMember(stamps[1..], window, now, i);
      }
    }
  }

  /** How many ascending stamps survive is decided by the one at that place from the end. */
  lemma {:induction false} SurvivorsOf(stamps: seq<int>, top: int, window: int, later: int, n: nat)
    requires Ascending(stamps, top) && 1 <= n <= |stamps|
    ensures |Live(stamps, window, later)| >= n <==> later < stamps[|stamps| - n] + window
  {
    if later - stamps[0] < window {
      AllLive(stamps, window, later);
    } else if n < |stamps| {
      SurvivorsOf(stamps[1..], top, window, later, n);
    } else {
      LiveAscending(stamps[1..], top, window, later);
    }
  }

  lemma {:induction false} AllLive(stamps: seq<int>, window: int, later: int)
    requires forall i :: 0 <= i < |stamps| ==> later - stamps[i] < window
    ensures Live(stamps, window, later) == stamps
  {
    if stamps != [] { AllLive(stamps[1..], window, later); }
  }

  /** Memory holds every live failure of the IP, and failures are recorded in time order. */
  ghost predicate Remembered(cfg: Config, d: Desk, now: int, ip: string) {
    && Synced(cfg, d.t, now)
    && Live(AttemptsOf(d.t.mem, ip), cfg.ipWindowMs, now) == Live(FailuresOf(d, ip), cfg.ipWindowMs, now)
    && Ascending(FailuresOf(d, ip), now)
  }

  lemma RememberedStep(cfg: Config, d: Desk, now: int, e: DeskEvent, ip: string)
    requires Remembered(cfg, d, now, ip) && now <= e.now
    ensures Remembered(cfg, DeskStep(cfg, d, e), e.now, ip)
  {
    AgreeLater(cfg, d.t.mem, d.t.sink.value, now, e.now);
    SameLater(AttemptsOf(d.t.mem, ip), FailuresOf(d, ip), cfg.ipWindowMs, now, e.now);
    DeskStepSynced(cfg, d, now, e);
    MemoryStep(cfg, d, e, ip);
    FailuresAfter(cfg, d, e, ip);
  }

  lemma {:induction false} RememberedRun(cfg: Config, d: Desk, now: int, events: seq<DeskEvent>, ip: string)
    requires Remembered(cfg, d, now, ip) && DeskOrdered(now, events)
    ensures Remembered(cfg, DeskAfter(cfg, d, events), DeskLatest(now, events), ip)
    decreases events
  {
    if events != [] {
      RememberedStep(cfg, d, now, events[0], ip);
      RememberedRun(cfg, DeskStep(cfg, d, events[0]), events[0].now, events[1..], ip);
    }
  }

  /** In every reachable state the live attempts of an IP are in time order. */
  lemma LiveInOrder(cfg: Config, start: int, history: seq<DeskEvent>, now: int, ip: string)
    requires DeskOrdered(start, history) && DeskLatest(start, history) <= now
    ensures Synced(cfg, DeskAfter(cfg, OPENING, history).t, now)
    ensures Ascending(Live(AttemptsOf(DeskAfter(cfg, OPENING, history).t.mem, ip), cfg.ipWindowMs, now), now)
  {
    var d, latest := DeskAfter(cfg, OPENING, history), DeskLatest(start, history);
    RememberedRun(cfg, OPENING, start, history, ip);
    AgreeLater(cfg, d.t.mem, d.t.sink.value, latest, now);
    SameLater(AttemptsOf(d.t.mem, ip), FailuresOf(d, ip), cfg.ipWindowMs, latest, now);
    LiveAscending(FailuresOf(d, ip), now, cfg.ipWindowMs, now);
  }

  // ---- the IP dimension -------------------------------------------------------

  lemma RetryAfterRounds(ms: int)
    requires ms > 0
    ensures ms <= 1000 * RetryAfterSec(ms) < ms + 1000
  {
  }

  function LiveAttempts(cfg: Config, t: Throttle, now: int, ip: string): seq<int> {
    Live(AttemptsOf(t.mem, ip), cfg.ipWindowMs, now)
  }

  /** The instant from which the IP dimension stops refusing, if no failure is added. */
  function IpRelease(cfg: Config, t: Throttle, now: int, ip: string): int
    requires |LiveAttempts(cfg, t, now, ip)| >= cfg.ipMax
  {
    var live := LiveAttempts(cfg, t, now, ip);
    live[|live| - cfg.ipMax] + cfg.ipWindowMs
  }

  predicate RefusedBy(cfg: Config, d: Desk, now: nat, login: Login, reason: Reason) {
    var answer := Check(cfg, d.t, now, login.ip, login.account).1;
    answer.Refused? && answer.reason == reason
  }

  /** What the refused login is told to wait, in milliseconds. */
  function Wait(cfg: Config, d: Desk, now: nat, login: Login): int
    requires Check(cfg, d.t, now, login.ip, login.account).1.Refused?
  {
    1000 * Check(cfg, d.t, now, login.ip, login.account).1.retryAfterSec
  }

  /** The desk once the login has begun, and been refused or not. */
  function Begun(cfg: Config, d: Desk, now: nat, login: Login): Desk {
    DeskStep(cfg, d, DeskEvent(now, Begin(login)))
  }

  /** No login from the IP fails in the run; anything else may happen. */
  predicate NoFailures(cfg: Config, d: Desk, events: seq<DeskEvent>, ip: string)
    decreases events
  {
    events == [] || (
      && NewFailures(d, events[0], ip) == []
      && NoFailures(cfg, DeskStep(cfg, d, events[0]), events[1..], ip))
  }

  /** Without a new failure nothing else in a run changes what counts against an IP. */
  lemma {:induction false} LiveGoesOn(
    cfg: Config, d: Desk, now: int, events: seq<DeskEvent>, ip: string, later: int)
    requires Synced(cfg, d.t, now) && DeskOrdered(now, events) && DeskLatest(now, events) <= later
    requires NoFailures(cfg, d, events, ip)
    ensures LiveAttempts(cfg, DeskAfter(cfg, d, events).t, later, ip) == LiveAttempts(cfg, d.t, later, ip)
    decreases events
  {
    if events != [] {
      var e, d' := events[0], DeskStep(cfg, d, events[0]);
      DeskOrderedLatest(e.now, events[1..]);
      AgreeLater(cfg, d.t.mem, d.t.sink.value, now, e.now);
      LiveAttemptsStep(cfg, d, e, ip);
      SameLater(AttemptsOf(d'.t.mem, ip), AttemptsOf(d.t.mem, ip), cfg.ipWindowMs, e.now, later);
      DeskStepSynced(cfg, d, now, e);
      LiveGoesOn(cfg, d', e.now, events[1..], ip, later);
    }
  }

  /** A refusal by IP, in any reachable state: whatever runs meanwhile, if no login from the IP
      fails, a check from it at `later` is refused exactly before the release. */
  lemma IpReleaseOverRuns(
    cfg: Config, start: int, history: seq<DeskEvent>, now: nat, login: Login, events: seq<DeskEvent>, later: int)
    requires DeskOrdered(start, history) && DeskLatest(start, history) <= now
    requires RefusedBy(cfg, DeskAfter(cfg, OPENING, history), now, login, ByIp)
    requires DeskOrdered(now, events) && DeskLatest(now, events) <= later
    requires NoFailures(cfg, Begun(cfg, DeskAfter(cfg, OPENING, history), now, login), events, login.ip)
    ensures var d := DeskAfter(cfg, OPENING, history);
            && |LiveAttempts(cfg, d.t, now, login.ip)| >= cfg.ipMax
            && (CheckIp(cfg, DeskAfter(cfg, Begun(cfg, d, now, login), events).t.mem, later, login.ip).1.Refused?
                <==> later < IpRelease(cfg, d.t, now, login.ip))
  {
    LiveInOrder(cfg, start, history, now, login.ip);
    IpReleaseFrom(cfg, DeskAfter(cfg, OPENING, history), now, login, events, later);
  }

  lemma IpReleaseFrom(cfg: Config, d: Desk, now: nat, login: Login, events: seq<DeskEvent>, later: int)
    requires Synced(cfg, d.t, now) && Ascending(LiveAttempts(cfg, d.t, now, login.ip), now)
    requires RefusedBy(cfg, d, now, login, ByIp)
    requires DeskOrdered(now, events) && DeskLatest(now, events) <= later
    requires NoFailures(cfg, Begun(cfg, d, now, login), events, login.ip)
    ensures |LiveAttempts(cfg, d.t, now, login.ip)| >= cfg.ipMax
    ensures CheckIp(cfg, DeskAfter(cfg, Begun(cfg, d, now, login), events).t.mem, later, login.ip).1.Refused?
       <==> later < IpRelease(cfg, d.t, now, login.ip)
  {
    DeskOrderedLatest(now, events);
    LiveAfterBeginning(cfg, d, now, login, events, later);
    RefusedExactly(cfg, d.t, now, login.ip);
    SurvivorsOf(LiveAttempts(cfg, d.t, now, login.ip), now, cfg.ipWindowMs, later, cfg.ipMax);
    RefusedExactly(cfg, DeskAfter(cfg, Begun(cfg, d, now, login), events).t, later, login.ip);
  }

  lemma LiveAfterBeginning(
    cfg: Config, d: Desk, now: nat, login: Login, events: seq<DeskEvent>, later: int)
    requires Synced(cfg, d.t, now) && DeskOrdered(now, events) && now <= DeskLatest(now, events) <= later
    requires NoFailures(cfg, Begun(cfg, d, now, login), events, login.ip)
    ensures LiveAttempts(cfg, DeskAfter(cfg, Begun(cfg, d, now, login), events).t, later, login.ip)
         == Live(LiveAttempts(cfg, d.t, now, login.ip), cfg.ipWindowMs, later)
  {
    var e, d' := DeskEvent(now, Begin(login)), Begun(cfg, d, now, login);
    DeskStepSynced(cfg, d, now, e);
    LiveGoesOn(cfg, d', now, events, login.ip, later);
    LiveAttemptsStep(cfg, d, e, login.ip);
    SameLater(AttemptsOf(d'.t.mem, login.ip), AttemptsOf(d.t.mem, login.ip), cfg.ipWindowMs, now, later);
    LiveLater(AttemptsOf(d.t.mem, login.ip), cfg.ipWindowMs, now, later);
  }

  lemma RefusedExactly(cfg: Config, t: Throttle, now: int, ip: string)
    ensures CheckIp(cfg, t.mem, now, ip).1.Refused? <==> |LiveAttempts(cfg, t, now, ip)| >= cfg.ipMax
  {
  }

  /** By how much the wait for an instant is rounded up to whole seconds. */
  function Slack(distance: int): int {
    1000 * RetryAfterSec(distance) - distance
  }

  lemma WaitIs(cfg: Config, d: Desk, now: nat, login: Login)
    requires RefusedBy(cfg, d, now, login, ByIp)
    ensures var live := LiveAttempts(cfg, d.t, now, login.ip);
            |live| >= cfg.ipMax && Wait(cfg, d, now, login) == 1000 * RetryAfterSec(live[0] + cfg.ipWindowMs - now)
  {
  }

  /** Retry-After is measured from the oldest live attempt, the release from the one at the cap. So
      the wait never overshoots by a second, and it reaches the release if and only if those two
      attempts lie no further apart than the wait was rounded up. */
  lemma IpWait(cfg: Config, start: int, history: seq<DeskEvent>, now: nat, login: Login)
    requires DeskOrdered(start, history) && DeskLatest(start, history) <= now
    requires RefusedBy(cfg, DeskAfter(cfg, OPENING, history), now, login, ByIp)
    ensures var d := DeskAfter(cfg, OPENING, history);
            var live := LiveAttempts(cfg, d.t, now, login.ip);
            var wait, release := Wait(cfg, d, now, login), IpRelease(cfg, d.t, now, login.ip);
            var slack := Slack(live[0] + cfg.ipWindowMs - now);
            && 0 <= slack < 1000
            && now + wait < release + 1000
            && (release <= now + wait <==> live[|live| - cfg.ipMax] - live[0] <= slack)
            && (|live| == cfg.ipMax ==> release <= now + wait)
  {
    var d := DeskAfter(cfg, OPENING, history);
    var live := LiveAttempts(cfg, d.t, now, login.ip);
    WaitIs(cfg, d, now, login);
    LiveInOrder(cfg, start, history, now, login.ip);
    LiveMember(AttemptsOf(d.t.mem, login.ip), cfg.ipWindowMs, now, 0);
    RetryAfterRounds(live[0] + cfg.ipWindowMs - now);
  }

  /** Waiting as told is enough, through any run in which no login from the IP fails, if and only if
      the attempt at the cap is no further from the oldest than the rounding. */
  lemma IpRetryAfter(
    cfg: Config, start: int, history: seq<DeskEvent>, now: nat, login: Login, events: seq<DeskEvent>)
    requires DeskOrdered(start, history) && DeskLatest(start, history) <= now
    requires RefusedBy(cfg, DeskAfter(cfg, OPENING, history), now, login, ByIp)
    requires DeskOrdered(now, events)
    requires DeskLatest(now, events) <= now + Wait(cfg, DeskAfter(cfg, OPENING, history), now, login)
    requires NoFailures(cfg, Begun(cfg, DeskAfter(cfg, OPENING, history), now, login), events, login.ip)
    ensures var d := DeskAfter(cfg, OPENING, history);
            var live, wait := LiveAttempts(cfg, d.t, now, login.ip), Wait(cfg, d, now, login);
            && |live| >= cfg.ipMax
            && (CheckIp(cfg, DeskAfter(cfg, Begun(cfg, d, now, login), events).t.mem, now + wait, login.ip).1 == Allowed
                <==> live[|live| - cfg.ipMax] - live[0] <= Slack(live[0] + cfg.ipWindowMs - now))
  {
    IpWait(cfg, start, history, now, login);
    IpReleaseOverRuns(cfg, start, history, now, login, events,
                      now + Wait(cfg, DeskAfter(cfg, OPENING, history), now, login));
  }

  // ---- the account dimension --------------------------------------------------

  /** What becomes of a refused account's entry if left alone: its lock, and the failures it had when
      it was refused; once both are over the entry may have been dropped. */
  predicate EntryHeld(cfg: Config, mem: Tables, now: int, account: string, until: int, fails: seq<int>) {
    if account in mem.accounts
    then mem.accounts[account].lockUntil == until
         && Live(mem.accounts[account].fails, cfg.accountWindowMs, now) == Live(fails, cfg.accountWindowMs, now)
    else until <= now && Live(fails, cfg.accountWindowMs, now) == []
  }

  ghost predicate Held(cfg: Config, d: Desk, now: int, account: string, until: int, fails: seq<int>) {
    Synced(cfg, d.t, now) && EntryHeld(cfg, d.t.mem, now, account, until, fails)
  }

  /** The event neither settles a login of the account nor checks it once its lock is over. */
  predicate LeavesAlone(d: Desk, e: DeskEvent, account: string, until: int) {
    && (e.act.Finish? && e.act.i < |d.open| ==> d.open[e.act.i].account != account)
    && (e.act.Begin? && e.act.login.account == account ==> e.now < until)
  }

  predicate LeftAlone(cfg: Config, d: Desk, events: seq<DeskEvent>, account: string, until: int)
    decreases events
  {
    events == [] || (
      && LeavesAlone(d, events[0], account, until)
      && LeftAlone(cfg, DeskStep(cfg, d, events[0]), events[1..], account, until))
  }

  lemma HeldLater(cfg: Config, d: Desk, now: int, later: int, account: string, until: int, fails: seq<int>)
    requires Held(cfg, d, now, account, until, fails) && now <= later
    ensures Held(cfg, d, later, account, until, fails)
  {
    AgreeLater(cfg, d.t.mem, d.t.sink.value, now, later);
    LiveLater(fails, cfg.accountWindowMs, now, later);
    if account in d.t.mem.accounts {
      LiveLater(d.t.mem.accounts[account].fails, cfg.accountWindowMs, now, later);
    }
  }

  /** The throttle operation leaves the account alone. */
  predicate SparesAccount(op: Op, now: int, account: string, until: int) {
    match op
    case CheckOp(_, a) => a == account ==> now < until
    case FailureOp(_, a) => a != account
    case SuccessOp(a) => a != account
    case PruneOp => true
    case RestartOp => true
  }

  lemma EntryHeldStep(cfg: Config, t: Throttle, e: Event, account: string, until: int, fails: seq<int>)
    requires Synced(cfg, t, e.now) && EntryHeld(cfg, t.mem, e.now, account, until, fails)
    requires SparesAccount(e.op, e.now, account, until)
    ensures EntryHeld(cfg, Step(cfg, t, e).0.mem, e.now, account, until, fails)
  {
    match e.op
    case PruneOp =>
      if account in t.mem.accounts { LiveLater(t.mem.accounts[account].fails, cfg.accountWindowMs, e.now, e.now); }
    case RestartOp => EntryHeldRestart(cfg, t, e.now, account, until, fails);
    case _ =>
  }

  lemma EntryHeldRestart(cfg: Config, t: Throttle, now: int, account: string, until: int, fails: seq<int>)
    requires Synced(cfg, t, now) && EntryHeld(cfg, t.mem, now, account, until, fails)
    ensures EntryHeld(cfg, Restart(cfg, t, now).mem, now, account, until, fails)
  {
    if account in t.mem.accounts {
      assert SameAccount(cfg, t.mem.accounts[account], t.sink.value.accounts[account], now);
      LiveLater(t.sink.value.accounts[account].fails, cfg.accountWindowMs, now, now);
    }
  }

  lemma HeldStep(cfg: Config, d: Desk, now: int, e: DeskEvent, account: string, until: int, fails: seq<int>)
    requires Held(cfg, d, now, account, until, fails) && now <= e.now
    requires LeavesAlone(d, e, account, until)
    ensures Held(cfg, DeskStep(cfg, d, e), e.now, account, until, fails)
  {
    HeldLater(cfg, d, now, e.now, account, until, fails);
    DeskStepSynced(cfg, d, now, e);
    var op := OpOf(d, e.act);
    if op.Some? {
      EntryHeldStep(cfg, d.t, Event(e.now, op.value), account, until, fails);
    }
  }

  lemma {:induction false} HeldRun(
    cfg: Config, d: Desk, now: int, events: seq<DeskEvent>, account: string, until: int, fails: seq<int>)
    requires Held(cfg, d, now, account, until, fails) && DeskOrdered(now, events)
    requires LeftAlone(cfg, d, events, account, until)
    ensures Held(cfg, DeskAfter(cfg, d, events), DeskLatest(now, events), account, until, fails)
    decreases events
  {
    if events != [] {
      HeldStep(cfg, d, now, events[0], account, until, fails);
      HeldRun(cfg, DeskStep(cfg, d, events[0]), events[0].now, events[1..], account, until, fails);
    }
  }

  /** The account's entry as a refusal leaves it. */
  function RefusedEntry(cfg: Config, d: Desk, now: nat, login: Login): Account {
    AccountOf(Begun(cfg, d, now, login).t.mem, login.account)
  }

  lemma RefusedIsHeld(cfg: Config, d: Desk, now: nat, login: Login)
    requires Synced(cfg, d.t, now) && RefusedBy(cfg, d, now, login, ByAccount)
    ensures var entry := RefusedEntry(cfg, d, now, login);
            && entry.lockUntil > now
            && Held(cfg, Begun(cfg, d, now, login), now, login.account, entry.lockUntil, entry.fails)
            && Wait(cfg, d, now, login) == 1000 * RetryAfterSec(entry.lockUntil - now)
  {
    DeskStepSynced(cfg, d, now, DeskEvent(now, Begin(login)));
  }

  lemma HeldRefusal(cfg: Config, t: Throttle, later: int, account: string, until: int, fails: seq<int>)
    requires EntryHeld(cfg, t.mem, later, account, until, fails)
    ensures CheckAccount(cfg, t, later, account).1.Refused?
       <==> later < until || |Live(fails, cfg.accountWindowMs, later)| >= cfg.accountMax
  {
  }

  /** A refusal by account, in any reachable state: whatever runs meanwhile, if none of the account's
      logins is settled and it is not tried again after its lock, a check of it at `later` is refused
      if and only if the lock still holds or as many failures as lock an account still count. Those
      can only have come from logins in flight when the lock was set. Retry-After reaches the end of
      the lock and overshoots by less than a second. */
  lemma AccountRetryAfter(
    cfg: Config, start: int, history: seq<DeskEvent>, now: nat, login: Login, events: seq<DeskEvent>, later: int)
    requires DeskOrdered(start, history) && DeskLatest(start, history) <= now
    requires RefusedBy(cfg, DeskAfter(cfg, OPENING, history), now, login, ByAccount)
    requires DeskOrdered(now, events) && DeskLatest(now, events) <= later
    requires var d := DeskAfter(cfg, OPENING, history);
             LeftAlone(cfg, Begun(cfg, d, now, login), events, login.account, RefusedEntry(cfg, d, now, login).lockUntil)
    ensures var d := DeskAfter(cfg, OPENING, history);
            var entry, wait := RefusedEntry(cfg, d, now, login), Wait(cfg, d, now, login);
            && entry.lockUntil <= now + wait < entry.lockUntil + 1000
            && (CheckAccount(cfg, DeskAfter(cfg, Begun(cfg, d, now, login), events).t, later, login.account).1.Refused?
                <==> later < entry.lockUntil || |Live(entry.fails, cfg.accountWindowMs, later)| >= cfg.accountMax)
  {
    var d := DeskAfter(cfg, OPENING, history);
    var d', entry := Begun(cfg, d, now, login), RefusedEntry(cfg, d, now, login);
    LiveInOrder(cfg, start, history, now, login.ip);
    RefusedIsHeld(cfg, d, now, login);
    RetryAfterRounds(entry.lockUntil - now);
    HeldRun(cfg, d', now, events, login.account, entry.lockUntil, entry.fails);
    HeldLater(cfg, DeskAfter(cfg, d', events), DeskLatest(now, events), later, login.account, entry.lockUntil, entry.fails);
    HeldRefusal(cfg, DeskAfter(cfg, d', events).t, later, login.account, entry.lockUntil, entry.fails);
  }

  // ---- logins one at a time ---------------------------------------------------

  /** No login begins while another is in flight. */
  predicate Serial(cfg: Config, d: Desk, events: seq<DeskEvent>)
    decreases events
  {
    events == [] || (
      && (events[0].act.Begin? ==> d.open == [])
      && Serial(cfg, DeskStep(cfg, d, events[0]), events[1..]))
  }

  /** What serial logins keep: a locked account has nothing against it, and no IP exceeds its cap. */
  ghost predicate Orderly(cfg: Config, d: Desk, now: int) {
    && Synced(cfg, d.t, now)
    && |d.open| <= 1
    && (forall k :: IsLocked(d.t, k, now) ==>
          Live(d.t.mem.accounts[k].fails, cfg.accountWindowMs, now) == [])
    && (forall k :: IsLocked(d.t, k, now) ==> d.open == [] || d.open[0].account != k)
    && (forall ip :: OrderlyIp(cfg, d, now, ip))
  }

  predicate OrderlyIp(cfg: Config, d: Desk, now: int, ip: string) {
    var live := Live(AttemptsOf(d.t.mem, ip), cfg.ipWindowMs, now);
    Ascending(live, now) && |live| + OpenFrom(d.open, ip) <= cfg.ipMax
  }

  lemma OrderlyLater(cfg: Config, d: Desk, now: int, later: int)
    requires Orderly(cfg, d, now) && now <= later
    ensures Orderly(cfg, d, later)
  {
    AgreeLater(cfg, d.t.mem, d.t.sink.value, now, later);
    forall ip ensures OrderlyIp(cfg, d, later, ip) {
      assert OrderlyIp(cfg, d, now, ip);
      var attempts := AttemptsOf(d.t.mem, ip);
      LiveLater(attempts, cfg.ipWindowMs, now, later);
      LiveAscending(Live(attempts, cfg.ipWindowMs, now), now, cfg.ipWindowMs, later);
    }
    forall k | IsLocked(d.t, k, later)
      ensures Live(d.t.mem.accounts[k].fails, cfg.accountWindowMs, later) == []
      ensures d.open == [] || d.open[0].account != k
    {
      assert IsLocked(d.t, k, now);
      LiveLater(d.t.mem.accounts[k].fails, cfg.accountWindowMs, now, later);
    }
  }

  /** One at a time, an accepted login has the room its failure will take. */
  lemma RoomForOne(cfg: Config, d: Desk, e: DeskEvent, ip: string)
    requires Synced(cfg, d.t, e.now) && OrderlyIp(cfg, d, e.now, ip) && (e.act.Begin? ==> d.open == [])
    ensures |Live(AttemptsOf(d.t.mem, ip), cfg.ipWindowMs, e.now)| + |NewFailures(d, e, ip)|
            + OpenFrom(DeskStep(cfg, d, e).open, ip) <= cfg.ipMax
  {
    match e.act
    case Begin(login) =>
      if Verdict(cfg, d, e) == Some(Allowed) && login.ip == ip {
        AcceptedHasRoom(cfg, d.t, e.now, ip, login.account);
      }
    case Finish(i, ok) => if i < |d.open| { OpenFromRemove(d.open, i, ip); }
    case Sweep =>
    case Reboot =>
  }

  lemma OrderlyIpStep(cfg: Config, d: Desk, e: DeskEvent, ip: string)
    requires Synced(cfg, d.t, e.now) && OrderlyIp(cfg, d, e.now, ip) && (e.act.Begin? ==> d.open == [])
    ensures OrderlyIp(cfg, DeskStep(cfg, d, e), e.now, ip)
  {
    RoomForOne(cfg, d, e, ip);
    LiveAttemptsStep(cfg, d, e, ip);
    var live, added := Live(AttemptsOf(d.t.mem, ip), cfg.ipWindowMs, e.now), NewFailures(d, e, ip);
    assert Ascending(live + added, e.now);
  }

  lemma OrderlyLockStep(cfg: Config, d: Desk, e: DeskEvent, k: string)
    requires Orderly(cfg, d, e.now) && (e.act.Begin? ==> d.open == [])
    requires IsLocked(DeskStep(cfg, d, e).t, k, e.now)
    ensures var d' := DeskStep(cfg, d, e);
            && Live(d'.t.mem.accounts[k].fails, cfg.accountWindowMs, e.now) == []
            && (d'.open == [] || d'.open[0].account != k)
  {
    var op := OpOf(d, e.act);
    if IsLocked(d.t, k, e.now) {
      LockedStep(cfg, d, e.now, e, k, d.t.mem.accounts[k].lockUntil);
    } else if op.Some? {
      NewLock(cfg, d.t, Event(e.now, op.value), k);
    }
  }

  lemma OrderlyStep(cfg: Config, d: Desk, now: int, e: DeskEvent)
    requires Orderly(cfg, d, now) && now <= e.now && (e.act.Begin? ==> d.open == [])
    ensures Orderly(cfg, DeskStep(cfg, d, e), e.now)
  {
    OrderlyLater(cfg, d, now, e.now);
    DeskStepSynced(cfg, d, now, e);
    forall ip ensures OrderlyIp(cfg, DeskStep(cfg, d, e), e.now, ip) {
      OrderlyIpStep(cfg, d, e, ip);
    }
    forall k | IsLocked(DeskStep(cfg, d, e).t, k, e.now)
      ensures Live(DeskStep(cfg, d, e).t.mem.accounts[k].fails, cfg.accountWindowMs, e.now) == []
      ensures DeskStep(cfg, d, e).open == [] || DeskStep(cfg, d, e).open[0].account != k
    {
      OrderlyLockStep(cfg, d, e, k);
    }
  }

  lemma {:induction false} OrderlyRun(cfg: Config, d: Desk, now: int, events: seq<DeskEvent>)
    requires Orderly(cfg, d, now) && DeskOrdered(now, events) && Serial(cfg, d, events)
    ensures Orderly(cfg, DeskAfter(cfg, d, events), DeskLatest(now, events))
    decreases events
  {
    if events != [] {
      OrderlyStep(cfg, d, now, events[0]);
      OrderlyRun(cfg, DeskStep(cfg, d, events[0]), events[0].now, events[1..]);
    }
  }

  /** The account is not checked again once its lock is over. */
  predicate NotTriedAfter(events: seq<DeskEvent>, account: string, until: int) {
    forall i :: 0 <= i < |events| ==>
      (events[i].act.Begin? && events[i].act.login.account == account ==> events[i].now < until)
  }

  /** A locked account none of whose logins is in flight is left alone until it is tried again. */
  lemma {:induction false} NobodyInFlight(
    cfg: Config, d: Desk, now: int, events: seq<DeskEvent>, account: string, until: int, fails: seq<int>)
    requires Held(cfg, d, now, account, until, fails) && DeskOrdered(now, events)
    requires forall i :: 0 <= i < |d.open| ==> d.open[i].account != account
    requires NotTriedAfter(events, account, until)
    ensures LeftAlone(cfg, d, events, account, until)
    decreases events
  {
    if events != [] {
      var e := events[0];
      HeldStep(cfg, d, now, e, account, until, fails);
      HeldLater(cfg, d, now, e.now, account, until, fails);
      forall i | 0 <= i < |events[1..]|
        ensures events[1..][i].act.Begin? && events[1..][i].act.login.account == account ==> events[1..][i].now < until
      {
        assert events[1..][i] == events[i + 1];
      }
      NobodyInFlight(cfg, DeskStep(cfg, d, e), e.now, events[1..], account, until, fails);
    }
  }

  /** The instant at which a refusal of the given kind ends. */
  function ReleaseOf(cfg: Config, d: Desk, now: nat, login: Login, reason: Reason): int
    requires reason == ByIp ==> |LiveAttempts(cfg, d.t, now, login.ip)| >= cfg.ipMax
  {
    if reason == ByIp then IpRelease(cfg, d.t, now, login.ip) else RefusedEntry(cfg, d, now, login).lockUntil
  }

  /** Nothing that counts against the refused login happens: no failure of its IP, or no new try of
      its account after the lock. */
  predicate NothingAdded(cfg: Config, d: Desk, events: seq<DeskEvent>, login: Login, reason: Reason, release: int) {
    if reason == ByIp then NoFailures(cfg, d, events, login.ip) else NotTriedAfter(events, login.account, release)
  }

  function Dimension(cfg: Config, t: Throttle, later: int, login: Login, reason: Reason): CheckResult {
    if reason == ByIp then CheckIp(cfg, t.mem, later, login.ip).1 else CheckAccount(cfg, t, later, login.account).1
  }

  /** With logins run one at a time up to the refusal, for both reasons: whatever runs afterwards,
      the dimension that refused refuses exactly until one instant, and waiting Retry-After reaches
      it and overshoots by less than a second. */
  lemma SerialRetryAfter(
    cfg: Config, start: int, history: seq<DeskEvent>, now: nat, login: Login, events: seq<DeskEvent>, later: int)
    requires DeskOrdered(start, history) && Serial(cfg, OPENING, history) && DeskLatest(start, history) <= now
    requires DeskAfter(cfg, OPENING, history).open == []
    requires Check(cfg, DeskAfter(cfg, OPENING, history).t, now, login.ip, login.account).1.Refused?
    requires DeskOrdered(now, events) && DeskLatest(now, events) <= later
    requires var d := DeskAfter(cfg, OPENING, history);
             var reason := Check(cfg, d.t, now, login.ip, login.account).1.reason;
             && (reason == ByIp ==> |LiveAttempts(cfg, d.t, now, login.ip)| >= cfg.ipMax)
             && NothingAdded(cfg, Begun(cfg, d, now, login), events, login, reason, ReleaseOf(cfg, d, now, login, reason))
    ensures var d := DeskAfter(cfg, OPENING, history);
            var reason := Check(cfg, d.t, now, login.ip, login.account).1.reason;
            var release := ReleaseOf(cfg, d, now, login, reason);
            && (Dimension(cfg, DeskAfter(cfg, Begun(cfg, d, now, login), events).t, later, login, reason).Refused?
                <==> later < release)
            && release <= now + Wait(cfg, d, now, login) < release + 1000
  {
    var d := DeskAfter(cfg, OPENING, history);
    OrderlyRun(cfg, OPENING, start, history);
    OrderlyLater(cfg, d, DeskLatest(start, history), now);
    assert OrderlyIp(cfg, d, now, login.ip);
    if RefusedBy(cfg, d, now, login, ByIp) {
      IpWait(cfg, start, history, now, login);
      IpReleaseOverRuns(cfg, start, history, now, login, events, later);
    } else {
      SerialByAccount(cfg, start, history, now, login, events, later);
    }
  }

  lemma SerialByAccount(
    cfg: Config, start: int, history: seq<DeskEvent>, now: nat, login: Login, events: seq<DeskEvent>, later: int)
    requires DeskOrdered(start, history) && DeskLatest(start, history) <= now
    requires var d := DeskAfter(cfg, OPENING, history);
             && Orderly(cfg, d, now) && d.open == [] && RefusedBy(cfg, d, now, login, ByAccount)
             && NotTriedAfter(events, login.account, RefusedEntry(cfg, d, now, login).lockUntil)
    requires DeskOrdered(now, events) && DeskLatest(now, events) <= later
    ensures var d := DeskAfter(cfg, OPENING, history);
            var release := RefusedEntry(cfg, d, now, login).lockUntil;
            && (CheckAccount(cfg, DeskAfter(cfg, Begun(cfg, d, now, login), events).t, later, login.account).1.Refused?
                <==> later < release)
            && release <= now + Wait(cfg, d, now, login) < release + 1000
  {
    DeskOrderedLatest(now, events);
    SerialAccount(cfg, DeskAfter(cfg, OPENING, history), now, login, events, later);
    AccountRetryAfter(cfg, start, history, now, login, events, later);
  }

  lemma SerialAccount(
    cfg: Config, d: Desk, now: nat, login: Login, events: seq<DeskEvent>, later: int)
    requires Orderly(cfg, d, now) && d.open == [] && RefusedBy(cfg, d, now, login, ByAccount)
    requires DeskOrdered(now, events) && now <= later
    requires NotTriedAfter(events, login.account, RefusedEntry(cfg, d, now, login).lockUntil)
    ensures var entry := RefusedEntry(cfg, d, now, login);
            && LeftAlone(cfg, Begun(cfg, d, now, login), events, login.account, entry.lockUntil)
            && Live(entry.fails, cfg.accountWindowMs, later) == []
  {
    var entry := RefusedEntry(cfg, d, now, login);
    RefusedIsHeld(cfg, d, now, login);
    NobodyInFlight(cfg, Begun(cfg, d, now, login), now, events, login.account, entry.lockUntil, entry.fails);
    LiveLater(entry.fails, cfg.accountWindowMs, now, later);
  }

  // ---- what concurrency breaks ------------------------------------------------

  const CAP_OF_ONE: Config := RawConfig(1, 900_000, 5, 900_000, [180_000])
  const RUSH := [
    DeskEvent(0, Begin(Login("ip", "x"))), DeskEvent(0, Begin(Login("ip", "y"))),
    DeskEvent(0, Finish(0, false)), DeskEvent(5_000, Finish(0, false))]

  lemma RushDesk()
    ensures var d := DeskAfter(CAP_OF_ONE, OPENING, RUSH);
            FailuresOf(d, "ip") == [0, 5_000] && AttemptsOf(d.t.mem, "ip") == [0, 5_000]
  {
    var d0 := OPENING;
    var d1 := DeskStep(CAP_OF_ONE, d0, RUSH[0]);
    assert d1 == d0.(open := [Login("ip", "x")]);
    var d2 := DeskStep(CAP_OF_ONE, d1, RUSH[1]);
    assert d2 == d0.(open := [Login("ip", "x"), Login("ip", "y")]);
    var d3 := DeskStep(CAP_OF_ONE, d2, RUSH[2]);
    assert d3.open == [Login("ip", "y")] && FailuresOf(d3, "ip") == [0] && AttemptsOf(d3.t.mem, "ip") == [0];
    var d4 := DeskStep(CAP_OF_ONE, d3, RUSH[3]);
    assert RUSH[1..][1..][1..][1..] == [];
    assert DeskAfter(CAP_OF_ONE, d3, RUSH[3..]) == d4;
  }

  lemma RushLive()
    ensures Live([0, 5_000], 900_000, 5_000) == [0, 5_000] && Live([0, 5_000], 900_000, 900_000) == [5_000]
    ensures InWindow([0, 5_000], 0, 900_000) == 2
  {
    assert [0, 5_000][1..] == [5_000] && [5_000][1..] == [];
    assert InWindow([5_000], 0, 900_000) == 1;
  }

  /** With two logins in flight at once, an IP fails twice under a cap of one, and the
      Retry-After it is then given ends before it may try again. */
  lemma ConcurrentLoginsBreakBoth()
    ensures var d := DeskAfter(CAP_OF_ONE, OPENING, RUSH);
            && InWindow(FailuresOf(d, "ip"), 0, CAP_OF_ONE.ipWindowMs) > CAP_OF_ONE.ipMax
            && var (t', answer) := Check(CAP_OF_ONE, d.t, 5_000, "ip", "z");
               answer.Refused? && CheckIp(CAP_OF_ONE, t'.mem, 5_000 + 1000 * answer.retryAfterSec, "ip").1.Refused?
  {
    RushDesk();
    RushLive();
  }

  const ONE_STRIKE: Config := RawConfig(10, 900_000, 1, 900_000, [1_000])
  const LATE_FAILURE: seq<DeskEvent> := [
    DeskEvent(0, Begin(Login("ip", "x"))), DeskEvent(0, Begin(Login("ip", "x"))), DeskEvent(0, Finish(0, false)),
    DeskEvent(1, Begin(Login("ip", "x"))), DeskEvent(2, Finish(0, false))]

  /** The account and the IP, as far as the run goes. */
  predicate Stands(d: Desk, open: seq<Login>, attempts: seq<int>, entry: Option<Account>) {
    && d.open == open && AttemptsOf(d.t.mem, "ip") == attempts
    && (if entry.Some? then "x" in d.t.mem.accounts && d.t.mem.accounts["x"] == entry.value
        else "x" !in d.t.mem.accounts)
  }

  lemma LateFailureStep(d: Desk, e: DeskEvent, open: seq<Login>, attempts: seq<int>, entry: Option<Account>)
    requires Stands(d, open, attempts, entry)
    ensures e.act == Begin(Login("ip", "x")) && entry.None? && |Live(attempts, 900_000, e.now)| < 10 ==>
              Stands(DeskStep(ONE_STRIKE, d, e), open + [Login("ip", "x")], Live(attempts, 900_000, e.now), None)
    ensures e.act == Begin(Login("ip", "x")) && entry.Some? && entry.value.lockUntil <= e.now
            && |Live(attempts, 900_000, e.now)| < 10 && |Live(entry.value.fails, 900_000, e.now)| >= 1 ==>
              Stands(DeskStep(ONE_STRIKE, d, e), open, Live(attempts, 900_000, e.now),
                     Some(Account([], e.now + 1_000, entry.value.lockCount + 1)))
    ensures e.act == Finish(0, false) && open != [] && open[0] == Login("ip", "x") ==>
              Stands(DeskStep(ONE_STRIKE, d, e), open[1..], attempts + [e.now],
                     Some(if entry.Some? then entry.value.(fails := entry.value.fails + [e.now])
                          else Account([e.now], 0, 0)))
  {
    assert open != [] ==> open[..0] + open[1..] == open[1..];
  }

  lemma TwoSteps(cfg: Config, d: Desk, e: seq<DeskEvent>)
    requires |e| >= 2
    ensures DeskAfter(cfg, d, e) == DeskAfter(cfg, DeskStep(cfg, DeskStep(cfg, d, e[0]), e[1]), e[2..])
  {
    assert e[1..][1..] == e[2..];
  }

  lemma FiveSteps(cfg: Config, d: Desk, e: seq<DeskEvent>)
    requires |e| == 5
    ensures DeskAfter(cfg, d, e)
         == DeskStep(cfg, DeskStep(cfg, DeskStep(cfg, DeskStep(cfg, DeskStep(cfg, d, e[0]), e[1]), e[2]), e[3]), e[4])
  {
    var d2 := DeskStep(cfg, DeskStep(cfg, d, e[0]), e[1]);
    TwoSteps(cfg, d, e);
    TwoSteps(cfg, d2, e[2..]);
    assert e[2..][2..] == [e[4]] && [e[4]][1..] == [];
  }

  lemma LateFailureDesk()
    ensures Stands(DeskAfter(ONE_STRIKE, OPENING, LATE_FAILURE), [], [0, 2], Some(Account([2], 1_001, 1)))
  {
    LateFailureStands(LATE_FAILURE);
  }

  lemma LateFailureStands(e: seq<DeskEvent>)
    requires |e| == 5 && e[0] == e[1] == DeskEvent(0, Begin(Login("ip", "x"))) && e[2] == DeskEvent(0, Finish(0, false))
    requires e[3] == DeskEvent(1, Begin(Login("ip", "x"))) && e[4] == DeskEvent(2, Finish(0, false))
    ensures Stands(DeskAfter(ONE_STRIKE, OPENING, e), [], [0, 2], Some(Account([2], 1_001, 1)))
  {
    var x := Login("ip", "x");
    var d1 := DeskStep(ONE_STRIKE, OPENING, e[0]);
    LateFailureStep(OPENING, e[0], [], [], None);
    var d2 := DeskStep(ONE_STRIKE, d1, e[1]);
    LateFailureStep(d1, e[1], [x], [], None);
    var d3 := DeskStep(ONE_STRIKE, d2, e[2]);
    LateFailureStep(d2, e[2], [x, x], [], None);
    assert [x, x][1..] == [x];
    var d4 := DeskStep(ONE_STRIKE, d3, e[3]);
    LateFailureStep(d3, e[3], [x], [0], Some(Account([0], 0, 0)));
    LateFailureStep(d4, e[4], [x], [0], Some(Account([], 1_001, 1)));
    FiveSteps(ONE_STRIKE, OPENING, e);
  }

  /** A failing login that was in flight when the lock was set counts against the locked account: a
      check refused during the lock is told to wait, and is refused again, with a new lock, when it
      has waited as told. */
  lemma LateFailureLocksAgain()
    ensures var t := DeskAfter(ONE_STRIKE, OPENING, LATE_FAILURE).t;
            var (t', answer) := Check(ONE_STRIKE, t, 3, "ip", "x");
            && answer == Refused(1, ByAccount)
            && var (t'', again) := Check(ONE_STRIKE, t', 1_003, "ip", "x");
               again == Refused(1, ByAccount) && "x" in t''.mem.accounts && t''.mem.accounts["x"] == Account([], 2_003, 2)
  {
    LateFailureDesk();
    assert Live([0, 2], 900_000, 3) == [0, 2] && Live([0, 2], 900_000, 1_003) == [0, 2];
    assert Live([2], 900_000, 1_003) == [2];
  }
}
