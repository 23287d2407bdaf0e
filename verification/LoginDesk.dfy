/** The login route as the caller of the throttle: a login is checked, and some time later
    it fails or succeeds. Other logins, prunes and restarts may come in between. */
module LoginDesk {
  import opened Options
  import opened ThrottleModel
  import opened ThrottleRestart

  datatype Login = Login(ip: string, account: string)

  datatype Act =
    | Begin(login: Login)
    | Finish(i: nat, ok: bool) // the i-th login still open ends
    | Sweep
    | Reboot

  datatype DeskEvent = DeskEvent(now: nat, act: Act)

  /** The throttle, the logins between an accepted check and their outcome, and every
      recorded failure of each IP since the first start. */
  datatype Desk = Desk(t: Throttle, open: seq<Login>, failures: map<string, seq<int>>)

  const OPENING := Desk(FRESH, [], map[])

  function FailuresOf(d: Desk, ip: string): seq<int> {
    if ip in d.failures then d.failures[ip] else []
  }

  /** The throttle operation an event runs, if any: finishing a login nobody began is none. */
  function OpOf(d: Desk, act: Act): Option<Op> {
    match act
    case Begin(login) => Some(CheckOp(login.ip, login.account))
    case Finish(i, ok) =>
      if i >= |d.open| then None
      else if ok then Some(SuccessOp(d.open[i].account))
      else Some(FailureOp(d.open[i].ip, d.open[i].account))
    case Sweep => Some(PruneOp)
    case Reboot => Some(RestartOp)
  }

  /** What an event answers: the verdict of a check. */
  function Verdict(cfg: Config, d: Desk, e: DeskEvent): Option<CheckResult> {
    if e.act.Begin? then Step(cfg, d.t, Event(e.now, CheckOp(e.act.login.ip, e.act.login.account))).1 else None
  }

  function DeskStep(cfg: Config, d: Desk, e: DeskEvent): Desk {
    var op := OpOf(d, e.act);
    var t' := if op.None? then d.t else Step(cfg, d.t, Event(e.now, op.value)).0;
    match e.act
    case Begin(login) => Desk(t', if Verdict(cfg, d, e) == Some(Allowed) then d.open + [login] else d.open, d.failures)
    case Finish(i, ok) =>
      if i >= |d.open| then d
      else
        var ip := d.open[i].ip;
        Desk(t', d.open[..i] + d.open[i + 1..],
             if ok then d.failures else d.failures[ip := FailuresOf(d, ip) + [e.now]])
    case Sweep => d.(t := t')
    case Reboot => Desk(t', [], d.failures) // logins in flight die with the process
  }

  function DeskAfter(cfg: Config, d: Desk, events: seq<DeskEvent>): Desk
    decreases events
  {
    if events == [] then d else DeskAfter(cfg, DeskStep(cfg, d, events[0]), events[1..])
  }

  lemma {:induction false} DeskAfterConcat(cfg: Config, d: Desk, a: seq<DeskEvent>, b: seq<DeskEvent>)
    ensures DeskAfter(cfg, d, a + b) == DeskAfter(cfg, DeskAfter(cfg, d, a), b)
    decreases a
  {
    if a == [] {
      assert a + b == b;
    } else {
      assert (a + b)[1..] == a[1..] + b;
      DeskAfterConcat(cfg, DeskStep(cfg, d, a[0]), a[1..], b);
    }
  }

  predicate DeskOrdered(from: int, events: seq<DeskEvent>)
    decreases events
  {
    events == [] || (from <= events[0].now && DeskOrdered(events[0].now, events[1..]))
  }

  function DeskLatest(from: int, events: seq<DeskEvent>): int {
    if events == [] then from else events[|events| - 1].now
  }

  lemma DeskStepSynced(cfg: Config, d: Desk, now: int, e: DeskEvent)
    requires Synced(cfg, d.t, now) && now <= e.now
    ensures Synced(cfg, DeskStep(cfg, d, e).t, e.now)
  {
    var op := OpOf(d, e.act);
    if op.Some? {
      StepSynced(cfg, d.t, now, Event(e.now, op.value));
    } else {
      AgreeLater(cfg, d.t.mem, d.t.sink.value, now, e.now);
    }
  }

  lemma {:induction false} DeskRunSynced(cfg: Config, d: Desk, now: int, events: seq<DeskEvent>)
    requires Synced(cfg, d.t, now) && DeskOrdered(now, events)
    ensures Synced(cfg, DeskAfter(cfg, d, events).t, DeskLatest(now, events))
    decreases events
  {
    if events != [] {
      DeskStepSynced(cfg, d, now, events[0]);
      DeskRunSynced(cfg, DeskStep(cfg, d, events[0]), events[0].now, events[1..]);
    }
  }
}
