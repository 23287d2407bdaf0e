/** What becomes of a start, a stop and a child: the states the gateway reads, from the call to the end. */
module SupervisorLives {
  import opened SupervisorModel

  function After(s: Supervision, events: seq<Event>): Supervision
    decreases events
  {
    if events == [] then s else After(Step(s, events[0]), events[1..])
  }

  lemma {:induction false} AfterConcat(s: Supervision, a: seq<Event>, b: seq<Event>)
    ensures After(s, a + b) == After(After(s, a), b)
    decreases a
  {
    if a == [] {
      assert a + b == b;
    } else {
      assert (a + b)[1..] == a[1..] + b && (a + b)[0] == a[0];
      AfterConcat(Step(s, a[0]), a[1..], b);
    }
  }

  lemma AfterTwo(s: Supervision, a: Event, b: Event)
    ensures After(s, [a, b]) == Step(Step(s, a), b)
  {
    assert [a, b][1..] == [b] && [b][1..] == [];
    assert After(Step(s, a), [b]) == After(Step(Step(s, a), b), []);
  }

  /** The states written since an earlier moment. */
  function Written(s: Supervision, t: Supervision): seq<DaemonState>
    requires |s.writes| <= |t.writes|
  {
    States(t.writes[|s.writes|..])
  }

  function States(writes: seq<Write>): seq<DaemonState> {
    seq(|writes|, i requires 0 <= i < |writes| => writes[i].state)
  }

  /** Since `s` just these states have been written, on top of all that was; the last one stands. */
  predicate Wrote(s: Supervision, t: Supervision, states: seq<DaemonState>) {
    && s.writes <= t.writes && Written(s, t) == states
    && t.state == (if states == [] then s.state else states[|states| - 1])
  }

  lemma WroteMore(s: Supervision, t: Supervision, u: Supervision, first: seq<DaemonState>, then_: seq<DaemonState>)
    requires Wrote(s, t, first) && Wrote(t, u, then_)
    ensures Wrote(s, u, first + then_)
  {
    var m, n := |s.writes|, |t.writes|;
    assert u.writes[m..] == t.writes[m..] + u.writes[n..];
    assert States(u.writes[m..]) == States(t.writes[m..]) + States(u.writes[n..]);
  }

  // ---- a start ----------------------------------------------------------------

  /** Nothing is under way: no start, script or wait that could write a state. */
  predicate Quiet(s: Supervision) {
    s.starts == 0 && s.scripts == [] && s.waits == []
  }

  /** A supervisor begins with nothing under way, no child, and no state to report. */
  lemma BeginsQuiet(config: Config)
    ensures var s := Boot(config);
            Quiet(s) && s.child == NoChild && s.processes == 0 && s.state == Unknown && s.writes == []
    ensures Boot(config).kills == 0 && Boot(config).stops == 0 && !Boot(config).stopRequested
  {
  }

  /** A start of a dsh that is up already: RUNNING, and no second one. */
  lemma StartOfRunning(s: Supervision, disk: Config)
    requires Quiet(s) && disk.enabled && !s.child.Alive?
    ensures var t := After(s, [StartCalled(disk), StartAnswered(true)]);
            Wrote(s, t, [Running]) && Quiet(t) && t.processes == s.processes && t.child == s.child
  {
    AfterTwo(s, StartCalled(disk), StartAnswered(true));
  }

  /** A start while supervision is switched off, or of a child that is alive, does nothing. */
  lemma StartRefused(s: Supervision, disk: Config)
    requires !disk.enabled || s.child.Alive?
    ensures var t := Step(s, StartCalled(disk));
            Wrote(s, t, []) && t.starts == s.starts && t.processes == s.processes && t.child == s.child
  {
  }

  /** STARTING, with one wait of the current token, `n` rounds old. */
  predicate Awaiting(s: Supervision, n: nat) {
    && s.state == Starting && s.starts == 0 && s.scripts == []
    && |s.waits| == 1 && s.waits[0].token == s.startToken && s.waits[0].rounds == n && s.waits[0].phase.Sleeping?
    && (s.waits[0].childMode ==> s.child.Alive?)
  }

  /** `n` rounds in which dsh does not answer. */
  function Rounds(n: nat): seq<Event> {
    if n == 0 then [] else Rounds(n - 1) + [Woke(0), Probed(0, false)]
  }

  lemma OneRound(s: Supervision, n: nat, up: bool)
    requires Awaiting(s, n) && n < READY_ATTEMPTS
    ensures var t := After(s, [Woke(0), Probed(0, up)]);
            if up then Wrote(s, t, [Running]) && Quiet(t)
            else if n + 1 < READY_ATTEMPTS then Wrote(s, t, []) && Awaiting(t, n + 1)
            else Wrote(s, t, [Exited]) && Quiet(t)
    ensures After(s, [Woke(0), Probed(0, up)]).child == s.child
  {
    var woken := Step(s, Woke(0));
    assert woken.waits == [s.waits[0].(phase := Probing, woken := s.steps)];
    assert Wrote(s, woken, []);
    AfterTwo(s, Woke(0), Probed(0, up));
    RoundEnds(woken, n, up);
  }

  lemma RoundEnds(s: Supervision, n: nat, up: bool)
    requires |s.waits| == 1 && s.waits[0].phase.Probing? && s.waits[0].token == s.startToken && s.waits[0].rounds == n
    requires s.state == Starting && s.starts == 0 && s.scripts == [] && (s.waits[0].childMode ==> s.child.Alive?)
    requires n < READY_ATTEMPTS
    ensures var t := Step(s, Probed(0, up));
            && t.child == s.child
            && if up then Wrote(s, t, [Running]) && Quiet(t)
               else if n + 1 < READY_ATTEMPTS then Wrote(s, t, []) && Awaiting(t, n + 1)
               else Wrote(s, t, [Exited]) && Quiet(t)
  {
    assert Without(s.waits, 0) == [];
  }

  /** Still waiting, `n` rounds on, with nothing written since. */
  predicate Waited(s: Supervision, t: Supervision, n: nat) {
    Wrote(s, t, []) && Awaiting(t, n) && t.child == s.child
  }

  lemma RoundMore(s: Supervision, t: Supervision, n: nat)
    requires n + 1 < READY_ATTEMPTS && Waited(s, t, n)
    ensures Waited(s, After(t, [Woke(0), Probed(0, false)]), n + 1)
  {
    OneRound(t, n, false);
    WroteMore(s, t, After(t, [Woke(0), Probed(0, false)]), [], []);
  }

  lemma {:induction false} RoundsPass(s: Supervision, n: nat)
    requires Awaiting(s, 0) && n < READY_ATTEMPTS
    ensures Waited(s, After(s, Rounds(n)), n)
  {
    if n == 0 {
      assert After(s, Rounds(0)) == s;
    } else {
      RoundsPass(s, n - 1);
      RoundMore(s, After(s, Rounds(n - 1)), n - 1);
      AfterConcat(s, Rounds(n - 1), [Woke(0), Probed(0, false)]);
    }
  }

  /** A readiness wait left alone: STARTING until the probe answers, then RUNNING; or EXITED when 120
      probes have gone unanswered. Nothing else is written. */
  lemma WaitSettles(s: Supervision, n: nat)
    requires Awaiting(s, 0) && n < READY_ATTEMPTS
    ensures var t := After(s, Rounds(n) + [Woke(0), Probed(0, true)]); Wrote(s, t, [Running]) && Quiet(t)
    ensures Wrote(s, After(s, Rounds(n)), []) && After(s, Rounds(n)).state == Starting
    ensures var t := After(s, Rounds(120)); Wrote(s, t, [Exited]) && Quiet(t)
  {
    RoundsPass(s, n);
    var waiting := After(s, Rounds(n));
    AfterConcat(s, Rounds(n), [Woke(0), Probed(0, true)]);
    OneRound(waiting, n, true);
    WroteMore(s, waiting, After(s, Rounds(n) + [Woke(0), Probed(0, true)]), [], [Running]);
    assert [] + [Running] == [Running];
    LastRound(s);
  }

  lemma LastRound(s: Supervision)
    requires Awaiting(s, 0)
    ensures var t := After(s, Rounds(120)); Wrote(s, t, [Exited]) && Quiet(t)
  {
    RoundsPass(s, 119);
    var waiting := After(s, Rounds(119));
    AfterConcat(s, Rounds(119), [Woke(0), Probed(0, false)]);
    OneRound(waiting, 119, false);
    WroteMore(s, waiting, After(s, Rounds(120)), [], [Exited]);
    assert [] + [Exited] == [Exited];
  }

  /** The start of a dsh that is down, as far as its wait: one process and its wait, or the script. */
  lemma StartOfChild(s: Supervision, disk: Config)
    requires Quiet(s) && disk.enabled && disk.childMode && !disk.argvEmpty && disk.hasProbe && !s.child.Alive?
    ensures var t := After(s, [StartCalled(disk), StartAnswered(false)]);
            Wrote(s, t, [Starting]) && Awaiting(t, 0) && t.child == Alive && t.processes == s.processes + 1
  {
    AfterTwo(s, StartCalled(disk), StartAnswered(false));
  }

  /** STARTING, with the current token's start script running. */
  predicate Scripting(s: Supervision) {
    s.state == Starting && s.starts == 0 && s.scripts == [s.startToken] && s.waits == [] && !s.config.childMode
  }

  lemma ScriptEnds(s: Supervision, ok: bool)
    requires Scripting(s)
    ensures var t := Step(s, ScriptEnded(0, ok));
            && t.child == s.child && t.processes == s.processes
            && (!ok ==> Wrote(s, t, [Exited]) && Quiet(t))
            && (ok && s.config.hasProbe ==> Wrote(s, t, []) && Awaiting(t, 0))
            && (ok && !s.config.hasProbe ==> Wrote(s, t, [Running]) && Quiet(t))
  {
    assert Without(s.scripts, 0) == [];
  }

  lemma ScriptStarts(s: Supervision, disk: Config)
    requires Quiet(s) && disk.enabled && !disk.childMode && !disk.startBlank && !s.child.Alive?
    ensures var t := After(s, [StartCalled(disk), StartAnswered(false)]);
            Wrote(s, t, [Starting]) && Scripting(t) && t.config == disk && t.processes == s.processes
  {
    AfterTwo(s, StartCalled(disk), StartAnswered(false));
  }

  /** By script: STARTING while it runs; EXITED if it fails; else a wait, or RUNNING if there is no probe. */
  lemma StartByScript(s: Supervision, disk: Config, ok: bool)
    requires Quiet(s) && disk.enabled && !disk.childMode && !disk.startBlank && !s.child.Alive?
    ensures var launched := After(s, [StartCalled(disk), StartAnswered(false)]);
            var t := Step(launched, ScriptEnded(0, ok));
            && Wrote(s, launched, [Starting]) && t.processes == s.processes
            && (!ok ==> Wrote(s, t, [Starting] + [Exited]) && Quiet(t))
            && (ok && disk.hasProbe ==> Wrote(s, t, [Starting] + []) && Awaiting(t, 0))
            && (ok && !disk.hasProbe ==> Wrote(s, t, [Starting] + [Running]) && Quiet(t))
  {
    ScriptStarts(s, disk);
    var launched := After(s, [StartCalled(disk), StartAnswered(false)]);
    ScriptEnds(launched, ok);
    WroteMore(s, launched, Step(launched, ScriptEnded(0, ok)), [Starting],
              if !ok then [Exited] else if disk.hasProbe then [] else [Running]);
  }

  /** Nothing is configured to be run. */
  predicate NoCommand(c: Config) {
    if c.childMode then c.argvEmpty else c.startBlank
  }

  /** A start of a dsh that is down always leaves something under way that will settle the state, a script
      or a wait, or has settled it, if and only if there is a command to run; without one STARTING is
      written, and stays. */
  lemma StartWithoutCommand(s: Supervision, disk: Config)
    requires Quiet(s) && disk.enabled && !s.child.Alive?
    ensures var t := After(s, [StartCalled(disk), StartAnswered(false)]);
            (t.state == Starting && Quiet(t)) <==> NoCommand(disk)
  {
    AfterTwo(s, StartCalled(disk), StartAnswered(false));
  }

  // ---- a stop -----------------------------------------------------------------

  /** The stop of a child, through SIGTERM or SIGKILL: STARTING, then STOPPED, and the exit it brings
      about is not reported as one. */
  lemma StopOfChild(s: Supervision, disk: Config, killed: bool, patience: bool)
    requires s.child.Alive? && s.processes > 0 && s.kills == 0
    ensures var called := Step(s, StopCalled(disk, killed));
            var insisted := if patience then called else Step(called, Insisted(true));
            var t := Step(Step(insisted, ChildExited), KillEnded);
            && (killed || !patience ==> insisted.child == Killed)
            && Wrote(s, Step(insisted, ChildExited), [Starting])
            && Wrote(s, t, [Starting, Stopped]) && t.child == NoChild && t.processes == s.processes - 1 && t.kills == 0
  {
  }

  /** Without a child the stop script is run; without one too, stop ends at once. */
  lemma StopWithoutChild(s: Supervision, disk: Config)
    requires !s.child.Alive? && s.stops == 0
    ensures var called := Step(s, StopCalled(disk, false));
            if disk.stopBlank then Wrote(s, called, [Starting, Stopped]) && called.stops == 0
            else
              && Wrote(s, called, [Starting]) && called.stops == 1
              && Wrote(s, Step(called, StopEnded), [Starting, Stopped]) && Step(called, StopEnded).stops == 0
  {
  }

  /** SIGKILL is for a living child a stop is waiting for, and for no other. */
  lemma InsistIsOfStop(s: Supervision, killed: bool)
    requires s.kills == 0 || !s.child.Alive? || !killed
    ensures Step(s, Insisted(killed)).child == s.child
  {
  }

  // ---- others -----------------------------------------------------------------

  /** What happens to one wait or script leaves every other one as it is. */
  lemma OthersGoOn(s: Supervision, k: nat, i: nat, up: bool)
    requires i != k
    ensures i < |s.waits| ==> s.waits[i] in WaitWake(s, k).waits && s.waits[i] in WaitProbed(s, k, up).waits
    ensures i < |s.scripts| ==> s.scripts[i] in StartScripted(s, k, up).scripts
  {
    if i < |s.waits| {
      OtherWaits(s, k, i, up);
    }
    if i < |s.scripts| {
      OneLeft(s.scripts, k, i);
      ArmingLeaves(s.(scripts := Without(s.scripts, k)));
    }
  }

  lemma OtherWaits(s: Supervision, k: nat, i: nat, up: bool)
    requires i != k && i < |s.waits|
    ensures s.waits[i] in WaitWake(s, k).waits && s.waits[i] in WaitProbed(s, k, up).waits
  {
    OneLeft(s.waits, k, i);
    if k < |s.waits| {
      var w := s.waits[k];
      OneSet(s.waits, k, i, w.(phase := Probing, woken := s.steps));
      OneSet(s.waits, k, i, w.(rounds := w.rounds + 1, phase := Sleeping));
    }
  }

  lemma ArmingLeaves(s: Supervision)
    ensures forall token :: Arm(s, token).scripts == s.scripts
  {
  }

  lemma OneLeft<T>(items: seq<T>, k: nat, i: nat)
    requires i != k && i < |items|
    ensures items[i] in Without(items, k)
  {
    if k < |items| {
      if i < k {
        assert Without(items, k)[i] == items[i];
      } else {
        assert Without(items, k)[i - 1] == items[i];
      }
    }
  }

  lemma OneSet(waits: seq<Wait>, k: nat, i: nat, w: Wait)
    requires i != k && i < |waits| && k < |waits|
    ensures waits[i] in waits[k := w]
  {
    assert waits[k := w][i] == waits[i];
  }

  /** A script that ends after the settings have gone over to a managed child: without a probe only a
      living child counts as running. */
  lemma ScriptOutlived(s: Supervision, k: nat)
    requires k < |s.scripts| && s.config.childMode && !s.config.hasProbe
    ensures Wrote(s, Step(s, ScriptEnded(k, true)), if s.child.Alive? then [Running] else [])
  {
  }

  // ---- the exit of a child ----------------------------------------------------

  /** A stop has asked a child to exit, and neither has a stop ended nor a start been called since. */
  predicate StopPending(config: Config, events: seq<Event>) {
    events != [] && (
      var before, e := events[..|events| - 1], events[|events| - 1];
      var s, pending := Run(config, before), StopPending(config, before);
      match e
      case StartCalled(_) => false
      case StopCalled(disk, _) => s.child.Alive? || (pending && !disk.stopBlank)
      case KillEnded => pending && s.kills == 0
      case StopEnded => pending && s.stops == 0
      case _ => pending)
  }

  lemma {:induction false} StopIsAskedFor(config: Config, events: seq<Event>)
    ensures StopPending(config, events) <==> Run(config, events).stopRequested
  {
    if events != [] {
      StopIsAskedFor(config, events[..|events| - 1]);
      RequestStep(Run(config, events[..|events| - 1]), events[|events| - 1]);
    }
  }

  lemma RequestStep(s: Supervision, e: Event)
    ensures Step(s, e).stopRequested
       == match e
          case StartCalled(_) => false
          case StopCalled(disk, _) => s.child.Alive? || (s.stopRequested && !disk.stopBlank)
          case KillEnded => s.stopRequested && s.kills == 0
          case StopEnded => s.stopRequested && s.stops == 0
          case _ => s.stopRequested
  {
  }

  /** In every run a child that exits leaves EXITED, unless a stop still under way has asked it to: that
      stop then has the last word. */
  lemma ExitIsReported(config: Config, events: seq<Event>)
    requires Run(config, events).processes > 0
    ensures var s := Run(config, events);
            var t := Step(s, ChildExited);
            && t.child == NoChild && t.processes == s.processes - 1
            && Wrote(s, t, if StopPending(config, events) then [] else [Exited])
  {
    StopIsAskedFor(config, events);
  }
}
