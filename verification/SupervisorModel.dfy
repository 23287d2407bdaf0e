/** The supervisor of a managed dsh, as a machine whose steps are the synchronous sections between
    the awaits of start, stop and the readiness wait. Probe answers, script results, exits and the
    settings on disk are the environment's choice. */
module SupervisorModel {
  const READY_ATTEMPTS := 120

  datatype DaemonState = Unknown | Starting | Running | Stopped | Exited

  /** What the sections read of the settings, placeholders expanded. */
  datatype Config = Config(enabled: bool, childMode: bool, argvEmpty: bool, hasProbe: bool, startBlank: bool, stopBlank: bool)

  datatype Child = NoChild | Alive | Killed

  datatype Phase = Sleeping | Probing

  /** A readiness wait past its first await; `woken` is the number of steps before its last wake. */
  datatype Wait = Wait(token: nat, childMode: bool, rounds: nat, phase: Phase, woken: nat)

  datatype Cause =
    | StartCall
    | StopCall
    | ChildGone
    | NoProbe(token: nat)  // a wait without a probe, at once
    | ProbeUp(token: nat)  // a wait whose probe answered
    | TimeUp(token: nat)   // a wait out of attempts
    | Other                // control replies, the probe loop, boot

  /** A state written, why, and the start token at that moment. */
  datatype Write = Write(state: DaemonState, cause: Cause, token: nat)

  /** The fields, the actions standing at an await, and a record: the steps so far, the tokens given
      to waits, the states written, and how often each wait woke to a probe. */
  datatype Supervision = Supervision(
    config: Config, child: Child, processes: nat, state: DaemonState, stopRequested: bool, startToken: nat,
    starts: nat, scripts: seq<nat>, kills: nat, stops: nat, waits: seq<Wait>,
    steps: nat, given: seq<nat>, writes: seq<Write>, wakes: map<nat, nat>)

  function Boot(config: Config): Supervision {
    Supervision(config, NoChild, 0, Unknown, false, 0, 0, [], 0, 0, [], 0, [], [], map[])
  }

  function SetState(s: Supervision, state: DaemonState, cause: Cause): Supervision {
    s.(state := state, writes := s.writes + [Write(state, cause, s.startToken)])
  }

  function Without<T>(items: seq<T>, k: nat): seq<T> {
    if k < |items| then items[..k] + items[k + 1..] else items
  }

  /** waitReady up to its first await: without a probe it decides at once, and asks for no token. */
  function Arm(s: Supervision, token: nat): Supervision {
    var t := s.(given := s.given + [token]);
    if s.config.hasProbe then t.(waits := s.waits + [Wait(token, s.config.childMode, 0, Sleeping, 0)])
    else if !s.config.childMode || s.child.Alive? then SetState(t, Running, NoProbe(token))
    else t
  }

  function CallStart(s: Supervision, disk: Config): Supervision {
    var t := s.(config := disk, stopRequested := false);
    if !disk.enabled || s.child.Alive? then t else t.(starts := s.starts + 1)
  }

  /** start() with its token, STARTING written: spawn and wait, or run the script. */
  function Launch(s: Supervision): Supervision {
    if s.config.childMode then
      if s.config.argvEmpty then s
      else Arm(s.(child := Alive, processes := s.processes + 1), s.startToken)
    else if s.config.startBlank then s
    else s.(scripts := s.scripts + [s.startToken])
  }

  function StartProbed(s: Supervision, up: bool): Supervision {
    if s.starts == 0 then s
    else
      var t := s.(starts := s.starts - 1);
      if up then SetState(t, Running, StartCall)
      else Launch(SetState(t.(startToken := s.startToken + 1), Starting, StartCall))
  }

  function StartScripted(s: Supervision, k: nat, ok: bool): Supervision {
    if k >= |s.scripts| then s
    else
      var t := s.(scripts := Without(s.scripts, k));
      if ok then Arm(t, s.scripts[k]) else SetState(t, Exited, StartCall)
  }

  function StopEnd(s: Supervision): Supervision {
    SetState(s.(stopRequested := false), Stopped, StopCall)
  }

  /** With nothing to kill and no script, stop ends at once: its RUNNING branch cannot be taken,
      for it has just written STARTING. */
  function Halt(s: Supervision, killed: bool): Supervision {
    if s.child.Alive? then
      s.(stopRequested := true, child := (if killed then Killed else Alive), kills := s.kills + 1)
    else if !s.config.stopBlank then s.(stops := s.stops + 1)
    else StopEnd(s)
  }

  function CallStop(s: Supervision, disk: Config, killed: bool): Supervision {
    Halt(SetState(s.(config := disk, startToken := s.startToken + 1), Starting, StopCall), killed)
  }

  /** Patience with the child is over: SIGKILL, which may be sent where SIGTERM could not. */
  function Insist(s: Supervision, killed: bool): Supervision {
    if s.kills > 0 && s.child.Alive? && killed then s.(child := Killed) else s
  }

  /** The child has exited, or the grace after SIGKILL is over too. */
  function KillDone(s: Supervision): Supervision {
    if s.kills == 0 then s else StopEnd(s.(kills := s.kills - 1))
  }

  /** The stop script has ended. */
  function StopDone(s: Supervision): Supervision {
    if s.stops == 0 then s else StopEnd(s.(stops := s.stops - 1))
  }

  function ChildExit(s: Supervision): Supervision {
    if s.processes == 0 then s
    else
      var t := s.(processes := s.processes - 1, child := NoChild);
      if s.stopRequested then t else SetState(t, Exited, ChildGone)
  }

  function WakesOf(s: Supervision, token: nat): nat {
    if token in s.wakes then s.wakes[token] else 0
  }

  /** A wait's sleep is over: it ends if superseded or its child is gone, else it probes. */
  function WaitWake(s: Supervision, k: nat): Supervision {
    if k >= |s.waits| || s.waits[k].phase.Probing? then s
    else
      var w := s.waits[k];
      if w.token != s.startToken || (w.childMode && !s.child.Alive?) then s.(waits := Without(s.waits, k))
      else s.(waits := s.waits[k := w.(phase := Probing, woken := s.steps)],
              wakes := s.wakes[w.token := WakesOf(s, w.token) + 1])
  }

  /** A wait's probe answers; the token is asked for again only when the attempts are used up. */
  function WaitProbed(s: Supervision, k: nat, up: bool): Supervision {
    if k >= |s.waits| || s.waits[k].phase.Sleeping? then s
    else
      var w := s.waits[k];
      if up then SetState(s.(waits := Without(s.waits, k)), Running, ProbeUp(w.token))
      else if w.rounds + 1 < READY_ATTEMPTS then
        s.(waits := s.waits[k := w.(rounds := w.rounds + 1, phase := Sleeping)])
      else
        var t := s.(waits := Without(s.waits, k));
        if w.token == s.startToken then SetState(t, Exited, TimeUp(w.token)) else t
  }

  datatype Event =
    | StartCalled(disk: Config)
    | StartAnswered(up: bool)
    | ScriptEnded(k: nat, ok: bool)
    | StopCalled(disk: Config, killed: bool)
    | Insisted(killed: bool)
    | KillEnded
    | StopEnded
    | ChildExited
    | Woke(k: nat)
    | Probed(k: nat, up: bool)
    | Reloaded(disk: Config)
    | Reported(state: DaemonState)

  function React(s: Supervision, e: Event): Supervision {
    match e
    case StartCalled(disk) => CallStart(s, disk)
    case StartAnswered(up) => StartProbed(s, up)
    case ScriptEnded(k, ok) => StartScripted(s, k, ok)
    case StopCalled(disk, killed) => CallStop(s, disk, killed)
    case Insisted(killed) => Insist(s, killed)
    case KillEnded => KillDone(s)
    case StopEnded => StopDone(s)
    case ChildExited => ChildExit(s)
    case Woke(k) => WaitWake(s, k)
    case Probed(k, up) => WaitProbed(s, k, up)
    case Reloaded(disk) => s.(config := disk)
    case Reported(state) => SetState(s, state, Other)
  }

  function Step(s: Supervision, e: Event): Supervision {
    var t := React(s, e);
    t.(steps := s.steps + 1)
  }

  function Run(config: Config, events: seq<Event>): Supervision
    decreases events
  {
    if events == [] then Boot(config)
    else Step(Run(config, events[..|events| - 1]), events[|events| - 1])
  }
}
