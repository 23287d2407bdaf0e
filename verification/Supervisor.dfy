/** The supervisor's fields and the synchronous sections of its methods. An async method of the
    source is cut at its awaits: a section ends by noting the action as standing at the await, and
    the section after the await takes it up. */
module Supervisors {
  import opened SupervisorModel
  import opened Readiness

  class Supervisor {
    var config: Config
    var child: Child
    var state: DaemonState
    var stopRequested: bool
    var startToken: nat
    // actions at an await
    var processes: nat
    var starts: nat
    var scripts: seq<nat>
    var kills: nat
    var stops: nat
    var waits: seq<Wait>
    // the record
    var steps: nat
    ghost var given: seq<nat>
    ghost var writes: seq<Write>
    ghost var wakes: map<nat, nat>

    ghost function Now(): Supervision reads this {
      Supervision(config, child, processes, state, stopRequested, startToken, starts, scripts, kills, stops, waits,
                  steps, given, writes, wakes)
    }

    ghost predicate Valid() reads this {
      TokensInv(Now())
    }

    constructor (config: Config)
      ensures Now() == Boot(config) && Valid()
    {
      this.config, child, processes, state, stopRequested, startToken := config, NoChild, 0, Unknown, false, 0;
      starts, scripts, kills, stops, waits := 0, [], 0, 0, [];
      steps, given, writes, wakes := 0, [], [], map[];
    }

    method WriteState(next: DaemonState, ghost cause: Cause)
      modifies this
      ensures Now() == SetState(old(Now()), next, cause)
    {
      state := next;
      writes := writes + [Write(next, cause, startToken)];
    }

    method Tick()
      modifies this
      ensures Now() == old(Now()).(steps := old(steps) + 1)
    {
      steps := steps + 1;
    }

    /** start() up to its probe. */
    method Start(disk: Config)
      requires Valid()
      modifies this
      ensures Valid() && Now() == Step(old(Now()), StartCalled(disk))
    {
      StepKeepsTokens(Now(), StartCalled(disk));
      config := disk;
      stopRequested := false;
      if config.enabled && !child.Alive? { starts := starts + 1; }
      Tick();
    }

    /** start() after its probe. */
    method StartAfterProbe(up: bool)
      requires Valid()
      modifies this
      ensures Valid() && Now() == Step(old(Now()), StartAnswered(up))
    {
      StepKeepsTokens(Now(), StartAnswered(up));
      GoOn(up);
      Tick();
    }

    method GoOn(up: bool)
      modifies this
      ensures Now() == StartProbed(old(Now()), up)
    {
      if starts > 0 {
        starts := starts - 1;
        if up {
          WriteState(Running, StartCall);
        } else {
          TakeToken();
          StartProcess();
        }
      }
    }

    method TakeToken()
      modifies this
      ensures Now() == SetState(old(Now()).(startToken := old(startToken) + 1), Starting, StartCall)
    {
      startToken := startToken + 1;
      WriteState(Starting, StartCall);
    }

    method StartProcess()
      modifies this
      ensures Now() == Launch(old(Now()))
    {
      if config.childMode {
        if !config.argvEmpty {
          child, processes := Alive, processes + 1;
          ArmReadiness(startToken);
        }
      } else if !config.startBlank {
        scripts := scripts + [startToken];
      }
    }

    /** start() after its script. */
    method StartAfterScript(k: nat, ok: bool)
      requires Valid()
      modifies this
      ensures Valid() && Now() == Step(old(Now()), ScriptEnded(k, ok))
    {
      StepKeepsTokens(Now(), ScriptEnded(k, ok));
      if k < |scripts| {
        var token := scripts[k];
        scripts := Without(scripts, k);
        if ok { ArmReadiness(token); } else { WriteState(Exited, StartCall); }
      }
      Tick();
    }

    /** waitReady() up to its first sleep. */
    method ArmReadiness(token: nat)
      modifies this
      ensures Now() == Arm(old(Now()), token)
    {
      given := given + [token];
      if config.hasProbe {
        waits := waits + [Wait(token, config.childMode, 0, Sleeping, 0)];
      } else if !config.childMode || child.Alive? {
        WriteState(Running, NoProbe(token));
      }
    }

    /** One turn of waitReady()'s loop, from its sleep to its probe. */
    method WaitAfterSleep(k: nat)
      requires Valid()
      modifies this
      ensures Valid() && Now() == Step(old(Now()), Woke(k))
    {
      StepKeepsTokens(Now(), Woke(k));
      CheckAndProbe(k);
      Tick();
    }

    method CheckAndProbe(k: nat)
      modifies this`waits, this`wakes
      ensures Now() == WaitWake(old(Now()), k)
    {
      if k < |waits| && waits[k].phase.Sleeping? {
        var w := waits[k];
        if w.token != startToken || (w.childMode && !child.Alive?) {
          waits := Without(waits, k);
        } else {
          waits := waits[k := w.(phase := Probing, woken := steps)];
          wakes := wakes[w.token := (if w.token in wakes then wakes[w.token] else 0) + 1];
        }
      }
    }

    /** The rest of the turn: up, once more, or out of attempts. */
    method WaitAfterProbe(k: nat, up: bool)
      requires Valid()
      modifies this
      ensures Valid() && Now() == Step(old(Now()), Probed(k, up))
    {
      StepKeepsTokens(Now(), Probed(k, up));
      if k < |waits| && waits[k].phase.Probing? {
        var w := waits[k];
        if up {
          waits := Without(waits, k);
          WriteState(Running, ProbeUp(w.token));
        } else if w.rounds + 1 < READY_ATTEMPTS {
          waits := waits[k := w.(rounds := w.rounds + 1, phase := Sleeping)];
        } else {
          waits := Without(waits, k);
          if w.token == startToken { WriteState(Exited, TimeUp(w.token)); }
        }
      }
      Tick();
    }

    /** stop() up to its await; `killed` says whether the signal could be sent. */
    method Stop(disk: Config, killed: bool)
      requires Valid()
      modifies this
      ensures Valid() && Now() == Step(old(Now()), StopCalled(disk, killed))
    {
      StepKeepsTokens(Now(), StopCalled(disk, killed));
      OwnTheState(disk);
      StopProcess(killed);
      Tick();
    }

    method OwnTheState(disk: Config)
      modifies this
      ensures Now() == SetState(old(Now()).(config := disk, startToken := old(startToken) + 1), Starting, StopCall)
    {
      config := disk;
      startToken := startToken + 1;
      WriteState(Starting, StopCall);
    }

    method StopProcess(killed: bool)
      modifies this
      ensures Now() == Halt(old(Now()), killed)
    {
      if child.Alive? {
        stopRequested := true;
        if killed { child := Killed; }
        kills := kills + 1;
      } else if !config.stopBlank {
        stops := stops + 1;
      } else {
        FinishStop();
      }
    }

    method FinishStop()
      modifies this
      ensures Now() == StopEnd(old(Now()))
    {
      stopRequested := false;
      WriteState(Stopped, StopCall);
    }

    /** stop() after its patience with the child: SIGKILL. */
    method StopAfterPatience(killed: bool)
      requires Valid()
      modifies this
      ensures Valid() && Now() == Step(old(Now()), Insisted(killed))
    {
      StepKeepsTokens(Now(), Insisted(killed));
      if kills > 0 && child.Alive? && killed { child := Killed; }
      Tick();
    }

    /** stop() after the child has exited, or the grace after SIGKILL. */
    method StopAfterKill()
      requires Valid()
      modifies this
      ensures Valid() && Now() == Step(old(Now()), KillEnded)
    {
      StepKeepsTokens(Now(), KillEnded);
      if kills > 0 {
        kills := kills - 1;
        FinishStop();
      }
      Tick();
    }

    /** stop() after its script. */
    method StopAfterAwait()
      requires Valid()
      modifies this
      ensures Valid() && Now() == Step(old(Now()), StopEnded)
    {
      StepKeepsTokens(Now(), StopEnded);
      if stops > 0 {
        stops := stops - 1;
        FinishStop();
      }
      Tick();
    }

    method OnChildExit()
      requires Valid()
      modifies this
      ensures Valid() && Now() == Step(old(Now()), ChildExited)
    {
      StepKeepsTokens(Now(), ChildExited);
      if processes > 0 {
        processes, child := processes - 1, NoChild;
        if !stopRequested { WriteState(Exited, ChildGone); }
      }
      Tick();
    }
  }
}
