/** How many dsh processes a supervisor can have at once. Starts are not serialised: one that is
    still asking whether dsh is up does not hold back another. */
module OneChild {
  import opened SupervisorModel
  import opened Readiness

  predicate Spawns(c: Config) { c.childMode && !c.argvEmpty }

  /** A start is called while no other start and no process is left, or comes to nothing. */
  predicate CalledApart(s: Supervision, e: Event) {
    e.StartCalled? ==> s.child.Alive? || !e.disk.enabled || s.starts + s.processes == 0
  }

  ghost predicate StartsApart(config: Config, events: seq<Event>) {
    forall n :: 0 <= n < |events| ==> CalledApart(Run(config, events[..n]), events[n])
  }

  predicate AtMostOne(s: Supervision) {
    s.starts + s.processes <= 1 && (s.child.Alive? ==> s.processes == 1)
  }

  lemma AtMostOneStep(s: Supervision, e: Event)
    requires AtMostOne(s) && CalledApart(s, e)
    ensures AtMostOne(Step(s, e))
  {
  }

  /** With starts called apart there is never more than one process, in any interleaving. */
  lemma {:induction false} NoDuplicate(config: Config, events: seq<Event>)
    requires StartsApart(config, events)
    ensures AtMostOne(Run(config, events))
  {
    if events != [] {
      var n := |events| - 1;
      assert StartsApart(config, events[..n]) by {
        forall m | 0 <= m < n ensures CalledApart(Run(config, events[..n][..m]), events[..n][m]) {
          assert events[..n][..m] == events[..m];
        }
      }
      NoDuplicate(config, events[..n]);
      AtMostOneStep(Run(config, events[..n]), events[n]);
    }
  }

  lemma OneSpawn(s: Supervision)
    requires s.starts > 0 && Spawns(s.config)
    ensures var t := Step(s, StartAnswered(false));
            t.processes == s.processes + 1 && t.starts == s.starts - 1 && t.config == s.config
  {
  }

  function AllDown(n: nat): seq<Event> {
    if n == 0 then [] else AllDown(n - 1) + [StartAnswered(false)]
  }

  lemma SpawnsAfter(config: Config, asked: seq<Event>)
    requires Run(config, asked).starts > 0 && Spawns(Run(config, asked).config)
    ensures var s, t := Run(config, asked), Run(config, asked + [StartAnswered(false)]);
            t.processes == s.processes + 1 && t.starts == s.starts - 1 && t.config == s.config
  {
    RunPush(config, asked, StartAnswered(false));
    OneSpawn(Run(config, asked));
  }

  lemma OneMoreDown(events: seq<Event>, n: nat)
    requires n > 0
    ensures events + AllDown(n) == events + AllDown(n - 1) + [StartAnswered(false)]
  {
  }

  /** Every pending start that is told dsh is not up spawns a process of its own. */
  lemma {:induction false} EachStartSpawns(config: Config, events: seq<Event>, n: nat)
    requires n <= Run(config, events).starts && Spawns(Run(config, events).config)
    ensures var s, t := Run(config, events), Run(config, events + AllDown(n));
            t.processes == s.processes + n && t.starts == s.starts - n && t.config == s.config
  {
    if n == 0 {
      assert events + [] == events;
    } else {
      EachStartSpawns(config, events, n - 1);
      OneMoreDown(events, n);
      SpawnsAfter(config, events + AllDown(n - 1));
    }
  }

  /** In any reachable state, its pending starts leave at most one process, however many of them are
      told that dsh is not up, if and only if starts and processes together are at most one. */
  lemma OneChildIff(config: Config, events: seq<Event>)
    requires Spawns(Run(config, events).config)
    ensures (forall n: nat :: n <= Run(config, events).starts ==> Run(config, events + AllDown(n)).processes <= 1)
       <==> Run(config, events).starts + Run(config, events).processes <= 1
  {
    var s := Run(config, events);
    forall n: nat | n <= s.starts
      ensures Run(config, events + AllDown(n)).processes == s.processes + n
    {
      EachStartSpawns(config, events, n);
    }
    if forall n: nat :: n <= s.starts ==> Run(config, events + AllDown(n)).processes <= 1 {
      assert Run(config, events + AllDown(s.starts)).processes <= 1;
    }
  }

  const CHILD_CONFIG := Config(true, true, false, true, true, true)

  /** Two starts that overlap at their probe make two processes. */
  lemma StartsOverlap()
    ensures var events := [StartCalled(CHILD_CONFIG), StartCalled(CHILD_CONFIG)];
            Run(CHILD_CONFIG, events + AllDown(2)).processes == 2
  {
    var e := StartCalled(CHILD_CONFIG);
    assert [] + [e] == [e] && [e] + [e] == [e, e];
    RunPush(CHILD_CONFIG, [], e);
    RunPush(CHILD_CONFIG, [e], e);
    EachStartSpawns(CHILD_CONFIG, [e, e], 2);
  }
}
