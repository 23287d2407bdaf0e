/** Readiness tokens: what a superseded wait can and cannot do, in every interleaving of starts,
    stops, restarts (a stop, then a start), child exits and waits. */
module Readiness {
  import opened SupervisorModel

  // ---- tokens -----------------------------------------------------------------

  ghost predicate NoDup(s: seq<nat>) {
    forall i, j :: 0 <= i < j < |s| ==> s[i] != s[j]
  }

  ghost predicate Below(s: seq<nat>, bound: nat) {
    forall i :: 0 <= i < |s| ==> 1 <= s[i] <= bound
  }

  function Tokens(waits: seq<Wait>): seq<nat> {
    seq(|waits|, i requires 0 <= i < |waits| => waits[i].token)
  }

  ghost predicate Apart(a: seq<nat>, b: seq<nat>) {
    forall i, j :: 0 <= i < |a| && 0 <= j < |b| ==> a[i] != b[j]
  }

  /** Tokens given to waits, and those their scripts still hold, are pairwise distinct and at most
      the current one; the waits under way hold given ones, one each. */
  ghost predicate TokensInv(s: Supervision) {
    TokenRules(s.given, s.scripts, s.waits, s.startToken)
  }

  ghost predicate TokenRules(given: seq<nat>, scripts: seq<nat>, waits: seq<Wait>, current: nat) {
    && NoDup(given) && NoDup(scripts) && Apart(given, scripts)
    && Below(given, current) && Below(scripts, current)
    && NoDup(Tokens(waits))
    && (forall i :: 0 <= i < |waits| ==> waits[i].token in given)
  }

  lemma TokensWithout(waits: seq<Wait>, k: nat)
    requires NoDup(Tokens(waits)) && k < |waits|
    ensures NoDup(Tokens(Without(waits, k)))
    ensures forall w :: w in Without(waits, k) ==> w in waits
  {
    var rest := Without(waits, k);
    forall i, j | 0 <= i < j < |rest| ensures Tokens(rest)[i] != Tokens(rest)[j] {
      var i', j' := if i < k then i else i + 1, if j < k then j else j + 1;
      assert rest[i] == waits[i'] && rest[j] == waits[j'];
      assert Tokens(waits)[i'] != Tokens(waits)[j'];
    }
  }

  lemma TokensUpdate(waits: seq<Wait>, k: nat, w: Wait)
    requires k < |waits| && w.token == waits[k].token
    ensures Tokens(waits[k := w]) == Tokens(waits)
  {
  }

  lemma TokensPush(waits: seq<Wait>, w: Wait, given: seq<nat>)
    requires NoDup(Tokens(waits)) && w.token !in given
    requires forall i :: 0 <= i < |waits| ==> waits[i].token in given
    ensures NoDup(Tokens(waits + [w]))
  {
    forall i, j | 0 <= i < j < |waits + [w]| ensures Tokens(waits + [w])[i] != Tokens(waits + [w])[j] {
      assert Tokens(waits)[i] in given;
      if j < |waits| { assert Tokens(waits)[i] != Tokens(waits)[j]; }
    }
  }

  /** A wait is armed with a token no other wait or script holds. */
  lemma ArmKeeps(s: Supervision, token: nat)
    requires TokensInv(s) && 1 <= token <= s.startToken && token !in s.given && token !in s.scripts
    ensures TokensInv(Arm(s, token))
  {
    TokensPush(s.waits, Wait(token, s.config.childMode, 0, Sleeping, 0), s.given);
  }

  lemma BumpKeeps(s: Supervision)
    requires TokensInv(s)
    ensures TokenRules(s.given, s.scripts, s.waits, s.startToken + 1)
    ensures s.startToken + 1 !in s.given && s.startToken + 1 !in s.scripts
    ensures TokenRules(s.given, s.scripts + [s.startToken + 1], s.waits, s.startToken + 1)
  {
  }

  /** The invariant is about four components. */
  lemma InvOf(s: Supervision, given: seq<nat>, scripts: seq<nat>, waits: seq<Wait>, current: nat)
    requires TokenRules(given, scripts, waits, current)
    requires s.given == given && s.scripts == scripts && s.waits == waits && s.startToken == current
    ensures TokensInv(s)
  {
  }

  function Bumped(s: Supervision): Supervision
    requires s.starts > 0
  {
    SetState(s.(starts := s.starts - 1, startToken := s.startToken + 1), Starting, StartCall)
  }

  lemma SpawnKeeps(s: Supervision)
    requires TokensInv(s) && s.starts > 0
    ensures var u := Bumped(s).(child := Alive, processes := s.processes + 1);
            TokensInv(Arm(u, u.startToken))
  {
    var u := Bumped(s).(child := Alive, processes := s.processes + 1);
    BumpKeeps(s);
    InvOf(u, s.given, s.scripts, s.waits, s.startToken + 1);
    ArmKeeps(u, u.startToken);
  }

  lemma StartProbedKeeps(s: Supervision, up: bool)
    requires TokensInv(s)
    ensures TokensInv(StartProbed(s, up))
  {
    var t := StartProbed(s, up);
    if s.starts == 0 || up {
      InvOf(t, s.given, s.scripts, s.waits, s.startToken);
    } else if s.config.childMode && !s.config.argvEmpty {
      SpawnKeeps(s);
    } else {
      BumpKeeps(s);
      if s.config.childMode || s.config.startBlank {
        InvOf(t, s.given, s.scripts, s.waits, s.startToken + 1);
      } else {
        InvOf(t, s.given, s.scripts + [s.startToken + 1], s.waits, s.startToken + 1);
      }
    }
  }

  lemma ScriptEndKeeps(s: Supervision, k: nat)
    requires TokensInv(s) && k < |s.scripts|
    ensures TokenRules(s.given, Without(s.scripts, k), s.waits, s.startToken)
    ensures s.scripts[k] !in s.given && s.scripts[k] !in Without(s.scripts, k)
  {
  }

  lemma StartScriptedKeeps(s: Supervision, k: nat, ok: bool)
    requires TokensInv(s)
    ensures TokensInv(StartScripted(s, k, ok))
  {
    if k < |s.scripts| {
      ScriptEndKeeps(s, k);
      if ok { ArmKeeps(s.(scripts := Without(s.scripts, k)), s.scripts[k]); }
    }
  }

  lemma WaitsKeep(s: Supervision, k: nat, w: Wait)
    requires TokensInv(s) && k < |s.waits| && w.token == s.waits[k].token
    ensures TokenRules(s.given, s.scripts, Without(s.waits, k), s.startToken)
    ensures TokenRules(s.given, s.scripts, s.waits[k := w], s.startToken)
  {
    TokensWithout(s.waits, k);
    TokensUpdate(s.waits, k, w);
  }

  lemma WokeKeeps(s: Supervision, k: nat)
    requires TokensInv(s)
    ensures TokensInv(WaitWake(s, k))
  {
    var t := WaitWake(s, k);
    if k < |s.waits| { WaitsKeep(s, k, s.waits[k].(phase := Probing, woken := s.steps)); }
    InvOf(t, s.given, s.scripts, t.waits, s.startToken);
  }

  lemma ProbedKeeps(s: Supervision, k: nat, up: bool)
    requires TokensInv(s)
    ensures TokensInv(WaitProbed(s, k, up))
  {
    var t := WaitProbed(s, k, up);
    if k < |s.waits| { WaitsKeep(s, k, s.waits[k].(rounds := s.waits[k].rounds + 1, phase := Sleeping)); }
    InvOf(t, s.given, s.scripts, t.waits, s.startToken);
  }

  lemma StepKeepsTokens(s: Supervision, e: Event)
    requires TokensInv(s)
    ensures TokensInv(Step(s, e))
  {
    var t := React(s, e);
    match e
    case StartAnswered(up) => StartProbedKeeps(s, up);
    case ScriptEnded(k, ok) => StartScriptedKeeps(s, k, ok);
    case StopCalled(_, _) =>
      BumpKeeps(s);
      InvOf(t, s.given, s.scripts, s.waits, s.startToken + 1);
    case Woke(k) => WokeKeeps(s, k);
    case Probed(k, up) => ProbedKeeps(s, k, up);
    case _ => InvOf(t, s.given, s.scripts, s.waits, s.startToken);
    InvOf(Step(s, e), t.given, t.scripts, t.waits, t.startToken);
  }

  /** Wait tokens are pairwise distinct and never exceed `startToken`: at most one wait is current. */
  lemma {:induction false} TokensAreDistinct(config: Config, events: seq<Event>)
    ensures var s := Run(config, events);
            && TokensInv(s)
            && (forall i, j :: 0 <= i < j < |s.given| ==> s.given[i] != s.given[j])
            && (forall i :: 0 <= i < |s.given| ==> s.given[i] <= s.startToken)
            && (forall i, j :: 0 <= i < j < |s.waits| ==>
                  s.waits[i].token != s.startToken || s.waits[j].token != s.startToken)
  {
    var s := Run(config, events);
    if events != [] {
      TokensAreDistinct(config, events[..|events| - 1]);
      StepKeepsTokens(Run(config, events[..|events| - 1]), events[|events| - 1]);
    }
    forall i, j | 0 <= i < j < |s.waits| ensures s.waits[i].token != s.waits[j].token {
      assert Tokens(s.waits)[i] != Tokens(s.waits)[j];
    }
  }

  // ---- when a wait woke -------------------------------------------------------

  /** A wait that probes was current when it woke, and nothing that happened before that counts. */
  ghost predicate WokenCurrent(config: Config, events: seq<Event>, s: Supervision) {
    && s.steps == |events|
    && forall w :: w in s.waits && w.phase.Probing? ==>
         w.woken < |events| && Run(config, events[..w.woken]).startToken == w.token
  }

  lemma {:induction false} AlwaysWokenCurrent(config: Config, events: seq<Event>)
    ensures WokenCurrent(config, events, Run(config, events))
  {
    if events != [] {
      var n := |events| - 1;
      var before, e := Run(config, events[..n]), events[n];
      AlwaysWokenCurrent(config, events[..n]);
      forall w | w in Step(before, e).waits && w.phase.Probing?
        ensures w.woken < |events| && Run(config, events[..w.woken]).startToken == w.token
      {
        if w in before.waits {
          assert events[..n][..w.woken] == events[..w.woken];
        } else {
          ProbingIsFromWake(before, e, w);
        }
      }
    }
  }

  /** Only a wake makes a wait probe. */
  lemma ProbingIsFromWake(s: Supervision, e: Event, w: Wait)
    requires w in Step(s, e).waits && w.phase.Probing? && w !in s.waits
    ensures w.woken == s.steps && w.token == s.startToken == Step(s, e).startToken
  {
  }

  /** The write of a wait whose probe answered is superseded if and only if the token was bumped
      between its wake, where it was checked, and the answer. */
  lemma {:induction false} SupersededWriteIff(config: Config, events: seq<Event>, k: nat)
    requires k < |Run(config, events).waits| && Run(config, events).waits[k].phase.Probing?
    ensures var s := Run(config, events);
            var w := s.waits[k];
            && w.woken < |events|
            && WaitProbed(s, k, true).writes == s.writes + [Write(Running, ProbeUp(w.token), s.startToken)]
            && (w.token != s.startToken <==> Run(config, events[..w.woken]).startToken != s.startToken)
  {
    AlwaysWokenCurrent(config, events);
  }

  // ---- what waits write -------------------------------------------------------

  /** No wait reports its timeout once superseded. */
  ghost predicate TimeoutsCurrent(writes: seq<Write>) {
    forall i :: 0 <= i < |writes| && writes[i].cause.TimeUp? ==> writes[i].cause.token == writes[i].token
  }

  lemma {:induction false} TimeoutsAreCurrent(config: Config, events: seq<Event>)
    ensures TimeoutsCurrent(Run(config, events).writes)
  {
    if events != [] {
      TimeoutsAreCurrent(config, events[..|events| - 1]);
      TimeoutsStep(Run(config, events[..|events| - 1]), events[|events| - 1]);
    }
  }

  lemma TimeoutsStep(s: Supervision, e: Event)
    requires TimeoutsCurrent(s.writes)
    ensures TimeoutsCurrent(Step(s, e).writes)
  {
    if e.Probed? { ProbedWrites(s, e.k, e.up); } else { OtherWrites(s, e); }
  }

  predicate ByProbing(cause: Cause) {
    cause.TimeUp? || cause.ProbeUp?
  }

  /** All a probe's answer may write: RUNNING, or the timeout, and that only while current. */
  lemma ProbedWrites(s: Supervision, k: nat, up: bool)
    ensures var t := WaitProbed(s, k, up);
            || t.writes == s.writes
            || (k < |s.waits| && s.waits[k].phase.Probing?
                && t.writes == s.writes + [Write(Running, ProbeUp(s.waits[k].token), s.startToken)])
            || t.writes == s.writes + [Write(Exited, TimeUp(s.startToken), s.startToken)]
  {
  }

  predicate NoneByProbing(writes: seq<Write>, more: seq<Write>) {
    writes <= more && forall i :: |writes| <= i < |more| ==> !ByProbing(more[i].cause)
  }

  lemma StartWrites(s: Supervision, e: Event)
    requires e.StartCalled? || e.StartAnswered? || e.ScriptEnded?
    ensures NoneByProbing(s.writes, Step(s, e).writes)
  {
    if e.StartAnswered? {
      assert NoneByProbing(s.writes, StartProbed(s, e.up).writes);
    } else if e.ScriptEnded? {
      assert NoneByProbing(s.writes, StartScripted(s, e.k, e.ok).writes);
    }
  }

  lemma OtherWrites(s: Supervision, e: Event)
    requires !e.Probed?
    ensures NoneByProbing(s.writes, Step(s, e).writes)
  {
    if e.StartCalled? || e.StartAnswered? || e.ScriptEnded? { StartWrites(s, e); }
  }

  /** Each probe answers in the step right after the wake that asked for it. */
  ghost predicate ProbesAtomic(config: Config, events: seq<Event>) {
    forall n :: 0 <= n < |events| ==> AnswersAtOnce(Run(config, events[..n]), events[n])
  }

  predicate AnswersAtOnce(s: Supervision, e: Event) {
    e.Probed? && e.k < |s.waits| && s.waits[e.k].phase.Probing? ==> s.waits[e.k].woken == s.steps - 1
  }

  /** Every state written on behalf of a wait with a probe was written while that wait was current. */
  ghost predicate WaitWritesCurrent(writes: seq<Write>) {
    forall i :: 0 <= i < |writes| && ByProbing(writes[i].cause) ==> writes[i].cause.token == writes[i].token
  }

  /** With the probe atomic with the check before it, a superseded wait writes no state at all. */
  lemma {:induction false} AtomicProbesAreSafe(config: Config, events: seq<Event>)
    requires ProbesAtomic(config, events)
    ensures WaitWritesCurrent(Run(config, events).writes)
  {
    if events != [] {
      var n := |events| - 1;
      assert ProbesAtomic(config, events[..n]) by {
        forall m | 0 <= m < n ensures AnswersAtOnce(Run(config, events[..n][..m]), events[..n][m]) {
          assert events[..n][..m] == events[..m];
        }
      }
      AtomicProbesAreSafe(config, events[..n]);
      var s, e := Run(config, events[..n]), events[n];
      if e.Probed? && e.k < |s.waits| && s.waits[e.k].phase.Probing? {
        JustWoken(config, events[..n], e.k);
      }
      WaitWritesStep(s, e);
    }
  }

  lemma JustWoken(config: Config, events: seq<Event>, k: nat)
    requires k < |Run(config, events).waits| && Run(config, events).waits[k].phase.Probing?
    requires Run(config, events).waits[k].woken == Run(config, events).steps - 1
    ensures Run(config, events).waits[k].token == Run(config, events).startToken
  {
    AlwaysWokenCurrent(config, events);
    var n := |events| - 1;
    AlwaysWokenCurrent(config, events[..n]);
    ProbingIsFromWake(Run(config, events[..n]), events[n], Run(config, events).waits[k]);
  }

  lemma WaitWritesStep(s: Supervision, e: Event)
    requires WaitWritesCurrent(s.writes)
    requires e.Probed? && e.k < |s.waits| && s.waits[e.k].phase.Probing? ==> s.waits[e.k].token == s.startToken
    ensures WaitWritesCurrent(Step(s, e).writes)
  {
    if e.Probed? { ProbedWrites(s, e.k, e.up); } else { OtherWrites(s, e); }
  }

  // ---- how long a wait lasts --------------------------------------------------

  /** A wait that has seen `rounds` answers has woken that often, once more while it probes. */
  ghost predicate OneAttempted(w: Wait, wakes: map<nat, nat>) {
    && w.rounds < READY_ATTEMPTS
    && (if w.token in wakes then wakes[w.token] else 0) == w.rounds + (if w.phase.Probing? then 1 else 0)
  }

  ghost predicate Attempted(waits: seq<Wait>, wakes: map<nat, nat>, given: seq<nat>) {
    && (forall token :: token in wakes ==> token in given && wakes[token] <= READY_ATTEMPTS)
    && (forall w :: w in waits ==> OneAttempted(w, wakes))
  }

  lemma AttemptedArm(s: Supervision, token: nat)
    requires Attempted(s.waits, s.wakes, s.given) && token !in s.given
    ensures var t := Arm(s, token); Attempted(t.waits, t.wakes, t.given)
  {
  }

  lemma AttemptedWake(s: Supervision, k: nat)
    requires TokensInv(s) && Attempted(s.waits, s.wakes, s.given)
    ensures var t := WaitWake(s, k); Attempted(t.waits, t.wakes, t.given)
  {
    var t := WaitWake(s, k);
    if k < |s.waits| {
      TokensWithout(s.waits, k);
      forall i | 0 <= i < |s.waits| && i != k ensures s.waits[i].token != s.waits[k].token {
        assert Tokens(s.waits)[i] != Tokens(s.waits)[k];
      }
      assert s.waits[k] in s.waits;
      if t.waits != Without(s.waits, k) {
        forall i | 0 <= i < |t.waits| ensures OneAttempted(t.waits[i], t.wakes) {
          if i != k { assert t.waits[i] == s.waits[i] && s.waits[i] in s.waits; }
        }
      }
    }
  }

  lemma AttemptedProbed(s: Supervision, k: nat, up: bool)
    requires TokensInv(s) && Attempted(s.waits, s.wakes, s.given)
    ensures var t := WaitProbed(s, k, up); Attempted(t.waits, t.wakes, t.given)
  {
    if k < |s.waits| {
      TokensWithout(s.waits, k);
      assert s.waits[k] in s.waits;
    }
  }

  lemma AttemptedStart(s: Supervision, up: bool)
    requires TokensInv(s) && Attempted(s.waits, s.wakes, s.given)
    ensures var t := StartProbed(s, up); Attempted(t.waits, t.wakes, t.given)
  {
    if s.starts > 0 && !up && s.config.childMode && !s.config.argvEmpty {
      BumpKeeps(s);
      AttemptedArm(Bumped(s).(child := Alive, processes := s.processes + 1), s.startToken + 1);
    }
  }

  lemma AttemptedStep(s: Supervision, e: Event)
    requires TokensInv(s) && Attempted(s.waits, s.wakes, s.given)
    ensures var t := Step(s, e); Attempted(t.waits, t.wakes, t.given)
  {
    match e
    case StartAnswered(up) => AttemptedStart(s, up);
    case ScriptEnded(k, ok) =>
      if k < |s.scripts| {
        ScriptEndKeeps(s, k);
        if ok { AttemptedArm(s.(scripts := Without(s.scripts, k)), s.scripts[k]); }
      }
    case Woke(k) => AttemptedWake(s, k);
    case Probed(k, up) => AttemptedProbed(s, k, up);
    case _ =>
  }

  /** Every wait ends within READY_ATTEMPTS rounds: none wakes to a probe more often, and one that
      is still waiting has had fewer answers. */
  lemma {:induction false} WaitsEnd(config: Config, events: seq<Event>)
    ensures var s := Run(config, events);
            && Attempted(s.waits, s.wakes, s.given)
            && (forall token :: WakesOf(s, token) <= READY_ATTEMPTS)
            && (forall i :: 0 <= i < |s.waits| ==> s.waits[i].rounds < READY_ATTEMPTS)
  {
    var s := Run(config, events);
    if events != [] {
      var before := Run(config, events[..|events| - 1]);
      WaitsEnd(config, events[..|events| - 1]);
      TokensAreDistinct(config, events[..|events| - 1]);
      AttemptedStep(before, events[|events| - 1]);
    }
    forall i | 0 <= i < |s.waits| ensures s.waits[i].rounds < READY_ATTEMPTS { assert s.waits[i] in s.waits; }
  }

  // ---- what is not guarded ----------------------------------------------------

  lemma RunPush(config: Config, events: seq<Event>, e: Event)
    ensures Run(config, events + [e]) == Step(Run(config, events), e)
  {
  }

  const SCRIPT_CONFIG := Config(true, false, false, true, false, true)
  const STARTED: seq<Event> := [StartCalled(SCRIPT_CONFIG), StartAnswered(false), ScriptEnded(0, true)]

  /** A start by script, then a stop without a script while the wait probes. */
  const OVERRULED_STOP: seq<Event> := STARTED + [Woke(0)] + [StopCalled(SCRIPT_CONFIG, false)]

  lemma AfterStarting()
    ensures var s := Run(SCRIPT_CONFIG, STARTED);
            && s.startToken == 1 && s.steps == 3 && s.config == SCRIPT_CONFIG && s.child == NoChild
            && s.waits == [Wait(1, false, 0, Sleeping, 0)]
  {
    var e := STARTED;
    assert [] + [e[0]] == [e[0]] && [e[0]] + [e[1]] == [e[0], e[1]] && [e[0], e[1]] + [e[2]] == e;
    RunPush(SCRIPT_CONFIG, [], e[0]);
    RunPush(SCRIPT_CONFIG, [e[0]], e[1]);
    RunPush(SCRIPT_CONFIG, [e[0], e[1]], e[2]);
  }

  lemma BeforeTheAnswer()
    ensures var s := Run(SCRIPT_CONFIG, OVERRULED_STOP);
            && s.state == Stopped && s.startToken == 2
            && s.waits == [Wait(1, false, 0, Probing, 3)]
  {
    AfterStarting();
    RunPush(SCRIPT_CONFIG, STARTED, Woke(0));
    RunPush(SCRIPT_CONFIG, STARTED + [Woke(0)], StopCalled(SCRIPT_CONFIG, false));
  }

  /** The token is not asked for after the probe: a finished stop can be overruled by a wait it
      superseded. */
  lemma StopCanBeOverruled()
    ensures Run(SCRIPT_CONFIG, OVERRULED_STOP).state == Stopped
    ensures var s := Run(SCRIPT_CONFIG, OVERRULED_STOP + [Probed(0, true)]);
            && s.state == Running && s.startToken == 2
            && s.writes[|s.writes| - 1] == Write(Running, ProbeUp(1), 2)
  {
    BeforeTheAnswer();
    RunPush(SCRIPT_CONFIG, OVERRULED_STOP, Probed(0, true));
  }

  /** The launch of a script: the step that took its token. */
  lemma {:induction false} ScriptLaunch(config: Config, events: seq<Event>, token: nat) returns (m: nat)
    requires token in Run(config, events).scripts
    ensures m < |events| && events[m] == StartAnswered(false)
    ensures Run(config, events[..m]).startToken + 1 == token == Run(config, events[..m + 1]).startToken
  {
    assert events != [];
    var n := |events| - 1;
    var before, e := Run(config, events[..n]), events[n];
    if token in before.scripts {
      m := ScriptLaunch(config, events[..n], token);
      assert events[..n][..m] == events[..m] && events[..n][..m + 1] == events[..m + 1];
    } else {
      m := n;
      NewScript(before, e, token);
      assert events[..n + 1] == events;
    }
  }

  lemma NewScript(s: Supervision, e: Event, token: nat)
    requires token in Step(s, e).scripts && token !in s.scripts
    ensures e == StartAnswered(false) && token == s.startToken + 1 == Step(s, e).startToken
  {
  }

  /** Without a probe no token is asked for at all: a start script that ends writes RUNNING, and the
      write is superseded if and only if a start or a stop has taken a token since the script was
      launched, at step `m`. */
  lemma UnprobedScriptWrites(config: Config, events: seq<Event>, k: nat) returns (m: nat)
    requires var s := Run(config, events); k < |s.scripts| && !s.config.hasProbe && !s.config.childMode
    ensures var s := Run(config, events);
            var t := Run(config, events + [ScriptEnded(k, true)]);
            && t.state == Running
            && t.writes == s.writes + [Write(Running, NoProbe(s.scripts[k]), s.startToken)]
            && m < |events| && events[m] == StartAnswered(false)
            && (s.scripts[k] != s.startToken <==> Run(config, events[..m + 1]).startToken != s.startToken)
  {
    m := ScriptLaunch(config, events, Run(config, events).scripts[k]);
    RunPush(config, events, ScriptEnded(k, true));
  }

  const UNPROBED_CONFIG := Config(true, false, false, false, false, true)
  const LATE_SCRIPT: seq<Event> := [
    StartCalled(UNPROBED_CONFIG), StartAnswered(false), StopCalled(UNPROBED_CONFIG, false)]

  /** A start by script, a stop without one, and then the script ends: the stop is overruled by the
      start it superseded. */
  lemma LateScriptOverrules()
    ensures Run(UNPROBED_CONFIG, LATE_SCRIPT).state == Stopped
    ensures var s := Run(UNPROBED_CONFIG, LATE_SCRIPT + [ScriptEnded(0, true)]);
            && s.state == Running && s.startToken == 2
            && s.writes[|s.writes| - 1] == Write(Running, NoProbe(1), 2)
  {
    var e := LATE_SCRIPT;
    assert [] + [e[0]] == [e[0]] && [e[0]] + [e[1]] == [e[0], e[1]] && [e[0], e[1]] + [e[2]] == e;
    RunPush(UNPROBED_CONFIG, [], e[0]);
    RunPush(UNPROBED_CONFIG, [e[0]], e[1]);
    RunPush(UNPROBED_CONFIG, [e[0], e[1]], e[2]);
    RunPush(UNPROBED_CONFIG, e, ScriptEnded(0, true));
  }
}
