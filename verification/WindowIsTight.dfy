/** The volume cap that logins in flight leave: no smaller number bounds every run. */
module WindowIsTight {
  import opened ThrottleModel
  import opened LoginDesk
  import opened SlidingWindow

  /** No run with at most `crowd` logins of an IP in flight puts more than `cap` failures into one window. */
  ghost predicate CapHolds(cfg: Config, crowd: nat, cap: int) {
    forall start: int, events: seq<DeskEvent>, ip: string, lo: int ::
      DeskOrdered(start, events) && Crowd(cfg, OPENING, events, ip, crowd) ==>
        InWindow(FailuresOf(DeskAfter(cfg, OPENING, events), ip), lo, cfg.ipWindowMs) <= cap
  }

  // ---- the run that fills a window --------------------------------------------

  function Name(i: nat): string { seq(i, _ => 'a') }

  function Zeros(n: nat): seq<int> { seq(n, _ => 0) }

  function Copies(login: Login, k: nat): seq<Login> { seq(k, _ => login) }

  /** A login on a fresh account fails. */
  function Strike(ip: string, i: nat): seq<DeskEvent> {
    [DeskEvent(0, Begin(Login(ip, Name(i))))] + [DeskEvent(0, Finish(0, false))]
  }

  function Strikes(ip: string, n: nat): seq<DeskEvent> {
    if n == 0 then [] else Strikes(ip, n - 1) + Strike(ip, n - 1)
  }

  function Begins(login: Login, k: nat): seq<DeskEvent> {
    if k == 0 then [] else Begins(login, k - 1) + [DeskEvent(0, Begin(login))]
  }

  function Fails(k: nat): seq<DeskEvent> {
    if k == 0 then [] else [DeskEvent(0, Finish(0, false))] + Fails(k - 1)
  }

  /** One failure short of the cap one at a time, then the crowd begins, then it fails. */
  function FillingRun(cfg: Config, ip: string, crowd: nat): seq<DeskEvent> {
    Strikes(ip, cfg.ipMax - 1) + Begins(Login(ip, Name(cfg.ipMax)), crowd) + Fails(crowd)
  }

  // ---- all of it happens at one instant ---------------------------------------

  predicate AtZero(events: seq<DeskEvent>) {
    forall i :: 0 <= i < |events| ==> events[i].now == 0
  }

  lemma {:induction false} AtZeroOrdered(events: seq<DeskEvent>)
    requires AtZero(events)
    ensures DeskOrdered(0, events)
  {
    if events != [] { AtZeroOrdered(events[1..]); }
  }

  lemma {:induction false} StrikesAtZero(ip: string, n: nat)
    ensures AtZero(Strikes(ip, n))
  {
    if n > 0 { StrikesAtZero(ip, n - 1); }
  }

  lemma {:induction false} CrowdAtZero(login: Login, k: nat)
    ensures AtZero(Begins(login, k)) && AtZero(Fails(k))
  {
    if k > 0 { CrowdAtZero(login, k - 1); }
  }

  lemma {:induction false} CrowdConcat(cfg: Config, d: Desk, a: seq<DeskEvent>, b: seq<DeskEvent>, ip: string, crowd: nat)
    ensures Crowd(cfg, d, a + b, ip, crowd) <==> Crowd(cfg, d, a, ip, crowd) && Crowd(cfg, DeskAfter(cfg, d, a), b, ip, crowd)
    decreases a
  {
    if a == [] {
      assert a + b == b;
    } else {
      assert (a + b)[1..] == a[1..] + b;
      CrowdConcat(cfg, DeskStep(cfg, d, a[0]), a[1..], b, ip, crowd);
    }
  }

  lemma CrowdOne(cfg: Config, d: Desk, e: DeskEvent, ip: string, crowd: nat)
    ensures Crowd(cfg, d, [e], ip, crowd)
       <==> OpenFrom(d.open, ip) <= crowd && OpenFrom(DeskStep(cfg, d, e).open, ip) <= crowd
    ensures DeskAfter(cfg, d, [e]) == DeskStep(cfg, d, e)
  {
    assert [e][1..] == [];
    assert Crowd(cfg, DeskStep(cfg, d, e), [], ip, crowd) <==> OpenFrom(DeskStep(cfg, d, e).open, ip) <= crowd;
  }

  // ---- what each part does ----------------------------------------------------

  lemma {:induction false} ZerosLive(n: nat, window: int)
    requires window >= 1
    ensures Live(Zeros(n), window, 0) == Zeros(n) && InWindow(Zeros(n), 0, window) == n
  {
    if n > 0 {
      assert Zeros(n)[1..] == Zeros(n - 1) && Zeros(n) == [0] + Zeros(n - 1);
      ZerosLive(n - 1, window);
    }
  }

  lemma {:induction false} CopiesOpen(login: Login, k: nat)
    ensures OpenFrom(Copies(login, k), login.ip) == k
  {
    if k > 0 {
      assert Copies(login, k)[1..] == Copies(login, k - 1);
      CopiesOpen(login, k - 1);
    }
  }

  /** Logins in flight, attempts and failures of the IP, and an account without an entry. */
  predicate Filled(d: Desk, open: seq<Login>, ip: string, n: nat, account: string) {
    && d.open == open && AttemptsOf(d.t.mem, ip) == Zeros(n) && FailuresOf(d, ip) == Zeros(n)
    && account !in d.t.mem.accounts
  }

  /** Below the cap a login on a fresh account is let in. */
  lemma BeginsFresh(cfg: Config, d: Desk, login: Login, open: seq<Login>, n: nat, account: string)
    requires Filled(d, open, login.ip, n, account) && login.account !in d.t.mem.accounts && n < cfg.ipMax
    ensures var d' := DeskStep(cfg, d, DeskEvent(0, Begin(login)));
            Filled(d', open + [login], login.ip, n, account) && d'.t.mem.accounts == d.t.mem.accounts
  {
    ZerosLive(n, cfg.ipWindowMs);
  }

  lemma FinishFails(cfg: Config, d: Desk, login: Login, rest: seq<Login>, n: nat)
    requires d.open == [login] + rest && AttemptsOf(d.t.mem, login.ip) == Zeros(n) && FailuresOf(d, login.ip) == Zeros(n)
    ensures var d' := DeskStep(cfg, d, DeskEvent(0, Finish(0, false)));
            && d'.open == rest
            && AttemptsOf(d'.t.mem, login.ip) == Zeros(n + 1) && FailuresOf(d', login.ip) == Zeros(n + 1)
            && d'.t.mem.accounts.Keys == d.t.mem.accounts.Keys + {login.account}
  {
    assert d.open[..0] + d.open[1..] == rest;
    assert Zeros(n) + [0] == Zeros(n + 1);
  }

  /** `n` failures of the IP so far, one at a time, on accounts of shorter names. */
  predicate Struck(d: Desk, ip: string, n: nat) {
    && Filled(d, [], ip, n, Name(n))
    && forall name :: name in d.t.mem.accounts ==> |name| < n
  }

  lemma StrikeStrikes(cfg: Config, d: Desk, ip: string, n: nat, crowd: nat)
    requires Struck(d, ip, n) && n < cfg.ipMax && crowd >= 1
    ensures Struck(DeskAfter(cfg, d, Strike(ip, n)), ip, n + 1) && Crowd(cfg, d, Strike(ip, n), ip, crowd)
  {
    var login := Login(ip, Name(n));
    var begin, finish := DeskEvent(0, Begin(login)), DeskEvent(0, Finish(0, false));
    var d1 := DeskStep(cfg, d, begin);
    BeginsFresh(cfg, d, login, [], n, Name(n));
    assert [] + [login] == [login] + [];
    FinishFails(cfg, d1, login, [], n);
    DeskAfterConcat(cfg, d, [begin], [finish]);
    CrowdConcat(cfg, d, [begin], [finish], ip, crowd);
    CrowdOne(cfg, d, begin, ip, crowd);
    CrowdOne(cfg, d1, finish, ip, crowd);
  }

  lemma {:induction false} StrikesStrike(cfg: Config, ip: string, n: nat, crowd: nat)
    requires n <= cfg.ipMax && crowd >= 1
    ensures Struck(DeskAfter(cfg, OPENING, Strikes(ip, n)), ip, n) && Crowd(cfg, OPENING, Strikes(ip, n), ip, crowd)
  {
    if n == 0 {
      assert Zeros(0) == [];
    } else {
      var d := DeskAfter(cfg, OPENING, Strikes(ip, n - 1));
      StrikesStrike(cfg, ip, n - 1, crowd);
      StrikeStrikes(cfg, d, ip, n - 1, crowd);
      DeskAfterConcat(cfg, OPENING, Strikes(ip, n - 1), Strike(ip, n - 1));
      CrowdConcat(cfg, OPENING, Strikes(ip, n - 1), Strike(ip, n - 1), ip, crowd);
    }
  }

  lemma {:induction false} CrowdBegins(cfg: Config, d: Desk, login: Login, n: nat, k: nat, crowd: nat)
    requires Filled(d, [], login.ip, n, login.account) && n < cfg.ipMax && k <= crowd
    ensures Filled(DeskAfter(cfg, d, Begins(login, k)), Copies(login, k), login.ip, n, login.account)
    ensures Crowd(cfg, d, Begins(login, k), login.ip, crowd)
  {
    if k > 0 {
      var d', e := DeskAfter(cfg, d, Begins(login, k - 1)), DeskEvent(0, Begin(login));
      CrowdBegins(cfg, d, login, n, k - 1, crowd);
      BeginsFresh(cfg, d', login, Copies(login, k - 1), n, login.account);
      assert Copies(login, k - 1) + [login] == Copies(login, k);
      CopiesOpen(login, k - 1);
      CopiesOpen(login, k);
      DeskAfterConcat(cfg, d, Begins(login, k - 1), [e]);
      CrowdConcat(cfg, d, Begins(login, k - 1), [e], login.ip, crowd);
      CrowdOne(cfg, d', e, login.ip, crowd);
    }
  }

  lemma {:induction false} CrowdFails(cfg: Config, d: Desk, login: Login, n: nat, k: nat, crowd: nat)
    requires d.open == Copies(login, k) && k <= crowd
    requires AttemptsOf(d.t.mem, login.ip) == Zeros(n) && FailuresOf(d, login.ip) == Zeros(n)
    ensures FailuresOf(DeskAfter(cfg, d, Fails(k)), login.ip) == Zeros(n + k)
    ensures Crowd(cfg, d, Fails(k), login.ip, crowd)
    decreases k
  {
    CopiesOpen(login, k);
    if k > 0 {
      var e := DeskEvent(0, Finish(0, false));
      assert Copies(login, k) == [login] + Copies(login, k - 1);
      FinishFails(cfg, d, login, Copies(login, k - 1), n);
      var d' := DeskStep(cfg, d, e);
      CrowdFails(cfg, d', login, n + 1, k - 1, crowd);
      DeskAfterConcat(cfg, d, [e], Fails(k - 1));
      CrowdConcat(cfg, d, [e], Fails(k - 1), login.ip, crowd);
      CopiesOpen(login, k - 1);
      CrowdOne(cfg, d, e, login.ip, crowd);
    }
  }

  lemma ThreeParts(cfg: Config, a: seq<DeskEvent>, b: seq<DeskEvent>, c: seq<DeskEvent>, ip: string, crowd: nat)
    ensures var d1 := DeskAfter(cfg, OPENING, a);
            var d2 := DeskAfter(cfg, d1, b);
            && DeskAfter(cfg, OPENING, a + b + c) == DeskAfter(cfg, d2, c)
            && (Crowd(cfg, OPENING, a, ip, crowd) && Crowd(cfg, d1, b, ip, crowd) && Crowd(cfg, d2, c, ip, crowd) ==>
                  Crowd(cfg, OPENING, a + b + c, ip, crowd))
  {
    DeskAfterConcat(cfg, OPENING, a, b);
    DeskAfterConcat(cfg, OPENING, a + b, c);
    CrowdConcat(cfg, OPENING, a, b, ip, crowd);
    CrowdConcat(cfg, OPENING, a + b, c, ip, crowd);
  }

  lemma FillingRunFills(cfg: Config, ip: string, crowd: nat)
    requires crowd >= 1
    ensures Crowd(cfg, OPENING, FillingRun(cfg, ip, crowd), ip, crowd)
    ensures FailuresOf(DeskAfter(cfg, OPENING, FillingRun(cfg, ip, crowd)), ip) == Zeros(cfg.ipMax - 1 + crowd)
  {
    var n, login := cfg.ipMax - 1, Login(ip, Name(cfg.ipMax));
    StrikesStrike(cfg, ip, n, crowd);
    FreshName(DeskAfter(cfg, OPENING, Strikes(ip, n)), ip, n);
    CrowdFills(cfg, Strikes(ip, n), login, n, crowd);
  }

  lemma FreshName(d: Desk, ip: string, n: nat)
    requires Struck(d, ip, n)
    ensures Filled(d, [], ip, n, Name(n + 1))
  {
    assert |Name(n + 1)| == n + 1;
  }

  lemma CrowdFills(cfg: Config, a: seq<DeskEvent>, login: Login, n: nat, crowd: nat)
    requires n < cfg.ipMax && Filled(DeskAfter(cfg, OPENING, a), [], login.ip, n, login.account)
    requires Crowd(cfg, OPENING, a, login.ip, crowd)
    ensures Crowd(cfg, OPENING, a + Begins(login, crowd) + Fails(crowd), login.ip, crowd)
    ensures FailuresOf(DeskAfter(cfg, OPENING, a + Begins(login, crowd) + Fails(crowd)), login.ip) == Zeros(n + crowd)
  {
    var b, d1 := Begins(login, crowd), DeskAfter(cfg, OPENING, a);
    CrowdBegins(cfg, d1, login, n, crowd, crowd);
    CrowdFails(cfg, DeskAfter(cfg, d1, b), login, n, crowd, crowd);
    ThreeParts(cfg, a, b, Fails(crowd), login.ip, crowd);
  }

  /** For every setting and every crowd there is a run that puts exactly ipMax + crowd - 1 failures
      into one window. */
  lemma BoundIsReached(cfg: Config, ip: string, crowd: nat)
    requires crowd >= 1
    ensures var run := FillingRun(cfg, ip, crowd);
            && DeskOrdered(0, run) && Crowd(cfg, OPENING, run, ip, crowd)
            && InWindow(FailuresOf(DeskAfter(cfg, OPENING, run), ip), 0, cfg.ipWindowMs) == cfg.ipMax + crowd - 1
  {
    FillingRunFills(cfg, ip, crowd);
    FillingRunOrdered(cfg, ip, crowd);
    ZerosLive(cfg.ipMax - 1 + crowd, cfg.ipWindowMs);
  }

  lemma FillingRunOrdered(cfg: Config, ip: string, crowd: nat)
    ensures DeskOrdered(0, FillingRun(cfg, ip, crowd))
  {
    StrikesAtZero(ip, cfg.ipMax - 1);
    CrowdAtZero(Login(ip, Name(cfg.ipMax)), crowd);
    AtZeroOrdered(FillingRun(cfg, ip, crowd));
  }

  /** A cap holds in every run of the crowd if and only if it is at least ipMax + crowd - 1; ipMax
      itself only for logins one at a time. */
  lemma CapHoldsIff(cfg: Config, crowd: nat, cap: int)
    requires crowd >= 1
    ensures CapHolds(cfg, crowd, cap) <==> cap >= cfg.ipMax + crowd - 1
  {
    BoundIsReached(cfg, "", crowd);
    if cap >= cfg.ipMax + crowd - 1 {
      forall start: int, events: seq<DeskEvent>, ip: string, lo: int
        | DeskOrdered(start, events) && Crowd(cfg, OPENING, events, ip, crowd)
        ensures InWindow(FailuresOf(DeskAfter(cfg, OPENING, events), ip), lo, cfg.ipWindowMs) <= cap
      {
        SlidingWindowBound(cfg, start, events, ip, crowd, lo);
      }
    }
  }
}
