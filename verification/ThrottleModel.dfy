/** The login throttle as functions on its two tables: what each operation does to
    the memory of the process and to the rows it writes through to storage. */
module ThrottleModel {
  import opened Options

  /** The tunables. All are positive: the gateway replaces any other setting by its default. */
  datatype RawConfig = RawConfig(
    ipMax: int, ipWindowMs: int, accountMax: int, accountWindowMs: int, backoffMs: seq<int>)
  {
    predicate Valid() {
      && ipMax >= 1 && ipWindowMs >= 1
      && accountMax >= 1 && accountWindowMs >= 1
      && |backoffMs| >= 1 && forall i :: 0 <= i < |backoffMs| ==> backoffMs[i] >= 1
    }
  }

  type Config = c: RawConfig | c.Valid()
    witness RawConfig(10, 900_000, 5, 900_000, [180_000, 300_000, 900_000])

  datatype Account = Account(fails: seq<int>, lockUntil: int, lockCount: nat)

  /** Per-account state and per-IP failure stamps, in memory or in storage. */
  datatype Tables = Tables(accounts: map<string, Account>, ips: map<string, seq<int>>)

  /** A throttle: its memory, and the rows of its persistence sink when it has one. */
  datatype Throttle = Throttle(mem: Tables, sink: Option<Tables>)

  const EMPTY := Tables(map[], map[])
  const FRESH := Throttle(EMPTY, Some(EMPTY))

  datatype Reason = ByIp | ByAccount
  datatype CheckResult = Allowed | Refused(retryAfterSec: int, reason: Reason)

  /** The stamps younger than `window` at `now`, in order. */
  function Live(stamps: seq<int>, window: int, now: int): seq<int> {
    if stamps == [] then []
    else if now - stamps[0] < window then [stamps[0]] + Live(stamps[1..], window, now)
    else Live(stamps[1..], window, now)
  }

  /** Milliseconds to whole seconds, rounded up, at least one. */
  function RetryAfterSec(ms: int): int {
    var sec := (ms + 999) / 1000;
    if sec < 1 then 1 else sec
  }

  /** The back-off of a lockout that follows `served` earlier ones. */
  function Backoff(cfg: Config, served: nat): int {
    cfg.backoffMs[if served < |cfg.backoffMs| then served else |cfg.backoffMs| - 1]
  }

  function AttemptsOf(t: Tables, ip: string): seq<int> {
    if ip in t.ips then t.ips[ip] else []
  }

  function AccountOf(t: Tables, account: string): Account {
    if account in t.accounts then t.accounts[account] else Account([], 0, 0)
  }

  function SaveAccount(sink: Option<Tables>, account: string, row: Account): Option<Tables> {
    if sink.None? then None else Some(sink.value.(accounts := sink.value.accounts[account := row]))
  }

  function SaveIp(sink: Option<Tables>, ip: string, attempts: seq<int>): Option<Tables> {
    if sink.None? then None else Some(sink.value.(ips := sink.value.ips[ip := attempts]))
  }

  /** Memory after loading the stored rows at `now`; the rows themselves stay as they are. */
  function HydrateAll(cfg: Config, t: Throttle, now: int): Throttle {
    if t.sink.None? then t
    else
      var rows := t.sink.value;
      t.(mem := Tables(
           t.mem.accounts + map k | k in rows.accounts ::
             rows.accounts[k].(fails := Live(rows.accounts[k].fails, cfg.accountWindowMs, now)),
           t.mem.ips + map k | k in rows.ips :: Live(rows.ips[k], cfg.ipWindowMs, now)))
  }

  /** The IP half of a check: memory with that IP's list filtered, and the refusal if any. */
  function CheckIp(cfg: Config, mem: Tables, now: int, ip: string): (Tables, CheckResult) {
    if ip !in mem.ips then (mem, Allowed)
    else
      var live := Live(mem.ips[ip], cfg.ipWindowMs, now);
      (mem.(ips := mem.ips[ip := live]),
       if |live| >= cfg.ipMax then Refused(RetryAfterSec(live[0] + cfg.ipWindowMs - now), ByIp) else Allowed)
  }

  /** The account half of a check; only a new lockout is written through. */
  function CheckAccount(cfg: Config, t: Throttle, now: int, account: string): (Throttle, CheckResult) {
    if account !in t.mem.accounts then (t, Allowed)
    else
      var acc := t.mem.accounts[account];
      if acc.lockUntil > now then (t, Refused(RetryAfterSec(acc.lockUntil - now), ByAccount))
      else
        var live := Live(acc.fails, cfg.accountWindowMs, now);
        if |live| < cfg.accountMax then
          (t.(mem := t.mem.(accounts := t.mem.accounts[account := acc.(fails := live)])), Allowed)
        else
          var backoff := Backoff(cfg, acc.lockCount);
          var locked := Account([], now + backoff, acc.lockCount + 1);
          (Throttle(t.mem.(accounts := t.mem.accounts[account := locked]), SaveAccount(t.sink, account, locked)),
           Refused(RetryAfterSec(backoff), ByAccount))
  }

  function Check(cfg: Config, t: Throttle, now: int, ip: string, account: string): (Throttle, CheckResult) {
    var (mem, verdict) := CheckIp(cfg, t.mem, now, ip);
    if verdict.Refused? then (t.(mem := mem), verdict)
    else CheckAccount(cfg, t.(mem := mem), now, account)
  }

  /** A failed login: one stamp for the IP and one for the account, both written through. */
  function RecordFailure(t: Throttle, now: int, ip: string, account: string): Throttle {
    var attempts := AttemptsOf(t.mem, ip) + [now];
    var acc := AccountOf(t.mem, account);
    var failed := acc.(fails := acc.fails + [now]);
    Throttle(Tables(t.mem.accounts[account := failed], t.mem.ips[ip := attempts]),
             SaveAccount(SaveIp(t.sink, ip, attempts), account, failed))
  }

  function RecordSuccess(t: Throttle, account: string): Throttle {
    Throttle(t.mem.(accounts := t.mem.accounts - {account}),
             if t.sink.None? then None
             else Some(t.sink.value.(accounts := t.sink.value.accounts - {account})))
  }

  predicate Spent(cfg: Config, acc: Account, now: int) {
    acc.lockUntil <= now && Live(acc.fails, cfg.accountWindowMs, now) == []
  }

  function SpentAccounts(cfg: Config, mem: Tables, now: int): set<string> {
    set k | k in mem.accounts && Spent(cfg, mem.accounts[k], now)
  }

  function SpentIps(cfg: Config, mem: Tables, now: int): set<string> {
    set k | k in mem.ips && Live(mem.ips[k], cfg.ipWindowMs, now) == []
  }

  /** Filters every list, drops what is spent, and drops exactly those keys from storage. */
  function PruneAll(cfg: Config, t: Throttle, now: int): Throttle {
    var goneAccounts, goneIps := SpentAccounts(cfg, t.mem, now), SpentIps(cfg, t.mem, now);
    Throttle(
      Tables(
        map k | k in t.mem.accounts && k !in goneAccounts ::
          t.mem.accounts[k].(fails := Live(t.mem.accounts[k].fails, cfg.accountWindowMs, now)),
        map k | k in t.mem.ips && k !in goneIps :: Live(t.mem.ips[k], cfg.ipWindowMs, now)),
      if t.sink.None? then None
      else Some(Tables(t.sink.value.accounts - goneAccounts, t.sink.value.ips - goneIps)))
  }

  /** The process dies and a new one loads the stored rows. */
  function Restart(cfg: Config, t: Throttle, now: int): Throttle {
    HydrateAll(cfg, t.(mem := EMPTY), now)
  }

  datatype Op =
    | CheckOp(ip: string, account: string)
    | FailureOp(failIp: string, failAccount: string)
    | SuccessOp(okAccount: string)
    | PruneOp
    | RestartOp

  /** Instants are milliseconds since the epoch. */
  datatype Event = Event(now: nat, op: Op)

  /** One operation run to completion, with the answer of a check. */
  function Step(cfg: Config, t: Throttle, e: Event): (Throttle, Option<CheckResult>) {
    match e.op
    case CheckOp(ip, account) =>
      var (t', result) := Check(cfg, t, e.now, ip, account);
      (t', Some(result))
    case FailureOp(ip, account) => (RecordFailure(t, e.now, ip, account), None)
    case SuccessOp(account) => (RecordSuccess(t, account), None)
    case PruneOp => (PruneAll(cfg, t, e.now), None)
    case RestartOp => (Restart(cfg, t, e.now), None)
  }

  function After(cfg: Config, t: Throttle, events: seq<Event>): Throttle
    decreases events
  {
    if events == [] then t else After(cfg, Step(cfg, t, events[0]).0, events[1..])
  }

  /** The answers of the checks in a run, in order. */
  function Answers(cfg: Config, t: Throttle, events: seq<Event>): seq<CheckResult>
    decreases events
  {
    if events == [] then []
    else
      var (t', answer) := Step(cfg, t, events[0]);
      (if answer.Some? then [answer.value] else []) + Answers(cfg, t', events[1..])
  }

  /** The clock never runs backwards, and no event is earlier than `from`. */
  predicate Ordered(from: int, events: seq<Event>)
    decreases events
  {
    events == [] || (from <= events[0].now && Ordered(events[0].now, events[1..]))
  }

  function Latest(from: int, events: seq<Event>): int {
    if events == [] then from else events[|events| - 1].now
  }

  lemma {:induction false} AfterConcat(cfg: Config, t: Throttle, a: seq<Event>, b: seq<Event>)
    ensures After(cfg, t, a + b) == After(cfg, After(cfg, t, a), b)
    decreases a
  {
    if a == [] {
      assert a + b == b;
    } else {
      assert (a + b)[1..] == a[1..] + b;
      AfterConcat(cfg, Step(cfg, t, a[0]).0, a[1..], b);
    }
  }

  lemma {:induction false} OrderedConcat(from: int, a: seq<Event>, b: seq<Event>)
    ensures Ordered(from, a + b) <==> Ordered(from, a) && Ordered(Latest(from, a), b)
    decreases a
  {
    if a == [] {
      assert a + b == b;
    } else {
      assert (a + b)[1..] == a[1..] + b;
      OrderedConcat(a[0].now, a[1..], b);
    }
  }

  // ---- the sliding window ----------------------------------------------------

  lemma {:induction false} LiveConcat(a: seq<int>, b: seq<int>, window: int, now: int)
    ensures Live(a + b, window, now) == Live(a, window, now) + Live(b, window, now)
  {
    if a == [] {
      assert a + b == b;
    } else {
      assert (a + b)[1..] == a[1..] + b;
      LiveConcat(a[1..], b, window, now);
    }
  }

  /** Filtering early loses nothing that a later filter would keep. */
  lemma {:induction false} LiveLater(stamps: seq<int>, window: int, now: int, later: int)
    requires now <= later
    ensures Live(Live(stamps, window, now), window, later) == Live(stamps, window, later)
  {
    if stamps != [] {
      LiveLater(stamps[1..], window, now, later);
      if now - stamps[0] < window {
        LiveConcat([stamps[0]], Live(stamps[1..], window, now), window, later);
      }
    }
  }

  lemma {:induction false} LiveMember(stamps: seq<int>, window: int, now: int, i: nat)
    requires i < |Live(stamps, window, now)|
    ensures now - Live(stamps, window, now)[i] < window
    ensures Live(stamps, window, now)[i] in stamps
  {
    if now - stamps[0] < window {
      if i > 0 { LiveMember(stamps[1..], window, now, i - 1); }
    } else {
      LiveMember(stamps[1..], window, now, i);
    }
  }
}
