/** In-flight daemon-control requests: ids, the waiting table, its timers, and what settled each. */
module ControlModel {
  import opened Numerals
  import opened Options
  import opened OrderedMaps

  /** The request number in decimal and the time in base 36. */
  function RequestId(seqNo: nat, now: nat): string {
    "d" + (Numeral(seqNo, 10) + "-" + Numeral(now, 36))
  }

  /** Request numbers tell ids apart, whatever the clock says. */
  lemma RequestIdsDiffer(m: nat, t: nat, n: nat, u: nat)
    requires RequestId(m, t) == RequestId(n, u)
    ensures m == n
  {
    var a, b := Numeral(m, 10) + "-" + Numeral(t, 36), Numeral(n, 10) + "-" + Numeral(u, 36);
    assert RequestId(m, t)[1..] == a && RequestId(n, u)[1..] == b;
    NumeralReads(m, 10);
    NumeralReads(n, 10);
    SameBeforeBreak(Numeral(m, 10), Numeral(t, 36), Numeral(n, 10), Numeral(u, 36));
  }

  // ---- the registry -----------------------------------------------------------

  datatype ControlResult = ControlResult(ok: bool, state: Option<string>, error: Option<string>)

  /** What a request's caller gets. */
  datatype Outcome = Resolved(result: ControlResult) | TimedOut(action: string)

  function Failure(reason: string): Outcome {
    Resolved(ControlResult(false, None, Some(reason)))
  }

  datatype Settlement = Settlement(id: string, outcome: Outcome)

  /** `pending` maps ids to actions; `timers` are the ids whose timer is armed; `ids` and `settled`
      record every registration and every settlement in order. */
  datatype Control = Control(
    seqNo: nat, pending: OrderedMap<string>, timers: set<string>, ids: seq<string>, settled: seq<Settlement>)

  const NO_REQUESTS := Control(0, [], {}, [], [])

  function EnterIn(c: Control, action: string, id: string): Control {
    Control(c.seqNo + 1, Put(c.pending, id, action), c.timers + {id}, c.ids + [id], c.settled)
  }

  function RegisterIn(c: Control, action: string, now: nat): Control {
    EnterIn(c, action, RequestId(c.seqNo + 1, now))
  }

  function SettleIn(c: Control, id: string, outcome: Outcome): Control {
    c.(pending := Remove(c.pending, id), timers := c.timers - {id}, settled := c.settled + [Settlement(id, outcome)])
  }

  /** A result frame: unknown ids are ignored. */
  function ResultIn(c: Control, id: string, result: ControlResult): Control {
    if HasId(c.pending, id) then SettleIn(c, id, Resolved(result)) else c
  }

  /** A timer that is not armed does not fire. */
  function FireIn(c: Control, id: string): Control {
    if id !in c.timers then c
    else if Lookup(c.pending, id).Some? then SettleIn(c, id, TimedOut(Lookup(c.pending, id).value))
    else SettleIn(c, id, TimedOut(""))
  }

  function Failures(pending: OrderedMap<string>, reason: string): seq<Settlement> {
    if pending == [] then [] else [Settlement(pending[0].id, Failure(reason))] + Failures(pending[1..], reason)
  }

  function Ids(pending: OrderedMap<string>): set<string> {
    set e | e in pending :: e.id
  }

  function FailAllIn(c: Control, reason: string): Control {
    c.(pending := [], timers := c.timers - Ids(c.pending), settled := c.settled + Failures(c.pending, reason))
  }

  datatype Event =
    | Register(action: string, now: nat)
    | Result(id: string, result: ControlResult)
    | Fire(id: string)
    | FailAll(reason: string)

  function Step(c: Control, e: Event): Control {
    match e
    case Register(action, now) => RegisterIn(c, action, now)
    case Result(id, result) => ResultIn(c, id, result)
    case Fire(id) => FireIn(c, id)
    case FailAll(reason) => FailAllIn(c, reason)
  }

  function Run(events: seq<Event>): Control {
    if events == [] then NO_REQUESTS else Step(Run(events[..|events| - 1]), events[|events| - 1])
  }

  function OutcomesOf(settled: seq<Settlement>, id: string): seq<Outcome> {
    if settled == [] then []
    else
      var last := settled[|settled| - 1];
      OutcomesOf(settled[..|settled| - 1], id) + (if last.id == id then [last.outcome] else [])
  }
}
