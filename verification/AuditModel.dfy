/** Audit rows: filtered, stably sorted by time, paged, and purged in stored order. */
module AuditModel {
  import opened Options

  datatype AuditEvent = AuditEvent(
    ts: string, actor: string, machineId: Option<string>, action: string, result: string, detail: Option<string>)

  datatype Query = Query(
    since: Option<string>, until: Option<string>, machineId: Option<string>, actor: Option<string>,
    action: Option<string>, result: Option<string>)

  // ---- time order -------------------------------------------------------------

  /** Strings compare character by character; a proper prefix comes first. */
  predicate Less(a: string, b: string) {
    b != "" && (a == "" || a[0] < b[0] || (a[0] == b[0] && Less(a[1..], b[1..])))
  }

  lemma {:induction false} LessIsTotal(a: string, b: string)
    ensures !(Less(a, b) && Less(b, a))
    ensures Less(a, b) || Less(b, a) || a == b
  {
    if a != "" && b != "" && a[0] == b[0] {
      LessIsTotal(a[1..], b[1..]);
      assert a == [a[0]] + a[1..] && b == [b[0]] + b[1..];
    }
  }

  lemma {:induction false} LessIsTransitive(a: string, b: string, c: string)
    requires !Less(b, a) && !Less(c, b)
    ensures !Less(c, a)
  {
    if a != "" && b != "" && c != "" && a[0] == b[0] == c[0] {
      LessIsTransitive(a[1..], b[1..], c[1..]);
    }
  }

  /** `a` is no later than `b`. */
  predicate NoLater(a: AuditEvent, b: AuditEvent) {
    !Less(b.ts, a.ts)
  }

  ghost predicate Sorted(rows: seq<AuditEvent>) {
    forall i, j :: 0 <= i < j < |rows| ==> NoLater(rows[i], rows[j])
  }

  /** The rows of one instant, in order. */
  function At(rows: seq<AuditEvent>, ts: string): seq<AuditEvent> {
    if rows == [] then [] else (if rows[0].ts == ts then [rows[0]] else []) + At(rows[1..], ts)
  }

  /** Puts a row before the first one that is no earlier. */
  function Insert(x: AuditEvent, rows: seq<AuditEvent>): seq<AuditEvent> {
    if rows == [] || NoLater(x, rows[0]) then [x] + rows else [rows[0]] + Insert(x, rows[1..])
  }

  function Sort(rows: seq<AuditEvent>): seq<AuditEvent> {
    if rows == [] then [] else Insert(rows[0], Sort(rows[1..]))
  }

  predicate Matches(q: Query, e: AuditEvent) {
    && (q.since.Some? ==> !Less(e.ts, q.since.value))
    && (q.until.Some? ==> !Less(q.until.value, e.ts))
    && (q.machineId.Some? ==> e.machineId == q.machineId)
    && (q.actor.Some? ==> e.actor == q.actor.value)
    && (q.action.Some? ==> e.action == q.action.value)
    && (q.result.Some? ==> e.result == q.result.value)
  }

  function Select(q: Query, rows: seq<AuditEvent>): seq<AuditEvent> {
    if rows == [] then [] else (if Matches(q, rows[0]) then [rows[0]] else []) + Select(q, rows[1..])
  }

  /** Everything a query matches, in time order. */
  function All(q: Query, rows: seq<AuditEvent>): seq<AuditEvent> {
    Sort(Select(q, rows))
  }

  /** One page, clamped to the rows there are. */
  function PageOf(rows: seq<AuditEvent>, offset: nat, limit: nat): seq<AuditEvent> {
    if offset >= |rows| then [] else if offset + limit >= |rows| then rows[offset..] else rows[offset..offset + limit]
  }

  /** Without a limit the offset is ignored. */
  function QueryAudit(q: Query, rows: seq<AuditEvent>, limit: Option<nat>, offset: Option<nat>): seq<AuditEvent> {
    if limit.None? then All(q, rows)
    else PageOf(All(q, rows), if offset.Some? then offset.value else 0, limit.value)
  }

  // ---- the sort is the stable sort --------------------------------------------

  lemma AtHead(e: AuditEvent, rest: seq<AuditEvent>, ts: string)
    ensures At([e] + rest, ts) == (if e.ts == ts then [e] else []) + At(rest, ts)
  {
    assert ([e] + rest)[1..] == rest;
  }

  lemma {:induction false} InsertAt(x: AuditEvent, rows: seq<AuditEvent>, ts: string)
    requires Sorted(rows)
    ensures At(Insert(x, rows), ts) == (if x.ts == ts then [x] else []) + At(rows, ts)
  {
    if rows == [] || NoLater(x, rows[0]) {
      AtHead(x, rows, ts);
    } else {
      var rest := rows[1..];
      assert Sorted(rest);
      InsertAt(x, rest, ts);
      AtHead(rows[0], Insert(x, rest), ts);
      NotBoth(x.ts, rows[0].ts);
    }
  }

  lemma NotBoth(a: string, b: string)
    requires Less(b, a)
    ensures a != b
  {
    LessIsTotal(a, b);
  }

  lemma {:induction false} InsertMembers(x: AuditEvent, rows: seq<AuditEvent>, e: AuditEvent)
    ensures e in Insert(x, rows) <==> e == x || e in rows
    ensures |Insert(x, rows)| == |rows| + 1
  {
    if rows != [] && !NoLater(x, rows[0]) {
      InsertMembers(x, rows[1..], e);
      assert rows == [rows[0]] + rows[1..];
    }
  }

  lemma {:induction false} InsertSorted(x: AuditEvent, rows: seq<AuditEvent>)
    requires Sorted(rows)
    ensures Sorted(Insert(x, rows))
  {
    if rows == [] {
    } else if NoLater(x, rows[0]) {
      forall j | 0 <= j < |rows| ensures NoLater(x, rows[j]) {
        if j > 0 { LessIsTransitive(x.ts, rows[0].ts, rows[j].ts); }
      }
    } else {
      LessIsTotal(x.ts, rows[0].ts);
      var rest := Insert(x, rows[1..]);
      assert Sorted(rows[1..]);
      InsertSorted(x, rows[1..]);
      forall j | 0 <= j < |rest| ensures NoLater(rows[0], rest[j]) {
        InsertMembers(x, rows[1..], rest[j]);
      }
    }
  }

  lemma {:induction false} SortMembers(rows: seq<AuditEvent>, e: AuditEvent)
    ensures e in Sort(rows) <==> e in rows
    ensures |Sort(rows)| == |rows|
  {
    if rows != [] {
      SortMembers(rows[1..], e);
      InsertMembers(rows[0], Sort(rows[1..]), e);
      assert rows == [rows[0]] + rows[1..];
    }
  }

  /** Time order, and within one instant the stored order: nothing lost, nothing made up. */
  lemma {:induction false} SortIsStable(rows: seq<AuditEvent>, ts: string)
    ensures Sorted(Sort(rows)) && At(Sort(rows), ts) == At(rows, ts)
  {
    if rows != [] {
      SortIsStable(rows[1..], ts);
      InsertSorted(rows[0], Sort(rows[1..]));
      InsertAt(rows[0], Sort(rows[1..]), ts);
    }
  }

  lemma {:induction false} AtOrMore(rows: seq<AuditEvent>, i: nat)
    requires i < |rows|
    ensures rows[i] in At(rows, rows[i].ts)
  {
    if i > 0 { AtOrMore(rows[1..], i - 1); }
  }

  lemma {:induction false} AtMembers(rows: seq<AuditEvent>, ts: string)
    ensures forall e :: e in At(rows, ts) ==> e.ts == ts && e in rows
  {
    if rows != [] { AtMembers(rows[1..], ts); }
  }

  /** There is only one such order. */
  lemma {:induction false} StableSortIsUnique(a: seq<AuditEvent>, b: seq<AuditEvent>)
    requires Sorted(a) && Sorted(b) && forall ts :: At(a, ts) == At(b, ts)
    ensures a == b
  {
    if a == [] {
      if b != [] { AtOrMore(b, 0); assert false; }
    } else {
      AtOrMore(a, 0);
      AtMembers(b, a[0].ts);
      assert a[0] in b;
      AtOrMore(b, 0);
      AtMembers(a, b[0].ts);
      assert b[0] in a;
      HeadsCoincide(a, b);
      forall ts ensures At(a[1..], ts) == At(b[1..], ts) {
        var head := if a[0].ts == ts then [a[0]] else [];
        assert At(a[1..], ts) == At(a, ts)[|head|..] && At(b[1..], ts) == At(b, ts)[|head|..];
      }
      StableSortIsUnique(a[1..], b[1..]);
      assert a == [a[0]] + a[1..] && b == [b[0]] + b[1..];
    }
  }

  lemma HeadsCoincide(a: seq<AuditEvent>, b: seq<AuditEvent>)
    requires a != [] && b != [] && Sorted(a) && Sorted(b) && a[0] in b && b[0] in a
    requires At(a, a[0].ts) == At(b, a[0].ts)
    ensures a[0] == b[0]
  {
    LessIsTotal(a[0].ts, a[0].ts);
    LessIsTotal(a[0].ts, b[0].ts);
    var i :| 0 <= i < |b| && b[i] == a[0];
    var j :| 0 <= j < |a| && a[j] == b[0];
    assert NoLater(b[0], b[i]) || i == 0;
    assert NoLater(a[0], a[j]) || j == 0;
    assert At(a, a[0].ts)[0] == a[0];
    assert At(b, b[0].ts)[0] == b[0];
  }

  // ---- later rows come later --------------------------------------------------

  lemma {:induction false} SelectConcat(q: Query, a: seq<AuditEvent>, b: seq<AuditEvent>)
    ensures Select(q, a + b) == Select(q, a) + Select(q, b)
  {
    if a == [] {
      assert a + b == b;
    } else {
      assert (a + b)[1..] == a[1..] + b;
      SelectConcat(q, a[1..], b);
    }
  }

  lemma {:induction false} SelectMembers(q: Query, rows: seq<AuditEvent>, e: AuditEvent)
    ensures e in Select(q, rows) ==> e in rows
  {
    if rows != [] { SelectMembers(q, rows[1..], e); }
  }

  /** A row is asked for: each bound given lies on its side of the row's time, or at it, and each value
      given is the row's own. */
  predicate AskedFor(q: Query, e: AuditEvent) {
    && (q.since == None || q.since == Some(e.ts) || Less(q.since.value, e.ts))
    && (q.until == None || q.until == Some(e.ts) || Less(e.ts, q.until.value))
    && q.machineId in {None, e.machineId}
    && q.actor in {None, Some(e.actor)} && q.action in {None, Some(e.action)} && q.result in {None, Some(e.result)}
  }

  lemma AskedIsMatched(q: Query, e: AuditEvent)
    ensures Matches(q, e) <==> AskedFor(q, e)
  {
    if q.since.Some? { LessIsTotal(e.ts, q.since.value); }
    if q.until.Some? { LessIsTotal(e.ts, q.until.value); }
    SameNeitherLess(e.ts);
  }

  lemma {:induction false} SameNeitherLess(a: string)
    ensures !Less(a, a)
  {
    if a != "" { SameNeitherLess(a[1..]); }
  }

  lemma {:induction false} SelectKeeps(q: Query, rows: seq<AuditEvent>, e: AuditEvent)
    ensures multiset(Select(q, rows))[e] == if AskedFor(q, e) then multiset(rows)[e] else 0
  {
    if rows != [] {
      SelectKeeps(q, rows[1..], e);
      AskedIsMatched(q, rows[0]);
      assert rows == [rows[0]] + rows[1..];
    }
  }

  lemma {:induction false} InsertKeeps(x: AuditEvent, rows: seq<AuditEvent>)
    ensures multiset(Insert(x, rows)) == multiset{x} + multiset(rows)
  {
    if rows != [] && !NoLater(x, rows[0]) {
      InsertKeeps(x, rows[1..]);
      assert rows == [rows[0]] + rows[1..];
    }
  }

  lemma {:induction false} SortKeeps(rows: seq<AuditEvent>)
    ensures multiset(Sort(rows)) == multiset(rows)
  {
    if rows != [] {
      SortKeeps(rows[1..]);
      InsertKeeps(rows[0], Sort(rows[1..]));
      assert rows == [rows[0]] + rows[1..];
    }
  }

  /** What a query answers: without a limit every row asked for, as often as it is stored, and no other,
      in time order; with one, that many of these from the offset on, fewer at the end. */
  lemma QueryAnswers(q: Query, rows: seq<AuditEvent>, limit: Option<nat>, offset: Option<nat>, e: AuditEvent)
    ensures var all := QueryAudit(q, rows, None, offset);
            && Sorted(all) && multiset(all)[e] == (if AskedFor(q, e) then multiset(rows)[e] else 0)
            && (limit.Some? ==>
                  var from := if offset == None then 0 else offset.value;
                  IsPage(QueryAudit(q, rows, limit, offset), all, from, limit.value))
  {
    SelectKeeps(q, rows, e);
    SortKeeps(Select(q, rows));
    SortIsStable(Select(q, rows), e.ts);
    if limit.Some? { PageIs(All(q, rows), if offset == None then 0 else offset.value, limit.value); }
  }

  /** `limit` rows from `from` on, or as many as there are. */
  predicate IsPage(page: seq<AuditEvent>, all: seq<AuditEvent>, from: nat, limit: nat) {
    && |page| == (if from + limit <= |all| then limit else if from <= |all| then |all| - from else 0)
    && forall i :: 0 <= i < |page| ==> page[i] == all[from + i]
  }

  lemma PageIs(all: seq<AuditEvent>, from: nat, limit: nat)
    ensures IsPage(PageOf(all, from, limit), all, from, limit)
  {
  }

  /** No row of `b` is earlier than any row of `a`. */
  ghost predicate Follows(a: seq<AuditEvent>, b: seq<AuditEvent>) {
    forall x, y :: x in a && y in b ==> NoLater(x, y)
  }

  lemma {:induction false} InsertBefore(x: AuditEvent, a: seq<AuditEvent>, b: seq<AuditEvent>)
    requires forall y :: y in b ==> NoLater(x, y)
    ensures Insert(x, a + b) == Insert(x, a) + b
  {
    if a == [] {
      assert a + b == b;
      if b != [] { assert b[0] in b; }
    } else {
      assert (a + b)[1..] == a[1..] + b;
      if !NoLater(x, a[0]) { InsertBefore(x, a[1..], b); }
      assert [x] + (a + b) == ([x] + a) + b;
    }
  }

  lemma {:induction false} SortConcat(a: seq<AuditEvent>, b: seq<AuditEvent>)
    requires Follows(a, b)
    ensures Sort(a + b) == Sort(a) + Sort(b)
  {
    if a == [] {
      assert a + b == b;
    } else {
      assert (a + b)[1..] == a[1..] + b;
      SortConcat(a[1..], b);
      forall y | y in Sort(b) ensures NoLater(a[0], y) { SortMembers(b, y); }
      InsertBefore(a[0], Sort(a[1..]), Sort(b));
    }
  }

  /** Rows appended no earlier than any stored one extend every query's result at its end. */
  lemma AllExtends(q: Query, rows: seq<AuditEvent>, more: seq<AuditEvent>)
    requires Follows(rows, more)
    ensures All(q, rows + more) == All(q, rows) + All(q, more)
  {
    SelectConcat(q, rows, more);
    forall x, y | x in Select(q, rows) && y in Select(q, more) ensures NoLater(x, y) {
      SelectMembers(q, rows, x);
      SelectMembers(q, more, y);
    }
    SortConcat(Select(q, rows), Select(q, more));
  }

  // ---- purging ----------------------------------------------------------------

  predicate Older(e: AuditEvent, before: string) {
    Less(e.ts, before)
  }

  /** The rows older than the cutoff, in stored order. */
  function OlderRows(rows: seq<AuditEvent>, before: string): seq<AuditEvent> {
    if rows == [] then [] else (if Older(rows[0], before) then [rows[0]] else []) + OlderRows(rows[1..], before)
  }

  function NewerRows(rows: seq<AuditEvent>, before: string): seq<AuditEvent> {
    if rows == [] then [] else (if Older(rows[0], before) then [] else [rows[0]]) + NewerRows(rows[1..], before)
  }

  /** What is left after deleting the first `n` older rows. */
  function Survivors(rows: seq<AuditEvent>, before: string, n: nat): seq<AuditEvent> {
    if rows == [] then []
    else if Older(rows[0], before) && n > 0 then Survivors(rows[1..], before, n - 1)
    else [rows[0]] + Survivors(rows[1..], before, n)
  }

  function Min(a: nat, b: nat): nat { if a < b then a else b }

  /** Deletion takes the older rows of a front part and nothing else: that part keeps its newer
      rows, the rest is kept as it is. */
  lemma {:induction false} SurvivorsAreACut(rows: seq<AuditEvent>, before: string, n: nat) returns (k: nat)
    ensures k <= |rows|
    ensures Survivors(rows, before, n) == NewerRows(rows[..k], before) + rows[k..]
    ensures |OlderRows(rows[..k], before)| == Min(n, |OlderRows(rows, before)|)
  {
    if rows == [] || n == 0 {
      k := 0;
      NothingDeleted(rows, before);
      assert rows[..0] == [] && rows[0..] == rows;
    } else {
      var n' := if Older(rows[0], before) then n - 1 else n;
      var k' := SurvivorsAreACut(rows[1..], before, n');
      k := k' + 1;
      assert rows[..k][1..] == rows[1..][..k'] && rows[k..] == rows[1..][k'..];
    }
  }

  lemma {:induction false} NothingDeleted(rows: seq<AuditEvent>, before: string)
    ensures Survivors(rows, before, 0) == rows
  {
    if rows != [] { NothingDeleted(rows[1..], before); }
  }

  /** Deleting in two goes is deleting once. */
  lemma {:induction false} SurvivorsCompose(rows: seq<AuditEvent>, before: string, m: nat, n: nat)
    ensures Survivors(Survivors(rows, before, m), before, n) == Survivors(rows, before, m + n)
  {
    if rows != [] {
      if Older(rows[0], before) && m > 0 {
        SurvivorsCompose(rows[1..], before, m - 1, n);
      } else if Older(rows[0], before) {
        NothingDeleted(rows, before);
      } else {
        SurvivorsCompose(rows[1..], before, m, n);
        assert ([rows[0]] + Survivors(rows[1..], before, m))[1..] == Survivors(rows[1..], before, m);
      }
    }
  }

  /** What is left of the older rows is their tail. */
  lemma {:induction false} OlderSurvivors(rows: seq<AuditEvent>, before: string, n: nat)
    ensures OlderRows(Survivors(rows, before, n), before)
         == OlderRows(rows, before)[Min(n, |OlderRows(rows, before)|)..]
  {
    if rows != [] {
      if Older(rows[0], before) && n > 0 {
        OlderSurvivors(rows[1..], before, n - 1);
        DropOne(rows[0], OlderRows(rows[1..], before), n - 1);
      } else if Older(rows[0], before) {
        NothingDeleted(rows, before);
      } else {
        OlderSurvivors(rows[1..], before, n);
        var rest := Survivors(rows[1..], before, n);
        assert ([rows[0]] + rest)[1..] == rest;
      }
    }
  }

  lemma DropOne(e: AuditEvent, rows: seq<AuditEvent>, n: nat)
    ensures ([e] + rows)[Min(n + 1, |rows| + 1)..] == rows[Min(n, |rows|)..]
  {
  }

  lemma {:induction false} SurvivorsConcat(a: seq<AuditEvent>, b: seq<AuditEvent>, before: string, n: nat)
    requires OlderRows(b, before) == []
    ensures Survivors(a + b, before, n) == Survivors(a, before, n) + b
    ensures |OlderRows(a + b, before)| == |OlderRows(a, before)|
  {
    if a == [] {
      assert a + b == b;
      NoneOlder(b, before, n);
    } else {
      assert (a + b)[1..] == a[1..] + b;
      SurvivorsConcat(a[1..], b, before, if Older(a[0], before) && n > 0 then n - 1 else n);
    }
  }

  lemma {:induction false} NoneOlder(rows: seq<AuditEvent>, before: string, n: nat)
    requires OlderRows(rows, before) == []
    ensures Survivors(rows, before, n) == rows
  {
    if rows != [] { NoneOlder(rows[1..], before, n); }
  }

  // ---- does a purge take the oldest? ------------------------------------------

  /** The rows a purge of at most `n` takes: those stored before and no longer. */
  function Taken(rows: seq<AuditEvent>, before: string, n: nat): multiset<AuditEvent> {
    multiset(rows) - multiset(Survivors(rows, before, n))
  }

  /** Every row a purge takes is no later than every older row it leaves. */
  ghost predicate TakesOldest(rows: seq<AuditEvent>, before: string, n: nat) {
    forall x, y :: x in Taken(rows, before, n) && y in OlderRows(Survivors(rows, before, n), before) ==> NoLater(x, y)
  }

  /** The first `n` older rows, in stored order. */
  function FirstOlder(rows: seq<AuditEvent>, before: string, n: nat): seq<AuditEvent> {
    if rows == [] then []
    else if Older(rows[0], before) && n > 0 then [rows[0]] + FirstOlder(rows[1..], before, n - 1)
    else FirstOlder(rows[1..], before, n)
  }

  lemma {:induction false} FirstOlderIs(rows: seq<AuditEvent>, before: string, n: nat)
    ensures FirstOlder(rows, before, n) == OlderRows(rows, before)[..Min(n, |OlderRows(rows, before)|)]
  {
    if rows != [] {
      var rest := rows[1..];
      if Older(rows[0], before) && n > 0 {
        FirstOlderIs(rest, before, n - 1);
        TakeOne(rows[0], OlderRows(rest, before), n - 1);
      } else {
        FirstOlderIs(rest, before, n);
        if Older(rows[0], before) { assert OlderRows(rows, before)[..0] == []; }
      }
    }
  }

  /** A purge splits the rows into what it takes, the first older ones, and what it leaves. */
  lemma {:induction false} TakenAndLeft(rows: seq<AuditEvent>, before: string, n: nat)
    ensures multiset(rows) == multiset(FirstOlder(rows, before, n)) + multiset(Survivors(rows, before, n))
  {
    if rows != [] {
      var m := if Older(rows[0], before) && n > 0 then n - 1 else n;
      TakenAndLeft(rows[1..], before, m);
      assert rows == [rows[0]] + rows[1..];
      OneMoreRow(rows[0], rows[1..], FirstOlder(rows[1..], before, m), Survivors(rows[1..], before, m));
    }
  }

  lemma OneMoreRow(e: AuditEvent, rows: seq<AuditEvent>, taken: seq<AuditEvent>, left: seq<AuditEvent>)
    requires multiset(rows) == multiset(taken) + multiset(left)
    ensures multiset([e] + rows) == multiset([e] + taken) + multiset(left) == multiset(taken) + multiset([e] + left)
  {
  }

  lemma TakeOne(e: AuditEvent, rows: seq<AuditEvent>, n: nat)
    ensures ([e] + rows)[..Min(n + 1, |rows| + 1)] == [e] + rows[..Min(n, |rows|)]
  {
  }

  /** In stored order, the older rows within the limit come no later than those beyond it. */
  ghost predicate OldestStoredFirst(rows: seq<AuditEvent>, before: string, n: nat) {
    var older := OlderRows(rows, before);
    forall i, j :: 0 <= i < Min(n, |older|) <= j < |older| ==> NoLater(older[i], older[j])
  }

  lemma TakenIs(rows: seq<AuditEvent>, before: string, n: nat)
    ensures var older := OlderRows(rows, before);
            && Taken(rows, before, n) == multiset(older[..Min(n, |older|)])
            && OlderRows(Survivors(rows, before, n), before) == older[Min(n, |older|)..]
  {
    TakenAndLeft(rows, before, n);
    FirstOlderIs(rows, before, n);
    OlderSurvivors(rows, before, n);
  }

  lemma AcrossCut(older: seq<AuditEvent>, m: nat, i: nat, j: nat)
    requires i < m <= j < |older|
    ensures older[i] in multiset(older[..m]) && older[j] in older[m..]
  {
    assert older[..m][i] == older[i] && older[m..][j - m] == older[j];
  }

  lemma OnEachSide(older: seq<AuditEvent>, m: nat, x: AuditEvent, y: AuditEvent) returns (i: nat, j: nat)
    requires m <= |older| && x in multiset(older[..m]) && y in older[m..]
    ensures i < m <= j < |older| && older[i] == x && older[j] == y
  {
    assert x in older[..m];
    i :| i < m && older[..m][i] == x;
    var k :| 0 <= k < |older[m..]| && older[m..][k] == y;
    j := m + k;
  }

  /** Whether a purge of a given size takes the oldest rows is decided by the order in which the
      older rows are stored. */
  lemma PurgeTakesOldestIff(rows: seq<AuditEvent>, before: string, n: nat)
    ensures TakesOldest(rows, before, n) <==> OldestStoredFirst(rows, before, n)
  {
    var older := OlderRows(rows, before);
    var m := Min(n, |older|);
    TakenIs(rows, before, n);
    if TakesOldest(rows, before, n) {
      forall i, j | 0 <= i < m <= j < |older| ensures NoLater(older[i], older[j]) { AcrossCut(older, m, i, j); }
    }
    if OldestStoredFirst(rows, before, n) {
      forall x, y | x in Taken(rows, before, n) && y in older[m..] ensures NoLater(x, y) {
        var i, j := OnEachSide(older, m, x, y);
      }
    }
  }

  /** Purges of every size take the oldest if and only if the older rows are stored in time order. */
  lemma EverySizeTakesOldestIff(rows: seq<AuditEvent>, before: string)
    ensures (forall n :: TakesOldest(rows, before, n)) <==> Sorted(OlderRows(rows, before))
  {
    var older := OlderRows(rows, before);
    if forall n :: TakesOldest(rows, before, n) {
      forall i, j | 0 <= i < j < |older| ensures NoLater(older[i], older[j]) {
        PurgeTakesOldestIff(rows, before, i + 1);
      }
    }
    if Sorted(older) {
      forall n ensures TakesOldest(rows, before, n) { PurgeTakesOldestIff(rows, before, n); }
    }
  }

  lemma {:induction false} OlderOfSorted(rows: seq<AuditEvent>, before: string)
    requires Sorted(rows)
    ensures Sorted(OlderRows(rows, before)) && forall e :: e in OlderRows(rows, before) ==> e in rows
  {
    if rows != [] {
      OlderOfSorted(rows[1..], before);
      forall e | e in OlderRows(rows[1..], before) ensures NoLater(rows[0], e) {
        var j :| 0 <= j < |rows[1..]| && rows[1..][j] == e;
        assert rows[j + 1] == e;
      }
    }
  }

  /** Rows appended with a clock that never steps back are purged oldest first, whatever the size. */
  lemma InOrderTakesOldest(rows: seq<AuditEvent>, before: string, n: nat)
    requires Sorted(rows)
    ensures TakesOldest(rows, before, n)
  {
    OlderOfSorted(rows, before);
    EverySizeTakesOldestIff(rows, before);
  }

  function LoginAt(ts: string): AuditEvent {
    AuditEvent(ts, "admin", None, "login", "ok", None)
  }

  /** A common beginning does not matter to the order. */
  lemma {:induction false} LessAfter(front: string, a: string, b: string)
    ensures Less(front + a, front + b) <==> Less(a, b)
  {
    if front == "" {
      assert front + a == a && front + b == b;
    } else {
      assert (front + a)[1..] == front[1..] + a && (front + b)[1..] == front[1..] + b;
      LessAfter(front[1..], a, b);
    }
  }

  /** An instant of one minute, by its second. */
  function Instant(second: char): string {
    "2026-01-01T00:00:0" + [second] + ".000Z"
  }

  lemma InstantsInOrder(second: char, later: char)
    requires second < later
    ensures Less(Instant(second), Instant(later))
  {
    LessAfter("2026-01-01T00:00:0", [second] + ".000Z", [later] + ".000Z");
    assert Instant(second) == "2026-01-01T00:00:0" + ([second] + ".000Z");
    assert Instant(later) == "2026-01-01T00:00:0" + ([later] + ".000Z");
  }

  lemma {:induction false} NewerStay(rows: seq<AuditEvent>, before: string, n: nat, e: AuditEvent)
    requires !Less(e.ts, before)
    ensures multiset(Survivors(rows, before, n))[e] == multiset(rows)[e]
  {
    if rows != [] {
      assert rows == [rows[0]] + rows[1..];
      NewerStay(rows[1..], before, n, e);
      if n > 0 { NewerStay(rows[1..], before, n - 1, e); }
    }
  }

  lemma {:induction false} NoOlderStays(rows: seq<AuditEvent>, before: string, n: nat, e: AuditEvent)
    requires n >= |rows| && e in Survivors(rows, before, n)
    ensures !Less(e.ts, before)
  {
    if rows != [] {
      if Less(rows[0].ts, before) {
        NoOlderStays(rows[1..], before, n - 1, e);
      } else if e != rows[0] {
        NoOlderStays(rows[1..], before, n, e);
      }
    }
  }

  /** Only rows from before the given time are ever purged, and an unlimited purge leaves none of them. */
  lemma PurgeIsOfOlder(rows: seq<AuditEvent>, before: string, n: nat, e: AuditEvent)
    ensures e in Taken(rows, before, n) ==> Less(e.ts, before)
    ensures n >= |rows| && e in Survivors(rows, before, n) ==> !Less(e.ts, before)
  {
    if !Less(e.ts, before) { NewerStay(rows, before, n, e); }
    if n >= |rows| && e in Survivors(rows, before, n) { NoOlderStays(rows, before, n, e); }
  }

  lemma OneOfTwoGone(x: AuditEvent, y: AuditEvent, before: string)
    requires Less(x.ts, before) && Less(y.ts, before)
    ensures Survivors([x, y], before, 1) == [y] && OlderRows([y], before) == [y]
  {
    assert [x, y][1..] == [y] && [y][1..] == [];
    assert Survivors([y], before, 0) == [y] + Survivors([], before, 0);
    assert OlderRows([y], before) == [y] + OlderRows([], before);
  }

  lemma SteppedBackPurge(x: AuditEvent, y: AuditEvent, before: string)
    requires Less(y.ts, x.ts) && Less(x.ts, before) && Less(y.ts, before)
    ensures Survivors([x, y], before, 1) == [y] && Taken([x, y], before, 1) == multiset{x}
    ensures !TakesOldest([x, y], before, 1)
  {
    OneOfTwoGone(x, y, before);
    assert multiset([x, y]) == multiset{x, y};
    assert x in Taken([x, y], before, 1) && y in OlderRows(Survivors([x, y], before, 1), before);
  }

  /** A clock that stepped back by a second between two appends: a purge of one takes the later row
      and leaves the earlier. */
  lemma SteppedBackClock()
    ensures var x, y, before := LoginAt(Instant('2')), LoginAt(Instant('1')), Instant('3');
            && Survivors([x, y], before, 1) == [y] && Taken([x, y], before, 1) == multiset{x}
            && !TakesOldest([x, y], before, 1)
  {
    InstantsInOrder('2', '3');
    InstantsInOrder('1', '3');
    InstantsInOrder('1', '2');
    SteppedBackPurge(LoginAt(Instant('2')), LoginAt(Instant('1')), Instant('3'));
  }
}
