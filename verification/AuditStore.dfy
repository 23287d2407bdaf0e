/** The store's audit table, the paged export over it, and the batched retention purge. */
module AuditStores {
  import opened Sequences
  import opened Options
  import opened AuditModel
  import opened AuditCsv

  const AUDIT_PAGE_MAX := 1000
  const MAX_PURGE_ROUNDS := 10_000

  class InMemoryStore {
    var audit: seq<AuditEvent>

    constructor ()
      ensures audit == []
    {
      audit := [];
    }

    method AppendAudit(e: AuditEvent)
      modifies this
      ensures audit == old(audit) + [e]
    {
      audit := audit + [e];
    }

    method AppendAll(rows: seq<AuditEvent>)
      modifies this
      ensures audit == old(audit) + rows
    {
      var i := 0;
      while i < |rows|
        invariant i <= |rows| && audit == old(audit) + rows[..i]
      {
        AppendAudit(rows[i]);
        i := i + 1;
      }
      assert rows[..i] == rows;
    }

    /** Deletes older rows in stored order, at most `limit` of them. */
    method PurgeAudit(before: string, limit: Option<nat>) returns (removed: nat)
      modifies this
      ensures var older := |OlderRows(old(audit), before)|;
              && removed == (if limit.None? then older else Min(limit.value, older))
              && audit == Survivors(old(audit), before, removed)
    {
      removed := 0;
      var survivors := [];
      var i := 0;
      ghost var n := if limit.None? then |OlderRows(audit, before)| else limit.value;
      SurvivorsCap(audit, before, n);
      while i < |audit|
        invariant i <= |audit| && audit == old(audit)
        invariant Purging(audit, before, n, survivors, removed, audit[i..])
        invariant limit.None? ==> removed + |OlderRows(audit[i..], before)| == n
      {
        var e := audit[i];
        assert audit[i..][1..] == audit[i + 1..];
        if Less(e.ts, before) && (limit.None? || removed < limit.value) {
          PurgingStep(audit, before, n, survivors, removed, audit[i..]);
          removed := removed + 1;
        } else {
          PurgingStep(audit, before, n, survivors, removed, audit[i..]);
          survivors := survivors + [e];
        }
        i := i + 1;
      }
      audit := survivors;
    }
  }

  /** With `left` still to be looked at, a purge of at most `n` rows is on its way to its result. */
  ghost predicate Purging(
    rows: seq<AuditEvent>, before: string, n: nat, kept: seq<AuditEvent>, removed: nat, left: seq<AuditEvent>)
  {
    && removed <= n
    && kept + Survivors(left, before, n - removed) == Survivors(rows, before, n)
    && removed + Min(n - removed, |OlderRows(left, before)|) == Min(n, |OlderRows(rows, before)|)
  }

  lemma PurgingStep(
    rows: seq<AuditEvent>, before: string, n: nat, kept: seq<AuditEvent>, removed: nat, left: seq<AuditEvent>)
    requires Purging(rows, before, n, kept, removed, left) && left != []
    ensures if Older(left[0], before) && removed < n then Purging(rows, before, n, kept, removed + 1, left[1..])
            else Purging(rows, before, n, kept + [left[0]], removed, left[1..])
  {
  }

  /** Asking for more than there is deletes what there is. */
  lemma {:induction false} SurvivorsCap(rows: seq<AuditEvent>, before: string, n: nat)
    ensures Survivors(rows, before, n) == Survivors(rows, before, Min(n, |OlderRows(rows, before)|))
  {
    if rows != [] {
      SurvivorsCap(rows[1..], before, if Older(rows[0], before) && n > 0 then n - 1 else n);
      if Older(rows[0], before) && n == 0 { NothingDeleted(rows[1..], before); }
    }
  }

  // ---- export -----------------------------------------------------------------

  /** Each batch of arrivals is no earlier than anything stored by then. */
  ghost predicate InOrder(rows: seq<AuditEvent>, arrivals: seq<seq<AuditEvent>>)
    decreases arrivals
  {
    arrivals == [] || (Follows(rows, arrivals[0]) && InOrder(rows + arrivals[0], arrivals[1..]))
  }

  lemma {:induction false} InOrderFollows(rows: seq<AuditEvent>, arrivals: seq<seq<AuditEvent>>)
    requires InOrder(rows, arrivals)
    ensures Follows(rows, Flat(arrivals))
    decreases arrivals
  {
    if arrivals != [] {
      InOrderFollows(rows + arrivals[0], arrivals[1..]);
    }
  }

  /** What holds between pages: where the arrivals will end, and that everything only grows at the end. */
  ghost predicate Paging(
    q: Query, start: seq<AuditEvent>, stored: seq<AuditEvent>, left: seq<seq<AuditEvent>>, end: seq<AuditEvent>)
  {
    && InOrder(stored, left)
    && stored + Flat(left) == end
    && start <= stored
    && All(q, start) <= All(q, stored)
    && |All(q, stored)| <= |All(q, end)|
  }

  lemma PagingStarts(q: Query, start: seq<AuditEvent>, arrivals: seq<seq<AuditEvent>>)
    requires InOrder(start, arrivals)
    ensures Paging(q, start, start, arrivals, start + Flat(arrivals))
  {
    InOrderFollows(start, arrivals);
    AllExtends(q, start, Flat(arrivals));
  }

  lemma PagingArrival(
    q: Query, start: seq<AuditEvent>, stored: seq<AuditEvent>, left: seq<seq<AuditEvent>>, end: seq<AuditEvent>)
    requires Paging(q, start, stored, left, end) && left != []
    ensures Paging(q, start, stored + left[0], left[1..], end)
    ensures All(q, stored) <= All(q, stored + left[0])
  {
    var grown := stored + left[0];
    AllExtends(q, stored, left[0]);
    InOrderFollows(grown, left[1..]);
    AllExtends(q, grown, Flat(left[1..]));
    assert grown + Flat(left[1..]) == stored + Flat(left);
  }

  /** A page carries on exactly where the rows read so far stop; a short page is the last. */
  lemma PageCarriesOn(q: Query, stored: seq<AuditEvent>, rows: seq<AuditEvent>)
    requires rows <= All(q, stored)
    ensures var page := QueryAudit(q, stored, Some(AUDIT_PAGE_MAX), Some(|rows|));
            && rows + page <= All(q, stored)
            && (|page| < AUDIT_PAGE_MAX ==> rows + page == All(q, stored))
  {
  }

  /** Pages through the store; while it is being read, `arrivals[k]` is appended after page k. The
      rows read are a front part of the final result that holds the whole snapshot taken at the
      start, each row once and in order; without arrivals they are exactly that snapshot. */
  method StreamAuditCsv(store: InMemoryStore, q: Query, arrivals: seq<seq<AuditEvent>>)
    returns (rows: seq<AuditEvent>, text: string)
    requires InOrder(store.audit, arrivals)
    modifies store
    ensures All(q, old(store.audit)) <= rows <= All(q, store.audit)
    ensures old(store.audit) <= store.audit <= old(store.audit) + Flat(arrivals)
    ensures Flat(arrivals) == [] ==> rows == All(q, old(store.audit))
    ensures text == ExportText(rows)
  {
    rows, text := [], HEADER_LINE;
    var offset, k := 0, 0;
    ghost var start, end := store.audit, store.audit + Flat(arrivals);
    PagingStarts(q, start, arrivals);
    assert arrivals[0..] == arrivals && HEADER_LINE + "" == HEADER_LINE;
    while true
      invariant k <= |arrivals| && Paging(q, start, store.audit, arrivals[k..], end)
      invariant offset == |rows| && rows <= All(q, store.audit)
      invariant text == ExportText(rows)
      decreases |All(q, end)| - offset
    {
      var page := QueryAudit(q, store.audit, Some(AUDIT_PAGE_MAX), Some(offset));
      PageCarriesOn(q, store.audit, rows);
      if page == [] { break; }
      text := AppendLines(text, rows, page);
      rows := rows + page;
      if |page| < AUDIT_PAGE_MAX { break; }
      offset := offset + |page|;
      if k < |arrivals| {
        PagingArrival(q, start, store.audit, arrivals[k..], end);
        assert arrivals[k..][1..] == arrivals[k + 1..];
        store.AppendAll(arrivals[k]);
        k := k + 1;
      }
    }
    PagingBounds(q, start, store.audit, arrivals[k..], end);
  }

  lemma PagingBounds(
    q: Query, start: seq<AuditEvent>, stored: seq<AuditEvent>, left: seq<seq<AuditEvent>>, end: seq<AuditEvent>)
    requires Paging(q, start, stored, left, end)
    ensures start <= stored <= end && All(q, start) <= All(q, stored)
    ensures end == start ==> stored == start
  {
  }

  method AppendLines(text: string, rows: seq<AuditEvent>, page: seq<AuditEvent>) returns (longer: string)
    requires text == ExportText(rows)
    ensures longer == ExportText(rows + page)
  {
    longer := text;
    var i := 0;
    assert rows + page[..0] == rows;
    while i < |page|
      invariant i <= |page| && longer == ExportText(rows + page[..i])
    {
      ExportPush(rows + page[..i], page[i]);
      assert rows + page[..i] + [page[i]] == rows + page[..i + 1];
      longer := longer + AuditLineCsv(page[i]);
      i := i + 1;
    }
    assert page[..i] == page;
  }

  /** What a reader makes of an export: the header, then the rows of the whole query, the snapshot
      taken at the start first. */
  method ExportReadsBack(store: InMemoryStore, q: Query, arrivals: seq<seq<AuditEvent>>)
    returns (text: string, records: seq<seq<string>>)
    requires InOrder(store.audit, arrivals)
    modifies store
    ensures ReadCsv(text) == Some(records)
    ensures [HEADER_FIELDS] + Records(All(q, old(store.audit))) <= records
    ensures Flat(arrivals) == [] ==> records == [HEADER_FIELDS] + Records(All(q, old(store.audit)))
  {
    var rows;
    rows, text := StreamAuditCsv(store, q, arrivals);
    CsvReadsBack(rows);
    var snapshot := All(q, old(store.audit));
    RecordsConcat(snapshot, rows[|snapshot|..]);
    assert rows == snapshot + rows[|snapshot|..];
    records := [HEADER_FIELDS] + Records(rows);
  }

  // ---- retention --------------------------------------------------------------

  class AuditRetention {
    const store: InMemoryStore
    const retentionDays: int
    const batchSize: nat
    var running: bool
    var lastPurgeAt: int

    constructor (store: InMemoryStore, retentionDays: int, batchSize: nat)
      ensures this.store == store && this.retentionDays == retentionDays && this.batchSize == batchSize
      ensures !running && lastPurgeAt == 0
    {
      this.store, this.retentionDays, this.batchSize := store, retentionDays, batchSize;
      running, lastPurgeAt := false, 0;
    }

    /** One batched pass; rows no older than the cutoff may be appended after any batch. It deletes
        min(n, 10000 batches) of the n older rows, the first ones stored, in effect in one go. */
    method PurgeNow(before: string, now: int, arrivals: seq<seq<AuditEvent>>)
      returns (total: nat, ghost taken: nat)
      requires forall k :: 0 <= k < |arrivals| ==> OlderRows(arrivals[k], before) == []
      modifies this, store
      ensures retentionDays < 1 || old(running) ==>
                total == 0 && store.audit == old(store.audit) && running == old(running) && lastPurgeAt == old(lastPurgeAt)
      ensures retentionDays >= 1 && !old(running) ==>
                && total == Min(|OlderRows(old(store.audit), before)|, MAX_PURGE_ROUNDS * batchSize)
                && taken <= |arrivals|
                && store.audit == Survivors(old(store.audit), before, total) + Flat(arrivals[..taken])
                && !running && lastPurgeAt == now
    {
      if retentionDays < 1 || running { return 0, 0; }
      running := true;
      total, taken := PurgeBatches(before, arrivals);
      lastPurgeAt := now;
      running := false;
    }

    method PurgeBatches(before: string, arrivals: seq<seq<AuditEvent>>)
      returns (total: nat, ghost taken: nat)
      requires forall k :: 0 <= k < |arrivals| ==> OlderRows(arrivals[k], before) == []
      modifies store
      ensures total == Min(|OlderRows(old(store.audit), before)|, MAX_PURGE_ROUNDS * batchSize)
      ensures taken <= |arrivals|
      ensures store.audit == Survivors(old(store.audit), before, total) + Flat(arrivals[..taken])
    {
      total := 0;
      ghost var rows, n := store.audit, |OlderRows(store.audit, before)|;
      var k, i := 0, 0;
      NothingDeleted(rows, before);
      assert arrivals[..0] == [] && rows + Flat([]) == rows;
      while i < MAX_PURGE_ROUNDS
        invariant i <= MAX_PURGE_ROUNDS && k <= |arrivals|
        invariant total == Min(n, Quota(i, batchSize))
        invariant store.audit == Survivors(rows, before, total) + Flat(arrivals[..k])
      {
        FlatNewer(arrivals[..k], before);
        OneBatch(rows, before, total, batchSize, Flat(arrivals[..k]));
        var removed := store.PurgeAudit(before, Some(batchSize));
        NextTotal(n, i, batchSize, total);
        total := total + removed;
        i := i + 1;
        if removed < batchSize { break; }
        if k < |arrivals| {
          Arrived(Survivors(rows, before, total), arrivals, k);
          store.AppendAll(arrivals[k]);
          k := k + 1;
        }
      }
      taken := k;
      QuotaIsProduct(MAX_PURGE_ROUNDS, batchSize);
    }
  }

  /** A batch takes the next older rows, whatever newer rows came in behind them. */
  lemma OneBatch(rows: seq<AuditEvent>, before: string, total: nat, b: nat, late: seq<AuditEvent>)
    requires OlderRows(late, before) == [] && total <= |OlderRows(rows, before)|
    ensures var stored := Survivors(rows, before, total) + late;
            var removed := Min(b, |OlderRows(stored, before)|);
            && removed == Min(b, |OlderRows(rows, before)| - total)
            && Survivors(stored, before, removed) == Survivors(rows, before, total + removed) + late
  {
    var kept := Survivors(rows, before, total);
    OlderLeft(rows, before, total);
    SurvivorsConcat(kept, late, before, Min(b, |OlderRows(kept, before)|));
    SurvivorsCompose(rows, before, total, Min(b, |OlderRows(kept, before)|));
  }

  lemma OlderLeft(rows: seq<AuditEvent>, before: string, n: nat)
    requires n <= |OlderRows(rows, before)|
    ensures |OlderRows(Survivors(rows, before, n), before)| == |OlderRows(rows, before)| - n
  {
  }

  /** What `rounds` full batches take. */
  function Quota(rounds: nat, b: nat): nat {
    if rounds == 0 then 0 else Quota(rounds - 1, b) + b
  }

  lemma {:induction false} QuotaIsProduct(rounds: nat, b: nat)
    ensures Quota(rounds, b) == rounds * b
  {
    if rounds > 0 {
      QuotaIsProduct(rounds - 1, b);
      assert rounds * b == (rounds - 1) * b + b;
    }
  }

  lemma {:induction false} QuotaGrows(i: nat, j: nat, b: nat)
    requires i <= j
    ensures Quota(i, b) <= Quota(j, b)
  {
    if i < j { QuotaGrows(i, j - 1, b); }
  }

  /** A batch that is not full has reached the end, and further rounds would find nothing. */
  lemma NextTotal(n: nat, i: nat, b: nat, total: nat)
    requires i < MAX_PURGE_ROUNDS && total == Min(n, Quota(i, b))
    ensures var removed := Min(b, n - total);
            && total + removed == Min(n, Quota(i + 1, b))
            && (removed < b ==> total + removed == Min(n, Quota(MAX_PURGE_ROUNDS, b)))
  {
    QuotaGrows(i + 1, MAX_PURGE_ROUNDS, b);
  }

  lemma Arrived(kept: seq<AuditEvent>, arrivals: seq<seq<AuditEvent>>, k: nat)
    requires k < |arrivals|
    ensures kept + Flat(arrivals[..k]) + arrivals[k] == kept + Flat(arrivals[..k + 1])
  {
    FlatPush(arrivals[..k], arrivals[k]);
    assert arrivals[..k] + [arrivals[k]] == arrivals[..k + 1];
  }

  lemma {:induction false} FlatNewer(batches: seq<seq<AuditEvent>>, before: string)
    requires forall k :: 0 <= k < |batches| ==> OlderRows(batches[k], before) == []
    ensures OlderRows(Flat(batches), before) == []
  {
    if batches != [] {
      FlatNewer(batches[1..], before);
      SurvivorsConcat(batches[0], Flat(batches[1..]), before, 0);
    }
  }

  /** When the batches suffice, the pass is one unlimited purge. */
  lemma BatchedIsOneShot(rows: seq<AuditEvent>, before: string, batchSize: nat)
    requires |OlderRows(rows, before)| <= MAX_PURGE_ROUNDS * batchSize
    ensures Survivors(rows, before, Min(|OlderRows(rows, before)|, MAX_PURGE_ROUNDS * batchSize))
         == NewerRows(rows, before)
  {
  }
}
