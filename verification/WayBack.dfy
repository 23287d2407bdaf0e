/** The way back: from what comes in about a channel to the calls of its handlers, and for a relay on
    to the bytes the browser is sent. */
module WayBack {
  import opened Sequences
  import opened Bytes
  import R = RegistryModel
  import L = RelayLifecycle
  import opened Untouched
  import W = ResponseWriter

  // ---- what a run calls on a channel ------------------------------------------

  /** The handler call a message about a channel asks for, by the kind of the channel. */
  function Asked(e: R.Event, c: int, tunnel: bool): seq<R.Call> {
    match e
    case EvFrame(channel, kind, data) =>
      if channel != c then [] else if tunnel then [R.WsOnData(kind, data)] else [R.OnData(data)]
    case EvResponse(channel, status, headers) => if channel == c && !tunnel then [R.OnResponse(status, headers)] else []
    case EvEnd(channel) => if channel == c && !tunnel then [R.OnEnd] else []
    case EvWsOpenOk(channel) => if channel == c && tunnel then [R.WsOnOpen] else []
    case EvWsClose(channel, code) => if channel == c && tunnel then [R.WsOnClose(code)] else []
    case _ => []
  }

  function AskedAll(events: seq<R.Event>, c: int, tunnel: bool): seq<R.Call> {
    if events == [] then [] else Asked(events[0], c, tunnel) + AskedAll(events[1..], c, tunnel)
  }

  lemma {:induction false} AskedConcat(a: seq<R.Event>, b: seq<R.Event>, c: int, tunnel: bool)
    ensures AskedAll(a + b, c, tunnel) == AskedAll(a, c, tunnel) + AskedAll(b, c, tunnel)
  {
    if a == [] {
      assert a + b == b;
    } else {
      assert (a + b)[1..] == a[1..] + b && (a + b)[0] == a[0];
      AskedConcat(a[1..], b, c, tunnel);
      Grouped(Asked(a[0], c, tunnel), AskedAll(a[1..], c, tunnel), AskedAll(b, c, tunnel));
    }
  }

  /** The channel is registered as the kind it was opened as. */
  predicate Open(s: R.Registry, c: int, tunnel: bool) {
    if tunnel then c in s.wsChannels else c in s.streams
  }

  /** The event breaks the channel off: its idle timer, the browser leaving, a closing socket of its
      machine, a shutdown. */
  predicate Breaks(s: R.Registry, e: R.Event, c: int, tunnel: bool) {
    && Open(s, c, tunnel)
    && match e
       case EvIdle(channel) => channel == c && !tunnel
       case EvBrowserClose(channel) => channel == c && tunnel
       case EvSocketClose(ws) => ws in s.sockets && Owned(s, c, s.sockets[ws].machineId, tunnel)
       case EvStop => true
       case _ => false
  }

  predicate Owned(s: R.Registry, c: int, machineId: string, tunnel: bool) {
    if tunnel then c in s.wsChannelNode && s.wsChannelNode[c] == machineId
    else c in s.streamsNode && s.streamsNode[c] == machineId
  }

  /** The last call of a channel broken off. A browser that left is not told, nor is one at a shutdown. */
  function LastCall(e: R.Event, tunnel: bool): seq<R.Call> {
    if !tunnel then [R.OnError] else if e.EvSocketClose? then [R.WsOnClose(1011)] else []
  }

  /** Nothing in the run breaks the channel off. */
  predicate Unbroken(s: R.Registry, events: seq<R.Event>, c: int, tunnel: bool)
    decreases events
  {
    events == [] || (!Breaks(s, events[0], c, tunnel) && Unbroken(R.Step(s, events[0]), events[1..], c, tunnel))
  }

  /** How a channel stands after a run: still open, ended by the node, or broken off with a last call. */
  datatype Fate = StillOpen | Ended | Broken(last: seq<R.Call>)

  predicate Ends(calls: seq<R.Call>) {
    |calls| == 1 && L.Terminal(calls[0])
  }

  /** What one event does to an open channel. */
  predicate Moves(s: R.Registry, e: R.Event, s': R.Registry, c: int, tunnel: bool) {
    var calls, calls' := R.CallsOf(s.calls, c), R.CallsOf(s'.calls, c);
    if Breaks(s, e, c, tunnel) then !Open(s', c, tunnel) && calls' == calls + LastCall(e, tunnel)
    else (Open(s', c, tunnel) <==> !Ends(Asked(e, c, tunnel))) && calls' == calls + Asked(e, c, tunnel)
  }

  lemma FrameMoves(s: R.Registry, e: R.Event, c: int, tunnel: bool)
    requires L.Tables(s) && Open(s, c, tunnel) && e.EvFrame?
    ensures Moves(s, e, R.Step(s, e), c, tunnel)
  {
    assert Moves(s, e, R.OnFrame(s, e.channel, e.kind, e.data), c, tunnel);
  }

  lemma AnswerMoves(s: R.Registry, e: R.Event, c: int, tunnel: bool)
    requires L.Tables(s) && Open(s, c, tunnel) && (e.EvResponse? || e.EvWsOpenOk?)
    ensures Moves(s, e, R.Step(s, e), c, tunnel)
  {
    if e.EvResponse? {
      assert Moves(s, e, R.OnRelayResponse(s, e.channel, e.status, e.headers), c, tunnel);
    } else {
      assert Moves(s, e, R.OnWsOpenOk(s, e.channel), c, tunnel);
    }
  }

  lemma EndingMoves(s: R.Registry, e: R.Event, c: int, tunnel: bool)
    requires L.Tables(s) && Open(s, c, tunnel) && (e.EvEnd? || e.EvIdle? || e.EvWsClose? || e.EvBrowserClose?)
    ensures Moves(s, e, R.Step(s, e), c, tunnel)
  {
  }

  lemma CloseMoves(s: R.Registry, e: R.Event, c: int, tunnel: bool)
    requires L.Inv(s) && Open(s, c, tunnel) && e.EvSocketClose?
    ensures Moves(s, e, R.Step(s, e), c, tunnel)
  {
    if e.ws in s.sockets {
      L.SocketCloseDropsExactly(s, e.ws, c);
    }
  }

  lemma OtherMoves(s: R.Registry, e: R.Event, c: int, tunnel: bool)
    requires L.Tables(s) && Open(s, c, tunnel)
    requires e.EvRelay? || e.EvWsOpen? || e.EvStop?
    ensures Moves(s, e, R.Step(s, e), c, tunnel)
  {
  }

  lemma EventMoves(s: R.Registry, e: R.Event, c: int, tunnel: bool)
    requires L.Inv(s) && Open(s, c, tunnel)
    ensures Moves(s, e, R.Step(s, e), c, tunnel)
  {
    if e.EvFrame? {
      FrameMoves(s, e, c, tunnel);
    } else if e.EvResponse? || e.EvWsOpenOk? {
      AnswerMoves(s, e, c, tunnel);
    } else if e.EvEnd? || e.EvIdle? || e.EvWsClose? || e.EvBrowserClose? {
      EndingMoves(s, e, c, tunnel);
    } else if e.EvSocketClose? {
      CloseMoves(s, e, c, tunnel);
    } else if e.EvRelay? || e.EvWsOpen? || e.EvStop? {
      OtherMoves(s, e, c, tunnel);
    } else {
      assert L.SameChannels(s, R.Step(s, e));
    }
  }

  /** The calls of a channel after a run: the first `k` it was asked for, and its last call if it was
      broken off. */
  predicate Comes(calls: seq<R.Call>, before: seq<R.Call>, asked: seq<R.Call>, k: nat, fate: Fate, open: bool) {
    && k <= |asked| && calls == before + asked[..k] + (if fate.Broken? then fate.last else [])
    && (open <==> fate.StillOpen?)
    && (fate.StillOpen? ==> k == |asked|)
    && (fate.Ended? ==> k > 0 && L.Terminal(asked[k - 1]))
    && (forall i :: 0 <= i < (if fate.Ended? then k - 1 else k) ==> !L.Terminal(asked[i]))
  }

  /** A last call is the relay's one error, the tunnel's 1011, or none. */
  predicate Tells(fate: Fate, tunnel: bool) {
    fate.Broken? ==> if tunnel then fate.last == [R.WsOnClose(1011)] || fate.last == [] else fate.last == [R.OnError]
  }

  /** In every run an open channel is called exactly as the messages about it ask, in order, up to its
      end, or up to the event that broke it off: exactly if there is one. */
  lemma {:induction false} CallsFollow(s: R.Registry, events: seq<R.Event>, c: int, tunnel: bool)
    returns (k: nat, fate: Fate)
    requires L.Inv(s) && Open(s, c, tunnel)
    ensures Comes(R.CallsOf(R.Run(s, events).calls, c), R.CallsOf(s.calls, c), AskedAll(events, c, tunnel), k, fate,
                  Open(R.Run(s, events), c, tunnel))
    ensures Unbroken(s, events, c, tunnel) <==> !fate.Broken?
    ensures Tells(fate, tunnel)
    decreases events
  {
    var before := R.CallsOf(s.calls, c);
    if events == [] {
      k, fate := 0, StillOpen;
      assert before + [] + [] == before;
    } else {
      var e, s', rest := events[0], R.Step(s, events[0]), events[1..];
      L.InvStep(s, e);
      if !Open(s', c, tunnel) {
        var broken := Breaks(s, e, c, tunnel);
        k, fate := if broken then 0 else 1, if broken then Broken(LastCall(e, tunnel)) else Ended;
        FollowsGone(s, e, rest, c, tunnel, k, fate);
      } else {
        var k', fate' := CallsFollow(s', rest, c, tunnel);
        k, fate := |Asked(e, c, tunnel)| + k', fate';
        FollowsOpen(s, e, rest, c, tunnel, k', fate);
      }
    }
  }

  lemma OpenMoves(s: R.Registry, e: R.Event, c: int, tunnel: bool)
    requires L.Inv(s) && Open(s, c, tunnel) && Open(R.Step(s, e), c, tunnel)
    ensures R.CallsOf(R.Step(s, e).calls, c) == R.CallsOf(s.calls, c) + Asked(e, c, tunnel)
    ensures !Breaks(s, e, c, tunnel) && |Asked(e, c, tunnel)| <= 1 && !Ends(Asked(e, c, tunnel))
  {
    EventMoves(s, e, c, tunnel);
  }

  lemma FollowsOpen(s: R.Registry, e: R.Event, rest: seq<R.Event>, c: int, tunnel: bool, k: nat, fate: Fate)
    requires L.Inv(s) && Open(s, c, tunnel) && Open(R.Step(s, e), c, tunnel)
    requires Comes(R.CallsOf(R.Run(R.Step(s, e), rest).calls, c), R.CallsOf(R.Step(s, e).calls, c),
                   AskedAll(rest, c, tunnel), k, fate, Open(R.Run(R.Step(s, e), rest), c, tunnel))
    ensures Comes(R.CallsOf(R.Run(R.Step(s, e), rest).calls, c), R.CallsOf(s.calls, c),
                  Asked(e, c, tunnel) + AskedAll(rest, c, tunnel), |Asked(e, c, tunnel)| + k, fate,
                  Open(R.Run(R.Step(s, e), rest), c, tunnel))
    ensures !Breaks(s, e, c, tunnel)
  {
    OpenMoves(s, e, c, tunnel);
    OneMoreAsked(R.CallsOf(R.Run(R.Step(s, e), rest).calls, c), R.CallsOf(s.calls, c), Asked(e, c, tunnel),
                 AskedAll(rest, c, tunnel), k, fate, Open(R.Run(R.Step(s, e), rest), c, tunnel));
  }

  lemma FollowsGone(s: R.Registry, e: R.Event, rest: seq<R.Event>, c: int, tunnel: bool, k: nat, fate: Fate)
    requires L.Inv(s) && Open(s, c, tunnel) && !Open(R.Step(s, e), c, tunnel)
    requires if Breaks(s, e, c, tunnel) then k == 0 && fate == Broken(LastCall(e, tunnel)) else k == 1 && fate == Ended
    ensures Comes(R.CallsOf(R.Run(R.Step(s, e), rest).calls, c), R.CallsOf(s.calls, c),
                  Asked(e, c, tunnel) + AskedAll(rest, c, tunnel), k, fate, Open(R.Run(R.Step(s, e), rest), c, tunnel))
    ensures Unbroken(R.Step(s, e), rest, c, tunnel)
  {
    EventMoves(s, e, c, tunnel);
    GoneForGood(s, e, rest, c, tunnel);
    OneThenGone(R.CallsOf(s.calls, c), Asked(e, c, tunnel), AskedAll(rest, c, tunnel), k, fate);
  }

  /** Channel kinds are kept apart, so a channel that is gone is in no table at all. */
  lemma GoneForGood(s: R.Registry, e: R.Event, rest: seq<R.Event>, c: int, tunnel: bool)
    requires L.Inv(s) && Open(s, c, tunnel) && !Open(R.Step(s, e), c, tunnel)
    ensures !Open(R.Run(R.Step(s, e), rest), c, tunnel) && Unbroken(R.Step(s, e), rest, c, tunnel)
    ensures R.CallsOf(R.Run(R.Step(s, e), rest).calls, c) == R.CallsOf(R.Step(s, e).calls, c)
  {
    L.InvStep(s, e);
    KindStays(s, e, c);
    L.SilentOnceGone(R.Step(s, e), rest, c);
    NothingToBreak(R.Step(s, e), rest, c, tunnel);
  }

  lemma KindStays(s: R.Registry, e: R.Event, c: int)
    ensures (c in s.relays ==> c in R.Step(s, e).relays) && (c in s.tunnels ==> c in R.Step(s, e).tunnels)
  {
    if !e.EvRelay? && !e.EvWsOpen? { OnlyOpeningsNumber(s, e); }
  }

  lemma {:induction false} NothingToBreak(s: R.Registry, events: seq<R.Event>, c: int, tunnel: bool)
    requires L.Inv(s) && c <= s.channelSeq && c !in s.streams && c !in s.wsChannels
    ensures Unbroken(s, events, c, tunnel)
    decreases events
  {
    if events != [] {
      L.InvStep(s, events[0]);
      L.GoneStep(s, events[0], c);
      NothingToBreak(R.Step(s, events[0]), events[1..], c, tunnel);
    }
  }

  lemma OneThenGone(before: seq<R.Call>, first: seq<R.Call>, rest: seq<R.Call>, k: nat, fate: Fate)
    requires (fate.Broken? && k == 0) || (fate.Ended? && k == 1 && Ends(first))
    ensures Comes(before + (if fate.Broken? then fate.last else first), before, first + rest, k, fate, false)
  {
    if fate.Ended? {
      assert (first + rest)[..1] == first && before + first + [] == before + first;
    } else {
      assert before + [] == before;
    }
  }

  lemma OneMoreAsked(
    calls: seq<R.Call>, before: seq<R.Call>, first: seq<R.Call>, rest: seq<R.Call>, k: nat, fate: Fate, open: bool)
    requires Comes(calls, before + first, rest, k, fate, open) && |first| <= 1 && !Ends(first)
    ensures Comes(calls, before, first + rest, |first| + k, fate, open)
  {
    var asked := first + rest;
    assert asked[..|first| + k] == first + rest[..k];
    Grouped(before, first, rest[..k]);
    forall i | 0 <= i < (if fate.Ended? then |first| + k - 1 else |first| + k) ensures !L.Terminal(asked[i]) {
      if i < |first| { assert asked[i] == first[i]; } else { assert asked[i] == rest[i - |first|]; }
    }
  }

  // ---- what the calls write ---------------------------------------------------

  function WriteCall(page: W.Page, w: W.Writer, call: R.Call, failure: seq<byte>): W.Writer {
    match call
    case OnResponse(status, headers) => W.OnResponse(page, w, status, headers)
    case OnData(data) => W.OnData(w, data)
    case OnEnd => W.OnEnd(page, w)
    case OnError => W.OnError(w, failure)
    case _ => w
  }

  function WriteAll(page: W.Page, w: W.Writer, calls: seq<R.Call>, failure: seq<byte>): W.Writer
    decreases calls
  {
    if calls == [] then w else WriteAll(page, WriteCall(page, w, calls[0], failure), calls[1..], failure)
  }

  function DataCalls(chunks: seq<seq<byte>>): seq<R.Call> {
    if chunks == [] then [] else [R.OnData(chunks[0])] + DataCalls(chunks[1..])
  }

  /** The calls a whole response asks for. */
  function ResponseCalls(status: int, headers: map<string, string>, chunks: seq<seq<byte>>): seq<R.Call> {
    [R.OnResponse(status, headers)] + DataCalls(chunks) + [R.OnEnd]
  }

  lemma {:induction false} WriteConcat(
    page: W.Page, w: W.Writer, a: seq<R.Call>, b: seq<R.Call>, failure: seq<byte>)
    ensures WriteAll(page, w, a + b, failure) == WriteAll(page, WriteAll(page, w, a, failure), b, failure)
    decreases a
  {
    if a == [] {
      assert a + b == b;
    } else {
      assert (a + b)[1..] == a[1..] + b && (a + b)[0] == a[0];
      WriteConcat(page, WriteCall(page, w, a[0], failure), a[1..], b, failure);
    }
  }

  lemma {:induction false} WriteDatas(page: W.Page, w: W.Writer, chunks: seq<seq<byte>>, failure: seq<byte>)
    ensures WriteAll(page, w, DataCalls(chunks), failure) == W.OnDatas(w, chunks)
    decreases chunks
  {
    if chunks != [] {
      assert DataCalls(chunks)[1..] == DataCalls(chunks[1..]);
      WriteDatas(page, W.OnData(w, chunks[0]), chunks[1..], failure);
    }
  }

  lemma WriteOne(page: W.Page, w: W.Writer, call: R.Call, failure: seq<byte>)
    ensures WriteAll(page, w, [call], failure) == WriteCall(page, w, call, failure)
  {
    assert [call][1..] == [];
  }

  lemma WriteFront(page: W.Page, status: int, headers: map<string, string>, chunks: seq<seq<byte>>, failure: seq<byte>)
    ensures WriteAll(page, W.READY, [R.OnResponse(status, headers)] + DataCalls(chunks), failure)
         == W.OnDatas(W.OnResponse(page, W.READY, status, headers), chunks)
  {
    var first := [R.OnResponse(status, headers)];
    WriteConcat(page, W.READY, first, DataCalls(chunks), failure);
    WriteOne(page, W.READY, first[0], failure);
    WriteDatas(page, W.OnResponse(page, W.READY, status, headers), chunks, failure);
  }

  /** A response so far, and then one last call. */
  lemma WriteUpTo(
    page: W.Page, status: int, headers: map<string, string>, chunks: seq<seq<byte>>, last: R.Call, failure: seq<byte>)
    ensures WriteAll(page, W.READY, [R.OnResponse(status, headers)] + DataCalls(chunks) + [last], failure)
         == WriteCall(page, W.OnDatas(W.OnResponse(page, W.READY, status, headers), chunks), last, failure)
  {
    WriteConcat(page, W.READY, [R.OnResponse(status, headers)] + DataCalls(chunks), [last], failure);
    WriteFront(page, status, headers, chunks, failure);
    WriteOne(page, W.OnDatas(W.OnResponse(page, W.READY, status, headers), chunks), last, failure);
  }

  lemma {:induction false} DataCallsPart(chunks: seq<seq<byte>>, m: nat)
    requires m <= |chunks|
    ensures |DataCalls(chunks)| == |chunks| && DataCalls(chunks)[..m] == DataCalls(chunks[..m])
    ensures forall i :: 0 <= i < |chunks| ==> !L.Terminal(DataCalls(chunks)[i])
  {
    if chunks != [] {
      DataCallsPart(chunks[1..], if m > 0 then m - 1 else 0);
      if m > 0 { assert chunks[..m][1..] == chunks[1..][..m - 1]; }
    }
  }

  /** Of a response only the last call ends it, and a front part that does not is its head and first
      chunks, or nothing. */
  lemma FrontOfResponse(status: int, headers: map<string, string>, chunks: seq<seq<byte>>, k: nat)
    requires k <= |chunks| + 1
    ensures var all := ResponseCalls(status, headers, chunks);
            && |all| == |chunks| + 2 && all[|all| - 1] == R.OnEnd
            && (forall i :: 0 <= i < |all| - 1 ==> !L.Terminal(all[i]))
            && all[..k] == if k == 0 then [] else [R.OnResponse(status, headers)] + DataCalls(chunks[..k - 1])
  {
    var all, first := ResponseCalls(status, headers, chunks), [R.OnResponse(status, headers)];
    DataCallsPart(chunks, if k == 0 then 0 else k - 1);
    forall i | 0 <= i < |all| - 1 ensures !L.Terminal(all[i]) {
      assert all[i] == (first + DataCalls(chunks))[i];
    }
    if k > 0 { assert all[..k] == first + DataCalls(chunks)[..k - 1]; }
  }

  /** Where a relay stands that has been asked for the first `n` calls of a response: whole, or under
      way; or broken off after its head and `m` chunks, or before its head. */
  ghost predicate Written(
    w: W.Writer, open: bool, broken: bool, n: nat, m: nat, page: W.Page, status: int, headers: map<string, string>,
    chunks: seq<seq<byte>>, failure: seq<byte>)
  {
    if broken then
      && !open && m <= |chunks|
      && (w.ops == W.Refusal(failure)
          || (m < n && W.Served(page, w.ops, status, headers, chunks[..m], false, failure)))
    else if n == |chunks| + 2 then !open && W.Served(page, w.ops, status, headers, chunks, true, failure)
    else
      && open && n <= |chunks| + 1
      && if n == 0 then w == W.READY else W.Underway(page, w, status, headers, chunks[..n - 1])
  }

  /** Any front part of a response asked of an open relay that has not been answered yet, in every run:
      the browser is sent exactly what has been asked if nothing breaks the relay off, and exactly then
      all of it, ended once, when all has been asked; otherwise the head and a front part of the chunks
      asked, or the error alone. */
  lemma ResponseWritten(
    s: R.Registry, events: seq<R.Event>, c: int, page: W.Page, status: int, headers: map<string, string>,
    chunks: seq<seq<byte>>, failure: seq<byte>) returns (m: nat)
    requires L.Inv(s) && c in s.streams && R.CallsOf(s.calls, c) == []
    requires AskedAll(events, c, false) <= ResponseCalls(status, headers, chunks)
    ensures var s', n, broken := R.Run(s, events), |AskedAll(events, c, false)|, !Unbroken(s, events, c, false);
            Written(WriteAll(page, W.READY, R.CallsOf(s'.calls, c), failure), c in s'.streams, broken, n, m,
                    page, status, headers, chunks, failure)
  {
    var calls, asked := R.CallsOf(R.Run(s, events).calls, c), AskedAll(events, c, false);
    var k, fate := CallsFollow(s, events, c, false);
    FrontOfResponse(status, headers, chunks, 0);
    assert [] + asked[..k] == asked[..k];
    if fate.Broken? {
      m := if k == 0 then 0 else k - 1;
      BrokenIsWritten(asked, k, page, status, headers, chunks, failure);
      assert calls == asked[..k] + [R.OnError];
    } else {
      m := 0;
      assert asked[..k] + [] == asked[..k];
      UnbrokenIsWritten(asked, k, page, status, headers, chunks, failure);
    }
  }

  lemma BrokenIsWritten(
    asked: seq<R.Call>, k: nat, page: W.Page, status: int, headers: map<string, string>, chunks: seq<seq<byte>>,
    failure: seq<byte>)
    requires asked <= ResponseCalls(status, headers, chunks) && k <= |asked|
    requires forall i :: 0 <= i < k ==> !L.Terminal(asked[i])
    ensures k <= |chunks| + 1
    ensures var ops := WriteAll(page, W.READY, asked[..k] + [R.OnError], failure).ops;
            if k == 0 then ops == W.Refusal(failure)
            else W.Served(page, ops, status, headers, chunks[..k - 1], false, failure)
  {
    var all := ResponseCalls(status, headers, chunks);
    FrontOfResponse(status, headers, chunks, 0);
    if k == |all| { assert L.Terminal(asked[k - 1]); }
    FrontOfResponse(status, headers, chunks, k);
    assert asked[..k] == all[..k];
    if k == 0 {
      assert [] + [R.OnError] == [R.OnError];
      WriteOne(page, W.READY, R.OnError, failure);
    } else {
      WriteUpTo(page, status, headers, chunks[..k - 1], R.OnError, failure);
      W.ServedAsItComes(page, status, headers, chunks[..k - 1], failure);
    }
  }

  lemma UnbrokenIsWritten(
    asked: seq<R.Call>, k: nat, page: W.Page, status: int, headers: map<string, string>, chunks: seq<seq<byte>>,
    failure: seq<byte>)
    requires asked <= ResponseCalls(status, headers, chunks) && k <= |asked|
    requires k == |asked| || (k > 0 && L.Terminal(asked[k - 1]))
    ensures k == |asked| <= |chunks| + 2
    ensures var w := WriteAll(page, W.READY, asked[..k], failure);
            if k == |chunks| + 2 then W.Served(page, w.ops, status, headers, chunks, true, failure)
            else if k == 0 then w == W.READY
            else W.Underway(page, w, status, headers, chunks[..k - 1])
  {
    var all := ResponseCalls(status, headers, chunks);
    FrontOfResponse(status, headers, chunks, 0);
    if k == |all| {
      assert asked[..k] == all;
      WriteUpTo(page, status, headers, chunks, R.OnEnd, failure);
      W.ServedAsItComes(page, status, headers, chunks, failure);
    } else if k > 0 {
      FrontOfResponse(status, headers, chunks, k);
      assert asked[..k] == all[..k];
      WriteFront(page, status, headers, chunks[..k - 1], failure);
      W.ServedAsItComes(page, status, headers, chunks[..k - 1], failure);
    }
  }
}
