/** Agent and gateway together on the way back of a relay: what the local server answers on a channel is
    what the browser is sent. */
module AnsweredWhole {
  import opened Bytes
  import opened FrameCodec
  import opened Wire
  import R = RegistryModel
  import L = RelayLifecycle
  import opened AgentModel
  import opened AgentReplies
  import opened GatewayInbox
  import opened ChannelHearing
  import opened WayBack
  import opened Seats
  import E = EndToEnd
  import W = ResponseWriter

  // ---- a response -------------------------------------------------------------

  /** The local server answers: its head, its chunks, its end. */
  function ChunkEvents(c: int, chunks: seq<seq<byte>>): seq<Input> {
    if chunks == [] then [] else [Happens(Streams(c, chunks[0]))] + ChunkEvents(c, chunks[1..])
  }

  function Answer(c: int, status: int, headers: map<string, string>, chunks: seq<seq<byte>>): seq<Input> {
    [Happens(Responds(c, status, headers))] + ChunkEvents(c, chunks) + [Happens(Finishes(c))]
  }

  /** The local server fails before any head, which the agent makes an answer of its own. */
  predicate FailsFirst(ls: seq<Input>, c: int, status: int, headers: map<string, string>, chunks: seq<seq<byte>>) {
    ls == [Happens(Fails(c))] && status == 502 && headers == map[] && chunks == []
  }

  /** What the local side has done on the channel so far is a front part of the answer. */
  predicate Answers(ls: seq<Input>, c: int, status: int, headers: map<string, string>, chunks: seq<seq<byte>>) {
    ls <= Answer(c, status, headers, chunks) || FailsFirst(ls, c, status, headers, chunks)
  }

  predicate AnswersWhole(ls: seq<Input>, c: int, status: int, headers: map<string, string>, chunks: seq<seq<byte>>) {
    ls == Answer(c, status, headers, chunks) || FailsFirst(ls, c, status, headers, chunks)
  }

  /** Every chunk fits a frame. */
  predicate Frameable(chunks: seq<seq<byte>>) {
    forall i :: 0 <= i < |chunks| ==> |chunks[i]| < U32
  }

  lemma ChunkAsks(c: int, chunk: seq<byte>)
    requires 0 <= c < U32 && |chunk| < U32
    ensures CallsBy(Says(Happens(Streams(c, chunk))), c, false) == [R.OnData(chunk)]
  {
    var m := Bytes(Encode(Frame(BINARY, Word(c), 0, chunk)));
    FrameIsWhole(Frame(BINARY, Word(c), 0, chunk));
    CallsByOne(m, R.EvFrame(c, BINARY, chunk), c, false);
  }

  lemma {:induction false} ChunksAsk(c: int, chunks: seq<seq<byte>>)
    requires 0 <= c < U32 && Frameable(chunks)
    ensures CallsBy(SaidBy(ChunkEvents(c, chunks)), c, false) == DataCalls(chunks)
  {
    if chunks != [] {
      var i, rest := Happens(Streams(c, chunks[0])), ChunkEvents(c, chunks[1..]);
      ChunksAsk(c, chunks[1..]);
      ChunkAsks(c, chunks[0]);
      assert ([i] + rest)[1..] == rest;
      CallsByConcat(Says(i), SaidBy(rest), c, false);
    }
  }

  lemma ControlAsks(i: Input, m: Reply, c: int)
    requires Says(i) == [m] && !m.Bytes?
    ensures SaidBy([i]) == [m] && CallsBy([m], c, false) == Asked(ControlEvent(m), c, false)
  {
    assert [i][1..] == [] && [m] + [] == [m];
    CallsByOne(m, ControlEvent(m), c, false);
  }

  lemma AnswerAsks(c: int, status: int, headers: map<string, string>, chunks: seq<seq<byte>>)
    requires 0 <= c < U32 && Frameable(chunks)
    ensures CallsBy(SaidBy(Answer(c, status, headers, chunks)), c, false) == ResponseCalls(status, headers, chunks)
  {
    var head, end := Happens(Responds(c, status, headers)), Happens(Finishes(c));
    ControlAsks(head, RelayResponse(c, status, headers), c);
    ControlAsks(end, RelayEnd(c), c);
    ChunksAsk(c, chunks);
    SaidConcat([head] + ChunkEvents(c, chunks), [end]);
    SaidConcat([head], ChunkEvents(c, chunks));
    CallsByConcat(SaidBy([head] + ChunkEvents(c, chunks)), SaidBy([end]), c, false);
    CallsByConcat(SaidBy([head]), SaidBy(ChunkEvents(c, chunks)), c, false);
  }

  /** A failure is said as an answer would be. */
  lemma FailureSays(c: int)
    ensures SaidBy([Happens(Fails(c))]) == SaidBy(Answer(c, 502, map[], []))
  {
    var head, end := Happens(Responds(c, 502, map[])), Happens(Finishes(c));
    assert [Happens(Fails(c))][1..] == [];
    assert Answer(c, 502, map[], []) == [head, end];
    assert [head, end][1..] == [end] && [end][1..] == [];
    assert SaidBy([end]) == [RelayEnd(c)] + [];
  }

  lemma AnswersAsk(ls: seq<Input>, c: int, status: int, headers: map<string, string>, chunks: seq<seq<byte>>)
    requires 0 <= c < U32 && Frameable(chunks) && Answers(ls, c, status, headers, chunks)
    ensures CallsBy(SaidBy(ls), c, false) <= ResponseCalls(status, headers, chunks)
    ensures AnswersWhole(ls, c, status, headers, chunks) ==>
              CallsBy(SaidBy(ls), c, false) == ResponseCalls(status, headers, chunks)
  {
    var all := Answer(c, status, headers, chunks);
    AnswerAsks(c, status, headers, chunks);
    if ls <= all {
      assert all == ls + all[|ls|..];
      SaidConcat(ls, all[|ls|..]);
      CallsByFront(SaidBy(ls), SaidBy(all), c, false);
    } else {
      FailureSays(c);
    }
  }

  /** What the browser has been sent after a run of the gateway, with `n` calls asked of the relay. */
  ghost predicate WrittenAfter(
    g: Gateway, xs: seq<Arrival>, c: int, n: nat, m: nat, page: W.Page, status: int, headers: map<string, string>,
    chunks: seq<seq<byte>>, failure: seq<byte>)
  {
    var s := TakeAll(g, xs).registry;
    Written(WriteAll(page, W.READY, R.CallsOf(s.calls, c), failure), c in s.streams,
            !Unbroken(g.registry, AllEvents(g, xs), c, false), n, m, page, status, headers, chunks, failure)
  }

  /** From the local server to the browser, in every run of agent and gateway and at every point of it:
      of an answer to an open relay, as far as the local server has given it and the gateway has heard
      it, the browser is sent just that if nothing breaks the relay off; all of it, ended once, when all
      has been heard; and if something does, the head and a front part of the chunks heard, or the error
      alone. Pages to inject into are sent as `Served` says. */
  lemma AnsweredExactlyOnce(
    g: Gateway, xs: seq<Arrival>, ws: nat, inputs: seq<Input>, c: int, page: W.Page, status: int,
    headers: map<string, string>, chunks: seq<seq<byte>>, failure: seq<byte>) returns (n: nat, m: nat)
    requires L.Inv(g.registry) && c in g.registry.streams && R.CallsOf(g.registry.calls, c) == [] && 0 <= c < U32
    requires Hears(g, xs, ws, inputs, c)
    requires Answers(InputsOn(inputs, c), c, status, headers, chunks) && Frameable(chunks)
    ensures WrittenAfter(g, xs, c, n, m, page, status, headers, chunks, failure)
    ensures n == |AskedAll(AllEvents(g, xs), c, false)|
    ensures HeardAll(xs, ws, inputs, c) && AnswersWhole(InputsOn(inputs, c), c, status, headers, chunks) ==>
              n == |chunks| + 2
  {
    n := |AskedAll(AllEvents(g, xs), c, false)|;
    HeardIsAsked(g, xs, ws, inputs, c, false);
    AnswersAsk(InputsOn(inputs, c), c, status, headers, chunks);
    FrontOfResponse(status, headers, chunks, 0);
    ArrivalsAreEvents(g, xs);
    m := ResponseWritten(g.registry, AllEvents(g, xs), c, page, status, headers, chunks, failure);
  }

  // ---- there and back ---------------------------------------------------------

  /** The gateway right after accepting a relay. */
  function Accepting(
    before: seq<R.Event>, machineId: string, request: Request, body: seq<byte>, bufs: map<nat, seq<byte>>): Gateway
  {
    Gateway(E.Relaying(R.Run(R.BOOT, before), machineId, request, body), bufs)
  }

  lemma AcceptedRelayIsOpen(before: seq<R.Event>, machineId: string, request: Request, body: seq<byte>)
    requires R.RelayStream(R.Run(R.BOOT, before), machineId, request, body).1.Opened?
    ensures var s := E.Relaying(R.Run(R.BOOT, before), machineId, request, body);
            var c := R.Run(R.BOOT, before).channelSeq + 1;
            && L.Inv(s) && c in s.streams && R.CallsOf(s.calls, c) == []
            && E.ConsoleSocket(R.Run(R.BOOT, before), machineId) in s.sockets
  {
    var s := R.Run(R.BOOT, before);
    L.LifecycleHolds(before);
    L.InvStep(s, R.EvRelay(machineId, request, body));
    RunSeated(R.BOOT, before);
    assert L.History(s, s.channelSeq + 1);
  }

  /** There and back, in one gateway lifetime and at every point of it: an accepted relay whose agent has
      received a front part of what its socket is sent, and whose gateway has heard a front part of what
      the agent says, has been handed to the local server once and whole if it has arrived, and not at
      all if not; and the browser has been sent what has been heard of the answer. */
  lemma {:induction false} ThereAndBack(
    before: seq<R.Event>, machineId: string, request: Request, body: seq<byte>, bufs: map<nat, seq<byte>>,
    xs: seq<Arrival>, inputs: seq<Input>, page: W.Page, status: int, headers: map<string, string>,
    chunks: seq<seq<byte>>, failure: seq<byte>) returns (n: nat, m: nat)
    requires R.RelayStream(R.Run(R.BOOT, before), machineId, request, body).1.Opened?
    requires var g := Accepting(before, machineId, request, body, bufs);
             var ws := E.ConsoleSocket(R.Run(R.BOOT, before), machineId);
             var c := R.Run(R.BOOT, before).channelSeq + 1;
             && TakeAll(g, xs).registry.channelSeq + 1 < U32 && E.Receives(inputs, TakeAll(g, xs).registry, ws)
             && BufOf(bufs, ws) == [] && ChannelHearing.AllWhole(OnSocket(xs, ws)) && Elsewhere(g, xs, ws, c) == []
             && AllFit(inputs) && RepliesOn(OnSocket(xs, ws), c) <= RepliesOn(SaidBy(inputs), c)
             && Answers(InputsOn(inputs, c), c, status, headers, chunks)
    requires Frameable(chunks)
    ensures var g := Accepting(before, machineId, request, body, bufs);
            var ws := E.ConsoleSocket(R.Run(R.BOOT, before), machineId);
            var c := R.Run(R.BOOT, before).channelSeq + 1;
            && E.Forwarded(RunAgent(IDLE, inputs), inputs, Forward(c, request, body))
            && WrittenAfter(g, xs, c, n, m, page, status, headers, chunks, failure)
            && n == |AskedAll(AllEvents(g, xs), c, false)|
            && (HeardAll(xs, ws, inputs, c) && AnswersWhole(InputsOn(inputs, c), c, status, headers, chunks) ==>
                  n == |chunks| + 2)
  {
    var g, ws := Accepting(before, machineId, request, body, bufs), E.ConsoleSocket(R.Run(R.BOOT, before), machineId);
    var s := R.Run(R.BOOT, before);
    var c := s.channelSeq + 1;
    ArrivalsAreEvents(g, xs);
    E.RelayAccepted(s, machineId, request, body);
    E.RelayedExactlyOnce(before, machineId, request, body, AllEvents(g, xs), inputs);
    L.LifecycleHolds(before);
    E.ChannelsFit(s, machineId, request, body, AllEvents(g, xs));
    AcceptedRelayIsOpen(before, machineId, request, body);
    n, m := AnsweredExactlyOnce(g, xs, ws, inputs, c, page, status, headers, chunks, failure);
  }
}
