/** A WebSocket tunnel from the browser to the agent's local upstream. */
module Tunnels {
  import opened Sequences
  import opened FrameCodec
  import opened Wire
  import R = RegistryModel
  import L = RelayLifecycle
  import opened AgentModel
  import opened AgentTransport
  import opened EndToEnd
  import opened UpstreamLine

  /** The piece a browser send puts on a socket for a channel, if it is that channel's and goes there. */
  function PostedBy(s: R.Registry, e: R.Event, ws: nat, c: int): seq<Piece> {
    if e.EvBrowserSend? && e.channel == c && Outgoing(s, e).0 == ws && Outgoing(s, e).1 != []
    then [Piece(e.data, e.kind % 256 == BINARY)]
    else []
  }

  /** Everything browser sends put on a socket for a channel over a run. */
  function Posted(s: R.Registry, events: seq<R.Event>, ws: nat, c: int): seq<Piece>
    decreases events
  {
    if events == [] then []
    else PostedBy(s, events[0], ws, c) + Posted(R.Step(s, events[0]), events[1..], ws, c)
  }

  /** The pieces a receiver of the messages of a channel sees arrive. */
  function ArrivedIn(ms: seq<Message>, c: int, sofar: seq<Piece>): seq<Piece> {
    Arrived(ItemsOf(ms), c, sofar)
  }

  lemma {:induction false} ArrivedConcat(a: seq<Message>, b: seq<Message>, c: int, sofar: seq<Piece>)
    ensures ArrivedIn(a + b, c, sofar) == ArrivedIn(b, c, ArrivedIn(a, c, sofar))
    decreases a
  {
    if a == [] {
      assert a + b == b;
    } else {
      assert (a + b)[1..] == a[1..] + b && (a + b)[0] == a[0];
      Unfold(a, c, sofar);
      Unfold(a + b, c, sofar);
      ArrivedConcat(a[1..], b, c, ArrivedNext(ItemOf(a[0]), c, sofar));
    }
  }

  lemma Unfold(ms: seq<Message>, c: int, sofar: seq<Piece>)
    requires ms != []
    ensures ArrivedIn(ms, c, sofar) == ArrivedIn(ms[1..], c, ArrivedNext(ItemOf(ms[0]), c, sofar))
  {
  }

  lemma ArrivedOne(m: Message, c: int, sofar: seq<Piece>)
    ensures ArrivedIn([m], c, sofar) == ArrivedNext(ItemOf(m), c, sofar)
  {
    Unfold([m], c, sofar);
    assert [m][1..] == [];
  }

  /** A later event puts on a tunnel exactly what it posts. */
  lemma {:induction false} NewsArrive(s: R.Registry, e: R.Event, ws: nat, c: int, sofar: seq<Piece>)
    requires L.Tables(s) && c in s.tunnels && s.channelSeq + 1 < U32
    ensures var news := if Outgoing(s, e).0 == ws then Outgoing(s, e).1 else [];
            ArrivedIn(MessagesOn(news, c), c, sofar) == sofar + PostedBy(s, e, ws, c)
  {
    var news := if Outgoing(s, e).0 == ws then Outgoing(s, e).1 else [];
    OutgoingIsLawful(s, e);
    assert sofar + [] == sofar;
    if Numbers(e) {
      LawfulOn(s, e, Outgoing(s, e).1, c);
    } else if news != [] {
      SingleArrives(s, e, c, sofar);
      assert news == [news[0]];
      assert MessagesOn([news[0]], c)
          == (if MessageChannel(news[0]) == c then [news[0]] else []) + MessagesOn([news[0]][1..], c);
      ArrivedOne(news[0], c, sofar);
    }
  }

  lemma SingleArrives(s: R.Registry, e: R.Event, c: int, sofar: seq<Piece>)
    requires L.Tables(s) && !Numbers(e) && Outgoing(s, e).1 != [] && s.channelSeq + 1 < U32
    ensures |Outgoing(s, e).1| == 1
    ensures var m := Outgoing(s, e).1[0];
            && (e.EvBrowserSend? || e.EvBrowserClose?)
            && MessageChannel(m) == e.channel
            && ArrivedNext(ItemOf(m), c, sofar)
               == sofar + (if e.EvBrowserSend? && e.channel == c then [Piece(e.data, e.kind % 256 == BINARY)] else [])
  {
    assert sofar + [] == sofar;
    if e.EvBrowserSend? {
      var f := Frame(e.kind % 256, Word(e.channel), 0, e.data);
      assert Word(e.channel) == e.channel;
      FrameIsWhole(f);
      assert ItemOf(Binary(Encode(f))) == Arrives(f);
    }
  }

  /** What a tunnel's messages amount to grows by what is posted. */
  lemma {:induction false} PostedArrives(s: R.Registry, events: seq<R.Event>, ws: nat, c: int)
    requires L.Inv(s) && c in s.tunnels && R.Run(s, events).channelSeq + 1 < U32
    ensures ArrivedIn(MessagesOn(R.SentTo(R.Run(s, events).sent, ws), c), c, [])
         == ArrivedIn(MessagesOn(R.SentTo(s.sent, ws), c), c, []) + Posted(s, events, ws, c)
    decreases events
  {
    if events == [] {
      var log := ArrivedIn(MessagesOn(R.SentTo(s.sent, ws), c), c, []);
      assert log + [] == log;
    } else {
      var e, s', rest := events[0], R.Step(s, events[0]), events[1..];
      NumbersGrow(s, events);
      StepNumbers(s, e, c);
      L.InvStep(s, e);
      PostedStep(s, e, ws, c);
      PostedArrives(s', rest, ws, c);
      Grouped(ArrivedIn(MessagesOn(R.SentTo(s.sent, ws), c), c, []), PostedBy(s, e, ws, c), Posted(s', rest, ws, c));
    }
  }

  lemma PostedStep(s: R.Registry, e: R.Event, ws: nat, c: int)
    requires L.Tables(s) && c in s.tunnels && s.channelSeq + 1 < U32
    ensures ArrivedIn(MessagesOn(R.SentTo(R.Step(s, e).sent, ws), c), c, [])
         == ArrivedIn(MessagesOn(R.SentTo(s.sent, ws), c), c, []) + PostedBy(s, e, ws, c)
  {
    var log := MessagesOn(R.SentTo(s.sent, ws), c);
    var news := if Outgoing(s, e).0 == ws then Outgoing(s, e).1 else [];
    StepSends(s, e, ws);
    MessagesOnConcat(R.SentTo(s.sent, ws), news, c);
    ArrivedConcat(log, MessagesOn(news, c), c, []);
    NewsArrive(s, e, ws, c, ArrivedIn(log, c, []));
  }

  predicate NoOpen(ms: seq<Message>) {
    forall i :: 0 <= i < |ms| ==> !ms[i].RelayWsOpen?
  }

  lemma {:induction false} FilterKeepsNoOpen(ms: seq<Message>, c: int)
    requires NoOpen(ms)
    ensures NoOpen(MessagesOn(ms, c))
  {
    if ms != [] { FilterKeepsNoOpen(ms[1..], c); }
  }

  lemma NewsOpenNothing(s: R.Registry, e: R.Event, news: seq<Message>, c: int)
    requires L.Tables(s) && c in s.tunnels && s.channelSeq + 1 < U32
    requires news == [] || news == Outgoing(s, e).1
    ensures NoOpen(MessagesOn(news, c))
  {
    OutgoingIsLawful(s, e);
    if Numbers(e) {
      LawfulOn(s, e, news, c);
    } else {
      assert NoOpen(news);
      FilterKeepsNoOpen(news, c);
    }
  }

  /** A tunnel is opened once. */
  lemma {:induction false} OpenedOnce(s: R.Registry, events: seq<R.Event>, ws: nat, c: int)
    returns (later: seq<Message>)
    requires L.Inv(s) && c in s.tunnels && R.Run(s, events).channelSeq + 1 < U32
    ensures MessagesOn(R.SentTo(R.Run(s, events).sent, ws), c) == MessagesOn(R.SentTo(s.sent, ws), c) + later
    ensures NoOpen(later)
    decreases events
  {
    later := [];
    if events != [] {
      var e, s' := events[0], R.Step(s, events[0]);
      var news := if Outgoing(s, e).0 == ws then Outgoing(s, e).1 else [];
      NumbersGrow(s, events);
      StepNumbers(s, e, c);
      L.InvStep(s, e);
      StepSends(s, e, ws);
      MessagesOnConcat(R.SentTo(s.sent, ws), news, c);
      NewsOpenNothing(s, e, news, c);
      var more := OpenedOnce(s', events[1..], ws, c);
      later := MessagesOn(news, c) + more;
      Grouped(MessagesOn(R.SentTo(s.sent, ws), c), MessagesOn(news, c), more);
    }
  }

  lemma {:induction false} ArrivedExtends(ms: seq<Message>, c: int, sofar: seq<Piece>)
    requires NoOpen(ms)
    ensures sofar <= ArrivedIn(ms, c, sofar)
    decreases ms
  {
    if ms != [] {
      Unfold(ms, c, sofar);
      ArrivedExtends(ms[1..], c, ArrivedNext(ItemOf(ms[0]), c, sofar));
    }
  }

  /** Of a tunnel's messages a front part amounts to a front part. */
  lemma FrontArrives(part: seq<Message>, opening: Message, later: seq<Message>, c: int)
    requires part <= [opening] + later && NoOpen(later)
    ensures ArrivedIn(part, c, []) <= ArrivedIn([opening] + later, c, [])
  {
    if part != [] {
      var all := [opening] + later;
      var rest := all[|part|..];
      assert all == part + rest;
      assert forall i :: 0 <= i < |rest| ==> rest[i] == later[|part| - 1 + i];
      ArrivedConcat(part, rest, c, []);
      ArrivedExtends(rest, c, ArrivedIn(part, c, []));
    }
  }

  lemma {:induction false} ItemsOpenAs(ms: seq<Message>, c: int, path: string, headers: map<string, string>)
    requires forall i :: 0 <= i < |ms| ==> ms[i].RelayWsOpen? ==> ms[i] == RelayWsOpen(c, path, headers)
    ensures OpensAs(ItemsOf(ms), c, path, headers)
  {
    if ms != [] {
      ItemsOpenAs(ms[1..], c, path, headers);
      var rest := ItemsOf(ms[1..]);
      forall i | 0 <= i < |[ItemOf(ms[0])] + rest|
        ensures OpensAs([([ItemOf(ms[0])] + rest)[i]], c, path, headers)
      {
        if i > 0 { assert ([ItemOf(ms[0])] + rest)[i] == rest[i - 1]; }
      }
    }
  }

  lemma OpenedAs(
    inputs: seq<Input>, part: seq<Message>, later: seq<Message>, c: int, path: string, headers: map<string, string>)
    requires part <= [RelayWsOpen(c, path, headers)] + later && NoOpen(later)
    requires Only(Items([], inputs), c) == ItemsOf(part)
    ensures var line := LineOf(inputs, c); line.Line? ==> line.path == path && line.headers == headers
  {
    ItemsOpenAs(part, c, path, headers);
    OnlyOpens(Items([], inputs), c, path, headers);
    LineOpensAs(Down, 0, Items([], inputs), c, path, headers);
  }

  /** The tunnel as its inputs tell it, against what the browser asked for and sent. */
  predicate Faithful(line: Line, path: string, headers: map<string, string>, posted: seq<Piece>, whole: bool) {
    line.Line? ==>
      && line.path == path && line.headers == headers
      && line.arrived <= posted && (whole ==> line.arrived == posted)
  }

  /** Browser to local upstream: whatever happens before, meanwhile and after, at an agent that has
      received any front part of what its socket was sent the upstream of the tunnel has the path and
      headers of the browser's open; what has come in for it is a front part of what the browser's
      sends put on that socket since, in order and with their kinds, and all of it once all of the
      tunnel's messages have come in; and all that has come in has been passed on while the upstream is
      open, and waits in order while it is not open yet. */
  lemma {:induction false} TunnelEndToEnd(
    before: seq<R.Event>, machineId: string, path: string, headers: map<string, string>, after: seq<R.Event>,
    inputs: seq<Input>)
    requires R.RelayWsOpenStep(R.Run(R.BOOT, before), machineId, path, headers).1.Opened?
    requires R.Run(R.RelayWsOpenStep(R.Run(R.BOOT, before), machineId, path, headers).0, after).channelSeq + 1 < U32
    requires Receives(inputs, R.Run(R.RelayWsOpenStep(R.Run(R.BOOT, before), machineId, path, headers).0, after),
                      ConsoleSocket(R.Run(R.BOOT, before), machineId))
    ensures var (s', opening) := R.RelayWsOpenStep(R.Run(R.BOOT, before), machineId, path, headers);
            var ws, c := ConsoleSocket(R.Run(R.BOOT, before), machineId), opening.channel;
            var whole := MessagesOn(FromPeer(inputs), c) == MessagesOn(R.SentTo(R.Run(s', after).sent, ws), c);
            && Carries(RunAgent(IDLE, inputs), LineOf(inputs, c), c)
            && Faithful(LineOf(inputs, c), path, headers, Posted(s', after, ws, c), whole)
  {
    var s := R.Run(R.BOOT, before);
    var ws, e := ConsoleSocket(s, machineId), R.EvWsOpen(machineId, path, headers);
    var c, s' := s.channelSeq + 1, R.Step(s, e);
    var opening, log := RelayWsOpen(c, path, headers), R.SentTo(R.Run(s', after).sent, ws);
    L.LifecycleHolds(before);
    L.InvStep(s, e);
    NumbersGrow(s', after);
    ShapeAtBoot(before, ws, c);
    ShapeStep(s, e, ws, c);
    OpensEmpty(c, path, headers);
    ShapeRun(s', after, ws, c);
    PostedArrives(s', after, ws, c);
    assert [] + Posted(s', after, ws, c) == Posted(s', after, ws, c);
    var later := OpenedOnce(s', after, ws, c);
    MessagesFront(FromPeer(inputs), log, c);
    FrontArrives(MessagesOn(FromPeer(inputs), c), opening, later, c);
    TunnelFlows(inputs, c);
    LineIsArrived(inputs, c);
    ItemsOnChannel(inputs, c);
    OpenedAs(inputs, MessagesOn(FromPeer(inputs), c), later, c, path, headers);
  }

  lemma OpensEmpty(c: int, path: string, headers: map<string, string>)
    ensures ArrivedIn([RelayWsOpen(c, path, headers)], c, []) == []
  {
    ArrivedOne(RelayWsOpen(c, path, headers), c, []);
  }
}
