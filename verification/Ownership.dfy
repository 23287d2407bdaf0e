/** Which machine each channel belongs to, told from the events alone, and where the browser's side of
    a tunnel goes. */
module Ownership {
  import opened Options
  import opened Bytes
  import opened FrameCodec
  import opened Wire
  import R = RegistryModel
  import L = RelayLifecycle
  import opened Untouched
  import opened Approval

  function ConsoleSeat(events: seq<R.Event>, machineId: string): Seat {
    SeatOf(events, R.Identity(machineId, R.Console))
  }

  /** The event asks for a channel to an approved machine, and so numbers one. */
  predicate Numbers(events: seq<R.Event>, e: R.Event) {
    && (e.EvRelay? || e.EvWsOpen?)
    && ConsoleSeat(events, e.machineId).Seat? && ConsoleSeat(events, e.machineId).approved
  }

  /** The channels numbered so far. */
  function Issued(events: seq<R.Event>): nat {
    if events == [] then 0
    else
      var before := events[..|events| - 1];
      Issued(before) + if Numbers(before, events[|events| - 1]) then 1 else 0
  }

  /** The event that numbered a channel. */
  function OpeningOf(events: seq<R.Event>, c: int): Option<R.Event> {
    if events == [] then None
    else
      var before, e := events[..|events| - 1], events[|events| - 1];
      if Numbers(before, e) && c == Issued(before) + 1 then Some(e) else OpeningOf(before, c)
  }

  predicate OwnedSo(s: R.Registry, events: seq<R.Event>, c: int) {
    var opening := OpeningOf(events, c);
    && (c > Issued(events) ==> opening.None?)
    && (c in s.streamsNode ==> opening.Some? && opening.value.EvRelay? && s.streamsNode[c] == opening.value.machineId)
    && (c in s.wsChannelNode ==>
          opening.Some? && opening.value.EvWsOpen? && s.wsChannelNode[c] == opening.value.machineId)
  }

  ghost predicate Owned(s: R.Registry, events: seq<R.Event>) {
    s.channelSeq == Issued(events) && forall c :: OwnedSo(s, events, c)
  }

  /** What an accepted relay does to the tables of owners; a body too long leaves its number unowned. */
  lemma RelayOwns(s: R.Registry, e: R.Event, seat: Seat)
    requires e.EvRelay? && Sits(s, seat, R.Identity(e.machineId, R.Console))
    ensures var s', c := R.Step(s, e), s.channelSeq + 1;
            && s'.wsChannelNode == s.wsChannelNode
            && if seat.Seat? && seat.approved then
                 && s'.channelSeq == c
                 && (s'.streamsNode == s.streamsNode || s'.streamsNode == s.streamsNode[c := e.machineId])
               else s' == s
  {
  }

  lemma RelayOwned(s: R.Registry, events: seq<R.Event>, e: R.Event, c: int)
    requires Told(s, events) && Owned(s, events) && e.EvRelay?
    ensures OwnedSo(R.Step(s, e), events + [e], c) && R.Step(s, e).channelSeq == Issued(events + [e])
  {
    var id := R.Identity(e.machineId, R.Console);
    assert (events + [e])[..|events|] == events;
    assert Sits(s, SeatOf(events, id), id) && OwnedSo(s, events, c);
    RelayOwns(s, e, SeatOf(events, id));
  }

  lemma TunnelOwned(s: R.Registry, events: seq<R.Event>, e: R.Event, c: int)
    requires Told(s, events) && Owned(s, events) && e.EvWsOpen?
    ensures OwnedSo(R.Step(s, e), events + [e], c) && R.Step(s, e).channelSeq == Issued(events + [e])
  {
    var id := R.Identity(e.machineId, R.Console);
    assert (events + [e])[..|events|] == events;
    assert Sits(s, SeatOf(events, id), id) && OwnedSo(s, events, c);
  }

  lemma OwnedStep(s: R.Registry, events: seq<R.Event>, e: R.Event, c: int)
    requires Told(s, events) && Owned(s, events)
    ensures OwnedSo(R.Step(s, e), events + [e], c) && R.Step(s, e).channelSeq == Issued(events + [e])
  {
    if e.EvRelay? {
      RelayOwned(s, events, e, c);
    } else if e.EvWsOpen? {
      TunnelOwned(s, events, e, c);
    } else {
      assert (events + [e])[..|events|] == events;
      assert OwnedSo(s, events, c);
      OnlyOpeningsNumber(s, e);
    }
  }

  lemma {:induction false} OwnedRun(s: R.Registry, before: seq<R.Event>, events: seq<R.Event>)
    requires Told(s, before) && Owned(s, before)
    ensures Told(R.Run(s, events), before + events) && Owned(R.Run(s, events), before + events)
    decreases events
  {
    if events == [] {
      assert before + [] == before;
    } else {
      var e := events[0];
      ToldStep(s, before, e);
      forall c ensures OwnedSo(R.Step(s, e), before + [e], c) && R.Step(s, e).channelSeq == Issued(before + [e]) {
        OwnedStep(s, before, e, c);
      }
      assert OwnedSo(R.Step(s, e), before + [e], 0);
      OwnedRun(R.Step(s, e), before + [e], events[1..]);
      assert before + [e] + events[1..] == before + events;
    }
  }

  /** In every run an open channel belongs to the machine it was opened for, and to the kind of opening. */
  lemma ChannelsAreOwned(events: seq<R.Event>, c: int)
    ensures var s := R.Run(R.BOOT, events);
            OwnedSo(s, events, c) && s.channelSeq == Issued(events)
  {
    OwnedRun(R.BOOT, [], events);
    assert [] + events == events;
    assert OwnedSo(R.Run(R.BOOT, events), events, c);
  }

  /** What one event puts on the sockets. */
  ghost predicate Puts(s: R.Registry, s': R.Registry, ws: nat, news: seq<Message>) {
    R.SentTo(s'.sent, ws) == R.SentTo(s.sent, ws) + news && SentOnlyTo(s, s', ws)
  }

  /** In every run what a browser sends on an open tunnel is put on the socket of its own machine's
      console, if that is connected, as one frame, and on no other; and so is its close. */
  lemma BrowserReachesItsMachine(events: seq<R.Event>, c: int, kind: int, data: seq<byte>)
    requires c in R.Run(R.BOOT, events).wsChannels
    ensures OpeningOf(events, c).Some? && OpeningOf(events, c).value.EvWsOpen?
    ensures var s, seat := R.Run(R.BOOT, events), ConsoleSeat(events, OpeningOf(events, c).value.machineId);
            var sent, closed := R.Step(s, R.EvBrowserSend(c, kind, data)), R.Step(s, R.EvBrowserClose(c));
            && (R.SendWs(s, c, kind, data).1 <==> seat.Seat? && |data| >= 0x1_0000_0000)
            && if seat.Seat? then
              && (|data| < U32 ==> Puts(s, sent, seat.ws, [Binary(Encode(Frame(kind % 256, Word(c), 0, data)))]))
              && (|data| >= U32 ==> sent == s)
              && Puts(s, closed, seat.ws, [RelayWsClose(c)])
            else sent == s && closed.sent == s.sent
  {
    var s := R.Run(R.BOOT, events);
    ChannelsAreOwned(events, c);
    L.LifecycleHolds(events);
    assert L.Tables(s);
    var id := R.Identity(OpeningOf(events, c).value.machineId, R.Console);
    SeatsAreTold(events, id);
    SendGoes(s, ConsoleSeat(events, id.machineId), id.machineId, c, kind, data);
    CloseGoes(s, ConsoleSeat(events, id.machineId), id.machineId, c);
  }

  lemma SendGoes(s: R.Registry, seat: Seat, machineId: string, c: int, kind: int, data: seq<byte>)
    requires c in s.wsChannelNode && s.wsChannelNode[c] == machineId && Sits(s, seat, R.Identity(machineId, R.Console))
    ensures var sent := R.Step(s, R.EvBrowserSend(c, kind, data));
            if seat.Seat? && |data| < U32
            then Puts(s, sent, seat.ws, [Binary(Encode(Frame(kind % 256, Word(c), 0, data)))])
            else sent == s
    ensures R.SendWs(s, c, kind, data).1 <==> seat.Seat? && |data| >= 0x1_0000_0000
  {
  }

  /** On a channel that is not a tunnel's nothing is sent, and nothing thrown. */
  lemma NoTunnelNoSend(s: R.Registry, c: int, kind: int, data: seq<byte>)
    requires L.Tables(s) && c !in s.wsChannels
    ensures R.SendWs(s, c, kind, data) == (s, false) && R.CloseWsChannel(s, c) == s
  {
  }

  lemma CloseGoes(s: R.Registry, seat: Seat, machineId: string, c: int)
    requires c in s.wsChannelNode && s.wsChannelNode[c] == machineId && Sits(s, seat, R.Identity(machineId, R.Console))
    ensures var closed := R.Step(s, R.EvBrowserClose(c));
            if seat.Seat? then Puts(s, closed, seat.ws, [RelayWsClose(c)]) else closed.sent == s.sent
  {
  }
}
