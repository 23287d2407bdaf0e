/** One tunnel at the agent, told from what comes in about it: which upstream has the channel, whether
    it flows, what has come in for it, and how much of that has been passed on. */
module UpstreamLine {
  import opened FrameCodec
  import opened Wire
  import opened AgentModel
  import opened AgentTransport

  /** An upstream has not opened yet, is open, or has begun to close. */
  datatype Phase = Waiting | Flowing | Halted

  /** `uid` is the number of the open among all opens; the first `passed` pieces have been passed on. */
  datatype Line =
    | Down
    | Line(uid: nat, path: string, headers: map<string, string>, phase: Phase, arrived: seq<Piece>, passed: nat)

  function Heard(line: Line, count: nat, m: Message, c: int): Line {
    match m
    case RelayWsOpen(channel, path, headers) =>
      if channel == c then Line(count, path, headers, Waiting, [], 0) else line
    case RelayWsClose(channel) => if channel == c then Down else line
    case _ => line
  }

  function Reported(line: Line, i: Input, c: int): Line {
    if line.Down? then line
    else
      match i
      case Opens(at, uid) =>
        if at == c && uid == line.uid && line.phase.Waiting? then line.(phase := Flowing, passed := |line.arrived|)
        else line
      case Closes(at, uid) => if at == c && uid == line.uid then line.(phase := Halted) else line
      case Dies(at, uid, _) => if at == c && uid == line.uid then line.(phase := Halted) else line
      case _ => line
  }

  function Next(line: Line, count: nat, item: Item, c: int): Line {
    match item
    case Control(m) => Heard(line, count, m, c)
    case Arrives(f) =>
      if f.channel != c || line.Down? then line
      else line.(arrived := line.arrived + [Piece(f.data, f.kind == BINARY)],
                 passed := line.passed + if line.phase.Flowing? then 1 else 0)
    case Local(i) => Reported(line, i, c)
  }

  function LineAfter(line: Line, count: nat, items: seq<Item>, c: int): Line
    decreases items
  {
    if items == [] then line
    else
      var opens := items[0].Control? && items[0].m.RelayWsOpen?;
      LineAfter(Next(line, count, items[0], c), count + (if opens then 1 else 0), items[1..], c)
  }

  /** The tunnel of a channel as the inputs of a connection tell it. */
  function LineOf(inputs: seq<Input>, c: int): Line {
    LineAfter(Down, 0, Items([], inputs), c)
  }

  predicate InPhase(readiness: Readiness, phase: Phase) {
    match phase
    case Waiting => readiness.Connecting?
    case Flowing => readiness.Live?
    case Halted => readiness.Closing? || readiness.Dead?
  }

  /** The agent has the tunnel just so: its upstream, the pieces passed on, and those that wait. */
  predicate Carries(a: Agent, line: Line, c: int) {
    if line.Down? then c !in a.upstreams
    else
      && c in a.upstreams && line.passed <= |line.arrived|
      && var u := a.upstreams[c];
         && u.uid == line.uid && u.path == line.path && u.headers == line.headers && InPhase(u.readiness, line.phase)
         && u.delivered == line.arrived[..line.passed] && u.queue == line.arrived[line.passed..]
         && (line.phase.Waiting? ==> line.passed == 0) && (line.phase.Flowing? ==> line.passed == |line.arrived|)
  }

  lemma FrameCarried(a: Agent, line: Line, count: nat, f: Frame, c: int)
    requires Carries(a, line, c)
    ensures Carries(AcceptFrame(a, f), Next(line, count, Arrives(f), c), c)
  {
    if f.channel == c && line.Line? {
      var piece := Piece(f.data, f.kind == BINARY);
      assert (line.arrived + [piece])[..line.passed] == line.arrived[..line.passed];
      assert (line.arrived + [piece])[line.passed..] == line.arrived[line.passed..] + [piece];
      assert (line.arrived + [piece])[..|line.arrived| + 1] == line.arrived + [piece];
      assert line.arrived[..|line.arrived|] == line.arrived;
    }
  }

  lemma ControlCarried(a: Agent, line: Line, m: Message, c: int)
    requires Carries(a, line, c) && !m.Binary?
    ensures Carries(Accept(a, m), Heard(line, a.created, m, c), c)
  {
  }

  lemma ReportCarried(a: Agent, line: Line, i: Input, c: int)
    requires Carries(a, line, c) && !i.FromGateway?
    ensures Carries(React(a, i), Reported(line, i, c), c)
  {
    if i.Opens? && line.Line? {
      assert line.arrived[..line.passed] + line.arrived[line.passed..] == line.arrived;
      assert line.arrived[..|line.arrived|] == line.arrived && line.arrived[|line.arrived|..] == [];
    }
  }

  lemma CarriedStep(a: Agent, line: Line, item: Item, c: int)
    requires Plain(item) && Carries(a, line, c)
    ensures Carries(Meet(a, item), Next(line, a.created, item, c), c)
    ensures Meet(a, item).created == a.created + if item.Control? && item.m.RelayWsOpen? then 1 else 0
  {
    match item
    case Arrives(f) => FrameCarried(a, line, a.created, f, c);
    case Control(m) => ControlCarried(a, line, m, c);
    case Local(i) => ReportCarried(a, line, i, c);
  }

  lemma {:induction false} CarriedRun(a: Agent, line: Line, items: seq<Item>, c: int)
    requires forall i :: 0 <= i < |items| ==> Plain(items[i])
    requires Carries(a, line, c)
    ensures Carries(MeetAll(a, items), LineAfter(line, a.created, items, c), c)
    decreases items
  {
    if items != [] {
      CarriedStep(a, line, items[0], c);
      CarriedRun(Meet(a, items[0]), Next(line, a.created, items[0], c), items[1..], c);
    }
  }

  /** In every run the agent has each tunnel just as its inputs tell it: the upstream opened last, with
      its own path and headers; once that has opened, everything that has come in is passed on and
      nothing waits, until it begins to close; before that, and after, what comes in waits. */
  lemma TunnelFlows(inputs: seq<Input>, c: int)
    ensures Carries(RunAgent(IDLE, inputs), LineOf(inputs, c), c)
  {
    RunIsItems(IDLE, inputs);
    ItemsArePlain([], inputs);
    CarriedRun(IDLE, Down, Items([], inputs), c);
  }

  lemma {:induction false} LineArrives(line: Line, count: nat, items: seq<Item>, c: int, sofar: seq<Piece>)
    requires forall i :: 0 <= i < |items| ==> Plain(items[i])
    requires line.Line? ==> line.arrived == sofar
    ensures var line' := LineAfter(line, count, items, c);
            line'.Line? ==> line'.arrived == Arrived(items, c, sofar)
    decreases items
  {
    if items != [] {
      var opens := items[0].Control? && items[0].m.RelayWsOpen?;
      LineArrives(Next(line, count, items[0], c), count + (if opens then 1 else 0), items[1..], c,
                  ArrivedNext(items[0], c, sofar));
    }
  }

  /** What has come in for a tunnel are the frames of its channel since the open. */
  lemma LineIsArrived(inputs: seq<Input>, c: int)
    ensures LineOf(inputs, c).Line? ==> LineOf(inputs, c).arrived == Arrived(Only(Items([], inputs), c), c, [])
  {
    ItemsArePlain([], inputs);
    LineArrives(Down, 0, Items([], inputs), c, []);
    ArrivedOnly(Items([], inputs), c, []);
  }

  /** Every open of the channel asks for the same. */
  predicate OpensAs(items: seq<Item>, c: int, path: string, headers: map<string, string>) {
    forall i :: 0 <= i < |items| ==>
      (items[i].Control? && items[i].m.RelayWsOpen? && items[i].m.channel == c ==>
         items[i].m.path == path && items[i].m.headers == headers)
  }

  lemma {:induction false} LineOpensAs(
    line: Line, count: nat, items: seq<Item>, c: int, path: string, headers: map<string, string>)
    requires OpensAs(items, c, path, headers) && (line.Line? ==> line.path == path && line.headers == headers)
    ensures var line' := LineAfter(line, count, items, c);
            line'.Line? ==> line'.path == path && line'.headers == headers
    decreases items
  {
    if items != [] {
      var opens := items[0].Control? && items[0].m.RelayWsOpen?;
      LineOpensAs(Next(line, count, items[0], c), count + (if opens then 1 else 0), items[1..], c, path, headers);
    }
  }

  lemma {:induction false} OnlyOpens(items: seq<Item>, c: int, path: string, headers: map<string, string>)
    requires OpensAs(Only(items, c), c, path, headers)
    ensures OpensAs(items, c, path, headers)
  {
    if items != [] {
      var rest := Only(items[1..], c);
      if On(items[0], c) {
        assert Only(items, c) == [items[0]] + rest;
        assert forall i :: 0 <= i < |rest| ==> rest[i] == Only(items, c)[i + 1];
        assert Only(items, c)[0] == items[0];
      } else {
        assert Only(items, c) == rest;
      }
      OnlyOpens(items[1..], c, path, headers);
    }
  }
}
