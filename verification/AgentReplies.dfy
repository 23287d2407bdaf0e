/** What the agent says to the gateway, channel by channel. */
module AgentReplies {
  import opened Sequences
  import opened Bytes
  import opened FrameCodec
  import opened Wire
  import opened AgentModel

  /** The messages an input makes the agent send, whatever its state. */
  function Says(i: Input): seq<Reply> {
    match i
    case FromGateway(_) => []
    case Opens(at, _) => [RelayWsOpenOk(at)]
    case Closes(_, _) => []
    case Dies(at, _, code) => [RelayWsClosed(at, code)]
    case Happens(l) => RepliesTo(l)
  }

  function SaidBy(inputs: seq<Input>): seq<Reply> {
    if inputs == [] then [] else Says(inputs[0]) + SaidBy(inputs[1..])
  }

  lemma {:induction false} SaidConcat(a: seq<Input>, b: seq<Input>)
    ensures SaidBy(a + b) == SaidBy(a) + SaidBy(b)
  {
    if a == [] {
      assert a + b == b;
    } else {
      assert (a + b)[1..] == a[1..] + b && (a + b)[0] == a[0];
      SaidConcat(a[1..], b);
      Grouped(Says(a[0]), SaidBy(a[1..]), SaidBy(b));
    }
  }

  lemma {:induction false} FramesSayNothing(a: Agent, frames: seq<Frame>)
    ensures AcceptFrames(a, frames).said == a.said
    decreases frames
  {
    if frames != [] { FramesSayNothing(AcceptFrame(a, frames[0]), frames[1..]); }
  }

  lemma ReactSays(a: Agent, i: Input)
    ensures React(a, i).said == a.said + Says(i)
  {
    assert a.said + [] == a.said;
    if i.FromGateway? && i.m.Binary? {
      var (frames, buf) := ParseAll(a.buf + i.m.bytes);
      FramesSayNothing(a.(buf := buf), frames);
    }
  }

  /** What the agent has sent is what its inputs make it say, in order. */
  lemma {:induction false} AgentSays(a: Agent, inputs: seq<Input>)
    ensures RunAgent(a, inputs).said == a.said + SaidBy(inputs)
    decreases inputs
  {
    if inputs == [] {
      assert a.said + [] == a.said;
    } else {
      ReactSays(a, inputs[0]);
      AgentSays(React(a, inputs[0]), inputs[1..]);
      Grouped(a.said, Says(inputs[0]), SaidBy(inputs[1..]));
    }
  }

  // ---- channel by channel -----------------------------------------------------

  /** A binary message is one frame, whole. */
  predicate Whole(m: Reply) {
    m.Bytes? ==> Complete(m.bytes) && FrameLength(m.bytes) == |m.bytes|
  }

  function About(m: Reply): int {
    if !m.Bytes? then m.channel else if Complete(m.bytes) then FirstFrame(m.bytes).channel else -1
  }

  function RepliesOn(ms: seq<Reply>, c: int): seq<Reply> {
    if ms == [] then [] else (if About(ms[0]) == c then [ms[0]] else []) + RepliesOn(ms[1..], c)
  }

  lemma {:induction false} RepliesOnConcat(a: seq<Reply>, b: seq<Reply>, c: int)
    ensures RepliesOn(a + b, c) == RepliesOn(a, c) + RepliesOn(b, c)
  {
    if a == [] {
      assert a + b == b;
    } else {
      assert (a + b)[1..] == a[1..] + b && (a + b)[0] == a[0];
      RepliesOnConcat(a[1..], b, c);
      Grouped(if About(a[0]) == c then [a[0]] else [], RepliesOn(a[1..], c), RepliesOn(b, c));
    }
  }

  /** The input is the local side's doing on a channel; denials are between the agent and the local
      server, and a closing upstream says nothing yet. */
  predicate IsOn(i: Input, c: int) {
    match i
    case FromGateway(_) => false
    case Opens(at, _) => at == c
    case Closes(_, _) => false
    case Dies(at, _, _) => at == c
    case Happens(l) => !l.Denied? && l.channel == c
  }

  function InputsOn(inputs: seq<Input>, c: int): seq<Input> {
    if inputs == [] then [] else (if IsOn(inputs[0], c) then [inputs[0]] else []) + InputsOn(inputs[1..], c)
  }

  /** Channels come from the gateway, so they fit the wire. */
  predicate AllFit(inputs: seq<Input>) {
    forall k :: 0 <= k < |inputs| ==> inputs[k].Happens? ==> 0 <= inputs[k].l.channel < U32
  }

  lemma FrameIsWhole(f: Frame)
    requires InRange(f)
    ensures Whole(Bytes(Encode(f))) && About(Bytes(Encode(f))) == f.channel && FirstFrame(Encode(f)) == f
  {
    EncodedFrameParses(f, []);
    assert Encode(f) + [] == Encode(f);
  }

  predicate AllWholeOn(ms: seq<Reply>, c: int) {
    forall i :: 0 <= i < |ms| ==> Whole(ms[i]) && About(ms[i]) == c
  }

  lemma FrameReplyIsWhole(kind: nat, channel: int, data: seq<byte>)
    requires kind < 256 && 0 <= channel < U32 && |data| < U32
    ensures AllWholeOn([Bytes(Encode(Frame(kind, Word(channel), 0, data)))], channel)
  {
    FrameIsWhole(Frame(kind, Word(channel), 0, data));
  }

  lemma RepliesAreWhole(l: LocalEvent)
    requires 0 <= l.channel < U32
    ensures AllWholeOn(RepliesTo(l), l.channel)
  {
    match l
    case Streams(channel, chunk) =>
      if |chunk| < U32 { FrameReplyIsWhole(BINARY, channel, chunk); }
    case UpstreamSays(channel, binary, data) =>
      if |data| < U32 { FrameReplyIsWhole(if binary then BINARY else TEXT, channel, data); }
    case _ =>
  }

  lemma {:induction false} RepliesHereOrElsewhere(ms: seq<Reply>, from: int, c: int)
    requires AllWholeOn(ms, from)
    ensures RepliesOn(ms, c) == if from == c then ms else []
  {
    if ms != [] { RepliesHereOrElsewhere(ms[1..], from, c); }
  }

  lemma SaysOn(i: Input, c: int)
    requires i.Happens? ==> 0 <= i.l.channel < U32
    ensures RepliesOn(Says(i), c) == if IsOn(i, c) then Says(i) else []
  {
    match i
    case FromGateway(_) =>
    case Opens(at, _) => RepliesHereOrElsewhere([RelayWsOpenOk(at)], at, c);
    case Closes(_, _) =>
    case Dies(at, _, code) => RepliesHereOrElsewhere([RelayWsClosed(at, code)], at, c);
    case Happens(l) =>
      RepliesAreWhole(l);
      RepliesHereOrElsewhere(RepliesTo(l), l.channel, c);
  }

  /** On a channel the agent says what the local side does on it, whatever else it says. */
  lemma {:induction false} SaidOnChannel(inputs: seq<Input>, c: int)
    requires AllFit(inputs)
    ensures RepliesOn(SaidBy(inputs), c) == SaidBy(InputsOn(inputs, c))
  {
    if inputs != [] {
      var i, rest := inputs[0], inputs[1..];
      var here := if IsOn(i, c) then [i] else [];
      SaysOn(i, c);
      SaidOnChannel(rest, c);
      RepliesOnConcat(Says(i), SaidBy(rest), c);
      SaidConcat(here, InputsOn(rest, c));
      assert IsOn(i, c) ==> [i][1..] == [] && Says(i) + [] == Says(i);
    }
  }
}
