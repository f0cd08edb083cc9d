/** Source and gate together, with a network that may lose, repeat and reorder what the live link
    carries, and drop the http connection at any moment. */
module MarketSystem {
  import opened MarketData
  import opened MarketRecovery
  import opened MarketGate
  import opened MarketSource

  /** The gate's http connection: not connected, ready for a request, a request on its way or
      being handled, a request the source postponed, an answer on its way. */
  datatype Channel = Closed | Idle | Asked(req: MDRequest) | Postponed(req: MDRequest) | Replied(response: Response)

  /** The payloads generated so far, how many of the messages the source application has taken
      over from the generator, and the gate. */
  datatype System = System(payloads: seq<int>, published: nat, gate: Store, gateQueue: seq<Msg>, channel: Channel)

  function Emitted(payloads: seq<int>): (ms: seq<Msg>)
    ensures |ms| == |payloads|
    ensures forall i :: 0 <= i < |ms| ==> ms[i] == Msg(i + 1, payloads[i])
  {
    seq(|payloads|, i requires 0 <= i < |payloads| => Msg(i + 1, payloads[i]))
  }

  /** What MDSourceApp::messages holds. */
  function Published(s: System): (ms: seq<Msg>)
    requires s.published <= |s.payloads|
    ensures Contiguous(ms)
  {
    Emitted(s.payloads)[..s.published]
  }

  predicate Genuine(m: Msg, payloads: seq<int>) {
    1 <= m.seqnum <= |payloads| && m.payload == payloads[m.seqnum - 1]
  }

  datatype Step =
    | Emit(payload: int)
    | Publish            // on_fast_queue_changed of the source
    | Deliver(k: nat)    // the live link hands over any message ever emitted, once more
    | Drain              // on_fast_queue_changed of the gate
    | HandleRequest      // the source's request handler
    | HandleReply        // on_http_client_data of the gate
    | Disconnect
    | Reconnect

  /** broadcast_retransmission */
  function Ask(gate: Store, channel: Channel): Channel
    requires WellFormed(gate)
  {
    if channel.Idle? && gate.chunks != [] then Asked(FirstGap(gate)) else channel
  }

  function Init(): System {
    System([], 0, Store([], []), [], Closed)
  }

  predicate Enabled(s: System, step: Step) {
    && s.published <= |s.payloads| && WellFormed(s.gate)
    && match step
       case Deliver(k) => 1 <= k <= |s.payloads|
       case HandleRequest => s.channel.Asked?
       case HandleReply => s.channel.Replied?
       case Reconnect => s.channel.Closed?
       case _ => true
  }

  function Do(s: System, step: Step): System
    requires Enabled(s, step)
  {
    match step
    case Emit(payload) => s.(payloads := s.payloads + [payload])
    case Publish =>
      var s' := s.(published := |s.payloads|);
      if s.channel.Postponed? && s.channel.req.begin < s.channel.req.end <= |s.payloads| then
        var r := CreateResponse(Published(s'), s.channel.req);
        if r.Some? then s'.(channel := Replied(r.value)) else s'
      else s'
    case Deliver(k) => s.(gateQueue := s.gateQueue + [Emitted(s.payloads)[k - 1]])
    case Drain =>
      var gate := AddAll(s.gate, s.gateQueue);
      s.(gate := gate, gateQueue := [], channel := Ask(gate, s.channel))
    case HandleRequest =>
      if s.channel.req.end <= s.channel.req.begin then s.(channel := Replied(BadRequest))
      else
        var r := CreateResponse(Published(s), Cap(s.channel.req));
        s.(channel := if r.Some? then Replied(r.value) else Postponed(Cap(s.channel.req)))
    case HandleReply =>
      var gate := AddAll(s.gate, Bodies([s.channel.response]));
      s.(gate := gate, channel := Ask(gate, Idle))
    case Disconnect => s.(channel := Closed)
    case Reconnect => s.(channel := Ask(s.gate, Idle))
  }

  // ---------- the invariant ----------

  /** The range lies within what the gate holds and starts no later than the message it waits for. */
  ghost predicate Current(held: seq<Msg>, first: nat, last: nat) {
    held != [] && held[0].seqnum <= first <= Next(held) && first <= last <= Last(held).seqnum
  }

  ghost predicate ChannelOk(held: seq<Msg>, payloads: seq<int>, channel: Channel) {
    match channel
    case Asked(req) => req.begin < req.end && Current(held, req.begin, req.end)
    case Postponed(req) => req.begin < req.end && Current(held, req.begin, req.end)
    case Replied(r) =>
      && !r.BadRequest?
      && (r.Messages? ==>
          && r.ms != [] && Contiguous(r.ms) && Current(held, r.ms[0].seqnum, Last(r.ms).seqnum)
          && forall m :: m in r.ms ==> Genuine(m, payloads))
    case _ => true
  }

  ghost predicate Inv(s: System) {
    && s.published <= |s.payloads|
    && WellFormed(s.gate)
    && (forall m :: m in Flat(s.gate) ==> Genuine(m, s.payloads))
    && (forall m :: m in s.gateQueue ==> Genuine(m, s.payloads))
    && ChannelOk(Flat(s.gate), s.payloads, s.channel)
    && (s.channel.Idle? ==> s.gate.chunks == [])
    && (s.channel.Postponed? ==> s.published + 1 < s.channel.req.end)
  }

  lemma CurrentStays(held: seq<Msg>, ms: seq<Msg>, first: nat, last: nat)
    requires Increasing(held) && Current(held, first, last)
    ensures Current(KeepAll(held, ms), first, last)
  {
    KeepAllOnlyAdds(held, ms);
  }

  /** The gate takes messages in: nothing is lost, only genuine ones come in, and what was on its way
      on the http connection stays usable. */
  lemma GateTakes(s: System, ms: seq<Msg>)
    requires Inv(s) && forall m :: m in ms ==> Genuine(m, s.payloads)
    ensures var gate := AddAll(s.gate, ms);
      && WellFormed(gate)
      && (forall m :: m in Flat(s.gate) ==> m in Flat(gate))
      && (forall m :: m in Flat(gate) ==> Genuine(m, s.payloads))
      && ChannelOk(Flat(gate), s.payloads, s.channel)
  {
    AddAllRefines(s.gate, ms);
    StoreIsIncreasing(s.gate);
    KeepAllOnlyAdds(Flat(s.gate), ms);
    ChannelStaysOk(Flat(s.gate), ms, s.payloads, s.channel);
  }

  lemma ChannelStaysOk(held: seq<Msg>, ms: seq<Msg>, payloads: seq<int>, channel: Channel)
    requires Increasing(held) && ChannelOk(held, payloads, channel)
    ensures ChannelOk(KeepAll(held, ms), payloads, channel)
  {
    match channel {
      case Asked(req) => CurrentStays(held, ms, req.begin, req.end);
      case Postponed(req) => CurrentStays(held, ms, req.begin, req.end);
      case Replied(r) =>
        if r.Messages? {
          CurrentStays(held, ms, r.ms[0].seqnum, Last(r.ms).seqnum);
        }
      case _ =>
    }
  }

  lemma AskIsOk(gate: Store, payloads: seq<int>, channel: Channel)
    requires WellFormed(gate) && ChannelOk(Flat(gate), payloads, channel)
    ensures ChannelOk(Flat(gate), payloads, Ask(gate, channel))
  {
    if channel.Idle? && gate.chunks != [] {
      StoreIsIncreasing(gate);
      FirstGapIsHere(gate);
      FirstMissing(Flat(gate), FirstGap(gate).begin);
    }
  }

  lemma ReplyIsOk(s: System, req: MDRequest, published: nat)
    requires Inv(s) && published <= |s.payloads|
    requires req.begin < req.end && Current(Flat(s.gate), req.begin, req.end)
    ensures var r := CreateResponse(Published(s.(published := published)), req);
      if r.Some? then ChannelOk(Flat(s.gate), s.payloads, Replied(r.value)) else published + 1 < req.end
  {
    var messages := Published(s.(published := published));
    ResponseIsRange(messages, req);
    var r := CreateResponse(messages, req);
    if r.Some? && r.value.Messages? {
      var ms := r.value.ms;
      PublishedIsGenuine(s.(published := published));
      assert ms[0].seqnum == req.begin && ms[|ms| - 1].seqnum == req.begin + (|ms| - 1);
    }
  }

  /** Once everything is published, a request of the gate can be answered, and a waiting one is among those woken. */
  lemma CompleteIsAnswered(s: System, req: MDRequest)
    requires s.published == |s.payloads| && WellFormed(s.gate)
    requires forall m :: m in Flat(s.gate) ==> Genuine(m, s.payloads)
    requires req.begin < req.end && Current(Flat(s.gate), req.begin, req.end)
    ensures req.end <= |s.payloads|
    ensures var r := CreateResponse(Published(s), req); r.Some? && r.value.Messages? && IsRange(Published(s), req, r.value.ms)
  {
    var held := Flat(s.gate);
    assert held[0] in held && Last(held) in held;
    assert Genuine(held[0], s.payloads) && Genuine(Last(held), s.payloads);
    ResponseIsRange(Published(s), req);
  }

  lemma PublishedIsGenuine(s: System)
    requires s.published <= |s.payloads|
    ensures forall m :: m in Published(s) ==> Genuine(m, s.payloads)
  {}

  lemma PublishKeepsInv(s: System)
    requires Inv(s) && Enabled(s, Publish)
    ensures Inv(Do(s, Publish)) && Do(s, Publish).gate == s.gate
  {
    if s.channel.Postponed? {
      ReplyIsOk(s, s.channel.req, |s.payloads|);
      CompleteIsAnswered(s.(published := |s.payloads|), s.channel.req);
    }
  }

  /** The gate takes messages in, and then asks if it can. */
  lemma GateTakesAndAsks(s: System, ms: seq<Msg>, channel: Channel)
    requires Inv(s) && (forall m :: m in ms ==> Genuine(m, s.payloads))
    requires channel == s.channel || channel == Idle
    ensures var gate := AddAll(s.gate, ms);
      && WellFormed(gate)
      && (forall m :: m in Flat(s.gate) ==> m in Flat(gate))
      && (forall m :: m in Flat(gate) ==> Genuine(m, s.payloads))
      && ChannelOk(Flat(gate), s.payloads, Ask(gate, channel)) && (Ask(gate, channel).Idle? ==> gate.chunks == [])
  {
    GateTakes(s, ms);
    AskIsOk(AddAll(s.gate, ms), s.payloads, channel);
  }

  lemma DrainKeepsInv(s: System)
    requires Inv(s) && Enabled(s, Drain)
    ensures Inv(Do(s, Drain))
    ensures forall m :: m in Flat(s.gate) ==> m in Flat(Do(s, Drain).gate)
  {
    GateTakesAndAsks(s, s.gateQueue, s.channel);
  }

  lemma RequestKeepsInv(s: System)
    requires Inv(s) && Enabled(s, HandleRequest)
    ensures Inv(Do(s, HandleRequest)) && Do(s, HandleRequest).gate == s.gate
  {
    ReplyIsOk(s, Cap(s.channel.req), s.published);
  }

  lemma ReplyKeepsInv(s: System)
    requires Inv(s) && Enabled(s, HandleReply)
    ensures Inv(Do(s, HandleReply))
    ensures forall m :: m in Flat(s.gate) ==> m in Flat(Do(s, HandleReply).gate)
  {
    BodiesOfOne(s.channel.response);
    GateTakesAndAsks(s, Bodies([s.channel.response]), Idle);
  }

  lemma ConnectionKeepsInv(s: System, step: Step)
    requires Inv(s) && Enabled(s, step) && (step == Disconnect || step == Reconnect)
    ensures Inv(Do(s, step)) && Do(s, step).gate == s.gate
  {
    AskIsOk(s.gate, s.payloads, Idle);
  }

  lemma LiveLinkKeepsInv(s: System, step: Step)
    requires Inv(s) && Enabled(s, step) && (step.Emit? || step.Deliver?)
    ensures Inv(Do(s, step)) && Do(s, step).gate == s.gate
  {}

  lemma StepKeepsInv(s: System, step: Step)
    requires Inv(s) && Enabled(s, step)
    ensures Inv(Do(s, step))
    ensures forall m :: m in Flat(s.gate) ==> m in Flat(Do(s, step).gate)
  {
    match step {
      case Emit(_) => LiveLinkKeepsInv(s, step);
      case Publish => PublishKeepsInv(s);
      case Deliver(_) => LiveLinkKeepsInv(s, step);
      case Drain => DrainKeepsInv(s);
      case HandleRequest => RequestKeepsInv(s);
      case HandleReply => ReplyKeepsInv(s);
      case Disconnect => ConnectionKeepsInv(s, step);
      case Reconnect => ConnectionKeepsInv(s, step);
    }
  }

  lemma BodiesOfOne(r: Response)
    ensures Bodies([r]) == if r.Messages? then r.ms else []
  {
    assert Bodies([r]) == (if r.Messages? then r.ms else []) + Bodies([]);
  }

  // ---------- over whole runs ----------

  ghost predicate Run(states: seq<System>, steps: seq<Step>) {
    && |states| == |steps| + 1 && states[0] == Init()
    && forall i :: 0 <= i < |steps| ==> Enabled(states[i], steps[i]) && states[i + 1] == Do(states[i], steps[i])
  }

  lemma {:induction false} RunKeepsInv(states: seq<System>, steps: seq<Step>, i: nat)
    requires Run(states, steps) && i < |states|
    ensures Inv(states[i])
  {
    if i > 0 {
      RunKeepsInv(states, steps, i - 1);
      StepKeepsInv(states[i - 1], steps[i - 1]);
    }
  }

  /** In every run: the continuous stream is a piece of the source's stream with its payloads, the
      chunks are later pieces in order with gaps in front of them, and no number is stored twice. */
  lemma GateHoldsPiecesOfTheStream(states: seq<System>, steps: seq<Step>, i: nat)
    requires Run(states, steps) && i < |states|
    ensures var g, stream := states[i].gate, Emitted(states[i].payloads);
      && WellFormed(g) && Increasing(Flat(g))
      && IsPiece(g.messages, stream)
      && forall c :: c in g.chunks ==> IsPiece(c, stream)
  {
    RunKeepsInv(states, steps, i);
    var g, payloads := states[i].gate, states[i].payloads;
    StoreIsIncreasing(g);
    PieceOfStream(g.messages, payloads);
    forall c | c in g.chunks
      ensures IsPiece(c, Emitted(payloads))
    {
      ChunkIsInFlat(g.chunks, c);
      PieceOfStream(c, payloads);
    }
  }

  ghost predicate IsPiece(part: seq<Msg>, stream: seq<Msg>) {
    part != [] ==>
      && 1 <= part[0].seqnum <= part[0].seqnum - 1 + |part| <= |stream|
      && part == stream[part[0].seqnum - 1..part[0].seqnum - 1 + |part|]
  }

  lemma PieceOfStream(part: seq<Msg>, payloads: seq<int>)
    requires Contiguous(part) && forall m :: m in part ==> Genuine(m, payloads)
    ensures IsPiece(part, Emitted(payloads))
  {
    if part != [] {
      var stream, k := Emitted(payloads), part[0].seqnum - 1;
      assert part[0] in part && part[|part| - 1] in part;
      assert Genuine(part[0], payloads) && Genuine(part[|part| - 1], payloads);
      forall i | 0 <= i < |part|
        ensures part[i] == stream[k + i]
      {
        assert part[i] in part && Genuine(part[i], payloads);
      }
    }
  }

  lemma {:induction false} ChunkIsInFlat(chunks: seq<seq<Msg>>, c: seq<Msg>)
    requires c in chunks
    ensures forall m :: m in c ==> m in Concat(chunks)
  {
    if c != chunks[0] {
      ChunkIsInFlat(chunks[1..], c);
    }
  }

  /** In every run the gate never loses a message. */
  lemma {:induction false} GateNeverLoses(states: seq<System>, steps: seq<Step>, i: nat, j: nat, m: Msg)
    requires Run(states, steps) && i <= j < |states|
    requires m in Flat(states[i].gate)
    ensures m in Flat(states[j].gate)
  {
    if i < j {
      GateNeverLoses(states, steps, i, j - 1, m);
      RunKeepsInv(states, steps, j - 1);
      StepKeepsInv(states[j - 1], steps[j - 1]);
    }
  }

  /** In every run an answer removes exactly its range from what is missing, however late it comes. */
  lemma ReplyRemovesItsRange(states: seq<System>, steps: seq<Step>, i: nat)
    requires Run(states, steps) && i < |steps| && steps[i] == HandleReply
    ensures var held, held' := Flat(states[i].gate), Flat(states[i + 1].gate);
      var r := states[i].channel.response;
      if r.Messages?
      then held != [] && r.ms != []
           && Missing(held') == Missing(held) - Interval(r.ms[0].seqnum, Last(r.ms).seqnum + 1)
           && (r.ms[0].seqnum == Next(held) && Missing(held) != {} ==> |Missing(held')| < |Missing(held)|)
      else held' == held
  {
    RunKeepsInv(states, steps, i);
    assert Enabled(states[i], steps[i]) && states[i + 1] == Do(states[i], steps[i]);
    ReplyTakenIn(states[i]);
  }

  lemma ReplyTakenIn(s: System)
    requires Inv(s) && Enabled(s, HandleReply)
    ensures var held, held' := Flat(s.gate), Flat(Do(s, HandleReply).gate);
      var r := s.channel.response;
      if r.Messages?
      then held != [] && r.ms != []
           && Missing(held') == Missing(held) - Interval(r.ms[0].seqnum, Last(r.ms).seqnum + 1)
           && (r.ms[0].seqnum == Next(held) && Missing(held) != {} ==> |Missing(held')| < |Missing(held)|)
      else held' == held
  {
    var held, ms := Flat(s.gate), Bodies([s.channel.response]);
    BodiesOfOne(s.channel.response);
    StoreIsIncreasing(s.gate);
    AddAllRefines(s.gate, ms);
    if s.channel.response.Messages? {
      CurrentShrinks(held, ms);
    }
  }

  lemma CurrentShrinks(held: seq<Msg>, ms: seq<Msg>)
    requires Increasing(held) && ms != [] && Contiguous(ms) && Current(held, ms[0].seqnum, Last(ms).seqnum)
    ensures var held' := KeepAll(held, ms);
      && Missing(held') == Missing(held) - Interval(ms[0].seqnum, Last(ms).seqnum + 1)
      && (ms[0].seqnum == Next(held) && Missing(held) != {} ==> |Missing(held')| < |Missing(held)|)
  {
    AnswerShrinksMissing(held, ms);
  }

  lemma AnswerRemovesRange(held: seq<Msg>, ms: seq<Msg>)
    requires Increasing(held) && held != [] && ms != [] && Contiguous(ms)
    requires held[0].seqnum <= ms[0].seqnum <= Next(held) && Last(ms).seqnum <= Last(held).seqnum
    ensures Missing(KeepAll(held, ms)) == Missing(held) - Interval(ms[0].seqnum, Last(ms).seqnum + 1)
  {
    forall x
      ensures IsMissing(KeepAll(held, ms), x) <==> IsMissing(held, x) && x !in Interval(ms[0].seqnum, Last(ms).seqnum + 1)
    {
      AnswerFillsItsRange(held, ms, x);
    }
  }

  lemma AnswerShrinksMissing(held: seq<Msg>, ms: seq<Msg>)
    requires Increasing(held) && held != [] && ms != [] && Contiguous(ms)
    requires held[0].seqnum <= ms[0].seqnum <= Next(held) && Last(ms).seqnum <= Last(held).seqnum
    ensures var held' := KeepAll(held, ms);
      && Missing(held') == Missing(held) - Interval(ms[0].seqnum, Last(ms).seqnum + 1)
      && (ms[0].seqnum == Next(held) && Missing(held) != {} ==> |Missing(held')| < |Missing(held)|)
  {
    AnswerRemovesRange(held, ms);
    if ms[0].seqnum == Next(held) && Missing(held) != {} {
      NextIsMissing(held);
      assert ms[0].seqnum <= Last(ms).seqnum;
      SmallerSet(Missing(KeepAll(held, ms)), Missing(held), Next(held));
    }
  }

  lemma NextIsMissing(held: seq<Msg>)
    requires Increasing(held) && held != [] && Missing(held) != {}
    ensures Next(held) in Missing(held)
  {
    var s :| s in Missing(held);
    FirstMissing(held, s);
    GapAfterPrefix(held, PrefixLen(held));
    FirstMissing(held, Next(held));
  }

  lemma SmallerSet(a: set<int>, b: set<int>, x: int)
    requires a <= b - {x} && x in b
    ensures |a| < |b|
  {
    assert b == a + (b - a) && x in b - a;
  }

  /** While the live link delivers only newer messages, a gap keeps its begin, so that the answer
      to the request for it is not stale. */
  lemma {:induction false} InOrderDeliveryKeepsRequest(held: seq<Msg>, ms: seq<Msg>)
    requires Increasing(held) && Missing(held) != {}
    requires Increasing(ms) && (ms != [] ==> Last(held).seqnum < ms[0].seqnum)
    ensures KeepAll(held, ms) == held + ms && Missing(held + ms) != {} && Next(held + ms) == Next(held)
    decreases |ms|
  {
    if ms != [] {
      NewerMessageLeavesGap(held, ms[0]);
      RestIsNewer(held, ms);
      InOrderDeliveryKeepsRequest(held + [ms[0]], ms[1..]);
      MoveFirst(held, ms);
    } else {
      assert held + ms == held;
    }
  }

  lemma RestIsNewer(held: seq<Msg>, ms: seq<Msg>)
    requires Increasing(ms) && ms != []
    ensures Increasing(ms[1..]) && (ms[1..] != [] ==> Last(held + [ms[0]]).seqnum < ms[1..][0].seqnum)
  {
    forall i, j | 0 <= i < j < |ms[1..]|
      ensures ms[1..][i].seqnum < ms[1..][j].seqnum
    {
      assert ms[i + 1].seqnum < ms[j + 1].seqnum;
    }
  }

  lemma MoveFirst(a: seq<Msg>, b: seq<Msg>)
    requires b != []
    ensures a + [b[0]] + b[1..] == a + b
  {}

  lemma NewerMessageLeavesGap(held: seq<Msg>, m: Msg)
    requires Increasing(held) && Missing(held) != {} && Last(held).seqnum < m.seqnum
    ensures Keep(held, m) == held + [m] && Increasing(held + [m])
    ensures Missing(held + [m]) != {} && Next(held + [m]) == Next(held)
  {
    NextIsMissing(held);
    KeepIsIncreasing(held, m);
    KeepAdvances(held, m);
    var k := held + [m];
    forall i | 0 <= i < |k|
      ensures k[i].seqnum != Next(held)
    {
      assert i < |held| ==> k[i] == held[i];
    }
    assert IsMissing(k, Next(held));
  }

  // ---------- recovery completes ----------

  /** A request of the gate the source has postponed is answered, with exactly its range, by the next call of
      on_fast_queue_changed: the gate never waits for the message that would wake it too late. */
  lemma PostponedIsAnswered(states: seq<System>, steps: seq<Step>, i: nat)
    requires Run(states, steps) && i < |steps| && steps[i] == Publish && states[i].channel.Postponed?
    ensures states[i + 1].channel.Replied? && states[i + 1].channel.response.Messages?
    ensures states[i + 1].published <= |states[i + 1].payloads|
    ensures IsRange(Published(states[i + 1]), states[i].channel.req, states[i + 1].channel.response.ms)
  {
    RunKeepsInv(states, steps, i);
    CompleteIsAnswered(states[i].(published := |states[i].payloads|), states[i].channel.req);
    assert states[i + 1] == Do(states[i], steps[i]);
  }

  /** The request on its way, or its answer, begins with the message the gate waits for. */
  predicate IsFresh(s: System)
    requires WellFormed(s.gate) && Flat(s.gate) != []
  {
    match s.channel
    case Asked(req) => req.begin == Next(Flat(s.gate))
    case Replied(r) => r.Messages? && r.ms != [] && r.ms[0].seqnum == Next(Flat(s.gate))
    case _ => false
  }

  /** How many steps it takes at most until nothing is missing. */
  ghost function Distance(s: System): nat
    requires WellFormed(s.gate) && Flat(s.gate) != []
  {
    4 * |Missing(Flat(s.gate))| + (if IsFresh(s) then 0 else 2) + (if s.channel.Asked? then 1 else 0)
  }

  /** The first and the last message held stay, and so does the source. */
  ghost predicate KeepsEnds(s: System, t: System) {
    && t.payloads == s.payloads && t.published == s.published
    && SameEnds(Flat(s.gate), Flat(t.gate))
  }

  /** The request is answered. */
  lemma RequestStep(s: System)
    requires Inv(s) && s.published == |s.payloads| && s.gate.chunks != [] && s.channel.Asked?
    ensures var t := Do(s, HandleRequest);
      KeepsEnds(s, t) && t.gate == s.gate && t.channel.Replied? && Distance(t) < Distance(s)
  {
    CompleteIsAnswered(s, Cap(s.channel.req));
  }

  /** An answer taken in, as far as the gate is concerned. */
  lemma AnswerStep(held: seq<Msg>, ms: seq<Msg>)
    requires Increasing(held) && Missing(held) != {} && held != [] && ms != [] && Contiguous(ms)
    requires Current(held, ms[0].seqnum, Last(ms).seqnum)
    ensures var kept := KeepAll(held, ms);
      && kept != [] && kept[0] == held[0] && Last(kept) == Last(held)
      && |Missing(kept)| <= |Missing(held)| && (ms[0].seqnum == Next(held) ==> |Missing(kept)| < |Missing(held)|)
  {
    AnswerShrinksMissing(held, ms);
    AnswerFillsItsRange(held, ms, 0);
    KeepAllOnlyAdds(held, ms);
    SubsetIsSmaller(Missing(KeepAll(held, ms)), Missing(held));
  }

  /** The answer is taken in, and the next gap is asked for. */
  lemma ReplyStep(s: System)
    requires Inv(s) && s.gate.chunks != [] && s.channel.Replied?
    ensures WellFormed(Do(s, HandleReply).gate) && KeepsEnds(s, Do(s, HandleReply))
    ensures var t := Do(s, HandleReply); t.gate.chunks != [] ==> t.channel.Asked? && Distance(t) < Distance(s)
  {
    var held, r := Flat(s.gate), s.channel.response;
    StoreIsIncreasing(s.gate);
    RequestIsFirstGap(s.gate);
    BodiesOfOne(r);
    AddAllRefines(s.gate, Bodies([r]));
    if r.Messages? {
      AnswerStep(held, r.ms);
    }
    NextIsFresh(s, Do(s, HandleReply));
  }

  /** The request behind an answer is fresh. */
  lemma NextIsFresh(s: System, t: System)
    requires WellFormed(s.gate) && Flat(s.gate) != [] && s.channel.Replied?
    requires WellFormed(t.gate) && t.channel == Ask(t.gate, Idle) && Flat(t.gate) != []
    requires |Missing(Flat(t.gate))| <= |Missing(Flat(s.gate))|
    requires IsFresh(s) ==> |Missing(Flat(t.gate))| < |Missing(Flat(s.gate))|
    ensures t.gate.chunks != [] ==> t.channel.Asked? && Distance(t) < Distance(s)
  {
    RequestIsFirstGap(t.gate);
  }

  lemma SubsetIsSmaller(a: set<int>, b: set<int>)
    requires a <= b
    ensures |a| <= |b|
  {
    assert b == a + (b - a);
  }

  lemma RunExtended(states: seq<System>, steps: seq<Step>, step: Step)
    requires Run(states, steps) && Enabled(states[|steps|], step)
    ensures Run(states + [Do(states[|steps|], step)], steps + [step])
  {}

  /** The run goes on as `states1` and `steps1`. */
  ghost predicate IsExtended(states: seq<System>, steps: seq<Step>, states1: seq<System>, steps1: seq<Step>) {
    Run(states1, steps1) && states <= states1 && steps <= steps1
  }

  lemma ExtendedTwice(states: seq<System>, steps: seq<Step>, a: seq<System>, b: seq<Step>, states1: seq<System>, steps1: seq<Step>)
    requires IsExtended(states, steps, a, b) && IsExtended(a, b, states1, steps1)
    ensures IsExtended(states, steps, states1, steps1)
  {
    PrefixOfPrefix(states, a, states1);
    PrefixOfPrefix(steps, b, steps1);
  }

  lemma PrefixOfPrefix<T>(a: seq<T>, b: seq<T>, c: seq<T>)
    requires a <= b <= c
    ensures a <= c
  {}

  /** Request and answer by turns until there is no chunk left. */
  lemma {:induction false} RoundsComplete(states: seq<System>, steps: seq<Step>)
    returns (states1: seq<System>, steps1: seq<Step>)
    requires Run(states, steps)
    requires var s := states[|steps|]; s.published == |s.payloads| && !s.channel.Closed?
    ensures IsExtended(states, steps, states1, steps1)
    ensures forall k :: |steps| <= k < |steps1| ==> steps1[k] == HandleRequest || steps1[k] == HandleReply
    ensures states1[|steps1|].gate.chunks == [] && KeepsEnds(states[|steps|], states1[|steps1|])
    decreases var s := states[|steps|]; if WellFormed(s.gate) && s.gate.chunks != [] then 1 + Distance(s) else 0
  {
    var s := states[|steps|];
    RunKeepsInv(states, steps, |steps|);
    if s.gate.chunks == [] {
      return states, steps;
    }
    if s.channel.Postponed? {
      CompleteIsAnswered(s, s.channel.req);
    }
    var step := if s.channel.Asked? then HandleRequest else HandleReply;
    if s.channel.Asked? {
      RequestStep(s);
    } else {
      ReplyStep(s);
    }
    RunExtended(states, steps, step);
    states1, steps1 := RoundsComplete(states + [Do(s, step)], steps + [step]);
    assert steps1[|steps|] == step;
  }

  /** The source publishes what it has; a connection that is closed is opened again. */
  lemma Prepared(states: seq<System>, steps: seq<Step>) returns (states1: seq<System>, steps1: seq<Step>)
    requires Run(states, steps)
    ensures IsExtended(states, steps, states1, steps1)
    ensures steps1 == steps + if states[|steps|].channel.Closed? then [Publish, Reconnect] else [Publish]
    ensures var s := states1[|steps1|];
      s.published == |s.payloads| && !s.channel.Closed? && s.gate == states[|steps|].gate
  {
    var s := states[|steps|];
    RunKeepsInv(states, steps, |steps|);
    states1, steps1 := states + [Do(s, Publish)], steps + [Publish];
    RunExtended(states, steps, Publish);
    if s.channel.Closed? {
      var t := states1[|steps1|];
      RunKeepsInv(states1, steps1, |steps1|);
      RunExtended(states1, steps1, Reconnect);
      states1, steps1 := states1 + [Do(t, Reconnect)], steps1 + [Reconnect];
    }
  }

  /** What a step of the recovery can be. */
  predicate Recovers(step: Step, k: nat, closed: bool) {
    step == HandleRequest || step == HandleReply || (k == 0 && step == Publish) || (k == 1 && closed && step == Reconnect)
  }

  lemma StepsOfRecovery(steps: seq<Step>, prepared: seq<Step>, all: seq<Step>, closed: bool)
    requires prepared == steps + if closed then [Publish, Reconnect] else [Publish]
    requires prepared <= all && forall k :: |prepared| <= k < |all| ==> all[k] == HandleRequest || all[k] == HandleReply
    ensures forall k :: |steps| <= k < |all| ==> Recovers(all[k], k - |steps|, closed)
  {
    forall k | |steps| <= k < |all|
      ensures Recovers(all[k], k - |steps|, closed)
    {
      if k < |prepared| {
        assert all[k] == prepared[k];
      }
    }
  }

  /** The first and the last message held stay. */
  ghost predicate SameEnds(held: seq<Msg>, kept: seq<Msg>) {
    held != [] ==> kept != [] && kept[0] == held[0] && Last(kept) == Last(held)
  }

  lemma RecoveryFound(states: seq<System>, steps: seq<Step>) returns (states1: seq<System>, steps1: seq<Step>)
    requires Run(states, steps)
    ensures IsExtended(states, steps, states1, steps1)
    ensures forall k :: |steps| <= k < |steps1| ==> Recovers(steps1[k], k - |steps|, states[|steps|].channel.Closed?)
    ensures states1[|steps1|].gate.chunks == [] && SameEnds(Flat(states[|steps|].gate), Flat(states1[|steps1|].gate))
  {
    var a, b := Prepared(states, steps);
    ghost var gate := a[|b|].gate;
    states1, steps1 := RoundsComplete(a, b);
    ExtendedTwice(states, steps, a, b, states1, steps1);
    StepsOfRecovery(steps, b, steps1, states[|steps|].channel.Closed?);
    assert states[|steps|].gate == gate;
  }

  lemma OneStreamIsComplete(g: Store)
    requires WellFormed(g) && g.chunks == []
    ensures Flat(g) == g.messages && Contiguous(g.messages) && Missing(g.messages) == {}
  {
    RequestIsFirstGap(g);
    assert Flat(g) == g.messages;
  }

  /** From every state of every run: once the source has published what it has, and the connection is there, requests and answers
      alone bring the gate to one continuous stream from its first message to its last, however large the gaps, however small the
      answers, and whatever request or stale answer was on its way. */
  lemma RecoveryCompletes(states: seq<System>, steps: seq<Step>) returns (states1: seq<System>, steps1: seq<Step>)
    requires Run(states, steps)
    ensures IsExtended(states, steps, states1, steps1)
    ensures forall k :: |steps| <= k < |steps1| ==> Recovers(steps1[k], k - |steps|, states[|steps|].channel.Closed?)
    ensures var g := states1[|steps1|].gate;
      && g.chunks == [] && Contiguous(g.messages) && Missing(g.messages) == {}
      && SameEnds(Flat(states[|steps|].gate), g.messages)
  {
    states1, steps1 := RecoveryFound(states, steps);
    RunKeepsInv(states1, steps1, |steps1|);
    OneStreamIsComplete(states1[|steps1|].gate);
  }
}
