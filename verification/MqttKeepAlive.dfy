/** The keep-alive state machine of the client, over a 32-bit millisecond clock that wraps, and what holds
    over every run of it. */
module MqttKeepAlive {
  import opened Bytes

  datatype Keep = Keep(connected: bool, outstanding: bool, lastIn: uint32, lastOut: uint32)

  /** What one call of `loop` finds on the socket. */
  datatype Heard =
    | Nothing                                // no packet, or one that was skipped or not finished
    | Received(acked: bool)                  // one packet; a PUBLISH of QoS 1 is acknowledged
    | Answered                               // a PINGRESP
    | Broken                                 // an invalid length: the connection was closed

  datatype Input =
    | Loop(at: uint32, up: bool, heard: Heard)
    | AppSends(at: uint32)
    | Accepted(sentAt: uint32, at: uint32)   // a connect() that the broker accepts

  datatype Event =
    | Connected(sentAt: uint32, at: uint32)
    | PingReq(at: uint32)
    | PingResp(at: uint32)
    | Packet(at: uint32, acked: bool)
    | AppSent(at: uint32)
    | GaveUp(at: uint32)

  predicate Overdue(k: Keep, keepAlive: uint16, t: uint32) {
    Elapsed(t, k.lastIn) > keepAlive * 1000 || Elapsed(t, k.lastOut) > keepAlive * 1000
  }

  function Hear(k: Keep, t: uint32, heard: Heard): (Keep, seq<Event>) {
    match heard
    case Nothing => (k, [])
    case Broken => (k.(connected := false), [])
    case Received(acked) => (k.(lastIn := t, lastOut := if acked then t else k.lastOut), [Packet(t, acked)])
    case Answered => (k.(lastIn := t, outstanding := false), [PingResp(t)])
  }

  /** One call of `loop`. */
  function LoopStep(k: Keep, keepAlive: uint16, t: uint32, up: bool, heard: Heard): (Keep, seq<Event>) {
    if !k.connected || !up then
      (k.(connected := false), [])
    else if !Overdue(k, keepAlive, t) then
      Hear(k, t, heard)
    else if k.outstanding then
      (k.(connected := false), [GaveUp(t)])
    else
      var (k', events) := Hear(Keep(true, true, t, t), t, heard);
      (k', [PingReq(t)] + events)
  }

  function Step(k: Keep, keepAlive: uint16, input: Input): (Keep, seq<Event>) {
    match input
    case Loop(t, up, heard) => LoopStep(k, keepAlive, t, up, heard)
    case AppSends(t) => if k.connected then (k.(lastOut := t), [AppSent(t)]) else (k, [])
    case Accepted(sentAt, t) => if k.connected then (k, []) else (Keep(true, false, t, sentAt), [Connected(sentAt, t)])
  }

  const START: Keep := Keep(false, false, 0, 0)

  /** The state and the events after a run of inputs. */
  function Run(keepAlive: uint16, inputs: seq<Input>): (Keep, seq<Event>) {
    if inputs == [] then (START, [])
    else
      var (k, trace) := Run(keepAlive, inputs[..|inputs| - 1]);
      var (k', events) := Step(k, keepAlive, inputs[|inputs| - 1]);
      (k', trace + events)
  }

  // ----- what a trace says -----

  predicate Answers(e: Event) {
    e.PingResp? || e.Connected?
  }

  /** Some PINGREQ has been sent since which no PINGRESP was read. */
  ghost predicate Unanswered(trace: seq<Event>) {
    exists i | 0 <= i < |trace| :: trace[i].PingReq? && forall j | i < j < |trace| :: !Answers(trace[j])
  }

  /** Between any two PINGREQs there is an answer. */
  ghost predicate OneAtATime(trace: seq<Event>) {
    forall i, j | 0 <= i < j < |trace| && trace[i].PingReq? && trace[j].PingReq? ::
      exists k | i < k < j :: Answers(trace[k])
  }

  /** A PINGREQ was sent at `t` and nothing has been read since. */
  ghost predicate SilentSince(trace: seq<Event>, t: uint32) {
    exists i | 0 <= i < |trace| :: trace[i] == PingReq(t) && forall j | i < j < |trace| :: trace[j].AppSent?
  }

  /** The time of the last thing that was read, or of a PINGREQ after it. */
  function LastIn(trace: seq<Event>): Option<uint32> {
    if trace == [] then None
    else match trace[|trace| - 1]
      case Connected(_, at) => Some(at)
      case PingReq(at) => Some(at)
      case PingResp(at) => Some(at)
      case Packet(at, _) => Some(at)
      case _ => LastIn(trace[..|trace| - 1])
  }

  /** The time of the last thing that was sent on behalf of the application or the keep-alive. */
  function LastOut(trace: seq<Event>): Option<uint32> {
    if trace == [] then None
    else match trace[|trace| - 1]
      case Connected(sentAt, _) => Some(sentAt)
      case PingReq(at) => Some(at)
      case AppSent(at) => Some(at)
      case Packet(at, acked) => if acked then Some(at) else LastOut(trace[..|trace| - 1])
      case _ => LastOut(trace[..|trace| - 1])
  }

  ghost predicate Agrees(k: Keep, trace: seq<Event>) {
    && OneAtATime(trace)
    && (k.connected ==>
        && (k.outstanding <==> Unanswered(trace))
        && LastIn(trace) == Some(k.lastIn)
        && LastOut(trace) == Some(k.lastOut))
  }

  lemma LastAppended(trace: seq<Event>, e: Event)
    ensures LastIn(trace + [e]) ==
      if e.Connected? || e.PingReq? || e.PingResp? || e.Packet? then Some(e.at) else LastIn(trace)
    ensures LastOut(trace + [e]) ==
      if e.Connected? then Some(e.sentAt)
      else if e.PingReq? || e.AppSent? || (e.Packet? && e.acked) then Some(e.at)
      else LastOut(trace)
  {
    assert (trace + [e])[..|trace|] == trace;
  }

  lemma AgreesAfterPing(k: Keep, trace: seq<Event>, t: uint32)
    requires Agrees(k, trace) && k.connected && !k.outstanding
    ensures Agrees(Keep(true, true, t, t), trace + [PingReq(t)])
  {
    LastAppended(trace, PingReq(t));
    var longer := trace + [PingReq(t)];
    assert longer[|trace|].PingReq?;
    forall i, j | 0 <= i < j < |longer| && longer[i].PingReq? && longer[j].PingReq?
      ensures exists k | i < k < j :: Answers(longer[k])
    {
      if j < |trace| {
        var k :| i < k < j && Answers(trace[k]);
        assert Answers(longer[k]);
      } else {
        assert !(forall k | i < k < |trace| :: !Answers(trace[k]));
        var k :| i < k < |trace| && Answers(trace[k]);
        assert Answers(longer[k]);
      }
    }
  }

  // Appending any event but a PINGREQ.
  lemma OneAtATimeAfter(trace: seq<Event>, e: Event)
    requires OneAtATime(trace) && !e.PingReq?
    ensures OneAtATime(trace + [e])
  {
    var longer := trace + [e];
    forall i, j | 0 <= i < j < |longer| && longer[i].PingReq? && longer[j].PingReq?
      ensures exists k | i < k < j :: Answers(longer[k])
    {
      var k :| i < k < j && Answers(trace[k]);
      assert Answers(longer[k]);
    }
  }

  lemma UnansweredAfter(trace: seq<Event>, e: Event)
    requires !e.PingReq?
    ensures Unanswered(trace + [e]) <==> Unanswered(trace) && !Answers(e)
  {
    var longer := trace + [e];
    assert longer[|trace|] == e;
    if Unanswered(longer) {
      var i :| 0 <= i < |longer| && longer[i].PingReq? && forall j | i < j < |longer| :: !Answers(longer[j]);
      assert forall j | i < j < |trace| :: longer[j] == trace[j];
    }
    if Unanswered(trace) && !Answers(e) {
      var i :| 0 <= i < |trace| && trace[i].PingReq? && forall j | i < j < |trace| :: !Answers(trace[j]);
      assert longer[i].PingReq?;
    }
  }

  lemma AgreesAfterEvent(k: Keep, trace: seq<Event>, e: Event, k': Keep)
    requires Agrees(k, trace) && !e.PingReq?
    requires k'.connected ==> k.connected || e.Connected?
    requires k'.connected && e.Connected? ==> !k'.outstanding && k'.lastIn == e.at && k'.lastOut == e.sentAt
    requires k'.connected && !e.Connected? ==> k'.outstanding == (k.outstanding && !Answers(e))
    requires k'.connected && !e.Connected? ==> k'.lastIn == if e.PingResp? || e.Packet? then e.at else k.lastIn
    requires k'.connected && !e.Connected? ==>
      k'.lastOut == if e.AppSent? || (e.Packet? && e.acked) then e.at else k.lastOut
    ensures Agrees(k', trace + [e])
  {
    OneAtATimeAfter(trace, e);
    UnansweredAfter(trace, e);
    LastAppended(trace, e);
    hide OneAtATime, Unanswered, LastIn, LastOut;
  }

  lemma AgreesAfterHearing(k: Keep, trace: seq<Event>, t: uint32, heard: Heard)
    requires Agrees(k, trace) && k.connected
    ensures var (k', events) := Hear(k, t, heard); Agrees(k', trace + events)
  {
    var (k', events) := Hear(k, t, heard);
    if events == [] {
      assert trace + [] == trace;
    } else {
      AgreesAfterEvent(k, trace, events[0], k');
    }
  }

  lemma AgreesAfterStep(k: Keep, trace: seq<Event>, keepAlive: uint16, input: Input)
    requires Agrees(k, trace)
    ensures var (k', events) := Step(k, keepAlive, input); Agrees(k', trace + events)
  {
    var (k', events) := Step(k, keepAlive, input);
    assert trace + [] == trace;
    match input
    case AppSends(t) =>
      if k.connected {
        AgreesAfterEvent(k, trace, AppSent(t), k');
      }
    case Accepted(sentAt, t) =>
      if !k.connected {
        AgreesAfterEvent(k, trace, Connected(sentAt, t), k');
      }
    case Loop(t, up, heard) =>
      if !k.connected || !up {
      } else if !Overdue(k, keepAlive, t) {
        AgreesAfterHearing(k, trace, t, heard);
      } else if k.outstanding {
        AgreesAfterEvent(k, trace, GaveUp(t), k');
      } else {
        AgreesAfterPing(k, trace, t);
        AgreesAfterHearing(Keep(true, true, t, t), trace + [PingReq(t)], t, heard);
        assert trace + events == (trace + [PingReq(t)]) + Hear(Keep(true, true, t, t), t, heard).1;
      }
  }

  lemma {:induction false} RunAgrees(keepAlive: uint16, inputs: seq<Input>)
    ensures Agrees(Run(keepAlive, inputs).0, Run(keepAlive, inputs).1)
  {
    if inputs == [] {
    } else {
      var (k, trace) := Run(keepAlive, inputs[..|inputs| - 1]);
      RunAgrees(keepAlive, inputs[..|inputs| - 1]);
      AgreesAfterStep(k, trace, keepAlive, inputs[|inputs| - 1]);
    }
  }

  /** Over every run: while connected, a ping is outstanding exactly if one was sent since the last
      PINGRESP, and the two times are those of the last things read and sent; and there are never two pings. */
  lemma PingsOverEveryRun(keepAlive: uint16, inputs: seq<Input>)
    ensures var (k, trace) := Run(keepAlive, inputs);
      && OneAtATime(trace)
      && (k.connected ==>
          && (k.outstanding <==> Unanswered(trace))
          && Some(k.lastIn) == LastIn(trace)
          && Some(k.lastOut) == LastOut(trace))
  {
    hide Run;
    RunAgrees(keepAlive, inputs);
  }

  /** More than the keep-alive time has passed between two readings of the clock. */
  predicate Idle(keepAlive: uint16, since: uint32, t: uint32) {
    (t - since) % 0x1_0000_0000 > keepAlive * 1000
  }

  /** One loop of a connected client: it is dropped or pings exactly if it was idle in one direction for more than the
      keep-alive time, and afterwards it is idle in neither. */
  lemma LoopKeepsAlive(k: Keep, keepAlive: uint16, t: uint32, heard: Heard)
    requires k.connected
    ensures var (k', events) := LoopStep(k, keepAlive, t, true, heard);
      var idle := Idle(keepAlive, k.lastIn, t) || Idle(keepAlive, k.lastOut, t);
      && (PingReq(t) in events <==> idle && !k.outstanding)
      && (GaveUp(t) in events <==> idle && k.outstanding)
      && (idle && k.outstanding ==> !k'.connected && events == [GaveUp(t)])
      && (!(idle && k.outstanding) ==> (k'.connected <==> !heard.Broken?))
      && (k'.connected ==> !Idle(keepAlive, k'.lastIn, t) && !Idle(keepAlive, k'.lastOut, t))
  {
  }

  lemma LoopOfLost(k: Keep, keepAlive: uint16, t: uint32, up: bool, heard: Heard)
    requires !k.connected || !up
    ensures !LoopStep(k, keepAlive, t, up, heard).0.connected && LoopStep(k, keepAlive, t, up, heard).1 == []
  {
  }

  /** After every run: the next loop sends a PINGREQ if and only if none is unanswered and, since the last thing read
      or since the last thing sent, more than the keep-alive time has passed. */
  lemma PingsWhenIdle(keepAlive: uint16, inputs: seq<Input>, t: uint32, heard: Heard)
    requires Run(keepAlive, inputs).0.connected
    ensures var (k, trace) := Run(keepAlive, inputs);
      var (k', events) := LoopStep(k, keepAlive, t, true, heard);
      && LastIn(trace).Some? && LastOut(trace).Some?
      && var idle := Idle(keepAlive, LastIn(trace).value, t) || Idle(keepAlive, LastOut(trace).value, t);
      && (PingReq(t) in events <==> idle && !Unanswered(trace))
      && (GaveUp(t) in events <==> idle && Unanswered(trace))
      && (k'.connected ==>
          && LastIn(trace + events).Some? && !Idle(keepAlive, LastIn(trace + events).value, t)
          && LastOut(trace + events).Some? && !Idle(keepAlive, LastOut(trace + events).value, t))
  {
    var (k, trace) := Run(keepAlive, inputs);
    RunAgrees(keepAlive, inputs);
    hide Run;
    LoopKeepsAlive(k, keepAlive, t, heard);
    AgreesAfterStep(k, trace, keepAlive, Loop(t, true, heard));
    hide LoopStep, LastIn, LastOut, Unanswered, OneAtATime, Idle;
  }

  lemma {:induction false} SilentLast(trace: seq<Event>, t0: uint32)
    requires SilentSince(trace, t0)
    ensures LastIn(trace) == Some(t0)
  {
    var i :| 0 <= i < |trace| && trace[i] == PingReq(t0) && forall j | i < j < |trace| :: trace[j].AppSent?;
    if i == |trace| - 1 {
    } else {
      var before := trace[..|trace| - 1];
      assert before[i] == PingReq(t0) && forall j | i < j < |before| :: before[j].AppSent?;
      SilentLast(before, t0);
    }
  }

  lemma SilentUnanswered(trace: seq<Event>, t0: uint32)
    requires SilentSince(trace, t0)
    ensures Unanswered(trace)
  {
    var i :| 0 <= i < |trace| && trace[i] == PingReq(t0) && forall j | i < j < |trace| :: trace[j].AppSent?;
    assert forall j | i < j < |trace| :: !Answers(trace[j]);
  }

  /** After every run: if nothing was read since a PINGREQ sent at `t0`, the next loop gives up, whatever is on the
      socket, if and only if more than the keep-alive time has passed since that PINGREQ or since the last packet
      sent. */
  lemma SilentBrokerDropped(keepAlive: uint16, inputs: seq<Input>, t0: uint32, t: uint32, heard: Heard)
    requires var (k, trace) := Run(keepAlive, inputs);
      k.connected && SilentSince(trace, t0)
    ensures var (k, trace) := Run(keepAlive, inputs);
      var (k', events) := LoopStep(k, keepAlive, t, true, heard);
      if Idle(keepAlive, t0, t) || Idle(keepAlive, k.lastOut, t) then
        !k'.connected && events == [GaveUp(t)]
      else
        (k', events) == Hear(k, t, heard)
  {
    var (k, trace) := Run(keepAlive, inputs);
    RunAgrees(keepAlive, inputs);
    SilentLast(trace, t0);
    SilentUnanswered(trace, t0);
    LoopKeepsAlive(k, keepAlive, t, heard);
    hide Run, LastIn, LastOut, Unanswered, OneAtATime;
  }

  /** A loop that reads a packet leaves the client ready for another one at the same time. */
  lemma KeepsListening(k: Keep, keepAlive: uint16, t: uint32, heard: Heard)
    requires k.connected && !(Overdue(k, keepAlive, t) && k.outstanding) && !heard.Broken?
    ensures var k' := LoopStep(k, keepAlive, t, true, heard).0;
      k'.connected && !(Overdue(k', keepAlive, t) && k'.outstanding)
  {
  }
}
