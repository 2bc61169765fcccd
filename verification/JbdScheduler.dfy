/** The request scheduler of the battery client: which request each tick of `process` makes, and when. */
module JbdScheduler {
  import opened Bytes
  import JbdFrames

  const PAUSE: byte := 0
  const CONNECT: byte := 1
  const DISCONNECT: byte := 2
  const BASICINFO: byte := 3
  const CELLINFO: byte := 4
  const HWINFO: byte := 5
  const BALANCEINFO: byte := 6
  const BALANCE: byte := 0x2d
  const MOSFET: byte := 0xe1

  /** The scheduler's variables. */
  datatype Sched = Sched(connected: bool, cmd: byte, cellRequests: uint32, last: uint32)

  /** A tick that was due: when, and the command it carried out. */
  datatype Event = Tick(at: uint32, cmd: byte)

  predicate Due(s: Sched, refresh: uint32, ms: uint32) {
    s.connected && Elapsed(ms, s.last) >= refresh
  }

  /** The command after a due tick. */
  function NextCommand(s: Sched): byte {
    if s.cmd == BASICINFO then CELLINFO
    else if s.cmd == CELLINFO then
      if (s.cellRequests + 1) % 0x1_0000_0000 % 10 == 0 then HWINFO else BASICINFO
    else if s.cmd in {HWINFO, BALANCEINFO, BALANCE, MOSFET, CONNECT} then BASICINFO
    else if s.cmd == DISCONNECT then PAUSE
    else s.cmd
  }

  /** One call of `process` with no device to pair. */
  function Step(s: Sched, refresh: uint32, ms: uint32): (Sched, seq<Event>) {
    if !Due(s, refresh, ms) then (s, [])
    else
      var count := if s.cmd == CELLINFO then (s.cellRequests + 1) % 0x1_0000_0000 else s.cellRequests;
      (Sched(s.cmd != DISCONNECT, NextCommand(s), count, ms), [Tick(ms, s.cmd)])
  }

  function Run(s: Sched, refresh: uint32, times: seq<uint32>): (Sched, seq<Event>) {
    if times == [] then (s, [])
    else
      var (s1, before) := Run(s, refresh, times[..|times| - 1]);
      var (s2, event) := Step(s1, refresh, times[|times| - 1]);
      (s2, before + event)
  }

  // ----- the polling cycle -----

  /** Ten pairs of basic and cell requests, then one hardware request. */
  function Cycle(i: nat): byte
    requires i < 21
  {
    if i == 20 then 5 else if i % 2 == 0 then 3 else 4
  }

  function CycleAt(n: nat): byte {
    Cycle(n % 21)
  }

  /** Where in the cycle a polling scheduler is. */
  function Position(s: Sched): nat
    requires s.cmd in {BASICINFO, CELLINFO, HWINFO}
  {
    if s.cmd == HWINFO then 20 else 2 * (s.cellRequests % 10) + if s.cmd == CELLINFO then 1 else 0
  }

  /** A hardware request is pending only after a multiple of ten cell requests. */
  predicate Polling(s: Sched) {
    s.connected && s.cmd in {BASICINFO, CELLINFO, HWINFO} && (s.cmd == HWINFO ==> s.cellRequests % 10 == 0)
  }

  /** The request counter is at its last value: the next cell request wraps it to zero. */
  predicate Wraps(s: Sched) {
    s.cmd == CELLINFO && s.cellRequests == 0xffff_ffff
  }

  /** Every due tick carries out the command at its position, and moves the position on by one, wrapping after the
      hardware request; but the one that wraps the counter goes straight to the hardware request, from the middle. */
  lemma PollingStep(s: Sched, refresh: uint32, ms: uint32)
    requires Polling(s) && Due(s, refresh, ms)
    ensures var (s', events) := Step(s, refresh, ms);
      && Polling(s') && events == [Tick(ms, Cycle(Position(s)))]
      && Position(s') == (if Wraps(s) then 20 else (Position(s) + 1) % 21)
      && (Wraps(s) ==> Position(s) == 11)
      && s'.last == ms
      && (!Wraps(s) ==> s'.cellRequests == s.cellRequests + if s.cmd == CELLINFO then 1 else 0)
  {
    var c: nat := s.cellRequests;
    NextDigit(c);
    if Wraps(s) {
      assert c % 10 == 5;
    } else if s.cmd == CELLINFO {
      assert (c + 1) % 0x1_0000_0000 == c + 1;
    }
  }

  lemma NextDigit(c: nat)
    ensures (c + 1) % 10 == if c % 10 == 9 then 0 else c % 10 + 1
    ensures (2 * (c % 10)) % 2 == 0 && (2 * (c % 10) + 1) % 2 == 1
  {
  }

  /** Between successive ticks at least the refresh time passes. */
  predicate Spaced(events: seq<Event>, refresh: uint32) {
    forall i | 0 < i < |events| :: Elapsed(events[i].at, events[i - 1].at) >= refresh
  }

  /** The k-th request of a polling run is the k-th of the cycle, counted from where the run starts. */
  predicate FollowsCycle(events: seq<Event>, start: nat) {
    forall k | 0 <= k < |events| :: events[k].cmd == CycleAt(start + k)
  }

  lemma CycleAppend(events: seq<Event>, start: nat, e: Event)
    requires FollowsCycle(events, start) && e.cmd == CycleAt(start + |events|)
    ensures FollowsCycle(events + [e], start)
  {
    hide CycleAt;
  }

  lemma SpacedAppend(events: seq<Event>, refresh: uint32, e: Event)
    requires Spaced(events, refresh)
    requires events != [] ==> Elapsed(e.at, events[|events| - 1].at) >= refresh
    ensures Spaced(events + [e], refresh)
  {
    hide Elapsed;
  }

  lemma NextPosition(p: nat, k: nat)
    ensures ((p + k) % 21 + 1) % 21 == (p + (k + 1)) % 21
  {
  }

  function Cells(events: seq<Event>): nat {
    if events == [] then 0
    else Cells(events[..|events| - 1]) + if events[|events| - 1].cmd == CELLINFO then 1 else 0
  }

  lemma MoreCells(events: seq<Event>, e: Event)
    ensures Cells(events + [e]) == Cells(events) + if e.cmd == CELLINFO then 1 else 0
    ensures (events + [e])[..|events|] == events
  {
    assert (events + [e])[..|events|] == events;
  }

  /** The counter has not wrapped before the last request of a run. */
  predicate NoWrap(s: Sched, events: seq<Event>) {
    events != [] ==> s.cellRequests + Cells(events[..|events| - 1]) < 0x1_0000_0000
  }

  ghost predicate Polled(s: Sched, refresh: uint32, s': Sched, events: seq<Event>) {
    && Polling(s) && Polling(s') && Spaced(events, refresh)
    && s'.last == (if events == [] then s.last else events[|events| - 1].at)
    && (FollowsCycle(events, Position(s)) <==> NoWrap(s, events))
    && (s.cellRequests + Cells(events) < 0x1_0000_0000 ==>
        && NoWrap(s, events)
        && s'.cellRequests == s.cellRequests + Cells(events)
        && Position(s') == (Position(s) + |events|) % 21)
    && (s.cellRequests + Cells(events) >= 0x1_0000_0000 && NoWrap(s, events) ==>
        s'.cmd == HWINFO && (Position(s) + |events|) % 21 == 12)
  }

  lemma CycleBroken(events: seq<Event>, start: nat, e: Event)
    requires !FollowsCycle(events, start) || e.cmd != CycleAt(start + |events|)
    ensures !FollowsCycle(events + [e], start)
  {
    hide CycleAt;
    var longer := events + [e];
    assert longer[|events|] == e && forall k | 0 <= k < |events| :: longer[k] == events[k];
  }

  lemma PolledStep(s: Sched, refresh: uint32, s1: Sched, events: seq<Event>, ms: uint32)
    requires Polled(s, refresh, s1, events) && Due(s1, refresh, ms)
    ensures var (s2, event) := Step(s1, refresh, ms); Polled(s, refresh, s2, events + event)
  {
    hide Position, Cycle, FollowsCycle, Spaced, NextCommand, Elapsed, Cells;
    var (s2, event) := Step(s1, refresh, ms);
    var p, n := Position(s), |events|;
    PollingStep(s1, refresh, ms);
    NextPosition(p, n);
    MoreCells(events, event[0]);
    SpacedAppend(events, refresh, event[0]);
    HardwareIsLast();
    if s.cellRequests + Cells(events) < 0x1_0000_0000 {
      CycleAppend(events, p, event[0]);
    } else {
      CycleBroken(events, p, event[0]);
    }
  }

  lemma HardwareIsLast()
    ensures Cycle(12) == BASICINFO && Cycle(20) == HWINFO
    ensures forall s: Sched | s.cmd in {BASICINFO, CELLINFO, HWINFO} :: Position(s) == 20 <==> s.cmd == HWINFO
  {
  }

  /** Over every polling run the ticks are at least the refresh time apart, and the requests follow the cycle if and
      only if the counter of cell requests does not wrap before the last of them. */
  lemma {:induction false} PollingRun(s: Sched, refresh: uint32, times: seq<uint32>)
    requires Polling(s)
    ensures var (s', events) := Run(s, refresh, times); Polled(s, refresh, s', events)
  {
    if times == [] {
      assert Position(s) < 21;
    } else {
      hide Position, FollowsCycle, Spaced, Polling, NextCommand, Due, Polled;
      var n := |times| - 1;
      PollingRun(s, refresh, times[..n]);
      var (s1, before) := Run(s, refresh, times[..n]);
      if Due(s1, refresh, times[n]) {
        PolledStep(s, refresh, s1, before, times[n]);
      } else {
        assert before + [] == before;
      }
    }
  }

  /** The run that CONNECT starts: after the tick that takes the command, the requests follow the cycle from its
      beginning if no cell requests were made before, as long as the counter does not wrap; and no two ticks are closer
      than the refresh time. */
  lemma ConnectRun(s: Sched, refresh: uint32, at: uint32, times: seq<uint32>)
    requires s.connected && s.cmd == 1 && Due(s, refresh, at)
    ensures var (s1, first) := Step(s, refresh, at);
      var (s2, events) := Run(s1, refresh, times);
      && first == [Tick(at, 1)] && s1.cmd == 3
      && (FollowsCycle(events, 2 * (s.cellRequests % 10)) <==> NoWrap(s, events))
      && Spaced(first + events, refresh)
  {
    var (s1, first) := Step(s, refresh, at);
    PollingRun(s1, refresh, times);
    var (s2, events) := Run(s1, refresh, times);
    hide FollowsCycle, Cells, Run;
    if events != [] {
      FirstTick(s1, refresh, times);
    }
    assert forall i | 1 <= i < |first + events| :: (first + events)[i] == events[i - 1];
  }

  /** A polling client ticks exactly when the refresh time has passed since the tick before. */
  lemma TicksExactly(s: Sched, refresh: uint32, times: seq<uint32>, ms: uint32)
    requires Polling(s)
    ensures var (s', events) := Run(s, refresh, times);
      var since := if events == [] then s.last else events[|events| - 1].at;
      Run(s, refresh, times + [ms]).1
      == events + if (ms - since) % 0x1_0000_0000 >= refresh then [Tick(ms, s'.cmd)] else []
  {
    hide FollowsCycle, Spaced, NoWrap, NextCommand;
    PollingRun(s, refresh, times);
    assert (times + [ms])[..|times|] == times;
  }

  /** Nothing happens after the tick that takes DISCONNECT. */
  lemma DisconnectEnds(s: Sched, refresh: uint32, at: uint32, later: seq<uint32>)
    requires s.connected && s.cmd == 2 && Due(s, refresh, at)
    ensures var (s1, first) := Step(s, refresh, at);
      && first == [Tick(at, 2)] && !s1.connected && s1.cmd == 0
      && Run(s1, refresh, later) == (s1, [])
  {
    NotDue(Step(s, refresh, at).0, refresh, later);
  }

  /** A paused client, or one with a command it does not know, ticks without asking for anything. */
  lemma {:induction false} OthersRepeat(s: Sched, refresh: uint32, times: seq<uint32>)
    requires s.connected && s.cmd !in {1, 2, 3, 4, 5, 6, 0x2d, 0xe1}
    ensures var (s', events) := Run(s, refresh, times);
      && s' == s.(last := s'.last)
      && forall i | 0 <= i < |events| :: events[i].cmd == s.cmd
  {
    if times == [] {
    } else {
      OthersRepeat(s, refresh, times[..|times| - 1]);
      hide Due;
    }
  }

  /** The first tick of a run comes at least the refresh time after the one before the run. */
  lemma {:induction false} FirstTick(s: Sched, refresh: uint32, times: seq<uint32>)
    requires Run(s, refresh, times).1 != []
    ensures Elapsed(Run(s, refresh, times).1[0].at, s.last) >= refresh
  {
    var n := |times| - 1;
    var (s1, before) := Run(s, refresh, times[..n]);
    if before != [] {
      FirstTick(s, refresh, times[..n]);
    } else {
      Idle(s, refresh, times[..n]);
    }
  }

  lemma {:induction false} Idle(s: Sched, refresh: uint32, times: seq<uint32>)
    requires Run(s, refresh, times).1 == []
    ensures Run(s, refresh, times).0 == s
  {
    if times == [] {
    } else {
      Idle(s, refresh, times[..|times| - 1]);
    }
  }

  /** A command put in place from outside runs at the next due tick and only then: no tick before it is due,
      it leaves the count alone, and polling goes on with a basic request at the same place
      of the cycle (a hardware request that was pending is lost). */
  lemma CommandRunsOnce(s: Sched, refresh: uint32, idle: seq<uint32>, at: uint32, later: seq<uint32>)
    requires s.connected && s.cmd in {0xe1, 0x2d, 6}
    requires forall i | 0 <= i < |idle| :: !Due(s, refresh, idle[i])
    requires Due(s, refresh, at)
    ensures Run(s, refresh, idle) == (s, [])
    ensures var (s1, events) := Step(s, refresh, at);
      var (s2, after) := Run(s1, refresh, later);
      && events == [Tick(at, s.cmd)]
      && (FollowsCycle(after, 2 * (s.cellRequests % 10)) <==> NoWrap(s, after))
  {
    NotDue(s, refresh, idle);
    var (s1, events) := Step(s, refresh, at);
    hide FollowsCycle, Spaced, Run, Elapsed, Cells;
    PollingRun(s1, refresh, later);
  }

  lemma {:induction false} NotDue(s: Sched, refresh: uint32, times: seq<uint32>)
    requires forall i | 0 <= i < |times| :: !Due(s, refresh, times[i])
    ensures Run(s, refresh, times) == (s, [])
  {
    if times == [] {
    } else {
      NotDue(s, refresh, times[..|times| - 1]);
      var (s1, before) := Run(s, refresh, times[..|times| - 1]);
      assert Step(s1, refresh, times[|times| - 1]) == (s, []);
      assert before + [] == [];
    }
  }

  // ----- the client -----

  const READ: byte := 0xa5

  /** The request packets for the three polled commands; the checksum is that of command and length. */
  function RequestPacket(cmd: byte): seq<byte>
    requires cmd in {BASICINFO, CELLINFO, HWINFO}
  {
    var low := if cmd == BASICINFO then 0xfd else if cmd == CELLINFO then 0xfc else 0xfb;
    [JbdFrames.STX, READ, cmd, 0x00, 0xff, low, JbdFrames.ETX]
  }

  lemma RequestPackets()
    ensures RequestPacket(3) == [0xdd, 0xa5, 0x03, 0x00, 0xff, 0xfd, 0x77]
    ensures RequestPacket(4) == [0xdd, 0xa5, 0x04, 0x00, 0xff, 0xfc, 0x77]
    ensures RequestPacket(5) == [0xdd, 0xa5, 0x05, 0x00, 0xff, 0xfb, 0x77]
  {
  }

  /** Command, length and low checksum byte add up to zero, as in the frames that come back. */
  lemma RequestChecksum(cmd: byte)
    requires cmd in {BASICINFO, CELLINFO, HWINFO}
    ensures (Sum(RequestPacket(cmd)[2..4]) + RequestPacket(cmd)[5]) % 256 == 0
  {
    var covered := RequestPacket(cmd)[2..4];
    assert covered == [cmd, 0] && covered[..1] == [cmd] && covered[..1][..0] == [];
    assert Sum(covered[..1]) == Sum(covered[..1][..0]) + cmd;
  }

  class JbdBms {
    var connected: bool
    var bmsCmd: byte
    var requestCnt: uint32
    var lastRequested: uint32
    var refresh: uint32
    var newPacketReceived: bool
    var dataErr: nat
    var dataOk: nat
    var mosfets: bv8
    var balance: bv8
    var reportedMosFet: bv8        // from the last basic packet
    var reportedBalanceLow: bv16
    ghost var ticks: seq<Event>
    var sent: seq<seq<byte>>       // the packets written to the battery

    ghost function State(): Sched
      reads this
    {
      Sched(connected, bmsCmd, requestCnt, lastRequested)
    }

    /** A notification was collected; `ok` says that it completed a good frame. */
    method Notified(ok: bool)
      modifies `newPacketReceived, `dataErr
      ensures newPacketReceived == ok && dataErr == if ok then 0 else old(dataErr) + 1
    {
      newPacketReceived := ok;
      dataErr := if ok then 0 else dataErr + 1;
    }

    method Send(packet: seq<byte>)
      modifies `sent, `newPacketReceived
      ensures sent == old(sent) + [packet] && !newPacketReceived
    {
      sent := sent + [packet];
      newPacketReceived := false;
    }

    /** `process()` with no device to pair. */
    method Process(ms: uint32)
      modifies this
      ensures refresh == old(refresh) && mosfets == old(mosfets) && balance == old(balance)
      ensures (State(), ticks) == (Step(old(State()), refresh, ms).0, old(ticks) + Step(old(State()), refresh, ms).1)
      ensures var due := old(connected) && (ms - old(lastRequested)) % 0x1_0000_0000 >= refresh;
        && |ticks| == |old(ticks)| + (if due then 1 else 0)
        && sent == old(sent)
             + (if due && old(bmsCmd) == 3 then [[0xdd, 0xa5, 0x03, 0x00, 0xff, 0xfd, 0x77]]
                else if due && old(bmsCmd) == 4 then [[0xdd, 0xa5, 0x04, 0x00, 0xff, 0xfc, 0x77]]
                else if due && old(bmsCmd) == 5 then [[0xdd, 0xa5, 0x05, 0x00, 0xff, 0xfb, 0x77]]
                else [])
        && (due && old(bmsCmd) != 2 ==>
             dataOk == if old(newPacketReceived) && old(dataErr) == 0 then old(dataOk) + 1 else 0)
    {
      if connected {
        if Elapsed(ms, lastRequested) >= refresh {
          lastRequested := ms;
          ticks := ticks + [Tick(ms, bmsCmd)];
          if newPacketReceived && dataErr == 0 {
            dataOk := dataOk + 1;
          } else {
            dataOk := 0;
          }
          if bmsCmd == BASICINFO {
            Send(RequestPacket(BASICINFO));
            bmsCmd := CELLINFO;
          } else if bmsCmd == CELLINFO {
            Send(RequestPacket(CELLINFO));
            requestCnt := (requestCnt + 1) % 0x1_0000_0000;
            bmsCmd := if requestCnt % 10 == 0 then HWINFO else BASICINFO;
          } else if bmsCmd == HWINFO {
            Send(RequestPacket(HWINFO));
            bmsCmd := BASICINFO;
          } else if bmsCmd in {BALANCEINFO, BALANCE, MOSFET} {
            // the packet is built, but the call that would send it is commented out
            bmsCmd := BASICINFO;
          } else if bmsCmd == DISCONNECT {
            connected, dataOk := false, 0;
            bmsCmd := PAUSE;
          } else if bmsCmd == CONNECT {
            bmsCmd := BASICINFO;
          }
        }
      }
      assert old(ticks) + [] == old(ticks);
    }

    method SetBMS(on: bool)
      modifies `bmsCmd
      ensures State() == old(State()).(cmd := if on then 1 else 0)
    {
      bmsCmd := if on then CONNECT else PAUSE;
    }

    /** Sets or clears bit 0 of the last reported state, and asks for a MOSFET command. */
    method SetCharge(on: bool)
      modifies `mosfets, `bmsCmd
      ensures State() == old(State()).(cmd := 0xe1)
      ensures mosfets & 0xfe == reportedMosFet & 0xfe && (mosfets & 1 == 1 <==> on)
    {
      mosfets := if on then reportedMosFet | 1 else reportedMosFet & 0xfe;
      bmsCmd := MOSFET;
    }

    method SetDischarge(on: bool)
      modifies `mosfets, `bmsCmd
      ensures State() == old(State()).(cmd := 0xe1)
      ensures mosfets & 0xfd == reportedMosFet & 0xfd && (mosfets & 2 == 2 <==> on)
    {
      mosfets := if on then reportedMosFet | 2 else reportedMosFet & 0xfd;
      bmsCmd := MOSFET;
    }

    method SetBalanceEnable(on: bool)
      modifies `balance, `bmsCmd
      ensures State() == old(State()).(cmd := 0x2d)
      ensures balance & 0xfb == LowByte(reportedBalanceLow) & 0xfb && (balance & 4 == 4 <==> on)
    {
      balance := if on then LowByte(reportedBalanceLow | 4) else LowByte(reportedBalanceLow & 0xfffb);
      bmsCmd := BALANCE;
    }

    method SetChargeBalance(on: bool)
      modifies `balance, `bmsCmd
      ensures State() == old(State()).(cmd := 0x2d)
      ensures balance & 0xfd == LowByte(reportedBalanceLow) & 0xfd && (balance & 2 == 2 <==> on)
    {
      balance := if on then LowByte(reportedBalanceLow | 2) else LowByte(reportedBalanceLow & 0xfffd);
      bmsCmd := BALANCE;
    }
  }

  /** Truncation of a 16-bit code to a byte. */
  function LowByte(code: bv16): bv8 {
    (code & 0x00ff) as bv8
  }
}
