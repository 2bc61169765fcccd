/** The connection state of a BLE client: a blocking `connect()` cut into its phases, interleaved in any order
    with the events of the host stack. */
module ClientConnection {
  import opened Bytes

  const BLE_HS_CONN_HANDLE_NONE: uint16 := 0xffff

  // ----- the state and its steps -----

  /** Where the application thread is inside `connect()`. */
  datatype Phase =
    | Idle        // not inside
    | Armed       // the task data is set, the stack has not taken the request yet
    | Waiting     // blocked on the task notification
    | TimedOut    // the wait gave up, the task data is still set
    | Resumed     // notified

  /** What an observer sees: attempts, wake-ups (with the result and the handle at that moment), callbacks. */
  datatype Event = Started | Woken(rc: int, handle: uint16) | OnConnect | OnDisconnect

  datatype State = State(
    connId: uint16,
    established: bool,
    pending: bool,        // the task data pointer is set
    taskRc: int,
    notified: bool,       // the task notification
    phase: Phase,
    log: seq<Event>)
  {
    predicate Connected() {
      connId != BLE_HS_CONN_HANDLE_NONE
    }
  }

  const START := State(BLE_HS_CONN_HANDLE_NONE, false, false, 0, false, Idle, [])

  datatype Action =
    // the application thread
    | Begin                              // entry checks; sets the task data
    | GapConnect(rc: int)                // the stack took or refused the request
    | Take                               // the wait ends: notified, or timed out
    | CleanUp                            // after a time-out
    | Finish                             // the rest of connect()
    // host events
    | ConnectEvent(handle: uint16, status: int, mtuRc: int)
    | DisconnectEvent(handle: uint16, hostReset: bool, reason: int)
    | MtuEvent(handle: uint16)
    | EncChangeEvent(handle: uint16, status: int)

  /** Host events carry real handles, and a disconnection has a reason. */
  predicate Sane(a: Action) {
    match a
    case ConnectEvent(handle, _, _) => handle != BLE_HS_CONN_HANDLE_NONE
    case DisconnectEvent(handle, _, reason) => handle != BLE_HS_CONN_HANDLE_NONE && reason != 0
    case MtuEvent(handle) => handle != BLE_HS_CONN_HANDLE_NONE
    case EncChangeEvent(handle, _) => handle != BLE_HS_CONN_HANDLE_NONE
    case _ => true
  }

  /** The end of the event handler: hands the result to the waiting task, if there is one. */
  function Wake(s: State, rc: int): State {
    if !s.pending then s
    else s.(taskRc := rc, notified := true, pending := false, log := s.log + [Woken(rc, s.connId)])
  }

  /** `connect()` refuses to start. */
  predicate Busy(s: State) {
    s.Connected() || s.established || s.pending
  }

  function Step(s: State, a: Action): State {
    match a
    case Begin =>
      if s.phase != Idle || Busy(s) then s
      else s.(pending := true, taskRc := 0, phase := Armed, log := s.log + [Started])
    case GapConnect(rc) =>
      if s.phase != Armed then s
      else if rc != 0 then s.(pending := false, phase := Idle)
      else s.(notified := false, phase := Waiting)
    case Take =>
      if s.phase != Waiting then s
      else if s.notified then s.(notified := false, phase := Resumed)
      else s.(phase := TimedOut)
    case CleanUp =>
      if s.phase != TimedOut then s else s.(pending := false, phase := Idle)
    case Finish =>
      if s.phase != Resumed then s
      else if s.taskRc != 0 then s.(phase := Idle)
      else s.(established := true, phase := Idle, log := s.log + [OnConnect])
    case ConnectEvent(handle, status, mtuRc) =>
      if s.Connected() || !s.pending then s
      else if status != 0 then Wake(s.(connId := BLE_HS_CONN_HANDLE_NONE), status)
      else if mtuRc != 0 then Wake(s.(connId := handle), mtuRc)
      else s.(connId := handle)
    case DisconnectEvent(handle, hostReset, reason) =>
      if !hostReset && s.connId != handle then s
      else
        var gone := s.(connId := BLE_HS_CONN_HANDLE_NONE);
        Wake(if s.established then gone.(established := false, log := s.log + [OnDisconnect]) else gone, reason)
    case MtuEvent(handle) => if s.connId != handle then s else Wake(s, 0)
    case EncChangeEvent(handle, status) => if s.connId != handle then s else Wake(s, status)
  }

  function Run(actions: seq<Action>): State {
    if actions == [] then START else Step(Run(actions[..|actions| - 1]), actions[|actions| - 1])
  }

  // ----- what every log looks like -----

  /** The last attempt or wake-up. */
  function LastMark(log: seq<Event>): Option<Event> {
    if log == [] then None
    else
      var last := log[|log| - 1];
      if last.Started? || last.Woken? then Some(last) else LastMark(log[..|log| - 1])
  }

  function Callbacks(log: seq<Event>): seq<Event> {
    if log == [] then []
    else
      var last := log[|log| - 1];
      Callbacks(log[..|log| - 1]) + if last.OnConnect? || last.OnDisconnect? then [last] else []
  }

  /** Callbacks alternate, starting with onConnect; an attempt is woken at most once; and onConnect comes after its
      attempt was woken with success while the client had a handle. */
  predicate Legal(log: seq<Event>) {
    log == [] ||
    var before, last := log[..|log| - 1], log[|log| - 1];
    && Legal(before)
    && match last
       case Started => true
       case Woken(_, _) => LastMark(before) == Some(Started)
       case OnConnect =>
         && |Callbacks(before)| % 2 == 0
         && LastMark(before).Some? && LastMark(before).value.Woken?
         && LastMark(before).value.rc == 0 && LastMark(before).value.handle != BLE_HS_CONN_HANDLE_NONE
       case OnDisconnect => |Callbacks(before)| % 2 == 1
  }

  ghost predicate Inv(s: State) {
    && Legal(s.log)
    && (s.established <==> |Callbacks(s.log)| % 2 == 1)
    && (s.phase != Idle ==> !s.established)
    && (s.pending ==> s.phase in {Armed, Waiting, TimedOut} && LastMark(s.log) == Some(Started))
    && (s.phase in {Waiting, TimedOut} && s.notified ==> Delivered(s))
    && (s.phase == Resumed ==> Delivered(s))
  }

  /** The current attempt was woken with the result in the task data. */
  ghost predicate Delivered(s: State) {
    && !s.pending && LastMark(s.log).Some? && LastMark(s.log).value.Woken?
    && s.taskRc == LastMark(s.log).value.rc
    && (s.taskRc == 0 ==> LastMark(s.log).value.handle != BLE_HS_CONN_HANDLE_NONE)
  }

  lemma Appended(log: seq<Event>, e: Event)
    ensures (log + [e])[..|log|] == log && (log + [e])[|log|] == e
    ensures LastMark(log + [e]) == if e.Started? || e.Woken? then Some(e) else LastMark(log)
    ensures Callbacks(log + [e]) == Callbacks(log) + if e.OnConnect? || e.OnDisconnect? then [e] else []
  {
    assert (log + [e])[..|log|] == log;
  }

  /** When an attempt may start, and when onConnect may come. */
  lemma LegalNext(log: seq<Event>)
    requires Legal(log)
    ensures Legal(log + [Started])
    ensures Legal(log + [OnConnect]) <==>
      && |Callbacks(log)| % 2 == 0
      && LastMark(log).Some? && LastMark(log).value.Woken?
      && LastMark(log).value.rc == 0 && LastMark(log).value.handle != BLE_HS_CONN_HANDLE_NONE
  {
    assert (log + [Started])[..|log|] == log && (log + [OnConnect])[..|log|] == log;
  }

  lemma WakeKeeps(s: State, rc: int)
    requires Inv(s) && (rc == 0 && s.pending ==> s.Connected())
    ensures Inv(Wake(s, rc))
  {
    if s.pending {
      Appended(s.log, Woken(rc, s.connId));
    }
  }

  lemma ApplicationKeeps(s: State, a: Action)
    requires Inv(s) && (a.Begin? || a.GapConnect? || a.Take? || a.CleanUp? || a.Finish?)
    ensures Inv(Step(s, a))
  {
    hide LastMark, Callbacks, Legal;
    Appended(s.log, Started);
    Appended(s.log, OnConnect);
    LegalNext(s.log);
  }

  lemma ConnectEventKeeps(s: State, handle: uint16, status: int, mtuRc: int)
    requires Inv(s) && Sane(ConnectEvent(handle, status, mtuRc))
    ensures Inv(Step(s, ConnectEvent(handle, status, mtuRc)))
  {
    hide Legal, LastMark, Callbacks;
    if s.Connected() || !s.pending {
    } else if status != 0 {
      WakeKeeps(s.(connId := BLE_HS_CONN_HANDLE_NONE), status);
    } else if mtuRc != 0 {
      WakeKeeps(s.(connId := handle), mtuRc);
    }
  }

  lemma DisconnectEventKeeps(s: State, handle: uint16, hostReset: bool, reason: int)
    requires Inv(s) && Sane(DisconnectEvent(handle, hostReset, reason))
    ensures Inv(Step(s, DisconnectEvent(handle, hostReset, reason)))
  {
    var gone := s.(connId := BLE_HS_CONN_HANDLE_NONE);
    Appended(s.log, OnDisconnect);
    assert s.established ==> Legal(s.log + [OnDisconnect]);
    hide Legal, LastMark, Callbacks;
    WakeKeeps(if s.established then gone.(established := false, log := s.log + [OnDisconnect]) else gone, reason);
  }

  lemma StepKeeps(s: State, a: Action)
    requires Inv(s) && Sane(a)
    ensures Inv(Step(s, a))
  {
    match a
    case ConnectEvent(handle, status, mtuRc) => ConnectEventKeeps(s, handle, status, mtuRc);
    case DisconnectEvent(handle, hostReset, reason) => DisconnectEventKeeps(s, handle, hostReset, reason);
    case MtuEvent(handle) =>
      hide Inv;
      if s.connId == handle {
        MatchingWake(s, 0);
      }
    case EncChangeEvent(handle, status) =>
      hide Inv;
      if s.connId == handle {
        MatchingWake(s, status);
      }
    case _ => ApplicationKeeps(s, a);
  }

  lemma MatchingWake(s: State, rc: int)
    requires Inv(s) && s.Connected()
    ensures Inv(Wake(s, rc))
  {
    WakeKeeps(s, rc);
  }

  ghost predicate AllSane(actions: seq<Action>) {
    forall i | 0 <= i < |actions| :: Sane(actions[i])
  }

  lemma {:induction false} EveryRunKeeps(actions: seq<Action>)
    requires AllSane(actions)
    ensures Inv(Run(actions))
  {
    if actions == [] {
    } else {
      var n := |actions| - 1;
      EveryRunKeeps(actions[..n]);
      assert Sane(actions[n]);
      StepKeeps(Run(actions[..n]), actions[n]);
    }
  }

  /** What one phase or event makes an observer see, for every state. */
  function Seen(s: State, a: Action): seq<Event> {
    match a
    case Begin => if s.phase == Idle && s.connId == 0xffff && !s.established && !s.pending then [Started] else []
    case Finish => if s.phase == Resumed && s.taskRc == 0 then [OnConnect] else []
    case ConnectEvent(handle, status, mtuRc) =>
      if s.connId != 0xffff || !s.pending then []
      else if status != 0 then [Woken(status, 0xffff)]
      else if mtuRc != 0 then [Woken(mtuRc, handle)]
      else []
    case DisconnectEvent(handle, hostReset, reason) =>
      if !hostReset && s.connId != handle then []
      else (if s.established then [OnDisconnect] else []) + if s.pending then [Woken(reason, 0xffff)] else []
    case MtuEvent(handle) => if s.connId == handle && s.pending then [Woken(0, handle)] else []
    case EncChangeEvent(handle, status) => if s.connId == handle && s.pending then [Woken(status, handle)] else []
    case _ => []
  }

  lemma SeenExactly(s: State, a: Action)
    ensures Step(s, a).log == s.log + Seen(s, a)
    ensures Step(s, a).connId ==
      match a
      case ConnectEvent(handle, status, _) =>
        if s.connId == 0xffff && s.pending && status == 0 then handle else s.connId
      case DisconnectEvent(handle, hostReset, _) => if hostReset || s.connId == handle then 0xffff else s.connId
      case _ => s.connId
  {
    assert s.log + [] == s.log;
  }

  /** The handle changes only to or from none. */
  lemma HandleNeverReplaced(s: State, a: Action)
    ensures var t := Step(s, a); t.connId == s.connId || !s.Connected() || !t.Connected()
  {
  }

  // ----- what the log says -----

  lemma {:induction false} LegalAlternates(log: seq<Event>)
    requires Legal(log)
    ensures forall i | 0 <= i < |Callbacks(log)| :: Callbacks(log)[i] == if i % 2 == 0 then OnConnect else OnDisconnect
  {
    if log == [] {
    } else {
      LegalAlternates(log[..|log| - 1]);
    }
  }

  /** Before every wake-up comes the start of its attempt, with no other wake-up in between. */
  ghost predicate WokenOnce(log: seq<Event>) {
    forall j | 0 <= j < |log| && log[j].Woken? ::
      exists i | 0 <= i < j :: log[i].Started? && forall k | i < k < j :: !log[k].Woken?
  }

  lemma {:induction false} MarkPosition(log: seq<Event>)
    requires LastMark(log).Some?
    ensures exists i | 0 <= i < |log| ::
      log[i] == LastMark(log).value && forall k | i < k < |log| :: !log[k].Woken? && !log[k].Started?
  {
    var n := |log| - 1;
    if log[n].Started? || log[n].Woken? {
      assert log[n] == LastMark(log).value;
    } else {
      MarkPosition(log[..n]);
      var i :| 0 <= i < n && log[..n][i] == LastMark(log).value
        && forall k | i < k < n :: !log[..n][k].Woken? && !log[..n][k].Started?;
      assert forall k | i < k < n :: log[..n][k] == log[k];
      assert log[i] == LastMark(log).value;
    }
  }

  lemma {:induction false} LegalWokenOnce(log: seq<Event>)
    requires Legal(log)
    ensures WokenOnce(log)
  {
    if log == [] {
    } else {
      var before, n := log[..|log| - 1], |log| - 1;
      LegalWokenOnce(before);
      forall j | 0 <= j < |log| && log[j].Woken?
        ensures exists i | 0 <= i < j :: log[i].Started? && forall k | i < k < j :: !log[k].Woken?
      {
        if j < n {
          assert before[j].Woken?;
          var i :| 0 <= i < j && before[i].Started? && forall k | i < k < j :: !before[k].Woken?;
          assert log[i].Started? && forall k | i < k < j :: log[k] == before[k];
        } else {
          MarkPosition(before);
          var i :| 0 <= i < n && before[i] == Started
            && forall k | i < k < n :: !before[k].Woken? && !before[k].Started?;
          assert log[i].Started? && forall k | i < k < j :: log[k] == before[k];
        }
      }
    }
  }

  /** In every interleaving of the phases of connect() with host events: the callbacks alternate, starting with
      onConnect; the client counts itself established exactly between the two; and the event handler wakes an
      attempt at most once. */
  lemma EveryInterleaving(actions: seq<Action>)
    requires AllSane(actions)
    ensures var s := Run(actions);
      var calls := Callbacks(s.log);
      && (forall i | 0 <= i < |calls| :: calls[i] == if i % 2 == 0 then OnConnect else OnDisconnect)
      && (s.established <==> |calls| % 2 == 1)
      && WokenOnce(s.log)
  {
    EveryRunKeeps(actions);
    LegalAlternates(Run(actions).log);
    LegalWokenOnce(Run(actions).log);
  }

  // ----- whole attempts -----

  /** `connect()` may start. */
  predicate Free(s: State) {
    s.phase == Idle && s.connId == 0xffff && !s.established && !s.pending
  }

  /** An attempt that nothing disturbs succeeds, with the handle of the connection. */
  lemma AttemptSucceeds(s: State, handle: uint16)
    requires Free(s) && handle != 0xffff
    ensures var armed := Step(Step(s, Begin), GapConnect(0));
      var woken := Step(Step(armed, ConnectEvent(handle, 0, 0)), MtuEvent(handle));
      Step(Step(woken, Take), Finish)
      == State(handle, true, false, 0, false, Idle, s.log + [Started, Woken(0, handle), OnConnect])
  {
    assert s.log + [Started] + [Woken(0, handle)] + [OnConnect] == s.log + [Started, Woken(0, handle), OnConnect];
  }

  /** An attempt that the stack refuses, that fails, or that times out leaves the client free for another. */
  lemma AttemptFails(s: State, rc: int, handle: uint16, status: int, mtuRc: int)
    requires Free(s) && status != 0
    ensures rc != 0 ==>
      Step(Step(s, Begin), GapConnect(rc)) == s.(taskRc := 0, log := s.log + [Started])
    ensures var armed := Step(Step(s, Begin), GapConnect(0));
      && Step(Step(armed, Take), CleanUp) == s.(taskRc := 0, notified := false, log := s.log + [Started])
      && Step(Step(Step(armed, ConnectEvent(handle, status, mtuRc)), Take), Finish)
         == s.(taskRc := status, notified := false, log := s.log + [Started, Woken(status, 0xffff)])
  {
    assert s.log + [Started] + [Woken(status, 0xffff)] == s.log + [Started, Woken(status, 0xffff)];
  }

  // ----- a disconnection between the wake-up and onConnect -----

  /** Established without a connection. */
  predicate Stuck(s: State) {
    s.established && !s.Connected()
  }

  lemma ExtendRun(actions: seq<Action>, a: Action) returns (s: State)
    ensures s == Run(actions + [a]) == Step(Run(actions), a)
  {
    s := Run(actions + [a]);
    assert (actions + [a])[..|actions|] == actions;
  }

  /** An attempt that was woken with success, the thread not resumed yet. */
  const WOKEN: seq<Action> := [Begin] + [GapConnect(0)] + [ConnectEvent(1, 0, 0)] + [MtuEvent(1)]

  lemma WokenIsReachable()
    ensures Run(WOKEN) == State(1, false, false, 0, true, Waiting, [Started, Woken(0, 1)])
  {
    var s1 := ExtendRun([], Begin);
    assert [] + [Begin] == [Begin];
    var s2 := ExtendRun([Begin], GapConnect(0));
    var s3 := ExtendRun([Begin] + [GapConnect(0)], ConnectEvent(1, 0, 0));
    var s4 := ExtendRun([Begin] + [GapConnect(0)] + [ConnectEvent(1, 0, 0)], MtuEvent(1));
  }

  /** This does happen: the link is lost after the MTU event and before the thread runs on. */
  lemma StuckIsReachable()
    ensures var actions := WOKEN + [Take] + [DisconnectEvent(1, false, 8)] + [Finish];
      AllSane(actions) && Stuck(Run(actions))
  {
    WokenIsReachable();
    var s5 := ExtendRun(WOKEN, Take);
    var s6 := ExtendRun(WOKEN + [Take], DisconnectEvent(1, false, 8));
    var s7 := ExtendRun(WOKEN + [Take] + [DisconnectEvent(1, false, 8)], Finish);
  }

  /** From then on nothing changes the client, and connect() refuses, until a host reset is reported. */
  lemma StuckUntilHostReset(s: State, a: Action)
    requires Inv(s) && Stuck(s) && Sane(a)
    ensures Step(s, a) == s <==> !(a.DisconnectEvent? && a.hostReset)
    ensures Busy(s)
  {
  }

  /** Of all phases and events, only the end of connect() can leave the client established without a connection, and
      it does if and only if the handle was lost after a wake-up with success. */
  lemma StuckExactly(s: State, a: Action)
    requires Inv(s) && Sane(a) && !Stuck(s)
    ensures Stuck(Step(s, a)) <==> a == Finish && s.phase == Resumed && s.taskRc == 0 && !s.Connected()
  {
  }

  // ----- the class -----

  /** The result slot that `connect()` puts on its stack. */
  class TaskData {
    var rc: int

    constructor ()
      ensures rc == 0
    {
      rc := 0;
    }
  }

  class NimBLEClient {
    var connId: uint16
    var connEstablished: bool
    var pTaskData: TaskData?
    // the thread inside connect()
    var taskData: TaskData
    var notified: bool
    var phase: Phase
    ghost var log: seq<Event>

    constructor ()
      ensures Valid() && AsState() == START
    {
      connId, connEstablished, pTaskData := BLE_HS_CONN_HANDLE_NONE, false, null;
      taskData := new TaskData();
      notified, phase, log := false, Idle, [];
    }

    ghost predicate Valid()
      reads this
    {
      pTaskData != null ==> pTaskData == taskData
    }

    ghost function AsState(): State
      reads this, taskData
    {
      State(connId, connEstablished, pTaskData != null, taskData.rc, notified, phase, log)
    }

    predicate IsConnected()
      reads this
    {
      connId != BLE_HS_CONN_HANDLE_NONE
    }

    /** `connect()` up to setting the task data, for a valid address with no other connection. */
    method ConnectBegin() returns (started: bool)
      requires Valid() && phase == Idle
      modifies this
      ensures Valid() && AsState() == Step(old(AsState()), Begin)
      ensures started == !Busy(old(AsState()))
    {
      if IsConnected() || connEstablished || pTaskData != null {
        return false;
      }
      taskData := new TaskData();
      pTaskData := taskData;
      phase, started := Armed, true;
      log := log + [Started];
    }

    /** The stack's answer to the connection request; before blocking, an old notification is cleared. */
    method ConnectRequest(rc: int)
      requires Valid() && phase == Armed
      modifies this
      ensures Valid() && AsState() == Step(old(AsState()), GapConnect(rc))
    {
      if rc != 0 {
        pTaskData := null;
        phase := Idle;
      } else {
        notified := false;
        phase := Waiting;
      }
    }

    method ConnectWait()
      requires Valid() && phase == Waiting
      modifies this
      ensures Valid() && AsState() == Step(old(AsState()), Take)
    {
      if !notified {
        phase := TimedOut;
      } else {
        notified := false;
        phase := Resumed;
      }
    }

    method ConnectTimedOut()
      requires Valid() && phase == TimedOut
      modifies this
      ensures Valid() && AsState() == Step(old(AsState()), CleanUp)
    {
      pTaskData := null;
      phase := Idle;
    }

    method ConnectFinish() returns (ok: bool)
      requires Valid() && phase == Resumed
      modifies this
      ensures Valid() && AsState() == Step(old(AsState()), Finish)
      ensures ok == (old(taskData.rc) == 0 && IsConnected())
    {
      phase := Idle;
      if taskData.rc != 0 {
        return false;
      }
      connEstablished := true;
      log := log + [OnConnect];
      ok := IsConnected();
    }

    /** The connection events of the handler. */
    method HandleGapEvent(event: Action)
      requires Valid() && Sane(event)
      requires event.ConnectEvent? || event.DisconnectEvent? || event.MtuEvent? || event.EncChangeEvent?
      modifies this, taskData
      ensures Valid() && AsState() == Step(old(AsState()), event)
    {
      var rc;
      match event {
        case DisconnectEvent(handle, hostReset, reason) =>
          rc := reason;
          if !hostReset && connId != handle {
            return;
          }
          connId := BLE_HS_CONN_HANDLE_NONE;
          if connEstablished {
            connEstablished := false;
            log := log + [OnDisconnect];
          }
        case ConnectEvent(handle, status, mtuRc) =>
          if IsConnected() || pTaskData == null {
            return;
          }
          rc := status;
          if rc == 0 {
            connId := handle;
            rc := mtuRc;
            if rc == 0 {
              return;
            }
          } else {
            connId := BLE_HS_CONN_HANDLE_NONE;
          }
        case EncChangeEvent(handle, status) =>
          if connId != handle {
            return;
          }
          rc := status;
        case MtuEvent(handle) =>
          if connId != handle {
            return;
          }
          rc := 0;
      }
      if pTaskData != null {
        pTaskData.rc := rc;
        notified := true;
        log := log + [Woken(rc, connId)];
        pTaskData := null;
      }
    }
  }
}
