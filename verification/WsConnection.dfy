/**
 * The life of a server connection: opening, reading, closing, failing, the idle timer and the close handshake, as the
 * handlers interleave.
 */
module WsConnection {
  import opened Bytes
  import opened WsFraming
  import opened Wrappers

  function Ascii(text: string): (r: seq<Byte>)
    ensures |r| == |text| && forall i | 0 <= i < |text| && text[i] < 128 as char :: r[i] == text[i] as int
  {
    seq(|text|, i requires 0 <= i < |text| => (text[i] as int) % 256)
  }

  const NOT_MASKED := Ascii("message from client not masked")
  const IDLE_TIMEOUT := Ascii("idle timeout")

  /** Absent: no timer object. Waiting: a wait is pending. Expired: its handler is queued. Idle: no wait. */
  datatype Timer = Absent | Waiting(deadline: int) | Expired | Idle

  /** What the application is told. */
  datatype Callback =
    | OnOpen
    | OnMessage(op: Byte, payload: seq<Byte>)
    | OnClose(status: int, reason: seq<Byte>)
    | OnError

  /** A frame handed to the send queue, and whether `send_close` made it. */
  datatype SentFrame = SentFrame(op: Byte, payload: seq<Byte>, bySendClose: bool)

  datatype Stage = Handshaking | Open | Over

  /** `timeout` and `listening` are configuration; `armed` is when the pending or last wait was started. */
  datatype State = State(
    timeout: nat,
    listening: bool,
    now: int,
    stage: Stage,
    outstanding: nat,
    member: bool,
    timer: Timer,
    armed: int,
    idleRuns: nat,
    closed: bool,
    log: seq<Callback>,
    sent: seq<SentFrame>,
    fault: bool)

  /** How an outstanding read ends: only part of a frame, a frame without mask, a whole frame, or an error. */
  datatype Outcome = More | Unmasked | Whole(op: Byte, payload: seq<Byte>) | Failed

  datatype AppAction = AppSend(op: Byte, payload: seq<Byte>) | AppClose(status: int, reason: seq<Byte>)

  /** `acts` is what the application does inside the callback the event leads to. */
  datatype Event =
    | HandshakeWritten(ok: bool, acts: seq<AppAction>)
    | ReadDone(outcome: Outcome, acts: seq<AppAction>)
    | Tick(dt: nat)
    | TimerDue
    | TimerRuns
    | App(action: AppAction)

  function Initial(timeout: nat, listening: bool): State {
    State(timeout, listening, 0, Handshaking, 0, false, Absent, 0, 0, false, [], [], false)
  }

  // ---- the idle timer ----

  function TimerInit(s: State): State {
    if s.timeout > 0 then s.(timer := Waiting(s.now + s.timeout), armed := s.now) else s
  }

  /** `expires_from_now` reports how many waits it cancelled; only then is a new one started. */
  function TimerReset(s: State): State {
    if s.timeout == 0 then s
    else match s.timer
      case Absent => s.(fault := true)
      case Waiting(_) => s.(timer := Waiting(s.now + s.timeout), armed := s.now)
      case _ => s
  }

  function TimerCancel(s: State): State {
    if s.timeout == 0 then s
    else match s.timer
      case Absent => s.(fault := true)
      case Waiting(_) => s.(timer := Idle)
      case _ => s
  }

  // ---- sending ----

  function Send(s: State, op: Byte, payload: seq<Byte>, bySendClose: bool): State {
    var s1 := if op != CLOSE_FRAME then TimerReset(s) else s;
    s1.(sent := s1.sent + [SentFrame(op, payload, bySendClose)])
  }

  function SendClose(s: State, status: int, reason: seq<Byte>): State {
    if s.closed then s else Send(s.(closed := true), CLOSE_FRAME, ClosePayload(status, reason), true)
  }

  function Act(s: State, a: AppAction): State {
    match a
    case AppSend(op, payload) => Send(s, op, payload, false)
    case AppClose(status, reason) => SendClose(s, status, reason)
  }

  function Acts(s: State, acts: seq<AppAction>): State
    decreases |acts|
  {
    if acts == [] then s else Acts(Act(s, acts[0]), acts[1..])
  }

  // ---- the handlers ----

  function ReadMessage(s: State): State {
    s.(outstanding := s.outstanding + 1)
  }

  function ConnectionOpen(s: State, acts: seq<AppAction>): State {
    var s1 := TimerInit(s);
    Acts(s1.(stage := Open, member := true, log := s.log + [OnOpen]), acts)
  }

  function ConnectionClose(s: State, status: int, reason: seq<Byte>, acts: seq<AppAction>): State {
    var s1 := TimerCancel(s);
    Acts(s1.(stage := Over, member := false, log := s.log + [OnClose(status, reason)]), acts)
  }

  function ConnectionError(s: State, acts: seq<AppAction>): State {
    var s1 := TimerCancel(s);
    Acts(s1.(stage := Over, member := false, log := s.log + [OnError]), acts)
  }

  function OnFrame(s: State, op: Byte, payload: seq<Byte>, acts: seq<AppAction>): State {
    if IsClose(op) then
      var status, reason := CloseStatus(payload), CloseReason(payload);
      ConnectionClose(SendClose(s, status, reason), status, reason, acts)
    else if op % 16 == OPCODE_PING then
      ReadMessage(Send(s, op + 1, [], false))
    else if s.listening then
      var s1 := TimerReset(s);
      ReadMessage(Acts(s1.(log := s.log + [OnMessage(op, payload)]), acts))
    else
      ReadMessage(s)
  }

  predicate Enabled(s: State, e: Event) {
    match e
    case HandshakeWritten(_, _) => s.stage == Handshaking
    case ReadDone(_, _) => s.outstanding > 0
    case Tick(_) => true
    case TimerDue => s.timer.Waiting? && s.timer.deadline <= s.now
    case TimerRuns => s.timer.Expired?
    case App(_) => s.log != []
  }

  function Step(s: State, e: Event): State
    requires Enabled(s, e)
  {
    match e
    case HandshakeWritten(ok, acts) =>
      if ok then ReadMessage(ConnectionOpen(s, acts)) else ConnectionError(s, acts)
    case ReadDone(outcome, acts) =>
      var s1 := s.(outstanding := s.outstanding - 1);
      (match outcome
       case More => ReadMessage(s1)
       case Unmasked => ConnectionClose(SendClose(s1, 1002, NOT_MASKED), 1002, NOT_MASKED, acts)
       case Whole(op, payload) => OnFrame(s1, op, payload, acts)
       case Failed => ConnectionError(s1, acts))
    case Tick(dt) => s.(now := s.now + dt)
    case TimerDue => s.(timer := Expired)
    case TimerRuns => SendClose(s.(timer := Idle, idleRuns := s.idleRuns + 1), 1000, IDLE_TIMEOUT)
    case App(action) => Act(s, action)
  }

  ghost predicate ValidRun(s: State, es: seq<Event>)
    decreases |es|
  {
    es != [] ==> Enabled(s, es[0]) && ValidRun(Step(s, es[0]), es[1..])
  }

  ghost function After(s: State, es: seq<Event>): State
    requires ValidRun(s, es)
    decreases |es|
  {
    if es == [] then s else After(Step(s, es[0]), es[1..])
  }

  // ---- invariants ----

  predicate Terminal(c: Callback) {
    c.OnClose? || c.OnError?
  }

  /** Callbacks: open first, then messages, then at most one close or error and nothing behind it. */
  ghost predicate Lifecycle(s: State) {
    match s.stage
    case Handshaking => s.log == []
    case Open => |s.log| >= 1 && s.log[0] == OnOpen && forall i | 1 <= i < |s.log| :: s.log[i].OnMessage?
    case Over =>
      || s.log == [OnError]
      || (|s.log| >= 2 && s.log[0] == OnOpen && Terminal(s.log[|s.log| - 1])
          && forall i | 1 <= i < |s.log| - 1 :: s.log[i].OnMessage?)
  }

  ghost predicate Bookkeeping(s: State) {
    && s.outstanding == (if s.stage == Open then 1 else 0)
    && s.member == (s.stage == Open)
  }

  function CloseFrames(sent: seq<SentFrame>): nat {
    if sent == [] then 0
    else CloseFrames(sent[..|sent| - 1]) + if sent[|sent| - 1].bySendClose then 1 else 0
  }

  ghost predicate CloseOnce(s: State) {
    CloseFrames(s.sent) == if s.closed then 1 else 0
  }

  /** The server's only use of a missing timer: the handshake could not be written. */
  ghost predicate FaultCause(s: State) {
    s.fault <==> s.timeout > 0 && s.log == [OnError]
  }

  ghost predicate TimerInv(s: State) {
    && s.armed <= s.now
    && (s.timer.Absent? <==> s.timeout == 0 || s.log == [] || s.log == [OnError])
    && (s.timer.Waiting? ==> s.stage == Open && s.timer.deadline == s.armed + s.timeout && s.idleRuns == 0)
    && (s.timer.Expired? ==> s.now >= s.armed + s.timeout && s.idleRuns == 0)
    && (s.timer.Absent? ==> s.idleRuns == 0)
    && s.idleRuns <= 1
    && (s.idleRuns == 1 ==> s.now >= s.armed + s.timeout)
  }

  ghost predicate Inv(s: State) {
    Lifecycle(s) && Bookkeeping(s) && CloseOnce(s) && FaultCause(s) && TimerInv(s)
  }

  /** What a send may change, and what it may not. */
  ghost predicate OnlySends(s: State, s': State) {
    && s' == s.(sent := s'.sent, closed := s'.closed, timer := s'.timer, armed := s'.armed, fault := s'.fault)
    && s.sent <= s'.sent
    && (s.closed ==> s'.closed)
    && CloseFrames(s'.sent) - CloseFrames(s.sent) == (if s'.closed then 1 else 0) - (if s.closed then 1 else 0)
    && (s.fault ==> s'.fault)
    && (s'.fault ==> s.fault || (s.timeout > 0 && s.timer.Absent?))
    && (s.timer.Waiting? ==>
          || (s'.timer == s.timer && s'.armed == s.armed)
          || (s'.timer == Waiting(s.now + s.timeout) && s'.armed == s.now))
    && (!s.timer.Waiting? ==> s'.timer == s.timer && s'.armed == s.armed)
  }

  lemma SendOnlySends(s: State, op: Byte, payload: seq<Byte>)
    ensures OnlySends(s, Send(s, op, payload, false))
  {
    hide TimerReset, CloseFrames;
    if op != CLOSE_FRAME {
      ResetOnlySends(s);
      AddFrame(s, TimerReset(s), SentFrame(op, payload, false));
    } else {
      AddFrame(s, s, SentFrame(op, payload, false));
    }
  }

  lemma ResetOnlySends(s: State)
    ensures OnlySends(s, TimerReset(s)) && TimerReset(s).sent == s.sent
  {
  }

  lemma AddFrame(s: State, s1: State, f: SentFrame)
    requires OnlySends(s, s1) && s1.sent == s.sent && !f.bySendClose
    ensures OnlySends(s, s1.(sent := s1.sent + [f]))
  {
  }

  lemma SendCloseOnlySends(s: State, status: int, reason: seq<Byte>)
    ensures OnlySends(s, SendClose(s, status, reason))
  {
  }

  lemma ActOnlySends(s: State, a: AppAction)
    ensures OnlySends(s, Act(s, a))
  {
    hide Send, SendClose, OnlySends;
    match a
    case AppSend(op, payload) => SendOnlySends(s, op, payload);
    case AppClose(status, reason) => SendCloseOnlySends(s, status, reason);
  }

  lemma {:induction false} ActsOnlySends(s: State, acts: seq<AppAction>)
    ensures OnlySends(s, Acts(s, acts))
    decreases |acts|
  {
    if acts == [] {
    } else {
      ActOnlySends(s, acts[0]);
      ActsOnlySends(Act(s, acts[0]), acts[1..]);
    }
  }

  lemma StepKeepsInv(s: State, e: Event)
    requires Inv(s) && Enabled(s, e)
    ensures Inv(Step(s, e))
  {
    match e
    case HandshakeWritten(ok, acts) => HandshakeKeepsInv(s, ok, acts);
    case ReadDone(outcome, acts) => ReadKeepsInv(s, outcome, acts);
    case Tick(dt) => TickKeepsInv(s, dt);
    case TimerDue => DueKeepsInv(s);
    case TimerRuns => IdleKeepsInv(s);
    case App(action) => AppKeepsInv(s, action);
    hide Inv, Step;
  }

  lemma TickKeepsInv(s: State, dt: nat)
    requires Inv(s)
    ensures Inv(Step(s, Tick(dt)))
  {
  }

  lemma DueKeepsInv(s: State)
    requires Inv(s) && Enabled(s, TimerDue)
    ensures Inv(Step(s, TimerDue))
  {
  }

  lemma IdleKeepsInv(s: State)
    requires Inv(s) && Enabled(s, TimerRuns)
    ensures Inv(Step(s, TimerRuns))
  {
    SendCloseOnlySends(s.(timer := Idle, idleRuns := s.idleRuns + 1), 1000, IDLE_TIMEOUT);
  }

  lemma AppKeepsInv(s: State, action: AppAction)
    requires Inv(s) && Enabled(s, App(action))
    ensures Inv(Step(s, App(action)))
  {
    ActOnlySends(s, action);
  }

  lemma HandshakeKeepsInv(s: State, ok: bool, acts: seq<AppAction>)
    requires Inv(s) && s.stage == Handshaking
    ensures Inv(Step(s, HandshakeWritten(ok, acts)))
  {
    var s1 := if ok then TimerInit(s).(stage := Open, member := true, log := s.log + [OnOpen])
              else TimerCancel(s).(stage := Over, member := false, log := s.log + [OnError]);
    ActsOnlySends(s1, acts);
  }

  /** Both ways to end: the timer is cancelled, the connection leaves the set, one last callback. */
  lemma EndKeepsInv(s: State, c: Callback, acts: seq<AppAction>)
    requires Inv(s.(outstanding := 1)) && s.stage == Open && s.outstanding == 0 && Terminal(c)
    ensures Inv(Acts(TimerCancel(s).(stage := Over, member := false, log := s.log + [c]), acts))
  {
    var s1 := TimerCancel(s).(stage := Over, member := false, log := s.log + [c]);
    ActsOnlySends(s1, acts);
  }

  lemma ReadKeepsInv(s: State, outcome: Outcome, acts: seq<AppAction>)
    requires Inv(s) && s.outstanding > 0
    ensures Inv(Step(s, ReadDone(outcome, acts)))
  {
    var s1 := s.(outstanding := s.outstanding - 1);
    assert s1.(outstanding := 1) == s;
    match outcome
    case More =>
    case Unmasked =>
      ClosingKeepsInv(s1, 1002, NOT_MASKED, acts);
    case Failed =>
      EndKeepsInv(s1, OnError, acts);
    case Whole(op, payload) =>
      if IsClose(op) {
        ClosingKeepsInv(s1, CloseStatus(payload), CloseReason(payload), acts);
      } else {
        FrameKeepsInv(s1, op, payload, acts);
      }
  }

  lemma ClosingKeepsInv(s: State, status: int, reason: seq<Byte>, acts: seq<AppAction>)
    requires Inv(s.(outstanding := 1)) && s.stage == Open && s.outstanding == 0
    ensures Inv(ConnectionClose(SendClose(s, status, reason), status, reason, acts))
  {
    SendCloseOnlySends(s, status, reason);
    EndKeepsInv(SendClose(s, status, reason), OnClose(status, reason), acts);
  }

  lemma FrameKeepsInv(s: State, op: Byte, payload: seq<Byte>, acts: seq<AppAction>)
    requires Inv(s.(outstanding := 1)) && s.stage == Open && s.outstanding == 0 && !IsClose(op)
    ensures Inv(OnFrame(s, op, payload, acts))
  {
    hide Inv, Send, TimerReset, Acts;
    if op % 16 == OPCODE_PING {
      PingKeepsInv(s, op + 1);
    } else if s.listening {
      MessageKeepsInv(s, op, payload, acts);
    } else {
      assert ReadMessage(s) == s.(outstanding := 1);
    }
  }

  lemma PingKeepsInv(s: State, pong: Byte)
    requires Inv(s.(outstanding := 1)) && s.stage == Open && s.outstanding == 0
    ensures Inv(ReadMessage(Send(s, pong, [], false)))
  {
    SendOnlySends(s, pong, []);
  }

  lemma MessageKeepsInv(s: State, op: Byte, payload: seq<Byte>, acts: seq<AppAction>)
    requires Inv(s.(outstanding := 1)) && s.stage == Open && s.outstanding == 0
    ensures Inv(ReadMessage(Acts(TimerReset(s).(log := s.log + [OnMessage(op, payload)]), acts)))
  {
    ActsOnlySends(TimerReset(s).(log := s.log + [OnMessage(op, payload)]), acts);
  }

  lemma {:induction false} RunKeepsInv(s: State, es: seq<Event>)
    requires Inv(s) && ValidRun(s, es)
    ensures Inv(After(s, es))
    decreases |es|
  {
    if es == [] {
    } else {
      StepKeepsInv(s, es[0]);
      RunKeepsInv(Step(s, es[0]), es[1..]);
    }
  }

  // ---- what holds in every run ----

  /**
   * Callbacks come in lifecycle order; one read is outstanding, and the connection is in the set, exactly while open.
   */
  lemma LifecycleAlways(timeout: nat, listening: bool, es: seq<Event>)
    requires ValidRun(Initial(timeout, listening), es)
    ensures var s := After(Initial(timeout, listening), es); Lifecycle(s) && Bookkeeping(s)
  {
    RunKeepsInv(Initial(timeout, listening), es);
  }

  /** After the close or error callback nothing is delivered any more, whatever else still happens. */
  lemma {:induction false} NothingAfterTheEnd(s: State, es: seq<Event>)
    requires Inv(s) && s.stage == Over && ValidRun(s, es)
    ensures After(s, es).log == s.log && After(s, es).stage == Over
    decreases |es|
  {
    if es == [] {
    } else {
      StepKeepsInv(s, es[0]);
      if es[0].App? {
        ActOnlySends(s, es[0].action);
      } else if es[0].TimerRuns? {
        SendCloseOnlySends(s.(timer := Idle, idleRuns := s.idleRuns + 1), 1000, IDLE_TIMEOUT);
      }
      NothingAfterTheEnd(Step(s, es[0]), es[1..]);
    }
  }

  /** `send_close` queues at most one close frame, whoever asks first. */
  lemma CloseOnceAlways(timeout: nat, listening: bool, es: seq<Event>)
    requires ValidRun(Initial(timeout, listening), es)
    ensures var s := After(Initial(timeout, listening), es);
      CloseFrames(s.sent) <= 1 && (CloseFrames(s.sent) == 1 <==> s.closed)
  {
    RunKeepsInv(Initial(timeout, listening), es);
  }

  /**
   * A missing timer is used if and only if idle timeouts are configured and the handshake response could not be
   * written: `connection_error` then cancels a timer that only `connection_open` creates.
   */
  lemma TimerMissingExactly(timeout: nat, listening: bool, es: seq<Event>)
    requires ValidRun(Initial(timeout, listening), es)
    ensures var s := After(Initial(timeout, listening), es);
      s.fault <==> timeout > 0 && exists i | 0 <= i < |es| :: es[i].HandshakeWritten? && !es[i].ok
  {
    RunKeepsInv(Initial(timeout, listening), es);
    HandshakeFailed(Initial(timeout, listening), es);
  }

  lemma {:induction false} HandshakeFailed(s: State, es: seq<Event>)
    requires Inv(s) && ValidRun(s, es)
    ensures After(s, es).timeout == s.timeout
    ensures After(s, es).log == [OnError] <==>
      s.log == [OnError] || exists i | 0 <= i < |es| :: es[i].HandshakeWritten? && !es[i].ok
    decreases |es|
  {
    hide Step, Inv, Enabled;
    if es == [] {
    } else {
      StepKeepsInv(s, es[0]);
      HandshakeStep(s, es[0]);
      HandshakeFailed(Step(s, es[0]), es[1..]);
      if exists i | 0 <= i < |es| :: es[i].HandshakeWritten? && !es[i].ok {
        var i :| 0 <= i < |es| && es[i].HandshakeWritten? && !es[i].ok;
        assert i > 0 ==> es[1..][i - 1] == es[i];
      }
    }
  }

  lemma HandshakeStep(s: State, e: Event)
    requires Inv(s) && Enabled(s, e)
    ensures Step(s, e).timeout == s.timeout
    ensures Step(s, e).log == [OnError] <==> s.log == [OnError] || (e.HandshakeWritten? && !e.ok)
  {
    StepLog(s, e);
    hide Step;
    if Callbacks(s, e) == [] {
      assert Step(s, e).log == s.log;
    } else {
      assert |Step(s, e).log| == |s.log| + 1 && Step(s, e).log[|s.log|] == Callbacks(s, e)[0];
    }
  }

  function Messages(log: seq<Callback>): seq<(Byte, seq<Byte>)> {
    if log == [] then []
    else
      var last := log[|log| - 1];
      Messages(log[..|log| - 1]) + if last.OnMessage? then [(last.op, last.payload)] else []
  }

  /** The data frames a run reads. */
  function DataFrames(es: seq<Event>): seq<(Byte, seq<Byte>)> {
    if es == [] then []
    else DataFrame(es[0]) + DataFrames(es[1..])
  }

  function DataFrame(e: Event): seq<(Byte, seq<Byte>)> {
    if e.ReadDone? && e.outcome.Whole? && !IsClose(e.outcome.op) && e.outcome.op % 16 != OPCODE_PING
    then [(e.outcome.op, e.outcome.payload)] else []
  }

  /** The callback a step adds to the log. */
  function Callbacks(s: State, e: Event): seq<Callback> {
    match e
    case HandshakeWritten(ok, _) => if ok then [OnOpen] else [OnError]
    case ReadDone(Unmasked, _) => [OnClose(1002, NOT_MASKED)]
    case ReadDone(Failed, _) => [OnError]
    case ReadDone(Whole(op, payload), _) =>
      if IsClose(op) then [OnClose(CloseStatus(payload), CloseReason(payload))]
      else if op % 16 == OPCODE_PING || !s.listening then []
      else [OnMessage(op, payload)]
    case _ => []
  }

  lemma StepLog(s: State, e: Event)
    requires Enabled(s, e)
    ensures Step(s, e).log == s.log + Callbacks(s, e)
    ensures Step(s, e).listening == s.listening && Step(s, e).timeout == s.timeout
  {
    hide ClosePayload, CloseStatus, CloseReason, CloseFrames;
    match e
    case HandshakeWritten(ok, acts) =>
      ActsOnlySends(if ok then TimerInit(s).(stage := Open, member := true, log := s.log + [OnOpen])
                    else TimerCancel(s).(stage := Over, member := false, log := s.log + [OnError]), acts);
    case App(action) => ActOnlySends(s, action);
    case TimerRuns => SendCloseOnlySends(s.(timer := Idle, idleRuns := s.idleRuns + 1), 1000, IDLE_TIMEOUT);
    case Tick(_) =>
    case TimerDue =>
    case ReadDone(outcome, acts) => ReadLog(s, outcome, acts);
  }

  /** A handler that logs `cs` and keeps the configuration. */
  ghost predicate Logs(s: State, s': State, cs: seq<Callback>) {
    s'.log == s.log + cs && s'.listening == s.listening && s'.timeout == s.timeout
  }

  lemma ReadLog(s: State, outcome: Outcome, acts: seq<AppAction>)
    requires s.outstanding > 0
    ensures Logs(s, Step(s, ReadDone(outcome, acts)), Callbacks(s, ReadDone(outcome, acts)))
  {
    var s1 := s.(outstanding := s.outstanding - 1);
    hide ConnectionClose, ConnectionError, SendClose, OnFrame;
    match outcome
    case More =>
    case Failed => ErrorLog(s1, acts);
    case Unmasked => CloseLog(s1, 1002, NOT_MASKED, acts);
    case Whole(op, payload) => FrameLog(s1, op, payload, acts);
  }

  lemma FrameLog(s: State, op: Byte, payload: seq<Byte>, acts: seq<AppAction>)
    ensures Logs(s, OnFrame(s, op, payload, acts), Callbacks(s, ReadDone(Whole(op, payload), acts)))
  {
    hide ConnectionClose, SendClose, CloseStatus, CloseReason;
    if IsClose(op) {
      CloseLog(s, CloseStatus(payload), CloseReason(payload), acts);
    } else if op % 16 == OPCODE_PING {
      SendOnlySends(s, op + 1, []);
    } else if s.listening {
      ActsOnlySends(TimerReset(s).(log := s.log + [OnMessage(op, payload)]), acts);
    }
  }

  lemma CloseLog(s: State, status: int, reason: seq<Byte>, acts: seq<AppAction>)
    ensures Logs(s, ConnectionClose(SendClose(s, status, reason), status, reason, acts), [OnClose(status, reason)])
  {
    SendCloseOnlySends(s, status, reason);
    hide SendClose;
    EndLog(SendClose(s, status, reason), OnClose(status, reason), acts);
  }

  lemma ErrorLog(s: State, acts: seq<AppAction>)
    ensures Logs(s, ConnectionError(s, acts), [OnError])
  {
    EndLog(s, OnError, acts);
  }

  lemma EndLog(s: State, c: Callback, acts: seq<AppAction>)
    ensures Logs(s, Acts(TimerCancel(s).(stage := Over, member := false, log := s.log + [c]), acts), [c])
  {
    ActsOnlySends(TimerCancel(s).(stage := Over, member := false, log := s.log + [c]), acts);
  }

  lemma MessagesAppend(log: seq<Callback>, cs: seq<Callback>)
    requires |cs| <= 1
    ensures Messages(log + cs)
         == Messages(log) + if cs != [] && cs[0].OnMessage? then [(cs[0].op, cs[0].payload)] else []
  {
    if cs == [] {
      assert log + cs == log;
    } else {
      assert (log + cs)[..|log|] == log;
    }
  }

  lemma CallbackIsData(s: State, e: Event)
    requires s.listening
    ensures var cs := Callbacks(s, e);
      |cs| <= 1 && DataFrame(e) == if cs != [] && cs[0].OnMessage? then [(cs[0].op, cs[0].payload)] else []
  {
  }

  /** A listening application receives exactly the data frames that are read, in order. */
  lemma {:induction false} MessagesAreDataFrames(s: State, es: seq<Event>)
    requires ValidRun(s, es) && s.listening
    ensures Messages(After(s, es).log) == Messages(s.log) + DataFrames(es)
    decreases |es|
  {
    hide Step, Callbacks, DataFrame, Messages, Enabled;
    if es == [] {
    } else {
      StepLog(s, es[0]);
      CallbackIsData(s, es[0]);
      MessagesAppend(s.log, Callbacks(s, es[0]));
      MessagesAreDataFrames(Step(s, es[0]), es[1..]);
    }
  }

  /** The statuses and reasons given to `onclose`. */
  function Reported(log: seq<Callback>): seq<(int, seq<Byte>)> {
    if log == [] then []
    else
      var last := log[|log| - 1];
      Reported(log[..|log| - 1]) + if last.OnClose? then [(last.status, last.reason)] else []
  }

  /** The closes a run reads: close frames, and frames that are not masked. */
  function ClosesRead(es: seq<Event>): seq<(int, seq<Byte>)> {
    if es == [] then [] else CloseRead(es[0]) + ClosesRead(es[1..])
  }

  function CloseRead(e: Event): seq<(int, seq<Byte>)> {
    if !e.ReadDone? then []
    else match e.outcome
      case Whole(op, payload) => if IsClose(op) then [(CloseStatus(payload), CloseReason(payload))] else []
      case Unmasked => [(1002, NOT_MASKED)]
      case _ => []
  }

  lemma ReportedAppend(log: seq<Callback>, cs: seq<Callback>)
    requires |cs| <= 1
    ensures Reported(log + cs)
         == Reported(log) + if cs != [] && cs[0].OnClose? then [(cs[0].status, cs[0].reason)] else []
  {
    if cs == [] {
      assert log + cs == log;
    } else {
      assert (log + cs)[..|log|] == log;
    }
  }

  /** `onclose` is given exactly the closes that are read, in order, status and reason as received. */
  lemma {:induction false} ReportedAreRead(s: State, es: seq<Event>)
    requires ValidRun(s, es)
    ensures Reported(After(s, es).log) == Reported(s.log) + ClosesRead(es)
    decreases |es|
  {
    hide Step, Callbacks, CloseRead, Reported, Enabled;
    if es == [] {
    } else {
      StepLog(s, es[0]);
      CallbackIsRead(s, es[0]);
      ReportedAppend(s.log, Callbacks(s, es[0]));
      ReportedAreRead(Step(s, es[0]), es[1..]);
    }
  }

  lemma CallbackIsRead(s: State, e: Event)
    ensures var cs := Callbacks(s, e);
      |cs| <= 1 && CloseRead(e) == if cs != [] && cs[0].OnClose? then [(cs[0].status, cs[0].reason)] else []
  {
  }

  /**
   * A peer's close is reported as received, and answered with the same status and reason unless a close went out
   * before; whatever the application does inside `onclose` comes behind the answer and adds no other close by
   * `send_close`.
   */
  lemma CloseAnswered(s: State, op: Byte, payload: seq<Byte>, acts: seq<AppAction>)
    requires Inv(s) && s.outstanding > 0 && op % 16 == 8
    ensures var s' := Step(s, ReadDone(Whole(op, payload), acts));
      && s'.log == s.log + [if |payload| >= 2
                            then OnClose(256 * (payload[0] as int) + payload[1] as int, payload[2..])
                            else OnClose(0, payload)]
      && s.sent + Answer(s.closed, payload) <= s'.sent && (acts == [] ==> s'.sent == s.sent + Answer(s.closed, payload))
      && s'.closed && CloseFrames(s'.sent) == 1
  {
    var e, s1 := ReadDone(Whole(op, payload), acts), s.(outstanding := s.outstanding - 1);
    var status, reason := CloseStatus(payload), CloseReason(payload);
    var s2 := SendClose(s1, status, reason);
    StepKeepsInv(s, e);
    assert CloseOnce(Step(s, e)) && Step(s, e) == ConnectionClose(s2, status, reason, acts);
    AnswerSent(s1, payload);
    EndSends(s2, status, reason, acts);
    hide Inv, CloseFrames, Step, SendClose, ConnectionClose, CloseStatus, CloseReason, Answer;
  }

  lemma EndSends(s: State, status: int, reason: seq<Byte>, acts: seq<AppAction>)
    ensures var s' := ConnectionClose(s, status, reason, acts);
      && s'.log == s.log + [OnClose(status, reason)] && s.sent <= s'.sent && (s.closed ==> s'.closed)
      && (acts == [] ==> s'.sent == s.sent)
  {
    var s1 := TimerCancel(s);
    ActsOnlySends(s1.(stage := Over, member := false, log := s.log + [OnClose(status, reason)]), acts);
  }

  /** The close frame that answers a close payload: the payload itself, or a status of 0 in front of a shorter one. */
  function Answer(closed: bool, payload: seq<Byte>): seq<SentFrame> {
    if closed then []
    else [SentFrame(136, if |payload| >= 2 then payload else [0, 0] + payload, true)]
  }

  lemma AnswerSent(s: State, payload: seq<Byte>)
    ensures var s1 := SendClose(s, CloseStatus(payload), CloseReason(payload));
      s1.sent == s.sent + Answer(s.closed, payload) && s1.closed && s1.log == s.log
  {
    if |payload| >= 2 {
      var status := CloseStatus(payload);
      assert status / 256 == payload[0] && status % 256 == payload[1];
      assert ClosePayload(status, CloseReason(payload)) == payload;
    }
  }

  // ---- the idle timer in every run ----

  /** An idle close never comes before the timeout counted from the last time the wait was started. */
  lemma {:induction false} ArmedGrows(s: State, es: seq<Event>)
    requires Inv(s) && ValidRun(s, es)
    ensures After(s, es).armed >= s.armed && After(s, es).timeout == s.timeout
    decreases |es|
  {
    if es == [] {
    } else {
      StepKeepsInv(s, es[0]);
      StepTimer(s, es[0]);
      StepLog(s, es[0]);
      ArmedGrows(Step(s, es[0]), es[1..]);
    }
  }

  lemma IdleCloseNotEarly(s: State, es: seq<Event>)
    requires Inv(s) && s.idleRuns == 0 && ValidRun(s, es) && After(s, es).idleRuns > 0
    ensures After(s, es).idleRuns == 1 && After(s, es).now >= s.armed + s.timeout
  {
    RunKeepsInv(s, es);
    ArmedGrows(s, es);
  }

  /** Any step leaves a pending wait, replaces it, or ends it; it never brings one back. */
  lemma StepTimer(s: State, e: Event)
    requires Inv(s) && Enabled(s, e)
    ensures Step(s, e).armed == s.armed || Step(s, e).armed == s.now
    ensures s.timer.Expired? || s.timer.Idle? ==> !Step(s, e).timer.Waiting? && Step(s, e).armed == s.armed
  {
    hide ClosePayload, CloseStatus, CloseReason, CloseFrames, Messages;
    match e
    case HandshakeWritten(ok, acts) =>
      ActsOnlySends(if ok then TimerInit(s).(stage := Open, member := true, log := s.log + [OnOpen])
                    else TimerCancel(s).(stage := Over, member := false, log := s.log + [OnError]), acts);
    case App(action) => ActOnlySends(s, action);
    case TimerRuns => SendCloseOnlySends(s.(timer := Idle, idleRuns := s.idleRuns + 1), 1000, IDLE_TIMEOUT);
    case Tick(_) =>
    case TimerDue =>
    case ReadDone(outcome, acts) => ReadTimer(s, outcome, acts);
  }

  lemma ReadTimer(s: State, outcome: Outcome, acts: seq<AppAction>)
    requires Inv(s) && s.outstanding > 0
    ensures var s' := Step(s, ReadDone(outcome, acts));
      && (s'.armed == s.armed || s'.armed == s.now)
      && (s.timer.Expired? || s.timer.Idle? ==> !s'.timer.Waiting? && s'.armed == s.armed)
  {
    hide ClosePayload, CloseStatus, CloseReason, CloseFrames, Messages;
    var s1 := s.(outstanding := s.outstanding - 1);
    match outcome
    case More =>
    case Failed => EndTimer(s1, OnError, acts);
    case Unmasked => EndTimer(SendClose(s1, 1002, NOT_MASKED), OnClose(1002, NOT_MASKED), acts);
    case Whole(op, payload) =>
      if IsClose(op) {
        var status, reason := CloseStatus(payload), CloseReason(payload);
        EndTimer(SendClose(s1, status, reason), OnClose(status, reason), acts);
      } else if op % 16 != OPCODE_PING && s.listening {
        ActsOnlySends(TimerReset(s1).(log := s1.log + [OnMessage(op, payload)]), acts);
      }
  }

  lemma EndTimer(s: State, c: Callback, acts: seq<AppAction>)
    requires s.timeout == 0 ==> !s.timer.Waiting?
    ensures var s' := Acts(TimerCancel(s).(stage := Over, member := false, log := s.log + [c]), acts);
      s'.armed == s.armed && (s.timeout > 0 ==> !s'.timer.Waiting?)
  {
    ActsOnlySends(TimerCancel(s).(stage := Over, member := false, log := s.log + [c]), acts);
  }

  /** Once the wait has fired or was cancelled it is never started again. */
  lemma {:induction false} NeverRearmed(s: State, es: seq<Event>)
    requires Inv(s) && ValidRun(s, es) && (s.timer.Expired? || s.timer.Idle?)
    ensures !After(s, es).timer.Waiting? && After(s, es).armed == s.armed
    decreases |es|
  {
    if es == [] {
    } else {
      StepKeepsInv(s, es[0]);
      StepTimer(s, es[0]);
      StepLog(s, es[0]);
      LogGrows(s, es[0]);
      NeverRearmed(Step(s, es[0]), es[1..]);
    }
  }

  lemma LogGrows(s: State, e: Event)
    requires Inv(s) && Enabled(s, e) && (s.timer.Expired? || s.timer.Idle?)
    ensures !Step(s, e).timer.Absent?
  {
    StepKeepsInv(s, e);
    StepLog(s, e);
  }

  /** Activity that finds the wait pending replaces it: a message, a ping, or anything but a close frame sent. */
  lemma ActivityReplacesWait(s: State, e: Event)
    requires Inv(s) && Enabled(s, e) && s.timer.Waiting?
    requires
      || (e.App? && e.action.AppSend? && e.action.op != 136)
      || (e.ReadDone? && e.outcome.Whole? && e.outcome.op % 16 != 8 && (s.listening || e.outcome.op % 16 == 9))
    ensures Step(s, e).timer == Waiting(s.now + s.timeout) && Step(s, e).armed == s.now
  {
    if e.ReadDone? && e.outcome.op % 16 != 9 {
      var s1 := TimerReset(s.(outstanding := s.outstanding - 1));
      ActsOnlySends(s1.(log := s1.log + [OnMessage(e.outcome.op, e.outcome.payload)]), e.acts);
    }
  }

  /** A ping is answered by an empty pong and not shown to the application. */
  lemma PingAnswered(s: State, op: Byte, payload: seq<Byte>, acts: seq<AppAction>)
    requires s.outstanding > 0 && op % 16 == 9
    ensures var s' := Step(s, ReadDone(Whole(op, payload), acts));
      s'.sent == s.sent + [SentFrame(op + 1, [], false)] && s'.log == s.log && s'.outstanding == s.outstanding
  {
  }

  /**
   * Every frame that is neither a close nor a ping is for the application: it is handed over if the application
   * listens, and otherwise leaves no trace.
   */
  lemma MessageDelivered(s: State, op: Byte, payload: seq<Byte>, acts: seq<AppAction>)
    requires s.outstanding > 0 && op % 16 != 8 && op % 16 != 9
    ensures var s' := Step(s, ReadDone(Whole(op, payload), acts));
      if s.listening then s'.log == s.log + [OnMessage(op, payload)] && s'.outstanding == s.outstanding else s' == s
  {
    if s.listening {
      var s1 := TimerReset(s.(outstanding := s.outstanding - 1));
      ActsOnlySends(s1.(log := s.log + [OnMessage(op, payload)]), acts);
    }
  }

  /** A whole frame closes the connection if and only if its opcode is 8. */
  lemma ClosesExactly(s: State, op: Byte, payload: seq<Byte>, acts: seq<AppAction>)
    requires Inv(s) && s.outstanding > 0
    ensures var s' := Step(s, ReadDone(Whole(op, payload), acts));
      && (s'.stage == Over <==> op % 16 == 8)
      && (|s'.log| > |s.log| && s'.log[|s'.log| - 1].OnClose? <==> op % 16 == 8)
  {
    var e := ReadDone(Whole(op, payload), acts);
    var s' := Step(s, e);
    StepKeepsInv(s, e);
    assert Lifecycle(s') && Bookkeeping(s') && Lifecycle(s) && Bookkeeping(s) && s.stage == Open;
    hide Step, CloseStatus, CloseReason, Inv;
    if op % 16 == 8 {
      CloseAnswered(s, op, payload, acts);
      assert s'.log[|s.log|].OnClose?;
    } else if op % 16 == 9 {
      PingAnswered(s, op, payload, acts);
    } else {
      MessageDelivered(s, op, payload, acts);
    }
  }

  /** How the other reads end: part of a frame changes nothing, an error is reported. */
  lemma OtherReads(s: State)
    requires s.outstanding > 0
    ensures Step(s, ReadDone(More, [])) == s
    ensures Step(s, ReadDone(Failed, [])).log == s.log + [OnError]
    ensures Step(s, ReadDone(Failed, [])).sent == s.sent && Step(s, ReadDone(Failed, [])).stage == Over
  {
  }

  /** An opened connection waits for the whole timeout, if one is configured, and reads. */
  lemma OpenStarts(s: State)
    requires s.stage == Handshaking && s.outstanding == 0 && s.timer.Absent?
    ensures var s' := Step(s, HandshakeWritten(true, []));
      && s'.stage == Open && s'.member && s'.outstanding == 1 && s'.log == s.log + [OnOpen] && s'.sent == s.sent
      && s'.timer == if s.timeout > 0 then Waiting(s.now + s.timeout) else Absent
    ensures Step(s, HandshakeWritten(false, [])).log == s.log + [OnError]
  {
  }

  /** What an application sends is queued as it says: a frame of its own, or one close frame, status first. */
  lemma AsApplicationSays(s: State, op: Byte, payload: seq<Byte>, status: int, reason: seq<Byte>)
    requires Inv(s) && s.log != []
    ensures Step(s, App(AppSend(op, payload))).sent == s.sent + [SentFrame(op, payload, false)]
    ensures var s' := Step(s, App(AppClose(status, reason)));
      && s'.closed
      && s'.sent == s.sent + if s.closed then [] else
           [SentFrame(136, [status / 256 % 256, status % 256] + reason, true)]
  {
    CloseRoundTrip(status, reason);
    hide ClosePayload;
  }

  /** A close frame leaves the idle timer alone. */
  lemma CloseKeepsWait(s: State, payload: seq<Byte>, status: int, reason: seq<Byte>)
    requires Inv(s) && s.log != []
    ensures Step(s, App(AppSend(136, payload))).timer == s.timer
    ensures Step(s, App(AppClose(status, reason))).timer == s.timer
  {
    hide ClosePayload;
  }

  /** A frame that is not masked is reported and answered as a close of status 1002, unless a close went out before. */
  lemma MaskingErrorClosed(s: State, acts: seq<AppAction>)
    requires s.outstanding > 0
    ensures var reason, s' := Ascii("message from client not masked"), Step(s, ReadDone(Unmasked, acts));
      && s'.log == s.log + [OnClose(1002, reason)]
      && s.sent + (if s.closed then [] else [SentFrame(136, [3, 234] + reason, true)]) <= s'.sent
  {
    assert ClosePayload(1002, NOT_MASKED) == [3, 234] + NOT_MASKED;
    hide ClosePayload;
    var s1 := SendClose(s.(outstanding := s.outstanding - 1), 1002, NOT_MASKED);
    ActsOnlySends(TimerCancel(s1).(stage := Over, member := false, log := s1.log + [OnClose(1002, NOT_MASKED)]), acts);
  }

  /** An idle timeout sends a close frame of status 1000, unless a close went out before. */
  lemma IdleClosed(s: State)
    requires s.timer.Expired?
    ensures Step(s, TimerRuns).sent
         == s.sent + if s.closed then [] else [SentFrame(136, [3, 232] + Ascii("idle timeout"), true)]
  {
  }

  // ---- the handlers, over the connection's mutable state ----

  /**
   * A `deadline_timer`: any number of waits may be pending, and any number of expired ones have their handler queued.
   */
  datatype DeadlineTimer = DeadlineTimer(expiry: int, pending: nat, queued: nat)

  function TimerOf(t: Option<DeadlineTimer>): Timer {
    match t
    case None => Absent
    case Some(DeadlineTimer(expiry, pending, queued)) =>
      if pending > 0 then Waiting(expiry) else if queued > 0 then Expired else Idle
  }

  class ServerConnection {
    const timeoutIdle: nat
    const onmessageSet: bool
    var now: int
    var stage: Stage
    var outstanding: nat
    var inConnections: bool
    var timerIdle: Option<DeadlineTimer>
    ghost var armed: int
    ghost var idleRuns: nat
    var closed: bool
    var callbacks: seq<Callback>
    var sent: seq<SentFrame>
    ghost var fault: bool

    ghost function Abs(): State
      reads this
    {
      State(timeoutIdle, onmessageSet, now, stage, outstanding, inConnections, TimerOf(timerIdle), armed, idleRuns,
            closed, callbacks, sent, fault)
    }

    /** Never more than one wait is outstanding. */
    ghost predicate Valid()
      reads this
    {
      timerIdle.Some? ==> timerIdle.value.pending + timerIdle.value.queued <= 1
    }

    constructor (timeoutIdle: nat, onmessageSet: bool)
      ensures Valid() && Abs() == Initial(timeoutIdle, onmessageSet)
    {
      this.timeoutIdle, this.onmessageSet := timeoutIdle, onmessageSet;
      now, stage, outstanding, inConnections, timerIdle := 0, Handshaking, 0, false, None;
      armed, idleRuns, closed, callbacks, sent, fault := 0, 0, false, [], [], false;
    }

    method TimerIdleInit()
      requires Valid()
      modifies this
      ensures Valid() && Abs() == TimerInit(old(Abs()))
    {
      if timeoutIdle > 0 {
        timerIdle := Some(DeadlineTimer(0, 0, 0));
        var _ := ExpiresFromNow();
        StartWait();
      }
    }

    method TimerIdleReset()
      requires Valid()
      modifies this
      ensures Valid() && Abs() == TimerReset(old(Abs()))
    {
      if timeoutIdle > 0 {
        var cancelled := ExpiresFromNow();
        if cancelled > 0 {
          StartWait();
        }
      }
    }

    method TimerIdleCancel()
      requires Valid()
      modifies this
      ensures Valid() && Abs() == TimerCancel(old(Abs()))
    {
      if timeoutIdle > 0 {
        if timerIdle.None? {
          fault := true;
        } else {
          timerIdle := Some(timerIdle.value.(pending := 0));
        }
      }
    }

    /** `expires_from_now`: sets the expiry, cancels the pending waits and reports how many they were. */
    method ExpiresFromNow() returns (cancelled: nat)
      modifies this`timerIdle, this`fault
      ensures fault == (old(fault) || old(timerIdle).None?)
      ensures old(timerIdle).None? ==> cancelled == 0 && timerIdle.None?
      ensures old(timerIdle).Some? ==>
        && cancelled == old(timerIdle).value.pending
        && timerIdle == Some(DeadlineTimer(now + timeoutIdle, 0, old(timerIdle).value.queued))
    {
      if timerIdle.None? {
        fault := true;
        return 0;
      }
      cancelled := timerIdle.value.pending;
      timerIdle := Some(timerIdle.value.(expiry := now + timeoutIdle, pending := 0));
    }

    /** `timer_idle_expired_function`: one more wait. */
    method StartWait()
      requires timerIdle.Some?
      modifies this`timerIdle, this`armed
      ensures timerIdle == Some(old(timerIdle).value.(pending := old(timerIdle).value.pending + 1)) && armed == now
    {
      timerIdle := Some(timerIdle.value.(pending := timerIdle.value.pending + 1));
      armed := now;
    }

    /** The pending wait's time comes: its handler is queued. */
    method OnWaitDue()
      requires Valid() && timerIdle.Some? && timerIdle.value.pending > 0 && timerIdle.value.expiry <= now
      modifies this
      ensures Valid() && Abs() == Step(old(Abs()), TimerDue)
    {
      var t := timerIdle.value;
      timerIdle := Some(t.(pending := t.pending - 1, queued := t.queued + 1));
    }

    method SendFrame(op: Byte, payload: seq<Byte>, bySendClose: bool)
      requires Valid()
      modifies this
      ensures Valid() && Abs() == Send(old(Abs()), op, payload, bySendClose)
    {
      if op != CLOSE_FRAME {
        TimerIdleReset();
      }
      sent := sent + [SentFrame(op, payload, bySendClose)];
    }

    method CloseWith(status: int, reason: seq<Byte>)
      requires Valid()
      modifies this
      ensures Valid() && Abs() == SendClose(old(Abs()), status, reason)
    {
      if closed {
        return;
      }
      closed := true;
      SendFrame(CLOSE_FRAME, ClosePayload(status, reason), true);
    }

    /** What the application does inside a callback. */
    method Perform(acts: seq<AppAction>)
      requires Valid()
      modifies this
      ensures Valid() && Abs() == Acts(old(Abs()), acts)
    {
      var i := 0;
      while i < |acts|
        invariant i <= |acts| && Valid() && Acts(Abs(), acts[i..]) == Acts(old(Abs()), acts)
        decreases |acts| - i
      {
        assert acts[i..][1..] == acts[i + 1..];
        match acts[i] {
          case AppSend(op, payload) => SendFrame(op, payload, false);
          case AppClose(status, reason) => CloseWith(status, reason);
        }
        i := i + 1;
      }
    }

    method OnConnectionOpen(acts: seq<AppAction>)
      requires Valid()
      modifies this
      ensures Valid() && Abs() == ConnectionOpen(old(Abs()), acts)
    {
      TimerIdleInit();
      stage, inConnections := Open, true;
      callbacks := callbacks + [OnOpen];
      Perform(acts);
    }

    method OnConnectionClose(status: int, reason: seq<Byte>, acts: seq<AppAction>)
      requires Valid()
      modifies this
      ensures Valid() && Abs() == ConnectionClose(old(Abs()), status, reason, acts)
    {
      TimerIdleCancel();
      stage, inConnections := Over, false;
      callbacks := callbacks + [OnClose(status, reason)];
      Perform(acts);
    }

    method OnConnectionError(acts: seq<AppAction>)
      requires Valid()
      modifies this
      ensures Valid() && Abs() == ConnectionError(old(Abs()), acts)
    {
      TimerIdleCancel();
      stage, inConnections := Over, false;
      callbacks := callbacks + [OnError];
      Perform(acts);
    }

    /** `read_message`: one more read outstanding. */
    method StartRead()
      requires Valid()
      modifies this`outstanding
      ensures Valid() && Abs() == ReadMessage(old(Abs()))
    {
      outstanding := outstanding + 1;
    }

    /** The completion of the write in `write_handshake`. */
    method OnHandshakeWritten(ok: bool, acts: seq<AppAction>)
      requires stage == Handshaking
      requires Valid()
      modifies this
      ensures Valid() && Abs() == Step(old(Abs()), HandshakeWritten(ok, acts))
    {
      if ok {
        OnConnectionOpen(acts);
        StartRead();
      } else {
        OnConnectionError(acts);
      }
    }

    /** The completion of a read, as far as the connection is concerned. */
    method OnRead(outcome: Outcome, acts: seq<AppAction>)
      requires outstanding > 0
      requires Valid()
      modifies this
      ensures Valid() && Abs() == Step(old(Abs()), ReadDone(outcome, acts))
    {
      outstanding := outstanding - 1;
      match outcome
      case More =>
        StartRead();
      case Unmasked =>
        CloseWith(1002, NOT_MASKED);
        OnConnectionClose(1002, NOT_MASKED, acts);
      case Failed =>
        OnConnectionError(acts);
      case Whole(op, payload) =>
        OnWholeFrame(op, payload, acts);
    }

    /** A message for the application: the idle timer is reset, then `onmessage` called. */
    method Deliver(op: Byte, payload: seq<Byte>, acts: seq<AppAction>)
      requires Valid()
      modifies this
      ensures Valid()
      ensures var s := old(Abs());
        Abs() == Acts(TimerReset(s).(log := s.log + [OnMessage(op, payload)]), acts)
    {
      TimerIdleReset();
      callbacks := callbacks + [OnMessage(op, payload)];
      Perform(acts);
    }

    method OnWholeFrame(op: Byte, payload: seq<Byte>, acts: seq<AppAction>)
      requires Valid()
      modifies this
      ensures Valid() && Abs() == OnFrame(old(Abs()), op, payload, acts)
    {
      hide ConnectionClose, SendClose, Send, Acts, TimerReset;
      if op % 16 == 8 {
        OnCloseFrame(payload, acts);
        return;
      }
      if op % 16 == 9 {
        SendFrame(op + 1, [], false);
      } else if onmessageSet {
        Deliver(op, payload, acts);
      }
      StartRead();
    }

    method OnCloseFrame(payload: seq<Byte>, acts: seq<AppAction>)
      requires Valid()
      modifies this
      ensures var status, reason := CloseStatus(payload), CloseReason(payload);
        Valid() && Abs() == ConnectionClose(SendClose(old(Abs()), status, reason), status, reason, acts)
    {
      var status, reason := 0, payload;
      if |payload| >= 2 {
        status := 256 * (payload[0] as int) + payload[1] as int;
        reason := payload[2..];
      }
      CloseWith(status, reason);
      OnConnectionClose(status, reason, acts);
    }

    /** The wait's handler, run without error. */
    method OnIdleTimeout()
      requires timerIdle.Some? && timerIdle.value.queued > 0
      requires Valid()
      modifies this
      ensures Valid() && Abs() == Step(old(Abs()), TimerRuns)
    {
      timerIdle := Some(timerIdle.value.(queued := timerIdle.value.queued - 1));
      idleRuns := idleRuns + 1;
      CloseWith(1000, IDLE_TIMEOUT);
    }
  }
}
