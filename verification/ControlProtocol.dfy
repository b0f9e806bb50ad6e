/**
 * The control protocol: devices report a status, the server answers with the action wanted of their stream or closes
 * the session with an ACK, and players overwrite that action at any time. One device session at a time, handlers
 * atomic.
 */
module ControlProtocol {
  import opened Wrappers

  // ---- the record store: one JSON file a stream ----

  type Record = map<string, string>
  type Files = map<string, Record>

  /** `snprintf(fn, 64, ...)` keeps 63 characters. */
  function FileName(id: string): string {
    var name := "status/" + id + ".json";
    if |name| <= 63 then name else name[..63]
  }

  function DefaultRecord(id: string): Record {
    map["streamId" := id, "status" := "off", "action" := "live"]
  }

  /** `JsonFromFile`: a missing file is created with the default record. */
  function Open(files: Files, id: string): Files {
    if FileName(id) in files then files else files[FileName(id) := DefaultRecord(id)]
  }

  function SetValue(files: Files, key: string, value: string, id: string): Files {
    var files1 := Open(files, id);
    files1[FileName(id) := files1[FileName(id)][key := value]]
  }

  /** `getJsonValueFromFile`: a missing key stores an action and gives a null pointer. */
  function GetValue(files: Files, key: string, id: string): (Files, Option<string>) {
    var files1 := Open(files, id);
    var record := files1[FileName(id)];
    if key in record then (files1, Some(record[key]))
    else (files1[FileName(id) := record["action" := "off"]], None)
  }

  /** Every record the server wrote has its three keys. */
  ghost predicate Complete(files: Files) {
    forall f | f in files :: {"streamId", "status", "action"} <= files[f].Keys
  }

  /** The action wanted of a stream; a stream without a record gets the default. */
  function Action(files: Files, id: string): string {
    if FileName(id) in files && "action" in files[FileName(id)] then files[FileName(id)]["action"] else "live"
  }

  // ---- the server ----

  /** `streamId` is the global that keeps the last device's stream; `fault` marks the use of a null pointer. */
  datatype Server = Server(files: Files, streamId: Option<string>, ack: bool, fault: bool)

  datatype Event =
    | DeviceStatus(reported: Option<string>, status: string)
    | Player(streamId: string, action: string)

  datatype Reply = Ack | Act(streamId: string, action: string) | Status(streamId: string, status: string) | Nothing

  /** Whether a reported status fulfils an action. */
  predicate Satisfies(status: string, action: string) {
    action == "done" || status == action || (status == "ready" && action == "off")
  }

  function Acknowledge(s: Server, id: string): (Server, Reply) {
    (s.(ack := true, files := SetValue(s.files, "action", "done", id)), Ack)
  }

  /** `msgParse` of the server. */
  function OnStatus(s: Server, streamId: Option<string>, status: string): (Server, Reply) {
    var known := if streamId.Some? then streamId else s.streamId;
    if known.None? then (s.(fault := true), Nothing)
    else
      var id := known.value;
      var files1 := SetValue(SetValue(s.files, "streamId", id, id), "status", status, id);
      var (files2, action) := GetValue(files1, "action", id);
      var s1 := s.(streamId := known, files := files2);
      if action.None? then (s1.(fault := true), Nothing)
      else if action.value == "done" then Acknowledge(s1, id)
      else if status == "ready" && action.value == "off" then Acknowledge(s1, id)
      else if status != action.value then (s1, Act(id, action.value))
      else Acknowledge(s1, id)
  }

  /** `websocket_write_back`: a player asks for the status or sets the action. */
  function OnPlayer(s: Server, id: string, action: string): (Server, Reply) {
    if action == "status" then
      var (files1, status) := GetValue(s.files, "status", id);
      if status.None? then (s.(files := files1, fault := true), Nothing)
      else (s.(files := files1), Status(id, status.value))
    else (s.(files := SetValue(s.files, "action", action, id)), Ack)
  }

  function Step(s: Server, e: Event): (Server, Reply) {
    match e
    case DeviceStatus(streamId, status) => OnStatus(s, streamId, status)
    case Player(id, action) => OnPlayer(s, id, action)
  }

  /** The stream an event is about, if any is known. */
  function Subject(s: Server, e: Event): Option<string> {
    match e
    case DeviceStatus(streamId, _) => if streamId.Some? then streamId else s.streamId
    case Player(id, _) => Some(id)
  }

  ghost predicate Inv(s: Server) {
    Complete(s.files)
  }

  lemma SetKeepsComplete(files: Files, key: string, value: string, id: string)
    requires Complete(files)
    ensures Complete(SetValue(files, key, value, id))
    ensures FileName(id) in SetValue(files, key, value, id)
    ensures SetValue(files, key, value, id)[FileName(id)][key] == value
    ensures key != "action" ==> Action(SetValue(files, key, value, id), id) == Action(files, id)
  {
  }

  /** What a status message leads to: the reply, and the action wanted afterwards. */
  lemma StatusOutcome(s: Server, reported: Option<string>, status: string)
    requires Inv(s) && (reported.Some? || s.streamId.Some?)
    ensures var id := if reported.Some? then reported.value else s.streamId.value;
      var action := Action(s.files, id);
      var s1, reply := OnStatus(s, reported, status).0, OnStatus(s, reported, status).1;
      && Inv(s1) && s1.fault == s.fault && s1.streamId == Some(id) && FileName(id) in s1.files
      && s1.files[FileName(id)]["streamId"] == id && s1.files[FileName(id)]["status"] == status
      && (if action == "done" || status == action || (status == "ready" && action == "off")
          then reply == Ack && s1.ack && Action(s1.files, id) == "done"
          else reply == Act(id, action) && s1.ack == s.ack && Action(s1.files, id) == action)
  {
    hide SetValue, GetValue, Complete, Action, FileName;
    if Satisfies(status, Action(s.files, Subject(s, DeviceStatus(reported, status)).value)) {
      AckOutcome(s, reported, status);
    } else {
      ActOutcome(s, reported, status);
    }
    hide OnStatus;
  }

  function Stored(files: Files, id: string, status: string): Files {
    SetValue(SetValue(files, "streamId", id, id), "status", status, id)
  }

  lemma AckOutcome(s: Server, reported: Option<string>, status: string)
    requires Inv(s) && Subject(s, DeviceStatus(reported, status)).Some?
    requires Satisfies(status, Action(s.files, Subject(s, DeviceStatus(reported, status)).value))
    ensures var id := Subject(s, DeviceStatus(reported, status)).value;
      var s1, reply := OnStatus(s, reported, status).0, OnStatus(s, reported, status).1;
      && reply == Ack && s1.ack && s1.fault == s.fault && s1.streamId == Some(id)
      && Inv(s1) && FileName(id) in s1.files && Action(s1.files, id) == "done"
      && s1.files[FileName(id)]["streamId"] == id && s1.files[FileName(id)]["status"] == status
  {
    hide SetValue, GetValue, Complete, Action, FileName;
    var id := Subject(s, DeviceStatus(reported, status)).value;
    StoredStatus(s.files, id, status);
    StoredDone(Stored(s.files, id, status), id);
    assert OnStatus(s, reported, status)
        == Acknowledge(s.(streamId := Some(id), files := Stored(s.files, id, status)), id);
    hide OnStatus;
  }

  lemma ActOutcome(s: Server, reported: Option<string>, status: string)
    requires Inv(s) && Subject(s, DeviceStatus(reported, status)).Some?
    requires !Satisfies(status, Action(s.files, Subject(s, DeviceStatus(reported, status)).value))
    ensures var id := Subject(s, DeviceStatus(reported, status)).value;
      var s1, reply := OnStatus(s, reported, status).0, OnStatus(s, reported, status).1;
      && reply == Act(id, Action(s.files, id)) && s1.ack == s.ack && s1.fault == s.fault && s1.streamId == Some(id)
      && Inv(s1) && FileName(id) in s1.files && Action(s1.files, id) == Action(s.files, id)
      && s1.files[FileName(id)]["streamId"] == id && s1.files[FileName(id)]["status"] == status
  {
    hide SetValue, GetValue, Complete, Action, FileName;
    var id := Subject(s, DeviceStatus(reported, status)).value;
    StoredStatus(s.files, id, status);
    assert OnStatus(s, reported, status)
        == (s.(streamId := Some(id), files := Stored(s.files, id, status)), Act(id, Action(s.files, id)));
    hide OnStatus;
  }

  /** The files after both fields of a status message are stored. */
  lemma StoredStatus(files: Files, id: string, status: string)
    requires Complete(files)
    ensures var stored := Stored(files, id, status);
      && Complete(stored) && FileName(id) in stored
      && stored[FileName(id)]["streamId"] == id && stored[FileName(id)]["status"] == status
      && Action(stored, id) == Action(files, id)
      && GetValue(stored, "action", id) == (stored, Some(Action(files, id)))
  {
  }

  lemma StoredDone(files: Files, id: string)
    requires Complete(files) && FileName(id) in files
    ensures var done := SetValue(files, "action", "done", id);
      && Complete(done) && FileName(id) in done && Action(done, id) == "done"
      && done[FileName(id)]["streamId"] == files[FileName(id)]["streamId"]
      && done[FileName(id)]["status"] == files[FileName(id)]["status"]
  {
  }

  lemma GetFromComplete(files: Files, key: string, id: string)
    requires Complete(files) && key in {"streamId", "status", "action"}
    ensures GetValue(files, key, id) == (Open(files, id), Some(Open(files, id)[FileName(id)][key]))
    ensures Complete(Open(files, id)) && Action(Open(files, id), id) == Action(files, id)
    ensures FileName(id) in files ==> Open(files, id) == files
  {
  }

  /** What a player's message leads to. */
  lemma PlayerOutcome(s: Server, id: string, action: string)
    requires Inv(s)
    ensures var s1, reply := OnPlayer(s, id, action).0, OnPlayer(s, id, action).1;
      && Inv(s1) && s1.fault == s.fault && s1.ack == s.ack && s1.streamId == s.streamId
      && Action(s1.files, id) == (if action == "status" then Action(s.files, id) else action)
      && (if action != "status" then reply == Ack
          else reply == Status(id, if FileName(id) in s.files then s.files[FileName(id)]["status"] else "off"))
  {
    if action == "status" {
      GetFromComplete(s.files, "status", id);
    } else {
      SetKeepsComplete(s.files, "action", action, id);
    }
  }

  /** A stream the server has not met: its default action is live, its default status off. */
  lemma NewStream(s: Server, id: string, status: string)
    requires Inv(s) && FileName(id) !in s.files
    ensures OnStatus(s, Some(id), status).1 == if status == "live" then Ack else Act(id, "live")
    ensures OnPlayer(s, id, "status").1 == Status(id, "off")
    ensures OnPlayer(s, id, "status").0.files[FileName(id)]
         == map["streamId" := id, "status" := "off", "action" := "live"]
  {
    StatusOutcome(s, Some(id), status);
    PlayerOutcome(s, id, "status");
    hide OnStatus;
  }

  /** A record without the key asked for: the action becomes off, and the value is a null pointer. */
  lemma MissingKey(files: Files, key: string, id: string)
    requires FileName(id) in files && key !in files[FileName(id)]
    ensures GetValue(files, key, id) == (files[FileName(id) := files[FileName(id)]["action" := "off"]], None)
  {
  }

  /** The only null pointer is a status without a stream id before any device named one. */
  lemma StepKeepsInv(s: Server, e: Event)
    requires Inv(s)
    ensures Inv(Step(s, e).0)
    ensures Step(s, e).0.fault <==> s.fault || (e.DeviceStatus? && e.reported.None? && s.streamId.None?)
  {
    match e
    case DeviceStatus(reported, status) =>
      if Subject(s, e).Some? {
        StatusOutcome(s, reported, status);
      }
    case Player(id, action) => PlayerOutcome(s, id, action);
  }

  /** A handler touches the record of its own stream's file and no other. */
  lemma OthersUnchanged(s: Server, e: Event, f: string)
    requires Subject(s, e).Some? ==> f != FileName(Subject(s, e).value)
    ensures f in Step(s, e).0.files <==> f in s.files
    ensures f in s.files ==> Step(s, e).0.files[f] == s.files[f]
  {
    match e
    case Player(id, action) =>
    case DeviceStatus(reported, status) =>
      if Subject(s, e).Some? {
        StatusOthers(s, reported, status, f);
      }
  }

  lemma StatusOthers(s: Server, reported: Option<string>, status: string, f: string)
    requires Subject(s, DeviceStatus(reported, status)).Some?
    requires f != FileName(Subject(s, DeviceStatus(reported, status)).value)
    ensures f in OnStatus(s, reported, status).0.files <==> f in s.files
    ensures f in s.files ==> OnStatus(s, reported, status).0.files[f] == s.files[f]
  {
    hide SetValue, GetValue, FileName;
    var id := Subject(s, DeviceStatus(reported, status)).value;
    var files1 := SetValue(s.files, "streamId", id, id);
    SetOthers(s.files, "streamId", id, id, f);
    SetOthers(files1, "status", status, id, f);
    var files2 := SetValue(files1, "status", status, id);
    GetOthers(files2, "action", id, f);
    SetOthers(GetValue(files2, "action", id).0, "action", "done", id, f);
  }

  lemma GetOthers(files: Files, key: string, id: string, f: string)
    requires f != FileName(id)
    ensures f in GetValue(files, key, id).0 <==> f in files
    ensures f in files ==> GetValue(files, key, id).0[f] == files[f]
  {
  }

  lemma SetOthers(files: Files, key: string, value: string, id: string, f: string)
    requires f != FileName(id)
    ensures f in SetValue(files, key, value, id) <==> f in files
    ensures f in files ==> SetValue(files, key, value, id)[f] == files[f]
  {
  }

  /**
   * Two streams share a record exactly if their names agree up to where the file name is cut: never if both have at
   * most 51 characters.
   */
  lemma SharedFileExactly(a: string, b: string)
    ensures FileName(a) == FileName(b) <==>
      a == b || (|a| >= 51 && |b| >= 51 && (a + ".json")[..56] == (b + ".json")[..56])
    ensures |a| <= 51 && |b| <= 51 && FileName(a) == FileName(b) ==> a == b
  {
    CutName(a);
    CutName(b);
    var fa, fb := FileName(a), FileName(b);
    if fa == fb {
      assert fa[7..] == fb[7..];
      if |a| < 51 || |b| < 51 {
        assert a == (a + ".json")[..|a|] == (b + ".json")[..|b|] == b;
      }
    }
  }

  lemma CutName(id: string)
    ensures FileName(id) == "status/" + if |id| <= 51 then id + ".json" else (id + ".json")[..56]
    ensures FileName(id)[7..] == if |id| <= 51 then id + ".json" else (id + ".json")[..56]
  {
  }

  // ---- no command is lost ----

  /** A step that may change the action wanted of stream `id`, and what it may change it to. */
  ghost predicate Justified(s: Server, e: Event, id: string, before: string, after: string)
  {
    && Subject(s, e).Some? && FileName(Subject(s, e).value) == FileName(id)
    && match e
       case Player(_, action) => after == action
       case DeviceStatus(_, status) =>
         after == "done" && (before == "done" || status == before || (status == "ready" && before == "off"))
  }

  lemma ActionOfFile(files: Files, a: string, b: string)
    requires Complete(files) && FileName(a) == FileName(b)
    ensures Action(files, a) == Action(files, b)
  {
  }

  /** One step changes an action only as a player says, or to done when the reported status fulfils it. */
  lemma ChangeJustified(s: Server, e: Event, id: string)
    requires Inv(s)
    ensures Inv(Step(s, e).0)
    ensures var before, after := Action(s.files, id), Action(Step(s, e).0.files, id);
      before != after ==> Justified(s, e, id, before, after)
  {
    StepKeepsInv(s, e);
    var s1 := Step(s, e).0;
    if Subject(s, e).None? || FileName(Subject(s, e).value) != FileName(id) {
      OthersUnchanged(s, e, FileName(id));
    } else {
      var own := Subject(s, e).value;
      ActionOfFile(s.files, own, id);
      ActionOfFile(s1.files, own, id);
      match e
      case DeviceStatus(reported, status) => StatusOutcome(s, reported, status);
      case Player(_, action) => PlayerOutcome(s, own, action);
    }
  }

  ghost function Run(s: Server, es: seq<Event>): Server {
    if es == [] then s else Step(Run(s, es[..|es| - 1]), es[|es| - 1]).0
  }

  lemma {:induction false} RunKeepsInv(s: Server, es: seq<Event>)
    requires Inv(s)
    ensures Inv(Run(s, es))
  {
    if es == [] {
    } else {
      RunKeepsInv(s, es[..|es| - 1]);
      StepKeepsInv(Run(s, es[..|es| - 1]), es[|es| - 1]);
    }
  }

  /**
   * In every run over any streams: if a command is no longer wanted, then at some step a player replaced it, or a
   * device reported a status that fulfils it.
   */
  lemma {:induction false} NoCommandLost(s: Server, es: seq<Event>, id: string) returns (k: nat)
    requires Inv(s) && Action(s.files, id) != Action(Run(s, es).files, id)
    ensures k < |es| && Inv(Run(s, es[..k]))
    ensures Action(Run(s, es[..k]).files, id) == Action(s.files, id)
    ensures var s1 := Run(s, es[..k]);
      Justified(s1, es[k], id, Action(s.files, id), Action(Step(s1, es[k]).0.files, id))
  {
    var n := |es| - 1;
    if es == [] {
      assert false;
    }
    RunKeepsInv(s, es[..n]);
    if Action(s.files, id) != Action(Run(s, es[..n]).files, id) {
      k := NoCommandLost(s, es[..n], id);
      assert es[..n][..k] == es[..k];
    } else {
      k := n;
      ChangeJustified(Run(s, es[..n]), es[n], id);
    }
  }

  // ---- a device's session ----

  /**
   * `msgParse` of the device. `setup` is whether `setAll` succeeds, should it be called: it is when streaming has to be
   * started from "ready".
   */
  function DeviceNext(ownId: string, status: string, streamId: string, action: string, setup: bool): string {
    if ownId != streamId then status
    else if action == "live" || action == "local" then
      if status == "ready" && !setup then status else action
    else if action == "off" then "ready"
    else status
  }

  /** The device follows an action for its own stream only, goes live or local, or back to ready, and knows no other. */
  lemma DeviceFollows(ownId: string, status: string, streamId: string, action: string, setup: bool)
    ensures ownId != streamId ==> DeviceNext(ownId, status, streamId, action, setup) == status
    ensures action == "off" ==> DeviceNext(ownId, status, ownId, action, setup) == "ready"
    ensures (action == "live" || action == "local") && (status != "ready" || setup) ==>
      DeviceNext(ownId, status, ownId, action, setup) == action
    ensures (action == "live" || action == "local") && status == "ready" && !setup ==>
      DeviceNext(ownId, status, ownId, action, setup) == "ready"
    ensures action != "live" && action != "local" && action != "off" ==>
      DeviceNext(ownId, status, streamId, action, setup) == status
  {
  }

  predicate SetupFails(status: string, action: string, setup: bool) {
    (action == "live" || action == "local") && status == "ready" && !setup
  }

  /** A session of stream `id`: messages sent, writes by players to its action, and failed set-ups, so far. */
  datatype Session = Session(
    server: Server,
    id: string,
    status: string,
    over: bool,
    messages: nat,
    writes: nat,
    failures: nat)

  /** A player acts on any stream, or the device sends its status and takes the answer. */
  datatype Move = Players(streamId: string, action: string) | Round(setup: bool)

  function Advance(x: Session, m: Move): Session {
    match m
    case Players(id, action) =>
      x.(server := OnPlayer(x.server, id, action).0,
         writes := x.writes + if FileName(id) == FileName(x.id) && action != "status" then 1 else 0)
    case Round(setup) =>
      if x.over then x
      else
        var (server1, reply) := OnStatus(x.server, Some(x.id), x.status);
        var x1 := x.(server := server1, messages := x.messages + 1);
        match reply
        case Ack => x1.(over := true)
        case Act(streamId, action) =>
          x1.(status := DeviceNext(x.id, x.status, streamId, action, setup),
              failures := x1.failures + if SetupFails(x.status, action, setup) then 1 else 0)
        case _ => x1
  }

  ghost function Play(x: Session, ms: seq<Move>): Session {
    if ms == [] then x else Advance(Play(x, ms[..|ms| - 1]), ms[|ms| - 1])
  }

  const ACTIONS := {"live", "local", "off", "done"}

  /** Players only ask for the status or one of the four actions. */
  ghost predicate Sensible(ms: seq<Move>) {
    forall i | 0 <= i < |ms| && ms[i].Players? :: ms[i].action == "status" || ms[i].action in ACTIONS
  }

  function Wanted(x: Session): string {
    Action(x.server.files, x.id)
  }

  /** While the session lasts, every message but one is accounted for by a write or a failed set-up. */
  ghost predicate Accounted(x: Session) {
    && Inv(x.server) && Wanted(x) in ACTIONS
    && (!x.over ==> x.messages <= x.writes + x.failures + if Satisfies(x.status, Wanted(x)) then 1 else 0)
    && (x.over ==> x.messages <= x.writes + x.failures + 2)
  }

  lemma PlayersAccounted(x: Session, id: string, action: string)
    requires Accounted(x) && (action == "status" || action in ACTIONS)
    ensures Accounted(Advance(x, Players(id, action)))
  {
    PlayerOutcome(x.server, id, action);
    var server1 := OnPlayer(x.server, id, action).0;
    if FileName(id) == FileName(x.id) {
      ActionOfFile(x.server.files, id, x.id);
      ActionOfFile(server1.files, id, x.id);
    } else {
      OthersUnchanged(x.server, Player(id, action), FileName(x.id));
    }
  }

  lemma RoundAccounted(x: Session, setup: bool)
    requires Accounted(x)
    ensures Accounted(Advance(x, Round(setup)))
  {
    if !x.over {
      StatusOutcome(x.server, Some(x.id), x.status);
    }
  }

  /**
   * Convergence: players may write any of the four actions, to any stream, as often as they like. A session has sent at
   * most two messages more than players wrote to its stream and set-ups failed, and while it lasts at most one more.
   */
  lemma {:induction false} Converges(x: Session, ms: seq<Move>)
    requires Inv(x.server) && Wanted(x) in {"live", "local", "off", "done"} && Sensible(ms)
    requires !x.over && x.messages == x.writes == x.failures == 0
    ensures Accounted(Play(x, ms))
  {
    if ms == [] {
    } else {
      var n := |ms| - 1;
      Converges(x, ms[..n]);
      match ms[n]
      case Players(id, action) => PlayersAccounted(Play(x, ms[..n]), id, action);
      case Round(setup) => RoundAccounted(Play(x, ms[..n]), setup);
    }
  }

  predicate IsWrite(m: Move, id: string) {
    m.Players? && FileName(m.streamId) == FileName(id) && m.action != "status"
  }

  /** The writes to stream `id`, the rounds, and the rounds in which a set-up would fail, among some moves. */
  function Writes(ms: seq<Move>, id: string): nat {
    if ms == [] then 0
    else
      var m := ms[|ms| - 1];
      Writes(ms[..|ms| - 1], id) + if IsWrite(m, id) then 1 else 0
  }

  function Rounds(ms: seq<Move>): nat {
    if ms == [] then 0 else Rounds(ms[..|ms| - 1]) + if ms[|ms| - 1].Round? then 1 else 0
  }

  function Refused(ms: seq<Move>): nat {
    if ms == [] then 0
    else
      var m := ms[|ms| - 1];
      Refused(ms[..|ms| - 1]) + if m.Round? && !m.setup then 1 else 0
  }

  lemma {:induction false} Counted(x: Session, ms: seq<Move>)
    requires Inv(x.server) && !x.over && x.messages == x.writes == x.failures == 0
    ensures var y := Play(x, ms);
      && Inv(y.server) && y.id == x.id && y.writes == Writes(ms, x.id) && y.failures <= Refused(ms)
      && (!y.over ==> y.messages == Rounds(ms))
  {
    hide FileName, Inv, OnStatus, OnPlayer, DeviceNext;
    if ms == [] {
    } else {
      var n := |ms| - 1;
      Counted(x, ms[..n]);
      CountStep(Play(x, ms[..n]), ms[n]);
    }
  }

  lemma CountStep(x: Session, m: Move)
    requires Inv(x.server)
    ensures var y := Advance(x, m);
      && Inv(y.server) && y.id == x.id
      && y.writes == x.writes + (if IsWrite(m, x.id) then 1 else 0)
      && y.failures <= x.failures + (if m.Round? && !m.setup then 1 else 0)
      && (!y.over ==> !x.over && y.messages == x.messages + if m.Round? then 1 else 0)
  {
    match m
    case Players(id, action) => StepKeepsInv(x.server, Player(id, action));
    case Round(setup) => StepKeepsInv(x.server, DeviceStatus(Some(x.id), x.status));
    hide OnStatus, OnPlayer, DeviceNext, FileName;
  }

  /**
   * So every session that is given two rounds more than its stream was written to and set-ups failed has ended, with no
   * more messages than that; with set-ups succeeding, after at most `2 + Writes(ms, x.id)` messages.
   */
  lemma EndsInTime(x: Session, ms: seq<Move>)
    requires Inv(x.server) && Wanted(x) in {"live", "local", "off", "done"} && Sensible(ms)
    requires !x.over && x.messages == x.writes == x.failures == 0
    requires Rounds(ms) >= Writes(ms, x.id) + Refused(ms) + 2
    ensures Play(x, ms).over && Play(x, ms).messages <= Writes(ms, x.id) + Refused(ms) + 2
  {
    Converges(x, ms);
    Counted(x, ms);
    hide Play, Writes, Refused, Rounds;
  }

  /** Rounds only: `setups(i)` is whether a set-up would succeed in round `i`. */
  ghost function Alone(x: Session, setups: nat -> bool, n: nat): Session {
    if n == 0 then x else Advance(Alone(x, setups, n - 1), Round(setups(n - 1)))
  }

  /** One answered status message. */
  lemma RoundOutcome(x: Session, setup: bool)
    requires Inv(x.server) && !x.over
    ensures var y := Advance(x, Round(setup));
      && Inv(y.server) && y.id == x.id && y.messages == x.messages + 1
      && (if Satisfies(x.status, Wanted(x)) then y.over && y.status == x.status
          else !y.over && Wanted(y) == Wanted(x) && y.status == DeviceNext(x.id, x.status, x.id, Wanted(x), setup))
  {
    StatusOutcome(x.server, Some(x.id), x.status);
    hide OnStatus;
  }

  /** The action has to be set up, and the device has not done so. */
  predicate NeedsSetup(status: string, action: string) {
    status == "ready" && (action == "live" || action == "local")
  }

  /** A status that neither fulfils the action nor changes on it, as far as set-ups fail. */
  ghost predicate Idles(status: string, action: string) {
    !Satisfies(status, action) && (action !in ACTIONS || NeedsSetup(status, action))
  }

  /** Such a session goes on as it is, round after round. */
  lemma {:induction false} IdlesOn(x: Session, setups: nat -> bool, n: nat)
    requires Inv(x.server) && !x.over && Idles(x.status, Wanted(x))
    requires NeedsSetup(x.status, Wanted(x)) ==> forall i | 0 <= i < n :: !setups(i)
    ensures var y := Alone(x, setups, n);
      Inv(y.server) && !y.over && Wanted(y) == Wanted(x) && y.status == x.status && y.id == x.id
  {
    hide Advance, Inv, Wanted;
    if n == 0 {
    } else {
      IdlesOn(x, setups, n - 1);
      RoundOutcome(Alone(x, setups, n - 1), setups(n - 1));
    }
  }

  /** An action outside the protocol that the device does not happen to report is sent for ever. */
  lemma UnknownNeverEnds(x: Session, setups: nat -> bool, n: nat)
    requires Inv(x.server) && !x.over && Wanted(x) !in ACTIONS && x.status != Wanted(x)
    ensures !Alone(x, setups, n).over && Alone(x, setups, n).status == x.status
  {
    IdlesOn(x, setups, n);
  }

  /** A ready device whose every set-up fails is sent live or local for ever. */
  lemma FailingNeverEnds(x: Session, setups: nat -> bool, n: nat)
    requires Inv(x.server) && !x.over && NeedsSetup(x.status, Wanted(x)) && forall i | 0 <= i < n :: !setups(i)
    ensures !Alone(x, setups, n).over && Alone(x, setups, n).status == "ready"
  {
    IdlesOn(x, setups, n);
  }

  /**
   * What a caller can tell beforehand: the device already reports the action, or it is off or done, or live or local
   * with no set-up to be made or one that succeeds.
   */
  ghost predicate CanEnd(status: string, action: string, setups: nat -> bool) {
    || status == action || action == "off" || action == "done"
    || ((action == "live" || action == "local") && (status != "ready" || exists i: nat :: setups(i)))
  }

  ghost predicate Ends(x: Session, setups: nat -> bool) {
    exists n: nat :: Alone(x, setups, n).over
  }

  /** Left alone, a session ends if and only if it can, whatever becomes of its set-ups. */
  lemma EndsExactly(x: Session, setups: nat -> bool)
    requires Inv(x.server) && !x.over
    ensures Ends(x, setups) <==> CanEnd(x.status, Wanted(x), setups)
  {
    if CanEnd(x.status, Wanted(x), setups) {
      var n := EndsAt(x, setups);
    } else {
      forall n: nat ensures !Alone(x, setups, n).over {
        IdlesOn(x, setups, n);
      }
    }
  }

  /**
   * When it ends: after at most two messages, or after the one behind the first successful set-up; the action is then
   * fulfilled.
   */
  lemma EndsAt(x: Session, setups: nat -> bool) returns (n: nat)
    requires Inv(x.server) && !x.over && CanEnd(x.status, Wanted(x), setups)
    ensures Alone(x, setups, n).over && Satisfies(Alone(x, setups, n).status, Wanted(x))
    ensures n <= 2 || (NeedsSetup(x.status, Wanted(x)) && setups(n - 2) && forall i | 0 <= i < n - 2 :: !setups(i))
  {
    hide Advance, Inv, Wanted;
    var first := 0;
    if NeedsSetup(x.status, Wanted(x)) {
      first := FirstSuccess(setups);
      IdlesOn(x, setups, first);
    }
    var y := Alone(x, setups, first);
    assert y.status == x.status && Wanted(y) == Wanted(x) && Inv(y.server) && !y.over;
    TwoRounds(y, setups(first), setups(first + 1));
    assert Alone(x, setups, first + 1) == Advance(y, Round(setups(first)));
    n := if Alone(x, setups, first + 1).over then first + 1 else first + 2;
  }

  /** Two rounds are enough once no set-up stands in the way. */
  lemma TwoRounds(x: Session, first: bool, second: bool)
    requires Inv(x.server) && !x.over && (Wanted(x) in ACTIONS || x.status == Wanted(x))
    requires NeedsSetup(x.status, Wanted(x)) ==> first
    ensures var y := Advance(x, Round(first)); var z := Advance(y, Round(second));
      if y.over then y.status == x.status && Satisfies(y.status, Wanted(x))
      else z.over && Satisfies(z.status, Wanted(x))
  {
    hide Advance, Inv, Wanted;
    RoundOutcome(x, first);
    var y := Advance(x, Round(first));
    if !y.over {
      RoundOutcome(y, second);
    }
  }

  lemma FirstSuccess(setups: nat -> bool) returns (first: nat)
    requires exists i: nat :: setups(i)
    ensures setups(first) && forall i | 0 <= i < first :: !setups(i)
  {
    var bound: nat :| setups(bound);
    first := 0;
    while !setups(first)
      invariant first <= bound && forall i | 0 <= i < first :: !setups(i)
      decreases bound - first
    {
      first := first + 1;
    }
  }

  // ---- the programs ----

  /** The server's process: the files, the globals of the device's handler, and what was sent. */
  class StreamServer {
    var files: Files
    var strmID: Option<string>
    var ack: bool
    var fault: bool
    var sent: seq<Reply>

    ghost function Abs(): Server
      reads this
    {
      Server(files, strmID, ack, fault)
    }

    constructor (stored: Files)
      ensures Abs() == Server(stored, None, false, false) && sent == []
    {
      files, strmID, ack, fault, sent := stored, None, false, false, [];
    }

    method NewJsonFile(id: string) returns (record: Record)
      modifies this`files
      ensures record == DefaultRecord(id) && files == old(files)[FileName(id) := record]
    {
      record := map[];
      record := record["streamId" := id];
      record := record["status" := "off"];
      record := record["action" := "live"];
      files := files[FileName(id) := record];
    }

    method JsonFromFile(id: string) returns (record: Record)
      modifies this`files
      ensures files == Open(old(files), id) && record == files[FileName(id)]
    {
      if FileName(id) in files {
        record := files[FileName(id)];
      } else {
        record := NewJsonFile(id);
      }
    }

    method SetJsonValue(key: string, value: string, id: string)
      modifies this`files
      ensures files == SetValue(old(files), key, value, id)
    {
      var record := JsonFromFile(id);
      record := record[key := value];
      files := files[FileName(id) := record];
    }

    method GetJsonValueFromFile(key: string, id: string) returns (value: Option<string>)
      modifies this`files
      ensures (files, value) == GetValue(old(files), key, id)
    {
      var record := JsonFromFile(id);
      if key !in record {
        record := record["action" := "off"];
        files := files[FileName(id) := record];
        return None;
      }
      return Some(record[key]);
    }

    method SigAck(id: string)
      modifies this
      ensures Abs() == Acknowledge(old(Abs()), id).0 && sent == old(sent) + [Ack]
    {
      sent := sent + [Ack];
      ack := true;
      SetJsonValue("action", "done", id);
    }

    /** Reads the stored action once more, to send it. */
    method SigAct(id: string)
      requires FileName(id) in files && "action" in files[FileName(id)]
      modifies this
      ensures Abs() == old(Abs()) && sent == old(sent) + [Act(id, files[FileName(id)]["action"])]
    {
      var action := GetJsonValueFromFile("action", id);
      sent := sent + [Act(id, action.value)];
    }

    /** `msgParse`: reads the stored action anew at each test. */
    method MsgParse(reported: Option<string>, status: string)
      modifies this
      ensures Abs() == OnStatus(old(Abs()), reported, status).0
      ensures sent == old(sent) + Sent(OnStatus(old(Abs()), reported, status).1)
    {
      if reported.None? && strmID.None? {
        fault := true;
        return;
      }
      if reported.Some? {
        strmID := reported;
      }
      var id := strmID.value;
      SetJsonValue("streamId", id, id);
      SetJsonValue("status", status, id);
      var stored := GetJsonValueFromFile("status", id);
      var action := GetJsonValueFromFile("action", id);
      if action.None? {
        fault := true;
        return;
      }
      if action.value == "done" {
        SigAck(id);
        return;
      }
      if status == "ready" {
        action := GetJsonValueFromFile("action", id);
        if action.value == "off" {
          SigAck(id);
          return;
        }
      }
      action := GetJsonValueFromFile("action", id);
      if status != action.value {
        SigAct(id);
      } else {
        SigAck(id);
      }
    }

    /** `websocket_write_back`. */
    method WriteBack(id: string, action: string)
      modifies this
      ensures Abs() == OnPlayer(old(Abs()), id, action).0
      ensures sent == old(sent) + Sent(OnPlayer(old(Abs()), id, action).1)
    {
      if action == "status" {
        var status := GetJsonValueFromFile("status", id);
        if status.None? {
          fault := true;
        } else {
          sent := sent + [Status(id, status.value)];
        }
      } else {
        SetJsonValue("action", action, id);
        sent := sent + [Ack];
      }
    }
  }

  function Sent(reply: Reply): seq<Reply> {
    if reply == Nothing then [] else [reply]
  }

  /** The device's process. Whether a set-up succeeds is for the media pipeline to say. */
  class Device {
    const streamId: string
    var status: string

    constructor (id: string, initial: string)
      ensures streamId == id && status == initial
    {
      streamId, status := id, initial;
    }

    /** `msgParse` of the device. */
    method MsgParse(id: string, action: string, setup: bool)
      modifies this
      ensures status == DeviceNext(streamId, old(status), id, action, setup)
    {
      if streamId == id {
        if action == "live" {
          if status == "ready" && !setup {
            return;
          }
          status := "live";
        } else if action == "local" {
          if status == "ready" && !setup {
            return;
          }
          status := "local";
        } else if action == "off" {
          status := "ready";
        }
      }
    }

    /** `SIGStatus`, the server's handler, and `receive`: one round of a session; true once it is acknowledged. */
    method Exchange(server: StreamServer, setup: bool, ghost x: Session) returns (acked: bool)
      requires x.server == server.Abs() && x.id == streamId && x.status == status && !x.over
      modifies this, server
      ensures var y := Advance(x, Round(setup));
        y.server == server.Abs() && y.status == status && y.over == acked
    {
      var before := |server.sent|;
      server.MsgParse(Some(streamId), status);
      if before < |server.sent| {
        match server.sent[before]
        case Ack => return true;
        case Act(id, action) => MsgParse(id, action, setup);
        case _ =>
      }
      return false;
    }
  }
}
