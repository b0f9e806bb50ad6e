/**
 * The send queue of a connection: sends are posted to a strand, one chain of asynchronous writes empties the queue.
 * An item has two segments on the server (header stream, message stream) and one on the client.
 */
module WsSendQueue {
  import opened Bytes

  datatype Item = Item(id: nat, segments: seq<seq<Byte>>)

  /** What the strand runs, first in first out. `sent` is the completion handler's `bytes_transferred`. */
  datatype Handler =
    | Enqueue(item: Item)
    | StartWrite
    | SegmentDone(segment: nat, ok: bool, sent: nat)

  /** An outstanding `async_write`. */
  datatype Write = Write(segment: nat, data: seq<Byte>, sent: nat)

  /** A finished item: whether it was written without error, and which of its bytes were. */
  datatype Attempt = Attempt(item: Item, ok: bool, bytes: seq<Byte>)

  /**
   * `posted` and `log` are history; `partial` is what the socket took of the item being written; `fired` are the
   * callbacks run, with their error status; `fault` marks a use of the front of an empty queue.
   */
  datatype State = State(
    posted: seq<Item>,
    strand: seq<Handler>,
    queue: seq<Item>,
    writes: seq<Write>,
    wire: seq<Byte>,
    partial: seq<Byte>,
    fired: seq<(nat, bool)>,
    log: seq<Attempt>,
    fault: bool)

  /** A caller sends; the strand runs its next handler; the socket takes `n` bytes of a write; a write ends. */
  datatype Event =
    | Send(segments: seq<seq<Byte>>)
    | Run
    | Transmit(w: nat, n: nat)
    | Finish(w: nat, ok: bool)

  function Initial(): State {
    State([], [], [], [], [], [], [], [], false)
  }

  /** What the environment may do: any of it at any time, but a write succeeds only when all its bytes are taken. */
  predicate Enabled(s: State, e: Event) {
    match e
    case Send(segments) => segments != []
    case Run => s.strand != []
    case Transmit(w, n) => w < |s.writes| && s.writes[w].sent + n <= |s.writes[w].data|
    case Finish(w, ok) => w < |s.writes| && (ok ==> s.writes[w].sent == |s.writes[w].data|)
  }

  function RunHandler(s: State, h: Handler): State {
    match h
    case Enqueue(item) =>
      var s1 := s.(queue := s.queue + [item]);
      if |s1.queue| == 1 then s1.(strand := s1.strand + [StartWrite]) else s1
    case StartWrite =>
      if s.queue == [] || s.queue[0].segments == [] then s.(fault := true)
      else s.(writes := s.writes + [Write(0, s.queue[0].segments[0], 0)])
    case SegmentDone(segment, ok, sent) =>
      if s.queue == [] then s.(fault := true)
      else
        var front := s.queue[0];
        if ok && segment + 1 < |front.segments| then
          s.(writes := s.writes + [Write(segment + 1, front.segments[segment + 1], 0)])
        else
          var s1 := s.(fired := s.fired + [(front.id, ok)],
                       log := s.log + [Attempt(front, ok, s.partial)],
                       partial := []);
          if ok then
            var s2 := s1.(queue := s1.queue[1..]);
            if |s2.queue| > 0 then s2.(strand := s2.strand + [StartWrite]) else s2
          else s1.(queue := [])
  }

  function Step(s: State, e: Event): State
    requires Enabled(s, e)
  {
    match e
    case Send(segments) =>
      var item := Item(|s.posted|, segments);
      s.(posted := s.posted + [item], strand := s.strand + [Enqueue(item)])
    case Run =>
      RunHandler(s.(strand := s.strand[1..]), s.strand[0])
    case Transmit(w, n) =>
      var write := s.writes[w];
      var bytes := write.data[write.sent..write.sent + n];
      s.(writes := s.writes[w := write.(sent := write.sent + n)], wire := s.wire + bytes, partial := s.partial + bytes)
    case Finish(w, ok) =>
      var write := s.writes[w];
      s.(writes := s.writes[..w] + s.writes[w + 1..],
         strand := s.strand + [SegmentDone(write.segment, ok, write.sent)])
  }

  ghost predicate ValidRun(s: State, es: seq<Event>)
    decreases |es|
  {
    es != [] ==> Enabled(s, es[0]) && ValidRun(Step(s, es[0]), es[1..])
  }

  ghost function After(s: State, es: seq<Event>): State
    requires ValidRun(s, es)
    decreases |es|
  {
    if es == [] then s else After(Step(s, es[0]), es[1..])
  }

  // ---- the invariant ----

  /** The sends still to be run, and the handlers of the writer chain. */
  function Sends(strand: seq<Handler>): seq<Item> {
    if strand == [] then []
    else (if strand[0].Enqueue? then [strand[0].item] else []) + Sends(strand[1..])
  }

  function Chain(strand: seq<Handler>): seq<Handler> {
    if strand == [] then []
    else (if strand[0].Enqueue? then [] else [strand[0]]) + Chain(strand[1..])
  }

  lemma {:induction false} Append(strand: seq<Handler>, h: Handler)
    ensures Sends(strand + [h]) == Sends(strand) + (if h.Enqueue? then [h.item] else [])
    ensures Chain(strand + [h]) == Chain(strand) + (if h.Enqueue? then [] else [h])
  {
    if strand != [] {
      assert (strand + [h])[1..] == strand[1..] + [h];
      Append(strand[1..], h);
    } else {
      assert [h][1..] == [];
    }
  }

  /** Everything posted before the queue's front has been finished or dropped. */
  function Gone(s: State): int {
    |s.posted| - |s.queue| - |Sends(s.strand)|
  }

  ghost predicate InOrder(s: State) {
    && (forall i | 0 <= i < |s.posted| :: s.posted[i].id == i && s.posted[i].segments != [])
    && 0 <= Gone(s)
    && s.queue + Sends(s.strand) == s.posted[Gone(s)..]
  }

  /** A writer is pending exactly when the queue is non-empty, and then there is exactly one. */
  ghost predicate OneWriter(s: State) {
    |Chain(s.strand)| + |s.writes| == if s.queue == [] then 0 else 1
  }

  /** The writer works on the front item, segment by segment, and `partial` is how far it got. */
  ghost predicate Progress(s: State) {
    && (s.queue == [] ==> s.partial == [])
    && (s.queue != [] && s.writes != [] ==>
          var w := s.writes[0];
          && w.segment < |s.queue[0].segments| && w.data == s.queue[0].segments[w.segment] && w.sent <= |w.data|
          && s.partial == Concat(s.queue[0].segments[..w.segment]) + w.data[..w.sent])
    && (s.queue != [] && Chain(s.strand) != [] ==> TokenProgress(s, Chain(s.strand)[0]))
  }

  ghost predicate TokenProgress(s: State, h: Handler)
    requires s.queue != []
  {
    match h
    case Enqueue(_) => true
    case StartWrite => s.partial == []
    case SegmentDone(segment, ok, sent) =>
      && segment < |s.queue[0].segments| && sent <= |s.queue[0].segments[segment]|
      && (ok ==> sent == |s.queue[0].segments[segment]|)
      && s.partial == Concat(s.queue[0].segments[..segment]) + s.queue[0].segments[segment][..sent]
  }

  function Sent(log: seq<Attempt>): seq<Byte> {
    if log == [] then [] else Sent(log[..|log| - 1]) + log[|log| - 1].bytes
  }

  /** What is recorded of the finished items: in post order, at most once, whole if written without error. */
  ghost predicate Recorded(s: State) {
    && s.wire == Sent(s.log) + s.partial
    && |s.fired| == |s.log|
    && (forall i | 0 <= i < |s.log| :: s.fired[i] == (s.log[i].item.id, s.log[i].ok))
    && (forall i | 0 <= i < |s.log| :: s.log[i].item.id < Gone(s) && s.log[i].item in s.posted)
    && (forall i, j | 0 <= i < j < |s.log| :: s.log[i].item.id < s.log[j].item.id)
    && (forall i | 0 <= i < |s.log| :: if s.log[i].ok then s.log[i].bytes == Concat(s.log[i].item.segments)
                                       else s.log[i].bytes <= Concat(s.log[i].item.segments))
  }

  ghost predicate AllOk(log: seq<Attempt>) {
    forall i | 0 <= i < |log| :: log[i].ok
  }

  /** Without a write error nothing was dropped. */
  ghost predicate NothingDropped(s: State) {
    AllOk(s.log) ==>
      && |s.log| == Gone(s)
      && forall i | 0 <= i < |s.log| :: s.log[i].item == s.posted[i]
  }

  ghost predicate Inv(s: State) {
    !s.fault && InOrder(s) && OneWriter(s) && Progress(s) && Recorded(s) && NothingDropped(s)
  }

  lemma SendKeepsInv(s: State, e: Event)
    requires Inv(s) && Enabled(s, e) && e.Send?
    ensures Inv(Step(s, e))
  {
    Append(s.strand, Enqueue(Item(|s.posted|, e.segments)));
    SendOrder(s, e);
  }

  lemma SendOrder(s: State, e: Event)
    requires InOrder(s) && Enabled(s, e) && e.Send?
    ensures InOrder(Step(s, e)) && Gone(Step(s, e)) == Gone(s)
  {
    var item := Item(|s.posted|, e.segments);
    Append(s.strand, Enqueue(item));
    assert (s.posted + [item])[Gone(s)..] == s.posted[Gone(s)..] + [item];
    assert s.queue + (Sends(s.strand) + [item]) == s.queue + Sends(s.strand) + [item];
  }

  lemma TransmitKeepsInv(s: State, e: Event)
    requires Inv(s) && Enabled(s, e) && e.Transmit?
    ensures Inv(Step(s, e))
  {
    assert e.w == 0 && |s.writes| == 1;
    TransmitProgress(s, e);
    var w := s.writes[0];
    Associate(Sent(s.log), s.partial, w.data[w.sent..w.sent + e.n]);
    SameHistory(s, Step(s, e));
  }

  /** Most steps leave the order and the records alone. */
  lemma SameHistory(s: State, s': State)
    requires InOrder(s) && Recorded(s) && NothingDropped(s)
    requires s'.posted == s.posted && Sends(s'.strand) == Sends(s.strand) && s'.queue == s.queue
    requires s'.log == s.log && s'.fired == s.fired && s'.wire == Sent(s.log) + s'.partial
    ensures InOrder(s') && Recorded(s') && NothingDropped(s')
  {
  }

  lemma KeptHistory(s: State, s': State)
    requires Recorded(s) && NothingDropped(s)
    requires s'.posted == s.posted && Gone(s') == Gone(s)
    requires s'.log == s.log && s'.fired == s.fired && s'.wire == s.wire && s'.partial == s.partial
    ensures Recorded(s') && NothingDropped(s')
  {
  }

  lemma Associate(a: seq<Byte>, b: seq<Byte>, c: seq<Byte>)
    ensures a + b + c == a + (b + c)
  {
  }

  lemma TransmitProgress(s: State, e: Event)
    requires Inv(s) && Enabled(s, e) && e.Transmit? && e.w == 0 && |s.writes| == 1
    ensures Progress(Step(s, e))
  {
  }

  lemma FinishKeepsInv(s: State, e: Event)
    requires Inv(s) && Enabled(s, e) && e.Finish?
    ensures Inv(Step(s, e))
  {
    var w := s.writes[0];
    assert e.w == 0;
    Append(s.strand, SegmentDone(w.segment, e.ok, w.sent));
  }

  lemma EnqueueKeepsInv(s: State, item: Item)
    requires Inv(s) && s.strand != [] && s.strand[0] == Enqueue(item)
    ensures Inv(Step(s, Run))
  {
    EnqueueOrder(s, item);
    EnqueueWriter(s, item);
    hide InOrder, OneWriter, Progress, Recorded, NothingDropped, Gone;
    KeptHistory(s, Step(s, Run));
  }

  lemma EnqueueWriter(s: State, item: Item)
    requires OneWriter(s) && Progress(s) && !s.fault && s.strand != [] && s.strand[0] == Enqueue(item)
    ensures var s' := Step(s, Run); OneWriter(s') && Progress(s') && !s'.fault
  {
    var s', rest := Step(s, Run), s.strand[1..];
    Append(rest, StartWrite);
    assert Chain(s.strand) == Chain(rest);
    if s.queue != [] {
      assert s'.queue[0] == s.queue[0];
    }
  }

  lemma EnqueueOrder(s: State, item: Item)
    requires InOrder(s) && s.strand != [] && s.strand[0] == Enqueue(item)
    ensures InOrder(Step(s, Run)) && Gone(Step(s, Run)) == Gone(s)
  {
    var rest := s.strand[1..];
    Append(rest, StartWrite);
    assert s.queue + ([item] + Sends(rest)) == s.queue + [item] + Sends(rest);
  }

  lemma StartKeepsInv(s: State)
    requires Inv(s) && s.strand != [] && s.strand[0] == StartWrite
    ensures Inv(Step(s, Run))
  {
    var s' := Step(s, Run);
    assert Chain(s.strand) == [StartWrite] + Chain(s.strand[1..]);
    assert s.queue[0] == s.posted[Gone(s)] && s.queue[0].segments[..0] == [];
    SameHistory(s, s');
    assert s'.writes == [Write(0, s.queue[0].segments[0], 0)];
  }

  /** The bytes of the front item written once `h` reports: whole segments before, all or part of the last one. */
  lemma DoneBytes(s: State, h: Handler)
    requires Inv(s) && s.strand != [] && s.strand[0] == h && h.SegmentDone?
    ensures s.queue != [] && h.segment < |s.queue[0].segments|
    ensures h.ok ==> s.partial == Concat(s.queue[0].segments[..h.segment + 1])
    ensures s.partial <= Concat(s.queue[0].segments)
  {
    assert Chain(s.strand)[0] == h;
    var segments := s.queue[0].segments;
    ConcatSplit(segments, h.segment);
    var last := segments[h.segment];
    assert h.ok ==> last[..h.sent] == last;
    assert Concat(segments[..h.segment]) + last[..h.sent] <= Concat(segments[..h.segment]) + last;
  }

  lemma {:induction false} ConcatSplit(segments: seq<seq<Byte>>, n: nat)
    requires n < |segments|
    ensures Concat(segments[..n + 1]) == Concat(segments[..n]) + segments[n]
    ensures Concat(segments[..n + 1]) <= Concat(segments)
    decreases |segments|
  {
    assert segments[..n + 1][..n] == segments[..n];
    if n + 1 == |segments| {
      assert segments[..n + 1] == segments;
    } else {
      var most := segments[..|segments| - 1];
      ConcatSplit(most, n);
      assert most[..n + 1] == segments[..n + 1];
    }
  }

  lemma NextSegmentKeepsInv(s: State, h: Handler)
    requires Inv(s) && s.strand != [] && s.strand[0] == h && h.SegmentDone?
    requires h.ok && h.segment + 1 < |s.queue[0].segments|
    ensures Inv(Step(s, Run))
  {
    DoneBytes(s, h);
    assert |Chain(s.strand)| == 1 && s.writes == [];
    SameHistory(s, Step(s, Run));
    var data := s.queue[0].segments[h.segment + 1];
    assert s.partial == Concat(s.queue[0].segments[..h.segment + 1]) + data[..0];
  }

  /** The record of a finished item. */
  lemma RecordFront(s: State, ok: bool, s': State)
    requires Inv(s) && s.queue != []
    requires if ok then s.partial == Concat(s.queue[0].segments) else s.partial <= Concat(s.queue[0].segments)
    requires s'.fired == s.fired + [(s.queue[0].id, ok)]
    requires s'.log == s.log + [Attempt(s.queue[0], ok, s.partial)]
    requires s'.wire == s.wire && s'.partial == [] && s'.posted == s.posted && Gone(s') > Gone(s)
    ensures Recorded(s')
  {
    assert s.queue[0] == s.posted[Gone(s)];
    assert s'.log[..|s'.log| - 1] == s.log;
    assert Sent(s'.log) + [] == Sent(s'.log);
  }

  lemma ItemDoneKeepsInv(s: State, h: Handler)
    requires Inv(s) && s.strand != [] && s.strand[0] == h && h.SegmentDone?
    requires h.ok && h.segment + 1 >= |s.queue[0].segments|
    ensures Inv(Step(s, Run))
  {
    DoneBytes(s, h);
    assert s.queue[0].segments[..h.segment + 1] == s.queue[0].segments;
    var s', rest := Step(s, Run), s.strand[1..];
    Append(rest, StartWrite);
    ItemDoneOrder(s, s', rest);
    RecordFront(s, true, s');
    assert Chain(s.strand) == [h] + Chain(rest);
    KeepsNothingDropped(s, s');
  }

  lemma ItemDoneOrder(s: State, s': State, rest: seq<Handler>)
    requires InOrder(s) && s.queue != [] && Sends(rest) == Sends(s.strand)
    requires s'.posted == s.posted && s'.queue == s.queue[1..] && Sends(s'.strand) == Sends(rest)
    ensures InOrder(s') && Gone(s') == Gone(s) + 1
  {
    assert |s.queue + Sends(rest)| == |s.posted| - Gone(s);
    DropFirst(s.queue, Sends(rest));
    SliceOfSuffix(s.posted, Gone(s), 1);
  }

  lemma DropFirst<T>(a: seq<T>, b: seq<T>)
    requires a != []
    ensures (a + b)[1..] == a[1..] + b
  {
  }

  lemma KeepsNothingDropped(s: State, s': State)
    requires Inv(s) && s.queue != [] && s'.posted == s.posted && Gone(s') == Gone(s) + 1
    requires s'.log == s.log + [Attempt(s.queue[0], true, s.partial)]
    ensures NothingDropped(s')
  {
    assert s.queue[0] == s.posted[Gone(s)];
    if AllOk(s'.log) {
      forall i | 0 <= i < |s.log| ensures s.log[i].ok {
        assert s'.log[i] == s.log[i];
      }
    }
  }

  lemma ErrorKeepsInv(s: State, h: Handler)
    requires Inv(s) && s.strand != [] && s.strand[0] == h && h.SegmentDone? && !h.ok
    ensures Inv(Step(s, Run))
    ensures Step(s, Run).queue == [] && Step(s, Run).writes == [] && Chain(Step(s, Run).strand) == []
  {
    DoneBytes(s, h);
    var s', rest := Step(s, Run), s.strand[1..];
    assert Chain(s.strand) == [h] + Chain(rest);
    DroppedOrder(s, s');
    RecordFront(s, false, s');
    assert !s'.log[|s.log|].ok;
  }

  lemma DroppedOrder(s: State, s': State)
    requires InOrder(s) && s'.posted == s.posted && s'.queue == [] && Sends(s'.strand) == Sends(s.strand)
    ensures InOrder(s') && Gone(s') == Gone(s) + |s.queue|
  {
  }

  lemma StepKeepsInv(s: State, e: Event)
    requires Inv(s) && Enabled(s, e)
    ensures Inv(Step(s, e))
  {
    match e
    case Send(_) => SendKeepsInv(s, e);
    case Transmit(_, _) => TransmitKeepsInv(s, e);
    case Finish(_, _) => FinishKeepsInv(s, e);
    case Run =>
      var h := s.strand[0];
      match h
      case Enqueue(item) => EnqueueKeepsInv(s, item);
      case StartWrite => StartKeepsInv(s);
      case SegmentDone(segment, ok, _) =>
        DoneBytes(s, h);
        if !ok {
          ErrorKeepsInv(s, h);
        } else if segment + 1 < |s.queue[0].segments| {
          NextSegmentKeepsInv(s, h);
        } else {
          ItemDoneKeepsInv(s, h);
        }
  }

  // ---- every interleaving ----

  lemma {:induction false} RunKeepsInv(s: State, es: seq<Event>)
    requires Inv(s) && ValidRun(s, es)
    ensures Inv(After(s, es))
    decreases |es|
  {
    if es == [] {
    } else {
      StepKeepsInv(s, es[0]);
      RunKeepsInv(Step(s, es[0]), es[1..]);
    }
  }

  /** A write is pending exactly when the queue is non-empty, never two, and no empty queue is ever touched. */
  lemma OneWriterAlways(es: seq<Event>)
    requires ValidRun(Initial(), es)
    ensures var s := After(Initial(), es);
      !s.fault && |Chain(s.strand)| + |s.writes| == if s.queue == [] then 0 else 1
  {
    RunKeepsInv(Initial(), es);
  }

  function Frames(items: seq<Item>): seq<Byte> {
    if items == [] then [] else Frames(items[..|items| - 1]) + Concat(items[|items| - 1].segments)
  }

  lemma {:induction false} SentFrames(log: seq<Attempt>, items: seq<Item>)
    requires |items| == |log|
    requires forall i | 0 <= i < |log| :: log[i].ok && log[i].item == items[i]
    requires forall i | 0 <= i < |log| :: log[i].bytes == Concat(log[i].item.segments)
    ensures Sent(log) == Frames(items)
  {
    if log == [] {
    } else {
      SentFrames(log[..|log| - 1], items[..|log| - 1]);
    }
  }

  lemma PartialIsPrefix(s: State)
    requires Inv(s) && s.queue != []
    ensures s.partial <= Concat(s.queue[0].segments)
  {
    var segments := s.queue[0].segments;
    if s.writes != [] {
      var w := s.writes[0];
      ConcatSplit(segments, w.segment);
      assert Concat(segments[..w.segment]) + w.data[..w.sent] <= Concat(segments[..w.segment]) + w.data;
    } else {
      assert Chain(s.strand) != [];
      var h := Chain(s.strand)[0];
      ChainHasNoSends(s.strand);
      if h.SegmentDone? {
        ConcatSplit(segments, h.segment);
        var last := segments[h.segment];
        assert Concat(segments[..h.segment]) + last[..h.sent] <= Concat(segments[..h.segment]) + last;
      }
    }
  }

  lemma {:induction false} ChainHasNoSends(strand: seq<Handler>)
    ensures forall h | h in Chain(strand) :: !h.Enqueue?
  {
    if strand == [] {
    } else {
      ChainHasNoSends(strand[1..]);
    }
  }

  /** What the wire and the callbacks are as long as every finished item was written without error. */
  ghost predicate ErrorFree(s: State) {
    var n := |s.log|;
    && n <= |s.posted|
    && s.wire == Frames(s.posted[..n]) + s.partial
    && |s.fired| == n && (forall i | 0 <= i < n :: s.fired[i] == (i, true))
    && (n < |s.posted| ==> s.partial <= Concat(s.posted[n].segments))
    && (n == |s.posted| ==> s.partial == [])
  }

  lemma ErrorFreeState(s: State)
    requires Inv(s) && AllOk(s.log)
    ensures ErrorFree(s)
  {
    SentFrames(s.log, s.posted[..|s.log|]);
    if s.queue != [] {
      PartialIsPrefix(s);
      assert s.queue[0] == s.posted[Gone(s)];
    }
  }

  /**
   * In a run without write errors the socket has received whole items in the order they were posted, then a prefix of
   * the next one; each finished item's callback has run once, in order, without error.
   */
  lemma ErrorFreeWire(es: seq<Event>)
    requires ValidRun(Initial(), es)
    requires AllOk(After(Initial(), es).log)
    ensures ErrorFree(After(Initial(), es))
  {
    RunKeepsInv(Initial(), es);
    ErrorFreeState(After(Initial(), es));
  }

  /** Nothing gets stuck: when no handler and no write is left, all that was posted is on the wire. */
  lemma NothingStuck(es: seq<Event>)
    requires ValidRun(Initial(), es)
    requires AllOk(After(Initial(), es).log)
    requires After(Initial(), es).strand == [] && After(Initial(), es).writes == []
    ensures After(Initial(), es).wire == Frames(After(Initial(), es).posted)
  {
    RunKeepsInv(Initial(), es);
    hide Inv, Initial;
    QuietIsSent(After(Initial(), es));
  }

  lemma QuietIsSent(s: State)
    requires Inv(s) && AllOk(s.log) && s.strand == [] && s.writes == []
    ensures s.wire == Frames(s.posted)
  {
    ErrorFreeState(s);
    assert s.posted[..|s.log|] == s.posted;
  }

  /** Callbacks fired in post order and at most once; the wire is the sum of the attempts, each whole or cut short. */
  ghost predicate History(s: State) {
    && (forall i, j | 0 <= i < j < |s.fired| :: s.fired[i].0 < s.fired[j].0 < |s.posted|)
    && |s.fired| == |s.log|
    && (forall i | 0 <= i < |s.log| :: s.fired[i] == (s.log[i].item.id, s.log[i].ok) && s.log[i].item in s.posted)
    && (forall i | 0 <= i < |s.log| :: s.log[i].bytes <= Concat(s.log[i].item.segments))
    && (forall i | 0 <= i < |s.log| && s.log[i].ok :: s.log[i].bytes == Concat(s.log[i].item.segments))
    && s.wire == Sent(s.log) + s.partial
  }

  lemma HistoryOf(s: State)
    requires Inv(s)
    ensures History(s)
  {
  }

  /**
   * In every run: callbacks fire in post order and at most once, and the wire is what each finished item contributed,
   * whole, or cut short by its write error.
   */
  lemma EveryRun(es: seq<Event>)
    requires ValidRun(Initial(), es)
    ensures History(After(Initial(), es))
  {
    RunKeepsInv(Initial(), es);
    hide After, Inv, Initial;
    HistoryOf(After(Initial(), es));
  }

  /** With an empty queue nothing happens but sends, until the strand runs one of them. */
  lemma {:induction false} IdleUntilRun(s: State, es: seq<Event>)
    requires Inv(s) && s.queue == [] && ValidRun(s, es) && forall i | 0 <= i < |es| :: es[i] != Run
    ensures var s' := After(s, es); Inv(s') && s'.queue == [] && s'.writes == [] && s'.wire == s.wire
    decreases |es|
  {
    if es == [] {
    } else {
      assert es[0].Send?;
      StepKeepsInv(s, es[0]);
      IdleUntilRun(Step(s, es[0]), es[1..]);
      hide Inv;
    }
  }

  /** What the strand then runs is a send, and that starts the one writer. */
  lemma EnqueueStarts(s: State)
    requires Inv(s) && s.queue == [] && s.strand != []
    ensures s.strand[0].Enqueue?
    ensures var s' := Step(s, Run);
      s'.queue == [s.strand[0].item] && s'.writes == [] && Chain(s'.strand) == [StartWrite]
  {
    Append(s.strand[1..], StartWrite);
  }

  lemma ErrorDrops(s: State, h: Handler)
    requires Inv(s) && s.strand != [] && s.strand[0] == h && h.SegmentDone? && !h.ok
    ensures s.queue != []
    ensures var s1 := Step(s, Run);
      && Inv(s1) && s1.queue == [] && s1.writes == [] && Chain(s1.strand) == []
      && s1.fired == s.fired + [(s.queue[0].id, false)]
  {
    ErrorKeepsInv(s, h);
    DoneBytes(s, h);
    hide Inv, Chain;
  }

  /**
   * A write error drops the queue and ends the chain. Whatever is sent meanwhile, the next handler to run is a send,
   * and it starts a new chain with its own item.
   */
  lemma ErrorRestarts(s: State, h: Handler, es: seq<Event>)
    requires Inv(s) && s.strand != [] && s.strand[0] == h && h.SegmentDone? && !h.ok
    requires ValidRun(Step(s, Run), es) && forall i | 0 <= i < |es| :: es[i] != Run
    ensures s.queue != []
    ensures var s1 := Step(s, Run);
      s1.queue == [] && s1.writes == [] && Chain(s1.strand) == [] && s1.fired == s.fired + [(s.queue[0].id, false)]
    ensures var s2 := After(Step(s, Run), es);
      && s2.queue == [] && s2.writes == [] && s2.wire == Step(s, Run).wire
      && (s2.strand != [] ==>
            && s2.strand[0].Enqueue? && Step(s2, Run).queue == [s2.strand[0].item]
            && Chain(Step(s2, Run).strand) == [StartWrite])
  {
    ErrorDrops(s, h);
    hide Inv, Step, After, ValidRun, Chain;
    IdleUntilRun(Step(s, Run), es);
    var s2 := After(Step(s, Run), es);
    if s2.strand != [] {
      EnqueueStarts(s2);
    }
  }

  // ---- the connection's methods ----

  class Connection {
    var sendQueue: seq<Item>
    // The strand, the socket and the history the properties speak of.
    var strand: seq<Handler>
    var writes: seq<Write>
    var posted: seq<Item>
    ghost var wire: seq<Byte>
    ghost var partial: seq<Byte>
    ghost var fired: seq<(nat, bool)>
    ghost var log: seq<Attempt>

    ghost function Abs(): State
      reads this
    {
      State(posted, strand, sendQueue, writes, wire, partial, fired, log, false)
    }

    constructor ()
      ensures Abs() == Initial()
    {
      sendQueue, strand, writes, posted := [], [], [], [];
      wire, partial, fired, log := [], [], [], [];
    }

    /** `send`, once the header is built: everything else happens on the strand. */
    method Post(segments: seq<seq<Byte>>)
      requires segments != []
      modifies this
      ensures Abs() == Step(old(Abs()), Send(segments))
    {
      var item := Item(|posted|, segments);
      posted := posted + [item];
      strand := strand + [Enqueue(item)];
    }

    /** The strand runs its next handler; no handler may touch an empty queue, and in no run does one. */
    method RunNext()
      requires strand != [] && !Step(Abs(), Run).fault
      modifies this
      ensures Abs() == Step(old(Abs()), Run)
    {
      var h := strand[0];
      strand := strand[1..];
      match h
      case Enqueue(item) =>
        sendQueue := sendQueue + [item];
        if |sendQueue| == 1 {
          SendFromQueue();
        }
      case StartWrite =>
        writes := writes + [Write(0, sendQueue[0].segments[0], 0)];
      case SegmentDone(segment, ok, sent) =>
        OnWritten(segment, ok, sent);
    }

    /** `send_from_queue`: posts the start of the next write. */
    method SendFromQueue()
      modifies this`strand
      ensures strand == old(strand) + [StartWrite]
    {
      strand := strand + [StartWrite];
    }

    /** The completion handler of either `async_write`. */
    method OnWritten(segment: nat, ok: bool, sent: nat)
      requires sendQueue != []
      modifies this
      ensures Abs() == RunHandler(old(Abs()), SegmentDone(segment, ok, sent))
    {
      var front := sendQueue[0];
      if ok && segment + 1 < |front.segments| {
        writes := writes + [Write(segment + 1, front.segments[segment + 1], 0)];
      } else {
        fired := fired + [(front.id, ok)];
        log := log + [Attempt(front, ok, partial)];
        partial := [];
        if ok {
          sendQueue := sendQueue[1..];
          if |sendQueue| > 0 {
            SendFromQueue();
          }
        } else {
          sendQueue := [];
        }
      }
    }
  }
}
