/**
 * Sender to application: the sender's queue, the frames, the receiver's reader and the receiver's connection, each at
 * any point of any run of its own.
 */
module WsEndToEnd {
  import opened Bytes
  import opened WsFraming
  import C = WsConnection
  import Q = WsSendQueue
  import R = WsReader

  /** Each posted item is one message's frame, however it is cut into segments. */
  ghost predicate Carries(masked: bool, items: seq<Q.Item>, ms: seq<Outgoing>) {
    && |items| == |ms|
    && forall i | 0 <= i < |ms| :: Sendable(ms[i]) && Concat(items[i].segments) == FrameBytes(masked, ms[i])
  }

  /** The server posts header and message, the client one stream; either carries its message. */
  lemma SegmentsCarry(op: Byte, payload: seq<Byte>, mask: seq<Byte>, header: seq<Byte>)
    requires Sendable(Outgoing(op, payload, mask))
    requires header + payload == FrameBytes(false, Outgoing(op, payload, mask))
    ensures Concat([header, payload]) == FrameBytes(false, Outgoing(op, payload, mask))
    ensures Concat([FrameBytes(true, Outgoing(op, payload, mask))]) == FrameBytes(true, Outgoing(op, payload, mask))
  {
    assert [header, payload][..1] == [header];
    assert Concat([header][..0]) == [];
    assert Concat([header]) == Concat([]) + header;
    var frame: seq<Byte> := FrameBytes(true, Outgoing(op, payload, mask));
    var none: seq<seq<Byte>> := [];
    assert [frame][..0] == none;
    hide FrameBytes;
  }

  lemma {:induction false} WireAppend(masked: bool, ms: seq<Outgoing>, m: Outgoing)
    requires Sendable(m) && forall n | n in ms :: Sendable(n)
    ensures WireBytes(masked, ms + [m]) == WireBytes(masked, ms) + FrameBytes(masked, m)
  {
    hide FrameBytes;
    if ms == [] {
      assert [] + [m] == [m] && [m][1..] == [];
      assert WireBytes(masked, [m]) == FrameBytes(masked, m) + WireBytes(masked, []);
    } else {
      assert (ms + [m])[1..] == ms[1..] + [m];
      WireAppend(masked, ms[1..], m);
    }
  }

  lemma {:induction false} FramesAreWireBytes(masked: bool, items: seq<Q.Item>, ms: seq<Outgoing>)
    requires Carries(masked, items, ms)
    ensures (forall m | m in ms :: Sendable(m)) && Q.Frames(items) == WireBytes(masked, ms)
  {
    hide FrameBytes, Concat;
    if ms == [] {
    } else {
      var n := |ms| - 1;
      FramesAreWireBytes(masked, items[..n], ms[..n]);
      WireAppend(masked, ms[..n], ms[n]);
      assert ms == ms[..n] + [ms[n]];
    }
  }

  lemma {:induction false} FramesPrefix(items: seq<Q.Item>, n: nat)
    requires n <= |items|
    ensures Q.Frames(items[..n]) <= Q.Frames(items)
  {
    if n == |items| {
      assert items[..n] == items;
    } else {
      FramesPrefix(items[..|items| - 1], n);
      assert items[..|items| - 1][..n] == items[..n];
    }
  }

  /** The socket never holds anything but the start of what was posted. */
  lemma WireIsPrefix(s: Q.State)
    requires Q.ErrorFree(s)
    ensures s.wire <= Q.Frames(s.posted)
  {
    var n := |s.log|;
    if n < |s.posted| {
      FramesPrefix(s.posted, n + 1);
      assert s.posted[..n + 1][..n] == s.posted[..n];
      assert Q.Frames(s.posted[..n]) + s.partial <= Q.Frames(s.posted[..n]) + Concat(s.posted[n].segments);
      hide Concat;
    } else {
      assert s.posted[..n] == s.posted;
    }
  }

  /** The bytes that reached the receiver are a start of `wire`: `leftover` with the handshake, then the chunks. */
  ghost predicate Reached(leftover: seq<Byte>, chunks: seq<seq<Byte>>, wire: seq<Byte>) {
    leftover + Concat(chunks) <= wire
  }

  lemma PrefixOfPrefix(a: seq<Byte>, b: seq<Byte>, c: seq<Byte>)
    requires a <= b <= c
    ensures a <= c
  {
  }

  lemma ReaderReportsPrefix(server: bool, leftover: seq<Byte>, s: seq<Byte>, whole: seq<Byte>)
    requires (server || leftover == []) && leftover + s <= whole
    ensures R.Feed(R.Initial(server, leftover), s).out <= Decode(server, whole)
  {
    var n := |leftover + s|;
    assert whole[..n] == leftover + s;
    R.DecodePrefix(server, whole, n);
    if server {
      R.ServerReadsPrefix(leftover, s);
    } else {
      R.ReadsMeaning(false, [], s);
      assert leftover + s == s;
    }
  }

  /**
   * At every moment of every run without write errors, however the bytes travel, the receiver has reported a start of
   * the messages that were sent. The server may have kept bytes from the handshake; the client may not.
   */
  lemma DeliveredIsSent(server: bool, ms: seq<Outgoing>, es: seq<Q.Event>, leftover: seq<Byte>, chunks: seq<seq<Byte>>)
    requires Q.ValidRun(Q.Initial(), es) && Q.AllOk(Q.After(Q.Initial(), es).log)
    requires Carries(server, Q.After(Q.Initial(), es).posted, ms)
    requires (server || leftover == []) && Reached(leftover, chunks, Q.After(Q.Initial(), es).wire)
    ensures R.FeedChunks(R.Initial(server, leftover), chunks).out <= Visible(ms)
  {
    var s := Q.After(Q.Initial(), es);
    hide R.Feed, R.FeedChunks, R.Initial, Q.Frames, Q.After, Q.ValidRun, Q.Initial;
    hide Carries, Decode, Visible, WireBytes, Concat;
    Q.ErrorFreeWire(es);
    WireIsPrefix(s);
    FramesAreWireBytes(server, s.posted, ms);
    R.ChunkingIrrelevant(R.Initial(server, leftover), chunks);
    PrefixOfPrefix(leftover + Concat(chunks), s.wire, WireBytes(server, ms));
    ReaderReportsPrefix(server, leftover, Concat(chunks), WireBytes(server, ms));
    DecodeWritten(server, ms);
  }

  /**
   * Once the sender is quiet and its bytes have arrived, all of them have been read but for the last as many as were
   * left over from the handshake. Without leftover every message up to the first close has been reported.
   */
  lemma QuietIsDelivered(server: bool, ms: seq<Outgoing>, es: seq<Q.Event>, leftover: seq<Byte>, chunks: seq<seq<Byte>>)
    requires Q.ValidRun(Q.Initial(), es) && Q.AllOk(Q.After(Q.Initial(), es).log)
    requires Q.After(Q.Initial(), es).strand == [] && Q.After(Q.Initial(), es).writes == []
    requires Carries(server, Q.After(Q.Initial(), es).posted, ms)
    requires (server || leftover == []) && leftover + Concat(chunks) == Q.After(Q.Initial(), es).wire
    ensures (forall m | m in ms :: Sendable(m)) && |leftover| <= |WireBytes(server, ms)|
    ensures var wire := WireBytes(server, ms);
      R.FeedChunks(R.Initial(server, leftover), chunks).out == Decode(server, wire[..|wire| - |leftover|])
    ensures leftover == [] ==> R.FeedChunks(R.Initial(server, leftover), chunks).out == Visible(ms)
  {
    Q.NothingStuck(es);
    FramesAreWireBytes(server, Q.After(Q.Initial(), es).posted, ms);
    var wire := WireBytes(server, ms);
    hide R.Feed, R.FeedChunks, R.Initial, Q.After, Q.ValidRun, Q.Initial, Carries, Decode, Visible, WireBytes, Concat;
    R.ChunkingIrrelevant(R.Initial(server, leftover), chunks);
    ReaderAtEnd(server, leftover, Concat(chunks), wire);
    if leftover == [] {
      assert wire[..|wire| - |leftover|] == wire;
      DecodeWritten(server, ms);
    }
  }

  lemma ReaderAtEnd(server: bool, leftover: seq<Byte>, arrived: seq<Byte>, wire: seq<Byte>)
    requires (server || leftover == []) && leftover + arrived == wire
    ensures |leftover| <= |wire|
    ensures R.Feed(R.Initial(server, leftover), arrived).out == Decode(server, wire[..|wire| - |leftover|])
  {
    hide R.Feed, Decode;
    if server {
      R.ServerReadsMeaning(leftover, arrived);
    } else {
      R.ReadsMeaning(false, [], arrived);
      assert leftover + arrived == arrived == wire[..|wire|];
    }
  }

  // ---- up to the application ----

  /** What a run of the connection takes from its reader. */
  function Taken(es: seq<C.Event>): seq<Event> {
    if es == [] then [] else TakenBy(es[0]) + Taken(es[1..])
  }

  function TakenBy(e: C.Event): seq<Event> {
    if !e.ReadDone? then []
    else match e.outcome
      case Whole(op, payload) => [Got(op, payload)]
      case Unmasked => [BadMask]
      case _ => []
  }

  /** The data among a receiver's events: all but close and ping. */
  function Data(events: seq<Event>): seq<(Byte, seq<Byte>)> {
    if events == [] then []
    else
      var e := events[0];
      (if e.Got? && e.op % 16 != 8 && e.op % 16 != 9 then [(e.op, e.payload)] else []) + Data(events[1..])
  }

  lemma {:induction false} DataAppend(a: seq<Event>, b: seq<Event>)
    ensures Data(a + b) == Data(a) + Data(b)
  {
    if a == [] {
      assert a + b == b;
    } else {
      assert (a + b)[1..] == a[1..] + b;
      DataAppend(a[1..], b);
    }
  }

  lemma {:induction false} TakenData(es: seq<C.Event>)
    ensures C.DataFrames(es) == Data(Taken(es))
  {
    if es == [] {
    } else {
      TakenData(es[1..]);
      DataAppend(TakenBy(es[0]), Taken(es[1..]));
      assert TakenBy(es[0]) != [] ==> TakenBy(es[0])[1..] == [];
    }
  }

  lemma DataPrefix(a: seq<Event>, b: seq<Event>)
    requires a <= b
    ensures Data(a) <= Data(b)
  {
  }

  /**
   * A client's run without write errors, the bytes of it that reached the server, and what a connection took of them.
   */
  ghost predicate Delivers(ms: seq<Outgoing>, es: seq<Q.Event>, leftover: seq<Byte>, chunks: seq<seq<Byte>>,
                           run: seq<C.Event>)
  {
    && Q.ValidRun(Q.Initial(), es) && Q.AllOk(Q.After(Q.Initial(), es).log)
    && Carries(true, Q.After(Q.Initial(), es).posted, ms)
    && Reached(leftover, chunks, Q.After(Q.Initial(), es).wire)
    && Taken(run) <= R.FeedChunks(R.Initial(true, leftover), chunks).out
  }

  lemma TakenIsSent(ms: seq<Outgoing>, es: seq<Q.Event>, leftover: seq<Byte>, chunks: seq<seq<Byte>>, run: seq<C.Event>)
    requires Delivers(ms, es, leftover, chunks, run)
    ensures Taken(run) <= Visible(ms)
  {
    DeliveredIsSent(true, ms, es, leftover, chunks);
    hide R.FeedChunks, Q.After, Q.ValidRun;
  }

  /**
   * End to end, client to server: what the server's application is given through `onmessage` is at every moment a start
   * of the data messages the client's application sent before its first close, unchanged and in order.
   */
  lemma ApplicationsAgree(ms: seq<Outgoing>, es: seq<Q.Event>, leftover: seq<Byte>, chunks: seq<seq<Byte>>,
                          s: C.State, run: seq<C.Event>)
    requires Delivers(ms, es, leftover, chunks, run)
    requires s == C.Initial(s.timeout, true) && C.ValidRun(s, run)
    ensures C.Messages(C.After(s, run).log) <= Data(Visible(ms))
  {
    TakenIsSent(ms, es, leftover, chunks, run);
    hide Delivers, C.After, C.ValidRun;
    C.MessagesAreDataFrames(s, run);
    TakenData(run);
    DataPrefix(Taken(run), Visible(ms));
  }

  // ---- closes ----

  /** What a receiver's events give `onclose`: a close frame's status and reason, or the protocol error. */
  function Closes(events: seq<Event>): seq<(int, seq<Byte>)> {
    if events == [] then [] else CloseOf(events[0]) + Closes(events[1..])
  }

  function CloseOf(e: Event): seq<(int, seq<Byte>)> {
    match e
    case Got(op, payload) => if IsClose(op) then [(CloseStatus(payload), CloseReason(payload))] else []
    case BadMask => [(1002, C.NOT_MASKED)]
  }

  lemma {:induction false} ClosesAppend(a: seq<Event>, b: seq<Event>)
    ensures Closes(a + b) == Closes(a) + Closes(b)
  {
    hide CloseOf;
    if a == [] {
      assert a + b == b;
    } else {
      assert (a + b)[1..] == a[1..] + b;
      ClosesAppend(a[1..], b);
    }
  }

  lemma {:induction false} TakenCloses(es: seq<C.Event>)
    ensures C.ClosesRead(es) == Closes(Taken(es))
  {
    if es == [] {
    } else {
      TakenCloses(es[1..]);
      ClosesAppend(TakenBy(es[0]), Taken(es[1..]));
      OneClose(es[0]);
      hide C.CloseRead, TakenBy;
    }
  }

  lemma OneClose(e: C.Event)
    ensures C.CloseRead(e) == Closes(TakenBy(e))
  {
    if TakenBy(e) != [] {
      assert TakenBy(e)[1..] == [];
    }
  }

  /**
   * End to end, client to server: what `onclose` is given is at every moment a start of the closes the client sent, the
   * first of which ends what is visible; so it is given that one, its status and reason unchanged, or nothing yet.
   */
  lemma ClosesAgree(ms: seq<Outgoing>, es: seq<Q.Event>, leftover: seq<Byte>, chunks: seq<seq<Byte>>,
                    s: C.State, run: seq<C.Event>)
    requires Delivers(ms, es, leftover, chunks, run)
    requires s == C.Initial(s.timeout, s.listening) && C.ValidRun(s, run)
    ensures C.Reported(C.After(s, run).log) <= Closes(Visible(ms))
  {
    TakenIsSent(ms, es, leftover, chunks, run);
    hide Delivers, C.After, C.ValidRun, Visible;
    C.ReportedAreRead(s, run);
    TakenCloses(run);
    var rest := Visible(ms)[|Taken(run)|..];
    assert Visible(ms) == Taken(run) + rest;
    ClosesAppend(Taken(run), rest);
  }

  /** Of the messages sent only the first close is visible as one. */
  lemma {:induction false} FirstCloseVisible(ms: seq<Outgoing>, c: nat)
    requires c < |ms| && ms[c].op % 16 == 8 && forall j | 0 <= j < c :: ms[j].op % 16 != 8
    ensures Closes(Visible(ms)) == [(CloseStatus(ms[c].payload), CloseReason(ms[c].payload))]
  {
    var first := Got(ms[0].op, ms[0].payload);
    if c == 0 {
      assert [first][1..] == [];
    } else {
      FirstCloseVisible(ms[1..], c - 1);
      assert Visible(ms)[1..] == Visible(ms[1..]);
      hide CloseStatus, CloseReason;
    }
  }

  lemma {:induction false} InReported(log: seq<C.Callback>, k: nat)
    requires k < |log| && log[k].OnClose?
    ensures (log[k].status, log[k].reason) in C.Reported(log)
  {
    if k == |log| - 1 {
    } else {
      InReported(log[..|log| - 1], k);
    }
  }

  /**
   * The close handshake end to end: if the client's first close is `send_close(status, reason)` with a 16-bit status,
   * `onclose` can only ever be called with that status and that reason.
   */
  lemma CloseReportedUnchanged(ms: seq<Outgoing>, es: seq<Q.Event>, leftover: seq<Byte>, chunks: seq<seq<Byte>>,
                               s: C.State, run: seq<C.Event>, c: nat, status: int, reason: seq<Byte>)
    requires Delivers(ms, es, leftover, chunks, run)
    requires s == C.Initial(s.timeout, s.listening) && C.ValidRun(s, run)
    requires c < |ms| && forall j | 0 <= j < c :: ms[j].op % 16 != 8
    requires ms[c].op == 136 && ms[c].payload == ClosePayload(status, reason) && 0 <= status < 65536
    ensures forall k | 0 <= k < |C.After(s, run).log| ::
      C.After(s, run).log[k].OnClose? ==> C.After(s, run).log[k] == C.OnClose(status, reason)
  {
    ClosesAgree(ms, es, leftover, chunks, s, run);
    FirstCloseVisible(ms, c);
    CloseRoundTrip(status, reason);
    var log := C.After(s, run).log;
    hide Delivers, C.ValidRun, Closes, ClosePayload, CloseStatus, CloseReason, C.After, C.Reported;
    forall k | 0 <= k < |log| && log[k].OnClose? ensures log[k] == C.OnClose(status, reason) {
      InReported(log, k);
    }
  }
}
