/** The frame readers of both endpoints: a chain of `async_read(transfer_exactly(n))` handlers over a stream buffer. */
module WsReader {
  import opened Bytes
  import opened WsFraming

  /** The read outstanding: two header octets, a longer length, the content, or none any more. */
  datatype Phase =
    | Header
    | Extension(op: Byte, size: nat)
    | Content(op: Byte, length: nat)
    | Stopped

  /**
   * `need` is what the outstanding read still has to fetch, `buf` the stream buffer, `out` what was reported so far.
   * The server reads every frame from one buffer; the client starts each frame with a fresh one.
   */
  datatype Reader = Reader(server: bool, phase: Phase, need: nat, buf: seq<Byte>, out: seq<Event>)

  function Initial(server: bool, leftover: seq<Byte>): Reader {
    Reader(server, Header, 2, leftover, [])
  }

  /** The size of a phase's whole read. */
  function ReadSize(server: bool, p: Phase): nat {
    match p
    case Header => 2
    case Extension(_, size) => size
    case Content(_, length) => MaskSize(server) + length
    case Stopped => 0
  }

  ghost predicate Valid(r: Reader) {
    && r.need <= ReadSize(r.server, r.phase)
    && |r.buf| + r.need >= ReadSize(r.server, r.phase)
  }

  /** Some bytes must still arrive before a handler runs. */
  ghost predicate Waiting(r: Reader) {
    Valid(r) && (r.need == 0 <==> r.phase.Stopped?)
  }

  // ---- the completion handlers ----

  function BeginContent(r: Reader, op: Byte, length: nat): Reader {
    r.(phase := Content(op, length), need := MaskSize(r.server) + length)
  }

  function AfterHeader(r: Reader): Reader
    requires |r.buf| >= 2
  {
    var rest := r.(buf := r.buf[2..]);
    if r.server != (r.buf[1] >= 128) then
      rest.(phase := Stopped, need := 0, out := r.out + [BadMask])
    else
      var code := r.buf[1] % 128;
      var ext := ExtensionSize(code);
      if ext > 0 then rest.(phase := Extension(r.buf[0], ext), need := ext)
      else BeginContent(rest, r.buf[0], code)
  }

  function AfterExtension(r: Reader): Reader
    requires r.phase.Extension? && |r.buf| >= r.phase.size
  {
    BeginContent(r.(buf := r.buf[r.phase.size..]), r.phase.op, BigEndianValue(r.buf[..r.phase.size]))
  }

  function AfterContent(r: Reader): Reader
    requires r.phase.Content? && |r.buf| >= ReadSize(r.server, r.phase)
  {
    var op, end := r.phase.op, ReadSize(r.server, r.phase);
    var payload := if r.server then Masked(r.buf[4..end], r.buf[..4]) else r.buf;
    var next := r.(buf := if r.server then r.buf[end..] else [], out := r.out + [Got(op, payload)]);
    if IsClose(op) then next.(phase := Stopped, need := 0) else next.(phase := Header, need := 2)
  }

  function Handle(r: Reader): (r': Reader)
    requires Valid(r) && !r.phase.Stopped? && r.need == 0
  {
    match r.phase
    case Header => AfterHeader(r)
    case Extension(_, _) => AfterExtension(r)
    case Content(_, _) => AfterContent(r)
  }

  lemma HandleKeepsValid(r: Reader)
    requires Valid(r) && !r.phase.Stopped? && r.need == 0
    ensures Valid(Handle(r))
  {
  }

  function HandlersLeft(r: Reader): nat {
    if r.need > 0 then 0
    else match r.phase
      case Header => 3
      case Extension(_, _) => 2
      case Content(_, _) => 1
      case Stopped => 0
  }

  /** Runs handlers until a read has something left to fetch: `transfer_exactly(0)` completes at once. */
  function Settle(r: Reader): (r': Reader)
    requires Valid(r)
    ensures Waiting(r')
    decreases HandlersLeft(r)
  {
    if r.need == 0 && !r.phase.Stopped? then
      HandleKeepsValid(r);
      Settle(Handle(r))
    else r
  }

  // ---- arriving bytes ----

  function Arrive(r: Reader, b: Byte): (r': Reader)
    requires Waiting(r)
    ensures Waiting(r')
  {
    if r.phase.Stopped? then r else Settle(r.(need := r.need - 1, buf := r.buf + [b]))
  }

  function Feed(r: Reader, s: seq<Byte>): (r': Reader)
    requires Waiting(r)
    ensures Waiting(r')
    decreases |s|
  {
    if s == [] then r else Feed(Arrive(r, s[0]), s[1..])
  }

  lemma {:induction false} FeedConcat(r: Reader, s: seq<Byte>, t: seq<Byte>)
    requires Waiting(r)
    ensures Feed(r, s + t) == Feed(Feed(r, s), t)
    decreases |s|
  {
    if s == [] {
      assert s + t == t;
    } else {
      assert (s + t)[1..] == s[1..] + t;
      FeedConcat(Arrive(r, s[0]), s[1..], t);
    }
  }

  function FeedChunks(r: Reader, chunks: seq<seq<Byte>>): (r': Reader)
    requires Waiting(r)
    ensures Waiting(r')
  {
    if chunks == [] then r else Feed(FeedChunks(r, chunks[..|chunks| - 1]), chunks[|chunks| - 1])
  }

  /** How the network cuts the stream into chunks makes no difference. */
  lemma {:induction false} ChunkingIrrelevant(r: Reader, chunks: seq<seq<Byte>>)
    requires Waiting(r)
    ensures FeedChunks(r, chunks) == Feed(r, Concat(chunks))
  {
    if chunks == [] {
    } else {
      var n := |chunks| - 1;
      ChunkingIrrelevant(r, chunks[..n]);
      FeedConcat(r, Concat(chunks[..n]), chunks[n]);
    }
  }

  /** A stretch within one read only fills the buffer; the handlers run once, behind it. */
  lemma {:induction false} FeedBulk(r: Reader, s: seq<Byte>)
    requires Waiting(r) && |s| <= r.need
    ensures Feed(r, s) == Settle(r.(need := r.need - |s|, buf := r.buf + s))
    decreases |s|
  {
    if s == [] {
      assert r.buf + s == r.buf;
    } else {
      var r1 := r.(need := r.need - 1, buf := r.buf + [s[0]]);
      assert r1.buf + s[1..] == r.buf + s;
      if |s| == 1 {
        assert s[1..] == [] && r1.buf == r.buf + s;
      } else {
        FeedBulk(r1, s[1..]);
      }
    }
  }

  lemma {:induction false} FeedStopped(r: Reader, s: seq<Byte>)
    requires Waiting(r) && r.phase.Stopped?
    ensures Feed(r, s) == r
  {
    if s == [] {
    } else {
      FeedStopped(r, s[1..]);
    }
  }

  // ---- one frame, with `k` bytes of the stream `t` in the buffer ahead of the socket ----

  /** One whole read: nothing is reported before its last byte, and its handler sees exactly that byte last. */
  lemma ReadArrives(r: Reader, t: seq<Byte>)
    requires Valid(r) && !r.phase.Stopped? && r.need == ReadSize(r.server, r.phase)
    ensures |t| < r.need ==> Feed(Settle(r), t).out == r.out
    ensures |t| >= r.need ==>
      (Feed(Settle(r), t) == Feed(Settle(Handle(r.(need := 0, buf := r.buf + t[..r.need]))), t[r.need..]))
  {
    if |t| < r.need {
      FeedBulk(r, t);
    } else {
      var full := r.(need := 0, buf := r.buf + t[..r.need]);
      assert t == t[..r.need] + t[r.need..];
      if r.need == 0 {
        assert r.buf + t[..0] == r.buf;
      } else {
        FeedConcat(r, t[..r.need], t[r.need..]);
        FeedBulk(r, t[..r.need]);
      }
    }
  }

  /** `r` with its read of `n` bytes completed, when the bytes of `t` from `a` on are in front of it. */
  function Full(r: Reader, t: seq<Byte>, a: nat, k: nat, n: nat): Reader
    requires a + k + n <= |t|
  {
    r.(need := 0, buf := t[a..a + k + n])
  }

  lemma ReadAt(r: Reader, t: seq<Byte>, a: nat, k: nat)
    requires Valid(r) && !r.phase.Stopped? && r.need == ReadSize(r.server, r.phase)
    requires a + k <= |t| && r.buf == t[a..a + k]
    ensures |t| < a + k + r.need ==> Feed(Settle(r), t[a + k..]).out == r.out
    ensures |t| >= a + k + r.need ==>
      (Feed(Settle(r), t[a + k..]) == Feed(Settle(Handle(Full(r, t, a, k, r.need))), t[a + k + r.need..]))
  {
    hide Feed, Settle, Handle;
    ReadArrives(r, t[a + k..]);
    if |t| >= a + k + r.need {
      ExtendSlice(t, a, a + k, r.need);
    }
  }

  function HeaderAt(server: bool, out: seq<Event>, t: seq<Byte>, k: nat): Reader
    requires k <= |t|
  {
    Reader(server, Header, 2, t[..k], out)
  }

  function ContentAt(server: bool, out: seq<Event>, t: seq<Byte>, k: nat, start: nat, length: nat): Reader
    requires start > 0 && start + k <= |t|
  {
    Reader(server, Content(t[0], length), MaskSize(server) + length, t[start..start + k], out)
  }

  /** Where the content of the frame at the front of `t` starts, as soon as two bytes are there. */
  function ContentStart(t: seq<Byte>): nat
    requires |t| >= 2
  {
    2 + ExtensionSize(t[1] % 128)
  }

  function ContentLength(t: seq<Byte>): nat
    requires |t| >= 2 && |t| >= ContentStart(t)
  {
    if ContentStart(t) == 2 then t[1] % 128 else BigEndianValue(t[2..ContentStart(t)])
  }

  lemma HeaderHandled(server: bool, out: seq<Event>, t: seq<Byte>, k: nat)
    requires k + 2 <= |t|
    ensures var h := AfterHeader(Full(HeaderAt(server, out, t, k), t, 0, k, 2));
      if server != (t[1] >= 128) then
        h.phase.Stopped? && h.need == 0 && h.out == out + [BadMask]
      else if ContentStart(t) == 2 then
        h == ContentAt(server, out, t, k, 2, t[1] % 128)
      else
        h == Reader(server, Extension(t[0], ContentStart(t) - 2), ContentStart(t) - 2, t[2..k + 2], out)
  {
  }

  lemma ExtensionHandled(server: bool, out: seq<Event>, t: seq<Byte>, k: nat, start: nat)
    requires 2 < start && k + start <= |t|
    ensures var h := Reader(server, Extension(t[0], start - 2), start - 2, t[2..k + 2], out);
      AfterExtension(Full(h, t, 2, k, start - 2)) == ContentAt(server, out, t, k, start, BigEndianValue(t[2..start]))
  {
    SliceOfSlice(t, 2, start + k, start - 2);
  }

  /** The reader reaches the content of the frame at the front of the stream. */
  lemma HeadArrives(server: bool, out: seq<Event>, t: seq<Byte>, k: nat)
    requires k + 2 <= |t| && server == (t[1] >= 128)
    ensures |t| < k + ContentStart(t) ==> Feed(HeaderAt(server, out, t, k), t[k..]).out == out
    ensures |t| >= k + ContentStart(t) ==>
      (Feed(HeaderAt(server, out, t, k), t[k..])
       == Feed(Settle(ContentAt(server, out, t, k, ContentStart(t), ContentLength(t))), t[k + ContentStart(t)..]))
  {
    var r, start := HeaderAt(server, out, t, k), ContentStart(t);
    assert Settle(r) == r;
    hide Feed, Settle;
    ReadAt(r, t, 0, k);
    HeaderHandled(server, out, t, k);
    if start > 2 {
      ReadAt(AfterHeader(Full(r, t, 0, k, 2)), t, 2, k);
      if |t| >= k + start {
        ExtensionHandled(server, out, t, k, start);
      }
    }
  }

  // ---- no leftover: both readers compute the meaning of the stream ----

  /** A reader between two frames with nothing buffered. */
  function Between(server: bool, out: seq<Event>): Reader {
    Reader(server, Header, 2, [], out)
  }

  /** How a reader that met `s` between two frames stands to the frame at the front of `s`. */
  ghost predicate Took(server: bool, out: seq<Event>, s: seq<Byte>, p: Parsed, r: Reader) {
    match p
    case Incomplete => r.out == out
    case WrongMask => r.out == out + [BadMask]
    case Frame(op, payload, n) =>
      if IsClose(op) then r.out == out + [Got(op, payload)]
      else n <= |s| && r == Feed(Between(server, out + [Got(op, payload)]), s[n..])
  }

  function BodyPayload(server: bool, body: seq<Byte>): seq<Byte>
    requires |body| >= MaskSize(server)
  {
    if server then Masked(body[4..], body[..4]) else body
  }

  /** The frame at the front, by its layout. */
  lemma BodyParse(server: bool, s: seq<Byte>)
    requires |s| >= 2 && |s| >= ContentStart(s) && server == (s[1] >= 128)
    ensures var start := ContentStart(s);
      var end := start + MaskSize(server) + ContentLength(s);
      ParseFrame(server, s) == if |s| < end then Incomplete else Frame(s[0], BodyPayload(server, s[start..end]), end)
  {
    var start := ContentStart(s);
    var end := start + MaskSize(server) + ContentLength(s);
    if server && |s| >= end {
      SliceOfSlice(s, start, end, 4);
    }
  }

  lemma ContentHandled(c: Reader)
    requires c.phase.Content? && c.need == 0 && |c.buf| == ReadSize(c.server, c.phase)
    ensures var out := c.out + [Got(c.phase.op, BodyPayload(c.server, c.buf))];
      if IsClose(c.phase.op)
      then AfterContent(c).phase.Stopped? && AfterContent(c).need == 0 && AfterContent(c).out == out
      else AfterContent(c) == Between(c.server, out)
  {
    if c.server {
      assert c.buf[4..|c.buf|] == c.buf[4..];
    }
  }

  lemma BodyArrives(server: bool, out: seq<Event>, s: seq<Byte>)
    requires |s| >= 2 && |s| >= ContentStart(s) && server == (s[1] >= 128)
    ensures Took(server, out, s, ParseFrame(server, s),
                 Feed(Settle(ContentAt(server, out, s, 0, ContentStart(s), ContentLength(s))), s[ContentStart(s)..]))
  {
    BodyParse(server, s);
    var start := ContentStart(s);
    var c := ContentAt(server, out, s, 0, start, ContentLength(s));
    ReadAt(c, s, start, 0);
    var end := start + c.need;
    if |s| >= end {
      var full := Full(c, s, start, 0, c.need);
      ContentHandled(full);
      hide Feed;
      if IsClose(s[0]) {
        FeedStopped(AfterContent(full), s[end..]);
      }
    }
  }

  lemma FrontFrame(server: bool, out: seq<Event>, s: seq<Byte>)
    ensures Took(server, out, s, ParseFrame(server, s), Feed(Between(server, out), s))
  {
    var r := HeaderAt(server, out, s, 0);
    assert r == Between(server, out) && s[0..] == s;
    if |s| < 2 {
      FeedBulk(r, s);
    } else if server != (s[1] >= 128) {
      ReadAt(r, s, 0, 0);
      HeaderHandled(server, out, s, 0);
      FeedStopped(AfterHeader(Full(r, s, 0, 0, 2)), s[2..]);
    } else {
      hide Feed, Settle;
      HeadArrives(server, out, s, 0);
      if |s| >= ContentStart(s) {
        BodyArrives(server, out, s);
      }
    }
  }

  /** With nothing left over from the handshake, both readers report exactly the meaning of what has arrived. */
  lemma {:induction false} ReadsMeaning(server: bool, out: seq<Event>, s: seq<Byte>)
    ensures Feed(Between(server, out), s).out == out + Decode(server, s)
    decreases |s|
  {
    FrontFrame(server, out, s);
    match ParseFrame(server, s)
    case Incomplete =>
    case WrongMask =>
    case Frame(op, payload, size) =>
      if !IsClose(op) {
        ReadsMeaning(server, out + [Got(op, payload)], s[size..]);
      }
  }

  // ---- bytes left over from the handshake: the server ----

  lemma HandleLag(r: Reader, extra: seq<Byte>)
    requires r.server && Valid(r) && !r.phase.Stopped? && r.need == 0
    ensures Handle(r.(buf := r.buf + extra)) == Handle(r).(buf := Handle(r).buf + extra)
  {
    var n := ReadSize(r.server, r.phase);
    assert (r.buf + extra)[n..] == r.buf[n..] + extra;
    assert (r.buf + extra)[..n] == r.buf[..n];
    if r.phase.Content? {
      assert (r.buf + extra)[..4] == r.buf[..4] && (r.buf + extra)[4..n] == r.buf[4..n];
    }
  }

  lemma {:induction false} SettleLag(r: Reader, extra: seq<Byte>)
    requires r.server && Valid(r)
    ensures Settle(r.(buf := r.buf + extra)) == Settle(r).(buf := Settle(r).buf + extra)
    decreases HandlersLeft(r)
  {
    if r.need == 0 && !r.phase.Stopped? {
      HandleLag(r, extra);
      HandleKeepsValid(r);
      SettleLag(Handle(r), extra);
    }
  }

  /** `r` is `r0` with `extra` bytes more in its buffer; once stopped neither buffer is read again. */
  ghost predicate LagsBehind(r: Reader, r0: Reader, extra: seq<Byte>) {
    r0.server && (if r0.phase.Stopped? then r == r0.(buf := r.buf) else r == r0.(buf := r0.buf + extra))
  }

  lemma ArriveLag(r: Reader, r0: Reader, extra: seq<Byte>, b: Byte)
    requires Waiting(r) && Waiting(r0) && LagsBehind(r, r0, extra)
    ensures LagsBehind(Arrive(r, b), Arrive(r0, (extra + [b])[0]), (extra + [b])[1..])
  {
    if !r0.phase.Stopped? {
      var r1 := r0.(need := r0.need - 1, buf := r0.buf + [(extra + [b])[0]]);
      assert r.buf + [b] == r1.buf + (extra + [b])[1..];
      SettleLag(r1, (extra + [b])[1..]);
    }
  }

  /** The server with `leftover` buffered is the server without, fed the stream `leftover` early. */
  lemma {:induction false} ServerLags(leftover: seq<Byte>, s: seq<Byte>)
    ensures LagsBehind(Feed(Initial(true, leftover), s),
                       Feed(Initial(true, []), (leftover + s)[..|s|]), (leftover + s)[|s|..])
    decreases |s|
  {
    var t := leftover + s;
    if s == [] {
      assert t[..0] == [] && t[0..] == leftover && [] + leftover == leftover;
    } else {
      var n := |s| - 1;
      var t' := leftover + s[..n];
      ServerLags(leftover, s[..n]);
      assert s == s[..n] + [s[n]] && t[..n + 1] == t'[..n] + [t[n]];
      assert t'[n..] + [s[n]] == t[n..];
      ArriveLag(Feed(Initial(true, leftover), s[..n]), Feed(Initial(true, []), t'[..n]), t'[n..], s[n]);
      FeedLast(Initial(true, leftover), s[..n], s[n]);
      FeedLast(Initial(true, []), t'[..n], t[n]);
      assert t[n..][1..] == t[n + 1..];
    }
  }

  lemma FeedLast(r: Reader, s: seq<Byte>, b: Byte)
    requires Waiting(r)
    ensures Feed(r, s + [b]) == Arrive(Feed(r, s), b)
  {
    FeedConcat(r, s, [b]);
    var r' := Feed(r, s);
    assert Feed(Arrive(r', b), []) == Arrive(r', b);
    assert [b][1..] == [];
  }

  /**
   * For every leftover and every arriving stream, the server has reported exactly the meaning of as many bytes of
   * leftover ++ arrived as have arrived.
   */
  lemma ServerReadsMeaning(leftover: seq<Byte>, s: seq<Byte>)
    ensures Feed(Initial(true, leftover), s).out == Decode(true, (leftover + s)[..|s|])
  {
    ServerLags(leftover, s);
    ReadsMeaning(true, [], (leftover + s)[..|s|]);
  }

  lemma DecodePrefix(masked: bool, t: seq<Byte>, n: nat)
    requires n <= |t|
    ensures Decode(masked, t[..n]) <= Decode(masked, t)
  {
    assert t[..n] + t[n..] == t;
    DecodeGrows(masked, t[..n], t[n..]);
  }

  /** So it never reports anything wrong ... */
  lemma ServerReadsPrefix(leftover: seq<Byte>, s: seq<Byte>)
    ensures Feed(Initial(true, leftover), s).out <= Decode(true, leftover + s)
  {
    ServerReadsMeaning(leftover, s);
    DecodePrefix(true, leftover + s, |s|);
  }

  /** ... and it is behind by no more than the leftover's length. */
  lemma ServerLagBound(leftover: seq<Byte>, s: seq<Byte>, more: seq<Byte>)
    requires |more| >= |leftover|
    ensures Decode(true, leftover + s) <= Feed(Initial(true, leftover), s + more).out
  {
    ServerReadsMeaning(leftover, s + more);
    DecodeMore(leftover, s, more);
  }

  lemma DecodeMore(leftover: seq<Byte>, s: seq<Byte>, more: seq<Byte>)
    requires |more| >= |leftover|
    ensures Decode(true, leftover + s) <= Decode(true, (leftover + (s + more))[..|s + more|])
  {
    var u := (leftover + (s + more))[..|s + more|];
    assert u[..|leftover + s|] == leftover + s;
    DecodePrefix(true, u, |leftover + s|);
  }

  /** A reader that started empty holds nothing but the bytes of its current read. */
  ghost predicate Exact(r: Reader) {
    !r.phase.Stopped? ==> |r.buf| + r.need == ReadSize(r.server, r.phase)
  }

  lemma {:induction false} SettleExact(r: Reader)
    requires Valid(r) && Exact(r)
    ensures Exact(Settle(r))
    decreases HandlersLeft(r)
  {
    if r.need == 0 && !r.phase.Stopped? {
      HandleKeepsValid(r);
      SettleExact(Handle(r));
    }
  }

  lemma {:induction false} FeedExact(r: Reader, s: seq<Byte>)
    requires Waiting(r) && Exact(r)
    ensures Exact(Feed(r, s))
    decreases |s|
  {
    if s == [] {
    } else {
      if !r.phase.Stopped? {
        SettleExact(r.(need := r.need - 1, buf := r.buf + [s[0]]));
      }
      FeedExact(Arrive(r, s[0]), s[1..]);
    }
  }

  /** Whenever the server starts a read, its buffer holds exactly the leftover's number of bytes. */
  lemma ServerBuffer(leftover: seq<Byte>, s: seq<Byte>)
    ensures var r := Feed(Initial(true, leftover), s);
      !r.phase.Stopped? ==> |r.buf| == |leftover| + (ReadSize(true, r.phase) - r.need)
  {
    ServerLags(leftover, s);
    FeedExact(Initial(true, []), (leftover + s)[..|s|]);
  }

  // ---- bytes left over from the handshake: the client ----

  /**
   * `t` is the stream, its first `k` bytes left over from the handshake. The client hands a message its whole buffer,
   * so its first message carries the next `k` bytes too: it is right if and only if nothing was left over.
   */
  lemma ClientFirstMessage(t: seq<Byte>, k: nat, p: Parsed)
    requires p == ParseFrame(false, t) && p.Frame? && k + p.size <= |t|
    ensures [Got(p.op, p.payload + t[p.size..p.size + k])] <= Feed(Initial(false, t[..k]), t[k..]).out
    ensures [Got(p.op, p.payload)] <= Feed(Initial(false, t[..k]), t[k..]).out <==> k == 0
  {
    ClientReadsTooMuch(t, k, p);
    hide Feed, ParseFrame;
    LongerPayload(p.payload, t[p.size..p.size + k], p.op, Feed(Initial(false, t[..k]), t[k..]).out);
  }

  lemma ClientReadsTooMuch(t: seq<Byte>, k: nat, p: Parsed)
    requires p == ParseFrame(false, t) && p.Frame? && k + p.size <= |t|
    ensures [Got(p.op, p.payload + t[p.size..p.size + k])] <= Feed(Initial(false, t[..k]), t[k..]).out
  {
    hide Feed, Settle;
    BodyParse(false, t);
    hide ParseFrame;
    var start, length := ContentStart(t), ContentLength(t);
    HeadArrives(false, [], t, k);
    var c := ContentAt(false, [], t, k, start, length);
    ReadAt(c, t, start, k);
    JoinSlices(t, start, p.size, p.size + k);
    OutGrows(AfterContent(Full(c, t, start, k, length)), t[p.size + k..]);
  }

  lemma LongerPayload(payload: seq<Byte>, more: seq<Byte>, op: Byte, out: seq<Event>)
    requires [Got(op, payload + more)] <= out
    ensures [Got(op, payload)] <= out <==> more == []
  {
    assert out[0] == Got(op, payload + more);
    if more == [] {
      assert payload + more == payload;
    } else {
      assert |payload + more| > |payload|;
    }
  }

  lemma {:induction false} OutGrows(r: Reader, s: seq<Byte>)
    requires Valid(r)
    ensures r.out <= Feed(Settle(r), s).out
    decreases |s|, HandlersLeft(r)
  {
    if r.need == 0 && !r.phase.Stopped? {
      HandleKeepsValid(r);
      OutGrows(Handle(r), s);
    } else if s != [] && !r.phase.Stopped? {
      OutGrows(r.(need := r.need - 1, buf := r.buf + [s[0]]), s[1..]);
    } else {
      FeedStoppedOrEmpty(r, s);
    }
  }

  lemma FeedStoppedOrEmpty(r: Reader, s: seq<Byte>)
    requires Waiting(r) && (s == [] || r.phase.Stopped?)
    ensures Feed(r, s) == r
  {
  }

  // ---- both directions end to end ----

  /** What one endpoint sends is what the other reports, however the network cuts it up. */
  lemma SentIsRead(masked: bool, ms: seq<Outgoing>, chunks: seq<seq<Byte>>)
    requires forall m | m in ms :: Sendable(m)
    requires Concat(chunks) == WireBytes(masked, ms)
    ensures FeedChunks(Initial(masked, []), chunks).out == Visible(ms)
  {
    ChunkingIrrelevant(Initial(masked, []), chunks);
    ReadsMeaning(masked, [], Concat(chunks));
    DecodeWritten(masked, ms);
  }

  /** If no message has opcode 8, the other endpoint reports every one of them. */
  lemma AllAreReported(masked: bool, ms: seq<Outgoing>, chunks: seq<seq<Byte>>)
    requires forall m | m in ms :: Sendable(m) && m.op % 16 != 8
    requires Concat(chunks) == WireBytes(masked, ms)
    ensures var out := FeedChunks(Initial(masked, []), chunks).out;
      |out| == |ms| && forall j | 0 <= j < |ms| :: out[j] == Got(ms[j].op, ms[j].payload)
  {
    SentIsRead(masked, ms, chunks);
    VisibleExactly(ms, |ms|);
    hide FeedChunks, WireBytes, Visible;
  }

  /**
   * After any messages without a close, a frame whose mask bit is wrong (not set towards the server, set towards the
   * client) is reported as such, and nothing that follows it is read.
   */
  lemma WrongMaskStops(server: bool, ms: seq<Outgoing>, s: seq<Byte>)
    requires forall m | m in ms :: Sendable(m) && m.op % 16 != 8
    requires |s| >= 2 && (s[1] >= 128 <==> !server)
    ensures var out := Feed(Initial(server, []), WireBytes(server, ms) + s).out;
      |out| == |ms| + 1 && out[|ms|] == BadMask
  {
    hide Feed;
    ReadsMeaning(server, [], WireBytes(server, ms) + s);
    DecodeBehind(server, ms, s);
    VisibleExactly(ms, |ms|);
    assert ParseFrame(server, s) == WrongMask;
    hide ParseFrame, WireBytes, Visible;
  }

  lemma {:induction false} DecodeBehind(masked: bool, ms: seq<Outgoing>, s: seq<Byte>)
    requires forall m | m in ms :: Sendable(m) && m.op % 16 != 8
    ensures Decode(masked, WireBytes(masked, ms) + s) == Visible(ms) + Decode(masked, s)
  {
    hide ParseFrame, FrameBytes;
    if ms == [] {
      assert WireBytes(masked, ms) + s == s;
    } else {
      var first, rest := Got(ms[0].op, ms[0].payload), WireBytes(masked, ms[1..]) + s;
      assert WireBytes(masked, ms) + s == FrameBytes(masked, ms[0]) + rest;
      DecodeFirst(masked, ms[0], rest);
      DecodeBehind(masked, ms[1..], s);
      assert [first] + (Visible(ms[1..]) + Decode(masked, s)) == Visible(ms) + Decode(masked, s);
    }
  }

  lemma DecodeFirst(masked: bool, m: Outgoing, rest: seq<Byte>)
    requires Sendable(m) && m.op % 16 != 8
    ensures Decode(masked, FrameBytes(masked, m) + rest) == [Got(m.op, m.payload)] + Decode(masked, rest)
  {
    hide ParseFrame, FrameBytes;
    ParseWritten(masked, m, rest);
    assert (FrameBytes(masked, m) + rest)[|FrameBytes(masked, m)|..] == rest;
  }

  /** The handlers themselves, over the connection's mutable state. */
  class FrameReader {
    const server: bool
    var phase: Phase
    var need: nat
    var readBuffer: ByteStream
    var out: seq<Event>

    ghost function State(): Reader
      reads this, readBuffer
    {
      Reader(server, phase, need, readBuffer.data, out)
    }

    /** `read_message` right after the handshake. */
    constructor (server: bool, readBuffer: ByteStream)
      ensures this.server == server && this.readBuffer == readBuffer
      ensures State() == Initial(server, readBuffer.data)
    {
      this.server := server;
      this.readBuffer := readBuffer;
      phase, need, out := Header, 2, [];
    }

    /** `async_read` with `transfer_exactly(n)`: the socket's bytes, handed over in pieces as they come. */
    method Receive(chunk: seq<Byte>)
      requires Waiting(State())
      modifies this, readBuffer
      ensures Waiting(State()) && State() == Feed(old(State()), chunk)
      ensures readBuffer == old(readBuffer) || (fresh(readBuffer) && !server)
    {
      hide Feed, Valid;
      var i := 0;
      assert chunk[i..] == chunk;
      while i < |chunk| && phase != Stopped
        invariant i <= |chunk| && Waiting(State())
        invariant Feed(State(), chunk[i..]) == Feed(old(State()), chunk)
        invariant readBuffer == old(readBuffer) || (fresh(readBuffer) && !server)
        decreases |chunk| - i
      {
        var n := if need < |chunk| - i then need else |chunk| - i;
        assert chunk[i..] == chunk[i..i + n] + chunk[i + n..];
        FeedConcat(State(), chunk[i..i + n], chunk[i + n..]);
        ReceiveSome(chunk[i..i + n]);
        i := i + n;
      }
      FeedStoppedOrEmpty(State(), chunk[i..]);
    }

    /** One `read_some` of at most what is needed, and the handlers if that completes the read. */
    method ReceiveSome(piece: seq<Byte>)
      requires Waiting(State()) && |piece| <= need
      modifies this, readBuffer
      ensures State() == Feed(old(State()), piece)
      ensures readBuffer == old(readBuffer) || (fresh(readBuffer) && !server)
    {
      FeedBulk(State(), piece);
      need := need - |piece|;
      readBuffer.data := readBuffer.data + piece;
      RunHandlers();
    }

    method RunHandlers()
      requires Valid(State())
      modifies this, readBuffer
      ensures State() == Settle(old(State()))
      ensures readBuffer == old(readBuffer) || (fresh(readBuffer) && !server)
    {
      while need == 0 && phase != Stopped
        invariant Valid(State()) && Settle(State()) == Settle(old(State()))
        invariant readBuffer == old(readBuffer) || (fresh(readBuffer) && !server)
        decreases HandlersLeft(State())
      {
        HandleKeepsValid(State());
        match phase
        case Header => OnHeader();
        case Extension(op, size) => OnExtension(op, size);
        case Content(op, length) => OnContent(op, length);
        case Stopped =>
      }
    }

    method OnHeader()
      requires Valid(State()) && phase == Header && need == 0
      modifies this, readBuffer
      ensures State() == Handle(old(State())) && readBuffer == old(readBuffer)
    {
      var firstBytes := readBuffer.Read(2);
      if server != (firstBytes[1] >= 128) {
        out := out + [BadMask];
        phase, need := Stopped, 0;
        return;
      }
      var length := firstBytes[1] % 128;
      if length == 126 {
        phase, need := Extension(firstBytes[0], 2), 2;
      } else if length == 127 {
        phase, need := Extension(firstBytes[0], 8), 8;
      } else {
        ReadMessageContent(firstBytes[0], length);
      }
    }

    method OnExtension(op: Byte, size: nat)
      requires Valid(State()) && phase == Extension(op, size) && need == 0
      modifies this, readBuffer
      ensures State() == Handle(old(State())) && readBuffer == old(readBuffer)
    {
      var lengthBytes := readBuffer.Read(size);
      var length := 0;
      for c := 0 to size
        invariant length == BigEndianValue(lengthBytes[..c]) * Pow256(size - c)
        invariant State() == old(State()).(buf := old(State()).buf[size..]) && readBuffer == old(readBuffer)
      {
        assert lengthBytes[..c + 1][..c] == lengthBytes[..c];
        AccumulateLength(BigEndianValue(lengthBytes[..c]), lengthBytes[c], Pow256(size - c - 1));
        length := length + lengthBytes[c] * Pow256(size - 1 - c);
      }
      assert lengthBytes[..size] == lengthBytes;
      ReadMessageContent(op, length);
    }

    static lemma AccumulateLength(high: nat, b: Byte, p: nat)
      ensures high * (256 * p) + b * p == (256 * high + b) * p
    {
    }

    method ReadMessageContent(op: Byte, length: nat)
      modifies this
      ensures State() == BeginContent(old(State()), op, length) && readBuffer == old(readBuffer)
    {
      phase := Content(op, length);
      need := if server then 4 + length else length;
    }

    method Unmask(length: nat, mask: seq<Byte>) returns (message: seq<Byte>)
      requires |mask| == 4 && |readBuffer.data| >= length
      modifies readBuffer
      ensures message == Masked(old(readBuffer.data)[..length], mask)
      ensures |message| == length
      ensures forall j | 0 <= j < length :: message[j] == Xor(old(readBuffer.data)[j], mask[j % 4])
      ensures readBuffer.data == old(readBuffer.data)[length..]
    {
      ghost var raw := readBuffer.data[..length];
      message := [];
      for c := 0 to length
        invariant readBuffer.data == old(readBuffer.data)[c..]
        invariant message == Masked(raw, mask)[..c]
      {
        MaskedStep(raw, mask, c);
        var b := readBuffer.Get();
        message := message + [Xor(b, mask[c % 4])];
      }
      assert Masked(raw, mask)[..length] == Masked(raw, mask);
    }

    method OnContent(op: Byte, length: nat)
      requires Valid(State()) && phase == Content(op, length) && need == 0
      modifies this, readBuffer
      ensures State() == Handle(old(State()))
      ensures phase == Stopped <==> op % 16 == 8
      ensures |out| == |old(out)| + 1 && out[|old(out)|].Got? && out[|old(out)|].op == op
      ensures readBuffer == old(readBuffer) || (fresh(readBuffer) && !server)
    {
      ghost var r := State();
      var message;
      if server {
        SliceOfSuffix(readBuffer.data, 4, length);
        var mask := readBuffer.Read(4);
        message := Unmask(length, mask);
      } else {
        message := readBuffer.data;
        readBuffer := new ByteStream();
      }
      assert State() == r.(buf := AfterContent(r).buf) && r.out + [Got(op, message)] == AfterContent(r).out;
      out := out + [Got(op, message)];
      if op % 16 == 8 {
        phase, need := Stopped, 0;
      } else {
        phase, need := Header, 2;
      }
    }
  }
}
