/** Frames of RFC 6455, section 5: what both endpoints write, and what a frame means independently of either reader. */
module WsFraming {
  import opened Bytes

  const MAX_LENGTH := Pow256(8)

  const OPCODE_CLOSE: Byte := 8
  const OPCODE_PING: Byte := 9
  const CLOSE_FRAME: Byte := 136

  /** A message handed to `send`, with the mask the client draws for it (the server ignores it). */
  datatype Outgoing = Outgoing(op: Byte, payload: seq<Byte>, mask: seq<Byte>)

  /** A client mask has four octets, and a length is a 64-bit number. */
  predicate Sendable(m: Outgoing) {
    |m.mask| == 4 && |m.payload| < MAX_LENGTH
  }

  /** The payload with its octets masked in rotation (section 5.3). */
  function Masked(payload: seq<Byte>, mask: seq<Byte>): (r: seq<Byte>)
    requires |mask| == 4
    ensures |r| == |payload|
  {
    seq(|payload|, i requires 0 <= i < |payload| => Xor(payload[i], mask[i % 4]))
  }

  lemma MaskedStep(payload: seq<Byte>, mask: seq<Byte>, c: nat)
    requires |mask| == 4 && c < |payload|
    ensures Masked(payload, mask)[..c + 1] == Masked(payload, mask)[..c] + [Xor(payload[c], mask[c % 4])]
  {
  }

  lemma UnmaskMasked(payload: seq<Byte>, mask: seq<Byte>)
    requires |mask| == 4
    ensures Masked(Masked(payload, mask), mask) == payload
  {
    forall i | 0 <= i < |payload|
      ensures Masked(Masked(payload, mask), mask)[i] == payload[i]
    {
      XorCancels(payload[i], mask[i % 4]);
    }
  }

  /** The length field; `maskBit` is 128 in a masked frame. */
  function LengthField(length: nat, maskBit: nat): seq<Byte>
    requires length < MAX_LENGTH && maskBit in {0, 128}
  {
    if length > 0xffff then [127 + maskBit] + BigEndian(length, 8)
    else if length >= 126 then [126 + maskBit] + BigEndian(length, 2)
    else [length + maskBit]
  }

  /** The octets of one frame, masked (client to server) or not (server to client). */
  function FrameBytes(masked: bool, m: Outgoing): seq<Byte>
    requires Sendable(m)
  {
    if masked
    then [m.op] + LengthField(|m.payload|, 128) + m.mask + Masked(m.payload, m.mask)
    else [m.op] + LengthField(|m.payload|, 0) + m.payload
  }

  /** The octets in front of the payload: opcode, length and, in a masked frame, the mask. */
  function HeaderSize(masked: bool, length: nat): nat {
    (if length < 126 then 2 else if length <= 65535 then 4 else 10) + if masked then 4 else 0
  }

  /** The length octets of section 5.2 of RFC 6455, number by number. */
  lemma LengthOctets(length: nat, maskBit: nat)
    requires length < MAX_LENGTH && maskBit in {0, 128}
    ensures var field := LengthField(length, maskBit);
      && (length < 126 ==> field == [length + maskBit])
      && (126 <= length <= 65535 ==>
            |field| == 3 && field[0] == 126 + maskBit && 256 * (field[1] as int) + field[2] as int == length)
      && (length > 65535 ==> |field| == 9 && field[0] == 127 + maskBit && BigEndianValue(field[1..]) == length)
  {
    LengthWritten(length, maskBit);
    if length >= 126 {
      BigEndianWeights(LengthField(length, maskBit)[1..]);
    }
  }

  /**
   * A frame octet by octet: opcode, length field, mask, and each payload octet combined with the mask octet of its
   * turn.
   */
  lemma FrameOctets(masked: bool, m: Outgoing)
    requires Sendable(m)
    ensures var frame, h, n := FrameBytes(masked, m), HeaderSize(masked, |m.payload|), |m.payload|;
      && |frame| == h + n && frame[0] == m.op
      && frame[1..h - MaskSize(masked)] == LengthField(n, if masked then 128 else 0)
      && (masked ==> frame[h - 4..h] == m.mask)
      && forall j | 0 <= j < n :: frame[h + j] == if masked then Xor(m.payload[j], m.mask[j % 4]) else m.payload[j]
  {
    var h, n := HeaderSize(masked, |m.payload|), |m.payload|;
    LengthOctets(n, if masked then 128 else 0);
    hide LengthField;
  }

  // ---- the writers ----

  /** The length part of both `send` functions: the marker octet, then the length from its highest octet down. */
  method PutLength(stream: ByteStream, length: nat, maskBit: nat)
    requires length < MAX_LENGTH && maskBit in {0, 128}
    modifies stream
    ensures stream.data == old(stream.data) + LengthField(length, maskBit)
  {
    ghost var before := stream.data;
    if length >= 126 {
      var numBytes;
      if length > 0xffff {
        numBytes := 8;
        stream.Put(127 + maskBit);
      } else {
        numBytes := 2;
        stream.Put(126 + maskBit);
      }
      ghost var marker := stream.data;
      var c := numBytes - 1;
      while c >= 0
        invariant -1 <= c < numBytes
        invariant stream.data == marker + BigEndian(ShiftRightBytes(length, c + 1), numBytes - 1 - c)
      {
        assert BigEndian(ShiftRightBytes(length, c), numBytes - c)
            == BigEndian(ShiftRightBytes(length, c + 1), numBytes - 1 - c) + [ShiftRightBytes(length, c) % 256];
        stream.Put(ShiftRightBytes(length, c) % 256);
        c := c - 1;
      }
    } else {
      stream.Put(length + maskBit);
    }
  }

  /** The server's `send`: a header stream; the message stream follows it unchanged. */
  method ServerSend(messageStream: seq<Byte>, op: Byte) returns (header: seq<Byte>)
    requires |messageStream| < MAX_LENGTH
    ensures forall mask: seq<Byte> | |mask| == 4 ::
      header + messageStream == FrameBytes(false, Outgoing(op, messageStream, mask))
    ensures |header| == HeaderSize(false, |messageStream|) && header[0] == op
    ensures header[1..] == LengthField(|messageStream|, 0)
  {
    var headerStream := new ByteStream();
    headerStream.Put(op);
    PutLength(headerStream, |messageStream|, 0);
    header := headerStream.data;
    LengthOctets(|messageStream|, 0);
  }

  /** The client's `send`: header, mask and masked payload in one stream. */
  method ClientSend(messageStream: ByteStream, op: Byte, mask: seq<Byte>) returns (sendStream: ByteStream)
    requires |mask| == 4 && |messageStream.data| < MAX_LENGTH
    modifies messageStream
    ensures fresh(sendStream)
    ensures sendStream.data == FrameBytes(true, Outgoing(op, old(messageStream.data), mask))
    ensures var payload, h := old(messageStream.data), HeaderSize(true, |old(messageStream.data)|);
      && |sendStream.data| == h + |payload| && sendStream.data[0] == op
      && sendStream.data[1..h - 4] == LengthField(|payload|, 128) && sendStream.data[h - 4..h] == mask
      && forall j | 0 <= j < |payload| :: sendStream.data[h + j] == Xor(payload[j], mask[j % 4])
  {
    sendStream := new ByteStream();
    var length := |messageStream.data|;
    sendStream.Put(op);
    PutLength(sendStream, length, 128);
    for c := 0 to 4
      invariant sendStream.data == [op] + LengthField(length, 128) + mask[..c]
      invariant messageStream.data == old(messageStream.data)
    {
      sendStream.Put(mask[c]);
    }
    assert mask[..4] == mask;
    PutMasked(sendStream, messageStream, mask);
    FrameOctets(true, Outgoing(op, old(messageStream.data), mask));
  }

  method PutMasked(sendStream: ByteStream, messageStream: ByteStream, mask: seq<Byte>)
    requires |mask| == 4 && sendStream != messageStream
    modifies sendStream, messageStream
    ensures sendStream.data == old(sendStream.data) + Masked(old(messageStream.data), mask)
    ensures forall j | 0 <= j < |old(messageStream.data)| ::
      sendStream.data[|old(sendStream.data)| + j] == Xor(old(messageStream.data)[j], mask[j % 4])
  {
    ghost var payload := messageStream.data;
    var length := |messageStream.data|;
    for c := 0 to length
      invariant messageStream.data == payload[c..]
      invariant sendStream.data == old(sendStream.data) + Masked(payload, mask)[..c]
    {
      MaskedStep(payload, mask, c);
      var b := messageStream.Get();
      sendStream.Put(Xor(b, mask[c % 4]));
    }
    assert Masked(payload, mask)[..length] == Masked(payload, mask);
  }

  // ---- what a frame means ----

  datatype Parsed =
    | Incomplete
    | WrongMask
    | Frame(op: Byte, payload: seq<Byte>, size: nat)

  function ExtensionSize(code: nat): nat {
    if code == 126 then 2 else if code == 127 then 8 else 0
  }

  function MaskSize(masked: bool): nat {
    if masked then 4 else 0
  }

  /** The frame at the front of `s`, for a receiver that wants its peer's frames masked or not. */
  function ParseFrame(masked: bool, s: seq<Byte>): (p: Parsed)
    ensures p.Frame? ==> 2 <= p.size <= |s|
  {
    if |s| < 2 then Incomplete
    else if masked != (s[1] >= 128) then WrongMask
    else
      var code := s[1] % 128;
      var ext := ExtensionSize(code);
      if |s| < 2 + ext then Incomplete
      else
        var length := if ext == 0 then code else BigEndianValue(s[2..2 + ext]);
        var body := 2 + ext + MaskSize(masked);
        if |s| < body + length then Incomplete
        else
          var raw := s[body..body + length];
          Frame(s[0], if masked then Masked(raw, s[body - 4..body]) else raw, body + length)
  }

  /** What a receiver reports: a frame, or a peer that breaks the masking rule of section 5.1. */
  datatype Event = Got(op: Byte, payload: seq<Byte>) | BadMask

  predicate IsClose(op: Byte) {
    op % 16 == OPCODE_CLOSE
  }

  /** The meaning of a byte stream: its frames in order, up to and including the first close or masking error. */
  function Decode(masked: bool, s: seq<Byte>): seq<Event> {
    match ParseFrame(masked, s)
    case Incomplete => []
    case WrongMask => [BadMask]
    case Frame(op, payload, size) =>
      [Got(op, payload)] + if IsClose(op) then [] else Decode(masked, s[size..])
  }

  // ---- round trips ----

  /** The length field tells its own size, and its length. */
  lemma LengthWritten(length: nat, maskBit: nat)
    requires length < MAX_LENGTH && maskBit in {0, 128}
    ensures var field := LengthField(length, maskBit);
      && field != []
      && (field[0] >= 128 <==> maskBit == 128)
      && |field| == 1 + ExtensionSize(field[0] % 128)
      && length == if |field| == 1 then field[0] % 128 else BigEndianValue(field[1..])
  {
    if length > 0xffff {
      BigEndianRoundTrip(length, 8);
    } else if length >= 126 {
      assert Pow256(2) == 65536;
      BigEndianRoundTrip(length, 2);
    }
  }

  lemma ParseWritten(masked: bool, m: Outgoing, rest: seq<Byte>)
    requires Sendable(m)
    ensures ParseFrame(masked, FrameBytes(masked, m) + rest) == Frame(m.op, m.payload, |FrameBytes(masked, m)|)
  {
    var maskBit := if masked then 128 else 0;
    LengthWritten(|m.payload|, maskBit);
    var field := LengthField(|m.payload|, maskBit);
    var tail := if masked then m.mask + Masked(m.payload, m.mask) else m.payload;
    assert FrameBytes(masked, m) == [m.op] + field + tail;
    hide ParseFrame, LengthField, BigEndianValue, ExtensionSize;
    ParseLayout(masked, m.op, field, tail, rest, |m.payload|);
    if masked {
      assert tail[..4] == m.mask && tail[4..] == Masked(m.payload, m.mask);
      UnmaskMasked(m.payload, m.mask);
    }
  }

  lemma ParseLayout(masked: bool, op: Byte, field: seq<Byte>, tail: seq<Byte>, rest: seq<Byte>, length: nat)
    requires field != [] && (field[0] >= 128 <==> masked)
    requires |field| == 1 + ExtensionSize(field[0] % 128)
    requires length == if |field| == 1 then field[0] % 128 else BigEndianValue(field[1..])
    requires |tail| == MaskSize(masked) + length
    ensures ParseFrame(masked, [op] + field + tail + rest)
         == Frame(op, if masked then Masked(tail[4..], tail[..4]) else tail, 1 + |field| + |tail|)
  {
    var s := [op] + field + tail + rest;
    var body := 1 + |field| + MaskSize(masked);
    assert s[0] == op && s[1] == field[0];
    assert s[2..1 + |field|] == field[1..];
    assert s[body..body + length] == tail[MaskSize(masked)..];
    if masked {
      assert s[body - 4..body] == tail[..4];
    }
  }

  /** A length field in one of the three forms, whether or not a shorter one would do. */
  ghost predicate InSomeForm(field: seq<Byte>, length: nat, maskBit: nat) {
    || (length < 126 && field == [length + maskBit])
    || (length < 0x1_0000 && |field| == 3 && field[0] == 126 + maskBit && field[1..] == BigEndian(length, 2))
    || (length < 0x1_0000_0000_0000_0000 && |field| == 9 && field[0] == 127 + maskBit
        && field[1..] == BigEndian(length, 8))
  }

  lemma FormRead(field: seq<Byte>, length: nat, maskBit: nat)
    requires maskBit in {0, 128} && InSomeForm(field, length, maskBit)
    ensures field != [] && (field[0] >= 128 <==> maskBit == 128) && |field| == 1 + ExtensionSize(field[0] % 128)
    ensures length == if |field| == 1 then field[0] % 128 else BigEndianValue(field[1..])
  {
    assert Pow256(2) == 0x1_0000 && Pow256(8) == 0x1_0000_0000_0000_0000;
    if |field| == 3 {
      BigEndianRoundTrip(length, 2);
    } else if |field| == 9 {
      BigEndianRoundTrip(length, 8);
    }
    hide BigEndian, BigEndianValue;
  }

  /** Every frame is understood, also one whose length is written in a longer form than it needs. */
  lemma EveryFormParsed(op: Byte, field: seq<Byte>, payload: seq<Byte>, mask: seq<Byte>, rest: seq<Byte>)
    requires |mask| == 4
    ensures InSomeForm(field, |payload|, 128) ==>
      (ParseFrame(true, [op] + field + (mask + Masked(payload, mask)) + rest)
       == Frame(op, payload, 1 + |field| + 4 + |payload|))
    ensures InSomeForm(field, |payload|, 0) ==>
      ParseFrame(false, [op] + field + payload + rest) == Frame(op, payload, 1 + |field| + |payload|)
  {
    hide InSomeForm, ParseFrame, BigEndianValue, ExtensionSize;
    if InSomeForm(field, |payload|, 128) {
      var sent := mask + Masked(payload, mask);
      FormRead(field, |payload|, 128);
      ParseLayout(true, op, field, sent, rest, |payload|);
      assert sent[..4] == mask && sent[4..] == Masked(payload, mask);
      UnmaskMasked(payload, mask);
    }
    if InSomeForm(field, |payload|, 0) {
      FormRead(field, |payload|, 0);
      ParseLayout(false, op, field, payload, rest, |payload|);
    }
  }

  function WireBytes(masked: bool, ms: seq<Outgoing>): seq<Byte>
    requires forall m | m in ms :: Sendable(m)
  {
    if ms == [] then [] else FrameBytes(masked, ms[0]) + WireBytes(masked, ms[1..])
  }

  /** The messages a receiver is to see: all of them, or those up to the first close. */
  function Visible(ms: seq<Outgoing>): seq<Event> {
    if ms == [] then []
    else [Got(ms[0].op, ms[0].payload)] + if IsClose(ms[0].op) then [] else Visible(ms[1..])
  }

  /**
   * Exactly the messages up to the first whose opcode is 8 are visible, and without one all of them are.
   */
  lemma {:induction false} VisibleExactly(ms: seq<Outgoing>, c: nat)
    requires c <= |ms| && (forall j | 0 <= j < c :: ms[j].op % 16 != 8) && (c < |ms| ==> ms[c].op % 16 == 8)
    ensures |Visible(ms)| == if c < |ms| then c + 1 else |ms|
    ensures forall j | 0 <= j < |Visible(ms)| :: Visible(ms)[j] == Got(ms[j].op, ms[j].payload)
  {
    if ms == [] {
    } else if c > 0 {
      VisibleExactly(ms[1..], c - 1);
    }
  }

  /** Frame round trip: every message sequence, every mask, every length form, in both directions. */
  lemma {:induction false} DecodeWritten(masked: bool, ms: seq<Outgoing>)
    requires forall m | m in ms :: Sendable(m)
    ensures Decode(masked, WireBytes(masked, ms)) == Visible(ms)
  {
    if ms == [] {
    } else {
      var rest := WireBytes(masked, ms[1..]);
      ParseWritten(masked, ms[0], rest);
      assert (FrameBytes(masked, ms[0]) + rest)[|FrameBytes(masked, ms[0])|..] == rest;
      DecodeWritten(masked, ms[1..]);
    }
  }

  /** No frame that means the same payload is shorter than the one the writers choose. */
  lemma WrittenIsMinimal(masked: bool, m: Outgoing, s: seq<Byte>)
    requires Sendable(m)
    requires ParseFrame(masked, s).Frame? && ParseFrame(masked, s).payload == m.payload
    ensures |FrameBytes(masked, m)| <= ParseFrame(masked, s).size
  {
    if |s| >= 4 && ExtensionSize(s[1] % 128) == 2 {
      assert Pow256(2) == 65536;
      BigEndianValueRange(s[2..4]);
    }
  }

  /** More bytes only add events behind those already decoded. */
  lemma {:induction false} DecodeGrows(masked: bool, s: seq<Byte>, t: seq<Byte>)
    ensures Decode(masked, s) <= Decode(masked, s + t)
    decreases |s|
  {
    match ParseFrame(masked, s)
    case Incomplete =>
    case WrongMask =>
    case Frame(op, payload, size) =>
      ParseGrows(masked, s, t);
      if !IsClose(op) {
        assert (s + t)[size..] == s[size..] + t;
        DecodeGrows(masked, s[size..], t);
      }
  }

  lemma ParseGrows(masked: bool, s: seq<Byte>, t: seq<Byte>)
    requires !ParseFrame(masked, s).Incomplete?
    ensures ParseFrame(masked, s + t) == ParseFrame(masked, s)
  {
    if ParseFrame(masked, s).Frame? {
      var ext := ExtensionSize(s[1] % 128);
      var body := 2 + ext + MaskSize(masked);
      var size := ParseFrame(masked, s).size;
      assert (s + t)[2..2 + ext] == s[2..2 + ext];
      assert (s + t)[body..size] == s[body..size];
      assert masked ==> (s + t)[body - 4..body] == s[body - 4..body];
    }
  }

  // ---- close frames ----

  /** C's remainder, which takes the sign of the dividend. */
  function CRemainder(a: int, b: nat): int
    requires b > 0
  {
    if a >= 0 then a % b else -((-a) % b)
  }

  /** The payload `send_close` builds: two status octets, narrowed by `put`, then the reason. */
  function ClosePayload(status: int, reason: seq<Byte>): seq<Byte> {
    [(status / 256) % 256, CRemainder(status, 256) % 256] + reason
  }

  /** The status and reason a receiver reads back from a close payload. */
  function CloseStatus(payload: seq<Byte>): nat {
    if |payload| >= 2 then 256 * (payload[0] as int) + payload[1] as int else 0
  }

  function CloseReason(payload: seq<Byte>): seq<Byte> {
    if |payload| >= 2 then payload[2..] else payload
  }

  lemma LowOctet(status: int)
    ensures CRemainder(status, 256) % 256 == status % 256
  {
    if status < 0 {
      var q, x := (-status) / 256, (-status) % 256;
      assert status == 256 * (-q) - x;
    }
  }

  lemma HighOctet(status: int)
    ensures 256 * ((status / 256) % 256) + status % 256 == status % 65536
  {
    var q, r := status / 65536, status % 65536;
    var h, l := r / 256, r % 256;
    assert status == 256 * (256 * q + h) + l;
    assert status / 256 == 256 * q + h;
  }

  /**
   * The status survives exactly when it is a 16-bit one; what arrives is its low 16 bits. The reason always survives.
   */
  lemma CloseRoundTrip(status: int, reason: seq<Byte>)
    ensures CloseStatus(ClosePayload(status, reason)) == status % 65536
    ensures CloseStatus(ClosePayload(status, reason)) == status <==> 0 <= status < 65536
    ensures CloseReason(ClosePayload(status, reason)) == reason
    ensures ClosePayload(status, reason) == [status / 256 % 256, status % 256] + reason
  {
    LowOctet(status);
    HighOctet(status);
  }
}
