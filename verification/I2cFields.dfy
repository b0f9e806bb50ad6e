/** Register access of `I2Cdev`: read-modify-write bit fields and big-endian words, on a bus that does not fail. */
module I2cFields {

  const REGISTERS := 256

  /** Bit `i` of an octet. */
  predicate Bit(b: bv8, i: bv8)
    requires i < 8
  {
    (b >> i) & 1 == 1
  }

  /** Fields the functions are meant for: `length` bits down from `bitStart`, inside the octet. */
  predicate Field(bitStart: bv8, length: bv8) {
    bitStart < 8 && length <= bitStart + 1
  }

  /** `((1 << length) - 1) << (bitStart - length + 1)`, narrowed to an octet. */
  function Mask(bitStart: bv8, length: bv8): bv8
    requires Field(bitStart, length)
  {
    ((1 << length) - 1) << (bitStart - length + 1)
  }

  /** What `writeBits` writes back. */
  function Merge(b: bv8, bitStart: bv8, length: bv8, data: bv8): bv8
    requires Field(bitStart, length)
  {
    var mask := Mask(bitStart, length);
    (b & !mask) | ((data << (bitStart - length + 1)) & mask)
  }

  /** What `readBits` returns. */
  function Extract(b: bv8, bitStart: bv8, length: bv8): bv8
    requires Field(bitStart, length)
  {
    (b & Mask(bitStart, length)) >> (bitStart - length + 1)
  }

  /** What `writeBit` writes back. */
  function SetBit(b: bv8, bitNum: bv8, on: bool): bv8
    requires bitNum < 8
  {
    if on then b | (1 << bitNum) else b & !(1 << bitNum)
  }

  // ---- what the operations do to single bits ----

  lemma MaskBit(bitStart: bv8, length: bv8, i: bv8)
    requires Field(bitStart, length) && i < 8
    ensures Bit(Mask(bitStart, length), i) == (bitStart - length + 1 <= i <= bitStart)
  {
  }

  lemma ShiftBit(data: bv8, shift: bv8, i: bv8)
    requires shift <= 8 && i < 8
    ensures Bit(data << shift, i) == (i >= shift && Bit(data, i - shift))
  {
  }

  lemma SelectBit(b: bv8, x: bv8, mask: bv8, i: bv8)
    requires i < 8
    ensures Bit((b & !mask) | (x & mask), i) == if Bit(mask, i) then Bit(x, i) else Bit(b, i)
  {
  }

  /** Whether a bit is in a field. */
  predicate InField(bitStart: bv8, length: bv8, i: bv8)
    requires Field(bitStart, length)
  {
    bitStart - length + 1 <= i <= bitStart
  }

  /** `writeBits` changes exactly its field, to the low bits of the value. */
  lemma MergeBit(b: bv8, bitStart: bv8, length: bv8, data: bv8, i: bv8)
    requires Field(bitStart, length) && i < 8
    ensures Bit(Merge(b, bitStart, length, data), i)
        == if bitStart - length + 1 <= i <= bitStart then Bit(data, i - (bitStart - length + 1)) else Bit(b, i)
  {
    var low := bitStart - length + 1;
    hide Bit, Mask;
    MaskBit(bitStart, length, i);
    ShiftBit(data, low, i);
    SelectBit(b, data << low, Mask(bitStart, length), i);
  }

  /** `readBits` returns exactly its field, right-aligned. */
  lemma ExtractBit(b: bv8, bitStart: bv8, length: bv8, i: bv8)
    requires Field(bitStart, length) && i < 8
    ensures Bit(Extract(b, bitStart, length), i) == (i < length && Bit(b, i + (bitStart - length + 1)))
  {
  }

  /** `writeBit` changes exactly its bit. */
  lemma SetBitBit(b: bv8, bitNum: bv8, on: bool, i: bv8)
    requires bitNum < 8 && i < 8
    ensures Bit(SetBit(b, bitNum, on), i) == if i == bitNum then on else Bit(b, i)
  {
  }

  /** `readBit` is not zero exactly when the bit is set. */
  lemma ReadBitNonzero(b: bv8, bitNum: bv8)
    requires bitNum < 8
    ensures b & (1 << bitNum) != 0 <==> Bit(b, bitNum)
  {
  }

  /** An octet is its bits. */
  lemma SameBits(x: bv8, y: bv8)
    requires forall i: bv8 | i < 8 :: Bit(x, i) == Bit(y, i)
    ensures x == y
  {
    assert Bit(x, 0) == Bit(y, 0) && Bit(x, 1) == Bit(y, 1) && Bit(x, 2) == Bit(y, 2) && Bit(x, 3) == Bit(y, 3);
    assert Bit(x, 4) == Bit(y, 4) && Bit(x, 5) == Bit(y, 5) && Bit(x, 6) == Bit(y, 6) && Bit(x, 7) == Bit(y, 7);
  }

  /** `v mod 2^length`. */
  function LowBits(v: bv8, length: bv8): bv8
    requires length <= 8
  {
    v & ((1 << length) - 1)
  }

  lemma LowBitsBit(v: bv8, length: bv8, i: bv8)
    requires length <= 8 && i < 8
    ensures Bit(LowBits(v, length), i) == (i < length && Bit(v, i))
  {
  }

  // ---- runs of register writes ----

  datatype Op =
    | WriteBits(reg: nat, bitStart: bv8, length: bv8, data: bv8)
    | WriteBit(reg: nat, bitNum: bv8, data: bv8)
    | WriteByte(reg: nat, data: bv8)

  ghost predicate Proper(op: Op) {
    && op.reg < REGISTERS
    && (op.WriteBits? ==> Field(op.bitStart, op.length))
    && (op.WriteBit? ==> op.bitNum < 8)
  }

  function Apply(regs: seq<bv8>, op: Op): (r: seq<bv8>)
    requires |regs| == REGISTERS && Proper(op)
    ensures |r| == REGISTERS
  {
    var b := regs[op.reg];
    match op
    case WriteBits(reg, bitStart, length, data) => regs[reg := Merge(b, bitStart, length, data)]
    case WriteBit(reg, bitNum, data) => regs[reg := SetBit(b, bitNum, data != 0)]
    case WriteByte(reg, data) => regs[reg := data]
  }

  function Run(regs: seq<bv8>, ops: seq<Op>): (r: seq<bv8>)
    requires |regs| == REGISTERS && forall k | 0 <= k < |ops| :: Proper(ops[k])
    ensures |r| == REGISTERS
  {
    if ops == [] then regs else Apply(Run(regs, ops[..|ops| - 1]), ops[|ops| - 1])
  }

  /** Whether a write covers a bit of a register, and the value it gives that bit. */
  predicate Covers(op: Op, reg: nat, i: bv8)
    requires Proper(op)
  {
    op.reg == reg
    && match op
       case WriteBits(_, bitStart, length, _) => InField(bitStart, length, i)
       case WriteBit(_, bitNum, _) => i == bitNum
       case WriteByte(_, _) => true
  }

  predicate Gives(op: Op, i: bv8)
    requires Proper(op) && i < 8 && Covers(op, op.reg, i)
  {
    match op
    case WriteBits(_, bitStart, length, data) => Bit(data, i - (bitStart - length + 1))
    case WriteBit(_, _, data) => data != 0
    case WriteByte(_, data) => Bit(data, i)
  }

  /** The map of bits: the latest write that covers a bit decides it. */
  predicate Latest(regs: seq<bv8>, ops: seq<Op>, reg: nat, i: bv8)
    requires |regs| == REGISTERS && reg < REGISTERS && i < 8 && forall k | 0 <= k < |ops| :: Proper(ops[k])
  {
    if ops == [] then Bit(regs[reg], i)
    else
      var last := ops[|ops| - 1];
      if Covers(last, reg, i) then Gives(last, i) else Latest(regs, ops[..|ops| - 1], reg, i)
  }

  lemma ApplyBit(regs: seq<bv8>, op: Op, reg: nat, i: bv8)
    requires |regs| == REGISTERS && reg < REGISTERS && i < 8 && Proper(op)
    ensures Bit(Apply(regs, op)[reg], i) == if Covers(op, reg, i) then Gives(op, i) else Bit(regs[reg], i)
  {
  }

  /** Over any run of writes to any registers, every bit is the one of the latest write covering it. */
  lemma {:induction false} RegistersAreBitMap(regs: seq<bv8>, ops: seq<Op>, reg: nat, i: bv8)
    requires |regs| == REGISTERS && reg < REGISTERS && i < 8 && forall k | 0 <= k < |ops| :: Proper(ops[k])
    ensures Bit(Run(regs, ops)[reg], i) == Latest(regs, ops, reg, i)
  {
    if ops == [] {
    } else {
      hide Bit, Apply, Covers, Gives;
      RegistersAreBitMap(regs, ops[..|ops| - 1], reg, i);
      ApplyBit(Run(regs, ops[..|ops| - 1]), ops[|ops| - 1], reg, i);
    }
  }

  lemma {:induction false} LatestUncovered(regs: seq<bv8>, ops: seq<Op>, n: nat, reg: nat, i: bv8)
    requires |regs| == REGISTERS && reg < REGISTERS && i < 8 && forall k | 0 <= k < |ops| :: Proper(ops[k])
    requires n <= |ops| && forall k | n <= k < |ops| :: !Covers(ops[k], reg, i)
    ensures Latest(regs, ops, reg, i) == Latest(regs, ops[..n], reg, i)
  {
    if n == |ops| {
      assert ops[..n] == ops;
    } else {
      LatestUncovered(regs, ops[..|ops| - 1], n, reg, i);
      assert ops[..|ops| - 1][..n] == ops[..n];
    }
  }

  /** Whether a write touches a field. */
  ghost predicate Overlaps(op: Op, reg: nat, bitStart: bv8, length: bv8)
    requires Proper(op) && Field(bitStart, length)
  {
    exists i: bv8 :: i < 8 && InField(bitStart, length, i) && Covers(op, reg, i)
  }

  /** A field no later write overlaps reads back as the value written, modulo two to its length. */
  lemma FieldReadsBack(regs: seq<bv8>, ops: seq<Op>, n: nat, reg: nat, bitStart: bv8, length: bv8, data: bv8)
    requires |regs| == REGISTERS && reg < REGISTERS && Field(bitStart, length)
    requires forall k | 0 <= k < |ops| :: Proper(ops[k])
    requires n < |ops| && ops[n] == WriteBits(reg, bitStart, length, data)
    requires forall k | n < k < |ops| :: !Overlaps(ops[k], reg, bitStart, length)
    ensures Extract(Run(regs, ops)[reg], bitStart, length) == LowBits(data, length)
  {
    var b := Run(regs, ops)[reg];
    forall i: bv8 | i < 8
      ensures Bit(Extract(b, bitStart, length), i) == Bit(LowBits(data, length), i)
    {
      ExtractBit(b, bitStart, length, i);
      LowBitsBit(data, length, i);
      if i < length {
        FieldBitReadsBack(regs, ops, n, reg, bitStart, length, data, i);
      }
    }
    SameBits(Extract(b, bitStart, length), LowBits(data, length));
  }

  lemma FieldBitReadsBack(regs: seq<bv8>, ops: seq<Op>, n: nat, reg: nat, bitStart: bv8, length: bv8, data: bv8, i: bv8)
    requires |regs| == REGISTERS && reg < REGISTERS && Field(bitStart, length) && i < length
    requires forall k | 0 <= k < |ops| :: Proper(ops[k])
    requires n < |ops| && ops[n] == WriteBits(reg, bitStart, length, data)
    requires forall k | n < k < |ops| :: !Overlaps(ops[k], reg, bitStart, length)
    ensures i + (bitStart - length + 1) < 8
    ensures Bit(Run(regs, ops)[reg], i + (bitStart - length + 1)) == Bit(data, i)
  {
    FieldPosition(bitStart, length, i);
    hide Bit;
    var at := i + (bitStart - length + 1);
    RegistersAreBitMap(regs, ops, reg, at);
    LatestUncovered(regs, ops, n + 1, reg, at);
    assert ops[..n + 1][n] == ops[n];
  }

  lemma FieldPosition(bitStart: bv8, length: bv8, i: bv8)
    requires Field(bitStart, length) && i < length
    ensures var at := i + (bitStart - length + 1);
      at < 8 && InField(bitStart, length, at) && at - (bitStart - length + 1) == i
  {
  }

  // ---- words ----

  function HighOctet(w: bv16): bv8 {
    (w >> 8) as bv8
  }

  function LowOctet(w: bv16): bv8 {
    (w & 0xFF) as bv8
  }

  /** `(((int16_t)buffer[0]) << 8) | buffer[1]`, as a bit pattern. */
  function WordOf(high: bv8, low: bv8): bv16 {
    ((high as bv16) << 8) | (low as bv16)
  }

  /** The signed value of a 16-bit pattern. */
  function Signed(w: bv16): int {
    var n := w as int;
    if n < 32768 then n else n - 65536
  }

  /** An `int16_t` is recovered from its low 16 bits. */
  lemma SignedReadsBack(w: bv16, v: int)
    requires -32768 <= v < 32768 && w as int == v % 65536
    ensures Signed(w) == v
  {
    var n := w as int;
    LowWord(n, v);
  }

  lemma LowWord(n: int, v: int)
    requires -32768 <= v < 32768 && n == v % 65536
    ensures v == if n < 32768 then n else n - 65536
  {
  }

  lemma WordRoundTrip(w: bv16)
    ensures WordOf(HighOctet(w), LowOctet(w)) == w
  {
  }

  // ---- the bus functions, over the device's registers ----

  class Bus {
    var regs: array<bv8>

    ghost predicate Valid()
      reads this
    {
      regs.Length == REGISTERS
    }

    constructor ()
      ensures Valid() && fresh(regs)
    {
      regs := new bv8[REGISTERS];
    }

    method PutByte(reg: nat, data: bv8) returns (ok: bool)
      requires Valid() && reg < REGISTERS
      modifies regs
      ensures ok && regs[..] == Apply(old(regs[..]), WriteByte(reg, data))
    {
      regs[reg] := data;
      return true;
    }

    method GetByte(reg: nat) returns (data: bv8)
      requires Valid() && reg < REGISTERS
      ensures data == regs[reg]
    {
      return regs[reg];
    }

    method GetBits(reg: nat, bitStart: bv8, length: bv8) returns (data: bv8)
      requires Valid() && reg < REGISTERS && Field(bitStart, length)
      ensures data == Extract(regs[reg], bitStart, length)
    {
      var b := GetByte(reg);
      ghost var field := Extract(b, bitStart, length);
      var mask := ((1 << length) - 1) << (bitStart - length + 1);
      b := b & mask;
      b := b >> (bitStart - length + 1);
      assert b == field;
      hide Extract, Mask;
      return b;
    }

    method GetBit(reg: nat, bitNum: bv8) returns (data: bv8)
      requires Valid() && reg < REGISTERS && bitNum < 8
      ensures data != 0 <==> Bit(regs[reg], bitNum)
    {
      var b := GetByte(reg);
      ReadBitNonzero(b, bitNum);
      return b & (1 << bitNum);
    }

    method PutBits(reg: nat, bitStart: bv8, length: bv8, value: bv8) returns (ok: bool)
      requires Valid() && reg < REGISTERS && Field(bitStart, length)
      modifies regs
      ensures ok && regs[..] == Apply(old(regs[..]), WriteBits(reg, bitStart, length, value))
    {
      var b := GetByte(reg);
      ghost var written := Merge(b, bitStart, length, value);
      var mask := ((1 << length) - 1) << (bitStart - length + 1);
      var data := value << (bitStart - length + 1);
      data := data & mask;
      b := b & !mask;
      b := b | data;
      assert b == written;
      hide Merge, Mask;
      ok := PutByte(reg, b);
    }

    static method WithBit(b: bv8, bitNum: bv8, data: bv8) returns (r: bv8)
      requires bitNum < 8
      ensures r == SetBit(b, bitNum, data != 0)
    {
      r := if data != 0 then b | (1 << bitNum) else b & !(1 << bitNum);
    }

    method PutBit(reg: nat, bitNum: bv8, data: bv8) returns (ok: bool)
      requires Valid() && reg < REGISTERS && bitNum < 8
      modifies regs
      ensures ok && regs[..] == Apply(old(regs[..]), WriteBit(reg, bitNum, data))
    {
      var b := GetByte(reg);
      b := WithBit(b, bitNum, data);
      hide SetBit, Merge;
      ok := PutByte(reg, b);
    }

    /** `writeWords`: the words are laid out big-endian behind the register number, in a buffer of 128 octets. */
    method PutWords(reg: nat, words: seq<bv16>) returns (ok: bool)
      requires Valid() && reg + 2 * |words| <= REGISTERS
      modifies regs
      ensures ok <==> |words| <= 63
      ensures ok ==> forall i | 0 <= i < |words| :: WordOf(regs[reg + 2 * i], regs[reg + 2 * i + 1]) == words[i]
      ensures ok ==> forall i | 0 <= i < |words| ::
        regs[reg + 2 * i] == (words[i] >> 8) as bv8 && regs[reg + 2 * i + 1] == (words[i] & 0xFF) as bv8
      ensures forall r | 0 <= r < REGISTERS && (!ok || r < reg || r >= reg + 2 * |words|) :: regs[r] == old(regs[r])
    {
      if |words| > 63 {
        return false;
      }
      var buf := new bv8[128];
      for i := 0 to |words|
        invariant forall k | 0 <= k < i :: buf[k * 2 + 1] == HighOctet(words[k]) && buf[k * 2 + 2] == LowOctet(words[k])
        invariant regs[..] == old(regs[..]) && regs != buf
      {
        buf[i * 2 + 1] := (words[i] >> 8) as bv8;
        buf[i * 2 + 2] := (words[i] & 0xFF) as bv8;
      }
      forall k | 0 <= k < 2 * |words| {
        regs[reg + k] := buf[k + 1];
      }
      forall i | 0 <= i < |words|
        ensures WordOf(regs[reg + 2 * i], regs[reg + 2 * i + 1]) == words[i]
        ensures regs[reg + 2 * i] == (words[i] >> 8) as bv8 && regs[reg + 2 * i + 1] == (words[i] & 0xFF) as bv8
      {
        assert regs[reg + 2 * i] == buf[2 * i + 1] && regs[reg + (2 * i + 1)] == buf[(2 * i + 1) + 1];
        WordRoundTrip(words[i]);
      }
      return true;
    }

    /** An offset getter, for instance `getXAccelOffset`. */
    method GetOffset(reg: nat) returns (offset: int)
      requires Valid() && reg + 1 < REGISTERS
      ensures offset == Signed(WordOf(regs[reg], regs[reg + 1]))
      ensures -32768 <= offset < 32768
    {
      var high := GetByte(reg);
      var low := GetByte(reg + 1);
      offset := Signed(WordOf(high, low));
    }

    /** An offset set, for instance by `setXAccelOffset`, reads back as the same signed number. */
    method SetThenGetOffset(reg: nat, w: bv16) returns (offset: int)
      requires Valid() && reg + 1 < REGISTERS
      modifies regs
      ensures offset == Signed(w)
    {
      var _ := PutWords(reg, [w]);
      assert WordOf(regs[reg + 2 * 0], regs[reg + 2 * 0 + 1]) == [w][0];
      offset := GetOffset(reg);
    }

    /** So an offset in the range of `int16_t`, written as its low 16 bits, comes back as it is. */
    method SetThenGetInt16(reg: nat, w: bv16, ghost v: int) returns (offset: int)
      requires Valid() && reg + 1 < REGISTERS && -32768 <= v < 32768 && w as int == v % 65536
      modifies regs
      ensures offset == v
    {
      SignedReadsBack(w, v);
      hide Signed;
      offset := SetThenGetOffset(reg, w);
    }
  }
}
