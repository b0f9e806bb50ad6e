/** Octets, big-endian integers and the byte streams the endpoints build frames in. */
module Bytes {

  type Byte = x: int | 0 <= x < 256

  /** Bitwise exclusive or of the low `n` bits of two integers, bit by bit from the least significant. */
  function XorLow(a: nat, b: nat, n: nat): (r: nat) {
    if n == 0 then 0 else 2 * XorLow(a / 2, b / 2, n - 1) + (a + b) % 2
  }

  function PowerOfTwo(n: nat): nat {
    if n == 0 then 1 else 2 * PowerOfTwo(n - 1)
  }

  lemma {:induction false} XorLowRange(a: nat, b: nat, n: nat)
    ensures XorLow(a, b, n) < PowerOfTwo(n)
  {
    if n == 0 {
    } else {
      XorLowRange(a / 2, b / 2, n - 1);
    }
  }

  lemma ParityCancels(a: nat, b: nat, r: nat)
    requires r % 2 == (a + b) % 2
    ensures (r + b) % 2 == a % 2
  {
  }

  lemma {:induction false} XorLowCancels(a: nat, b: nat, n: nat)
    requires a < PowerOfTwo(n)
    ensures XorLow(XorLow(a, b, n), b, n) == a
  {
    if n == 0 {
    } else {
      XorLowCancels(a / 2, b / 2, n - 1);
      var r := XorLow(a, b, n);
      assert r / 2 == XorLow(a / 2, b / 2, n - 1) && r % 2 == (a + b) % 2;
      ParityCancels(a, b, r);
    }
  }

  /** C's `^` on two octets. */
  function Xor(a: Byte, b: Byte): (r: Byte) {
    XorLowRange(a, b, 8);
    assert PowerOfTwo(8) == 256;
    XorLow(a, b, 8)
  }

  /** Masking twice with the same octet is the identity. */
  lemma XorCancels(a: Byte, b: Byte)
    ensures Xor(Xor(a, b), b) == a
  {
    assert PowerOfTwo(8) == 256;
    XorLowCancels(a, b, 8);
  }

  /** `x >> k`. */
  function Shift(x: nat, k: nat): nat {
    if k == 0 then x else Shift(x / 2, k - 1)
  }

  lemma {:induction false} XorLowBit(a: nat, b: nat, n: nat, k: nat)
    requires k < n
    ensures Shift(XorLow(a, b, n), k) % 2 == (Shift(a, k) + Shift(b, k)) % 2
  {
    XorLowHalf(a, b, n);
    hide XorLow;
    if k == 0 {
    } else {
      XorLowBit(a / 2, b / 2, n - 1, k - 1);
    }
  }

  lemma XorLowHalf(a: nat, b: nat, n: nat)
    requires n > 0
    ensures XorLow(a, b, n) % 2 == (a + b) % 2 && XorLow(a, b, n) / 2 == XorLow(a / 2, b / 2, n - 1)
  {
  }

  lemma ShiftDivides(x: nat)
    ensures Shift(x, 0) == x && Shift(x, 1) == x / 2 && Shift(x, 2) == x / 4 && Shift(x, 3) == x / 8
    ensures Shift(x, 4) == x / 16 && Shift(x, 5) == x / 32 && Shift(x, 6) == x / 64 && Shift(x, 7) == x / 128
  {
    ShiftLast(x, 1);
    ShiftLast(x, 2);
    ShiftLast(x, 3);
    ShiftLast(x, 4);
    ShiftLast(x, 5);
    ShiftLast(x, 6);
    ShiftLast(x, 7);
    Halves(x);
    hide Shift;
  }

  lemma {:induction false} ShiftLast(x: nat, k: nat)
    requires k > 0
    ensures Shift(x, k) == Shift(x, k - 1) / 2
  {
    if k > 1 {
      ShiftLast(x / 2, k - 1);
    }
  }

  lemma Halves(x: nat)
    ensures x / 2 / 2 == x / 4 && x / 4 / 2 == x / 8 && x / 8 / 2 == x / 16
    ensures x / 16 / 2 == x / 32 && x / 32 / 2 == x / 64 && x / 64 / 2 == x / 128
  {
  }

  lemma XorShifted(a: Byte, b: Byte, k: nat)
    requires k < 8
    ensures Shift(Xor(a, b), k) % 2 == (Shift(a, k) + Shift(b, k)) % 2
  {
    XorLowBit(a, b, 8, k);
    hide XorLow, Shift;
  }

  /** Each of the eight bits of the result is the sum, modulo two, of the operands' bits at its place. */
  lemma XorIsBitwise(a: Byte, b: Byte)
    ensures Xor(a, b) % 2 == (a + b) % 2
    ensures Xor(a, b) / 2 % 2 == (a / 2 + b / 2) % 2
    ensures Xor(a, b) / 4 % 2 == (a / 4 + b / 4) % 2
    ensures Xor(a, b) / 8 % 2 == (a / 8 + b / 8) % 2
    ensures Xor(a, b) / 16 % 2 == (a / 16 + b / 16) % 2
    ensures Xor(a, b) / 32 % 2 == (a / 32 + b / 32) % 2
    ensures Xor(a, b) / 64 % 2 == (a / 64 + b / 64) % 2
    ensures Xor(a, b) / 128 % 2 == (a / 128 + b / 128) % 2
  {
    hide Xor, Shift;
    ShiftDivides(a);
    ShiftDivides(b);
    ShiftDivides(Xor(a, b));
    XorShifted(a, b, 0);
    XorShifted(a, b, 1);
    XorShifted(a, b, 2);
    XorShifted(a, b, 3);
    XorShifted(a, b, 4);
    XorShifted(a, b, 5);
    XorShifted(a, b, 6);
    XorShifted(a, b, 7);
  }

  /** `v >> (8 * c)` on an unsigned integer. */
  function ShiftRightBytes(v: nat, c: nat): nat {
    if c == 0 then v else ShiftRightBytes(v, c - 1) / 256
  }

  function Pow256(n: nat): (p: nat)
    ensures p > 0
  {
    if n == 0 then 1 else 256 * Pow256(n - 1)
  }

  /** The low `n` octets of `v`, most significant first. */
  function BigEndian(v: nat, n: nat): (s: seq<Byte>)
    ensures |s| == n
  {
    if n == 0 then [] else BigEndian(v / 256, n - 1) + [v % 256]
  }

  /** The integer a big-endian octet string denotes. */
  function BigEndianValue(s: seq<Byte>): nat {
    if s == [] then 0 else 256 * BigEndianValue(s[..|s| - 1]) + s[|s| - 1]
  }

  /** The first octet is the most significant, in both widths a frame uses. */
  lemma BigEndianWeights(s: seq<Byte>)
    ensures |s| == 2 ==> BigEndianValue(s) == 256 * (s[0] as int) + s[1] as int
    ensures |s| == 8 ==>
      (BigEndianValue(s)
       == 0x100_0000_0000_0000 * (s[0] as int) + 0x1_0000_0000_0000 * (s[1] as int) + 0x100_0000_0000 * (s[2] as int)
          + 0x1_0000_0000 * (s[3] as int) + 0x100_0000 * (s[4] as int) + 0x1_0000 * (s[5] as int)
          + 0x100 * (s[6] as int) + s[7] as int)
  {
    hide BigEndianValue;
    assert s[..|s|] == s;
    if |s| == 2 {
      FrontValue(s, 1);
      FrontValue(s, 0);
    } else if |s| == 8 {
      FrontValue(s, 7);
      FrontValue(s, 6);
      FrontValue(s, 5);
      FrontValue(s, 4);
      FrontValue(s, 3);
      FrontValue(s, 2);
      FrontValue(s, 1);
      FrontValue(s, 0);
    }
  }

  lemma FrontValue(s: seq<Byte>, n: nat)
    requires n < |s|
    ensures BigEndianValue(s[..n + 1]) == 256 * BigEndianValue(s[..n]) + s[n]
    ensures BigEndianValue(s[..0]) == 0
  {
    assert s[..n + 1][..n] == s[..n];
  }

  lemma {:induction false} BigEndianRoundTrip(v: nat, n: nat)
    requires v < Pow256(n)
    ensures BigEndianValue(BigEndian(v, n)) == v
  {
    if n == 0 {
    } else {
      BigEndianRoundTrip(v / 256, n - 1);
      assert BigEndian(v, n)[..n - 1] == BigEndian(v / 256, n - 1);
    }
  }

  lemma {:induction false} BigEndianValueRange(s: seq<Byte>)
    ensures BigEndianValue(s) < Pow256(|s|)
  {
    if s == [] {
    } else {
      BigEndianValueRange(s[..|s| - 1]);
    }
  }

  /** Pieces of a byte stream, put together. */
  function Concat(pieces: seq<seq<Byte>>): seq<Byte> {
    if pieces == [] then [] else Concat(pieces[..|pieces| - 1]) + pieces[|pieces| - 1]
  }

  // ---- slices ----

  lemma JoinSlices<T>(s: seq<T>, a: nat, b: nat, c: nat)
    requires a <= b <= c <= |s|
    ensures s[a..b] + s[b..c] == s[a..c]
  {
  }

  lemma SliceOfSuffix<T>(s: seq<T>, a: nat, n: nat)
    requires a + n <= |s|
    ensures s[a..][..n] == s[a..a + n] && s[a..][n..] == s[a + n..]
  {
  }

  /** A slice, continued into the suffix behind it. */
  lemma ExtendSlice<T>(s: seq<T>, a: nat, b: nat, n: nat)
    requires a <= b && b + n <= |s|
    ensures s[a..b] + s[b..][..n] == s[a..b + n] && s[b..][n..] == s[b + n..]
  {
  }

  lemma SliceOfSlice<T>(s: seq<T>, a: nat, b: nat, n: nat)
    requires a + n <= b <= |s|
    ensures s[a..b][..n] == s[a..a + n] && s[a..b][n..] == s[a + n..b]
  {
  }

  /** A boost `streambuf` seen through its stream operators: bytes are appended behind and taken from the front. */
  class ByteStream {
    var data: seq<Byte>

    constructor ()
      ensures data == []
    {
      data := [];
    }

    method Put(b: Byte)
      modifies this
      ensures data == old(data) + [b]
    {
      data := data + [b];
    }

    method Get() returns (b: Byte)
      requires data != []
      modifies this
      ensures [b] + data == old(data)
    {
      b := data[0];
      data := data[1..];
    }

    method Read(n: nat) returns (s: seq<Byte>)
      requires n <= |data|
      modifies this
      ensures s == old(data)[..n] && data == old(data)[n..]
    {
      s := data[..n];
      data := data[n..];
    }
  }
}
