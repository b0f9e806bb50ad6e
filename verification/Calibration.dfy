/**
 * The offset calibration of the earthquake monitor: the averaging of readings, and the feedback loop that moves the
 * sensor's offset registers until the mean of every axis is inside the dead zone.
 */
module Calibration {

  // ---- C arithmetic ----

  function Abs(v: int): (r: nat)
    ensures (r == v || r == -v)
  {
    if v < 0 then -v else v
  }

  /** C's integer division, which rounds towards zero. */
  function Quotient(a: int, b: int): int
    requires b > 0
  {
    if a >= 0 then a / b else -(-a / b)
  }

  /**
   * The quotient is cut off towards zero: the remainder is smaller than the divisor and has the sign of the dividend.
   */
  lemma QuotientCutsOff(a: int, b: int)
    requires b > 0
    ensures a >= 0 ==> 0 <= a - Quotient(a, b) * b < b
    ensures a <= 0 ==> -b < a - Quotient(a, b) * b <= 0
  {
    var q := Quotient(a, b);
    if a >= 0 {
      assert q * b <= a < q * b + b;
    } else {
      var p := -a / b;
      assert p * b <= -a < p * b + b && q * b == -(p * b);
    }
  }

  /** Conversion to `int16_t`. */
  function ToInt16(v: int): (r: int)
    ensures -32768 <= r < 32768
    ensures -32768 <= v < 32768 ==> r == v
    ensures (v - r) % 65536 == 0
  {
    (v + 32768) % 65536 - 32768
  }

  // ---- means ----

  function Sum(s: seq<int>): int {
    if s == [] then 0 else Sum(s[..|s| - 1]) + s[|s| - 1]
  }

  lemma {:induction false} SumBetween(s: seq<int>, low: int, high: int)
    requires forall i | 0 <= i < |s| :: low <= s[i] <= high
    ensures low * |s| <= Sum(s) <= high * |s|
  {
    if s == [] {
    } else {
      var n := |s| - 1;
      SumBetween(s[..n], low, high);
      assert low * (n + 1) == low * n + low && high * (n + 1) == high * n + high;
    }
  }

  lemma Scale(x: int, y: int, n: nat)
    requires x <= y
    ensures x * n <= y * n
  {
  }

  lemma Unscale(x: int, y: int, n: nat)
    requires x * n < y * n
    ensures x < y
  {
    if y <= x {
      Scale(y, x, n);
    }
  }

  lemma QuotientBetween(a: int, n: nat, low: int, high: int)
    requires n > 0 && low * n <= a <= high * n
    ensures low <= Quotient(a, n) <= high
  {
    var q := Quotient(a, n);
    assert (q + 1) * n == q * n + n && (q - 1) * n == q * n - n;
    assert (high + 1) * n == high * n + n && (low - 1) * n == low * n - n;
    if a >= 0 {
      assert q * n <= a < q * n + n;
      Unscale(low, q + 1, n);
      Unscale(q, high + 1, n);
    } else {
      assert -q * n == -(q * n);
      assert q * n - n < a <= q * n;
      Unscale(low - 1, q, n);
      Unscale(q - 1, high, n);
    }
  }

  /**
   * The mean of readings lies between any bounds on them, so between the least and the greatest; and `int16_t` readings
   * leave the sum of up to 65535 of them inside 32 bits.
   */
  lemma MeanBetween(s: seq<int>, low: int, high: int)
    requires s != [] && forall i | 0 <= i < |s| :: low <= s[i] <= high
    ensures low <= Quotient(Sum(s), |s|) <= high
    ensures -32768 <= low && high < 32768 && |s| <= 65535 ==> -0x8000_0000 <= Sum(s) < 0x8000_0000
  {
    SumBetween(s, low, high);
    QuotientBetween(Sum(s), |s|, low, high);
    if -32768 <= low && high < 32768 && |s| <= 65535 {
      SumBetween(s, -32768, 32767);
    }
  }

  datatype Reading = Reading(x: int, y: int, z: int)

  function Xs(rs: seq<Reading>): seq<int> { seq(|rs|, i requires 0 <= i < |rs| => rs[i].x) }
  function Ys(rs: seq<Reading>): seq<int> { seq(|rs|, i requires 0 <= i < |rs| => rs[i].y) }
  function Zs(rs: seq<Reading>): seq<int> { seq(|rs|, i requires 0 <= i < |rs| => rs[i].z) }

  lemma SumExtends(rs: seq<Reading>, a: nat, b: nat)
    requires a <= b < |rs|
    ensures Sum(Xs(rs[a..b + 1])) == Sum(Xs(rs[a..b])) + rs[b].x
    ensures Sum(Ys(rs[a..b + 1])) == Sum(Ys(rs[a..b])) + rs[b].y
    ensures Sum(Zs(rs[a..b + 1])) == Sum(Zs(rs[a..b])) + rs[b].z
  {
    var n := b - a;
    assert Xs(rs[a..b + 1])[..n] == Xs(rs[a..b]);
    assert Ys(rs[a..b + 1])[..n] == Ys(rs[a..b]);
    assert Zs(rs[a..b + 1])[..n] == Zs(rs[a..b]);
  }

  // ---- one axis ----

  /**
   * A noiseless axis: what it reads with its offset register at 0, how many counts one unit of the register moves it,
   * and the reading calibration aims for. Readings saturate at the ends of `int16_t`.
   */
  datatype Axis = Axis(base: int, gain: int, target: int)

  ghost predicate ValidAxis(a: Axis) {
    -32768 <= a.base < 32768 && (a.target == 0 || a.target == 16384)
  }

  function Reads(a: Axis, register: int): int {
    var v := a.base + a.gain * register;
    if v < -32768 then -32768 else if v > 32767 then 32767 else v
  }

  /**
   * The error `target - mean` the program sees with its offset variable at `o`, written to the register as `int16_t`.
   */
  function Seen(a: Axis, o: int): int {
    a.target - Reads(a, ToInt16(o))
  }

  predicate Settled(a: Axis, o: int) {
    Abs(Seen(a, o)) <= 8
  }

  /** The offset after the pass that measured with `o`. */
  function NextOffset(a: Axis, o: int): int {
    if Settled(a, o) then o else o + Quotient(Seen(a, o), 8)
  }

  /** The offset after `n` passes; the first offset follows from the reading with the register at 0. */
  ghost function OffsetAfter(a: Axis, n: nat): int {
    if n == 0 then Quotient(Seen(a, 0), 8) else NextOffset(a, OffsetAfter(a, n - 1))
  }

  /** What the passes do, in the program's terms: an eighth of the measured error is added, unless that is at most 8. */
  lemma PassMoves(a: Axis, n: nat)
    ensures ValidAxis(a) ==> OffsetAfter(a, 0) == Quotient(a.target - a.base, 8)
    ensures var e := a.target - Reads(a, ToInt16(OffsetAfter(a, n)));
      OffsetAfter(a, n + 1) == if -8 <= e <= 8 then OffsetAfter(a, n) else OffsetAfter(a, n) + Quotient(e, 8)
  {
    assert a.gain * 0 == 0;
  }

  /** The error without saturation. */
  function Error(a: Axis, o: int): int {
    a.target - a.base - a.gain * o
  }

  /** Gains 1 to 15 pull the error towards 0; the facts that keep the offset inside its register. */
  ghost predicate Tame(a: Axis, o: int) {
    var e0, e := Error(a, 0), Error(a, o);
    && ValidAxis(a) && 1 <= a.gain <= 15 && (a.gain == 1 ==> e0 <= 32775)
    && Abs(e) <= Abs(e0)
    && (a.gain <= 3 ==> (e0 >= 0 ==> e >= 0) && (e0 <= 0 ==> e <= 0))
    && (a.gain == 1 && e0 > 8 ==> e >= 8)
    && Bounded(a.gain, a.target, e)
  }

  /**
   * How far a run gets away from the target: x and y readings never saturate, a z reading only at its upper end, and
   * then not by more than one pass can make good.
   */
  ghost predicate Bounded(g: int, target: int, e: int) {
    if target == 0 then -32767 <= e <= 32767 else e <= 49151 && (e >= -16383 || e >= 49152 - 6144 * g)
  }

  /** What the program sees of an error inside these bounds. */
  function SeenOf(target: int, e: int): int {
    if target == 16384 && e < -16383 then -16383 else e
  }

  lemma RegisterFits(g: int, o: int, e0: int, e: int)
    requires 1 <= g <= 15 && g * o == e0 - e && Abs(e) <= Abs(e0) && -32767 <= e0 <= 49152
    requires g <= 3 ==> (e0 >= 0 ==> e >= 0) && (e0 <= 0 ==> e <= 0)
    requires g == 1 ==> e0 <= 32775 && (e0 > 8 ==> e >= 8)
    ensures -32768 <= o < 32768
  {
    if g >= 4 {
      TimesAtLeast(g, 4, o);
    } else if g >= 2 {
      TimesAtLeast(g, 2, o);
    }
  }

  lemma TimesAtLeast(g: int, m: int, o: int)
    requires g >= m >= 0
    ensures o >= 0 ==> g * o >= m * o
    ensures o <= 0 ==> g * o <= m * o
  {
    assert g * o == m * o + (g - m) * o;
  }

  lemma TameFits(a: Axis, o: int)
    requires Tame(a, o)
    ensures -32768 <= o < 32768
    ensures Seen(a, o) == SeenOf(a.target, Error(a, o))
  {
    assert a.gain * 0 == 0;
    RegisterFits(a.gain, o, Error(a, 0), Error(a, o));
  }

  /** Moving an offset by an eighth of the seen error brings the error nearer to 0. */
  lemma Pull(g: int, e: int, v: int)
    requires 1 <= g <= 15 && Abs(v) <= Abs(e) && (e >= 0 ==> v >= 0) && (e <= 0 ==> v <= 0)
    ensures var e1 := e - g * Quotient(v, 8);
      && Abs(e1) <= Abs(e) && (Abs(v) >= 8 ==> Abs(e1) < Abs(e))
      && (g <= 8 ==> (e >= 0 ==> e1 >= 0) && (e <= 0 ==> e1 <= 0))
      && (g == 1 && e > 8 ==> e1 >= 8)
  {
    var q := Quotient(v, 8);
    TimesAtLeast(g, 1, q);
    TimesAtLeast(15, g, q);
    if g <= 8 {
      TimesAtLeast(8, g, q);
    }
  }

  lemma ErrorMoves(a: Axis, o: int, q: int)
    ensures Error(a, o + q) == Error(a, o) - a.gain * q
  {
  }

  /** A positive z error of at most 49152 overshoots by no more than the bound. */
  lemma Overshoot(g: int, e: int)
    requires 1 <= g <= 15 && 0 <= e <= 49152
    ensures e - g * (e / 8) >= 0 || e - g * (e / 8) >= 49152 - 6144 * g
  {
    var q := e / 8;
    assert g * q == 8 * q + (g - 8) * q;
    if g > 8 {
      TimesAtLeast(6144, q, g - 8);
    } else {
      TimesAtLeast(8, g, q);
    }
  }

  /** A pass stays inside the bounds, whatever it measured there. */
  lemma StaysBounded(g: int, target: int, e: int)
    requires 1 <= g <= 15 && (target == 0 || target == 16384) && Bounded(g, target, e)
    ensures Bounded(g, target, e - g * Quotient(SeenOf(target, e), 8))
  {
    var v := SeenOf(target, e);
    Pull(g, e, v);
    if target == 16384 {
      if e >= 0 {
        Overshoot(g, e);
      } else {
        TimesAtLeast(g, 1, Quotient(v, 8));
      }
    }
  }

  /** And outside the dead zone the error as seen shrinks: a saturated z reading comes back within one pass. */
  lemma SeenShrinks(g: int, target: int, e: int)
    requires 1 <= g <= 15 && (target == 0 || target == 16384) && Bounded(g, target, e) && Abs(SeenOf(target, e)) > 8
    ensures Abs(SeenOf(target, e - g * Quotient(SeenOf(target, e), 8))) < Abs(SeenOf(target, e))
  {
    var v := SeenOf(target, e);
    Pull(g, e, v);
    if v != e {
      assert Quotient(v, 8) == -2047;
    }
  }

  /** One pass keeps an axis tame, leaves a settled axis alone, and lowers the error seen of any other. */
  lemma PassPulls(a: Axis, o: int)
    requires Tame(a, o)
    ensures var o1 := NextOffset(a, o);
      && Tame(a, o1)
      && (Settled(a, o) ==> o1 == o)
      && (!Settled(a, o) ==> Abs(Seen(a, o1)) < Abs(Seen(a, o)))
  {
    var e, q := Error(a, o), Quotient(Seen(a, o), 8);
    TameFits(a, o);
    Pull(a.gain, e, Seen(a, o));
    ErrorMoves(a, o, q);
    StaysBounded(a.gain, a.target, e);
    hide Seen, Quotient, Error, Bounded, SeenOf;
    if !Settled(a, o) {
      TameFits(a, o + q);
      SeenShrinks(a.gain, a.target, e);
    }
  }

  lemma FirstTame(a: Axis)
    requires ValidAxis(a) && 1 <= a.gain <= 15 && (a.gain == 1 ==> Error(a, 0) <= 32775)
    ensures Tame(a, OffsetAfter(a, 0))
  {
    var e0, q := Error(a, 0), Quotient(Seen(a, 0), 8);
    assert a.gain * 0 == 0 && Seen(a, 0) == e0;
    Pull(a.gain, e0, e0);
    ErrorMoves(a, 0, q);
    FirstBounded(a.gain, a.target, e0);
    hide Seen, Quotient, Error, Bounded;
  }

  lemma FirstBounded(g: int, target: int, e0: int)
    requires 1 <= g <= 15
    requires if target == 0 then -32767 <= e0 <= 32768 else target == 16384 && -16383 <= e0 <= 49152
    ensures Bounded(g, target, e0 - g * Quotient(e0, 8))
  {
    Pull(g, e0, e0);
    if target == 16384 && e0 >= 0 {
      Overshoot(g, e0);
    }
  }

  // ---- the three axes ----

  datatype Sensor = Sensor(baseX: int, baseY: int, baseZ: int, gain: int) {
    function X(): Axis { Axis(baseX, gain, 0) }
    function Y(): Axis { Axis(baseY, gain, 0) }
    function Z(): Axis { Axis(baseZ, gain, 16384) }
  }

  ghost predicate ValidSensor(s: Sensor) {
    ValidAxis(s.X()) && ValidAxis(s.Y()) && ValidAxis(s.Z())
  }

  datatype Offsets = Offsets(x: int, y: int, z: int)

  function NextOffsets(s: Sensor, o: Offsets): Offsets {
    Offsets(NextOffset(s.X(), o.x), NextOffset(s.Y(), o.y), NextOffset(s.Z(), o.z))
  }

  ghost function OffsetsAfter(s: Sensor, n: nat): Offsets {
    Offsets(OffsetAfter(s.X(), n), OffsetAfter(s.Y(), n), OffsetAfter(s.Z(), n))
  }

  lemma NextPass(s: Sensor, n: nat)
    ensures OffsetsAfter(s, n + 1) == NextOffsets(s, OffsetsAfter(s, n))
  {
  }

  predicate AllSettled(s: Sensor, o: Offsets) {
    Settled(s.X(), o.x) && Settled(s.Y(), o.y) && Settled(s.Z(), o.z)
  }

  ghost predicate AllTame(s: Sensor, o: Offsets) {
    Tame(s.X(), o.x) && Tame(s.Y(), o.y) && Tame(s.Z(), o.z)
  }

  /** `|mean_ax| + |mean_ay| + |16384 - mean_az|`. */
  function TotalSeen(s: Sensor, o: Offsets): nat {
    Abs(Seen(s.X(), o.x)) + Abs(Seen(s.Y(), o.y)) + Abs(Seen(s.Z(), o.z))
  }

  /** The calibration loop leaves `while (1)` at some pass. */
  ghost predicate Calibrates(s: Sensor) {
    exists n: nat :: AllSettled(s, OffsetsAfter(s, n))
  }

  /** The reading of the z axis that gain 1 can still bring to 16384 with a 16-bit offset. */
  predicate Reachable(s: Sensor) {
    s.gain >= 2 || s.baseZ >= -16391
  }

  lemma TamePass(s: Sensor, o: Offsets)
    requires AllTame(s, o)
    ensures var o1 := NextOffsets(s, o);
      && AllTame(s, o1)
      && (Settled(s.X(), o.x) ==> o1.x == o.x) && (Settled(s.Y(), o.y) ==> o1.y == o.y)
      && (Settled(s.Z(), o.z) ==> o1.z == o.z)
      && (!AllSettled(s, o) ==> TotalSeen(s, o1) < TotalSeen(s, o))
  {
    PassPulls(s.X(), o.x);
    PassPulls(s.Y(), o.y);
    PassPulls(s.Z(), o.z);
    hide Seen, Tame, NextOffset, Settled;
  }

  lemma FirstAllTame(s: Sensor)
    requires ValidSensor(s) && 1 <= s.gain <= 15 && Reachable(s)
    ensures AllTame(s, OffsetsAfter(s, 0))
  {
    assert s.gain * 0 == 0;
    FirstTame(s.X());
    FirstTame(s.Y());
    FirstTame(s.Z());
  }

  lemma {:induction false} RunIsTame(s: Sensor, n: nat)
    requires ValidSensor(s) && 1 <= s.gain <= 15 && Reachable(s)
    ensures AllTame(s, OffsetsAfter(s, n))
  {
    if n == 0 {
      FirstAllTame(s);
    } else {
      RunIsTame(s, n - 1);
      TamePass(s, OffsetsAfter(s, n - 1));
      NextPass(s, n - 1);
      hide AllTame, OffsetsAfter, NextOffsets;
    }
  }

  /**
   * In every run, every pass that does not leave the loop lowers the total of the three errors as the program measures
   * them, and axes inside the dead zone keep their offset.
   */
  lemma PassLowersError(s: Sensor, n: nat)
    requires ValidSensor(s) && 1 <= s.gain <= 15 && Reachable(s)
    ensures var o, o1 := OffsetsAfter(s, n), OffsetsAfter(s, n + 1);
      && (!AllSettled(s, o) ==> TotalSeen(s, o1) < TotalSeen(s, o))
      && (Settled(s.X(), o.x) ==> o1.x == o.x) && (Settled(s.Y(), o.y) ==> o1.y == o.y)
      && (Settled(s.Z(), o.z) ==> o1.z == o.z)
  {
    RunIsTame(s, n);
    TamePass(s, OffsetsAfter(s, n));
    NextPass(s, n);
    hide AllTame, OffsetsAfter, NextOffsets, TotalSeen, AllSettled, Settled;
  }

  lemma {:induction false} ReachesCalm(s: Sensor, n: nat) returns (m: nat)
    requires ValidSensor(s) && 1 <= s.gain <= 15 && Reachable(s)
    ensures AllSettled(s, OffsetsAfter(s, m))
    decreases TotalSeen(s, OffsetsAfter(s, n))
  {
    if AllSettled(s, OffsetsAfter(s, n)) {
      m := n;
    } else {
      PassLowersError(s, n);
      m := ReachesCalm(s, n + 1);
    }
  }

  /** With gain 1, no 16-bit offset lifts a z reading below -16391 into the dead zone. */
  lemma OutOfReach(s: Sensor, o: int)
    requires ValidSensor(s) && s.gain == 1 && s.baseZ < -16391
    ensures !Settled(s.Z(), o)
  {
    assert s.gain * ToInt16(o) == ToInt16(o);
  }

  /** For gains 1 to 15 the loop ends exactly if the z axis is within reach of its register. */
  lemma CalibratesExactly(s: Sensor)
    requires ValidSensor(s) && 1 <= s.gain <= 15
    ensures Calibrates(s) <==> Reachable(s)
  {
    if Reachable(s) {
      var m := ReachesCalm(s, 0);
    } else {
      forall n: nat ensures !AllSettled(s, OffsetsAfter(s, n)) {
        OutOfReach(s, OffsetAfter(s.Z(), n));
      }
    }
  }

  // ---- the gains for which calibration always ends ----

  /** A sensor off by `b` counts on its x axis only. */
  function OffOnX(b: int, g: int): Sensor {
    Sensor(b, 0, 16384, g)
  }

  lemma NoOffsetFits(g: int, o: int)
    requires g == 0 || g <= -18 || g >= 18
    ensures !Settled(OffOnX(9, g).X(), o)
  {
    var r := ToInt16(o);
    if g == 0 {
      assert g * r == 0;
    } else {
      TimesAtLeast(Abs(g), 18, r);
      assert g * r == Abs(g) * r || g * r == -(Abs(g) * r);
    }
  }

  /** Gains 16 and 17 swing to and fro between two offsets. */
  lemma {:induction false} Swings(g: int, n: nat)
    requires g == 16 || g == 17
    ensures var o := OffsetAfter(OffOnX(16, g).X(), n); (o == 0 || o == -2) && !Settled(OffOnX(16, g).X(), o)
  {
    if n == 0 {
    } else {
      Swings(g, n - 1);
    }
  }

  /** The register values a negative gain drives the offset to: away from 0, and round the end of the register. */
  predicate Astray(r: int) {
    -32768 <= r <= -2 || 28000 <= r < 32768
  }

  lemma AstrayReads(g: int, r: int)
    requires -17 <= g < 0 && Astray(r)
    ensures var e := -Reads(OffOnX(16, g).X(), r);
      if r < 0 then -32767 <= e <= -18 else 27984 <= e <= 32768
  {
    if r < 0 {
      TimesAtLeast(-g, 1, -r);
      assert g * r == -g * -r;
    } else {
      TimesAtLeast(-g, 1, r);
      assert g * r == -(-g * r);
    }
  }

  lemma {:induction false} RunsAway(g: int, n: nat)
    requires -17 <= g < 0
    ensures var o := OffsetAfter(OffOnX(16, g).X(), n); Astray(ToInt16(o)) && !Settled(OffOnX(16, g).X(), o)
  {
    var a := OffOnX(16, g).X();
    if n == 0 {
    } else {
      RunsAway(g, n - 1);
      var o := OffsetAfter(a, n - 1);
      AstrayReads(g, ToInt16(o));
      AstrayMoves(o, Seen(a, o));
    }
    AstrayReads(g, ToInt16(OffsetAfter(a, n)));
  }

  lemma AstrayMoves(o: int, v: int)
    requires Astray(ToInt16(o))
    requires if ToInt16(o) < 0 then -32767 <= v <= -18 else 27984 <= v <= 32768
    ensures Astray(ToInt16(o + Quotient(v, 8)))
  {
    var q := Quotient(v, 8);
    var turns := (o + 32768) / 65536;
    assert o == ToInt16(o) + 65536 * turns;
    var r := ToInt16(o) + q;
    if r < -32768 {
      Wraps(o + q, r + 65536, turns - 1);
    } else if r >= 32768 {
      Wraps(o + q, r - 65536, turns + 1);
    } else {
      Wraps(o + q, r, turns);
    }
  }

  lemma Wraps(v: int, r: int, turns: int)
    requires -32768 <= r < 32768 && v == r + 65536 * turns
    ensures ToInt16(v) == r
  {
  }

  /** Calibration ends from every starting point exactly for gains 2 to 15. */
  lemma AlwaysCalibratesExactly(g: int)
    ensures (forall s | ValidSensor(s) && s.gain == g :: Calibrates(s)) <==> 2 <= g <= 15
  {
    if 2 <= g <= 15 {
      forall s | ValidSensor(s) && s.gain == g ensures Calibrates(s) {
        CalibratesExactly(s);
      }
    } else {
      var s := Stubborn(g);
      assert ValidSensor(s) && s.gain == g && !Calibrates(s);
    }
  }

  lemma Stubborn(g: int) returns (s: Sensor)
    requires !(2 <= g <= 15)
    ensures ValidSensor(s) && s.gain == g && !Calibrates(s)
  {
    if g == 1 {
      s := Sensor(0, 0, -32768, 1);
      CalibratesExactly(s);
    } else if g == 16 || g == 17 {
      s := OffOnX(16, g);
      forall n: nat ensures !AllSettled(s, OffsetsAfter(s, n)) { Swings(g, n); }
    } else if -17 <= g < 0 {
      s := OffOnX(16, g);
      forall n: nat ensures !AllSettled(s, OffsetsAfter(s, n)) { RunsAway(g, n); }
    } else {
      s := OffOnX(9, g);
      forall n: nat ensures !AllSettled(s, OffsetsAfter(s, n)) { NoOffsetFits(g, OffsetAfter(s.X(), n)); }
    }
  }

  // ---- the program ----

  /** The same reading over and over: what a noiseless sensor at rest delivers. */
  function Steady(r: Reading, n: nat): seq<Reading> {
    seq(n, _ => r)
  }

  lemma SteadyMean(r: Reading, n: nat)
    requires n > 0
    ensures Quotient(Sum(Xs(Steady(r, n))), n) == r.x
    ensures Quotient(Sum(Ys(Steady(r, n))), n) == r.y
    ensures Quotient(Sum(Zs(Steady(r, n))), n) == r.z
  {
    MeanBetween(Xs(Steady(r, n)), r.x, r.x);
    MeanBetween(Ys(Steady(r, n)), r.y, r.y);
    MeanBetween(Zs(Steady(r, n)), r.z, r.z);
  }

  class Monitor {
    const sensor: Sensor
    const buffersize: nat
    // The sensor's offset registers.
    var registerX: int
    var registerY: int
    var registerZ: int
    var meanAx: int
    var meanAy: int
    var meanAz: int
    var axOffset: int
    var ayOffset: int
    var azOffset: int

    ghost function Current(): Offsets
      reads this
    {
      Offsets(axOffset, ayOffset, azOffset)
    }

    /** The means are what the sensor reads under these offsets. */
    ghost predicate Measured(o: Offsets)
      reads this
    {
      && meanAx == Reads(sensor.X(), ToInt16(o.x))
      && meanAy == Reads(sensor.Y(), ToInt16(o.y))
      && meanAz == Reads(sensor.Z(), ToInt16(o.z))
    }

    ghost predicate Registered(o: Offsets)
      reads this
    {
      registerX == ToInt16(o.x) && registerY == ToInt16(o.y) && registerZ == ToInt16(o.z)
    }

    constructor (s: Sensor, size: nat)
      ensures sensor == s && buffersize == size
    {
      sensor, buffersize := s, size;
      registerX, registerY, registerZ := 0, 0, 0;
      meanAx, meanAy, meanAz, axOffset, ayOffset, azOffset := 0, 0, 0, 0, 0, 0;
    }

    /** `meansensors`: the first 101 readings are dropped, the other `buffersize` averaged. */
    method MeanSensors(readings: seq<Reading>)
      requires buffersize > 0 && |readings| == buffersize + 101
      modifies this`meanAx, this`meanAy, this`meanAz
      ensures meanAx == Quotient(Sum(Xs(readings[101..])), buffersize)
      ensures meanAy == Quotient(Sum(Ys(readings[101..])), buffersize)
      ensures meanAz == Quotient(Sum(Zs(readings[101..])), buffersize)
    {
      var i, buffAx, buffAy, buffAz := 0, 0, 0, 0;
      while i < buffersize + 101
        invariant 0 <= i <= buffersize + 101
        invariant i <= 101 ==> buffAx == buffAy == buffAz == 0
        invariant i > 101 ==>
            && buffAx == Sum(Xs(readings[101..i])) && buffAy == Sum(Ys(readings[101..i]))
            && buffAz == Sum(Zs(readings[101..i]))
        invariant i == buffersize + 101 ==>
            && meanAx == Quotient(buffAx, buffersize) && meanAy == Quotient(buffAy, buffersize)
            && meanAz == Quotient(buffAz, buffersize)
      {
        var r := readings[i];
        if i > 100 && i <= buffersize + 100 {
          SumExtends(readings, 101, i);
          buffAx, buffAy, buffAz := buffAx + r.x, buffAy + r.y, buffAz + r.z;
        }
        if i == buffersize + 100 {
          meanAx := Quotient(buffAx, buffersize);
          meanAy := Quotient(buffAy, buffersize);
          meanAz := Quotient(buffAz, buffersize);
        }
        i := i + 1;
      }
      assert readings[101..] == readings[101..i];
    }

    /** `meansensors` on the noiseless sensor. */
    method Measure(ghost o: Offsets)
      requires buffersize > 0 && Registered(o)
      modifies this`meanAx, this`meanAy, this`meanAz
      ensures Measured(o)
    {
      var r := Reading(Reads(sensor.X(), registerX), Reads(sensor.Y(), registerY), Reads(sensor.Z(), registerZ));
      var readings := Steady(r, buffersize + 101);
      MeanSensors(readings);
      assert readings[101..] == Steady(r, buffersize);
      SteadyMean(r, buffersize);
    }

    /** `setXAccelOffset` and its siblings, which take an `int16_t`. */
    method WriteOffsets(x: int, y: int, z: int)
      modifies this`registerX, this`registerY, this`registerZ
      ensures Registered(Offsets(x, y, z))
    {
      registerX, registerY, registerZ := ToInt16(x), ToInt16(y), ToInt16(z);
    }

    /** The offsets to start from. */
    method FirstOffsets()
      requires Measured(Offsets(0, 0, 0))
      modifies this`axOffset, this`ayOffset, this`azOffset
      ensures Current() == OffsetsAfter(sensor, 0)
    {
      axOffset := Quotient(-meanAx, 8);
      ayOffset := Quotient(-meanAy, 8);
      azOffset := Quotient(16384 - meanAz, 8);
    }

    /** `calibration`: leaves its loop at the first pass after which every axis is in its dead zone. */
    method Calibrate() returns (ghost passes: nat)
      requires buffersize > 0 && ValidSensor(sensor) && 1 <= sensor.gain <= 15 && Reachable(sensor)
      requires Measured(Offsets(0, 0, 0))
      modifies this
      ensures Current() == OffsetsAfter(sensor, passes) && AllSettled(sensor, Current())
      ensures forall n | 0 <= n < passes :: !AllSettled(sensor, OffsetsAfter(sensor, n))
      ensures Measured(Current()) && Registered(Current()) && AllTame(sensor, Current())
    {
      hide OffsetsAfter, NextOffsets, AllSettled, AllTame, TotalSeen, Measured, Registered;
      FirstOffsets();
      passes := 0;
      var count5 := 0;
      while true
        invariant Current() == OffsetsAfter(sensor, passes)
        invariant forall n | 0 <= n < passes :: !AllSettled(sensor, OffsetsAfter(sensor, n))
        decreases TotalSeen(sensor, Current())
      {
        PassLowersError(sensor, passes);
        var dataReady := Pass();
        count5 := count5 + 1;
        if dataReady == 7 {
          break;
        }
        NextPass(sensor, passes);
        passes := passes + 1;
      }
      RunIsTame(sensor, passes);
    }

    /** The body of the loop: write the offsets, measure, adjust. */
    method Pass() returns (dataReady: bv8)
      requires buffersize > 0
      modifies this
      ensures Current() == NextOffsets(sensor, old(Current()))
      ensures dataReady == 7 <==> AllSettled(sensor, old(Current()))
      ensures dataReady == 7 ==> Current() == old(Current()) && Measured(Current()) && Registered(Current())
    {
      WriteOffsets(axOffset, ayOffset, azOffset);
      Measure(Current());
      dataReady := Adjust();
    }

    /** The body of the loop after measuring: each axis outside its dead zone is moved, each inside sets its bit. */
    method Adjust() returns (dataReady: bv8)
      requires Measured(Current()) && Registered(Current())
      modifies this`axOffset, this`ayOffset, this`azOffset
      ensures Current() == NextOffsets(sensor, old(Current()))
      ensures dataReady == 7 <==> AllSettled(sensor, old(Current()))
      ensures dataReady == 7 ==> Current() == old(Current()) && Measured(Current()) && Registered(Current())
    {
      dataReady := 0;
      if Abs(meanAx) <= 8 {
        dataReady := dataReady | 1;
      } else {
        axOffset := axOffset - Quotient(meanAx, 8);
      }
      if Abs(meanAy) <= 8 {
        dataReady := dataReady | 2;
      } else {
        ayOffset := ayOffset - Quotient(meanAy, 8);
      }
      if Abs(16384 - meanAz) <= 8 {
        dataReady := dataReady | 4;
      } else {
        azOffset := azOffset + Quotient(16384 - meanAz, 8);
      }
    }

    /** The check in `loop` that has the offsets set anew. */
    predicate Disturbed()
      reads this
    {
      Abs(meanAx) > 8 || Abs(meanAy) > 8 || Abs(16384 - meanAz) > 8
    }

    /** `SetOffsetOfMPU`: afterwards the monitor is calibrated and the check stays quiet. */
    method SetOffsetOfMPU()
      requires buffersize > 0 && ValidSensor(sensor) && 1 <= sensor.gain <= 15 && Reachable(sensor)
      modifies this
      ensures Abs(meanAx) <= 8 && Abs(meanAy) <= 8 && Abs(16384 - meanAz) <= 8
      ensures !Disturbed() && Measured(Current())
      ensures registerX == axOffset && registerY == ayOffset && registerZ == azOffset
    {
      WriteOffsets(0, 0, 0);
      Measure(Offsets(0, 0, 0));
      ghost var passes := Calibrate();
      Measure(Current());
      WriteOffsets(axOffset, ayOffset, azOffset);
      TameFits(sensor.X(), axOffset);
      TameFits(sensor.Y(), ayOffset);
      TameFits(sensor.Z(), azOffset);
    }
  }
}
