/** The debounce of the earthquake monitor: when an alarm may fire, and for how long its report is printed. */
module Trigger {
  import opened Wrappers

  /** What one pass of `loop` sees: whether two axes shake, and the report `EarthQuakeCalculate` would set, if any. */
  datatype Input = Input(shaking: bool, report: Option<string>)

  datatype State = State(count5: int, count6: int, data: string)

  const START := State(0, 0, "null")

  predicate Fires(s: State, x: Input) {
    x.shaking && s.count5 == 10
  }

  /** What is in `data` when the pass prints it. */
  function Prints(s: State, x: Input): string {
    if Fires(s, x) && x.report.Some? then x.report.value else s.data
  }

  function Step(s: State, x: Input): State {
    var data := Prints(s, x);
    var count5 := if s.count6 == 1 then 10 else if Fires(s, x) then 0 else s.count5;
    var count6 := if s.count6 == 1 then 0 else s.count6;
    if count5 < 10 then
      if count5 + 1 == 9 then State(9, count6 + 1, "null") else State(count5 + 1, count6, data)
    else State(count5, count6, data)
  }

  ghost function After(xs: seq<Input>, i: nat): State
    requires i <= |xs|
  {
    if i == 0 then START else Step(After(xs, i - 1), xs[i - 1])
  }

  ghost predicate Triggered(xs: seq<Input>, i: nat)
    requires i < |xs|
  {
    Fires(After(xs, i), xs[i])
  }

  ghost function Printed(xs: seq<Input>, i: nat): string
    requires i < |xs|
  {
    Prints(After(xs, i), xs[i])
  }

  /** The last pass before `i` that fired; the start counts as pass 0, with nothing to report. */
  ghost function Last(xs: seq<Input>, i: nat): (j: nat)
    requires i <= |xs|
    ensures j <= i && (i > 0 ==> j < i)
  {
    if i == 0 then 0 else if Triggered(xs, i - 1) then i - 1 else Last(xs, i - 1)
  }

  ghost function ReportOf(xs: seq<Input>, i: nat): string
    requires i < |xs|
  {
    if Triggered(xs, i) && xs[i].report.Some? then xs[i].report.value else "null"
  }

  /** The counters are the passes since the last alarm, up to ten; the report stays for the first eight of them. */
  ghost predicate Timed(xs: seq<Input>, i: nat)
    requires i <= |xs|
  {
    var s, age := After(xs, i), i - Last(xs, i);
    && s.count5 == (if age < 10 then age else 10)
    && s.count6 == (if age == 9 then 1 else 0)
    && s.data == if 1 <= age <= 8 then ReportOf(xs, Last(xs, i)) else "null"
  }

  lemma {:induction false} AlwaysTimed(xs: seq<Input>, i: nat)
    requires i <= |xs|
    ensures Timed(xs, i)
  {
    if i == 0 {
    } else {
      AlwaysTimed(xs, i - 1);
    }
  }

  /** At every pass boundary: `count5` is between 0 and 10, and `count6` is 1 exactly if it is 9. */
  lemma CountersBounded(xs: seq<Input>)
    ensures var s := After(xs, |xs|); 0 <= s.count5 <= 10 && (s.count6 == 1 <==> s.count5 == 9) && 0 <= s.count6 <= 1
  {
    AlwaysTimed(xs, |xs|);
  }

  /** `Last` is an alarm or the start, and no alarm lies after it. */
  lemma {:induction false} LastIsLast(xs: seq<Input>, i: nat)
    requires i <= |xs|
    ensures Last(xs, i) > 0 ==> Triggered(xs, Last(xs, i))
    ensures forall j | Last(xs, i) < j < i :: !Triggered(xs, j)
  {
    if i == 0 {
    } else {
      LastIsLast(xs, i - 1);
    }
  }

  /** An alarm fires exactly if two axes shake, ten passes have gone by, and none fired in the nine passes before. */
  lemma FiresExactly(xs: seq<Input>, i: nat)
    requires i < |xs|
    ensures Triggered(xs, i) <==> xs[i].shaking && i >= 10 && forall j | 0 <= j < i && i - j <= 9 :: !Triggered(xs, j)
  {
    AlwaysTimed(xs, i);
    LastIsLast(xs, i);
    NoEarlyAlarmAtStart(xs);
  }

  lemma NoEarlyAlarmAtStart(xs: seq<Input>)
    requires xs != []
    ensures !Triggered(xs, 0)
  {
  }

  /** Two alarms are at least ten passes apart. */
  lemma AlarmsApart(xs: seq<Input>, i: nat, j: nat)
    requires i < j < |xs| && Triggered(xs, i) && Triggered(xs, j)
    ensures j - i >= 10
  {
    FiresExactly(xs, j);
  }

  /** An alarm's report is printed in the pass it fires and the eight that follow; every other pass prints "null". */
  lemma PrintedExactly(xs: seq<Input>, i: nat)
    requires i < |xs|
    ensures forall j | 0 <= j <= i && i - j <= 8 && Triggered(xs, j) ::
      Printed(xs, i) == if xs[j].report.Some? then xs[j].report.value else "null"
    ensures (forall j | 0 <= j <= i && i - j <= 8 :: !Triggered(xs, j)) ==> Printed(xs, i) == "null"
  {
    AlwaysTimed(xs, i);
    LastIsLast(xs, i);
    NoEarlyAlarmAtStart(xs);
    if Triggered(xs, i) {
      FiresExactly(xs, i);
    }
    forall j | 0 <= j < i && i - j <= 8 && Triggered(xs, j) ensures j == Last(xs, i) && !Triggered(xs, i) {
      if j < Last(xs, i) {
        AlarmsApart(xs, j, Last(xs, i));
      }
    }
  }

  class Loop {
    var count5: int
    var count6: int
    var data: string
    var printed: seq<string>

    ghost function Abs(): State
      reads this
    {
      State(count5, count6, data)
    }

    constructor ()
      ensures Abs() == START && printed == []
    {
      count5, count6, data, printed := 0, 0, "null", [];
    }

    /** The part of one pass of `loop` that deals with alarms. */
    method Pass(shaking: bool, report: Option<string>)
      modifies this
      ensures Abs() == Step(old(Abs()), Input(shaking, report))
      ensures printed == old(printed) + [Prints(old(Abs()), Input(shaking, report))]
    {
      if shaking && count5 == 10 {
        count5 := 0;
        if report.Some? {
          data := report.value;
        }
      }
      printed := printed + [data];
      if count6 == 1 {
        count5 := 10;
        count6 := 0;
      }
      if count5 < 10 {
        count5 := count5 + 1;
        if count5 == 9 {
          count6 := count6 + 1;
          data := "null";
        }
      }
    }

    /** `for (;;) loop();`, cut off after any number of passes. */
    method Passes(xs: seq<Input>)
      requires Abs() == START && printed == []
      modifies this
      ensures Abs() == After(xs, |xs|)
      ensures |printed| == |xs| && forall i | 0 <= i < |xs| :: printed[i] == Printed(xs, i)
    {
      for i := 0 to |xs|
        invariant Abs() == After(xs, i)
        invariant |printed| == i && forall j | 0 <= j < i :: printed[j] == Printed(xs, j)
      {
        Pass(xs[i].shaking, xs[i].report);
      }
    }
  }
}
