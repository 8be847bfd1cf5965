/** The walk-forward calendar (src/openhamster/backtest/walk_forward.py): month arithmetic with the
    day cut to the month's length, and the loop that rolls a training and a test window forward. */
module WalkForward {
  import opened Prelude

  /** A calendar date; `month` counts from 1. */
  datatype Date = Date(year: int, month: int, day: int)

  predicate Leap(year: int) {
    year % 4 == 0 && (year % 100 != 0 || year % 400 == 0)
  }

  function DaysIn(year: int, month: int): (n: int)
    ensures 28 <= n <= 31
  {
    if month == 2 then (if Leap(year) then 29 else 28)
    else if month == 4 || month == 6 || month == 9 || month == 11 then 30
    else 31
  }

  predicate Valid(d: Date) {
    1 <= d.month <= 12 && 1 <= d.day <= DaysIn(d.year, d.month)
  }

  /** Months since year 0. */
  function MonthNumber(d: Date): int {
    d.year * 12 + d.month - 1
  }

  /** The length of the month with number `m`. */
  function MonthLength(m: int): (n: int)
    ensures 28 <= n <= 31
  {
    DaysIn(m / 12, m % 12 + 1)
  }

  /** Calendar order. */
  predicate Before(a: Date, b: Date) {
    || a.year < b.year
    || (a.year == b.year && a.month < b.month)
    || (a.year == b.year && a.month == b.month && a.day < b.day)
  }

  /** `_add_months`; the source's floor division and modulus are Dafny's for a positive divisor. */
  function AddMonths(d: Date, months: int): Date {
    var month := d.month + months;
    var year := d.year + (month - 1) / 12;
    var wrapped := (month - 1) % 12 + 1;
    Date(year, wrapped, Min(d.day, DaysIn(year, wrapped)))
  }

  lemma MonthNumberSplits(d: Date)
    requires 1 <= d.month <= 12
    ensures d.year == MonthNumber(d) / 12 && d.month == MonthNumber(d) % 12 + 1
  {
  }

  /** Adding months gives a valid date, exactly that many months on, with the day kept where the
      month has it and cut to the month's last day where it does not. */
  lemma AddMonthsIsExact(d: Date, months: int)
    requires Valid(d)
    ensures var r := AddMonths(d, months);
            && Valid(r)
            && MonthNumber(r) == MonthNumber(d) + months
            && r.day == Min(d.day, MonthLength(MonthNumber(d) + months))
  {
    MonthNumberSplits(AddMonths(d, months));
  }

  lemma BeforeByMonths(a: Date, b: Date)
    requires Valid(a) && Valid(b)
    ensures Before(a, b) <==> MonthNumber(a) < MonthNumber(b) || (MonthNumber(a) == MonthNumber(b) && a.day < b.day)
  {
  }

  lemma SameMonthSameDay(a: Date, b: Date)
    requires Valid(a) && Valid(b) && MonthNumber(a) == MonthNumber(b)
    ensures a == b <==> a.day == b.day
  {
  }

  /** Adding in two steps is adding at once exactly when the month passed through does not cut the
      day below what the final month would leave. */
  lemma AddMonthsIsAdditiveIff(d: Date, a: int, b: int)
    requires Valid(d)
    ensures AddMonths(AddMonths(d, a), b) == AddMonths(d, a + b)
       <==> Min(d.day, MonthLength(MonthNumber(d) + a + b)) <= MonthLength(MonthNumber(d) + a)
  {
    AddMonthsIsExact(d, a);
    AddMonthsIsExact(AddMonths(d, a), b);
    AddMonthsIsExact(d, a + b);
    SameMonthSameDay(AddMonths(AddMonths(d, a), b), AddMonths(d, a + b));
  }

  // ----- The window loop -----

  /** What a window's search and backtest come to. */
  datatype Outcome = Recorded | NoParameters | Failed

  datatype Window = Window(trainStart: Date, trainEnd: Date, testStart: Date, testEnd: Date)

  datatype Plan = Plan(train: int, test: int, step: int)

  function WindowAt(trainStart: Date, p: Plan): Window {
    var trainEnd := AddMonths(trainStart, p.train);
    Window(trainStart, trainEnd, trainEnd, AddMonths(trainEnd, p.test))
  }

  /** Where the loop goes after the window at `w`. */
  function NextStart(w: Window, p: Plan, outcome: Outcome): Date {
    if outcome == NoParameters then w.testStart else AddMonths(w.trainStart, p.step)
  }

  /** Months left before the window at `trainStart` runs past `end`. */
  function Room(trainStart: Date, end: Date, p: Plan): int {
    MonthNumber(end) - MonthNumber(trainStart) - p.train - p.test
  }

  lemma WindowMonths(trainStart: Date, p: Plan)
    requires Valid(trainStart)
    ensures var w := WindowAt(trainStart, p);
            && Valid(w.trainEnd) && Valid(w.testEnd)
            && MonthNumber(w.trainEnd) == MonthNumber(trainStart) + p.train
            && MonthNumber(w.testEnd) == MonthNumber(trainStart) + p.train + p.test
            && w.trainEnd.day == Min(trainStart.day, MonthLength(MonthNumber(w.trainEnd)))
            && w.testEnd.day == Min(w.trainEnd.day, MonthLength(MonthNumber(w.testEnd)))
  {
    AddMonthsIsExact(trainStart, p.train);
    AddMonthsIsExact(AddMonths(trainStart, p.train), p.test);
  }

  lemma LoopProgress(trainStart: Date, end: Date, p: Plan, outcome: Outcome)
    requires Valid(trainStart) && Valid(end) && p.train >= 1 && p.step >= 1
    requires !Before(end, WindowAt(trainStart, p).testEnd)
    ensures var next := NextStart(WindowAt(trainStart, p), p, outcome);
            && Valid(next)
            && Room(trainStart, end, p) >= 0
            && MonthNumber(next) == MonthNumber(trainStart) + (if outcome == NoParameters then p.train else p.step)
  {
  }

  /** The windows recorded from `trainStart` on. Training starts only move forward, so a window is
      tried at most once and its outcome can be read from `outcome`. */
  function Walk(trainStart: Date, end: Date, p: Plan, outcome: Window -> Outcome): seq<Window>
    requires Valid(trainStart) && Valid(end) && p.train >= 1 && p.step >= 1
    decreases Room(trainStart, end, p) + 1
  {
    var w := WindowAt(trainStart, p);
    if Before(end, w.testEnd) then []
    else
      LoopProgress(trainStart, end, p, outcome(w));
      var rest := Walk(NextStart(w, p, outcome(w)), end, p, outcome);
      if outcome(w) == Recorded then [w] + rest else rest
  }

  method Run(start: Date, end: Date, p: Plan, outcome: Window -> Outcome) returns (windows: seq<Window>)
    requires Valid(start) && Valid(end) && p.train >= 1 && p.step >= 1
    ensures windows == Walk(start, end, p, outcome)
  {
    windows := [];
    var trainStart := start;
    while true
      invariant Valid(trainStart)
      invariant windows + Walk(trainStart, end, p, outcome) == Walk(start, end, p, outcome)
      decreases Room(trainStart, end, p) + 1
    {
      var trainEnd := AddMonths(trainStart, p.train);
      var testStart := trainEnd;
      var testEnd := AddMonths(testStart, p.test);
      if Before(end, testEnd) {
        break;
      }
      var w := Window(trainStart, trainEnd, testStart, testEnd);
      LoopProgress(trainStart, end, p, outcome(w));
      match outcome(w) {
        case NoParameters =>
          trainStart := testStart;
        case Recorded =>
          windows := windows + [w];
          trainStart := AddMonths(trainStart, p.step);
        case Failed =>
          trainStart := AddMonths(trainStart, p.step);
      }
    }
  }

  // ----- How the loop goes on -----

  /** The lengths of the months. */
  lemma MonthLengths(year: int, month: int)
    requires 1 <= month <= 12
    ensures var february := if year % 400 == 0 || (year % 4 == 0 && year % 100 != 0) then 29 else 28;
            DaysIn(year, month) == [31, february, 31, 30, 31, 30, 31, 31, 30, 31, 30, 31][month - 1]
  {
  }

  /** The walk ends at the first window whose test runs past the end. Up to there it goes on: from a
      window without parameters to the start of its test period, from any other a step on. Only
      windows that succeed are recorded. */
  lemma WalkGoesOn(start: Date, end: Date, p: Plan, outcome: Window -> Outcome, test: Date, past: Date)
    requires Valid(start) && Valid(end) && p.train >= 1 && p.step >= 1
    requires test == AddMonths(start, p.train) && past == AddMonths(test, p.test)
    ensures var w, walk := Window(start, test, test, past), Walk(start, end, p, outcome);
            if Before(end, past) then walk == []
            else
              && Valid(test) && Valid(AddMonths(start, p.step))
              && walk == match outcome(w)
                         case Recorded => [w] + Walk(AddMonths(start, p.step), end, p, outcome)
                         case NoParameters => Walk(test, end, p, outcome)
                         case Failed => Walk(AddMonths(start, p.step), end, p, outcome)
  {
  }

  // ----- What every recorded window satisfies -----

  predicate Ordered(w: Window, end: Date) {
    && Valid(w.trainStart) && Valid(w.testStart) && Valid(w.testEnd)
    && Before(w.trainStart, w.trainEnd) && w.trainEnd == w.testStart
    && Before(w.testStart, w.testEnd) && !Before(end, w.testEnd)
  }

  /** Every recorded window trains first, tests right after, and ends by `end`. */
  lemma {:induction false} WindowsAreOrdered(start: Date, end: Date, p: Plan, outcome: Window -> Outcome)
    requires Valid(start) && Valid(end) && p.train >= 1 && p.test >= 1 && p.step >= 1
    ensures forall i | 0 <= i < |Walk(start, end, p, outcome)| :: Ordered(Walk(start, end, p, outcome)[i], end)
    decreases Room(start, end, p) + 1
  {
    var w := WindowAt(start, p);
    if !Before(end, w.testEnd) {
      LoopProgress(start, end, p, outcome(w));
      WindowMonths(start, p);
      BeforeByMonths(w.trainStart, w.trainEnd);
      BeforeByMonths(w.testStart, w.testEnd);
      WindowsAreOrdered(NextStart(w, p, outcome(w)), end, p, outcome);
    }
  }

  lemma WalkRecords(start: Date, end: Date, p: Plan, outcome: Window -> Outcome)
    requires Valid(start) && Valid(end) && p.train >= 1 && p.step >= 1
    requires outcome(WindowAt(start, p)) == Recorded && !Before(end, WindowAt(start, p).testEnd)
    ensures Valid(AddMonths(start, p.step))
    ensures Walk(start, end, p, outcome) == [WindowAt(start, p)] + Walk(AddMonths(start, p.step), end, p, outcome)
    ensures Room(start, end, p) >= 0 && Room(AddMonths(start, p.step), end, p) < Room(start, end, p)
  {
  }

  lemma EarlyDayAdds(d: Date, a: int, b: int)
    requires Valid(d) && d.day <= 28
    ensures AddMonths(AddMonths(d, a), b) == AddMonths(d, a + b)
    ensures AddMonths(d, 0) == d && Valid(AddMonths(d, a)) && AddMonths(d, a).day == d.day
  {
  }

  /** The start after `k` steps of `step` months, added at once. */
  function After(start: Date, k: nat, step: int): Date {
    AddMonths(start, k * step)
  }

  lemma AfterUnfolds(start: Date, k: nat, step: int)
    requires Valid(start) && start.day <= 28
    ensures After(start, 0, step) == start
    ensures k > 0 ==> After(AddMonths(start, step), k - 1, step) == After(start, k, step)
  {
    EarlyDayAdds(start, 0, 0);
    if k > 0 {
      EarlyDayAdds(start, step, (k - 1) * step);
      assert step + (k - 1) * step == k * step;
    }
  }

  /** `walk[k]` starts `k` steps on, and the window after the last one runs past `end`. */
  predicate Steady(walk: seq<Window>, start: Date, end: Date, p: Plan) {
    && (forall k | 0 <= k < |walk| :: walk[k] == WindowAt(After(start, k, p.step), p))
    && Before(end, WindowAt(After(start, |walk|, p.step), p).testEnd)
  }

  lemma PrependKeepsSteady(rest: seq<Window>, start: Date, end: Date, p: Plan)
    requires Valid(start) && start.day <= 28 && Steady(rest, AddMonths(start, p.step), end, p)
    ensures Steady([WindowAt(start, p)] + rest, start, end, p)
  {
    var next, walk := AddMonths(start, p.step), [WindowAt(start, p)] + rest;
    AfterUnfolds(start, |walk|, p.step);
    forall k | 0 <= k < |walk|
      ensures walk[k] == WindowAt(After(start, k, p.step), p)
    {
      AfterUnfolds(start, k, p.step);
      if k > 0 {
        assert walk[k] == rest[k - 1];
      }
    }
  }

  /** With a start day every month has and a search that always succeeds, the k-th window starts
      `k` steps on, and the walk stops only when the next window no longer fits. */
  lemma {:induction false} SteadyWalk(start: Date, end: Date, p: Plan, outcome: Window -> Outcome)
    requires Valid(start) && Valid(end) && start.day <= 28 && p.train >= 1 && p.step >= 1
    requires forall w :: outcome(w) == Recorded
    ensures Steady(Walk(start, end, p, outcome), start, end, p)
    decreases Room(start, end, p) + 1
  {
    if Before(end, WindowAt(start, p).testEnd) {
      AfterUnfolds(start, 0, p.step);
    } else {
      var next := AddMonths(start, p.step);
      WalkRecords(start, end, p, outcome);
      EarlyDayAdds(start, p.step, 0);
      SteadyWalk(next, end, p, outcome);
      PrependKeepsSteady(Walk(next, end, p, outcome), start, end, p);
    }
  }

  // ----- When test periods overlap -----

  /** The half-open test periods of `a` and the later `b` share a day. */
  predicate Overlap(a: Window, b: Window) {
    Before(b.testStart, a.testEnd)
  }

  /** The step from a window starting at `d` lands in a month too short for the day its test period
      ends on. */
  predicate CutShort(d: Date, p: Plan) {
    var m := MonthNumber(d);
    MonthLength(m + p.step) < Min(d.day, Min(MonthLength(m + p.train), MonthLength(m + p.train + p.test)))
  }

  /** The windows starting at `a` and `b` are less than a test length apart, or exactly that with
      the later day cut shorter than the day the first test period ends on. */
  predicate TooClose(a: Date, b: Date, p: Plan) {
    var m, apart := MonthNumber(a), MonthNumber(b) - MonthNumber(a);
    || apart < p.test
    || (apart == p.test && b.day < Min(a.day, Min(MonthLength(m + p.train), MonthLength(m + p.train + p.test))))
  }

  lemma PairOverlapsIff(a: Date, b: Date, p: Plan)
    requires Valid(a) && Valid(b)
    ensures Overlap(WindowAt(a, p), WindowAt(b, p)) <==> TooClose(a, b, p)
  {
    WindowMonths(a, p);
    WindowMonths(b, p);
    BeforeByMonths(WindowAt(b, p).testStart, WindowAt(a, p).testEnd);
  }

  /** A window and the one a step later overlap exactly when the step is shorter than the test, or
      equal to it and cut short. */
  lemma StepOverlapsIff(d: Date, p: Plan)
    requires Valid(d)
    ensures Overlap(WindowAt(d, p), WindowAt(AddMonths(d, p.step), p))
       <==> p.step < p.test || (p.step == p.test && CutShort(d, p))
  {
    AddMonthsIsExact(d, p.step);
    PairOverlapsIff(d, AddMonths(d, p.step), p);
  }

  lemma FarWindowsAreDisjoint(a: Date, b: Date, p: Plan)
    requires Valid(a) && Valid(b) && MonthNumber(a) + p.test < MonthNumber(b)
    ensures !Overlap(WindowAt(a, p), WindowAt(b, p))
  {
    PairOverlapsIff(a, b, p);
  }

  /** `d` is `start` or in a later month. */
  predicate NotBefore(start: Date, d: Date) {
    d == start || MonthNumber(start) < MonthNumber(d)
  }

  /** Every window of `walk` starts at `start` or in a later month. */
  predicate AllFrom(walk: seq<Window>, start: Date, p: Plan) {
    forall i | 0 <= i < |walk| ::
      && Valid(walk[i].trainStart) && walk[i] == WindowAt(walk[i].trainStart, p)
      && NotBefore(start, walk[i].trainStart)
  }

  lemma {:induction false} WalkMovesForward(start: Date, end: Date, p: Plan, outcome: Window -> Outcome)
    requires Valid(start) && Valid(end) && p.train >= 1 && p.step >= 1
    ensures AllFrom(Walk(start, end, p, outcome), start, p)
    decreases Room(start, end, p) + 1
  {
    var w := WindowAt(start, p);
    if !Before(end, w.testEnd) {
      LoopProgress(start, end, p, outcome(w));
      WalkMovesForward(NextStart(w, p, outcome(w)), end, p, outcome);
    }
  }

  /** For any train, test and step length and any outcomes: two recorded windows overlap exactly
      when their starts are too close. */
  lemma RecordedPairOverlapsIff(start: Date, end: Date, p: Plan, outcome: Window -> Outcome)
    requires Valid(start) && Valid(end) && p.train >= 1 && p.step >= 1
    ensures var walk := Walk(start, end, p, outcome);
            forall i, j | 0 <= i < j < |walk| ::
              Overlap(walk[i], walk[j]) <==> TooClose(walk[i].trainStart, walk[j].trainStart, p)
  {
    var walk := Walk(start, end, p, outcome);
    WalkMovesForward(start, end, p, outcome);
    forall i, j | 0 <= i < j < |walk|
      ensures Overlap(walk[i], walk[j]) <==> TooClose(walk[i].trainStart, walk[j].trainStart, p)
    {
      PairOverlapsIff(walk[i].trainStart, walk[j].trainStart, p);
    }
  }

  /** Later windows start one step on, or in a later month than that. */
  predicate Spaced(walk: seq<Window>, p: Plan) {
    forall i, j | 0 <= i < j < |walk| :: NotBefore(AddMonths(walk[i].trainStart, p.step), walk[j].trainStart)
  }

  lemma PrependKeepsSpaced(start: Date, rest: seq<Window>, p: Plan)
    requires AllFrom(rest, AddMonths(start, p.step), p) && Spaced(rest, p)
    ensures Spaced([WindowAt(start, p)] + rest, p)
  {
    var walk := [WindowAt(start, p)] + rest;
    forall i, j | 0 <= i < j < |walk|
      ensures NotBefore(AddMonths(walk[i].trainStart, p.step), walk[j].trainStart)
    {
      assert walk[j] == rest[j - 1];
      if i > 0 {
        assert walk[i] == rest[i - 1];
      }
    }
  }

  lemma {:induction false} WalkIsSpaced(start: Date, end: Date, p: Plan, outcome: Window -> Outcome)
    requires Valid(start) && Valid(end) && p.train >= 1 && p.step >= 1
    ensures Spaced(Walk(start, end, p, outcome), p)
    decreases Room(start, end, p) + 1
  {
    var w := WindowAt(start, p);
    if !Before(end, w.testEnd) {
      LoopProgress(start, end, p, outcome(w));
      var next := NextStart(w, p, outcome(w));
      WalkIsSpaced(next, end, p, outcome);
      if outcome(w) == Recorded {
        WalkMovesForward(next, end, p, outcome);
        PrependKeepsSpaced(start, Walk(next, end, p, outcome), p);
      }
    }
  }

  /** What `RecordedOverlapIff` says of two windows. */
  predicate OverlapExplained(a: Window, b: Window, p: Plan) {
    Overlap(a, b) <==>
      && b.trainStart == AddMonths(a.trainStart, p.step)
      && p.step == p.test && CutShort(a.trainStart, p)
  }

  lemma SpacedOverlapIff(a: Date, b: Date, p: Plan)
    requires Valid(a) && Valid(b) && p.step >= p.test && NotBefore(AddMonths(a, p.step), b)
    ensures OverlapExplained(WindowAt(a, p), WindowAt(b, p), p)
  {
    if b == AddMonths(a, p.step) {
      StepOverlapsIff(a, p);
    } else {
      AddMonthsIsExact(a, p.step);
      FarWindowsAreDisjoint(a, b, p);
    }
  }

  predicate PairsExplained(walk: seq<Window>, p: Plan) {
    forall i, j | 0 <= i < j < |walk| :: OverlapExplained(walk[i], walk[j], p)
  }

  /** When the step covers the test, two recorded windows overlap exactly when one directly follows
      the other, step and test are equal, and the step was cut short; in particular never when the
      step is longer than the test. */
  lemma RecordedOverlapIff(start: Date, end: Date, p: Plan, outcome: Window -> Outcome)
    requires Valid(start) && Valid(end) && p.train >= 1 && p.step >= 1 && p.step >= p.test
    ensures PairsExplained(Walk(start, end, p, outcome), p)
  {
    var walk := Walk(start, end, p, outcome);
    WalkMovesForward(start, end, p, outcome);
    WalkIsSpaced(start, end, p, outcome);
    forall i, j | 0 <= i < j < |walk|
      ensures OverlapExplained(walk[i], walk[j], p)
    {
      SpacedOverlapIff(walk[i].trainStart, walk[j].trainStart, p);
    }
  }

  predicate AllStartOn(walk: seq<Window>, day: int) {
    forall i | 0 <= i < |walk| :: walk[i].trainStart.day == day
  }

  lemma {:induction false} WalkKeepsEarlyDay(start: Date, end: Date, p: Plan, outcome: Window -> Outcome)
    requires Valid(start) && start.day <= 28 && Valid(end) && p.train >= 1 && p.step >= 1
    ensures AllStartOn(Walk(start, end, p, outcome), start.day)
    decreases Room(start, end, p) + 1
  {
    var w := WindowAt(start, p);
    if !Before(end, w.testEnd) {
      LoopProgress(start, end, p, outcome(w));
      AddMonthsIsExact(start, p.step);
      AddMonthsIsExact(start, p.train);
      WalkKeepsEarlyDay(NextStart(w, p, outcome(w)), end, p, outcome);
    }
  }

  predicate TestsDisjoint(walk: seq<Window>) {
    forall i, j | 0 <= i < j < |walk| :: !Overlap(walk[i], walk[j])
  }

  /** From a start day of at most 28 the recorded test periods never overlap when the step covers
      the test. */
  lemma EarlyDaysNeverOverlap(start: Date, end: Date, p: Plan, outcome: Window -> Outcome)
    requires Valid(start) && start.day <= 28 && Valid(end)
    requires p.train >= 1 && p.test >= 1 && p.step >= p.test
    ensures TestsDisjoint(Walk(start, end, p, outcome))
  {
    RecordedOverlapIff(start, end, p, outcome);
    WalkKeepsEarlyDay(start, end, p, outcome);
    ExplainedEarlyDaysAreDisjoint(Walk(start, end, p, outcome), start.day, p);
  }

  lemma ExplainedEarlyDaysAreDisjoint(walk: seq<Window>, day: int, p: Plan)
    requires PairsExplained(walk, p) && AllStartOn(walk, day) && day <= 28
    ensures TestsDisjoint(walk)
  {
    forall i, j | 0 <= i < j < |walk|
      ensures !Overlap(walk[i], walk[j])
    {
      assert OverlapExplained(walk[i], walk[j], p);
    }
  }

  /** From 31 January with two months of training and one of test and step, the second test period
      starts on 28 April while the first runs to 30 April. */
  lemma MonthEndTestsOverlap(start: Date, p: Plan)
    requires start == Date(2023, 1, 31) && p == Plan(2, 1, 1)
    ensures p.step == p.test && CutShort(start, p)
    ensures WindowAt(start, p).testEnd == Date(2023, 4, 30)
    ensures WindowAt(AddMonths(start, p.step), p).testStart == Date(2023, 4, 28)
    ensures Overlap(WindowAt(start, p), WindowAt(AddMonths(start, p.step), p))
  {
    assert AddMonths(start, p.step) == Date(2023, 2, 28);
  }
}
