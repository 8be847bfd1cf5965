/** Types shared by the other modules. */
module Prelude {

  datatype Option<+T> = None | Some(value: T)

  /** An instant in whole seconds on the application's local clock. */
  type Time = int

  const SECONDS_PER_DAY := 86_400

  /** The calendar day an instant falls on (Python's `datetime.date()`). */
  function Day(t: Time): int {
    t / SECONDS_PER_DAY
  }

  /** What a strategy says about one bar. */
  datatype Signal = BUY | SELL | HOLD

  function Max(a: int, b: int): int {
    if a < b then b else a
  }

  function Min(a: int, b: int): int {
    if a < b then a else b
  }

  lemma NoZeroDivisors(x: real, y: real)
    requires x * y == 0.0
    ensures x == 0.0 || y == 0.0
  {
  }

  /** The sum of a series. */
  function Total(xs: seq<real>): real {
    if xs == [] then 0.0 else Total(xs[..|xs| - 1]) + xs[|xs| - 1]
  }
}
