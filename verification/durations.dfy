/** The elapsed-time decomposition shared by `getDuration` in src/components/RequestHistory.tsx
    (short labels) and src/components/RequestDetails.tsx (long labels), and the whole-second count
    of `formatDuration` in src/components/RequestQueue.tsx. The unit words are left to the view. */
module Durations {
  import opened Common

  /** What `getDuration` reports: seconds alone, minutes and seconds, or hours and minutes. */
  datatype Duration = Secs(secs: int) | MinSec(mins: int, secs: int) | HourMin(hours: int, mins: int)

  /** `Math.floor(a / b)` for a positive divisor. */
  function FloorDiv(a: int, b: int): (r: int)
    requires b > 0
    ensures r * b <= a < r * b + b
  {
    a / b
  }

  /** `Math.floor((end.getTime() - start.getTime()) / 1000)`, also when `end` precedes `start`. */
  function ElapsedSeconds(start: Millis, end: Millis): (d: int)
    ensures d * 1000 <= end - start < d * 1000 + 1000
  {
    FloorDiv(end - start, 1000)
  }

  /** The three-branch split of a whole number of seconds. */
  function Decompose(d: int): (r: Duration)
    ensures r.Secs? <==> d < 60
    ensures r.Secs? ==> r.secs == d
    ensures r.MinSec? <==> 60 <= d < 3600
    ensures r.MinSec? ==> r.mins * 60 + r.secs == d && 1 <= r.mins <= 59 && 0 <= r.secs < 60
    ensures r.HourMin? <==> 3600 <= d
    ensures r.HourMin? ==> 1 <= r.hours && 0 <= r.mins < 60
    ensures r.HourMin? ==> r.hours * 3600 + r.mins * 60 <= d < r.hours * 3600 + r.mins * 60 + 60
  {
    if d < 60 then Secs(d)
    else if d < 3600 then MinSec(d / 60, d % 60)
    else HourMin(d / 3600, (d % 3600) / 60)
  }

  /** `getDuration(start, end)`: the elapsed whole seconds, split by the branch constraints. */
  function GetDuration(start: Millis, end: Millis): (r: Duration)
    ensures Describes(r, ElapsedSeconds(start, end))
    ensures end - start < 60000 ==> r.Secs?
    ensures 3600000 <= end - start ==> r.HourMin?
  {
    DecomposeIsTheDescription(ElapsedSeconds(start, end), Secs(0));
    Decompose(ElapsedSeconds(start, end))
  }

  /** The seconds a duration stands for, counting a dropped remainder as zero. */
  function Shown(r: Duration): int {
    match r
    case Secs(s) => s
    case MinSec(m, s) => m * 60 + s
    case HourMin(h, m) => h * 3600 + m * 60
  }

  /** The branch constraints, stated independently of how `Decompose` computes its fields. */
  ghost predicate Describes(r: Duration, d: int) {
    match r
    case Secs(s) => d < 60 && s == d
    case MinSec(m, s) => 60 <= d < 3600 && 0 <= s < 60 && m * 60 + s == d
    case HourMin(h, m) => 3600 <= d && 0 <= m < 60 && h * 3600 + m * 60 <= d < h * 3600 + m * 60 + 60
  }

  /** Exactly one duration describes a given number of seconds, and it is the one `Decompose` builds. */
  lemma DecomposeIsTheDescription(d: int, r: Duration)
    ensures Describes(Decompose(d), d)
    ensures Describes(r, d) ==> r == Decompose(d)
  {
    if Describes(r, d) {
      match r
      case Secs(s) =>
      case MinSec(m, s) =>
        DivModUnique(d, 60, m, s);
      case HourMin(h, m) =>
        var rest := d - h * 3600;
        assert 0 <= rest < 3600 by {
          assert h * 3600 + m * 60 <= d < h * 3600 + m * 60 + 60;
        }
        DivModUnique(d, 3600, h, rest);
        DivModUnique(rest, 60, m, rest - m * 60);
    }
  }

  /** Quotient and remainder by a positive divisor are unique. */
  lemma DivModUnique(a: int, b: int, q: int, r: int)
    requires b > 0 && 0 <= r < b && q * b + r == a
    ensures q == a / b && r == a % b
  {
    var q0, r0 := a / b, a % b;
    assert q0 * b + r0 == a;
    assert (q - q0) * b == r0 - r by {
      assert (q - q0) * b == q * b - q0 * b;
    }
    if q != q0 {
      var k := if q > q0 then q - q0 else q0 - q;
      assert k * b == r0 - r || k * b == r - r0 by {
        assert (q0 - q) * b == -((q - q0) * b);
      }
      AtLeastOneTimes(k, b);
    }
  }

  lemma AtLeastOneTimes(k: int, b: int)
    requires k >= 1 && b > 0
    ensures k * b >= b
  {
    assert k * b == (k - 1) * b + b;
    assert (k - 1) * b >= 0;
  }

  /** Below an hour the reported parts add back to the elapsed seconds exactly; from an hour on the
      seconds are dropped, so the report lags by `d % 60`, less than a minute. */
  lemma ShownVersusElapsed(d: int)
    ensures d < 3600 ==> Shown(Decompose(d)) == d
    ensures 3600 <= d ==> Shown(Decompose(d)) == d - d % 60
    ensures Shown(Decompose(d)) <= d < Shown(Decompose(d)) + 60
  {
    var r := Decompose(d);
    if 3600 <= d {
      var h, m := r.hours, r.mins;
      assert h * 3600 + m * 60 == (h * 60 + m) * 60;
      DivModUnique(d, 60, h * 60 + m, d - (h * 3600 + m * 60));
    }
  }

  /** Two elapsed times in the hours branch that differ only within the same minute read the same. */
  lemma HoursBranchDropsSeconds(d: int, extra: int)
    requires 3600 <= d && d % 60 == 0 && 0 <= extra < 60
    ensures Decompose(d + extra) == Decompose(d)
    ensures Decompose(d + extra).HourMin?
  {
    var r := Decompose(d);
    assert Describes(r, d);
    assert Describes(r, d + extra);
    DecomposeIsTheDescription(d + extra, r);
  }

  /** `formatDuration(start, end)` with `new Date()` replaced by `now`: nothing without a start time,
      otherwise whole seconds up to the end time, or up to now while the request has none. */
  function FormatDuration(start: Option<Millis>, end: Option<Millis>, now: Millis): (r: Option<int>)
    ensures r.None? <==> start.None?
    ensures r.Some? ==> r.value * 1000 <= end.GetOr(now) - start.value < r.value * 1000 + 1000
    ensures r.Some? && end.Some? ==> r.value == ElapsedSeconds(start.value, end.value)
  {
    if start.None? then None
    else Some(ElapsedSeconds(start.value, end.GetOr(now)))
  }
}
