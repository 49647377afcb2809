/**
 * Points in time as JavaScript `Date` objects hold them: a number of
 * milliseconds since the epoch, or the invalid date whose time value is NaN.
 * Reading the clock and parsing date strings are outside the model: callers
 * pass the current instant and a parser in.
 */
module Instants {
  import opened Wrappers

  /** The largest magnitude of a valid time value, 8.64e15 ms (100 000 000 days). */
  const MaxTime: int := 8_640_000_000_000_000

  const MsPerDay: int := 86_400_000

  datatype Instant = Valid(ms: int) | Invalid

  /** How `new Date(text)` reads a date string; supplied by the caller. */
  type Parser = string -> Instant

  /** `new Date(ms)`: a time value beyond 8.64e15 ms either side of the epoch is an invalid date. */
  function FromMillis(ms: int): (r: Instant)
    ensures r.Valid? <==> -MaxTime <= ms <= MaxTime
    ensures r.Valid? ==> r.ms == ms
  {
    if -MaxTime <= ms <= MaxTime then Valid(ms) else Invalid
  }

  /** `new Date(x)` for a string that may be `undefined`; `new Date(undefined)` is invalid. */
  function FromText(o: Option<string>, parse: Parser): (r: Instant)
    ensures o.None? ==> r == Invalid
    ensures o.Some? ==> r == parse(o.value)
  {
    match o
    case None => Invalid
    case Some(s) => parse(s)
  }

  /** `a < b` on dates: false as soon as either is invalid. */
  predicate Less(a: Instant, b: Instant) {
    a.Valid? && b.Valid? && a.ms < b.ms
  }

  /** `a <= b` on dates: false as soon as either is invalid. */
  predicate AtMost(a: Instant, b: Instant) {
    a.Valid? && b.Valid? && a.ms <= b.ms
  }

  /**
   * The UTC calendar day of a time value, counted from 1970-01-01: the
   * `YYYY-MM-DD` prefix of `toISOString()` names exactly one such day.
   */
  function DayNumber(ms: int): int {
    ms / MsPerDay
  }

  /** Two instants share a day number exactly when they fall in the same 24-hour UTC day. */
  lemma DayNumberRange(ms: int, d: int)
    ensures DayNumber(ms) == d <==> d * MsPerDay <= ms < (d + 1) * MsPerDay
  {
    var q := ms / MsPerDay;
    assert ms == q * MsPerDay + ms % MsPerDay && 0 <= ms % MsPerDay < MsPerDay;
    if d * MsPerDay <= ms < (d + 1) * MsPerDay {
      assert (q - d) * MsPerDay < MsPerDay && (d - q) * MsPerDay < MsPerDay;
    }
  }
}
