/** Go's time.Time as the pipeline uses it.

    An instant is a calendar day (a day number counted from an epoch) and the
    nanoseconds elapsed since that day began. All instants are taken in one
    zone; the zone offset, the location pointer and the monotonic reading of a
    Go time.Time are not modelled. */
module Time {
  import opened Wrappers

  const NanosPerDay: int := 86_400_000_000_000

  datatype Stamp = Stamp(day: int, nanos: int)

  type Instant = s: Stamp | 0 <= s.nanos < NanosPerDay witness Stamp(0, 0)

  /** t.AddDate(0, 0, n): the same time of day, n calendar days later. */
  function AddDays(t: Instant, n: int): (later: Instant)
  {
    Stamp(t.day + n, t.nanos)
  }

  /** a.After(b) */
  predicate After(a: Instant, b: Instant)
  {
    a.day > b.day || (a.day == b.day && a.nanos > b.nanos)
  }

  /** The calendar date of t, which t.Format("2006-01-02") spells out as
      YYYY-MM-DD; the text is determined by the day and determines it, so the
      day number stands for it. */
  function DateOf(t: Instant): (date: int)
  {
    t.day
  }

  /** The layouts the pipeline hands to time.Parse. */
  datatype Layout = RFC3339 | RFC3339Nano | DateOnly

  /** time.Parse(layout, value): a partial function, supplied as an oracle. */
  type Parser = (Layout, string) -> Option<Instant>
}
