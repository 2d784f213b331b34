/**
 * Calendar dates as day numbers. The engine only ever asks two things of a
 * `Date`: its calendar year (`getFullYear`) and the initial date moved into
 * another year (`setFullYear` on a copy of the initial date). A `Calendar`
 * supplies both as functions; `ValidFor` states what the Gregorian calendar
 * guarantees about them.
 */
module Dates {

  /** A calendar day, counted from an arbitrary epoch. */
  type Day = int

  /**
   * `yearOf(d)` is the calendar year of day `d`; `anniversaryIn(y)` is the day
   * the initial date falls on after its year is set to `y`.
   */
  datatype Calendar = Calendar(yearOf: Day -> int, anniversaryIn: int -> Day)

  /**
   * Years never go backwards as days advance, the anniversary in year `y`
   * lies in year `y`, and the anniversary in the initial date's own year is
   * the initial date itself.
   */
  ghost predicate ValidFor(c: Calendar, initial: Day)
  {
    && (forall d1: Day, d2: Day :: d1 <= d2 ==> c.yearOf(d1) <= c.yearOf(d2))
    && (forall y: int :: c.yearOf(c.anniversaryIn(y)) == y)
    && c.anniversaryIn(c.yearOf(initial)) == initial
  }

  /** An anniversary in a year before the year of `d` lies strictly before `d`. */
  lemma AnniversaryBefore(c: Calendar, initial: Day, y: int, d: Day)
    requires ValidFor(c, initial)
    requires y < c.yearOf(d)
    ensures c.anniversaryIn(y) < d
  {
  }

  /** An anniversary in a year after the year of `d` lies strictly after `d`. */
  lemma AnniversaryAfter(c: Calendar, initial: Day, y: int, d: Day)
    requires ValidFor(c, initial)
    requires y > c.yearOf(d)
    ensures c.anniversaryIn(y) > d
  {
  }

  /** Anniversaries are strictly increasing in the year. */
  lemma AnniversaryIncreasing(c: Calendar, initial: Day, y1: int, y2: int)
    requires ValidFor(c, initial)
    requires y1 < y2
    ensures c.anniversaryIn(y1) < c.anniversaryIn(y2)
  {
    AnniversaryBefore(c, initial, y1, c.anniversaryIn(y2));
  }
}
