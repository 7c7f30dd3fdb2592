/** Calendar dates as the database and the forms compare them: year, month, day,
    ordered lexicographically. */
module Dates {

  datatype Date = Date(year: int, month: int, day: int)

  predicate Before(a: Date, b: Date) {
    a.year < b.year || (a.year == b.year && (a.month < b.month || (a.month == b.month && a.day < b.day)))
  }

  predicate AtOrBefore(a: Date, b: Date) {
    Before(a, b) || a == b
  }

  /** A month as one integer, so that months compare and group as numbers. */
  function MonthIndex(d: Date): int {
    d.year * 12 + (d.month - 1)
  }
}
