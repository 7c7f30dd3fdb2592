/** The analytics handlers of the employee controller: the salary analysis (count,
    range, rank-based median and bands of the active salaries), the skills analysis
    over active employees, and the performance metrics' retention rate.  The tenure
    handler runs the reports router's tenure query and is modelled there.  The
    hiring-trends handler differs from the router's (a six-month window, grouped by
    the `'%Y-%m'` month alone); its refused query is modelled here by
    `TrendsAnswerAsWritten`, against the router's `Reports.HiringTrends`. */
module EmployeeAnalytics {
  import opened Wrappers
  import opened Dates
  import opened Sorting
  import Reports

  /** The columns of an employee row the analytics read. */
  datatype Staff = Staff(id: int, salary: Option<real>, status: Option<string>, hireDate: Option<Date>)

  /** `status = 'Active' OR status IS NULL`. */
  predicate IsActive(e: Staff) {
    e.status.None? || e.status == Some("Active")
  }

  // ---------------------------------------------------------------------------
  // The salary analysis

  /** `WHERE salary IS NOT NULL AND salary > 0 AND (status = 'Active' OR status IS NULL)`. */
  function ActiveSalaries(staff: seq<Staff>): (r: seq<real>)
    ensures |r| <= |staff|
    ensures forall x :: x in r ==> x > 0.0
    ensures forall x :: x in r <==> exists e :: e in staff && IsActive(e) && e.salary == Some(x) && x > 0.0
  {
    if staff == [] then []
    else
      var e := staff[0];
      var rest := ActiveSalaries(staff[1..]);
      assert forall s :: s in staff <==> s == e || s in staff[1..] by {
        assert staff == [e] + staff[1..];
      }
      if IsActive(e) && e.salary.Some? && e.salary.value > 0.0 then [e.salary.value] + rest else rest
  }

  function Identity(x: real): real { x }

  /** `ORDER BY salary`. */
  function Ascending(s: seq<real>): (r: seq<real>)
    ensures |r| == |s| && multiset(r) == multiset(s)
    ensures forall i, j :: 0 <= i < j < |r| ==> r[i] <= r[j]
  {
    var r := SortBy(s, Identity);
    assert SortedBy(r, Identity);
    r
  }

  /** `FLOOR((total_count + 1) / 2)` and `CEIL((total_count + 1) / 2)`: the 1-based
      ranks the median query keeps. */
  function LowRank(n: nat): nat { (n + 1) / 2 }
  function HighRank(n: nat): nat { (n + 2) / 2 }

  /** The two ranks coincide at the middle for an odd count and are the two middle
      positions for an even one; with no rows the high rank names no row. */
  lemma MiddleRanks(n: nat)
    ensures n % 2 == 1 ==> LowRank(n) == HighRank(n) == n / 2 + 1
    ensures n % 2 == 0 && n > 0 ==> LowRank(n) == n / 2 && HighRank(n) == n / 2 + 1
    ensures n == 0 ==> LowRank(n) == 0 && HighRank(n) == 1
  {
  }

  /** `WHERE row_num IN (lo, hi)` over the rows from position `from` on, in order. */
  function AtRanks(s: seq<real>, lo: int, hi: int, from: nat): seq<real>
    decreases |s| - from
  {
    if from >= |s| then []
    else (if from + 1 == lo || from + 1 == hi then [s[from]] else []) + AtRanks(s, lo, hi, from + 1)
  }

  /** No rank at or after `from` is asked for: nothing is kept. */
  lemma {:induction false} AtRanksNone(s: seq<real>, lo: int, hi: int, from: nat)
    requires lo <= from && hi <= from
    ensures AtRanks(s, lo, hi, from) == []
    decreases |s| - from
  {
    if from < |s| {
      AtRanksNone(s, lo, hi, from + 1);
    }
  }

  /** Only the rows at the named ranks are kept, each once. */
  lemma {:induction false} AtRanksKept(s: seq<real>, lo: int, hi: int, from: nat)
    requires from < lo <= hi <= |s|
    ensures AtRanks(s, lo, hi, from) == if lo == hi then [s[lo - 1]] else [s[lo - 1], s[hi - 1]]
    decreases |s| - from
  {
    if from + 1 < lo {
      AtRanksKept(s, lo, hi, from + 1);
    } else if lo == hi {
      AtRanksNone(s, lo, hi, from + 1);
    } else if from + 1 < hi {
      AtRanksKeptOne(s, hi, from + 1);
    }
  }

  lemma {:induction false} AtRanksKeptOne(s: seq<real>, hi: int, from: nat)
    requires from < hi <= |s|
    ensures AtRanks(s, from, hi, from) == [s[hi - 1]]
    decreases |s| - from
  {
    if from + 1 < hi {
      AtRanksKeptOne(s, hi, from + 1);
      assert AtRanks(s, from, hi, from + 1) == AtRanks(s, from + 1, hi, from + 1) by {
        AtRanksLow(s, from, from + 1, hi, from + 1);
      }
    } else {
      AtRanksNone(s, from, hi, from + 1);
    }
  }

  /** A low rank already passed may be replaced by any other passed rank. */
  lemma {:induction false} AtRanksLow(s: seq<real>, lo1: int, lo2: int, hi: int, from: nat)
    requires lo1 <= from && lo2 <= from
    ensures AtRanks(s, lo1, hi, from) == AtRanks(s, lo2, hi, from)
    decreases |s| - from
  {
    if from < |s| {
      AtRanksLow(s, lo1, lo2, hi, from + 1);
    }
  }

  function SumOf(xs: seq<real>): real {
    if xs == [] then 0.0 else xs[0] + SumOf(xs[1..])
  }

  /** `AVG(...)`, which is `NULL` over no rows. */
  function Average(xs: seq<real>): (r: Option<real>)
    ensures r.None? <==> xs == []
  {
    if xs == [] then None else Some(SumOf(xs) / |xs| as real)
  }

  /** The median query: the average of the sorted salaries at the two middle ranks. */
  function Median(salaries: seq<real>): Option<real> {
    var s := Ascending(salaries);
    Average(AtRanks(s, LowRank(|s|), HighRank(|s|), 0))
  }

  /** The median is `NULL` without salaries, the middle one for an odd count and the
      mean of the two middle ones for an even count. */
  lemma MedianValue(salaries: seq<real>)
    ensures salaries == [] ==> Median(salaries) == None
    ensures |salaries| % 2 == 1 ==> Median(salaries) == Some(Ascending(salaries)[|salaries| / 2])
    ensures |salaries| % 2 == 0 && salaries != [] ==>
      Median(salaries) == Some((Ascending(salaries)[|salaries| / 2 - 1] + Ascending(salaries)[|salaries| / 2]) / 2.0)
  {
    var s := Ascending(salaries);
    var n := |s|;
    MiddleRanks(n);
    if n % 2 == 1 {
      MedianOdd(s, n / 2);
    } else if n > 0 {
      MedianEven(s, n / 2);
    }
  }

  /** An odd count keeps the one middle row. */
  lemma MedianOdd(s: seq<real>, h: nat)
    requires |s| == 2 * h + 1
    ensures Average(AtRanks(s, h + 1, h + 1, 0)) == Some(s[h])
  {
    AtRanksKept(s, h + 1, h + 1, 0);
    assert [s[h]][1..] == [];
    assert SumOf([s[h]]) == s[h];
  }

  /** An even count keeps the two middle rows. */
  lemma MedianEven(s: seq<real>, h: nat)
    requires h > 0 && |s| == 2 * h
    ensures Average(AtRanks(s, h, h + 1, 0)) == Some((s[h - 1] + s[h]) / 2.0)
  {
    AtRanksKept(s, h, h + 1, 0);
    var pair := [s[h - 1], s[h]];
    SumOfPair(s[h - 1], s[h]);
    assert Average(pair) == Some(SumOf(pair) / 2.0);
  }

  lemma SumOfPair(a: real, b: real)
    ensures SumOf([a, b]) == a + b
  {
    assert [a, b][1..] == [b];
    assert SumOf([b]) == b;
  }

  /** The median splits the salaries in halves: the lowest `LowRank(n)` are no larger
      and the highest `LowRank(n)` no smaller. */
  lemma MedianHalves(salaries: seq<real>)
    requires salaries != []
    ensures Median(salaries).Some?
    ensures forall i :: 0 <= i < LowRank(|salaries|) ==> Ascending(salaries)[i] <= Median(salaries).value
    ensures forall i :: |salaries| - LowRank(|salaries|) <= i < |salaries| ==> Median(salaries).value <= Ascending(salaries)[i]
  {
    MedianValue(salaries);
  }

  /** `Math.round`: the nearest integer, halves rounded up. */
  function JsRound(x: real): (r: int)
    ensures x - 0.5 < r as real <= x + 0.5
  {
    (x + 0.5).Floor
  }

  /** Whole values are left as they are. */
  lemma JsRoundWhole(n: int)
    ensures JsRound(n as real) == n
  {
  }

  /** `Math.round(median_salary || 0)`. */
  function MedianSalary(salaries: seq<real>): (r: int)
    ensures salaries == [] ==> r == 0
  {
    MedianValue(salaries);
    match Median(salaries)
    case None => 0
    case Some(v) => JsRound(v)
  }

  /** The reported median lies between the smallest and the largest salary. */
  lemma MedianSalaryWithin(salaries: seq<real>)
    requires salaries != []
    ensures Ascending(salaries)[0] - 0.5 < MedianSalary(salaries) as real
    ensures MedianSalary(salaries) as real <= Ascending(salaries)[|salaries| - 1] + 0.5
  {
    MedianHalves(salaries);
  }

  /** `MIN(salary)`, `MAX(salary)` and `COUNT(*)` of the statistics query, with
      `|| 0` for the empty result. */
  datatype SalaryStats = SalaryStats(min: real, max: real, total: nat)

  function Stats(salaries: seq<real>): (r: SalaryStats)
    ensures r.total == |salaries|
    ensures salaries == [] ==> r.min == 0.0 && r.max == 0.0
    ensures salaries != [] ==> r.min in salaries && r.max in salaries
    ensures forall x :: x in salaries ==> r.min <= x <= r.max
  {
    var s := Ascending(salaries);
    if s == [] then SalaryStats(0.0, 0.0, 0)
    else
      AscendingEnds(salaries);
      SalaryStats(s[0], s[|s| - 1], |s|)
  }

  /** The first and last of the sorted salaries are salaries, and bound all of them. */
  lemma AscendingEnds(salaries: seq<real>)
    requires salaries != []
    ensures var s := Ascending(salaries);
      && s[0] in salaries && s[|s| - 1] in salaries
      && forall x :: x in salaries ==> s[0] <= x <= s[|s| - 1]
  {
    var s := Ascending(salaries);
    assert s[0] in multiset(salaries) && s[|s| - 1] in multiset(salaries);
    forall x | x in salaries ensures s[0] <= x <= s[|s| - 1] {
      assert x in multiset(s);
      var i :| 0 <= i < |s| && s[i] == x;
    }
  }

  /** The salary bands of the analysis; `BETWEEN` is inclusive and stops at x9999. */
  datatype SalaryBand = Under40K | From40KTo60K | From60KTo80K | From80KTo100K | From100KTo120K | Over120K | OtherBand

  function BandOf(salary: real): SalaryBand {
    if salary < 40000.0 then Under40K
    else if 40000.0 <= salary <= 59999.0 then From40KTo60K
    else if 60000.0 <= salary <= 79999.0 then From60KTo80K
    else if 80000.0 <= salary <= 99999.0 then From80KTo100K
    else if 100000.0 <= salary <= 119999.0 then From100KTo120K
    else if salary >= 120000.0 then Over120K
    else OtherBand
  }

  function BandLabel(b: SalaryBand): string {
    match b
    case Under40K => "Under $40K"
    case From40KTo60K => "$40K-$60K"
    case From60KTo80K => "$60K-$80K"
    case From80KTo100K => "$80K-$100K"
    case From100KTo120K => "$100K-$120K"
    case Over120K => "$120K+"
    case OtherBand => "Other"
  }

  /** "Other" takes exactly the salaries in the gaps between a band's x9999 and the
      next band's x0000. */
  lemma BandOtherIff(salary: real)
    ensures BandOf(salary) == OtherBand <==>
      (59999.0 < salary < 60000.0) || (79999.0 < salary < 80000.0)
      || (99999.0 < salary < 100000.0) || (119999.0 < salary < 120000.0)
  {
  }

  /** A whole salary always lands in one of the six named bands. */
  lemma WholeSalaryBands(salary: int)
    ensures BandOf(salary as real) != OtherBand
  {
  }

  function BandRank(b: SalaryBand): int {
    match b
    case Under40K => 1
    case From40KTo60K => 2
    case From60KTo80K => 3
    case From80KTo100K => 4
    case From100KTo120K => 5
    case Over120K => 6
    case OtherBand => 7
  }

  /** Outside "Other" the bands follow the salaries: a larger salary is never in an
      earlier band, so ordering the rows by their smallest salary orders them by band. */
  lemma BandsFollowSalary(a: real, b: real)
    requires a <= b
    requires BandOf(a) != OtherBand && BandOf(b) != OtherBand
    ensures BandRank(BandOf(a)) <= BandRank(BandOf(b))
  {
  }

  function BandsOf(salaries: seq<real>): (r: seq<SalaryBand>)
    ensures |r| == |salaries| && forall i :: 0 <= i < |r| ==> r[i] == BandOf(salaries[i])
  {
    seq(|salaries|, i requires 0 <= i < |salaries| => BandOf(salaries[i]))
  }

  const AllBands := [Under40K, From40KTo60K, From60KTo80K, From80KTo100K, From100KTo120K, Over120K, OtherBand]

  /** The active salaries in one band. */
  function InBand(salaries: seq<real>, band: SalaryBand): (r: seq<real>)
    ensures |r| <= |salaries|
    ensures forall x :: x in r <==> x in salaries && BandOf(x) == band
  {
    if salaries == [] then []
    else
      var rest := InBand(salaries[1..], band);
      assert forall x :: x in salaries <==> x == salaries[0] || x in salaries[1..] by {
        assert salaries == [salaries[0]] + salaries[1..];
      }
      if BandOf(salaries[0]) == band then [salaries[0]] + rest else rest
  }

  /** `COUNT(*)` of a band's group is the number of salaries in that band. */
  lemma {:induction false} BandCount(salaries: seq<real>, band: SalaryBand)
    ensures multiset(BandsOf(salaries))[band] == |InBand(salaries, band)|
  {
    if salaries != [] {
      BandCount(salaries[1..], band);
      assert BandsOf(salaries) == [BandOf(salaries[0])] + BandsOf(salaries[1..]);
    }
  }

  /** A row of the distribution: its band, its `COUNT(*)` and its `MIN(salary)`. */
  datatype BandRow = BandRow(band: SalaryBand, count: nat, minSalary: real)

  function RowBands(rows: seq<BandRow>): (r: seq<SalaryBand>)
    ensures |r| == |rows|
    ensures forall i :: 0 <= i < |r| ==> r[i] == rows[i].band
  {
    seq(|rows|, i requires 0 <= i < |rows| => rows[i].band)
  }

  /** The GROUP BY's rows before the ORDER BY, each with the smallest salary of its band. */
  function GroupedBands(ps: seq<real>): (r: seq<BandRow>)
    ensures var groups := Reports.GroupCounts(BandsOf(ps), AllBands);
      |r| == |groups| && forall i :: 0 <= i < |r| ==> r[i].band == groups[i].key && r[i].count == groups[i].count
  {
    var groups := Reports.GroupCounts(BandsOf(ps), AllBands);
    seq(|groups|, i requires 0 <= i < |groups| =>
      var ss := InBand(ps, groups[i].key);
      BandRow(groups[i].key, groups[i].count, if ss == [] then 0.0 else Reports.Minimum(ss)))
  }

  /** The distribution query: one row per band holding an active salary, with its count,
      ordered by the smallest salary in it (`ORDER BY MIN(salary)`). */
  function SalaryBands(staff: seq<Staff>): seq<BandRow> {
    SortBy(GroupedBands(ActiveSalaries(staff)), (row: BandRow) => row.minSalary)
  }

  /** A row whose count is the number of salaries in its band, at least one, and whose
      minimum is the smallest of them. */
  predicate RowCountsBand(ps: seq<real>, row: BandRow) {
    var ss := InBand(ps, row.band);
    ss != [] && row.count == |ss| && row.minSalary == Reports.Minimum(ss)
  }

  /** Every grouped row counts its band. */
  lemma GroupedBandsCount(ps: seq<real>)
    ensures forall row :: row in GroupedBands(ps) ==> RowCountsBand(ps, row)
  {
    var groups := Reports.GroupCounts(BandsOf(ps), AllBands);
    var rows := GroupedBands(ps);
    Reports.GroupCountsRows(BandsOf(ps), AllBands);
    forall row | row in rows ensures RowCountsBand(ps, row) {
      var i :| 0 <= i < |rows| && rows[i] == row;
      BandCount(ps, groups[i].key);
    }
  }

  /** Every band holding a salary has a grouped row. */
  lemma GroupedBandsCover(ps: seq<real>, b: SalaryBand)
    requires InBand(ps, b) != []
    ensures b in RowBands(GroupedBands(ps))
  {
    var bs := BandsOf(ps);
    var groups := Reports.GroupCounts(bs, AllBands);
    BandCount(ps, b);
    assert b in bs by { assert b in multiset(bs); }
    BandListed(b);
    Reports.GroupCountsRows(bs, AllBands);
    var keys := Reports.Keys(groups);
    assert b in keys;
    var i :| 0 <= i < |keys| && keys[i] == b;
    assert RowBands(GroupedBands(ps))[i] == b;
  }

  lemma BandListed(b: SalaryBand)
    ensures b in AllBands
  {
    assert AllBands[BandRank(b) - 1] == b;
  }

  /** The ORDER BY keeps the rows (as a multiset). */
  lemma {:induction false} SalaryBandsRows(staff: seq<Staff>, row: BandRow)
    ensures row in SalaryBands(staff) <==> row in GroupedBands(ActiveSalaries(staff))
  {
    var rows := SalaryBands(staff);
    var unsorted := GroupedBands(ActiveSalaries(staff));
    assert multiset(rows) == multiset(unsorted);
    assert row in rows <==> row in multiset(rows);
    assert row in unsorted <==> row in multiset(unsorted);
  }

  /** Each row counts the active positive salaries in its band, a band has a row iff
      one falls in it, and the rows go up by their smallest salary. */
  lemma SalaryBandsSpec(staff: seq<Staff>)
    ensures var rows := SalaryBands(staff);
      var ps := ActiveSalaries(staff);
      && (forall row :: row in rows ==> RowCountsBand(ps, row))
      && (forall b :: b in RowBands(rows) <==> InBand(ps, b) != [])
      && (forall i, j :: 0 <= i < j < |rows| ==> rows[i].minSalary <= rows[j].minSalary)
  {
    var ps := ActiveSalaries(staff);
    var unsorted := GroupedBands(ps);
    var rows := SalaryBands(staff);
    GroupedBandsCount(ps);
    forall row | row in rows ensures RowCountsBand(ps, row) {
      SalaryBandsRows(staff, row);
    }
    forall b | b in RowBands(rows) ensures InBand(ps, b) != [] {
      var i :| 0 <= i < |rows| && RowBands(rows)[i] == b;
      assert rows[i] in rows;
    }
    forall b | InBand(ps, b) != [] ensures b in RowBands(rows) {
      GroupedBandsCover(ps, b);
      var j :| 0 <= j < |unsorted| && RowBands(unsorted)[j] == b;
      SalaryBandsRows(staff, unsorted[j]);
      var i :| 0 <= i < |rows| && rows[i] == unsorted[j];
      assert RowBands(rows)[i] == b;
    }
  }

  lemma {:induction false} NothingGrouped<K>(values: seq<K>, order: seq<K>)
    requires values == []
    ensures Reports.GroupCounts(values, order) == []
  {
    if order != [] {
      NothingGrouped(values, order[1..]);
    }
  }

  /** The figures of the salary analysis this model covers. */
  datatype SalaryAnalysis = SalaryAnalysis(medianSalary: int, stats: SalaryStats, distribution: seq<BandRow>)

  /** The analysis the handler is meant to answer, with the distribution's column alias
      quoted so that MySQL accepts the query. */
  function AnalyseSalaries(staff: seq<Staff>): (r: SalaryAnalysis)
    ensures r.stats.total == |ActiveSalaries(staff)|
    ensures r.stats.total == 0 ==> r.medianSalary == 0 && r.distribution == []
  {
    var s := ActiveSalaries(staff);
    if s == [] then
      NothingGrouped(BandsOf(s), AllBands);
      SalaryAnalysis(MedianSalary(s), Stats(s), SalaryBands(staff))
    else SalaryAnalysis(MedianSalary(s), Stats(s), SalaryBands(staff))
  }

  /** What the salary-analysis handler answers: the analysis, or status 500 with its
      figures zeroed (the fallback carries no employee count; it is modelled as 0). */
  datatype SalaryAnswer = SalaryOk(analysis: SalaryAnalysis) | SalaryFailed(zeroed: SalaryAnalysis)

  const ZeroedAnalysis := SalaryAnalysis(0, SalaryStats(0.0, 0.0, 0), [])

  /** The handler as written: the distribution query names its column `range`, a
      reserved word of MySQL, so the server refuses the statement and the catch answers
      the zeroed fallback whatever the table holds. */
  function SalaryAnswerAsWritten(staff: seq<Staff>): SalaryAnswer {
    SalaryFailed(ZeroedAnalysis)
  }

  /** The handler with the alias quoted, as evidently intended: the analysis. */
  function SalaryAnswerOf(staff: seq<Staff>): SalaryAnswer {
    SalaryOk(AnalyseSalaries(staff))
  }

  /** One active employee with a salary is enough to tell the two apart: as written the
      handler fails and counts no one, the intended one counts that employee. */
  lemma SalaryAnswerAsWrittenFails()
    ensures var staff := [Staff(1, Some(50000.0), None, None)];
      && SalaryAnswerAsWritten(staff).SalaryFailed?
      && SalaryAnswerAsWritten(staff).zeroed.stats.total == 0
      && SalaryAnswerOf(staff).SalaryOk?
      && SalaryAnswerOf(staff).analysis.stats.total == 1
  {
    var staff := [Staff(1, Some(50000.0), None, None)];
    assert ActiveSalaries(staff) == [50000.0];
  }

  /** Whenever an active salary exists the as-written answer loses it. */
  lemma SalaryAnswerAsWrittenLoses(staff: seq<Staff>)
    requires ActiveSalaries(staff) != []
    ensures SalaryAnswerAsWritten(staff) != SalaryAnswerOf(staff)
    ensures SalaryAnswerOf(staff).analysis.stats.total == |ActiveSalaries(staff)| > 0
  {
  }

  // ---------------------------------------------------------------------------
  // The hiring-trends handler

  /** What `getHiringTrends` answers: the monthly rows, or status 500 with the body
      `[]`. */
  datatype TrendsAnswer = TrendsOk(rows: seq<Reports.Group<int>>) | TrendsFailed(body: seq<Reports.Group<int>>)

  /** The handler as written: it selects `DATE_FORMAT(hire_date, '%M %Y')` but groups
      only by `DATE_FORMAT(hire_date, '%Y-%m')`.  Under `ONLY_FULL_GROUP_BY`, part of
      MySQL's default SQL mode and left unchanged by the pool, the server refuses the
      statement whatever the table holds, and the catch answers 500 with `[]`. */
  function TrendsAnswerAsWritten(hires: seq<Option<Date>>, cutoff: Date): TrendsAnswer {
    TrendsFailed([])
  }

  /** The handler grouped by both formats, as the reports router groups it: the hires
      per month since the cutoff. */
  function TrendsAnswerOf(hires: seq<Option<Date>>, cutoff: Date): TrendsAnswer {
    TrendsOk(Reports.HiringTrends(hires, cutoff))
  }

  /** Whenever a hire falls in the window, the intended answer lists its month, and
      the as-written handler answers the empty failure instead. */
  lemma TrendsAnswerAsWrittenLoses(hires: seq<Option<Date>>, cutoff: Date, d: Date)
    requires Some(d) in hires && AtOrBefore(cutoff, d)
    ensures TrendsAnswerAsWritten(hires, cutoff) == TrendsFailed([])
    ensures TrendsAnswerOf(hires, cutoff).TrendsOk?
    ensures MonthIndex(d) in Reports.Keys(TrendsAnswerOf(hires, cutoff).rows)
  {
    Reports.HiringTrendsSpec(hires, cutoff);
    assert MonthIndex(d) in Reports.WindowMonths(hires, cutoff);
  }

  /** One hire in the window is enough: as written the handler fails, the intended one
      lists the hire's month. */
  lemma TrendsAnswerAsWrittenFails()
    ensures TrendsAnswerAsWritten([Some(Date(2024, 3, 15))], Date(2024, 1, 1)).TrendsFailed?
    ensures MonthIndex(Date(2024, 3, 15)) in
      Reports.Keys(TrendsAnswerOf([Some(Date(2024, 3, 15))], Date(2024, 1, 1)).rows)
  {
    TrendsAnswerAsWrittenLoses([Some(Date(2024, 3, 15))], Date(2024, 1, 1), Date(2024, 3, 15));
  }

  // ---------------------------------------------------------------------------
  // The skills analysis

  /** `LEFT JOIN employees e ... WHERE es.employee_id IS NOT NULL AND (e.status = 'Active'
      OR e.status IS NULL)`: a link counts unless it names an inactive employee (a link
      to a missing row has a `NULL` status and counts). */
  predicate CountsFor(staff: seq<Staff>, employeeId: int) {
    forall e :: e in staff && e.id == employeeId ==> IsActive(e)
  }

  function ActiveLinks(staff: seq<Staff>, links: seq<Reports.SkillLink>): (r: seq<Reports.SkillLink>)
    ensures forall l :: l in r <==> l in links && CountsFor(staff, l.employeeId)
  {
    if links == [] then []
    else
      var rest := ActiveLinks(staff, links[1..]);
      assert forall l :: l in links <==> l == links[0] || l in links[1..] by {
        assert links == [links[0]] + links[1..];
      }
      if CountsFor(staff, links[0].employeeId) then [links[0]] + rest else rest
  }

  /** `COUNT(DISTINCT e.id) ... WHERE e.status = 'Active' OR e.status IS NULL`. */
  function ActiveIds(staff: seq<Staff>): (r: set<int>)
    ensures forall id :: id in r <==> exists e :: e in staff && e.id == id && IsActive(e)
  {
    set e | e in staff && IsActive(e) :: e.id
  }

  /** The fifteen skills with the most links of active employees, each with its share
      of the distinct active employees. */
  function TopSkills(staff: seq<Staff>, skills: seq<Reports.CatalogueSkill>, links: seq<Reports.SkillLink>): seq<Reports.SkillShare> {
    Reports.TopShares(Reports.SkillShares(skills, ActiveLinks(staff, links), |ActiveIds(staff)|), 15)
  }

  /** Fifteen rows, or every used skill when fewer are used, in descending count. */
  lemma TopSkillsSpec(staff: seq<Staff>, skills: seq<Reports.CatalogueSkill>, links: seq<Reports.SkillLink>)
    ensures var used := Reports.UsedSkills(Reports.SkillShares(skills, ActiveLinks(staff, links), |ActiveIds(staff)|));
      |TopSkills(staff, skills, links)| == (if |used| <= 15 then |used| else 15)
    ensures forall i, j :: 0 <= i < j < |TopSkills(staff, skills, links)| ==>
      TopSkills(staff, skills, links)[i].count >= TopSkills(staff, skills, links)[j].count
  {
    Reports.TopSharesSpec(Reports.SkillShares(skills, ActiveLinks(staff, links), |ActiveIds(staff)|), 15);
  }

  /** Each top row is a catalogue skill with a positive count, that of the links of
      active employees, and its share is `NULL` only when no employee is active. */
  lemma TopSkillsRows(staff: seq<Staff>, skills: seq<Reports.CatalogueSkill>, links: seq<Reports.SkillLink>)
    ensures forall x :: x in TopSkills(staff, skills, links) ==>
      && x.count > 0
      && (exists k :: 0 <= k < |skills| && x.skill == skills[k].name && x.count == Reports.LinkCount(skills[k].id, ActiveLinks(staff, links)))
      && (x.percentage.None? <==> |ActiveIds(staff)| == 0)
  {
    var active := ActiveLinks(staff, links);
    var rows := Reports.SkillShares(skills, active, |ActiveIds(staff)|);
    Reports.TopSharesSpec(rows, 15);
    forall x | x in Reports.TopShares(rows, 15)
      ensures exists k :: 0 <= k < |skills| && x.skill == skills[k].name && x.count == Reports.LinkCount(skills[k].id, active)
      ensures x.percentage.None? <==> |ActiveIds(staff)| == 0
    {
      Reports.ShareOfCatalogue(skills, active, |ActiveIds(staff)|, x);
    }
  }

  /** The links of an inactive employee never count. */
  lemma InactiveLinksIgnored(staff: seq<Staff>, links: seq<Reports.SkillLink>, e: Staff)
    requires e in staff && !IsActive(e)
    ensures forall l :: l in ActiveLinks(staff, links) ==> l.employeeId != e.id
  {
  }

  // ---------------------------------------------------------------------------
  // The performance metrics' retention rate

  /** `COUNT(*) ... WHERE hire_date <= DATE_SUB(CURDATE(), INTERVAL 1 YEAR)`; a missing
      hire date never qualifies. */
  function HiredBy(staff: seq<Staff>, yearAgo: Date): (n: nat)
    ensures n <= |staff|
  {
    if staff == [] then 0
    else
      (if staff[0].hireDate.Some? && AtOrBefore(staff[0].hireDate.value, yearAgo) then 1 else 0)
        + HiredBy(staff[1..], yearAgo)
  }

  /** `total > 0 ? active / total * 100 : 0` over every employee row, active or not. */
  function RetentionRate(staff: seq<Staff>, yearAgo: Date): real {
    Reports.Rate(HiredBy(staff, yearAgo), |staff|)
  }

  /** The rate is a percentage, 0 with no employees or no one a year in, and 100 exactly
      when everyone was hired a year ago or earlier. */
  lemma RetentionRateBounds(staff: seq<Staff>, yearAgo: Date)
    ensures 0.0 <= RetentionRate(staff, yearAgo) <= 100.0
    ensures staff == [] ==> RetentionRate(staff, yearAgo) == 0.0
    ensures RetentionRate(staff, yearAgo) == 0.0 <==> HiredBy(staff, yearAgo) == 0
    ensures staff != [] ==> (RetentionRate(staff, yearAgo) == 100.0 <==>
      forall i :: 0 <= i < |staff| ==> staff[i].hireDate.Some? && AtOrBefore(staff[i].hireDate.value, yearAgo))
  {
    Reports.RateBounds(HiredBy(staff, yearAgo), |staff|);
    AllHiredBy(staff, yearAgo);
  }

  lemma {:induction false} AllHiredBy(staff: seq<Staff>, yearAgo: Date)
    ensures HiredBy(staff, yearAgo) == |staff| <==>
      forall i :: 0 <= i < |staff| ==> staff[i].hireDate.Some? && AtOrBefore(staff[i].hireDate.value, yearAgo)
  {
    if staff != [] {
      AllHiredBy(staff[1..], yearAgo);
      assert forall i :: 1 <= i < |staff| ==> staff[i] == staff[1..][i - 1];
    }
  }
}
