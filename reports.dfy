/** The report queries: the CASE classifiers that put salaries and tenures into
    buckets, the GROUP BY / ORDER BY around them, the retention rate, average tenure,
    skill shares, monthly hiring counts and the department growth rate.  Every value
    the database computes from the clock (`CURDATE()`, a date twelve months back) is a
    parameter; a tenure is its `DATEDIFF` in whole days. */
module Reports {
  import opened Wrappers
  import opened Dates
  import opened Sorting

  // ---------------------------------------------------------------------------
  // GROUP BY over a fixed list of buckets

  datatype Group<K> = Group(key: K, count: nat)

  function Keys<K>(r: seq<Group<K>>): (ks: seq<K>)
    ensures |ks| == |r|
    ensures forall i :: 0 <= i < |r| ==> ks[i] == r[i].key
  {
    seq(|r|, i requires 0 <= i < |r| => r[i].key)
  }

  /** One row per bucket of `order` that some value falls in, with its count, in the
      order of `order`. */
  function GroupCounts<K(==)>(values: seq<K>, order: seq<K>): seq<Group<K>> {
    if order == [] then []
    else if multiset(values)[order[0]] > 0 then
      [Group(order[0], multiset(values)[order[0]])] + GroupCounts(values, order[1..])
    else GroupCounts(values, order[1..])
  }

  /** Each row counts the values in its bucket, and a bucket has a row exactly when it
      is listed and some value falls in it. */
  lemma {:induction false} GroupCountsRows<K>(values: seq<K>, order: seq<K>)
    ensures forall i :: 0 <= i < |GroupCounts(values, order)| ==>
      GroupCounts(values, order)[i].count == multiset(values)[GroupCounts(values, order)[i].key]
    ensures forall i :: 0 <= i < |GroupCounts(values, order)| ==> GroupCounts(values, order)[i].count > 0
    ensures forall i :: 0 <= i < |GroupCounts(values, order)| ==> GroupCounts(values, order)[i].key in order
    ensures forall k :: k in Keys(GroupCounts(values, order)) <==> k in order && k in values
  {
    if order != [] {
      var tail := order[1..];
      GroupCountsRows(values, tail);
      var rest := GroupCounts(values, tail);
      assert forall k :: k in order <==> k == order[0] || k in tail by {
        assert order == [order[0]] + tail;
      }
      assert forall k :: k in values <==> multiset(values)[k] > 0;
      if multiset(values)[order[0]] > 0 {
        var r := GroupCounts(values, order);
        assert r == [Group(order[0], multiset(values)[order[0]])] + rest;
        assert Keys(r) == [order[0]] + Keys(rest);
        forall i | 0 <= i < |r|
          ensures r[i].count == multiset(values)[r[i].key] && r[i].count > 0 && r[i].key in order
        {
          if i > 0 { assert r[i] == rest[i - 1]; }
        }
      }
    }
  }

  /** The rows come in the order of `order`: when the buckets are listed by rank, the
      rows' ranks strictly increase. */
  lemma {:induction false} GroupCountsOrdered<K>(values: seq<K>, order: seq<K>, rank: K -> int)
    requires forall i, j :: 0 <= i < j < |order| ==> rank(order[i]) < rank(order[j])
    ensures forall i, j :: 0 <= i < j < |GroupCounts(values, order)| ==>
      rank(GroupCounts(values, order)[i].key) < rank(GroupCounts(values, order)[j].key)
  {
    if order != [] {
      var tail := order[1..];
      assert forall i, j :: 0 <= i < j < |tail| ==> rank(tail[i]) < rank(tail[j]) by {
        forall i, j | 0 <= i < j < |tail| ensures rank(tail[i]) < rank(tail[j]) {
          assert tail[i] == order[i + 1] && tail[j] == order[j + 1];
        }
      }
      GroupCountsOrdered(values, tail, rank);
      GroupCountsRows(values, tail);
      var rest := GroupCounts(values, tail);
      forall i | 0 <= i < |rest| ensures rank(order[0]) < rank(rest[i].key) {
        assert rest[i].key in tail;
        var j :| 0 <= j < |tail| && tail[j] == rest[i].key;
        assert tail[j] == order[j + 1];
      }
      if multiset(values)[order[0]] > 0 {
        var r := GroupCounts(values, order);
        assert r == [Group(order[0], multiset(values)[order[0]])] + rest;
        forall i, j | 0 <= i < j < |r| ensures rank(r[i].key) < rank(r[j].key) {
          assert r[j] == rest[j - 1];
          if i > 0 { assert r[i] == rest[i - 1]; } else { assert rank(order[0]) < rank(rest[j - 1].key); }
        }
      }
    }
  }

  // ---------------------------------------------------------------------------
  // Salary distribution (the salary-analysis report)

  datatype SalaryRange = From30To40 | From40To60 | From60To80 | From80To100 | Above100 | OtherSalary

  /** The CASE of the salary distribution, first match wins; BETWEEN is inclusive at
      both ends. */
  function SalaryRangeOf(salary: real): SalaryRange {
    if 30000.0 <= salary <= 40000.0 then From30To40
    else if 40001.0 <= salary <= 60000.0 then From40To60
    else if 60001.0 <= salary <= 80000.0 then From60To80
    else if 80001.0 <= salary <= 100000.0 then From80To100
    else if salary > 100000.0 then Above100
    else OtherSalary
  }

  function SalaryRangeLabel(r: SalaryRange): string {
    match r
    case From30To40 => "30K-40K"
    case From40To60 => "40K-60K"
    case From60To80 => "60K-80K"
    case From80To100 => "80K-100K"
    case Above100 => "100K+"
    case OtherSalary => "Other"
  }

  /** "Other" takes everything below 30000 and the gaps the bounds leave between
      consecutive ranges: a salary strictly between 40000 and 40001, 60000 and 60001,
      or 80000 and 80001. */
  lemma SalaryOtherIff(salary: real)
    ensures SalaryRangeOf(salary) == OtherSalary <==>
      salary < 30000.0 || 40000.0 < salary < 40001.0 || 60000.0 < salary < 60001.0
      || 80000.0 < salary < 80001.0
  {
  }

  /** A whole-number salary is "Other" exactly when it is below 30000; from 30000 on
      the ranges cover every whole number. */
  lemma WholeSalaryRanges(salary: int)
    ensures SalaryRangeOf(salary as real) == OtherSalary <==> salary < 30000
    ensures SalaryRangeOf(salary as real) == From40To60 <==> 40001 <= salary <= 60000
  {
    SalaryOtherIff(salary as real);
  }

  /** A salary row: its range, how many salaries fall in it and the smallest of them. */
  datatype SalaryRow = SalaryRow(range: SalaryRange, count: nat, minSalary: real)

  /** `WHERE salary IS NOT NULL AND salary > 0`. */
  function PositiveSalaries(salaries: seq<Option<real>>): (r: seq<real>)
    ensures forall i :: 0 <= i < |r| ==> r[i] > 0.0
    ensures forall x :: x in r <==> Some(x) in salaries && x > 0.0
  {
    if salaries == [] then []
    else
      var rest := PositiveSalaries(salaries[1..]);
      assert forall o :: o in salaries <==> o == salaries[0] || o in salaries[1..] by {
        assert salaries == [salaries[0]] + salaries[1..];
      }
      if salaries[0].Some? && salaries[0].value > 0.0 then [salaries[0].value] + rest else rest
  }

  /** The salaries in one range. */
  function InRange(salaries: seq<real>, range: SalaryRange): (r: seq<real>)
    ensures |r| <= |salaries|
    ensures forall x :: x in r <==> x in salaries && SalaryRangeOf(x) == range
  {
    if salaries == [] then []
    else
      var rest := InRange(salaries[1..], range);
      assert forall x :: x in salaries <==> x == salaries[0] || x in salaries[1..] by {
        assert salaries == [salaries[0]] + salaries[1..];
      }
      if SalaryRangeOf(salaries[0]) == range then [salaries[0]] + rest else rest
  }

  /** The smallest element of a non-empty sequence. */
  function Minimum(s: seq<real>): (m: real)
    requires s != []
    ensures m in s && forall x :: x in s ==> m <= x
  {
    if |s| == 1 then s[0]
    else
      var rest := Minimum(s[1..]);
      assert forall x :: x in s ==> x == s[0] || x in s[1..] by { assert s == [s[0]] + s[1..]; }
      if s[0] <= rest then s[0] else rest
  }

  /** The range of each salary, in order: the CASE column the query groups by. */
  function RangesOf(salaries: seq<real>): (r: seq<SalaryRange>)
    ensures |r| == |salaries|
    ensures forall i :: 0 <= i < |r| ==> r[i] == SalaryRangeOf(salaries[i])
  {
    seq(|salaries|, i requires 0 <= i < |salaries| => SalaryRangeOf(salaries[i]))
  }

  /** `COUNT(*)` of a range's group is the number of salaries in that range. */
  lemma {:induction false} RangeCount(salaries: seq<real>, range: SalaryRange)
    ensures multiset(RangesOf(salaries))[range] == |InRange(salaries, range)|
  {
    if salaries != [] {
      RangeCount(salaries[1..], range);
      assert RangesOf(salaries) == [SalaryRangeOf(salaries[0])] + RangesOf(salaries[1..]);
    }
  }

  const AllSalaryRanges := [From30To40, From40To60, From60To80, From80To100, Above100, OtherSalary]

  /** The GROUP BY's rows with `MIN(salary)` of each group. */
  function SalaryRows(salaries: seq<real>, groups: seq<Group<SalaryRange>>): (r: seq<SalaryRow>)
    ensures |r| == |groups|
    ensures forall i :: 0 <= i < |r| ==> r[i].range == groups[i].key && r[i].count == groups[i].count
  {
    seq(|groups|, i requires 0 <= i < |groups| =>
      var ss := InRange(salaries, groups[i].key);
      SalaryRow(groups[i].key, groups[i].count, if ss == [] then 0.0 else Minimum(ss)))
  }

  function RowRanges(rows: seq<SalaryRow>): (r: seq<SalaryRange>)
    ensures |r| == |rows|
    ensures forall i :: 0 <= i < |r| ==> r[i] == rows[i].range
  {
    seq(|rows|, i requires 0 <= i < |rows| => rows[i].range)
  }

  /** A row whose count is the number of salaries in its range, at least one, and
      whose minimum is the smallest of them. */
  predicate RowCountsRange(salaries: seq<real>, row: SalaryRow) {
    var ss := InRange(salaries, row.range);
    ss != [] && row.count == |ss| && row.minSalary == Minimum(ss)
  }

  /** The salary distribution: a row for each range that holds a positive salary, with
      its count, ordered by the smallest salary in it (`ORDER BY MIN(salary)`). */
  function SalaryDistribution(salaries: seq<Option<real>>): seq<SalaryRow> {
    var ps := PositiveSalaries(salaries);
    SortBy(SalaryRows(ps, GroupCounts(RangesOf(ps), AllSalaryRanges)), (row: SalaryRow) => row.minSalary)
  }

  /** The position of a range in the CASE. */
  function SalaryRangeRank(g: SalaryRange): int {
    match g
    case From30To40 => 0
    case From40To60 => 1
    case From60To80 => 2
    case From80To100 => 3
    case Above100 => 4
    case OtherSalary => 5
  }

  /** The GROUP BY's rows before the ORDER BY. */
  function GroupedRows(ps: seq<real>): seq<SalaryRow> {
    SalaryRows(ps, GroupCounts(RangesOf(ps), AllSalaryRanges))
  }

  /** Every grouped row counts its range. */
  lemma GroupedRowsCount(ps: seq<real>)
    ensures forall row :: row in GroupedRows(ps) ==> RowCountsRange(ps, row)
  {
    var groups := GroupCounts(RangesOf(ps), AllSalaryRanges);
    var rows := GroupedRows(ps);
    GroupCountsRows(RangesOf(ps), AllSalaryRanges);
    forall row | row in rows ensures RowCountsRange(ps, row) {
      var i :| 0 <= i < |rows| && rows[i] == row;
      RangeCount(ps, groups[i].key);
    }
  }

  /** Every range holding a salary has a grouped row. */
  lemma GroupedRowsCover(ps: seq<real>, g: SalaryRange)
    requires InRange(ps, g) != []
    ensures g in RowRanges(GroupedRows(ps))
  {
    var groups := GroupCounts(RangesOf(ps), AllSalaryRanges);
    GroupCountsRows(RangesOf(ps), AllSalaryRanges);
    RangeCount(ps, g);
    assert g in RangesOf(ps);
    assert g in Keys(groups);
    var i :| 0 <= i < |groups| && Keys(groups)[i] == g;
    assert RowRanges(GroupedRows(ps))[i] == g;
  }

  /** No range has two grouped rows: they follow the CASE's order. */
  lemma GroupedRowsDistinct(ps: seq<real>)
    ensures var rows := GroupedRows(ps);
      forall i, j :: 0 <= i < j < |rows| ==> SalaryRangeRank(rows[i].range) < SalaryRangeRank(rows[j].range)
  {
    GroupCountsOrdered(RangesOf(ps), AllSalaryRanges, SalaryRangeRank);
  }

  /** The ORDER BY keeps the rows (as a multiset) and puts them in order. */
  lemma {:induction false} SalaryDistributionRows(salaries: seq<Option<real>>, row: SalaryRow)
    ensures row in SalaryDistribution(salaries) <==> row in GroupedRows(PositiveSalaries(salaries))
  {
    var rows := SalaryDistribution(salaries);
    var unsorted := GroupedRows(PositiveSalaries(salaries));
    assert multiset(rows) == multiset(unsorted);
    assert row in rows <==> row in multiset(rows);
    assert row in unsorted <==> row in multiset(unsorted);
  }

  /** Each row counts the positive salaries in its range, every range that holds one
      has a row, and the rows go up by their smallest salary. */
  lemma SalaryDistributionSpec(salaries: seq<Option<real>>)
    ensures var rows := SalaryDistribution(salaries);
      var ps := PositiveSalaries(salaries);
      && (forall row :: row in rows ==> RowCountsRange(ps, row))
      && (forall g :: InRange(ps, g) != [] ==> g in RowRanges(rows))
      && (forall i, j :: 0 <= i < j < |rows| ==> rows[i].minSalary <= rows[j].minSalary)
  {
    var ps := PositiveSalaries(salaries);
    var unsorted := GroupedRows(ps);
    var rows := SalaryDistribution(salaries);
    GroupedRowsCount(ps);
    forall row | row in rows ensures RowCountsRange(ps, row) {
      SalaryDistributionRows(salaries, row);
    }
    forall g | InRange(ps, g) != [] ensures g in RowRanges(rows) {
      GroupedRowsCover(ps, g);
      var j :| 0 <= j < |unsorted| && RowRanges(unsorted)[j] == g;
      SalaryDistributionRows(salaries, unsorted[j]);
      var i :| 0 <= i < |rows| && rows[i] == unsorted[j];
      assert RowRanges(rows)[i] == g;
    }
  }
  // ---------------------------------------------------------------------------
  // The salary-analysis handler

  /** What `GET /reports/salary-analysis` answers: the distribution (the statistics
      beside it are not modelled), or status 500 with an error message. */
  datatype SalaryReply = SalaryReport(distribution: seq<SalaryRow>) | SalaryReportFailed(error: string)

  const SalaryReportError := "Failed to fetch salary analysis"

  /** The handler as written: its statistics query computes `LIMIT` and `OFFSET` with
      subqueries, which MySQL's grammar refuses, so the first query throws whatever the
      table holds, the distribution query is never sent, and the catch answers 500. */
  function SalaryReplyAsWritten(salaries: seq<Option<real>>): SalaryReply {
    SalaryReportFailed(SalaryReportError)
  }

  /** The handler with a median MySQL accepts, as evidently intended: the distribution
      is returned. */
  function SalaryReplyOf(salaries: seq<Option<real>>): SalaryReply {
    SalaryReport(SalaryDistribution(salaries))
  }

  /** Whenever a positive salary exists, the intended reply lists its range, and the
      as-written handler answers the error instead. */
  lemma SalaryReplyAsWrittenLoses(salaries: seq<Option<real>>, x: real)
    requires Some(x) in salaries && x > 0.0
    ensures SalaryReplyAsWritten(salaries) == SalaryReportFailed(SalaryReportError)
    ensures SalaryReplyOf(salaries).SalaryReport?
    ensures SalaryRangeOf(x) in RowRanges(SalaryReplyOf(salaries).distribution)
  {
    var ps := PositiveSalaries(salaries);
    assert x in InRange(ps, SalaryRangeOf(x));
    SalaryDistributionSpec(salaries);
  }

  /** One salary of 50000 is enough: as written the handler fails, the intended one
      reports the 40K-60K range. */
  lemma SalaryReplyAsWrittenFails()
    ensures SalaryReplyAsWritten([Some(50000.0)]).SalaryReportFailed?
    ensures From40To60 in RowRanges(SalaryReplyOf([Some(50000.0)]).distribution)
  {
    SalaryReplyAsWrittenLoses([Some(50000.0)], 50000.0);
  }


  // ---------------------------------------------------------------------------
  // Tenure (the tenure-analysis report, and the same CASE in the controller)

  /** Integer division rounded half away from zero, as MySQL rounds a quotient to the
      scale it keeps. */
  function DivRound(n: int, k: int): int
    requires k > 0
  {
    if n >= 0 then (2 * n + k) / (2 * k) else -((2 * -n + k) / (2 * k))
  }

  /** `DATEDIFF(...) / 365` as MySQL computes it: an exact decimal with four digits
      after the point, kept here in ten-thousandths of a year. */
  function YearsScaled(days: int): int {
    DivRound(days * 10000, 365)
  }

  datatype TenureBucket = UnderOne | OneToThree | ThreeToFive | FiveToTen | TenPlus | UnknownTenure

  /** The tenure CASE, first match wins, on the four-decimal quotient; BETWEEN is
      inclusive at both ends. */
  function TenureBucketOf(days: int): TenureBucket {
    var y := YearsScaled(days);
    if y < 10000 then UnderOne
    else if 10000 <= y <= 30000 then OneToThree
    else if 30000 <= y <= 50000 then ThreeToFive
    else if 50000 <= y <= 100000 then FiveToTen
    else if y >= 100000 then TenPlus
    else UnknownTenure
  }

  function TenureLabel(b: TenureBucket): string {
    match b
    case UnderOne => "0-1 years"
    case OneToThree => "1-3 years"
    case ThreeToFive => "3-5 years"
    case FiveToTen => "5-10 years"
    case TenPlus => "10+ years"
    case UnknownTenure => "Unknown"
  }

  /** The ORDER BY's rank of a bucket. */
  function TenureRank(b: TenureBucket): int {
    match b
    case UnderOne => 1
    case OneToThree => 2
    case ThreeToFive => 3
    case FiveToTen => 4
    case TenPlus => 5
    case UnknownTenure => 6
  }

  /** Whole days against the bucket bounds: a year is 365 days, and the four-decimal
      rounding never moves a whole number of days across a bound. */
  lemma TenureDayBounds(days: int)
    ensures TenureBucketOf(days) == UnderOne <==> days < 365
    ensures TenureBucketOf(days) == OneToThree <==> 365 <= days <= 1095
    ensures TenureBucketOf(days) == ThreeToFive <==> 1096 <= days <= 1825
    ensures TenureBucketOf(days) == FiveToTen <==> 1826 <= days <= 3650
    ensures TenureBucketOf(days) == TenPlus <==> days > 3650
  {
    var y := YearsScaled(days);
    if days >= 0 {
      assert y == (20000 * days + 365) / 730;
    }
  }

  /** A known hire date is never "Unknown", and exactly 3, 5 or 10 years fall in the
      lower of the two buckets that share the bound. */
  lemma TenureBoundsGoLow()
    ensures forall days: int :: TenureBucketOf(days) != UnknownTenure
    ensures TenureBucketOf(3 * 365) == OneToThree
    ensures TenureBucketOf(5 * 365) == ThreeToFive
    ensures TenureBucketOf(10 * 365) == FiveToTen
  {
    forall days: int ensures TenureBucketOf(days) != UnknownTenure {
      TenureDayBounds(days);
    }
    TenureDayBounds(3 * 365);
    TenureDayBounds(5 * 365);
    TenureDayBounds(10 * 365);
  }

  /** `WHERE hire_date IS NOT NULL`: the tenures in days of the employees with a hire
      date. */
  function KnownDays(days: seq<Option<int>>): (r: seq<int>)
    ensures |r| <= |days|
    ensures r == [] <==> forall i :: 0 <= i < |days| ==> days[i].None?
    ensures forall d :: d in r <==> Some(d) in days
  {
    if days == [] then []
    else
      var rest := KnownDays(days[1..]);
      assert forall o :: o in days <==> o == days[0] || o in days[1..] by {
        assert days == [days[0]] + days[1..];
      }
      if days[0].Some? then [days[0].value] + rest else rest
  }

  function TenureBucketsOf(days: seq<int>): (r: seq<TenureBucket>)
    ensures |r| == |days|
    ensures forall i :: 0 <= i < |r| ==> r[i] == TenureBucketOf(days[i])
  {
    seq(|days|, i requires 0 <= i < |days| => TenureBucketOf(days[i]))
  }

  const AllTenureBuckets := [UnderOne, OneToThree, ThreeToFive, FiveToTen, TenPlus, UnknownTenure]

  /** The tenure report: one row per bucket holding an employee, with its count. */
  function TenureAnalysis(days: seq<Option<int>>): seq<Group<TenureBucket>> {
    GroupCounts(TenureBucketsOf(KnownDays(days)), AllTenureBuckets)
  }

  /** Every bucket is one the report lists. */
  lemma ListedBucket(b: TenureBucket)
    ensures b in AllTenureBuckets
  {
    assert AllTenureBuckets[TenureRank(b) - 1] == b;
  }

  /** Each row counts the employees with a hire date whose tenure falls in its bucket,
      every non-empty bucket has a row, the rows follow the bucket rank rather than
      the labels' alphabetical order, and "Unknown" never appears. */
  lemma TenureAnalysisSpec(days: seq<Option<int>>)
    ensures var r := TenureAnalysis(days);
      var bs := TenureBucketsOf(KnownDays(days));
      && (forall i :: 0 <= i < |r| ==> r[i].count == multiset(bs)[r[i].key])
      && (forall b :: b in Keys(r) <==> b in bs)
      && (forall i, j :: 0 <= i < j < |r| ==> TenureRank(r[i].key) < TenureRank(r[j].key))
      && UnknownTenure !in Keys(r)
  {
    var bs := TenureBucketsOf(KnownDays(days));
    GroupCountsRows(bs, AllTenureBuckets);
    GroupCountsOrdered(bs, AllTenureBuckets, TenureRank);
    forall b | b in bs ensures b in AllTenureBuckets {
      ListedBucket(b);
    }
    TenureBoundsGoLow();
  }

  // ---------------------------------------------------------------------------
  // Retention rate and average tenure (the performance-metrics report)

  /** `COUNT(CASE WHEN DATEDIFF(...) > 365 THEN 1 END)`: a missing hire date counts
      as not having stayed. */
  function StayedOverYear(days: seq<Option<int>>): (n: nat)
    ensures n <= |days|
  {
    if days == [] then 0
    else (if days[0].Some? && days[0].value > 365 then 1 else 0) + StayedOverYear(days[1..])
  }

  /** The share of staying employees in percent, or 0 with no employees. */
  function Rate(part: nat, total: nat): real {
    if total > 0 then part as real / total as real * 100.0 else 0.0
  }

  /** A share of a total is a percentage: between 0 and 100, 0 when nothing counts and
      100 when everything does. */
  lemma RateBounds(part: nat, total: nat)
    requires part <= total
    ensures 0.0 <= Rate(part, total) <= 100.0
    ensures Rate(part, total) == 0.0 <==> part == 0
    ensures total > 0 ==> (Rate(part, total) == 100.0 <==> part == total)
  {
    if total > 0 {
      var q := part as real / total as real;
      assert q * total as real == part as real;
      assert 0.0 <= q <= 1.0;
      assert q == 1.0 <==> part == total;
    }
  }

  /** The report's retention rate: the employees with more than 365 days over all
      employees, including those without a hire date. */
  function RetentionRate(days: seq<Option<int>>): real {
    Rate(StayedOverYear(days), |days|)
  }

  /** The retention rate is a percentage; it is 0 with no employees, and 100 exactly
      when every employee has stayed more than a year. */
  lemma RetentionRateBounds(days: seq<Option<int>>)
    ensures 0.0 <= RetentionRate(days) <= 100.0
    ensures days == [] ==> RetentionRate(days) == 0.0
    ensures days != [] ==>
      (RetentionRate(days) == 100.0 <==> forall i :: 0 <= i < |days| ==> days[i].Some? && days[i].value > 365)
  {
    RateBounds(StayedOverYear(days), |days|);
    AllStayed(days);
  }

  /** Everyone is counted as staying exactly when every hire date is more than 365
      days back. */
  lemma {:induction false} AllStayed(days: seq<Option<int>>)
    ensures StayedOverYear(days) == |days| <==> forall i :: 0 <= i < |days| ==> days[i].Some? && days[i].value > 365
  {
    if days != [] {
      AllStayed(days[1..]);
      assert forall i :: 1 <= i < |days| ==> days[i] == days[1..][i - 1];
    }
  }

  function Sum(xs: seq<int>): int {
    if xs == [] then 0 else xs[0] + Sum(xs[1..])
  }

  function ScaledYears(days: seq<int>): (r: seq<int>)
    ensures |r| == |days|
    ensures forall i :: 0 <= i < |r| ==> r[i] == YearsScaled(days[i])
  {
    seq(|days|, i requires 0 <= i < |days| => YearsScaled(days[i]))
  }

  /** `AVG(DATEDIFF(...) / 365) || 0`: the mean of the four-decimal tenures in years
      over the employees with a hire date, and 0 when there are none. */
  function AverageTenure(days: seq<Option<int>>): (r: real)
    ensures (forall i :: 0 <= i < |days| ==> days[i].None?) ==> r == 0.0
  {
    var known := KnownDays(days);
    if known == [] then 0.0 else Sum(ScaledYears(known)) as real / 10000.0 / |known| as real
  }

  /** A sum of terms that each lie between two bounds lies between n times each. */
  lemma {:induction false} SumBounds(xs: seq<int>, lo: int, hi: int)
    requires forall i :: 0 <= i < |xs| ==> lo <= xs[i] <= hi
    ensures |xs| * lo <= Sum(xs) <= |xs| * hi
  {
    if xs != [] {
      var tail := xs[1..];
      assert forall i :: 0 <= i < |tail| ==> tail[i] == xs[i + 1];
      SumBounds(tail, lo, hi);
      assert |xs| * lo == |tail| * lo + lo;
      assert |xs| * hi == |tail| * hi + hi;
    }
  }

  /** The average tenure lies between the shortest and the longest tenure in years: if
      every known tenure is between `lo` and `hi` ten-thousandths of a year, so is the
      average. */
  lemma AverageTenureBounds(days: seq<Option<int>>, lo: int, hi: int)
    requires forall d :: Some(d) in days ==> lo <= YearsScaled(d) <= hi
    requires exists d :: Some(d) in days
    ensures lo as real / 10000.0 <= AverageTenure(days) <= hi as real / 10000.0
  {
    var known := KnownDays(days);
    var xs := ScaledYears(known);
    assert forall i :: 0 <= i < |xs| ==> lo <= xs[i] <= hi by {
      forall i | 0 <= i < |xs| ensures lo <= xs[i] <= hi {
        assert known[i] in known;
      }
    }
    SumBounds(xs, lo, hi);
    var d :| Some(d) in days;
    assert d in known;
    MeanBounds(Sum(xs), |xs|, lo, hi);
  }

  /** Dividing n terms' sum by n keeps the per-term bounds. */
  lemma MeanBounds(sum: int, n: nat, lo: int, hi: int)
    requires n > 0 && n * lo <= sum <= n * hi
    ensures lo as real / 10000.0 <= sum as real / 10000.0 / n as real <= hi as real / 10000.0
  {
    var m := sum as real / n as real;
    assert m * n as real == sum as real;
    assert (n * lo) as real == n as real * lo as real;
    assert (n * hi) as real == n as real * hi as real;
    assert lo as real <= m <= hi as real;
    assert sum as real / 10000.0 / n as real == m / 10000.0;
  }

  // ---------------------------------------------------------------------------
  // Skill shares (the skills-analysis report)

  /** A row of the skills catalogue and a row of the employee-skill link table. */
  datatype CatalogueSkill = CatalogueSkill(id: int, name: string)
  datatype SkillLink = SkillLink(employeeId: int, skillId: int)

  /** A report row: the skill, how many links it has, and that count as a share of
      all employees in percent (`NULL` when there are no employees). */
  datatype SkillShare = SkillShare(skill: string, count: nat, percentage: Option<real>)

  /** `COUNT(es.employee_id)` of the LEFT JOIN: the links naming the skill. */
  function LinkCount(skillId: int, links: seq<SkillLink>): (n: nat)
    ensures n <= |links|
    ensures n == 0 <==> forall i :: 0 <= i < |links| ==> links[i].skillId != skillId
  {
    if links == [] then 0
    else
      var rest := LinkCount(skillId, links[1..]);
      assert forall i :: 1 <= i < |links| ==> links[i] == links[1..][i - 1];
      (if links[0].skillId == skillId then 1 else 0) + rest
  }

  /** `count * 100.0 / total`, which MySQL makes `NULL` when it divides by zero. */
  function Percentage(count: nat, total: nat): (p: Option<real>)
    ensures p.None? <==> total == 0
  {
    if total == 0 then None else Some(count as real * 100.0 / total as real)
  }

  /** No more links than employees gives a share between 0 and 100. */
  lemma PercentageBounds(count: nat, total: nat)
    requires count <= total && total > 0
    ensures 0.0 <= Percentage(count, total).value <= 100.0
  {
    var t := total as real;
    var p := count as real * 100.0 / t;
    assert p * t == count as real * 100.0;
  }

  /** The GROUP BY over the catalogue: one row per skill. */
  function SkillShares(skills: seq<CatalogueSkill>, links: seq<SkillLink>, employees: nat): (r: seq<SkillShare>)
    ensures |r| == |skills|
    ensures forall i :: 0 <= i < |r| ==>
      r[i] == SkillShare(skills[i].name, LinkCount(skills[i].id, links), Percentage(LinkCount(skills[i].id, links), employees))
  {
    seq(|skills|, i requires 0 <= i < |skills| =>
      var n := LinkCount(skills[i].id, links);
      SkillShare(skills[i].name, n, Percentage(n, employees)))
  }

  /** A row of the GROUP BY is a catalogue skill with its link count and share. */
  lemma ShareOfCatalogue(skills: seq<CatalogueSkill>, links: seq<SkillLink>, employees: nat, x: SkillShare)
    requires x in SkillShares(skills, links, employees)
    ensures exists k :: 0 <= k < |skills| && x.skill == skills[k].name && x.count == LinkCount(skills[k].id, links)
    ensures x.percentage.None? <==> employees == 0
  {
    var rows := SkillShares(skills, links, employees);
    var k :| 0 <= k < |rows| && rows[k] == x;
    assert x.skill == skills[k].name && x.count == LinkCount(skills[k].id, links);
  }

  /** `HAVING count > 0`. */
  function UsedSkills(rows: seq<SkillShare>): (r: seq<SkillShare>)
    ensures forall x :: x in r <==> x in rows && x.count > 0
  {
    if rows == [] then []
    else
      var rest := UsedSkills(rows[1..]);
      assert forall x :: x in rows <==> x == rows[0] || x in rows[1..] by {
        assert rows == [rows[0]] + rows[1..];
      }
      if rows[0].count > 0 then [rows[0]] + rest else rest
  }

  /** `ORDER BY count DESC LIMIT n`, ties kept in their original order. */
  function TopShares(rows: seq<SkillShare>, limit: nat): seq<SkillShare> {
    var sorted := SortBy(UsedSkills(rows), (x: SkillShare) => -(x.count as real));
    if |sorted| <= limit then sorted else sorted[..limit]
  }

  /** The top rows are the used rows up to `limit` of them, all taken from the input,
      and in descending count. */
  lemma TopSharesSpec(rows: seq<SkillShare>, limit: nat)
    ensures var r := TopShares(rows, limit);
      && |r| == (if |UsedSkills(rows)| <= limit then |UsedSkills(rows)| else limit)
      && (forall x :: x in r ==> x in rows && x.count > 0)
      && (forall i, j :: 0 <= i < j < |r| ==> r[i].count >= r[j].count)
  {
    var key := (x: SkillShare) => -(x.count as real);
    var sorted := SortBy(UsedSkills(rows), key);
    var r := TopShares(rows, limit);
    assert r == sorted[..|r|];
    forall x | x in r ensures x in rows && x.count > 0 {
      assert x in sorted;
      assert x in multiset(sorted);
    }
    forall i, j | 0 <= i < j < |r| ensures r[i].count >= r[j].count {
      assert key(sorted[i]) <= key(sorted[j]);
    }
  }

  /** The LIMIT cuts only the smallest counts: a used row left out has no larger count
      than any row kept. */
  lemma TopSharesCut(rows: seq<SkillShare>, limit: nat, x: SkillShare)
    requires x in rows && x.count > 0 && x !in TopShares(rows, limit)
    ensures forall i :: 0 <= i < |TopShares(rows, limit)| ==> TopShares(rows, limit)[i].count >= x.count
  {
    var key := (x: SkillShare) => -(x.count as real);
    var sorted := SortBy(UsedSkills(rows), key);
    var r := TopShares(rows, limit);
    assert r == sorted[..|r|];
    assert x in multiset(UsedSkills(rows));
    assert x in multiset(sorted);
    var k :| 0 <= k < |sorted| && sorted[k] == x;
    assert k >= |r|;
    forall i | 0 <= i < |r| ensures r[i].count >= x.count {
      assert key(sorted[i]) <= key(sorted[k]);
    }
  }

  /** The skills report: the ten skills with the most links, each with its share of
      all employees. */
  function SkillsAnalysis(skills: seq<CatalogueSkill>, links: seq<SkillLink>, employees: nat): seq<SkillShare> {
    TopShares(SkillShares(skills, links, employees), 10)
  }

  // ---------------------------------------------------------------------------
  // Hiring trends and monthly growth

  /** `WHERE hire_date >= cutoff` (which also drops missing dates): the month of each
      hire in the window. */
  function WindowMonths(hires: seq<Option<Date>>, cutoff: Date): (r: seq<int>)
    ensures |r| <= |hires|
    ensures forall m :: m in r <==> exists d :: Some(d) in hires && AtOrBefore(cutoff, d) && MonthIndex(d) == m
  {
    if hires == [] then []
    else
      var rest := WindowMonths(hires[1..], cutoff);
      assert forall o :: o in hires <==> o == hires[0] || o in hires[1..] by {
        assert hires == [hires[0]] + hires[1..];
      }
      if hires[0].Some? && AtOrBefore(cutoff, hires[0].value) then [MonthIndex(hires[0].value)] + rest else rest
  }

  predicate Increasing(s: seq<int>) {
    forall i, j :: 0 <= i < j < |s| ==> s[i] < s[j]
  }

  /** `m` added to an increasing list of distinct months, in place. */
  function InsertMonth(m: int, s: seq<int>): (r: seq<int>)
    requires Increasing(s)
    ensures Increasing(r)
    ensures forall x :: x in r <==> x == m || x in s
    ensures r != []
    ensures r[0] == m || (s != [] && r[0] == s[0])
  {
    if s == [] then [m]
    else if m < s[0] then [m] + s
    else if m == s[0] then s
    else
      var rest := InsertMonth(m, s[1..]);
      assert forall x :: x in s <==> x == s[0] || x in s[1..] by { assert s == [s[0]] + s[1..]; }
      assert forall j :: 0 <= j < |rest| ==> s[0] < rest[j];
      [s[0]] + rest
  }

  /** The distinct months, ascending: `GROUP BY ... ORDER BY month`. */
  function DistinctMonths(ms: seq<int>): (r: seq<int>)
    ensures Increasing(r)
    ensures forall x :: x in r <==> x in ms
  {
    if ms == [] then []
    else
      assert forall x :: x in ms <==> x == ms[0] || x in ms[1..] by { assert ms == [ms[0]] + ms[1..]; }
      InsertMonth(ms[0], DistinctMonths(ms[1..]))
  }

  /** Hires per month since the cutoff (twelve months back in the report, six in the
      controller's version). */
  function HiringTrends(hires: seq<Option<Date>>, cutoff: Date): seq<Group<int>> {
    var ms := WindowMonths(hires, cutoff);
    GroupCounts(ms, DistinctMonths(ms))
  }

  /** One row per month with a hire in the window, ascending by month, each counting
      that month's hires. */
  lemma HiringTrendsSpec(hires: seq<Option<Date>>, cutoff: Date)
    ensures var r := HiringTrends(hires, cutoff);
      var ms := WindowMonths(hires, cutoff);
      && (forall i :: 0 <= i < |r| ==> r[i].count == multiset(ms)[r[i].key] && r[i].count > 0)
      && (forall m :: m in Keys(r) <==> m in ms)
      && Increasing(Keys(r))
  {
    var ms := WindowMonths(hires, cutoff);
    GroupCountsRows(ms, DistinctMonths(ms));
    GroupCountsOrdered(ms, DistinctMonths(ms), (m: int) => m);
  }

  /** `(SELECT COUNT(*) ... WHERE hire_date <= LAST_DAY(month))`: every employee hired
      in or before the month. */
  function HiredBy(hires: seq<Option<Date>>, m: int): (n: nat)
    ensures n <= |hires|
  {
    if hires == [] then 0
    else (if hires[0].Some? && MonthIndex(hires[0].value) <= m then 1 else 0) + HiredBy(hires[1..], m)
  }

  /** The running total never goes down from one month to a later one. */
  lemma {:induction false} HiredByMonotone(hires: seq<Option<Date>>, m1: int, m2: int)
    requires m1 <= m2
    ensures HiredBy(hires, m1) <= HiredBy(hires, m2)
  {
    if hires != [] {
      HiredByMonotone(hires[1..], m1, m2);
    }
  }

  /** A month's hires in the window are among those hired by the month's end. */
  lemma {:induction false} WindowHiresCounted(hires: seq<Option<Date>>, cutoff: Date, m: int)
    ensures multiset(WindowMonths(hires, cutoff))[m] <= HiredBy(hires, m)
  {
    if hires != [] {
      WindowHiresCounted(hires[1..], cutoff, m);
      var rest := WindowMonths(hires[1..], cutoff);
      if hires[0].Some? && AtOrBefore(cutoff, hires[0].value) {
        assert multiset(WindowMonths(hires, cutoff)) == multiset{MonthIndex(hires[0].value)} + multiset(rest);
      }
    }
  }

  /** A row of the monthly growth: the month, its new hires and the running total. */
  datatype MonthGrowth = MonthGrowth(month: int, newHires: nat, totalEmployees: nat)

  function MonthlyGrowth(hires: seq<Option<Date>>, cutoff: Date): (r: seq<MonthGrowth>)
    ensures |r| == |HiringTrends(hires, cutoff)|
    ensures forall i :: 0 <= i < |r| ==>
      var g := HiringTrends(hires, cutoff)[i];
      r[i] == MonthGrowth(g.key, g.count, HiredBy(hires, g.key))
  {
    var rows := HiringTrends(hires, cutoff);
    seq(|rows|, i requires 0 <= i < |rows| => MonthGrowth(rows[i].key, rows[i].count, HiredBy(hires, rows[i].key)))
  }

  /** Each month's total includes its new hires, and the totals never go down along
      the ascending months. */
  lemma MonthlyGrowthSpec(hires: seq<Option<Date>>, cutoff: Date)
    ensures var r := MonthlyGrowth(hires, cutoff);
      && (forall i :: 0 <= i < |r| ==> r[i].newHires <= r[i].totalEmployees)
      && (forall i, j :: 0 <= i < j < |r| ==> r[i].month < r[j].month && r[i].totalEmployees <= r[j].totalEmployees)
  {
    var r := MonthlyGrowth(hires, cutoff);
    HiringTrendsSpec(hires, cutoff);
    var rows := HiringTrends(hires, cutoff);
    forall i | 0 <= i < |r| ensures r[i].newHires <= r[i].totalEmployees {
      WindowHiresCounted(hires, cutoff, rows[i].key);
    }
    forall i, j | 0 <= i < j < |r| ensures r[i].month < r[j].month && r[i].totalEmployees <= r[j].totalEmployees {
      assert Keys(rows)[i] < Keys(rows)[j];
      HiredByMonotone(hires, rows[i].key, rows[j].key);
    }
  }

  // ---------------------------------------------------------------------------
  // Department growth

  /** Hires on or after the cutoff six months back. */
  function RecentHires(hires: seq<Option<Date>>, cutoff: Date): (n: nat)
    ensures n <= |hires|
  {
    if hires == [] then 0
    else (if hires[0].Some? && AtOrBefore(cutoff, hires[0].value) then 1 else 0) + RecentHires(hires[1..], cutoff)
  }

  /** Hires before the cutoff. */
  function OlderHires(hires: seq<Option<Date>>, cutoff: Date): (n: nat)
    ensures n <= |hires|
    ensures n == 0 <==> forall i :: 0 <= i < |hires| ==> hires[i].None? || !Before(hires[i].value, cutoff)
  {
    if hires == [] then 0
    else
      var rest := OlderHires(hires[1..], cutoff);
      assert forall i :: 1 <= i < |hires| ==> hires[i] == hires[1..][i - 1];
      (if hires[0].Some? && Before(hires[0].value, cutoff) then 1 else 0) + rest
  }

  /** `recent / NULLIF(older, 0) * 100`. */
  function GrowthRate(hires: seq<Option<Date>>, cutoff: Date): (r: Option<real>)
    ensures r.None? <==> forall i :: 0 <= i < |hires| ==> hires[i].None? || !Before(hires[i].value, cutoff)
    ensures r.Some? ==> r.value >= 0.0
  {
    var older := OlderHires(hires, cutoff);
    if older == 0 then None else Some(RecentHires(hires, cutoff) as real / older as real * 100.0)
  }

  /** Every employee with a hire date is recent or older, never both; one without a
      hire date is neither. */
  lemma {:induction false} RecentAndOlder(hires: seq<Option<Date>>, cutoff: Date)
    ensures RecentHires(hires, cutoff) + OlderHires(hires, cutoff) == |KnownDates(hires)|
  {
    if hires != [] {
      RecentAndOlder(hires[1..], cutoff);
    }
  }

  function KnownDates(hires: seq<Option<Date>>): (r: seq<Date>)
    ensures |r| <= |hires|
  {
    if hires == [] then [] else (if hires[0].Some? then [hires[0].value] else []) + KnownDates(hires[1..])
  }

  /** A department and the hire dates of its employees (the LEFT JOIN). */
  datatype DepartmentHires = DepartmentHires(id: int, name: string, hires: seq<Option<Date>>)

  datatype DepartmentGrowthRow = DepartmentGrowthRow(
    id: int, department: string, recentHires: nat, totalEmployees: nat, growthRate: Option<real>)

  function GrowthRow(d: DepartmentHires, cutoff: Date): (r: DepartmentGrowthRow)
    ensures r.recentHires <= r.totalEmployees
  {
    DepartmentGrowthRow(d.id, d.name, RecentHires(d.hires, cutoff), |d.hires|, GrowthRate(d.hires, cutoff))
  }

  function GrowthRows(ds: seq<DepartmentHires>, cutoff: Date): (r: seq<DepartmentGrowthRow>)
    ensures |r| == |ds|
    ensures forall i :: 0 <= i < |r| ==> r[i] == GrowthRow(ds[i], cutoff)
  {
    seq(|ds|, i requires 0 <= i < |ds| => GrowthRow(ds[i], cutoff))
  }

  function WithRate(rows: seq<DepartmentGrowthRow>): (r: seq<DepartmentGrowthRow>)
    ensures forall x :: x in r <==> x in rows && x.growthRate.Some?
  {
    if rows == [] then []
    else
      var rest := WithRate(rows[1..]);
      assert forall x :: x in rows <==> x == rows[0] || x in rows[1..] by {
        assert rows == [rows[0]] + rows[1..];
      }
      if rows[0].growthRate.Some? then [rows[0]] + rest else rest
  }

  function WithoutRate(rows: seq<DepartmentGrowthRow>): (r: seq<DepartmentGrowthRow>)
    ensures forall x :: x in r <==> x in rows && x.growthRate.None?
  {
    if rows == [] then []
    else
      var rest := WithoutRate(rows[1..]);
      assert forall x :: x in rows <==> x == rows[0] || x in rows[1..] by {
        assert rows == [rows[0]] + rows[1..];
      }
      if rows[0].growthRate.None? then [rows[0]] + rest else rest
  }

  /** The sort key of `ORDER BY growth_rate DESC` over the rows with a rate. */
  function RateKey(x: DepartmentGrowthRow): real {
    if x.growthRate.Some? then -x.growthRate.value else 0.0
  }

  /** `ORDER BY growth_rate DESC`: MySQL puts `NULL` below every number, so the
      departments without a rate come last. */
  function RankByRate(rows: seq<DepartmentGrowthRow>): seq<DepartmentGrowthRow> {
    SortBy(WithRate(rows), RateKey) + WithoutRate(rows)
  }

  /** The department growth report. */
  function DepartmentGrowth(ds: seq<DepartmentHires>, cutoff: Date): seq<DepartmentGrowthRow> {
    RankByRate(GrowthRows(ds, cutoff))
  }

  /** The ORDER BY keeps exactly the departments with a rate in its sorted part. */
  lemma RatedRows(rows: seq<DepartmentGrowthRow>, x: DepartmentGrowthRow)
    ensures x in SortBy(WithRate(rows), RateKey) <==> x in rows && x.growthRate.Some?
  {
    var rated := SortBy(WithRate(rows), RateKey);
    assert x in rated <==> x in multiset(rated);
    assert x in WithRate(rows) <==> x in multiset(WithRate(rows));
  }

  /** Every department appears and every row is a department's. */
  lemma DepartmentGrowthRows(ds: seq<DepartmentHires>, cutoff: Date)
    ensures var r := DepartmentGrowth(ds, cutoff);
      && (forall d :: d in ds ==> GrowthRow(d, cutoff) in r)
      && (forall x :: x in r ==> x in GrowthRows(ds, cutoff))
  {
    var rows := GrowthRows(ds, cutoff);
    var rated := SortBy(WithRate(rows), RateKey);
    var r := DepartmentGrowth(ds, cutoff);
    assert r == rated + WithoutRate(rows);
    forall x ensures x in r <==> x in rows {
      RatedRows(rows, x);
    }
    forall d | d in ds ensures GrowthRow(d, cutoff) in r {
      var i :| 0 <= i < |ds| && ds[i] == d;
      assert rows[i] == GrowthRow(d, cutoff);
    }
  }

  /** The sorted part holds only rated rows, in descending rate. */
  lemma RatedDescending(rows: seq<DepartmentGrowthRow>)
    ensures forall k :: 0 <= k < |SortBy(WithRate(rows), RateKey)| ==> SortBy(WithRate(rows), RateKey)[k].growthRate.Some?
    ensures forall i, j :: 0 <= i < j < |SortBy(WithRate(rows), RateKey)| ==>
      SortBy(WithRate(rows), RateKey)[i].growthRate.value >= SortBy(WithRate(rows), RateKey)[j].growthRate.value
  {
    var rated := SortBy(WithRate(rows), RateKey);
    forall k | 0 <= k < |rated| ensures rated[k].growthRate.Some? {
      RatedRows(rows, rated[k]);
    }
    forall i, j | 0 <= i < j < |rated| ensures rated[i].growthRate.value >= rated[j].growthRate.value {
      assert RateKey(rated[i]) <= RateKey(rated[j]);
    }
  }

  /** The unsorted tail holds only rows without a rate. */
  lemma UnratedRows(rows: seq<DepartmentGrowthRow>)
    ensures forall k :: 0 <= k < |WithoutRate(rows)| ==> WithoutRate(rows)[k].growthRate.None?
  {
    var rest := WithoutRate(rows);
    forall k | 0 <= k < |rest| ensures rest[k].growthRate.None? {
      assert rest[k] in rest;
    }
  }

  /** The rated rows come first, in descending rate, and the others last. */
  lemma RankByRateOrdered(rows: seq<DepartmentGrowthRow>)
    ensures var r := RankByRate(rows);
      forall i, j :: 0 <= i < j < |r| && r[j].growthRate.Some? ==>
        r[i].growthRate.Some? && r[i].growthRate.value >= r[j].growthRate.value
  {
    var rated := SortBy(WithRate(rows), RateKey);
    var rest := WithoutRate(rows);
    var r := RankByRate(rows);
    assert r == rated + rest;
    RatedDescending(rows);
    UnratedRows(rows);
    forall i, j | 0 <= i < j < |r| && r[j].growthRate.Some?
      ensures r[i].growthRate.Some? && r[i].growthRate.value >= r[j].growthRate.value
    {
      if j < |rated| {
        assert r[i] == rated[i] && r[j] == rated[j];
      }
    }
  }

  /** The departments with a rate come first, in descending rate, and those without
      older hires last. */
  lemma DepartmentGrowthOrdered(ds: seq<DepartmentHires>, cutoff: Date)
    ensures var r := DepartmentGrowth(ds, cutoff);
      forall i, j :: 0 <= i < j < |r| && r[j].growthRate.Some? ==>
        r[i].growthRate.Some? && r[i].growthRate.value >= r[j].growthRate.value
  {
    RankByRateOrdered(GrowthRows(ds, cutoff));
  }
}
