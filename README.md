# EmployeeHub in Dafny

EmployeeHub is an HR application: an Express/MySQL backend that stores employees,
skills and the links between them, and a React frontend where HR staff and
managers list, add, edit and report on employees. This project models the parts
of it that make decisions, and proves what they do.

- **EmployeeRepository** (`employee_repository.dfy`) models the employee
  controller. The employees, skills and employee-skill tables are fields of a
  class `Database`, together with their auto-increment counters.
  - `createEmployee`, `updateEmployee` and `deleteEmployee` are methods. Create
    and update check the body before they write anything. All three restore the
    tables they touch when a statement fails, as the transaction's rollback does.
  - `getOrCreateSkillId` is a find-or-insert on the trimmed name. The skill-link
    loop is a `while` loop specified by a recursive function.
  - `getAllEmployees` is a method covering the `page`/`limit` defaults, the
    offset, the OR-search, `LIMIT … OFFSET`, the page count and the skills map
    built from one batch query.
- **EmployeeAnalytics** (`employee_analytics.dfy`) holds the report logic of the
  same controller:
  - the rank-based median and its `Math.round`;
  - the salary bands, totals, minimum and maximum;
  - the top fifteen skills of active employees;
  - the retention rate.
- **Reports** (`reports.dfy`) holds the classifiers and aggregates of the
  reports router:
  - the salary-range and tenure `CASE`s, each with `GROUP BY` and `ORDER BY`;
  - the retention rate and average tenure;
  - the skill percentages;
  - hiring trends and month-by-month growth;
  - the department growth rate with its `NULLIF` rule and `ORDER BY growth_rate DESC`.

  The controller's tenure handler runs the router's tenure query, modelled by
  `Reports.TenureAnalysis`. The controller's hiring-trends handler differs from
  the router's in two ways. Its window is six months rather than twelve. It
  groups by the `'%Y-%m'` month alone while also selecting the `'%M %Y'` name,
  which MySQL refuses (see "## Findings"). Its intended counts are
  `Reports.HiringTrends`, with the window's first day as a parameter.
- **EmployeeList** models the sort toggle, the full-name fallback and the
  page-number strip. The strip is a method with a loop, proved equal to a
  function whose shape is proved separately.
- **EmployeeForm** models the form component. Its state (`formData`,
  `skillSearchTerm`, `error`) lives in a class whose handlers are methods. The
  skill edits, the filter, the suggestion, `validateEmail` and the submit chain
  are functions, each with its laws.
- **AddEmployee** and **EditEmployee** model the two pages:
  - the normalisation of `dataToSubmit`, including every shape a skill entry can
    take;
  - the sixteen-check validation chain;
  - the mapping from HTTP status and server message to the text shown;
  - the `isSubmitting` guard.

  The edit page also models the transformation of the fetched record.
- **App** models `ProtectedRoute` and the route table. Paths are matched as
  React Router matches them: static segments without regard to case, and with any
  number of trailing slashes.
- Shared modules:
  - **Strings**: JavaScript's `trim`, `parseInt` (decimal, and hexadecimal after
    `0x`), `parseFloat`, `includes`, and `toLowerCase` on the ASCII letters;
  - **Validation**: the first-failure checks chain used by the forms;
  - **Sorting**: a stable `ORDER BY`;
  - **Dates** and **Wrappers**.

Some behaviours of the source are modelled as written, even though they may
surprise a reader:
- The salary-range `BETWEEN` bounds leave gaps, so 40000.5 falls in `Other`
  (`Reports.SalaryOtherIff`).
- Exactly three, five or ten years fall in the lower tenure bucket
  (`Reports.TenureBoundsGoLow`).
- The controller's salary bands have gaps just below each boundary
  (`EmployeeAnalytics.BandOtherIff`).
- Update reports success for an id that does not exist.
- The form's new-skill suggestion compares the untrimmed term against the
  catalogue (`EmployeeForm.SuggestionComparesUntrimmedTerm`).
- The salary analysis names a column `range`, a reserved word of MySQL; see
  "## Findings".

## Model

| member | source | states |
|---|---|---|
| EmployeeRepository.FindSkill | backend/controllers/employeeController.js:10-16 | The id found names a skill with that name. None is returned exactly when no row has the name. |
| EmployeeRepository.ResolveSpec | backend/controllers/employeeController.js:10-28 | For a name, the id returned names the trimmed name. An existing skill is reused, leaving the table and counter alone. Otherwise one row is appended under the counter's id. The table stays valid: ids increase, names are distinct. |
| EmployeeRepository.ResolveTwice | backend/controllers/employeeController.js:10-28 | Resolving the same name a second time returns the same id and adds no row. |
| EmployeeRepository.LookupExtends | backend/controllers/employeeController.js:10-28 | Find-or-insert only appends. The old table is a prefix of the new one, the counter never decreases, and the returned id names the looked-up name. |
| EmployeeRepository.SkillsValidDistinct | backend/controllers/employeeController.js:10-28 | In a table built by find-or-insert, ids increase, no two rows share an id or a name, and every id is below the counter. |
| EmployeeRepository.Database.GetOrCreateSkillId | backend/controllers/employeeController.js:10-28 | The method's new skills table, counter and returned id are those of the find-or-insert specification. |
| EmployeeRepository.LinkSpecSucceeds | backend/controllers/employeeController.js:182-190 | The skill loop fails exactly when some truthy entry is not a string, so `trim` throws. |
| EmployeeRepository.LinkSpecShape | backend/controllers/employeeController.js:182-190 | After a successful loop the old skills table is a prefix of the new one. There is one link per truthy string entry, in order. Every link is for this employee and names a skill with that entry's trimmed text. |
| EmployeeRepository.LinkSpecValid | backend/controllers/employeeController.js:182-190 | A successful loop leaves the skills table valid. |
| EmployeeRepository.LinkSpecFailed | backend/controllers/employeeController.js:182-196 | Once an entry throws, the whole loop fails, whatever follows it. |
| EmployeeRepository.Database.LinkSkills | backend/controllers/employeeController.js:182-190 | The loop method succeeds exactly when the specification does. On success it leaves the specification's skills table and counter, and the old links followed by the specification's links. |
| EmployeeRepository.Database.LinkName | backend/controllers/employeeController.js:183-189 | One string entry resolves its skill and appends exactly one link, as one step of the specification. |
| EmployeeRepository.OrNull | backend/controllers/employeeController.js:166-180 | `v \|\| null` is null exactly for a missing or empty value and otherwise keeps the value. |
| EmployeeRepository.StoredSalary | backend/controllers/employeeController.js:175 | `salary ? parseFloat(salary) : null` stores a number exactly when the salary is a finite non-zero value, and then stores that value. |
| EmployeeRepository.NewRowColumns | backend/controllers/employeeController.js:166-180 | The inserted row has the new id and the body's e-mail. Phone and status are left to the column defaults. Position and hire date are stored only when truthy. |
| EmployeeRepository.Database.Create | backend/controllers/employeeController.js:156-200 | A body missing a required field gets the validation message, and nothing is written and no counter moves. A refused insert, or a skill entry that throws, returns a server error with all three tables restored; the employee counter has still moved past the id the insert drew, and the skill counter never goes back. Otherwise the row is appended under the next id and the links are those of the loop specification; the answer is Created with that id. Table validity is preserved. |
| EmployeeRepository.OverwriteKeeps | backend/controllers/employeeController.js:215-230 | Update overwrites the seven columns from the body and keeps the id, phone and status. |
| EmployeeRepository.OverwriteRows | backend/controllers/employeeController.js:215-230 | Rows with the id are overwritten. Every other row, and the table's length, is unchanged. |
| EmployeeRepository.RemoveLinks | backend/controllers/employeeController.js:232 | A link stays exactly when it belongs to another employee. |
| EmployeeRepository.RemoveLinksKeepsOthers | backend/controllers/employeeController.js:232 | Deleting one employee's links leaves every other employee's links, in order. |
| EmployeeRepository.OthersKeepLinks | backend/controllers/employeeController.js:232-242 | Deleting an employee's links and inserting new ones for that employee leaves every other employee's links as they were. |
| EmployeeRepository.Database.Update | backend/controllers/employeeController.js:203-252 | A missing required field gives the validation message and writes nothing. A refused statement, or a skill entry that throws, gives a server error with all three tables restored. Otherwise the rows with the id are overwritten and the employee's links replaced by those of the loop specification. No employee counter moves, and validity is preserved. |
| EmployeeRepository.RemoveRows | backend/controllers/employeeController.js:262-263 | A row stays exactly when its id differs. |
| EmployeeRepository.RemoveRowsAffected | backend/controllers/employeeController.js:262-268 | The delete removes a row exactly when the id exists. When the id is absent the table is unchanged. |
| EmployeeRepository.RemoveRowsKeepsOrder | backend/controllers/employeeController.js:262-263 | Deleting rows keeps the ids increasing. |
| EmployeeRepository.Database.Delete | backend/controllers/employeeController.js:255-278 | A refused statement gives a server error, and a missing id gives "Employee not found"; in both cases every table and counter is unchanged. Otherwise the id's row and its links are removed and nothing else. |
| EmployeeRepository.FirstWithId | backend/controllers/employeeController.js:31-43 | None is returned exactly when no row has the id. Otherwise the result is a row of the table with that id. |
| EmployeeRepository.Database.GetEmployeeById | backend/controllers/employeeController.js:31-63 | A missing id gives "Employee not found". Otherwise the result is the row with its department name, full name and exactly its linked skill names. |
| EmployeeRepository.IntParam | backend/controllers/employeeController.js:71-72 | `parseInt(v) \|\| fallback` gives the fallback for a missing, unparsable or zero value and the parsed number otherwise, so it is never 0 when the fallback is not. A `0x` value is read in base 16. |
| EmployeeRepository.CeilDivBounds | backend/controllers/employeeController.js:104-105 | `Math.ceil(total / limit)` pages cover every row, one page fewer would not, and there are no pages exactly when there are no rows. |
| EmployeeRepository.Matching | backend/controllers/employeeController.js:78-93 | An empty term keeps every row. Otherwise a row is kept exactly when the term is a substring of its first name, last name, department name or position. |
| EmployeeRepository.EmailNotSearched | backend/controllers/employeeController.js:78-84 | Changing a row's e-mail never changes whether it matches. |
| EmployeeRepository.PageOf | backend/controllers/employeeController.js:86-93 | `LIMIT limit OFFSET offset` returns at most `limit` rows, the ones starting at the offset, and nothing past the end. |
| EmployeeRepository.BatchNames | backend/controllers/employeeController.js:107-123 | For every id on the page, the batch query's rows give that employee exactly the names of its own links, in link order. |
| EmployeeRepository.BuildSkillsMap | backend/controllers/employeeController.js:115-123 | The map built by the `forEach` has a key exactly for the ids with names, each mapped to all of its names in order. |
| EmployeeRepository.PageSkills | backend/controllers/employeeController.js:107-128 | Every employee on the page gets exactly its linked skill names from the map, and `[]` when it has none. |
| EmployeeRepository.Attach | backend/controllers/employeeController.js:125-128 | Each listed row keeps its columns and gets its department name, `first last` and its skills from the map. |
| EmployeeRepository.Database.ListEmployees | backend/controllers/employeeController.js:68-139 | A negative LIMIT or OFFSET is refused. Otherwise the answer carries the page, the limit, the total of matching rows and the ceiling page count. Each item describes the corresponding row of the page of matching rows, with exactly its skills. The items' ids strictly increase, or strictly decrease when descending order is asked for. |
| EmployeeRepository.MatchingKeepsOrder | backend/controllers/employeeController.js:78-84 | The search filter keeps the table's increasing id order. |
| EmployeeRepository.ReverseDecreasing | backend/controllers/employeeController.js:91 | `ORDER BY id DESC` over increasing ids gives strictly decreasing ids. |
| EmployeeRepository.PageKeepsOrder | backend/controllers/employeeController.js:91-93 | `LIMIT … OFFSET` keeps increasing and decreasing id orders. |
| EmployeeRepository.PageRowsOrdered | backend/controllers/employeeController.js:75-93 | A page's rows are in increasing id order by default and in decreasing id order when descending. |
| EmployeeAnalytics.ActiveSalaries | backend/controllers/employeeController.js:570-580 | The salaries kept are exactly the positive salaries of active employees. |
| EmployeeAnalytics.MiddleRanks | backend/controllers/employeeController.js:570-580 | The ranks ⌊(n+1)/2⌋ and ⌊(n+2)/2⌋ are the single middle rank for odd n, the two middle ranks for even n, and name no row for n = 0. |
| EmployeeAnalytics.AtRanksKept | backend/controllers/employeeController.js:570-580 | The row-number filter keeps exactly the values at the low and the high rank. |
| EmployeeAnalytics.MedianValue | backend/controllers/employeeController.js:570-580 | The median is NULL with no salaries. For odd n it is the middle value of the sorted salaries, and for even n the mean of the two middle values. |
| EmployeeAnalytics.MedianHalves | backend/controllers/employeeController.js:570-580 | The median lies above the lower half of the sorted salaries and below the upper half. |
| EmployeeAnalytics.JsRound | backend/controllers/employeeController.js:630 | `Math.round` lands within half a unit of its argument. |
| EmployeeAnalytics.MedianSalary | backend/controllers/employeeController.js:628-639 | With no salaries the reported median is 0. |
| EmployeeAnalytics.MedianSalaryWithin | backend/controllers/employeeController.js:628-639 | The rounded median lies between the smallest and the largest salary, give or take half a unit. |
| EmployeeAnalytics.Stats | backend/controllers/employeeController.js:558-567 | The total is the number of salaries. The minimum and maximum are salaries bounding all the others, and both are 0 when there are none. |
| EmployeeAnalytics.BandOtherIff | backend/controllers/employeeController.js:583-608 | A salary falls in no band exactly when it lies strictly between 59999 and 60000, 79999 and 80000, 99999 and 100000, or 119999 and 120000. |
| EmployeeAnalytics.WholeSalaryBands | backend/controllers/employeeController.js:583-608 | Every whole salary falls in a band. |
| EmployeeAnalytics.BandsFollowSalary | backend/controllers/employeeController.js:583-608 | A larger salary never falls in a lower band. |
| EmployeeAnalytics.InBand | backend/controllers/employeeController.js:583-605 | The salaries kept are exactly those in the band. |
| EmployeeAnalytics.BandCount | backend/controllers/employeeController.js:594-605 | A band occurs among the classified salaries as often as salaries fall in it. |
| EmployeeAnalytics.GroupedBandsCount | backend/controllers/employeeController.js:583-606 | Before the ORDER BY, each grouped row counts its band and holds its smallest salary. |
| EmployeeAnalytics.GroupedBandsCover | backend/controllers/employeeController.js:583-606 | Before the ORDER BY, every band holding a salary has a row. |
| EmployeeAnalytics.SalaryBandsRows | backend/controllers/employeeController.js:606-607 | The rows returned are exactly the grouped rows of the active salaries. |
| EmployeeAnalytics.SalaryBandsSpec | backend/controllers/employeeController.js:583-608 | Each band row counts the active salaries in that band and holds the smallest of them. A band is listed exactly when a salary falls in it. The rows are in ascending order of their minimum salary (`ORDER BY MIN(salary)`). |
| EmployeeAnalytics.AnalyseSalaries | backend/controllers/employeeController.js:554-639 | The total is the number of active positive salaries. With none, the median is 0 and the distribution is empty. |
| EmployeeAnalytics.SalaryAnswerAsWrittenFails | backend/controllers/employeeController.js:593-650 | As written, the handler answers the zeroed 500 fallback even for one active salaried employee, where the intended analysis counts that employee. |
| EmployeeAnalytics.SalaryAnswerAsWrittenLoses | backend/controllers/employeeController.js:593-650 | Whenever an active salary exists, the as-written answer differs from the intended one, whose total is the positive count of active salaries. |
| EmployeeAnalytics.TrendsAnswerAsWrittenLoses | backend/controllers/employeeController.js:526-549 | As written, the handler answers 500 with `[]` whatever the table holds. The intended answer lists the month of every hire in the window. |
| EmployeeAnalytics.TrendsAnswerAsWrittenFails | backend/controllers/employeeController.js:526-549 | For one hire in March 2024 with the window opening in January, the as-written handler fails where the intended one lists March. |
| EmployeeAnalytics.ActiveLinks | backend/controllers/employeeController.js:661-678 | A link is counted exactly when its employee is active. |
| EmployeeAnalytics.InactiveLinksIgnored | backend/controllers/employeeController.js:668-673 | No link of an inactive employee is counted. |
| EmployeeAnalytics.TopSkillsSpec | backend/controllers/employeeController.js:661-678 | There are fifteen rows, or one per used skill when fewer are used, in descending count. |
| EmployeeAnalytics.TopSkillsRows | backend/controllers/employeeController.js:661-678 | Each row is a catalogue skill with its count of active links, and that count is positive. Its share is NULL exactly when no employee is active. |
| EmployeeAnalytics.RetentionRateBounds | backend/controllers/employeeController.js:763-786 | The rate lies in [0, 100] and is 0 with no employees. It is 0 exactly when nobody was hired a year ago or earlier, and 100 exactly when everybody was. |
| EmployeeAnalytics.AllHiredBy | backend/controllers/employeeController.js:768-772 | Everyone is counted exactly when every hire date is known and a year ago or earlier. |
| Reports.GroupCountsRows | backend/routes/reports.js:102-111 | `GROUP BY` yields one row per key that occurs, counting its occurrences. |
| Reports.GroupCountsOrdered | backend/routes/reports.js:178-186 | Groups come out in the key order given by the `ORDER BY` rank. |
| Reports.SalaryOtherIff | backend/routes/reports.js:91-98 | A salary is 'Other' exactly when it is below 30000 or lies strictly inside one of the gaps (40000, 40001), (60000, 60001) or (80000, 80001). |
| Reports.WholeSalaryRanges | backend/routes/reports.js:91-98 | A whole salary is 'Other' exactly when it is below 30000, and is '40K-60K' exactly for 40001 to 60000. |
| Reports.PositiveSalaries | backend/routes/reports.js:100-101 | The salaries kept are exactly the known positive ones. |
| Reports.InRange | backend/routes/reports.js:91-98 | The salaries kept are exactly those in the range. |
| Reports.Minimum | backend/routes/reports.js:102-111 | `MIN(salary)` is one of the salaries and no larger than any other. |
| Reports.RangeCount | backend/routes/reports.js:102-111 | A range occurs among the classified salaries as often as salaries fall in it. |
| Reports.SalaryDistributionSpec | backend/routes/reports.js:89-111 | Every row counts the positive salaries of its range. Every range that holds a salary has a row. Rows are in ascending order of their minimum salary. |
| Reports.SalaryDistributionRows | backend/routes/reports.js:89-111 | The rows returned are exactly the grouped rows of the positive salaries. |
| Reports.SalaryReplyAsWrittenLoses | backend/routes/reports.js:64-121 | As written, the handler answers the 500 error whatever the table holds. The intended reply lists the range of every positive salary. |
| Reports.SalaryReplyAsWrittenFails | backend/routes/reports.js:64-121 | For one salary of 50000, the as-written handler fails where the intended one reports the 40K-60K range. |
| Reports.TenureDayBounds | backend/routes/reports.js:159-164 | In whole days: under 365 is '0-1 years', 365–1095 is '1-3', 1096–1825 is '3-5', 1826–3650 is '5-10', and over 3650 is '10+'. |
| Reports.TenureBoundsGoLow | backend/routes/reports.js:159-164 | No day count is 'Unknown'. Exactly 3, 5 and 10 years fall in the lower bucket. |
| Reports.KnownDays | backend/routes/reports.js:167-168 | `WHERE hire_date IS NOT NULL` keeps exactly the known day counts. |
| Reports.TenureAnalysisSpec | backend/routes/reports.js:155-186 | Each row counts the known hires in its bucket. The buckets listed are exactly those that occur, in rank order 0-1 < 1-3 < 3-5 < 5-10 < 10+, and 'Unknown' never appears. |
| Reports.StayedOverYear | backend/routes/reports.js:204-209 | No more employees are counted than exist. |
| Reports.AllStayed | backend/routes/reports.js:204-209 | Everybody is counted exactly when every hire date is known and more than 365 days old. |
| Reports.RateBounds | backend/routes/reports.js:217-221 | The ratio times 100 lies in [0, 100]. It is 0 exactly for no part, and 100 exactly for the whole. |
| Reports.RetentionRateBounds | backend/routes/reports.js:204-221 | The retention rate lies in [0, 100] and is 0 with no employees. It is 100 exactly when every employee stayed over a year. |
| Reports.AverageTenure | backend/routes/reports.js:212-222 | `AVG` over no known hire date is NULL, reported as 0. |
| Reports.AverageTenureBounds | backend/routes/reports.js:212-216 | The average tenure lies between the bounds of the individual tenures. |
| Reports.LinkCount | backend/routes/reports.js:130-136 | A skill's count never exceeds the links, and is 0 exactly when no link names it. |
| Reports.Percentage | backend/routes/reports.js:133 | The percentage is NULL exactly when there are no employees. |
| Reports.PercentageBounds | backend/routes/reports.js:133 | A count within the total gives a percentage in [0, 100]. |
| Reports.SkillShares | backend/routes/reports.js:130-136 | Every catalogue skill gets its link count and that count's percentage of the employees. |
| Reports.UsedSkills | backend/routes/reports.js:137 | `HAVING count > 0` keeps exactly the rows with a positive count. |
| Reports.ShareOfCatalogue | backend/routes/reports.js:130-137 | A grouped row is a catalogue skill with its link count. Its share is NULL exactly when there are no employees. |
| Reports.TopSharesSpec | backend/routes/reports.js:130-141 | Exactly `limit` rows, or every used row when there are fewer, all taken from the input, all with a positive count, in descending count. |
| Reports.TopSharesCut | backend/routes/reports.js:138-139 | A used skill left out by the LIMIT has a count no larger than any row kept. |
| Reports.WindowMonths | backend/routes/reports.js:42-52 | The months are exactly those of the known hire dates on or after the window's first day. |
| Reports.DistinctMonths | backend/routes/reports.js:50-51 | The grouped months are increasing and are exactly the months that occur. |
| Reports.HiringTrendsSpec | backend/routes/reports.js:42-52 | Each row counts the hires of its month in the window, and that count is positive. The months listed are exactly those with hires, in ascending order. |
| Reports.HiredByMonotone | backend/routes/reports.js:255-259 | The number hired by the end of a month never decreases with the month. |
| Reports.WindowHiresCounted | backend/routes/reports.js:253-259 | A month's new hires never exceed the number hired by that month's end. |
| Reports.MonthlyGrowth | backend/routes/reports.js:249-263 | One row per hiring-trends month, carrying its new hires and the number hired by that month's end. |
| Reports.MonthlyGrowthSpec | backend/routes/reports.js:249-263 | Each month's new hires are within its total. Months increase, and totals never decrease. |
| Reports.OlderHires | backend/routes/reports.js:272-276 | There are no older hires exactly when no hire date is before the cutoff. |
| Reports.GrowthRate | backend/routes/reports.js:272-277 | The growth rate is NULL exactly when the department has no hire before the cutoff, and is otherwise non-negative. |
| Reports.RecentAndOlder | backend/routes/reports.js:270-276 | Recent and older hires together are the department's hires with a known date. |
| Reports.GrowthRow | backend/routes/reports.js:266-281 | A department's recent hires never exceed its employees. |
| Reports.DepartmentGrowthRows | backend/routes/reports.js:266-281 | Every department has its row, and every row is some department's row. |
| Reports.RatedDescending | backend/routes/reports.js:280 | The rated rows come out in descending growth rate. |
| Reports.DepartmentGrowthOrdered | backend/routes/reports.js:266-281 | Rows with a rate come before rows without one, in descending rate: NULL sorts last under DESC. |
| Sorting.SortBy | backend/routes/reports.js:280 | `ORDER BY` returns a permutation of its rows in key order. |
| Sorting.InsertBy | backend/routes/reports.js:280 | Inserting into a sorted sequence keeps it sorted and adds exactly the new element. |
| Sorting.SortBySorted | backend/routes/reports.js:280 | Sorting rows already in order changes nothing. |
| Sorting.SortByIdempotent | backend/routes/reports.js:280 | Sorting twice is sorting once. |
| EmployeeList.HandleSort | frontend/src/pages/EmployeeList.jsx:132-137 | The new field is the clicked one. The order is 'desc' exactly when the same field was 'asc'. |
| EmployeeList.SortClicksAlternate | frontend/src/pages/EmployeeList.jsx:132-137 | Clicking the same field again flips the order, and a third click restores the first result. |
| EmployeeList.GetFullName | frontend/src/pages/EmployeeList.jsx:155-159 | The result is never empty. A non-blank "first last" gives that string trimmed. Otherwise the result is `employee.name` when it is non-empty, and 'N/A' when it is not. |
| EmployeeList.FullNameOfFirstNameOnly | frontend/src/pages/EmployeeList.jsx:155-159 | With only a first name without edge spaces, the full name is that first name. |
| EmployeeList.PageRun | frontend/src/pages/EmployeeList.jsx:387-389 | The loop's numbers are `lo`, `lo + 1`, …, `hi`, and there are none when `lo > hi`. |
| EmployeeList.GeneratePageNumbers | frontend/src/pages/EmployeeList.jsx:375-398 | The array built with `push` is the specified strip. |
| EmployeeList.PageStripShape | frontend/src/pages/EmployeeList.jsx:375-398 | The strip, in order: 1 when there are pages; '...' when the current page > 3; then max(2, cur−1)..min(total−1, cur+1); then '...' when cur < total−2; then the last page when total > 1. |
| EmployeeList.PageStripNumbersIncreasing | frontend/src/pages/EmployeeList.jsx:387-395 | The page numbers shown strictly increase, so none repeats, and each lies in [1, total]. |
| EmployeeList.PageStripSeparatorsApart | frontend/src/pages/EmployeeList.jsx:384-392 | Two ellipses are never adjacent. |
| EmployeeList.PageStripEllipses | frontend/src/pages/EmployeeList.jsx:384-392 | For a current page in [1, total], the leading ellipsis appears exactly when the current page > 3, and the trailing one exactly when cur < total−2. |
| EmployeeList.PageStripShowsCurrentPage | frontend/src/pages/EmployeeList.jsx:375-398 | A current page within range is always shown. |
| EmployeeForm.RemoveSkill | frontend/src/components/EmployeeForm.jsx:115-120 | Every occurrence of the skill is removed. Every other skill keeps its count and the order is kept. |
| EmployeeForm.SkillToggle | frontend/src/components/EmployeeForm.jsx:96-103 | A selected skill is removed everywhere, and an unselected one is appended at the end. |
| EmployeeForm.SkillToggleTwice | frontend/src/components/EmployeeForm.jsx:96-103 | Toggling an unselected skill twice restores the list. Toggling a selected one twice moves it to the end, once. |
| EmployeeForm.SkillAdd | frontend/src/components/EmployeeForm.jsx:105-113 | The skill is present afterwards. Exactly the old skills and it remain, and the list grows only when it was absent. |
| EmployeeForm.SkillAddKeepsDistinct | frontend/src/components/EmployeeForm.jsx:105-113 | Adding never introduces a duplicate. |
| EmployeeForm.RemoveSkillAppend | frontend/src/components/EmployeeForm.jsx:115-120 | Removal distributes over concatenation. |
| EmployeeForm.RemoveAbsentSkill | frontend/src/components/EmployeeForm.jsx:115-120 | Removing an absent skill changes nothing. |
| EmployeeForm.FilteredSkills | frontend/src/components/EmployeeForm.jsx:181-186 | The listed skills are exactly the catalogue names that contain the term ignoring case and are not selected, in catalogue order. |
| EmployeeForm.FilteredSkillsOfEmptyTerm | frontend/src/components/EmployeeForm.jsx:181-186 | An empty term lists every unselected catalogue skill. |
| EmployeeForm.NewSkillSuggestion | frontend/src/components/EmployeeForm.jsx:188-195 | The suggestion is the trimmed term. It is null exactly when the term is blank, equals a catalogue name ignoring case, or its trimmed form is already selected. |
| EmployeeForm.SuggestionIsNew | frontend/src/components/EmployeeForm.jsx:188-195 | A suggestion from a term without edge spaces matches no catalogue name ignoring case, and adding it grows the selection. |
| EmployeeForm.SuggestionComparesUntrimmedTerm | frontend/src/components/EmployeeForm.jsx:188-195 | The catalogue comparison uses the untrimmed term: " sql" is suggested although "SQL" is in the catalogue. |
| EmployeeForm.FirstIndexOf | frontend/src/components/EmployeeForm.jsx:122-125 | The index found holds the character and none before it does. None means the character is absent. |
| EmployeeForm.ValidateEmailMatchesPattern | frontend/src/components/EmployeeForm.jsx:122-125 | `validateEmail` accepts exactly local@domain.tld, with all three parts non-empty and free of whitespace and '@'. |
| EmployeeForm.ValidateEmailSound | frontend/src/components/EmployeeForm.jsx:122-125 | An accepted address has the pattern's shape. |
| EmployeeForm.ValidateEmailComplete | frontend/src/components/EmployeeForm.jsx:122-125 | Every address with the pattern's shape, at any '@' and '.', is accepted. |
| EmployeeForm.ValidEmailIsTrimmed | frontend/src/components/EmployeeForm.jsx:122-125 | An accepted address has no edge whitespace, so trimming it changes nothing. |
| EmployeeForm.TrimmedOrNull | frontend/src/components/EmployeeForm.jsx:166-168 | `s.trim() \|\| null` is null exactly for a blank string and is otherwise the trimmed string. |
| EmployeeForm.FormErrorIsFirstFailure | frontend/src/components/EmployeeForm.jsx:131-159 | The error reported is the message of the first failing check, in the order first name, last name, e-mail, e-mail format, department, hire date. |
| EmployeeForm.FormErrorNoneIffAcceptable | frontend/src/components/EmployeeForm.jsx:131-159 | No error is reported exactly when every check passes. |
| EmployeeForm.SubmissionIsNormalised | frontend/src/components/EmployeeForm.jsx:162-173 | The submitted names are non-empty and trimmed. The e-mail is as typed and valid. Phone and position are null exactly when blank, and the salary is null exactly when empty. Skills and hire date pass unchanged. |
| EmployeeForm.EmployeeFormComponent.constructor | frontend/src/components/EmployeeForm.jsx:4-20 | The form starts empty, with an empty search term, no error and the fallback catalogue. |
| EmployeeForm.EmployeeFormComponent.HandleChange | frontend/src/components/EmployeeForm.jsx:90-94 | One field is set and the error cleared. The search term is unchanged. |
| EmployeeForm.EmployeeFormComponent.HandleSkillToggle | frontend/src/components/EmployeeForm.jsx:96-103 | The skills become the toggled list and nothing else changes. |
| EmployeeForm.EmployeeFormComponent.HandleSkillAdd | frontend/src/components/EmployeeForm.jsx:105-113 | The skills become the added list, duplicate-free where they were, and the search term is cleared. |
| EmployeeForm.EmployeeFormComponent.HandleSkillRemove | frontend/src/components/EmployeeForm.jsx:115-120 | The skills lose every occurrence of the skill. The search term and the error are unchanged. |
| EmployeeForm.EmployeeFormComponent.HandleSubmit | frontend/src/components/EmployeeForm.jsx:127-179 | A failing check sets its message and submits nothing. Otherwise the normalised submission is handed to `onSubmit`. The form itself is unchanged. |
| AddEmployee.TruncateOfInt | frontend/src/components/AddEmployee.jsx:27 | `parseInt` of a whole number gives that number back. |
| AddEmployee.DepartmentReparsed | frontend/src/components/AddEmployee.jsx:27 | Re-parsing a department id keeps it, except that 0 becomes null. |
| AddEmployee.NormaliseSkills | frontend/src/components/AddEmployee.jsx:32-43 | Normalisation never adds entries, and every entry it keeps is non-empty without edge whitespace. |
| AddEmployee.NormaliseTextsKeepsNonBlank | frontend/src/components/AddEmployee.jsx:32-43 | On strings, normalisation trims each entry and drops exactly the blank ones. |
| AddEmployee.NormaliseSkillsIdempotent | frontend/src/components/AddEmployee.jsx:32-43 | Normalising an already normalised list changes nothing. |
| AddEmployee.NonTextSkillsAreKept | frontend/src/components/AddEmployee.jsx:32-43 | Other entries: the number 0 becomes "0", `false` becomes "false", an object with empty `value` and no `name` becomes "[object Object]", and null and undefined are dropped. |
| AddEmployee.TrimOrNull | frontend/src/components/AddEmployee.jsx:26-28 | `v?.trim() \|\| null` is null exactly for a missing or blank value, and is otherwise the trimmed value. |
| AddEmployee.PageKeepsSubmission | frontend/src/components/AddEmployee.jsx:22-44 | For an already trimmed submission, the payload keeps the names, e-mail, phone, position and hire date, and drops only the blank skills. |
| AddEmployee.PageKeepsFormFields | frontend/src/components/AddEmployee.jsx:22-44 | Everything the form submits reaches the payload unchanged, apart from blank skills. |
| AddEmployee.PageKeepsDepartment | frontend/src/components/AddEmployee.jsx:27 | The form's department id reaches the payload, except that 0 becomes null. |
| AddEmployee.FormatDateRoundTrip | frontend/src/components/AddEmployee.jsx:113-128 | A calendar date written as YYYY-MM-DD has the date shape and reads back as the same date. |
| AddEmployee.DistinctCardinality | frontend/src/components/AddEmployee.jsx:136-140 | `new Set(list)` is no larger than the list, and is the same size exactly when the list has no duplicates. |
| AddEmployee.HasCaseDuplicatesIff | frontend/src/components/AddEmployee.jsx:136-140 | The duplicate check fires exactly when two skills are equal ignoring case. |
| AddEmployee.ValidatePayloadIsFirstFailure | frontend/src/components/AddEmployee.jsx:47-140 | The message shown is that of the first failing check, in source order: required names, e-mail, e-mail format, department; the five length caps; salary; hire date; skill count; duplicates. |
| AddEmployee.RequiredErrorIsFirstFailure | frontend/src/components/AddEmployee.jsx:47-72 | The required-field message is that of the first failing required check. |
| AddEmployee.LengthErrorIsFirstFailure | frontend/src/components/AddEmployee.jsx:75-98 | The length message is that of the first failing cap: first name 50, then last name 50, e-mail 100, phone 20, position 100. |
| AddEmployee.ValueErrorIsFirstFailure | frontend/src/components/AddEmployee.jsx:101-140 | The value message is that of the first failing check: salary, hire date, skill count, duplicates. |
| AddEmployee.ValidatePayloadAccepts | frontend/src/components/AddEmployee.jsx:47-140 | No message is shown exactly when every field is present and valid. Lengths must be within their caps, and the salary in [0, 9999999.99] when given. A given hire date must be YYYY-MM-DD and not after today. There must be at most 10 skills, with no duplicates ignoring case. |
| AddEmployee.ValueErrorAccepts | frontend/src/components/AddEmployee.jsx:101-140 | The value checks pass exactly when the salary, hire date and skills are in range. |
| AddEmployee.ServerMessage | frontend/src/components/AddEmployee.jsx:166 | The server's text is its `message` when non-empty, else its `error` when non-empty, else none. |
| AddEmployee.MessageBeforeError | frontend/src/components/AddEmployee.jsx:166 | A non-empty `message` wins over `error`. An empty or missing `message` falls back to `error`. |
| AddEmployee.Add500Duplicate | frontend/src/components/AddEmployee.jsx:166-172 | A 500 whose text has 'Duplicate entry' gives the e-mail-exists message when the text mentions 'email', and the generic duplicate message otherwise. |
| AddEmployee.Add500ForeignKey | frontend/src/components/AddEmployee.jsx:173-174 | A 500 with 'foreign key constraint', and no duplicate, gives the invalid-department message. |
| AddEmployee.Add500DataTooLong | frontend/src/components/AddEmployee.jsx:175-176 | A 500 with 'Data too long', and neither earlier text, gives the too-long message. |
| AddEmployee.Add500Other | frontend/src/components/AddEmployee.jsx:177-179 | Any other 500 text is shown after "Server Error: ". |
| AddEmployee.AddOtherStatusMessage | frontend/src/components/AddEmployee.jsx:187-188 | Any other status shows "Error (status): text". |
| AddEmployee.AddEmployeePage.constructor | frontend/src/components/AddEmployee.jsx:10-11 | The page starts not submitting, with no error and no navigation. |
| AddEmployee.AddEmployeePage.Submit | frontend/src/components/AddEmployee.jsx:14-150 | A submit while submitting does nothing. A failing check sets its message, posts nothing and clears the flag. A passing payload is posted with the error cleared and the flag set. |
| AddEmployee.AddEmployeePage.Complete | frontend/src/components/AddEmployee.jsx:142-203 | The flag is cleared. Success navigates to the list. A failure shows its mapped message and stays on the page. |
| AddEmployee.AddEmployeePage.Cancel | frontend/src/components/AddEmployee.jsx:206-219 | While submitting, cancelling shows the wait message. Otherwise a confirmed cancel navigates to the list. |
| EditEmployee.DatePart | frontend/src/components/EditEmployee.jsx:33 | The result is the longest prefix without 'T'. |
| EditEmployee.DatePartOfTimestamp | frontend/src/components/EditEmployee.jsx:33 | The date of a "dateTtime" timestamp is the date. |
| EditEmployee.HireDateOfTimestamp | frontend/src/components/EditEmployee.jsx:33 | A fetched timestamp's date part passes the add flow's date-shape check and reads back as the same date. |
| EditEmployee.TransformDefaults | frontend/src/components/EditEmployee.jsx:25-37 | Missing text fields become '' and a missing status becomes 'Active'. The hire date has no 'T'. Missing skills become []. A falsy department or salary becomes ''. |
| EditEmployee.DepartmentInput | frontend/src/components/EmployeeForm.jsx:36 | A department other than 0 enters the form as its digits, which are not empty and which `parseInt` reads back. |
| EditEmployee.UnchangedRecordRoundTrip | frontend/src/components/EmployeeForm.jsx:24-178 | Saving an unedited record gets past the form only when the names and e-mail pass and the record has a department other than 0 and a hire date. The page then sends that department, the status (or 'Active'), the hire date's date part, and null for a missing phone or position. |
| EditEmployee.UnchangedRecordWithoutDepartment | frontend/src/components/EmployeeForm.jsx:151-154 | A record with no department, or department 0, is never sent. Once the names and e-mail pass, the form shows 'Department is required'. |
| EditEmployee.UnchangedRecordWithoutHireDate | frontend/src/components/EmployeeForm.jsx:156-159 | A record with no hire date is never sent. Once the names, e-mail and department pass, the form shows 'Hire date is required'. |
| EditEmployee.LoadErrorMessage | frontend/src/components/EditEmployee.jsx:43-47 | The load error is 'Employee not found' exactly on 404, and 'Failed to load employee data' otherwise. |
| EditEmployee.UpdateMessagesMatchAdd | frontend/src/components/EditEmployee.jsx:198-248 | Apart from 404, duplicates and no reply, an update failure shows the same message as an add failure. |
| EditEmployee.Update404 | frontend/src/components/EditEmployee.jsx:211-213 | A 404 on update shows 'Employee not found', which the add flow never shows for a 404. |
| EditEmployee.UpdateDuplicate | frontend/src/components/EditEmployee.jsx:218-223 | A duplicate on update shows the edit flow's own duplicate messages, with the e-mail variant when the text mentions 'email'. |
| EditEmployee.EditEmployeePage.constructor | frontend/src/components/EditEmployee.jsx:11-15 | The page starts loading, with no record, no errors, not submitting and no navigation. |
| EditEmployee.EditEmployeePage.Loaded | frontend/src/components/EditEmployee.jsx:22-50 | Loading ends. A reply becomes the transformed record, and a failure sets its load message. |
| EditEmployee.EditEmployeePage.Submit | frontend/src/components/EditEmployee.jsx:59-196 | A submit while submitting does nothing. A failing check sets its message and sends nothing. A passing payload is sent with the error cleared and the flag set. The loaded record is kept. |
| EditEmployee.EditEmployeePage.Complete | frontend/src/components/EditEmployee.jsx:188-251 | The flag is cleared. Success navigates to the list. A failure shows the edit flow's mapped message. |
| EditEmployee.EditEmployeePage.Cancel | frontend/src/components/EditEmployee.jsx:254-267 | While submitting, cancelling shows the wait message. Otherwise a confirmed cancel navigates to the list. |
| App.ProtectedRoute | frontend/src/App.js:35-47 | Unauthenticated users go to /login. An empty roles list renders the children. Otherwise the children render exactly when the user has a non-empty role in the list. |
| App.TrimTrailingSlashes | frontend/src/App.js:55-124 | The path loses exactly its trailing slashes. |
| App.MatchRoute | frontend/src/App.js:55-124 | The login route is the only unguarded one, and only the key /login reaches it. An edit route's id is one non-empty segment. The dashboard routes have no role list. |
| App.MatchRouteTrailingSlash | frontend/src/App.js:55-124 | One more trailing slash never changes the route matched. |
| App.MatchRouteIgnoresCase | frontend/src/App.js:55-124 | Lowering a path changes no matched page, only the case of an edit route's id. |
| App.RouteTableLowered | frontend/src/App.js:55-124 | The table reads only the key for its static paths. The path the key came from supplies only the edit id. |
| App.LandingAlwaysShowsAPage | frontend/src/App.js:35-123 | Following redirects always ends on a page. Without authentication that page is the login page, and with it the login page is shown only for a path whose key is /login. |
| App.RedirectTargets | frontend/src/App.js:42-123 | The redirect targets "/login" and "/" match the login page and the dashboard. |
| App.UnauthenticatedSeesOnlyLogin | frontend/src/App.js:35-123 | An unauthenticated visit shows the login page or redirects: to "/" for an unknown path, and to /login otherwise. |
| App.HROpensEveryRoute | frontend/src/App.js:56-123 | HR opens every route's page. |
| App.ManagerAccess | frontend/src/App.js:79-120 | A manager opens /employees and /reports, and is sent to "/" from /employees/add, /add-employee, both edit routes and /settings. |
| App.ManagerListAccess | frontend/src/App.js:79-83 | A manager opens the employee list and the reports, but not the settings. |
| App.ManagerAddAccess | frontend/src/App.js:85-95 | A manager is sent to "/" from both add routes. |
| App.ManagerEditAccess | frontend/src/App.js:97-107 | A manager is sent to "/" from both edit routes. |
| App.LongEditRoute | frontend/src/App.js:97-101 | /employees/edit/ followed by one segment is the edit route for that id. |
| App.ShortEditRoute | frontend/src/App.js:103-107 | /edit/ followed by one segment is the edit route for that id. |
| App.OtherRolesSeeOnlyDashboards | frontend/src/App.js:56-120 | A role other than HR or Manager opens exactly the guarded routes whose page is the dashboard. |
| Strings.Trim | frontend/src/components/EmployeeForm.jsx:163-168 | `trim()` returns no longer a string, with no edge whitespace. It is empty exactly for an all-whitespace string. |
| Strings.TrimIdempotent | frontend/src/components/EmployeeForm.jsx:163-168 | Trimming twice is trimming once. |
| Strings.TrimBounds | frontend/src/components/EmployeeForm.jsx:163-168 | The trimmed string is a slice of the original with only whitespace outside it. |
| Strings.ParseInt | backend/controllers/employeeController.js:71-72 | `parseInt` is NaN exactly when no digit follows the optional spaces and sign, reading hexadecimal digits after a `0x` or `0X` prefix and decimal digits otherwise. |
| Strings.ParseIntHex | backend/controllers/employeeController.js:71-72 | `parseInt("0x2")` is 2. |
| Strings.ParseIntSignedHex | backend/controllers/employeeController.js:71-72 | `parseInt("-0X1F")` is −31. |
| Strings.ParseIntBareHex | backend/controllers/employeeController.js:71-72 | `parseInt("0x")` is NaN. |
| Strings.ParseIntRoundTrip | frontend/src/components/AddEmployee.jsx:27 | `parseInt` of a printed integer gives that integer back. |
| Strings.ParseFloatOfInteger | frontend/src/components/AddEmployee.jsx:29 | `parseFloat` of a printed integer gives that integer back. |
| Validation.FirstFailureNone | frontend/src/components/AddEmployee.jsx:47-140 | A check chain reports nothing exactly when every check passes. |
| Validation.FirstFailureAt | frontend/src/components/AddEmployee.jsx:47-140 | A failing check with only passing checks before it is the one reported. |
| Validation.FirstFailureAppend | frontend/src/components/AddEmployee.jsx:47-140 | Two chains run one after the other report the first chain's failure when it has one, and the second chain's otherwise. |

## Left out

- The reports router is not mounted by the server (backend/server.js:37-38 mounts only the employee and auth routes). Its logic is modelled nonetheless, as code that would run if it were mounted. The exception is the salary-analysis handler: its statistics query is refused, so as written it never reaches the distribution of backend/routes/reports.js:89-111 (see "## Findings").
- Clocks, calendars and time zones: `CURDATE()`, `DATE_SUB` and `new Date()` are replaced by parameters. These are the day counts, the cutoff date of a window and "today". Month and day arithmetic is not modelled.
- The database engine:
  - unique and foreign-key constraints are represented by the `refused` parameter of create, update and delete;
  - auto-increment counters are not restored by a rollback, as in InnoDB;
  - the store's answer to a failed statement is reduced to a server error.
- Row order of the skill queries (backend/controllers/employeeController.js:31-63, 107-123): they have no `ORDER BY`, so MySQL promises no order. The model returns the names in the order the links were inserted, which is one chosen order among those the source allows. `EmployeeRepository.BatchNames`, `EmployeeRepository.BuildSkillsMap` and `EmployeeRepository.Database.GetEmployeeById` state names in that order.
- Concurrency: the race between the find and the insert in `getOrCreateSkillId`, concurrent requests, and connection-pool handling.
- `LIKE` in the search is modelled as an exact, case-sensitive substring test. MySQL collation and `%`/`_` wildcards inside the term are not modelled.
- `sortBy` is interpolated unsanitised into the list query (backend/controllers/employeeController.js:75, 91). Only the default order by id, ascending or descending, is modelled.
- Number formatting (`toFixed`, `toLocaleString`, `ROUND(…, 2)`) is left out: rates and percentages are exact rationals. MySQL's four-decimal `DATEDIFF / 365` is modelled by `Reports.YearsScaled`.
- DECIMAL columns returned as strings and JavaScript floating point are left out: salaries are exact rationals.
- `parseFloat` is modelled for plain decimals only. Exponents and `Infinity` are not modelled.
- The random placeholder metrics `promotionRate` and `satisfactionScore` (backend/controllers/employeeController.js:788-789, backend/routes/reports.js:223-224).
- The LIMIT/OFFSET median of backend/routes/reports.js:73-81. MySQL does not accept subqueries in those positions; the controller's rank-based median is modelled instead.
- The AVG and STDDEV salary statistics and the per-department salary rows of the salary analysis (backend/controllers/employeeController.js:558-567, 611-621). These are floating-point aggregates; only the count, minimum and maximum are modelled.
- The skills-by-department query (backend/controllers/employeeController.js:681-693), the department-statistics and real-time metrics handlers, and the recent-activity time-ago strings (501-508). These are SQL aggregates and date formatting.
- The catalogue load of the form (frontend/src/components/EmployeeForm.jsx:44-79). This is a network side effect; the catalogue is a field set to the fallback list.
- EditEmployee.FormOfRecord: models the form's initial-data effect with the hire date's `new Date(…).toISOString().split('T')[0]` taken as the identity on the record's `YYYY-MM-DD` date. A date string that JavaScript reads otherwise, or cannot read, is not modelled. A salary that arrives as a number with a fraction enters the form as `''`, and skill entries other than names are dropped.
- Network calls: axios requests are replaced by their outcome. The outcome is a reply, a response with a status and texts, or no reply at all.
- Authentication, tokens, local storage, React rendering and styling.
- EmployeeRepository.Database.Update: as in the source, an id with no row is not reported as missing. The update then changes no row but still replaces that id's links.
- EmployeeAnalytics.MedianSalary: its own contract states only the empty case. The bounds are in `EmployeeAnalytics.MedianSalaryWithin`, and the median itself in `EmployeeAnalytics.MedianValue`.
- EmployeeRepository.FindSkill: compares skill names exactly. MySQL's default collation ignores case and trailing spaces, so in the source `sql` finds a stored `SQL`; here it does not.
- EmployeeRepository.ResolveSpec: follows `FindSkill`, so a name that differs from a stored one only in case or trailing spaces gets a new row here, where the source reuses the stored row.
- Strings.ToLower: lowers the ASCII letters only. JavaScript's `toLowerCase` also lowers the letters of other scripts.
- AddEmployee.HasCaseDuplicatesIff: compares through `Strings.ToLower`, so two skills that differ only in the case of a non-ASCII letter are not reported as duplicates here.
- EmployeeForm.FilteredSkills: matches through `Strings.ToLower`, with the same ASCII-only case folding.
- EmployeeForm.NewSkillSuggestion: compares through `Strings.ToLower`, with the same ASCII-only case folding.
- App.MatchRoute: ignores the case of ASCII letters only. React Router's case-insensitive match also ignores the case of other letters.
- AddEmployee.LengthErrorIsFirstFailure: lengths count characters. JavaScript's `length` counts UTF-16 code units, so a character outside the Basic Multilingual Plane counts once here and twice in the source. `AddEmployee.LengthChecks` counts the same way.
- Reports.AverageTenure: stated only through its bounds (`Reports.AverageTenureBounds`) and its empty case. The exact mean formula is not restated.

## Findings

| source | as written | input that shows it | evidently intended | confidence | as-written member | corrected member |
|---|---|---|---|---|---|---|
| backend/controllers/employeeController.js:593 | The distribution query aliases its `CASE` column as `range`, a reserved word of MySQL. The server refuses the statement, and the catch (641-650) answers status 500 with every figure zeroed. | Any table, e.g. one active employee with salary 50000 | The alias quoted, so the analysis is returned | not executed; `RANGE` is a reserved word in MySQL's grammar | EmployeeAnalytics.SalaryAnswerAsWrittenFails | EmployeeAnalytics.AnalyseSalaries |
| backend/routes/reports.js:78 | The statistics query of the salary analysis computes `LIMIT` and `OFFSET` with subqueries (78-79). MySQL's grammar takes only constants or placeholders there, so the statement is refused. The catch (118-120) answers status 500 with 'Failed to fetch salary analysis', and the distribution query (89-111) is never sent. | Any table, e.g. one salary of 50000 | A median MySQL accepts, so the distribution is returned | not executed; MySQL's `LIMIT` accepts only literal or placeholder arguments | Reports.SalaryReplyAsWrittenFails | Reports.SalaryDistributionSpec |
| backend/controllers/employeeController.js:537 | The hiring-trends query selects `DATE_FORMAT(hire_date, '%M %Y')` (532) but groups only by `DATE_FORMAT(hire_date, '%Y-%m')`. The pool sets no SQL mode (backend/config/db.js:6), so `ONLY_FULL_GROUP_BY`, which MySQL has enabled by default since 5.7.5, refuses the statement. The catch (542-545) answers status 500 with `[]`. | Any table, e.g. one hire in March 2024 with the window opening in January 2024 | Grouped by both formats, as backend/routes/reports.js:50 does, so the monthly counts are returned | not executed; depends on the server's SQL mode, and a server without `ONLY_FULL_GROUP_BY` runs the query | EmployeeAnalytics.TrendsAnswerAsWrittenFails | Reports.HiringTrendsSpec |
