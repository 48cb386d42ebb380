# CIS benchmark audit tool: a verified model

The application is a small Flask service that auditors use to work through
CIS security benchmarks. It has these parts:

- **Catalog.** Holds platforms, benchmarks, a tree of numbered sections per
  benchmark, and the checks that sit in those sections.
- **Audit sessions.** An auditor opens a session against one benchmark. The
  session gets one result per check of that benchmark. Each result is then
  marked pass, fail, not applicable or not checked, and the session is
  finally closed.
- **Routes.** Around this sit registration and login, a check search, the
  section pages with their breadcrumbs, and the Excel export.
- **Export.** Produces two workbooks: a blank fieldwork checklist for a
  benchmark, and an audit report for a session with a cover, a filled-in
  checklist, and a summary broken down by top-level section.
- **Seed loader.** Reads nested benchmark files, flattens them into section
  and check rows, and adds the default platforms and users.

The model replaces the database with values:

- A `Catalog` is four sequences of rows. A row's id is its position plus
  one, and a section's parent always has a smaller id (sections are created
  parent first).
- An SQL `ORDER BY` is a stable insertion sort (`Sorting.SortBy`). Text
  columns compare in code-point order, as SQLite's default collation and
  Python's `sorted` do.
- The stateful parts are classes whose `seq` fields the methods reassign:
  the audit store (sessions and results), the user store, and the catalog
  store the seed loader fills.
- Each request handler is a function or method over explicit inputs. The
  current user, the form fields and the clock are all inputs. It returns an
  outcome: `Ok`, `NotFound` (HTTP 404), `Forbidden` (HTTP 403), or a
  handler-specific answer.

Modules, one per file:

- `Wrappers`: `Option` and `Response`.
- `Sorting`: filter, stable sort, limit, flatten.
- `Text`: `strip`, code-point order, ASCII case folding, decimal rendering.
- `Catalog`: rows, tree walks, check counts.
- `BenchmarkRoutes`: section enumeration, breadcrumb, benchmark and section
  pages.
- `AuditModel`: sessions, results, counts, progress.
- `AuditRoutes`: the audit store and its handlers.
- `AuthRoutes`: users, login, registration.
- `ExcelExport`: the workbook contents.
- `CheckRoutes`: check detail, the `LIKE` matcher, search.
- `ExportRoutes`: download names and argument parsing.
- `Seed`: the seed loader.

## Model

| member | source | states |
|---|---|---|
| Sorting.Filter | app/utils/excel_export.py:22-28 | A filtered query keeps exactly the rows that satisfy the condition, never more rows than it started with. |
| Sorting.FilterSorted | app/utils/excel_export.py:22-30 | Filtering keeps any order the rows were in. |
| Sorting.SortBy | app/utils/excel_export.py:30 | ORDER BY returns as many rows as it got and the same rows, sorted by the key. |
| Sorting.SortByPermutation | app/utils/excel_export.py:30 | ORDER BY neither drops nor duplicates a row: the result is a permutation (equal multisets). |
| Sorting.SortByDistinct | app/routes/audits.py:73-75 | Ordering rows that are all different gives rows that are all different. |
| Sorting.SortAndLimit | app/routes/checks.py:59 | ORDER BY ... LIMIT n gives min(n, count) rows. They are sorted, they are the first rows of the full ordering, and each is an input row. |
| Sorting.SortAndLimitOmitted | app/routes/checks.py:59 | A row that the limit cut off sorts after every row that was kept. |
| Sorting.FlattenMember | app/routes/benchmarks.py:53-54 | After `extend` over the groups, a value is present iff some group holds it. |
| Sorting.FlattenLength | app/routes/benchmarks.py:53-54 | Joining groups whose sizes are given counts yields the sum of those counts. |
| Text.Strip | app/routes/auth.py:15 | `strip()` never lengthens a string. |
| Text.StripSpec | app/routes/auth.py:34-37 | Stripping gives empty iff the string is all whitespace. Otherwise the result is the piece after the leading whitespace, does not start or end with whitespace, and is followed only by whitespace. |
| Text.ReplaceChar | app/routes/export.py:39 | `replace` of one character by another keeps the length, swaps every occurrence and keeps every other character. |
| Text.LexLeTotalPreorder | app/utils/excel_export.py:30 | Code-point order on strings is total and transitive, so ordering by check number is well defined. |
| Text.NatToStringDigits | app/routes/export.py:40 | A rendered number is digits only and at least one character. It is one character exactly below 10, and four characters for 1000-9999. |
| Catalog.SectionRow | app/models/benchmark.py:33-35 | A stored section is found under its own id. Its parent exists and has a smaller id. |
| Catalog.CheckRow | app/models/check.py:7-8 | A stored check is found under its own id, and its section exists. |
| Catalog.ChecksByNumberTotalPreorder | app/utils/excel_export.py:30 | Ordering checks by `check_number` is a total preorder. |
| Catalog.Children | app/models/benchmark.py:42-47 | A section's `children` are exactly the sections whose parent it is, all with larger ids, sorted by `sort_order`. |
| Catalog.OwnChecks | app/models/benchmark.py:48-49 | A section's `checks` are exactly the checks in that section, sorted by `sort_order`. |
| Catalog.SubtreeCountBounds | app/models/benchmark.py:51-57 | `total_checks` is never below the section's own count. It equals the own count when the section has no children, and no child's total exceeds its parent's. |
| Catalog.TotalChecks | app/models/benchmark.py:51-57 | The counting loop returns the own check count plus the recursive totals of the children. |
| Catalog.BenchmarkChecks | app/models/benchmark.py:19-24 | `Benchmark.total_checks` counts exactly the checks whose section belongs to the benchmark. |
| Catalog.BenchmarkChecksIncrease | app/routes/audits.py:47-49 | The joined check query, taken in store (insertion) order, lists each of the benchmark's checks once, with increasing ids. |
| Catalog.Ancestors | app/routes/benchmarks.py:58-65 | The root-to-node path has length depth + 1 and ends with the section. Its first element has no parent, each element is the parent of the next, and all belong to the same benchmark. |
| Catalog.AncestorsStep | app/routes/benchmarks.py:62-64 | A root's path is itself alone. Otherwise the path is the parent's path (the parent has a smaller id) followed by the section. |
| Catalog.TopAncestor | app/utils/excel_export.py:354-356 | Climbing `parent` links ends at a root that has the section in its subtree; this root is the first breadcrumb element. |
| BenchmarkRoutes.GetSectionChecks | app/routes/benchmarks.py:50-55 | `_get_section_checks` returns the section's own checks in `sort_order`, then each child's enumeration in child `sort_order`. |
| BenchmarkRoutes.EnumerateStep | app/routes/benchmarks.py:52-54 | A check is enumerated iff it is one of the section's own checks or is enumerated under one of its children. |
| BenchmarkRoutes.EnumerateLength | app/routes/benchmarks.py:50-55 | The enumeration's length equals the section's recursive `total_checks`. |
| BenchmarkRoutes.EnumerateMembers | app/routes/benchmarks.py:50-55 | A check is enumerated iff it is stored in the section or somewhere below it. |
| BenchmarkRoutes.EnumerateDistinct | app/routes/benchmarks.py:50-55 | The enumeration lists no check twice: own checks differ, none lies below a child, and two children's subtrees are disjoint. |
| BenchmarkRoutes.EnumerateSet | app/routes/benchmarks.py:50-55 | The set of enumerated checks is exactly the set of checks stored in the section or below it. |
| BenchmarkRoutes.TotalChecksCountsSubtree | app/models/benchmark.py:51-57 | `total_checks` is the number of different checks stored in the section and all sections below it. |
| Catalog.SiblingSubtrees | app/models/benchmark.py:41-47 | No section lies below two different children of one section. |
| BenchmarkRoutes.BuildBreadcrumb | app/routes/benchmarks.py:58-65 | The breadcrumb loop, inserting at the front while climbing `parent`, returns exactly the root-to-node path. |
| BenchmarkRoutes.BreadcrumbStep | app/routes/benchmarks.py:62-64 | One loop step (insert the current section, move to its parent) keeps "path of current + crumbs = path of the section". When a root is reached the crumbs are the whole path. |
| BenchmarkRoutes.RootSections | app/routes/benchmarks.py:20-23 | The listed sections are exactly the benchmark's sections without a parent, sorted by `sort_order`. |
| BenchmarkRoutes.RootsCoverBenchmark | app/routes/benchmarks.py:20-23 | Every section of a benchmark lies below one of the listed top-level sections. |
| BenchmarkRoutes.BenchmarkDetail | app/routes/benchmarks.py:15-26 | An unknown benchmark is 404. Otherwise the page lists exactly its top-level sections, in `sort_order`. |
| BenchmarkRoutes.SectionPage | app/routes/benchmarks.py:29-47 | 404 iff the benchmark or section is unknown or the section belongs to another benchmark. Otherwise the page holds the benchmark, the section, every check below it in pre-order, and its breadcrumb. |
| AuditModel.Pad2 | app/utils/excel_export.py:145 | `%m`/`%d`/`%H`/`%M` render digits only, two of them for values below 100. |
| AuditModel.DateStamp | app/routes/export.py:40 | `%Y%m%d` is digits only, eight of them for a four-digit year. |
| AuditModel.NewSession | app/models/audit.py:13-15 | A new session is `in_progress`, has no completion time, and was started now. |
| AuditModel.NewResult | app/models/audit.py:52-54 | A new result is `not_checked`, with no finding and no check time. |
| AuditModel.CountStatusBounds | app/models/audit.py:30-40 | A status count never exceeds the number of results. It is 0 iff no result has that status, and equals the total iff every result has it. |
| AuditModel.CheckedIsTotalMinusNotChecked | app/utils/excel_export.py:312-313 | checked + not_checked = total. |
| AuditModel.CountsWithinChecked | app/models/audit.py:30-40 | pass + fail + n/a <= checked <= total. |
| AuditModel.CountsPartition | app/utils/excel_export.py:308-313 | When every status is one of the four legal ones, pass + fail + n/a + not_checked = total. |
| AuditModel.Progress | app/models/audit.py:22-28 | Progress is 0 for a session without results. |
| AuditModel.ProgressBounds | app/models/audit.py:27-28 | Progress lies in 0..100 and, with results present, is 100 iff every result is checked. |
| AuditModel.Compliance | app/utils/excel_export.py:314 | The compliance rate is 0 when nothing is checked, and lies in [0, 1] when passes do not exceed checked results. |
| AuditModel.ByCheckNumberTotalPreorder | app/routes/audits.py:75 | Ordering results by their check's number is a total preorder. |
| AuditModel.SessionResults | app/routes/audits.py:73-75 | A session's listed results are exactly its results joined to an existing check, sorted by check number. |
| AuditRoutes.AppendResult | app/models/audit.py:56-58 | Adding a valid result whose (session, check) pair is new keeps the results valid and the pairs unique. |
| AuditRoutes.FindResult | app/routes/audits.py:89-92 | `filter_by(session_id, check_id).first()` finds the first result with that pair, and finds nothing iff there is none. |
| AuditRoutes.NewResults | app/routes/audits.py:50-55 | The result loop makes one row per check, all in the new session. |
| AuditRoutes.NewResultsFresh | app/routes/audits.py:50-55 | Row i of a new session is about check i and is `not_checked`, with no finding and no check time. |
| AuditRoutes.NewResultsValid | app/models/audit.py:56-58 | Appending the new session's rows for distinct checks keeps ids, legal statuses and unique (session, check) pairs. |
| AuditRoutes.NewAuditValid | app/routes/audits.py:36-55 | Appending a fresh `in_progress` session and its result rows keeps the whole store valid. |
| AuditRoutes.TargetOrDefault | app/routes/audits.py:39 | The target name is the stripped input, or "Unnamed Target" when that is blank. It is never empty. |
| AuditRoutes.NewSessionResults | app/routes/audits.py:47-55 | After creation, the new session's results are exactly the new rows. |
| AuditRoutes.AuditStore.NewAudit | app/routes/audits.py:21-62 | No benchmark chosen: nothing is created. Unknown benchmark: 404, nothing created. Otherwise one session (stripped fields, default name) and one `not_checked` result per check of the benchmark, with the reported count equal to the number of checks. |
| AuditRoutes.AuditStore.StartAudit | app/routes/audits.py:36-57 | Appends the session and its result rows and returns the number of checks, keeping the store valid. |
| AuditRoutes.AuditStore.AddResults | app/routes/audits.py:50-55 | The loop appends exactly the new session's rows and leaves the sessions alone. |
| AuditRoutes.AuditStore.UpdateResult | app/routes/audits.py:82-108 | 404 for an unknown session or an unknown pair; 403 for another user's session. A missing status reads as `not_checked`, and an illegal status changes nothing. A legal one stores status and stripped finding, and sets `checked_at` iff the status is not `not_checked`. No other result changes and no session reopens. |
| AuditRoutes.AuditStore.CompleteSession | app/routes/audits.py:111-122 | 404 for an unknown session, 403 for another user's. Otherwise only that session becomes `completed` and is stamped now; no session moves back to `in_progress`. |
| AuditRoutes.AuditStore.SessionDetail | app/routes/audits.py:65-79 | 404 for an unknown session, 403 for another user's. Otherwise exactly the session's results, ordered by check number. |
| AuthRoutes.HashPassword | app/models/user.py:19-23 | A stored hash accepts exactly the password it was made from. |
| AuthRoutes.FindUser | app/routes/auth.py:18 | Looking up a username finds the first user with it, and finds nothing iff no user has it. |
| AuthRoutes.FindUserAppend | app/routes/auth.py:48-54 | After adding a user, an earlier match is still found, and the new user is found under their name. |
| AuthRoutes.Login | app/routes/auth.py:14-19 | A successful login returns a stored user whose name is the stripped input and whose hash accepts the password. |
| AuthRoutes.LoginIff | app/routes/auth.py:18-19 | With unique usernames, login succeeds iff some user has the stripped name and a hash that accepts the password. |
| AuthRoutes.RegistrationError | app/routes/auth.py:39-46 | Each error is reported iff every earlier check passed and this one fails, in the order: missing field, mismatch, shorter than 8, taken. There is no error iff all pass. |
| AuthRoutes.DisplayNameOr | app/routes/auth.py:50 | The display name is used when non-empty, else the username. |
| AuthRoutes.UserStore.AddUser | app/routes/auth.py:48-54 | Appends one user with the next id and a hash of the password, keeping usernames unique. |
| AuthRoutes.UserStore.Register | app/routes/auth.py:28-58 | A rejected form leaves the users unchanged. An accepted one adds exactly one user: stripped name, hashed password, display name defaulting to the name. A registered password has at least 8 characters, and the new user can log in with it. |
| ExcelExport.ChecklistChecks | app/utils/excel_export.py:22-30 | The checklist holds exactly the benchmark's checks that have the given level (when a non-zero level is given) and are scored (when `scored_only`), sorted by check number. |
| ExcelExport.ChecklistUnfiltered | app/utils/excel_export.py:25-28 | Without filters the checklist is a permutation of all the benchmark's checks. |
| ExcelExport.ChecklistStyle | app/utils/excel_export.py:188-192 | A level-2 check gets an L2 format, any other check a plain one, and even rows take the alternate shade. |
| ExcelExport.AuditStyle | app/utils/excel_export.py:265-272 | pass, fail and not_applicable get their own formats, iff the status is that one. Any other status falls back to parity banding. |
| ExcelExport.AuditText | app/utils/excel_export.py:194-199 | The audit text is the stripped audit command when it is non-empty, else the stripped audit steps. |
| ExcelExport.BlankCommandHidesSteps | app/utils/excel_export.py:194 | A command of one space wins over the steps and strips to an empty cell. |
| ExcelExport.StatusLabel | app/utils/excel_export.py:275-280 | `pass`, `fail`, `not_applicable` and `not_checked` show as `Pass`, `Fail`, `N/A` and `Not Checked`, each a dropdown label. Any other value is shown as it is. |
| ExcelExport.StatusOfLabel | app/utils/excel_export.py:181-184 | `Pass`, `Fail`, `N/A` and `Not Checked` read back as `pass`, `fail`, `not_applicable` and `not_checked`; nothing else reads back. |
| ExcelExport.StatusLabelRoundTrip | app/utils/excel_export.py:275-280 | Label and status translate into each other both ways for the four legal values. |
| ExcelExport.ChecklistRow | app/utils/excel_export.py:195-203 | A fieldwork row has blank status and findings cells, the check's number and audit text, and the level/parity format. |
| ExcelExport.AuditRow | app/utils/excel_export.py:282-290 | An audit row shows the status label and the finding, in the status format. |
| ExcelExport.RowsShowSameCheck | app/utils/excel_export.py:282-290 | Except for status, findings and format, an audit row shows the same cells as the fieldwork row of the same check. |
| ExcelExport.NumberedRows | app/utils/excel_export.py:187 | One row per item, item i on sheet row i + 1. |
| ExcelExport.WriteChecklist | app/utils/excel_export.py:161-207 | The row loop writes one fieldwork row per check from row 1 on, and the status dropdown lists the four labels over rows 1 to `len(checks) + 1`. |
| ExcelExport.WriteAuditChecklist | app/utils/excel_export.py:244-293 | The row loop writes one audit row per result, beside its check, from row 1 on, with no dropdown. |
| ExcelExport.LabelledCells | app/utils/excel_export.py:154-158 | Every pair with a non-blank label gets its row (start + index) with label and value. A blank label leaves its row empty, and no other cell is written. |
| ExcelExport.WriteFields | app/utils/excel_export.py:154-158 | The field loop writes exactly those cells and advances the row by the number of fields. |
| ExcelExport.BenchmarkCoverFields | app/utils/excel_export.py:137-152 | The cover has 14 fields. The release date falls back to "N/A", and the total is the benchmark's check count. |
| ExcelExport.InProgressTitle | app/utils/excel_export.py:232 | `in_progress` is shown as "In Progress". |
| ExcelExport.CompletedTitle | app/utils/excel_export.py:232 | `completed` is shown as "Completed". |
| ExcelExport.AuditCoverFields | app/utils/excel_export.py:222-235 | The cover has 12 fields. The auditor falls back from display name to username, and "Completed" reads "In Progress" when no completion time is set. |
| ExcelExport.WriteBenchmarkCover | app/utils/excel_export.py:125-158 | The cover sheet is titled with the benchmark's name and holds the fields from row 3 on. |
| ExcelExport.WriteAuditCover | app/utils/excel_export.py:210-241 | The cover sheet is titled "Audit Report: " plus the target and holds the fields from row 3 on. |
| ExcelExport.Count | app/utils/excel_export.py:361-365 | Counting one result adds one to the total, one to checked unless `not_checked`, and one to passed iff `pass`. |
| ExcelExport.Labels | app/utils/excel_export.py:353-357 | Each result is labelled "{number}. {title}" of its top-level section. |
| ExcelExport.GroupTally | app/utils/excel_export.py:359-365 | In every group, passed <= checked <= total <= number of results. A group is empty iff no result has its label. |
| ExcelExport.ClimbToTop | app/utils/excel_export.py:354-356 | The `while sec.parent` loop stops at the section's top-level ancestor. |
| ExcelExport.GroupOf | app/utils/excel_export.py:353-357 | The label computed in the loop is the result's top-level section label. |
| ExcelExport.CountInto | app/utils/excel_export.py:359-365 | Counting a result into the dictionary creates the group when missing, updates only that group, and raises the sum of group totals by one. |
| ExcelExport.StatsStep | app/utils/excel_export.py:346-365 | After each result, the dictionary holds exactly the groups seen so far, each with its tally over the results so far. |
| ExcelExport.GroupBySection | app/utils/excel_export.py:346-365 | The grouping loop yields exactly the non-empty groups, each with its tally, and the group totals sum to the number of results. |
| ExcelExport.SummaryFields | app/utils/excel_export.py:316-325 | Eight label/value pairs: `Total Checks:` the result count, `Checked:` the results not `not_checked`, `Not Checked:` the `not_checked` count, a blank, `Pass:`, `Fail:` and `Not Applicable:` with their status counts, a blank. |
| ExcelExport.Breakdown | app/utils/excel_export.py:368-376 | A breakdown line shows `passed / checked` and the rate passed/checked, 0 when nothing is checked and within [0, 1] otherwise; its shade follows the row's parity. |
| ExcelExport.BreakdownLines | app/utils/excel_export.py:367-377 | One line per key, line k on row start + k with that key's tally. |
| ExcelExport.ChartData | app/utils/excel_export.py:386-391 | The chart's four slices are `Pass`, `Fail`, `N/A` and `Not Checked`, each with its status count. |
| ExcelExport.ChartCoversResults | app/utils/excel_export.py:386-391 | With legal statuses only, the four slices add up to the number of results. |
| ExcelExport.SortedStrings | app/utils/excel_export.py:367 | `sorted(keys)` holds the same keys in code-point order and keeps them distinct. |
| ExcelExport.WriteBreakdown | app/utils/excel_export.py:367-377 | The breakdown loop writes those lines from row 15 on. |
| ExcelExport.BreakdownTallies | app/utils/excel_export.py:367-376 | Every breakdown line carries its group's tally over all results. |
| ExcelExport.BreakdownCovers | app/utils/excel_export.py:346-377 | A label is listed in the breakdown iff some result carries it. |
| ExcelExport.KeysAreLabels | app/utils/excel_export.py:346-365 | The keys of the section tallies are exactly the labels some result carries. |
| ExcelExport.BreakdownOrdered | app/utils/excel_export.py:367 | Breakdown lines are in strictly increasing label order. |
| ExcelExport.BreakdownOfGroups | app/utils/excel_export.py:346-377 | The sorted grouping is a breakdown: each group once, sorted, with its tally, from row 15 on. |
| ExcelExport.WriteSummary | app/utils/excel_export.py:296-409 | The summary holds the figures, the compliance rate, the per-section breakdown, and chart data exactly when there is at least one result. |
| ExcelExport.ExportBenchmarkToExcel | app/utils/excel_export.py:7-35 | The fieldwork workbook is the cover plus one row per filtered check, by check number, with the status dropdown (`Pass`, `Fail`, `N/A`, `Not Checked`) on rows 1 to the number of checks + 1. |
| ExcelExport.ExportAuditToExcel | app/utils/excel_export.py:38-62 | The audit workbook reports on exactly the session's results, ordered by check number. |
| CheckRoutes.CheckDetail | app/routes/checks.py:8-26 | 404 iff the check is unknown. Otherwise the check, its section, its benchmark, and a breadcrumb that starts at a root and ends at the check's section. |
| CheckRoutes.LikeContains | app/routes/checks.py:40-46 | For a query without wildcards, `LIKE '%q%'` holds iff q occurs in the text. |
| CheckRoutes.ILikeContains | app/routes/checks.py:40-46 | `ILIKE '%q%'` holds iff the lower-cased q occurs in the lower-cased text. |
| CheckRoutes.TextMatchesIff | app/routes/checks.py:39-46 | The text filter holds iff the query occurs, ignoring case, in the title, number, description or audit command. |
| CheckRoutes.SearchChecks | app/routes/checks.py:29-59 | At most 50 checks, by check number, each passing every filter. When fewer than 50 are listed, every check that passes the filters is listed. |
| CheckRoutes.SearchOmitsOnlyLater | app/routes/checks.py:59 | A check that passes the filters but is missing means 50 were listed, all numbered no later than it. |
| CheckRoutes.SearchUnfiltered | app/routes/checks.py:39-57 | With an empty query and no recognised platform, level or scored value, every check is kept. |
| CheckRoutes.Search | app/routes/checks.py:29-73 | An HTMX request gets the list and the stripped query. Otherwise the full page also gets all platforms by name and the arguments echoed. |
| ExportRoutes.ParseInt | app/routes/export.py:15 | Only a non-empty string parses as an integer. |
| ExportRoutes.ParseIntRoundTrip | app/routes/export.py:15 | Every rendered integer parses back to itself. |
| ExportRoutes.IntArg | app/routes/export.py:15 | A missing argument gives no level; a present one gives its parse. |
| ExportRoutes.TargetPart | app/routes/export.py:39 | An empty target gives `audit`; otherwise the target with each space replaced by `_` and every other character kept. The result is never empty and holds no space. |
| ExportRoutes.AuditFilenameHasNoSpace | app/routes/export.py:39-40 | The audit report's file name holds no space. |
| ExportRoutes.ExportBenchmark | app/routes/export.py:9-26 | 404 iff the benchmark is unknown. Otherwise the download is named from the platform slug and version, and holds the checklist filtered by the parsed level and `scored_only == "true"`, with the status dropdown on rows 1 to the number of checks + 1. |
| ExportRoutes.ExportAudit | app/routes/export.py:29-46 | 404 for an unknown session, 403 for another user's. Otherwise the download is named from the target and start date, and reports on exactly the results the session page lists. |
| Seed.MakeCheck | app/utils/seed.py:103-117 | A created check keeps the file's fields, has its list position as `sort_order`, and defaults to level 1 and scored. |
| Seed.NewChecks | app/utils/seed.py:102-119 | The check loop makes one row per listed check, in order, with consecutive ids. |
| Seed.FindPlatform | app/utils/seed.py:47-50 | The slug lookup finds the first platform with that slug, and finds nothing iff none has it. |
| Seed.FindPlatformAppend | app/utils/seed.py:189-193 | Adding a platform keeps every slug that was found and makes the new slug found. |
| Seed.MakePlatform | app/utils/seed.py:191 | A platform row takes the listed name and slug. |
| Seed.CatalogStore.AddSection | app/utils/seed.py:88-97 | Appends one section row, keeping the catalog well formed. |
| Seed.CatalogStore.AddCheck | app/utils/seed.py:103-118 | Appends one check row, keeping the catalog well formed. |
| Seed.CatalogStore.AddChecks | app/utils/seed.py:102-119 | Appends exactly the rows made from the section's listed checks. |
| Seed.CatalogStore.CreateSection | app/utils/seed.py:86-125 | Returns the subtree's check count. Appends as many sections and checks as the subtree holds and touches no other table; the section gets its given `sort_order` and parent, its own checks come first in list order, and each direct child is linked to it with its sibling index. |
| Seed.CatalogStore.CreateSubtrees | app/utils/seed.py:122-123 | Creating siblings one after another returns the sum of their counts and places each sibling with its parent and sort order. |
| Seed.CatalogStore.AddBenchmark | app/utils/seed.py:66-75 | Appends one benchmark row. |
| Seed.CatalogStore.SeedBenchmarkFile | app/utils/seed.py:40-83 | An unknown platform slug, or an existing (name, version), adds nothing. Otherwise one benchmark is added; its top-level sections have no parent and sort order 0, and the count returned is the total number of checks in the file. |
| Seed.CatalogStore.AddPlatform | app/utils/seed.py:191-192 | Appends one platform row with a new slug. |
| Seed.CatalogStore.SeedPlatform | app/utils/seed.py:190-193 | A platform whose slug is present is skipped; otherwise it is appended. Either way the slug is then present and every slug found before is still found. |
| Seed.CatalogStore.SeedPlatformList | app/utils/seed.py:189-193 | After the loop every listed slug is present. Nothing else changes, and if all were present beforehand the catalog is untouched (a second run adds nothing). |
| Seed.CatalogStore.SeedPlatforms | app/utils/seed.py:128-194 | The eight supported platforms are present afterwards, and running it again adds nothing. |
| Seed.SeedUsers | app/utils/seed.py:14-37 | Without a file, `admin` is added iff no user has that name. With a file, every listed name is present afterwards, existing users are unchanged, and each new row `k` is `User(k + 1, name, hash(password), display name)` for a listed user whose name was absent before. Its display name is the listed one when the key is present, else the username. When all names were present, nothing is added. |
| Seed.SeedListedUsers | app/utils/seed.py:27-37 | The seed-file loop leaves every listed name present, keeps the old rows, and makes each new row from a listed user whose name was absent before. |
| Seed.SeedingAdd | app/utils/seed.py:29-35 | Adding a listed user whose name is absent keeps the loop's invariant one user further. |
| Seed.SeedingSkip | app/utils/seed.py:29 | Skipping a listed user whose name is taken keeps the loop's invariant one user further. |

## Left out

- Workbook layout is not modelled: formats, column widths, merged cells, frozen panes, the autofilter and the pie chart object. The sheets are modelled as the values and format tags they hold.
- The database is not modelled: SQLAlchemy queries, lazy relationships, flush/commit and cascades. The store is a set of sequences; NULL text columns are the empty string, since every reader treats them as `''`.
- Flask request handling is not modelled: templates, redirects, flash messages, `send_file`, Flask-Login sessions (`login_user`, `logout`, the `next` redirect, the "already logged in" redirects), and the GET branch of `new_audit`. `update_result` answers the same way whether or not the request came from HTMX, so that choice is not modelled.
- The listing handlers are not modelled: `list_audits`, `list_benchmarks`, and app/routes/main.py and app/routes/platforms.py, which only run queries for templates.
- The clock is an input (`now`). `strftime` is modelled by `FormatDateTime`/`DateStamp`; time zones are not modelled.
- The password hasher is an injective tag. The model keeps that a hash accepts exactly its own password, not werkzeug's algorithm.
- YAML parsing, the directory listing and `print` output of the seed loader are not modelled; `seed_all` is only their sequencing. A parsed file is a `BenchmarkData`/`SectionData` value.
- `release_date` is kept as the string the file gives, so `date.fromisoformat`/`str` is assumed to round-trip it.
- AuditModel.Progress: stated with floor division, `(100 * checked) / total`. The source computes `int((checked / total) * 100)` in binary floating point, which can come out one lower: 29/100 becomes 28.999... and truncates to 28.
- AuditModel.Compliance: exact rational division. The source's float division may round.
- ExportRoutes.ParseInt: accepts an optional sign followed by ASCII digits. Python's `int()` also accepts surrounding whitespace, underscores between digits and non-ASCII decimal digits.
- Text.Lower and Text.TitleCase fold ASCII letters only. For `lower()` this matches SQLite, which is what `ILIKE` runs on. Python's `title()` is Unicode-aware; it is applied only to the two ASCII session statuses.
- ExportRoutes.ExportAudit assumes every session's benchmark exists (`SessionsInCatalog`), which the foreign key guarantees in the source.
- The search's `LIKE` treats `%` and `_` in the user's query as wildcards, as SQLite does without an ESCAPE clause. The substring results (`LikeContains`, `TextMatchesIff`) are stated for queries without them.
- The check query in `new_audit` has no ORDER BY, and an ORDER BY leaves ties in unspecified order; the model takes rows in store (insertion) order in both cases.
- Seed.CatalogStore.CreateSection: states the rows of the section, of its own checks and of its direct children; the rows further down are stated by count only, each level's own call stating its rows.
- The unused locals `top_section` and `section_title` of the summary loop are not modelled.
