# School-records dashboard: the page rules, in Dafny

The dashboard is a browser front end for a school-records backend (students,
courses, enrollments, grades, summary statistics). Almost all of it is page
markup; this project models the few rules the pages compute themselves:

- **Grade enrichment** (`grades.dfy`, module `Grades`). The grades page builds
  id→record lookup tables from the fetched student and course lists (a
  repeated id keeps the record met last), then turns every grade, in order,
  into a record whose `student`, `course`, `studentName` and `courseName` are
  resolved: an embedded copy first, else the lookup, else null/undefined. The
  table building is a loop that updates a map (`BuildIndex`); the per-grade
  resolution is a function (`EnrichGrade`); `Enrich` is the whole computation
  as a function and `EnrichGrades` the method the page runs, proved equal to
  it. Because `Enrich` is a Dafny function, equal inputs give structurally
  equal outputs by construction; `EnrichIdempotent` proves the stronger fact
  that re-enriching the output with the same lists changes nothing.
- **Enrollment count and `|| 0` fallbacks** (`reports.dfy`, module `Reports`,
  and `stats.dfy`, module `Stats`). The count is the length of the fetched
  enrollment list whenever it is present (an empty array is truthy in
  JavaScript, so `[]` counts as 0), and otherwise the backend total or 0.
- **Student filters** (`students.dfy`, module `Students`). The page's two
  state fields are a class, `StudentFilters`, whose handlers change them in
  place; the same transitions as a pure `Step`/`Run` over `FilterState` carry
  the invariant that the filter never holds the pseudo-status `"all"`, the
  select's display rule, and the query-parameter derivation.
- **Dashboard cards and test ids** (`dashboard.dfy`, module `Dashboard`). The
  four statistic cards in their fixed order, their `|| 0` counts, and the
  test-id slug `title.toLowerCase().replace(/\s+/g, '-')`, proved equal to an
  independent left-to-right scan and shown to give the four expected slugs.

Shared pieces: `js_values.dfy` (module `JsValues`: `Option` for
null/undefined, and JavaScript truthiness for `||`) and `text.dfy` (module
`Text`: the ECMAScript whitespace set that both `trim()` and `\s` use,
`trim()`, and `toLowerCase()` on ASCII letters).

Three details of the code shape the model: the student's display name is
the whole string `` `${first || ""} ${last || ""}` `` trimmed at its two ends
(inner spaces of the name parts are kept, and a student with neither name
gets `""`, not undefined); the enrollment fallback is
`stats.totalEnrollments || 0`, so a backend total of 0 or a missing one both
show 0; a student's status is kept as the string the backend sends.

Inputs the pages receive from the network (the fetched lists and the
statistics record) are parameters, each an `Option` because the request may
not have answered yet.

## Model

| member | source | states |
|---|---|---|
| `Grades.BuildIndex` | src/pages/grades.tsx:40-43 | the loop's map equals the last-wins table of the list; it holds exactly the ids that occur in the list, each mapped to the last record with that id; a missing list gives the empty map |
| `Grades.IndexLastWins` | src/pages/grades.tsx:42-43 | the table built by successive `set` calls holds exactly the keys of the list and maps each to the last record carrying it |
| `Grades.IndexKeys` | src/pages/grades.tsx:42-43 | a key is in the table exactly when some record of the list has it |
| `Grades.IndexValues` | src/pages/grades.tsx:42-43 | for a record after which no record repeats its key, the table maps that key to it |
| `Grades.LastOccurrence` | src/pages/grades.tsx:42-43 | every key that occurs in the list has a last occurrence |
| `Grades.LookupResolves` | src/pages/grades.tsx:45-46 | looking a key up in the table gives nothing exactly when no record has the key, and otherwise the last record that has it |
| `Grades.Lookup` | src/pages/grades.tsx:45 | `Map.get` gives a value exactly when the key is present, and then the stored value |
| `Grades.EnrichGrade` | src/pages/grades.tsx:49 | the spread keeps every field of the grade except the four resolved ones, which it replaces |
| `Grades.Enrich` | src/pages/grades.tsx:44-49 | one output record per input grade, in the same order; no grades give an empty list; every field other than the four resolved ones is copied |
| `Grades.EnrichGrades` | src/pages/grades.tsx:39-51 | the page's computation (two table-building loops, then the map over grades) yields exactly `Enrich` of its inputs |
| `Grades.EnrichedStudent` | src/pages/grades.tsx:45 | the resolved student is the embedded copy when present, else the last fetched student whose id is the grade's `studentId`, else null when no student has it |
| `Grades.EnrichedCourse` | src/pages/grades.tsx:46 | the resolved course is the embedded copy when present, else the last fetched course whose id is the grade's `courseId`, else null when no course has it |
| `Grades.EnrichedStudentName` | src/pages/grades.tsx:47 | a non-empty embedded name wins; else a resolved student gives its trimmed full name; else undefined |
| `Grades.EnrichedCourseName` | src/pages/grades.tsx:48 | a non-empty embedded name wins; else a resolved course gives its `name` unchanged; else undefined |
| `Grades.FullName` | src/pages/grades.tsx:47 | the display name of a resolved student never starts or ends with whitespace |
| `Grades.FullNameJoins` | src/pages/grades.tsx:47 | two clean name parts are joined by exactly one space |
| `Grades.FullNameLastOnly` | src/pages/grades.tsx:47 | a missing or empty first name yields the last name alone, without a leading space |
| `Grades.FullNameNoParts` | src/pages/grades.tsx:47 | a student with neither name yields the empty string, not undefined |
| `Grades.FullNameFirstOnly` | src/pages/grades.tsx:47 | a missing or empty last name yields the first name alone, without a trailing space |
| `Grades.EnrichGradeIdempotent` | src/pages/grades.tsx:44-50 | resolving an already resolved grade against the same tables changes nothing |
| `Grades.EnrichIdempotent` | src/pages/grades.tsx:39-51 | enriching the enriched list again with the same students and courses gives the same list |
| `Grades.ResolvedExample` | src/pages/grades.tsx:44-50 | a grade referring to student "Ann Lee" and course "Algebra" by id gets both records and the names "Ann Lee" and "Algebra" |
| `Grades.MissingStudentExample` | src/pages/grades.tsx:45-48 | a grade whose student id matches nothing gets a null student and an undefined student name, while its course resolves normally |
| `Text.Trim` | src/pages/grades.tsx:47 | `trim()` returns the infix of its argument left after removing whitespace at both ends, and the result neither starts nor ends with whitespace |
| `Text.TrimClean` | src/pages/grades.tsx:47 | trimming a string with no whitespace at its ends returns it unchanged |
| `Text.ToLower` | src/pages/dashboard.tsx:89 | `toLowerCase()` keeps the length, lowers each ASCII capital and leaves no upper-case ASCII letter |
| `JsValues.OrEmpty` | src/pages/grades.tsx:42-44 | the empty-list fallback gives a present list as it is, even an empty one, and a missing one as `[]` |
| `JsValues.TruthyText` | src/pages/grades.tsx:47-48 | a string that may be missing is truthy exactly when its empty-string fallback is non-empty |
| `JsValues.OrEmptyText` | src/pages/grades.tsx:47 | a name part reads as itself when present and as `""` otherwise |
| `JsValues.OrZero` | src/pages/dashboard.tsx:21 | the zero fallback is 0 exactly when the number is missing or 0, and otherwise the number |
| `Stats.Reported` | src/pages/dashboard.tsx:21 | `stats?.<counter>` is undefined when the record is missing, and otherwise that counter of the record |
| `Stats.CountOrZero` | src/pages/reports.tsx:48 | a statistics counter with its zero fallback is 0 when the record is missing, and non-zero exactly when the backend reported a non-zero value, which it then equals |
| `Reports.EnrollmentCount` | src/pages/reports.tsx:30 | a present enrollment list counts its length; an absent one falls back to the backend total, or 0 |
| `Reports.CountIgnoresStats` | src/pages/reports.tsx:30 | once the list is present, the statistics do not affect the count |
| `Reports.EmptyListShowsZero` | src/pages/reports.tsx:30 | a fetched empty list shows 0 even when the backend reports enrollments |
| `Reports.FallbackToTotal` | src/pages/reports.tsx:30 | before the list arrives a non-zero backend total is shown as it is |
| `Reports.Report` | src/pages/reports.tsx:48-109 | the summary card and the "Recent Enrollments" card both show `enrollmentCount`; total students and active courses are the backend counters with a 0 fallback |
| `Reports.NothingFetchedShowsZeros` | src/pages/reports.tsx:30-76 | with neither statistics nor list, every count on the page is 0 |
| `Students.StoredStatus` | src/pages/students.tsx:37 | choosing "all" stores the empty filter, any other value is stored as given; the stored filter is never "all" |
| `Students.DisplayedStatus` | src/pages/students.tsx:84 | the select shows "all" exactly when the filter is empty, and otherwise the filter itself |
| `Students.DisplayThenStore` | src/pages/students.tsx:84 | handing the shown value back to the status handler leaves the filter as it was |
| `Students.StoreThenDisplay` | src/pages/students.tsx:37 | after a choice the select shows that choice, with the empty choice shown as "all" |
| `Students.Step` | src/pages/students.tsx:32-38 | typing changes only the search text; choosing a status changes only the filter, to the stored form of the choice |
| `Students.RunKeepsValid` | src/pages/students.tsx:32-38 | from a state whose filter is not "all", no sequence of handler calls makes it "all" |
| `Students.ReachableIsValid` | src/pages/students.tsx:21 | starting from the initial empty state, the filter never becomes "all" |
| `Students.RunSearchIsLastTyped` | src/pages/students.tsx:32-34 | the search text is the last text typed, whatever statuses were chosen after it |
| `Students.RunKeepsSearch` | src/pages/students.tsx:36-38 | choosing statuses never changes the search text |
| `Students.QueryParams` | src/pages/students.tsx:26-29 | an empty search or status is sent as absent; a non-empty one is sent unchanged |
| `Students.QueryNeverAll` | src/pages/students.tsx:26-29 | no reachable state sends the status "all" to the backend |
| `Students.QueryParamsInjective` | src/pages/students.tsx:25-29 | two different filter states always send different query parameters |
| `Students.StudentFilters.constructor` | src/pages/students.tsx:20-21 | both fields start empty |
| `Students.StudentFilters.HandleSearch` | src/pages/students.tsx:32-34 | stores the text as given and leaves the status filter alone |
| `Students.StudentFilters.HandleStatusFilter` | src/pages/students.tsx:36-38 | stores "" for "all" and any other value as given, leaves the search text alone, and leaves a filter that is not "all" |
| `Dashboard.CollapseSpaces` | src/pages/dashboard.tsx:89 | replacing whitespace runs leaves no whitespace and never lengthens the string |
| `Dashboard.CollapseClean` | src/pages/dashboard.tsx:89 | replacing whitespace runs adds no capital |
| `Dashboard.Slug` | src/pages/dashboard.tsx:89 | the slug has no whitespace, no upper-case ASCII letter, and is never longer than the title |
| `Dashboard.ScanInRun` | src/pages/dashboard.tsx:89 | inside a whitespace run, the rest of the run produces nothing |
| `Dashboard.CollapseIsScan` | src/pages/dashboard.tsx:89 | the run replacement equals a left-to-right scan that writes one `-` per maximal whitespace run and copies every other character |
| `Dashboard.SlugIsScan` | src/pages/dashboard.tsx:89 | the slug is the lowercased title with each maximal whitespace run replaced by one `-` |
| `Dashboard.CollapseNoSpace` | src/pages/dashboard.tsx:89 | a string without whitespace is left unchanged by the replacement |
| `Dashboard.SlugIdempotent` | src/pages/dashboard.tsx:89 | the slug of a slug is the slug itself |
| `Dashboard.CollapseWord` | src/pages/dashboard.tsx:89 | a whitespace-free word is copied in front of the replacement of what follows |
| `Dashboard.CollapseLeadingSpace` | src/pages/dashboard.tsx:89 | one space before a word becomes one `-` |
| `Dashboard.CollapseTwoWords` | src/pages/dashboard.tsx:89 | two words separated by one space become the words joined by `-` |
| `Dashboard.SlugTwoWords` | src/pages/dashboard.tsx:89 | a title that lowercases to two words and a space slugs to the words joined by `-` |
| `Dashboard.TotalStudentsSlug` | src/pages/dashboard.tsx:20 | "Total Students" slugs to `total-students` |
| `Dashboard.ActiveCoursesSlug` | src/pages/dashboard.tsx:29 | "Active Courses" slugs to `active-courses` |
| `Dashboard.TotalEnrollmentsSlug` | src/pages/dashboard.tsx:38 | "Total Enrollments" slugs to `total-enrollments` |
| `Dashboard.AverageGradeSlug` | src/pages/dashboard.tsx:47 | "Average Grade" slugs to `average-grade` |
| `Dashboard.TitlesSlugged` | src/pages/dashboard.tsx:18-55 | the four card titles, in order, slug to the four expected ids |
| `Dashboard.StatsCards` | src/pages/dashboard.tsx:18-55 | exactly four cards, titled "Total Students", "Active Courses", "Total Enrollments", "Average Grade" in that order |
| `Dashboard.CardCounts` | src/pages/dashboard.tsx:21-39 | the student, course and enrollment cards show the backend counter, or 0 when it is missing or 0; with no statistics all three show 0 |
| `Dashboard.CardTestId` | src/pages/dashboard.tsx:89 | a card's test id is `card-` followed by the title's slug, and holds no whitespace and no capital |
| `Dashboard.ValueTestId` | src/pages/dashboard.tsx:94 | a card value's test id is `text-` followed by the title's slug, and holds no whitespace and no capital |
| `Dashboard.CardTestIdsDistinct` | src/pages/dashboard.tsx:89-94 | no two cards share a card test id or a value test id |

## Left out

- JSX rendering, icons, colours and layout of every page, and the pages with
  no rule of their own: `src/components/layout/header.tsx` and
  `src/pages/courses.tsx` (display only).
- Routing in `src/App.tsx`: it depends on the routing library's matching,
  which is not part of this model.
- Fetching, refetching after form submission, loading skeletons
  (`src/pages/dashboard.tsx:57-75`), query caching and `useMemo`
  memoisation: framework and network behaviour; fetched data are parameters.
- The authentication redirect and the login page (`src/pages/login.tsx`):
  the credential is the Basic form of section 2 of RFC 7617 encoded with
  Base64 (section 4 of RFC 4648) by a platform built-in, and the rest is
  browser storage and navigation I/O.
- The average-grade values (`src/pages/dashboard.tsx:48` with
  `toFixed(2)`, `src/pages/reports.tsx:90`): floating-point formatting. The
  dashboard's fourth card carries the backend's raw average, unformatted.
- The hard-coded change strings such as "+8.2%": constants with no rule.
- `@/lib/api`, `@/lib/auth`, the grade, student and course tables and
  forms: these modules are not part of this model.
- Text.ToLower: lowers only the ASCII capitals; `toLowerCase` maps all of
  Unicode, and for a few characters (such as U+0130) lengthens the string,
  so the slug length bound holds for the model, not for every Unicode title.
- JsValues.OrZero: counters are integers; a `NaN` counter, which is falsy in
  JavaScript and so also shows 0, is not modelled.
- Grades.EnrichGrade: an embedded `student`/`course` is modelled as a record
  (always truthy) or absent, and an embedded `studentName`/`courseName` as a
  string or absent; other kinds of value reaching those untyped fields are
  not modelled. Ids are strings.
