# Final-project investment ledger, modelled in Dafny

The system is a small class web application in which students receive a
budget and invest it in each other's final projects. Its core is an
**investment ledger** over three keyed collections of a document store:

- `students/{username}` with a `budget` and a `remaining_budget`;
- `projects/{project_id}` with a `project_name` of the form `"<student>: <title>"`;
- `investments/{auto id}` with `username`, `project_id`, `amount` and `timestamp`.

This project models that core and proves properties of the model:

- `seqs.dfy` (module `Seqs`): `Option`, the first index of an element
  (the first `:` that `split(':', 1)` cuts at), the present values of a
  column (pandas `dropna()`), and order-preserving de-duplication (pandas
  `unique()` / `drop_duplicates`).
- `text.dfy` (module `Text`): Python's `str.strip()`, `str.lower()`,
  `str.split(sep)` and `f'{n}'` for a natural number.
- `project_names.dfy` (module `ProjectNames`): parsing a project name into
  its owning student and its title, and re-joining it in canonical form.
- `ledger.dfy` (module `Ledger`): the store as a value (`State`), each
  database operation as a function on it, and the ledger invariant: every
  investment names a stored student, and each student's remaining budget
  is its budget minus the total it has invested.
- `migration.dfy` (module `Migration`): `migrate_from_csv` and the
  start-up code that runs it.
- `portal.dfy` (module `Portal`): the computations of the student and
  admin pages: admission, ownership, hiding one's own projects, the invest
  guard, the earned figure and the per-project earnings.
- `excel_import.dfy` (module `ExcelImport`): the offline spreadsheet
  import that produces the student and project tables.
- `database.dfy` (module `Database`): the store as an object (`Store`)
  whose three collections are updated in place. Each method is proved to
  leave exactly the state the corresponding `Ledger` or `Migration`
  function describes, and to keep the ledger invariant wherever that
  function does.

The clock reading that becomes an investment's timestamp and the rows read
from `projects.csv` and the spreadsheet are parameters.

`add_investment` does not check the sign of the amount (database.py:63-83,
`Ledger.InvestAcceptsNegativeAmount`); only the student page's guard at
app.py:121 does (`Portal.PressInvestKeepsAmountsPositive`). An admin's
budget edit has no floor at 0 (`Ledger.UpsertStudentHasNoFloor`).

## Model

| member | source | states |
|---|---|---|
| Seqs.IndexOf | database.py:95-96 | the result is the position of the first occurrence of the element, and `None` exactly when it does not occur |
| Seqs.Dedup | import_from_excel.py:11 | the de-duplicated list has the same members as the input and no repeats |
| Seqs.DedupFirstOccurrenceOrder | import_from_excel.py:24 | de-duplication keeps first occurrences in their original order |
| Seqs.Present | import_from_excel.py:11 | `dropna()` on one column: the present values are exactly the values of the present cells |
| Seqs.PresentFirstOccurrenceOrder | import_from_excel.py:11 | `dropna()` keeps row order: of two present values, the one first met earlier in the kept list is first met earlier among the cells |
| Text.Trim | database.py:97-101 | `strip()` leaves no whitespace at either end, keeps only characters of the input, and yields "" exactly for a blank string |
| Text.TrimFixesTrimmed | database.py:97-101 | a string is its own strip exactly when neither end is whitespace |
| Text.TrimSkipsLeadingSpace | database.py:98 | a leading whitespace character does not change the strip |
| Text.TrimSkipsTrailingSpace | database.py:98 | a trailing whitespace character does not change the strip |
| Text.TrimIsInfix | database.py:97-101 | the strip is a contiguous slice `s[i..j]` of the input with only whitespace before `i` and from `j` on: exactly the leading and trailing whitespace is removed and the middle is kept intact |
| Text.Lower | app.py:95 | `lower()` keeps the length and lower-cases each character |
| Text.LowerIdempotent | app.py:95 | lower-casing twice is lower-casing once |
| Text.TrimLowerCommute | app.py:95 | `s.lower().strip()` and `s.strip().lower()` agree |
| Text.Split | app.py:106 | `split(':')` yields at least one piece and no piece contains the separator |
| Text.JoinSplit | app.py:106 | joining the pieces of a split with the separator gives back the string |
| Text.Decimal | import_from_excel.py:26 | `f'{n}'` is a non-empty string of digits without a leading zero, one digit exactly below 10, whose decimal value is `n` |
| Text.DecimalInjective | import_from_excel.py:26 | different numbers render to different strings |
| ProjectNames.Parse | database.py:95-101 | the student part and the title are both stripped and the student part holds no colon; a name without a colon parses to its whole strip as the student and an empty title |
| ProjectNames.ParseSplitsAtFirstColon | database.py:95-98 | with the first colon at position `i`, the student is the strip of the text before `i` and the title the strip of everything after it, later colons included |
| ProjectNames.Normalize | database.py:103 | definition: the stored name `f'{student_name}: {project_title}'` built from the parsed parts |
| ProjectNames.ParseCanonical | database.py:95-103 | parsing `student + ": " + title` with a stripped, colon-free student and a stripped title gives back exactly those two parts |
| ProjectNames.ParseNormalize | database.py:95-103 | normalising a name keeps its parse |
| ProjectNames.NormalizeIdempotent | database.py:103 | normalising an already-normalised name returns it unchanged |
| Ledger.SpentByStranger | database.py:77-82 | a user who made no investment has invested 0 |
| Ledger.Spent | database.py:77-82 | definition: the sum of the amounts of one user's investments |
| Ledger.Consistent | database.py:72-82 | definition of the ledger invariant: every investment names a stored student, and each remaining budget is its budget minus that student's `Spent` |
| Ledger.SpentNonNegative | app.py:121 | with positive amounts only, every total invested is non-negative |
| Ledger.EmptyIsConsistent | database.py:111-116 | the empty store satisfies the ledger invariant |
| Ledger.UpsertStudent | database.py:48-57 | a new student gets budget = remaining = the given budget; an existing one gets the new budget with budget − remaining unchanged; no other student, project or investment changes |
| Ledger.UpsertStudentKeepsConsistent | database.py:52-57 | add_or_update_student preserves the ledger invariant |
| Ledger.UpsertStudentHasNoFloor | database.py:53-55 | lowering a budget below what was invested leaves a negative remaining budget |
| Ledger.UpsertProject | database.py:59-61 | only the given project's name is (over)written; students and investments are unchanged |
| Ledger.Invest | database.py:63-83 | "Student not found" exactly for an absent user and "Insufficient budget" exactly when remaining < amount, both changing nothing; otherwise remaining drops by exactly the amount and stays ≥ 0, exactly one investment is appended, and nothing else changes |
| Ledger.InvestKeepsConsistent | database.py:72-82 | add_investment preserves the ledger invariant whatever its outcome |
| Ledger.InvestAcceptsNegativeAmount | database.py:72 | a negative amount is not rejected: it succeeds and raises the remaining budget |
| Ledger.SecondInvestmentRefused | database.py:64-75 | of two serialised calls that together exceed the remaining budget, the second is refused and the budget stays at what the first left |
| Ledger.RacedInvestAsWritten | database.py:63-83 | definition: two calls whose first attempts read the same store; an attempt refused there writes nothing, otherwise both investments are written at once, the first debit commits, and the second call is retried as a fresh `Invest` on the committed store |
| Ledger.RacedInvestLeavesUndebitedInvestment | database.py:63-83 | two concurrent investments of 60 against a remaining budget of 100, as the code runs them, leave two investments and a remaining budget of 40, so the store is inconsistent |
| Ledger.SerialisedInvestsKeepConsistent | database.py:63-83 | two add_investment calls run one after the other keep the ledger invariant |
| Ledger.ClearInvestments | app.py:159-168 | no investment remains, every student's remaining budget equals its unchanged budget, projects are unchanged, and the result satisfies the ledger invariant from any store |
| Ledger.RemainingWithinBudget | database.py:72-75 | in a consistent store with positive amounts, no remaining budget exceeds its budget |
| Migration.ApplyProjectRows | database.py:108-109 | the written ids are the old ones plus the rows' ids, and ids no row mentions keep their names |
| Migration.RowStudent | database.py:95-102 | definition: the parsed, stripped student of one `projects.csv` row |
| Migration.NormalizedRow | database.py:103 | definition: the row with its name rewritten as `student: title` |
| Migration.MigratedNames | database.py:102-104 | definition: the set of the rows' students, duplicates merged |
| Migration.LastRowWins | database.py:108-109 | the last row for an id decides that project's stored name, the row's normalised name |
| Migration.MigratedProjectNamesCanonical | database.py:103-109 | every project name the migration writes is already canonical |
| Migration.Migrate | database.py:85-109 | each distinct stripped student name gets budget = remaining = 100, overwriting any record; other students and all investments are unchanged; projects are as the row-by-row writes leave them |
| Migration.MigrateKeepsConsistentIff | database.py:104-107 | on a consistent store the migration keeps the invariant exactly when no student it reseeds has invested anything |
| Migration.SessionStart | app.py:33-35 | definition: a session without a `db_migrated` entry migrates; one holding the entry, True or False, leaves the store as it is |
| Migration.FirstRunMigration | app.py:32-35 | definition of the evidently intended start-up: migrate only while the store is empty |
| Migration.SessionMigrationBreaksLedger | app.py:32-35 | a new session re-migrates a consistent store with an investment and leaves it inconsistent |
| Migration.ResetSessionStaysEmpty | app.py:151-152 | setting the session flag to False after reset_db does not reopen the start-up migration |
| Migration.FirstRunMigrationKeepsConsistent | app.py:32-35 | migrating only on an empty store never breaks the ledger invariant |
| Migration.LaterSessionsDoNotRemigrate | app.py:32-35 | once a non-empty `projects.csv` has been migrated, migrating on first run again changes nothing |
| Migration.ResetStoreRemigrates | app.py:151-152 | after reset_db the first-run migration runs again and writes the rows' projects and students |
| Portal.DisplayedOwnerIsParsedStudent | app.py:106 | the project list's owner (split on every colon) is the migration's parsed student |
| Portal.StudentAdmitted | app.py:73-85 | definition: the page goes on for a non-empty username that is exactly a stored key |
| Portal.DisplayedOwner | app.py:106 | definition: the strip of the text before the first colon, or of the whole name without one |
| Portal.OwnedBy | app.py:95 | definition: the project's stripped student equals the stripped username, ignoring case |
| Portal.HiddenFrom | app.py:109 | definition: the displayed owner equals the stripped username, ignoring case |
| Portal.HiddenExactlyWhenOwned | app.py:95-110 | a project is hidden from a student exactly when the student owns it, ignoring case and surrounding spaces |
| Portal.OwnershipIgnoresCase | app.py:95 | a username and its lower-cased spelling own the same projects |
| Portal.SampleProjectOwner | app.py:95 | the project "Alice: App" parses to the student "Alice", who owns it |
| Portal.AdmissionStricterThanOwnership | app.py:83-85 | with only "Alice" stored, "Alice" is admitted and "alice" is not, although "alice" owns exactly the projects "Alice" owns |
| Portal.Earned | app.py:95-101 | definition: the sum of the amounts of the investments whose project the student owns |
| Portal.ProjectTotal | app.py:224 | definition: the sum of the amounts invested in one project |
| Portal.EarnedWithoutOwnedProject | app.py:96-100 | a student who owns no project has earned 0 |
| Portal.EarnedFromSingleProject | app.py:95-98 | a student owning exactly one project has earned exactly that project's total investment |
| Portal.EarningsTable | app.py:223-225 | the earnings table has an entry exactly for each stored project with at least one investment, and that entry is the project's total investment |
| Portal.InvestCreditsProject | app.py:224 | a successful investment adds its amount to its project's total and to no other project's |
| Portal.InvestCreditsOwner | app.py:95-98 | a successful investment adds its amount to the earned figure of the project's owners and of nobody else |
| Portal.InvestGuard | app.py:121 | definition: the amount is positive and at most the remaining budget the page shows |
| Portal.PressInvest | app.py:120-123 | definition: a press that passes the guard calls add_investment; one that fails it changes nothing |
| Portal.PressInvestKeepsAmountsPositive | app.py:120-123 | investments made through the student page all have positive amounts |
| Portal.FreshPressSucceeds | app.py:120-123 | with an up-to-date remaining budget, a press that passes the guard succeeds and leaves a smaller, non-negative remaining budget |
| ExcelImport.Clients | import_from_excel.py:11 | the non-missing Client cells are exactly the clients of the rows |
| ExcelImport.ClientCells | import_from_excel.py:11 | definition: the Client column, one possibly missing cell per row |
| ExcelImport.ImportedStudentsAreTheClients | import_from_excel.py:11-16 | every client appears exactly once in the student table, each with budget and remaining budget 600 |
| ExcelImport.ImportStudents | import_from_excel.py:11-16 | definition: one record per distinct client, in order, with budget and remaining budget 600 |
| ExcelImport.ImportedStudentsInFirstAppearanceOrder | import_from_excel.py:11 | of two students, the earlier one's first row comes before the later one's first row |
| ExcelImport.KeepsProject | import_from_excel.py:21-22 | definition: both cells are present and neither is blank after stripping |
| ExcelImport.ProjectNameOf | import_from_excel.py:23 | definition: the stripped client, `": "`, and the stripped title |
| ExcelImport.NameCells | import_from_excel.py:21-23 | definition: each row's project name, or nothing for a row the filter drops |
| ExcelImport.CandidateNames | import_from_excel.py:21-23 | the candidate names are exactly the names of rows with both cells present and non-blank after stripping |
| ExcelImport.ProjectId | import_from_excel.py:26 | definition: `f'P{i+1}'` |
| ExcelImport.ImportProjects | import_from_excel.py:21-26 | definition: the distinct kept names in order, each with the id of its position |
| ExcelImport.ProjectIdsDistinct | import_from_excel.py:26 | distinct positions get distinct ids |
| ExcelImport.ImportedProjectIdsDistinct | import_from_excel.py:25-26 | the ids are P1..Pn in table order and pairwise distinct |
| ExcelImport.ImportedProjectNamesAreTheKeptRows | import_from_excel.py:21-24 | the project names are pairwise distinct, each comes from a kept row, and every kept row's name is listed |
| ExcelImport.ImportedProjectsInFirstAppearanceOrder | import_from_excel.py:24 | of rows sharing a name the first is kept: of two projects, the earlier one's first kept row comes before the later one's |
| ExcelImport.ImportedNameSurvivesMigration | import_from_excel.py:23 | a name built from a colon-free client parses back into the stripped client and title and is already canonical |
| Database.Store.constructor | database.py:24-26 | a new store is empty and consistent |
| Database.Store.AddOrUpdateStudent | database.py:48-57 | the new state is `UpsertStudent` of the old one, and the ledger invariant is kept |
| Database.Store.AddOrUpdateProject | database.py:59-61 | the new state is `UpsertProject` of the old one, and the ledger invariant is kept |
| Database.Store.AddInvestment | database.py:63-83 | the outcome and new state are those of `Invest` on the old state, and the ledger invariant is kept |
| Database.Store.ResetDb | database.py:111-116 | after deleting every document of every collection, all three collections are empty |
| Database.Store.ClearAllInvestments | app.py:159-168 | after the two sweeps the state is `ClearInvestments` of the old one, which is consistent |
| Database.Store.ParseRows | database.py:92-103 | the first migration loop yields, row by row, each row's stripped student and the row with its normalised name |
| Database.Store.SeedStudents | database.py:106-107 | every named student is (over)written with budget and remaining budget 100; nothing else changes |
| Database.Store.WriteProjects | database.py:108-109 | writing the normalised rows in order leaves the projects `ApplyProjectRows` describes |
| Database.Store.MigrateFromCsv | database.py:85-109 | the new state is `Migrate` of the old one |
| Database.Store.MigrateOnFirstRun | app.py:32-35 | (corrected; see Findings) the new state is `FirstRunMigration` of the old one, and the ledger invariant is kept |

## Left out

- The document-store client and credentials. `Ledger.Invest` models one call of add_investment that runs without interference. This is not a guarantee of the code: the investment is written outside the transaction (database.py:77-82), so concurrent calls can leave an investment without its debit (see Findings). Concurrency is modelled only for the one interleaving `Ledger.RacedInvestAsWritten` describes (two calls whose first attempts read the same store), not for any number of calls or retries.
- Investment document ids: an investment is identified by its position in the sequence.
- The clock: `datetime.now().isoformat()` is the `timestamp` parameter.
- The web framework: widgets, reruns, the 10-second read cache and the admin password. The page's remaining budget may be stale; `Portal.PressInvest` takes it as a parameter.
- The session state is reduced to the one `db_migrated` entry the start-up code reads (`Migration.SessionStart`).
- File and spreadsheet I/O and dataframe mechanics: the rows of `projects.csv` and of the spreadsheet are parameters, and writing `students.csv` / `projects.csv` is not modelled; the application never reads `students.csv`.
- Display formatting (`f"${x:.2f}"`, date formatting), the admin page's tables other than the per-project earnings, and that table's Student and Project Title columns (app.py:226-228).
- NaN or non-string project names from CSV parsing; a missing spreadsheet cell is `None`.
- Non-string spreadsheet cells: a numeric Project Title survives `dropna()` and makes `.str.strip()` yield NaN; the model's cells are `Option<string>`, so it does not capture that case.
- Portal.Earned: with no stored project, app.py:95 raises `KeyError` on the missing `project_name` column; the model returns 0.
- Portal.StudentAdmitted: with no stored student, app.py:83 raises `KeyError` on the missing `username` column; the model answers "not admitted".
- Text.Trim: strips only the ASCII whitespace Python strips (space, U+0009-U+000D and U+001C-U+001F), not its non-ASCII whitespace (U+0085, U+00A0, U+1680, U+2000-U+200A, U+2028, U+2029, U+202F, U+205F, U+3000).
- Text.Lower: lower-cases only ASCII letters; Python's Unicode case mapping is not modelled.
- Ledger.UpsertStudent: the defaults of `student.get('budget', 0)` and `student.get('remaining_budget', budget)`, and the clear-all sweep's skip of a student without a `budget`, never apply, because every writer stores both fields.
- The order in which `set(students)` and the collection streams are iterated: the methods that loop over sets prove the same result for every order.

## Findings

| source | as written | input that shows it | evidently intended | confidence | as-written member | corrected member |
|---|---|---|---|---|---|---|
| app.py:32-35 | migrate_from_csv runs whenever a browser session has no `db_migrated` entry, which is every new session, so existing students are reset to budget and remaining budget 100 while their investments stay | student "A" with budget 100, remaining 40 and one investment of 60; a new session with a `projects.csv` row naming "A" leaves remaining 100 | migrate only on the first run, i.e. while the store is empty | medium, not executed | Migration.SessionMigrationBreaksLedger | Migration.FirstRunMigrationKeepsConsistent |
| app.py:151-152 | after reset_db the flag is set to False "to allow re-migration", but the start-up test checks only that the entry is absent, so the admin's session keeps the empty store | reset_db followed by a rerun in the same session | re-migrate after a reset | low, latent: the confirmation checkbox is created inside the button's branch (app.py:149-150), so on an ordinary click it is unticked and reset_db() is not reached; not executed | Migration.ResetSessionStaysEmpty | Migration.ResetStoreRemigrates |
| database.py:63-83 | the investment is added with `investments_ref().add` outside the transaction, while only the debit at line 75 waits for the commit; when two calls race, the loser's first attempt has already written its investment before its retry raises "Insufficient budget" | student "A" with budget and remaining budget 100 and no investments; two concurrent calls investing 60 leave two investments of 60 and a remaining budget of 40 | write the investment through the transaction so that it commits together with the debit | plausible, not executed | Ledger.RacedInvestLeavesUndebitedInvestment | Ledger.SerialisedInvestsKeepConsistent |
