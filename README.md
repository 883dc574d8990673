# Receipt audit core in Dafny

This project models the command-line receipt audit. An auditor pastes the
link of an intern's Google Drive folder. The program then:

- resolves the link to a folder id and names the intern after the folder;
- walks the folder tree, page by page, collecting image and PDF receipts;
- runs an analyser on each receipt and marks the result `DUPLICATE` when the
  master ledger already knows its transaction reference (UTR);
- appends one row per receipt to the local `audit_logs` table and prints a
  coloured line for it;
- prints a per-status summary read back from that table.

Three source files make up the modelled core:

- `src/services/drive_manager.py` is module `DriveManager`. It covers link
  parsing, with its three regular expressions and the raw-id fallback, the
  folder metadata with its owner fallback, and the recursive paged listing.
- `src/audit_folder.py` is module `AuditFolder`. It covers the audit's own
  link parser, the recursive fetch, the duplicate override, the log line, the
  summary total and the whole `start_audit` run.
- `src/services/session_manager.py` is module `Sessions`. It covers the
  `audit_logs` table as a class holding a sequence of rows, the normalisation
  on insert, and the `GROUP BY status` summary query.

Three supporting modules are shared by the others:

- `Options` is an option type.
- `PyStr` gives Python's `str.isspace`, `str.strip`, substring `in` and the
  truthiness of `None`, `""` and `0`.
- `DriveTree` is the Drive service seen as a finite tree. A folder's
  `Listing` is its pages in `nextPageToken` order. `failsAt` optionally marks
  the page request that raises.

The regular expressions are modelled on Python's `re.search` semantics:

- the leftmost match wins;
- the group `[a-zA-Z0-9-_]+` is greedy, and its `-` is a literal hyphen;
- `.*` does not cross a newline;
- `$` also matches just before a final newline.

Lemmas prove that the computed results are exactly what the regex semantics
describe.

The imperative parts keep their loops: `list_files`, `_fetch_files_recursive`,
the total in `_print_summary` and the audit loop. Each loop is a `method`
proved equal to a specification function, and the lemmas are about those
functions. The table is a `class` whose methods append rows. The summary's
properties are proved about the function the query method is tied to.

## Model

| member | source | states |
|---|---|---|
| DriveManager.IdRun | src/services/drive_manager.py:50-52 | the greedy group `([a-zA-Z0-9-_]+)` takes the longest prefix made only of id characters |
| DriveManager.SearchMarker | src/services/drive_manager.py:50-51 | `re.search` of `folders/` or `id=` followed by an id run: `None` exactly when there is no match anywhere; otherwise the maximal, nonempty id run after the leftmost match |
| DriveManager.AnchorBefore | src/services/drive_manager.py:52 | the backward scan is true exactly when a `drive.google.com/` anchor lies before the position and reaches it without crossing a newline |
| DriveManager.CatchAllIsRegexMatch | src/services/drive_manager.py:52 | the catch-all parser finds a group exactly when `drive\.google\.com\/.*\/([a-zA-Z0-9-_]+)$` matches, and every match yields that same group, the id run of the last path segment |
| DriveManager.ExtractFolderIdSpec | src/services/drive_manager.py:43-64 | the patterns are tried in order and the first that matches decides; with no match, the stripped input is returned if it has no `http` and is longer than 15; `None` exactly when none of these applies |
| DriveManager.BlankInputYieldsEmptyId | src/services/drive_manager.py:61-62 | the length test looks at the input before stripping, so a link of more than 15 spaces yields the empty id and not `None` |
| PyStr.Strip | src/services/drive_manager.py:62 | `str.strip` returns a slice of the input with only whitespace removed around it, and the slice neither starts nor ends with whitespace |
| DriveManager.GetFolderMetadata | src/services/drive_manager.py:66-88 | with no owners, the answer's `name` and `id` with owner `Unknown`; with a first owner that has a `displayName`, the answer's `name` and `id` with that owner; a failed request, or a first owner without `displayName` (a `KeyError` inside the `try`), gives the fallback `Unknown`/`Unknown` with the given id |
| DriveManager.MetadataReadsFirstOwnerOnly | src/services/drive_manager.py:78-79 | owners after the first never change the metadata |
| DriveManager.ListFiles | src/services/drive_manager.py:90-142 | the paging loop returns exactly the specified listing, every item of which has one of `TARGET_MIMES` |
| DriveManager.CollectedListing | src/services/drive_manager.py:23-30 | every collected item's type is one of the six `TARGET_MIMES` |
| DriveManager.ListFilesNonRecursive | src/services/drive_manager.py:116-133 | with `recursive=False`, the result is exactly the served direct children with a target type, in listing order |
| DriveManager.SubfolderInPlace | src/services/drive_manager.py:117-121 | depth-first order: a sub-folder's files follow what came before it in the listing |
| DriveManager.FailureKeepsServedPrefix | src/services/drive_manager.py:139-142 | an exception at page `k` yields what pages before `k` produced, which is a prefix of the full result |
| AuditFolder.ExtractFolderIdSpec | src/audit_folder.py:33-42 | `folders/`, then `id=`, each the leftmost match with the maximal id run; otherwise the link itself; the result is either the link or a nonempty id run |
| AuditFolder.FetchFilesRecursive | src/audit_folder.py:94-115 | the paging loop returns exactly the specified fetch; every kept type contains `image/` or `pdf`; an exception ends that folder silently |
| AuditFolder.TargetMimesAreKept | src/audit_folder.py:109 | the substring test keeps every type of `TARGET_MIMES` |
| AuditFolder.GifKeptOnlyByAudit | src/audit_folder.py:109 | the substring test is looser: `image/gif` is kept by the audit but not by `DriveManager` |
| AuditFolder.DriveListingIsTargetFilter | src/audit_folder.py:94-115 | on the same tree, the recursive `list_files` equals the audit's fetch restricted to `TARGET_MIMES`, in the same order |
| AuditFolder.InternName | src/audit_folder.py:52-59 | the intern is the folder's `name`, or `Unknown_Intern` when the request raises or there is no name |
| AuditFolder.ShortName | src/audit_folder.py:126 | a shown name has at most 20 characters; it is the name itself exactly when the name fits; otherwise the first 18 characters plus `..` |
| AuditFolder.PrintLog | src/audit_folder.py:117-131 | the colour follows the status; the reference shown is the reference when truthy and `N/A` otherwise; an amount is shown exactly when truthy, as that amount; the file name is shortened |
| AuditFolder.PadRight | src/audit_folder.py:131 | `{s:<w}` keeps `s` and pads it with spaces to width `w` |
| AuditFolder.Render | src/audit_folder.py:131 | the printed line starts with the status colour and ends with the file name and the reset code |
| AuditFolder.PrintSummary | src/audit_folder.py:133-150 | no total (the `TypeError` of `{status:<15}`) exactly when some summary row has a `None` status; otherwise the verified total is the amount of the last `SUCCESS` row, or 0 without one |
| AuditFolder.SummaryHasNullStatus | src/audit_folder.py:145 | the summary has a `None` status exactly when some row of the folder, from any run, has a `NULL` status |
| AuditFolder.VerifiedTotalIsSuccessSum | src/audit_folder.py:133-149 | read from the recorder, the verified total is the summed amount of the folder's `SUCCESS` rows |
| AuditFolder.AuditRowsFacts | src/audit_folder.py:67-86 | one row per listed file, in order; each row has the intern name, folder id and file name; its status is `DUPLICATE` when the UTR is truthy and the ledger knows it, and the analyser's status otherwise |
| AuditFolder.AuditSummaryCountsEveryFile | src/audit_folder.py:91-92 | after the audit, the summary counts each listed file once, on top of the folder's rows from earlier runs |
| AuditFolder.AuditSession.AuditFiles | src/audit_folder.py:67-89 | the audit loop appends exactly the specified rows to the table and prints the specified lines |
| AuditFolder.AuditSession.StartAudit | src/audit_folder.py:44-92 | a run appends one row per fetched file to the table and prints their lines; the summary raises exactly when some row of the folder has a `NULL` status, and otherwise its verified total is the folder's summed `SUCCESS` amount |
| AuditFolder.AuditSession.constructor | src/audit_folder.py:26-31 | the session opens a recorder whose table exists and holds the stored rows |
| Sessions.StoredUtr | src/services/session_manager.py:51 | the stored reference is never empty: the reference when truthy, otherwise `N/A` |
| Sessions.StoredAmount | src/services/session_manager.py:52 | a stored amount is nonzero exactly when the given amount is truthy, and then it is that amount |
| Sessions.FolderRows | src/services/session_manager.py:70 | `WHERE folder_id = ?` keeps exactly the table's rows of that folder |
| Sessions.Statuses | src/services/session_manager.py:71 | the `GROUP BY` keys are distinct; each occurs in some row, and every row's status is one of them |
| Sessions.SessionManager.constructor | src/services/session_manager.py:12-15 | opening the file creates the table if missing and keeps stored rows |
| Sessions.SessionManager.InitDb | src/services/session_manager.py:17-36 | `CREATE TABLE IF NOT EXISTS` leaves the table existing and its rows unchanged |
| Sessions.SessionManager.LogTransaction | src/services/session_manager.py:38-60 | one normalised row is appended and nothing else changes |
| Sessions.SessionManager.GetSessionStats | src/services/session_manager.py:62-76 | the query is read-only and returns the grouped summary of the folder's rows |
| Sessions.StatsRowsDescribeFolder | src/services/session_manager.py:67-72 | each result row holds the count (at least 1) and summed amount of the folder's rows with its status |
| Sessions.StatsStatusesDistinct | src/services/session_manager.py:71 | no status appears in two result rows |
| Sessions.StatsCoverFolder | src/services/session_manager.py:67-72 | every status among the folder's rows has a result row; a status without one has count 0 and sum 0 |
| Sessions.StatsAddUp | src/services/session_manager.py:67-72 | the counts add up to the number of the folder's rows, and the sums to their total amount |
| Sessions.StatsIgnoreOtherFolders | src/services/session_manager.py:70 | appending a row of another folder leaves a folder's summary unchanged |
| Sessions.StatsIncludeEarlierRuns | src/services/session_manager.py:62-76 | the summary reads the whole table, so the folder's rows from earlier runs are counted along with the new ones |

## Left out

- The Google API plumbing is not modelled: credentials, `build`, query strings and `fields`. Page tokens are abstracted to the order of pages. This also drops the difference between `is None` (`list_files`) and `not page_token` (`_fetch_files_recursive`), which matters only for an empty-string token.
- Cyclic folder graphs are not modelled: the Drive tree is a finite datatype, so a folder that contains itself cannot be expressed.
- Missing dictionary keys are not modelled: every Drive entry carries its `id`, `name` and `mimeType`. The source reacts in three ways to a missing key:
  - `list_files` reads entries with `.get`, so an entry without `mimeType` is skipped; in the model any entry whose type is neither the folder type nor a target type is skipped.
  - `_fetch_files_recursive` reads `item['mimeType']` and `item['id']`. A missing key raises `KeyError`, which its `except Exception: pass` catches, so the folder's paging ends at that entry. Entries earlier on the same page are kept. The model ends a folder's paging only at a whole page request.
  - `start_audit` reads `file['id']`, `file['name']` and `data['utr']`. A `KeyError` there propagates and ends the audit. The model always has these fields; a result whose `utr` is absent or `None` is modelled as `None`.
- The analyser (`analyze_file`), the ledger (`load_ledger`, `is_duplicate`) and `datetime.now()` are parameters: `analyze`, `isDuplicate` and `clock`. In the repository, `VisionEngine` defines no `analyze_file` and `SheetManager` defines neither `load_ledger` nor `is_duplicate`. The model gives `start_audit` the behaviour its calls describe. `src/services/vision_engine.py` and `src/services/sheet_manager.py` are not part of this model.
- AuditFolder.AuditSession.constructor: it does not build the sheet, vision or Drive collaborators. `SheetManager(sheet_id)` is called with an argument, which the sheet manager's constructor does not take. Only the recorder is modelled.
- The SQLite connection, `db_path` and the `id AUTOINCREMENT` column are not modelled. The table is a sequence of rows and a flag saying whether the table exists.
- Sessions.SessionManager.GetSessionStats: SQL leaves the order of `GROUP BY` result rows open. The model fixes first-appearance order, and the lemmas state nothing that depends on it.
- Amounts are exact reals, so floating-point rounding of `SUM(amount)` is not modelled.
- AuditFolder.Render: Python's `str` of a float is the parameter `showNumber`.
- The summary's printed table and its `:,.2f` formatting are not modelled; only the verified total is. The `TypeError` that `{status:<15}` raises on a `NULL` status is modelled: `AuditFolder.PrintSummary` and `AuditFolder.AuditSession.StartAudit` then return no total. Other `print` output is also left out: banners and the debug lines for skipped files.
- The UI (`src/ui`), `src/main.py`, `src/services/audit_manager.py` and `src/services/auth_manager.py` are outside the core.
