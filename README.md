# Occurrence tracking: evidence workflow and access rules, in Dafny

This project models the core of a Laravel application that tracks
"occurrences" (reported incident and compliance records). Each occurrence may
carry a PDF evidence file. The evidence is approved or rejected, and every
rejection leaves a row in a history table. The model covers:

- the occurrence controller: the per-user listing filter, creating and
  editing an occurrence, replacing its evidence, approving and rejecting the
  evidence (with the history row), deleting an occurrence, the rejection
  history, and the dashboard's derived status, counters and groupings;
- registration: the default user type, the automatic approval decision and
  the inserted user;
- the `approved` validation rule;
- the `isAdmin` middleware, and the route group that puts it in front of user
  management;
- the user directory: list, partial update with a unique email, delete.

The database is one object (`Schema.Database`) holding the `products`,
`pdf_history` and `users` tables. Each table is a sequence of rows in
primary-key order. The request handlers are methods that change that object.
Each method's postcondition gives the complete new contents of the database as
a function of the old contents (`Database.Contents()`), so every column and
table the method does not write is stated to be unchanged. The queries (the
listing, the history, the grouped counts) and the rules (status derivation,
the approval rule, the admin gate) are functions. The dashboard's `foreach`
is a method with a loop, proved against counting functions.

The following are parameters:

- the authenticated user;
- the current time;
- the path under which the file store keeps an upload;
- the password hash;
- the verdict of the framework's `email` format rule;
- the verdict of its `required|date` rule on an occurrence's start and due
  dates;
- the database default of `products.confirmEvidency`
  (`Database.confirmEvidencyDefault`). It decides whether an occurrence
  stored with a file starts out awaiting approval (NULL) or unclassified
  (any other value).

Dates and times are integers.

Behaviour the model keeps, because the code behaves this way:

- `approveEvidency` has no precondition. It approves an occurrence that has no
  file, and one that was rejected before. The dashboard keeps showing an
  approved occurrence without a file as Overdue or Pending.
- `confirmEvidency` is free text. Any value other than NULL, "Aprovado" and
  "Reprovado" on an occurrence with a file gets the empty label and no counter.
  The dashboard therefore has a sixth outcome besides its five statuses.
- "No file" follows PHP truthiness: a `pdf_path` of NULL, "" or "0".
- `rejectEvidency` updates the occurrence first and inserts the history row
  afterwards. The `pdf_history` columns `pdf_path` and `uploadDate` are NOT
  NULL. The insert therefore fails when the occurrence has no file path, or
  when it has no upload time. A file attached by `store` never gets an upload
  time. In those cases the request ends in a server error, the occurrence stays
  rejected, and no history row is written.
- The history row takes the new verdict fields (reason, time, approver) and
  the unchanged evidence fields (path, upload time, uploader).
- The approval rule blocks only the exact text "Nao". A user whose
  `ApproveUser` is NULL or any other text passes. Registration writes "Sim" or
  "Nao".
- The admin user form accepts any `userType` and `ApproveUser` text of at most
  30 characters. It does not check them against the known values.
- The user-management routes sit inside the `auth` and `verified` group and
  add `auth` and `isAdmin` of their own. A request without a session is
  therefore sent to the login page. `isAdmin` on its own answers 403 when
  there is no user.
- Deleting a user or an occurrence deletes nothing else. Occurrences keep the
  deleted user's email, and history rows stay after their occurrence is gone.

## Model

| member | source | states |
|---|---|---|
| `Query.Where` | app/Http/Controllers/ProductController.php:230 | a `where` keeps exactly the rows satisfying the condition, each as often as in the table |
| `Query.SortDescending` | app/Http/Controllers/ProductController.php:231 | `orderBy(..., 'desc')` and `latest()` return a permutation of the rows in descending key order, with NULL keys last |
| `Tally.GroupCount` | app/Http/Controllers/ProductController.php:211-217 | the GROUP BY count maps exactly the distinct values of the column, each to its number of rows |
| `Tally.GroupCountTotal` | app/Http/Controllers/ProductController.php:211-217 | the grouped totals add up to the number of rows |
| `ProductController.Index` | app/Http/Controllers/ProductController.php:13-35 | the list holds exactly the visible occurrences, each once per table row, newest first; it also holds id, name and email of every user |
| `ProductController.StandardUserSeesOwnReports` | app/Http/Controllers/ProductController.php:19-20 | a 'Usuario Padrão' is shown exactly the occurrences whose reporter email is theirs |
| `ProductController.PlusUserSeesReportedAndCreated` | app/Http/Controllers/ProductController.php:21-25 | a 'Usuario Plus' is shown exactly the occurrences they reported or created, without duplicates |
| `ProductController.OtherUsersSeeEverything` | app/Http/Controllers/ProductController.php:17-28 | every other user type, including 'ADM' and no type, is shown all occurrences |
| `ProductController.StatusByPrecedence` | app/Http/Controllers/ProductController.php:186-198 | without a file the due date decides between Atrasado and Pendente; with a file `confirmEvidency` decides; any other value is unclassified |
| `ProductController.NewOccurrenceStatus` | app/Http/Controllers/ProductController.php:55-65 | a stored occurrence takes creator email and name from the caller and leaves verdict and upload fields at their defaults; it starts Overdue or Pending without a file |
| `ProductController.Store` | app/Http/Controllers/ProductController.php:42-68 | a form that fails a text, email, date or upload rule changes nothing; a valid form inserts exactly one occurrence with the next id, with the file path only when a file came |
| `ProductController.EditKeepsEvidence` | app/Http/Controllers/ProductController.php:86-96 | editing leaves every evidence field and the authorship unchanged |
| `ProductController.Update` | app/Http/Controllers/ProductController.php:84-99 | an unknown id is not found; a form that fails a text, email or date rule changes nothing; a valid form overwrites the seven form fields of that row only |
| `ProductController.ReuploadAwaitsApproval` | app/Http/Controllers/ProductController.php:107-114 | a new file puts the occurrence back to awaiting approval, whatever its earlier verdict |
| `ProductController.UpdatePdf` | app/Http/Controllers/ProductController.php:101-119 | a valid upload sets path, upload time and uploader, and clears verdict, reason and decision time of that row only |
| `ProductController.ApprovalOutcome` | app/Http/Controllers/ProductController.php:130-135 | approval finishes an occurrence with a file; without a file the status stays as the due date gives it |
| `ProductController.ApproveEvidency` | app/Http/Controllers/ProductController.php:128-140 | any existing occurrence is approved, whatever its state; the history is untouched |
| `ProductController.RejectionOutcome` | app/Http/Controllers/ProductController.php:148-153 | rejection makes an occurrence with a file Evidência Recusada |
| `ProductController.RejectEvidency` | app/Http/Controllers/ProductController.php:142-168 | a missing or overlong reason changes nothing; otherwise the row is rejected and exactly one history row is appended, or the request fails after the row update when the snapshot has a NULL path or upload time |
| `ProductController.RejectionSnapshot` | app/Http/Controllers/ProductController.php:155-163 | the history row names the occurrence and copies its new reason, time and approver and its unchanged path, upload time and uploader |
| `ProductController.StoredEvidenceHasNoSnapshot` | app/Http/Controllers/ProductController.php:55-57 | evidence attached by `store` cannot be snapshotted on rejection; after `updatePdf` it can |
| `ProductController.Destroy` | app/Http/Controllers/ProductController.php:121-126 | deleting removes exactly that occurrence; the history and the users stay |
| `ProductController.PdfHistoryOf` | app/Http/Controllers/ProductController.php:227-235 | an unknown occurrence is not found; otherwise exactly its history rows are returned, latest decision first |
| `ProductController.RejectionIsListed` | app/Http/Controllers/ProductController.php:230-232 | a history row appended for an existing occurrence appears in that occurrence's history |
| `ProductController.LabelFalsy` | app/Http/Controllers/ProductController.php:186-202 | the empty label, the only false one, is given exactly to the unclassified status, so `if ($status)` skips exactly those occurrences |
| `ProductController.CountersStep` | app/Http/Controllers/ProductController.php:185-202 | one more occurrence raises only its own status's counter, and only when that status is counted |
| `ProductController.ClassifyAll` | app/Http/Controllers/ProductController.php:175-209 | the five counters are always present and each equals the number of occurrences with that status; one item per occurrence, in order |
| `ProductController.StatusesPartition` | app/Http/Controllers/ProductController.php:185-202 | each occurrence has exactly one of the six outcomes |
| `ProductController.Dashboard` | app/Http/Controllers/ProductController.php:170-225 | five counters always present; each equals the number of occurrences with that status; together they count every classified occurrence once; one item per occurrence, in order; the per-cr and per-origin totals each add up to the occurrence count |
| `IsAdmin.Handle` | app/Http/Middleware/IsAdmin.php:14-21 | a request is forwarded exactly when there is a user whose type is exactly 'ADM'; otherwise it is aborted with 403 |
| `IsAdmin.OnlyExactAdminPasses` | app/Http/Middleware/IsAdmin.php:16 | 'Usuario Padrão', 'Usuario Plus', no type, 'adm' and 'Admin' are all refused |
| `AppServiceProvider.FirstByEmail` | app/Providers/AppServiceProvider.php:25 | finds the first user, in table order, with the email, or none |
| `AppServiceProvider.UnknownEmailFails` | app/Providers/AppServiceProvider.php:25-29 | the rule fails when no user has the email |
| `AppServiceProvider.FirstMatchDecides` | app/Providers/AppServiceProvider.php:25-32 | the first user with the email decides; the rule fails exactly when their `ApproveUser` is exactly 'Nao' |
| `AppServiceProvider.PresentUserDecides` | app/Providers/AppServiceProvider.php:31-32 | with unique emails, a user's own email passes exactly when their value is not 'Nao' |
| `RegisteredUserController.ReportedBy` | app/Http/Controllers/Auth/RegisteredUserController.php:40 | true exactly when some occurrence has the email as its reporter email |
| `RegisteredUserController.ApprovalFollowsReports` | app/Http/Controllers/Auth/RegisteredUserController.php:40-44 | a new user is always 'Usuario Padrão'; 'Sim' exactly when some occurrence has their email as reporter, 'Nao' otherwise; creator emails do not count |
| `RegisteredUserController.Store` | app/Http/Controllers/Auth/RegisteredUserController.php:31-63 | a taken, non-lowercase or overlong email, an overlong name or an unconfirmed or short password changes nothing; otherwise exactly one user is inserted; the message depends only on the approval decision |
| `RegisteredUserController.RegisteredUserApproval` | app/Http/Controllers/Auth/RegisteredUserController.php:44-52 | a freshly registered user passes the `approved` rule exactly when some occurrence has their email as reporter |
| `UserController.Index` | app/Http/Controllers/UserController.php:14-18 | every user is listed, unfiltered |
| `UserController.Update` | app/Http/Controllers/UserController.php:23-35 | an unknown id is not found; invalid input changes nothing; a sent NULL name or email fails; otherwise only the sent keys of that user change |
| `UserController.PatchWritesOnlySentKeys` | app/Http/Controllers/UserController.php:25-32 | id and password never change; absent keys keep their columns; `userType` and `ApproveUser` take any sent text |
| `UserController.OwnEmailIsFree` | app/Http/Controllers/UserController.php:27 | sending a user's own email again passes the uniqueness rule |
| `UserController.TakenEmailIsRefused` | app/Http/Controllers/UserController.php:27 | taking another user's email is refused |
| `UserController.PatchKeepsEmailsUnique` | app/Http/Controllers/UserController.php:27-32 | an accepted update keeps every email unique and every id in place |
| `UserController.Destroy` | app/Http/Controllers/UserController.php:40-45 | deleting removes exactly that user; the occurrences and the history stay |
| `AdminRoutes.Admit` | routes/web.php:16-50 | a request reaches the handler exactly when its user is 'ADM'; a missing user is sent to log in |
| `AdminRoutes.ListUsers` | routes/web.php:47 | an administrator gets every user; anyone else is refused |
| `AdminRoutes.UpdateUser` | routes/web.php:48 | a refused request changes nothing; an administrator's request does what the user update does |
| `AdminRoutes.DestroyUser` | routes/web.php:49 | a refused request changes nothing; an administrator's request does what the user delete does |

## Left out

- Page rendering, redirects and flash messages are left out. Only the choice
  of registration message is kept, as `Message`.
- The file store is left out. The path it returns is a parameter. The file
  write and the database write are not modelled as separate steps that can
  fail independently.
- The `email` format rule, the `date` rule, the file MIME check and file size
  measurement belong to the framework. The email and date verdicts are
  parameters of the handlers (`emailWellFormed`, `datesValid`). The MIME and
  size verdicts are fields of `Upload`. The submitted dates themselves enter
  the model only as the integers they parse to.
- Request strings are taken as they arrive after the framework trims them and
  turns empty strings into NULL.
- Password hashing, sessions, and the `Registered` event are foreign calls.
  The hash is a parameter and the caller is an explicit `User`.
- The `verified` middleware on the occurrence routes is not modelled. Every
  occurrence handler assumes an authenticated, verified caller.
- AdminRoutes.Admit: the `verified` middleware is not modelled on the
  user-management routes either. They are nested in the `auth`/`verified`
  group, so when `User` implements `MustVerifyEmail`, an 'ADM' user with an
  unverified email is sent to the verification notice instead of being
  granted. `Admit` assumes a verified caller.
- Dates are integers. The code compares the `dueDate` string with the current
  time. That comparison is approximated by integer `<`, so how a date-only due
  date compares on its own day is not modelled.
- String equality in queries is exact. A case-insensitive database collation
  is not modelled.
- Column widths are not modelled, for example the 50-character
  `evidencyApprover` column. A strict database would reject longer names.
- `updated_at`, the history's `created_at`, and `email_verified_at` are not
  modelled.
- Ties in `latest()` and in `orderBy('reasonDateTime', 'desc')` are left to
  the database. The model fixes one order and proves only the descending
  order and the permutation.
- The NULL ordering follows MySQL and SQLite (NULL last when descending).
  PostgreSQL would put NULLs first.
- `RegisteredUserController.Lowercase` checks only ASCII letters. The
  framework's `lowercase` rule compares with a full Unicode lower-casing.
- The `users` and `products` tables' creation migrations are not part of this
  model. The model assumes the framework's standard `users` table (NOT NULL
  `name` and `email`, unique `email`), and a NOT NULL `email` on `products`.
- The `User` model class is not part of this model. The model assumes its
  `$fillable` list includes `userType` and `ApproveUser`. `User::create` and
  `update` silently drop keys that are not fillable. Without these two keys,
  `RegisteredUserController.Store` would leave both columns NULL and
  `UserController.Update` would never write them.
- `create`, `edit` and `editPdf` only render pages and are not modelled.
- Concurrency is not modelled: approving and rejecting the same occurrence at
  once is last-write-wins in the database.
