# Data-integrity model of an operations platform

The platform keeps its hard guarantees in database triggers, repair migrations, a storage migration,
an importer, an inventory ledger and a few query tools. This project models those parts as state
machines and proves what they promise over every input, every run or every reachable state.

## What is modelled

**Expenses and their payments** (`ExpenseBalance`, `ExpenseRepairs`, `ExpenseStore`). A transaction is
any sequence of inserts, updates and deletes, with the cascade from an expense to its payments; a deferred
trigger looks at commit only at the expenses the queued row events name. From a balanced start its
verdict is the global invariant "every completed expense is fully paid", with one exception found and
stated exactly: the trigger adds into a `numeric(18, 2)`, so it also refuses a balanced state whose
named sum does not fit. The two status repairs establish that invariant from any data, although they
add only payments of the expense's own organization. Amounts are integers in hundredths.

**Bucket migration** (`BucketMigration`, `SupabaseStorage`). Any number of workers move legacy
documents by separate download, upload and remove requests, interleaved and crashing anywhere, while
new files are uploaded. No document is lost, and one worker's success is final. `SupabaseStorage` is
the code itself, with a fault at any request; run alone it is exactly the machine's worker.

**Change feed** (`ChangeFeed`, `TenantTables`, `FeedInstall`). Row triggers count revisions per
organization and table. Revisions count exactly the committed row events that concern an organization,
so an equal revision means an equal view. The repair migration adds the trigger to every tenant table
and keeps all revisions; it succeeds if and only if no view shows an `organization_id` column, because the
catalog query lists views too and a row trigger cannot be created on one. It drops the trigger on tenant
tables only, so it ends with the trigger on exactly those if and only if no other table carried it
before. On a feed table that carries its own trigger every upsert would fire another one without end;
such transactions fail, and the feed stays sound because no tenant's rows can change.

**Timesheet import** (`ColumnRefs`, `NameMatching`, `HoursGrid`, `TimesheetPlan`, `TimesheetImport`).
Spreadsheet column references are bijective base 26 (sections 18.3.1.4 and 18.18.7 of ECMA-376 Part 1);
names have a canonical form; the grid parser accounts for every line; the run is all-or-nothing, never
meets a unique constraint, and changes nothing when repeated. Hours are integers in hundredths.

**Inventory** (`ReversalLedger`, `StockPosting`, `StockProjection`, `StockReversal`, `StockTransfers`,
`StockValuation`, `StockBooks`). The schema alone forces reversal references into disjoint finite chains; the service's own guards keep
them at depth one. Balances are projections of the ledger: quantities always, exactly. Stored values are not:
the balance is rounded half to even and the ledger column half away from zero, so values can part by
one unit on a tie. The project shows a three-step example, proves exactly when a posting keeps them
equal, and bounds the gap by the number of ledger rows. A reversal takes back exactly what its
transaction booked. Its guard compares creation times, which are those of database transactions: two
lines of one document share theirs, and a request that waited for the lock carries an earlier one, so
later movements of the item can pass it. The project says exactly which rows pass, shows two lines
that do, and proves for every history that a quantity is restored if and only if the movements in
between add up to nothing on its bucket. A transfer is dispatched at one worth and received at another,
computed from the unit cost that the dispatch stored: whatever the two are, quantity is conserved and
their rounded difference stays in transit. The service computes both with 28-digit decimals.
`StockValuation` bounds what is left in terms of the distance from the exact average, shows that 28
digits are within a hundredth of a unit, and shows a tie that the digits decide the other way. In the
same sense an issue keeps the average.

**Query tools and the site backfill** (`Grouping`, `DynamicQuery`, `QueryProperties`, `QueryScope`,
`Summaries`, `SiteBackfill`). The tool's description promises that every query is scoped to the caller's
organization. Every registered table has an organization column, so no answer depends on another
organization's rows as long as the names it selects or groups by are columns; every count is of this
kind, and in `skills`, where the organization may be null, such rows are in nobody's answers. But a name
is looked up among all attributes of a class, and employees have two relationships: selecting one adds
its table to the statement without any scope. The project states exactly when the number of rows listed
is still the same whatever other organizations' rows there are, and gives the smallest example where it
is not: listing the `user` (or the `supervisor`) of one employee shows one row for each row of that
table, strangers included. Values by group add up or agree with the corresponding filter, outer joins
count every row once, and NULL never disappears unnoticed. An UPDATE from a join has one possible outcome.

`Options` holds the type of missing values, `Sums` the sum over a table's rows, `Prefixes` the finality of
failures in a run, `AsciiText` white space and splitting, and `PosixPaths` the normal form of object
paths. Identifiers are natural numbers.

## Model

| member | source | states |
|---|---|---|
| ExpenseBalance.DeferredCheckIsGlobalCheck | alembic/versions/20261003_reconcile_expense_payment_status.py:56-102 | from a balanced start, the checks of the queued events all pass if and only if the whole final state is balanced and no named completed sum overflows the trigger's variable |
| ExpenseBalance.BalanceSplitsByNaming | alembic/versions/20261003_reconcile_expense_payment_status.py:56-86 | from any start, the final rows are balanced exactly when each named expense is settled now and each unnamed one was settled before |
| ExpenseBalance.BalancedYetRefused | alembic/versions/20261003_reconcile_expense_payment_status.py:54-80 | a concrete transaction with a balanced final state that the trigger refuses because the paid sum exceeds numeric(18, 2) |
| ExpenseBalance.UnnamedIsUntouched | alembic/versions/20261003_reconcile_expense_payment_status.py:56-68 | an expense that no queued event names has the same row and the same payments as before, cascades and moved payments included |
| ExpenseBalance.PaidMoves | alembic/versions/20261002_expense_partial_payments.py:13-37 | how each statement moves every expense's paid sum: a moved payment leaves one and joins the other, a deleted expense takes its payments along |
| ExpenseBalance.ExecuteKeepsConstraints | alembic/versions/20261002_expense_partial_payments.py:30-37 | positive amounts and existing expenses hold after every statement, cascaded deletes included |
| ExpenseBalance.TransactKeepsBalance | alembic/versions/20261003_reconcile_expense_payment_status.py:91-102 | every transaction, committed or rolled back, ends balanced when it starts balanced |
| ExpenseBalance.AcceptedIsStored | alembic/versions/20261003_reconcile_expense_payment_status.py:91-102 | an accepted transaction leaves all the rows its statements made, any other leaves the first rows |
| ExpenseBalance.RefusedExactly | alembic/versions/20261002_expense_partial_payments.py:13-37 | a statement is refused exactly for a taken key, a number that does not fit, an amount that is not positive, or a missing expense |
| ExpenseBalance.StatementIsStored | alembic/versions/20261002_expense_partial_payments.py:13-37 | which rows each statement stores or removes, the payments of a deleted expense included, and that no other row moves |
| ExpenseBalance.PaymentIsKept | alembic/versions/20261003_reconcile_expense_payment_status.py:56-102 | on a balanced table a new payment is kept unless the completed expense it pays overflows the trigger's variable |
| ExpenseRepairs.OwnPaidBound | alembic/versions/20261003_reconcile_expense_payment_status.py:28-34 | the organization-filtered sum never exceeds the trigger's sum, and is zero only without such payments, because amounts are positive |
| ExpenseRepairs.ReconcileEstablishesBalance | alembic/versions/20261003_reconcile_expense_payment_status.py:21-38 | from any labels at all, the reconciled table satisfies the trigger's invariant |
| ExpenseRepairs.RepairsClassify | alembic/versions/20261018_exp_status_fix.py:21-31 | the own payments are the sum over the expense's organization; the first repair labels a legacy row completed iff they cover the total, and both in a row: completed iff so, else partially paid iff they are positive, else submitted; other rows and columns are untouched |
| ExpenseRepairs.OnlyOwnPaymentsCount | alembic/versions/20261003_reconcile_expense_payment_status.py:28-34 | an expense paid by other organizations only counts as unpaid and is reset, one paid by its own only counts in full |
| ExpenseRepairs.RepairsIdempotent | alembic/versions/20261018_exp_status_fix.py:21-31 | running both repairs again changes nothing |
| ExpenseRepairs.ResetLabelsKeepsBalance | alembic/versions/20261018_exp_status_fix.py:21-31 | the second repair, run under the triggers, is never refused and keeps the invariant |
| ExpenseRepairs.CompletedMeansPaidForever | alembic/versions/20261003_reconcile_expense_payment_status.py:21-102 | after the reconciliation, every serial history of transactions and label resets ends with the payments of each expense labelled completed, in any case, adding up to its total at least |
| ExpenseRepairs.BalancedMeansPaid | alembic/versions/20261003_reconcile_expense_payment_status.py:69-86 | the invariant is exactly this: of every expense labelled completed, in any case, the payments add up to the total at least |
| ExpenseTables.ExpenseStore.EnforcePaidBalance | alembic/versions/20261003_reconcile_expense_payment_status.py:56-87 | the trigger function's loop passes exactly when every named expense is settled and its sum fits |
| ExpenseTables.ExpenseStore.CascadeDelete | alembic/versions/20261002_expense_partial_payments.py:31 | deleting an expense removes exactly its payments and appends one delete event to the queue for each |
| ExpenseTables.ExpenseStore.FireDeferred | alembic/versions/20261003_reconcile_expense_payment_status.py:91-102 | the queue is processed until a refusal; all pass exactly when the commit is accepted |
| ExpenseTables.ExpenseStore.Run | alembic/versions/20261003_reconcile_expense_payment_status.py:91-102 | one transaction in place: a commit leaves all the rows of its statements, anything else the first rows, and it ends balanced when it starts balanced |
| ExpenseTables.ExpenseStore.ReconcileStatuses | alembic/versions/20261003_reconcile_expense_payment_status.py:21-38 | the row-by-row UPDATE reaches the reconciled table and, on rows the constraints allow, the invariant |
| ExpenseTables.ExpenseStore.ResetUnpaidLabels | alembic/versions/20261018_exp_status_fix.py:21-31 | the row-by-row UPDATE reaches the reset table, its deferred checks all pass and the invariant stays |
| BucketMigration.NoDocumentIsLost | app/core/storage.py:158-172 | under every interleaving and every crash, each legacy document's original bytes are in the public or the private bucket |
| BucketMigration.PassedMeansPrivateForever | app/core/storage.py:158-172 | once one worker is past a document, it is absent from public and private holds its original bytes, whatever any worker does afterwards |
| BucketMigration.RunKeepsInvariant | app/core/storage.py:158-172 | a worker in mid-move always holds the original bytes, and erases only what is already stored |
| BucketMigration.OthersResolveForever | app/core/storage.py:153-156 | media, new uploads and documents that were private all along read back unchanged at every later moment |
| BucketMigration.PassedMeansReadableForever | app/core/storage.py:205-219 | a document a worker is past is readable, with its original bytes, at every later moment |
| BucketMigration.WorkersAdvance | app/main.py:52-56 | a worker keeps its list of paths and never goes back in it |
| BucketMigration.EveryListedDocumentBecomesPrivate | app/main.py:52-56 | a worker started at any moment and then left alone ends with all its documents private |
| BucketMigration.DocumentPathByFirstPart | app/core/storage.py:50-51 | a path is a document's exactly when its first part, up to the first slash, is one of the namespaces, however deep the path goes |
| Storage.OneMoveKeeps | app/core/storage.py:158-172 | one move, failing anywhere, loses no document, touches no other public object and adds none |
| Storage.FaultyMoves | app/core/storage.py:164-172 | what each failing request leaves of the two buckets |
| Storage.SupabaseStorage.PrivateBucket | app/core/storage.py:140-151 | creates the bucket or locks the one that is there, once; a failed request leaves the adapter unready, and a ready adapter means a locked bucket |
| Storage.SupabaseStorage.EnsurePrivate | app/core/storage.py:158-172 | for each fault, the code's buckets are those of the machine's worker, it reports success exactly when no request fails, a successful move of a path whose first part is a document namespace leaves it private only, and it writes to a locked bucket only |
| Storage.SupabaseStorage.MoveCatalogued | app/main.py:52-60 | the start-up loop goes on until a document's move fails; everything before is out of public, nothing is lost and no other public object is touched |
| Storage.SupabaseStorage.Save | app/core/storage.py:174-203 | too large a file or an extension that is not allowed changes nothing; otherwise, unless a request fails, the bytes land in the private bucket when the first part of the normalized name is a document namespace, else in the public one, and nowhere else; documents only in a locked bucket |
| Storage.SupabaseStorage.Download | app/core/storage.py:205-219 | absolute paths and paths with a parent part are refused; otherwise the normalized path is read from the bucket of the namespace only |
| Storage.ParentPartsAreRefused | app/core/storage.py:205-209 | a download is refused exactly when the path starts with a slash or has ".." between two slashes or at an end |
| Storage.SavedIsReadBack | app/core/storage.py:189-213 | what is saved is downloaded under the path returned, with the same bytes, if and only if the namespace is relative and has no parent part |
| Storage.SupabaseStorage.Delete | app/core/storage.py:221-225 | removes at most that object, from the bucket of its namespace only, and surely when no request fails |
| Storage.DownloadOfClean | app/core/storage.py:207-213 | for a path of proper parts, the download looks where the migration's reader looks |
| PosixPaths.CleanIsKept | app/core/storage.py:190-191 | a path of proper parts is its own normal form and relative |
| PosixPaths.AsPosixIsNormal | app/core/storage.py:190-191 | normalizing keeps the root and the parts, and doing it again changes nothing |
| PosixPaths.UnderIsNormal | app/core/storage.py:189-191 | a file name under a directory is in normal form, with the parts of the directory and then the name |
| ChangeFeed.RevisionCountsCommittedEvents | alembic/versions/20261016_database_change_feed.py:41-62 | a revision is its starting value plus the number of committed row events whose old or new organization it is, once when both are |
| ChangeFeed.RevisionsGrowByConcernedOrganizations | alembic/versions/20261016_database_change_feed.py:41-62 | all revisions together grow by the number of distinct non-null organizations touched, event by event |
| ChangeFeed.FireCounts | alembic/versions/20261016_database_change_feed.py:48-62 | one event moves the counters it concerns by one and no other counter |
| ChangeFeed.StatementIsStored | alembic/versions/20261016_database_change_feed.py:41-62 | the rows after each statement, and its one row event with the organizations before and after; only an INSERT on a taken key fails |
| ChangeFeed.CommittedIsStored | alembic/versions/20261016_database_change_feed.py:86-92 | a committed transaction leaves all its rows, any other leaves rows and counters as they were |
| ChangeFeed.UpdateCountsOnce | alembic/versions/20261016_database_change_feed.py:41-62 | one UPDATE inside an organization stores the value and raises that organization's revision by exactly one, and no other |
| ChangeFeed.EqualRevisionMeansEqualView | app/api/v1/endpoints/data_sync.py:19-31 | between any two committed points of any history revisions never fall, and an equal one means the organization has the same rows with the same contents |
| ChangeFeed.UntrackedChangeIsInvisible | alembic/versions/20261016_database_change_feed.py:78-93 | on a table without the trigger a new row changes the view and no revision |
| TenantTables.TenantStore.Bump | alembic/versions/20261016_database_change_feed.py:49-53 | the upsert adds exactly one to one counter |
| TenantTables.TenantStore.TrackChange | alembic/versions/20261016_database_change_feed.py:41-67 | the trigger body adds one to each counter the change concerns |
| TenantTables.TenantStore.Run | alembic/versions/20261016_database_change_feed.py:86-92 | rows and counters commit together, with all rows of the statements stored, or are both restored |
| FeedInstall.Database.Install | alembic/versions/20261016_database_change_feed.py:17-97 | succeeds exactly when no feed table exists and no relation with the column is a view or carries the trigger name, and then reaches the specified schema; otherwise nothing changes |
| FeedInstall.Database.Repair | alembic/versions/20261017_repair_change_feed.py:16-107 | succeeds exactly when no relation with the column, the feed apart, is a view, and then reaches the repaired schema; otherwise nothing changes |
| FeedInstall.RepairTracksEveryTenant | alembic/versions/20261017_repair_change_feed.py:79-103 | whatever triggers existed, the tracked tables afterwards are those tracked before and every table with an organization column except the feed; other triggers, columns and all revisions stay, and the feed table is the only one that may be added |
| FeedInstall.TracksExactlyTenantsIff | alembic/versions/20261017_repair_change_feed.py:83-95 | the trigger is then on exactly the tenant tables if and only if no other table carried it before |
| FeedInstall.StrayTriggerStays | alembic/versions/20261017_repair_change_feed.py:83-95 | a schema the repair accepts and leaves with the trigger on a table without the column |
| FeedInstall.RepairIdempotent | alembic/versions/20261017_repair_change_feed.py:17-29 | a second repair is possible and changes nothing |
| FeedInstall.RepairedFeedIsSound | alembic/versions/20261017_repair_change_feed.py:77-107 | after the repair, every later history is counted soundly on every tenant table, also when the feed table carries its own trigger |
| FeedInstall.LiveHistoryIsHistory | alembic/versions/20261017_repair_change_feed.py:53-67 | a history in which self-triggering transactions fail is a plain history of the others |
| FeedInstall.LiveHistoryIsPlain | alembic/versions/20261017_repair_change_feed.py:53-67 | when the feed does not track itself, it is the plain history of all |
| FeedInstall.SelfTrackingFreezesTenants | alembic/versions/20261017_repair_change_feed.py:53-67 | on a feed that tracks itself no tenant's rows or revisions change any more |
| ColumnRefs.ColumnIndex | scripts/import_employee_timesheet_csv.py:133-140 | fails exactly when no letter leads, else is one less than the number the leading letters denote |
| ColumnRefs.PrintThenRead | scripts/import_employee_timesheet_csv.py:137-140 | printing a number in letters and reading it back gives the number |
| ColumnRefs.ReadThenPrint | scripts/import_employee_timesheet_csv.py:137-140 | reading letters and printing them gives the letters, so references and columns correspond one to one |
| ColumnRefs.ColumnOfPrinted | scripts/import_employee_timesheet_csv.py:134-135 | the letters in front of a reference are read whole and in order, whatever follows them |
| ColumnRefs.OrderIsLengthThenAlphabet | scripts/import_employee_timesheet_csv.py:137-140 | column order is length-then-alphabetical order, both ways |
| ColumnRefs.LastWriteIsLast | scripts/import_employee_timesheet_csv.py:144-156 | the write that a dense row shows at a column is the last one to it |
| ColumnRefs.Densify | scripts/import_employee_timesheet_csv.py:142-158 | a row is refused exactly when a reference is invalid, else is as wide as its last written column, last write winning and gaps empty |
| ColumnRefs.DenseIsUnique | scripts/import_employee_timesheet_csv.py:142-158 | the written cells determine the dense row |
| ColumnRefs.PrintedIsRead | scripts/import_employee_timesheet_csv.py:133-158 | a row written out cell by cell under its references is read back as it was |
| NameMatching.NormalizeIsCanonical | scripts/import_employee_timesheet_csv.py:31-33 | normalized names are lower-case words with single spaces, normalization is idempotent and fixes exactly the canonical strings |
| NameMatching.FoldIsLower | scripts/import_employee_timesheet_csv.py:31-32 | on ASCII text folding is exactly putting it in lower case |
| NameMatching.FoldIgnoresCase | scripts/import_employee_timesheet_csv.py:31-32 | names that differ in case only fold to the same |
| NameMatching.SplitOfCollapse | scripts/import_employee_timesheet_csv.py:33 | substitution then splitting finds exactly the maximal runs of letters and digits |
| NameMatching.SameNameIffSameWords | scripts/import_employee_timesheet_csv.py:31-33 | two names are taken for the same exactly when their folded words agree |
| NameMatching.KeysAreWords | scripts/import_employee_timesheet_csv.py:161-168 | an employee goes by a name, in any case and spacing, exactly when its words are those of the first, or preferred, name, perhaps the middle name, and the last name |
| NameMatching.UnmappedMatchIsUnique | scripts/import_employee_timesheet_csv.py:181-190 | an unmapped name is matched exactly when one list entry has it among its keys, and to that entry; with none there is no match, with two it is ambiguous; an empty one never matches |
| NameMatching.MappedMatchIsById | scripts/import_employee_timesheet_csv.py:172-179 | a name in the mapping is matched exactly to the entry with that identifier, and refused when the identifier is unreadable or nobody's |
| NameMatching.MatchIgnoresOrder | scripts/import_employee_timesheet_csv.py:171-190 | the outcome does not depend on the order of the employee list |
| NameMatching.MatchedIsListed | scripts/import_employee_timesheet_csv.py:171-190 | whoever is matched is on the list |
| HoursGrid.HoursInRange | scripts/import_employee_timesheet_csv.py:84-90 | accepted hours lie in 0 to 24 with at most two decimals and mean what was written |
| HoursGrid.AcceptedIff | scripts/import_employee_timesheet_csv.py:84-90 | a cell is accepted if and only if it has at most two decimals as written and lies between 0 and 24; every number of hundredths in that range is |
| HoursGrid.MonthLengths | scripts/import_employee_timesheet_csv.py:61-62 | the number of days of each month |
| HoursGrid.LeapYearsByRule | scripts/import_employee_timesheet_csv.py:61-62 | leap years are every fourth, without every hundredth, with every four hundredth: 97 in any 400 years |
| HoursGrid.HeaderNamesMonth | scripts/import_employee_timesheet_csv.py:45-52 | a first day header such as "1-Aug", with the month in any case, names that month and no other |
| HoursGrid.RecordInRange | scripts/import_employee_timesheet_csv.py:79-102 | a record's days are days of the month, each within 24 hours, and its total is their sum, equals the stated one and is at most 24 hours a day |
| HoursGrid.RecordIsWritten | scripts/import_employee_timesheet_csv.py:73-102 | name, site and day count of a record are those of its line, it has an entry for exactly the days whose cells are not blank, and a stated total equals its own |
| HoursGrid.WrittenLineIsRead | scripts/import_employee_timesheet_csv.py:79-102 | a line written out from a name, hours and their true total is read as that record |
| HoursGrid.SkippedLines | scripts/import_employee_timesheet_csv.py:70-76 | lines of blanks and footers of totals are skipped, and no line with a name, too short a one or one with another text |
| HoursGrid.LinesAreUnambiguous | scripts/import_employee_timesheet_csv.py:69-102 | no line is both skipped and a record, or two different records |
| HoursGrid.ReadLine | scripts/import_employee_timesheet_csv.py:70-102 | a line is skipped, read as its record, or bad, by the stated rules |
| HoursGrid.ReadLines | scripts/import_employee_timesheet_csv.py:68-103 | either every line is accounted for in order, or every line before the reported bad one is |
| HoursGrid.AccountIsUnique | scripts/import_employee_timesheet_csv.py:68-103 | the lines determine the list of records |
| HoursGrid.ParseTimesheet | scripts/import_employee_timesheet_csv.py:42-103 | an accepted grid's period, width and records, each line accounted for; a header error says what is missing, a line error names the first bad line of the month |
| TimesheetPlan.NoRecordIsLost | scripts/import_employee_timesheet_csv.py:216-239 | pending, unresolved and already imported together are the file's records, as a multiset |
| TimesheetPlan.PendingIsNew | scripts/import_employee_timesheet_csv.py:224-238 | pending employees are pairwise different and have no sheet for the period |
| TimesheetPlan.ResolvedIff | scripts/import_employee_timesheet_csv.py:216-244 | nothing is unresolved if and only if every record resolves, no two to one employee, and nobody has a sheet of the period from another file; then exactly the employees without one are pending |
| TimesheetPlan.WelcomeByRows | scripts/import_employee_timesheet_csv.py:206-212 | what having a sheet of the period means, in terms of the organization, period and employee of the rows |
| TimesheetPlan.InsertsAreSafe | alembic/versions/20261015_timesheet_source_names.py:25 | the inserts keep the unique and check constraints, all old rows, and each pending record day for day |
| TimesheetPlan.AllOrNothing | scripts/import_employee_timesheet_csv.py:242-274 | the run returns 2 exactly when a record is unresolved, and refuses exactly the wrong environment; the tables change only when every record resolved and writing was asked for in the right environment; then every record of the file is there |
| TimesheetPlan.ResolvedIsWritten | scripts/import_employee_timesheet_csv.py:242-274 | when nothing stands in the way and writing is asked for in the right environment, the run returns 0 and stores every record whose employee had no sheet, field by field and day by day |
| TimesheetPlan.RerunChangesNothing | scripts/import_employee_timesheet_csv.py:203-274 | the same run again, with the employees delivered in any order, finds every record already imported, returns 0 and changes nothing |
| TimesheetPlan.EveryRecordIsThere | scripts/import_employee_timesheet_csv.py:253-272 | after a run that wrote, each record's employee has a sheet of the period from this file |
| TimesheetImport.TimesheetStore.Classify | scripts/import_employee_timesheet_csv.py:216-239 | the loop computes the specified plan |
| TimesheetImport.TimesheetStore.WriteAll | scripts/import_employee_timesheet_csv.py:253-271 | no insert of the loop meets a constraint, and the final tables are the specified ones |
| TimesheetImport.TimesheetStore.Run | scripts/import_employee_timesheet_csv.py:216-274 | the run reaches the specified tables and outcome, and keeps the table constraints |
| TimesheetImport.GridIsImportable | alembic/versions/20261013_employee_timesheets.py:49-50 | what the parser accepts satisfies what the importer and the hours check need |
| ReversalLedger.LedgerOnlyGrows | alembic/versions/20260909_inventory.py:473-475 | every run only appends rows and keeps all keys and references sound |
| ReversalLedger.AcceptedIffSound | alembic/versions/20260909_inventory.py:38 | on sound rows an INSERT is accepted if and only if the rows stay sound with it |
| ReversalLedger.KeysAreUnique | alembic/versions/20260909_inventory.py:38 | no two rows share an identifier, a number or posting key of their organization, or the transaction they reverse |
| ReversalLedger.TargetIsNotItself | alembic/versions/20260909_inventory.py:38 | no row reverses a row that is its own reversal |
| ReversalLedger.ChainEndsAtOriginal | alembic/versions/20260909_inventory.py:402 | from a row that is not its own reversal, references run back in insertion order to a row that reverses nothing |
| ReversalLedger.ChainsNeverMerge | alembic/versions/20260909_inventory.py:38 | two chains share a row only when one is part of the other |
| ReversalLedger.TransactionTable.Apply | alembic/versions/20260909_inventory.py:473-475 | a statement appends one sound row or changes nothing; updates and deletes that meet a row fail |
| StockPosting.DriftExactly | app/services/inventory.py:386-390 | how far the balance's rounding and the ledger column's rounding part, for every stored value and delta |
| StockPosting.RoundingsAreNearest | app/services/inventory.py:386-390 | both roundings go to a nearest whole number, and on a tie one to the even neighbour, the other away from zero |
| StockPosting.RefusedExactly | app/services/inventory.py:390-400 | an effect is refused if and only if it would leave a quantity negative, or less on hand than is reserved or quarantined |
| StockPosting.EffectIsBooked | app/services/inventory.py:386-414 | otherwise quantities move by exactly the deltas, values to a nearest whole number, and no other bucket moves |
| StockPosting.PostedIff | app/services/inventory.py:386-414 | a posting or reversal succeeds if and only if it is allowed and no effect, in their order, leaves its bucket short; then each bucket has moved by the sums of its deltas |
| StockPosting.PostingIsRecorded | app/services/inventory.py:1323-1335 | the transaction row of a posting has its item, kind and time, that of a reversal the item and cost of the original and its reference |
| StockProjection.BalancesProjectTheLedger | app/services/inventory.py:1 | after every run, quantities are exactly the sums of their ledger rows, none is negative and no more is reserved and quarantined than is on hand, and values are within one unit per row |
| StockProjection.EffectMovesGap | app/services/inventory.py:386-414 | an effect moves its own bucket's distance from the ledger by exactly the drift, and no other bucket's |
| StockProjection.AgreementIsNoDrift | app/services/inventory.py:386-390 | from agreeing books, an effect keeps values agreeing if and only if neither value is a tie that the two roundings resolve differently |
| StockProjection.ValuesCanDisagree | app/services/inventory.py:386-414 | two receipts and an issue after which a balance's value is 2 and its ledger says 1 |
| StockReversal.RunsAreOrderly | app/services/inventory.py:1261-1335 | every run reverses a transaction at most once, never reverses a reversal, and leaves a reversed transaction's ledger rows and its reversal's summing to zero |
| StockReversal.ReversalTakesBack | app/services/inventory.py:1323-1335 | whatever happened in between, a reversal takes from every bucket exactly what the ledger says its transaction put there |
| StockReversal.ReversedAtOnce | app/services/inventory.py:1261-1343 | a posting of one effect can be reversed at once if and only if its kind allows it, it is no issue that must be returned, and no row of the item has a later time; the quantities are then restored |
| StockReversal.ReversalUndoesExactly | app/services/inventory.py:1261-1343 | for every history and any clock, the balance after a reversal differs from the one before its posting by what the ledger booked in between, plus, for values, the rounding gap; a quantity is restored if and only if the movements in between add up to nothing |
| StockReversal.LaterRowPasses | app/services/inventory.py:1281-1294 | a reversal stays possible after a further row if and only if the row is of another item or carries the original's time or an earlier one |
| StockReversal.SameTimeMovementPasses | app/services/inventory.py:1281-1294 | two receipts of one item at the same time: reversing the first is accepted and leaves one unit where there was none |
| StockReversal.ReversalRestores | app/services/inventory.py:1281-1294 | when each movement of the item in between carries a later time, the guards imply there was none: quantities and ledger sums return to those before the posting, and values up to the posting's own rounding gap |
| StockValuation.OutflowKeepsAverage | app/services/inventory.py:839-843 | an issue or dispatch whose worth is within e of the exact one keeps the average value per unit up to half a unit of value and e, and an emptied bucket keeps no value |
| StockTransfers.IssueTakesStock | app/services/inventory.py:925-931 | an issue takes its quantity from what is on hand, from what is reserved exactly when it draws on a reservation, and leaves the rest |
| StockTransfers.TransferLeavesResidue | app/services/inventory.py:1022-1053 | whatever happens in between and whatever the two worths are, a dispatch and its receipt move exactly the quantity, leave nothing in transit, and leave the difference of the rounded worths as value in transit |
| StockTransfers.ValueIsConserved | app/services/inventory.py:1022-1053 | the ledger values of a transfer add up to nothing over its two buckets, quantities too, and no other bucket is touched |
| StockValuation.ResidueIsBounded | app/services/inventory.py:1022-1053 | with cost and worths within e of the exact ones, that difference is at most one unit plus half a unit per whole unit of quantity, up to e |
| StockValuation.WholeCostLeavesNothing | app/services/inventory.py:1022-1053 | with exact quotients the two worths agree when the average cost needs no rounding |
| StockValuation.DigitsAreNear | app/services/inventory.py:839-843 | arithmetic with a relative error below one in 10^27, on values that the columns can hold, is within a hundredth of a unit of the exact cost and worths |
| StockValuation.DigitsDecideTies | app/services/inventory.py:839-843 | half of 28 units worth one hundred-millionth is exactly half of it, but at the 28-digit quotient it is rounded down |
| StockValuation.WholeValueCanStayBehind | app/services/inventory.py:1022-1053 | three whole units whose entire value stays in transit, at every worth from half a unit up to the exact one |
| StockBooks.Books.Effect | app/services/inventory.py:386-414 | one effect is booked if and only if none of the five shortages would follow; it then updates the bucket and adds the ledger row |
| StockBooks.Books.Book | app/services/inventory.py:1261-1343 | an accepted posting or reversal reaches the specified books, any other leaves them alone; all invariants stay, and a repeated reversal is answered with the one that is there |
| SiteBackfill.OutcomeIsUnique | alembic/versions/20260921_sites_work_details.py:27-33 | among all outcomes SQL allows for the joined update, exactly the promised one is possible |
| SiteBackfill.LinksExactlyTheUnambiguous | alembic/versions/20260921_sites_work_details.py:25-33 | a null site is set to a site if and only if that is the only active, unarchived one of the same project and organization that is no head office; nothing else changes |
| SiteBackfill.RepeatChangesNothing | alembic/versions/20260921_sites_work_details.py:27-33 | any second outcome equals the first |
| SiteBackfill.DrillingTables.Update | alembic/versions/20260921_sites_work_details.py:27-33 | visiting rows and picking joined sites in any order is an allowed outcome |
| SiteBackfill.DrillingTables.Upgrade | alembic/versions/20260921_sites_work_details.py:26-33 | both tables reach the promised links |
| DynamicQuery.ExecuteQuery | app/agents/tools.py:431-540 | the tool's loops and branches answer as specified: counts, aggregates with and without groups, distinct values, ordered listings, and errors in their order |
| QueryProperties.MatchingExactly | app/agents/tools.py:445-460 | a query is about exactly the rows in scope, not archived and meeting every filter, each as often as the table holds it |
| QueryProperties.AllMeansEach | app/agents/tools.py:445-460 | under SQL's third truth value, a conjunction keeps a row exactly when every condition is true of it |
| QueryProperties.AnsweredIff | app/agents/tools.py:431-540 | exactly which queries get which kind of answer: registered table, filters on columns, known names, numbers added up and ordered columns compared, no negative limit, no sorting by a relationship |
| QueryProperties.NoTroubleIff | app/agents/tools.py:454-460 | the filters are accepted if and only if each names a column |
| QueryProperties.FirstUnknownIsFirst | app/agents/tools.py:500-511 | the name reported as unknown is the first that is |
| QueryProperties.OperatorsCompare | app/agents/tools.py:400-428 | what each operator asks of a cell that is not null, by its name; an unknown name asks for equality |
| QueryProperties.NullPassesOnly | app/agents/tools.py:400-428 | a null meets the test for null and no other |
| QueryProperties.InAsksForAny | app/agents/tools.py:400-428 | a list separated by commas asks for equality with one of its values, white space around them aside |
| QueryScope.AnswersAreIsolated | app/agents/tools.py:447-449 | as long as no name selected or grouped by adds a table, no answer depends on rows of another organization |
| QueryScope.CountsStayInTable | app/agents/tools.py:461-464 | every count, and every query on a table other than the employees, is of that kind |
| QueryScope.CountIsIsolatedIff | app/agents/tools.py:519-540 | the number of rows listed is the same whatever rows other organizations have, if and only if no name adds a table, or nothing matches, or the caller's own rows fill the limit |
| QueryScope.StrangersChangeTheCount | app/agents/tools.py:395-399 | otherwise two databases that differ only in other organizations' rows are counted differently: alone the caller sees fewer rows than the limit, and strangers fill it |
| QueryScope.StrangersAreCounted | app/models/employee.py:300-328 | listing the user or the supervisor of the one employee there is: no row or one, and fifty with strangers elsewhere |
| QueryScope.FilledListingsAgree | app/agents/tools.py:519-540 | a name that adds a table can leave the whole answer as it is, when own rows fill the limit with equal cells |
| QueryProperties.JoinedLength | app/agents/tools.py:519-527 | a statement has the rows of the query times the fan-out of the relationships it names |
| QueryProperties.JoinedRowsAreRows | app/agents/tools.py:519-527 | each row of the statement has the columns of a row of the query |
| QueryScope.UnownedRowsAreInvisible | app/models/employee.py:472-474 | dropping every row whose organization is null, as in skills, changes no answer that stays in its table |
| QueryProperties.ListingIsPartOfCounted | app/agents/tools.py:436-540 | a listing shows rows of the statement with the asked columns in their order, as many as the count times the fan-out of its relationships, up to its limit and 50; with an order by a column, none left out precedes one shown |
| QueryProperties.DefaultsAreTheFirst | app/agents/tools.py:513-517 | a listing that names no columns shows the first eight that are not bookkeeping, in their order |
| QueryProperties.DistinctValuesOfCounted | app/agents/tools.py:500-511 | distinct values do not repeat, are those of rows of the statement, and are all of them unless the limit cut them off |
| QueryProperties.ExtremeIsExtreme | app/agents/tools.py:475-482 | a minimum or maximum is null exactly when all cells are, else the cell of a row with no cell beyond it |
| QueryProperties.AggregateAnswers | app/agents/tools.py:475-498 | by the function's name: the mean times the number of non-null cells is their sum, the minimum has none below and the maximum none above, the distinct count is the size of the set of them, any other name gives the sum |
| QueryProperties.FilterNarrows | app/agents/tools.py:454-460 | one more filter keeps exactly those rows of before that meet it |
| QueryProperties.FiltersAreASet | app/agents/tools.py:454-460 | order and repetition of filters do not matter |
| QueryProperties.ComparisonsPartition | app/agents/tools.py:400-428 | below, equal, above and null add up to everything, and the other comparisons are their sums; unequal leaves out nulls |
| QueryProperties.GroupsAddUp | app/agents/tools.py:467-498 | sums by group add up to the ungrouped sum, times the fan-out when grouped by a relationship; for a column they are null together |
| QueryProperties.GroupIsFiltered | app/agents/tools.py:488-498 | for every aggregate and every column grouped by, a group's value is what an equality filter for its key would give |
| QueryProperties.NullGroupAnswered | app/agents/tools.py:488-498 | the value of the group of nulls is what the filter for null would give |
| QueryProperties.GroupsAreTheCells | app/agents/tools.py:488-498 | there is a group for exactly the cells that the column grouped by has |
| QueryProperties.NullGroupIsFiltered | app/agents/tools.py:488-498 | the group of nulls holds the rows that the filter for null keeps |
| Grouping.GroupsConserve | app/agents/tools.py:488-498 | grouping by any key conserves any sum |
| Summaries.FleetSummary | app/agents/tools.py:840-856 | the total is the sum of the breakdown and the number of the organization's assets that are not archived; those operating or available are a part of it |
| Summaries.TotalsCountOnce | app/agents/tools.py:922-933 | the outer join counts each item once and each balance once, whatever the fan-out |
| Summaries.ItemTotalsAddUp | app/agents/tools.py:949-969 | the grouped listing has every selected item once and adds up to their total |
| Summaries.ListedIsPartOfTotal | app/agents/tools.py:949-977 | under any category and limit, and whichever groups are shown, listed quantities sum to at most the total |
| Summaries.FullListingIsTotal | app/agents/tools.py:949-977 | without a category and with room for all items, the listing has exactly the organization's unarchived items and adds up to the totals, in quantity and in value |

## Left out

- ExpenseTables.ExpenseStore.Run: transactions commit one at a time; overlapping snapshots of concurrent transactions are not modelled, nor are SET CONSTRAINTS IMMEDIATE, NaN amounts and the guards for missing tables.
- ChangeFeed.EqualRevisionMeansEqualView: covers INSERT, UPDATE and DELETE; TRUNCATE fires no row trigger, and `changed_at` and the overflow of a bigint revision are not modelled.
- FeedInstall.RepairTracksEveryTenant: holds when the migration has run; tables created later are not covered.
- BucketMigration.NoDocumentIsLost: no delete runs during the migration, and uploads go to unused names, as the fresh random names of `save` make practically certain.
- Storage.SupabaseStorage.Save: the random name and the extension of the client's file name are parameters, and the name is unused; media types are left out.
- Storage.SupabaseStorage.PrivateBucket: nobody else unlocks the bucket while the adapter holds it to be ready; the constructor's creation of the public bucket is left out.
- Storage.SupabaseStorage.Download: the temporary file and its cache are left out.
- Storage.SupabaseStorage.EnsurePrivate: the bytes of an object are one value; network details are a choice of the request that fails, before or after it took effect.
- ColumnRefs.Densify: reading the zip archive and its XML, and shared strings, are not modelled; cells arrive as reference and text. Characters that upper-case to several letters are not modelled.
- NameMatching.NormalizeIsCanonical: starts after Unicode NFKD decomposition, whose tables are not modelled.
- NameMatching.UnmappedMatchIsUnique: the spelling suggestions for a failed match are not modelled.
- HoursGrid.ParseTimesheet: CSV quoting, the year in the file name, spreadsheet date serials and the reader of decimal numbers are parameters; white space and case are those of ASCII.
- TimesheetPlan.RerunChangesNothing: one import runs at a time; errors for over-long texts are not modelled.
- ReversalLedger.LedgerOnlyGrows: one row per INSERT; a multi-row INSERT could add rows that refer to each other.
- StockPosting.DriftExactly: sums are exact before rounding; the 28-digit decimal context and the column's own width are not modelled.
- StockReversal.ReversalRestores: reads ledger rows as stored; a reversal in the same database session as its posting, whose unstored row still has all its digits, is not modelled.
- StockTransfers.TransferLeavesResidue: a dispatched line is received once, as the document's states ensure; the document itself is left out, and the two worths are given.
- StockBooks.Books.Book: one organization; whether an issue must be returned instead of reversed is fixed when it is posted. Documents, reservations, serial numbers, lots and audit rows are left out, and so are the effects that returns and adjustments choose: effects are given.
- DynamicQuery.ExecuteQuery: how the database orders, compares, matches by LIKE and refuses values is a parameter, and serialization to floats and texts is left out. That selecting a relationship yields its join condition over an added table follows the documentation of the library, which is not part of this model; whether the supervisor is rendered against the same row or the table once more is left open. Sorting by a relationship is taken to fail, also where it is listed as well. Attributes that are neither columns nor relationships, such as methods, are answered as unknown.
- Summaries.ListedIsPartOfTotal: stated for quantities, whose check constraint keeps them from being negative; values have no such check. The category's subquery is a parameter.
- Summaries.FleetSummary: the asset listing, fuel and maintenance sections add nothing beyond filtering and one sum each.
- SiteBackfill.DrillingTables.Upgrade: adding the columns and indexes, and the downgrade, are left out.
- `LocalStorage`, permissions, settings, token creation, seeds, pure-schema migrations and the user-interface extracts are left out: they would add easy members only.
