# Reward points: a verified model

A family keeps a ledger of points for each child. Ledger rows are only ever appended: a mistake is
cancelled by a reversal row and may then be said again by a correction row. A family can be exported
as a backup file and made again from it. Around that core the application relies on a handful of
protocols: appending under a unique key, things that may be used once, the record of stopped
sign-ins, invitations, the silent sign-in, and overlapping readings of the family.

The project models these parts and proves what they promise. Times, ids and amounts are integers;
a table is a class with a sequence or map of rows; a database transaction that fails leaves its
tables as they were. `dafny verify dfyconfig.toml` checks everything.

How the files hang together:

- `LedgerHistory` says what a history is that could have been written row by row, for rows named by
  database ids as well as by the refs of a backup file. Everything about the ledger is stated with it:
  the checker decides it (`ArchiveRules`), the operations keep it (`LedgerUseCases`), the concurrent
  appenders keep it (`AppendProtocol`), the printer prints it (`ArchiveWriter`), the import replays it
  (`ArchiveRestore`, `FamilyImport`, `ArchiveRoundTrip`, and over the files themselves
  `ArchiveDocuments`; `ArchiveContents` says what a backup and the tables say of each other) and the
  balance curve sums it up (`BalanceSeries`, `TrendAxis`).
  Beside the laws stand lemmas named `...InFull` and the like that spell out the basic steps in the
  fields of the data, without the vocabulary the laws are stated in.
- `PointTransactions`, `Memberships` and `FamilyStore` are the tables.
- `PointEntryForm` is the browser's half of "exactly once", joined to the append of
  `PointTransactions` by a network that loses, delays and repeats.
- `OneTimeTokens`, `SessionRevocation`, `InvitationBinder`, `SilentSso`, `FamilyReload` and
  `Base64Url` stand for themselves.
- `Basics`, `Texts`, `Sorting`, `Decimal` and `MapSums` hold shared vocabulary.

Six statements that one would expect turn out to be false of the code; each is given with the exact
condition under which it holds and an input at which it fails:

- Not every family can be exported: the schema of the file guards the answer as well, so the export
  answers exactly for at most 100 persons and 20 000 rows
  (`ArchiveDocuments.ExportAnswersIffWithinCaps`, `ArchiveDocuments.CrowdIsNotExported`). What it
  answers can always be imported (`ArchiveDocuments.EveryExportedFileIsAccepted`).
- A reversal that reports success reversed its target exactly when its key was new to the ledger
  (`LedgerUseCases.ReverseTakesEffectIffKeyIsNew`, `LedgerUseCases.ReverseWithUsedKeyDoesNothing`).
- A submission that succeeds need not be what the ledger says: the row says, trimmed, what was accepted
  first under the key. At the moment of sending it is sure to be the submission exactly when the row
  already says it or, where there is none, nothing else recordable was ever sent under the key
  (`PointEntryForm.SuccessRecordsSubmissionIff`, `PointEntryForm.EditedRetryIsSureIff`).
- The record of stopped sign-ins refuses more than the first notices say: exactly what notices repeated
  after their row had expired stop (`SessionRevocation.TableAnswersLikeFirstSeen`,
  `SessionRevocation.LateReplayStopsLaterLogin`).
- After a sign-out a tab stays quiet, exactly unless it is another tab whose sign-in page was let in
  before and still asks (`SilentSso.SignOutSilencesIff`, `SilentSso.WaitingPageIsNotSilenced`).
- The forecast's daily rate times the reported days is the change of the basis period exactly when the
  days are whole or nothing changed (`BalanceSeries.ReportedDaysReconcileIff`,
  `BalanceSeries.HalfADayTooMuch`).

## Model

| member | source | states |
|---|---|---|
| LedgerHistory.BalanceIsSumOfLiveRows | bounded_contexts/reward_points/domain/services/ledger_statement.py:19-40 | Conservation: in every history that could have been written, the balance (the sum of all rows) is the sum of the rows that are neither a reversal nor reversed |
| LedgerHistory.OnlyLastCorrectionCounts | bounded_contexts/reward_points/application/family_archive_rules.py:153-167 | Along any chain of corrections positions rise and only the last row can still count |
| LedgerHistory.CorrectionsDoNotBranch | bounded_contexts/reward_points/application/family_archive_rules.py:153-167 | No row is said again twice |
| LedgerHistory.RenamedHistoryIsConsistent | bounded_contexts/reward_points/application/family_archive_writer.py:101-137 | Giving rows other names of their own, as the printer and the import do, keeps a history one that can be written |
| ArchiveRules.WrittenHistory.ClaimReversal | bounded_contexts/reward_points/application/family_archive_rules.py:139-151 | A reversal is claimed exactly when the checker remembers its target as a plain row, not reversed, of the opposite amount, and then remembers it as reversed |
| ArchiveRules.WrittenHistory.ClaimCorrection | bounded_contexts/reward_points/application/family_archive_rules.py:153-167 | A correction is claimed exactly when the checker remembers its target as a plain row, reversed and not corrected, and then remembers it as corrected |
| ArchiveRules.WrittenHistory.Append | bounded_contexts/reward_points/application/family_archive_rules.py:130-137 | The streaming checker accepts exactly the rows that may be written next, and then remembers exactly the rows so far |
| ArchiveRules.RequireWritableHistory | bounded_contexts/reward_points/application/family_archive_rules.py:107-113 | One pass decides the declarative meaning of a writable history: distinct refs, recorders among the guardians, every link allowed at its place |
| ArchiveRules.UniqueRefs | bounded_contexts/reward_points/application/family_archive_rules.py:57-63 | Refs are accepted exactly when none repeats, and the set of them is returned |
| ArchiveRules.RequireMember | bounded_contexts/reward_points/application/family_archive_rules.py:77-104 | A member is accepted exactly when it is a person, has a ledger exactly if its role owns one, and the ledger and bonus are consistent |
| ArchiveRules.RequireImportable | bounded_contexts/reward_points/application/family_archive_rules.py:32-54 | The checker is sound and complete, and reports an unsupported version only for a file of the right format |
| ArchiveRules.RowMayReverseAndCorrectAtOnce | bounded_contexts/reward_points/application/family_archive_rules.py:130-137 | Since the reversal is claimed first, one row may reverse and correct the same target |
| FamilyArchive.RecordersAreOwnerAndParents | bounded_contexts/reward_points/domain/value_objects/family_role.py:30-33 | A row of a backup may be recorded by the owner or a parent, by nobody else |
| ArchiveRules.ImportableInFull | bounded_contexts/reward_points/application/family_archive_rules.py:32-167 | What the checker accepts, in the fields of the file: format and versions, different refs, one owner, no display, ledgers for children only, bonus dates, rows that could be written one after the other, recorded by the owner, a parent or nobody |
| ArchiveRules.ParentsRecordChildrenDoNot | bounded_contexts/reward_points/application/family_archive_rules.py:37-39 | An ordinary small backup is accepted when a parent recorded its row and refused when the child itself did |
| PointTransactions.AppendKeepsTable | bounded_contexts/reward_points/infrastructure/reward_points_models.py:84-93 | An append keeps every unique key, changes no row, and hands back a row with the asked key |
| PointTransactions.AppendIsIdempotent | bounded_contexts/reward_points/infrastructure/sql_point_transaction_repository.py:73-100 | Sending an append again, whatever it now says, changes nothing and returns the first row |
| PointTransactions.WrittenInFull | bounded_contexts/reward_points/infrastructure/sql_point_transaction_repository.py:73-100 | Append in the fields of the row: when it is refused and why, when the holder of the key is handed back, and otherwise exactly which row is added |
| PointTransactions.NewestComesFirst | bounded_contexts/reward_points/infrastructure/sql_point_transaction_repository.py:35-41 | A listing holds exactly the rows of the ledger, later events first, later rows first among events at the same time |
| PointTransactions.GroupByLedger | bounded_contexts/reward_points/infrastructure/sql_point_transaction_repository.py:43-54 | Rows are handed out ledger by ledger, none lost, in their order; a ledger without rows gets an empty list |
| PointTransactions.SqlPointTransactionRepository.TryInsert | bounded_contexts/reward_points/infrastructure/sql_point_transaction_repository.py:90-95 | The savepoint insert adds one row exactly when the constraints admit it and otherwise changes nothing |
| PointTransactions.SqlPointTransactionRepository.Append | bounded_contexts/reward_points/infrastructure/sql_point_transaction_repository.py:73-100 | Find, validate, insert, adopt: the outcome and the new table are those of the specification |
| PointTransactions.SqlPointTransactionRepository.ListByLedgers | bounded_contexts/reward_points/infrastructure/sql_point_transaction_repository.py:43-54 | One query for several ledgers gives each ledger what asking for it alone gives |
| PointTransactions.SqlPointTransactionRepository.DeleteByLedger | bounded_contexts/reward_points/infrastructure/sql_point_transaction_repository.py:108-118 | Exactly the rows of the ledger go |
| LedgerUseCases.OperationsKeepSound | bounded_contexts/reward_points/application/use_cases/correct_point_transaction.py:65-110 | Recording, the daily bonus, reversing, correcting and deleting keep every ledger a history that could be written |
| LedgerUseCases.LedgersStayWritable | bounded_contexts/reward_points/application/use_cases/record_point_transaction.py:40-52 | The same over every run from an empty table, so the balance is always the sum of the rows that still count |
| LedgerUseCases.RecordingWritesTheCommand | bounded_contexts/reward_points/application/use_cases/record_point_transaction.py:40-52 | A recording writes the amount, reason and time it was given in the name of the actor, or hands back the holder of the key; it is refused exactly for a reserved or invalid key or, under a new key, an invalid amount or reason |
| LedgerUseCases.BonusWritesTheCommand | bounded_contexts/reward_points/application/use_cases/grant_due_daily_bonuses.py:67-76 | A daily bonus is recorded by nobody, with its amount and reason, under the key of its day |
| LedgerUseCases.ReversalWritesTheOpposite | bounded_contexts/reward_points/application/use_cases/reverse_point_transaction.py:38-57 | A reversal has the opposite amount and the reason of its target, is dated now and recorded by the actor |
| LedgerUseCases.ReversalIsRefused | bounded_contexts/reward_points/application/use_cases/reverse_point_transaction.py:38-57 | The reasons for refusing a reversal, in their order |
| LedgerUseCases.CorrectionIsRefused | bounded_contexts/reward_points/application/use_cases/correct_point_transaction.py:65-120 | The reasons for refusing a correction, in their order |
| LedgerUseCases.DeletingRemovesTheLedger | bounded_contexts/reward_points/infrastructure/sql_point_transaction_repository.py:108-118 | Removing a ledger removes its rows and no other |
| LedgerUseCases.OperationsMoveBalance | bounded_contexts/reward_points/domain/services/ledger_statement.py:29-31 | An operation moves the balance of its own ledger by its amount, the opposite of its target, or the difference of the two; a refused or repeated one moves nothing |
| LedgerUseCases.BalanceIsTheAccount | bounded_contexts/reward_points/domain/services/ledger_statement.py:29-31 | Over every run the balance is the sum of an account kept from the commands alone |
| LedgerUseCases.CorrectionWritesBothRows | bounded_contexts/reward_points/application/use_cases/correct_point_transaction.py:65-110 | A successful correction has written exactly two rows: the reversal of the target and the row that says it again, each in all its columns |
| LedgerUseCases.RunsKeepInvariant | bounded_contexts/reward_points/application/use_cases/correct_point_transaction.py:76-104 | A derived correction key is never in a ledger without its reversal key |
| LedgerUseCases.ReverseTakesEffectIffKeyIsNew | bounded_contexts/reward_points/application/use_cases/reverse_point_transaction.py:38-57 | A successful reversal reversed its target exactly when its key was new to the ledger |
| LedgerUseCases.ReverseWithUsedKeyDoesNothing | bounded_contexts/reward_points/application/use_cases/reverse_point_transaction.py:38-57 | A reversal with the key of a recording is answered with the recording and reverses nothing |
| AppendProtocol.RunKeepsInvariant | bounded_contexts/reward_points/infrastructure/sql_point_transaction_repository.py:73-100 | Under any interleaving of appenders with commits and aborts no two rows in play clash and every link leads to an older row |
| AppendProtocol.CommittedRowsAreUnique | bounded_contexts/reward_points/infrastructure/reward_points_models.py:84-93 | At most one committed row per ledger and key, one reversal and one correction per row |
| AppendProtocol.SameKeySameRow | bounded_contexts/reward_points/infrastructure/sql_point_transaction_repository.py:73-100 | All appenders that share a ledger and a key and are not rolled back get the same row |
| AppendProtocol.CommittedRequestIsInTable | bounded_contexts/reward_points/infrastructure/sql_point_transaction_repository.py:73-100 | A committed request has a row in the table for every key it asked for |
| AppendProtocol.LoserAdoptsOrRaises | bounded_contexts/reward_points/infrastructure/sql_point_transaction_repository.py:94-99 | Losing on the key adopts the winner's row; losing on another constraint raises, writes nothing and can no longer commit |
| AppendProtocol.CommittedRowsStay | bounded_contexts/reward_points/infrastructure/sql_point_transaction_repository.py:73-100 | Only commits add rows, and committed rows never change |
| AppendProtocol.CommittedLedgersAreHistories | bounded_contexts/reward_points/application/use_cases/correct_point_transaction.py:65-110 | Whatever the interleaving, every committed ledger in id order is a history that could be written |
| AppendProtocol.UninterruptedAppendIsWritten | bounded_contexts/reward_points/infrastructure/sql_point_transaction_repository.py:73-100 | An appender that nobody disturbs does what the sequential specification says |
| Memberships.SqlFamilyMembershipRepository.Add | bounded_contexts/reward_points/infrastructure/sql_family_membership_repository.py:34-52 | A newcomer gets the next id and the next display order; an invalid name changes nothing |
| Memberships.SqlFamilyMembershipRepository.LinkAccount | bounded_contexts/reward_points/infrastructure/sql_family_membership_repository.py:94-98 | Only the named row gets the account |
| Memberships.SqlFamilyMembershipRepository.Reorder | bounded_contexts/reward_points/infrastructure/sql_family_membership_repository.py:124-131 | The listed members are numbered from 0; a foreign id is refused and changes nothing |
| Memberships.SqlFamilyMembershipRepository.Delete | bounded_contexts/reward_points/infrastructure/sql_family_membership_repository.py:133-134 | Exactly the row goes |
| Memberships.ReorderIsWhatIsListed | bounded_contexts/reward_points/infrastructure/sql_family_membership_repository.py:124-131 | After reordering with the family's children, the children are listed in exactly that order |
| Memberships.ReorderLeavesOtherRoles | bounded_contexts/reward_points/infrastructure/sql_family_membership_repository.py:155-156 | ... and every other role is listed as before |
| Memberships.NewcomerIsListedLast | bounded_contexts/reward_points/infrastructure/sql_family_membership_repository.py:141-156 | A newcomer is listed last in its role and moves nobody |
| Memberships.ListedByRoleAndOrder | bounded_contexts/reward_points/infrastructure/sql_family_membership_repository.py:22-27 | A family is listed whole: owner, parents, children, displays, within a role by display order and id |
| Memberships.AccountListed | bounded_contexts/reward_points/infrastructure/sql_family_membership_repository.py:70-76 | The memberships of an account, all of them and no other |
| ArchiveWriter.OrderedAsWritten | bounded_contexts/reward_points/application/family_archive_writer.py:101-116 | Sorting the newest-first listing by id gives the rows in the order they were written |
| ArchiveWriter.EntryLinks | bounded_contexts/reward_points/application/family_archive_writer.py:118-137 | Entry i is called t(i+1) and its links name the entries of the rows it points at |
| ArchiveWriter.EveryExportIsImportable | bounded_contexts/reward_points/application/family_archive_writer.py:60-137 | From every sound store the printed file is one the checker accepts |
| Decimal.RefInjective | bounded_contexts/reward_points/application/family_archive_writer.py:66-69 | Numbered refs never collide |
| Decimal.RefInDigits | bounded_contexts/reward_points/application/family_archive_writer.py:69 | A ref is its prefix and the decimal digits of its number |
| FamilyStore.GuardiansAreOwnerAndParents | bounded_contexts/reward_points/domain/value_objects/family_role.py:30-33 | The guardians of a stored family are its owner and its parents |
| ArchiveContents.BackupSaysTheFamily | bounded_contexts/reward_points/application/family_archive_writer.py:60-80 | The head and the members of a backup say what the stored family says |
| ArchiveContents.PersonsAreListed | bounded_contexts/reward_points/application/family_archive_writer.py:64-66 | The members of a backup are those of the family but for the displays, in the order of the screens |
| ArchiveContents.BackupSaysTheLedgers | bounded_contexts/reward_points/application/family_archive_writer.py:82-155 | Exactly the children have a ledger; its entries say the amount, reason, time, recorder and links of every row of it, and its bonus that of the ledger |
| ArchiveRestore.HistoryReplays | bounded_contexts/reward_points/application/use_cases/import_family.py:120-142 | Every entry of an accepted history is appended as one new row and every ref is resolved when it is met |
| ArchiveRestore.MembersAreRestored | bounded_contexts/reward_points/application/use_cases/import_family.py:93-107 | The members are made in the order of the file, only the owner linked to the importing account |
| ArchiveRestore.LedgersAreRestored | bounded_contexts/reward_points/application/use_cases/import_family.py:109-118 | Every archived ledger is there with its rows and bonus, and no other ledger of the new family is |
| ArchiveRestore.AcceptedBackupIsRestored | bounded_contexts/reward_points/application/use_cases/import_family.py:76-142 | Every file that passes the field checks and the checker is restored into any valid store |
| ArchiveContents.ImportMakesTheFamily | bounded_contexts/reward_points/application/use_cases/import_family.py:76-107 | The new family and its members say what the file says, behind the rows there were |
| ArchiveContents.ImportMakesTheLedgers | bounded_contexts/reward_points/application/use_cases/import_family.py:109-159 | The new ledgers say what the file says: amounts, reasons, times, recorders, links, keys and bonus |
| ArchiveContents.ImportIsRefusedFor | bounded_contexts/reward_points/application/use_cases/import_family.py:76-81 | Which error an import ends with, and when it has none |
| FamilyImport.AppendEntries | bounded_contexts/reward_points/application/use_cases/import_family.py:120-142 | The loop over the entries computes the specified replay, stopping at the first refusal |
| FamilyImport.AddMembers | bounded_contexts/reward_points/application/use_cases/import_family.py:93-107 | The loop over the members makes them in order and yields the dictionary of refs |
| FamilyImport.AddLedger | bounded_contexts/reward_points/application/use_cases/import_family.py:109-118 | One ledger with its history and bonus |
| FamilyImport.AddLedgers | bounded_contexts/reward_points/application/use_cases/import_family.py:83-84 | The loop over the members' ledgers |
| FamilyImport.ImportFamilyUseCase.Execute | bounded_contexts/reward_points/application/use_cases/import_family.py:76-91 | The import does what the specification says, and a failed one leaves every table as it was |
| ArchiveRoundTrip.ExportCarriesEveryRow | bounded_contexts/reward_points/application/family_archive_writer.py:82-116 | A backup carries every row of every ledger of the family, each once |
| ArchiveRoundTrip.ExportRestoreExport | bounded_contexts/reward_points/application/use_cases/import_family.py:76-142 | For the use cases: what is written of a family within the caps is restored, and the restored family is written again word for word, up to the time of writing |
| ArchiveRoundTrip.RestoreSucceedsAndIsSound | bounded_contexts/reward_points/application/use_cases/import_family.py:76-91 | A document is restored exactly when the checker accepts it and the account has no family; the restored family is as sound as any and its values are those the entities let in |
| ArchiveRoundTrip.RestoreLeavesOtherFamilies | bounded_contexts/reward_points/application/use_cases/import_family.py:1-6 | A restore never changes what is written of any other family |
| ArchiveDocuments.EveryExportedFileIsAccepted | bounded_contexts/reward_points/presentation/family_archive_documents.py:1-8 | Every file an export answers with can be sent in again unchanged: any account without a family makes a family of it |
| ArchiveDocuments.DocumentInFull | bounded_contexts/reward_points/presentation/schemas.py:354-412 | What the schema lets through, bound by bound, and that the document is the file with names and reasons trimmed |
| ArchiveDocuments.ExportNeedsTheFamily | bounded_contexts/reward_points/application/family_archive_writer.py:60-63 | An export finds no family exactly when there is none with the id |
| ArchiveDocuments.ExportAnswersIffWithinCaps | bounded_contexts/reward_points/presentation/schemas.py:386-410 | The export of a sound family answers exactly when the family has at most 100 persons and 20 000 rows |
| ArchiveDocuments.CrowdIsNotExported | bounded_contexts/reward_points/presentation/schemas.py:398 | A sound family of one owner and 100 parents gets no file |
| ArchiveDocuments.ImportedFilePrintsBack | bounded_contexts/reward_points/presentation/router.py:332-379 | A file whose document is in the printer's form is exported again as that document, texts trimmed, from the family made of it |
| ArchiveDocuments.ExportImportExport | bounded_contexts/reward_points/presentation/router.py:332-379 | Export, import, export over the files themselves is a fixpoint up to the time of printing |
| ArchiveDocuments.ImportSucceedsIff | bounded_contexts/reward_points/presentation/router.py:332-349 | A file is imported exactly when it meets the schema, the checker accepts its document and the account has no family, and what it makes is sound |
| ArchiveDocuments.ImportLeavesOtherFamilies | bounded_contexts/reward_points/presentation/router.py:332-349 | An import never changes what any other family's export answers |
| Texts.TrimIsBare | bounded_contexts/reward_points/presentation/schemas.py:48-57 | Trimming leaves no white space at the ends, blanks nothing that was not blank, and is done once |
| Texts.TrimIsMiddle | bounded_contexts/reward_points/presentation/schemas.py:48-57 | Trimming cuts off white space at both ends and leaves the middle as it was |
| Texts.ValidTextIs | bounded_contexts/reward_points/domain/value_objects/transaction_reason.py:14-18 | An acceptable text is not too long and has something else than white space in it |
| BalanceSeries.BalanceSeriesOf | frontend/src/services/balanceSeries.ts:34-52 | The running sum gives each drawn row the plain sum of the drawn rows up to it |
| BalanceSeries.SeriesEndsAtPlainSum | frontend/src/services/balanceSeries.ts:34-52 | For any rows of one history in any order, the curve ends at the plain sum of the given amounts |
| BalanceSeries.SeriesIsSeries | frontend/src/services/balanceSeries.ts:45-51 | The points are in time and id order and each balance is the previous one plus the change |
| BalanceSeries.PointsSayTheRows | frontend/src/services/balanceSeries.ts:45-51 | A point has the time, amount and reason of its row, rows ordered by time and id |
| BalanceSeries.OnlyPairsAreLeftOut | frontend/src/services/balanceSeries.ts:35-44 | A row is left out exactly when it and its counterpart are both at hand |
| BalanceSeries.SeriesIgnoresInputOrder | frontend/src/services/balanceSeries.ts:34-52 | The curve does not depend on the order of the input |
| BalanceSeries.WindowReconciles | frontend/src/services/balanceSeries.ts:63-78 | A window is a contiguous part; its start balance plus the changes inside is the balance at its end; the range "all" starts at nothing |
| BalanceSeries.WindowInFull | frontend/src/services/balanceSeries.ts:63-78 | A window begins 30 or 90 days ago, or with the first point but a day ago at the latest, ends now, and shows the points between |
| BalanceSeries.ForecastInFull | frontend/src/services/balanceSeries.ts:116-138 | No forecast before seven days of history; then the balances in 7 and 30 days are the present one and the rate over these days, rounded |
| BalanceSeries.ForecastReconciles | frontend/src/services/balanceSeries.ts:116-138 | The daily rate times the exact days of the basis period is the change in that period |
| BalanceSeries.ReportedDaysReconcileIff | frontend/src/services/balanceSeries.ts:127-130 | With the reported, rounded days this holds exactly for whole days or no change |
| BalanceSeries.HalfADayTooMuch | frontend/src/services/balanceSeries.ts:127-130 | One point read 7.5 days later: the rate times the 8 reported days is not the change |
| TrendAxis.StepIsNice | frontend/src/services/balanceSeries.ts:82-86 | The step is 1, 2 or 5 times a power of ten, between a quarter and five eighths of the span |
| TrendAxis.StepIsTheSmallest | frontend/src/services/balanceSeries.ts:85-86 | No smaller number of that kind is a quarter of the span |
| TrendAxis.TicksAreNice | frontend/src/services/balanceSeries.ts:81-90 | Three to six equally spaced ticks cover all values, none is superfluous, and zero is one of them |
| PointEntryForm.PointEntryForm.BeginSubmit | frontend/src/components/PointEntryForm.tsx:65-69 | Incomplete or repeated submissions send nothing; otherwise the typed points with the sign of the button and the typed reason are sent under the kept key or a new one |
| PointEntryForm.PointEntryForm.FinishResolved | frontend/src/components/PointEntryForm.tsx:72-74 | Success forgets the key and empties the form |
| PointEntryForm.PointEntryForm.FinishRejected | frontend/src/components/PointEntryForm.tsx:75-80 | Failure keeps the input and the key |
| PointEntryForm.PressSendsWhatIsTyped | frontend/src/components/PointEntryForm.tsx:65-71 | In every reachable state a press of either button sends the typed points with the sign of the button, and the typed reason, under the kept or the new key |
| PointEntryForm.DeliveryInFull | bounded_contexts/reward_points/presentation/schemas.py:285-291 | A request that arrives is turned away, answered with the holder of its key, or written as sent, trimmed, in the name of the sender |
| PointEntryForm.RowsAreTheAcceptedKeys | frontend/src/components/PointEntryForm.tsx:62-81 | Over any network the rows brought about are, one each, the distinct keys the server accepted |
| PointEntryForm.RowSaysFirstAccepted | bounded_contexts/reward_points/presentation/schemas.py:285-291 | Over every run a row says the trimmed content of the first request that the server accepted under its key |
| PointEntryForm.SuccessMeansOneRow | frontend/src/components/PointEntryForm.tsx:62-81 | A submission that succeeds leaves exactly one row for its key, saying what was accepted first under it, and an empty form without a key |
| PointEntryForm.DoneKeysAreNotReused | frontend/src/components/PointEntryForm.tsx:68-72 | A key is never used again after a success |
| PointEntryForm.SuccessRecordsSubmissionIff | frontend/src/components/PointEntryForm.tsx:65-80 | In every reachable state awaiting a submission: each way it can succeed leaves it recorded, trimmed, if and only if the row already under its key says it or, with no such row, nothing else recordable was ever sent under the key |
| PointEntryForm.PressRecordsWhatIsTypedIff | frontend/src/components/PointEntryForm.tsx:65-80 | The same for what was typed, with either button: every way the press can succeed leaves a row with the signed points and the trimmed reason, exactly under that condition |
| PointEntryForm.UnchangedInputIsRecorded | frontend/src/components/PointEntryForm.tsx:75-78 | In particular, while the input is not changed under a key, a success leaves the trimmed submission recorded |
| PointEntryForm.EditedRetryIsSureIff | frontend/src/components/PointEntryForm.tsx:68-78 | After a failure, an edit and a second press, of either button each time, the submission is sure to be recorded exactly when signed points and trimmed reason are the same |
| OneTimeTokens.OneTimeRepository.Issue | bounded_contexts/identity_federation/infrastructure/sql_sso_login_session_repository.py:28-46 | Issuing sweeps what has expired and adds the row |
| OneTimeTokens.OneTimeRepository.Peek | bounded_contexts/identity_federation/infrastructure/sql_sso_login_session_repository.py:48-54 | Reading uses nothing up and treats an expired row as missing |
| OneTimeTokens.OneTimeRepository.Consume | bounded_contexts/account_security/infrastructure/sql_webauthn_challenge_repository.py:42-75 | A known challenge for the right purpose is deleted and handed out unless expired; another purpose leaves it in place |
| OneTimeTokens.RunKeepsInvariant | bounded_contexts/identity_federation/infrastructure/sql_sso_login_ticket_repository.py:51-85 | Under any interleaving a token is claimed by at most one transaction that is not rolled back |
| OneTimeTokens.UsedAtMostOnce | bounded_contexts/identity_federation/infrastructure/sql_sso_login_session_repository.py:56-78 | Under any interleaving a token is successfully used at most once |
| OneTimeTokens.UsedInTimeAndForItsPurpose | bounded_contexts/identity_federation/infrastructure/sql_sso_login_ticket_repository.py:74-85 | ... never after it expired, and for its purpose only |
| OneTimeTokens.RowsLeaveOnlyFor | bounded_contexts/identity_federation/infrastructure/sql_sso_login_session_repository.py:28-46 | In every run a row goes only by removal, by the sweep after it expired, or with the commit of the consumer that deleted it |
| OneTimeTokens.WrongPurposeLeavesRow | bounded_contexts/account_security/infrastructure/sql_webauthn_challenge_repository.py:42-45 | A wrong-purpose attempt leaves the row in place even when committed |
| OneTimeTokens.LoneConsumerIsConsume | bounded_contexts/identity_federation/infrastructure/sql_sso_login_session_repository.py:56-78 | The steps of an undisturbed consumer are the repository's method |
| OneTimeTokens.LoneUpdateUsesIff | bounded_contexts/reward_points/infrastructure/sql_family_invitation_repository.py:91-117 | An undisturbed conditional update succeeds exactly for a known, unused, unexpired invitation |
| SessionRevocation.SqlSessionRevocationRepository.Record | bounded_contexts/identity_federation/infrastructure/sql_session_revocation_repository.py:27-45 | Expired rows are swept; the notice is written exactly when its jti is not kept |
| SessionRevocation.SqlSessionRevocationRepository.IsRevokedNow | bounded_contexts/identity_federation/infrastructure/sql_session_revocation_repository.py:47-69 | A login is refused exactly when some row of its issuer and subject, no older than the login, is for all sessions or for its own |
| SessionRevocation.RevokedInColumns | bounded_contexts/identity_federation/infrastructure/sql_session_revocation_repository.py:54-69 | The answer in the columns: issuer and subject equal, the stop no earlier than the login, and no session id or the same |
| SessionRevocation.SweepingForgetsNothingNeeded | bounded_contexts/identity_federation/infrastructure/sql_session_revocation_repository.py:27-69 | With retention of at least a login's lifetime, the swept table answers like the complete log of what was written |
| SessionRevocation.FirstNoticesAreEnforced | bounded_contexts/identity_federation/infrastructure/sql_session_revocation_repository.py:27-69 | What the first notice of any jti stops is stopped |
| SessionRevocation.WrittenRepetitionIsLate | bounded_contexts/identity_federation/infrastructure/sql_session_revocation_repository.py:27-45 | A repeated notice is written only when every earlier row of its jti has expired |
| SessionRevocation.TableAnswersLikeFirstSeen | bounded_contexts/identity_federation/infrastructure/sql_session_revocation_repository.py:27-69 | The exact answer: a living login is refused if and only if a first notice stops it or a notice repeated after its row had expired does |
| SessionRevocation.LateReplayStopsLaterLogin | bounded_contexts/identity_federation/infrastructure/sql_session_revocation_repository.py:27-45 | With one, a login that no first notice stops can be refused |
| SessionRevocation.ReplayInTimeChangesNothing | bounded_contexts/identity_federation/infrastructure/sql_session_revocation_repository.py:32-33 | A notice repeated within the retention changes no answer |
| SessionRevocation.SubjectWideStopHitsEverySession | bounded_contexts/identity_federation/infrastructure/sql_session_revocation_repository.py:47-69 | A written notice without a session id stops every living session of its subject |
| SessionRevocation.SessionStopHitsItsSession | bounded_contexts/identity_federation/infrastructure/sql_session_revocation_repository.py:47-69 | A written notice with a session id stops that session while it lives |
| SessionRevocation.OnlyOwnNoticesStop | bounded_contexts/identity_federation/infrastructure/sql_session_revocation_repository.py:47-69 | In every run a refused login has been given a notice of its own subject, for all sessions or for its own |
| SessionRevocation.SessionStopsSpareTheOthers | bounded_contexts/identity_federation/infrastructure/sql_session_revocation_repository.py:47-69 | Notices for one session alone stop no other session, subject or issuer |
| InvitationBinder.SqlFamilyInvitationRepository.Issue | bounded_contexts/reward_points/infrastructure/sql_family_invitation_repository.py:44-62 | A new, unused invitation is added |
| InvitationBinder.SqlFamilyInvitationRepository.FindByCode | bounded_contexts/reward_points/infrastructure/sql_family_invitation_repository.py:64-68 | An invitation is found exactly when the code is known |
| InvitationBinder.SqlFamilyInvitationRepository.ListPending | bounded_contexts/reward_points/infrastructure/sql_family_invitation_repository.py:70-80 | What is unused and not expired in the family, in the order it was issued |
| InvitationBinder.SqlFamilyInvitationRepository.Consume | bounded_contexts/reward_points/infrastructure/sql_family_invitation_repository.py:91-117 | The one matching invitation is marked used exactly when it is unused and not expired |
| InvitationBinder.SqlFamilyInvitationRepository.Delete | bounded_contexts/reward_points/infrastructure/sql_family_invitation_repository.py:119-120 | Exactly the row goes |
| InvitationBinder.InvitationBinder.Link | bounded_contexts/reward_points/application/invitation_binder.py:72-78 | Only an unlinked member of the inviting family is linked |
| InvitationBinder.InvitationBinder.Join | bounded_contexts/reward_points/application/invitation_binder.py:80-98 | A newcomer needs a name, and gets a ledger exactly if the role owns one |
| InvitationBinder.InvitationBinder.Bind | bounded_contexts/reward_points/application/invitation_binder.py:44-70 | The invitation is used up first, the guards follow in order, and a failure changes nothing |
| InvitationBinder.BindMeansJoined | bounded_contexts/reward_points/application/invitation_binder.py:44-98 | What a successful bind has done: one unused invitation used in time, the account in the inviting family, no linked member touched |
| InvitationBinder.BindNeedsAnInvitation | bounded_contexts/reward_points/infrastructure/sql_family_invitation_repository.py:91-117 | An unknown, used or expired code is refused |
| InvitationBinder.BindRefusesMembers | bounded_contexts/reward_points/application/invitation_binder.py:53-59 | An account that takes part somewhere is refused, and told whether it is this family |
| InvitationBinder.BindLinksTheTarget | bounded_contexts/reward_points/application/invitation_binder.py:72-78 | An invitation for a member links exactly that member of the inviting family, if it is not linked |
| InvitationBinder.BindMakesANewcomer | bounded_contexts/reward_points/application/invitation_binder.py:80-98 | An open invitation makes a member with its role, the given name, listed last, with a ledger for a child |
| InvitationBinder.ConsumeIsTheUpdate | bounded_contexts/reward_points/infrastructure/sql_family_invitation_repository.py:91-117 | Using up an invitation is the undisturbed conditional update among many consumers |
| InvitationBinder.UsedInTime | bounded_contexts/reward_points/infrastructure/sql_family_invitation_repository.py:105-109 | Over any run an invitation that is used was used before it expired |
| InvitationBinder.RunsKeepFamilies | bounded_contexts/reward_points/application/invitation_binder.py:44-98 | Over any run from any sound tables an account takes part once, exactly the owning roles have ledgers, and the successful binds are as many as the invitations used since the start |
| InvitationBinder.LinkedMembersStay | bounded_contexts/reward_points/application/invitation_binder.py:72-78 | Over any run from any sound tables a linked member, by a bind or otherwise, is never relinked |
| SilentSso.SilentSsoMarks.MaySilent | frontend/src/services/silentSso.ts:45-56 | An attempt is allowed exactly when the address carries nothing else and no mark forbids it |
| SilentSso.SilentSsoMarks.MarkSilentSsoTried | frontend/src/services/silentSso.ts:59-66 | Reports true exactly when the tried mark stands because the storage can be written |
| SilentSso.SilentSsoMarks.MarkSignedOut | frontend/src/services/silentSso.ts:78-84 | The mark is set if the storage can be written |
| SilentSso.SilentSsoMarks.ClearSilentSsoMarks | frontend/src/services/silentSso.ts:87-94 | Both marks go |
| SilentSso.AttemptsAreBounded | frontend/src/pages/LoginPage.tsx:51-83 | In every run a tab's attempts are at most 1 plus its documents opened by reload plus its successful sign-ins and renewals |
| SilentSso.PageIsLetInIff | frontend/src/services/silentSso.ts:45-56 | A page may ask exactly without a pending code, with only where to go in its address (or, reloaded, a declined try), no sign-out mark, and no try in this tab unless reloaded |
| SilentSso.AttemptIsMadeIff | frontend/src/pages/LoginPage.tsx:51-83 | An attempt is made exactly when such a page hears of a provider and its mark stands |
| SilentSso.SignInTakesTheMarksAway | frontend/src/services/silentSso.ts:87-94 | A sign-in takes the sign-out mark from all tabs and the tried mark from its own |
| SilentSso.SignedInMayTryAgain | frontend/src/store/AuthContext.tsx:124-152 | In every reachable state, after a sign-in a new page of the tab may ask exactly when its address carries nothing but where to go |
| SilentSso.RenewalsAndMarks | frontend/src/services/api.ts:220-237 | When a renewal is asked for, and which marks its end sets or clears |
| SilentSso.NoMarkNoAttempt | frontend/src/services/silentSso.ts:59-66 | Without a writable storage nothing is ever tried |
| SilentSso.SignOutSilencesIff | frontend/src/store/AuthContext.tsx:156-163 | In every reachable state, after a sign-out a tab stays quiet until somebody gets in, exactly unless it is another tab whose sign-in page was let in before and still asks |
| SilentSso.WaitingPageIsNotSilenced | frontend/src/pages/LoginPage.tsx:51-83 | Such a state comes about: a sign-in page waits in one tab while another signs out |
| SilentSso.NoRenewalAfterSignOut | frontend/src/services/api.ts:220-237 | After a sign-out that could be recorded no tab asks for a renewal until somebody gets in; with unreadable storage none is ever asked for |
| FamilyReload.FamilyProvider.BeginReload | frontend/src/store/FamilyContext.tsx:74-85 | A new ticket; without the scope nothing is shown and loading ends |
| FamilyReload.FamilyProvider.FinishReload | frontend/src/store/FamilyContext.tsx:86-100 | Only the newest ticket changes anything, and a failure keeps a shown family |
| FamilyReload.OnlyNewestIsApplied | frontend/src/store/FamilyContext.tsx:74-101 | No stale overwrite: applied results come from the newest reading, with rising tickets, and the shown family is the last answer that was no failure |
| FamilyReload.FamilyGivesWayOnlyTo | frontend/src/store/FamilyContext.tsx:91-95 | A shown family gives way only to the newest answer or to losing the scope |
| FamilyReload.LoadingEndsOnce | frontend/src/store/FamilyContext.tsx:96-100 | Loading never turns true again |
| FamilyReload.NewestAnswerIsShown | frontend/src/store/FamilyContext.tsx:86-90 | The newest answer is shown at once and stays through every continuation in which no newer reading ends |
| Base64Url.AtobOfBtoa | frontend/src/services/webauthn.ts:54-68 | RFC 4648, section 4: decoding undoes encoding |
| Base64Url.BufferToBase64url | frontend/src/services/webauthn.ts:63-68 | The loop and the replacements compute the specified text |
| Base64Url.Base64urlToBuffer | frontend/src/services/webauthn.ts:54-61 | The re-padding and the loop compute the specified bytes, or refuse |
| Base64Url.DecodedOfEncoded | frontend/src/services/webauthn.ts:54-68 | RFC 4648, section 5: the round trip returns the bytes |
| Base64Url.EncodedIsUrlSafe | frontend/src/services/webauthn.ts:63-68 | The text is in the URL alphabet, without padding |
| Base64Url.EncodedInFull | frontend/src/services/webauthn.ts:63-68 | RFC 4648, sections 4 and 5: every three bytes are the number that four symbols of the URL alphabet spell, one or two at the end filled up with zeros and cut off |

## Left out

- HTTP routing, JSON schemas beyond the field checks of a backup, token signing, mail and logging: they carry values in and out.
- Database isolation below "a transaction sees committed rows and its own": a snapshot read that misses a concurrent winner is not modelled. Row locks are modelled as waiting; deadlocks are aborts.
- Hashing, random codes, keys and states: new values are assumed not to be in use, and a code stands for its hash, so trimming and upper-casing of a typed code is not modelled.
- Access policy, daily-bonus scheduling, reward events, paging and display pairing: guards and listings that would only add easy members.
- AppendProtocol.RunKeepsInvariant: ledgers are not deleted while others append; deletion is covered by the sequential runs of LedgerUseCases.
- LedgerUseCases.LedgersStayWritable: a request's actor is a plain id; that the recorder is a guardian of the family is part of the store's soundness, not of these runs.
- BalanceSeries.ForecastReconciles: real numbers instead of floating point.
- TrendAxis.TicksAreNice: integers with zero inside and a top of at least ten, the one way the chart calls it, with "largest power of ten at most raw" for the rounded logarithm.
- PointEntryForm.RowsAreTheAcceptedKeys: one mounted form with whole amounts; the busy flag takes effect at once, as it does between two user events; a new key has no blanks around it and is not in use.
- InvitationBinder.RunsKeepFamilies: the runs issue, revoke and bind, each bind atomic as a whole; role changes, departures and children added by a guardian are not among the steps.
- OneTimeTokens.OneTimeRepository.Consume: one class stands for the three repositories that delete what they hand out; requests and tickets are the ones with a single purpose, and what a token carries besides is not modelled.
- Texts.TrimIsBare: white space is the space, the tab and the line ends; other Unicode white space counts as text, in the browser as well as on the server.
- SessionRevocation.SweepingForgetsNothingNeeded: retention of at least a login's lifetime is a precondition; the reconciliation passes the refresh lifetime only.
- SilentSso.AttemptsAreBounded: an attempt, and a sign-in with the reading of the profile behind it, leaves its page at once, so one document makes at most one attempt; a sign-in page whose address changes while it is shown does not ask again.
- SilentSso.NoRenewalAfterSignOut: a renewal counts as asked for when the mark is looked at; it may then still wait for another tab's, which is not modelled.
- Base64Url.DecodedOfEncoded: `atob` is modelled without the white space and missing padding it also tolerates.
