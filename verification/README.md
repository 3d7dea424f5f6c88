# Verified models of FerrumGate tooling

Dafny models of the state-changing and arithmetic core of the FerrumGate tools, with proofs about them.
`dafny verify dfyconfig.toml` checks everything.

The main part is the SQLite to PostgreSQL migration tool, a resumable copy protocol:

| module | what it holds |
|---|---|
| `Rows` | source and target rows, the conversion done on insert, the canonical text of a row |
| `CanonicalText` | what the canonical text says about the row, and which rows it cannot tell apart |
| `Digest` | the order-independent content digest and its computation in LIMIT/OFFSET chunks |
| `Transfer` | one table: chunk transactions, rollback, row-by-row retry; refinement to one-at-a-time insertion |
| `Migration` | a whole run: checkpoint decision, validation, checkpoints, report |
| `TableTheorems`, `Exactness` | what handling one table guarantees under every fault, and exactly when it succeeds |
| `Convergence` | runs, crashes after any write, source growth, resumed runs |
| `Accounts` | which rows fail, which tables are given up and which writes are on record, told from the faults and the rows |
| `Reports` | the preflight, every field of the report, the checkpoint, the order and number of writes |
| `MigratorProgram` | the tool's loops over a mutable target, proved to do what `Transfer` and `Migration` say |

The other modules are independent of it: `JsonPointer` (JSON Pointer resolution, the schema walker),
`RfcPointer` (where that resolution departs from RFC 6901), `References` (collecting and checking references),
`StabilityGate` and `GateTheorems` (performance evidence), `Backup` (restore and retention), `Paging` (the TUI's two tasks),
`StressStats` and `Percentiles` (statistics), `SloWindow` (window life cycle). `Seqs`, `Sorting`, `Text`,
`Arithmetic` and `Wrappers` are shared.

## How the migration is modelled

A target table is a sequence of rows with unique, non-null conflict keys. A run is a function of the source,
the target and a record of everything that may fail: each insert inside its transaction; each insert alone,
each chunk's exchange and the checkpoint write, which may be lost before or after they took effect; the validation
queries; and each digest. Every committed write is recorded, so "a crash between any two steps" is any element of that
record; an error that aborts the whole run leaves the target as such a crash does. After a refused statement
PostgreSQL refuses the rest of the transaction, and the model does the same. SHA-256 is an arbitrary function with
hexadecimal results; where a theorem needs it, it is assumed to have no collision among the texts of the two tables
compared and between their two joined hash lists, and nowhere else. SELECT without ORDER BY is taken to enumerate an
unchanging table in a fixed order.

## What was found false, and its exact condition

- Canonical rows are not injective: nothing is escaped, so a text can hold what looks like the next columns. A row is
  ambiguous when one of its texts spells NULL, or holds the boundary `;<next column>=` followed by values of the flag
  and integer columns up to the next text column, each with its own boundary. Every canonical text belongs to exactly
  one row that is not ambiguous, and a row is mistaken for another such row exactly when it is ambiguous
  (`AmbiguousExact`). Other semicolons and equals signs do no harm.
- A checkpoint that carries the source's count over other content is never removed and never accepted
  (`WrongCheckpointIsStuck`); the preflight does not look at checkpoints, so an emptied target can be stranded
  (`ForgottenCheckpointStrandsResume`). `ResumeFromAnywhereExact` says exactly from which states of a table a resume
  succeeds, `ResumedRunExact` from which targets a resumed run does.
- The migrated count is not the growth of a table when a row inserted alone went in but its reply was lost; then the
  growth exceeds it by exactly those rows (`FinishedCopyConserves`).
- A restore of a database from itself reports success and leaves it empty, since the file is truncated before it is
  read; the snapshot keeps the content (`DatabaseAsBackupIsEmptied`). A restore from the database's own `.pre_restore`
  file reports success and destroys that backup (`SnapshotAsBackupIsOverwritten`). `RestoredContentExact` says exactly
  when success means the backup is in place. The original is never lost, for all paths.
- The resolver documented as RFC 6901 takes tildes that escape nothing (`StrayTildeResolves`) and array tokens such as
  `-1`, `+1` or `0_1` (`NegativeIndexResolves`). On a whole pointer it agrees with the standard exactly when it finds
  nothing, or every tilde begins `~0` or `~1` and every array on the way is given an index as section 4 writes it
  (`FindExact`); what the standard finds it always finds (`StandardIsFound`).
- With 32-bit offsets paging ends exactly for up to 4294967345 approvals (`PagesEndExactly`) and shows the list without
  gap or repeat exactly for up to 4294967300 (`PagesCoverExactly`); in between it repeats five.
- At a multiple of 2^32 samples the stress report divides by zero (`MakeReport`).

## Model

| member | source | states |
|---|---|---|
| `Rows.RenderRow` | bins/ferrum-migrate/src/main.rs:307-371 | the loop over columns gives the canonical text, or fails at the first value that decodes as none of the types tried |
| `Rows.FlagsExact` | bins/ferrum-migrate/src/main.rs:321-343 | a flag column stores whether its integer is not zero and is written true or false |
| `Rows.IntegersExact` | bins/ferrum-migrate/src/main.rs:344-361 | the integer columns store their integer in their width and are written in decimal without a leading zero |
| `Rows.TextsExact` | bins/ferrum-migrate/src/main.rs:362-368 | every other column stores its text and is written as it is |
| `Rows.OthersExact` | bins/ferrum-migrate/src/main.rs:634-662 | a null is stored and written as NULL in every column; a value of another kind than its column does not bind |
| `Rows.ConvertCellKeepsText` | bins/ferrum-migrate/src/main.rs:321-368 | a stored value binds exactly when it decodes for canonicalization, and reads back from the target column with the same text |
| `Rows.ConversionKeepsText` | bins/ferrum-migrate/src/main.rs:634-662 | a row binds exactly when it canonicalises, and the converted row reads back with the same text, through the bool/i64/i32/text decoding order |
| `CanonicalText.CanonicalRowInjective` | bins/ferrum-migrate/src/main.rs:307-371 | two rows of the column types that are not ambiguous have one canonical text only if they are equal |
| `CanonicalText.AmbiguousExact` | bins/ferrum-migrate/src/main.rs:307-371 | a row is ambiguous exactly when another row, itself not ambiguous, has its canonical text; so each text has exactly one such row |
| `Digest.JoinedExact` | bins/ferrum-migrate/src/main.rs:375-379 | the sorted newline-joined text determines the items up to order, and nothing else |
| `Digest.DigestExact` | bins/ferrum-migrate/src/main.rs:373-407 | two lists of row texts have one digest exactly when each text occurs equally often in both |
| `Digest.DigestOrderFree` | bins/ferrum-migrate/src/main.rs:375-379 | the digest does not depend on row order, for any hash function |
| `Digest.DigestMeans` | bins/ferrum-migrate/src/main.rs:373-407 | the digest is the hash of the sorted hashes of the canonical rows, joined by newlines |
| `Digest.ChunkHashes` | bins/ferrum-migrate/src/main.rs:424-433 | the loop over one chunk gives its row hashes, or fails when a row fails |
| `Digest.ContentHash` | bins/ferrum-migrate/src/main.rs:383-435 | the chunked computation gives the digest of the whole table for every chunk size from 1 to 10000 |
| `Transfer.RunRefines` | bins/ferrum-migrate/src/main.rs:601-713 | whatever fails, chunks, rollbacks and retries leave the table as offering the rows one at a time and passing over those refused alone; every state in between lies between start and end |
| `Transfer.FinishedCopyConserves` | bins/ferrum-migrate/src/main.rs:669-713 | migrated count is source count less reported failures; the table grew by it and the rows that went in with their reply lost, or with resume by at most that; every row not refused is in |
| `Accounts.FailuresExact` | bins/ferrum-migrate/src/main.rs:629-713 | row k is reported as a failed insert exactly when its chunk's transaction met trouble and its own insert was lost, had a null key, or without resume a key already there; it is in unheard exactly when only its reply was lost; it is in the transaction's errors exactly from the first troubled row of its chunk on |
| `Accounts.RetriesComplete` | bins/ferrum-migrate/src/main.rs:673-711 | whatever fails inside transactions, if single inserts and chunk exchanges work, a loadable source ends up in the target in full and counts as migrated in full |
| `Accounts.AbortExact` | bins/ferrum-migrate/src/main.rs:601-713 | a table is given up exactly when some chunk's exchange is lost or some row does not bind |
| `Accounts.WritesOnRecord` | bins/ferrum-migrate/src/main.rs:601-713 | the recorded states lead from the table found to the table left, each within one chunk of the one before |
| `Accounts.KeyExact` | bins/ferrum-migrate/src/main.rs:127-128 | keys agree exactly in all key columns, and are null exactly when one of these is |
| `Exactness.NoErrorsWholeChunks` | bins/ferrum-migrate/src/main.rs:629-713 | a finished table without errors went through whole-chunk commits only |
| `Exactness.CommittedTx` | bins/ferrum-migrate/src/main.rs:629-667 | a transaction that ends without an error has taken every row of its batch |
| `TableTheorems.OkIsClean` | bins/ferrum-migrate/src/main.rs:97-99 | a table counts as a success exactly when its result is clean; it then carries the source's count as checkpoint and matches count and digest, on the Skip, DeleteStale and Migrate paths |
| `TableTheorems.SuccessIsSound` | bins/ferrum-migrate/src/main.rs:715-746 | from any start, a success means the target holds the source's canonical rows, each as often |
| `TableTheorems.HandleKeepsInv` | bins/ferrum-migrate/src/main.rs:845-951 | every state a table passes through keeps: converted source rows only, unique keys, no checkpoint above the number of rows held |
| `TableTheorems.MarkedIsComplete` | bins/ferrum-migrate/src/main.rs:921-934 | under the invariant a checkpoint of the source's count implies the target equals the source |
| `TableTheorems.SameContentValidates` | bins/ferrum-migrate/src/main.rs:717-746 | equal content passes the count, id and digest comparisons, whatever the hash function |
| `TableTheorems.HashesMatchExact` | bins/ferrum-migrate/src/main.rs:717-746 | the two digests agree exactly when source and target hold the same canonical rows, each as often |
| `TableTheorems.CopyOk` | bins/ferrum-migrate/src/main.rs:588-951 | a migrated table succeeds exactly when the copy finished without errors, count, ids and digest match and no validation step failed |
| `Exactness.HandleFromInvExact` | bins/ferrum-migrate/src/main.rs:566-754 | with nothing failing, from any state that keeps the invariant (an empty one without resume), a table succeeds exactly when every row binds and keys are unique and not null, and then equals the source |
| `Exactness.ResumeFromAnywhereExact` | bins/ferrum-migrate/src/main.rs:845-934 | from a target with arbitrary rows (unique keys, none ambiguous) and any checkpoint, a resumed table succeeds exactly when the source is loadable and the target holds only source rows, or all of them under a matching checkpoint |
| `Exactness.WrongCheckpointIsStuck` | bins/ferrum-migrate/src/main.rs:852-902 | a matching checkpoint over other content: no resumed run changes or accepts the table |
| `Exactness.SameTextsSameContent` | bins/ferrum-migrate/src/main.rs:307-371 | for rows that are not ambiguous, equal canonical rows are equal rows: matching digests mean equal tables |
| `Convergence.SuccessIffAllClean` | bins/ferrum-migrate/src/main.rs:836-978 | overall success holds exactly when every reported entry, sequence reset included, is clean |
| `Convergence.RunPointwise` | bins/ferrum-migrate/src/main.rs:836-979 | each table is handled from its own state in order, once, whatever the others do; success is that of all of them and of the sequence reset |
| `Reports.PreflightExact` | bins/ferrum-migrate/src/main.rs:278-293 | a run is refused exactly when it is a first run and some configured table of the target holds a row; it then writes nothing |
| `Reports.CopyReportExact` | bins/ferrum-migrate/src/main.rs:588-951 | every reported field, the errors and the final checkpoint of a copied table, on every path; migrated count is the source count less the failed rows |
| `Reports.SkipReportExact` | bins/ferrum-migrate/src/main.rs:852-902 | every reported field of a skipped table; each failing check is its own error and nothing is written |
| `Reports.IdsMatchExact` | bins/ferrum-migrate/src/main.rs:724-734 | the id check passes exactly when the same ids decode as text on both sides |
| `Reports.ActionExact` | bins/ferrum-migrate/src/main.rs:526-540 | when a checkpoint skips, is deleted, or does not count |
| `Reports.TablesInOrder` | bins/ferrum-migrate/src/main.rs:838-952 | wherever a run dies, the tables before some table are as they end and those after it as they began |
| `Reports.CleanRunWrites` | bins/ferrum-migrate/src/main.rs:601-934 | a fault-free first run writes each chunk of each table once and each checkpoint once |
| `Convergence.ReportedSuccessIsSound` | bins/ferrum-migrate/src/main.rs:820-979 | from an arbitrary target and under any faults, reported success means every table holds the source's canonical rows and its count as checkpoint |
| `Convergence.EveryStateKeepsInv` | bins/ferrum-migrate/src/main.rs:820-979 | after any sequence of runs, faults, crashes after any write and source growth, every target table is a subset of the converted source with unique keys; on a fixed source checkpoints are exact |
| `Convergence.CheckpointMeansComplete` | bins/ferrum-migrate/src/main.rs:921-934 | on a fixed source a checkpoint exists only over a complete copy and carries its size |
| `Convergence.ResumeConverges` | bins/ferrum-migrate/src/main.rs:566-979 | after any such history one complete fault-free resumed run succeeds exactly when the source is loadable, leaves every target equal to its source, and agrees with an uninterrupted first run |
| `Convergence.ResumeIsIdempotent` | bins/ferrum-migrate/src/main.rs:852-902 | resuming after a success, under any faults, writes nothing and reports no migrated row; success again if no digest and no sequence reset fails |
| `Convergence.GrowthIsTracked` | bins/ferrum-migrate/src/main.rs:526-540 | when a complete target's source then grew, exactly the grown tables are found stale and the others are skipped; a fault-free resumed run ends equal to the enlarged source if that is loadable |
| `Convergence.ResumedRunExact` | bins/ferrum-migrate/src/main.rs:845-978 | from an arbitrary target of such tables a fault-free resumed run reports success exactly when every table is resumable, and then every target equals its source under its checkpoint |
| `Convergence.ForgottenCheckpointStrandsResume` | bins/ferrum-migrate/src/main.rs:278-293 | the preflight accepts an emptied target with checkpoints; wherever the first run then dies, if a checkpointed table is not at its full count, no resume succeeds or changes that table |
| `Migration.GovernanceTablesAreDistinct` | bins/ferrum-migrate/src/main.rs:135-218 | the ten tables are distinct, as the run theorems require |
| `MigratorProgram.Migrator.InsertInTransaction` | bins/ferrum-migrate/src/main.rs:629-667 | the insert loop of a chunk computes the transaction's view and errors without touching the table |
| `MigratorProgram.Migrator.InsertOneByOne` | bins/ferrum-migrate/src/main.rs:673-711 | the retry loop writes and reports the rows as the function whose account is `Accounts.FailuresExact` does |
| `MigratorProgram.Migrator.MigrateChunk` | bins/ferrum-migrate/src/main.rs:601-713 | one chunk: transaction, commit, or rollback and retry, with every committed state recorded |
| `MigratorProgram.Migrator.GatherIds` | bins/ferrum-migrate/src/main.rs:608-614 | the loop collects exactly the ids that decode as text |
| `MigratorProgram.Migrator.CopyTable` | bins/ferrum-migrate/src/main.rs:601-715 | the loop over chunks gathers the ids and hashes of the whole source while copying as the proved function does |
| `MigratorProgram.Migrator.ValidateCopy` | bins/ferrum-migrate/src/main.rs:715-746 | counts, ids and digests are compared and the result is the one proved sound |
| `MigratorProgram.Migrator.SkipTable` | bins/ferrum-migrate/src/main.rs:852-902 | a skipped table is validated again without a write |
| `MigratorProgram.Migrator.Mark` | bins/ferrum-migrate/src/main.rs:921-950 | a checkpoint is written exactly after a clean result; a failed write is reported |
| `MigratorProgram.Migrator.MigrateTable` | bins/ferrum-migrate/src/main.rs:566-754 | the imperative copy ends in the state, passes through the states and returns the result that the functions give |
| `MigratorProgram.Migrator.HandleTable` | bins/ferrum-migrate/src/main.rs:845-951 | skip, delete stale and migrate change the target, its checkpoint and its history as the functions say |
| `MigratorProgram.Migrator.TargetIsEmpty` | bins/ferrum-migrate/src/main.rs:278-293 | the preflight loop accepts exactly when all tables are empty |
| `MigratorProgram.Migrator.RunAll` | bins/ferrum-migrate/src/main.rs:838-952 | the loop over tables accumulates target, report and success as the proved function does |
| `MigratorProgram.Migrator.RunMigration` | bins/ferrum-migrate/src/main.rs:820-979 | the whole run, preflight included, ends in the target, with the history of states and the report that the function described by `Reports` gives |
| `JsonPointer.UnescapeIsDecode` | scripts/check_contract_consistency.py:61-61 | the two replacements equal a one-pass left-to-right decode on every string |
| `JsonPointer.DecodeEscape` | scripts/check_contract_consistency.py:61-61 | decoding undoes escaping on every string |
| `JsonPointer.ResolveJsonPointer` | scripts/check_contract_consistency.py:53-73 | the loop over tokens computes the value a JSON Pointer names, null when there is none |
| `JsonPointer.PyIntExact` | scripts/check_contract_consistency.py:66-70 | a token is read as an integer exactly when it is blanks, a sign or none, groups of digits, blanks; and as the number these write |
| `JsonPointer.DigitGroupsExact` | scripts/check_contract_consistency.py:66-70 | groups of digits are what stands between single underscores, never empty |
| `JsonPointer.SplitExact` | scripts/check_contract_consistency.py:60-60 | splitting loses nothing: the parts hold no separator and join to the string |
| `JsonPointer.WalkIsExact` | scripts/check_contract_consistency.py:82-90 | in a document with distinct keys the walker yields every node with its path and nothing else |
| `JsonPointer.WalkedPointersResolve` | scripts/check_contract_consistency.py:53-90 | in every document with distinct keys, the escaped pointer of every walked path resolves to that node |
| `RfcPointer.FindExact` | scripts/check_contract_consistency.py:53-73 | on every document and pointer the code agrees with RFC 6901 exactly when it finds nothing, or the escapes are well formed and every array on the way is given an index of section 4 |
| `RfcPointer.ResolveExact` | scripts/check_contract_consistency.py:53-73 | the same of the returned value, where null and not found are one |
| `RfcPointer.StandardIsFound` | scripts/check_contract_consistency.py:53-73 | what RFC 6901 evaluates to, the code finds, in the same place |
| `RfcPointer.PointerExact` | scripts/check_contract_consistency.py:56-61 | the grammar of section 3 of RFC 6901 is a leading slash and well-formed escapes, as a caller can check |
| `RfcPointer.NegativeIndexResolves` | scripts/check_contract_consistency.py:66-70 | the token -1 resolves to the last item of every non-empty array, which the standard rejects |
| `RfcPointer.StrayTildeResolves` | scripts/check_contract_consistency.py:61-65 | a tilde before another character resolves to the member of that name, which the standard rejects |
| `References.WalkersAgree` | scripts/check_contract_consistency.py:38-90 | both walkers find the same references in the same order |
| `References.CheckRefExact` | scripts/check_contract_consistency.py:112-157 | a reference draws no error exactly when it is the metaschema, a whole document, or resolves to a non-null node inside the directory |
| `References.CheckReferences` | scripts/check_contract_consistency.py:229-235 | in a document with distinct keys, no error is reported exactly when every string member named $ref, at any depth, leads somewhere; the errors are those of the references in order |
| `References.CollectedExact` | scripts/check_contract_consistency.py:38-50 | exactly the string members named $ref are collected, at every path |
| `References.CheckRefByParts` | scripts/check_contract_consistency.py:112-157 | the verdict and the kind of error of every reference, by the name before and the fragment after its hash sign |
| `StabilityGate.MedianRelativeVariance` | scripts/check_advisory_ratchet.py:288-318 | the loops compute the variance, or an error for mixed zeros and non-positive throughput |
| `StabilityGate.MedianExact` | scripts/check_advisory_ratchet.py:296-296 | the computed number, and no other, is halfway between the two middle values, told by counting the values at most and at least each |
| `StabilityGate.MedianOrderFree` | scripts/check_advisory_ratchet.py:296-296 | the median depends on the values only, not on their order |
| `StabilityGate.MedianBetween` | scripts/check_advisory_ratchet.py:296-296 | the median lies within any bounds of the values |
| `StabilityGate.VarianceExact` | scripts/check_advisory_ratchet.py:288-318 | for non-negative values the variance is below the bound exactly for an all-zero latency or positive values strictly between 0.9 and 1.1 times their median, the median told by counting |
| `GateTheorems.VarianceValue` | scripts/check_advisory_ratchet.py:313-318 | for positive values the variance is reached by one value and not exceeded by any, in percent of the counted median |
| `GateTheorems.VarianceErrors` | scripts/check_advisory_ratchet.py:300-308 | the comparison fails exactly on no values, a zero throughput, or a latency with some but not all zeros |
| `GateTheorems.ZerosVaryByNothing` | scripts/check_advisory_ratchet.py:310-311 | an all-zero latency has variance zero |
| `StabilityGate.ComputeGlobalStability` | scripts/check_advisory_ratchet.py:321-352 | the loops over scenarios and metrics compute the global maximum, or none at the first error |
| `StabilityGate.GlobalIsWorst` | scripts/check_advisory_ratchet.py:321-352 | that maximum bounds all nine variances and is one of them, or zero |
| `StabilityGate.GlobalExact` | scripts/check_advisory_ratchet.py:321-352 | for valid runs the computed maximum is below the bound exactly when all nine groups of values are steady |
| `GateTheorems.GlobalErrors` | scripts/check_advisory_ratchet.py:321-352 | the maximum exists exactly when every scenario has five runs and all its comparisons succeed |
| `StabilityGate.GroupsPartition` | scripts/check_advisory_ratchet.py:321-327 | runs of the three scenarios split into their groups without loss |
| `StabilityGate.CheckRuns` | scripts/check_advisory_ratchet.py:417-427 | the loop accepts exactly valid runs of distinct ids and counts them by scenario |
| `StabilityGate.EvaluatePerf` | scripts/check_advisory_ratchet.py:355-451 | the verdict is authoritative exactly for five valid distinct runs per scenario, fifteen in all, every critical metric steady and the declared maximum within tolerance |
| `GateTheorems.AuthoritativeMeans` | scripts/check_advisory_ratchet.py:355-451 | the verdict with its constants: five runs in each of the three named scenarios, three named metrics steady in each, declared below ten and within a billionth of the worst |
| `GateTheorems.ComparedValues` | scripts/check_advisory_ratchet.py:321-345 | the compared values are the throughput, p95 and p99 fields of the scenario's runs |
| `GateTheorems.DefectsBlock` | scripts/check_advisory_ratchet.py:210-269 | exactly the listed defects make a run or a header invalid, and any one of them blocks the verdict |
| `StabilityGate.VerdictExact` | scripts/check_advisory_ratchet.py:434-451 | on five valid distinct runs each, the comparison of declared and computed maximum decides exactly the specified verdict |
| `StabilityGate.VerdictOrderFree` | scripts/check_advisory_ratchet.py:399-451 | reordering the raw runs never changes the verdict |
| `Backup.OriginalIsNeverLost` | bins/ferrumctl/src/backup.rs:200-368 | for all paths and failure points the original is in the database or its snapshot, and no other file changes |
| `Backup.RestoreVerdicts` | bins/ferrumctl/src/backup.rs:206-349 | refusal and dry run write nothing; a restored database left a snapshot equal to the original |
| `Backup.RestoreExact` | bins/ferrumctl/src/backup.rs:206-368 | a restore writes exactly when it is confirmed, not a dry run, the backup is there and sound and an existing database is not locked; each verdict exactly when |
| `Backup.RestoredContentExact` | bins/ferrumctl/src/backup.rs:351-368 | success means the backup's content is in place exactly when the backup is apart from both files, or the contents coincide |
| `Backup.SnapshotAsBackupIsOverwritten` | bins/ferrumctl/src/backup.rs:333-353 | restoring from the snapshot file succeeds and loses that backup |
| `Backup.DatabaseAsBackupIsEmptied` | bins/ferrumctl/src/backup.rs:333-353 | restoring a database from itself succeeds and leaves it empty, with the content in the snapshot only |
| `Backup.FileSystem.BackupRestore` | bins/ferrumctl/src/backup.rs:200-368 | the step-by-step restore changes the files, one copy at a time, and answers as the function described by `Backup.RestoreExact` does |
| `Backup.LongerRetentionKeepsMore` | bins/ferrumctl/src/backup.rs:59-65 | a longer retention deletes a subset |
| `Backup.PruningComposes` | bins/ferrumctl/src/backup.rs:59-103 | pruning later or with a shorter retention gives the same directory whatever was pruned before; pruning again deletes nothing more |
| `Backup.PrunedUpToKeeps` | bins/ferrumctl/src/backup.rs:67-104 | wherever pruning stops, every entry to be kept and every later entry is there, no other, and nothing new |
| `Backup.PrunedNamesExact` | bins/ferrumctl/src/backup.rs:83-88 | a backup named for another database matches exactly if the names are equal or the other starts with this one and an underscore |
| `Backup.NamedForExact` | bins/ferrumctl/src/backup.rs:83-88 | a name matches exactly when it is the database, an underscore, anything, and the suffix |
| `Backup.FirstStopExact` | bins/ferrumctl/src/backup.rs:67-103 | pruning stops at the first entry that cannot be listed, or that is to be pruned and cannot be deleted |
| `Backup.Directory.PruneOldBackups` | bins/ferrumctl/src/backup.rs:53-107 | the loop deletes the prunable entries before the first that cannot be listed or deleted, and leaves all later ones; the count is the number deleted, reported only when nothing failed |
| `Paging.ListApprovalsPage` | bins/ferrum-tui/src/client.rs:98-113 | over-fetching by one and truncating gives the page and whether more follows |
| `Paging.PagesCoverExactly` | bins/ferrum-tui/src/client.rs:98-113 | over any unchanging list, paging ends and its pages concatenate to the list exactly when it has at most 4294967300 entries |
| `Paging.PagesEndExactly` | bins/ferrum-tui/src/client.rs:98-113 | some page reports nothing more exactly when the list has at most 4294967345 entries |
| `Paging.FetchedOnlyWhenEarned` | bins/ferrum-tui/src/main.rs:485-506 | in every interleaving, page k is fetched only after each page before it was displayed with more reported |
| `Paging.KeysLead` | bins/ferrum-tui/src/main.rs:458-506 | from a quiet state next, previous and refresh lead through one signal and one fetch to the following, the preceding and the same page |
| `Paging.IdleKeys` | bins/ferrum-tui/src/main.rs:485-506 | next without more, previous on the first page, and any key while a signal is pending change nothing |
| `Paging.IntervalLeads` | bins/ferrum-tui/src/main.rs:398-409 | the interval refetches the same page; a failed fetch clears the display and keeps the page |
| `Paging.RunIsTrueToList` | bins/ferrum-tui/src/main.rs:398-409 | over an unchanging list every page in flight or shown is the page its number says |
| `Paging.DisplayIsExact` | bins/ferrum-tui/src/main.rs:540-551 | over an unchanging list whatever is displayed is that page's stretch of it, never empty past the first page |
| `StressStats.LatenciesOutnumberCodes` | bins/ferrum-stress/src/main.rs:141-148 | in every worker interleaving, latencies outnumber status codes by the workers between their two pushes |
| `StressStats.NothingIsLost` | bins/ferrum-stress/src/main.rs:141-148 | in every interleaving the vectors hold exactly what was pushed, in order, and the error count its calls |
| `StressStats.MakeReport` | bins/ferrum-stress/src/main.rs:150-204 | each percentile is the sample nearest to its rank, the mean is the sum of the samples over their number cut to 32 bits and within the extremes below 2^32 samples, the histogram counts exactly the recorded codes |
| `StressStats.CountCodes` | bins/ferrum-stress/src/main.rs:186-189 | the histogram counts each code as often as it occurs and totals the codes |
| `StressStats.ReportFinishedRun` | bins/ferrum-stress/src/main.rs:596-600 | once all workers finished the histogram totals the request count |
| `StressStats.NearestRank` | bins/ferrum-stress/src/main.rs:181-184 | the percentile's index is the nearest rank, within the list |
| `StressStats.PercentileOfMonotone` | bins/ferrum-stress/src/main.rs:181-184 | percentiles never fall as p grows and stay within the sorted list |
| `StressStats.Stats.Record` | bins/ferrum-stress/src/main.rs:141-144 | a record is the run's PushLatency and PushCode of one worker, and leaves no worker midway that was not |
| `StressStats.Stats.AddLatency` | bins/ferrum-stress/src/main.rs:141-142 | the first critical section of a record is one action of the run, in any interleaving |
| `StressStats.Stats.Summarise` | bins/ferrum-stress/src/main.rs:150-204 | at any time the histogram totals the requests less the workers caught between their two sections |
| `Percentiles.PercentileMonotone` | scripts/run_real_workload_generator.py:254-264 | the interpolated percentile never falls as p grows, within and across ranks |
| `Percentiles.PercentileWithin` | scripts/run_real_workload_generator.py:254-264 | it lies between minimum and maximum, meets them at 0 and 100 and hits the sorted element at integer ranks |
| `Percentiles.PercentileInterpolates` | scripts/run_real_workload_generator.py:258-264 | between two neighbours of the sorted list the percentile lies on the straight line |
| `Percentiles.PercentileOrderFree` | scripts/run_real_workload_generator.py:258-258 | the order of the values does not matter |
| `SloWindow.StateFile.RunStart` | bins/ferrumctl/src/slo_window.rs:134-151 | start refuses an open window and otherwise writes a new one |
| `SloWindow.StateFile.RunStatus` | bins/ferrumctl/src/slo_window.rs:154-164 | status recomputes what it shows and writes nothing |
| `SloWindow.StateFile.RunFinalize` | bins/ferrumctl/src/slo_window.rs:167-183 | finalize closes, refuses an early close, or leaves a closed window as it is |
| `SloWindow.StartExact` | bins/ferrumctl/src/slo_window.rs:33-49 | a window starts exactly when there is none or the last one is not open, with every field new |
| `SloWindow.FinalizeExact` | bins/ferrumctl/src/slo_window.rs:59-82 | an open window closes exactly when early closing is allowed or its minimum has passed to the nanosecond; every field afterwards |
| `SloWindow.RecomputedExact` | bins/ferrumctl/src/slo_window.rs:51-57 | the length shown is that up to now, or up to the end, in whole seconds |
| `SloWindow.EveryFileIsSound` | bins/ferrumctl/src/slo_window.rs:33-82 | in every history under a clock that never goes back, the persisted window is open and untouched or closed with its exact length |
| `SloWindow.OpenWindowIsKept` | bins/ferrumctl/src/slo_window.rs:134-151 | no command overwrites an open window; only finalize closes it |
| `SloWindow.ClosedWindowsRanTheirMinimum` | bins/ferrumctl/src/slo_window.rs:64-81 | a window closed without early closing ran its minimum and records ended minus started in whole seconds |
| `SloWindow.ClosedWindowsStay` | bins/ferrumctl/src/slo_window.rs:59-63 | until the next start no command changes any field of a closed window |

## Left out

- SQL text, connections, schema migrations and the sequence reset itself: a table is a sequence of rows and a statement an operation that may fail.
- The migration without `--apply`: it writes nothing and reports every table clean.
- Insert parameters beyond the selected columns, and tables without a conflict target: none of the ten tables has either.
- Numeric limits of target columns (INT4, INT8), foreign keys and further unique columns: an insert they refuse is an insert fault.
- MigratorProgram.Migrator.MigrateTable: canonicalization errors of source rows are not listed, because such a row also fails to bind and the table is then reported by that failure alone (`Rows.ConversionKeepsText`).
- CanonicalText.AmbiguousExact: takes the column names of a table to be distinct and free of semicolons and equals signs; that the ten tables' names are so is not among the lemmas.
- Error message texts: errors carry their kind and the row.
- RfcPointer.FindExact: array tokens are read as Python's int() reads ASCII; the other Unicode digits and blanks it accepts are not modelled.
- File lookup of sibling schemas (path normalisation, symbolic links, loading): a function from the relative name to the file found.
- The enum checks and root-field checks of the schema checker: uniform field tests.
- StabilityGate.EvaluatePerf: whether the date is strict RFC 3339 (line 384), the runner a controlled one (line 386) and the baseline path free of sample components (lines 388-398) is one boolean each, because these are tests of one string; kind, version and both commits are compared.
- Floating-point rounding in the gate and the percentiles: arithmetic is over reals.
- SQLite locking, integrity checks, WAL files, permissions and symbolic links in backup.rs: answers of the outside; two paths are one file exactly when they are equal strings. `backup_create` apart from the name it gives.
- The TUI's event queue has no capacity limit and keys work in every tab, which allows more interleavings than the program has; its dry-run mode is not modelled.
- HTTP scenarios of the stress tool, the SLO window's fixed texts, and all other binaries, crates and scripts.
