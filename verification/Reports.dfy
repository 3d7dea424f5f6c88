/**
 * What a run reports and what it leaves behind, field by field and write by
 * write: the preflight, the result of each table, its checkpoint, the order in which tables
 * are written and the number of writes.
 */
module Reports {
  import opened Wrappers
  import opened Seqs
  import opened Rows
  import opened Digest
  import opened Transfer
  import opened Migration
  import opened TableTheorems
  import opened Exactness
  import opened Accounts
  import opened Convergence

  // ---- the preflight ----

  /** Some configured table of the target holds a row. */
  ghost predicate HoldsRows(cfgs: seq<TableConfig>, db: Db) {
    exists i | 0 <= i < |cfgs| :: cfgs[i].name in db && db[cfgs[i].name].rows != []
  }

  /**
   * A run is refused exactly when it is a first run onto a target that holds
   * rows in any configured table; a refused run writes nothing.
   */
  lemma PreflightExact(env: Env, cfgs: seq<TableConfig>, db: Db)
    requires env.chunk > 0
    ensures RunMigration(env, cfgs, db).report.None? <==> !env.resume && HoldsRows(cfgs, db)
    ensures RunMigration(env, cfgs, db).report.None? ==>
              RunMigration(env, cfgs, db).trace == [] && RunMigration(env, cfgs, db).db == db
  {
  }

  /** A checkpoint counts only in an applied resumed run: a matching one skips its table, another one is deleted. */
  lemma ActionExact(checkpoint: Option<int>, sourceCount: nat, resume: bool, apply: bool)
    ensures var action := CheckpointAction(checkpoint, sourceCount, resume, apply);
            && (action.Skip? <==> apply && resume && checkpoint == Some(sourceCount))
            && (action.DeleteStale? <==> apply && resume && checkpoint.Some? && checkpoint.value != sourceCount)
            && (action.Migrate? <==> !apply || !resume || checkpoint.None?)
  {
  }

  // ---- the result of one table ----

  /** The ids that decode as text are the same on both sides, for a table that has an id column. */
  lemma IdsMatchExact(cfg: TableConfig, source: seq<StoredRow>, rows: seq<Row>)
    ensures IdsMatch(cfg, source, rows) <==>
              cfg.idColumn.Some? ==>
                forall s :: HasSourceId(cfg.idColumn.value, source, s) <==> HasTargetId(cfg.idColumn.value, rows, s)
  {
    if cfg.idColumn.Some? {
      var id := cfg.idColumn.value;
      assert forall s :: s in SourceIds(id, source) <==> HasSourceId(id, source, s);
      assert forall s :: s in TargetIds(id, rows) <==> HasTargetId(id, rows, s);
    }
  }

  ghost predicate HasSourceId(id: nat, source: seq<StoredRow>, s: string) {
    exists k | 0 <= k < |source| && id < |source[k]| :: source[k][id] == Text(s)
  }

  ghost predicate HasTargetId(id: nat, rows: seq<Row>, s: string) {
    exists k | 0 <= k < |rows| && id < |rows[k]| :: rows[k][id] == Str(s)
  }

  /** A copy that reached its validation and got through it: allowed, not given up, no failed query. */
  ghost predicate Validated(job: Job, slot: Slot)
    requires job.chunk > 0
  {
    (job.resume || slot.rows == []) && !BreaksFrom(job, 0) && !job.faults.validation
  }

  /** The checks that a validated copy passes before its checkpoint is written; the target's digest may be missing. */
  predicate Passes(job: Job, st: Progress, source: Option<string>, target: Option<string>) {
    && st.errors == [] && |st.rows| == |job.source| && IdsMatch(job.cfg, job.source, st.rows)
    && source.Some? && source == target
  }

  /** A table given up: nothing is counted or matched, and its checkpoint is as it was. */
  ghost predicate GivenUp(job: Job, slot: Slot, h: Handled) {
    var r := h.result;
    && r.table == job.cfg.name && r.sourceCount == |job.source| && r.targetCount == 0 && r.migratedCount == 0
    && !r.idMatch && !r.countMatch && !r.hashMatch && r.sourceHash == None && r.targetHash == None
    && r.errors == [TableAborted] && !h.ok && h.slot.checkpoint == slot.checkpoint
  }

  /** A validated table: what was counted and compared, and a checkpoint exactly if it passed and the write took effect. */
  ghost predicate Compared(job: Job, slot: Slot, st: Progress, source: Option<string>, target: Option<string>, h: Handled) {
    var r, passes := h.result, Passes(job, st, source, target);
    && r.table == job.cfg.name && r.sourceCount == |job.source| && r.targetCount == |h.slot.rows|
    && (r.countMatch <==> |h.slot.rows| == |job.source|) && (r.idMatch <==> IdsMatch(job.cfg, job.source, h.slot.rows))
    && r.sourceHash == source && r.targetHash == target && (r.hashMatch <==> source.Some? && source == target)
    && r.errors == st.errors + (if target.None? then [TargetHashError] else [])
                   + (if passes && job.faults.checkpoint != Steady then [CheckpointError] else [])
    && h.slot.checkpoint == (if passes && job.faults.checkpoint != LostBefore then Some(|job.source|) else slot.checkpoint)
    && (h.ok <==> passes && job.faults.checkpoint == Steady)
  }

  lemma ConcludeCompared(job: Job, slot: Slot, st: Progress, source: Option<string>, target: Option<string>, h: Handled)
    requires h == Conclude(job, slot, Copied(st.rows, st.trace, Some(CopyResult(job, st, source, target))))
    ensures Compared(job, slot, st, source, target, h) && h.slot.rows == st.rows && h.result.migratedCount == st.migrated
  {
    CopyResultClean(job, st, source, target);
  }

  lemma ConcludeGivenUp(job: Job, slot: Slot, copied: Copied)
    requires copied.result.None?
    ensures GivenUp(job, slot, Conclude(job, slot, copied)) && Conclude(job, slot, copied).slot.rows == copied.rows
  {
  }

  /** What is reported of a copied table and what its slot is afterwards. */
  ghost predicate CopyReported(job: Job, sha: Sha, slot: Slot, h: Handled)
    requires job.chunk > 0
  {
    var st := RunFrom(job, Begin(slot.rows), 0);
    && h.slot.rows == (if job.resume || slot.rows == [] then st.rows else slot.rows)
    && (!Validated(job, slot) ==> GivenUp(job, slot, h))
    && (Validated(job, slot) ==>
          && h.result.migratedCount == |job.source| - |FailedRows(st.errors)|
          && Compared(job, slot, st, SourceDigest(sha, job.cfg, job.source),
                      if job.faults.targetHash then None else TargetDigest(sha, job.cfg, st.rows), h))
  }

  lemma MigrateReports(job: Job, sha: Sha, slot: Slot)
    requires job.chunk > 0
    ensures CopyReported(job, sha, slot, MigrateSlot(job, sha, slot))
  {
    var st := RunFrom(job, Begin(slot.rows), 0);
    AbortExact(job, slot.rows);
    if Validated(job, slot) {
      FinishedCopyConserves(job, slot.rows);
      ConcludeCompared(job, slot, st, SourceDigest(sha, job.cfg, job.source),
                       if job.faults.targetHash then None else TargetDigest(sha, job.cfg, st.rows), MigrateSlot(job, sha, slot));
    } else {
      ConcludeGivenUp(job, slot, MigrateTable(job, sha, slot.rows));
    }
  }

  /**
   * The report of a table that is not skipped, on every path: counts, matches,
   * digests, errors, and the checkpoint it ends with; a resumed copy starts without one.
   */
  lemma CopyReportExact(job: Job, sha: Sha, slot: Slot)
    requires job.chunk > 0 && !(job.resume && slot.checkpoint == Some(|job.source|))
    ensures CopyReported(job, sha, if job.resume then slot.(checkpoint := None) else slot, HandleTable(job, sha, slot))
  {
    HandleCases(job, sha, slot);
    MigrateReports(job, sha, if job.resume then slot.(checkpoint := None) else slot);
  }

  /** A skipped table: each failing check is an error of its own, and there are no others. */
  ghost predicate SkipReported(job: Job, rows: seq<Row>, source: Option<string>, target: Option<string>, r: TableResult) {
    && r.table == job.cfg.name && r.sourceCount == |job.source| && r.targetCount == |rows| && r.migratedCount == 0
    && (r.countMatch <==> |rows| == |job.source|) && r.idMatch == r.countMatch
    && r.sourceHash == source && r.targetHash == target && (r.hashMatch <==> source.Some? && source == target)
    && (CountMismatch in r.errors <==> !r.countMatch) && (HashMismatch in r.errors <==> r.countMatch && !r.hashMatch)
    && (SourceHashError in r.errors <==> source.None?) && (TargetHashError in r.errors <==> target.None?)
    && (forall e | e in r.errors :: e in {CountMismatch, HashMismatch, SourceHashError, TargetHashError})
  }

  lemma SkipResultReports(job: Job, rows: seq<Row>, source: Option<string>, target: Option<string>)
    ensures SkipReported(job, rows, source, target, SkipResult(job, rows, source, target))
  {
  }

  /** The report of a table resumed under a matching checkpoint: it is checked again and nothing is written. */
  lemma SkipReportExact(job: Job, sha: Sha, slot: Slot)
    requires job.chunk > 0 && job.resume && slot.checkpoint == Some(|job.source|)
    ensures var h, f := HandleTable(job, sha, slot), job.faults;
            && h.slot == slot && h.trace == [] && (h.ok <==> h.result.errors == [])
            && SkipReported(job, slot.rows, if f.sourceHash then None else SourceDigest(sha, job.cfg, job.source),
                            if f.targetHash then None else TargetDigest(sha, job.cfg, slot.rows), h.result)
  {
    HandleCases(job, sha, slot);
    SkipResultReports(job, slot.rows, if job.faults.sourceHash then None else SourceDigest(sha, job.cfg, job.source),
                      if job.faults.targetHash then None else TargetDigest(sha, job.cfg, slot.rows));
  }

  // ---- the order of writes ----

  /** While table i is written, every earlier table is as it ends and every later one as it began. */
  ghost predicate WritingTable(handle: Handler, cfgs: seq<TableConfig>, db: Db, now: Db, i: nat)
    requires i < |cfgs|
  {
    && (forall j | 0 <= j < i :: SlotOf(now, cfgs[j].name) == handle(cfgs[j], SlotOf(db, cfgs[j].name)).slot)
    && SlotOf(now, cfgs[i].name) in handle(cfgs[i], SlotOf(db, cfgs[i].name)).trace
    && (forall j | i < j < |cfgs| :: SlotOf(now, cfgs[j].name) == SlotOf(db, cfgs[j].name))
  }

  ghost predicate InOrder(handle: Handler, cfgs: seq<TableConfig>, db: Db, now: Db) {
    exists i | 0 <= i < |cfgs| :: WritingTable(handle, cfgs, db, now, i)
  }

  ghost predicate AllInOrder(handle: Handler, cfgs: seq<TableConfig>, db: Db, trace: seq<Db>) {
    forall k | 0 <= k < |trace| :: InOrder(handle, cfgs, db, trace[k])
  }

  /** The first i tables are handled, the others untouched. */
  ghost predicate HandledUpTo(handle: Handler, cfgs: seq<TableConfig>, db: Db, now: Db, i: nat)
    requires i <= |cfgs|
  {
    && (forall j | 0 <= j < i :: SlotOf(now, cfgs[j].name) == handle(cfgs[j], SlotOf(db, cfgs[j].name)).slot)
    && (forall j | i <= j < |cfgs| :: SlotOf(now, cfgs[j].name) == SlotOf(db, cfgs[j].name))
  }

  lemma StepInOrder(handle: Handler, cfgs: seq<TableConfig>, db: Db, st: RunState, i: nat)
    requires DistinctTables(cfgs) && i < |cfgs| && HandledUpTo(handle, cfgs, db, st.db, i)
    requires AllInOrder(handle, cfgs, db, st.trace)
    ensures var next := StepTable(st, cfgs[i], handle(cfgs[i], SlotOf(db, cfgs[i].name)));
            HandledUpTo(handle, cfgs, db, next.db, i + 1) && AllInOrder(handle, cfgs, db, next.trace)
  {
    var h := handle(cfgs[i], SlotOf(db, cfgs[i].name));
    forall k | 0 <= k < |h.trace|
      ensures InOrder(handle, cfgs, db, st.db[cfgs[i].name := h.trace[k]])
    {
      assert WritingTable(handle, cfgs, db, st.db[cfgs[i].name := h.trace[k]], i);
    }
  }

  lemma {:induction false} RunTablesInOrder(handle: Handler, cfgs: seq<TableConfig>, db: Db, st: RunState, i: nat)
    requires DistinctTables(cfgs) && i <= |cfgs| && HandledUpTo(handle, cfgs, db, st.db, i)
    requires AllInOrder(handle, cfgs, db, st.trace)
    ensures AllInOrder(handle, cfgs, db, RunTables(handle, st, cfgs, i).trace)
    decreases |cfgs| - i
  {
    if i < |cfgs| {
      StepInOrder(handle, cfgs, db, st, i);
      RunTablesInOrder(handle, cfgs, db, StepTable(st, cfgs[i], handle(cfgs[i], SlotOf(db, cfgs[i].name))), i + 1);
    }
  }

  /** Tables are written one after the other in the configured order: a run that dies has at most one of them half done. */
  lemma TablesInOrder(env: Env, cfgs: seq<TableConfig>, db: Db, writes: nat)
    requires env.chunk > 0 && DistinctTables(cfgs) && 0 < writes <= |RunMigration(env, cfgs, db).trace|
    ensures InOrder(HandlerOf(env), cfgs, db, Cut(db, RunMigration(env, cfgs, db), writes))
  {
    RunTablesInOrder(HandlerOf(env), cfgs, db, Start(db), 0);
  }

  // ---- the number of writes ----

  function TotalWrites(handle: Handler, cfgs: seq<TableConfig>, db: Db, i: nat): nat
    decreases |cfgs| - i
  {
    if i >= |cfgs| then 0 else |handle(cfgs[i], SlotOf(db, cfgs[i].name)).trace| + TotalWrites(handle, cfgs, db, i + 1)
  }

  lemma {:induction false} RunTablesWrites(handle: Handler, cfgs: seq<TableConfig>, db: Db, st: RunState, i: nat)
    requires DistinctTables(cfgs) && forall j | i <= j < |cfgs| :: SlotOf(st.db, cfgs[j].name) == SlotOf(db, cfgs[j].name)
    ensures |RunTables(handle, st, cfgs, i).trace| == |st.trace| + TotalWrites(handle, cfgs, db, i)
    decreases |cfgs| - i
  {
    if i < |cfgs| {
      RunTablesWrites(handle, cfgs, db, StepTable(st, cfgs[i], handle(cfgs[i], SlotOf(db, cfgs[i].name))), i + 1);
    }
  }

  /** The chunks of n rows. */
  function Chunks(chunk: nat, n: int): nat
    requires chunk > 0
    decreases n
  {
    if n <= 0 then 0 else 1 + Chunks(chunk, n - chunk)
  }

  lemma {:induction false} WholeChunksCount(job: Job, rows: seq<Row>, offset: nat)
    requires job.chunk > 0 && AllBind(job.cfg.columns, job.source)
    ensures |WholeChunks(job, rows, offset)| == Chunks(job.chunk, |job.source| - offset)
    decreases |job.source| - offset
  {
    if offset < |job.source| {
      WholeChunksCount(job, PutAll(job.cfg, rows, ConvertPage(job, offset), {}), offset + job.chunk);
    }
  }

  /** A table copied without a fault is written once per chunk and once for its checkpoint. */
  lemma CleanCopyWrites(job: Job, sha: Sha, slot: Slot)
    requires job.chunk > 0 && FaultFree(job.faults) && !job.resume && slot.rows == [] && Loadable(job.cfg, job.source)
    requires SlotInv(job.cfg, job.source, slot)
    ensures |HandleTable(job, sha, slot).trace| == Chunks(job.chunk, |job.source|) + 1
  {
    HandleFromInvExact(job, sha, slot);
    CleanTraceLength(job, slot);
    var copied := MigrateTable(job, sha, slot.rows);
    assert copied.trace == RunFrom(job, Begin(slot.rows), 0).trace;
    OkAddsOne(job, slot, copied);
  }

  lemma CleanTraceLength(job: Job, slot: Slot)
    requires job.chunk > 0 && FaultFree(job.faults) && !job.resume && slot.rows == [] && Loadable(job.cfg, job.source)
    requires SlotInv(job.cfg, job.source, slot)
    ensures |RunFrom(job, Begin(slot.rows), 0).trace| == Chunks(job.chunk, |job.source|)
  {
    LoadableCopies(job, slot);
    NoErrorsWholeChunks(job, Begin(slot.rows), 0);
    WholeChunksCount(job, slot.rows, 0);
  }

  lemma OkAddsOne(job: Job, slot: Slot, copied: Copied)
    requires Conclude(job, slot, copied).ok
    ensures |Conclude(job, slot, copied).trace| == |copied.trace| + 1
  {
  }

  function WritesNeeded(env: Env, cfgs: seq<TableConfig>, i: nat): nat
    requires env.chunk > 0
    decreases |cfgs| - i
  {
    if i >= |cfgs| then 0 else Chunks(env.chunk, |SourceOf(env.source, cfgs[i].name)|) + 1 + WritesNeeded(env, cfgs, i + 1)
  }

  lemma {:induction false} TotalIsNeeded(env: Env, cfgs: seq<TableConfig>, db: Db, i: nat)
    requires env.chunk > 0 && forall j | i <= j < |cfgs| ::
               |HandlerOf(env)(cfgs[j], SlotOf(db, cfgs[j].name)).trace|
               == Chunks(env.chunk, |SourceOf(env.source, cfgs[j].name)|) + 1
    ensures TotalWrites(HandlerOf(env), cfgs, db, i) == WritesNeeded(env, cfgs, i)
    decreases |cfgs| - i
  {
    if i < |cfgs| {
      TotalIsNeeded(env, cfgs, db, i + 1);
    }
  }

  /** A fault-free first run onto a fresh target writes each chunk of each table once, and each checkpoint once. */
  lemma CleanRunWrites(env: Env, cfgs: seq<TableConfig>, db: Db)
    requires env.chunk > 0 && !env.resume && Healthy(env) && DistinctTables(cfgs)
    requires Fresh(cfgs, db) && AllLoadable(cfgs, env.source)
    ensures |RunMigration(env, cfgs, db).trace| == WritesNeeded(env, cfgs, 0)
  {
    forall j | 0 <= j < |cfgs|
      ensures |HandlerOf(env)(cfgs[j], SlotOf(db, cfgs[j].name)).trace|
              == Chunks(env.chunk, |SourceOf(env.source, cfgs[j].name)|) + 1
    {
      CleanCopyWrites(JobOf(env, cfgs[j]), env.sha, SlotOf(db, cfgs[j].name));
    }
    TotalIsNeeded(env, cfgs, db, 0);
    RunTablesWrites(HandlerOf(env), cfgs, db, Start(db), 0);
  }
}
