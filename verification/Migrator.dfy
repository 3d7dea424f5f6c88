/**
 * The migration as the tool carries it out: loops over chunks and rows that
 * write to the target as they go. Every method is proved to end in the state,
 * to write the states in between, and to report the result that the functions
 * of Transfer and Migration give.
 */
module MigratorProgram {
  import opened Wrappers
  import opened Seqs
  import opened Rows
  import opened Digest
  import opened Transfer
  import opened Migration

  class Migrator {
    const sha: Sha
    const source: Source
    var db: Db
    /** Every state of the target since the start, one per committed write. */
    ghost var history: seq<Db>

    constructor (sha: Sha, source: Source, db: Db)
      ensures this.sha == sha && this.source == source && this.db == db && history == []
    {
      this.sha, this.source, this.db, history := sha, source, db, [];
    }

    /** The target and its history when a table that started as slot0 in db0 has made this progress. */
    ghost predicate At(cfg: TableConfig, db0: Db, history0: seq<Db>, rows: seq<Row>, trace: seq<seq<Row>>)
      reads this
      requires cfg.name in db0
    {
      && db == db0[cfg.name := db0[cfg.name].(rows := rows)]
      && history == history0 + PutSlots(db0, cfg.name, PutRows(db0[cfg.name], trace))
    }

    /** One committed write to a table and its checkpoint. */
    method Commit(cfg: TableConfig, slot: Slot)
      modifies this
      ensures db == old(db)[cfg.name := slot]
      ensures history == old(history) + [db]
    {
      db := db[cfg.name := slot];
      history := history + [db];
    }

    method CommitRows(cfg: TableConfig, rows: seq<Row>, ghost db0: Db, ghost history0: seq<Db>, ghost trace: seq<seq<Row>>)
      requires cfg.name in db0 && cfg.name in db && At(cfg, db0, history0, db[cfg.name].rows, trace)
      modifies this
      ensures At(cfg, db0, history0, rows, trace + [rows])
    {
      Commit(cfg, db[cfg.name].(rows := rows));
      assert db == db0[cfg.name := db0[cfg.name].(rows := rows)];
    }

    /** The chunk's transaction works on its own view; the table is untouched until it commits. */
    method InsertInTransaction(job: Job, offset: nat, batch: seq<Row>) returns (tx: Tx)
      requires job.cfg.name in db
      ensures tx == TxFrom(job, Tx(db[job.cfg.name].rows, true, []), offset, batch, 0)
    {
      tx := Tx(db[job.cfg.name].rows, true, []);
      for i := 0 to |batch|
        invariant TxFrom(job, tx, offset, batch, i) == TxFrom(job, Tx(db[job.cfg.name].rows, true, []), offset, batch, 0)
      {
        if tx.ok && Accepted(job, tx.rows, batch[i], job.faults.inTransaction(offset + i)) {
          tx := tx.(rows := Put(job.cfg, tx.rows, batch[i]));
        } else {
          tx := tx.(ok := false, errors := tx.errors + [TransactionError(offset + i)]);
        }
      }
    }

    /** The row-by-row retry: each accepted row is a write of its own. */
    method InsertOneByOne(job: Job, offset: nat, batch: seq<Row>, migrated0: nat, errors0: seq<Error>,
                          ghost db0: Db, ghost history0: seq<Db>, ghost st: Progress)
      returns (migrated: nat, errors: seq<Error>)
      requires job.cfg.name in db0 && At(job.cfg, db0, history0, st.rows, st.trace)
      requires st.migrated == migrated0 && st.errors == errors0
      modifies this
      ensures var last := RetryFrom(job, st, offset, batch, 0);
              && migrated == last.migrated && errors == last.errors && last.aborted == st.aborted
              && At(job.cfg, db0, history0, last.rows, last.trace)
    {
      migrated, errors := migrated0, errors0;
      ghost var now := st;
      for i := 0 to |batch|
        invariant RetryFrom(job, now, offset, batch, i) == RetryFrom(job, st, offset, batch, 0)
        invariant migrated == now.migrated && errors == now.errors && now.aborted == st.aborted
        invariant At(job.cfg, db0, history0, now.rows, now.trace)
      {
        var rows := db[job.cfg.name].rows;
        var io := job.faults.alone(offset + i);
        if Accepted(job, rows, batch[i], io == LostBefore) {
          CommitRows(job.cfg, Put(job.cfg, rows, batch[i]), db0, history0, now.trace);
          if io == LostAfter {
            errors := errors + [InsertError(offset + i)];
          } else {
            migrated := migrated + 1;
          }
        } else {
          errors := errors + [InsertError(offset + i)];
        }
        now := RetryStep(job, now, offset + i, batch[i]);
      }
    }

    /** One chunk; aborted means the table ends here with an error. */
    method MigrateChunk(job: Job, offset: nat, migrated0: nat, errors0: seq<Error>,
                        ghost db0: Db, ghost history0: seq<Db>, ghost st: Progress)
      returns (migrated: nat, errors: seq<Error>, aborted: bool)
      requires job.cfg.name in db0 && At(job.cfg, db0, history0, st.rows, st.trace)
      requires st.migrated == migrated0 && st.errors == errors0 && !st.aborted
      modifies this
      ensures var next := ChunkStep(job, st, offset);
              && migrated == next.migrated && errors == next.errors && aborted == next.aborted
              && At(job.cfg, db0, history0, next.rows, next.trace)
    {
      migrated, errors, aborted := migrated0, errors0, false;
      var rows := Window(job.source, job.chunk, offset);
      if job.faults.chunkIo(offset) == LostBefore || !AllBind(job.cfg.columns, rows) {
        aborted := true;
        return;
      }
      var batch := ConvertAll(job.cfg.columns, rows);
      var tx := InsertInTransaction(job, offset, batch);
      var lost := job.faults.chunkIo(offset) == LostAfter;
      if tx.ok {
        CommitRows(job.cfg, tx.rows, db0, history0, st.trace);
        migrated := migrated + |batch|;
        aborted := lost;
      } else if lost {
        aborted := true;
      } else {
        migrated, errors := InsertOneByOne(job, offset, batch, migrated, errors, db0, history0, st);
        errors := errors + tx.errors;
      }
    }

    /** The ids of a chunk that decode as text. */
    static method GatherIds(id: nat, rows: seq<StoredRow>) returns (ids: set<string>)
      ensures ids == SourceIds(id, rows)
    {
      ids := {};
      for i := 0 to |rows|
        invariant ids == SourceIds(id, rows[..i])
      {
        if id < |rows[i]| && rows[i][id].Text? {
          ids := ids + {rows[i][id].s};
        }
        IdsOfOneMore(id, rows, i);
      }
      assert rows[..|rows|] == rows;
    }

    /** The content hashes of a chunk; rows that do not canonicalise are reported and left out. */
    static method GatherHashes(sha: Sha, cfg: TableConfig, rows: seq<StoredRow>) returns (hashes: seq<string>)
      ensures SourceTexts(cfg, rows).Some? ==> hashes == Map(sha, SourceTexts(cfg, rows).value)
    {
      hashes := [];
      for i := 0 to |rows|
        invariant SourceTexts(cfg, rows[..i]).Some? ==> hashes == Map(sha, SourceTexts(cfg, rows[..i]).value)
      {
        TextsOneMore(cfg, rows, i);
        var text := RenderRow(cfg.columns, SourceViews(rows[i]));
        if text.Some? {
          hashes := hashes + [sha(text.value)];
        }
      }
      assert rows[..|rows|] == rows;
    }

    method GatherChunk(job: Job, offset: nat, haul0: Haul) returns (haul: Haul)
      requires offset < |job.source| && Harvest(sha, job.cfg, RowsBefore(job.source, offset)) == Some(haul0)
      ensures AllBind(job.cfg.columns, Window(job.source, job.chunk, offset)) ==>
                Harvest(sha, job.cfg, RowsBefore(job.source, offset + job.chunk)) == Some(haul)
    {
      var rows := Window(job.source, job.chunk, offset);
      var ids := {};
      if job.cfg.idColumn.Some? {
        ids := GatherIds(job.cfg.idColumn.value, rows);
      }
      var hashes := GatherHashes(sha, job.cfg, rows);
      haul := Haul(haul0.ids + ids, haul0.hashes + hashes);
      if AllBind(job.cfg.columns, rows) {
        BoundRowsHaveTexts(job.cfg, rows);
        HarvestConcat(sha, job.cfg, RowsBefore(job.source, offset), rows);
        RowsBeforeGrow(job.source, job.chunk, offset);
      }
    }

    /** One turn of the loop over chunks: gather from the source, then write. */
    method Advance(job: Job, offset: nat, migrated0: nat, errors0: seq<Error>, haul0: Haul,
                   ghost db0: Db, ghost history0: seq<Db>, ghost st: Progress)
      returns (migrated: nat, errors: seq<Error>, aborted: bool, haul: Haul, ghost next: Progress)
      requires job.cfg.name in db0 && At(job.cfg, db0, history0, st.rows, st.trace)
      requires job.chunk > 0 && offset < |job.source| && Harvest(sha, job.cfg, RowsBefore(job.source, offset)) == Some(haul0)
      requires st.migrated == migrated0 && st.errors == errors0 && !st.aborted
      modifies this
      ensures RunFrom(job, next, offset + job.chunk) == RunFrom(job, st, offset)
      ensures aborted ==> next == RunFrom(job, st, offset)
      ensures migrated == next.migrated && errors == next.errors && aborted == next.aborted
      ensures At(job.cfg, db0, history0, next.rows, next.trace)
      ensures !aborted ==> Harvest(sha, job.cfg, RowsBefore(job.source, offset + job.chunk)) == Some(haul)
    {
      haul := GatherChunk(job, offset, haul0);
      next := ChunkStep(job, st, offset);
      RunUnfolds(job, st, offset);
      migrated, errors, aborted := MigrateChunk(job, offset, migrated0, errors0, db0, history0, st);
    }

    /** All chunks of a table. */
    method CopyTable(job: Job)
      returns (migrated: nat, errors: seq<Error>, aborted: bool, haul: Haul)
      requires job.cfg.name in db && ValidChunkSize(job.chunk)
      modifies this
      ensures var st := RunFrom(job, Begin(old(db)[job.cfg.name].rows), 0);
              && aborted == st.aborted && At(job.cfg, old(db), old(history), st.rows, st.trace)
              && (!aborted ==> migrated == st.migrated && errors == st.errors && Harvest(sha, job.cfg, job.source) == Some(haul))
    {
      ghost var db0, history0 := db, history;
      ghost var st := Begin(db[job.cfg.name].rows);
      migrated, errors, aborted, haul := 0, [], false, Haul({}, []);
      var offset := 0;
      ghost var last := RunFrom(job, st, 0);
      HarvestNothing(sha, job.cfg, job.source);
      while offset < |job.source|
        invariant 0 <= offset && At(job.cfg, db0, history0, st.rows, st.trace)
        invariant migrated == st.migrated && errors == st.errors && !st.aborted && !aborted
        invariant RunFrom(job, st, offset) == last
        invariant Harvest(sha, job.cfg, RowsBefore(job.source, offset)) == Some(haul)
      {
        migrated, errors, aborted, haul, st := Advance(job, offset, migrated, errors, haul, db0, history0, st);
        if aborted {
          return;
        }
        offset := offset + job.chunk;
      }
    }

    /** Compare a copied table with the source by count, ids and content. */
    method ValidateCopy(job: Job, migrated: nat, errors0: seq<Error>, haul: Haul, ghost st: Progress)
      returns (result: TableResult)
      requires job.cfg.name in db && ValidChunkSize(job.chunk) && Harvest(sha, job.cfg, job.source) == Some(haul)
      requires st.rows == db[job.cfg.name].rows && st.migrated == migrated && st.errors == errors0
      ensures result == Validate(job, sha, st)
    {
      var rows := db[job.cfg.name].rows;
      var sourceHash := Some(AggregateHash(sha, haul.hashes));
      assert sourceHash == SourceDigest(sha, job.cfg, job.source);
      var targetHash := None;
      if !job.faults.targetHash {
        targetHash := ContentHash(sha, job.cfg.columns, Map(TargetViews, rows), job.chunk);
      }
      var idMatch := job.cfg.idColumn.Some? ==> haul.ids == TargetIds(job.cfg.idColumn.value, rows);
      var errors := errors0;
      if targetHash.None? {
        errors := errors + [TargetHashError];
      }
      result := TableResult(job.cfg.name, |job.source|, |rows|, migrated, idMatch, |rows| == |job.source|,
                            HashesMatch(sourceHash, targetHash), sourceHash, targetHash, errors);
    }

    method MigrateTable(job: Job) returns (result: Option<TableResult>)
      requires job.cfg.name in db && ValidChunkSize(job.chunk)
      modifies this
      ensures var copied := Migration.MigrateTable(job, sha, old(db)[job.cfg.name].rows);
              && result == copied.result
              && At(job.cfg, old(db), old(history), copied.rows, copied.trace)
    {
      if !job.resume && db[job.cfg.name].rows != [] {
        return None;
      }
      ghost var st := RunFrom(job, Begin(db[job.cfg.name].rows), 0);
      var migrated, errors, aborted, haul := CopyTable(job);
      if aborted || job.faults.validation {
        return None;
      }
      var validated := ValidateCopy(job, migrated, errors, haul, st);
      return Some(validated);
    }

    /** A table whose checkpoint carries the source's count: validate again, write nothing. */
    method SkipTable(job: Job) returns (result: TableResult)
      requires job.cfg.name in db && ValidChunkSize(job.chunk)
      ensures result == Revalidate(job, sha, db[job.cfg.name].rows)
    {
      var rows := db[job.cfg.name].rows;
      var sourceHash, targetHash := None, None;
      if !job.faults.sourceHash {
        sourceHash := ContentHash(sha, job.cfg.columns, Map(SourceViews, job.source), job.chunk);
      }
      if !job.faults.targetHash {
        targetHash := ContentHash(sha, job.cfg.columns, Map(TargetViews, rows), job.chunk);
      }
      result := SkipResult(job, rows, sourceHash, targetHash);
    }

    /** One table of a run: skip it, or copy it and mark it if it validates. */
    method HandleTable(job: Job) returns (result: TableResult, ok: bool)
      requires job.cfg.name in db && ValidChunkSize(job.chunk)
      modifies this
      ensures var h := Migration.HandleTable(job, sha, old(db)[job.cfg.name]);
              && result == h.result && ok == h.ok
              && db == old(db)[job.cfg.name := h.slot]
              && history == old(history) + PutSlots(old(db), job.cfg.name, h.trace)
    {
      ghost var slot0 := db[job.cfg.name];
      assert db == db[job.cfg.name := slot0];
      match CheckpointAction(db[job.cfg.name].checkpoint, |job.source|, job.resume, true) {
        case Skip =>
          result := SkipTable(job);
          ok := result.countMatch && result.hashMatch && result.errors == [];
        case DeleteStale =>
          result, ok := MigrateStale(job);
        case Migrate =>
          result, ok := MigrateAndMark(job, db);
      }
    }

    /** A checkpoint of another count is deleted before the table is copied. */
    method MigrateStale(job: Job) returns (result: TableResult, ok: bool)
      requires job.cfg.name in db && ValidChunkSize(job.chunk)
      modifies this
      ensures var unmarked := old(db)[job.cfg.name].(checkpoint := None);
              var h := MigrateSlot(job, sha, unmarked);
              && result == h.result && ok == h.ok && db == old(db)[job.cfg.name := h.slot]
              && history == old(history) + PutSlots(old(db), job.cfg.name, [unmarked] + h.trace)
    {
      var unmarked := db[job.cfg.name].(checkpoint := None);
      ghost var db0, history0 := db, history;
      Commit(job.cfg, unmarked);
      result, ok := MigrateAndMark(job, db0);
      StaleHistory(history0, db0, job.cfg.name, unmarked, MigrateSlot(job, sha, unmarked).trace);
    }

    /** Copy a table and write its checkpoint if the copy validates. */
    method MigrateAndMark(job: Job, ghost db0: Db) returns (result: TableResult, ok: bool)
      requires job.cfg.name in db && ValidChunkSize(job.chunk) && db == db0[job.cfg.name := db[job.cfg.name]]
      modifies this
      ensures var h := MigrateSlot(job, sha, old(db)[job.cfg.name]);
              && result == h.result && ok == h.ok && db == db0[job.cfg.name := h.slot]
              && history == old(history) + PutSlots(db0, job.cfg.name, h.trace)
    {
      ghost var slot0 := db[job.cfg.name];
      ghost var copied := Migration.MigrateTable(job, sha, slot0.rows);
      var migrated := MigrateTable(job);
      PutSlotsOver(db0, job.cfg.name, slot0, PutRows(slot0, copied.trace));
      assert db == db0[job.cfg.name := slot0.(rows := copied.rows)];
      result, ok := Mark(job, migrated, db0, old(history), slot0, copied);
    }

    /** Report a copy; a clean one is marked by a checkpoint, unless that write fails. */
    method Mark(job: Job, migrated: Option<TableResult>,
                ghost db0: Db, ghost history0: seq<Db>, ghost slot0: Slot, ghost copied: Copied)
      returns (result: TableResult, ok: bool)
      requires copied.result == migrated && db == db0[job.cfg.name := slot0.(rows := copied.rows)]
      requires history == history0 + PutSlots(db0, job.cfg.name, PutRows(slot0, copied.trace))
      modifies this
      ensures var h := Conclude(job, slot0, copied);
              && result == h.result && ok == h.ok && db == db0[job.cfg.name := h.slot]
              && history == history0 + PutSlots(db0, job.cfg.name, h.trace)
    {
      if migrated.None? {
        return FailedResult(job.cfg.name, |job.source|, TableAborted), false;
      }
      result, ok := migrated.value, migrated.value.ValidationClean();
      if ok {
        var marked := db[job.cfg.name].(checkpoint := Some(|job.source|));
        if job.faults.checkpoint != LostBefore {
          Commit(job.cfg, marked);
          assert db == db0[job.cfg.name := marked];
        }
        if job.faults.checkpoint != Steady {
          result := result.(errors := result.errors + [CheckpointError]);
          ok := false;
        }
      }
    }

    /** One turn of the loop over tables. */
    method HandleNext(env: Env, cfg: TableConfig, tables0: seq<TableResult>, success0: bool, ghost st: RunState)
      returns (tables: seq<TableResult>, success: bool, ghost next: RunState)
      requires env.sha == sha && env.source == source && ValidChunkSize(env.chunk) && cfg.name in db
      requires st.db == db && st.tables == tables0 && st.success == success0
      modifies this
      ensures next == StepTable(st, cfg, HandlerOf(env)(cfg, SlotOf(st.db, cfg.name)))
      ensures db == next.db && tables == next.tables && success == next.success
      ensures st.trace <= next.trace && history == old(history) + next.trace[|st.trace|..]
    {
      var result, ok := HandleTable(JobOf(env, cfg));
      tables, success := tables0 + [result], success0 && ok;
      next := StepTable(st, cfg, HandlerOf(env)(cfg, SlotOf(st.db, cfg.name)));
    }

    /** The preflight: every target table, but not the checkpoint table. */
    method TargetIsEmpty(cfgs: seq<TableConfig>) returns (empty: bool)
      requires forall i | 0 <= i < |cfgs| :: cfgs[i].name in db
      ensures empty <==> TargetEmpty(db, cfgs)
    {
      for i := 0 to |cfgs|
        invariant forall k | 0 <= k < i :: SlotOf(db, cfgs[k].name).rows == []
      {
        if db[cfgs[i].name].rows != [] {
          return false;
        }
      }
      return true;
    }

    /** All tables in order. */
    method RunAll(env: Env, cfgs: seq<TableConfig>) returns (tables: seq<TableResult>, success: bool)
      requires env.sha == sha && env.source == source && ValidChunkSize(env.chunk)
      requires forall i | 0 <= i < |cfgs| :: cfgs[i].name in db
      modifies this
      ensures var st := RunTables(HandlerOf(env), Start(old(db)), cfgs, 0);
              tables == st.tables && success == st.success && db == st.db && history == old(history) + st.trace
    {
      ghost var handle := HandlerOf(env);
      ghost var st := Start(db);
      tables, success := [], true;
      for i := 0 to |cfgs|
        invariant forall k | 0 <= k < |cfgs| :: cfgs[k].name in db
        invariant st.db == db && st.tables == tables && st.success == success && history == old(history) + st.trace
        invariant RunTables(handle, st, cfgs, i) == RunTables(handle, Start(old(db)), cfgs, 0)
      {
        tables, success, st := HandleNext(env, cfgs[i], tables, success, st);
      }
    }

    /** The whole run with --apply: preflight, every table in order, sequence reset. */
    method RunMigration(env: Env, cfgs: seq<TableConfig>) returns (report: Option<Report>)
      requires env.sha == sha && env.source == source && ValidChunkSize(env.chunk)
      requires forall i | 0 <= i < |cfgs| :: cfgs[i].name in db
      modifies this
      ensures var out := Migration.RunMigration(env, cfgs, old(db));
              report == out.report && db == out.db && history == old(history) + out.trace
    {
      if !env.resume {
        var empty := TargetIsEmpty(cfgs);
        if !empty {
          return None;
        }
      }
      var tables, success := RunAll(env, cfgs);
      if env.sequences {
        tables := tables + [FailedResult("_postgres_sequences", 0, SequenceError)];
        success := false;
      }
      return Some(Report(success, tables));
    }
  }

  // ---- states of the target while one table changes ----

  lemma PutSlotsOver(db: Db, table: string, slot: Slot, slots: seq<Slot>)
    ensures PutSlots(db[table := slot], table, slots) == PutSlots(db, table, slots)
  {
    forall i | 0 <= i < |slots|
      ensures db[table := slot][table := slots[i]] == db[table := slots[i]]
    {
    }
  }

  lemma StaleHistory(history: seq<Db>, db: Db, table: string, unmarked: Slot, trace: seq<Slot>)
    ensures history + [db[table := unmarked]] + PutSlots(db, table, trace)
         == history + PutSlots(db, table, [unmarked] + trace)
  {
    PutSlotsConcat(db, table, [unmarked], trace);
    assert PutSlots(db, table, [unmarked]) == [db[table := unmarked]];
  }

  lemma PutSlotsConcat(db: Db, table: string, a: seq<Slot>, b: seq<Slot>)
    ensures PutSlots(db, table, a + b) == PutSlots(db, table, a) + PutSlots(db, table, b)
  {
  }

  // ---- what has been gathered from the source so far ----

  /** The ids and content hashes of source rows. */
  datatype Haul = Haul(ids: set<string>, hashes: seq<string>)

  /** Nothing is gathered for good from rows one of which does not canonicalise. */
  function Harvest(sha: Sha, cfg: TableConfig, rows: seq<StoredRow>): Option<Haul> {
    var texts := SourceTexts(cfg, rows);
    if texts.None? then None
    else Some(Haul(if cfg.idColumn.Some? then SourceIds(cfg.idColumn.value, rows) else {}, Map(sha, texts.value)))
  }

  lemma IdsOfOneMore(id: nat, rows: seq<StoredRow>, i: nat)
    requires i < |rows|
    ensures SourceIds(id, rows[..i + 1])
         == SourceIds(id, rows[..i]) + (if id < |rows[i]| && rows[i][id].Text? then {rows[i][id].s} else {})
  {
    IdsConcat(id, rows[..i], [rows[i]]);
    assert rows[..i + 1] == rows[..i] + [rows[i]];
    var one := [rows[i]];
    assert one[0] == rows[i];
  }

  lemma IdsConcat(id: nat, a: seq<StoredRow>, b: seq<StoredRow>)
    ensures SourceIds(id, a + b) == SourceIds(id, a) + SourceIds(id, b)
  {
    var s := a + b;
    assert forall k | 0 <= k < |a| :: s[k] == a[k];
    forall x | x in SourceIds(id, b)
      ensures x in SourceIds(id, s)
    {
      var k :| 0 <= k < |b| && id < |b[k]| && b[k][id].Text? && b[k][id].s == x;
      assert s[|a| + k] == b[k];
    }
    forall x | x in SourceIds(id, s)
      ensures x in SourceIds(id, a) || x in SourceIds(id, b)
    {
      var k :| 0 <= k < |s| && id < |s[k]| && s[k][id].Text? && s[k][id].s == x;
      if k >= |a| {
        assert s[k] == b[k - |a|];
      }
    }
    forall x | x in SourceIds(id, a)
      ensures x in SourceIds(id, s)
    {
      var k :| 0 <= k < |a| && id < |a[k]| && a[k][id].Text? && a[k][id].s == x;
      assert s[k] == a[k];
    }
  }

  lemma TextsOneMore(cfg: TableConfig, rows: seq<StoredRow>, i: nat)
    requires i < |rows|
    ensures var before, last := SourceTexts(cfg, rows[..i]), CanonicalRow(cfg.columns, SourceViews(rows[i]));
            SourceTexts(cfg, rows[..i + 1]) == if before.Some? && last.Some? then Some(before.value + [last.value]) else None
  {
    assert Map(SourceViews, rows[..i + 1])[..i] == Map(SourceViews, rows[..i]);
  }

  lemma TextsConcat(cfg: TableConfig, a: seq<StoredRow>, b: seq<StoredRow>)
    requires SourceTexts(cfg, a).Some? && SourceTexts(cfg, b).Some?
    ensures SourceTexts(cfg, a + b).Some?
    ensures SourceTexts(cfg, a + b).value == SourceTexts(cfg, a).value + SourceTexts(cfg, b).value
  {
    MapConcat(SourceViews, a, b);
    TextsSplit(cfg.columns, Map(SourceViews, a), Map(SourceViews, b));
  }

  lemma BoundRowsHaveTexts(cfg: TableConfig, rows: seq<StoredRow>)
    requires AllBind(cfg.columns, rows)
    ensures SourceTexts(cfg, rows).Some?
  {
    var views := Map(SourceViews, rows);
    forall i | 0 <= i < |rows|
      ensures CanonicalRow(cfg.columns, views[i]).Some?
    {
      ConversionKeepsText(cfg.columns, rows[i]);
    }
  }

  lemma HarvestConcat(sha: Sha, cfg: TableConfig, a: seq<StoredRow>, b: seq<StoredRow>)
    requires Harvest(sha, cfg, a).Some? && Harvest(sha, cfg, b).Some?
    ensures var x, y := Harvest(sha, cfg, a).value, Harvest(sha, cfg, b).value;
            Harvest(sha, cfg, a + b) == Some(Haul(x.ids + y.ids, x.hashes + y.hashes))
  {
    TextsConcat(cfg, a, b);
    var x, y, z := Harvest(sha, cfg, a).value, Harvest(sha, cfg, b).value, Harvest(sha, cfg, a + b).value;
    if cfg.idColumn.Some? {
      IdsConcat(cfg.idColumn.value, a, b);
    }
    assert z.ids == x.ids + y.ids;
    MapConcat(sha, SourceTexts(cfg, a).value, SourceTexts(cfg, b).value);
  }

  lemma HarvestNothing(sha: Sha, cfg: TableConfig, source: seq<StoredRow>)
    ensures Harvest(sha, cfg, RowsBefore(source, 0)) == Some(Haul({}, []))
  {
    assert RowsBefore(source, 0) == [];
    assert Map(SourceViews, []) == [];
    assert Harvest(sha, cfg, []).Some?;
    var nothing := Harvest(sha, cfg, []).value;
    assert nothing.ids == {} && nothing.hashes == [];
  }
}
