/**
 * A whole run of the migration tool: what it decides from a table's
 * checkpoint, how it validates a copied table, when it writes a checkpoint
 * and what it reports. A run is a function of the target database, the source
 * and everything that may fail; its trace lists every state the target passes through.
 */
module Migration {
  import opened Wrappers
  import opened Seqs
  import opened Rows
  import opened Digest
  import opened Transfer

  /** A target table together with its row of the checkpoint table. */
  datatype Slot = Slot(rows: seq<Row>, checkpoint: Option<int>)

  type Db = map<string, Slot>
  type Source = map<string, seq<StoredRow>>

  function SlotOf(db: Db, table: string): Slot {
    if table in db then db[table] else Slot([], None)
  }

  function SourceOf(source: Source, table: string): seq<StoredRow> {
    if table in source then source[table] else []
  }

  datatype Env = Env(sha: Sha, source: Source, chunk: nat, resume: bool, faults: string -> TableFaults, sequences: bool)

  function JobOf(env: Env, cfg: TableConfig): Job {
    Job(cfg, SourceOf(env.source, cfg.name), env.chunk, env.resume, env.faults(cfg.name))
  }

  datatype TableResult = TableResult(
    table: string, sourceCount: nat, targetCount: nat, migratedCount: nat,
    idMatch: bool, countMatch: bool, hashMatch: bool,
    sourceHash: Option<string>, targetHash: Option<string>, errors: seq<Error>)
  {
    predicate ValidationClean() {
      countMatch && idMatch && hashMatch && errors == []
    }
  }

  datatype Action = Skip | DeleteStale | Migrate

  function CheckpointAction(checkpoint: Option<int>, sourceCount: nat, resume: bool, apply: bool): Action {
    if !apply || !resume then Migrate
    else if checkpoint.None? then Migrate
    else if checkpoint.value == sourceCount then Skip
    else DeleteStale
  }

  // ---- validation ----

  function SourceTexts(cfg: TableConfig, source: seq<StoredRow>): Option<seq<string>> {
    Texts(cfg.columns, Map(SourceViews, source))
  }

  function TargetTexts(cfg: TableConfig, rows: seq<Row>): Option<seq<string>> {
    Texts(cfg.columns, Map(TargetViews, rows))
  }

  function SourceDigest(sha: Sha, cfg: TableConfig, source: seq<StoredRow>): Option<string> {
    TableDigest(sha, cfg.columns, Map(SourceViews, source))
  }

  function TargetDigest(sha: Sha, cfg: TableConfig, rows: seq<Row>): Option<string> {
    TableDigest(sha, cfg.columns, Map(TargetViews, rows))
  }

  /** Ids that decode as text; all others are dropped on both sides. */
  function SourceIds(id: nat, source: seq<StoredRow>): set<string> {
    set k | 0 <= k < |source| && id < |source[k]| && source[k][id].Text? :: source[k][id].s
  }

  function TargetIds(id: nat, rows: seq<Row>): set<string> {
    set k | 0 <= k < |rows| && id < |rows[k]| && rows[k][id].Str? :: rows[k][id].str
  }

  predicate IdsMatch(cfg: TableConfig, source: seq<StoredRow>, rows: seq<Row>) {
    cfg.idColumn.Some? ==> SourceIds(cfg.idColumn.value, source) == TargetIds(cfg.idColumn.value, rows)
  }

  predicate HashesMatch(source: Option<string>, target: Option<string>) {
    source.Some? && target.Some? && source.value == target.value
  }

  /** The result of a copied table, from the two digests. */
  function CopyResult(job: Job, st: Progress, sourceHash: Option<string>, targetHash: Option<string>): TableResult {
    TableResult(job.cfg.name, |job.source|, |st.rows|, st.migrated,
                IdsMatch(job.cfg, job.source, st.rows), |st.rows| == |job.source|, HashesMatch(sourceHash, targetHash),
                sourceHash, targetHash, st.errors + (if targetHash.None? then [TargetHashError] else []))
  }

  function Validate(job: Job, sha: Sha, st: Progress): TableResult {
    CopyResult(job, st, SourceDigest(sha, job.cfg, job.source),
               if job.faults.targetHash then None else TargetDigest(sha, job.cfg, st.rows))
  }

  /** The result of a table whose checkpoint already carries the source's row count. */
  function SkipResult(job: Job, rows: seq<Row>, sourceHash: Option<string>, targetHash: Option<string>): TableResult {
    var countMatch := |rows| == |job.source|;
    var hashMatch := HashesMatch(sourceHash, targetHash);
    TableResult(job.cfg.name, |job.source|, |rows|, 0, countMatch, countMatch, hashMatch, sourceHash, targetHash,
                (if !countMatch then [CountMismatch] else [])
                + (if sourceHash.None? then [SourceHashError] else [])
                + (if targetHash.None? then [TargetHashError] else [])
                + (if countMatch && !hashMatch then [HashMismatch] else []))
  }

  function Revalidate(job: Job, sha: Sha, rows: seq<Row>): TableResult {
    SkipResult(job, rows,
               if job.faults.sourceHash then None else SourceDigest(sha, job.cfg, job.source),
               if job.faults.targetHash then None else TargetDigest(sha, job.cfg, rows))
  }

  function FailedResult(table: string, sourceCount: nat, error: Error): TableResult {
    TableResult(table, sourceCount, 0, 0, false, false, false, None, None, [error])
  }

  // ---- one table ----

  datatype Copied = Copied(rows: seq<Row>, trace: seq<seq<Row>>, result: Option<TableResult>)

  /** Copy and validate; no result means the table ended with an error that carries no counts. */
  function MigrateTable(job: Job, sha: Sha, rows: seq<Row>): Copied
    requires job.chunk > 0
  {
    if !job.resume && rows != [] then Copied(rows, [], None)
    else
      var st := RunFrom(job, Begin(rows), 0);
      Copied(st.rows, st.trace, if st.aborted || job.faults.validation then None else Some(Validate(job, sha, st)))
  }

  datatype Handled = Handled(slot: Slot, trace: seq<Slot>, result: TableResult, ok: bool)

  function PutRows(slot: Slot, trace: seq<seq<Row>>): seq<Slot> {
    seq(|trace|, i requires 0 <= i < |trace| => slot.(rows := trace[i]))
  }

  /** A validated copy gets its checkpoint; anything else is reported and leaves none. */
  function Conclude(job: Job, slot: Slot, copied: Copied): Handled {
    var after := slot.(rows := copied.rows);
    var trace := PutRows(slot, copied.trace);
    if copied.result.None? then
      Handled(after, trace, FailedResult(job.cfg.name, |job.source|, TableAborted), false)
    else
      var result := copied.result.value;
      if !result.ValidationClean() then Handled(after, trace, result, false)
      else
        var marked := after.(checkpoint := Some(|job.source|));
        match job.faults.checkpoint
        case Steady => Handled(marked, trace + [marked], result, true)
        case LostBefore => Handled(after, trace, result.(errors := result.errors + [CheckpointError]), false)
        case LostAfter => Handled(marked, trace + [marked], result.(errors := result.errors + [CheckpointError]), false)
  }

  function MigrateSlot(job: Job, sha: Sha, slot: Slot): Handled
    requires job.chunk > 0
  {
    Conclude(job, slot, MigrateTable(job, sha, slot.rows))
  }

  function SkipSlot(slot: Slot, result: TableResult): Handled {
    Handled(slot, [], result, result.countMatch && result.hashMatch && result.errors == [])
  }

  function HandleTable(job: Job, sha: Sha, slot: Slot): Handled
    requires job.chunk > 0
  {
    match CheckpointAction(slot.checkpoint, |job.source|, job.resume, true)
    case Skip => SkipSlot(slot, Revalidate(job, sha, slot.rows))
    case DeleteStale =>
      var unmarked := slot.(checkpoint := None);
      var handled := MigrateSlot(job, sha, unmarked);
      handled.(trace := [unmarked] + handled.trace)
    case Migrate => MigrateSlot(job, sha, slot)
  }

  // ---- all tables ----

  datatype RunState = RunState(db: Db, trace: seq<Db>, tables: seq<TableResult>, success: bool)

  /** What a run does to one table depends on that table alone. */
  type Handler = (TableConfig, Slot) -> Handled

  function HandlerOf(env: Env): Handler
    requires env.chunk > 0
  {
    (cfg: TableConfig, slot: Slot) => HandleTable(JobOf(env, cfg), env.sha, slot)
  }

  /** The states of the target while one of its tables passes through these. */
  function PutSlots(db: Db, table: string, slots: seq<Slot>): seq<Db> {
    seq(|slots|, i requires 0 <= i < |slots| => db[table := slots[i]])
  }

  function StepTable(st: RunState, cfg: TableConfig, h: Handled): RunState {
    RunState(st.db[cfg.name := h.slot], st.trace + PutSlots(st.db, cfg.name, h.trace),
             st.tables + [h.result], st.success && h.ok)
  }

  function RunTables(handle: Handler, st: RunState, cfgs: seq<TableConfig>, i: nat): RunState
    decreases |cfgs| - i
  {
    if i >= |cfgs| then st
    else RunTables(handle, StepTable(st, cfgs[i], handle(cfgs[i], SlotOf(st.db, cfgs[i].name))), cfgs, i + 1)
  }

  function Start(db: Db): RunState {
    RunState(db, [], [], true)
  }

  /** The report of an applied run. */
  datatype Report = Report(overallSuccess: bool, tables: seq<TableResult>)
  datatype Outcome = Outcome(db: Db, trace: seq<Db>, report: Option<Report>)

  predicate TargetEmpty(db: Db, cfgs: seq<TableConfig>) {
    forall i | 0 <= i < |cfgs| :: SlotOf(db, cfgs[i].name).rows == []
  }

  /** The sequences are reset last; failing to is one more failed entry. */
  function Finish(sequences: bool, st: RunState): Outcome {
    var tables := if sequences then st.tables + [FailedResult("_postgres_sequences", 0, SequenceError)] else st.tables;
    Outcome(st.db, st.trace, Some(Report(st.success && !sequences, tables)))
  }

  function RunWith(handle: Handler, resume: bool, sequences: bool, cfgs: seq<TableConfig>, db: Db): Outcome {
    if !resume && !TargetEmpty(db, cfgs) then Outcome(db, [], None)
    else Finish(sequences, RunTables(handle, Start(db), cfgs, 0))
  }

  /** A run with --apply. No report means the preflight refused it. */
  function RunMigration(env: Env, cfgs: seq<TableConfig>, db: Db): Outcome
    requires env.chunk > 0
  {
    RunWith(HandlerOf(env), env.resume, env.sequences, cfgs, db)
  }

  // ---- the ten governance tables ----

  predicate DistinctTables(cfgs: seq<TableConfig>) {
    forall i, j | 0 <= i < j < |cfgs| :: cfgs[i].name != cfgs[j].name
  }

  function GovernanceTables(): seq<TableConfig> {
    [ TableConfig("intents",
        ["intent_id", "principal_id", "normalized_goal", "status", "risk_tier", "approval_mode",
         "default_rollback_class", "created_at", "expires_at", "raw_json"],
        Some(0), [0]),
      TableConfig("proposals",
        ["proposal_id", "intent_id", "step_index", "server_name", "tool_name", "estimated_risk",
         "requested_rollback_class", "created_at", "raw_json"],
        Some(0), [0]),
      TableConfig("capabilities",
        ["capability_id", "intent_id", "proposal_id", "server_name", "tool_name", "status", "issued_at",
         "expires_at", "revoked_at", "raw_json"],
        Some(0), [0]),
      TableConfig("executions",
        ["execution_id", "intent_id", "proposal_id", "capability_id", "rollback_contract_id", "decision", "state",
         "started_at", "finished_at", "result_digest", "raw_json"],
        Some(0), [0]),
      TableConfig("rollback_contracts",
        ["contract_id", "intent_id", "proposal_id", "execution_id", "adapter_key", "action_type", "rollback_class",
         "state", "auto_commit", "created_at", "expires_at", "raw_json"],
        Some(0), [0]),
      TableConfig("approvals",
        ["approval_id", "intent_id", "proposal_id", "execution_id", "action_digest", "state", "expires_at",
         "created_at", "raw_json"],
        Some(0), [0]),
      TableConfig("provenance_events",
        ["event_id", "kind", "occurred_at", "intent_id", "proposal_id", "execution_id", "capability_id",
         "rollback_contract_id", "policy_bundle_id", "raw_json"],
        Some(0), [0]),
      TableConfig("provenance_edges",
        ["to_event_id", "from_event_id", "edge_type", "summary"],
        None, [0, 1, 2]),
      TableConfig("ledger_entries",
        ["entry_id", "event_id", "intent_id", "execution_id", "occurred_at", "content_hash",
         "previous_ledger_hash", "raw_json"],
        Some(0), [0]),
      TableConfig("policy_bundles",
        ["bundle_id", "version", "active", "content_hash", "created_at", "updated_at", "raw_json"],
        Some(0), [0])
    ]
  }

  /** The tables a run handles are distinct, so what is proved of distinct tables holds of them. */
  lemma GovernanceTablesAreDistinct()
    ensures |GovernanceTables()| == 10 && DistinctTables(GovernanceTables())
  {
    var t := GovernanceTables();
    var lengths := [7, 9, 12, 10, 18, 9, 17, 16, 14, 14];
    assert |t[0].name| == 7 && |t[1].name| == 9 && |t[2].name| == 12 && |t[3].name| == 10 && |t[4].name| == 18;
    assert |t[5].name| == 9 && |t[6].name| == 17 && |t[7].name| == 16 && |t[8].name| == 14 && |t[9].name| == 14;
    assert forall i | 0 <= i < 10 :: |t[i].name| == lengths[i];
    assert t[1].name[0] == 'p' && t[5].name[0] == 'a' && t[8].name[0] == 'l' && t[9].name[0] == 'p';
  }
}
