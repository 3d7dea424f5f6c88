/**
 * Copying one table: LIMIT/OFFSET chunks, one transaction per chunk, and a
 * row-by-row retry of a chunk whose transaction failed. The functions here
 * say what each loop does to the target table; every write is recorded in a
 * trace, so that a crash after any write is an element of it.
 */
module Transfer {
  import opened Wrappers
  import opened Seqs
  import opened Rows
  import opened Digest

  /** Columns are named as selected; the id column and the conflict target are positions in that list. */
  datatype TableConfig = TableConfig(name: string, columns: seq<string>, idColumn: Option<nat>, key: seq<nat>)

  /** How an exchange with the target ends: answered, lost before it took effect, or answered by nothing after it did. */
  datatype Io = Steady | LostBefore | LostAfter

  /**
   * Everything that may go wrong while one table is handled in one run. An
   * insert is attempted at most twice: in its chunk's transaction and alone.
   * Insert faults stand for every refusal but a conflict on the key or a null in it.
   */
  datatype TableFaults = TableFaults(
    inTransaction: nat -> bool,
    alone: nat -> Io,
    chunkIo: nat -> Io,
    validation: bool,
    sourceHash: bool,
    targetHash: bool,
    checkpoint: Io)

  datatype Error =
    | InsertError(row: nat)        // a row refused when inserted alone
    | TransactionError(row: nat)   // a row refused inside its chunk's transaction
    | TargetHashError
    | SourceHashError
    | CountMismatch
    | HashMismatch
    | CheckpointError
    | TableAborted
    | SequenceError

  datatype Job = Job(cfg: TableConfig, source: seq<StoredRow>, chunk: nat, resume: bool, faults: TableFaults)

  // ---- the target table ----

  function CellAt(row: Row, i: nat): Cell {
    if i < |row| then row[i] else Nil
  }

  function Key(cfg: TableConfig, row: Row): seq<Cell> {
    seq(|cfg.key|, j requires 0 <= j < |cfg.key| => CellAt(row, cfg.key[j]))
  }

  predicate NullKey(cfg: TableConfig, row: Row) {
    Nil in Key(cfg, row)
  }

  predicate Taken(cfg: TableConfig, rows: seq<Row>, row: Row) {
    exists i | 0 <= i < |rows| :: Key(cfg, rows[i]) == Key(cfg, row)
  }

  /** The table after a row is offered to it: keys are unique and not null. */
  function Put(cfg: TableConfig, rows: seq<Row>, row: Row): seq<Row> {
    if NullKey(cfg, row) || Taken(cfg, rows, row) then rows else rows + [row]
  }

  /** Whether the insert statement succeeds: ON CONFLICT DO NOTHING turns a conflict into success. */
  predicate Accepted(job: Job, rows: seq<Row>, row: Row, fault: bool) {
    !fault && !NullKey(job.cfg, row) && (job.resume || !Taken(job.cfg, rows, row))
  }

  // ---- one chunk ----

  predicate AllBind(columns: seq<string>, rows: seq<StoredRow>) {
    forall i | 0 <= i < |rows| :: Binds(columns, rows[i])
  }

  function ConvertAll(columns: seq<string>, rows: seq<StoredRow>): (r: seq<Row>)
    requires AllBind(columns, rows)
    ensures |r| == |rows|
  {
    seq(|rows|, i requires 0 <= i < |rows| => Convert(columns, rows[i]))
  }

  datatype Tx = Tx(rows: seq<Row>, ok: bool, errors: seq<Error>)

  /** One insert inside the transaction: after a refusal PostgreSQL refuses every later statement too. */
  function TxStep(job: Job, tx: Tx, k: nat, row: Row): Tx {
    if tx.ok && Accepted(job, tx.rows, row, job.faults.inTransaction(k))
    then tx.(rows := Put(job.cfg, tx.rows, row))
    else tx.(ok := false, errors := tx.errors + [TransactionError(k)])
  }

  function TxFrom(job: Job, tx: Tx, offset: nat, batch: seq<Row>, i: nat): Tx
    decreases |batch| - i
  {
    if i >= |batch| then tx else TxFrom(job, TxStep(job, tx, offset + i, batch[i]), offset, batch, i + 1)
  }

  /**
   * Progress on a table; done counts the source rows settled so far. Unheard
   * are the rows that went in although the reply to their insert was lost; the tool
   * itself cannot tell them from rows that were refused.
   */
  datatype Progress = Progress(rows: seq<Row>, done: nat, migrated: nat, errors: seq<Error>, unheard: set<nat>,
                               trace: seq<seq<Row>>, aborted: bool)

  function RetryStep(job: Job, st: Progress, k: nat, row: Row): Progress {
    var io := job.faults.alone(k);
    if Accepted(job, st.rows, row, io == LostBefore) then
      var rows := Put(job.cfg, st.rows, row);
      if io == LostAfter then
        st.(rows := rows, done := st.done + 1, errors := st.errors + [InsertError(k)],
            unheard := st.unheard + {k}, trace := st.trace + [rows])
      else
        st.(rows := rows, done := st.done + 1, migrated := st.migrated + 1, trace := st.trace + [rows])
    else
      st.(done := st.done + 1, errors := st.errors + [InsertError(k)])
  }

  function RetryFrom(job: Job, st: Progress, offset: nat, batch: seq<Row>, i: nat): Progress
    decreases |batch| - i
  {
    if i >= |batch| then st else RetryFrom(job, RetryStep(job, st, offset + i, batch[i]), offset, batch, i + 1)
  }

  /** Commit, or roll back and retry; a lost reply ends the table with an error either way. */
  function SettleChunk(job: Job, st: Progress, offset: nat, batch: seq<Row>): Progress {
    SettleTx(job, st, offset, batch, TxFrom(job, Tx(st.rows, true, []), offset, batch, 0))
  }

  function SettleTx(job: Job, st: Progress, offset: nat, batch: seq<Row>, tx: Tx): Progress {
    var lost := job.faults.chunkIo(offset) == LostAfter;
    if tx.ok then
      st.(rows := tx.rows, done := st.done + |batch|, migrated := st.migrated + |batch|,
          trace := st.trace + [tx.rows], aborted := lost)
    else if lost then
      st.(aborted := true)
    else
      var retried := RetryFrom(job, st, offset, batch, 0);
      retried.(errors := retried.errors + tx.errors)
  }

  /**
   * A row that does not bind ends the table before anything of its chunk is
   * kept; it is also the only kind of row that does not canonicalise.
   */
  function ChunkStep(job: Job, st: Progress, offset: nat): Progress {
    var batch := Window(job.source, job.chunk, offset);
    if job.faults.chunkIo(offset) == LostBefore || !AllBind(job.cfg.columns, batch)
    then st.(aborted := true)
    else SettleChunk(job, st, offset, ConvertAll(job.cfg.columns, batch))
  }

  function RunFrom(job: Job, st: Progress, offset: nat): Progress
    requires job.chunk > 0
    decreases |job.source| - offset
  {
    if st.aborted || offset >= |job.source| then st
    else RunFrom(job, ChunkStep(job, st, offset), offset + job.chunk)
  }

  lemma RunUnfolds(job: Job, st: Progress, offset: nat)
    requires job.chunk > 0 && !st.aborted && offset < |job.source|
    ensures RunFrom(job, st, offset) == RunFrom(job, ChunkStep(job, st, offset), offset + job.chunk)
  {
  }

  function Begin(rows: seq<Row>): Progress {
    Progress(rows, 0, 0, [], {}, [], false)
  }

  // ---- the simple form: rows offered one at a time ----

  /** Offering rows in order, passing over those whose positions are listed. */
  function PutAll(cfg: TableConfig, rows: seq<Row>, batch: seq<Row>, skipped: set<nat>): seq<Row> {
    if batch == [] then rows
    else
      var n := |batch| - 1;
      var before := PutAll(cfg, rows, batch[..n], skipped);
      if n in skipped then before else Put(cfg, before, batch[n])
  }

  /** The rows reported as failed when inserted alone. */
  function FailedRows(errors: seq<Error>): set<nat> {
    set e | e in errors && e.InsertError? :: e.row
  }

  ghost predicate KeysUnique(cfg: TableConfig, rows: seq<Row>) {
    && (forall i | 0 <= i < |rows| :: !NullKey(cfg, rows[i]))
    && (forall i, j | 0 <= i < j < |rows| :: Key(cfg, rows[i]) != Key(cfg, rows[j]))
  }

  lemma {:induction false} PutAllExtends(cfg: TableConfig, rows: seq<Row>, batch: seq<Row>, skipped: set<nat>)
    ensures rows <= PutAll(cfg, rows, batch, skipped)
    ensures KeysUnique(cfg, rows) ==> KeysUnique(cfg, PutAll(cfg, rows, batch, skipped))
    ensures forall r | r in PutAll(cfg, rows, batch, skipped) :: r in rows || r in batch
  {
    if batch != [] {
      var n := |batch| - 1;
      PutAllExtends(cfg, rows, batch[..n], skipped);
      assert batch == batch[..n] + [batch[n]];
    }
  }

  /** Positions past the batch do not matter. */
  lemma {:induction false} PutAllLocal(cfg: TableConfig, rows: seq<Row>, batch: seq<Row>, s: set<nat>, t: set<nat>)
    requires forall k | 0 <= k < |batch| :: k in s <==> k in t
    ensures PutAll(cfg, rows, batch, s) == PutAll(cfg, rows, batch, t)
  {
    if batch != [] {
      PutAllLocal(cfg, rows, batch[..|batch| - 1], s, t);
    }
  }

  lemma FailedRowsAppend(errors: seq<Error>, e: Error)
    ensures FailedRows(errors + [e]) == FailedRows(errors) + (if e.InsertError? then {e.row} else {})
  {
    assert forall x :: x in errors + [e] <==> x in errors || x == e;
    forall k
      ensures k in FailedRows(errors + [e]) <==> k in FailedRows(errors) || (e.InsertError? && k == e.row)
    {
      assert k in FailedRows(errors + [e]) <==> InsertError(k) in errors + [e];
      assert k in FailedRows(errors) <==> InsertError(k) in errors;
    }
  }

  lemma FailedRowsConcat(errors: seq<Error>, more: seq<Error>)
    requires forall e | e in more :: !e.InsertError?
    ensures FailedRows(errors + more) == FailedRows(errors)
  {
    forall k
      ensures k in FailedRows(errors + more) <==> k in FailedRows(errors)
    {
      assert k in FailedRows(errors + more) <==> InsertError(k) in errors + more;
      assert k in FailedRows(errors) <==> InsertError(k) in errors;
    }
  }

  // ---- the chunk scheme refines the simple form ----

  /** The source rows settled so far, as the target would hold them. */
  function Settled(job: Job, n: nat): seq<Row>
    requires n <= |job.source| && AllBind(job.cfg.columns, job.source[..n])
  {
    ConvertAll(job.cfg.columns, job.source[..n])
  }

  /** The first n source rows offered one at a time, those listed passed over; every other one has its key in the table. */
  ghost predicate Placed(job: Job, rows0: seq<Row>, rows: seq<Row>, n: nat, skipped: set<nat>) {
    && n <= |job.source|
    && AllBind(job.cfg.columns, job.source[..n])
    && rows == PutAll(job.cfg, rows0, Settled(job, n), skipped)
    && (forall k | 0 <= k < n && k !in skipped ::
          !NullKey(job.cfg, Settled(job, n)[k]) && Taken(job.cfg, rows, Settled(job, n)[k]))
  }

  /** The reported failures that left no row behind. */
  function Refused(st: Progress): set<nat> {
    FailedRows(st.errors) - st.unheard
  }

  ghost predicate Counted(job: Job, rows0: seq<Row>, st: Progress) {
    && (forall k | k in FailedRows(st.errors) :: k < st.done)
    && st.unheard <= FailedRows(st.errors)
    && (forall k | k in st.unheard :: job.faults.alone(k) == LostAfter)
    && st.migrated + |FailedRows(st.errors)| == st.done
    && |st.rows| <= |rows0| + st.migrated + |st.unheard|
    && (!job.resume ==> |st.rows| == |rows0| + st.migrated + |st.unheard|)
  }

  /** What the table and the counters are after a number of settled rows, told without chunks or transactions. */
  ghost predicate Refines(job: Job, rows0: seq<Row>, st: Progress) {
    && Placed(job, rows0, st.rows, st.done, Refused(st))
    && Counted(job, rows0, st)
    && (forall i | 0 <= i < |st.trace| :: rows0 <= st.trace[i] <= st.rows)
  }

  lemma BeginRefines(job: Job, rows0: seq<Row>)
    ensures Refines(job, rows0, Begin(rows0))
  {
  }

  lemma SettledGrows(job: Job, n: nat)
    requires n < |job.source| && AllBind(job.cfg.columns, job.source[..n]) && Binds(job.cfg.columns, job.source[n])
    ensures AllBind(job.cfg.columns, job.source[..n + 1])
    ensures Settled(job, n + 1) == Settled(job, n) + [Convert(job.cfg.columns, job.source[n])]
  {
  }

  /** One more row offered to the table. */
  lemma OfferOne(job: Job, rows0: seq<Row>, rows: seq<Row>, n: nat, skipped: set<nat>, row: Row)
    requires Placed(job, rows0, rows, n, skipped) && n !in skipped
    requires n < |job.source| && Binds(job.cfg.columns, job.source[n]) && row == Convert(job.cfg.columns, job.source[n])
    requires !NullKey(job.cfg, row)
    ensures Placed(job, rows0, Put(job.cfg, rows, row), n + 1, skipped)
  {
    SettledGrows(job, n);
    var more := Put(job.cfg, rows, row);
    var now, before := Settled(job, n + 1), Settled(job, n);
    assert now[..n] == before;
    PutTakes(job.cfg, rows, row);
    forall k | 0 <= k < n + 1 && k !in skipped
      ensures !NullKey(job.cfg, now[k]) && Taken(job.cfg, more, now[k])
    {
      if k < n {
        assert now[k] == before[k];
        TakenStays(job.cfg, rows, more, before[k]);
      }
    }
  }

  lemma PutTakes(cfg: TableConfig, rows: seq<Row>, row: Row)
    requires !NullKey(cfg, row)
    ensures Taken(cfg, Put(cfg, rows, row), row)
  {
    var more := Put(cfg, rows, row);
    assert more == rows + [row] ==> Key(cfg, more[|rows|]) == Key(cfg, row);
  }

  lemma TakenStays(cfg: TableConfig, rows: seq<Row>, more: seq<Row>, row: Row)
    requires rows <= more && Taken(cfg, rows, row)
    ensures Taken(cfg, more, row)
  {
    var i :| 0 <= i < |rows| && Key(cfg, rows[i]) == Key(cfg, row);
    assert more[i] == rows[i];
  }

  /** One more row passed over. */
  lemma PassOne(job: Job, rows0: seq<Row>, rows: seq<Row>, n: nat, skipped: set<nat>)
    requires Placed(job, rows0, rows, n, skipped)
    requires n < |job.source| && Binds(job.cfg.columns, job.source[n])
    ensures Placed(job, rows0, rows, n + 1, skipped + {n})
  {
    SettledGrows(job, n);
    var now, before := Settled(job, n + 1), Settled(job, n);
    assert now[..n] == before;
    PutAllLocal(job.cfg, rows0, before, skipped, skipped + {n});
    assert forall k | 0 <= k < n :: now[k] == before[k];
  }

  /** Placed rows extend the table they were offered to, and a longer table keeps every state on record within it. */
  lemma TraceGrows(job: Job, rows0: seq<Row>, st: Progress, rows: seq<Row>, trace: seq<seq<Row>>)
    requires Refines(job, rows0, st) && st.rows <= rows && (trace == st.trace || trace == st.trace + [rows])
    ensures forall i | 0 <= i < |trace| :: rows0 <= trace[i] <= rows
  {
    PutAllExtends(job.cfg, rows0, Settled(job, st.done), Refused(st));
    forall i | 0 <= i < |trace|
      ensures rows0 <= trace[i] <= rows
    {
      if i < |st.trace| {
        assert trace[i] == st.trace[i];
        PrefixTrans(trace[i], st.rows, rows);
      } else {
        PrefixTrans(rows0, st.rows, rows);
      }
    }
  }

  lemma PrefixTrans(a: seq<Row>, b: seq<Row>, c: seq<Row>)
    requires a <= b <= c
    ensures a <= c
  {
  }

  /** One more accepted row, written down as migrated. */
  lemma AcceptRefines(job: Job, rows0: seq<Row>, st: Progress, row: Row, trace: seq<seq<Row>>)
    requires Refines(job, rows0, st)
    requires st.done < |job.source| && Binds(job.cfg.columns, job.source[st.done])
    requires row == Convert(job.cfg.columns, job.source[st.done])
    requires Accepted(job, st.rows, row, false)
    requires trace == st.trace || trace == st.trace + [Put(job.cfg, st.rows, row)]
    ensures Refines(job, rows0, st.(rows := Put(job.cfg, st.rows, row), done := st.done + 1,
                                    migrated := st.migrated + 1, trace := trace))
  {
    OfferOne(job, rows0, st.rows, st.done, Refused(st), row);
    TraceGrows(job, rows0, st, Put(job.cfg, st.rows, row), trace);
  }

  /** One more row that went in unheard: reported as failed. */
  lemma UnheardRefines(job: Job, rows0: seq<Row>, st: Progress, row: Row, next: Progress)
    requires Refines(job, rows0, st)
    requires st.done < |job.source| && Binds(job.cfg.columns, job.source[st.done])
    requires row == Convert(job.cfg.columns, job.source[st.done])
    requires Accepted(job, st.rows, row, false) && job.faults.alone(st.done) == LostAfter
    requires next == Unheard(st, Put(job.cfg, st.rows, row))
    ensures Refines(job, rows0, next)
  {
    OfferOne(job, rows0, st.rows, st.done, Refused(st), row);
    AcceptedPut(job, st.rows, row);
    TraceGrows(job, rows0, st, next.rows, next.trace);
    UnheardCounted(job, rows0, st, next);
    RefinesParts(job, rows0, next);
  }

  /** The progress after a row went in and its reply was lost. */
  function Unheard(st: Progress, rows: seq<Row>): Progress {
    st.(rows := rows, done := st.done + 1, errors := st.errors + [InsertError(st.done)],
        unheard := st.unheard + {st.done}, trace := st.trace + [rows])
  }

  lemma AcceptedPut(job: Job, rows: seq<Row>, row: Row)
    requires Accepted(job, rows, row, false)
    ensures rows <= Put(job.cfg, rows, row) && |Put(job.cfg, rows, row)| <= |rows| + 1
    ensures !job.resume ==> |Put(job.cfg, rows, row)| == |rows| + 1
  {
  }

  lemma RefinesParts(job: Job, rows0: seq<Row>, st: Progress)
    requires Placed(job, rows0, st.rows, st.done, Refused(st)) && Counted(job, rows0, st)
    requires forall i | 0 <= i < |st.trace| :: rows0 <= st.trace[i] <= st.rows
    ensures Refines(job, rows0, st)
  {
  }

  lemma UnheardCounted(job: Job, rows0: seq<Row>, st: Progress, next: Progress)
    requires Counted(job, rows0, st) && job.faults.alone(st.done) == LostAfter
    requires |next.rows| <= |st.rows| + 1 && (!job.resume ==> |next.rows| == |st.rows| + 1)
    requires next == Unheard(st, next.rows)
    ensures Counted(job, rows0, next) && Refused(next) == Refused(st)
  {
    FailedRowsAppend(st.errors, InsertError(st.done));
    OneMore(FailedRows(st.errors), st.done);
    OneMore(st.unheard, st.done);
    RefusedAlike(FailedRows(st.errors), st.unheard, st.done);
  }

  lemma RefusedAlike(failed: set<nat>, unheard: set<nat>, k: nat)
    requires k !in failed
    ensures (failed + {k}) - (unheard + {k}) == failed - unheard
  {
  }

  lemma OneMore(s: set<nat>, k: nat)
    requires k !in s
    ensures |s + {k}| == |s| + 1
  {
  }

  /** One more row refused when inserted alone. */
  lemma RefuseRefines(job: Job, rows0: seq<Row>, st: Progress, next: Progress)
    requires Refines(job, rows0, st)
    requires st.done < |job.source| && Binds(job.cfg.columns, job.source[st.done])
    requires next == st.(done := st.done + 1, errors := st.errors + [InsertError(st.done)])
    ensures Refines(job, rows0, next)
  {
    PassOne(job, rows0, st.rows, st.done, Refused(st));
    RefuseCounted(job, rows0, st, next);
  }

  lemma RefuseCounted(job: Job, rows0: seq<Row>, st: Progress, next: Progress)
    requires Counted(job, rows0, st)
    requires next == st.(done := st.done + 1, errors := st.errors + [InsertError(st.done)])
    ensures Counted(job, rows0, next) && Refused(next) == Refused(st) + {st.done}
  {
    FailedRowsAppend(st.errors, InsertError(st.done));
    OneMore(FailedRows(st.errors), st.done);
  }

  /** Where chunk rows stand in the source. */
  ghost predicate BatchAt(job: Job, offset: nat, batch: seq<Row>) {
    && offset + |batch| <= |job.source|
    && forall i | 0 <= i < |batch| ::
         Binds(job.cfg.columns, job.source[offset + i]) && batch[i] == Convert(job.cfg.columns, job.source[offset + i])
  }

  lemma {:induction false} RetryRefines(job: Job, rows0: seq<Row>, st: Progress, offset: nat, batch: seq<Row>, i: nat)
    requires BatchAt(job, offset, batch) && i <= |batch|
    requires Refines(job, rows0, st) && st.done == offset + i
    ensures Retried(job, rows0, st, RetryFrom(job, st, offset, batch, i), offset + |batch|)
    decreases |batch| - i
  {
    if i < |batch| {
      var next := RetryStep(job, st, offset + i, batch[i]);
      RetryStepRefines(job, rows0, st, offset + i, batch[i], next);
      RetryRefines(job, rows0, next, offset, batch, i + 1);
    }
  }

  ghost predicate Retried(job: Job, rows0: seq<Row>, st: Progress, last: Progress, done: nat) {
    Refines(job, rows0, last) && last.done == done && last.aborted == st.aborted
  }

  lemma RetryStepRefines(job: Job, rows0: seq<Row>, st: Progress, k: nat, row: Row, next: Progress)
    requires Refines(job, rows0, st) && st.done == k < |job.source| && Binds(job.cfg.columns, job.source[k])
    requires row == Convert(job.cfg.columns, job.source[k]) && next == RetryStep(job, st, k, row)
    ensures Refines(job, rows0, next) && next.done == k + 1 && next.aborted == st.aborted
  {
    var io := job.faults.alone(k);
    if Accepted(job, st.rows, row, io == LostBefore) {
      if io == LostAfter {
        UnheardRefines(job, rows0, st, row, next);
      } else {
        AcceptRefines(job, rows0, st, row, st.trace + [Put(job.cfg, st.rows, row)]);
      }
    } else {
      RefuseRefines(job, rows0, st, next);
    }
  }

  /** The transaction's private view, had it been the table. */
  function Shadow(st: Progress, rows: seq<Row>, i: nat): Progress {
    st.(rows := rows, done := st.done + i, migrated := st.migrated + i)
  }

  /** A transaction that has had n rows: in order as if it had been the table, or failed with an error. */
  ghost predicate TxEnded(job: Job, rows0: seq<Row>, st: Progress, tx: Tx, n: nat) {
    && (tx.ok ==> Refines(job, rows0, Shadow(st, tx.rows, n)))
    && (!tx.ok ==> tx.errors != [])
    && (forall e | e in tx.errors :: e.TransactionError?)
  }

  lemma TxStepRefines(job: Job, rows0: seq<Row>, st: Progress, tx: Tx, i: nat, row: Row)
    requires TxEnded(job, rows0, st, tx, i)
    requires st.done + i < |job.source| && Binds(job.cfg.columns, job.source[st.done + i])
    requires row == Convert(job.cfg.columns, job.source[st.done + i])
    ensures TxEnded(job, rows0, st, TxStep(job, tx, st.done + i, row), i + 1)
  {
    if tx.ok && Accepted(job, tx.rows, row, job.faults.inTransaction(st.done + i)) {
      AcceptRefines(job, rows0, Shadow(st, tx.rows, i), row, st.trace);
    }
  }

  lemma {:induction false} TxRefines(job: Job, rows0: seq<Row>, st: Progress, tx: Tx, offset: nat, batch: seq<Row>, i: nat)
    requires BatchAt(job, offset, batch) && i <= |batch| && st.done == offset
    requires TxEnded(job, rows0, st, tx, i)
    ensures TxEnded(job, rows0, st, TxFrom(job, tx, offset, batch, i), |batch|)
    decreases |batch| - i
  {
    if i < |batch| {
      TxStepRefines(job, rows0, st, tx, i, batch[i]);
      TxRefines(job, rows0, st, TxStep(job, tx, offset + i, batch[i]), offset, batch, i + 1);
    }
  }

  lemma PageIsBatch(job: Job, offset: nat)
    requires job.chunk > 0 && offset < |job.source|
    requires AllBind(job.cfg.columns, Window(job.source, job.chunk, offset))
    ensures BatchAt(job, offset, ConvertAll(job.cfg.columns, Window(job.source, job.chunk, offset)))
  {
    var page := Window(job.source, job.chunk, offset);
    forall i | 0 <= i < |page|
      ensures page[i] == job.source[offset + i]
    {
    }
  }

  /** Committing the transaction records one more state of the table. */
  lemma CommitRefines(job: Job, rows0: seq<Row>, st: Progress, lost: bool)
    requires Refines(job, rows0, st)
    ensures Refines(job, rows0, st.(trace := st.trace + [st.rows], aborted := lost))
  {
    TraceGrows(job, rows0, st, st.rows, st.trace + [st.rows]);
  }

  lemma ReportRefines(job: Job, rows0: seq<Row>, st: Progress, errors: seq<Error>)
    requires Refines(job, rows0, st)
    requires forall e | e in errors :: e.TransactionError?
    ensures Refines(job, rows0, st.(errors := st.errors + errors))
  {
    FailedRowsConcat(st.errors, errors);
  }

  /** What a chunk leaves behind: unless an error ended the table, done source rows are settled. */
  ghost predicate Reached(job: Job, rows0: seq<Row>, next: Progress, done: nat) {
    Refines(job, rows0, next) && (!next.aborted ==> next.done == done)
  }

  lemma SettleRefines(job: Job, rows0: seq<Row>, st: Progress, offset: nat, batch: seq<Row>)
    requires BatchAt(job, offset, batch)
    requires Refines(job, rows0, st) && st.done == offset && !st.aborted
    ensures Reached(job, rows0, SettleChunk(job, st, offset, batch), offset + |batch|)
  {
    var start := Tx(st.rows, true, []);
    assert Shadow(st, st.rows, 0) == st;
    TxRefines(job, rows0, st, start, offset, batch, 0);
    SettleTxRefines(job, rows0, st, offset, batch, TxFrom(job, start, offset, batch, 0));
  }

  lemma SettleTxRefines(job: Job, rows0: seq<Row>, st: Progress, offset: nat, batch: seq<Row>, tx: Tx)
    requires BatchAt(job, offset, batch) && TxEnded(job, rows0, st, tx, |batch|)
    requires Refines(job, rows0, st) && st.done == offset && !st.aborted
    ensures Reached(job, rows0, SettleTx(job, st, offset, batch, tx), offset + |batch|)
  {
    var lost := job.faults.chunkIo(offset) == LostAfter;
    if tx.ok {
      CommitRefines(job, rows0, Shadow(st, tx.rows, |batch|), lost);
    } else if lost {
      AbortRefines(job, rows0, st);
    } else {
      RetryChunkRefines(job, rows0, st, offset, batch, tx.errors);
    }
  }

  lemma AbortRefines(job: Job, rows0: seq<Row>, st: Progress)
    requires Refines(job, rows0, st)
    ensures Refines(job, rows0, st.(aborted := true))
  {
  }

  lemma RetryChunkRefines(job: Job, rows0: seq<Row>, st: Progress, offset: nat, batch: seq<Row>, errors: seq<Error>)
    requires BatchAt(job, offset, batch) && Refines(job, rows0, st) && st.done == offset
    requires forall e | e in errors :: e.TransactionError?
    ensures var retried := RetryFrom(job, st, offset, batch, 0);
            Retried(job, rows0, st, retried.(errors := retried.errors + errors), offset + |batch|)
  {
    RetryRefines(job, rows0, st, offset, batch, 0);
    ReportRefines(job, rows0, RetryFrom(job, st, offset, batch, 0), errors);
  }

  function ChunkEnd(job: Job, offset: nat): nat {
    if offset + job.chunk <= |job.source| then offset + job.chunk else |job.source|
  }

  /** A chunk keeps the refinement whatever fails in it, and settles all its rows unless it ends the table. */
  lemma ChunkRefines(job: Job, rows0: seq<Row>, st: Progress, offset: nat)
    requires job.chunk > 0 && offset < |job.source|
    requires Refines(job, rows0, st) && st.done == offset && !st.aborted
    ensures Reached(job, rows0, ChunkStep(job, st, offset), ChunkEnd(job, offset))
  {
    var page := Window(job.source, job.chunk, offset);
    if job.faults.chunkIo(offset) != LostBefore && AllBind(job.cfg.columns, page) {
      PageIsBatch(job, offset);
      SettleRefines(job, rows0, st, offset, ConvertAll(job.cfg.columns, page));
    } else {
      AbortRefines(job, rows0, st);
    }
  }

  /** Where a table ends up: the refinement holds, and unless an error ended it every row is settled. */
  ghost predicate Ended(job: Job, rows0: seq<Row>, last: Progress) {
    Refines(job, rows0, last) && (!last.aborted ==> last.done == |job.source|)
  }

  /** The whole table: chunks, transactions and retries come to offering the rows one at a time. */
  lemma {:induction false} RunRefines(job: Job, rows0: seq<Row>, st: Progress, offset: nat)
    requires job.chunk > 0 && Refines(job, rows0, st)
    requires !st.aborted ==> st.done == if offset <= |job.source| then offset else |job.source|
    ensures Ended(job, rows0, RunFrom(job, st, offset))
    decreases |job.source| - offset, 1
  {
    if !st.aborted && offset < |job.source| {
      ChunkRefines(job, rows0, st, offset);
      RunUnfolds(job, st, offset);
      RestRefines(job, rows0, ChunkStep(job, st, offset), offset);
    }
  }

  lemma {:induction false} RestRefines(job: Job, rows0: seq<Row>, next: Progress, offset: nat)
    requires job.chunk > 0 && offset < |job.source| && Reached(job, rows0, next, ChunkEnd(job, offset))
    ensures Ended(job, rows0, RunFrom(job, next, offset + job.chunk))
    decreases |job.source| - offset, 0
  {
    RunRefines(job, rows0, next, offset + job.chunk);
  }

  /**
   * A finished copy, told without chunks, transactions or retries: the rows
   * refused alone are passed over and all others offered in order; the migrated
   * count is the source count less the reported failures, and the table grew by it
   * and by the rows that went in unheard, or with resume by at most that.
   */
  lemma FinishedCopyConserves(job: Job, rows: seq<Row>)
    requires job.chunk > 0 && !RunFrom(job, Begin(rows), 0).aborted
    ensures AllBind(job.cfg.columns, job.source)
    ensures var st := RunFrom(job, Begin(rows), 0);
            && st.unheard <= FailedRows(st.errors) && (forall k | k in st.unheard :: job.faults.alone(k) == LostAfter)
            && st.rows == PutAll(job.cfg, rows, ConvertAll(job.cfg.columns, job.source), FailedRows(st.errors) - st.unheard)
            && st.migrated == |job.source| - |FailedRows(st.errors)|
            && |st.rows| - |rows| <= st.migrated + |st.unheard|
            && (!job.resume ==> |st.rows| - |rows| == st.migrated + |st.unheard|)
  {
    BeginRefines(job, rows);
    RunRefines(job, rows, Begin(rows), 0);
    assert job.source[..|job.source|] == job.source;
  }
}
