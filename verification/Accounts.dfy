/**
 * Which rows of a copy fail and which runs end early, told from the faults and
 * the rows alone: a chunk is retried exactly when its transaction meets a
 * troubled row, and a retried row is reported exactly when its own insert is.
 */
module Accounts {
  import opened Wrappers
  import opened Seqs
  import opened Rows
  import opened Transfer
  import opened Migration
  import opened TableTheorems

  /** An insert that cannot succeed on this table: a fault, a null in the key, or a conflict that is not ignored. */
  predicate Troubled(job: Job, rows: seq<Row>, row: Row, fault: bool) {
    fault || NullKey(job.cfg, row) || (!job.resume && Taken(job.cfg, rows, row))
  }

  /** A row of a batch that meets trouble in the batch's transaction, the earlier ones having gone in. */
  predicate TxTrouble(job: Job, start: seq<Row>, offset: nat, batch: seq<Row>, j: nat)
    requires j < |batch|
  {
    Troubled(job, PutAll(job.cfg, start, batch[..j], {}), batch[j], job.faults.inTransaction(offset + j))
  }

  /** Some row of the batch up to the j-th. */
  ghost predicate TroubleUpTo(job: Job, start: seq<Row>, offset: nat, batch: seq<Row>, j: int)
    requires j < |batch|
  {
    exists i | 0 <= i <= j :: TxTrouble(job, start, offset, batch, i)
  }

  // ---- the transaction of a chunk ----

  ghost predicate TxTold(job: Job, start: seq<Row>, offset: nat, batch: seq<Row>, tx: Tx, i: nat)
    requires i <= |batch|
  {
    && (tx.ok <==> !TroubleUpTo(job, start, offset, batch, i - 1))
    && (tx.ok ==> tx.rows == PutAll(job.cfg, start, batch[..i], {}))
    && (forall e | e in tx.errors :: e.TransactionError? && offset <= e.row < offset + i)
    && (forall j | 0 <= j < i :: TransactionError(offset + j) in tx.errors <==> TroubleUpTo(job, start, offset, batch, j))
  }

  lemma TxStepTold(job: Job, start: seq<Row>, offset: nat, batch: seq<Row>, tx: Tx, i: nat)
    requires i < |batch| && TxTold(job, start, offset, batch, tx, i)
    ensures TxTold(job, start, offset, batch, TxStep(job, tx, offset + i, batch[i]), i + 1)
  {
    var next := TxStep(job, tx, offset + i, batch[i]);
    assert batch[..i + 1][..i] == batch[..i];
    assert TroubleUpTo(job, start, offset, batch, i) <==>
             TroubleUpTo(job, start, offset, batch, i - 1) || TxTrouble(job, start, offset, batch, i);
    assert next.ok <==> !TroubleUpTo(job, start, offset, batch, i);
    forall j | 0 <= j < i + 1
      ensures TransactionError(offset + j) in next.errors <==> TroubleUpTo(job, start, offset, batch, j)
    {
      if j == i {
        assert TransactionError(offset + i) !in tx.errors;
      }
    }
  }

  lemma {:induction false} TxFromTold(job: Job, start: seq<Row>, offset: nat, batch: seq<Row>, tx: Tx, i: nat)
    requires i <= |batch| && TxTold(job, start, offset, batch, tx, i)
    ensures TxTold(job, start, offset, batch, TxFrom(job, tx, offset, batch, i), |batch|)
    decreases |batch| - i
  {
    if i < |batch| {
      TxStepTold(job, start, offset, batch, tx, i);
      TxFromTold(job, start, offset, batch, TxStep(job, tx, offset + i, batch[i]), i + 1);
    }
  }

  // ---- rows inserted alone ----

  /** The table as it is when row k is offered. */
  ghost function Before(job: Job, rows0: seq<Row>, skipped: set<nat>, k: nat): seq<Row>
    requires k <= |job.source| && AllBind(job.cfg.columns, job.source)
  {
    PutAll(job.cfg, rows0, Converted(job)[..k], skipped)
  }

  function Converted(job: Job): seq<Row>
    requires AllBind(job.cfg.columns, job.source)
  {
    ConvertAll(job.cfg.columns, job.source)
  }

  ghost predicate Conflicts(job: Job, rows0: seq<Row>, skipped: set<nat>, k: nat)
    requires k < |job.source| && AllBind(job.cfg.columns, job.source)
  {
    Troubled(job, Before(job, rows0, skipped, k), Converted(job)[k], false)
  }

  /** What is known of a row that was inserted alone. */
  ghost predicate AloneTold(job: Job, rows0: seq<Row>, failed: set<nat>, unheard: set<nat>, k: nat)
    requires k < |job.source| && AllBind(job.cfg.columns, job.source)
  {
    var conflicts := Conflicts(job, rows0, failed - unheard, k);
    && (k in failed <==> job.faults.alone(k) != Steady || conflicts)
    && (k in unheard <==> job.faults.alone(k) == LostAfter && !conflicts)
  }

  /** Two accounts of failures that agree on the first n rows. */
  ghost predicate Agree(f: set<nat>, u: set<nat>, g: set<nat>, v: set<nat>, n: nat) {
    forall k: nat | k < n :: (k in f <==> k in g) && (k in u <==> k in v)
  }

  lemma BeforeAgrees(job: Job, rows0: seq<Row>, f: set<nat>, u: set<nat>, g: set<nat>, v: set<nat>, n: nat, k: nat)
    requires k <= n && k <= |job.source| && AllBind(job.cfg.columns, job.source) && Agree(f, u, g, v, n)
    ensures Before(job, rows0, f - u, k) == Before(job, rows0, g - v, k)
  {
    PutAllLocal(job.cfg, rows0, Converted(job)[..k], f - u, g - v);
  }

  lemma SettledIsFront(job: Job, n: nat)
    requires n <= |job.source| && AllBind(job.cfg.columns, job.source)
    ensures AllBind(job.cfg.columns, job.source[..n]) && Settled(job, n) == Converted(job)[..n]
  {
  }

  /** The rows from offset to n that have been inserted alone are told; earlier ones are as they were. */
  ghost predicate RetryAccount(job: Job, rows0: seq<Row>, was: Progress, errors: seq<Error>, unheard: set<nat>,
                               offset: nat, n: nat)
    requires AllBind(job.cfg.columns, job.source) && n <= |job.source|
  {
    && Agree(FailedRows(was.errors), was.unheard, FailedRows(errors), unheard, offset)
    && (forall e | e in errors && e.TransactionError? :: e in was.errors)
    && (forall e | e in was.errors :: e in errors)
    && (forall k | offset <= k < n :: AloneTold(job, rows0, FailedRows(errors), unheard, k))
  }

  ghost predicate RetryTold(job: Job, rows0: seq<Row>, was: Progress, st: Progress, offset: nat)
    requires AllBind(job.cfg.columns, job.source)
  {
    Refines(job, rows0, st) && RetryAccount(job, rows0, was, st.errors, st.unheard, offset, st.done)
  }

  /** A step changes the account of its own row only. */
  lemma StepAgrees(job: Job, st: Progress, row: Row)
    ensures var next := RetryStep(job, st, st.done, row);
            Agree(FailedRows(st.errors), st.unheard, FailedRows(next.errors), next.unheard, st.done)
  {
    FailedRowsAppend(st.errors, InsertError(st.done));
  }

  lemma StepTells(job: Job, rows0: seq<Row>, st: Progress, row: Row, next: Progress)
    requires AllBind(job.cfg.columns, job.source) && Refines(job, rows0, st) && st.done < |job.source|
    requires row == Converted(job)[st.done] && next == RetryStep(job, st, st.done, row)
    ensures AloneTold(job, rows0, FailedRows(next.errors), next.unheard, st.done)
  {
    var k := st.done;
    SettledIsFront(job, k);
    StepAgrees(job, st, row);
    BeforeAgrees(job, rows0, FailedRows(st.errors), st.unheard, FailedRows(next.errors), next.unheard, k, k);
    assert st.rows == Before(job, rows0, Refused(st), k);
    FailedRowsAppend(st.errors, InsertError(k));
    assert k !in FailedRows(st.errors) && k !in st.unheard;
  }

  lemma AloneToldCarries(job: Job, rows0: seq<Row>, f: set<nat>, u: set<nat>, g: set<nat>, v: set<nat>, n: nat, k: nat)
    requires k < n && k < |job.source| && AllBind(job.cfg.columns, job.source) && Agree(f, u, g, v, n)
    ensures AloneTold(job, rows0, f, u, k) <==> AloneTold(job, rows0, g, v, k)
  {
    BeforeAgrees(job, rows0, f, u, g, v, n, k);
  }

  lemma RetryStepTold(job: Job, rows0: seq<Row>, was: Progress, st: Progress, offset: nat, row: Row, next: Progress)
    requires AllBind(job.cfg.columns, job.source) && RetryTold(job, rows0, was, st, offset)
    requires offset <= st.done < |job.source| && row == Converted(job)[st.done]
    requires next == RetryStep(job, st, st.done, row)
    ensures RetryTold(job, rows0, was, next, offset) && next.done == st.done + 1
  {
    RetryStepRefines(job, rows0, st, st.done, row, next);
    StepAgrees(job, st, row);
    StepTells(job, rows0, st, row, next);
    StepErrors(job, st, row);
    AccountExtends(job, rows0, was, st.errors, st.unheard, offset, st.done, next.errors, next.unheard);
  }

  lemma AccountExtends(job: Job, rows0: seq<Row>, was: Progress, errors: seq<Error>, unheard: set<nat>, offset: nat, n: nat,
                       errors2: seq<Error>, unheard2: set<nat>)
    requires offset <= n < |job.source| && AllBind(job.cfg.columns, job.source)
    requires RetryAccount(job, rows0, was, errors, unheard, offset, n)
    requires Agree(FailedRows(errors), unheard, FailedRows(errors2), unheard2, n)
    requires AloneTold(job, rows0, FailedRows(errors2), unheard2, n)
    requires forall e | e in errors2 :: e in errors || e == InsertError(n)
    requires forall e | e in errors :: e in errors2
    ensures RetryAccount(job, rows0, was, errors2, unheard2, offset, n + 1)
  {
    AllCarry(job, rows0, FailedRows(errors), unheard, FailedRows(errors2), unheard2, offset, n);
    AgreeTrans(FailedRows(was.errors), was.unheard, FailedRows(errors), unheard, FailedRows(errors2), unheard2, offset, n);
  }

  lemma AgreeTrans(f: set<nat>, u: set<nat>, g: set<nat>, v: set<nat>, h: set<nat>, w: set<nat>, m: nat, n: nat)
    requires m <= n && Agree(f, u, g, v, m) && Agree(g, v, h, w, n)
    ensures Agree(f, u, h, w, m)
  {
  }

  lemma StepErrors(job: Job, st: Progress, row: Row)
    ensures var next := RetryStep(job, st, st.done, row);
            forall e :: e in next.errors <==> e in st.errors || (e == InsertError(st.done) && |next.errors| > |st.errors|)
  {
  }

  lemma AllCarry(job: Job, rows0: seq<Row>, f: set<nat>, u: set<nat>, g: set<nat>, v: set<nat>, offset: nat, n: nat)
    requires n <= |job.source| && AllBind(job.cfg.columns, job.source) && Agree(f, u, g, v, n)
    requires forall k | offset <= k < n :: AloneTold(job, rows0, f, u, k)
    ensures forall k | offset <= k < n :: AloneTold(job, rows0, g, v, k)
  {
    forall k | offset <= k < n
      ensures AloneTold(job, rows0, g, v, k)
    {
      AloneToldCarries(job, rows0, f, u, g, v, n, k);
    }
  }

  lemma {:induction false} RetryFromTold(job: Job, rows0: seq<Row>, was: Progress, st: Progress,
                                         offset: nat, batch: seq<Row>, i: nat)
    requires AllBind(job.cfg.columns, job.source) && RetryTold(job, rows0, was, st, offset)
    requires offset + |batch| <= |job.source| && batch == Converted(job)[offset..offset + |batch|]
    requires i <= |batch| && st.done == offset + i
    ensures RetryEnded(job, rows0, was, RetryFrom(job, st, offset, batch, i), offset, offset + |batch|)
    decreases |batch| - i
  {
    if i < |batch| {
      var next := RetryStep(job, st, offset + i, batch[i]);
      RetryStepTold(job, rows0, was, st, offset, batch[i], next);
      RetryFromTold(job, rows0, was, next, offset, batch, i + 1);
    }
  }

  ghost predicate RetryEnded(job: Job, rows0: seq<Row>, was: Progress, last: Progress, offset: nat, done: nat)
    requires AllBind(job.cfg.columns, job.source)
  {
    RetryTold(job, rows0, was, last, offset) && last.done == done
  }

  // ---- one chunk ----

  ghost function Batch(job: Job, offset: nat): seq<Row>
    requires offset < |job.source| && AllBind(job.cfg.columns, job.source)
  {
    Converted(job)[offset..ChunkEnd(job, offset)]
  }

  /** The transaction of the chunk at this offset meets trouble at or before row k. */
  ghost predicate ChunkTrouble(job: Job, rows0: seq<Row>, skipped: set<nat>, offset: nat, k: nat)
    requires AllBind(job.cfg.columns, job.source) && offset <= k < |job.source| && k < ChunkEnd(job, offset)
  {
    TroubleUpTo(job, Before(job, rows0, skipped, offset), offset, Batch(job, offset), k - offset)
  }

  /**
   * Row k of the chunk at offset o: it was inserted alone exactly when the
   * chunk's transaction met trouble, and is reported from there as its own insert goes.
   */
  ghost predicate RowTold(job: Job, rows0: seq<Row>, errors: seq<Error>, unheard: set<nat>, o: nat, k: nat)
    requires AllBind(job.cfg.columns, job.source) && o <= k < |job.source| && k < ChunkEnd(job, o)
  {
    var failed := FailedRows(errors);
    var skipped := failed - unheard;
    var retried := ChunkTrouble(job, rows0, skipped, o, ChunkEnd(job, o) - 1);
    var conflicts := Conflicts(job, rows0, skipped, k);
    && (k in failed <==> retried && (job.faults.alone(k) != Steady || conflicts))
    && (k in unheard <==> retried && job.faults.alone(k) == LostAfter && !conflicts)
    && (TransactionError(k) in errors <==> ChunkTrouble(job, rows0, skipped, o, k))
  }

  lemma RowToldCarries(job: Job, rows0: seq<Row>, errors: seq<Error>, unheard: set<nat>, errors2: seq<Error>, unheard2: set<nat>,
                       n: nat, o: nat, k: nat)
    requires AllBind(job.cfg.columns, job.source) && o <= k < |job.source| && k < ChunkEnd(job, o) && k < n
    requires Agree(FailedRows(errors), unheard, FailedRows(errors2), unheard2, n)
    requires TransactionError(k) in errors <==> TransactionError(k) in errors2
    ensures RowTold(job, rows0, errors, unheard, o, k) <==> RowTold(job, rows0, errors2, unheard2, o, k)
  {
    var f, g := FailedRows(errors), FailedRows(errors2);
    BeforeAgrees(job, rows0, f, unheard, g, unheard2, n, o);
    BeforeAgrees(job, rows0, f, unheard, g, unheard2, n, k);
  }

  /** The offsets a loop over chunks visits. */
  predicate IsOffset(chunk: nat, o: nat)
    requires chunk > 0
    decreases o
  {
    o == 0 || (chunk <= o && IsOffset(chunk, o - chunk))
  }

  /** Row k is in the chunk at offset o. */
  ghost predicate ChunkAt(job: Job, o: nat, k: nat)
    requires job.chunk > 0
  {
    IsOffset(job.chunk, o) && o <= k < |job.source| && k < o + job.chunk
  }

  /** Every settled row is told, and nothing is reported of the others. */
  ghost predicate Told(job: Job, rows0: seq<Row>, st: Progress)
    requires job.chunk > 0 && AllBind(job.cfg.columns, job.source)
  {
    && Refines(job, rows0, st)
    && (forall e | e in st.errors && e.TransactionError? :: e.row < st.done)
    && (forall o: nat, k: nat | ChunkAt(job, o, k) && k < st.done :: RowTold(job, rows0, st.errors, st.unheard, o, k))
  }

  lemma {:induction false} OffsetsApart(chunk: nat, a: nat, b: nat)
    requires chunk > 0 && IsOffset(chunk, a) && IsOffset(chunk, b) && a < b
    ensures a + chunk <= b
  {
    if a > 0 {
      OffsetsApart(chunk, a - chunk, b - chunk);
    }
  }

  /** Where a chunk starts: the table as it is before its first row, and no word of that row or any later one. */
  ghost predicate Untold(job: Job, rows0: seq<Row>, st: Progress, offset: nat)
    requires offset <= |job.source| && AllBind(job.cfg.columns, job.source)
  {
    && st.rows == Before(job, rows0, Refused(st), offset)
    && (forall k: nat | offset <= k ::
          k !in FailedRows(st.errors) && k !in st.unheard && TransactionError(k) !in st.errors)
  }

  lemma ToldStart(job: Job, rows0: seq<Row>, st: Progress)
    requires job.chunk > 0 && AllBind(job.cfg.columns, job.source) && Told(job, rows0, st)
    ensures st.done <= |job.source| && Untold(job, rows0, st, st.done)
  {
    SettledIsFront(job, st.done);
  }

  /** The rows of a batch that committed as one. */
  lemma CommitTells(job: Job, rows0: seq<Row>, st: Progress, offset: nat, k: nat)
    requires job.chunk > 0 && AllBind(job.cfg.columns, job.source) && ChunkAt(job, offset, k) && Untold(job, rows0, st, offset)
    requires !TroubleUpTo(job, st.rows, offset, Batch(job, offset), |Batch(job, offset)| - 1)
    ensures RowTold(job, rows0, st.errors, st.unheard, offset, k)
  {
  }

  /** The rows of a batch that was rolled back and retried. */
  lemma RetryTells(job: Job, rows0: seq<Row>, st: Progress, errors: seq<Error>, unheard: set<nat>, tx: Tx, offset: nat, k: nat)
    requires job.chunk > 0 && AllBind(job.cfg.columns, job.source) && ChunkAt(job, offset, k) && Untold(job, rows0, st, offset)
    requires TxTold(job, st.rows, offset, Batch(job, offset), tx, |Batch(job, offset)|) && !tx.ok
    requires Agree(FailedRows(st.errors), st.unheard, FailedRows(errors), unheard, offset)
    requires AloneTold(job, rows0, FailedRows(errors), unheard, k) && TransactionError(k) !in errors
    ensures RowTold(job, rows0, errors + tx.errors, unheard, offset, k)
  {
    FailedRowsConcat(errors, tx.errors);
    BeforeAgrees(job, rows0, FailedRows(st.errors), st.unheard, FailedRows(errors), unheard, offset, offset);
    assert TransactionError(offset + (k - offset)) in tx.errors <==>
             TroubleUpTo(job, st.rows, offset, Batch(job, offset), k - offset);
  }

  /** Earlier rows keep their account through a retried chunk. */
  lemma EarlierStayTold(job: Job, rows0: seq<Row>, st: Progress, retried: Progress, tx: Tx, offset: nat, o: nat, k: nat)
    requires job.chunk > 0 && AllBind(job.cfg.columns, job.source) && ChunkAt(job, o, k) && k < offset
    requires RowTold(job, rows0, st.errors, st.unheard, o, k) && RetryTold(job, rows0, st, retried, offset)
    requires forall e | e in tx.errors :: e.TransactionError? && offset <= e.row
    ensures RowTold(job, rows0, retried.errors + tx.errors, retried.unheard, o, k)
  {
    var errors := retried.errors + tx.errors;
    FailedRowsConcat(retried.errors, tx.errors);
    RowToldCarries(job, rows0, st.errors, st.unheard, errors, retried.unheard, offset, o, k);
  }

  lemma WindowIsBatch(job: Job, offset: nat)
    requires job.chunk > 0 && offset < |job.source| && AllBind(job.cfg.columns, job.source)
    ensures var page := Window(job.source, job.chunk, offset);
            AllBind(job.cfg.columns, page) && ConvertAll(job.cfg.columns, page) == Batch(job, offset)
    ensures |Batch(job, offset)| == ChunkEnd(job, offset) - offset
  {
    var page := Window(job.source, job.chunk, offset);
    assert forall i | 0 <= i < |page| :: page[i] == job.source[offset + i];
  }

  lemma ChunkTells(job: Job, rows0: seq<Row>, st: Progress, offset: nat, next: Progress)
    requires job.chunk > 0 && AllBind(job.cfg.columns, job.source) && IsOffset(job.chunk, offset) && offset < |job.source|
    requires Told(job, rows0, st) && st.done == offset && !st.aborted
    requires next == ChunkStep(job, st, offset) && !next.aborted
    ensures Told(job, rows0, next) && next.done == ChunkEnd(job, offset)
  {
    ChunkRefines(job, rows0, st, offset);
    WindowIsBatch(job, offset);
    var batch, start := Batch(job, offset), Tx(st.rows, true, []);
    var tx := TxFrom(job, start, offset, batch, 0);
    TxFromTold(job, st.rows, offset, batch, start, 0);
    SettledTells(job, rows0, st, offset, tx, next);
  }

  lemma SettledTells(job: Job, rows0: seq<Row>, st: Progress, offset: nat, tx: Tx, next: Progress)
    requires job.chunk > 0 && AllBind(job.cfg.columns, job.source) && IsOffset(job.chunk, offset) && offset < |job.source|
    requires Told(job, rows0, st) && st.done == offset && !st.aborted
    requires TxTold(job, st.rows, offset, Batch(job, offset), tx, |Batch(job, offset)|)
    requires next == SettleTx(job, st, offset, Batch(job, offset), tx) && !next.aborted
    requires Refines(job, rows0, next) && next.done == ChunkEnd(job, offset)
    ensures Told(job, rows0, next)
  {
    ToldStart(job, rows0, st);
    if tx.ok {
      CommittedTells(job, rows0, st, offset, next);
    } else {
      RetryFromTold(job, rows0, st, st, offset, Batch(job, offset), 0);
      RetriedTells(job, rows0, st, offset, tx, RetryFrom(job, st, offset, Batch(job, offset), 0), next);
    }
  }

  lemma CommittedTells(job: Job, rows0: seq<Row>, st: Progress, offset: nat, next: Progress)
    requires job.chunk > 0 && AllBind(job.cfg.columns, job.source) && IsOffset(job.chunk, offset) && offset < |job.source|
    requires Told(job, rows0, st) && st.done == offset && Untold(job, rows0, st, offset)
    requires !TroubleUpTo(job, st.rows, offset, Batch(job, offset), |Batch(job, offset)| - 1)
    requires Refines(job, rows0, next) && next.done == ChunkEnd(job, offset)
    requires next.errors == st.errors && next.unheard == st.unheard
    ensures Told(job, rows0, next)
  {
    forall o: nat, k: nat | ChunkAt(job, o, k) && k < next.done
      ensures RowTold(job, rows0, next.errors, next.unheard, o, k)
    {
      SameChunk(job, offset, o, k);
      if k >= offset {
        CommitTells(job, rows0, st, offset, k);
      }
    }
  }

  lemma RetriedTells(job: Job, rows0: seq<Row>, st: Progress, offset: nat, tx: Tx, retried: Progress, next: Progress)
    requires job.chunk > 0 && AllBind(job.cfg.columns, job.source) && IsOffset(job.chunk, offset) && offset < |job.source|
    requires Told(job, rows0, st) && st.done == offset && Untold(job, rows0, st, offset)
    requires TxTold(job, st.rows, offset, Batch(job, offset), tx, |Batch(job, offset)|) && !tx.ok
    requires RetryTold(job, rows0, st, retried, offset) && retried.done == ChunkEnd(job, offset) == next.done
    requires Refines(job, rows0, next) && next.errors == retried.errors + tx.errors && next.unheard == retried.unheard
    ensures Told(job, rows0, next)
  {
    forall o: nat, k: nat | ChunkAt(job, o, k) && k < next.done
      ensures RowTold(job, rows0, next.errors, next.unheard, o, k)
    {
      SameChunk(job, offset, o, k);
      if k < offset {
        EarlierStayTold(job, rows0, st, retried, tx, offset, o, k);
      } else {
        RetryTells(job, rows0, st, retried.errors, retried.unheard, tx, offset, k);
      }
    }
  }

  lemma SameChunk(job: Job, offset: nat, o: nat, k: nat)
    requires job.chunk > 0 && IsOffset(job.chunk, offset) && offset < |job.source| && ChunkAt(job, o, k)
    requires k < ChunkEnd(job, offset)
    ensures k >= offset ==> o == offset
  {
    if k >= offset {
      if o < offset {
        OffsetsApart(job.chunk, o, offset);
      } else if offset < o {
        OffsetsApart(job.chunk, offset, o);
      }
    }
  }

  // ---- the whole table ----

  lemma {:induction false} RunTells(job: Job, rows0: seq<Row>, st: Progress, offset: nat)
    requires job.chunk > 0 && AllBind(job.cfg.columns, job.source) && IsOffset(job.chunk, offset)
    requires Told(job, rows0, st) && !RunFrom(job, st, offset).aborted
    requires !st.aborted && st.done == if offset <= |job.source| then offset else |job.source|
    ensures AllTold(job, rows0, RunFrom(job, st, offset))
    decreases |job.source| - offset, 1
  {
    if offset < |job.source| {
      var next := ChunkStep(job, st, offset);
      RunUnfolds(job, st, offset);
      AbortedStays(job, next, offset + job.chunk);
      ChunkTells(job, rows0, st, offset, next);
      RestTells(job, rows0, next, offset);
    }
  }

  lemma {:induction false} RestTells(job: Job, rows0: seq<Row>, next: Progress, offset: nat)
    requires job.chunk > 0 && AllBind(job.cfg.columns, job.source) && IsOffset(job.chunk, offset) && offset < |job.source|
    requires Told(job, rows0, next) && next.done == ChunkEnd(job, offset)
    requires !next.aborted && !RunFrom(job, next, offset + job.chunk).aborted
    ensures AllTold(job, rows0, RunFrom(job, next, offset + job.chunk))
    decreases |job.source| - offset, 0
  {
    RunTells(job, rows0, next, offset + job.chunk);
  }

  ghost predicate AllTold(job: Job, rows0: seq<Row>, last: Progress)
    requires job.chunk > 0 && AllBind(job.cfg.columns, job.source)
  {
    Told(job, rows0, last) && last.done == |job.source|
  }

  lemma AbortedStays(job: Job, st: Progress, offset: nat)
    requires job.chunk > 0 && !RunFrom(job, st, offset).aborted
    ensures !st.aborted
  {
  }

  /**
   * The account of a finished copy, row by row: row k of the chunk at offset o
   * is reported as a failed insert exactly when that chunk's transaction met
   * trouble and its own insert was lost, had a null key, or without resume a key
   * already there; it went in unheard exactly when only its reply was lost.
   */
  lemma FailuresExact(job: Job, rows: seq<Row>, o: nat, k: nat)
    requires job.chunk > 0 && !RunFrom(job, Begin(rows), 0).aborted && ChunkAt(job, o, k)
    ensures AllBind(job.cfg.columns, job.source)
    ensures var st := RunFrom(job, Begin(rows), 0);
            RowTold(job, rows, st.errors, st.unheard, o, k)
  {
    FinishedCopyConserves(job, rows);
    BeginRefines(job, rows);
    RunTells(job, rows, Begin(rows), 0);
  }

  // ---- keys ----

  /** Two rows have one key exactly when they agree in every key column; a key is null exactly when one of these is. */
  lemma KeyExact(cfg: TableConfig, a: Row, b: Row)
    requires forall j | 0 <= j < |cfg.key| :: cfg.key[j] < |a| && cfg.key[j] < |b|
    ensures Key(cfg, a) == Key(cfg, b) <==> forall j | 0 <= j < |cfg.key| :: a[cfg.key[j]] == b[cfg.key[j]]
    ensures NullKey(cfg, a) <==> exists j | 0 <= j < |cfg.key| :: a[cfg.key[j]] == Nil
  {
    assert forall j | 0 <= j < |cfg.key| :: Key(cfg, a)[j] == a[cfg.key[j]] && Key(cfg, b)[j] == b[cfg.key[j]];
  }

  // ---- every write is on record ----

  /** The last state on record. */
  function LastOf(rows0: seq<Row>, trace: seq<seq<Row>>): seq<Row> {
    if trace == [] then rows0 else trace[|trace| - 1]
  }

  /** The record ends in the table as it is, and no state has more than one chunk of rows more than the one before. */
  ghost predicate OnRecord(job: Job, rows0: seq<Row>, st: Progress) {
    && st.rows == LastOf(rows0, st.trace)
    && forall i | 0 <= i < |st.trace| ::
         LastOf(rows0, st.trace[..i]) <= st.trace[i] && |st.trace[i]| <= |LastOf(rows0, st.trace[..i])| + job.chunk
  }

  lemma RecordOne(job: Job, rows0: seq<Row>, st: Progress, next: Progress)
    requires OnRecord(job, rows0, st) && st.rows <= next.rows && |next.rows| <= |st.rows| + job.chunk
    requires next.trace == st.trace + [next.rows]
    ensures OnRecord(job, rows0, next)
  {
    assert next.trace[..|st.trace|] == st.trace;
    forall i | 0 <= i < |next.trace|
      ensures LastOf(rows0, next.trace[..i]) <= next.trace[i]
              && |next.trace[i]| <= |LastOf(rows0, next.trace[..i])| + job.chunk
    {
      assert i < |st.trace| ==> next.trace[..i] == st.trace[..i] && next.trace[i] == st.trace[i];
    }
  }

  lemma {:induction false} RetryOnRecord(job: Job, rows0: seq<Row>, st: Progress, offset: nat, batch: seq<Row>, i: nat)
    requires job.chunk > 0 && OnRecord(job, rows0, st)
    ensures OnRecord(job, rows0, RetryFrom(job, st, offset, batch, i))
    decreases |batch| - i
  {
    if i < |batch| {
      var next := RetryStep(job, st, offset + i, batch[i]);
      if next.rows != st.rows || next.trace != st.trace {
        RecordOne(job, rows0, st, next);
      }
      RetryOnRecord(job, rows0, next, offset, batch, i + 1);
    }
  }

  lemma {:induction false} TxGrows(job: Job, tx: Tx, offset: nat, batch: seq<Row>, i: nat)
    ensures tx.rows <= TxFrom(job, tx, offset, batch, i).rows
    ensures i <= |batch| ==> |TxFrom(job, tx, offset, batch, i).rows| <= |tx.rows| + |batch| - i
    decreases |batch| - i
  {
    if i < |batch| {
      TxGrows(job, TxStep(job, tx, offset + i, batch[i]), offset, batch, i + 1);
    }
  }

  lemma ChunkOnRecord(job: Job, rows0: seq<Row>, st: Progress, offset: nat)
    requires job.chunk > 0 && OnRecord(job, rows0, st)
    ensures OnRecord(job, rows0, ChunkStep(job, st, offset))
  {
    var page := Window(job.source, job.chunk, offset);
    if job.faults.chunkIo(offset) != LostBefore && AllBind(job.cfg.columns, page) {
      var batch := ConvertAll(job.cfg.columns, page);
      var tx := TxFrom(job, Tx(st.rows, true, []), offset, batch, 0);
      TxGrows(job, Tx(st.rows, true, []), offset, batch, 0);
      RetryOnRecord(job, rows0, st, offset, batch, 0);
      if tx.ok {
        RecordOne(job, rows0, st, SettleTx(job, st, offset, batch, tx));
      }
    }
  }

  lemma {:induction false} RunOnRecord(job: Job, rows0: seq<Row>, st: Progress, offset: nat)
    requires job.chunk > 0 && OnRecord(job, rows0, st)
    ensures OnRecord(job, rows0, RunFrom(job, st, offset))
    decreases |job.source| - offset, 1
  {
    if !st.aborted && offset < |job.source| {
      var next := ChunkStep(job, st, offset);
      ChunkOnRecord(job, rows0, st, offset);
      RunUnfolds(job, st, offset);
      RestOnRecord(job, rows0, next, offset);
    }
  }

  lemma {:induction false} RestOnRecord(job: Job, rows0: seq<Row>, next: Progress, offset: nat)
    requires job.chunk > 0 && offset < |job.source| && OnRecord(job, rows0, next)
    ensures OnRecord(job, rows0, RunFrom(job, next, offset + job.chunk))
    decreases |job.source| - offset, 0
  {
    RunOnRecord(job, rows0, next, offset + job.chunk);
  }

  /** Every write of a copy is on record, from the table it found to the table it leaves, at most a chunk at a time. */
  lemma WritesOnRecord(job: Job, rows: seq<Row>)
    requires job.chunk > 0
    ensures OnRecord(job, rows, RunFrom(job, Begin(rows), 0))
  {
    RunOnRecord(job, rows, Begin(rows), 0);
  }

  // ---- runs that end early ----

  /** The exchange of this chunk is lost, or one of its rows does not bind. */
  predicate Breaks(job: Job, o: nat) {
    job.faults.chunkIo(o) != Steady || !AllBind(job.cfg.columns, Window(job.source, job.chunk, o))
  }

  ghost predicate BreaksFrom(job: Job, offset: nat)
    requires job.chunk > 0
  {
    exists o: nat :: offset <= o < |job.source| && IsOffset(job.chunk, o) && Breaks(job, o)
  }

  lemma {:induction false} RetryKeepsAborted(job: Job, st: Progress, offset: nat, batch: seq<Row>, i: nat)
    ensures RetryFrom(job, st, offset, batch, i).aborted == st.aborted
    decreases |batch| - i
  {
    if i < |batch| {
      RetryKeepsAborted(job, RetryStep(job, st, offset + i, batch[i]), offset, batch, i + 1);
    }
  }

  lemma ChunkAborts(job: Job, st: Progress, offset: nat)
    requires !st.aborted
    ensures ChunkStep(job, st, offset).aborted <==> Breaks(job, offset)
  {
    var page := Window(job.source, job.chunk, offset);
    if AllBind(job.cfg.columns, page) {
      RetryKeepsAborted(job, st, offset, ConvertAll(job.cfg.columns, page), 0);
    }
  }

  lemma {:induction false} RunAborts(job: Job, st: Progress, offset: nat)
    requires job.chunk > 0 && IsOffset(job.chunk, offset) && !st.aborted
    ensures RunFrom(job, st, offset).aborted <==> BreaksFrom(job, offset)
    decreases |job.source| - offset
  {
    if offset < |job.source| {
      var next := ChunkStep(job, st, offset);
      RunUnfolds(job, st, offset);
      ChunkAborts(job, st, offset);
      if !next.aborted {
        RunAborts(job, next, offset + job.chunk);
        NextBreak(job, offset);
      }
    }
  }

  lemma NextBreak(job: Job, offset: nat)
    requires job.chunk > 0 && IsOffset(job.chunk, offset) && !Breaks(job, offset)
    ensures BreaksFrom(job, offset) <==> BreaksFrom(job, offset + job.chunk)
  {
    if BreaksFrom(job, offset) {
      var o: nat :| offset <= o < |job.source| && IsOffset(job.chunk, o) && Breaks(job, o);
      OffsetsApart(job.chunk, offset, o);
    }
  }

  /** A table is given up exactly when some chunk's exchange is lost or some row does not bind. */
  lemma AbortExact(job: Job, rows: seq<Row>)
    requires job.chunk > 0
    ensures RunFrom(job, Begin(rows), 0).aborted <==> BreaksFrom(job, 0)
  {
    RunAborts(job, Begin(rows), 0);
  }

  // ---- retries repair transactions ----

  /** Every exchange but inserts inside transactions works. */
  ghost predicate RetriesWork(job: Job) {
    (forall k :: job.faults.alone(k) == Steady) && forall o :: job.faults.chunkIo(o) == Steady
  }

  lemma LoadableNeverConflicts(job: Job, rows: seq<Row>, skipped: set<nat>, k: nat)
    requires Loadable(job.cfg, job.source) && k < |job.source| && (job.resume || rows == [])
    ensures !Conflicts(job, rows, skipped, k)
  {
    var conv := Converted(job);
    PutAllExtends(job.cfg, rows, conv[..k], skipped);
    var before := Before(job, rows, skipped, k);
    if !job.resume {
      forall i | 0 <= i < |before|
        ensures Key(job.cfg, before[i]) != Key(job.cfg, conv[k])
      {
        assert before[i] in before && before[i] in conv[..k];
        var j :| 0 <= j < k && conv[..k][j] == before[i];
        assert conv[j] == before[i];
      }
    }
  }

  /**
   * Whatever goes wrong inside transactions, the row-by-row retries repair it:
   * a loadable source ends up in the target in full and counts as migrated in full.
   */
  lemma RetriesComplete(job: Job, slot: Slot)
    requires job.chunk > 0 && SlotInv(job.cfg, job.source, slot) && (job.resume || slot.rows == [])
    requires Loadable(job.cfg, job.source) && RetriesWork(job)
    ensures var st := RunFrom(job, Begin(slot.rows), 0);
            && !st.aborted && st.migrated == |job.source| && FailedRows(st.errors) == {}
            && SameContent(job.cfg, job.source, st.rows)
  {
    var st := RunFrom(job, Begin(slot.rows), 0);
    AbortExact(job, slot.rows);
    forall o: nat | o < |job.source|
      ensures !Breaks(job, o)
    {
      WindowIsBatch(job, o);
    }
    FinishedCopyConserves(job, slot.rows);
    forall k: nat | k < |job.source|
      ensures k !in FailedRows(st.errors)
    {
      var o := ChunkOf(job.chunk, k);
      FailuresExact(job, slot.rows, o, k);
      LoadableNeverConflicts(job, slot.rows, Refused(st), k);
    }
    NothingRefused(job, slot);
  }

  function ChunkOf(chunk: nat, k: nat): (o: nat)
    requires chunk > 0
    ensures IsOffset(chunk, o) && o <= k < o + chunk
  {
    if k < chunk then 0 else ChunkOf(chunk, k - chunk) + chunk
  }

  lemma NothingRefused(job: Job, slot: Slot)
    requires job.chunk > 0 && SlotInv(job.cfg, job.source, slot) && Loadable(job.cfg, job.source)
    requires !RunFrom(job, Begin(slot.rows), 0).aborted
    requires forall k: nat | k < |job.source| :: k !in FailedRows(RunFrom(job, Begin(slot.rows), 0).errors)
    ensures var st := RunFrom(job, Begin(slot.rows), 0);
            FailedRows(st.errors) == {} && st.migrated == |job.source| && SameContent(job.cfg, job.source, st.rows)
  {
    var st := RunFrom(job, Begin(slot.rows), 0);
    BeginRefines(job, slot.rows);
    RunRefines(job, slot.rows, Begin(slot.rows), 0);
    assert FailedRows(st.errors) == {};
    RunKeepsInv(job, slot);
    SettledIsFront(job, |job.source|);
    var conv := Converted(job);
    assert conv[..|job.source|] == conv;
    forall r | r in conv
      ensures Taken(job.cfg, st.rows, r)
    {
      var k :| 0 <= k < |conv| && conv[k] == r;
    }
    forall r | r in st.rows
      ensures r in conv
    {
      FromSourceIsConverted(job.cfg.columns, job.source, r);
    }
    FullByKeys(job.cfg, job.source, st.rows);
  }
}
