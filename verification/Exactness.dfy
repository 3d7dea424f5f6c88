/**
 * When handling a table succeeds: exact conditions, checkable before the run,
 * for a run in which nothing fails.
 */
module Exactness {
  import opened Wrappers
  import opened Seqs
  import opened Rows
  import opened CanonicalText
  import opened Digest
  import opened Transfer
  import opened Migration
  import opened TableTheorems

  ghost predicate FaultFree(f: TableFaults) {
    && (forall k :: !f.inTransaction(k))
    && (forall offset :: f.chunkIo(offset) == Steady)
    && !f.validation && !f.sourceHash && !f.targetHash && f.checkpoint == Steady
  }

  // ---- transactions that commit ----

  /** A transaction that commits has offered every row of its chunk. */
  lemma {:induction false} CommittedTx(job: Job, start: seq<Row>, tx: Tx, offset: nat, batch: seq<Row>, i: nat)
    requires i <= |batch| && (tx.ok ==> tx.rows == PutAll(job.cfg, start, batch[..i], {}))
    ensures var last := TxFrom(job, tx, offset, batch, i);
            last.ok ==> tx.ok && last.rows == PutAll(job.cfg, start, batch, {})
    decreases |batch| - i
  {
    if i < |batch| {
      assert batch[..i + 1][..i] == batch[..i];
      CommittedTx(job, start, TxStep(job, tx, offset + i, batch[i]), offset, batch, i + 1);
    } else {
      assert batch[..i] == batch;
    }
  }

  /** Rows that no later insert can trip over. */
  ghost predicate Insertable(job: Job, rows: seq<Row>, batch: seq<Row>) {
    && (forall i | 0 <= i < |batch| :: !NullKey(job.cfg, batch[i]))
    && (job.resume || (KeysUnique(job.cfg, batch) && forall i | 0 <= i < |batch| :: !Taken(job.cfg, rows, batch[i])))
  }

  lemma {:induction false} TxCommits(job: Job, tx: Tx, offset: nat, batch: seq<Row>, i: nat)
    requires FaultFree(job.faults) && tx.ok && i <= |batch| && Insertable(job, tx.rows, batch[i..])
    ensures TxFrom(job, tx, offset, batch, i).ok
    decreases |batch| - i
  {
    if i < |batch| {
      var rest := batch[i..];
      assert rest[0] == batch[i];
      var next := TxStep(job, tx, offset + i, batch[i]);
      InsertableTail(job, tx.rows, rest);
      assert rest[1..] == batch[i + 1..];
      TxCommits(job, next, offset, batch, i + 1);
    }
  }

  lemma InsertableTail(job: Job, rows: seq<Row>, rest: seq<Row>)
    requires rest != [] && Insertable(job, rows, rest)
    ensures Insertable(job, Put(job.cfg, rows, rest[0]), rest[1..])
  {
    if !job.resume {
      forall j | 0 <= j < |rest[1..]|
        ensures !Taken(job.cfg, rows + [rest[0]], rest[1..][j])
      {
        assert rest[1..][j] == rest[j + 1];
        assert !Taken(job.cfg, rows, rest[j + 1]);
      }
    }
  }

  // ---- errors and whole chunks ----

  /** The states of the table when each chunk commits as one. */
  function WholeChunks(job: Job, rows: seq<Row>, offset: nat): seq<seq<Row>>
    requires job.chunk > 0 && AllBind(job.cfg.columns, job.source)
    decreases |job.source| - offset
  {
    if offset >= |job.source| then []
    else
      var next := PutAll(job.cfg, rows, ConvertPage(job, offset), {});
      [next] + WholeChunks(job, next, offset + job.chunk)
  }

  function ConvertPage(job: Job, offset: nat): seq<Row>
    requires AllBind(job.cfg.columns, job.source)
  {
    PageBinds(job, offset);
    ConvertAll(job.cfg.columns, Window(job.source, job.chunk, offset))
  }

  lemma PageBinds(job: Job, offset: nat)
    requires AllBind(job.cfg.columns, job.source)
    ensures AllBind(job.cfg.columns, Window(job.source, job.chunk, offset))
  {
    var page := Window(job.source, job.chunk, offset);
    forall i | 0 <= i < |page|
      ensures Binds(job.cfg.columns, page[i])
    {
      assert page[i] == job.source[offset + i];
    }
  }

  lemma {:induction false} RetryKeepsErrors(job: Job, st: Progress, offset: nat, batch: seq<Row>, i: nat)
    ensures st.errors <= RetryFrom(job, st, offset, batch, i).errors
    decreases |batch| - i
  {
    if i < |batch| {
      RetryKeepsErrors(job, RetryStep(job, st, offset + i, batch[i]), offset, batch, i + 1);
    }
  }

  lemma {:induction false} FailedTxReports(job: Job, tx: Tx, offset: nat, batch: seq<Row>, i: nat)
    requires !tx.ok ==> tx.errors != []
    ensures !TxFrom(job, tx, offset, batch, i).ok ==> TxFrom(job, tx, offset, batch, i).errors != []
    decreases |batch| - i
  {
    if i < |batch| {
      FailedTxReports(job, TxStep(job, tx, offset + i, batch[i]), offset, batch, i + 1);
    }
  }

  lemma ErrorFreeChunk(job: Job, st: Progress, offset: nat)
    requires AllBind(job.cfg.columns, job.source) && !st.aborted
    ensures var next := ChunkStep(job, st, offset);
            && st.errors <= next.errors
            && (!next.aborted && next.errors == [] ==>
                  var rows := PutAll(job.cfg, st.rows, ConvertPage(job, offset), {});
                  next.rows == rows && next.trace == st.trace + [rows])
  {
    PageBinds(job, offset);
    if job.faults.chunkIo(offset) != LostBefore {
      var batch := ConvertPage(job, offset);
      var start := Tx(st.rows, true, []);
      CommittedTx(job, st.rows, start, offset, batch, 0);
      FailedTxReports(job, start, offset, batch, 0);
      RetryKeepsErrors(job, st, offset, batch, 0);
    }
  }

  lemma {:induction false} RunKeepsErrors(job: Job, st: Progress, offset: nat)
    requires job.chunk > 0 && AllBind(job.cfg.columns, job.source)
    ensures st.errors <= RunFrom(job, st, offset).errors
    decreases |job.source| - offset
  {
    if !st.aborted && offset < |job.source| {
      ErrorFreeChunk(job, st, offset);
      RunKeepsErrors(job, ChunkStep(job, st, offset), offset + job.chunk);
    }
  }

  /** A run that ends without errors had none at any point before. */
  lemma CleanAllAlong(job: Job, st: Progress, offset: nat)
    requires job.chunk > 0 && AllBind(job.cfg.columns, job.source)
    requires !RunFrom(job, st, offset).aborted && RunFrom(job, st, offset).errors == []
    ensures !st.aborted && st.errors == []
  {
    RunKeepsErrors(job, st, offset);
  }

  lemma WholeChunk(job: Job, st: Progress, offset: nat, next: Progress)
    requires job.chunk > 0 && AllBind(job.cfg.columns, job.source)
    requires !st.aborted && offset < |job.source| && next == ChunkStep(job, st, offset)
    requires !next.aborted && next.errors == []
    ensures next.trace == st.trace + [next.rows]
    ensures WholeChunks(job, st.rows, offset) == [next.rows] + WholeChunks(job, next.rows, offset + job.chunk)
  {
    ErrorFreeChunk(job, st, offset);
    WholeChunksUnfold(job, st.rows, offset, next.rows);
  }

  lemma WholeChunksUnfold(job: Job, rows: seq<Row>, offset: nat, next: seq<Row>)
    requires job.chunk > 0 && AllBind(job.cfg.columns, job.source) && offset < |job.source|
    requires next == PutAll(job.cfg, rows, ConvertPage(job, offset), {})
    ensures WholeChunks(job, rows, offset) == [next] + WholeChunks(job, next, offset + job.chunk)
  {
  }

  ghost predicate EndsClean(job: Job, st: Progress, offset: nat)
    requires job.chunk > 0
  {
    !RunFrom(job, st, offset).aborted && RunFrom(job, st, offset).errors == []
  }

  /** One chunk of a table that ends clean. */
  lemma CleanUnfolds(job: Job, st: Progress, offset: nat, next: Progress)
    requires job.chunk > 0 && AllBind(job.cfg.columns, job.source) && EndsClean(job, st, offset)
    requires offset < |job.source| && next == ChunkStep(job, st, offset)
    ensures RunFrom(job, st, offset) == RunFrom(job, next, offset + job.chunk) && EndsClean(job, next, offset + job.chunk)
    ensures next.trace == st.trace + [next.rows]
    ensures WholeChunks(job, st.rows, offset) == [next.rows] + WholeChunks(job, next.rows, offset + job.chunk)
  {
    CleanAllAlong(job, st, offset);
    RunUnfolds(job, st, offset);
    CleanAllAlong(job, next, offset + job.chunk);
    WholeChunk(job, st, offset, next);
  }

  lemma Longer<T>(trace: seq<T>, x: T, rest: seq<T>)
    ensures trace + [x] + rest == trace + ([x] + rest)
  {
  }

  /** A finished table without errors went through whole chunks only: every retry leaves an error behind. */
  lemma {:induction false} NoErrorsWholeChunks(job: Job, st: Progress, offset: nat)
    requires job.chunk > 0 && AllBind(job.cfg.columns, job.source) && EndsClean(job, st, offset)
    ensures RunFrom(job, st, offset).trace == st.trace + WholeChunks(job, st.rows, offset)
    decreases |job.source| - offset
  {
    if offset < |job.source| {
      var next := ChunkStep(job, st, offset);
      CleanUnfolds(job, st, offset, next);
      NoErrorsWholeChunks(job, next, offset + job.chunk);
      Longer(st.trace, next.rows, WholeChunks(job, next.rows, offset + job.chunk));
    }
  }

  // ---- when a copy finishes without errors ----

  /** The converted source rows not yet settled. */
  function Pending(job: Job, offset: nat): seq<Row>
    requires AllBind(job.cfg.columns, job.source)
  {
    if offset < |job.source| then ConvertAll(job.cfg.columns, job.source)[offset..] else []
  }

  lemma CleanChunk(job: Job, st: Progress, offset: nat)
    requires FaultFree(job.faults) && AllBind(job.cfg.columns, job.source)
    requires !st.aborted && st.errors == [] && Insertable(job, st.rows, ConvertPage(job, offset))
    ensures var next := ChunkStep(job, st, offset);
            && !next.aborted && next.errors == []
            && next.rows == PutAll(job.cfg, st.rows, ConvertPage(job, offset), {})
  {
    var batch, start := ConvertPage(job, offset), Tx(st.rows, true, []);
    PageBinds(job, offset);
    assert batch[0..] == batch;
    TxCommits(job, start, offset, batch, 0);
    CommittedTx(job, st.rows, start, offset, batch, 0);
    assert job.faults.chunkIo(offset) == Steady;
  }

  /** A page is the front of what is pending, and the next page starts where it ends. */
  lemma PendingSplits(job: Job, offset: nat)
    requires job.chunk > 0 && AllBind(job.cfg.columns, job.source) && offset < |job.source|
    ensures var page, pending := ConvertPage(job, offset), Pending(job, offset);
            && |page| <= |pending| && page == pending[..|page|]
            && pending[|page|..] == Pending(job, offset + job.chunk)
  {
  }

  /** Nothing has gone wrong and nothing ahead can. */
  ghost predicate Smooth(job: Job, st: Progress, offset: nat)
    requires AllBind(job.cfg.columns, job.source)
  {
    !st.aborted && st.errors == [] && Insertable(job, st.rows, Pending(job, offset))
  }

  lemma CleanStep(job: Job, st: Progress, offset: nat, next: Progress)
    requires job.chunk > 0 && FaultFree(job.faults) && AllBind(job.cfg.columns, job.source) && offset < |job.source|
    requires Smooth(job, st, offset) && next == ChunkStep(job, st, offset)
    ensures Smooth(job, next, offset + job.chunk)
  {
    var page, pending := ConvertPage(job, offset), Pending(job, offset);
    PendingSplits(job, offset);
    InsertablePrefix(job, st.rows, pending, |page|);
    CleanChunk(job, st, offset);
    InsertableAfter(job, st.rows, pending, |page|);
  }

  lemma {:induction false} CleanRun(job: Job, st: Progress, offset: nat)
    requires job.chunk > 0 && FaultFree(job.faults) && AllBind(job.cfg.columns, job.source)
    requires Smooth(job, st, offset)
    ensures EndsClean(job, st, offset)
    decreases |job.source| - offset, 1
  {
    if offset < |job.source| {
      var next := ChunkStep(job, st, offset);
      CleanStep(job, st, offset, next);
      RunUnfolds(job, st, offset);
      CleanRest(job, next, offset);
    }
  }

  lemma {:induction false} CleanRest(job: Job, next: Progress, offset: nat)
    requires job.chunk > 0 && FaultFree(job.faults) && AllBind(job.cfg.columns, job.source) && offset < |job.source|
    requires Smooth(job, next, offset + job.chunk)
    ensures EndsClean(job, next, offset + job.chunk)
    decreases |job.source| - offset, 0
  {
    CleanRun(job, next, offset + job.chunk);
  }

  lemma InsertablePrefix(job: Job, rows: seq<Row>, pending: seq<Row>, n: nat)
    requires n <= |pending| && Insertable(job, rows, pending)
    ensures Insertable(job, rows, pending[..n])
  {
  }

  lemma InsertableAfter(job: Job, rows: seq<Row>, pending: seq<Row>, n: nat)
    requires n <= |pending| && Insertable(job, rows, pending)
    ensures Insertable(job, PutAll(job.cfg, rows, pending[..n], {}), pending[n..])
  {
    var next := PutAll(job.cfg, rows, pending[..n], {});
    PutAllExtends(job.cfg, rows, pending[..n], {});
    if !job.resume {
      forall j | 0 <= j < |pending[n..]|
        ensures !Taken(job.cfg, next, pending[n..][j])
      {
        assert pending[n..][j] == pending[n + j];
        assert !Taken(job.cfg, rows, pending[n + j]);
        forall i | 0 <= i < |next|
          ensures Key(job.cfg, next[i]) != Key(job.cfg, pending[n + j])
        {
          assert next[i] in next;
          if next[i] in pending[..n] {
            var k :| 0 <= k < n && pending[..n][k] == next[i];
            assert pending[k] == next[i];
          } else {
            var k :| 0 <= k < |rows| && rows[k] == next[i];
          }
        }
      }
    }
  }

  /** What a copy that finished without errors has done, whatever could have failed. */
  lemma FinishedCopy(job: Job, rows: seq<Row>)
    requires job.chunk > 0
    requires !RunFrom(job, Begin(rows), 0).aborted && RunFrom(job, Begin(rows), 0).errors == []
    ensures AllBind(job.cfg.columns, job.source)
    ensures var last, conv := RunFrom(job, Begin(rows), 0).rows, ConvertAll(job.cfg.columns, job.source);
            && rows <= last
            && (KeysUnique(job.cfg, rows) ==> KeysUnique(job.cfg, last))
            && (forall r | r in last :: r in rows || r in conv)
            && (forall r | r in conv :: Taken(job.cfg, last, r) && !NullKey(job.cfg, r))
  {
    BeginRefines(job, rows);
    RunRefines(job, rows, Begin(rows), 0);
    var st := RunFrom(job, Begin(rows), 0);
    assert job.source[..|job.source|] == job.source;
    PutAllExtends(job.cfg, rows, Settled(job, st.done), Refused(st));
    assert FailedRows(st.errors) == {};
    forall r | r in ConvertAll(job.cfg.columns, job.source)
      ensures Taken(job.cfg, st.rows, r) && !NullKey(job.cfg, r)
    {
      var k :| 0 <= k < |job.source| && ConvertAll(job.cfg.columns, job.source)[k] == r;
      assert Settled(job, st.done)[k] == r;
    }
  }

  // ---- the exact condition, from a state the tool itself produced ----

  /** Where the invariant holds, a copy without errors of a count that matches is the whole source. */
  lemma CountedIsComplete(cfg: TableConfig, source: seq<StoredRow>, rows: seq<Row>)
    requires AllBind(cfg.columns, source) && KeysUnique(cfg, rows) && |rows| == |source|
    requires forall r | r in rows :: FromSource(cfg.columns, source, r)
    ensures SameContent(cfg, source, rows) && Loadable(cfg, source)
  {
    forall r | r in rows
      ensures r in ConvertAll(cfg.columns, source)
    {
      FromSourceIsConverted(cfg.columns, source, r);
    }
    FullByCount(cfg, source, rows);
    KeysUniquePermutes(cfg, rows, ConvertAll(cfg.columns, source));
  }

  lemma LoadableCopies(job: Job, slot: Slot)
    requires job.chunk > 0 && FaultFree(job.faults) && SlotInv(job.cfg, job.source, slot)
    requires (job.resume || slot.rows == []) && Loadable(job.cfg, job.source)
    ensures EndsClean(job, Begin(slot.rows), 0)
    ensures SameContent(job.cfg, job.source, RunFrom(job, Begin(slot.rows), 0).rows)
  {
    var st := RunFrom(job, Begin(slot.rows), 0);
    RunKeepsInv(job, slot);
    var conv := ConvertAll(job.cfg.columns, job.source);
    assert Pending(job, 0) == conv;
    CleanRun(job, Begin(slot.rows), 0);
    FinishedCopy(job, slot.rows);
    forall r | r in st.rows
      ensures r in conv
    {
      FromSourceIsConverted(job.cfg.columns, job.source, r);
    }
    FullByKeys(job.cfg, job.source, st.rows);
  }

  lemma CopyFromInvExact(job: Job, sha: Sha, slot: Slot)
    requires job.chunk > 0 && FaultFree(job.faults) && SlotInv(job.cfg, job.source, slot)
    requires job.resume || slot.rows == []
    ensures var h := MigrateSlot(job, sha, slot);
            && (h.ok <==> Loadable(job.cfg, job.source))
            && (h.ok ==> SameContent(job.cfg, job.source, h.slot.rows))
  {
    CopyOk(job, sha, slot);
    var st := RunFrom(job, Begin(slot.rows), 0);
    RunKeepsInv(job, slot);
    if Loadable(job.cfg, job.source) {
      LoadableCopies(job, slot);
      SameContentValidates(sha, job.cfg, job.source, st.rows);
    }
    if MigrateSlot(job, sha, slot).ok {
      FinishedCopy(job, slot.rows);
      CountedIsComplete(job.cfg, job.source, st.rows);
    }
  }

  lemma SkipFromInvExact(job: Job, sha: Sha, slot: Slot)
    requires FaultFree(job.faults) && SlotInv(job.cfg, job.source, slot) && Skips(job, slot)
    ensures SkipSlot(slot, Revalidate(job, sha, slot.rows)).ok
    ensures Loadable(job.cfg, job.source) && SameContent(job.cfg, job.source, slot.rows)
  {
    MarkedIsComplete(job.cfg, job.source, slot);
    SameContentValidates(sha, job.cfg, job.source, slot.rows);
    SkipSlotOk(job, sha, slot);
  }

  /**
   * From any state that keeps the invariant, handling a table with nothing
   * failing succeeds exactly when the source is loadable, and then leaves the
   * target with exactly the source's rows and a checkpoint of their number.
   */
  lemma HandleFromInvExact(job: Job, sha: Sha, slot: Slot)
    requires job.chunk > 0 && FaultFree(job.faults) && SlotInv(job.cfg, job.source, slot)
    requires job.resume || slot.rows == []
    ensures var h := HandleTable(job, sha, slot);
            && (h.ok <==> Loadable(job.cfg, job.source))
            && (h.ok ==> SameContent(job.cfg, job.source, h.slot.rows) && h.slot.checkpoint == Some(|job.source|))
  {
    HandleCases(job, sha, slot);
    OkIsClean(job, sha, slot);
    if Skips(job, slot) {
      SkipFromInvExact(job, sha, slot);
    } else {
      CopyFromInvExact(job, sha, if job.resume then Cleared(slot) else slot);
    }
  }

  // ---- the exact condition, from an arbitrary target ----

  /** What the target schema guarantees of any table, and rows that are not taken for others. */
  ghost predicate Readable(cfg: TableConfig, rows: seq<Row>) {
    && ColumnNames(cfg.columns)
    && forall r | r in rows :: WellTypedRow(cfg.columns, r) && !Ambiguous(cfg.columns, r)
  }

  ghost predicate ReadableSource(cfg: TableConfig, source: seq<StoredRow>) {
    AllBind(cfg.columns, source) ==> Readable(cfg, ConvertAll(cfg.columns, source))
  }

  lemma ReadableTexts(cfg: TableConfig, rows: seq<Row>)
    requires Readable(cfg, rows)
    ensures TargetTexts(cfg, rows).Some?
  {
    var views := Map(TargetViews, rows);
    forall i | 0 <= i < |rows|
      ensures CanonicalRow(cfg.columns, views[i]).Some?
    {
      assert rows[i] in rows;
      WellTypedRowCanonicalises(cfg.columns, rows[i]);
    }
  }

  /** Equal canonical texts, row for row, are equal rows. */
  lemma SameTextsSameContent(cfg: TableConfig, source: seq<StoredRow>, rows: seq<Row>)
    requires Readable(cfg, rows) && ReadableSource(cfg, source)
    ensures SameTexts(cfg, source, rows) <==> SameContent(cfg, source, rows)
  {
    ConvertedTexts(cfg, source);
    ReadableTexts(cfg, rows);
    if AllBind(cfg.columns, source) {
      var conv := ConvertAll(cfg.columns, source);
      TextsOfRows(cfg, rows);
      TextsOfRows(cfg, conv);
      var text := (r: Row) => RowText(cfg.columns, r);
      forall a, b | a in rows + conv && b in rows + conv
        ensures text(a) == text(b) ==> a == b
      {
        SameTextSameRow(cfg, a, b);
      }
      if SameTexts(cfg, source, rows) {
        MapCancel(text, rows, conv);
      }
      if SameContent(cfg, source, rows) {
        MapPermutation(text, rows, conv);
      }
    }
  }

  lemma SameTextSameRow(cfg: TableConfig, a: Row, b: Row)
    requires Readable(cfg, [a, b])
    ensures RowText(cfg.columns, a) == RowText(cfg.columns, b) ==> a == b
  {
    var rows := [a, b];
    assert a in rows && b in rows;
    ReadableTexts(cfg, rows);
    var views := Map(TargetViews, rows);
    assert CanonicalRow(cfg.columns, views[0]).Some? && CanonicalRow(cfg.columns, views[1]).Some?;
    if RowText(cfg.columns, a) == RowText(cfg.columns, b) {
      CanonicalRowInjective(cfg.columns, a, b);
    }
  }

  /** The condition an operator could check before resuming on a target of unknown origin. */
  ghost predicate Resumable(cfg: TableConfig, source: seq<StoredRow>, slot: Slot) {
    && Loadable(cfg, source)
    && (if slot.checkpoint == Some(|source|) then SameContent(cfg, source, slot.rows)
        else forall r | r in slot.rows :: r in ConvertAll(cfg.columns, source))
  }

  lemma CopyFromAnywhereExact(job: Job, sha: Sha, slot: Slot)
    requires job.chunk > 0 && FaultFree(job.faults) && job.resume
    requires KeysUnique(job.cfg, slot.rows) && Readable(job.cfg, slot.rows) && ReadableSource(job.cfg, job.source)
    requires NoCollision(sha, job.cfg, job.source, MigrateSlot(job, sha, slot).slot.rows)
    ensures var h := MigrateSlot(job, sha, slot);
            && (h.ok <==> Loadable(job.cfg, job.source)
                          && forall r | r in slot.rows :: r in ConvertAll(job.cfg.columns, job.source))
            && (h.ok ==> SameContent(job.cfg, job.source, h.slot.rows))
  {
    CopyOk(job, sha, slot);
    var h, st := MigrateSlot(job, sha, slot), RunFrom(job, Begin(slot.rows), 0);
    if Loadable(job.cfg, job.source) && (forall r | r in slot.rows :: r in ConvertAll(job.cfg.columns, job.source)) {
      assert Pending(job, 0) == ConvertAll(job.cfg.columns, job.source);
      CleanRun(job, Begin(slot.rows), 0);
      FinishedCopy(job, slot.rows);
      FullByKeys(job.cfg, job.source, st.rows);
      SameContentValidates(sha, job.cfg, job.source, st.rows);
    }
    if h.ok {
      FinishedCopy(job, slot.rows);
      assert Readable(job.cfg, st.rows);
      HashesMatchExact(sha, job.cfg, job.source, st.rows);
      SameTextsSameContent(job.cfg, job.source, st.rows);
      KeysUniquePermutes(job.cfg, st.rows, ConvertAll(job.cfg.columns, job.source));
      forall r | r in slot.rows
        ensures r in ConvertAll(job.cfg.columns, job.source)
      {
        assert r in st.rows;
        assert r in multiset(st.rows);
      }
    }
  }

  /**
   * From an arbitrary target a resumed table succeeds, with nothing failing,
   * exactly when it is resumable; in particular a foreign row under a source
   * key and a checkpoint over wrong content are never accepted.
   */
  lemma ResumeFromAnywhereExact(job: Job, sha: Sha, slot: Slot)
    requires job.chunk > 0 && FaultFree(job.faults) && job.resume
    requires KeysUnique(job.cfg, slot.rows) && Readable(job.cfg, slot.rows) && ReadableSource(job.cfg, job.source)
    requires NoCollision(sha, job.cfg, job.source, HandleTable(job, sha, slot).slot.rows)
    ensures var h := HandleTable(job, sha, slot);
            && (h.ok <==> Resumable(job.cfg, job.source, slot))
            && (h.ok ==> SameContent(job.cfg, job.source, h.slot.rows))
  {
    HandleCases(job, sha, slot);
    if Skips(job, slot) {
      SkipSlotOk(job, sha, slot);
      HashesMatchExact(sha, job.cfg, job.source, slot.rows);
      SameTextsSameContent(job.cfg, job.source, slot.rows);
      if SameContent(job.cfg, job.source, slot.rows) {
        SameContentValidates(sha, job.cfg, job.source, slot.rows);
        KeysUniquePermutes(job.cfg, slot.rows, ConvertAll(job.cfg.columns, job.source));
      }
    } else {
      CopyFromAnywhereExact(job, sha, Cleared(slot));
    }
  }

  /**
   * A checkpoint that carries the source's count over other content is a dead
   * end: no resumed run, whatever does or does not fail in it, changes the
   * table or its checkpoint, and none reports success.
   */
  lemma WrongCheckpointIsStuck(job: Job, sha: Sha, slot: Slot)
    requires job.chunk > 0 && job.resume && slot.checkpoint == Some(|job.source|)
    requires NoCollision(sha, job.cfg, job.source, slot.rows) && !SameTexts(job.cfg, job.source, slot.rows)
    ensures var h := HandleTable(job, sha, slot);
            h.slot == slot && h.trace == [] && !h.ok
  {
    HandleCases(job, sha, slot);
    SkipSlotOk(job, sha, slot);
    HashesMatchExact(sha, job.cfg, job.source, slot.rows);
  }
}
