/** What handling one table guarantees, on every path and under every fault. */
module TableTheorems {
  import opened Wrappers
  import opened Seqs
  import opened Rows
  import opened Digest
  import opened Transfer
  import opened Migration

  // ---- source and target rows ----

  /** The target row is the conversion of some source row. */
  ghost predicate FromSource(columns: seq<string>, source: seq<StoredRow>, row: Row) {
    exists s | s in source :: Binds(columns, s) && Convert(columns, s) == row
  }

  /** A source the target can hold in full: every row binds and the keys are unique and not null. */
  ghost predicate Loadable(cfg: TableConfig, source: seq<StoredRow>) {
    AllBind(cfg.columns, source) && KeysUnique(cfg, ConvertAll(cfg.columns, source))
  }

  /** The target holds exactly the converted source, row for row, in some order. */
  ghost predicate SameContent(cfg: TableConfig, source: seq<StoredRow>, rows: seq<Row>) {
    AllBind(cfg.columns, source) && multiset(rows) == multiset(ConvertAll(cfg.columns, source))
  }

  lemma FromSourceIsConverted(columns: seq<string>, source: seq<StoredRow>, row: Row)
    requires AllBind(columns, source)
    ensures FromSource(columns, source, row) <==> row in ConvertAll(columns, source)
  {
    var conv := ConvertAll(columns, source);
    if FromSource(columns, source, row) {
      var s :| s in source && Binds(columns, s) && Convert(columns, s) == row;
      var k :| 0 <= k < |source| && source[k] == s;
      assert conv[k] == row;
    }
    if row in conv {
      var k :| 0 <= k < |conv| && conv[k] == row;
      assert source[k] in source;
    }
  }

  lemma UniqueKeysDistinctRows(cfg: TableConfig, rows: seq<Row>)
    requires KeysUnique(cfg, rows)
    ensures Distinct(rows)
  {
  }

  lemma KeysUniquePermutes(cfg: TableConfig, a: seq<Row>, b: seq<Row>)
    requires multiset(a) == multiset(b) && KeysUnique(cfg, a)
    ensures KeysUnique(cfg, b)
  {
    assert forall x :: x in multiset(a) <==> x in a;
    assert forall x :: x in multiset(b) <==> x in b;
    forall i | 0 <= i < |b|
      ensures !NullKey(cfg, b[i])
    {
      assert b[i] in a;
    }
    UniqueKeysDistinctRows(cfg, a);
    DistinctPermutes(a, b);
    forall i, j | 0 <= i < j < |b|
      ensures Key(cfg, b[i]) != Key(cfg, b[j])
    {
      assert b[i] in a && b[j] in a;
    }
  }

  /** Rows with unique keys drawn from the source fill it as soon as they are as many. */
  lemma FullByCount(cfg: TableConfig, source: seq<StoredRow>, rows: seq<Row>)
    requires AllBind(cfg.columns, source) && KeysUnique(cfg, rows)
    requires forall r | r in rows :: r in ConvertAll(cfg.columns, source)
    requires |rows| >= |source|
    ensures SameContent(cfg, source, rows)
  {
    var conv := ConvertAll(cfg.columns, source);
    UniqueKeysDistinctRows(cfg, rows);
    DistinctSub(rows, conv);
    SubOfSameSize(multiset(rows), multiset(conv));
  }

  /** ... or as soon as every source key is present. */
  lemma FullByKeys(cfg: TableConfig, source: seq<StoredRow>, rows: seq<Row>)
    requires Loadable(cfg, source) && KeysUnique(cfg, rows)
    requires forall r | r in rows :: r in ConvertAll(cfg.columns, source)
    requires forall r | r in ConvertAll(cfg.columns, source) :: Taken(cfg, rows, r)
    ensures SameContent(cfg, source, rows)
  {
    var conv := ConvertAll(cfg.columns, source);
    forall r | r in conv
      ensures r in rows
    {
      var i :| 0 <= i < |rows| && Key(cfg, rows[i]) == Key(cfg, r);
      assert rows[i] in conv;
    }
    UniqueKeysDistinctRows(cfg, rows);
    UniqueKeysDistinctRows(cfg, conv);
    DistinctSub(rows, conv);
    DistinctSub(conv, rows);
  }

  // ---- digests and ids of equal content ----

  function RowText(columns: seq<string>, row: Row): string {
    CanonicalRow(columns, TargetViews(row)).GetOr("")
  }

  lemma TextsOfRows(cfg: TableConfig, rows: seq<Row>)
    requires TargetTexts(cfg, rows).Some?
    ensures TargetTexts(cfg, rows).value == Map((r: Row) => RowText(cfg.columns, r), rows)
  {
    var views := Map(TargetViews, rows);
    assert forall i | 0 <= i < |rows| :: CanonicalRow(cfg.columns, views[i]) == Some(TargetTexts(cfg, rows).value[i]);
  }

  /** The converted source reads as the source does. */
  lemma ConvertedTexts(cfg: TableConfig, source: seq<StoredRow>)
    ensures SourceTexts(cfg, source).Some? <==> AllBind(cfg.columns, source)
    ensures AllBind(cfg.columns, source) ==>
              TargetTexts(cfg, ConvertAll(cfg.columns, source)) == SourceTexts(cfg, source)
  {
    var views := Map(SourceViews, source);
    forall i | 0 <= i < |source|
      ensures CanonicalRow(cfg.columns, views[i]).Some? <==> Binds(cfg.columns, source[i])
    {
      ConversionKeepsText(cfg.columns, source[i]);
    }
    if AllBind(cfg.columns, source) {
      var conv := ConvertAll(cfg.columns, source);
      var targets := Map(TargetViews, conv);
      forall i | 0 <= i < |source|
        ensures CanonicalRow(cfg.columns, targets[i]) == CanonicalRow(cfg.columns, views[i])
      {
        ConversionKeepsText(cfg.columns, source[i]);
      }
      assert Texts(cfg.columns, targets).value == Texts(cfg.columns, views).value;
    }
  }

  lemma PermutedTexts(cfg: TableConfig, a: seq<Row>, b: seq<Row>)
    requires multiset(a) == multiset(b) && TargetTexts(cfg, a).Some?
    ensures TargetTexts(cfg, b).Some?
    ensures multiset(TargetTexts(cfg, a).value) == multiset(TargetTexts(cfg, b).value)
  {
    var va, vb := Map(TargetViews, a), Map(TargetViews, b);
    forall i | 0 <= i < |b|
      ensures CanonicalRow(cfg.columns, vb[i]).Some?
    {
      assert b[i] in multiset(b);
      var k := IndexOf(a, b[i]);
      assert va[k] == vb[i];
    }
    TextsOfRows(cfg, a);
    TextsOfRows(cfg, b);
    MapPermutation((r: Row) => RowText(cfg.columns, r), a, b);
  }

  /** Equal content passes all three comparisons, whatever the hash function. */
  lemma SameContentValidates(sha: Sha, cfg: TableConfig, source: seq<StoredRow>, rows: seq<Row>)
    requires SameContent(cfg, source, rows)
    ensures |rows| == |source|
    ensures IdsMatch(cfg, source, rows)
    ensures HashesMatch(SourceDigest(sha, cfg, source), TargetDigest(sha, cfg, rows))
  {
    var conv := ConvertAll(cfg.columns, source);
    assert |multiset(rows)| == |multiset(conv)|;
    ConvertedTexts(cfg, source);
    PermutedTexts(cfg, conv, rows);
    DigestOrderFree(sha, SourceTexts(cfg, source).value, TargetTexts(cfg, rows).value);
    if cfg.idColumn.Some? {
      var id := cfg.idColumn.value;
      ConvertedIds(cfg, id, source);
      PermutedIds(id, conv, rows);
    }
  }

  lemma ConvertedIds(cfg: TableConfig, id: nat, source: seq<StoredRow>)
    requires AllBind(cfg.columns, source)
    ensures SourceIds(id, source) == TargetIds(id, ConvertAll(cfg.columns, source))
  {
    var conv: seq<Row> := ConvertAll(cfg.columns, source);
    forall k | 0 <= k < |source|
      ensures (id < |source[k]| && source[k][id].Text?) <==> (id < |conv[k]| && conv[k][id].Str?)
      ensures id < |source[k]| && source[k][id].Text? ==> conv[k][id].str == source[k][id].s
    {
      assert Binds(cfg.columns, source[k]);
      if id < |source[k]| {
        assert ConvertCell(cfg.columns[id], source[k][id]).Some?;
      }
    }
  }

  lemma PermutedIds(id: nat, a: seq<Row>, b: seq<Row>)
    requires multiset(a) == multiset(b)
    ensures TargetIds(id, a) == TargetIds(id, b)
  {
    IdsCarryOver(id, a, b);
    IdsCarryOver(id, b, a);
  }

  lemma IdsCarryOver(id: nat, a: seq<Row>, b: seq<Row>)
    requires multiset(a) == multiset(b)
    ensures TargetIds(id, a) <= TargetIds(id, b)
  {
    forall s | s in TargetIds(id, a)
      ensures s in TargetIds(id, b)
    {
      var k :| 0 <= k < |a| && id < |a[k]| && a[k][id].Str? && a[k][id].str == s;
      assert a[k] in multiset(a);
      var j := IndexOf(b, a[k]);
    }
  }

  // ---- soundness: what a clean result proves ----

  /** The hash function has no collision on the texts of these two tables. */
  ghost predicate NoCollision(sha: Sha, cfg: TableConfig, source: seq<StoredRow>, rows: seq<Row>) {
    && HexDigests(sha)
    && (SourceTexts(cfg, source).Some? && TargetTexts(cfg, rows).Some? ==>
          CollisionFree(sha, SourceTexts(cfg, source).value, TargetTexts(cfg, rows).value))
  }

  /** Both tables canonicalise and hold each canonical text equally often. */
  ghost predicate SameTexts(cfg: TableConfig, source: seq<StoredRow>, rows: seq<Row>) {
    && SourceTexts(cfg, source).Some? && TargetTexts(cfg, rows).Some?
    && multiset(SourceTexts(cfg, source).value) == multiset(TargetTexts(cfg, rows).value)
  }

  lemma HashesMatchExact(sha: Sha, cfg: TableConfig, source: seq<StoredRow>, rows: seq<Row>)
    requires NoCollision(sha, cfg, source, rows)
    ensures HashesMatch(SourceDigest(sha, cfg, source), TargetDigest(sha, cfg, rows)) <==> SameTexts(cfg, source, rows)
  {
    if SourceTexts(cfg, source).Some? && TargetTexts(cfg, rows).Some? {
      DigestExact(sha, SourceTexts(cfg, source).value, TargetTexts(cfg, rows).value);
    }
  }

  /** When a copied table is counted as a success. */
  lemma CopyOk(job: Job, sha: Sha, slot: Slot)
    requires job.chunk > 0
    ensures var st, h := RunFrom(job, Begin(slot.rows), 0), MigrateSlot(job, sha, slot);
            && (h.ok <==> h.result.ValidationClean())
            && (h.ok ==> (job.resume || slot.rows == []) && h.slot == Slot(st.rows, Some(|job.source|)))
            && (job.resume || slot.rows == [] ==>
                 (h.ok <==>
                    && !st.aborted && st.errors == [] && |st.rows| == |job.source|
                    && IdsMatch(job.cfg, job.source, st.rows)
                    && HashesMatch(SourceDigest(sha, job.cfg, job.source), TargetDigest(sha, job.cfg, st.rows))
                    && !job.faults.validation && !job.faults.targetHash && job.faults.checkpoint == Steady))
  {
    ConcludeOk(job, slot, MigrateTable(job, sha, slot.rows));
    if job.resume || slot.rows == [] {
      var st := RunFrom(job, Begin(slot.rows), 0);
      CopyResultClean(job, st, SourceDigest(sha, job.cfg, job.source),
                      if job.faults.targetHash then None else TargetDigest(sha, job.cfg, st.rows));
    }
  }

  lemma ConcludeOk(job: Job, slot: Slot, copied: Copied)
    ensures var h := Conclude(job, slot, copied);
            && (h.ok <==> h.result.ValidationClean())
            && (h.ok <==> copied.result.Some? && copied.result.value.ValidationClean() && job.faults.checkpoint == Steady)
            && (h.ok ==> h.slot == Slot(copied.rows, Some(|job.source|)))
  {
  }

  lemma CopyResultClean(job: Job, st: Progress, source: Option<string>, target: Option<string>)
    ensures CopyResult(job, st, source, target).ValidationClean() <==>
              && st.errors == [] && |st.rows| == |job.source|
              && IdsMatch(job.cfg, job.source, st.rows) && HashesMatch(source, target)
  {
  }

  /** When a skipped table is counted as a success. */
  lemma SkipOk(job: Job, slot: Slot, source: Option<string>, target: Option<string>)
    ensures var h := SkipSlot(slot, SkipResult(job, slot.rows, source, target));
            && (h.ok <==> h.result.ValidationClean())
            && (h.ok <==> |slot.rows| == |job.source| && HashesMatch(source, target))
  {
  }

  lemma SkipSlotOk(job: Job, sha: Sha, slot: Slot)
    ensures var h := SkipSlot(slot, Revalidate(job, sha, slot.rows));
            && (h.ok <==> h.result.ValidationClean())
            && (h.ok <==>
                 && |slot.rows| == |job.source| && !job.faults.sourceHash && !job.faults.targetHash
                 && HashesMatch(SourceDigest(sha, job.cfg, job.source), TargetDigest(sha, job.cfg, slot.rows)))
  {
    SkipOk(job, slot, if job.faults.sourceHash then None else SourceDigest(sha, job.cfg, job.source),
           if job.faults.targetHash then None else TargetDigest(sha, job.cfg, slot.rows));
  }

  /** The slot a resumed copy starts from: there was no checkpoint, or a stale one that has been deleted. */
  function Cleared(slot: Slot): Slot {
    slot.(checkpoint := None)
  }

  function Skips(job: Job, slot: Slot): bool {
    job.resume && slot.checkpoint == Some(|job.source|)
  }

  lemma HandleCases(job: Job, sha: Sha, slot: Slot)
    requires job.chunk > 0
    ensures Skips(job, slot) ==> HandleTable(job, sha, slot) == SkipSlot(slot, Revalidate(job, sha, slot.rows))
    ensures !Skips(job, slot) ==>
              var start := if job.resume then Cleared(slot) else slot;
              var h, m := HandleTable(job, sha, slot), MigrateSlot(job, sha, start);
              && start.rows == slot.rows && h.slot == m.slot && h.result == m.result && h.ok == m.ok
              && h.trace == (if start == slot then m.trace else [start] + m.trace)
  {
  }

  /**
   * A table is counted as a success exactly when its reported result is clean.
   * It then carries the source's count as its checkpoint and matches the
   * source's count and digest, from any start and on any path.
   */
  lemma OkIsClean(job: Job, sha: Sha, slot: Slot)
    requires job.chunk > 0
    ensures var h := HandleTable(job, sha, slot);
            && (h.ok <==> h.result.ValidationClean())
            && (h.ok ==> h.slot.checkpoint == Some(|job.source|) && |h.slot.rows| == |job.source|
                         && HashesMatch(SourceDigest(sha, job.cfg, job.source), TargetDigest(sha, job.cfg, h.slot.rows)))
  {
    HandleCases(job, sha, slot);
    if Skips(job, slot) {
      SkipSlotOk(job, sha, slot);
    } else {
      CopyOk(job, sha, if job.resume then Cleared(slot) else slot);
    }
  }

  /** Without collisions a success means the target holds the source's canonical rows, each as often. */
  lemma SuccessIsSound(job: Job, sha: Sha, slot: Slot)
    requires job.chunk > 0
    requires HandleTable(job, sha, slot).ok
    requires NoCollision(sha, job.cfg, job.source, HandleTable(job, sha, slot).slot.rows)
    ensures SameTexts(job.cfg, job.source, HandleTable(job, sha, slot).slot.rows)
  {
    OkIsClean(job, sha, slot);
    HashesMatchExact(sha, job.cfg, job.source, HandleTable(job, sha, slot).slot.rows);
  }

  // ---- the invariant of every step ----

  /**
   * Rows come from the source and have unique keys; a checkpoint never
   * promises more rows than the table holds. The last part is what stays true
   * when the source grows between runs.
   */
  ghost predicate SlotInv(cfg: TableConfig, source: seq<StoredRow>, slot: Slot) {
    && KeysUnique(cfg, slot.rows)
    && (forall r | r in slot.rows :: FromSource(cfg.columns, source, r))
    && (slot.checkpoint.Some? ==> slot.checkpoint.value <= |slot.rows|)
  }

  /** On a source that does not change, a checkpoint is the source's count. */
  ghost predicate Marked(source: seq<StoredRow>, slot: Slot) {
    slot.checkpoint.Some? ==> slot.checkpoint.value == |source|
  }

  /** Then a checkpointed table is complete. */
  lemma MarkedIsComplete(cfg: TableConfig, source: seq<StoredRow>, slot: Slot)
    requires SlotInv(cfg, source, slot) && slot.checkpoint == Some(|source|)
    ensures Loadable(cfg, source) && SameContent(cfg, source, slot.rows)
  {
    if !AllBind(cfg.columns, source) {
      // Fewer rows bind than the checkpoint promises.
      var k :| 0 <= k < |source| && !Binds(cfg.columns, source[k]);
      MissesOne(cfg, source, k, slot.rows);
    }
    forall r | r in slot.rows
      ensures r in ConvertAll(cfg.columns, source)
    {
      FromSourceIsConverted(cfg.columns, source, r);
    }
    FullByCount(cfg, source, slot.rows);
    KeysUniquePermutes(cfg, slot.rows, ConvertAll(cfg.columns, source));
  }

  /** The rows that bind, in order. */
  function Bound(columns: seq<string>, source: seq<StoredRow>): (r: seq<StoredRow>)
    ensures AllBind(columns, r)
    ensures |r| <= |source|
    ensures !AllBind(columns, source) ==> |r| < |source|
    ensures forall s | s in source && Binds(columns, s) :: s in r
  {
    if source == [] then []
    else
      var n := |source| - 1;
      var front := Bound(columns, source[..n]);
      assert source == source[..n] + [source[n]];
      if Binds(columns, source[n]) then
        assert AllBind(columns, source[..n]) ==> AllBind(columns, source);
        front + [source[n]]
      else front
  }

  lemma MissesOne(cfg: TableConfig, source: seq<StoredRow>, k: nat, rows: seq<Row>)
    requires k < |source| && !Binds(cfg.columns, source[k])
    requires KeysUnique(cfg, rows) && forall r | r in rows :: FromSource(cfg.columns, source, r)
    ensures |rows| < |source|
  {
    var bound := Bound(cfg.columns, source);
    var conv := ConvertAll(cfg.columns, bound);
    forall r | r in rows
      ensures r in conv
    {
      var s :| s in source && Binds(cfg.columns, s) && Convert(cfg.columns, s) == r;
      assert FromSource(cfg.columns, bound, r);
      FromSourceIsConverted(cfg.columns, bound, r);
    }
    UniqueKeysDistinctRows(cfg, rows);
    DistinctSub(rows, conv);
    assert |multiset(rows)| <= |multiset(conv)| by {
      assert multiset(conv) == multiset(rows) + (multiset(conv) - multiset(rows));
    }
  }

  /** A state of the table between its start and its end keeps the invariant with the old checkpoint. */
  lemma BetweenKeepsInv(cfg: TableConfig, source: seq<StoredRow>, slot: Slot, last: seq<Row>, rows: seq<Row>)
    requires SlotInv(cfg, source, slot) && slot.rows <= rows <= last
    requires KeysUnique(cfg, last) && forall r | r in last :: FromSource(cfg.columns, source, r)
    ensures SlotInv(cfg, source, slot.(rows := rows))
  {
    forall i | 0 <= i < |rows|
      ensures rows[i] == last[i]
    {
    }
  }

  lemma RunKeepsInv(job: Job, slot: Slot)
    requires job.chunk > 0 && SlotInv(job.cfg, job.source, slot)
    ensures var st := RunFrom(job, Begin(slot.rows), 0);
            && slot.rows <= st.rows && KeysUnique(job.cfg, st.rows)
            && (forall r | r in st.rows :: FromSource(job.cfg.columns, job.source, r))
            && (forall i | 0 <= i < |st.trace| :: slot.rows <= st.trace[i] <= st.rows)
  {
    var st := RunFrom(job, Begin(slot.rows), 0);
    BeginRefines(job, slot.rows);
    RunRefines(job, slot.rows, Begin(slot.rows), 0);
    var settled := Settled(job, st.done);
    PutAllExtends(job.cfg, slot.rows, settled, Refused(st));
    forall r | r in st.rows
      ensures FromSource(job.cfg.columns, job.source, r)
    {
      if r in settled {
        var k :| 0 <= k < |settled| && settled[k] == r;
        assert job.source[..st.done][k] == job.source[k];
        assert job.source[k] in job.source && Binds(job.cfg.columns, job.source[k]);
      }
    }
  }

  /** The invariant holds in every listed state, and checkpoints stay exact if they were. */
  ghost predicate KeepsInv(job: Job, slot: Slot, h: Handled) {
    && SlotInv(job.cfg, job.source, h.slot)
    && (forall i | 0 <= i < |h.trace| :: SlotInv(job.cfg, job.source, h.trace[i]))
    && (Marked(job.source, slot) ==> Marked(job.source, h.slot))
    && (Marked(job.source, slot) ==> forall i | 0 <= i < |h.trace| :: Marked(job.source, h.trace[i]))
  }

  lemma ConcludeKeepsInv(job: Job, slot: Slot, copied: Copied)
    requires SlotInv(job.cfg, job.source, slot.(rows := copied.rows))
    requires forall i | 0 <= i < |copied.trace| :: SlotInv(job.cfg, job.source, slot.(rows := copied.trace[i]))
    requires copied.result.Some? && copied.result.value.countMatch ==> |copied.rows| == |job.source|
    ensures KeepsInv(job, slot, Conclude(job, slot, copied))
  {
  }

  lemma MigrateKeepsInv(job: Job, sha: Sha, slot: Slot)
    requires job.chunk > 0 && SlotInv(job.cfg, job.source, slot)
    ensures KeepsInv(job, slot, MigrateSlot(job, sha, slot))
  {
    var copied := MigrateTable(job, sha, slot.rows);
    if job.resume || slot.rows == [] {
      RunKeepsInv(job, slot);
      BetweenKeepsInv(job.cfg, job.source, slot, copied.rows, copied.rows);
      forall i | 0 <= i < |copied.trace|
        ensures SlotInv(job.cfg, job.source, slot.(rows := copied.trace[i]))
      {
        BetweenKeepsInv(job.cfg, job.source, slot, copied.rows, copied.trace[i]);
      }
    }
    ConcludeKeepsInv(job, slot, copied);
  }

  /** Every state a table passes through, under any fault and on any path, keeps the invariant. */
  lemma HandleKeepsInv(job: Job, sha: Sha, slot: Slot)
    requires job.chunk > 0 && SlotInv(job.cfg, job.source, slot)
    ensures KeepsInv(job, slot, HandleTable(job, sha, slot))
  {
    HandleCases(job, sha, slot);
    if !Skips(job, slot) {
      MigrateKeepsInv(job, sha, if job.resume then Cleared(slot) else slot);
    }
  }
}
