/**
 * Whole runs and sequences of runs: what every crash leaves behind, what a
 * reported success proves, and what one complete resumed run achieves.
 */
module Convergence {
  import opened Wrappers
  import opened Seqs
  import opened Rows
  import opened Digest
  import opened Transfer
  import opened Migration
  import opened TableTheorems
  import opened Exactness

  // ---- a run, table by table ----

  lemma {:induction false} RunTablesPointwise(handle: Handler, st: RunState, cfgs: seq<TableConfig>, i: nat)
    requires DistinctTables(cfgs) && i <= |cfgs|
    ensures var last := RunTables(handle, st, cfgs, i);
            && (forall k | i <= k < |cfgs| ::
                  cfgs[k].name in last.db && last.db[cfgs[k].name] == handle(cfgs[k], SlotOf(st.db, cfgs[k].name)).slot)
            && |last.tables| == |st.tables| + |cfgs| - i
            && st.tables <= last.tables
            && (forall k | i <= k < |cfgs| ::
                  last.tables[|st.tables| + k - i] == handle(cfgs[k], SlotOf(st.db, cfgs[k].name)).result)
            && (last.success <==> st.success && forall k | i <= k < |cfgs| :: handle(cfgs[k], SlotOf(st.db, cfgs[k].name)).ok)
    decreases |cfgs| - i
  {
    if i < |cfgs| {
      var next := StepTable(st, cfgs[i], handle(cfgs[i], SlotOf(st.db, cfgs[i].name)));
      RunTablesPointwise(handle, next, cfgs, i + 1);
      assert forall k | i < k < |cfgs| :: SlotOf(next.db, cfgs[k].name) == SlotOf(st.db, cfgs[k].name);
      var last := RunTables(handle, st, cfgs, i);
      RunTablesFrame(handle, next, cfgs, i + 1, cfgs[i].name);
      assert last.tables[|st.tables|] == next.tables[|st.tables|];
    }
  }

  /** A table already handled is left alone. */
  lemma {:induction false} RunTablesFrame(handle: Handler, st: RunState, cfgs: seq<TableConfig>, i: nat, name: string)
    requires name in st.db && forall k | i <= k < |cfgs| :: cfgs[k].name != name
    ensures name in RunTables(handle, st, cfgs, i).db && RunTables(handle, st, cfgs, i).db[name] == st.db[name]
    decreases |cfgs| - i
  {
    if i < |cfgs| {
      RunTablesFrame(handle, StepTable(st, cfgs[i], handle(cfgs[i], SlotOf(st.db, cfgs[i].name))), cfgs, i + 1, name);
    }
  }

  function Handle(env: Env, db: Db, cfg: TableConfig): Handled
    requires env.chunk > 0
  {
    HandlerOf(env)(cfg, SlotOf(db, cfg.name))
  }

  // ---- reports ----

  ghost predicate Reports(out: Outcome) {
    out.report.Some? && out.report.value.overallSuccess
  }

  /** The run produces a report of overall success. */
  ghost predicate Succeeds(env: Env, cfgs: seq<TableConfig>, db: Db)
    requires env.chunk > 0
  {
    Reports(RunMigration(env, cfgs, db))
  }

  /** A run that gets past its preflight, in terms of its tables. */
  lemma RunPointwise(handle: Handler, resume: bool, sequences: bool, cfgs: seq<TableConfig>, db: Db)
    requires DistinctTables(cfgs) && (resume || TargetEmpty(db, cfgs))
    ensures var out := RunWith(handle, resume, sequences, cfgs, db);
            && out.report.Some?
            && (Reports(out) <==> !sequences && forall k | 0 <= k < |cfgs| :: handle(cfgs[k], SlotOf(db, cfgs[k].name)).ok)
            && |out.report.value.tables| == |cfgs| + (if sequences then 1 else 0)
            && (forall k | 0 <= k < |cfgs| ::
                  && cfgs[k].name in out.db && out.db[cfgs[k].name] == handle(cfgs[k], SlotOf(db, cfgs[k].name)).slot
                  && out.report.value.tables[k] == handle(cfgs[k], SlotOf(db, cfgs[k].name)).result)
            && (sequences ==> !out.report.value.tables[|cfgs|].ValidationClean())
  {
    RunTablesPointwise(handle, Start(db), cfgs, 0);
  }

  /** Overall success is reported exactly when every reported entry is clean, on every run. */
  lemma SuccessIffAllClean(env: Env, cfgs: seq<TableConfig>, db: Db)
    requires env.chunk > 0 && DistinctTables(cfgs)
    requires RunMigration(env, cfgs, db).report.Some?
    ensures var report := RunMigration(env, cfgs, db).report.value;
            report.overallSuccess <==> forall i | 0 <= i < |report.tables| :: report.tables[i].ValidationClean()
  {
    HandledCleanly(env, cfgs, db);
    CleanEntries(HandlerOf(env), env.resume, env.sequences, cfgs, db);
  }

  lemma HandledCleanly(env: Env, cfgs: seq<TableConfig>, db: Db)
    requires env.chunk > 0
    ensures forall k | 0 <= k < |cfgs| ::
              var h := HandlerOf(env)(cfgs[k], SlotOf(db, cfgs[k].name)); h.ok <==> h.result.ValidationClean()
  {
    forall k | 0 <= k < |cfgs|
      ensures var h := HandlerOf(env)(cfgs[k], SlotOf(db, cfgs[k].name)); h.ok <==> h.result.ValidationClean()
    {
      OkIsClean(JobOf(env, cfgs[k]), env.sha, SlotOf(db, cfgs[k].name));
    }
  }

  lemma CleanEntries(handle: Handler, resume: bool, sequences: bool, cfgs: seq<TableConfig>, db: Db)
    requires DistinctTables(cfgs) && RunWith(handle, resume, sequences, cfgs, db).report.Some?
    requires forall k | 0 <= k < |cfgs| ::
               var h := handle(cfgs[k], SlotOf(db, cfgs[k].name)); h.ok <==> h.result.ValidationClean()
    ensures var report := RunWith(handle, resume, sequences, cfgs, db).report.value;
            report.overallSuccess <==> forall i | 0 <= i < |report.tables| :: report.tables[i].ValidationClean()
  {
    RunPointwise(handle, resume, sequences, cfgs, db);
    var out := RunWith(handle, resume, sequences, cfgs, db);
    var tables := out.report.value.tables;
    if forall i | 0 <= i < |tables| :: tables[i].ValidationClean() {
      forall k | 0 <= k < |cfgs|
        ensures handle(cfgs[k], SlotOf(db, cfgs[k].name)).ok
      {
        assert tables[k].ValidationClean();
      }
    }
    if Reports(out) {
      forall i | 0 <= i < |tables|
        ensures tables[i].ValidationClean()
      {
        assert handle(cfgs[i], SlotOf(db, cfgs[i].name)).ok;
      }
    }
  }

  /**
   * From any target, with any rows and checkpoints in it: if an applied run
   * reports success then each table holds the source's canonical rows, each
   * as often as the source, and its checkpoint is the source's count.
   */
  lemma ReportedSuccessIsSound(env: Env, cfgs: seq<TableConfig>, db: Db)
    requires env.chunk > 0 && DistinctTables(cfgs) && Succeeds(env, cfgs, db)
    requires var last := RunMigration(env, cfgs, db).db;
             forall i | 0 <= i < |cfgs| ::
               NoCollision(env.sha, cfgs[i], SourceOf(env.source, cfgs[i].name), SlotOf(last, cfgs[i].name).rows)
    ensures var last := RunMigration(env, cfgs, db).db;
            forall i | 0 <= i < |cfgs| ::
              && SameTexts(cfgs[i], SourceOf(env.source, cfgs[i].name), SlotOf(last, cfgs[i].name).rows)
              && SlotOf(last, cfgs[i].name).checkpoint == Some(|SourceOf(env.source, cfgs[i].name)|)
  {
    RunPointwise(HandlerOf(env), env.resume, env.sequences, cfgs, db);
    forall i | 0 <= i < |cfgs|
      ensures var slot := SlotOf(RunMigration(env, cfgs, db).db, cfgs[i].name);
              && SameTexts(cfgs[i], SourceOf(env.source, cfgs[i].name), slot.rows)
              && slot.checkpoint == Some(|SourceOf(env.source, cfgs[i].name)|)
    {
      var job, slot := JobOf(env, cfgs[i]), SlotOf(db, cfgs[i].name);
      OkIsClean(job, env.sha, slot);
      SuccessIsSound(job, env.sha, slot);
    }
  }

  // ---- the invariant over runs, crashes and source growth ----

  ghost predicate DbInv(source: Source, cfgs: seq<TableConfig>, db: Db) {
    forall i | 0 <= i < |cfgs| :: SlotInv(cfgs[i], SourceOf(source, cfgs[i].name), SlotOf(db, cfgs[i].name))
  }

  ghost predicate DbMarked(source: Source, cfgs: seq<TableConfig>, db: Db) {
    forall i | 0 <= i < |cfgs| :: Marked(SourceOf(source, cfgs[i].name), SlotOf(db, cfgs[i].name))
  }

  ghost predicate Keeps(source: Source, cfgs: seq<TableConfig>, marked: bool, db: Db) {
    DbInv(source, cfgs, db) && (marked ==> DbMarked(source, cfgs, db))
  }

  lemma SetSlotKeeps(source: Source, cfgs: seq<TableConfig>, marked: bool, db: Db, i: nat, slot: Slot)
    requires DistinctTables(cfgs) && i < |cfgs| && Keeps(source, cfgs, marked, db)
    requires SlotInv(cfgs[i], SourceOf(source, cfgs[i].name), slot)
    requires marked ==> Marked(SourceOf(source, cfgs[i].name), slot)
    ensures Keeps(source, cfgs, marked, db[cfgs[i].name := slot])
  {
    var next := db[cfgs[i].name := slot];
    forall k | 0 <= k < |cfgs|
      ensures SlotOf(next, cfgs[k].name) == if k == i then slot else SlotOf(db, cfgs[k].name)
    {
    }
  }

  /** Every handled table keeps the invariant in every state it passes through. */
  ghost predicate KeepingHandler(handle: Handler, source: Source, cfgs: seq<TableConfig>, marked: bool) {
    forall i, slot | 0 <= i < |cfgs| && SlotInv(cfgs[i], SourceOf(source, cfgs[i].name), slot)
                     && (marked ==> Marked(SourceOf(source, cfgs[i].name), slot)) ::
      HandledKeeps(cfgs[i], SourceOf(source, cfgs[i].name), marked, handle(cfgs[i], slot))
  }

  ghost predicate HandledKeeps(cfg: TableConfig, source: seq<StoredRow>, marked: bool, h: Handled) {
    && SlotInv(cfg, source, h.slot) && (marked ==> Marked(source, h.slot))
    && forall k | 0 <= k < |h.trace| :: SlotInv(cfg, source, h.trace[k]) && (marked ==> Marked(source, h.trace[k]))
  }

  lemma HandlerOfKeeps(env: Env, cfgs: seq<TableConfig>, marked: bool)
    requires env.chunk > 0
    ensures KeepingHandler(HandlerOf(env), env.source, cfgs, marked)
  {
    forall i, slot | 0 <= i < |cfgs| && SlotInv(cfgs[i], SourceOf(env.source, cfgs[i].name), slot)
                     && (marked ==> Marked(SourceOf(env.source, cfgs[i].name), slot))
      ensures HandledKeeps(cfgs[i], SourceOf(env.source, cfgs[i].name), marked, HandlerOf(env)(cfgs[i], slot))
    {
      var job := JobOf(env, cfgs[i]);
      HandleKeepsInv(job, env.sha, slot);
      KeepsMeans(job, slot, marked, HandleTable(job, env.sha, slot));
    }
  }

  lemma KeepsMeans(job: Job, slot: Slot, marked: bool, h: Handled)
    requires KeepsInv(job, slot, h) && (marked ==> Marked(job.source, slot))
    ensures HandledKeeps(job.cfg, job.source, marked, h)
  {
  }

  lemma StepKeeps(source: Source, st: RunState, cfgs: seq<TableConfig>, i: nat, marked: bool, h: Handled)
    requires DistinctTables(cfgs) && i < |cfgs| && Keeps(source, cfgs, marked, st.db)
    requires forall k | 0 <= k < |st.trace| :: Keeps(source, cfgs, marked, st.trace[k])
    requires HandledKeeps(cfgs[i], SourceOf(source, cfgs[i].name), marked, h)
    ensures var next := StepTable(st, cfgs[i], h);
            && Keeps(source, cfgs, marked, next.db)
            && (forall k | 0 <= k < |next.trace| :: Keeps(source, cfgs, marked, next.trace[k]))
  {
    SetSlotKeeps(source, cfgs, marked, st.db, i, h.slot);
    forall k | 0 <= k < |h.trace|
      ensures Keeps(source, cfgs, marked, st.db[cfgs[i].name := h.trace[k]])
    {
      SetSlotKeeps(source, cfgs, marked, st.db, i, h.trace[k]);
    }
  }

  lemma {:induction false} RunTablesKeeps(handle: Handler, source: Source, st: RunState, cfgs: seq<TableConfig>,
                                          i: nat, marked: bool)
    requires DistinctTables(cfgs) && i <= |cfgs| && KeepingHandler(handle, source, cfgs, marked)
    requires Keeps(source, cfgs, marked, st.db)
    requires forall k | 0 <= k < |st.trace| :: Keeps(source, cfgs, marked, st.trace[k])
    ensures var last := RunTables(handle, st, cfgs, i);
            && Keeps(source, cfgs, marked, last.db)
            && (forall k | 0 <= k < |last.trace| :: Keeps(source, cfgs, marked, last.trace[k]))
    decreases |cfgs| - i
  {
    if i < |cfgs| {
      var h := handle(cfgs[i], SlotOf(st.db, cfgs[i].name));
      StepKeeps(source, st, cfgs, i, marked, h);
      RunTablesKeeps(handle, source, StepTable(st, cfgs[i], h), cfgs, i + 1, marked);
    }
  }

  /** The source and the target between runs. */
  datatype World = World(source: Source, db: Db)

  /** Rows are added to the source, or an applied run is started and dies after some number of writes. */
  datatype Event =
    | Grow(source: Source)
    | Run(chunk: nat, resume: bool, faults: string -> TableFaults, sequences: bool, writes: nat)

  ghost predicate Possible(cfgs: seq<TableConfig>, w: World, e: Event) {
    match e
    case Grow(source) =>
      forall i | 0 <= i < |cfgs| :: multiset(SourceOf(w.source, cfgs[i].name)) <= multiset(SourceOf(source, cfgs[i].name))
    case Run(chunk, _, _, _, _) => ValidChunkSize(chunk)
  }

  function EnvOf(sha: Sha, source: Source, e: Event): Env
    requires e.Run?
  {
    Env(sha, source, e.chunk, e.resume, e.faults, e.sequences)
  }

  /** A run that is not cut short ends in its last state; one that is ends in an earlier one. */
  function Cut(db: Db, out: Outcome, writes: nat): Db {
    if writes == 0 then db else if writes <= |out.trace| then out.trace[writes - 1] else out.db
  }

  function Happen(sha: Sha, cfgs: seq<TableConfig>, w: World, e: Event): World
    requires e.Run? ==> e.chunk > 0
  {
    match e
    case Grow(source) => World(source, w.db)
    case Run(_, _, _, _, writes) =>
      World(w.source, Cut(w.db, RunMigration(EnvOf(sha, w.source, e), cfgs, w.db), writes))
  }

  ghost predicate History(sha: Sha, cfgs: seq<TableConfig>, worlds: seq<World>, events: seq<Event>) {
    && |worlds| == |events| + 1
    && forall i | 0 <= i < |events| ::
         Possible(cfgs, worlds[i], events[i]) && worlds[i + 1] == Happen(sha, cfgs, worlds[i], events[i])
  }

  /** An empty target without checkpoints. */
  predicate Fresh(cfgs: seq<TableConfig>, db: Db) {
    forall i | 0 <= i < |cfgs| :: SlotOf(db, cfgs[i].name) == Slot([], None)
  }

  /** Every state of a run, the first and the last included. */
  lemma RunKeeps(handle: Handler, resume: bool, sequences: bool, source: Source, cfgs: seq<TableConfig>, db: Db, marked: bool)
    requires DistinctTables(cfgs) && KeepingHandler(handle, source, cfgs, marked) && Keeps(source, cfgs, marked, db)
    ensures var out := RunWith(handle, resume, sequences, cfgs, db);
            && Keeps(source, cfgs, marked, out.db)
            && forall k | 0 <= k < |out.trace| :: Keeps(source, cfgs, marked, out.trace[k])
  {
    RunTablesKeeps(handle, source, Start(db), cfgs, 0, marked);
  }

  lemma CutRunKeeps(env: Env, cfgs: seq<TableConfig>, db: Db, writes: nat, marked: bool)
    requires env.chunk > 0 && DistinctTables(cfgs) && Keeps(env.source, cfgs, marked, db)
    ensures Keeps(env.source, cfgs, marked, Cut(db, RunMigration(env, cfgs, db), writes))
  {
    HandlerOfKeeps(env, cfgs, marked);
    RunKeeps(HandlerOf(env), env.resume, env.sequences, env.source, cfgs, db, marked);
  }

  lemma DbGrowthKeeps(cfgs: seq<TableConfig>, source: Source, more: Source, db: Db)
    requires DbInv(source, cfgs, db)
    requires forall i | 0 <= i < |cfgs| :: multiset(SourceOf(source, cfgs[i].name)) <= multiset(SourceOf(more, cfgs[i].name))
    ensures DbInv(more, cfgs, db)
  {
    forall i | 0 <= i < |cfgs|
      ensures SlotInv(cfgs[i], SourceOf(more, cfgs[i].name), SlotOf(db, cfgs[i].name))
    {
      GrowthKeepsInv(cfgs[i], SourceOf(source, cfgs[i].name), SourceOf(more, cfgs[i].name), SlotOf(db, cfgs[i].name));
    }
  }

  lemma HappenKeeps(sha: Sha, cfgs: seq<TableConfig>, w: World, e: Event, marked: bool)
    requires DistinctTables(cfgs) && Possible(cfgs, w, e) && Keeps(w.source, cfgs, marked, w.db)
    requires marked ==> e.Run?
    ensures var next := Happen(sha, cfgs, w, e);
            Keeps(next.source, cfgs, marked, next.db)
  {
    match e
    case Grow(source) => DbGrowthKeeps(cfgs, w.source, source, w.db);
    case Run(_, _, _, _, writes) => CutRunKeeps(EnvOf(sha, w.source, e), cfgs, w.db, writes, marked);
  }

  lemma GrowthKeepsInv(cfg: TableConfig, source: seq<StoredRow>, more: seq<StoredRow>, slot: Slot)
    requires multiset(source) <= multiset(more) && SlotInv(cfg, source, slot)
    ensures SlotInv(cfg, more, slot)
  {
    forall r | r in slot.rows
      ensures FromSource(cfg.columns, more, r)
    {
      var s :| s in source && Binds(cfg.columns, s) && Convert(cfg.columns, s) == r;
      assert s in multiset(source) && s in multiset(more);
      assert s in more;
    }
  }

  /**
   * The invariant of every reachable state: after any sequence of runs with
   * any faults, each cut off after any write, and any growth of the source,
   * every target table is a subset of the converted source with unique keys.
   */
  lemma {:induction false} EveryStateKeepsInv(sha: Sha, cfgs: seq<TableConfig>, worlds: seq<World>, events: seq<Event>)
    requires DistinctTables(cfgs) && History(sha, cfgs, worlds, events) && Fresh(cfgs, worlds[0].db)
    ensures forall i | 0 <= i < |worlds| :: DbInv(worlds[i].source, cfgs, worlds[i].db)
    ensures (forall e | e in events :: e.Run?) ==>
              forall i | 0 <= i < |worlds| ::
                worlds[i].source == worlds[0].source && DbMarked(worlds[i].source, cfgs, worlds[i].db)
    decreases |events|
  {
    if events == [] {
      forall i | 0 <= i < |cfgs|
        ensures SlotInv(cfgs[i], SourceOf(worlds[0].source, cfgs[i].name), Slot([], None))
      {
      }
    } else {
      var n := |events| - 1;
      EveryStateKeepsInv(sha, cfgs, worlds[..n + 1], events[..n]);
      assert worlds[..n + 1][n] == worlds[n] && worlds[..n + 1][0] == worlds[0];
      assert events[n] in events;
      var fixed := forall e | e in events :: e.Run?;
      assert forall e | e in events[..n] :: e in events;
      HappenKeeps(sha, cfgs, worlds[n], events[n], fixed);
      forall i | 0 <= i < |worlds|
        ensures DbInv(worlds[i].source, cfgs, worlds[i].db)
        ensures fixed ==> worlds[i].source == worlds[0].source && DbMarked(worlds[i].source, cfgs, worlds[i].db)
      {
        if i <= n {
          assert worlds[..n + 1][i] == worlds[i];
        }
      }
    }
  }

  /** On a source that never changes, a checkpoint exists only over a complete copy and carries its size. */
  lemma CheckpointMeansComplete(sha: Sha, cfgs: seq<TableConfig>, worlds: seq<World>, events: seq<Event>, w: nat, i: nat)
    requires DistinctTables(cfgs) && History(sha, cfgs, worlds, events) && Fresh(cfgs, worlds[0].db)
    requires forall e | e in events :: e.Run?
    requires w < |worlds| && i < |cfgs|
    requires SlotOf(worlds[w].db, cfgs[i].name).checkpoint.Some?
    ensures var source, slot := SourceOf(worlds[0].source, cfgs[i].name), SlotOf(worlds[w].db, cfgs[i].name);
            slot.checkpoint.value == |source| && SameContent(cfgs[i], source, slot.rows)
  {
    EveryStateKeepsInv(sha, cfgs, worlds, events);
    assert DbInv(worlds[w].source, cfgs, worlds[w].db) && DbMarked(worlds[w].source, cfgs, worlds[w].db);
    MarkedIsComplete(cfgs[i], SourceOf(worlds[w].source, cfgs[i].name), SlotOf(worlds[w].db, cfgs[i].name));
  }

  // ---- convergence ----

  ghost predicate Healthy(env: Env) {
    (forall t :: FaultFree(env.faults(t))) && !env.sequences
  }

  ghost predicate AllLoadable(cfgs: seq<TableConfig>, source: Source) {
    forall i | 0 <= i < |cfgs| :: Loadable(cfgs[i], SourceOf(source, cfgs[i].name))
  }

  ghost predicate Complete(cfgs: seq<TableConfig>, source: Source, db: Db) {
    forall i | 0 <= i < |cfgs| ::
      && SameContent(cfgs[i], SourceOf(source, cfgs[i].name), SlotOf(db, cfgs[i].name).rows)
      && SlotOf(db, cfgs[i].name).checkpoint == Some(|SourceOf(source, cfgs[i].name)|)
  }

  /** A run in which nothing fails, from a state that keeps the invariant. */
  lemma HealthyRunExact(env: Env, cfgs: seq<TableConfig>, db: Db)
    requires env.chunk > 0 && DistinctTables(cfgs) && Healthy(env) && DbInv(env.source, cfgs, db)
    requires env.resume || TargetEmpty(db, cfgs)
    ensures Succeeds(env, cfgs, db) <==> AllLoadable(cfgs, env.source)
    ensures Succeeds(env, cfgs, db) ==> Complete(cfgs, env.source, RunMigration(env, cfgs, db).db)
  {
    RunPointwise(HandlerOf(env), env.resume, env.sequences, cfgs, db);
    var last := RunMigration(env, cfgs, db).db;
    forall i | 0 <= i < |cfgs|
      ensures var h := Handle(env, db, cfgs[i]);
              && (h.ok <==> Loadable(cfgs[i], SourceOf(env.source, cfgs[i].name)))
              && (h.ok ==> SameContent(cfgs[i], SourceOf(env.source, cfgs[i].name), SlotOf(last, cfgs[i].name).rows)
                           && SlotOf(last, cfgs[i].name).checkpoint == Some(|SourceOf(env.source, cfgs[i].name)|))
    {
      assert FaultFree(env.faults(cfgs[i].name));
      HandleFromInvExact(JobOf(env, cfgs[i]), env.sha, SlotOf(db, cfgs[i].name));
    }
  }

  /**
   * Crash-resume convergence. After any history of runs, faults, crashes and
   * source growth, one complete resumed run in which nothing fails reports
   * success exactly when every source table is loadable, and then every target
   * table holds exactly its source. That is the verdict and the content an
   * uninterrupted first run into an empty target gives.
   */
  lemma ResumeConverges(env: Env, cfgs: seq<TableConfig>, worlds: seq<World>, events: seq<Event>)
    requires env.chunk > 0 && env.resume && Healthy(env) && DistinctTables(cfgs)
    requires History(env.sha, cfgs, worlds, events) && Fresh(cfgs, worlds[0].db)
    requires env.source == worlds[|events|].source
    ensures var db := worlds[|events|].db;
            && (Succeeds(env, cfgs, db) <==> AllLoadable(cfgs, env.source))
            && (Succeeds(env, cfgs, db) ==> Complete(cfgs, env.source, RunMigration(env, cfgs, db).db))
    ensures var first, db := env.(resume := false), worlds[|events|].db;
            && (Succeeds(first, cfgs, map[]) <==> Succeeds(env, cfgs, db))
            && (Succeeds(env, cfgs, db) ==>
                  forall i | 0 <= i < |cfgs| ::
                    multiset(SlotOf(RunMigration(env, cfgs, db).db, cfgs[i].name).rows)
                    == multiset(SlotOf(RunMigration(first, cfgs, map[]).db, cfgs[i].name).rows))
  {
    EveryStateKeepsInv(env.sha, cfgs, worlds, events);
    var db := worlds[|events|].db;
    HealthyRunExact(env, cfgs, db);
    FirstRunExact(env.(resume := false), cfgs);
    if AllLoadable(cfgs, env.source) {
      SameCompletion(cfgs, env.source, RunMigration(env, cfgs, db).db, RunMigration(env.(resume := false), cfgs, map[]).db);
    }
  }

  lemma FirstRunExact(env: Env, cfgs: seq<TableConfig>)
    requires env.chunk > 0 && !env.resume && DistinctTables(cfgs) && Healthy(env)
    ensures Succeeds(env, cfgs, map[]) <==> AllLoadable(cfgs, env.source)
    ensures Succeeds(env, cfgs, map[]) ==> Complete(cfgs, env.source, RunMigration(env, cfgs, map[]).db)
  {
    HealthyRunExact(env, cfgs, map[]);
  }

  lemma SameCompletion(cfgs: seq<TableConfig>, source: Source, a: Db, b: Db)
    requires Complete(cfgs, source, a) && Complete(cfgs, source, b)
    ensures forall i | 0 <= i < |cfgs| :: multiset(SlotOf(a, cfgs[i].name).rows) == multiset(SlotOf(b, cfgs[i].name).rows)
  {
  }

  // ---- repeating a successful run ----

  lemma {:induction false} SkippedTables(handle: Handler, st: RunState, cfgs: seq<TableConfig>, i: nat)
    requires i <= |cfgs|
    requires forall k | i <= k < |cfgs| ::
               && cfgs[k].name in st.db && handle(cfgs[k], st.db[cfgs[k].name]).slot == st.db[cfgs[k].name]
               && handle(cfgs[k], st.db[cfgs[k].name]).trace == []
    ensures RunTables(handle, st, cfgs, i).db == st.db
    ensures RunTables(handle, st, cfgs, i).trace == st.trace
    decreases |cfgs| - i
  {
    if i < |cfgs| {
      var next := StepTable(st, cfgs[i], handle(cfgs[i], st.db[cfgs[i].name]));
      assert next.db == st.db && next.trace == st.trace;
      SkippedTables(handle, next, cfgs, i + 1);
    }
  }

  /** Handling a table again after it was counted as a success. */
  lemma HandleAgain(env: Env, cfg: TableConfig, slot: Slot, again: Env, h: Handled)
    requires env.chunk > 0 && again.chunk > 0 && again.resume && again.source == env.source && again.sha == env.sha
    requires h == HandlerOf(env)(cfg, slot) && h.ok
    ensures var h2 := HandlerOf(again)(cfg, h.slot);
            && h2.slot == h.slot && h2.trace == [] && h2.result.migratedCount == 0
            && (!again.faults(cfg.name).sourceHash && !again.faults(cfg.name).targetHash ==> h2.ok)
  {
    OkIsClean(JobOf(env, cfg), env.sha, slot);
    HandleCases(JobOf(again, cfg), env.sha, h.slot);
    SkipSlotOk(JobOf(again, cfg), env.sha, h.slot);
  }

  /**
   * Resuming after a success, with any chunk size and any faults, writes
   * nothing and reports no migrated row; if no hash computation and no
   * sequence reset fails it reports success again.
   */
  lemma ResumeIsIdempotent(env: Env, cfgs: seq<TableConfig>, db: Db, again: Env)
    requires env.chunk > 0 && again.chunk > 0 && DistinctTables(cfgs) && Succeeds(env, cfgs, db)
    requires again.resume && again.source == env.source && again.sha == env.sha
    ensures var first := RunMigration(env, cfgs, db).db;
            var second := RunMigration(again, cfgs, first);
            && second.db == first && second.trace == [] && second.report.Some?
            && |second.report.value.tables| >= |cfgs|
            && (forall i | 0 <= i < |cfgs| :: second.report.value.tables[i].migratedCount == 0)
            && (!again.sequences && (forall i | 0 <= i < |cfgs| ::
                  !again.faults(cfgs[i].name).sourceHash && !again.faults(cfgs[i].name).targetHash)
                ==> Reports(second))
  {
    var handle, handle2 := HandlerOf(env), HandlerOf(again);
    RunPointwise(handle, env.resume, env.sequences, cfgs, db);
    var first := RunMigration(env, cfgs, db).db;
    RunPointwise(handle2, true, again.sequences, cfgs, first);
    forall i | 0 <= i < |cfgs|
      ensures var h2 := handle2(cfgs[i], first[cfgs[i].name]);
              && h2.slot == first[cfgs[i].name] && h2.trace == [] && h2.result.migratedCount == 0
              && (!again.faults(cfgs[i].name).sourceHash && !again.faults(cfgs[i].name).targetHash ==> h2.ok)
    {
      HandleAgain(env, cfgs[i], SlotOf(db, cfgs[i].name), again, handle(cfgs[i], SlotOf(db, cfgs[i].name)));
    }
    SkippedTables(handle2, Start(first), cfgs, 0);
  }

  /**
   * The source grew after a success: a resumed run in which nothing fails
   * finds every stale count, and ends with the target equal to the enlarged
   * source exactly when that is loadable.
   */
  lemma GrowthIsTracked(env: Env, cfgs: seq<TableConfig>, worlds: seq<World>, events: seq<Event>)
    requires |events| >= 1 && events[|events| - 1].Grow?
    requires env.chunk > 0 && env.resume && Healthy(env) && DistinctTables(cfgs)
    requires History(env.sha, cfgs, worlds, events) && Fresh(cfgs, worlds[0].db)
    requires env.source == worlds[|events|].source
    requires Complete(cfgs, worlds[|events| - 1].source, worlds[|events| - 1].db)
    ensures var db := worlds[|events|].db;
            && (AllLoadable(cfgs, env.source) ==> Complete(cfgs, env.source, RunMigration(env, cfgs, db).db))
            && (forall i | 0 <= i < |cfgs| ::
                  var cp := SlotOf(db, cfgs[i].name).checkpoint;
                  CheckpointAction(cp, |SourceOf(env.source, cfgs[i].name)|, true, true)
                  == if multiset(SourceOf(env.source, cfgs[i].name))
                        == multiset(SourceOf(worlds[|events| - 1].source, cfgs[i].name))
                     then Skip else DeleteStale)
  {
    ResumeConverges(env, cfgs, worlds, events);
    var n := |events| - 1;
    assert Possible(cfgs, worlds[n], events[n]) && worlds[n + 1] == Happen(env.sha, cfgs, worlds[n], events[n]);
    forall i | 0 <= i < |cfgs|
      ensures |SourceOf(env.source, cfgs[i].name)| == |SourceOf(worlds[n].source, cfgs[i].name)| <==>
              multiset(SourceOf(env.source, cfgs[i].name)) == multiset(SourceOf(worlds[n].source, cfgs[i].name))
    {
      var was, now := SourceOf(worlds[n].source, cfgs[i].name), SourceOf(env.source, cfgs[i].name);
      assert |multiset(was)| == |was| && |multiset(now)| == |now|;
      if |was| == |now| {
        SubOfSameSize(multiset(was), multiset(now));
      }
    }
  }

  // ---- resuming onto a target of unknown origin ----

  /** What a run needs to be told apart by its digests: no collision in what it ends with, no row taken for another. */
  ghost predicate Distinguished(env: Env, cfg: TableConfig, slot: Slot, last: Slot) {
    var source := SourceOf(env.source, cfg.name);
    && KeysUnique(cfg, slot.rows) && Readable(cfg, slot.rows) && ReadableSource(cfg, source)
    && NoCollision(env.sha, cfg, source, last.rows)
  }

  /**
   * From an arbitrary target a resumed run in which nothing fails succeeds
   * exactly when every table is resumable, and then the target equals the source.
   */
  lemma ResumedRunExact(env: Env, cfgs: seq<TableConfig>, db: Db)
    requires env.chunk > 0 && env.resume && Healthy(env) && DistinctTables(cfgs)
    requires var last := RunMigration(env, cfgs, db).db;
             forall i | 0 <= i < |cfgs| ::
               Distinguished(env, cfgs[i], SlotOf(db, cfgs[i].name), SlotOf(last, cfgs[i].name))
    ensures Succeeds(env, cfgs, db) <==>
              forall i | 0 <= i < |cfgs| :: Resumable(cfgs[i], SourceOf(env.source, cfgs[i].name), SlotOf(db, cfgs[i].name))
    ensures Succeeds(env, cfgs, db) ==> Complete(cfgs, env.source, RunMigration(env, cfgs, db).db)
  {
    var handle := HandlerOf(env);
    RunPointwise(handle, true, env.sequences, cfgs, db);
    var last := RunMigration(env, cfgs, db).db;
    forall i | 0 <= i < |cfgs|
      ensures var source, h := SourceOf(env.source, cfgs[i].name), handle(cfgs[i], SlotOf(db, cfgs[i].name));
              && (h.ok <==> Resumable(cfgs[i], source, SlotOf(db, cfgs[i].name)))
              && (h.ok ==> SameContent(cfgs[i], source, h.slot.rows) && h.slot.checkpoint == Some(|source|))
    {
      var job, slot := JobOf(env, cfgs[i]), SlotOf(db, cfgs[i].name);
      assert Distinguished(env, cfgs[i], slot, SlotOf(last, cfgs[i].name));
      ResumeFromAnywhereExact(job, env.sha, slot);
      OkIsClean(job, env.sha, slot);
    }
  }

  // ---- checkpoints the preflight does not look at ----

  ghost predicate MarkedWith(db: Db, table: string, n: nat) {
    SlotOf(db, table).checkpoint == Some(n)
  }

  ghost predicate SlotsMarkedWith(h: Handled, n: nat) {
    h.slot.checkpoint == Some(n) && forall k | 0 <= k < |h.trace| :: h.trace[k].checkpoint == Some(n)
  }

  /** A first run never removes a checkpoint, and one of the source's count it can only write again. */
  lemma FirstRunKeepsMark(job: Job, sha: Sha, slot: Slot)
    requires job.chunk > 0 && !job.resume && slot.checkpoint == Some(|job.source|)
    ensures SlotsMarkedWith(HandleTable(job, sha, slot), |job.source|)
  {
    ConcludeKeepsMark(job, slot, MigrateTable(job, sha, slot.rows));
  }

  lemma ConcludeKeepsMark(job: Job, slot: Slot, copied: Copied)
    requires slot.checkpoint == Some(|job.source|)
    ensures SlotsMarkedWith(Conclude(job, slot, copied), |job.source|)
  {
  }

  lemma {:induction false} RunTablesKeepMark(handle: Handler, st: RunState, cfgs: seq<TableConfig>, j: nat, i: nat, n: nat)
    requires DistinctTables(cfgs) && i < |cfgs|
    requires forall slot: Slot | slot.checkpoint == Some(n) :: SlotsMarkedWith(handle(cfgs[i], slot), n)
    requires MarkedWith(st.db, cfgs[i].name, n) && forall k | 0 <= k < |st.trace| :: MarkedWith(st.trace[k], cfgs[i].name, n)
    ensures var last := RunTables(handle, st, cfgs, j);
            && MarkedWith(last.db, cfgs[i].name, n)
            && (forall k | 0 <= k < |last.trace| :: MarkedWith(last.trace[k], cfgs[i].name, n))
    decreases |cfgs| - j
  {
    if j < |cfgs| {
      var h := handle(cfgs[j], SlotOf(st.db, cfgs[j].name));
      assert cfgs[j].name == cfgs[i].name ==> j == i;
      assert j == i ==> SlotsMarkedWith(h, n);
      RunTablesKeepMark(handle, StepTable(st, cfgs[j], h), cfgs, j + 1, i, n);
    }
  }

  /** Wherever a first run dies, a checkpoint of the source's count that it found is still there. */
  lemma CutKeepsMark(first: Env, cfgs: seq<TableConfig>, db: Db, i: nat, writes: nat)
    requires first.chunk > 0 && !first.resume && DistinctTables(cfgs) && i < |cfgs|
    requires MarkedWith(db, cfgs[i].name, |SourceOf(first.source, cfgs[i].name)|)
    ensures MarkedWith(Cut(db, RunMigration(first, cfgs, db), writes), cfgs[i].name, |SourceOf(first.source, cfgs[i].name)|)
  {
    var handle, n := HandlerOf(first), |SourceOf(first.source, cfgs[i].name)|;
    forall slot: Slot | slot.checkpoint == Some(n)
      ensures SlotsMarkedWith(handle(cfgs[i], slot), n)
    {
      FirstRunKeepsMark(JobOf(first, cfgs[i]), first.sha, slot);
    }
    RunTablesKeepMark(handle, Start(db), cfgs, 0, i, n);
  }

  /**
   * A target whose tables were emptied but whose checkpoint table was not
   * passes the preflight of a first run. Wherever that run dies, if it has not
   * brought the table to its full count, no resumed run ever succeeds again,
   * whatever does or does not fail in it, and none touches the table or removes the
   * stale checkpoint.
   */
  lemma ForgottenCheckpointStrandsResume(first: Env, again: Env, cfgs: seq<TableConfig>, db: Db, i: nat, writes: nat)
    requires first.chunk > 0 && !first.resume && again.chunk > 0 && again.resume && again.source == first.source
    requires DistinctTables(cfgs) && TargetEmpty(db, cfgs) && i < |cfgs|
    requires MarkedWith(db, cfgs[i].name, |SourceOf(first.source, cfgs[i].name)|)
    ensures RunMigration(first, cfgs, db).report.Some?
    ensures var left := Cut(db, RunMigration(first, cfgs, db), writes);
            |SlotOf(left, cfgs[i].name).rows| != |SourceOf(first.source, cfgs[i].name)| ==>
              && !Succeeds(again, cfgs, left)
              && SlotOf(RunMigration(again, cfgs, left).db, cfgs[i].name) == SlotOf(left, cfgs[i].name)
  {
    CutKeepsMark(first, cfgs, db, i, writes);
    var left := Cut(db, RunMigration(first, cfgs, db), writes);
    if |SlotOf(left, cfgs[i].name).rows| != |SourceOf(first.source, cfgs[i].name)| {
      ShortMarkedTableStrands(again, cfgs, left, i);
    }
  }

  lemma ShortMarkedTableStrands(again: Env, cfgs: seq<TableConfig>, left: Db, i: nat)
    requires again.chunk > 0 && again.resume && DistinctTables(cfgs) && i < |cfgs|
    requires MarkedWith(left, cfgs[i].name, |SourceOf(again.source, cfgs[i].name)|)
    requires |SlotOf(left, cfgs[i].name).rows| != |SourceOf(again.source, cfgs[i].name)|
    ensures !Succeeds(again, cfgs, left)
    ensures SlotOf(RunMigration(again, cfgs, left).db, cfgs[i].name) == SlotOf(left, cfgs[i].name)
  {
    var job, slot := JobOf(again, cfgs[i]), SlotOf(left, cfgs[i].name);
    RunPointwise(HandlerOf(again), true, again.sequences, cfgs, left);
    HandleCases(job, again.sha, slot);
    SkipSlotOk(job, again.sha, slot);
    assert !HandlerOf(again)(cfgs[i], slot).ok;
  }
}
