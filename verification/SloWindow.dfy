/** The life of an SLO evidence window: one state file, changed by start, status and finalize commands. */
module SloWindow {
  import opened Wrappers

  const NANOS: nat := 1_000_000_000
  const DAY: nat := 86_400

  /** A window as persisted; instants are nanoseconds. Fixed texts of the file are not carried. */
  datatype Window = Window(status: string, startedAt: int, endedAt: Option<int>, elapsed: nat,
                           targetDays: nat, minimumDays: nat, notes: Option<string>, finalizedByTool: bool)

  datatype File = Missing | Corrupt | Saved(window: Window)

  /** A command and the clock when it runs; finalize reads the clock twice. */
  datatype Command =
    | Start(notes: Option<string>, now: int)
    | Status(now: int)
    | Finalize(notes: Option<string>, allowEarly: bool, now: int, later: int)

  /** Whole seconds between two instants, rounded toward zero, never below zero. */
  function ElapsedSeconds(from: int, to: int): nat {
    if to <= from then 0 else (to - from) / NANOS
  }

  function Started(notes: Option<string>, now: int): Window {
    Window("started", now, None, 0, 30, 7, notes, false)
  }

  function Recomputed(w: Window, now: int): Window {
    w.(elapsed := ElapsedSeconds(w.startedAt, w.endedAt.GetOr(now)))
  }

  /** None refuses: the window is younger than its minimum and early closing is not allowed. */
  function Finalized(w: Window, notes: Option<string>, allowEarly: bool, now: int, later: int): Option<Window> {
    if w.status == "finalized" then Some(w)
    else
      var checked := Recomputed(w, now);
      if checked.elapsed < checked.minimumDays * DAY && !allowEarly then None
      else
        var closed := checked.(status := "finalized", endedAt := Some(later), finalizedByTool := true,
                               notes := if notes.Some? then notes else checked.notes);
        Some(Recomputed(closed, later))
  }

  /** The state file after a command, whether or not the command succeeds. */
  function Run(f: File, c: Command): File {
    match c
    case Start(notes, now) =>
      if f.Corrupt? || (f.Saved? && f.window.status == "started") then f else Saved(Started(notes, now))
    case Status(_) => f
    case Finalize(notes, allowEarly, now, later) =>
      if !f.Saved? then f
      else
        var w := Finalized(f.window, notes, allowEarly, now, later);
        if w.Some? then Saved(w.value) else f
  }

  /** The state file, read and rewritten by the commands. */
  class StateFile {
    var file: File

    constructor ()
      ensures file == Missing
    {
      file := Missing;
    }

    method RunStart(notes: Option<string>, now: int) returns (ok: bool)
      modifies this
      ensures file == Run(old(file), Start(notes, now))
      ensures ok <==> old(file).Missing? || (old(file).Saved? && old(file).window.status != "started")
    {
      if file.Corrupt? || (file.Saved? && file.window.status == "started") {
        return false;
      }
      file := Saved(Started(notes, now));
      return true;
    }

    /** Recomputes what it prints, and writes nothing. */
    method RunStatus(now: int) returns (shown: Option<Window>)
      ensures shown == if file.Saved? then Some(Recomputed(file.window, now)) else None
    {
      if !file.Saved? {
        return None;
      }
      var w := file.window;
      w := w.(elapsed := ElapsedSeconds(w.startedAt, w.endedAt.GetOr(now)));
      return Some(w);
    }

    method RunFinalize(notes: Option<string>, allowEarly: bool, now: int, later: int) returns (ok: bool)
      modifies this
      ensures file == Run(old(file), Finalize(notes, allowEarly, now, later))
      ensures ok <==> old(file).Saved? && Finalized(old(file).window, notes, allowEarly, now, later).Some?
    {
      if !file.Saved? {
        return false;
      }
      var w := file.window;
      if w.status != "finalized" {
        w := w.(elapsed := ElapsedSeconds(w.startedAt, w.endedAt.GetOr(now)));
        if w.elapsed < w.minimumDays * DAY && !allowEarly {
          return false;
        }
        w := w.(status := "finalized", endedAt := Some(later), finalizedByTool := true);
        if notes.Some? {
          w := w.(notes := notes);
        }
        w := w.(elapsed := ElapsedSeconds(w.startedAt, w.endedAt.GetOr(later)));
      }
      file := Saved(w);
      return true;
    }
  }

  // ---- every sequence of commands ----

  function Begins(c: Command): int {
    c.now
  }

  function Ends(c: Command): int {
    if c.Finalize? then c.later else c.now
  }

  /** The clock never goes back, within a command or between two. */
  ghost predicate ClockAdvances(commands: seq<Command>) {
    && (forall i | 0 <= i < |commands| :: Begins(commands[i]) <= Ends(commands[i]))
    && (forall i, j | 0 <= i < j < |commands| :: Ends(commands[i]) <= Begins(commands[j]))
  }

  ghost predicate History(files: seq<File>, commands: seq<Command>) {
    && |files| == |commands| + 1 && files[0] == Missing && ClockAdvances(commands)
    && forall i | 0 <= i < |commands| :: files[i + 1] == Run(files[i], commands[i])
  }

  /** What the persisted window is at any time: open and untouched, or closed with its exact length. */
  ghost predicate Sound(f: File, latest: Option<int>) {
    && !f.Corrupt?
    && (f.Saved? ==>
          var w := f.window;
          && w.minimumDays == 7
          && latest.Some? && w.startedAt <= latest.value
          && (w.status == "started" || w.status == "finalized")
          && (w.status == "started" ==> w.endedAt == None && w.elapsed == 0 && !w.finalizedByTool)
          && (w.status == "finalized" ==>
                && w.endedAt.Some? && w.startedAt <= w.endedAt.value && w.finalizedByTool
                && w.elapsed == ElapsedSeconds(w.startedAt, w.endedAt.value)))
  }

  ghost function Latest(commands: seq<Command>, n: nat): Option<int>
    requires n <= |commands|
  {
    if n == 0 then None else Some(Ends(commands[n - 1]))
  }

  lemma StatusNamesDiffer()
    ensures "started" != "finalized"
  {
    assert |"started"| == 7 && |"finalized"| == 9;
  }

  lemma {:induction false} EveryFileIsSound(files: seq<File>, commands: seq<Command>, n: nat)
    requires History(files, commands) && n <= |commands|
    ensures Sound(files[n], Latest(commands, n))
  {
    if n > 0 {
      EveryFileIsSound(files, commands, n - 1);
      StatusNamesDiffer();
      var c := commands[n - 1];
      assert files[n] == Run(files[n - 1], c) && Begins(c) <= Ends(c);
      if n > 1 {
        assert Ends(commands[n - 2]) <= Begins(c);
      }
    }
  }

  /** Starting never overwrites a window that is open, and finalizing keeps when it began. */
  lemma OpenWindowIsKept(f: File, c: Command)
    requires f.Saved? && f.window.status == "started"
    ensures var next := Run(f, c);
            && next.Saved? && next.window.startedAt == f.window.startedAt && next.window.minimumDays == f.window.minimumDays
            && (next != f ==> c.Finalize? && next.window.status == "finalized")
  {
    StatusNamesDiffer();
  }

  /** A window can be started exactly when there is none or the last one is not open, and is then new in every field. */
  lemma StartExact(f: File, notes: Option<string>, now: int)
    ensures var next := Run(f, Start(notes, now));
            if f.Missing? || (f.Saved? && f.window.status != "started") then
              && next.Saved? && next.window.status == "started" && next.window.startedAt == now
              && next.window.endedAt == None && next.window.elapsed == 0 && !next.window.finalizedByTool
              && next.window.targetDays == 30 && next.window.minimumDays == 7 && next.window.notes == notes
            else next == f
  {
  }

  /**
   * An open window closes exactly when early closing is allowed or its minimum
   * has passed to the nanosecond; it keeps its start and its days, takes new
   * notes if there are any, and a refused closing changes nothing.
   */
  lemma FinalizeExact(f: File, notes: Option<string>, allowEarly: bool, now: int, later: int)
    requires f.Saved? && f.window.status == "started" && f.window.endedAt == None && f.window.minimumDays > 0
    ensures var w, next := f.window, Run(f, Finalize(notes, allowEarly, now, later));
            if allowEarly || now - w.startedAt >= w.minimumDays * 86_400_000_000_000 then
              && next.Saved? && next.window.status == "finalized" && next.window.endedAt == Some(later)
              && next.window.startedAt == w.startedAt && next.window.finalizedByTool
              && next.window.targetDays == w.targetDays && next.window.minimumDays == w.minimumDays
              && next.window.notes == (if notes.Some? then notes else w.notes)
              && next.window.elapsed == if later <= w.startedAt then 0 else (later - w.startedAt) / 1_000_000_000
            else next == f
  {
    StatusNamesDiffer();
  }

  /** Status shows the length up to now of an open window, and the length of a closed one. */
  lemma RecomputedExact(w: Window, now: int)
    ensures var shown := Recomputed(w, now);
            && shown == w.(elapsed := shown.elapsed)
            && var end := if w.endedAt.Some? then w.endedAt.value else now;
               shown.elapsed == if end <= w.startedAt then 0 else (end - w.startedAt) / 1_000_000_000
  {
  }

  /** A longer span never has fewer whole seconds. */
  lemma ElapsedMonotone(from: int, to: int, later: int)
    requires to <= later
    ensures ElapsedSeconds(from, to) <= ElapsedSeconds(from, later)
  {
  }

  /**
   * A window closed without allowing early closing, at any point of any
   * history, has run its minimum and records exactly its length.
   */
  lemma ClosedWindowsRanTheirMinimum(files: seq<File>, commands: seq<Command>, n: nat)
    requires History(files, commands) && n < |commands|
    requires commands[n].Finalize? && !commands[n].allowEarly
    requires files[n].Saved? && files[n].window.status == "started" && files[n + 1] != files[n]
    ensures var w := files[n + 1].window;
            && files[n + 1].Saved? && w.status == "finalized" && w.endedAt == Some(commands[n].later)
            && w.startedAt == files[n].window.startedAt
            && w.elapsed == (commands[n].later - w.startedAt) / NANOS && w.elapsed >= w.minimumDays * DAY
  {
    EveryFileIsSound(files, commands, n);
    StatusNamesDiffer();
    var w, c := files[n].window, commands[n];
    assert files[n + 1] == Run(files[n], c) && Begins(c) <= Ends(c);
    if n > 0 {
      assert Ends(commands[n - 1]) <= Begins(c);
    }
    ElapsedMonotone(w.startedAt, c.now, c.later);
  }

  /** A closed window is final: until the next start, no command changes any persisted field. */
  lemma {:induction false} ClosedWindowsStay(files: seq<File>, commands: seq<Command>, m: nat, n: nat)
    requires History(files, commands) && m <= n <= |commands|
    requires files[m].Saved? && files[m].window.status == "finalized"
    requires forall i | m <= i < n :: !commands[i].Start?
    ensures files[n] == files[m]
    decreases n
  {
    if m < n {
      ClosedWindowsStay(files, commands, m, n - 1);
      assert files[n] == Run(files[n - 1], commands[n - 1]);
    }
  }
}
