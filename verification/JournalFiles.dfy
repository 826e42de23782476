/**
 The journal's record of changed files (app/state.py): a bounded list in which a path moves to
 the end each time it changes.
 */
module JournalFiles {
  import opened Sequences

  const LIMIT := 400

  datatype Change = Change(path: string, op: string, time: int)

  function WithoutPath(files: seq<Change>, path: string): seq<Change> {
    if files == [] then [] else (if files[0].path == path then [] else [files[0]]) + WithoutPath(files[1..], path)
  }

  function Recorded(files: seq<Change>, c: Change): seq<Change> {
    WithoutPath(files, c.path) + [c]
  }

  /** What happens to the journal: a task is started (again), or a file change is recorded for it. */
  datatype Event = Start(task: string) | Record(task: string, change: Change)

  type Columns = map<string, seq<Change>>   // the files_changed column, task by task

  /** An unknown task has no row to update. */
  function After(columns: Columns, e: Event): Columns {
    match e
    case Start(task) => columns[task := []]
    case Record(task, c) =>
      if task in columns then columns[task := Last(Recorded(columns[task], c), LIMIT)] else columns
  }

  class Journal {
    var filesChanged: Columns

    constructor ()
      ensures filesChanged == map[]
    {
      filesChanged := map[];
    }

    method TaskStart(task: string)
      modifies this
      ensures filesChanged == After(old(filesChanged), Start(task))
    {
      filesChanged := filesChanged[task := []];
    }

    method RecordFileChange(task: string, path: string, op: string, now: int)
      modifies this
      ensures filesChanged == After(old(filesChanged), Record(task, Change(path, op, now)))
    {
      var row := if task in filesChanged then filesChanged[task] else [];
      var files := WithoutPath(row, path) + [Change(path, op, now)];
      if |files| > LIMIT {
        files := files[|files| - LIMIT..];
      }
      if task in filesChanged {
        filesChanged := filesChanged[task := files];
      }
    }
  }

  // ---------------------------------------------------------------- what the list holds

  /** The list after these changes, cut to n entries each time. */
  function Bounded(files: seq<Change>, cs: seq<Change>, n: nat): seq<Change>
    decreases |cs|
  {
    if cs == [] then files else Bounded(Last(Recorded(files, cs[0]), n), cs[1..], n)
  }

  /** The same without ever cutting. */
  function Unbounded(files: seq<Change>, cs: seq<Change>): seq<Change>
    decreases |cs|
  {
    if cs == [] then files else Unbounded(Recorded(files, cs[0]), cs[1..])
  }

  predicate Mentions(files: seq<Change>, path: string) {
    exists i :: 0 <= i < |files| && files[i].path == path
  }

  predicate DistinctPaths(files: seq<Change>) {
    forall i, j :: 0 <= i < j < |files| ==> files[i].path != files[j].path
  }

  /** The changes that no later change of the same path replaces, in order. */
  function LatestOnly(cs: seq<Change>): seq<Change> {
    if cs == [] then []
    else (if Mentions(cs[1..], cs[0].path) then [] else [cs[0]]) + LatestOnly(cs[1..])
  }

  lemma {:induction false} WithoutMissing(files: seq<Change>, path: string)
    requires !Mentions(files, path)
    ensures WithoutPath(files, path) == files
  {
    if files != [] {
      assert files == [files[0]] + files[1..];
      assert files[0].path != path;
      assert !Mentions(files[1..], path) by {
        forall i | 0 <= i < |files[1..]| ensures files[1..][i].path != path { assert files[1..][i] == files[i + 1]; }
      }
      WithoutMissing(files[1..], path);
    }
  }

  lemma {:induction false} WithoutPathAt(files: seq<Change>, k: nat)
    requires DistinctPaths(files) && k < |files|
    ensures WithoutPath(files, files[k].path) == Removed(files, k)
  {
    var path := files[k].path;
    if k == 0 {
      assert !Mentions(files[1..], path);
      WithoutMissing(files[1..], path);
    } else {
      assert files[1..][k - 1] == files[k] && files[0].path != path;
      WithoutPathAt(files[1..], k - 1);
      RemovedCons(files, k);
    }
  }

  lemma RecordedIsDistinct(files: seq<Change>, c: Change)
    requires DistinctPaths(files)
    ensures DistinctPaths(Recorded(files, c))
  {
    if k :| 0 <= k < |files| && files[k].path == c.path {
      WithoutPathAt(files, k);
      var rest := Removed(files, k);
      forall i, j | 0 <= i < j < |rest| + 1
        ensures (rest + [c])[i].path != (rest + [c])[j].path
      {
        assert rest[i] == files[if i < k then i else i + 1];
        assert j < |rest| ==> rest[j] == files[if j < k then j else j + 1];
      }
    } else {
      WithoutMissing(files, c.path);
    }
  }

  /** Cutting before recording makes no difference to what is kept after it. */
  lemma CutCommutes(files: seq<Change>, c: Change, n: nat)
    requires DistinctPaths(files) && n > 0
    ensures Last(Recorded(Last(files, n), c), n) == Last(Recorded(files, c), n)
  {
    var cut := if |files| <= n then 0 else |files| - n;
    var kept := Last(files, n);
    assert kept == files[cut..];
    if k :| 0 <= k < |files| && files[k].path == c.path {
      WithoutPathAt(files, k);
      LastOfRemoved(files, k, c, n);
      if k >= cut {
        assert kept[k - cut] == files[k];
        WithoutPathAt(kept, k - cut);
      } else {
        WithoutMissing(kept, c.path);
      }
    } else {
      WithoutMissing(files, c.path);
      WithoutMissing(kept, c.path);
      LastOfLast(files, c, n);
    }
  }

  /** Cutting at each step is cutting once at the end. */
  lemma {:induction false} BoundedIsLast(files: seq<Change>, cs: seq<Change>, n: nat)
    requires DistinctPaths(files) && n > 0
    ensures Bounded(Last(files, n), cs, n) == Last(Unbounded(files, cs), n)
    decreases |cs|
  {
    if cs != [] {
      CutCommutes(files, cs[0], n);
      RecordedIsDistinct(files, cs[0]);
      BoundedIsLast(Recorded(files, cs[0]), cs[1..], n);
    }
  }

  lemma MentionsAppend(cs: seq<Change>, c: Change, path: string)
    ensures Mentions(cs + [c], path) <==> Mentions(cs, path) || c.path == path
  {
    if i :| 0 <= i < |cs| && cs[i].path == path {
      assert (cs + [c])[i].path == path;
    }
    assert (cs + [c])[|cs|] == c;
  }

  lemma {:induction false} LatestAppend(cs: seq<Change>, c: Change)
    ensures LatestOnly(cs + [c]) == WithoutPath(LatestOnly(cs), c.path) + [c]
    decreases |cs|
  {
    if cs == [] {
      assert cs + [c] == [c];
      assert LatestOnly([c]) == [c] + LatestOnly([]);
    } else {
      assert (cs + [c])[1..] == cs[1..] + [c];
      LatestAppend(cs[1..], c);
      MentionsAppend(cs[1..], c, cs[0].path);
      WithoutPathCons(if Mentions(cs[1..], cs[0].path) then [] else [cs[0]], LatestOnly(cs[1..]), c.path);
    }
  }

  lemma WithoutPathCons(a: seq<Change>, b: seq<Change>, path: string)
    requires |a| <= 1
    ensures WithoutPath(a + b, path) == (if a != [] && a[0].path != path then a else []) + WithoutPath(b, path)
  {
    if a != [] {
      assert (a + b)[1..] == b;
    } else {
      assert a + b == b;
    }
  }

  lemma {:induction false} UnboundedIsLatest(cs: seq<Change>, later: seq<Change>)
    ensures Unbounded(LatestOnly(cs), later) == LatestOnly(cs + later)
    decreases |later|
  {
    if later == [] {
      assert cs + later == cs;
    } else {
      LatestAppend(cs, later[0]);
      UnboundedIsLatest(cs + [later[0]], later[1..]);
      assert cs + [later[0]] + later[1..] == cs + later;
    }
  }

  /**
   After any changes to a new task the column holds the last 400 of the changes that no later
   change of the same path replaces: distinct paths, the latest operation of each, in order.
   */
  lemma FilesChangedIs(cs: seq<Change>)
    ensures Bounded([], cs, LIMIT) == Last(LatestOnly(cs), LIMIT)
    ensures var latest := LatestOnly(cs);
      Bounded([], cs, LIMIT) == if |latest| <= 400 then latest else latest[|latest| - 400..]
  {
    BoundedIsLast([], cs, LIMIT);
    UnboundedIsLatest([], cs);
    assert [] + cs == cs;
  }

  // ---------------------------------------------------------------- whole journals

  function AfterAll(columns: Columns, events: seq<Event>): Columns {
    if events == [] then columns else After(AfterAll(columns, events[..|events| - 1]), events[|events| - 1])
  }

  /** The changes recorded for the task since it was last started. */
  function SinceStart(events: seq<Event>, task: string): seq<Change> {
    if events == [] then []
    else
      var before, e := SinceStart(events[..|events| - 1], task), events[|events| - 1];
      if e.task != task then before else if e.Start? then [] else before + [e.change]
  }

  lemma {:induction false} BoundedAppend(files: seq<Change>, cs: seq<Change>, c: Change, n: nat)
    ensures Bounded(files, cs + [c], n) == Last(Recorded(Bounded(files, cs, n), c), n)
    decreases |cs|
  {
    if cs == [] {
      assert cs + [c] == [c];
      assert Bounded(files, [c], n) == Bounded(Last(Recorded(files, c), n), [], n);
    } else {
      assert (cs + [c])[1..] == cs[1..] + [c];
      BoundedAppend(Last(Recorded(files, cs[0]), n), cs[1..], c, n);
    }
  }

  /**
   Whatever is started and recorded, and in whatever order: a task has a column exactly if it was
   started, and the column holds the last 400 of its changes since then that no later one replaces.
   */
  lemma {:induction false} ColumnIs(events: seq<Event>, task: string)
    ensures task in AfterAll(map[], events) <==> Start(task) in events
    ensures task in AfterAll(map[], events) ==>
      var latest := LatestOnly(SinceStart(events, task));
      AfterAll(map[], events)[task] == if |latest| <= 400 then latest else latest[|latest| - 400..]
  {
    if events != [] {
      var init, e := events[..|events| - 1], events[|events| - 1];
      assert events == init + [e];
      ColumnIs(init, task);
      if e.Record? && e.task == task {
        var cs := SinceStart(init, task);
        FilesChangedIs(cs);
        FilesChangedIs(cs + [e.change]);
        BoundedAppend([], cs, e.change, LIMIT);
      }
    }
  }
}
