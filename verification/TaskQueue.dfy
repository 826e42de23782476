/**
 The persistent task queue (app/task_queue.py) with one worker: the store is a map, every save
 stamps the task with the next tick of a clock, and a crash simply leaves the store as it is.
 */
module TaskQueue {
  import opened Sequences

  datatype Status = Queued | Running | Paused | Completed | Failed | Cancelled

  datatype Task = Task(status: Status, priority: int, retryCount: nat, interrupts: nat, updatedAt: int)

  type Tasks = map<string, Task>

  const INTERRUPT_LIMIT := 5

  // ---------------------------------------------------------------- picking a task

  /** ORDER BY priority DESC, updated_at ASC. */
  predicate Precedes(a: Task, b: Task) {
    a.priority > b.priority || (a.priority == b.priority && a.updatedAt <= b.updatedAt)
  }

  /** The row the worker's query returns. */
  ghost predicate IsHead(tasks: Tasks, id: string) {
    && id in tasks && tasks[id].status.Queued?
    && forall x :: x in tasks && tasks[x].status.Queued? ==> Precedes(tasks[id], tasks[x])
  }

  // ---------------------------------------------------------------- resuming after a crash

  /** Every task once. */
  ghost predicate ListsAll(tasks: Tasks, rows: seq<string>) {
    Distinct(rows) && forall id :: id in rows <==> id in tasks
  }

  /** The rows of list_tasks: every task once, the last updated first. */
  ghost predicate IsListing(tasks: Tasks, rows: seq<string>) {
    && ListsAll(tasks, rows)
    && forall i, j :: 0 <= i < j < |rows| ==>
      rows[i] in tasks && rows[j] in tasks && tasks[rows[i]].updatedAt >= tasks[rows[j]].updatedAt
  }

  function ResumedTask(t: Task, now: int): Task {
    match t.status
    case Running =>
      t.(interrupts := t.interrupts + 1, updatedAt := now,
         status := if t.interrupts + 1 <= INTERRUPT_LIMIT then Queued else Failed)
    case Paused => t.(status := Queued, updatedAt := now)
    case _ => t
  }

  predicate Interrupted(t: Task) {
    t.status.Running? || t.status.Paused?
  }

  class TaskQueue {
    var tasks: Tasks
    var clock: int

    function Now(): State
      reads this
    {
      State(tasks, clock)
    }

    constructor ()
      ensures Now() == State(map[], 0)
    {
      tasks, clock := map[], 0;
    }

    method Save(id: string, t: Task)
      modifies this
      ensures Now() == Saved(old(Now()), id, t)
    {
      clock := clock + 1;
      tasks := tasks[id := t.(updatedAt := clock)];
    }

    method SubmitTask(id: string, priority: int)
      requires id !in tasks
      modifies this
      ensures Now() == After(old(Now()), Submit(id, priority))
      ensures clock > old(clock) && tasks == old(tasks)[id := Task(Queued, priority, 0, 0, clock)]
    {
      Save(id, Task(Queued, priority, 0, 0, clock));
    }

    /** One turn of the worker: the task its query returned runs and comes to this outcome. */
    method WorkOn(id: string, outcome: Status)
      requires IsHead(tasks, id) && (outcome.Completed? || outcome.Failed? || outcome.Paused?)
      modifies this
      ensures Happens(old(Now()), PickUp(id)) && Happens(After(old(Now()), PickUp(id)), Finish(id, outcome))
      ensures Now() == After(After(old(Now()), PickUp(id)), Finish(id, outcome))
      ensures clock > old(clock) && tasks == old(tasks)[id := old(tasks)[id].(status := outcome, updatedAt := clock)]
      ensures Stamped(old(Now())) ==> forall x :: x in tasks && x != id ==> tasks[x].updatedAt < tasks[id].updatedAt
    {
      var task := tasks[id].(status := Running);
      Save(id, task);
      Save(id, task.(status := outcome));
    }

    method RetryTask(id: string) returns (ok: bool)
      modifies this
      ensures ok <==> Happens(old(Now()), Retry(id))
      ensures Now() == if ok then After(old(Now()), Retry(id)) else old(Now())
      ensures ok <==> id in old(tasks) && old(tasks)[id].status in {Failed, Cancelled}
      ensures ok ==> clock > old(clock) && var t := old(tasks)[id];
        tasks == old(tasks)[id := t.(status := Queued, retryCount := t.retryCount + 1, updatedAt := clock)]
    {
      if id !in tasks || !(tasks[id].status.Failed? || tasks[id].status.Cancelled?) {
        return false;
      }
      var t := tasks[id];
      Save(id, t.(status := Queued, retryCount := t.retryCount + 1));
      return true;
    }

    /** `rows` is what list_tasks returned. */
    method ResumeInterrupted(rows: seq<string>) returns (resumed: nat)
      requires IsListing(tasks, rows)
      modifies this
      ensures Now() == After(old(Now()), Restart(rows, |rows|))
      ensures resumed == |set id | id in old(tasks) && GoesBack(old(tasks)[id])|
    {
      resumed := 0;
      for i := 0 to |rows|
        invariant Sweep(tasks, clock, resumed) == SweepRows(Sweep(old(tasks), old(clock), 0), rows, i)
      {
        var requeued := ResumeTask(rows[i]);
        if requeued {
          resumed := resumed + 1;
        }
      }
      SweepIsResumed(old(tasks), old(clock), rows, |rows|);
      AllRequeued(old(tasks), rows);
    }

    /** One turn of the loop over the rows. */
    method ResumeTask(id: string) returns (requeued: bool)
      modifies this
      ensures Sweep(tasks, clock, if requeued then 1 else 0) == SweepOne(Sweep(old(tasks), old(clock), 0), id)
    {
      requeued := false;
      if id !in tasks {
        return;
      }
      var task := tasks[id];
      match task.status {
        case Running =>
          task := task.(interrupts := task.interrupts + 1);
          if task.interrupts <= INTERRUPT_LIMIT {
            Save(id, task.(status := Queued));
            requeued := true;
          } else {
            Save(id, task.(status := Failed));
          }
        case Paused =>
          Save(id, task.(status := Queued));
          requeued := true;
        case _ =>
      }
    }
  }

  /** The store, the clock and the count of resumed tasks, part way through the rows. */
  datatype Sweep = Sweep(tasks: Tasks, clock: int, resumed: nat)

  function SweepOne(s: Sweep, id: string): Sweep {
    if id !in s.tasks || !Interrupted(s.tasks[id]) then s
    else
      var t := ResumedTask(s.tasks[id], s.clock + 1);
      Sweep(s.tasks[id := t], s.clock + 1, s.resumed + if t.status.Queued? then 1 else 0)
  }

  function SweepRows(s: Sweep, rows: seq<string>, n: nat): Sweep
    requires n <= |rows|
  {
    if n == 0 then s else SweepOne(SweepRows(s, rows, n - 1), rows[n - 1])
  }

  /** How many of the first n rows are interrupted, and how many of those go back to the queue. */
  function CountInterrupted(tasks: Tasks, rows: seq<string>, n: nat): nat
    requires n <= |rows|
  {
    if n == 0 then 0
    else
      var id := rows[n - 1];
      CountInterrupted(tasks, rows, n - 1) + if id in tasks && Interrupted(tasks[id]) then 1 else 0
  }

  function CountRequeued(tasks: Tasks, rows: seq<string>, n: nat): nat
    requires n <= |rows|
  {
    if n == 0 then 0
    else
      var id := rows[n - 1];
      CountRequeued(tasks, rows, n - 1)
      + if id in tasks && Interrupted(tasks[id]) && ResumedTask(tasks[id], 0).status.Queued? then 1 else 0
  }

  /** A resume queues again what was paused, and what was running and interrupted less than five times before. */
  predicate GoesBack(t: Task) {
    t.status.Paused? || (t.status.Running? && t.interrupts < 5)
  }

  ghost function GoingBack(tasks: Tasks, rows: seq<string>): set<string> {
    set id | id in rows && id in tasks && GoesBack(tasks[id])
  }

  lemma OneMoreRow(tasks: Tasks, rows: seq<string>, id: string)
    requires id !in rows
    ensures |GoingBack(tasks, rows + [id])|
         == |GoingBack(tasks, rows)| + if id in tasks && GoesBack(tasks[id]) then 1 else 0
  {
    assert GoingBack(tasks, rows + [id])
        == GoingBack(tasks, rows) + if id in tasks && GoesBack(tasks[id]) then {id} else {};
  }

  lemma {:induction false} RequeuedAre(tasks: Tasks, rows: seq<string>, n: nat)
    requires Distinct(rows) && n <= |rows|
    ensures CountRequeued(tasks, rows, n) == |GoingBack(tasks, rows[..n])|
  {
    if n > 0 {
      RequeuedAre(tasks, rows, n - 1);
      assert rows[..n] == rows[..n - 1] + [rows[n - 1]];
      OneMoreRow(tasks, rows[..n - 1], rows[n - 1]);
    }
  }

  lemma AllRequeued(tasks: Tasks, rows: seq<string>)
    requires ListsAll(tasks, rows)
    ensures CountRequeued(tasks, rows, |rows|) == |set id | id in tasks && GoesBack(tasks[id])|
  {
    RequeuedAre(tasks, rows, |rows|);
    assert rows[..|rows|] == rows;
    assert GoingBack(tasks, rows) == set id | id in tasks && GoesBack(tasks[id]);
  }

  /** The store after the first n rows were handled one by one, the clock having stood at `clock`. */
  function Resumed(tasks: Tasks, clock: int, rows: seq<string>, n: nat): (r: Tasks)
    requires n <= |rows|
    ensures r.Keys == tasks.Keys
  {
    if n == 0 then tasks
    else
      var before, id := Resumed(tasks, clock, rows, n - 1), rows[n - 1];
      if id in tasks then before[id := ResumedTask(tasks[id], clock + CountInterrupted(tasks, rows, n))] else before
  }

  lemma {:induction false} NotYetResumed(tasks: Tasks, clock: int, rows: seq<string>, n: nat, i: nat)
    requires Distinct(rows) && n <= i < |rows| && rows[i] in tasks
    ensures Resumed(tasks, clock, rows, n)[rows[i]] == tasks[rows[i]]
    decreases n
  {
    if n > 0 {
      NotYetResumed(tasks, clock, rows, n - 1, i);
    }
  }

  /** Handling the rows one after the other comes to what Resumed says of each task. */
  lemma {:induction false} SweepIsResumed(tasks: Tasks, clock: int, rows: seq<string>, n: nat)
    requires Distinct(rows) && n <= |rows|
    ensures SweepRows(Sweep(tasks, clock, 0), rows, n)
         == Sweep(Resumed(tasks, clock, rows, n), clock + CountInterrupted(tasks, rows, n),
                  CountRequeued(tasks, rows, n))
  {
    if n > 0 {
      SweepIsResumed(tasks, clock, rows, n - 1);
      if rows[n - 1] in tasks {
        NotYetResumed(tasks, clock, rows, n - 1, n - 1);
        if !Interrupted(tasks[rows[n - 1]]) {
          SettledStays(tasks, clock, rows, n);
        }
      }
    }
  }

  lemma SettledStays(tasks: Tasks, clock: int, rows: seq<string>, n: nat)
    requires 0 < n <= |rows| && rows[n - 1] in tasks && !Interrupted(tasks[rows[n - 1]])
    requires Resumed(tasks, clock, rows, n - 1)[rows[n - 1]] == tasks[rows[n - 1]]
    ensures Resumed(tasks, clock, rows, n) == Resumed(tasks, clock, rows, n - 1)
  {
  }

  lemma {:induction false} ResumedAt(tasks: Tasks, clock: int, rows: seq<string>, n: nat, i: nat)
    requires Distinct(rows) && i < n <= |rows| && rows[i] in tasks
    ensures Resumed(tasks, clock, rows, n)[rows[i]]
         == ResumedTask(tasks[rows[i]], clock + CountInterrupted(tasks, rows, i + 1))
    decreases n
  {
    if i < n - 1 {
      ResumedAt(tasks, clock, rows, n - 1, i);
    }
  }

  lemma {:induction false} CountIsMonotone(tasks: Tasks, rows: seq<string>, i: nat, j: nat)
    requires i <= j <= |rows|
    ensures CountInterrupted(tasks, rows, i) <= CountInterrupted(tasks, rows, j)
    decreases j
  {
    if i < j {
      CountIsMonotone(tasks, rows, i, j - 1);
    }
  }

  /** After a resume nothing is left running or paused. */
  lemma ResumeLeavesNoneInterrupted(tasks: Tasks, clock: int, rows: seq<string>, id: string)
    requires IsListing(tasks, rows) && id in tasks
    ensures !Interrupted(Resumed(tasks, clock, rows, |rows|)[id])
    ensures Resumed(tasks, clock, rows, |rows|)[id].retryCount == tasks[id].retryCount
  {
    var i := RowOf(tasks, rows, id);
    ResumedAt(tasks, clock, rows, |rows|, i);
  }

  lemma RowOf(tasks: Tasks, rows: seq<string>, id: string) returns (i: nat)
    requires ListsAll(tasks, rows) && id in tasks
    ensures i < |rows| && rows[i] == id
  {
    i :| i < |rows| && rows[i] == id;
  }

  // ---------------------------------------------------------------- whole lives of a task

  datatype Event =
    | Submit(id: string, priority: int)
    | PickUp(id: string)                      // the worker marks the head of the queue running
    | Finish(id: string, outcome: Status)     // completed, failed, or paused by a shutdown
    | Retry(id: string)
    | CancelWaiting(id: string)
    // the process was killed, or stopped, and starts again; it is killed again after so many rows,
    // unless all are handled
    | Restart(rows: seq<string>, handled: nat)

  datatype State = State(tasks: Tasks, clock: int)

  ghost predicate Happens(s: State, e: Event) {
    match e
    case Submit(id, _) => id !in s.tasks
    case PickUp(id) => IsHead(s.tasks, id)
    case Finish(id, outcome) =>
      id in s.tasks && s.tasks[id].status.Running? && (outcome.Completed? || outcome.Failed? || outcome.Paused?)
    case Retry(id) => id in s.tasks && (s.tasks[id].status.Failed? || s.tasks[id].status.Cancelled?)
    case CancelWaiting(id) => id in s.tasks && (s.tasks[id].status.Queued? || s.tasks[id].status.Paused?)
    case Restart(rows, handled) => IsListing(s.tasks, rows) && handled <= |rows|
  }

  function Saved(s: State, id: string, t: Task): State {
    State(s.tasks[id := t.(updatedAt := s.clock + 1)], s.clock + 1)
  }

  function After(s: State, e: Event): State {
    match e
    case Submit(id, priority) => Saved(s, id, Task(Queued, priority, 0, 0, s.clock))
    case Restart(rows, handled) =>
      var n := if handled <= |rows| then handled else |rows|;
      State(Resumed(s.tasks, s.clock, rows, n), s.clock + CountInterrupted(s.tasks, rows, n))
    case PickUp(id) => if id in s.tasks then Saved(s, id, s.tasks[id].(status := Running)) else s
    case Finish(id, outcome) => if id in s.tasks then Saved(s, id, s.tasks[id].(status := outcome)) else s
    case CancelWaiting(id) => if id in s.tasks then Saved(s, id, s.tasks[id].(status := Cancelled)) else s
    case Retry(id) =>
      if id !in s.tasks then s
      else Saved(s, id, s.tasks[id].(status := Queued, retryCount := s.tasks[id].retryCount + 1))
  }

  ghost predicate Possible(s: State, events: seq<Event>)
    decreases |events|
  {
    events == [] || (Happens(s, events[0]) && Possible(After(s, events[0]), events[1..]))
  }

  function AfterAll(s: State, events: seq<Event>): State
    decreases |events|
  {
    if events == [] then s else AfterAll(After(s, events[0]), events[1..])
  }

  // ---------------------------------------------------------------- the head of the queue

  /** No two tasks were saved at the same tick. */
  ghost predicate Stamped(s: State) {
    && (forall id :: id in s.tasks ==> s.tasks[id].updatedAt <= s.clock)
    && forall a, b :: a in s.tasks && b in s.tasks && a != b ==> s.tasks[a].updatedAt != s.tasks[b].updatedAt
  }

  lemma SavedIsStamped(s: State, id: string, t: Task)
    requires Stamped(s)
    ensures Stamped(Saved(s, id, t))
  {
  }

  /** The stamp of a task by its row, after a resume that handled the first n rows. */
  function StampOf(tasks: Tasks, clock: int, rows: seq<string>, n: nat, i: nat): int
    requires i < |rows| && rows[i] in tasks
  {
    if i < n && Interrupted(tasks[rows[i]]) then clock + CountInterrupted(tasks, rows, i) + 1
    else tasks[rows[i]].updatedAt
  }

  lemma ResumedStamp(tasks: Tasks, clock: int, rows: seq<string>, n: nat, i: nat)
    requires Distinct(rows) && n <= |rows| && i < |rows| && rows[i] in tasks
    ensures Resumed(tasks, clock, rows, n)[rows[i]].updatedAt == StampOf(tasks, clock, rows, n, i)
  {
    if i < n {
      ResumedAt(tasks, clock, rows, n, i);
      CountOne(tasks, rows, i);
    } else {
      NotYetResumed(tasks, clock, rows, n, i);
    }
  }

  lemma CountOne(tasks: Tasks, rows: seq<string>, i: nat)
    requires i < |rows| && rows[i] in tasks
    ensures CountInterrupted(tasks, rows, i + 1)
         == CountInterrupted(tasks, rows, i) + if Interrupted(tasks[rows[i]]) then 1 else 0
  {
  }

  /** The row of the task saved later stands earlier. */
  lemma LaterRowFirst(tasks: Tasks, rows: seq<string>, i: nat, j: nat)
    requires IsListing(tasks, rows) && i < |rows| && j < |rows|
    requires rows[i] in tasks && rows[j] in tasks && tasks[rows[i]].updatedAt < tasks[rows[j]].updatedAt
    ensures j < i
  {
  }

  lemma StampsKeepOrderIff(tasks: Tasks, clock: int, rows: seq<string>, n: nat, i: nat, j: nat)
    requires j < i < |rows| && rows[i] in tasks && rows[j] in tasks
    requires tasks[rows[i]].updatedAt < tasks[rows[j]].updatedAt <= clock
    ensures StampOf(tasks, clock, rows, n, i) < StampOf(tasks, clock, rows, n, j)
       <==> !(i < n && Interrupted(tasks[rows[i]]))
  {
    CountOne(tasks, rows, j);
    CountIsMonotone(tasks, rows, j + 1, i);
  }

  /** The resume has come to this task and found it interrupted. */
  ghost predicate Resumes(tasks: Tasks, rows: seq<string>, n: nat, id: string)
    requires n <= |rows| && id in tasks
  {
    Interrupted(tasks[id]) && exists k :: 0 <= k < n && rows[k] == id
  }

  /**
   The rows come newest first and are stamped as they are handled. Of two tasks the one saved
   earlier stays the one saved earlier, and so the first of the two in the queue, exactly when it
   was not resumed itself; after a whole resume, when it was not interrupted.
   */
  lemma ResumeKeepsOrderIff(s: State, rows: seq<string>, n: nat, a: string, b: string)
    requires Stamped(s) && IsListing(s.tasks, rows) && a in s.tasks && b in s.tasks && n <= |rows|
    requires s.tasks[a].updatedAt < s.tasks[b].updatedAt
    ensures var after := After(s, Restart(rows, n)).tasks;
      after[a].updatedAt < after[b].updatedAt <==> !Resumes(s.tasks, rows, n, a)
    ensures Resumes(s.tasks, rows, |rows|, a) <==> Interrupted(s.tasks[a])
  {
    var i := RowOf(s.tasks, rows, a);
    var j := RowOf(s.tasks, rows, b);
    LaterRowFirst(s.tasks, rows, i, j);
    ResumedStamp(s.tasks, s.clock, rows, n, i);
    ResumedStamp(s.tasks, s.clock, rows, n, j);
    StampsKeepOrderIff(s.tasks, s.clock, rows, n, i, j);
    OnlyRow(rows, n, i);
  }

  lemma OnlyRow(rows: seq<string>, n: nat, i: nat)
    requires Distinct(rows) && n <= |rows| && i < |rows|
    ensures (exists k :: 0 <= k < n && rows[k] == rows[i]) <==> i < n
  {
    if k :| 0 <= k < n && rows[k] == rows[i] {
      assert k == i;
    }
    if i < n {
      assert rows[i] == rows[i];
    }
  }

  /** In particular tasks resumed together change places. */
  lemma ResumeReversesOrder(tasks: Tasks, clock: int, rows: seq<string>, a: string, b: string)
    requires IsListing(tasks, rows) && a in tasks && b in tasks
    requires Interrupted(tasks[a]) && Interrupted(tasks[b]) && tasks[a].updatedAt < tasks[b].updatedAt
    ensures var after := Resumed(tasks, clock, rows, |rows|); after[b].updatedAt < after[a].updatedAt
  {
    var i := RowOf(tasks, rows, a);
    var j := RowOf(tasks, rows, b);
    LaterRowFirst(tasks, rows, i, j);
    ResumedStamp(tasks, clock, rows, |rows|, i);
    ResumedStamp(tasks, clock, rows, |rows|, j);
    CountOne(tasks, rows, j);
    CountIsMonotone(tasks, rows, j + 1, i);
  }

  /** A restart keeps the order of the whole queue exactly when no task but the last saved is interrupted. */
  lemma QueueOrderKeptIff(s: State, rows: seq<string>)
    requires Stamped(s) && IsListing(s.tasks, rows)
    ensures KeepsOrder(s.tasks, After(s, Restart(rows, |rows|)).tasks) <==>
      forall a, b :: a in s.tasks && b in s.tasks && s.tasks[a].updatedAt < s.tasks[b].updatedAt ==>
        !Interrupted(s.tasks[a])
  {
    var after := After(s, Restart(rows, |rows|)).tasks;
    forall a, b | a in s.tasks && b in s.tasks && s.tasks[a].updatedAt < s.tasks[b].updatedAt
      ensures after[a].updatedAt < after[b].updatedAt <==> !Interrupted(s.tasks[a])
    {
      ResumeKeepsOrderIff(s, rows, |rows|, a, b);
    }
  }

  ghost predicate KeepsOrder(before: Tasks, after: Tasks) {
    && after.Keys == before.Keys
    && forall a, b :: a in before && b in before && before[a].updatedAt < before[b].updatedAt ==>
      after[a].updatedAt < after[b].updatedAt
  }

  lemma ResumeKeepsStamps(s: State, rows: seq<string>, n: nat)
    requires Stamped(s) && ListsAll(s.tasks, rows) && n <= |rows|
    ensures Stamped(After(s, Restart(rows, n)))
  {
    var t := After(s, Restart(rows, n));
    forall a | a in t.tasks ensures t.tasks[a].updatedAt <= t.clock {
      var i := RowOf(s.tasks, rows, a);
      StampIsPast(s, rows, n, i);
    }
    forall a, b | a in t.tasks && b in t.tasks && a != b ensures t.tasks[a].updatedAt != t.tasks[b].updatedAt {
      var i := RowOf(s.tasks, rows, a);
      var j := RowOf(s.tasks, rows, b);
      ResumedStamp(s.tasks, s.clock, rows, n, i);
      ResumedStamp(s.tasks, s.clock, rows, n, j);
      if i < j {
        StampsDiffer(s.tasks, s.clock, rows, n, i, j);
      } else {
        StampsDiffer(s.tasks, s.clock, rows, n, j, i);
      }
    }
  }

  lemma StampIsPast(s: State, rows: seq<string>, n: nat, i: nat)
    requires Stamped(s) && Distinct(rows) && n <= |rows| && i < |rows| && rows[i] in s.tasks
    ensures Resumed(s.tasks, s.clock, rows, n)[rows[i]].updatedAt <= s.clock + CountInterrupted(s.tasks, rows, n)
  {
    ResumedStamp(s.tasks, s.clock, rows, n, i);
    CountOne(s.tasks, rows, i);
    if i < n {
      CountIsMonotone(s.tasks, rows, i + 1, n);
    }
  }

  lemma StampsDiffer(tasks: Tasks, clock: int, rows: seq<string>, n: nat, i: nat, j: nat)
    requires i < j < |rows| && rows[i] in tasks && rows[j] in tasks
    requires tasks[rows[i]].updatedAt <= clock && tasks[rows[j]].updatedAt <= clock
    requires tasks[rows[i]].updatedAt != tasks[rows[j]].updatedAt
    ensures StampOf(tasks, clock, rows, n, i) != StampOf(tasks, clock, rows, n, j)
  {
    CountOne(tasks, rows, i);
    CountIsMonotone(tasks, rows, i + 1, j);
  }

  lemma {:induction false} RunKeepsStamps(s: State, events: seq<Event>)
    requires Stamped(s) && Possible(s, events)
    ensures Stamped(AfterAll(s, events))
    decreases |events|
  {
    if events != [] {
      var e := events[0];
      if e.Restart? {
        ResumeKeepsStamps(s, e.rows, e.handled);
      } else {
        SavedIsStamped(s, e.id, After(s, e).tasks[e.id]);
      }
      RunKeepsStamps(After(s, e), events[1..]);
    }
  }

  lemma {:induction false} FirstOf(tasks: Tasks, ids: set<string>) returns (id: string)
    requires ids != {} && forall x :: x in ids ==> x in tasks
    ensures id in ids && forall x :: x in ids ==> Precedes(tasks[id], tasks[x])
    decreases |ids|
  {
    id :| id in ids;
    if ids != {id} {
      assert ids - {id} != {};
      var other := FirstOf(tasks, ids - {id});
      if Precedes(tasks[other], tasks[id]) {
        id := other;
      }
    }
  }

  /**
   In every store a run leads to, the worker's query has exactly one answer as long as a task is
   queued: one of the highest priority, and of those the one saved longest ago.
   */
  lemma HeadIsUnique(events: seq<Event>) returns (head: string)
    requires Possible(State(map[], 0), events)
    requires var s := AfterAll(State(map[], 0), events); exists id :: id in s.tasks && s.tasks[id].status.Queued?
    ensures var s := AfterAll(State(map[], 0), events);
      forall id :: IsHead(s.tasks, id) <==> id == head
    ensures var tasks := AfterAll(State(map[], 0), events).tasks;
      && head in tasks && tasks[head].status.Queued?
      && forall x :: x in tasks && tasks[x].status.Queued? && x != head ==>
        tasks[x].priority < tasks[head].priority
        || (tasks[x].priority == tasks[head].priority && tasks[x].updatedAt > tasks[head].updatedAt)
  {
    RunKeepsStamps(State(map[], 0), events);
    var s := AfterAll(State(map[], 0), events);
    var queued := set id | id in s.tasks && s.tasks[id].status.Queued?;
    var some :| some in s.tasks && s.tasks[some].status.Queued?;
    assert some in queued;
    head := FirstOf(s.tasks, queued);
    assert IsHead(s.tasks, head);
  }

  // ---------------------------------------------------------------- one task by itself

  /** What the events say of one task, whatever happens to the others. */
  datatype Life = Unknown | Known(status: Status, priority: int, retries: nat, interrupts: nat)

  function LifeAfter(life: Life, e: Event, id: string): Life {
    match e
    case Submit(x, priority) => if x == id then Known(Queued, priority, 0, 0) else life
    case PickUp(x) => if x == id && life.Known? then life.(status := Running) else life
    case Finish(x, outcome) => if x == id && life.Known? then life.(status := outcome) else life
    case CancelWaiting(x) => if x == id && life.Known? then life.(status := Cancelled) else life
    case Retry(x) => if x == id && life.Known? then life.(status := Queued, retries := life.retries + 1) else life
    case Restart(rows, handled) =>
      if life.Unknown? || handled > |rows| || id !in rows[..handled] then life
      else if life.status.Paused? then life.(status := Queued)
      else if life.status.Running? then
        life.(status := if life.interrupts < 5 then Queued else Failed, interrupts := life.interrupts + 1)
      else life
  }

  function LifeOf(events: seq<Event>, id: string): Life {
    if events == [] then Unknown else LifeAfter(LifeOf(events[..|events| - 1], id), events[|events| - 1], id)
  }

  predicate Lives(s: State, id: string, life: Life) {
    if id !in s.tasks then life.Unknown?
    else var t := s.tasks[id]; life == Known(t.status, t.priority, t.retryCount, t.interrupts)
  }

  lemma OneEventInLife(s: State, e: Event, id: string, life: Life)
    requires Happens(s, e) && Lives(s, id, life)
    ensures Lives(After(s, e), id, LifeAfter(life, e, id))
  {
    if e.Restart? && id in s.tasks {
      var i := RowOf(s.tasks, e.rows, id);
      OnlyRow(e.rows, e.handled, i);
      assert id in e.rows[..e.handled] <==> i < e.handled by {
        if i < e.handled {
          assert e.rows[..e.handled][i] == id;
        }
      }
      if i < e.handled {
        ResumedAt(s.tasks, s.clock, e.rows, e.handled, i);
      } else {
        NotYetResumed(s.tasks, s.clock, e.rows, e.handled, i);
      }
    }
  }

  lemma {:induction false} AfterOneMore(s: State, events: seq<Event>, e: Event)
    ensures AfterAll(s, events + [e]) == After(AfterAll(s, events), e)
    ensures Possible(s, events + [e]) <==> Possible(s, events) && Happens(AfterAll(s, events), e)
    decreases |events|
  {
    if events == [] {
      assert events + [e] == [e] && [e][1..] == [];
    } else {
      assert (events + [e])[1..] == events[1..] + [e];
      AfterOneMore(After(s, events[0]), events[1..], e);
    }
  }

  /**
   Status, priority and counts of a task are those its own events leave: the status is that of the
   last of them, a restart queueing again what was paused, and what was running up to five times.
   */
  lemma {:induction false} TaskIsItsLife(events: seq<Event>, id: string)
    requires Possible(State(map[], 0), events)
    ensures Lives(AfterAll(State(map[], 0), events), id, LifeOf(events, id))
    decreases |events|
  {
    if events != [] {
      var init, e := events[..|events| - 1], events[|events| - 1];
      assert events == init + [e];
      AfterOneMore(State(map[], 0), init, e);
      TaskIsItsLife(init, id);
      OneEventInLife(AfterAll(State(map[], 0), init), e, id, LifeOf(init, id));
    }
  }

  /** This event puts a task that was running back into the queue. */
  predicate Requeues(s: State, e: Event, id: string) {
    e.Restart? && id in s.tasks && s.tasks[id].status.Running?
    && id in After(s, e).tasks && After(s, e).tasks[id].status.Queued?
  }

  function CountRequeues(s: State, events: seq<Event>, id: string): nat
    decreases |events|
  {
    if events == [] then 0
    else (if Requeues(s, events[0], id) then 1 else 0) + CountRequeues(After(s, events[0]), events[1..], id)
  }

  function CountRetries(events: seq<Event>, id: string): nat {
    if events == [] then 0 else (if events[0] == Retry(id) then 1 else 0) + CountRetries(events[1..], id)
  }

  function Interrupts(s: State, id: string): nat {
    if id in s.tasks then s.tasks[id].interrupts else 0
  }

  function Retries(s: State, id: string): nat {
    if id in s.tasks then s.tasks[id].retryCount else 0
  }

  function AtMost(n: nat, limit: nat): nat {
    if n < limit then n else limit
  }

  lemma OneEvent(s: State, e: Event, id: string)
    requires Happens(s, e)
    ensures AtMost(Interrupts(After(s, e), id), INTERRUPT_LIMIT)
         == AtMost(Interrupts(s, id), INTERRUPT_LIMIT) + if Requeues(s, e, id) then 1 else 0
    ensures Retries(After(s, e), id) == Retries(s, id) + if e == Retry(id) then 1 else 0
  {
    if e.Restart? && id in s.tasks {
      var i := RowOf(s.tasks, e.rows, id);
      if i < e.handled {
        ResumedAt(s.tasks, s.clock, e.rows, e.handled, i);
      } else {
        NotYetResumed(s.tasks, s.clock, e.rows, e.handled, i);
      }
    }
  }

  lemma {:induction false} LivesAreCounted(s: State, events: seq<Event>, id: string)
    requires Possible(s, events)
    ensures AtMost(Interrupts(AfterAll(s, events), id), INTERRUPT_LIMIT)
         == AtMost(Interrupts(s, id), INTERRUPT_LIMIT) + CountRequeues(s, events, id)
    ensures Retries(AfterAll(s, events), id) == Retries(s, id) + CountRetries(events, id)
    decreases |events|
  {
    if events != [] {
      OneEvent(s, events[0], id);
      LivesAreCounted(After(s, events[0]), events[1..], id);
    }
  }

  /**
   Through any crashes, restarts and manual retries a task is put back from running at most
   five times in its whole life, and its retry count is the number of manual retries.
   */
  lemma RequeuedAtMostFiveTimes(s: State, events: seq<Event>, id: string)
    requires Possible(s, events) && id !in s.tasks
    ensures CountRequeues(s, events, id) <= 5
    ensures Retries(AfterAll(s, events), id) == CountRetries(events, id)
  {
    LivesAreCounted(s, events, id);
  }
}
