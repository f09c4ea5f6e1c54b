/** Why a run of the migration runner ends where it does, and the schema it leaves: its functions applied one by one. */
module MigrationSteps {
  import opened Common
  import opened Migrations
  import opened MigrationRuns

  /** One function a run means to call, and the version it stands for. */
  datatype Task<!S> = Task(version: int, f: Option<S -> (S, bool)>)

  /** The missing migrations, first to last. */
  function TasksUp<S>(ms: seq<Migration<S>>, applied: set<int>): seq<Task<S>> {
    if ms == [] then []
    else if ms[0].version in applied then TasksUp(ms[1..], applied)
    else [Task(ms[0].version, ms[0].up)] + TasksUp(ms[1..], applied)
  }

  /** The applied migrations above the target, last to first. */
  function TasksDown<S>(ms: seq<Migration<S>>, applied: set<int>, target: int): seq<Task<S>> {
    if ms == [] then []
    else
      var m, before := ms[|ms| - 1], TasksDown(ms[..|ms| - 1], applied, target);
      if m.version <= target || m.version !in applied then before else [Task(m.version, m.down)] + before
  }

  /** The schema after the first k tasks. */
  function Reached<S>(tasks: seq<Task<S>>, schema: S, k: nat): S
    requires k <= |tasks|
  {
    if k == 0 then schema
    else Reached(tasks[1..], if tasks[0].f.Some? then tasks[0].f.value(schema).0 else schema, k - 1)
  }

  /** A task that goes through: there is a function, it succeeds, and the store takes the record's change. */
  predicate GoesThrough<S>(task: Task<S>, schema: S, refused: set<int>) {
    task.f.Some? && task.f.value(schema).1 && task.version !in refused
  }

  /** Why a task does not go through; the function is called unless there is none. */
  ghost predicate StopsFor<S>(task: Task<S>, schema: S, refused: set<int>, cause: Cause, schema': S) {
    match task.f
    case None => cause == NoFunction && schema' == schema
    case Some(f) =>
      schema' == f(schema).0 && if !f(schema).1 then cause == FunctionFailed else task.version in refused && cause == RecordFailed
  }

  /** The first k tasks went through, each on the schema the ones before left; the run ended with the next, or with none left. */
  ghost predicate Ended<S>(tasks: seq<Task<S>>, schema: S, refused: set<int>, k: nat, schema': S, failure: Option<Failure>) {
    && k <= |tasks|
    && (forall i :: 0 <= i < k ==> GoesThrough(tasks[i], Reached(tasks, schema, i), refused))
    && match failure
       case None => k == |tasks| && schema' == Reached(tasks, schema, k)
       case Some(At(version, cause)) =>
         && k < |tasks| && version == tasks[k].version
         && StopsFor(tasks[k], Reached(tasks, schema, k), refused, cause, schema')
       case _ => false
  }

  lemma OneMoreTask<S>(task: Task<S>, tasks: seq<Task<S>>, schema: S, refused: set<int>, k: nat, schema': S, failure: Option<Failure>)
    requires GoesThrough(task, schema, refused)
    requires Ended(tasks, task.f.value(schema).0, refused, k, schema', failure)
    ensures Ended([task] + tasks, schema, refused, k + 1, schema', failure)
  {
    var all := [task] + tasks;
    assert all[1..] == tasks;
    hide GoesThrough, StopsFor;
    forall i | 0 <= i < k + 1 ensures GoesThrough(all[i], Reached(all, schema, i), refused) {
      if i > 0 {
        assert all[i] == tasks[i - 1] && Reached(all, schema, i) == Reached(tasks, task.f.value(schema).0, i - 1);
      }
    }
  }

  lemma {:induction false} UpAllEnds<S>(ms: seq<Migration<S>>, applied: set<int>, s: Store<S>, faults: Faults) returns (k: nat)
    requires Ascending(ms) && forall m :: m in ms && m.version !in applied ==> m.version !in s.records
    ensures var (s', failure) := UpAll(ms, applied, s, faults);
            Ended(TasksUp(ms, applied), s.schema, faults.insert, k, s'.schema, failure)
  {
    hide Ended;
    k := 0;
    if ms == [] {
      NoneLeft(s.schema, faults.insert);
    } else {
      TailAscends(ms);
      if ms[0].version in applied {
        k := UpAllEnds(ms[1..], applied, s, faults);
      } else {
        var (s1, failure) := UpOne(ms[0], s, faults);
        var task := Task(ms[0].version, ms[0].up);
        if failure.Some? {
          StopsAtFirst(task, TasksUp(ms[1..], applied), s.schema, faults.insert, s1.schema, failure.value.cause);
        } else {
          k := UpAllEnds(ms[1..], applied, s1, faults);
          var (s2, failure2) := UpAll(ms[1..], applied, s1, faults);
          OneMoreTask(task, TasksUp(ms[1..], applied), s.schema, faults.insert, k, s2.schema, failure2);
          k := k + 1;
        }
      }
    }
  }

  lemma NoneLeft<S>(schema: S, refused: set<int>)
    ensures Ended([], schema, refused, 0, schema, None)
  {
  }

  lemma StopsAtFirst<S>(task: Task<S>, tasks: seq<Task<S>>, schema: S, refused: set<int>, schema': S, cause: Cause)
    requires StopsFor(task, schema, refused, cause, schema')
    ensures Ended([task] + tasks, schema, refused, 0, schema', Some(At(task.version, cause)))
  {
  }

  lemma {:induction false} DownAllEnds<S>(ms: seq<Migration<S>>, applied: set<int>, target: int, s: Store<S>, faults: Faults)
    returns (k: nat)
    ensures var (s', failure) := DownAll(ms, applied, target, s, faults);
            Ended(TasksDown(ms, applied, target), s.schema, faults.delete, k, s'.schema, failure)
  {
    hide Ended;
    k := 0;
    if ms == [] {
      NoneLeft(s.schema, faults.delete);
    } else {
      var m, init := ms[|ms| - 1], ms[..|ms| - 1];
      if m.version <= target || m.version !in applied {
        k := DownAllEnds(init, applied, target, s, faults);
      } else {
        var (s1, failure) := DownOne(m, s, faults);
        var task := Task(m.version, m.down);
        if failure.Some? {
          StopsAtFirst(task, TasksDown(init, applied, target), s.schema, faults.delete, s1.schema, failure.value.cause);
        } else {
          k := DownAllEnds(init, applied, target, s1, faults);
          var (s2, failure2) := DownAll(init, applied, target, s1, faults);
          OneMoreTask(task, TasksDown(init, applied, target), s.schema, faults.delete, k, s2.schema, failure2);
          k := k + 1;
        }
      }
    }
  }

  // ---------------------------------------------------------------- main results

  /**
   A run up ends for one of these reasons and no other: the index or the records could not be had, and then nothing
   is changed; or, the missing migrations taken in order and each applied to the schema the ones before it left, the
   first that has no function, whose function fails, or whose record the store refuses. The schema left is that of
   the functions called.
   */
  lemma UpEndsFor<S>(ms: seq<Migration<S>>, s: Store<S>, faults: Faults) returns (k: nat)
    requires Ascending(ms)
    ensures var (s', failure) := RunUp(ms, s, faults);
            if faults.index then failure == Some(IndexFailed) && s' == s
            else if faults.find then failure == Some(FindFailed) && s' == s
            else Ended(TasksUp(ms, s.records), s.schema, faults.insert, k, s'.schema, failure)
  {
    hide Ended, Ascending;
    k := UpAllEnds(ms, s.records, s, faults);
  }

  /** A run down likewise, the applied migrations above the target taken from the last. */
  lemma DownEndsFor<S>(ms: seq<Migration<S>>, target: int, s: Store<S>, faults: Faults) returns (k: nat)
    ensures var (s', failure) := RunDown(ms, target, s, faults);
            if faults.find then failure == Some(FindFailed) && s' == s
            else Ended(TasksDown(ms, s.records, target), s.schema, faults.delete, k, s'.schema, failure)
  {
    hide Ended;
    k := DownAllEnds(ms, s.records, target, s, faults);
  }
}
