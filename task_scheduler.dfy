/**
 * The class TaskScheduler: an append-only store of tasks, each with a
 * memoization cell that forcing fills in place.
 *
 * `tasks` and `results` are the two halves of `tasks_` (the callable with its
 * argument tuple, and `result_`); `log` is a ghost record of the callables
 * that ran, in order. Each `result_` is an `OptionalCell.Optional<Any>` held
 * by value: an element of `results` is that cell's `contents`, an element's
 * `Value` is that `Any`'s `inner`, and `results := results[i := Some(v)]` is
 * `Optional.Assign(v)` on cell i. Every method is proved to do to `State()` exactly what
 * the functions of module TaskGraph say, and the public ones keep
 * `Consistent`, so the lemmas of TaskGraph describe each call.
 */
module Scheduler {
  import opened AnyValue
  import opened OptionalCell
  import opened TaskGraph

  class TaskScheduler {
    var tasks: seq<Task>
    var results: seq<Option<Value>>
    ghost var log: seq<TaskId>

    ghost function State(): Graph
      reads this
    {
      Graph(tasks, results, log)
    }

    ghost predicate Valid()
      reads this
    {
      Consistent(State())
    }

    constructor ()
      ensures Valid()
      ensures tasks == [] && results == [] && log == []
    {
      tasks, results, log := [], [], [];
      EmptyConsistent();
    }

    /**
     * `add(callable, args...)`: appends one unresolved task and returns its
     * identity. Earlier tasks, their cells and the log are untouched, so
     * references and handles obtained before stay valid. A handle among the
     * arguments can only refer to a task that already exists.
     */
    method Add(callable: seq<Value> -> Value, args: seq<Arg>) returns (id: TaskId)
      requires Valid()
      requires ArgsBefore(args, |tasks|)
      modifies this
      ensures Valid()
      ensures id == |old(tasks)| && id < |tasks|
      ensures tasks == old(tasks) + [Task(callable, args)]
      ensures results == old(results) + [None]
      ensures log == old(log)
    {
      AppendPreservesConsistent(State(), Task(callable, args));
      id := |tasks|;
      tasks := tasks + [Task(callable, args)];
      results := results + [None];
    }

    /**
     * `getFutureResult<R>(task)`: builds a handle to task `id` that will be
     * read as type `t`. It has no modifies clause, so it cannot force or log
     * anything; the handle may be passed to a later `Add`.
     */
    method GetFutureResult(id: TaskId, t: Tag) returns (a: Arg)
      requires id < |tasks|
      ensures a.Future? && a.handle.task == id && a.handle.expected == t
      ensures ArgsBefore([a], |tasks|)
    {
      a := Future(FutureResult(id, t));
    }

    /**
     * `getResult<R>(task)`: forces task `id` and reads its result as type
     * `t`; `bad_cast` unless `t` is exactly the type the callable produced.
     */
    method GetResult(id: TaskId, t: Tag) returns (r: Result<Value>)
      requires Valid() && id < |tasks|
      modifies this
      ensures Valid()
      ensures State() == ForceAs(old(State()), id, t).0 && r == ForceAs(old(State()), id, t).1
      ensures tasks == old(tasks) && old(log) <= log
      ensures r.Success? <==> Denote(tasks, id).Some? && TypeOf(Denote(tasks, id).value) == t
      ensures r.Success? ==> Denote(tasks, id) == Some(r.value)
      ensures old(results[id]).Some? ==> results == old(results) && log == old(log)
    {
      ForceAsSpec(State(), id, t);
      var v := ForceTask(id);
      r := if v.Failure? then v else DynamicCast(v.value, t);
    }

    /**
     * `executeAll()`: forces every task in registration order; a `bad_cast`
     * stops the loop. When it completes, exactly the tasks that were
     * pending have run, in registration order, and every cell is full.
     */
    method ExecuteAll() returns (r: Result<()>)
      requires Valid()
      modifies this
      ensures Valid()
      ensures State() == ForceFrom(old(State()), 0).0 && r == ForceFrom(old(State()), 0).1
      ensures tasks == old(tasks)
      ensures old(log) <= log <= old(log) + Pending(old(results), 0)
      ensures r.Success? ==> log == old(log) + Pending(old(results), 0)
      ensures r.Success? ==> forall j | 0 <= j < |results| :: results[j].Some? && results[j] == Denote(tasks, j)
      ensures r.Success? <==> forall j | 0 <= j < |tasks| :: Denote(tasks, j).Some?
    {
      ForceFromSpec(State(), 0);
      ForceFromSucceeds(State(), 0);
      ghost var g0 := State();
      var k := 0;
      while k < |tasks|
        invariant 0 <= k <= |tasks|
        invariant tasks == g0.tasks && |results| == |tasks|
        invariant WellFormed(State())
        invariant ForceFrom(State(), k) == ForceFrom(g0, 0)
      {
        var v := ForceTask(k);
        if v.Failure? {
          return Failure(v.error);
        }
        k := k + 1;
      }
      r := Success(());
    }

    /**
     * `Task::getResult` for task i: return the cached result, or bind the
     * arguments left to right (each handle forced and converted by
     * `ConvertHandle`), run the callable, and store its result.
     */
    method ForceTask(i: TaskId) returns (r: Result<Value>)
      requires WellFormed(State()) && i < |tasks|
      modifies this
      ensures State() == Force(old(State()), i).0 && r == Force(old(State()), i).1
      decreases i, 1
    {
      if results[i].Some? {
        return Success(results[i].value);
      }
      ghost var g0 := State();
      var args := tasks[i].args;
      var bound: seq<Value> := [];
      var k := 0;
      while k < |args|
        invariant 0 <= k <= |args|
        invariant tasks == g0.tasks && |results| == |tasks| && args == tasks[i].args
        invariant EvalArgs(State(), i, k, bound) == EvalArgs(g0, i, 0, [])
      {
        match args[k] {
          case Literal(v) =>
            bound := bound + [v];
          case Future(h) =>
            assert ArgsBefore(tasks[i].args, i);
            var x := ConvertHandle(h);
            if x.Failure? {
              return Failure(x.error);
            }
            bound := bound + [x.value];
        }
        k := k + 1;
      }
      var v := tasks[i].callable(bound);
      results := results[i := Some(v)];
      log := log + [i];
      r := Success(v);
    }

    /** `Result<R>::operator R()`: force the referenced task, then `cast<R>()` its result. */
    method ConvertHandle(h: FutureResult) returns (r: Result<Value>)
      requires WellFormed(State()) && h.task < |tasks|
      modifies this
      ensures State() == ForceAs(old(State()), h.task, h.expected).0
      ensures r == ForceAs(old(State()), h.task, h.expected).1
      decreases h.task, 2
    {
      var v := ForceTask(h.task);
      r := if v.Failure? then v else DynamicCast(v.value, h.expected);
    }
  }
}
