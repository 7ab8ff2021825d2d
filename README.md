# TaskScheduler in Dafny

A model of the demand-driven, memoizing task graph of `TaskScheduler`. It also
models the two erasure primitives the scheduler is built on: `notstd::any`, a
value tagged with its runtime type, and `notstd::optional`, a cell that is
filled once.

A client registers tasks with `add`. Each task is a callable plus a tuple of
arguments. An argument is either a literal or a handle, made by
`getFutureResult<R>`, to a task registered earlier. Reading a result with
`getResult<R>` forces the task:

- if its cell is full, it returns the cached value;
- otherwise it forces each handle argument first, converting the result to
  `R` (a reference `dynamic_cast`, which throws `bad_cast` on a type
  mismatch), then runs the callable once and stores the result.

`executeAll` forces every task in registration order.

Files and modules:

- `any_value.dfy`, module `AnyValue`: `notstd::any`. An `InnerImpl<T>` is a
  `Value` whose constructor is its runtime type (`Tag`), and `DynamicCast` is
  the reference `dynamic_cast`. Class `Any` has the field `inner` that both
  assignment operators replace in place.
- `optional_cell.dfy`, module `OptionalCell`: `notstd::optional`. Class
  `Optional` has the field `contents`, and `HasValue` and `Value` are its
  queries.
- `task_graph.dfy`, module `TaskGraph`: the scheduler's state as a value, a
  `Graph` made of tasks, cells and a ghost log of the callables that ran.
  - `Force`, `EvalArgs`, `ForceAs` and `ForceFrom` say what `Task::getResult`,
    argument binding, `Result::operator R` and `executeAll` do to the state.
  - `Denote` is an independent reference semantics: a task's value computed
    without memoization.
  - `Consistent` is the scheduler invariant: each callable ran at most once,
    a cell is full exactly when its task ran, the log is a post-order of the
    dependencies, and every full cell holds its task's reference value.
- `task_scheduler.dfy`, module `Scheduler`: class `TaskScheduler`. Its
  fields `tasks` and `results` are updated in place, and a `while` loop
  forces the tasks in `ExecuteAll` and binds the arguments in `ForceTask`.
  Every method is proved to change the state exactly as the `TaskGraph`
  functions say. The public methods keep `Consistent`.
- `scenarios.dfy`, module `Scenarios`: the scheduler's unit tests written as
  verified client methods.
  - Task numbers are 0-based, so the test log "1235" is `[0, 1, 2, 4]`.
  - The ghost log stands in for the tests' writes to a string stream.

## Model

| member | source | states |
|---|---|---|
| AnyValue.DynamicCast | lib/notstd/any.h:57-65 | the cast succeeds exactly when the requested type is the stored value's runtime type, and then yields the payload unchanged |
| AnyValue.Any.constructor | lib/notstd/any.h:36 | a default `any` holds `bool` false and is never empty |
| AnyValue.Any.Of | lib/notstd/any.h:41 | constructing from a value stores it under its own type |
| AnyValue.Any.Copy | lib/notstd/any.h:38 | a copy has the source's type and value |
| AnyValue.Any.CopyAssign | lib/notstd/any.h:43-48 | after copy-then-swap the target holds the source's old type and value, also under self-assignment, and a distinct source is unchanged |
| AnyValue.Any.Assign | lib/notstd/any.h:50-55 | assigning a value replaces the stored type and value, whatever was held before |
| AnyValue.Any.Cast | lib/notstd/any.h:57-65 | `cast<T>` returns the payload exactly when T is the stored type and fails otherwise |
| OptionalCell.Optional.constructor | lib/notstd/optional.h:13 | a default optional is empty |
| OptionalCell.Optional.Of | lib/notstd/optional.h:17 | constructing from a value gives a full optional that holds it |
| OptionalCell.Optional.Copy | lib/notstd/optional.h:15 | copying needs a full source and gives a full optional with the same value |
| OptionalCell.Optional.CopyAssign | lib/notstd/optional.h:19-24 | copy assignment needs a full source, leaves the target full with the source's old value, and leaves a distinct source unchanged |
| OptionalCell.Optional.HasValue | lib/notstd/optional.h:32-34 | `has_value()` is true exactly when the cell holds a value (`value_` is not null) |
| OptionalCell.Optional.Value | lib/notstd/optional.h:36-42 | `value()` needs a full cell, since it dereferences `value_` unchecked, and yields the value the cell holds |
| OptionalCell.Optional.Assign | lib/notstd/optional.h:26-30 | assigning a value leaves the optional full with that value, so it never becomes empty again |
| TaskGraph.Cone | lib/TaskScheduler/TaskScheduler.h:26 | the tasks a task depends on, itself included, are all registered no later than it |
| TaskGraph.ConeArgs | lib/TaskScheduler/TaskScheduler.h:43-45 | every task a handle argument depends on is registered strictly before the task that holds the handle |
| TaskGraph.Force | lib/TaskScheduler/TaskScheduler.h:24-30 | forcing a task keeps the task list and the number of cells |
| TaskGraph.EvalArgs | lib/TaskScheduler/TaskScheduler.h:26 | binding arguments keeps the task list and the number of cells |
| TaskGraph.ForceAs | lib/TaskScheduler/TaskScheduler.h:43-45 | converting a handle keeps the task list and the number of cells |
| TaskGraph.ForceFrom | lib/TaskScheduler/TaskScheduler.h:79-83 | the `executeAll` loop keeps the task list and the number of cells |
| TaskGraph.Pending | lib/TaskScheduler/TaskScheduler.h:79-83 | the tasks still to run from k on are in range, at or after k, and have empty cells |
| TaskGraph.EmptyConsistent | lib/TaskScheduler/TaskScheduler.h:86 | an empty scheduler satisfies the invariant |
| TaskGraph.RecordPreservesConsistent | lib/TaskScheduler/TaskScheduler.h:26 | storing a task's reference value, once its handle arguments are resolved, and logging it keeps the invariant |
| TaskGraph.ForceSpec | lib/TaskScheduler/TaskScheduler.h:24-30 | forcing keeps the invariant, changes no full cell, only appends to the log, and runs only tasks the target depends on; it succeeds exactly when the task has a reference value, returns that value, and fills the cell; on failure the cell stays empty |
| TaskGraph.EvalArgsSpec | lib/TaskScheduler/TaskScheduler.h:26 | binding arguments from k on yields the arguments' reference values after those already bound, or fails exactly when one of them has none, with the same guarantees as forcing |
| TaskGraph.EvalFutureArgSpec | lib/TaskScheduler/TaskScheduler.h:43-45 | the same guarantees when the next argument is a handle |
| TaskGraph.FutureArgConverted | lib/TaskScheduler/TaskScheduler.h:43-45 | the same guarantees once the handle's task has been forced and converted |
| TaskGraph.ForceAsSpec | lib/TaskScheduler/TaskScheduler.h:74-77 | reading a task as type t succeeds exactly when its reference value exists and has type t, and then returns that value |
| TaskGraph.ForceIdempotent | lib/TaskScheduler/TaskScheduler.h:25-29 | once forcing has succeeded, forcing again returns the same value and changes nothing, so nothing more is logged |
| TaskGraph.ResolvedConeIsResolved | lib/TaskScheduler/TaskScheduler.h:25-27 | every task a resolved task depends on is resolved |
| TaskGraph.ResolvedConeArgsAreResolved | lib/TaskScheduler/TaskScheduler.h:25-27 | every task a resolved task's handles depend on is resolved |
| TaskGraph.ForceRunsPendingCone | lib/TaskScheduler/TaskScheduler.h:24-30 | a successful force runs exactly the unresolved tasks the target depends on, each of them once |
| TaskGraph.NewEntryWasPending | lib/TaskScheduler/TaskScheduler.h:25-27 | every task logged between two consistent states had an empty cell in the earlier one |
| TaskGraph.ForceNextInOrder | lib/TaskScheduler/TaskScheduler.h:79-83 | when all earlier tasks are resolved, forcing task k leaves every other cell unchanged and logs k exactly when k was pending and the force succeeded |
| TaskGraph.OnlyTaskLogged | lib/TaskScheduler/TaskScheduler.h:79-83 | between two consistent states, if every task below k was resolved and no new log entry is above k, then only cell k can have changed, and k was logged exactly when its cell went from empty to full |
| TaskGraph.ForceFromStep | lib/TaskScheduler/TaskScheduler.h:80-82 | one iteration of the `executeAll` loop runs exactly the next pending task, if any, or fails without logging |
| TaskGraph.PendingAfterStep | lib/TaskScheduler/TaskScheduler.h:80-82 | filling the cell of task k, and logging k when it was pending, leaves the same tasks still to be logged |
| TaskGraph.ForceFromSpec | lib/TaskScheduler/TaskScheduler.h:79-83 | `executeAll` keeps the invariant, runs a prefix of the pending tasks in registration order, and when it completes has run them all and filled every cell |
| TaskGraph.ForceFromSucceeds | lib/TaskScheduler/TaskScheduler.h:79-83 | `executeAll` completes exactly when every remaining task has a reference value, that is, when no handle is read under the wrong type |
| TaskGraph.ForceFromResolved | lib/TaskScheduler/TaskScheduler.h:79-83 | `executeAll` on a fully resolved scheduler changes nothing |
| TaskGraph.ExecuteAllIdempotent | lib/TaskScheduler/TaskScheduler.h:79-83 | a second `executeAll` after a completed one changes neither cells nor log |
| TaskGraph.ExecuteAllInRegistrationOrder | lib/TaskScheduler/TaskScheduler.h:79-83 | on a scheduler where nothing has run, a completed `executeAll` logs every task once, in registration order |
| TaskGraph.ExecuteAllFromScratch | lib/TaskScheduler/TaskScheduler.h:79-83 | on a fresh scheduler whose tasks all have values, `executeAll` completes, logs every task in order and fills each cell with its task's value |
| TaskGraph.DenoteStable | lib/TaskScheduler/TaskScheduler.h:63-67 | appending a task does not change the value of any earlier task |
| TaskGraph.AppendPreservesConsistent | lib/TaskScheduler/TaskScheduler.h:63-67 | appending an unresolved task whose handles refer to earlier tasks keeps the invariant |
| Scheduler.TaskScheduler.constructor | lib/TaskScheduler/TaskScheduler.h:86 | a new scheduler has no tasks, no results and an empty log |
| Scheduler.TaskScheduler.Add | lib/TaskScheduler/TaskScheduler.h:62-67 | appends exactly one unresolved task and returns its position; earlier tasks, cells and the log are unchanged |
| Scheduler.TaskScheduler.GetFutureResult | lib/TaskScheduler/TaskScheduler.h:69-72 | builds a handle to an existing task under the requested type without changing anything |
| Scheduler.TaskScheduler.GetResult | lib/TaskScheduler/TaskScheduler.h:74-77 | forces the task and reads it as type t; succeeds exactly when the reference value exists with that type and returns it; keeps the invariant; on a resolved task it changes neither the cells nor the log |
| Scheduler.TaskScheduler.ExecuteAll | lib/TaskScheduler/TaskScheduler.h:79-83 | forces every task in order and stops at the first `bad_cast`; runs a prefix of the pending tasks, all of them when it completes, and completes exactly when every task has a value, leaving each cell holding its task's value |
| Scheduler.TaskScheduler.ForceTask | lib/TaskScheduler/TaskScheduler.h:24-30 | returns the cached value or binds the arguments left to right, runs the callable and stores its result, as `Force` says |
| Scheduler.TaskScheduler.ConvertHandle | lib/TaskScheduler/TaskScheduler.h:43-45 | forces the referenced task and casts its result, as `ForceAs` says |
| Scenarios.QuadraticChain | tests/task_scheduler_tests.cpp:171-207 | building the quadratic chain through `add` and `getFutureResult` runs nothing |
| Scenarios.QuadraticValues | tests/task_scheduler_tests.cpp:171-207 | the six tasks of the chain with a = 1, b = -2, c = 0 stand for 0, 4, 4, 0, 2 and 0 |
| Scenarios.QuadraticOnDemand | tests/task_scheduler_tests.cpp:209-215 | reading task 5 runs 1, 2, 3, 5 and yields 2; reading task 6 afterwards runs only 4, 6 and yields 0 |
| Scenarios.QuadraticExecuteAll | tests/task_scheduler_tests.cpp:45-50 | `executeAll` on the chain runs 1 to 6 in order and fills every cell with its value |
| Scenarios.OneArgChain | tests/task_scheduler_tests.cpp:100-114 | registering the two tasks of OneArgTest runs nothing |
| Scenarios.OneArgValues | tests/task_scheduler_tests.cpp:116-121 | the two tasks of OneArgTest stand for 2 and 1 |
| Scenarios.ThreeArgsChain | tests/task_scheduler_tests.cpp:124-140 | registering the two tasks of ThreeArgsTest, the handle first in the second tuple, runs nothing |
| Scenarios.ThreeArgsValues | tests/task_scheduler_tests.cpp:142-147 | the two tasks of ThreeArgsTest stand for 5 and 15 |
| Scenarios.StringValues | tests/task_scheduler_tests.cpp:218-237 | the two tasks of StringTypeTest stand for "Abb" and "AAbb" |

The methods `IntTypeTest`, `ReadmeTest`, `OneArgTest`, `ThreeArgsTest`,
`FunctorTest` and `StringTypeTest` in `scenarios.dfy` restate the tests of
the same names. They assert the tests' results and logs. `BadCastTest` and
`BadHandleTest` cover the `bad_cast` paths, which no test exercises: reading
a resolved `int` task as `float`, and a handle typed `int` to a `float` task,
after which the dependency keeps its result and the dependent cell stays
empty.

## Left out

- Floating point: a `float` payload is a Dafny `real`, with no rounding. The floating-point `std::sqrt` is not modelled; only IntTypeTest's `static_cast<int>(std::sqrt(d))` is, as `FloorSqrt`, the floor of the square root. So ReadmeTest and OrderTest, whose chains use `float` and `std::sqrt`, are restated on the integer chain of IntTypeTest, which has the same shape and logs.
- The payload types form a closed set of four: `bool`, `int`, `float` and `std::string`. C++ integer width and overflow are not modelled, and neither are other types.
- `notstd::function` (lib/notstd/function.h) is not part of this model. A callable is a Dafny function value over the erased argument list. Checking an argument tuple against the callable's parameter types happens at compile time in C++. The model's callables return the default value on an ill-typed list, which no well-typed client can produce. A callable is a pure `seq<Value> -> Value` function, so it cannot call back into the scheduler. A re-entrant `getResult` on the task being forced, or an `add` during `executeAll`, is not modelled: the first would break at-most-once execution and the second would invalidate the loop's iterator.
- Implicit conversions at the call, such as FunctorTest's `int` argument passed to a `float` parameter, are written into the callable (`TimesTwoFunctor` in `scenarios.dfy`).
- Order among several handle arguments of one task: C++17 initializes parameters in an indeterminately sequenced order. Each conversion completes before the next begins, but the order is unspecified. The model binds left to right, which is one of the permitted orders. Two handles to the same task are well defined in either order: the first conversion runs the dependency and the second reads the cached cell.
- The template machinery is not modelled: `result_type`, the `dynamic_cast` in `add` (which always succeeds), `unique_ptr` ownership, destructors, and handles that dangle after the scheduler is destroyed. A task reference is its index.
- Exceptions thrown by the callables themselves are not modelled. There is no concurrency.
- AnyValue.Any.Cast: returns the payload by value, so writes through the reference `cast<T>()` returns are not modelled.
- OptionalCell.Optional: `value()` likewise returns a copy, not a reference into the cell.
- The tests' string-stream output is the ghost `log`, and each callable's write to the stream is its entry in that log.
