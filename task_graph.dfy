/**
 * The state of a TaskScheduler as a value, and what its operations do to it.
 *
 * A `Graph` is the scheduler's `tasks_` vector seen as three parallel parts:
 * each task's callable and argument list, each task's memoization cell
 * `result_`, and a ghost log of the tasks whose callable ran, in the order
 * they ran. Task identities are indices into `tasks_`, which `add` only ever
 * appends to, so an index stays valid for the life of the scheduler.
 *
 * `Force` is `Task::getResult`, `ForceAs` is `Result::operator R` and
 * `getResult<R>`, and `ForceFrom` is the loop of `executeAll`. `Denote` is an
 * independent reference semantics: the value a task stands for, computed
 * without any memoization. The lemmas show that forcing agrees with it, that
 * every callable runs at most once, that the log is a post-order of the
 * dependencies, and that `executeAll` runs the pending tasks in registration
 * order.
 */
module TaskGraph {
  import opened AnyValue
  import opened OptionalCell

  /** A task's position in `tasks_`; `add` returns a reference to it. */
  type TaskId = nat

  /** `Result<R, Args...>`: a non-owning handle to `task`, read back as type `expected`. */
  datatype FutureResult = FutureResult(task: TaskId, expected: Tag)

  /** One element of a task's argument tuple: a literal, or a handle to an earlier task. */
  datatype Arg = Literal(value: Value) | Future(handle: FutureResult)

  /** A `Task<Args...>` without its cell: the erased callable and the bound arguments. */
  datatype Task = Task(callable: seq<Value> -> Value, args: seq<Arg>)

  datatype Graph = Graph(tasks: seq<Task>, cells: seq<Option<Value>>, log: seq<TaskId>)

  /** Every handle among `args` refers to a task below `n`. */
  predicate ArgsBefore(args: seq<Arg>, n: nat)
  {
    forall k | 0 <= k < |args| :: args[k].Future? ==> args[k].handle.task < n
  }

  /**
   * A handle can only be built from a `Task&` that `add` already returned,
   * so every dependency of task i is a task registered before i.
   */
  predicate BackwardDeps(tasks: seq<Task>)
  {
    forall i | 0 <= i < |tasks| :: ArgsBefore(tasks[i].args, i)
  }

  predicate WellFormed(g: Graph)
  {
    |g.cells| == |g.tasks| && BackwardDeps(g.tasks)
  }

  // ---------------------------------------------------------------------------
  // Reference semantics and dependency cones
  // ---------------------------------------------------------------------------

  /**
   * The value task i stands for: its callable applied to its arguments, each
   * handle replaced by the value of the task it refers to; None when some
   * handle's expected type differs from what that task produces.
   */
  function Denote(tasks: seq<Task>, i: TaskId): Option<Value>
    requires BackwardDeps(tasks) && i < |tasks|
    decreases i, 1
  {
    match DenoteArgs(tasks, i, 0)
    case None => None
    case Some(vs) => Some(tasks[i].callable(vs))
  }

  /** The values of arguments k.. of task i, or None if one of them has none. */
  function DenoteArgs(tasks: seq<Task>, i: TaskId, k: nat): Option<seq<Value>>
    requires BackwardDeps(tasks) && i < |tasks| && k <= |tasks[i].args|
    decreases i, 0, |tasks[i].args| - k
  {
    if k == |tasks[i].args| then Some([])
    else
      var head: Option<Value> :=
        match tasks[i].args[k]
        case Literal(v) => Some(v)
        case Future(h) =>
          match Denote(tasks, h.task)
          case None => None
          case Some(v) => if DynamicCast(v, h.expected).Success? then Some(v) else None;
      match (head, DenoteArgs(tasks, i, k + 1))
      case (Some(v), Some(vs)) => Some([v] + vs)
      case _ => None
  }

  /** Task i and every task it depends on, directly or transitively. */
  function Cone(tasks: seq<Task>, i: TaskId): (c: set<TaskId>)
    requires BackwardDeps(tasks) && i < |tasks|
    ensures i in c
    ensures forall j :: j in c ==> j <= i
    decreases i, 1
  {
    {i} + ConeArgs(tasks, i, 0)
  }

  /** The cones of the tasks that arguments k.. of task i refer to. */
  function ConeArgs(tasks: seq<Task>, i: TaskId, k: nat): (c: set<TaskId>)
    requires BackwardDeps(tasks) && i < |tasks| && k <= |tasks[i].args|
    ensures forall j :: j in c ==> j < i
    decreases i, 0, |tasks[i].args| - k
  {
    if k == |tasks[i].args| then {}
    else
      (match tasks[i].args[k]
       case Literal(_) => {}
       case Future(h) => Cone(tasks, h.task))
      + ConeArgs(tasks, i, k + 1)
  }

  // ---------------------------------------------------------------------------
  // The operations
  // ---------------------------------------------------------------------------

  /**
   * `Task::getResult` for task i: the cached value when the cell is full;
   * otherwise bind the arguments left to right (forcing each handle), run the
   * callable once, store its result and log i. A failed handle conversion
   * propagates and leaves the cell of i empty.
   */
  function Force(g: Graph, i: TaskId): (out: (Graph, Result<Value>))
    requires WellFormed(g) && i < |g.tasks|
    ensures out.0.tasks == g.tasks && |out.0.cells| == |g.cells|
    decreases i, 1
  {
    match g.cells[i]
    case Some(v) => (g, Success(v))
    case None =>
      var (g1, bound) := EvalArgs(g, i, 0, []);
      if bound.Failure? then (g1, Failure(bound.error))
      else
        var v := g.tasks[i].callable(bound.value);
        (g1.(cells := g1.cells[i := Some(v)], log := g1.log + [i]), Success(v))
  }

  /** Binds arguments k.. of task i after the values `acc` of arguments ..k. */
  function EvalArgs(g: Graph, i: TaskId, k: nat, acc: seq<Value>): (out: (Graph, Result<seq<Value>>))
    requires WellFormed(g) && i < |g.tasks| && k <= |g.tasks[i].args|
    ensures out.0.tasks == g.tasks && |out.0.cells| == |g.cells|
    decreases i, 0, |g.tasks[i].args| - k
  {
    if k == |g.tasks[i].args| then (g, Success(acc))
    else
      match g.tasks[i].args[k]
      case Literal(v) => EvalArgs(g, i, k + 1, acc + [v])
      case Future(h) =>
        var (g1, r) := ForceAs(g, h.task, h.expected);
        if r.Failure? then (g1, Failure(r.error))
        else EvalArgs(g1, i, k + 1, acc + [r.value])
  }

  /** `task_.getResult().cast<R>()`: force task j, then extract its result as type t. */
  function ForceAs(g: Graph, j: TaskId, t: Tag): (out: (Graph, Result<Value>))
    requires WellFormed(g) && j < |g.tasks|
    ensures out.0.tasks == g.tasks && |out.0.cells| == |g.cells|
    decreases j, 2
  {
    var (g1, r) := Force(g, j);
    if r.Failure? then (g1, r) else (g1, DynamicCast(r.value, t))
  }

  /** The loop of `executeAll` from task k on; an exception stops it. */
  function ForceFrom(g: Graph, k: nat): (out: (Graph, Result<()>))
    requires WellFormed(g) && k <= |g.tasks|
    ensures out.0.tasks == g.tasks && |out.0.cells| == |g.cells|
    decreases |g.tasks| - k
  {
    if k == |g.tasks| then (g, Success(()))
    else
      var (g1, r) := Force(g, k);
      if r.Failure? then (g1, Failure(r.error)) else ForceFrom(g1, k + 1)
  }

  /** The tasks from k on whose cell is empty, in registration order. */
  function Pending(cells: seq<Option<Value>>, k: nat): (p: seq<TaskId>)
    requires k <= |cells|
    ensures forall q | 0 <= q < |p| :: k <= p[q] < |cells| && cells[p[q]].None?
    decreases |cells| - k
  {
    if k == |cells| then []
    else (if cells[k].None? then [k] else []) + Pending(cells, k + 1)
  }

  // ---------------------------------------------------------------------------
  // The scheduler invariant
  // ---------------------------------------------------------------------------

  ghost predicate LogInRange(g: Graph)
  {
    forall p | 0 <= p < |g.log| :: g.log[p] < |g.tasks|
  }

  /** No callable has run twice. */
  ghost predicate RunsOnce(g: Graph)
  {
    forall p, q | 0 <= p < q < |g.log| :: g.log[p] != g.log[q]
  }

  /** A cell is full exactly when its task's callable has run. */
  ghost predicate LogMatchesCells(g: Graph)
  {
    |g.cells| == |g.tasks| &&
    forall j | 0 <= j < |g.cells| :: g.cells[j].Some? <==> j in g.log
  }

  /** Every task that ran was preceded in the log by all the tasks its handles refer to. */
  ghost predicate PostOrder(g: Graph)
    requires LogInRange(g)
  {
    forall p, k | 0 <= p < |g.log| && 0 <= k < |g.tasks[g.log[p]].args| ::
      g.tasks[g.log[p]].args[k].Future? ==> g.tasks[g.log[p]].args[k].handle.task in g.log[..p]
  }

  /** Every full cell holds the value its task stands for. */
  ghost predicate Memoized(g: Graph)
    requires WellFormed(g)
  {
    forall j | 0 <= j < |g.cells| && g.cells[j].Some? :: g.cells[j] == Denote(g.tasks, j)
  }

  ghost predicate Consistent(g: Graph)
  {
    WellFormed(g) && LogInRange(g) && RunsOnce(g) && LogMatchesCells(g) && PostOrder(g) && Memoized(g)
  }

  /** h is a later state of g: same tasks, a longer log, and no full cell changed. */
  ghost predicate Extends(g: Graph, h: Graph)
  {
    h.tasks == g.tasks && |h.cells| == |g.cells| && g.log <= h.log &&
    forall j | 0 <= j < |g.cells| && g.cells[j].Some? :: h.cells[j] == g.cells[j]
  }

  /** Every handle among arguments ..k of a task refers to a full cell. */
  ghost predicate DepsResolved(cells: seq<Option<Value>>, args: seq<Arg>, k: nat)
  {
    forall k' | 0 <= k' < k && k' < |args| && args[k'].Future? ::
      args[k'].handle.task < |cells| && cells[args[k'].handle.task].Some?
  }

  lemma ExtendsTransitive(g: Graph, h: Graph, f: Graph)
    requires Extends(g, h) && Extends(h, f)
    ensures Extends(g, f)
  {
  }

  /** The empty scheduler satisfies the invariant. */
  lemma EmptyConsistent()
    ensures Consistent(Graph([], [], []))
  {
  }

  // ---------------------------------------------------------------------------
  // Storing a result (line 26 of Task::getResult)
  // ---------------------------------------------------------------------------

  /**
   * Filling the empty cell of a task whose dependencies are all resolved,
   * with the value it stands for, and logging it, keeps the invariant.
   */
  lemma RecordPreservesConsistent(g: Graph, i: TaskId, v: Value)
    requires Consistent(g) && i < |g.tasks| && g.cells[i].None?
    requires DepsResolved(g.cells, g.tasks[i].args, |g.tasks[i].args|)
    requires Denote(g.tasks, i) == Some(v)
    ensures Consistent(g.(cells := g.cells[i := Some(v)], log := g.log + [i]))
  {
    var h := g.(cells := g.cells[i := Some(v)], log := g.log + [i]);
    assert i !in g.log;
    forall p, q | 0 <= p < q < |h.log| ensures h.log[p] != h.log[q] {
      if q == |g.log| {
        assert h.log[p] == g.log[p];
      }
    }
    forall j | 0 <= j < |h.cells| ensures h.cells[j].Some? <==> j in h.log {
      if j != i {
        assert j in h.log <==> j in g.log;
      }
    }
    forall p, k | 0 <= p < |h.log| && 0 <= k < |h.tasks[h.log[p]].args| && h.tasks[h.log[p]].args[k].Future?
      ensures h.tasks[h.log[p]].args[k].handle.task in h.log[..p]
    {
      if p < |g.log| {
        assert h.log[..p] == g.log[..p];
      } else {
        var d := g.tasks[i].args[k].handle.task;
        assert g.cells[d].Some?;
        assert h.log[..p] == g.log;
      }
    }
  }

  // ---------------------------------------------------------------------------
  // Forcing
  // ---------------------------------------------------------------------------

  /**
   * Forcing task i keeps the invariant, changes no full cell, only appends to
   * the log, and runs only tasks of the cone of i. It succeeds exactly when
   * the reference semantics gives i a value, returns that value, and then
   * leaves the cell of i full; when it fails the cell of i stays empty.
   */
  lemma {:induction false} ForceSpec(g: Graph, i: TaskId)
    requires Consistent(g) && i < |g.tasks|
    ensures var out := Force(g, i);
      Consistent(out.0) && Extends(g, out.0) &&
      (forall p | |g.log| <= p < |out.0.log| :: out.0.log[p] in Cone(g.tasks, i)) &&
      (out.1.Success? <==> out.0.cells[i].Some?) &&
      (out.1.Success? <==> Denote(g.tasks, i).Some?) &&
      (out.1.Success? ==> Denote(g.tasks, i) == Some(out.1.value))
    decreases i, 1
  {
    if g.cells[i].None? {
      EvalArgsSpec(g, i, 0, []);
      var (g1, bound) := EvalArgs(g, i, 0, []);
      if bound.Success? {
        assert bound.value == DenoteArgs(g.tasks, i, 0).value;
        var v := g.tasks[i].callable(bound.value);
        assert Denote(g.tasks, i) == Some(v);
        RecordPreservesConsistent(g1, i, v);
        var h := g1.(cells := g1.cells[i := Some(v)], log := g1.log + [i]);
        assert h == Force(g, i).0;
        forall p | |g.log| <= p < |h.log| ensures h.log[p] in Cone(g.tasks, i) {
          if p < |g1.log| {
            assert h.log[p] == g1.log[p];
          }
        }
      }
    }
  }

  /**
   * Binding arguments k.. of an unresolved task i: the same guarantees as
   * `ForceSpec`, for the cone of those arguments. On success the bound
   * values are `acc` followed by the arguments' reference values, and every
   * handle of i refers to a full cell.
   */
  lemma {:induction false} EvalArgsSpec(g: Graph, i: TaskId, k: nat, acc: seq<Value>)
    requires Consistent(g) && i < |g.tasks| && k <= |g.tasks[i].args| && g.cells[i].None?
    requires DepsResolved(g.cells, g.tasks[i].args, k)
    ensures EvalArgsGuarantee(g, i, k, acc)
    decreases i, 0, |g.tasks[i].args| - k, 2
  {
    var args := g.tasks[i].args;
    if k < |args| {
      match args[k]
      case Literal(v) =>
        EvalArgsSpec(g, i, k + 1, acc + [v]);
        assert DepsResolved(g.cells, args, k + 1);
      case Future(hd) =>
        EvalFutureArgSpec(g, i, k, acc);
    }
  }

  ghost predicate EvalArgsGuarantee(g: Graph, i: TaskId, k: nat, acc: seq<Value>)
    requires WellFormed(g) && i < |g.tasks| && k <= |g.tasks[i].args|
  {
    var out := EvalArgs(g, i, k, acc);
    Consistent(out.0) && Extends(g, out.0) && out.0.cells[i].None? &&
    (forall p | |g.log| <= p < |out.0.log| :: out.0.log[p] in ConeArgs(g.tasks, i, k)) &&
    (out.1.Success? <==> DenoteArgs(g.tasks, i, k).Some?) &&
    (out.1.Success? ==>
      out.1.value == acc + DenoteArgs(g.tasks, i, k).value &&
      DepsResolved(out.0.cells, g.tasks[i].args, |g.tasks[i].args|))
  }

  /** `EvalArgsSpec` when argument k is a handle: force it, convert it, go on. */
  lemma {:induction false} EvalFutureArgSpec(g: Graph, i: TaskId, k: nat, acc: seq<Value>)
    requires Consistent(g) && i < |g.tasks| && k < |g.tasks[i].args| && g.cells[i].None?
    requires g.tasks[i].args[k].Future?
    requires DepsResolved(g.cells, g.tasks[i].args, k)
    ensures EvalArgsGuarantee(g, i, k, acc)
    decreases i, 0, |g.tasks[i].args| - k, 1
  {
    var args := g.tasks[i].args;
    var hd := args[k].handle;
    assert ArgsBefore(args, i);
    var j := hd.task;
    ForceSpec(g, j);
    var (g1, r) := Force(g, j);
    if r.Success? && DynamicCast(r.value, hd.expected).Success? {
      FutureArgConverted(g, i, k, acc);
    } else {
      assert Cone(g.tasks, j) <= ConeArgs(g.tasks, i, k);
      assert EvalArgs(g, i, k, acc).0 == g1;
      assert DenoteArgs(g.tasks, i, k).None?;
      assert i !in g1.log;
    }
  }

  /** `EvalFutureArgSpec` once the handle's task was forced and its result converted. */
  lemma {:induction false} FutureArgConverted(g: Graph, i: TaskId, k: nat, acc: seq<Value>)
    requires Consistent(g) && i < |g.tasks| && k < |g.tasks[i].args| && g.cells[i].None?
    requires g.tasks[i].args[k].Future? && g.tasks[i].args[k].handle.task < i
    requires DepsResolved(g.cells, g.tasks[i].args, k)
    requires var hd := g.tasks[i].args[k].handle;
      var out := Force(g, hd.task);
      Consistent(out.0) && Extends(g, out.0) &&
      (forall p | |g.log| <= p < |out.0.log| :: out.0.log[p] in Cone(g.tasks, hd.task)) &&
      out.1.Success? && out.0.cells[hd.task].Some? &&
      Denote(g.tasks, hd.task) == Some(out.1.value) &&
      DynamicCast(out.1.value, hd.expected).Success?
    ensures EvalArgsGuarantee(g, i, k, acc)
    decreases i, 0, |g.tasks[i].args| - k, 0
  {
    var args := g.tasks[i].args;
    var hd := args[k].handle;
    var (g1, r) := Force(g, hd.task);
    assert DepsResolved(g1.cells, args, k + 1);
    EvalArgsSpec(g1, i, k + 1, acc + [r.value]);
    var out := EvalArgs(g1, i, k + 1, acc + [r.value]);
    assert out == EvalArgs(g, i, k, acc);
    ExtendsTransitive(g, g1, out.0);
    assert DenoteArgs(g.tasks, i, k + 1).Some? ==>
      DenoteArgs(g.tasks, i, k) == Some([r.value] + DenoteArgs(g.tasks, i, k + 1).value);
    assert Cone(g.tasks, hd.task) <= ConeArgs(g.tasks, i, k);
    assert ConeArgs(g.tasks, i, k + 1) <= ConeArgs(g.tasks, i, k);
    forall p | |g.log| <= p < |out.0.log| ensures out.0.log[p] in ConeArgs(g.tasks, i, k) {
      if p < |g1.log| {
        assert out.0.log[p] == g1.log[p];
      }
    }
  }

  /**
   * `getResult<R>` and `Result::operator R`: forcing task j and reading it as
   * type t succeeds exactly when j has a reference value of type t, and then
   * yields it. The forcing guarantees of `ForceSpec` carry over.
   */
  lemma ForceAsSpec(g: Graph, j: TaskId, t: Tag)
    requires Consistent(g) && j < |g.tasks|
    ensures var out := ForceAs(g, j, t);
      Consistent(out.0) && Extends(g, out.0) &&
      (out.1.Success? <==> Denote(g.tasks, j).Some? && TypeOf(Denote(g.tasks, j).value) == t) &&
      (out.1.Success? ==> Denote(g.tasks, j) == Some(out.1.value))
  {
    ForceSpec(g, j);
  }

  /**
   * Memoization: once forcing task i has succeeded, forcing it again returns
   * the same value and changes nothing; in particular nothing more is logged.
   */
  lemma ForceIdempotent(g: Graph, i: TaskId)
    requires Consistent(g) && i < |g.tasks|
    requires Force(g, i).1.Success?
    ensures Force(Force(g, i).0, i) == Force(g, i)
  {
    ForceSpec(g, i);
  }

  /** Every task in the cone of a resolved task is resolved too. */
  lemma {:induction false} ResolvedConeIsResolved(g: Graph, i: TaskId)
    requires Consistent(g) && i < |g.tasks| && g.cells[i].Some?
    ensures forall j | j in Cone(g.tasks, i) :: g.cells[j].Some?
    decreases i, 1
  {
    ResolvedConeArgsAreResolved(g, i, 0);
  }

  lemma {:induction false} ResolvedConeArgsAreResolved(g: Graph, i: TaskId, k: nat)
    requires Consistent(g) && i < |g.tasks| && k <= |g.tasks[i].args| && g.cells[i].Some?
    ensures forall j | j in ConeArgs(g.tasks, i, k) :: g.cells[j].Some?
    decreases i, 0, |g.tasks[i].args| - k
  {
    var args := g.tasks[i].args;
    if k < |args| {
      ResolvedConeArgsAreResolved(g, i, k + 1);
      if args[k].Future? {
        var d := args[k].handle.task;
        assert ArgsBefore(args, i);
        var p :| 0 <= p < |g.log| && g.log[p] == i;
        assert d in g.log[..p];
        ResolvedConeIsResolved(g, d);
      }
    }
  }

  /**
   * Demand-driven evaluation: a successful force of task i runs exactly the
   * unresolved tasks of its cone, each once, each after its dependencies.
   */
  lemma ForceRunsPendingCone(g: Graph, i: TaskId)
    requires Consistent(g) && i < |g.tasks|
    requires Force(g, i).1.Success?
    ensures var h := Force(g, i).0;
      g.log <= h.log &&
      (forall p | |g.log| <= p < |h.log| :: h.log[p] in Cone(g.tasks, i) && g.cells[h.log[p]].None?) &&
      (forall j | j in Cone(g.tasks, i) && g.cells[j].None? :: j in h.log[|g.log|..]) &&
      RunsOnce(h) && LogInRange(h) && PostOrder(h)
  {
    ForceSpec(g, i);
    var h := Force(g, i).0;
    ResolvedConeIsResolved(h, i);
    forall p | |g.log| <= p < |h.log| ensures g.cells[h.log[p]].None? {
      NewEntryWasPending(g, h, p);
    }
    forall j | j in Cone(g.tasks, i) && g.cells[j].None? ensures j in h.log[|g.log|..] {
      assert j !in g.log && j in h.log;
      var p :| 0 <= p < |h.log| && h.log[p] == j;
      assert h.log[|g.log|..][p - |g.log|] == j;
    }
  }

  /** A log entry appended between two consistent states belongs to a task that was pending. */
  lemma NewEntryWasPending(g: Graph, h: Graph, p: nat)
    requires Consistent(g) && Consistent(h) && Extends(g, h)
    requires |g.log| <= p < |h.log|
    ensures h.log[p] < |g.cells| && g.cells[h.log[p]].None?
  {
  }

  // ---------------------------------------------------------------------------
  // executeAll
  // ---------------------------------------------------------------------------

  /**
   * Forcing task k when every earlier task is resolved runs at most task k
   * itself: the cells other than k are unchanged, and k is logged exactly
   * when it was pending and the force succeeded.
   */
  lemma ForceNextInOrder(g: Graph, k: TaskId)
    requires Consistent(g) && k < |g.tasks|
    requires forall j | 0 <= j < k :: g.cells[j].Some?
    ensures var out := Force(g, k);
      (forall j | 0 <= j < |g.cells| && j != k :: out.0.cells[j] == g.cells[j]) &&
      out.0.log == g.log + (if g.cells[k].None? && out.1.Success? then [k] else [])
  {
    ForceSpec(g, k);
    var h := Force(g, k).0;
    forall p | |g.log| <= p < |h.log| ensures h.log[p] <= k {
    }
    OnlyTaskLogged(g, h, k);
  }

  /**
   * Between two consistent states where every task below k was already
   * resolved and nothing above k was logged, only task k can have changed.
   */
  lemma OnlyTaskLogged(g: Graph, h: Graph, k: TaskId)
    requires Consistent(g) && Consistent(h) && Extends(g, h) && k < |g.cells|
    requires forall j | 0 <= j < k :: g.cells[j].Some?
    requires forall p | |g.log| <= p < |h.log| :: h.log[p] <= k
    ensures forall j | 0 <= j < |g.cells| && j != k :: h.cells[j] == g.cells[j]
    ensures h.log == g.log + (if g.cells[k].None? && h.cells[k].Some? then [k] else [])
  {
    forall p | |g.log| <= p < |h.log| ensures h.log[p] == k {
      NewEntryWasPending(g, h, p);
    }
    var added := h.log[|g.log|..];
    assert forall q | 0 <= q < |added| :: added[q] == k;
    assert forall p, q | 0 <= p < q < |added| :: added[p] != added[q];
    AtMostOnce(added, k);
    assert h.log == g.log + added;
    if g.cells[k].None? && h.cells[k].Some? {
      assert k in h.log && k !in g.log;
    } else {
      assert k !in added;
    }
    forall j | 0 <= j < |g.cells| && j != k ensures h.cells[j] == g.cells[j] {
      if g.cells[j].None? {
        assert j !in g.log;
        assert j !in h.log;
      }
    }
  }

  /** A sequence without repetitions whose every element is x is empty or [x]. */
  lemma AtMostOnce(s: seq<TaskId>, x: TaskId)
    requires forall q | 0 <= q < |s| :: s[q] == x
    requires forall p, q | 0 <= p < q < |s| :: s[p] != s[q]
    ensures s == [] || s == [x]
  {
    if s != [] {
      assert s[0] == x && s[|s| - 1] == x;
      assert s == [x];
    }
  }

  /** `Pending` only looks at which cells are empty. */
  lemma {:induction false} PendingSameStatus(c1: seq<Option<Value>>, c2: seq<Option<Value>>, k: nat)
    requires |c1| == |c2| && k <= |c1|
    requires forall j | k <= j < |c1| :: c1[j].None? == c2[j].None?
    ensures Pending(c1, k) == Pending(c2, k)
    decreases |c1| - k
  {
    if k < |c1| {
      PendingSameStatus(c1, c2, k + 1);
    }
  }

  /**
   * One turn of the `executeAll` loop: after forcing task k, the tasks still
   * to be logged are the same as before, and on success every task up to k
   * is resolved.
   */
  lemma ForceFromStep(g: Graph, k: TaskId)
    requires Consistent(g) && k < |g.tasks|
    requires forall j | 0 <= j < k :: g.cells[j].Some?
    ensures var out := Force(g, k);
      Consistent(out.0) && Extends(g, out.0) &&
      (out.1.Success? ==>
        out.0.log + Pending(out.0.cells, k + 1) == g.log + Pending(g.cells, k) &&
        forall j | 0 <= j < k + 1 :: out.0.cells[j].Some?) &&
      (out.1.Failure? ==> out.0.log == g.log)
  {
    ForceSpec(g, k);
    ForceNextInOrder(g, k);
    var out := Force(g, k);
    if out.1.Success? {
      PendingAfterStep(g, out.0, k);
    }
  }

  /**
   * A state h that differs from g only in cell k, now full, and whose log
   * grew by k exactly when it was pending, has the same tasks left to log.
   */
  lemma PendingAfterStep(g: Graph, h: Graph, k: TaskId)
    requires |g.cells| == |h.cells| && k < |g.cells| && h.cells[k].Some?
    requires forall j | 0 <= j < |g.cells| && j != k :: h.cells[j] == g.cells[j]
    requires h.log == g.log + (if g.cells[k].None? then [k] else [])
    ensures h.log + Pending(h.cells, k + 1) == g.log + Pending(g.cells, k)
  {
    PendingSameStatus(g.cells, h.cells, k + 1);
    var now := if g.cells[k].None? then [k] else [];
    assert Pending(g.cells, k) == now + Pending(g.cells, k + 1);
  }

  /**
   * `executeAll` from task k on, with every earlier task resolved: it keeps
   * the invariant, and the tasks it runs are a prefix of the pending ones in
   * registration order; when it completes it has run all of them, each
   * once, and every cell is full.
   */
  lemma {:induction false} ForceFromSpec(g: Graph, k: nat)
    requires Consistent(g) && k <= |g.tasks|
    requires forall j | 0 <= j < k :: g.cells[j].Some?
    ensures var out := ForceFrom(g, k);
      Consistent(out.0) && Extends(g, out.0) &&
      out.0.log <= g.log + Pending(g.cells, k) &&
      (out.1.Success? ==>
        out.0.log == g.log + Pending(g.cells, k) &&
        forall j | 0 <= j < |out.0.cells| :: out.0.cells[j].Some?)
    decreases |g.tasks| - k
  {
    if k < |g.tasks| {
      ForceFromStep(g, k);
      var (g1, r) := Force(g, k);
      if r.Success? {
        ForceFromSpec(g1, k + 1);
        var out := ForceFrom(g1, k + 1);
        assert out == ForceFrom(g, k);
        ExtendsTransitive(g, g1, out.0);
      }
    }
  }

  /**
   * `executeAll` from task k on returns normally exactly when every task
   * from k on has a reference value, that is, when no handle among them is
   * read under a type other than the one its task produces.
   */
  lemma {:induction false} ForceFromSucceeds(g: Graph, k: nat)
    requires Consistent(g) && k <= |g.tasks|
    ensures ForceFrom(g, k).1.Success? <==> forall j | k <= j < |g.tasks| :: Denote(g.tasks, j).Some?
    decreases |g.tasks| - k
  {
    if k < |g.tasks| {
      ForceSpec(g, k);
      var (g1, r) := Force(g, k);
      if r.Success? {
        ForceFromSucceeds(g1, k + 1);
      }
    }
  }

  /** `executeAll` on a scheduler whose tasks are all resolved changes nothing. */
  lemma {:induction false} ForceFromResolved(g: Graph, k: nat)
    requires WellFormed(g) && k <= |g.tasks|
    requires forall j | 0 <= j < |g.cells| :: g.cells[j].Some?
    ensures ForceFrom(g, k) == (g, Success(()))
    decreases |g.tasks| - k
  {
    if k < |g.tasks| {
      ForceFromResolved(g, k + 1);
    }
  }

  /**
   * `executeAll` is idempotent: once it has completed, running it again
   * returns normally and changes neither the cells nor the log.
   */
  lemma ExecuteAllIdempotent(g: Graph)
    requires Consistent(g)
    requires ForceFrom(g, 0).1.Success?
    ensures ForceFrom(ForceFrom(g, 0).0, 0) == (ForceFrom(g, 0).0, Success(()))
  {
    ForceFromSpec(g, 0);
    ForceFromResolved(ForceFrom(g, 0).0, 0);
  }

  /** When nothing is resolved, the pending tasks are all tasks, in registration order. */
  lemma {:induction false} PendingAllEmpty(cells: seq<Option<Value>>, k: nat)
    requires k <= |cells|
    requires forall j | k <= j < |cells| :: cells[j].None?
    ensures Pending(cells, k) == seq(|cells| - k, q => k + q)
    decreases |cells| - k
  {
    if k < |cells| {
      PendingAllEmpty(cells, k + 1);
    }
  }

  /**
   * `executeAll` on a scheduler where nothing has run yet, when it
   * completes, has run every task exactly once in registration order.
   */
  lemma ExecuteAllInRegistrationOrder(g: Graph)
    requires Consistent(g)
    requires forall j | 0 <= j < |g.cells| :: g.cells[j].None?
    requires ForceFrom(g, 0).1.Success?
    ensures ForceFrom(g, 0).0.log == g.log + seq(|g.tasks|, q => q)
  {
    ForceFromSpec(g, 0);
    PendingAllEmpty(g.cells, 0);
  }

  /**
   * `executeAll` on a scheduler where nothing has run and every task has a
   * reference value: it returns normally, runs every task once in
   * registration order, and leaves each cell holding its task's value.
   */
  lemma ExecuteAllFromScratch(g: Graph)
    requires Consistent(g)
    requires forall j | 0 <= j < |g.cells| :: g.cells[j].None?
    requires forall j | 0 <= j < |g.tasks| :: Denote(g.tasks, j).Some?
    ensures var out := ForceFrom(g, 0);
      out.1.Success? && out.0.tasks == g.tasks &&
      out.0.log == g.log + seq(|g.tasks|, q => q) &&
      forall j | 0 <= j < |g.tasks| :: out.0.cells[j] == Denote(g.tasks, j)
  {
    ForceFromSucceeds(g, 0);
    ForceFromSpec(g, 0);
    PendingAllEmpty(g.cells, 0);
  }

  // ---------------------------------------------------------------------------
  // add
  // ---------------------------------------------------------------------------

  /**
   * Appending a task does not change what an earlier task stands for, so a
   * reference or handle obtained before the append still yields the same
   * value.
   */
  lemma {:induction false} DenoteStable(tasks: seq<Task>, t: Task, i: TaskId)
    requires BackwardDeps(tasks) && BackwardDeps(tasks + [t]) && i < |tasks|
    ensures Denote(tasks + [t], i) == Denote(tasks, i)
    decreases i, 1
  {
    DenoteArgsStable(tasks, t, i, 0);
  }

  lemma {:induction false} DenoteArgsStable(tasks: seq<Task>, t: Task, i: TaskId, k: nat)
    requires BackwardDeps(tasks) && BackwardDeps(tasks + [t]) && i < |tasks| && k <= |tasks[i].args|
    ensures DenoteArgs(tasks + [t], i, k) == DenoteArgs(tasks, i, k)
    decreases i, 0, |tasks[i].args| - k
  {
    var args := tasks[i].args;
    assert (tasks + [t])[i] == tasks[i];
    if k < |args| {
      DenoteArgsStable(tasks, t, i, k + 1);
      if args[k].Future? {
        assert ArgsBefore(args, i);
        DenoteStable(tasks, t, args[k].handle.task);
      }
    }
  }

  /** `add` keeps the invariant: the new task is unresolved and refers only to earlier tasks. */
  lemma AppendPreservesConsistent(g: Graph, t: Task)
    requires Consistent(g) && ArgsBefore(t.args, |g.tasks|)
    ensures Consistent(Graph(g.tasks + [t], g.cells + [None], g.log))
  {
    var h := Graph(g.tasks + [t], g.cells + [None], g.log);
    assert BackwardDeps(h.tasks) by {
      forall i | 0 <= i < |h.tasks| ensures ArgsBefore(h.tasks[i].args, i) {
        if i < |g.tasks| { assert h.tasks[i] == g.tasks[i]; }
      }
    }
    forall j | 0 <= j < |h.cells| && h.cells[j].Some? ensures h.cells[j] == Denote(h.tasks, j) {
      DenoteStable(g.tasks, t, j);
    }
    forall p | 0 <= p < |h.log| ensures h.tasks[h.log[p]] == g.tasks[g.log[p]] {
    }
  }
}
