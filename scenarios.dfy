/**
 * The scheduler's test scenarios, stated as verified client methods. Tasks
 * are numbered from 0, so the test log "1235" is [0, 1, 2, 4] here; the ghost
 * `log` takes the place of the tests' `ss << "n"` lines.
 */
module Scenarios {
  import opened AnyValue
  import opened OptionalCell
  import opened TaskGraph
  import opened Scheduler

  /** A callable of two ints returning an int, erased to the scheduler's calling convention. */
  function IntOp2(f: (int, int) -> int): seq<Value> -> Value
  {
    (args: seq<Value>) =>
      if |args| == 2 && args[0].IntValue? && args[1].IntValue? then IntValue(f(args[0].i, args[1].i))
      else Default
  }

  /** `static_cast<int>(std::sqrt(n))` for a non-negative n: the floor of its square root. */
  function FloorSqrt(n: nat): (r: nat)
    ensures r * r <= n < (r + 1) * (r + 1)
  {
    FloorSqrtBelow(n, n)
  }

  function FloorSqrtBelow(n: nat, r: nat): (s: nat)
    requires n < (r + 1) * (r + 1)
    ensures s * s <= n < (s + 1) * (s + 1)
  {
    if r * r <= n then r else FloorSqrtBelow(n, r - 1)
  }

  /** C++ integer division, which truncates toward zero. */
  function CDiv(x: int, y: int): int
    requires y != 0
  {
    if (x < 0) == (y < 0) then Abs(x) / Abs(y) else -(Abs(x) / Abs(y))
  }

  function Abs(x: int): nat
  {
    if x < 0 then -x else x
  }

  // The six callables of the quadratic-formula chain, as named values.
  function MinusFourAC(): seq<Value> -> Value { IntOp2((a, c) => -4 * a * c) }
  function Discriminant(): seq<Value> -> Value { IntOp2((b, v) => b * b + v) }
  function RootPlus(): seq<Value> -> Value { IntOp2((b, d) => -b + if d < 0 then 0 else FloorSqrt(d)) }
  function RootMinus(): seq<Value> -> Value { IntOp2((b, d) => -b - if d < 0 then 0 else FloorSqrt(d)) }
  function Halve(): seq<Value> -> Value { IntOp2((a, v) => if a == 0 then 0 else CDiv(v, 2 * a)) }

  /** The tasks of the int test with a = 1, b = -2, c = 0, in registration order. */
  function QuadraticTasks(): seq<Task>
  {
    var a, b, c := IntValue(1), IntValue(-2), IntValue(0);
    [ Task(MinusFourAC(), [Literal(a), Literal(c)]),
      Task(Discriminant(), [Literal(b), Future(FutureResult(0, IntType))]),
      Task(RootPlus(), [Literal(b), Future(FutureResult(1, IntType))]),
      Task(RootMinus(), [Literal(b), Future(FutureResult(1, IntType))]),
      Task(Halve(), [Literal(a), Future(FutureResult(2, IntType))]),
      Task(Halve(), [Literal(a), Future(FutureResult(3, IntType))]) ]
  }

  /** Registers the quadratic chain through `add` and `getFutureResult`. */
  method QuadraticChain() returns (s: TaskScheduler)
    ensures fresh(s) && s.Valid()
    ensures s.State() == Quadratic([None, None, None, None, None, None], [])
  {
    var a, b, c := IntValue(1), IntValue(-2), IntValue(0);
    s := new TaskScheduler();
    var id1 := s.Add(MinusFourAC(), [Literal(a), Literal(c)]);
    var f1 := s.GetFutureResult(id1, IntType);
    var id2 := s.Add(Discriminant(), [Literal(b), f1]);
    var f2 := s.GetFutureResult(id2, IntType);
    var id3 := s.Add(RootPlus(), [Literal(b), f2]);
    var id4 := s.Add(RootMinus(), [Literal(b), f2]);
    var f3 := s.GetFutureResult(id3, IntType);
    var id5 := s.Add(Halve(), [Literal(a), f3]);
    var f4 := s.GetFutureResult(id4, IntType);
    var id6 := s.Add(Halve(), [Literal(a), f4]);
  }

  /** Forcing an unresolved task whose two arguments are literals runs it on them. */
  lemma ForceTwoLiterals(g: Graph, i: TaskId, x: Value, y: Value)
    requires WellFormed(g) && i < |g.tasks| && g.cells[i].None?
    requires g.tasks[i].args == [Literal(x), Literal(y)]
    ensures var v := g.tasks[i].callable([x, y]);
      Force(g, i) == (g.(cells := g.cells[i := Some(v)], log := g.log + [i]), Success(v))
  {
    assert [] + [x] == [x] && [x] + [y] == [x, y];
    assert EvalArgs(g, i, 0, []) == EvalArgs(g, i, 1, [x]) == EvalArgs(g, i, 2, [x, y]);
  }

  /** Forcing an unresolved task whose one argument is a literal runs it on that value. */
  lemma ForceOneLiteral(g: Graph, i: TaskId, x: Value)
    requires WellFormed(g) && i < |g.tasks| && g.cells[i].None?
    requires g.tasks[i].args == [Literal(x)]
    ensures var v := g.tasks[i].callable([x]);
      Force(g, i) == (g.(cells := g.cells[i := Some(v)], log := g.log + [i]), Success(v))
  {
    assert [] + [x] == [x];
    assert EvalArgs(g, i, 0, []) == EvalArgs(g, i, 1, [x]);
  }

  /**
   * Forcing an unresolved task whose one argument is a handle forces the
   * handle's task first; a failed conversion leaves the task unresolved.
   */
  lemma ForceOneFuture(g: Graph, i: TaskId, h: FutureResult)
    requires WellFormed(g) && i < |g.tasks| && g.cells[i].None?
    requires g.tasks[i].args == [Future(h)]
    ensures h.task < i
    ensures var (g1, r) := ForceAs(g, h.task, h.expected);
      var v := if r.Success? then g.tasks[i].callable([r.value]) else Default;
      Force(g, i) ==
        if r.Failure? then (g1, Failure(r.error))
        else (g1.(cells := g1.cells[i := Some(v)], log := g1.log + [i]), Success(v))
  {
    assert ArgsBefore(g.tasks[i].args, i) && g.tasks[i].args[0].handle == h;
    var (g1, r) := ForceAs(g, h.task, h.expected);
    if r.Success? {
      assert [] + [r.value] == [r.value];
      assert EvalArgs(g, i, 0, []) == EvalArgs(g1, i, 1, [r.value]);
    }
  }

  /**
   * Forcing an unresolved task whose arguments are a literal and a handle
   * forces the handle's task first, then runs the task on both values.
   */
  lemma ForceLiteralThenFuture(g: Graph, i: TaskId, x: Value, h: FutureResult)
    requires WellFormed(g) && i < |g.tasks| && g.cells[i].None?
    requires g.tasks[i].args == [Literal(x), Future(h)]
    ensures h.task < i
    ensures var (g1, r) := ForceAs(g, h.task, h.expected);
      var v := if r.Success? then g.tasks[i].callable([x, r.value]) else Default;
      Force(g, i) ==
        if r.Failure? then (g1, Failure(r.error))
        else (g1.(cells := g1.cells[i := Some(v)], log := g1.log + [i]), Success(v))
  {
    assert ArgsBefore(g.tasks[i].args, i);
    assert [] + [x] == [x];
    assert EvalArgs(g, i, 0, []) == EvalArgs(g, i, 1, [x]);
    var (g1, r) := ForceAs(g, h.task, h.expected);
    if r.Success? {
      assert [x] + [r.value] == [x, r.value];
      assert EvalArgs(g, i, 1, [x]) == EvalArgs(g1, i, 2, [x, r.value]);
    }
  }

  /** The quadratic chain's graph with the given cells and log. */
  function Quadratic(cells: seq<Option<Value>>, log: seq<TaskId>): Graph
  {
    Graph(QuadraticTasks(), cells, log)
  }

  const I0: Option<Value> := Some(IntValue(0))
  const I2: Option<Value> := Some(IntValue(2))
  const I4: Option<Value> := Some(IntValue(4))

  lemma QuadraticWellFormed(cells: seq<Option<Value>>, log: seq<TaskId>)
    requires |cells| == 6
    ensures WellFormed(Quadratic(cells, log))
  {
    assert BackwardDeps(QuadraticTasks());
  }

  lemma QuadraticStep1()
    ensures Force(Quadratic([None, None, None, None, None, None], []), 0)
      == (Quadratic([I0, None, None, None, None, None], [0]), Success(IntValue(0)))
  {
    var g := Quadratic([None, None, None, None, None, None], []);
    QuadraticWellFormed(g.cells, g.log);
    ForceTwoLiterals(g, 0, IntValue(1), IntValue(0));
    assert MinusFourAC()([IntValue(1), IntValue(0)]) == IntValue(0);
    assert g.cells[0 := I0] == [I0, None, None, None, None, None];
    assert [] + [0] == [0];
  }

  lemma QuadraticStep2()
    ensures Force(Quadratic([None, None, None, None, None, None], []), 1)
      == (Quadratic([I0, I4, None, None, None, None], [0, 1]), Success(IntValue(4)))
  {
    var g := Quadratic([None, None, None, None, None, None], []);
    QuadraticWellFormed(g.cells, g.log);
    QuadraticStep1();
    ForceLiteralThenFuture(g, 1, IntValue(-2), FutureResult(0, IntType));
    assert Discriminant()([IntValue(-2), IntValue(0)]) == IntValue(4);
    assert [I0, None, None, None, None, None][1 := I4] == [I0, I4, None, None, None, None];
    assert [0] + [1] == [0, 1];
  }

  lemma QuadraticStep3()
    ensures Force(Quadratic([None, None, None, None, None, None], []), 2)
      == (Quadratic([I0, I4, I4, None, None, None], [0, 1, 2]), Success(IntValue(4)))
  {
    var g := Quadratic([None, None, None, None, None, None], []);
    QuadraticWellFormed(g.cells, g.log);
    QuadraticStep2();
    ForceLiteralThenFuture(g, 2, IntValue(-2), FutureResult(1, IntType));
    assert FloorSqrt(4) == 2;
    assert RootPlus()([IntValue(-2), IntValue(4)]) == IntValue(4);
    assert [I0, I4, None, None, None, None][2 := I4] == [I0, I4, I4, None, None, None];
    assert [0, 1] + [2] == [0, 1, 2];
  }

  lemma QuadraticStep5()
    ensures Force(Quadratic([None, None, None, None, None, None], []), 4)
      == (Quadratic([I0, I4, I4, None, I2, None], [0, 1, 2, 4]), Success(IntValue(2)))
  {
    var g := Quadratic([None, None, None, None, None, None], []);
    QuadraticWellFormed(g.cells, g.log);
    QuadraticStep3();
    ForceLiteralThenFuture(g, 4, IntValue(1), FutureResult(2, IntType));
    assert Halve()([IntValue(1), IntValue(4)]) == IntValue(2);
    assert [I0, I4, I4, None, None, None][4 := I2] == [I0, I4, I4, None, I2, None];
    assert [0, 1, 2] + [4] == [0, 1, 2, 4];
  }

  lemma QuadraticStep4()
    ensures Force(Quadratic([I0, I4, I4, None, I2, None], [0, 1, 2, 4]), 3)
      == (Quadratic([I0, I4, I4, I0, I2, None], [0, 1, 2, 4, 3]), Success(IntValue(0)))
  {
    var g := Quadratic([I0, I4, I4, None, I2, None], [0, 1, 2, 4]);
    QuadraticWellFormed(g.cells, g.log);
    ForceLiteralThenFuture(g, 3, IntValue(-2), FutureResult(1, IntType));
    assert FloorSqrt(4) == 2;
    assert RootMinus()([IntValue(-2), IntValue(4)]) == IntValue(0);
    assert g.cells[3 := I0] == [I0, I4, I4, I0, I2, None];
    assert [0, 1, 2, 4] + [3] == [0, 1, 2, 4, 3];
  }

  lemma QuadraticStep6()
    ensures Force(Quadratic([I0, I4, I4, None, I2, None], [0, 1, 2, 4]), 5)
      == (Quadratic([I0, I4, I4, I0, I2, I0], [0, 1, 2, 4, 3, 5]), Success(IntValue(0)))
  {
    var g := Quadratic([I0, I4, I4, None, I2, None], [0, 1, 2, 4]);
    QuadraticWellFormed(g.cells, g.log);
    QuadraticStep4();
    ForceLiteralThenFuture(g, 5, IntValue(1), FutureResult(3, IntType));
    assert Halve()([IntValue(1), IntValue(0)]) == IntValue(0);
    assert [I0, I4, I4, I0, I2, None][5 := I0] == [I0, I4, I4, I0, I2, I0];
    assert [0, 1, 2, 4, 3] + [5] == [0, 1, 2, 4, 3, 5];
  }

  /**
   * The quadratic chain evaluated on demand: forcing task 5 (index 4) runs
   * 1, 2, 3 and 5 and yields 2; forcing task 6 afterwards runs only 4 and 6
   * and yields 0.
   */
  lemma QuadraticOnDemand()
    ensures var g0 := Quadratic([None, None, None, None, None, None], []);
      var out5 := ForceAs(g0, 4, IntType);
      var out6 := ForceAs(out5.0, 5, IntType);
      out5.1 == Success(IntValue(2)) && out5.0.log == [0, 1, 2, 4] &&
      out6.1 == Success(IntValue(0)) && out6.0.log == [0, 1, 2, 4, 3, 5]
  {
    QuadraticStep5();
    QuadraticStep6();
  }

  /**
   * The values the quadratic chain stands for, read off the forcing steps:
   * 0, 4, 4, 0, 2, 0.
   */
  lemma QuadraticValues()
    ensures BackwardDeps(QuadraticTasks())
    ensures Denote(QuadraticTasks(), 0) == I0 && Denote(QuadraticTasks(), 1) == I4
    ensures Denote(QuadraticTasks(), 2) == I4 && Denote(QuadraticTasks(), 3) == I0
    ensures Denote(QuadraticTasks(), 4) == I2 && Denote(QuadraticTasks(), 5) == I0
  {
    var g0 := Quadratic([None, None, None, None, None, None], []);
    var g5 := Quadratic([I0, I4, I4, None, I2, None], [0, 1, 2, 4]);
    QuadraticWellFormed(g0.cells, g0.log);
    QuadraticStep1();
    QuadraticStep2();
    QuadraticStep3();
    QuadraticStep5();
    QuadraticStep4();
    QuadraticStep6();
    ForceSpec(g0, 0);
    ForceSpec(g0, 1);
    ForceSpec(g0, 2);
    ForceSpec(g0, 4);
    ForceSpec(g5, 3);
    ForceSpec(g5, 5);
  }

  /**
   * IntTypeTest: requesting task 5 runs 1, 2, 3 and 5 and yields 2;
   * requesting task 6 then runs only 4 and 6 and yields 0.
   */
  method IntTypeTest()
  {
    var s := QuadraticChain();
    QuadraticOnDemand();
    var r5 := s.GetResult(4, IntType);
    assert r5 == Success(IntValue(2));
    assert s.log == [0, 1, 2, 4];
    var r6 := s.GetResult(5, IntType);
    assert r6 == Success(IntValue(0));
    assert s.log == [0, 1, 2, 4, 3, 5];
  }

  /** A quadratic-chain state whose cells hold the reference values and whose log is 1..6. */
  lemma QuadraticAllRun(h: Graph)
    requires h.tasks == QuadraticTasks() && |h.cells| == 6 && h.log == [] + seq(6, q => q)
    requires BackwardDeps(QuadraticTasks())
    requires forall j | 0 <= j < 6 :: h.cells[j] == Denote(QuadraticTasks(), j)
    ensures h == Quadratic([I0, I4, I4, I0, I2, I0], [0, 1, 2, 3, 4, 5])
  {
    QuadraticValues();
    assert h.log == [0, 1, 2, 3, 4, 5];
    assert h.cells == [I0, I4, I4, I0, I2, I0];
  }

  /** `executeAll` on the fresh quadratic chain runs all six callables in order and fills every cell. */
  lemma QuadraticExecuteAll(g: Graph)
    requires g == Quadratic([None, None, None, None, None, None], [])
    ensures ForceFrom(g, 0).1.Success?
    ensures ForceFrom(g, 0).0 == Quadratic([I0, I4, I4, I0, I2, I0], [0, 1, 2, 3, 4, 5])
  {
    QuadraticWellFormed(g.cells, g.log);
    assert Consistent(g);
    QuadraticValues();
    assert forall j | 0 <= j < |g.tasks| :: Denote(g.tasks, j).Some?;
    ExecuteAllFromScratch(g);
    QuadraticAllRun(ForceFrom(g, 0).0);
  }

  /**
   * ReadmeTest on the integer chain: `executeAll` runs the six callables in
   * registration order, after which the results of tasks 5 and 6 are read
   * without running anything again.
   */
  method ReadmeTest()
  {
    var s := QuadraticChain();
    QuadraticExecuteAll(s.State());
    var r := s.ExecuteAll();
    assert r.Success? && s.log == [0, 1, 2, 3, 4, 5];
    var r5 := s.GetResult(4, IntType);
    assert r5 == Success(IntValue(2));
    var r6 := s.GetResult(5, IntType);
    assert r6 == Success(IntValue(0));
    assert s.log == [0, 1, 2, 3, 4, 5];
  }

  /** A callable of one real returning a real, erased. */
  function FloatOp1(f: real -> real): seq<Value> -> Value
  {
    (args: seq<Value>) =>
      if |args| == 1 && args[0].FloatValue? then FloatValue(f(args[0].f)) else Default
  }

  /** A callable of three reals returning a real, erased. */
  function FloatOp3(f: (real, real, real) -> real): seq<Value> -> Value
  {
    (args: seq<Value>) =>
      if |args| == 3 && args[0].FloatValue? && args[1].FloatValue? && args[2].FloatValue?
      then FloatValue(f(args[0].f, args[1].f, args[2].f))
      else Default
  }

  function Twice(): seq<Value> -> Value { FloatOp1(a => a * 2.0) }
  function Half(): seq<Value> -> Value { FloatOp1(b => b / 2.0) }

  /** The tasks of OneArgTest with a = 1. */
  function OneArgTasks(): seq<Task>
  {
    [ Task(Twice(), [Literal(FloatValue(1.0))]),
      Task(Half(), [Future(FutureResult(0, FloatType))]) ]
  }

  /** The two tasks of OneArgTest stand for 2 and 1. */
  lemma OneArgValues(t: seq<Task>)
    requires t == OneArgTasks()
    ensures BackwardDeps(t)
    ensures Denote(t, 0) == Some(FloatValue(2.0)) && Denote(t, 1) == Some(FloatValue(1.0))
  {
    assert [FloatValue(1.0)] + [] == [FloatValue(1.0)];
    assert [FloatValue(2.0)] + [] == [FloatValue(2.0)];
    assert DenoteArgs(t, 0, 0) == Some([FloatValue(1.0)]);
    assert DenoteArgs(t, 1, 0) == Some([FloatValue(2.0)]);
  }

  /** Registers the tasks of OneArgTest. */
  method OneArgChain() returns (s: TaskScheduler)
    ensures fresh(s) && s.Valid()
    ensures s.State() == Graph(OneArgTasks(), [None, None], [])
  {
    s := new TaskScheduler();
    var id1 := s.Add(Twice(), [Literal(FloatValue(1.0))]);
    var f1 := s.GetFutureResult(id1, FloatType);
    var id2 := s.Add(Half(), [f1]);
  }

  /** OneArgTest: a one-argument task and a task on its result. */
  method OneArgTest()
  {
    var s := OneArgChain();
    OneArgValues(s.tasks);
    PendingAllEmpty(s.results, 0);
    assert Pending(s.results, 0) == [0, 1];
    var r := s.ExecuteAll();
    assert r.Success?;
    assert s.log == [0, 1];
    assert s.results[0] == Some(FloatValue(2.0)) && s.results[1] == Some(FloatValue(1.0));
    var r1 := s.GetResult(0, FloatType);
    assert r1 == Success(FloatValue(2.0));
    var r2 := s.GetResult(1, FloatType);
    assert r2 == Success(FloatValue(1.0));
    assert s.log == [0, 1];
  }

  function Sum3(): seq<Value> -> Value { FloatOp3((a, b, c) => a + b + c) }
  function Product3(): seq<Value> -> Value { FloatOp3((d, b, c) => d * b * c) }

  /** The tasks of ThreeArgsTest with a = 1, b = 3, c = 1. */
  function ThreeArgsTasks(): seq<Task>
  {
    var a, b, c := FloatValue(1.0), FloatValue(3.0), FloatValue(1.0);
    [ Task(Sum3(), [Literal(a), Literal(b), Literal(c)]),
      Task(Product3(), [Future(FutureResult(0, FloatType)), Literal(b), Literal(c)]) ]
  }

  /** The two tasks of ThreeArgsTest stand for 5 and 15. */
  lemma ThreeArgsValues(t: seq<Task>)
    requires t == ThreeArgsTasks()
    ensures BackwardDeps(t)
    ensures Denote(t, 0) == Some(FloatValue(5.0)) && Denote(t, 1) == Some(FloatValue(15.0))
  {
    var a, b, c := FloatValue(1.0), FloatValue(3.0), FloatValue(1.0);
    assert [c] + [] == [c] && [b] + [c] == [b, c] && [a] + [b, c] == [a, b, c];
    assert [FloatValue(5.0)] + [b, c] == [FloatValue(5.0), b, c];
    assert DenoteArgs(t, 0, 2) == Some([c]);
    assert DenoteArgs(t, 0, 1) == Some([b, c]);
    assert DenoteArgs(t, 0, 0) == Some([a, b, c]);
    assert Denote(t, 0) == Some(FloatValue(5.0));
    assert DenoteArgs(t, 1, 2) == Some([c]);
    assert DenoteArgs(t, 1, 1) == Some([b, c]);
    assert DenoteArgs(t, 1, 0) == Some([FloatValue(5.0), b, c]);
  }

  /** Registers the tasks of ThreeArgsTest; the handle is the first argument of the second task. */
  method ThreeArgsChain() returns (s: TaskScheduler)
    ensures fresh(s) && s.Valid()
    ensures s.State() == Graph(ThreeArgsTasks(), [None, None], [])
  {
    var a, b, c := FloatValue(1.0), FloatValue(3.0), FloatValue(1.0);
    s := new TaskScheduler();
    var id1 := s.Add(Sum3(), [Literal(a), Literal(b), Literal(c)]);
    var f1 := s.GetFutureResult(id1, FloatType);
    var id2 := s.Add(Product3(), [f1, Literal(b), Literal(c)]);
  }

  /** ThreeArgsTest: a handle may stand at any position of the argument tuple. */
  method ThreeArgsTest()
  {
    var s := ThreeArgsChain();
    ThreeArgsValues(s.tasks);
    PendingAllEmpty(s.results, 0);
    assert Pending(s.results, 0) == [0, 1];
    var r := s.ExecuteAll();
    assert r.Success?;
    assert s.log == [0, 1];
    var r1 := s.GetResult(0, FloatType);
    assert r1 == Success(FloatValue(5.0));
    var r2 := s.GetResult(1, FloatType);
    assert r2 == Success(FloatValue(15.0));
    assert s.log == [0, 1];
  }

  /**
   * The functor of FunctorTest, `float operator()(float b)` with `a_ == 2`,
   * stored with an `int` argument: the call converts the `int` to `float`.
   */
  function TimesTwoFunctor(): seq<Value> -> Value
  {
    (args: seq<Value>) =>
      if |args| == 1 && args[0].IntValue? then FloatValue(2.0 * args[0].i as real) else Default
  }

  /** FunctorTest: a callable object on the `int` 3, read as `float` on demand, gives 6. */
  method FunctorTest()
  {
    var s := new TaskScheduler();
    var id1 := s.Add(TimesTwoFunctor(), [Literal(IntValue(3))]);
    ghost var g := s.State();
    ForceOneLiteral(g, 0, IntValue(3));
    var r := s.GetResult(id1, FloatType);
    assert r == Success(FloatValue(6.0));
    assert s.log == [0];
  }

  /**
   * Reading task 5 of the integer chain as `float`: the chain runs as in
   * IntTypeTest and fills its cells, then the cast throws `bad_cast`.
   */
  method BadCastTest()
  {
    var s := QuadraticChain();
    QuadraticStep5();
    var r := s.GetResult(4, FloatType);
    assert r.Failure?;
    assert s.log == [0, 1, 2, 4];
    assert s.results[4] == Some(IntValue(2));
  }

  /**
   * A handle read under a type other than its task's: the dependency runs and
   * keeps its result, the dependent task fails and its cell stays empty.
   */
  method BadHandleTest()
  {
    var s := new TaskScheduler();
    var id1 := s.Add(Twice(), [Literal(FloatValue(1.0))]);
    var f1 := s.GetFutureResult(id1, IntType);
    var id2 := s.Add(Half(), [f1]);
    ghost var g := s.State();
    ForceOneLiteral(g, 0, FloatValue(1.0));
    ForceOneFuture(g, 1, FutureResult(0, IntType));
    var r := s.GetResult(id2, FloatType);
    assert r.Failure?;
    assert s.results[0].Some? && s.results[1].None?;
    assert s.log == [0];
  }

  /** String concatenation, erased. */
  function Concat(): seq<Value> -> Value
  {
    (args: seq<Value>) =>
      if |args| == 2 && args[0].StringValue? && args[1].StringValue?
      then StringValue(args[0].s + args[1].s)
      else Default
  }

  /** The tasks of StringTypeTest with a = "A", b = "bb". */
  function StringTasks(): seq<Task>
  {
    var a, b := StringValue("A"), StringValue("bb");
    [ Task(Concat(), [Literal(a), Literal(b)]),
      Task(Concat(), [Literal(a), Future(FutureResult(0, StringType))]) ]
  }

  /** The two tasks of StringTypeTest stand for "Abb" and "AAbb". */
  lemma StringValues(t: seq<Task>)
    requires t == StringTasks()
    ensures BackwardDeps(t)
    ensures Denote(t, 0) == Some(StringValue("Abb")) && Denote(t, 1) == Some(StringValue("AAbb"))
  {
    var a, b := StringValue("A"), StringValue("bb");
    assert "A" + "bb" == "Abb" && "A" + "Abb" == "AAbb";
    assert [b] + [] == [b] && [a] + [b] == [a, b];
    assert [StringValue("Abb")] + [] == [StringValue("Abb")];
    assert [a] + [StringValue("Abb")] == [a, StringValue("Abb")];
    assert DenoteArgs(t, 0, 1) == Some([b]);
    assert DenoteArgs(t, 0, 0) == Some([a, b]);
    assert Denote(t, 0) == Some(StringValue("Abb"));
    assert DenoteArgs(t, 1, 1) == Some([StringValue("Abb")]);
    assert DenoteArgs(t, 1, 0) == Some([a, StringValue("Abb")]);
  }

  /** StringTypeTest: results of class type pass through the cells and the handles unchanged. */
  method StringTypeTest()
  {
    var a, b := StringValue("A"), StringValue("bb");
    var s := new TaskScheduler();
    var id1 := s.Add(Concat(), [Literal(a), Literal(b)]);
    var f1 := s.GetFutureResult(id1, StringType);
    var id2 := s.Add(Concat(), [Literal(a), f1]);
    StringValues(s.tasks);
    var r := s.ExecuteAll();
    assert r.Success?;
    var r2 := s.GetResult(id2, StringType);
    assert r2 == Success(StringValue("AAbb"));
  }
}
