// Two loops the theorems apply to: one through memory, and one that need not end.

module Examples {
  import opened Options
  import opened Ir
  import opened Interp
  import opened InterpLaws
  import opened Cfg
  import opened Refinement
  import opened Cse
  import opened Pipeline
  import N = Native
  import E = EndToEnd
  import A = Assembler
  import M = Machine

  function Label(s: string): Value { Const(PTR, Text(s), Written(0)) }

  function Number(n: int): Value { Const(I32, Num(n), Written(0)) }

  // do { a[0] := a[0] - 1 } while (a[0] > 0)
  function Countdown(): Prog {
    [Block("entry", [Node(0, JMP, VOID, [Label("loop")])]),
     Block("loop", [
      Node(1, LOAD, I64, [Arg(0), Number(0)]),
      Node(2, SUB, I64, [Ref(1, I64), Number(1)]),
      Node(3, STORE, VOID, [Ref(2, I64), Arg(0), Number(0)]),
      Node(4, CMP, I32, [Label("gt"), Ref(2, I64), Number(0)]),
      Node(5, BR, VOID, [Ref(4, I32), Label("loop"), Label("exit")])]),
     Block("exit", [Node(6, RET, VOID, [])])]
  }

  // while (a0 < a1) {} return a0 + a1
  function Spin(): Prog {
    [Block("entry", [Node(0, JMP, VOID, [Label("test")])]),
     Block("test", [
      Node(1, CMP, I32, [Label("lt"), Arg(0), Arg(1)]),
      Node(2, BR, VOID, [Ref(1, I32), Label("test"), Label("exit")])]),
     Block("exit", [Node(3, ADD, I64, [Arg(0), Arg(1)]), Node(4, RET, VOID, [Ref(3, I64)])])]
  }

  // Operands that name an instruction name an earlier one of their block.
  ghost predicate Local(p: Prog) {
    forall b, i, v :: At(p, b, i) && v in p[b].body[i].args && v.Ref? ==>
      exists j :: 0 <= j < i && p[b].body[j].uid == v.uid && p[b].body[j].ty == v.rty && HasValue(p[b].body[j].op)
  }

  lemma LocalIsWellFormed(p: Prog)
    requires Structured(p) && Local(p)
    ensures WellFormed(p)
  {
    var d := Dominators(p);
    DominatorsOk(p);
    hide Dominators, DomOk, Structured;
    forall b, i | At(p, b, i) ensures NodeOk(p, d, b, i) {
      forall v | v in p[b].body[i].args && v.Ref? ensures OperandOk(p, d, b, i, v) {
        var j :| 0 <= j < i && p[b].body[j].uid == v.uid && p[b].body[j].ty == v.rty && HasValue(p[b].body[j].op);
        assert Defines(p, d, b, i, v, b, j);
      }
    }
  }

  // ----- the countdown -----

  lemma CountdownShape()
    ensures Structured(Countdown())
  {
    CountdownBlocks();
    hide BlockShape;
    forall b, i | At(Countdown(), b, i) ensures Countdown()[b].body[i].uid == if b == 2 then 6 else b + i {}
  }

  lemma CountdownBlocks()
    ensures BlockShape(Countdown()[0]) && BlockShape(Countdown()[1]) && BlockShape(Countdown()[2])
  {
    LoopBlock();
  }

  lemma LoopBlock()
    ensures BlockShape(Countdown()[1])
  {
    LoopNodes();
    hide Shape;
  }

  lemma LoopNodes()
    ensures forall n :: n in Countdown()[1].body ==> Shape(n)
  {}

  lemma CountdownLocal()
    ensures Local(Countdown())
  {
    var body := Countdown()[1].body;
    assert body[0].uid == 1 && body[1].uid == 2 && body[3].uid == 4;
    hide BlockShape;
  }

  lemma CountdownIsWellFormed()
    ensures WellFormed(Countdown())
  {
    hide Local, Structured, WellFormed;
    CountdownShape();
    CountdownLocal();
    LocalIsWellFormed(Countdown());
  }

  // Once round the loop: the first element falls by one.
  lemma Round(h: int, env: map<nat, int>, mem: Memory) returns (env': map<nat, int>)
    requires h in mem && mem[h] != []
    ensures var x := mem[h][0] - 1;
      Steps(Countdown(), [h], Running(1, 0, env, mem), 5) ==
        Running(if x > 0 then 1 else 2, 0, env', mem[h := mem[h][0 := x]])
  {
    var p, args, x := Countdown(), [h], mem[h][0] - 1;
    var e1 := env[1 := x + 1];
    var e2 := e1[2 := x];
    env' := e2[4 := if x > 0 then 1 else 0];
    var m := mem[h := mem[h][0 := x]];
    RoundStarts(h, env, mem);
    RoundEnds(h, e2, m, x);
    hide Step;
    assert Steps(p, args, Running(1, 0, env, mem), 5) == Steps(p, args, Running(1, 3, e2, m), 2);
  }

  function Steps(p: Prog, args: seq<int>, c: Config, n: nat): Config
    decreases n
  {
    if n == 0 then c else Steps(p, args, Step(p, args, c), n - 1)
  }

  lemma RoundStarts(h: int, env: map<nat, int>, mem: Memory)
    requires h in mem && mem[h] != []
    ensures var x := mem[h][0] - 1; var e := env[1 := x + 1];
      Step(Countdown(), [h], Running(1, 0, env, mem)) == Running(1, 1, e, mem) &&
      Step(Countdown(), [h], Running(1, 1, e, mem)) == Running(1, 2, e[2 := x], mem) &&
      Step(Countdown(), [h], Running(1, 2, e[2 := x], mem)) == Running(1, 3, e[2 := x], mem[h := mem[h][0 := x]])
  {}

  lemma RoundEnds(h: int, env: map<nat, int>, mem: Memory, x: int)
    requires 2 in env && env[2] == x
    ensures var e := env[4 := if x > 0 then 1 else 0];
      Step(Countdown(), [h], Running(1, 3, env, mem)) == Running(1, 4, e, mem) &&
      Step(Countdown(), [h], Running(1, 4, e, mem)) == Running(if x > 0 then 1 else 2, 0, e, mem)
  {
    assert Target(Countdown(), "loop") == Some(1) && Target(Countdown(), "exit") == Some(2);
  }

  lemma {:induction false} RunSteps(p: Prog, args: seq<int>, mem: Memory, n: nat, k: nat)
    ensures Run(p, args, mem, n + k) == Steps(p, args, Run(p, args, mem, n), k)
    decreases k
  {
    hide Step;
    if k > 0 {
      RunStep(p, args, mem, n);
      RunSteps(p, args, mem, n + 1, k - 1);
    }
  }

  // From the top of the loop to the return: the first element ends at zero, or one lower when
  // it was not positive.
  lemma {:induction false} LoopEnds(h: int, mem: Memory, n: nat, env: map<nat, int>, now: Memory) returns (m: nat)
    requires Run(Countdown(), [h], mem, n) == Running(1, 0, env, now) && h in now && now[h] != []
    ensures var x := now[h][0];
      Run(Countdown(), [h], mem, m) == Returned(None, now[h := now[h][0 := if x >= 1 then 0 else x - 1]])
    decreases now[h][0]
  {
    hide Step, Steps, Countdown, Run;
    var x := now[h][0] - 1;
    var env' := Round(h, env, now);
    RunSteps(Countdown(), [h], mem, n, 5);
    var next := now[h := now[h][0 := x]];
    if x > 0 {
      m := LoopEnds(h, mem, n + 5, env', next);
      assert next[h][0 := 0] == now[h][0 := 0];
      assert next[h := next[h][0 := 0]] == now[h := now[h][0 := 0]];
    } else {
      RunStep(Countdown(), [h], mem, n + 5);
      Exits(h, env', next);
      m := n + 6;
    }
  }

  lemma Exits(h: int, env: map<nat, int>, mem: Memory)
    ensures Step(Countdown(), [h], Running(2, 0, env, mem)) == Returned(None, mem)
  {}

  lemma Enters(h: int, mem: Memory)
    ensures Step(Countdown(), [h], Start(mem)) == Running(1, 0, map[], mem)
  {
    assert Target(Countdown(), "loop") == Some(1);
  }

  // A loop through memory, run to its end.
  lemma CountdownEnds(h: int, mem: Memory) returns (m: nat)
    requires h in mem && mem[h] != []
    ensures var x := mem[h][0];
      Run(Countdown(), [h], mem, m) == Returned(None, mem[h := mem[h][0 := if x >= 1 then 0 else x - 1]])
  {
    hide Step, Countdown, Run;
    Enters(h, mem);
    RunStep(Countdown(), [h], mem, 0);
    m := LoopEnds(h, mem, 1, map[], mem);
  }

  // ----- the loop that need not end -----

  lemma SpinShape()
    ensures Structured(Spin())
  {
    SpinBlocks();
    hide BlockShape;
    forall b, i | At(Spin(), b, i) ensures Spin()[b].body[i].uid == if b == 2 then 3 + i else b + i {}
  }

  lemma SpinBlocks()
    ensures BlockShape(Spin()[0]) && BlockShape(Spin()[1]) && BlockShape(Spin()[2])
  {
    SpinNodes();
    hide Shape;
  }

  lemma SpinNodes()
    ensures forall b, i :: At(Spin(), b, i) ==> Shape(Spin()[b].body[i])
  {}

  lemma SpinLocal()
    ensures Local(Spin())
  {
    assert Spin()[1].body[0].uid == 1 && Spin()[2].body[0].uid == 3;
  }

  lemma SpinIsWellFormed()
    ensures WellFormed(Spin())
  {
    hide *;
    SpinShape();
    SpinLocal();
    LocalIsWellFormed(Spin());
  }

  lemma SpinIsNative()
    ensures N.NativeReady(Spin()) && NoMemory(Spin())
  {
    SpinArith();
    hide N.NamesArith;
  }

  lemma SpinArith()
    ensures N.NamesArith(Spin(), 3)
  {}

  lemma SpinOperations()
    ensures OperationsDominate(Spin())
  {
    hide Dominators;
  }

  lemma SpinArguments()
    ensures ArgumentsGiven(Spin(), 2)
  {}

  lemma SpinLabels()
    ensures LabelsDeclared(Spin())
  {
    assert Spin()[1].name == "test" && Spin()[2].name == "exit";
  }

  // Before the test, or after it came out true.
  ghost predicate Spinning(s: Config) {
    s.Running? &&
    ((s.b == 0 && s.i == 0) || (s.b == 1 && s.i == 0) || (s.b == 1 && s.i == 1 && 1 in s.env && s.env[1] == 1))
  }

  // While the first argument is less than the second it runs on.
  lemma {:induction false} SpinRuns(x: int, y: int, mem: Memory, n: nat)
    requires x < y
    ensures Spinning(Run(Spin(), [x, y], mem, n))
  {
    hide Spin, Step;
    if n > 0 {
      SpinRuns(x, y, mem, n - 1);
      SpinStep(x, y, Run(Spin(), [x, y], mem, n - 1));
    }
  }

  lemma SpinStep(x: int, y: int, s: Config)
    requires x < y && Spinning(s)
    ensures Spinning(Step(Spin(), [x, y], s))
  {
    assert Target(Spin(), "test") == Some(1);
  }

  lemma SpinStarts(x: int, y: int, mem: Memory)
    ensures Step(Spin(), [x, y], Start(mem)) == Running(1, 0, map[], mem)
  {
    assert Target(Spin(), "test") == Some(1);
  }

  lemma SpinTest(x: int, y: int, mem: Memory)
    requires x >= y
    ensures Step(Spin(), [x, y], Running(1, 0, map[], mem)) == Running(1, 1, map[1 := 0], mem)
    ensures Step(Spin(), [x, y], Running(1, 1, map[1 := 0], mem)) == Running(2, 0, map[1 := 0], mem)
  {
    assert Target(Spin(), "exit") == Some(2);
  }

  lemma SpinExit(x: int, y: int, env: map<nat, int>, mem: Memory)
    ensures Step(Spin(), [x, y], Running(2, 0, env, mem)) == Running(2, 1, env[3 := x + y], mem)
    ensures Step(Spin(), [x, y], Running(2, 1, env[3 := x + y], mem)) == Returned(Some(x + y), mem)
  {}

  lemma SpinReturns(x: int, y: int, mem: Memory)
    requires x >= y
    ensures Run(Spin(), [x, y], mem, 5) == Returned(Some(x + y), mem)
  {
    hide Spin, Step;
    SpinStarts(x, y, mem);
    SpinTest(x, y, mem);
    SpinExit(x, y, map[1 := 0], mem);
    RunSteps(Spin(), [x, y], mem, 0, 5);
    assert Steps(Spin(), [x, y], Start(mem), 5) == Steps(Spin(), [x, y], Running(2, 0, map[1 := 0], mem), 2);
  }

  lemma SpinEnds(x: int, y: int, mem: Memory)
    ensures Ends(Spin(), [x, y], mem) <==> x >= y
  {
    hide Spin, Run;
    if x >= y {
      SpinReturns(x, y, mem);
    } else {
      forall n: nat ensures !Run(Spin(), [x, y], mem, n).Returned? { SpinRuns(x, y, mem, n); }
    }
  }

  lemma SpinNarrow(x: int, y: int, s: Config)
    requires Narrow(x) && Narrow(y)
    ensures ComparesNarrow(Spin(), [x, y], s)
  {}

  lemma SpinSteady(x: int, y: int, mem: Memory)
    requires Narrow(x) && Narrow(y)
    ensures Steady(Spin(), [x, y], mem)
  {
    SpinIsWellFormed();
    SpinIsNative();
    SpinArguments();
    SpinLabels();
    hide Spin, Run, ComparesNarrow, WellFormed, ArgumentsGiven, LabelsDeclared, NoMemory, N.NativeReady;
    forall n: nat ensures !Run(Spin(), [x, y], mem, n).Fault? && NarrowRun(Spin(), [x, y], mem, n) {
      NeverFails(Spin(), [x, y], mem, n);
      forall k: nat | k < n ensures ComparesNarrow(Spin(), [x, y], Run(Spin(), [x, y], mem, k)) {
        SpinNarrow(x, y, Run(Spin(), [x, y], mem, k));
      }
    }
  }

  // Its machine code returns exactly when the first argument is not the smaller.
  lemma SpinningCode(k: N.Call, x: int, y: int, mem: Memory)
    requires k.args == [x, y] && Narrow(x) && Narrow(y)
    requires E.ReadyToCall(k, RunDefaultPasses(Spin())) && A.Assembles(N.Items(k))
    ensures (exists m: nat :: M.RunCode(A.Link(N.Items(k)), M.Live(0, k.start), m).Done?) <==> x >= y
  {
    hide *;
    SpinIsWellFormed();
    SpinIsNative();
    SpinOperations();
    OperationsShareSafely(DEFAULT_PASSES, Spin(), DEFAULT_ITERATIONS);
    SpinSteady(x, y, mem);
    E.OptimizedReturnsExactly(Spin(), k, mem);
    SpinEnds(x, y, mem);
  }
}
