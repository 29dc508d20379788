// From the interpreter on the original function to the processor on the bytes of the
// optimized one.

module EndToEnd {
  import opened Options
  import opened Ir
  import opened Interp
  import opened Cfg
  import opened Refinement
  import opened InterpLaws
  import opened Cse
  import opened DeadCode
  import opened Pipeline
  import opened NativePasses
  import opened Sweeping
  import opened Sweep
  import opened Rewrite
  import N = Native
  import C = Codegen
  import X = X86
  import NM = NativeMain
  import S = Simulation
  import A = Assembler
  import M = Machine

  // The caller's side of the convention, for the optimized function q.
  ghost predicate ReadyToCall(k: N.Call, q: Prog) {
    k.p == q && k.d == Dominators(q) && N.Passed(k.windows, k.start, k.args) && N.StackOk(k) &&
    N.FrameOf(k).size < 0x8000_0000
  }

  lemma CallIsOk(k: N.Call, q: Prog)
    requires WellFormed(q) && N.NativeReady(q) && ReadyToCall(k, q) && A.Assembles(N.Items(k))
    ensures N.CallOk(k)
  {}

  // Main result. For every well-formed function in the native fragment whose optimized form
  // assembles: if the interpreter returns on the original, and compared only signed 64-bit
  // numbers, the bytes of the optimized function return the same value modulo 2^64.
  lemma OptimizedNativeCodeAgrees(p: Prog, k: N.Call, mem: Memory, n: nat) returns (m: nat)
    requires WellFormed(p) && N.NativeReady(p) && SharesSafely(DEFAULT_PASSES, p, DEFAULT_ITERATIONS)
    requires ReadyToCall(k, RunDefaultPasses(p)) && A.Assembles(N.Items(k))
    requires Run(p, k.args, mem, n).Returned? && NarrowRun(p, k.args, mem, n)
    ensures S.Returns(k, M.RunCode(A.Link(N.Items(k)), M.Live(0, k.start), m), Run(p, k.args, mem, n).value)
  {
    hide *;
    var q := RunDefaultPasses(p);
    DefaultPreserves(p);
    DefaultNativeReady(p);
    CallIsOk(k, q);
    var n' := EndsIn(p, q, k, mem, n);
    m := NM.NativeCodeReturns(k, mem, n');
  }

  // The same with a condition on the original function alone: loops and branches, as long as
  // equal operations dominate one another.
  lemma DominatedCodeAgrees(p: Prog, k: N.Call, mem: Memory, n: nat) returns (m: nat)
    requires WellFormed(p) && N.NativeReady(p) && OperationsDominate(p)
    requires ReadyToCall(k, RunDefaultPasses(p)) && A.Assembles(N.Items(k))
    requires Run(p, k.args, mem, n).Returned? && NarrowRun(p, k.args, mem, n)
    ensures S.Returns(k, M.RunCode(A.Link(N.Items(k)), M.Live(0, k.start), m), Run(p, k.args, mem, n).value)
  {
    hide *;
    OperationsShareSafely(DEFAULT_PASSES, p, DEFAULT_ITERATIONS);
    m := OptimizedNativeCodeAgrees(p, k, mem, n);
  }

  lemma DefaultNativeReady(p: Prog)
    requires WellFormed(p) && N.NativeReady(p) && SharesSafely(DEFAULT_PASSES, p, DEFAULT_ITERATIONS)
    ensures N.NativeReady(RunDefaultPasses(p))
  {
    OptimizeNativeReady(DEFAULT_PASSES, p, DEFAULT_ITERATIONS);
  }

  lemma EndsIn(p: Prog, q: Prog, k: N.Call, mem: Memory, n: nat) returns (m: nat)
    requires SameMeaning(p, q) && Run(p, k.args, mem, n).Returned? && ReadyToCall(k, q)
    ensures k.p == q && Run(q, k.args, mem, m) == Run(p, k.args, mem, n)
    ensures NarrowRun(p, k.args, mem, n) ==> NarrowRun(q, k.args, mem, m)
  {
    hide Run, NarrowRun;
    m :| EndsAlike(p, q, k.args, mem, n, m);
  }

  // Without faults and wide comparisons, the optimized code returns exactly when the original
  // function does: it neither stops nor returns where the original runs on.
  lemma OptimizedReturnsExactly(p: Prog, k: N.Call, mem: Memory)
    requires WellFormed(p) && N.NativeReady(p) && SharesSafely(DEFAULT_PASSES, p, DEFAULT_ITERATIONS)
    requires ReadyToCall(k, RunDefaultPasses(p)) && A.Assembles(N.Items(k))
    requires Steady(p, k.args, mem)
    ensures Ends(p, k.args, mem) <==> (exists m: nat :: M.RunCode(A.Link(N.Items(k)), M.Live(0, k.start), m).Done?)
  {
    hide *;
    var q := RunDefaultPasses(p);
    DefaultPreserves(p);
    DefaultNativeReady(p);
    CallIsOk(k, q);
    SteadyAlike(p, q, k.args, mem);
    SteadyUnfailing(p, k.args, mem);
    EndAlike(p, q, k.args, mem);
    CallsIt(k, q);
    NM.NativeReturnsExactly(k, mem);
  }

  lemma CallsIt(k: N.Call, q: Prog)
    requires ReadyToCall(k, q)
    ensures k.p == q
  {}

  // A result in range is returned exactly.
  lemma NarrowResultIsExact(k: N.Call, t: M.State, v: int)
    requires S.Returns(k, t, Some(v)) && Narrow(v)
    ensures M.Signed(t.out.regs[X.RAX]) == v
  {}

  // ----- branch-free functions -----

  ghost predicate NoBranch(p: Prog) { forall b, i :: At(p, b, i) ==> p[b].body[i].op != BR }

  lemma NoBranchRewritten(p: Prog, ed: Edit)
    requires NoBranch(p)
    ensures NoBranch(RewriteProg(p, ed))
  {
    var q := RewriteProg(p, ed);
    forall b, x | At(q, b, x) ensures q[b].body[x].op != BR { var i := OriginAt(p, ed, b, x); }
  }

  lemma {:induction false} NoBranchDce(p: Prog)
    requires WellFormed(p) && NoBranch(p)
    ensures NoBranch(Dce(p))
    decreases Count(p)
  {
    RoundIsRewrite(p);
    NoBranchRewritten(p, Deleting(DeadOf(p)));
    RoundPreserves(p);
    hide WellFormed, Round, NoBranch;
    if Count(Round(p)) < Count(p) { NoBranchDce(Round(p)); }
  }

  lemma {:induction false} NoBranchRun(passes: seq<Pass>, p: Prog, k: nat)
    requires WellFormed(p) && NoBranch(p) && k <= |passes|
    requires forall j :: 0 <= j < k && passes[j] == Forward(CSE) ==> SharingDominates(RunAll(passes, p, j))
    ensures NoBranch(RunAll(passes, p, k)) && WellFormed(RunAll(passes, p, k))
  {
    hide WellFormed, NoBranch, SameMeaning, Dominators, SharingDominates, RunPass;
    RunAllPreserves(passes, p, k);
    if k > 0 {
      NoBranchRun(passes, p, k - 1);
      NoBranchPass(passes[k - 1], RunAll(passes, p, k - 1));
    }
  }

  lemma NoBranchPass(pass: Pass, p: Prog)
    requires WellFormed(p) && NoBranch(p)
    ensures NoBranch(RunPass(pass, p))
  {
    match pass
    case Forward(kind) =>
      WellFormedOrdered(p, Dominators(p));
      SweepIsRewrite(kind, p);
      NoBranchRewritten(p, Final(kind, p));
    case DeadCodePass => NoBranchDce(p);
  }

  // Optimization ends with dead code elimination, which leaves nothing unread.
  lemma {:induction false} OptimizedIsSettled(p: Prog, iterations: nat)
    requires WellFormed(p) && NoBranch(p) && iterations > 0 && SharesSafely(DEFAULT_PASSES, p, iterations)
    ensures var q := Optimize(DEFAULT_PASSES, p, iterations).0;
      NoBranch(q) && Round(q) == q && Count(Round(q)) == Count(q)
    decreases iterations
  {
    var q, r := RunAll(DEFAULT_PASSES, p, 5), RunAll(DEFAULT_PASSES, p, 4);
    LastIsDce(p);
    DceSettles(r);
    NoBranchRun(DEFAULT_PASSES, p, 5);
    hide RunAll, Changed, Dce, WellFormed, NoBranch, Round, Count, SharingDominates;
    if Changed(DEFAULT_PASSES, p, |DEFAULT_PASSES|) && iterations > 1 { OptimizedIsSettled(q, iterations - 1); }
  }

  lemma LastIsDce(p: Prog)
    ensures RunAll(DEFAULT_PASSES, p, 5) == Dce(RunAll(DEFAULT_PASSES, p, 4))
  {
    hide Dce;
  }

  lemma ReadsArith(q: Prog, u: nat)
    requires N.NativeReady(q) && NoBranch(q) && u in Uses(q)
    ensures N.NamesArith(q, u)
  {
    UsedInside(q, |q|, 0, u);
    var c, j :| At(q, c, j) && u in Refs(q[c].body[j]);
    assert N.NativeNode(q, c, j);
  }

  // With no branch to test it, a comparison is read by nothing, so none is left.
  lemma NoCompareLeft(q: Prog, b: int, i: int)
    requires N.NativeReady(q) && NoBranch(q) && Round(q) == q && Count(Round(q)) == Count(q) && Structured(q) &&
      At(q, b, i)
    ensures q[b].body[i].op != CMP
  {
    RoundSettles(q);
    var n := q[b].body[i];
    assert BlockShape(q[b]) && Shape(n);
    hide Round, Count;
    if n.uid in Uses(q) { ReadsArith(q, n.uid); }
  }

  lemma NothingCompares(q: Prog, args: seq<int>, mem: Memory, n: nat)
    requires N.NativeReady(q) && NoBranch(q) && Round(q) == q && Count(Round(q)) == Count(q) && Structured(q)
    ensures NarrowRun(q, args, mem, n)
  {
    hide Run, Round, Count, N.NativeReady, NoBranch, Structured;
    forall b, i | At(q, b, i) ensures q[b].body[i].op != CMP { NoCompareLeft(q, b, i); }
  }

  // Main result for branch-free functions: modulo 2^64 with no assumption on the values.
  lemma BranchFreeAgrees(p: Prog, k: N.Call, mem: Memory, n: nat) returns (m: nat)
    requires WellFormed(p) && N.NativeReady(p) && NoBranch(p) && SharesSafely(DEFAULT_PASSES, p, DEFAULT_ITERATIONS)
    requires ReadyToCall(k, RunDefaultPasses(p)) && A.Assembles(N.Items(k))
    requires Run(p, k.args, mem, n).Returned?
    ensures S.Returns(k, M.RunCode(A.Link(N.Items(k)), M.Live(0, k.start), m), Run(p, k.args, mem, n).value)
  {
    hide *;
    var q := RunDefaultPasses(p);
    DefaultPreserves(p);
    DefaultNativeReady(p);
    CallIsOk(k, q);
    var n' := EndsIn(p, q, k, mem, n);
    DefaultIsSettled(p);
    WellFormedStructured(q);
    NothingCompares(q, k.args, mem, n');
    m := NM.NativeCodeReturns(k, mem, n');
  }

  // For such a function, with its arguments given and its labels declared, the code returns
  // exactly when the function does, with no assumption on the values either.
  lemma BranchFreeReturnsExactly(p: Prog, k: N.Call, mem: Memory)
    requires WellFormed(p) && N.NativeReady(p) && NoBranch(p) && SharesSafely(DEFAULT_PASSES, p, DEFAULT_ITERATIONS)
    requires ArgumentsGiven(p, |k.args|) && LabelsDeclared(p)
    requires ReadyToCall(k, RunDefaultPasses(p)) && A.Assembles(N.Items(k))
    ensures Ends(p, k.args, mem) <==> (exists m: nat :: M.RunCode(A.Link(N.Items(k)), M.Live(0, k.start), m).Done?)
  {
    hide *;
    var q := RunDefaultPasses(p);
    DefaultPreserves(p);
    DefaultNativeReady(p);
    CallIsOk(k, q);
    NativeUnfailing(p, k.args, mem);
    UnfailingAlike(p, q, k.args, mem);
    EndAlike(p, q, k.args, mem);
    DefaultIsSettled(p);
    WellFormedStructured(q);
    QuietIsSteady(q, k.args, mem);
    CallsIt(k, q);
    NM.NativeReturnsExactly(k, mem);
  }

  // A function in the native fragment never fails.
  lemma NativeUnfailing(p: Prog, args: seq<int>, mem: Memory)
    requires WellFormed(p) && N.NativeReady(p) && ArgumentsGiven(p, |args|) && LabelsDeclared(p)
    ensures Unfailing(p, args, mem)
  {
    NativeHasNoMemory(p);
    hide WellFormed, N.NativeReady, ArgumentsGiven, LabelsDeclared, NoMemory, Run;
    forall n: nat ensures !Run(p, args, mem, n).Fault? { NeverFails(p, args, mem, n); }
  }

  lemma NativeHasNoMemory(p: Prog)
    requires N.NativeReady(p)
    ensures NoMemory(p)
  {
    forall b, i | At(p, b, i) ensures p[b].body[i].op != LOAD && p[b].body[i].op != STORE {
      assert N.NativeNode(p, b, i);
    }
  }

  lemma QuietIsSteady(q: Prog, args: seq<int>, mem: Memory)
    requires N.NativeReady(q) && NoBranch(q) && Round(q) == q && Count(Round(q)) == Count(q) && Structured(q)
    requires Unfailing(q, args, mem)
    ensures Steady(q, args, mem)
  {
    hide N.NativeReady, NoBranch, Round, Count, Structured, Run, NarrowRun;
    forall n: nat ensures !Run(q, args, mem, n).Fault? && NarrowRun(q, args, mem, n) {
      NothingCompares(q, args, mem, n);
    }
  }

  // One block needs nothing more.
  lemma SingleBlockAgrees(p: Prog, k: N.Call, mem: Memory, n: nat) returns (m: nat)
    requires WellFormed(p) && N.NativeReady(p) && |p| == 1 && NoBranch(p)
    requires ReadyToCall(k, RunDefaultPasses(p)) && A.Assembles(N.Items(k))
    requires Run(p, k.args, mem, n).Returned?
    ensures S.Returns(k, M.RunCode(A.Link(N.Items(k)), M.Live(0, k.start), m), Run(p, k.args, mem, n).value)
  {
    hide *;
    SingleBlockSharesSafely(DEFAULT_PASSES, p, DEFAULT_ITERATIONS);
    m := BranchFreeAgrees(p, k, mem, n);
  }

  lemma WellFormedStructured(q: Prog)
    requires WellFormed(q)
    ensures Structured(q)
  {}

  lemma DefaultIsSettled(p: Prog)
    requires WellFormed(p) && NoBranch(p) && SharesSafely(DEFAULT_PASSES, p, DEFAULT_ITERATIONS)
    ensures var q := RunDefaultPasses(p); NoBranch(q) && Round(q) == q && Count(Round(q)) == Count(q)
  {
    OptimizedIsSettled(p, DEFAULT_ITERATIONS);
  }
}
