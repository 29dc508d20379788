// The optimization pipeline: a list of passes, repeated until no pass changes the
// instruction count, at most a given number of times.

module Pipeline {
  import opened Options
  import opened Ir
  import opened Cfg
  import opened Refinement
  import opened Rewrite
  import opened Sweep
  import opened Sweeping
  import opened FoldReduce
  import opened Cse
  import opened Settled
  import opened DeadCode

  datatype Pass = Forward(kind: Kind) | DeadCodePass

  const DEFAULT_PASSES: seq<Pass> :=
    [Forward(FOLD), Forward(REDUCE), DeadCodePass, Forward(CSE), DeadCodePass]

  const DEFAULT_ITERATIONS: nat := 3

  function RunPass(pass: Pass, p: Prog): Prog {
    match pass
    case Forward(kind) => SweepProg(kind, p)
    case DeadCodePass => Dce(p)
  }

  // After the first k passes, and whether one of them changed the instruction count.
  function RunAll(passes: seq<Pass>, p: Prog, k: nat): Prog
    requires k <= |passes|
  {
    if k == 0 then p else RunPass(passes[k - 1], RunAll(passes, p, k - 1))
  }

  predicate Changed(passes: seq<Pass>, p: Prog, k: nat)
    requires k <= |passes|
  {
    k > 0 && (Changed(passes, p, k - 1) || Count(RunAll(passes, p, k)) != Count(RunAll(passes, p, k - 1)))
  }

  // The result, and whether the loop stopped because nothing changed.
  function Optimize(passes: seq<Pass>, p: Prog, iterations: nat): (Prog, bool)
    decreases iterations
  {
    if iterations == 0 then (p, false)
    else
      var q := RunAll(passes, p, |passes|);
      if Changed(passes, p, |passes|) then Optimize(passes, q, iterations - 1) else (q, true)
  }

  function RunDefaultPasses(p: Prog): Prog { Optimize(DEFAULT_PASSES, p, DEFAULT_ITERATIONS).0 }

  // ----- meaning -----

  // Every elimination the pipeline runs shares only what dominates.
  ghost predicate SharesSafely(passes: seq<Pass>, p: Prog, iterations: nat)
    decreases iterations
  {
    iterations > 0 ==>
      (forall k :: 0 <= k < |passes| && passes[k] == Forward(CSE) ==> SharingDominates(RunAll(passes, p, k))) &&
      (Changed(passes, p, |passes|) ==> SharesSafely(passes, RunAll(passes, p, |passes|), iterations - 1))
  }

  lemma PassPreserves(pass: Pass, p: Prog)
    requires WellFormed(p) && (pass == Forward(CSE) ==> SharingDominates(p))
    ensures WellFormed(RunPass(pass, p)) && SameMeaning(p, RunPass(pass, p)) &&
      Dominators(RunPass(pass, p)) == Dominators(p)
  {
    hide WellFormed, SameMeaning, Dominators, SweepProg, Dce;
    match pass
    case Forward(kind) => if kind == CSE { CsePreserves(p); } else { FoldReducePreserves(kind, p); }
    case DeadCodePass => DcePreserves(p);
  }

  lemma {:induction false} RunAllPreserves(passes: seq<Pass>, p: Prog, k: nat)
    requires WellFormed(p) && k <= |passes|
    requires forall j :: 0 <= j < k && passes[j] == Forward(CSE) ==> SharingDominates(RunAll(passes, p, j))
    ensures WellFormed(RunAll(passes, p, k)) && SameMeaning(p, RunAll(passes, p, k))
    ensures Dominators(RunAll(passes, p, k)) == Dominators(p)
  {
    hide WellFormed, SameMeaning, Dominators, SharingDominates, RunPass;
    if k == 0 {
      SameMeaningReflexive(p);
    } else {
      RunAllPreserves(passes, p, k - 1);
      PassPreserves(passes[k - 1], RunAll(passes, p, k - 1));
      SameMeaningTransitive(p, RunAll(passes, p, k - 1), RunAll(passes, p, k));
    }
  }

  // Main result: any list of passes, run any number of times, preserves meaning.
  lemma {:induction false} OptimizePreserves(passes: seq<Pass>, p: Prog, iterations: nat)
    requires WellFormed(p) && SharesSafely(passes, p, iterations)
    ensures var q := Optimize(passes, p, iterations).0;
      WellFormed(q) && SameMeaning(p, q) && Dominators(q) == Dominators(p)
    decreases iterations
  {
    hide WellFormed, SameMeaning, Dominators, SharingDominates, RunAll;
    if iterations == 0 {
      SameMeaningReflexive(p);
    } else {
      var q := RunAll(passes, p, |passes|);
      RunAllPreserves(passes, p, |passes|);
      if Changed(passes, p, |passes|) {
        OptimizePreserves(passes, q, iterations - 1);
        SameMeaningTransitive(p, q, Optimize(passes, q, iterations - 1).0);
      }
    }
  }

  // ----- a condition on the function as it is given -----

  lemma OperationsAfter(pass: Pass, p: Prog)
    requires WellFormed(p) && OperationsDominate(p)
    ensures OperationsDominate(RunPass(pass, p))
  {
    OperationsShare(p);
    PassPreserves(pass, p);
    WellFormedOrdered(p, Dominators(p));
    hide Dominators, WellFormed, SameMeaning, OperationsDominate, SharingDominates, SweepProg, Dce, Unneeded;
    match pass
    case Forward(kind) => SweepIsRewrite(kind, p); OperationsKept(p, Final(kind, p));
    case DeadCodePass => DceKeepsNeeded(p); OperationsKept(p, Deleting(Unneeded(p)));
  }

  lemma {:induction false} OperationsRun(passes: seq<Pass>, p: Prog, k: nat)
    requires WellFormed(p) && OperationsDominate(p) && k <= |passes|
    ensures WellFormed(RunAll(passes, p, k)) && OperationsDominate(RunAll(passes, p, k))
    ensures forall j :: 0 <= j < k ==> SharingDominates(RunAll(passes, p, j))
  {
    hide WellFormed, SameMeaning, Dominators, SharingDominates, OperationsDominate, RunPass;
    if k > 0 {
      OperationsRun(passes, p, k - 1);
      var q := RunAll(passes, p, k - 1);
      OperationsShare(q);
      PassPreserves(passes[k - 1], q);
      OperationsAfter(passes[k - 1], q);
    }
  }

  // Main result: where equal operations dominate one another every elimination of the
  // pipeline is safe, whatever the passes before it did.
  lemma {:induction false} OperationsShareSafely(passes: seq<Pass>, p: Prog, iterations: nat)
    requires WellFormed(p) && OperationsDominate(p)
    ensures SharesSafely(passes, p, iterations)
    decreases iterations
  {
    hide WellFormed, SharingDominates, OperationsDominate, RunAll, Changed;
    if iterations > 0 {
      OperationsRun(passes, p, |passes|);
      OperationsShareSafely(passes, RunAll(passes, p, |passes|), iterations - 1);
    }
  }

  lemma SingleBlockSharesSafely(passes: seq<Pass>, p: Prog, iterations: nat)
    requires WellFormed(p) && |p| == 1
    ensures SharesSafely(passes, p, iterations)
  {
    SingleBlockDominates(p);
    OperationsShareSafely(passes, p, iterations);
  }

  // With nothing to check but the function itself.
  lemma OperationsPreserve(passes: seq<Pass>, p: Prog, iterations: nat)
    requires WellFormed(p) && OperationsDominate(p)
    ensures var q := Optimize(passes, p, iterations).0; WellFormed(q) && SameMeaning(p, q)
  {
    OperationsShareSafely(passes, p, iterations);
    OptimizePreserves(passes, p, iterations);
  }

  lemma DefaultPreserves(p: Prog)
    requires WellFormed(p) && SharesSafely(DEFAULT_PASSES, p, DEFAULT_ITERATIONS)
    ensures WellFormed(RunDefaultPasses(p)) && SameMeaning(p, RunDefaultPasses(p))
  {
    OptimizePreserves(DEFAULT_PASSES, p, DEFAULT_ITERATIONS);
  }

  // ----- fixed points -----

  ghost predicate FixedByAll(passes: seq<Pass>, p: Prog) {
    forall k :: 0 <= k < |passes| ==> RunPass(passes[k], p) == p
  }

  // A pass that deletes nothing rewrites nothing.
  lemma PassCounts(pass: Pass, p: Prog)
    ensures Count(RunPass(pass, p)) <= Count(p)
    ensures Count(RunPass(pass, p)) == Count(p) ==> RunPass(pass, p) == p
    ensures RunPass(pass, RunPass(pass, p)) == RunPass(pass, p)
  {
    match pass
    case Forward(kind) => SweepCounts(kind, p); SweepIdempotent(kind, p);
    case DeadCodePass => DceSettles(p);
  }

  lemma {:induction false} UnchangedRun(passes: seq<Pass>, p: Prog, k: nat)
    requires k <= |passes| && !Changed(passes, p, k)
    ensures RunAll(passes, p, k) == p && forall j :: 0 <= j < k ==> RunPass(passes[j], p) == p
  {
    hide RunPass;
    if k > 0 {
      UnchangedRun(passes, p, k - 1);
      PassCounts(passes[k - 1], p);
    }
  }

  lemma {:induction false} FixedRun(passes: seq<Pass>, p: Prog, k: nat)
    requires k <= |passes| && FixedByAll(passes, p)
    ensures RunAll(passes, p, k) == p && !Changed(passes, p, k)
  {
    hide RunPass, Count;
    if k > 0 { FixedRun(passes, p, k - 1); }
  }

  // Main result: when the loop stops early its result is a fixed point of every pass,
  // and running the pipeline again changes neither instructions nor operands.
  lemma {:induction false} EarlyStopIsFixed(passes: seq<Pass>, p: Prog, iterations: nat, again: nat)
    requires Optimize(passes, p, iterations).1
    ensures FixedByAll(passes, Optimize(passes, p, iterations).0)
    ensures Optimize(passes, Optimize(passes, p, iterations).0, again).0 == Optimize(passes, p, iterations).0
    decreases iterations
  {
    if Changed(passes, p, |passes|) {
      EarlyStopIsFixed(passes, RunAll(passes, p, |passes|), iterations - 1, again);
    } else {
      UnchangedRun(passes, p, |passes|);
      FixedRun(passes, p, |passes|);
    }
  }
}
