// The optimization pipeline as an object, and the interpreter's loop.

module PipelineObjects {
  import opened Options
  import opened Division
  import opened Ir
  import opened IrObjects
  import opened Interp
  import opened Sweep
  import opened PassObjects
  import opened DeadCode
  import opened DeadCodeObjects
  import opened Pipeline

  datatype Stat = Stat(pass: Pass, iteration: nat, before: nat, after: nat)

  method ApplyPass(pass: Pass, f: Function)
    requires f.Valid()
    modifies f`prog, f`nextInstId, f.Repr
    ensures f.Valid() && f.Repr == old(f.Repr) && f.prog == RunPass(pass, old(f.prog))
  {
    match pass
    case Forward(kind) => var _ := RunSweep(kind, f);
    case DeadCodePass => var _ := RunDce(f);
  }

  class OptimizationPipeline {
    var passes: seq<Pass>
    var stats: seq<Stat>

    constructor ()
      ensures passes == [] && stats == []
    {
      passes, stats := [], [];
    }

    method Add(pass: Pass)
      modifies `passes
      ensures passes == old(passes) + [pass]
    {
      passes := passes + [pass];
    }

    method RunPassOn(pass: Pass, f: Function, iteration: nat) returns (changed: bool)
      requires f.Valid() && this !in f.Repr
      modifies `stats, f`prog, f`nextInstId, f.Repr
      ensures f.Valid() && f.Repr == old(f.Repr) && f.prog == RunPass(pass, old(f.prog))
      ensures changed == (Count(f.prog) != Count(old(f.prog)))
      ensures stats == old(stats) + [Stat(pass, iteration, Count(old(f.prog)), Count(f.prog))]
    {
      hide RunPass, Count;
      var before := InstructionCount(f);
      ApplyPass(pass, f);
      var after := InstructionCount(f);
      stats := stats + [Stat(pass, iteration, before, after)];
      changed := before != after;
    }

    // All passes once, with one record each.
    method RunOnce(f: Function, iteration: nat) returns (changed: bool)
      requires f.Valid() && this !in f.Repr
      modifies `stats, f`prog, f`nextInstId, f.Repr
      ensures f.Valid() && f.Repr == old(f.Repr)
      ensures f.prog == RunAll(passes, old(f.prog), |passes|) && changed == Changed(passes, old(f.prog), |passes|)
      ensures stats == old(stats) + StatsOf(passes, old(f.prog), iteration, |passes|)
    {
      hide RunPass, Count, RunAll, Changed, StatsOf, Function.Valid;
      ghost var p := f.prog;
      OnceStarts(passes, p, iteration);
      changed := false;
      for k := 0 to |passes|
        invariant f.Valid() && f.Repr == old(f.Repr)
        invariant f.prog == RunAll(passes, p, k) && changed == Changed(passes, p, k)
        invariant stats == old(stats) + StatsOf(passes, p, iteration, k)
      {
        var c := RunPassOn(passes[k], f, iteration);
        changed := changed || c;
        OnceStep(passes, p, iteration, k);
      }
    }

    // Repeat until nothing changes, at most maxIterations times.
    method Run(f: Function, maxIterations: nat)
      requires f.Valid() && this !in f.Repr
      modifies `stats, f`prog, f`nextInstId, f.Repr
      ensures f.Valid() && f.prog == Optimize(passes, old(f.prog), maxIterations).0
      ensures stats == AllStats(passes, old(f.prog), 0, maxIterations)
    {
      hide RunAll, StatsOf, Changed;
      stats := [];
      ghost var p := f.prog;
      var iteration, changed := 0, true;
      while iteration < maxIterations && changed
        invariant iteration <= maxIterations && f.Valid() && f.Repr == old(f.Repr)
        invariant Optimize(passes, p, maxIterations).0 ==
          if changed then Optimize(passes, f.prog, maxIterations - iteration).0 else f.prog
        invariant AllStats(passes, p, 0, maxIterations) ==
          stats + if changed then AllStats(passes, f.prog, iteration, maxIterations) else []
      {
        changed := RunOnce(f, iteration);
        iteration := iteration + 1;
      }
    }
  }

  function StatsOf(passes: seq<Pass>, p: Prog, iteration: nat, k: nat): seq<Stat>
    requires k <= |passes|
  {
    if k == 0 then []
    else
      var last := Stat(passes[k - 1], iteration, Count(RunAll(passes, p, k - 1)), Count(RunAll(passes, p, k)));
      StatsOf(passes, p, iteration, k - 1) + [last]
  }

  function AllStats(passes: seq<Pass>, p: Prog, iteration: nat, maxIterations: nat): seq<Stat>
    requires iteration <= maxIterations
    decreases maxIterations - iteration
  {
    if iteration == maxIterations then []
    else
      var now := StatsOf(passes, p, iteration, |passes|);
      if Changed(passes, p, |passes|)
      then now + AllStats(passes, RunAll(passes, p, |passes|), iteration + 1, maxIterations)
      else now
  }

  // Each record's count after its pass is the next record's count before.
  ghost predicate Linked(s: seq<Stat>, before: nat, after: nat) {
    (if s == [] then before == after else s[0].before == before && s[|s| - 1].after == after) &&
    forall k :: 0 <= k < |s| - 1 ==> s[k].after == s[k + 1].before
  }

  lemma LinkedJoin(s: seq<Stat>, t: seq<Stat>, a: nat, b: nat, c: nat)
    requires Linked(s, a, b) && Linked(t, b, c)
    ensures Linked(s + t, a, c)
  {
    var r := s + t;
    forall k | 0 <= k < |r| - 1 ensures r[k].after == r[k + 1].before {
      if k < |s| - 1 { assert r[k] == s[k] && r[k + 1] == s[k + 1]; }
      else if k >= |s| { assert r[k] == t[k - |s|] && r[k + 1] == t[k - |s| + 1]; }
    }
  }

  lemma {:induction false} OnceRecords(passes: seq<Pass>, p: Prog, iteration: nat, k: nat)
    requires k <= |passes|
    ensures |StatsOf(passes, p, iteration, k)| == k
    ensures Linked(StatsOf(passes, p, iteration, k), Count(p), Count(RunAll(passes, p, k)))
    ensures forall j :: 0 <= j < k ==>
      StatsOf(passes, p, iteration, k)[j].pass == passes[j] &&
      StatsOf(passes, p, iteration, k)[j].iteration == iteration
  {
    hide RunPass, Count;
    if k > 0 {
      OnceRecords(passes, p, iteration, k - 1);
      var before, after := Count(RunAll(passes, p, k - 1)), Count(RunAll(passes, p, k));
      LinkedJoin(StatsOf(passes, p, iteration, k - 1), [Stat(passes[k - 1], iteration, before, after)],
        Count(p), before, after);
    }
  }

  // Main result on the records: one for each pass of each iteration, in order, and their counts
  // lead from the function given to the result.
  lemma {:induction false} RecordsExact(passes: seq<Pass>, p: Prog, iteration: nat, maxIterations: nat)
    requires passes != [] && iteration <= maxIterations
    ensures var s := AllStats(passes, p, iteration, maxIterations);
      Linked(s, Count(p), Count(Optimize(passes, p, maxIterations - iteration).0)) &&
      forall k: nat :: k < |s| ==>
        s[k].pass == passes[k % |passes|] && s[k].iteration == iteration + k / |passes|
    decreases maxIterations - iteration
  {
    hide RunPass, Count, StatsOf, Changed, RunAll, Linked;
    if iteration == maxIterations {
      NothingRecorded(Count(p));
    } else {
      var now, q := StatsOf(passes, p, iteration, |passes|), RunAll(passes, p, |passes|);
      OnceRecords(passes, p, iteration, |passes|);
      forall k: nat | k < |passes| ensures k % |passes| == k && k / |passes| == 0 { SmallMod(k, |passes|); }
      if Changed(passes, p, |passes|) {
        RecordsExact(passes, q, iteration + 1, maxIterations);
        var rest := AllStats(passes, q, iteration + 1, maxIterations);
        LinkedJoin(now, rest, Count(p), Count(q), Count(Optimize(passes, q, maxIterations - iteration - 1).0));
        var all: seq<Stat> := now + rest;
        forall k: nat | |passes| <= k < |all|
          ensures all[k].pass == passes[k % |passes|] && all[k].iteration == iteration + k / |passes|
        {
          OneRoundOn(k - |passes|, |passes|);
          assert all[k] == rest[k - |passes|];
        }
      }
    }
  }

  lemma NothingRecorded(n: nat)
    ensures Linked([], n, n)
  {}

  lemma OneRoundOn(k: nat, n: nat)
    requires n > 0
    ensures (k + n) % n == k % n && (k + n) / n == k / n + 1
  {
    DivModUnique(k + n, n, k / n + 1, k % n);
  }

  lemma OnceStarts(passes: seq<Pass>, p: Prog, iteration: nat)
    ensures RunAll(passes, p, 0) == p && !Changed(passes, p, 0) && StatsOf(passes, p, iteration, 0) == []
  {}

  lemma OnceStep(passes: seq<Pass>, p: Prog, iteration: nat, k: nat)
    requires k < |passes|
    ensures RunAll(passes, p, k + 1) == RunPass(passes[k], RunAll(passes, p, k))
    ensures Changed(passes, p, k + 1) ==
      (Changed(passes, p, k) || Count(RunAll(passes, p, k + 1)) != Count(RunAll(passes, p, k)))
    ensures StatsOf(passes, p, iteration, k + 1) == StatsOf(passes, p, iteration, k) +
      [Stat(passes[k], iteration, Count(RunAll(passes, p, k)), Count(RunAll(passes, p, k + 1)))]
  {
    hide RunPass, Count;
  }

  method RunDefault(f: Function)
    requires f.Valid()
    modifies f`prog, f`nextInstId, f.Repr
    ensures f.Valid() && f.prog == RunDefaultPasses(old(f.prog))
  {
    hide Optimize;
    var pipeline := new OptimizationPipeline();
    pipeline.Add(Forward(FOLD));
    pipeline.Add(Forward(REDUCE));
    pipeline.Add(DeadCodePass);
    pipeline.Add(Forward(CSE));
    pipeline.Add(DeadCodePass);
    assert pipeline.passes == DEFAULT_PASSES;
    pipeline.Run(f, DEFAULT_ITERATIONS);
  }

  // One turn of the interpreter's loop.
  method Turn(f: Function, args: seq<int>, b: nat, i: nat, env: map<nat, int>, mem: Memory) returns (c: Config)
    requires f.Valid()
    ensures c == Step(f.prog, args, Running(b, i, env, mem))
  {
    hide Effects, EvalAll, Target;
    if b >= |f.blocks| { return Fault; }
    var xs := f.blocks[b].instructions;
    assert f.blocks[b].Mirrors(f.prog[b]);
    if i >= |xs| { return Running(b, 0, env, mem); }
    var inst := xs[i];
    assert inst.Shows(f.prog[b].body[i]);
    match Effects(inst.op, EvalAll(inst.args, args, env), mem)
    case Assign(v) => c := Running(b, i + 1, env[inst.uid := v], mem);
    case Write(m) => c := Running(b, i + 1, env, m);
    case Goto(name) =>
      var target := FindBlock(f, name);
      c := if target.Some? then Running(target.value, 0, env, mem) else Fault;
    case Return(r) => c := Returned(r, mem);
    case Bad => c := Fault;
  }

  // The interpreter's loop, for a given number of turns.
  method Interpret(f: Function, args: seq<int>, memory: Memory, turns: nat) returns (c: Config)
    requires f.Valid()
    ensures c == Run(f.prog, args, memory, turns)
  {
    hide Step;
    c := Start(memory);
    var t := 0;
    while t < turns && c.Running?
      invariant t <= turns && c == Run(f.prog, args, memory, t)
    {
      c := Turn(f, args, c.b, c.i, c.env, c.mem);
      t := t + 1;
    }
    if !c.Running? { HaltedStays(f.prog, args, memory, t, turns); }
  }

  // The label table: a later block with the same label takes it over.
  method FindBlock(f: Function, name: string) returns (r: Option<nat>)
    requires f.Valid()
    ensures r == Target(f.prog, name)
  {
    r := None;
    for b := 0 to |f.blocks|
      invariant r == Lookup(f.prog, name, b)
    {
      assert f.blocks[b].Mirrors(f.prog[b]);
      if f.blocks[b].name == name { r := Some(b); }
    }
  }
}
