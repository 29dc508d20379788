// Two functions mean the same when, on all arguments and memories, their runs end alike.

module Refinement {
  import opened Options
  import opened Ir
  import opened Interp
  import opened Cfg
  import opened RunInvariant
  import opened Rewrite

  predicate Narrow(x: int) { -0x8000_0000_0000_0000 <= x < 0x8000_0000_0000_0000 }

  // If the next instruction is a comparison, it compares signed 64-bit numbers.
  ghost predicate ComparesNarrow(p: Prog, args: seq<int>, c: Config) {
    c.Running? && At(p, c.b, c.i) && p[c.b].body[c.i].op == CMP ==>
      var n := p[c.b].body[c.i];
      |n.args| == 3 && NarrowOperand(Eval(n.args[1], args, c.env)) && NarrowOperand(Eval(n.args[2], args, c.env))
  }

  predicate NarrowOperand(v: Option<Literal>) { IsNum(v) ==> Narrow(v.value.n) }

  ghost predicate NarrowRun(p: Prog, args: seq<int>, mem: Memory, n: nat) {
    forall k: nat :: k < n ==> ComparesNarrow(p, args, Run(p, args, mem, k))
  }

  // q ends with the same value and memory, in no more steps, comparing nothing wider.
  ghost predicate EndsAlike(p: Prog, q: Prog, args: seq<int>, mem: Memory, n: nat, m: nat) {
    m <= n && Run(q, args, mem, m) == Run(p, args, mem, n) &&
    (NarrowRun(p, args, mem, n) ==> NarrowRun(q, args, mem, m))
  }

  ghost predicate Refines(p: Prog, q: Prog) {
    forall args, mem, n :: Run(p, args, mem, n).Returned? ==> exists m :: EndsAlike(p, q, args, mem, n, m)
  }

  // q ends only as p does, or where p faults: it never returns where p would loop.
  ghost predicate Reflects(p: Prog, q: Prog) {
    forall args, mem, m :: !Run(q, args, mem, m).Running? ==>
      exists n :: Run(p, args, mem, n) == Run(q, args, mem, m) || Run(p, args, mem, n).Fault?
  }

  // q compares something wide only if p does, or faults.
  ghost predicate ComparesNoWider(p: Prog, q: Prog) {
    forall args, mem, m: nat :: !NarrowRun(q, args, mem, m) ==>
      exists n: nat :: !NarrowRun(p, args, mem, n) || Run(p, args, mem, n).Fault?
  }

  ghost predicate SameMeaning(p: Prog, q: Prog) { Refines(p, q) && Reflects(p, q) && ComparesNoWider(p, q) }

  // On these inputs the run never faults, and compares nothing wide.
  ghost predicate Steady(p: Prog, args: seq<int>, mem: Memory) {
    forall n: nat :: !Run(p, args, mem, n).Fault? && NarrowRun(p, args, mem, n)
  }

  ghost predicate Ends(p: Prog, args: seq<int>, mem: Memory) { exists n: nat :: Run(p, args, mem, n).Returned? }

  // On these inputs the run never faults.
  ghost predicate Unfailing(p: Prog, args: seq<int>, mem: Memory) { forall n: nat :: !Run(p, args, mem, n).Fault? }

  lemma UnfailingAlike(p: Prog, q: Prog, args: seq<int>, mem: Memory)
    requires SameMeaning(p, q) && Unfailing(p, args, mem)
    ensures Unfailing(q, args, mem)
  {
    hide Run, NarrowRun;
    forall m: nat ensures !Run(q, args, mem, m).Fault? {
      if Run(q, args, mem, m).Fault? {
        var n :| Run(p, args, mem, n) == Run(q, args, mem, m) || Run(p, args, mem, n).Fault?;
      }
    }
  }

  lemma SteadyAlike(p: Prog, q: Prog, args: seq<int>, mem: Memory)
    requires SameMeaning(p, q) && Steady(p, args, mem)
    ensures Steady(q, args, mem)
  {
    SteadyUnfailing(p, args, mem);
    UnfailingAlike(p, q, args, mem);
    hide Run, NarrowRun;
    forall m: nat ensures NarrowRun(q, args, mem, m) {
      if !NarrowRun(q, args, mem, m) {
        var n: nat :| !NarrowRun(p, args, mem, n) || Run(p, args, mem, n).Fault?;
      }
    }
  }

  lemma SteadyUnfailing(p: Prog, args: seq<int>, mem: Memory)
    requires Steady(p, args, mem)
    ensures Unfailing(p, args, mem)
  {
    hide Run;
    forall n: nat ensures !Run(p, args, mem, n).Fault? { assert NarrowRun(p, args, mem, n); }
  }

  lemma EndAlike(p: Prog, q: Prog, args: seq<int>, mem: Memory)
    requires SameMeaning(p, q) && Unfailing(p, args, mem)
    ensures Ends(p, args, mem) <==> Ends(q, args, mem)
  {
    hide Run, NarrowRun;
    if n: nat :| Run(p, args, mem, n).Returned? {
      var m :| EndsAlike(p, q, args, mem, n, m);
      assert Run(q, args, mem, m).Returned?;
    }
    if m: nat :| Run(q, args, mem, m).Returned? {
      var n :| Run(p, args, mem, n) == Run(q, args, mem, m) || Run(p, args, mem, n).Fault?;
      assert Run(p, args, mem, n).Returned?;
    }
  }

  lemma SameMeaningReflexive(p: Prog)
    ensures SameMeaning(p, p)
  {
    forall args, mem, n | Run(p, args, mem, n).Returned? ensures exists m :: EndsAlike(p, p, args, mem, n, m) {
      assert EndsAlike(p, p, args, mem, n, n);
    }
  }

  lemma SameMeaningTransitive(p: Prog, q: Prog, r: Prog)
    requires SameMeaning(p, q) && SameMeaning(q, r)
    ensures SameMeaning(p, r)
  {
    hide Refines, Reflects, ComparesNoWider;
    RefinesTransitive(p, q, r);
    ReflectsTransitive(p, q, r);
    ComparesTransitive(p, q, r);
  }

  lemma RefinesTransitive(p: Prog, q: Prog, r: Prog)
    requires Refines(p, q) && Refines(q, r)
    ensures Refines(p, r)
  {
    hide Run, NarrowRun;
    forall args, mem, n | Run(p, args, mem, n).Returned? ensures exists m :: EndsAlike(p, r, args, mem, n, m) {
      var k :| EndsAlike(p, q, args, mem, n, k);
      var m :| EndsAlike(q, r, args, mem, k, m);
      assert EndsAlike(p, r, args, mem, n, m);
    }
  }

  lemma ReflectsTransitive(p: Prog, q: Prog, r: Prog)
    requires Reflects(p, q) && Reflects(q, r)
    ensures Reflects(p, r)
  {
    hide Run;
    forall args, mem, m | !Run(r, args, mem, m).Running?
      ensures exists n :: Run(p, args, mem, n) == Run(r, args, mem, m) || Run(p, args, mem, n).Fault?
    {
      var k :| Run(q, args, mem, k) == Run(r, args, mem, m) || Run(q, args, mem, k).Fault?;
      var n :| Run(p, args, mem, n) == Run(q, args, mem, k) || Run(p, args, mem, n).Fault?;
    }
  }

  lemma ComparesTransitive(p: Prog, q: Prog, r: Prog)
    requires ComparesNoWider(p, q) && Reflects(p, q) && ComparesNoWider(q, r)
    ensures ComparesNoWider(p, r)
  {
    hide Run, NarrowRun;
    forall args, mem, m: nat | !NarrowRun(r, args, mem, m)
      ensures exists n: nat :: !NarrowRun(p, args, mem, n) || Run(p, args, mem, n).Fault?
    {
      var k: nat :| !NarrowRun(q, args, mem, k) || Run(q, args, mem, k).Fault?;
      if NarrowRun(q, args, mem, k) {
        var n :| Run(p, args, mem, n) == Run(q, args, mem, k) || Run(p, args, mem, n).Fault?;
      }
    }
  }

  // ----- a sound rewriting preserves meaning -----

  ghost predicate Sound(p: Prog, d: map<nat, set<nat>>, ed: Edit) {
    WellFormedUnder(p, d) && Scoped(p, d, ed) && Faithful(p, d, ed)
  }

  lemma StartsAlike(p: Prog, d: map<nat, set<nat>>, ed: Edit, args: seq<int>, mem: Memory)
    requires Sound(p, d, ed)
    ensures Related(p, d, ed, Run(p, args, mem, 0), Run(RewriteProg(p, ed), args, mem, 0))
  {
    assert BlockShape(p[0]);
  }

  lemma RunIsSane(p: Prog, d: map<nat, set<nat>>, ed: Edit, args: seq<int>, mem: Memory, n: nat)
    requires Sound(p, d, ed)
    ensures Sane(p, d, args, Run(p, args, mem, n))
  {
    RunsAreSane(p, d, args, mem, n);
  }

  // A kept comparison meets the same operands in both runs.
  lemma ComparesAlike(p: Prog, d: map<nat, set<nat>>, ed: Edit, args: seq<int>, s: Config, t: Config)
    requires Sound(p, d, ed) && s.Running? && Sane(p, d, args, s) && Related(p, d, ed, s, t)
    requires p[s.b].body[s.i].uid !in ed.drop && ComparesNarrow(p, args, s)
    ensures ComparesNarrow(RewriteProg(p, ed), args, t)
  {
    var n := p[s.b].body[s.i];
    KeptAt(p, ed, s.b, s.i);
    OperandsAgree(p, d, ed, args, s.env, t.env, s.b, s.i);
    if n.op == CMP {
      var vals := EvalAll(Rewritten(n, ed).args, args, t.env);
      assert vals[1] == Eval(n.args[1], args, s.env) && vals[2] == Eval(n.args[2], args, s.env);
    }
  }

  // One step of p is one step of the rewriting, or none where the instruction is dropped.
  lemma OneStep(p: Prog, d: map<nat, set<nat>>, ed: Edit, args: seq<int>, s: Config, t: Config) returns (moved: bool)
    requires Sound(p, d, ed) && Sane(p, d, args, s) && Related(p, d, ed, s, t)
    ensures Step(p, args, s).Fault? ||
      Related(p, d, ed, Step(p, args, s), if moved then Step(RewriteProg(p, ed), args, t) else t)
    ensures moved && ComparesNarrow(p, args, s) ==> ComparesNarrow(RewriteProg(p, ed), args, t)
    ensures s.Running? && Kept(p, ed, s.b, s.i) ==> moved
  {
    moved := s.Running? && p[s.b].body[s.i].uid !in ed.drop;
    if moved {
      KeptStep(p, d, ed, args, s, t);
      if ComparesNarrow(p, args, s) { ComparesAlike(p, d, ed, args, s, t); }
    } else if s.Running? {
      DroppedStep(p, d, ed, args, s, t);
    }
  }

  lemma NarrowStep(p: Prog, args: seq<int>, mem: Memory, n: nat)
    ensures NarrowRun(p, args, mem, 0)
    ensures NarrowRun(p, args, mem, n + 1) <==>
      NarrowRun(p, args, mem, n) && ComparesNarrow(p, args, Run(p, args, mem, n))
  {
    hide Run, ComparesNarrow;
  }

  // After n steps of p, the rewriting has taken m <= n and is in the related state.
  lemma {:induction false} Simulate(p: Prog, d: map<nat, set<nat>>, ed: Edit, args: seq<int>, mem: Memory, n: nat)
      returns (m: nat)
    requires Sound(p, d, ed)
    ensures m <= n
    ensures Run(p, args, mem, n).Fault? ||
      Related(p, d, ed, Run(p, args, mem, n), Run(RewriteProg(p, ed), args, mem, m))
    ensures NarrowRun(p, args, mem, n) ==> NarrowRun(RewriteProg(p, ed), args, mem, m)
  {
    hide *;
    var q := RewriteProg(p, ed);
    if n == 0 {
      StartsAlike(p, d, ed, args, mem);
      NarrowStep(q, args, mem, 0);
      m := 0;
    } else {
      m := Simulate(p, d, ed, args, mem, n - 1);
      RunStep(p, args, mem, n - 1);
      RunStep(q, args, mem, m);
      NarrowStep(p, args, mem, n - 1);
      NarrowStep(q, args, mem, m);
      if Run(p, args, mem, n - 1).Fault? {
        HaltedStays(p, args, mem, n - 1, n);
      } else {
        RunIsSane(p, d, ed, args, mem, n - 1);
        var moved := OneStep(p, d, ed, args, Run(p, args, mem, n - 1), Run(q, args, mem, m));
        if moved { m := m + 1; }
      }
    }
  }

  // From a related state, p gets past the dropped instructions to a kept one, or faults.
  lemma {:induction false} Advance(p: Prog, d: map<nat, set<nat>>, ed: Edit, args: seq<int>, mem: Memory, n: nat,
                                   t: Config) returns (m: nat)
    requires Sound(p, d, ed)
    requires Run(p, args, mem, n).Running? && Related(p, d, ed, Run(p, args, mem, n), t)
    ensures m >= n
    ensures var s := Run(p, args, mem, m);
      s.Fault? || (s.Running? && Related(p, d, ed, s, t) && Kept(p, ed, s.b, s.i))
    decreases |p[Run(p, args, mem, n).b].body| - Run(p, args, mem, n).i
  {
    var s := Run(p, args, mem, n);
    Standing(p, d, ed, s, t);
    hide Sound, Related, Kept, Run;
    m := n;
    if !Kept(p, ed, s.b, s.i) {
      SkipsOne(p, d, ed, args, mem, n, t);
      m := n + 1;
      if Run(p, args, mem, m).Running? { m := Advance(p, d, ed, args, mem, m, t); }
    }
  }

  lemma Standing(p: Prog, d: map<nat, set<nat>>, ed: Edit, s: Config, t: Config)
    requires Related(p, d, ed, s, t) && s.Running?
    ensures At(p, s.b, s.i)
  {}

  // A dropped instruction takes one step of p, further into the block.
  lemma SkipsOne(p: Prog, d: map<nat, set<nat>>, ed: Edit, args: seq<int>, mem: Memory, n: nat, t: Config)
    requires Sound(p, d, ed) && Run(p, args, mem, n).Running? && Related(p, d, ed, Run(p, args, mem, n), t)
    requires var s := Run(p, args, mem, n); !Kept(p, ed, s.b, s.i)
    ensures var s, s' := Run(p, args, mem, n), Run(p, args, mem, n + 1);
      s'.Fault? || (s'.Running? && Related(p, d, ed, s', t) && At(p, s'.b, s'.i) && s'.b == s.b && s'.i == s.i + 1)
  {
    var s := Run(p, args, mem, n);
    RunIsSane(p, d, ed, args, mem, n);
    RunStep(p, args, mem, n);
    hide Run;
    DroppedStep(p, d, ed, args, s, t);
  }

  lemma {:induction false} SimulateBack(p: Prog, d: map<nat, set<nat>>, ed: Edit, args: seq<int>, mem: Memory, m: nat)
      returns (n: nat)
    requires Sound(p, d, ed)
    ensures Run(p, args, mem, n).Fault? ||
      Related(p, d, ed, Run(p, args, mem, n), Run(RewriteProg(p, ed), args, mem, m))
    ensures NarrowRun(p, args, mem, n) && !Run(p, args, mem, n).Fault? ==> NarrowRun(RewriteProg(p, ed), args, mem, m)
  {
    hide *;
    if m == 0 {
      StartsAlike(p, d, ed, args, mem);
      NarrowStep(RewriteProg(p, ed), args, mem, 0);
      n := 0;
    } else {
      var k := SimulateBack(p, d, ed, args, mem, m - 1);
      RunStep(RewriteProg(p, ed), args, mem, m - 1);
      var t := Run(RewriteProg(p, ed), args, mem, m - 1);
      n := k;
      if Run(p, args, mem, k).Running? { n := Advance(p, d, ed, args, mem, k, t); }
      RunStep(p, args, mem, n);
      if !Run(p, args, mem, n).Fault? {
        BackStep(p, d, ed, args, mem, n, t);
        NarrowStep(p, args, mem, n);
        NarrowStep(RewriteProg(p, ed), args, mem, m - 1);
        NarrowBefore(p, args, mem, k, n);
        n := n + 1;
      }
    }
  }

  lemma NarrowBefore(p: Prog, args: seq<int>, mem: Memory, k: nat, n: nat)
    requires k <= n
    ensures NarrowRun(p, args, mem, n) ==> NarrowRun(p, args, mem, k)
    ensures Run(p, args, mem, k).Fault? ==> Run(p, args, mem, n).Fault?
  {
    if !Run(p, args, mem, k).Running? { HaltedStays(p, args, mem, k, n); }
    hide Run, ComparesNarrow;
  }

  lemma BackStep(p: Prog, d: map<nat, set<nat>>, ed: Edit, args: seq<int>, mem: Memory, n: nat, t: Config)
    requires Sound(p, d, ed) && Related(p, d, ed, Run(p, args, mem, n), t)
    requires Run(p, args, mem, n).Running? ==> Kept(p, ed, Run(p, args, mem, n).b, Run(p, args, mem, n).i)
    ensures var s := Step(p, args, Run(p, args, mem, n));
      s.Fault? || Related(p, d, ed, s, Step(RewriteProg(p, ed), args, t))
    ensures !Step(p, args, Run(p, args, mem, n)).Fault? && ComparesNarrow(p, args, Run(p, args, mem, n)) ==>
      ComparesNarrow(RewriteProg(p, ed), args, t)
  {
    RunIsSane(p, d, ed, args, mem, n);
    var moved := OneStep(p, d, ed, args, Run(p, args, mem, n), t);
  }

  // Main result on rewritings.
  lemma RewritePreserves(p: Prog, d: map<nat, set<nat>>, ed: Edit)
    requires Sound(p, d, ed)
    ensures SameMeaning(p, RewriteProg(p, ed))
  {
    var q := RewriteProg(p, ed);
    forall args, mem, n | Run(p, args, mem, n).Returned? ensures exists m :: EndsAlike(p, q, args, mem, n, m) {
      var m := Simulate(p, d, ed, args, mem, n);
      assert EndsAlike(p, q, args, mem, n, m);
    }
    forall args, mem, m | !Run(q, args, mem, m).Running?
      ensures exists n :: Run(p, args, mem, n) == Run(q, args, mem, m) || Run(p, args, mem, n).Fault?
    {
      var n := SimulateBack(p, d, ed, args, mem, m);
    }
    forall args, mem, m: nat | !NarrowRun(q, args, mem, m)
      ensures exists n: nat :: !NarrowRun(p, args, mem, n) || Run(p, args, mem, n).Fault?
    {
      var n := SimulateBack(p, d, ed, args, mem, m);
    }
  }
}
