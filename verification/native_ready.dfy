// The passes keep a function ready for the code generator: each branch still tests the
// comparison directly before it, and no other instruction comes to read a comparison.

module NativePasses {
  import opened Options
  import opened Ir
  import opened Cfg
  import opened Rewrite
  import opened Refinement
  import opened Sweep
  import opened Sweeping
  import opened FoldReduce
  import opened Cse
  import opened DeadCode
  import opened Pipeline
  import N = Native

  // Only arithmetic is replaced, and outside branches only by arithmetic.
  ghost predicate KeepsCompares(p: Prog, ed: Edit) {
    (forall b, i :: At(p, b, i) && p[b].body[i].uid in ed.sub ==> IsArith(p[b].body[i].op)) &&
    (forall b, i, k :: Kept(p, ed, b, i) && p[b].body[i].op != BR && 0 <= k < |p[b].body[i].args| ==>
      ArithOperand(p, Resolve(p[b].body[i].uid, k, p[b].body[i].args[k], ed)))
  }

  ghost predicate ArithOperand(p: Prog, v: Value) { v.Ref? ==> N.NamesArith(p, v.uid) }

  lemma NamesArithKept(p: Prog, ed: Edit, u: nat)
    requires N.NamesArith(p, u)
    ensures N.NamesArith(RewriteProg(p, ed), u)
  {
    var q := RewriteProg(p, ed);
    forall c, l | At(q, c, l) && q[c].body[l].uid == u ensures IsArith(q[c].body[l].op) {
      var j := OriginAt(p, ed, c, l);
    }
  }

  // A comparison and the branch that tests it stay next to each other.
  lemma BranchKept(p: Prog, d: map<nat, set<nat>>, ed: Edit, b: nat, i: nat)
    requires Structured(p) && N.NativeReady(p) && Scoped(p, d, ed) && KeepsCompares(p, ed)
    requires Kept(p, ed, b, i) && p[b].body[i].op == BR
    ensures var q := RewriteProg(p, ed); var x := Place(p[b].body, ed, i);
      At(q, b, x) && x > 0 && N.Tests(q[b].body[x], q[b].body[x - 1])
  {
    var n, m := p[b].body[i], p[b].body[i - 1];
    assert N.NativeNode(p, b, i);
    assert At(p, b, i - 1);
    assert ScopedOperand(p, d, ed, b, i, Resolve(n.uid, 0, n.args[0], ed));
    KeptAt(p, ed, b, i);
    KeptAt(p, ed, b, i - 1);
  }

  lemma RewriteNativeReady(p: Prog, d: map<nat, set<nat>>, ed: Edit)
    requires Structured(p) && N.NativeReady(p) && Scoped(p, d, ed) && KeepsCompares(p, ed)
    ensures N.NativeReady(RewriteProg(p, ed))
  {
    var q := RewriteProg(p, ed);
    forall b, x | At(q, b, x) ensures N.NativeNode(q, b, x) {
      var i := OriginAt(p, ed, b, x);
      assert N.NativeNode(p, b, i);
      if p[b].body[i].op == BR {
        BranchKept(p, d, ed, b, i);
      } else {
        forall v: Value | v in q[b].body[x].args && v.Ref? ensures N.NamesArith(q, v.uid) {
          var k :| 0 <= k < |q[b].body[x].args| && q[b].body[x].args[k] == v;
          assert ArithOperand(p, Resolve(p[b].body[i].uid, k, p[b].body[i].args[k], ed));
          NamesArithKept(p, ed, v.uid);
        }
      }
    }
  }

  // ----- each pass -----

  lemma {:induction false} ResolvedArith(kind: Kind, p: Prog, d: map<nat, set<nat>>, b: nat, i: nat, k: nat)
    requires WellFormedUnder(p, d) && Ordered(p) && N.NativeReady(p)
    requires At(p, b, i) && p[b].body[i].op != BR && k < |p[b].body[i].args|
    ensures ArithOperand(p, Resolved(kind, p, b, i, k))
    decreases b, i
  {
    var a, ed := p[b].body[i].args[k], Final(kind, p);
    assert N.NativeNode(p, b, i) && NodeOk(p, d, b, i) && OperandOk(p, d, b, i, a);
    if a.Ref? && a.uid in ed.sub {
      var c, j :| Defines(p, d, b, i, a, c, j);
      DroppedHasValue(kind, p, c, j);
      if kind == CSE {
        var e, l := SharedWith(p, c, j);
        forall c', j' | At(p, c', j') && p[c'].body[j'].uid == p[e].body[l].uid ensures IsArith(p[c'].body[j'].op) {}
      } else {
        DecisionForm(kind, p, c, j);
        ResolvedArith(kind, p, d, c, j, 0);
        ResolvedArith(kind, p, d, c, j, 1);
      }
    }
  }

  lemma SweepKeepsCompares(kind: Kind, p: Prog, d: map<nat, set<nat>>)
    requires WellFormedUnder(p, d) && Ordered(p) && N.NativeReady(p)
    ensures KeepsCompares(p, Final(kind, p))
  {
    var ed := Final(kind, p);
    forall b, i | At(p, b, i) && p[b].body[i].uid in ed.sub ensures IsArith(p[b].body[i].op) {
      DroppedHasValue(kind, p, b, i);
    }
    forall b, i, k | Kept(p, ed, b, i) && p[b].body[i].op != BR && 0 <= k < |p[b].body[i].args|
      ensures ArithOperand(p, Resolve(p[b].body[i].uid, k, p[b].body[i].args[k], ed))
    {
      ResolvedArith(kind, p, d, b, i, k);
    }
  }

  lemma SweepNativeReady(kind: Kind, p: Prog)
    requires WellFormed(p) && N.NativeReady(p) && (kind == CSE ==> SharingDominates(p))
    ensures N.NativeReady(SweepProg(kind, p))
  {
    var d := Dominators(p);
    WellFormedOrdered(p, d);
    SweepIsRewrite(kind, p);
    if kind == CSE { CseScoped(p, d); } else { FoldReduceScoped(kind, p, d); }
    SweepKeepsCompares(kind, p, d);
    RewriteNativeReady(p, d, Final(kind, p));
  }

  lemma RoundNativeReady(p: Prog)
    requires WellFormed(p) && N.NativeReady(p)
    ensures N.NativeReady(Round(p))
  {
    var d, ed := Dominators(p), Deleting(DeadOf(p));
    RoundIsRewrite(p);
    RoundSound(p, d);
    forall b, i, k | Kept(p, ed, b, i) && p[b].body[i].op != BR && 0 <= k < |p[b].body[i].args|
      ensures ArithOperand(p, Resolve(p[b].body[i].uid, k, p[b].body[i].args[k], ed))
    {
      assert N.NativeNode(p, b, i);
    }
    RewriteNativeReady(p, d, ed);
  }

  lemma RoundPreserves(p: Prog)
    requires WellFormed(p)
    ensures WellFormed(Round(p))
  {
    var d, ed := Dominators(p), Deleting(DeadOf(p));
    RoundIsRewrite(p);
    RoundSound(p, d);
    RewriteWellFormed(p, d, ed);
    SameDominators(p, RewriteProg(p, ed));
  }

  lemma {:induction false} DceNativeReady(p: Prog)
    requires WellFormed(p) && N.NativeReady(p)
    ensures N.NativeReady(Dce(p))
    decreases Count(p)
  {
    hide WellFormed, N.NativeReady, Round;
    RoundNativeReady(p);
    if Count(Round(p)) < Count(p) {
      RoundPreserves(p);
      DceNativeReady(Round(p));
    }
  }

  lemma {:induction false} RunAllNativeReady(passes: seq<Pass>, p: Prog, k: nat)
    requires WellFormed(p) && N.NativeReady(p) && k <= |passes|
    requires forall j :: 0 <= j < k && passes[j] == Forward(CSE) ==> SharingDominates(RunAll(passes, p, j))
    ensures N.NativeReady(RunAll(passes, p, k))
  {
    hide WellFormed, N.NativeReady, SharingDominates, SweepProg, Dce, SameMeaning, Dominators;
    if k > 0 {
      RunAllNativeReady(passes, p, k - 1);
      RunAllPreserves(passes, p, k - 1);
      var q := RunAll(passes, p, k - 1);
      match passes[k - 1]
      case Forward(kind) => SweepNativeReady(kind, q);
      case DeadCodePass => DceNativeReady(q);
    }
  }

  // Main result: the optimized function is still one the native theorems cover.
  lemma {:induction false} OptimizeNativeReady(passes: seq<Pass>, p: Prog, iterations: nat)
    requires WellFormed(p) && N.NativeReady(p) && SharesSafely(passes, p, iterations)
    ensures N.NativeReady(Optimize(passes, p, iterations).0)
    decreases iterations
  {
    hide WellFormed, N.NativeReady, SharingDominates, RunAll, SameMeaning, Dominators;
    if iterations > 0 {
      var q := RunAll(passes, p, |passes|);
      RunAllNativeReady(passes, p, |passes|);
      if Changed(passes, p, |passes|) {
        RunAllPreserves(passes, p, |passes|);
        OptimizeNativeReady(passes, q, iterations - 1);
      }
    }
  }
}
