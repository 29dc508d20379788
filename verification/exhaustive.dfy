// What the passes leave: nothing they could still improve. And exactly what each drops.

module Exhaustive {
  import opened Options
  import opened Ir
  import opened Interp
  import opened Cfg
  import opened Rewrite
  import opened Sweep
  import opened Sweeping
  import opened FoldReduce
  import opened Settled
  import opened DeadCode
  import opened Pipeline

  // ----- what could be improved -----

  predicate Numeric(v: Value) { v.Const? && v.lit.Num? }

  predicate Is(v: Value, x: int) { v.Const? && v.lit == Num(x) }

  // Two numbers, added, subtracted or multiplied.
  predicate Foldable(n: Node) {
    (n.op == ADD || n.op == SUB || n.op == MUL) && |n.args| == 2 && Numeric(n.args[0]) && Numeric(n.args[1])
  }

  // x * 0, x * 1, x + 0, x - 0, on either side where the order does not matter, and x - x.
  predicate Reducible(n: Node) {
    |n.args| == 2 &&
    var a, b := n.args[0], n.args[1];
    (n.op == MUL && (Is(a, 0) || Is(b, 0) || Is(a, 1) || Is(b, 1))) || (n.op == ADD && (Is(a, 0) || Is(b, 0))) ||
    (n.op == SUB && (Is(b, 0) || a == b))
  }

  predicate SameOperand(v: Value, w: Value) {
    (v.Const? && w.Const? && v.ty == w.ty && v.lit == w.lit) || (v.Arg? && w.Arg? && v.index == w.index) ||
    (v.Ref? && w.Ref? && v.uid == w.uid)
  }

  // The same arithmetic on the same operands.
  predicate SameComputation(n: Node, m: Node) {
    (n.op == ADD || n.op == SUB || n.op == MUL) && n.op == m.op && n.ty == m.ty && n.ty != VOID &&
    |n.args| == |m.args| && forall k :: 0 <= k < |n.args| ==> SameOperand(n.args[k], m.args[k])
  }

  // Some instruction has u for an operand.
  ghost predicate IsRead(p: Prog, u: nat) {
    exists c, j, k :: At(p, c, j) && 0 <= k < |p[c].body[j].args| && p[c].body[j].args[k].Ref? &&
      p[c].body[j].args[k].uid == u
  }

  // ----- each pass leaves none -----

  lemma LeftAlone(kind: Kind, p: Prog, b: nat, i: nat) returns (seen: map<Key, Value>)
    requires At(SweepProg(kind, p), b, i)
    ensures var q := SweepProg(kind, p); Decide(kind, q[b].body[i], q[b].body[i].args, seen).None?
  {
    var q := SweepProg(kind, p);
    SweepIdempotent(kind, p);
    StillNothing(kind, q, b, i);
    NoReplacement(kind, q[b].body[i], StateAt(kind, q, b, i));
    seen := StateAt(kind, q, b, i).seen;
  }

  lemma FoldExhausts(p: Prog, b: nat, i: nat)
    requires At(SweepProg(FOLD, p), b, i)
    ensures !Foldable(SweepProg(FOLD, p)[b].body[i])
  {
    var _ := LeftAlone(FOLD, p, b, i);
    hide SweepProg;
  }

  lemma ReduceExhausts(p: Prog, b: nat, i: nat)
    requires At(SweepProg(REDUCE, p), b, i)
    ensures !Reducible(SweepProg(REDUCE, p)[b].body[i])
  {
    var _ := LeftAlone(REDUCE, p, b, i);
    hide SweepProg;
  }

  lemma CseExhausts(p: Prog, b: nat, i: nat, c: nat, j: nat)
    requires var q := SweepProg(CSE, p); At(q, b, i) && At(q, c, j) && Before(c, j, b, i)
    ensures var q := SweepProg(CSE, p); !SameComputation(q[b].body[i], q[c].body[j])
  {
    var n, m := SweepProg(CSE, p)[b].body[i], SweepProg(CSE, p)[c].body[j];
    if SameComputation(n, m) {
      KeysAreUnique(p, b, i, c, j);
      SameKeys(n, m);
    }
  }

  lemma SameKeys(n: Node, m: Node)
    requires SameComputation(n, m)
    ensures KeyOf(n.op, n.ty, n.args) == KeyOf(m.op, m.ty, m.args)
  {
    assert forall k :: 0 <= k < |n.args| ==> KeyOfValue(n.args[k]) == KeyOfValue(m.args[k]);
  }

  // After dead code elimination every value is read by some instruction.
  lemma DceExhausts(p: Prog, b: nat, i: nat)
    requires At(Dce(p), b, i) && Dce(p)[b].body[i].ty != VOID
    requires Dce(p)[b].body[i].op !in {STORE, JMP, BR, RET}
    ensures IsRead(Dce(p), Dce(p)[b].body[i].uid)
  {
    var q := Dce(p);
    var u := q[b].body[i].uid;
    DceSettles(p);
    RoundSettles(q);
    hide Dce, Round, Uses, Refs;
    assert !IsDead(q[b].body[i], Uses(q));
    UsedInside(q, |q|, 0, u);
    ReadBy(q, u);
  }

  lemma ReadBy(q: Prog, u: nat)
    requires exists c, j :: At(q, c, j) && u in Refs(q[c].body[j])
    ensures IsRead(q, u)
  {
    var c, j :| At(q, c, j) && u in Refs(q[c].body[j]);
    var k :| 0 <= k < |q[c].body[j].args| && q[c].body[j].args[k].Ref? && q[c].body[j].args[k].uid == u;
  }

  lemma {:induction false} LiveKeeps(body: seq<Node>, used: set<nat>, i: nat, n: Node)
    requires i <= |body| && n in body[..i] && !IsDead(n, used)
    ensures n in LiveTo(body, used, i)
  {
    var init, last := body[..i - 1], body[i - 1];
    assert body[..i] == init + [last];
    if n in init { LiveKeeps(body, used, i - 1, n); }
  }

  // Whatever has no value, or acts, stays in its block.
  lemma {:induction false} DceKeepsEffects(p: Prog, b: nat, n: Node)
    requires b < |p| && n in p[b].body && (n.ty == VOID || n.op in {STORE, JMP, BR, RET})
    ensures b < |Dce(p)| && n in Dce(p)[b].body
    decreases Count(p)
  {
    var body := p[b].body;
    assert body[..|body|] == body;
    LiveKeeps(body, Uses(p), |body|, n);
    hide LiveTo, Uses;
    if Count(Round(p)) < Count(p) { DceKeepsEffects(Round(p), b, n); }
  }

  // ----- exactly what folding and reducing drop -----

  // The instruction is still in its block.
  ghost predicate Survives(q: Prog, b: int, u: nat) { exists k :: At(q, b, k) && q[b].body[k].uid == u }

  lemma SurvivesExactly(kind: Kind, p: Prog, b: nat, i: nat)
    requires Ordered(p) && At(p, b, i)
    ensures Survives(SweepProg(kind, p), b, p[b].body[i].uid) <==> !Dropped(kind, p, b, i)
  {
    var ed, u := Final(kind, p), p[b].body[i].uid;
    SweepIsRewrite(kind, p);
    FinalAt(kind, p, b, i);
    OrderedIsDistinct(p);
    hide SweepProg, Final, Dropped, Ordered;
    var q := RewriteProg(p, ed);
    if u !in ed.drop { KeptAt(p, ed, b, i); }
    if Survives(q, b, u) {
      var k :| At(q, b, k) && q[b].body[k].uid == u;
      var j := OriginAt(p, ed, b, k);
    }
  }

  lemma OrderedIsDistinct(p: Prog)
    requires Ordered(p)
    ensures Distinct(p)
  {}

  // What the sweep decided, in terms of the final operands.
  lemma DecidedFinally(kind: Kind, p: Prog, b: nat, i: nat) returns (seen: map<Key, Value>)
    requires Ordered(p) && At(p, b, i)
    ensures var n, ed := p[b].body[i], Final(kind, p);
      var decision := Decide(kind, n, Rewritten(n, ed).args, seen);
      (decision.Some? <==> !Survives(SweepProg(kind, p), b, n.uid)) &&
      (decision.Some? ==> n.uid in ed.sub && ed.sub[n.uid] == decision.value)
  {
    SurvivesExactly(kind, p, b, i);
    OperandsFinal(kind, p, b, i);
    FinalAt(kind, p, b, i);
    hide SweepProg, StateAt, Decide, ResolveAll, Final, Survives, Ordered;
    seen := StateAt(kind, p, b, i).seen;
  }

  lemma FoldDecides(n: Node, args: seq<Value>, seen: map<Key, Value>)
    ensures var decision, m := Decide(FOLD, n, args, seen), n.(args := args);
      (decision.Some? <==> Foldable(m)) && (Foldable(m) ==> FoldsTo(m, decision.value))
  {}

  lemma ReduceDecides(n: Node, args: seq<Value>, seen: map<Key, Value>)
    ensures var decision, m := Decide(REDUCE, n, args, seen), n.(args := args);
      (decision.Some? <==> Reducible(m)) && (Reducible(m) ==> ReducesTo(m, decision.value))
  {}

  // The sum, difference or product.
  predicate FoldsTo(m: Node, v: Value)
    requires Foldable(m)
  {
    var x, y := m.args[0].lit.n, m.args[1].lit.n;
    v.Const? && v.ty == m.ty && v.lit == Num(match m.op case ADD => x + y case SUB => x - y case _ => x * y)
  }

  // Zero, or the other operand.
  predicate ReducesTo(m: Node, v: Value)
    requires Reducible(m)
  {
    var a, b := m.args[0], m.args[1];
    match m.op
    case MUL => if Is(a, 0) || Is(b, 0) then Is(v, 0) && v.ty == m.ty else (Is(b, 1) && v == a) || (Is(a, 1) && v == b)
    case ADD => (Is(b, 0) && v == a) || (Is(a, 0) && v == b)
    case _ => (Is(b, 0) && v == a) || (a == b && Is(v, 0) && v.ty == m.ty)
  }

  // Folding drops an instruction exactly when, its operands resolved, both are numbers.
  lemma FoldsExactly(p: Prog, b: nat, i: nat)
    requires Ordered(p) && At(p, b, i)
    ensures var n, ed := p[b].body[i], Final(FOLD, p); var m := Rewritten(n, ed);
      (Survives(SweepProg(FOLD, p), b, n.uid) <==> !Foldable(m)) &&
      (Foldable(m) ==> n.uid in ed.sub && FoldsTo(m, ed.sub[n.uid]))
  {
    var seen := DecidedFinally(FOLD, p, b, i);
    var n, ed := p[b].body[i], Final(FOLD, p);
    hide SweepProg, Decide, Foldable, FoldsTo, Final, Survives, ResolveAll;
    FoldDecides(n, Rewritten(n, ed).args, seen);
  }

  // Reduction drops an instruction exactly when, its operands resolved, it is reducible.
  lemma ReducesExactly(p: Prog, b: nat, i: nat)
    requires Ordered(p) && At(p, b, i)
    ensures var n, ed := p[b].body[i], Final(REDUCE, p); var m := Rewritten(n, ed);
      (Survives(SweepProg(REDUCE, p), b, n.uid) <==> !Reducible(m)) &&
      (Reducible(m) ==> n.uid in ed.sub && ReducesTo(m, ed.sub[n.uid]))
  {
    var seen := DecidedFinally(REDUCE, p, b, i);
    var n, ed := p[b].body[i], Final(REDUCE, p);
    hide SweepProg, Decide, Reducible, ReducesTo, Final, Survives, ResolveAll;
    ReduceDecides(n, Rewritten(n, ed).args, seen);
  }

  // ----- the whole pipeline -----

  // Nothing to fold, reduce, share or delete.
  ghost predicate Clean(q: Prog) {
    (forall b, i :: At(q, b, i) ==>
      !Foldable(q[b].body[i]) && !Reducible(q[b].body[i]) &&
      (q[b].body[i].ty != VOID && q[b].body[i].op !in {STORE, JMP, BR, RET} ==> IsRead(q, q[b].body[i].uid))) &&
    forall b, i, c, j :: At(q, b, i) && At(q, c, j) && Before(c, j, b, i) ==>
      !SameComputation(q[b].body[i], q[c].body[j])
  }

  // Main result: where the default pipeline stops because nothing changed, none of its five
  // passes has anything left to do.
  lemma EarlyStopIsClean(p: Prog, iterations: nat)
    requires Optimize(DEFAULT_PASSES, p, iterations).1
    ensures Clean(Optimize(DEFAULT_PASSES, p, iterations).0)
  {
    var q := Optimize(DEFAULT_PASSES, p, iterations).0;
    EarlyStopIsFixed(DEFAULT_PASSES, p, iterations, 0);
    FixedByEach(q);
    hide Optimize, SweepProg, Dce, Foldable, Reducible, SameComputation, IsRead;
    forall b: nat, i: nat | At(q, b, i) ensures !Foldable(q[b].body[i]) && !Reducible(q[b].body[i]) {
      FoldExhausts(q, b, i);
      ReduceExhausts(q, b, i);
    }
    forall b: nat, i: nat | At(q, b, i) && q[b].body[i].ty != VOID && q[b].body[i].op !in {STORE, JMP, BR, RET}
      ensures IsRead(q, q[b].body[i].uid)
    {
      DceExhausts(q, b, i);
    }
    forall b: nat, i: nat, c: nat, j: nat | At(q, b, i) && At(q, c, j) && Before(c, j, b, i)
      ensures !SameComputation(q[b].body[i], q[c].body[j])
    {
      CseExhausts(q, b, i, c, j);
    }
  }

  lemma FixedByEach(q: Prog)
    requires FixedByAll(DEFAULT_PASSES, q)
    ensures SweepProg(FOLD, q) == q && SweepProg(REDUCE, q) == q && SweepProg(CSE, q) == q && Dce(q) == q
  {
    hide SweepProg, Dce;
    assert RunPass(DEFAULT_PASSES[0], q) == q && RunPass(DEFAULT_PASSES[1], q) == q;
    assert RunPass(DEFAULT_PASSES[2], q) == q && RunPass(DEFAULT_PASSES[3], q) == q;
  }

  // The five default passes, once.
  function Once(p: Prog): Prog {
    Dce(SweepProg(CSE, Dce(SweepProg(REDUCE, SweepProg(FOLD, p)))))
  }

  lemma OnceIsRunAll(p: Prog)
    ensures RunAll(DEFAULT_PASSES, p, |DEFAULT_PASSES|) == Once(p)
  {
    hide SweepProg, Dce;
    var passes := DEFAULT_PASSES;
    assert RunAll(passes, p, 1) == SweepProg(FOLD, p);
    assert RunAll(passes, p, 2) == SweepProg(REDUCE, RunAll(passes, p, 1));
    assert RunAll(passes, p, 3) == Dce(RunAll(passes, p, 2));
    assert RunAll(passes, p, 4) == SweepProg(CSE, RunAll(passes, p, 3));
    assert RunAll(passes, p, 5) == Dce(RunAll(passes, p, 4));
  }

  function Times(p: Prog, n: nat): Prog
    decreases n
  {
    if n == 0 then p else Times(Once(p), n - 1)
  }

  lemma {:induction false} FixedTimes(p: Prog, n: nat)
    requires Once(p) == p
    ensures Times(p, n) == p
    decreases n
  {
    hide Once;
    if n > 0 { FixedTimes(p, n - 1); }
  }

  // Stopping early makes no difference: the bounded pipeline is the five passes, that many times.
  lemma {:induction false} OptimizeIsTimes(p: Prog, n: nat)
    ensures Optimize(DEFAULT_PASSES, p, n).0 == Times(p, n)
    decreases n
  {
    hide Once, Changed, RunAll;
    if n > 0 {
      OnceIsRunAll(p);
      if Changed(DEFAULT_PASSES, p, |DEFAULT_PASSES|) {
        OptimizeIsTimes(Once(p), n - 1);
      } else {
        UnchangedRun(DEFAULT_PASSES, p, |DEFAULT_PASSES|);
        FixedTimes(p, n - 1);
      }
    }
  }

  // Main result: the default pipeline folds, reduces, deletes, shares and deletes, three times.
  lemma DefaultIsThreeTimes(p: Prog)
    ensures RunDefaultPasses(p) == Once(Once(Once(p)))
  {
    hide Once, Optimize;
    OptimizeIsTimes(p, 3);
    assert Times(Once(Once(p)), 1) == Once(Once(Once(p)));
    assert Times(Once(p), 2) == Times(Once(Once(p)), 1);
  }
}
