// Constant folding and strength reduction preserve meaning.

module FoldReduce {
  import opened Options
  import opened Ir
  import opened Interp
  import opened Cfg
  import opened RunInvariant
  import opened Rewrite
  import opened Refinement
  import opened Sweep
  import opened Sweeping

  // The operand of (b, i) with the final replacement put in.
  function Resolved(kind: Kind, p: Prog, b: int, i: int, k: int): Value
    requires At(p, b, i) && 0 <= k < |p[b].body[i].args|
  {
    Resolve(p[b].body[i].uid, k, p[b].body[i].args[k], Final(kind, p))
  }

  // What a dropped instruction becomes.
  lemma DroppedDecision(kind: Kind, p: Prog, b: nat, i: nat)
    requires Ordered(p) && Dropped(kind, p, b, i)
    ensures var n := p[b].body[i]; var ed := Final(kind, p);
      n.uid in ed.sub && IsArith(n.op) &&
      Decide(kind, n, ResolveAll(n, ed), StateAt(kind, p, b, i).seen) == Some(ed.sub[n.uid])
  {
    OperandsFinal(kind, p, b, i);
    FinalAt(kind, p, b, i);
  }

  lemma DroppedHasValue(kind: Kind, p: Prog, b: int, i: int)
    requires Ordered(p) && At(p, b, i) && p[b].body[i].uid in Final(kind, p).sub
    ensures Dropped(kind, p, b, i) && IsArith(p[b].body[i].op)
  {
    FinalAt(kind, p, b, i);
    DroppedDecision(kind, p, b, i);
  }

  // A reduced or folded instruction becomes a number or one of its resolved operands.
  lemma DecisionForm(kind: Kind, p: Prog, b: nat, i: nat)
    requires kind != CSE && Ordered(p) && Dropped(kind, p, b, i)
    ensures p[b].body[i].uid in Final(kind, p).sub && |p[b].body[i].args| == 2
    ensures var v := Final(kind, p).sub[p[b].body[i].uid];
      IsNumber(v) || v == Resolved(kind, p, b, i, 0) || v == Resolved(kind, p, b, i, 1)
  {
    DroppedDecision(kind, p, b, i);
  }

  // Every resolved operand is kept, and defined where the operand itself could be used:
  // one lookup resolves whole chains of replacements.
  lemma {:induction false} ResolvedScoped(kind: Kind, p: Prog, d: map<nat, set<nat>>, b: nat, i: nat, k: nat)
    requires kind != CSE && WellFormedUnder(p, d) && Ordered(p)
    requires At(p, b, i) && k < |p[b].body[i].args|
    ensures ScopedOperand(p, d, Final(kind, p), b, i, Resolved(kind, p, b, i, k))
    ensures IsText(Resolved(kind, p, b, i, k)) ==> Resolved(kind, p, b, i, k) == p[b].body[i].args[k]
    decreases b, i
  {
    hide WellFormedUnder, DomOk, Ordered, Final, Dropped;
    var a, ed := p[b].body[i].args[k], Final(kind, p);
    OperandIsOk(p, d, b, i, k);
    if a.Ref? && a.uid in ed.sub {
      var c, j :| Defines(p, d, b, i, a, c, j);
      DroppedHasValue(kind, p, c, j);
      DecisionForm(kind, p, c, j);
      ShapedNode(p, d, c, j);
      ResolvedScoped(kind, p, d, c, j, 0);
      ResolvedScoped(kind, p, d, c, j, 1);
      var v := ed.sub[a.uid];
      if v.Ref? {
        var e, l :| Defines(p, d, c, j, v, e, l);
        DefinedEarlier(p, d, b, i, c, j, v, e, l);
      }
    } else {
      KeptOperand(kind, p, d, b, i, a);
    }
  }

  lemma ShapedNode(p: Prog, d: map<nat, set<nat>>, c: int, j: int)
    requires WellFormedUnder(p, d) && At(p, c, j)
    ensures Shape(p[c].body[j])
  {
    assert BlockShape(p[c]);
  }

  // An operand that is not replaced names nothing dropped.
  lemma KeptOperand(kind: Kind, p: Prog, d: map<nat, set<nat>>, b: int, i: int, a: Value)
    requires Ordered(p) && OperandOk(p, d, b, i, a) && (a.Ref? ==> a.uid !in Final(kind, p).sub)
    ensures a.Ref? ==> a.uid !in Final(kind, p).drop
  {
    if a.Ref? {
      var c, j :| Defines(p, d, b, i, a, c, j);
      FinalAt(kind, p, c, j);
    }
  }

  // What defines an operand's definition's operand also stands before the use.
  lemma DefinedEarlier(p: Prog, d: map<nat, set<nat>>, b: int, i: int, c: int, j: int, v: Value, e: int, l: int)
    requires WellFormedUnder(p, d) && At(p, b, i) && Before(c, j, b, i) && (b in d ==> Avail(p, d, b, i, c, j))
    requires v.Ref? && Defines(p, d, c, j, v, e, l)
    ensures Defines(p, d, b, i, v, e, l)
  {
    if b in d { AvailOrder(p, d, b, i, c, j, e, l); }
  }

  lemma FoldReduceScoped(kind: Kind, p: Prog, d: map<nat, set<nat>>)
    requires kind != CSE && WellFormedUnder(p, d) && Ordered(p)
    ensures Scoped(p, d, Final(kind, p))
  {
    var ed := Final(kind, p);
    forall b, i | At(p, b, i) && p[b].body[i].uid in ed.drop ensures HasValue(p[b].body[i].op) {
      DroppedHasValue(kind, p, b, i);
    }
    forall u | u in ed.sub ensures !IsText(ed.sub[u]) {
      AllEarlier(kind, p, |p|, 0, u);
      var b, i :| At(p, b, i) && p[b].body[i].uid == u;
      DroppedHasValue(kind, p, b, i);
      DecisionForm(kind, p, b, i);
      assert BlockShape(p[b]) && Shape(p[b].body[i]);
      ResolvedScoped(kind, p, d, b, i, 0);
      ResolvedScoped(kind, p, d, b, i, 1);
    }
    forall b, i, k | Kept(p, ed, b, i) && 0 <= k < |p[b].body[i].args|
      ensures ScopedOperand(p, d, ed, b, i, Resolve(p[b].body[i].uid, k, p[b].body[i].args[k], ed))
    {
      ResolvedScoped(kind, p, d, b, i, k);
    }
  }

  // The algebra: the replacement has the value the instruction would compute.
  lemma DecideSound(kind: Kind, n: Node, r: seq<Value>, seen: map<Key, Value>, args: seq<int>, env: map<nat, int>)
    requires kind != CSE && IsArith(n.op) && |r| == 2 && Decide(kind, n, r, seen).Some?
    requires IsNum(Eval(r[0], args, env)) && IsNum(Eval(r[1], args, env))
    ensures Eval(Decide(kind, n, r, seen).value, args, env) ==
      Some(Num(Arith(n.op, Eval(r[0], args, env).value.n, Eval(r[1], args, env).value.n)))
  {}

  // Where the run invariant holds, an operand and its replacement have one value.
  lemma {:induction false} ResolvedAgrees(kind: Kind, p: Prog, d: map<nat, set<nat>>, args: seq<int>,
                                          env: map<nat, int>, b: nat, i: nat, c: nat, j: nat, k: nat)
    requires kind != CSE && WellFormedUnder(p, d) && Ordered(p)
    requires b in d && At(p, b, i) && Facts(p, d, args, env, b, i)
    requires (c == b && j == i) || Avail(p, d, b, i, c, j)
    requires At(p, c, j) && k < |p[c].body[j].args|
    ensures Eval(Resolved(kind, p, c, j, k), args, env) == Eval(p[c].body[j].args[k], args, env)
    decreases c, j
  {
    hide WellFormedUnder, DomOk, Ordered, Final, Dropped, Facts, Decide;
    var a, ed := p[c].body[j].args[k], Final(kind, p);
    OperandIsOk(p, d, c, j, k);
    if a.Ref? && a.uid in ed.sub {
      var e, l := ReadFrom(p, d, b, i, c, j, a);
      var m := p[e].body[l];
      DroppedHasValue(kind, p, e, l);
      DecisionForm(kind, p, e, l);
      DroppedDecision(kind, p, e, l);
      FactHolds(p, d, args, env, b, i, e, l);
      ResolvedAgrees(kind, p, d, args, env, b, i, e, l, 0);
      ResolvedAgrees(kind, p, d, args, env, b, i, e, l, 1);
      DecideSound(kind, m, ResolveAll(m, ed), StateAt(kind, p, e, l).seen, args, env);
    }
  }

  // What (c, j) reads is available where (c, j) is.
  lemma ReadFrom(p: Prog, d: map<nat, set<nat>>, b: nat, i: nat, c: nat, j: nat, a: Value) returns (e: nat, l: nat)
    requires WellFormedUnder(p, d) && b in d && At(p, b, i) && ((c == b && j == i) || Avail(p, d, b, i, c, j))
    requires OperandOk(p, d, c, j, a) && a.Ref?
    ensures Defines(p, d, c, j, a, e, l) && Avail(p, d, b, i, e, l)
  {
    if c == b && j == i {
      var e', l' :| Defines(p, d, c, j, a, e', l');
      e, l := e', l';
    } else {
      e, l := DefinedThrough(p, d, b, i, c, j, a);
    }
  }

  lemma FactHolds(p: Prog, d: map<nat, set<nat>>, args: seq<int>, env: map<nat, int>, b: int, i: int, e: int, l: int)
    requires Facts(p, d, args, env, b, i) && Avail(p, d, b, i, e, l) && IsArith(p[e].body[l].op)
    ensures p[e].body[l].uid in env && Holds(p[e].body[l], args, env)
  {}

  lemma FoldReduceFaithful(kind: Kind, p: Prog, d: map<nat, set<nat>>)
    requires kind != CSE && WellFormedUnder(p, d) && Ordered(p)
    ensures Faithful(p, d, Final(kind, p))
  {
    var ed := Final(kind, p);
    forall args, env, b, i | Facts(p, d, args, env, b, i) && b in d && Kept(p, ed, b, i)
      ensures SameValues(p[b].body[i], ed, args, env)
    {
      forall k | 0 <= k < |p[b].body[i].args|
        ensures Eval(Resolve(p[b].body[i].uid, k, p[b].body[i].args[k], ed), args, env) ==
          Eval(p[b].body[i].args[k], args, env)
      {
        ResolvedAgrees(kind, p, d, args, env, b, i, b, i, k);
      }
    }
  }

  // Main result: folding and reducing preserve meaning and well-formedness.
  lemma FoldReducePreserves(kind: Kind, p: Prog)
    requires kind != CSE && WellFormed(p)
    ensures WellFormed(SweepProg(kind, p)) && SameMeaning(p, SweepProg(kind, p))
    ensures Dominators(SweepProg(kind, p)) == Dominators(p)
  {
    var d, ed := Dominators(p), Final(kind, p);
    WellFormedOrdered(p, d);
    SweepIsRewrite(kind, p);
    FoldReduceScoped(kind, p, d);
    FoldReduceFaithful(kind, p, d);
    RewritePreserves(p, d, ed);
    RewriteWellFormed(p, d, ed);
    SameDominators(p, RewriteProg(p, ed));
  }
}
