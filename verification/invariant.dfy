// What every run of a well-formed function keeps: at each point, every instruction
// that strictly dominates it has a value, and the value of an arithmetic instruction
// is its operation applied to the present values of its operands.

module RunInvariant {
  import opened Options
  import opened Ir
  import opened Interp
  import opened Cfg

  ghost predicate Holds(n: Node, args: seq<int>, env: map<nat, int>) {
    n.uid in env &&
    (IsArith(n.op) ==>
      |n.args| == 2 &&
      IsNum(Eval(n.args[0], args, env)) && IsNum(Eval(n.args[1], args, env)) &&
      env[n.uid] == Arith(n.op, Eval(n.args[0], args, env).value.n, Eval(n.args[1], args, env).value.n))
  }

  ghost predicate Facts(p: Prog, d: map<nat, set<nat>>, args: seq<int>, env: map<nat, int>, b: int, i: int) {
    forall c, j :: Avail(p, d, b, i, c, j) && HasValue(p[c].body[j].op) ==> Holds(p[c].body[j], args, env)
  }

  ghost predicate Sane(p: Prog, d: map<nat, set<nat>>, args: seq<int>, c: Config) {
    c.Running? ==> c.b in d && At(p, c.b, c.i) && Facts(p, d, args, c.env, c.b, c.i)
  }

  // Executing n changes only n's own value, and no available instruction reads it.
  lemma HoldsAfter(p: Prog, d: map<nat, set<nat>>, args: seq<int>, env: map<nat, int>,
                   b: int, i: int, v: int, c: int, j: int)
    requires WellFormedUnder(p, d) && b in d && At(p, b, i) && Avail(p, d, b, i, c, j)
    requires Holds(p[c].body[j], args, env)
    ensures Holds(p[c].body[j], args, env[p[b].body[i].uid := v])
  {
    var n, m := p[b].body[i], p[c].body[j];
    AvailOrder(p, d, b, i, c, j, b, i);
    assert n.uid != m.uid;
    assert NodeOk(p, d, c, j);
    forall a | a in m.args ensures Eval(a, args, env[n.uid := v]) == Eval(a, args, env) {
      if a.Ref? {
        assert OperandOk(p, d, c, j, a);
        var e, k :| Defines(p, d, c, j, a, e, k);
        assert Avail(p, d, c, j, e, k);
        assert a.uid != n.uid;
      }
    }
  }

  // The value just computed satisfies its own equation: an instruction does not read itself.
  lemma HoldsNow(p: Prog, d: map<nat, set<nat>>, args: seq<int>, env: map<nat, int>, mem: Memory, b: int, i: int)
    requires WellFormedUnder(p, d) && At(p, b, i)
    requires var n := p[b].body[i]; Effects(n.op, EvalAll(n.args, args, env), mem).Assign?
    ensures var n := p[b].body[i];
      Holds(n, args, env[n.uid := Effects(n.op, EvalAll(n.args, args, env), mem).v])
  {
    var n := p[b].body[i];
    var v := Effects(n.op, EvalAll(n.args, args, env), mem).v;
    assert Shape(n) by { assert BlockShape(p[b]); }
    assert NodeOk(p, d, b, i);
    forall a | a in n.args ensures Eval(a, args, env[n.uid := v]) == Eval(a, args, env) {
      if a.Ref? {
        assert OperandOk(p, d, b, i, a);
        var e, k :| Defines(p, d, b, i, a, e, k);
        assert a.uid != n.uid;
      }
    }
  }

  lemma GotoIsEdge(p: Prog, b: int, i: int, vals: seq<Option<Literal>>, args: seq<int>, env: map<nat, int>, mem: Memory)
    requires Structured(p) && At(p, b, i) && vals == EvalAll(p[b].body[i].args, args, env)
    requires Effects(p[b].body[i].op, vals, mem).Goto?
    requires Target(p, Effects(p[b].body[i].op, vals, mem).name).Some?
    ensures i == |p[b].body| - 1
    ensures Edge(p, b, Target(p, Effects(p[b].body[i].op, vals, mem).name).value)
  {
    assert BlockShape(p[b]);
    assert Shape(p[b].body[i]);
  }

  // A computed value: the facts hold of it, and still hold of the others.
  lemma AssignIsSane(p: Prog, d: map<nat, set<nat>>, args: seq<int>, env: map<nat, int>, mem: Memory, b: nat, i: nat)
    requires WellFormedUnder(p, d) && b in d && At(p, b, i) && Facts(p, d, args, env, b, i)
    requires var n := p[b].body[i]; Effects(n.op, EvalAll(n.args, args, env), mem).Assign?
    ensures var n := p[b].body[i];
      At(p, b, i + 1) && Facts(p, d, args, env[n.uid := Effects(n.op, EvalAll(n.args, args, env), mem).v], b, i + 1)
  {
    var n := p[b].body[i];
    var v := Effects(n.op, EvalAll(n.args, args, env), mem).v;
    assert BlockShape(p[b]);
    EffectKinds(n.op, EvalAll(n.args, args, env), mem);
    HoldsNow(p, d, args, env, mem, b, i);
    hide Effects, EvalAll, Holds, WellFormedUnder;
    forall c, j | Avail(p, d, b, i + 1, c, j) && HasValue(p[c].body[j].op)
      ensures Holds(p[c].body[j], args, env[n.uid := v])
    {
      if !(c == b && j == i) {
        assert Avail(p, d, b, i, c, j);
        HoldsAfter(p, d, args, env, b, i, v, c, j);
      }
    }
  }

  lemma WriteIsSane(p: Prog, d: map<nat, set<nat>>, args: seq<int>, env: map<nat, int>, b: nat, i: nat)
    requires WellFormedUnder(p, d) && At(p, b, i) && p[b].body[i].op == STORE && Facts(p, d, args, env, b, i)
    ensures At(p, b, i + 1) && Facts(p, d, args, env, b, i + 1)
  {
    assert BlockShape(p[b]);
    hide Holds;
    forall c, j | Avail(p, d, b, i + 1, c, j) && HasValue(p[c].body[j].op) ensures Avail(p, d, b, i, c, j) {}
  }

  // Along an edge, whatever dominates the target was available at the source.
  lemma EdgeIsSane(p: Prog, d: map<nat, set<nat>>, args: seq<int>, env: map<nat, int>, b: nat, i: nat, t: nat)
    requires WellFormedUnder(p, d) && b in d && At(p, b, i) && i == |p[b].body| - 1 && Edge(p, b, t)
    requires Facts(p, d, args, env, b, i)
    ensures t in d && At(p, t, 0) && Facts(p, d, args, env, t, 0)
  {
    assert t in d && d[t] <= d[b] + {b};
    assert BlockShape(p[b]) && BlockShape(p[t]);
    hide Holds;
    forall c, j | Avail(p, d, t, 0, c, j) && HasValue(p[c].body[j].op) ensures Avail(p, d, b, i, c, j) {}
  }

  lemma StepIsSane(p: Prog, d: map<nat, set<nat>>, args: seq<int>, s: Config)
    requires WellFormedUnder(p, d) && s.Running? && Sane(p, d, args, s)
    ensures Sane(p, d, args, Step(p, args, s))
  {
    var b, i, env := s.b, s.i, s.env;
    var n := p[b].body[i];
    var vals := EvalAll(n.args, args, env);
    EffectKinds(n.op, vals, s.mem);
    StructuredUnder(p, d);
    hide WellFormedUnder, Facts, Effects, EvalAll, Target;
    match Effects(n.op, vals, s.mem)
    case Assign(_) => AssignIsSane(p, d, args, env, s.mem, b, i);
    case Write(_) => WriteIsSane(p, d, args, env, b, i);
    case Goto(name) =>
      if Target(p, name).Some? {
        GotoIsEdge(p, b, i, vals, args, env, s.mem);
        EdgeIsSane(p, d, args, env, b, i, Target(p, name).value);
      }
    case Return(_) =>
    case Bad =>
  }

  lemma StructuredUnder(p: Prog, d: map<nat, set<nat>>)
    requires WellFormedUnder(p, d)
    ensures Structured(p)
  {}

  lemma {:induction false} RunsAreSane(p: Prog, d: map<nat, set<nat>>, args: seq<int>, mem: Memory, n: nat)
    requires WellFormedUnder(p, d)
    ensures Sane(p, d, args, Run(p, args, mem, n))
  {
    if n == 0 {
      assert BlockShape(p[0]);
    } else {
      RunsAreSane(p, d, args, mem, n - 1);
      if Run(p, args, mem, n - 1).Running? { StepIsSane(p, d, args, Run(p, args, mem, n - 1)); }
    }
  }
}
