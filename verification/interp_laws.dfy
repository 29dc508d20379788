// What the interpreter's steps do, instruction by instruction: reading back what was stored,
// the truth of a comparison, and which steps can fail at all.

module InterpLaws {
  import opened Options
  import opened Ir
  import opened Interp
  import opened Cfg
  import opened RunInvariant

  ghost predicate Reads(v: Value, args: seq<int>, env: map<nat, int>, x: int) { Eval(v, args, env) == Some(Num(x)) }

  // ----- memory -----

  // Handle h names a list, and k one of its places, counted from either end.
  predicate InList(mem: Memory, h: int, k: int) { h in mem && 0 <= k + |mem[h]| && k < |mem[h]| }

  // Indices k and l name the same place of a list of that length.
  predicate SamePlace(len: nat, k: int, l: int) { k == l || k == l + len || l == k + len }

  lemma LoadLaw(p: Prog, args: seq<int>, b: nat, i: nat, env: map<nat, int>, mem: Memory, h: int, k: int)
    requires At(p, b, i) && p[b].body[i].op == LOAD && |p[b].body[i].args| >= 2
    requires Reads(p[b].body[i].args[0], args, env, h) && Reads(p[b].body[i].args[1], args, env, k)
    ensures var s := Step(p, args, Running(b, i, env, mem));
      if !InList(mem, h, k) then s == Fault
      else if k >= 0 then s == Running(b, i + 1, env[p[b].body[i].uid := mem[h][k]], mem)
      else s == Running(b, i + 1, env[p[b].body[i].uid := mem[h][|mem[h]| + k]], mem)
  {}

  // The list holds x at the named place, and everything else is as it was.
  ghost predicate Stored(mem: Memory, h: int, k: int, x: int, m: Memory)
    requires InList(mem, h, k)
  {
    m.Keys == mem.Keys && (forall g :: g in mem && g != h ==> m[g] == mem[g]) && |m[h]| == |mem[h]| &&
    forall j :: 0 <= j < |mem[h]| ==> m[h][j] == if SamePlace(|mem[h]|, j, k) then x else mem[h][j]
  }

  lemma StoreLaw(p: Prog, args: seq<int>, b: nat, i: nat, env: map<nat, int>, mem: Memory, x: int, h: int, k: int)
    requires At(p, b, i) && p[b].body[i].op == STORE && |p[b].body[i].args| >= 3
    requires Reads(p[b].body[i].args[0], args, env, x) && Reads(p[b].body[i].args[1], args, env, h)
    requires Reads(p[b].body[i].args[2], args, env, k)
    ensures var s := Step(p, args, Running(b, i, env, mem));
      if !InList(mem, h, k) then s == Fault
      else s.Running? && s.b == b && s.i == i + 1 && s.env == env && Stored(mem, h, k, x, s.mem)
  {}

  // Main result on memory: a LOAD after a STORE gives the stored value back where the two
  // name one place, and what the LOAD would have given before the STORE where they do not.
  lemma LoadAfterStore(p: Prog, args: seq<int>, b: nat, i: nat, env: map<nat, int>, mem: Memory,
                       x: int, h: int, k: int, g: int, l: int)
    requires At(p, b, i + 1) && p[b].body[i].op == STORE && |p[b].body[i].args| >= 3
    requires p[b].body[i + 1].op == LOAD && |p[b].body[i + 1].args| >= 2
    requires Reads(p[b].body[i].args[0], args, env, x) && Reads(p[b].body[i].args[1], args, env, h)
    requires Reads(p[b].body[i].args[2], args, env, k) && InList(mem, h, k)
    requires Reads(p[b].body[i + 1].args[0], args, env, g) && Reads(p[b].body[i + 1].args[1], args, env, l)
    ensures var u, s := p[b].body[i + 1].uid, Step(p, args, Step(p, args, Running(b, i, env, mem)));
      var before := Step(p, args, Running(b, i + 1, env, mem));
      (s.Fault? <==> before.Fault?) && (s.Running? <==> before.Running?) &&
      (s.Running? ==>
        s.env.Keys == before.env.Keys && u in s.env &&
        s.env[u] == if g == h && SamePlace(|mem[h]|, k, l) then x else before.env[u])
  {
    var t := Step(p, args, Running(b, i, env, mem));
    StoreLaw(p, args, b, i, env, mem, x, h, k);
    LoadLaw(p, args, b, i + 1, env, mem, g, l);
    LoadLaw(p, args, b, i + 1, env, t.mem, g, l);
    hide Step, Eval;
  }

  // ----- comparisons and control -----

  // A true comparison leaves one and a false one zero.
  lemma CompareLaw(p: Prog, args: seq<int>, b: nat, i: nat, env: map<nat, int>, mem: Memory,
                   cond: string, x: int, y: int)
    requires At(p, b, i) && p[b].body[i].op == CMP && |p[b].body[i].args| >= 3
    requires Eval(p[b].body[i].args[0], args, env) == Some(Text(cond))
    requires Reads(p[b].body[i].args[1], args, env, x) && Reads(p[b].body[i].args[2], args, env, y)
    ensures var s, u := Step(p, args, Running(b, i, env, mem)), p[b].body[i].uid;
      if cond !in {"lt", "le", "gt", "ge", "eq", "ne"} then s == Fault
      else s.Running? && u in s.env && s == Running(b, i + 1, env[u := s.env[u]], mem) && Decides(cond, x, y, s.env[u])
  {}

  ghost predicate Decides(cond: string, x: int, y: int, r: int) {
    (r == 0 || r == 1) &&
    (cond == "lt" ==> (r == 1 <==> x < y)) && (cond == "ge" ==> (r == 0 <==> x < y)) &&
    (cond == "gt" ==> (r == 1 <==> y < x)) && (cond == "le" ==> (r == 0 <==> y < x)) &&
    (cond == "eq" ==> (r == 1 <==> x == y)) && (cond == "ne" ==> (r == 0 <==> x == y))
  }

  // A jump arrives at the start of the last block with its label; off a block's end the
  // interpreter starts the block again.
  lemma ControlLaw(p: Prog, args: seq<int>, b: nat, i: nat, env: map<nat, int>, mem: Memory)
    requires b < |p|
    ensures var s := Step(p, args, Running(b, i, env, mem));
      (i >= |p[b].body| ==> s == Running(b, 0, env, mem)) &&
      (i < |p[b].body| && IsTerminator(p[b].body[i].op) && s.Running? ==>
        s.env == env && s.mem == mem && s.i == 0 && s.b < |p| &&
        forall c :: s.b < c < |p| ==> p[c].name != p[s.b].name)
  {}

  // Values the operands can have: a text is what is written.
  ghost predicate CanRead(args: seq<Value>, vals: seq<Option<Literal>>) {
    |vals| == |args| && forall k :: 0 <= k < |args| ==>
      if IsText(args[k]) then vals[k] == Some(args[k].lit) else IsNum(vals[k])
  }

  // With these operand values block b's last instruction goes to block c.
  ghost predicate CanGo(p: Prog, b: int, vals: seq<Option<Literal>>, c: int) {
    0 <= b < |p| && p[b].body != [] &&
    var n := p[b].body[|p[b].body| - 1];
    CanRead(n.args, vals) && Effects(n.op, vals, map[]).Goto? &&
    Target(p, Effects(n.op, vals, map[]).name) == Some(c)
  }

  // There is an edge exactly where some values of its operands make it a jump.
  lemma EdgesExactly(p: Prog, b: int, c: nat)
    requires Structured(p)
    ensures Edge(p, b, c) <==> exists vals :: CanGo(p, b, vals, c)
  {
    if 0 <= b < |p| {
      assert BlockShape(p[b]);
      LastShaped(p, b);
      hide BlockShape;
      if Edge(p, b, c) { EdgeGoes(p, b, c); }
    }
  }

  lemma LastShaped(p: Prog, b: nat)
    requires b < |p| && BlockShape(p[b])
    ensures p[b].body != [] && Shape(p[b].body[|p[b].body| - 1])
  {}

  lemma EdgeGoes(p: Prog, b: nat, c: nat)
    requires b < |p| && p[b].body != [] && Shape(p[b].body[|p[b].body| - 1]) && Edge(p, b, c)
    ensures exists vals :: CanGo(p, b, vals, c)
  {
    var n := p[b].body[|p[b].body| - 1];
    if n.op == JMP {
      assert CanGo(p, b, [Some(n.args[0].lit)], c);
    } else {
      var yes := [Some(Num(1)), Some(n.args[1].lit), Some(n.args[2].lit)];
      var no := [Some(Num(0)), Some(n.args[1].lit), Some(n.args[2].lit)];
      assert CanGo(p, b, yes, c) || CanGo(p, b, no, c);
    }
  }

  // ----- which steps fail -----

  ghost predicate ArgumentsGiven(p: Prog, count: nat) {
    forall b, i, k :: At(p, b, i) && 0 <= k < |p[b].body[i].args| && p[b].body[i].args[k].Arg? ==>
      p[b].body[i].args[k].index < count
  }

  ghost predicate Declared(p: Prog, v: Value) { IsText(v) && exists c :: 0 <= c < |p| && p[c].name == v.lit.s }

  ghost predicate LabelsDeclared(p: Prog) {
    forall b, i :: At(p, b, i) ==>
      (p[b].body[i].op == JMP && |p[b].body[i].args| >= 1 ==> Declared(p, p[b].body[i].args[0])) &&
      (p[b].body[i].op == BR && |p[b].body[i].args| >= 3 ==>
        Declared(p, p[b].body[i].args[1]) && Declared(p, p[b].body[i].args[2]))
  }

  // The operands name no place of a list.
  ghost predicate Misses(v: Value, w: Value, args: seq<int>, s: Config)
    requires s.Running?
  {
    forall h, k :: Reads(v, args, s.env, h) && Reads(w, args, s.env, k) ==> !InList(s.mem, h, k)
  }

  ghost predicate MissesMemory(n: Node, args: seq<int>, s: Config)
    requires s.Running?
  {
    (n.op == LOAD && |n.args| >= 2 && Misses(n.args[0], n.args[1], args, s)) ||
    (n.op == STORE && |n.args| >= 3 && Misses(n.args[1], n.args[2], args, s))
  }

  // At a reachable point every operand has its value.
  lemma OperandHasValue(p: Prog, d: map<nat, set<nat>>, args: seq<int>, env: map<nat, int>, b: nat, i: nat, k: nat)
    requires WellFormedUnder(p, d) && ArgumentsGiven(p, |args|)
    requires b in d && At(p, b, i) && Facts(p, d, args, env, b, i) && k < |p[b].body[i].args|
    ensures var v := p[b].body[i].args[k];
      if IsText(v) then Eval(v, args, env) == Some(v.lit) else IsNum(Eval(v, args, env))
  {
    var v := p[b].body[i].args[k];
    if v.Ref? {
      OperandIsOk(p, d, b, i, k);
      var c, j :| Defines(p, d, b, i, v, c, j);
      assert Holds(p[c].body[j], args, env);
    }
  }

  lemma LabelFound(p: Prog, v: Value)
    requires Declared(p, v)
    ensures Target(p, v.lit.s).Some?
  {}

  // Main result: in a well-formed function with its arguments given and its labels declared,
  // a step fails exactly when a LOAD or STORE names no place of a list.
  lemma FailsExactly(p: Prog, d: map<nat, set<nat>>, args: seq<int>, s: Config)
    requires WellFormedUnder(p, d) && ArgumentsGiven(p, |args|) && LabelsDeclared(p)
    requires s.Running? && Sane(p, d, args, s)
    ensures Step(p, args, s).Fault? <==> MissesMemory(p[s.b].body[s.i], args, s)
  {
    var n := p[s.b].body[s.i];
    assert BlockShape(p[s.b]) && Shape(n);
    forall k: nat | k < |n.args|
      ensures if IsText(n.args[k]) then Eval(n.args[k], args, s.env) == Some(n.args[k].lit)
              else IsNum(Eval(n.args[k], args, s.env))
    {
      OperandHasValue(p, d, args, s.env, s.b, s.i, k);
    }
    hide WellFormedUnder, Facts, ArgumentsGiven, BlockShape;
    StepFails(p, args, s);
  }

  lemma StepFails(p: Prog, args: seq<int>, s: Config)
    requires s.Running? && At(p, s.b, s.i) && Shape(p[s.b].body[s.i]) && LabelsDeclared(p)
    requires var n := p[s.b].body[s.i]; forall k: nat :: k < |n.args| ==>
      if IsText(n.args[k]) then Eval(n.args[k], args, s.env) == Some(n.args[k].lit)
      else IsNum(Eval(n.args[k], args, s.env))
    ensures Step(p, args, s).Fault? <==> MissesMemory(p[s.b].body[s.i], args, s)
  {
    var n := p[s.b].body[s.i];
    if n.op == JMP { LabelFound(p, n.args[0]); }
    if n.op == BR { LabelFound(p, n.args[1]); LabelFound(p, n.args[2]); }
    if n.op == LOAD {
      var h, k := Eval(n.args[0], args, s.env).value.n, Eval(n.args[1], args, s.env).value.n;
      assert Reads(n.args[0], args, s.env, h) && Reads(n.args[1], args, s.env, k);
      LoadLaw(p, args, s.b, s.i, s.env, s.mem, h, k);
    }
    if n.op == STORE {
      var x, h, k := Eval(n.args[0], args, s.env).value.n, Eval(n.args[1], args, s.env).value.n,
        Eval(n.args[2], args, s.env).value.n;
      assert Reads(n.args[1], args, s.env, h) && Reads(n.args[2], args, s.env, k);
      StoreLaw(p, args, s.b, s.i, s.env, s.mem, x, h, k);
    }
  }

  ghost predicate NoMemory(p: Prog) {
    forall b, i :: At(p, b, i) ==> p[b].body[i].op != LOAD && p[b].body[i].op != STORE
  }

  // Without them no run fails, however long.
  lemma {:induction false} NeverFails(p: Prog, args: seq<int>, mem: Memory, n: nat)
    requires WellFormed(p) && ArgumentsGiven(p, |args|) && LabelsDeclared(p) && NoMemory(p)
    ensures !Run(p, args, mem, n).Fault?
  {
    hide WellFormed, ArgumentsGiven, LabelsDeclared, Sane, Step;
    RunStep(p, args, mem, if n == 0 then 0 else n - 1);
    if n > 0 {
      NeverFails(p, args, mem, n - 1);
      var s := Run(p, args, mem, n - 1);
      if s.Running? { StepSucceeds(p, args, mem, n - 1); } else { HaltedStays(p, args, mem, n - 1, n); }
    }
  }

  lemma StepSucceeds(p: Prog, args: seq<int>, mem: Memory, n: nat)
    requires WellFormed(p) && ArgumentsGiven(p, |args|) && LabelsDeclared(p) && NoMemory(p)
    requires Run(p, args, mem, n).Running?
    ensures !Step(p, args, Run(p, args, mem, n)).Fault?
  {
    var d, s := Dominators(p), Run(p, args, mem, n);
    RunsAreSane(p, d, args, mem, n);
    FailsExactly(p, d, args, s);
    hide Step, Run, WellFormedUnder, Facts, ArgumentsGiven, LabelsDeclared;
    assert At(p, s.b, s.i);
  }
}
