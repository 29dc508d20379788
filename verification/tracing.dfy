// The tracing JIT: a Python body runs once on traced arguments, and each operation on a
// traced value emits an instruction.

module Tracing {
  import opened Options
  import opened Ir
  import opened Interp
  import opened Cfg
  import N = Native

  // ----- bodies: operations in the order they are evaluated -----

  datatype Operand = Param(k: nat) | Literal(n: int) | Result(j: nat)

  datatype Operation = Operation(op: Opcode, left: Operand, right: Operand)

  datatype Body = Body(ops: seq<Operation>, result: Operand)

  predicate OperandIn(o: Operand, argCount: nat, k: nat) {
    match o case Param(i) => i < argCount case Literal(_) => true case Result(j) => j < k
  }

  predicate Sensible(body: Body, argCount: nat) {
    OperandIn(body.result, argCount, |body.ops|) &&
    forall k :: 0 <= k < |body.ops| ==>
      IsArith(body.ops[k].op) && OperandIn(body.ops[k].left, argCount, k) && OperandIn(body.ops[k].right, argCount, k)
  }

  // What Python computes.
  function Value(body: Body, args: seq<int>, o: Operand, k: nat): int
    requires Sensible(body, |args|) && OperandIn(o, |args|, k) && k <= |body.ops|
    decreases k, o
  {
    match o
    case Param(i) => args[i]
    case Literal(n) => n
    case Result(j) =>
      Arith(body.ops[j].op, Value(body, args, body.ops[j].left, j), Value(body, args, body.ops[j].right, j))
  }

  // ----- tracing -----

  // A Python number, or a traced value.
  datatype Handle = Plain(n: int) | Traced(v: Ir.Value)

  datatype Trace = Trace(table: seq<Handle>, nodes: seq<Node>)

  function HandleOf(t: Trace, o: Operand): Handle {
    match o
    case Param(k) => Traced(Arg(k))
    case Literal(n) => Plain(n)
    case Result(j) => if j < |t.table| then t.table[j] else Plain(0)
  }

  // `_val`: a number becomes a new constant.
  function Operand32(h: Handle, tag: nat): Ir.Value {
    match h case Plain(n) => Const(I32, Num(n), Written(tag)) case Traced(v) => v
  }

  function TypeOf(v: Ir.Value): Type {
    match v case Const(ty, _, _) => ty case Arg(_) => I64 case Ref(_, ty) => ty
  }

  // A number minus a traced value has no method to call.
  predicate Unsupported(op: Opcode, x: Handle, y: Handle) { op == SUB && x.Plain? && y.Traced? }

  function NodeFor(op: Opcode, x: Handle, y: Handle, uid: nat): Node {
    var a, b := Operand32(x, 2 * uid), Operand32(y, 2 * uid + 1);
    Node(uid, op, TypeOf(a), [a, b])
  }

  function TraceStep(t: Trace, o: Operation): Option<Trace>
    requires IsArith(o.op)
  {
    var x, y := HandleOf(t, o.left), HandleOf(t, o.right);
    if x.Plain? && y.Plain? then Some(Trace(t.table + [Plain(Arith(o.op, x.n, y.n))], t.nodes))
    else if Unsupported(o.op, x, y) then None
    else
      var n := NodeFor(o.op, x, y, |t.nodes|);
      Some(Trace(t.table + [Traced(Ref(n.uid, n.ty))], t.nodes + [n]))
  }

  function TraceTo(body: Body, k: nat): Option<Trace>
    requires k <= |body.ops| && forall j :: 0 <= j < |body.ops| ==> IsArith(body.ops[j].op)
  {
    if k == 0 then Some(Trace([], []))
    else match TraceTo(body, k - 1) case Some(t) => TraceStep(t, body.ops[k - 1]) case None => None
  }

  function ReturnNode(h: Handle, uid: nat): Node {
    Node(uid, RET, VOID, match h case Traced(v) => [v] case Plain(_) => [])
  }

  function FunctionOf(t: Trace, result: Operand): Prog {
    [Block("entry", t.nodes + [ReturnNode(HandleOf(t, result), |t.nodes|)])]
  }

  // The function traced, or None where the trace raises and Python is used instead.
  function Compiled(body: Body, argCount: nat): Option<Prog>
    requires Sensible(body, argCount)
  {
    match TraceTo(body, |body.ops|) case Some(t) => Some(FunctionOf(t, body.result)) case None => None
  }

  // ----- the emitted function is well formed -----

  ghost predicate ValueBefore(v: Ir.Value, nodes: seq<Node>, argCount: nat, i: nat) {
    match v
    case Const(ty, lit, _) => ty == I32 && lit.Num?
    case Arg(k) => k < argCount
    case Ref(u, ty) => u < i && u < |nodes| && nodes[u].ty == ty
  }

  // Numbers are 32-bit constants, arguments 64-bit.
  function OperandType(v: Ir.Value): Type {
    match v case Const(_, _, _) => I32 case Arg(_) => I64 case Ref(_, ty) => ty
  }

  ghost predicate NodeTraced(nodes: seq<Node>, argCount: nat, i: nat)
    requires i < |nodes|
  {
    var n := nodes[i];
    n.uid == i && IsArith(n.op) && n.ty != VOID && |n.args| == 2 && n.ty == OperandType(n.args[0]) &&
    ValueBefore(n.args[0], nodes, argCount, i) && ValueBefore(n.args[1], nodes, argCount, i)
  }

  // k operations have been traced.
  ghost predicate TraceOk(t: Trace, argCount: nat, k: nat) {
    |t.table| == k && (forall i: nat :: i < |t.nodes| ==> NodeTraced(t.nodes, argCount, i)) &&
    forall j :: 0 <= j < k && t.table[j].Traced? ==>
      ValueBefore(t.table[j].v, t.nodes, argCount, |t.nodes|) && t.table[j].v.Ref?
  }

  lemma HandleBefore(t: Trace, argCount: nat, k: nat, o: Operand, tag: nat)
    requires TraceOk(t, argCount, k) && OperandIn(o, argCount, k)
    ensures ValueBefore(Operand32(HandleOf(t, o), tag), t.nodes, argCount, |t.nodes|)
    ensures TypeOf(Operand32(HandleOf(t, o), tag)) != VOID
  {
    var h := HandleOf(t, o);
    if h.Traced? && h.v.Ref? { assert NodeTraced(t.nodes, argCount, h.v.uid); }
  }

  lemma StepOk(t: Trace, argCount: nat, k: nat, o: Operation)
    requires TraceOk(t, argCount, k) && IsArith(o.op) && OperandIn(o.left, argCount, k) &&
      OperandIn(o.right, argCount, k)
    requires TraceStep(t, o).Some?
    ensures TraceOk(TraceStep(t, o).value, argCount, k + 1) && t.nodes <= TraceStep(t, o).value.nodes
  {
    var t' := TraceStep(t, o).value;
    HandleBefore(t, argCount, k, o.left, 2 * |t.nodes|);
    HandleBefore(t, argCount, k, o.right, 2 * |t.nodes| + 1);
    hide HandleOf, Operand32;
    forall i: nat | i < |t'.nodes| ensures NodeTraced(t'.nodes, argCount, i) {
      if i < |t.nodes| { assert NodeTraced(t.nodes, argCount, i); }
    }
  }

  lemma {:induction false} TraceIsOk(body: Body, argCount: nat, k: nat)
    requires Sensible(body, argCount) && k <= |body.ops| && TraceTo(body, k).Some?
    ensures TraceOk(TraceTo(body, k).value, argCount, k)
  {
    hide TraceStep, TraceOk;
    if k == 0 {
      NothingTraced(argCount);
    } else {
      TraceIsOk(body, argCount, k - 1);
      StepOk(TraceTo(body, k - 1).value, argCount, k - 1, body.ops[k - 1]);
    }
  }

  lemma NothingTraced(argCount: nat)
    ensures TraceOk(Trace([], []), argCount, 0)
  {}

  lemma BodyNode(t: Trace, argCount: nat, k: nat, result: Operand, i: nat)
    requires TraceOk(t, argCount, k) && OperandIn(result, argCount, k) && i <= |t.nodes|
    ensures var n := FunctionOf(t, result)[0].body[i];
      Shape(n) && n.uid == i && n.op != LOAD && n.op != STORE && n.op != BR &&
      (IsTerminator(n.op) <==> i == |t.nodes|) &&
      forall v :: v in n.args ==> ValueBefore(v, t.nodes, argCount, i)
  {
    if i < |t.nodes| { assert NodeTraced(t.nodes, argCount, i); }
  }

  lemma OperandDefined(t: Trace, argCount: nat, k: nat, result: Operand, d: map<nat, set<nat>>, i: nat, v: Ir.Value)
    requires TraceOk(t, argCount, k) && i <= |t.nodes| && ValueBefore(v, t.nodes, argCount, i)
    ensures OperandOk(FunctionOf(t, result), d, 0, i, v)
    ensures v.Ref? ==> N.NamesArith(FunctionOf(t, result), v.uid)
  {
    var p := FunctionOf(t, result);
    if v.Ref? {
      assert NodeTraced(t.nodes, argCount, v.uid) && p[0].body[v.uid] == t.nodes[v.uid];
      assert Defines(p, d, 0, i, v, 0, v.uid);
      forall c, j | At(p, c, j) && p[c].body[j].uid == v.uid ensures IsArith(p[c].body[j].op) {
        if j < |t.nodes| { assert NodeTraced(t.nodes, argCount, j); }
      }
    }
  }

  lemma TraceWellFormed(t: Trace, argCount: nat, k: nat, result: Operand)
    requires TraceOk(t, argCount, k) && OperandIn(result, argCount, k)
    ensures var p := FunctionOf(t, result); |p| == 1 && WellFormed(p) && N.NativeReady(p)
    ensures forall b, i :: At(FunctionOf(t, result), b, i) ==> FunctionOf(t, result)[b].body[i].op != BR
  {
    var p := FunctionOf(t, result);
    DominatorsOk(p);
    hide Dominators, TraceOk, OperandOk, N.NamesArith, ValueBefore;
    forall i: nat | i <= |t.nodes| ensures var n := p[0].body[i];
      Shape(n) && n.uid == i && n.op != LOAD && n.op != STORE && n.op != BR &&
      (IsTerminator(n.op) <==> i == |t.nodes|) &&
      NodeOk(p, Dominators(p), 0, i) && N.NativeNode(p, 0, i)
    {
      BodyNode(t, argCount, k, result, i);
      forall v | v in p[0].body[i].args
        ensures OperandOk(p, Dominators(p), 0, i, v) && (v.Ref? ==> N.NamesArith(p, v.uid))
      {
        OperandDefined(t, argCount, k, result, Dominators(p), i, v);
      }
    }
  }

  // Whatever is traced is a well-formed function of one block, fit for the code generator.
  lemma TracedWellFormed(body: Body, argCount: nat)
    requires Sensible(body, argCount) && Compiled(body, argCount).Some?
    ensures var p := Compiled(body, argCount).value; |p| == 1 && WellFormed(p) && N.NativeReady(p)
    ensures var p := Compiled(body, argCount).value; forall b, i :: At(p, b, i) ==> p[b].body[i].op != BR
  {
    hide WellFormed, N.NativeReady, TraceTo;
    TraceIsOk(body, argCount, |body.ops|);
    TraceWellFormed(TraceTo(body, |body.ops|).value, argCount, |body.ops|, body.result);
  }

  // Every number written becomes a 32-bit constant, and an operation has its left operand's type.
  lemma TracedTypes(body: Body, argCount: nat, i: nat)
    requires Sensible(body, argCount) && Compiled(body, argCount).Some?
    requires i < |Compiled(body, argCount).value[0].body| - 1
    ensures var n := Compiled(body, argCount).value[0].body[i];
      n.args != [] && n.ty == OperandType(n.args[0]) && forall v :: v in n.args && v.Const? ==> v.ty == I32
  {
    TraceIsOk(body, argCount, |body.ops|);
    var t := TraceTo(body, |body.ops|).value;
    hide TraceTo;
    assert NodeTraced(t.nodes, argCount, i) && Compiled(body, argCount).value[0].body[i] == t.nodes[i];
  }

  // ----- tracing is faithful -----

  // The environment holds what each handle stands for.
  ghost predicate Stands(body: Body, args: seq<int>, t: Trace, k: nat, env: map<nat, int>)
    requires Sensible(body, |args|) && k <= |body.ops| && |t.table| == k
  {
    forall j: nat :: j < k ==> HandleStands(t.table[j], args, env, Value(body, args, Result(j), k))
  }

  ghost predicate HandleStands(h: Handle, args: seq<int>, env: map<nat, int>, x: int) {
    match h case Plain(n) => n == x case Traced(v) => Eval(v, args, env) == Some(Num(x))
  }

  lemma OperandStands(body: Body, args: seq<int>, t: Trace, k: nat, env: map<nat, int>, o: Operand)
    requires Sensible(body, |args|) && k <= |body.ops| && |t.table| == k && Stands(body, args, t, k, env)
    requires OperandIn(o, |args|, k)
    ensures HandleStands(HandleOf(t, o), args, env, Value(body, args, o, k))
  {}

  // The instruction an operation emits computes the operation's value.
  lemma NodeComputes(op: Opcode, x: Handle, y: Handle, uid: nat, args: seq<int>, env: map<nat, int>, m: int, n: int,
                     mem: Memory)
    requires IsArith(op) && HandleStands(x, args, env, m) && HandleStands(y, args, env, n)
    ensures var node := NodeFor(op, x, y, uid);
      Effects(node.op, EvalAll(node.args, args, env), mem) == Assign(Arith(op, m, n))
  {
    hide Arith;
    var node := NodeFor(op, x, y, uid);
    var vals := EvalAll(node.args, args, env);
    assert vals[0] == Eval(node.args[0], args, env) && vals[1] == Eval(node.args[1], args, env);
  }

  lemma StandsStep(body: Body, args: seq<int>, t: Trace, k: nat, env: map<nat, int>)
    requires Sensible(body, |args|) && k < |body.ops| && TraceOk(t, |args|, k) && Stands(body, args, t, k, env)
    requires TraceStep(t, body.ops[k]).Some?
    ensures var t' := TraceStep(t, body.ops[k]).value; var x := Value(body, args, Result(k), k + 1);
      |t'.table| == k + 1 && if |t'.nodes| == |t.nodes| then Stands(body, args, t', k + 1, env) else
        |t'.nodes| == |t.nodes| + 1 && Stands(body, args, t', k + 1, env[|t.nodes| := x]) &&
        forall mem :: Effects(t'.nodes[|t.nodes|].op, EvalAll(t'.nodes[|t.nodes|].args, args, env), mem) == Assign(x)
  {
    var o := body.ops[k];
    var x, y, uid := HandleOf(t, o.left), HandleOf(t, o.right), |t.nodes|;
    var t', r := TraceStep(t, o).value, Value(body, args, Result(k), k + 1);
    OperandStands(body, args, t, k, env, o.left);
    OperandStands(body, args, t, k, env, o.right);
    assert r == Arith(o.op, Value(body, args, o.left, k), Value(body, args, o.right, k));
    forall mem ensures var n := NodeFor(o.op, x, y, uid); Effects(n.op, EvalAll(n.args, args, env), mem) == Assign(r) {
      NodeComputes(o.op, x, y, uid, args, env, Value(body, args, o.left, k), Value(body, args, o.right, k), mem);
    }
    hide Value, Arith, Effects, EvalAll, NodeFor;
  }

  // The first k operations' instructions have run, and env holds their values.
  ghost predicate Ran(body: Body, args: seq<int>, mem: Memory, k: nat, env: map<nat, int>)
    requires Sensible(body, |args|) && k <= |body.ops| && Compiled(body, |args|).Some?
  {
    TraceTo(body, k).Some? &&
    var t := TraceTo(body, k).value;
    TraceOk(t, |args|, k) && Stands(body, args, t, k, env) && t.nodes <= TraceTo(body, |body.ops|).value.nodes &&
    Run(Compiled(body, |args|).value, args, mem, |t.nodes|) == Running(0, |t.nodes|, env, mem)
  }

  lemma {:induction false} RunsTo(body: Body, args: seq<int>, mem: Memory, k: nat) returns (env: map<nat, int>)
    requires Sensible(body, |args|) && k <= |body.ops| && Compiled(body, |args|).Some?
    ensures Ran(body, args, mem, k, env)
  {
    TracesBefore(body, k);
    if k == 0 {
      env := map[];
      TraceIsOk(body, |args|, 0);
      NothingStands(body, args);
    } else {
      hide Ran, Compiled, TraceTo, Sensible;
      env := RunsTo(body, args, mem, k - 1);
      env := RunsOne(body, args, mem, k - 1, env);
    }
  }

  lemma RunsOne(body: Body, args: seq<int>, mem: Memory, k: nat, env: map<nat, int>) returns (env': map<nat, int>)
    requires Sensible(body, |args|) && k < |body.ops| && Compiled(body, |args|).Some? && Ran(body, args, mem, k, env)
    ensures Ran(body, args, mem, k + 1, env')
  {
    hide TraceOk, TraceStep, TraceTo, Stands, Step, EvalAll, Effects, Value;
    TracesBefore(body, k + 1);
    TraceIsOk(body, |args|, k + 1);
    TraceSteps(body, k);
    var p, t, t' := Compiled(body, |args|).value, TraceTo(body, k).value, TraceTo(body, k + 1).value;
    hide Sensible, Compiled;
    StandsStep(body, args, t, k, env);
    if |t'.nodes| == |t.nodes| {
      env' := env;
    } else {
      NodeUid(t', |args|, k + 1, |t.nodes|);
      StepRuns(body, args, p, t', |t.nodes|, env, mem);
      env' := env[|t.nodes| := Value(body, args, Result(k), k + 1)];
    }
  }

  lemma StepRuns(body: Body, args: seq<int>, p: Prog, t: Trace, i: nat, env: map<nat, int>, mem: Memory)
    requires Sensible(body, |args|) && Compiled(body, |args|) == Some(p) && i < |t.nodes| && t.nodes[i].uid == i
    requires t.nodes <= TraceTo(body, |body.ops|).value.nodes
    requires Run(p, args, mem, i) == Running(0, i, env, mem)
    requires Effects(t.nodes[i].op, EvalAll(t.nodes[i].args, args, env), mem).Assign?
    ensures Run(p, args, mem, i + 1) ==
      Running(0, i + 1, env[i := Effects(t.nodes[i].op, EvalAll(t.nodes[i].args, args, env), mem).v], mem)
  {
    hide TraceTo, Step, EvalAll, Effects;
    RunStep(p, args, mem, i);
    NodeRuns(body, args, p, t, i, env, mem);
  }

  lemma TraceSteps(body: Body, k: nat)
    requires k < |body.ops| && (forall j :: 0 <= j < |body.ops| ==> IsArith(body.ops[j].op))
    requires TraceTo(body, k).Some? && TraceTo(body, k + 1).Some?
    ensures TraceStep(TraceTo(body, k).value, body.ops[k]) == TraceTo(body, k + 1)
  {
    hide TraceStep;
  }

  lemma NodeUid(t: Trace, argCount: nat, k: nat, i: nat)
    requires TraceOk(t, argCount, k) && i < |t.nodes|
    ensures t.nodes[i].uid == i
  {
    assert NodeTraced(t.nodes, argCount, i);
  }

  // The instruction that follows a run, in the compiled function.
  lemma NodeRuns(body: Body, args: seq<int>, p: Prog, t: Trace, i: nat, env: map<nat, int>, mem: Memory)
    requires Sensible(body, |args|) && Compiled(body, |args|) == Some(p) && i < |t.nodes|
    requires t.nodes <= TraceTo(body, |body.ops|).value.nodes && t.nodes[i].uid == i
    requires Effects(t.nodes[i].op, EvalAll(t.nodes[i].args, args, env), mem).Assign?
    ensures Step(p, args, Running(0, i, env, mem)) ==
      Running(0, i + 1, env[i := Effects(t.nodes[i].op, EvalAll(t.nodes[i].args, args, env), mem).v], mem)
  {
    hide TraceTo, Effects, EvalAll;
    assert p[0].body[i] == t.nodes[i];
  }

  lemma NothingStands(body: Body, args: seq<int>)
    requires Sensible(body, |args|)
    ensures Stands(body, args, Trace([], []), 0, map[])
  {}

  // A trace that succeeds succeeded up to every operation.
  lemma {:induction false} TracesBefore(body: Body, k: nat)
    requires k <= |body.ops| && forall j :: 0 <= j < |body.ops| ==> IsArith(body.ops[j].op)
    requires TraceTo(body, |body.ops|).Some?
    ensures TraceTo(body, k).Some? && TraceTo(body, k).value.nodes <= TraceTo(body, |body.ops|).value.nodes
    decreases |body.ops| - k
  {
    if k < |body.ops| { TracesBefore(body, k + 1); }
  }

  // Main result: where the body's result is traced, the interpreter returns on the emitted
  // function what Python computes; where it is a plain number, the function returns nothing.
  lemma TracingIsFaithful(body: Body, args: seq<int>, mem: Memory)
    requires Sensible(body, |args|) && Compiled(body, |args|).Some?
    ensures var t := TraceTo(body, |body.ops|).value;
      Run(Compiled(body, |args|).value, args, mem, |t.nodes| + 1) ==
        Returned(
          if HandleOf(t, body.result).Traced? then Some(Value(body, args, body.result, |body.ops|)) else None, mem)
  {
    hide Value, TraceTo, Stands, HandleOf, Step, Run;
    var t := TraceTo(body, |body.ops|).value;
    var p := Compiled(body, |args|).value;
    var env := RunsTo(body, args, mem, |body.ops|);
    OperandStands(body, args, t, |body.ops|, env, body.result);
    RunStep(p, args, mem, |t.nodes|);
    ReturnRuns(t, body.result, args, env, mem, Value(body, args, body.result, |body.ops|));
  }

  lemma ReturnRuns(t: Trace, result: Operand, args: seq<int>, env: map<nat, int>, mem: Memory, x: int)
    requires HandleStands(HandleOf(t, result), args, env, x)
    ensures Step(FunctionOf(t, result), args, Running(0, |t.nodes|, env, mem)) ==
      Returned(if HandleOf(t, result).Traced? then Some(x) else None, mem)
  {
    var h, p := HandleOf(t, result), FunctionOf(t, result);
    var n := p[0].body[|t.nodes|];
    assert n == ReturnNode(h, |t.nodes|);
    if h.Traced? { assert EvalAll(n.args, args, env)[0] == Eval(h.v, args, env); }
  }

  // ----- which bodies are refused -----

  // Whether an operand depends on an argument.
  predicate Symbolic(body: Body, argCount: nat, o: Operand, k: nat)
    requires Sensible(body, argCount) && OperandIn(o, argCount, k) && k <= |body.ops|
    decreases k, o
  {
    match o
    case Param(_) => true
    case Literal(_) => false
    case Result(j) => Symbolic(body, argCount, body.ops[j].left, j) || Symbolic(body, argCount, body.ops[j].right, j)
  }

  // A number minus something that depends on an argument.
  predicate RefusedAt(body: Body, argCount: nat, j: nat)
    requires Sensible(body, argCount) && j < |body.ops|
  {
    body.ops[j].op == SUB &&
    !Symbolic(body, argCount, body.ops[j].left, j) && Symbolic(body, argCount, body.ops[j].right, j)
  }

  ghost predicate TableAgrees(body: Body, argCount: nat, t: Trace, k: nat)
    requires Sensible(body, argCount) && k <= |body.ops|
  {
    |t.table| == k && forall j: nat :: j < k ==> (t.table[j].Traced? <==> Symbolic(body, argCount, Result(j), k))
  }

  lemma HandleAgrees(body: Body, argCount: nat, t: Trace, k: nat, o: Operand)
    requires Sensible(body, argCount) && k <= |body.ops| && TableAgrees(body, argCount, t, k) &&
      OperandIn(o, argCount, k)
    ensures HandleOf(t, o).Traced? <==> Symbolic(body, argCount, o, k)
  {}

  lemma AgreesStep(body: Body, argCount: nat, t: Trace, k: nat)
    requires Sensible(body, argCount) && k < |body.ops| && TableAgrees(body, argCount, t, k)
    ensures TraceStep(t, body.ops[k]).None? <==> RefusedAt(body, argCount, k)
    ensures TraceStep(t, body.ops[k]).Some? ==> TableAgrees(body, argCount, TraceStep(t, body.ops[k]).value, k + 1)
  {
    HandleAgrees(body, argCount, t, k, body.ops[k].left);
    HandleAgrees(body, argCount, t, k, body.ops[k].right);
    assert Symbolic(body, argCount, Result(k), k + 1) <==>
      Symbolic(body, argCount, body.ops[k].left, k) || Symbolic(body, argCount, body.ops[k].right, k);
    hide HandleOf, NodeFor;
  }

  lemma {:induction false} AgreesTo(body: Body, argCount: nat, k: nat)
    requires Sensible(body, argCount) && k <= |body.ops|
    ensures TraceTo(body, k).Some? <==> forall j: nat :: j < k ==> !RefusedAt(body, argCount, j)
    ensures TraceTo(body, k).Some? ==> TableAgrees(body, argCount, TraceTo(body, k).value, k)
  {
    hide RefusedAt, TraceStep;
    if k > 0 {
      AgreesTo(body, argCount, k - 1);
      hide TableAgrees;
      if TraceTo(body, k - 1).Some? { AgreesStep(body, argCount, TraceTo(body, k - 1).value, k - 1); }
    }
  }

  // Main result: a body compiles exactly when it never subtracts something that depends on
  // an argument from something that does not; the compiled function then returns the body's
  // value exactly when the result depends on an argument.
  lemma CompilesExactly(body: Body, args: seq<int>, mem: Memory)
    requires Sensible(body, |args|)
    ensures Compiled(body, |args|).Some? <==> forall j: nat :: j < |body.ops| ==> !RefusedAt(body, |args|, j)
    ensures Compiled(body, |args|).Some? ==> exists n ::
      Run(Compiled(body, |args|).value, args, mem, n) == Returned(
        if Symbolic(body, |args|, body.result, |body.ops|)
        then Some(Value(body, args, body.result, |body.ops|)) else None, mem)
  {
    AgreesTo(body, |args|, |body.ops|);
    hide Run, Value, Symbolic, RefusedAt, TraceTo;
    if Compiled(body, |args|).Some? {
      TracingIsFaithful(body, args, mem);
      HandleAgrees(body, |args|, TraceTo(body, |body.ops|).value, |body.ops|, body.result);
    }
  }
}
