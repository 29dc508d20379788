// The tracing JIT as objects: the builder appends instructions to a function's block, and a
// jitted function switches from Python to its compiled form.

module JitObjects {
  import opened Options
  import opened Sequences
  import opened Ir
  import opened IrObjects
  import opened Interp
  import opened Cfg
  import opened Refinement
  import opened Pipeline
  import opened PipelineObjects
  import T = Tracing

  ghost predicate NewUid(p: Prog, uid: nat) { forall b, i :: At(p, b, i) ==> p[b].body[i].uid != uid }

  function Appended(p: Prog, b: nat, n: Node): Prog
    requires b < |p|
  {
    p[b := Block(p[b].name, p[b].body + [n])]
  }

  // `_emit` and `add_instruction`: a new instruction object, numbered, at the block's end.
  method Emit(f: Function, b: nat, uid: nat, op: Opcode, ty: Type, args: seq<Value>)
    requires f.Valid() && b < |f.blocks| && NewUid(f.prog, uid)
    modifies f, f.blocks[b]
    ensures f.Valid() && f.prog == Appended(old(f.prog), b, Node(uid, op, ty, args))
    ensures f.blocks == old(f.blocks) && fresh(f.Repr - old(f.Repr)) && old(f.Repr) <= f.Repr
    ensures var xs := f.blocks[b].instructions;
      xs != [] && xs == old(f.blocks[b].instructions) + [Last(xs)] && fresh(Last(xs)) &&
      Last(xs).id == old(f.nextInstId)
    ensures f.nextInstId == old(f.nextInstId) + 1
  {
    ghost var n := Node(uid, op, ty, args);
    ghost var p := f.prog;
    var inst := new Instruction(uid, op, ty, args);
    inst.id := f.nextInstId;
    f.nextInstId := f.nextInstId + 1;
    var block := f.blocks[b];
    forall c | 0 <= c < |f.blocks| ensures f.blocks[c].Mirrors(p[c]) { assert old(f.blocks[c].Mirrors(p[c])); }
    block.instructions := block.instructions + [inst];
    f.Repr := f.Repr + {inst};
    f.prog := Appended(p, b, n);
    assert Distinct(f.prog) by { AppendedDistinct(p, b, n); }
    forall c | 0 <= c < |f.blocks| ensures f.blocks[c].Mirrors(f.prog[c]) {
      assert old(f.blocks[c].Mirrors(p[c]));
      assert c != b ==> f.blocks[c] != block;
    }
  }

  lemma AppendedDistinct(p: Prog, b: nat, n: Node)
    requires Distinct(p) && b < |p| && NewUid(p, n.uid)
    ensures Distinct(Appended(p, b, n))
  {
    var q := Appended(p, b, n);
    forall c, i | At(q, c, i)
      ensures (At(p, c, i) && q[c].body[i] == p[c].body[i]) || (c == b && i == |p[b].body| && q[c].body[i] == n)
    {}
  }

  // One operation on handles: `__add__` and its relatives.
  method TraceOperation(f: Function, o: T.Operation, table: seq<T.Handle>, ghost t: T.Trace)
      returns (h: Option<T.Handle>)
    requires f.Valid() && IsArith(o.op) && t.table == table && f.prog == [Block("entry", t.nodes)]
    requires NewUid(f.prog, |t.nodes|) && |f.blocks| == 1
    modifies f, f.blocks[0]
    ensures f.Valid() && f.blocks == old(f.blocks) && fresh(f.Repr - old(f.Repr)) && old(f.Repr) <= f.Repr
    ensures h.None? <==> T.TraceStep(t, o).None?
    ensures h.Some? ==>
      T.TraceStep(t, o) == Some(T.Trace(table + [h.value], f.prog[0].body)) && f.prog[0].name == "entry"
  {
    var x, y := HandleOf(table, o.left), HandleOf(table, o.right);
    if x.Plain? && y.Plain? { return Some(T.Plain(Arith(o.op, x.n, y.n))); }
    if o.op == SUB && x.Plain? { return None; }
    assert f.blocks[0].Mirrors(f.prog[0]);
    var uid := |f.blocks[0].instructions|;
    var a, b := T.Operand32(x, 2 * uid), T.Operand32(y, 2 * uid + 1);
    Emit(f, 0, uid, o.op, T.TypeOf(a), [a, b]);
    h := Some(T.Traced(Ref(uid, T.TypeOf(a))));
  }

  function HandleOf(table: seq<T.Handle>, o: T.Operand): (h: T.Handle)
    ensures forall nodes :: T.HandleOf(T.Trace(table, nodes), o) == h
  {
    assert forall nodes :: T.HandleOf(T.Trace(table, nodes), o) == T.HandleOf(T.Trace(table, []), o);
    T.HandleOf(T.Trace(table, []), o)
  }

  // `_compile_scalar`: run the body on traced arguments, then return its result.
  method CompileScalar(body: T.Body, argCount: nat) returns (r: Option<Function>)
    requires T.Sensible(body, argCount)
    ensures r.None? <==> T.Compiled(body, argCount).None?
    ensures r.Some? ==> fresh(r.value) && fresh(r.value.Repr) && r.value.Valid() && r.value.argCount == argCount
    ensures r.Some? ==> T.Compiled(body, argCount) == Some(r.value.prog)
  {
    hide T.TraceTo, T.TraceStep, T.FunctionOf, NewUid, HandleOf, T.OperandIn;
    NothingYet(body);
    var f := new Function(argCount);
    var entry := f.CreateBlock("entry");
    var table: seq<T.Handle> := [];
    ghost var nodes: seq<Node> := [];
    for k := 0 to |body.ops|
      invariant fresh(f) && fresh(f.Repr) && f.Valid() && f.blocks == [entry] && entry in f.Repr
      invariant f.prog == [Block("entry", nodes)] && T.TraceTo(body, k) == Some(T.Trace(table, nodes))
    {
      FreshNode(body, argCount, k);
      StopsHere(body, k);
      var h := TraceOperation(f, body.ops[k], table, T.Trace(table, nodes));
      if h.None? { return None; }
      table := table + [h.value];
      nodes := f.prog[0].body;
    }
    FreshNode(body, argCount, |body.ops|);
    EmitReturn(f, body.result, table, T.Trace(table, nodes));
    r := Some(f);
  }

  method EmitReturn(f: Function, result: T.Operand, table: seq<T.Handle>, ghost t: T.Trace)
    requires f.Valid() && t.table == table && f.prog == [Block("entry", t.nodes)] && |f.blocks| == 1
    requires NewUid(f.prog, |t.nodes|)
    modifies f, f.blocks[0]
    ensures f.Valid() && fresh(f.Repr - old(f.Repr)) && f.prog == T.FunctionOf(t, result)
  {
    assert f.blocks[0].Mirrors(f.prog[0]);
    var h := HandleOf(table, result);
    Emit(f, 0, |f.blocks[0].instructions|, RET, VOID, match h case Traced(v) => [v] case Plain(_) => []);
  }

  lemma NothingYet(body: T.Body)
    requires forall j :: 0 <= j < |body.ops| ==> IsArith(body.ops[j].op)
    ensures T.TraceTo(body, 0) == Some(T.Trace([], []))
  {}

  lemma FreshNode(body: T.Body, argCount: nat, k: nat)
    requires T.Sensible(body, argCount) && k <= |body.ops| && T.TraceTo(body, k).Some?
    ensures var nodes := T.TraceTo(body, k).value.nodes; NewUid([Block("entry", nodes)], |nodes|)
  {
    T.TraceIsOk(body, argCount, k);
    var nodes := T.TraceTo(body, k).value.nodes;
    hide T.TraceTo;
    forall i: nat | i < |nodes| ensures nodes[i].uid == i { assert T.NodeTraced(nodes, argCount, i); }
  }

  // A trace that fails at an operation fails for good.
  lemma StopsHere(body: T.Body, k: nat)
    requires k < |body.ops| && forall j :: 0 <= j < |body.ops| ==> IsArith(body.ops[j].op)
    requires T.TraceTo(body, k).Some?
    ensures T.TraceTo(body, k + 1) == T.TraceStep(T.TraceTo(body, k).value, body.ops[k])
    ensures T.TraceTo(body, k + 1).None? ==> T.TraceTo(body, |body.ops|).None?
  {
    if T.TraceTo(body, |body.ops|).Some? { T.TracesBefore(body, k + 1); }
  }

  // The traced function, after the default passes.
  ghost predicate CompiledForm(f: Function, body: T.Body, argCount: nat)
    requires T.Sensible(body, argCount)
    reads f, f.Repr
  {
    f.Valid() && T.Compiled(body, argCount).Some? && f.prog == RunDefaultPasses(T.Compiled(body, argCount).value)
  }

  // The runtime's `compile`: the traced function, after the default passes.
  method CompileOptimized(body: T.Body, argCount: nat) returns (r: Option<Function>)
    requires T.Sensible(body, argCount)
    ensures r.None? <==> T.Compiled(body, argCount).None?
    ensures r.Some? ==> fresh(r.value) && fresh(r.value.Repr) && CompiledForm(r.value, body, argCount)
  {
    hide T.Compiled, RunDefaultPasses;
    r := CompileScalar(body, argCount);
    if r.Some? { RunDefault(r.value); }
  }

  // A jitted function: Python until it has been called `threshold` times, then its compiled
  // form, when there is one.
  class JitFunction {
    const body: T.Body
    const argCount: nat
    const threshold: nat
    var callCount: nat
    var compiled: Option<Function>

    ghost predicate Valid()
      reads this, if compiled.Some? then {compiled.value} + compiled.value.Repr else {}
    {
      T.Sensible(body, argCount) &&
      (compiled.Some? ==> this !in compiled.value.Repr && CompiledForm(compiled.value, body, argCount))
    }

    constructor (body: T.Body, argCount: nat, eager: bool)
      requires T.Sensible(body, argCount)
      ensures Valid() && compiled.None? && callCount == 0
      ensures this.body == body && this.argCount == argCount && threshold == if eager then 1 else 3
    {
      this.body, this.argCount, threshold := body, argCount, if eager then 1 else 3;
      callCount, compiled := 0, None;
    }

    // The result is Python's own, unless a compiled body's result depends on no argument.
    method Call(args: seq<int>) returns (r: Option<int>)
      requires Valid() && |args| == argCount
      modifies `callCount, `compiled
      ensures Valid() && callCount == old(callCount) + 1
      ensures compiled.Some? <==>
        old(compiled.Some?) || (callCount >= threshold && T.Compiled(body, argCount).Some?)
      ensures r == if compiled.Some? && !T.Symbolic(body, argCount, body.result, |body.ops|) then None
        else Some(T.Value(body, args, body.result, |body.ops|))
    {
      hide CompiledForm, RunDefaultPasses, T.Symbolic, T.Value, T.Compiled, T.OperandIn;
      callCount := callCount + 1;
      if compiled.None? && callCount >= threshold {
        compiled := CompileOptimized(body, argCount);
      }
      if compiled.None? { return Some(T.Value(body, args, body.result, |body.ops|)); }
      r := RunCompiled(compiled.value, body, args);
    }
  }

  // A compiled body's result: nothing, when it depends on no argument.
  function Result(body: T.Body, args: seq<int>): Option<int>
    requires T.Sensible(body, |args|)
  {
    if T.Symbolic(body, |args|, body.result, |body.ops|)
    then Some(T.Value(body, args, body.result, |body.ops|)) else None
  }

  // The interpreter on the optimized function; no run is longer than the body.
  method RunCompiled(f: Function, body: T.Body, args: seq<int>) returns (r: Option<int>)
    requires T.Sensible(body, |args|) && CompiledForm(f, body, |args|)
    ensures r == Result(body, args)
  {
    OptimizedReturns(body, args, map[]);
    hide Result, T.Compiled, RunDefaultPasses, Run;
    var c := Interpret(f, args, map[], |body.ops| + 1);
    r := c.value;
  }

  lemma {:induction false} NoMoreNodes(body: T.Body, k: nat)
    requires k <= |body.ops| && (forall j :: 0 <= j < |body.ops| ==> IsArith(body.ops[j].op)) &&
      T.TraceTo(body, k).Some?
    ensures |T.TraceTo(body, k).value.nodes| <= k
  {
    if k > 0 { NoMoreNodes(body, k - 1); }
  }

  // The traced function returns what Python computes, or nothing, within |ops| + 1 turns.
  lemma TracedReturns(body: T.Body, args: seq<int>, mem: Memory) returns (n: nat)
    requires T.Sensible(body, |args|) && T.Compiled(body, |args|).Some?
    ensures n <= |body.ops| + 1
    ensures Run(T.Compiled(body, |args|).value, args, mem, n) == Returned(Result(body, args), mem)
  {
    hide T.Symbolic, T.Value, T.TraceTo, T.HandleOf, Run;
    var t := T.TraceTo(body, |body.ops|).value;
    NoMoreNodes(body, |body.ops|);
    T.AgreesTo(body, |args|, |body.ops|);
    T.HandleAgrees(body, |args|, t, |body.ops|, body.result);
    T.TracingIsFaithful(body, args, mem);
    n := |t.nodes| + 1;
  }

  // After the passes it still does.
  lemma OptimizedReturns(body: T.Body, args: seq<int>, mem: Memory)
    requires T.Sensible(body, |args|) && T.Compiled(body, |args|).Some?
    ensures Run(RunDefaultPasses(T.Compiled(body, |args|).value), args, mem, |body.ops| + 1) ==
      Returned(Result(body, args), mem)
  {
    hide *;
    var p := T.Compiled(body, |args|).value;
    var n := TracedReturns(body, args, mem);
    T.TracedWellFormed(body, |args|);
    SingleBlockSharesSafely(DEFAULT_PASSES, p, DEFAULT_ITERATIONS);
    DefaultPreserves(p);
    EndsWithin(p, RunDefaultPasses(p), args, mem, n, |body.ops| + 1);
  }

  lemma EndsWithin(p: Prog, q: Prog, args: seq<int>, mem: Memory, n: nat, turns: nat)
    requires SameMeaning(p, q) && Run(p, args, mem, n).Returned? && n <= turns
    ensures Run(q, args, mem, turns) == Run(p, args, mem, n)
  {
    hide Run, NarrowRun;
    var m: nat :| EndsAlike(p, q, args, mem, n, m);
    HaltedStays(q, args, mem, m, turns);
  }
}
