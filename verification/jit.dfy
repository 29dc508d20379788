// From a Python body to the bytes of its compiled form.

module Jit {
  import opened Options
  import opened Ir
  import opened Interp
  import opened Pipeline
  import C = Cfg
  import T = Tracing
  import N = Native
  import A = Assembler
  import M = Machine
  import S = Simulation
  import E = EndToEnd

  // Main result: tracing, the five passes, the code generator, the assembler and the
  // processor together compute what Python computes, modulo 2^64, on all arguments.
  lemma JittedCodeAgrees(body: T.Body, k: N.Call, mem: Memory) returns (m: nat)
    requires T.Sensible(body, |k.args|) && T.Compiled(body, |k.args|).Some?
    requires T.Symbolic(body, |k.args|, body.result, |body.ops|)
    requires E.ReadyToCall(k, RunDefaultPasses(T.Compiled(body, |k.args|).value)) && A.Assembles(N.Items(k))
    ensures S.Returns(k, M.RunCode(A.Link(N.Items(k)), M.Live(0, k.start), m),
      Some(T.Value(body, k.args, body.result, |body.ops|)))
  {
    hide Run, RunDefaultPasses, T.Compiled, T.Value, T.Symbolic, T.RefusedAt, N.NativeReady, C.WellFormed;
    hide E.ReadyToCall, A.Assembles, A.Link, S.Returns, M.RunCode, N.Items;
    var p := T.Compiled(body, |k.args|).value;
    T.TracedWellFormed(body, |k.args|);
    T.CompilesExactly(body, k.args, mem);
    var n :| Run(p, k.args, mem, n) == Returned(Some(T.Value(body, k.args, body.result, |body.ops|)), mem);
    BranchFree(p);
    m := E.SingleBlockAgrees(p, k, mem, n);
  }

  lemma BranchFree(p: Prog)
    requires forall b, i :: At(p, b, i) ==> p[b].body[i].op != BR
    ensures E.NoBranch(p)
  {}
}
