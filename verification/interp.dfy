// The reference interpreter: what a function of the IR means.

module Interp {
  import opened Options
  import opened Ir

  // The Python lists that LOAD and STORE index, by handle.
  type Memory = map<int, seq<int>>

  datatype Config =
    | Running(b: nat, i: nat, env: map<nat, int>, mem: Memory)
    | Returned(value: Option<int>, out: Memory)
    | Fault

  // What one instruction does once its operands are resolved.
  datatype Effect =
    | Assign(v: int)
    | Write(m: Memory)
    | Goto(name: string)
    | Return(r: Option<int>)
    | Bad

  function Eval(v: Value, args: seq<int>, env: map<nat, int>): Option<Literal> {
    match v
    case Const(_, lit, _) => Some(lit)
    case Arg(k) => if k < |args| then Some(Num(args[k])) else None
    case Ref(u, _) => if u in env then Some(Num(env[u])) else None
  }

  function EvalAll(vs: seq<Value>, args: seq<int>, env: map<nat, int>): (r: seq<Option<Literal>>)
    ensures |r| == |vs|
    ensures forall k :: 0 <= k < |vs| ==> r[k] == Eval(vs[k], args, env)
  {
    seq(|vs|, k requires 0 <= k < |vs| => Eval(vs[k], args, env))
  }

  predicate IsNum(v: Option<Literal>) { v.Some? && v.value.Num? }

  function Arith(op: Opcode, x: int, y: int): int
    requires IsArith(op)
  {
    match op
    case ADD => x + y
    case SUB => x - y
    case MUL => x * y
  }

  predicate Compare(cond: string, x: int, y: int)
    requires Condition(cond)
  {
    if cond == "lt" then x < y
    else if cond == "le" then x <= y
    else if cond == "gt" then x > y
    else if cond == "ge" then x >= y
    else if cond == "eq" then x == y
    else x != y
  }

  // Python's list index: a negative index counts from the end.
  function Index(len: nat, k: int): (r: Option<nat>)
    ensures r.Some? <==> 0 <= len + k && k < len
    ensures r.Some? ==> r.value < len && (r.value == k || (k < 0 && r.value - len == k))
  {
    if 0 <= k < len then Some(k) else if 0 <= len + k < len then Some(len + k) else None
  }

  function Effects(op: Opcode, vals: seq<Option<Literal>>, mem: Memory): Effect {
    match op
    case ADD | SUB | MUL =>
      if |vals| >= 2 && IsNum(vals[0]) && IsNum(vals[1])
      then Assign(Arith(op, vals[0].value.n, vals[1].value.n)) else Bad
    case CMP =>
      if |vals| >= 3 && vals[0].Some? && vals[0].value.Text? && Condition(vals[0].value.s) &&
         IsNum(vals[1]) && IsNum(vals[2])
      then Assign(if Compare(vals[0].value.s, vals[1].value.n, vals[2].value.n) then 1 else 0) else Bad
    case LOAD =>
      if |vals| >= 2 && IsNum(vals[0]) && IsNum(vals[1]) && vals[0].value.n in mem &&
         Index(|mem[vals[0].value.n]|, vals[1].value.n).Some?
      then var l := mem[vals[0].value.n]; Assign(l[Index(|l|, vals[1].value.n).value]) else Bad
    case STORE =>
      if |vals| >= 3 && IsNum(vals[0]) && IsNum(vals[1]) && IsNum(vals[2]) && vals[1].value.n in mem &&
         Index(|mem[vals[1].value.n]|, vals[2].value.n).Some?
      then var h := vals[1].value.n; var l := mem[h];
        Write(mem[h := l[Index(|l|, vals[2].value.n).value := vals[0].value.n]]) else Bad
    case BR =>
      if |vals| >= 3 && IsNum(vals[0]) && vals[1].Some? && vals[1].value.Text? && vals[2].Some? && vals[2].value.Text?
      then Goto(if vals[0].value.n != 0 then vals[1].value.s else vals[2].value.s) else Bad
    case JMP => if |vals| >= 1 && vals[0].Some? && vals[0].value.Text? then Goto(vals[0].value.s) else Bad
    case RET => if |vals| == 0 then Return(None) else if IsNum(vals[0]) then Return(Some(vals[0].value.n)) else Bad
  }

  lemma EffectKinds(op: Opcode, vals: seq<Option<Literal>>, mem: Memory)
    ensures Effects(op, vals, mem).Assign? ==> HasValue(op)
    ensures Effects(op, vals, mem).Write? ==> op == STORE
    ensures Effects(op, vals, mem).Goto? || Effects(op, vals, mem).Return? ==> IsTerminator(op)
  {}

  function Apply(p: Prog, n: Node, e: Effect, b: nat, i: nat, env: map<nat, int>, mem: Memory): Config {
    match e
    case Assign(v) => Running(b, i + 1, env[n.uid := v], mem)
    case Write(m) => Running(b, i + 1, env, m)
    case Goto(name) =>
      (match Target(p, name)
       case Some(c) => Running(c, 0, env, mem)
       case None => Fault)
    case Return(r) => Returned(r, mem)
    case Bad => Fault
  }

  // One turn of the interpreter's loop. A block that runs off its end starts over.
  function Step(p: Prog, args: seq<int>, c: Config): Config {
    match c
    case Running(b, i, env, mem) =>
      if b >= |p| then Fault
      else if i >= |p[b].body| then Running(b, 0, env, mem)
      else var n := p[b].body[i]; Apply(p, n, Effects(n.op, EvalAll(n.args, args, env), mem), b, i, env, mem)
    case _ => c
  }

  function Start(mem: Memory): Config { Running(0, 0, map[], mem) }

  function Run(p: Prog, args: seq<int>, mem: Memory, n: nat): Config {
    if n == 0 then Start(mem) else Step(p, args, Run(p, args, mem, n - 1))
  }

  lemma RunStep(p: Prog, args: seq<int>, mem: Memory, n: nat)
    ensures Run(p, args, mem, n + 1) == Step(p, args, Run(p, args, mem, n))
    ensures Run(p, args, mem, 0) == Start(mem)
  {}

  lemma {:induction false} HaltedStays(p: Prog, args: seq<int>, mem: Memory, n: nat, m: nat)
    requires n <= m && !Run(p, args, mem, n).Running?
    ensures Run(p, args, mem, m) == Run(p, args, mem, n)
  {
    if n < m { HaltedStays(p, args, mem, n, m - 1); }
  }
}
