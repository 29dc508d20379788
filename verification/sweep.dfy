// Constant folding, strength reduction and common subexpression elimination are the same
// forward sweep: visit the instructions in layout order, and either drop one and record a
// replacement value for it, or keep it with the replacements so far put into its operands.

module Sweep {
  import opened Options
  import opened Ir
  import opened Interp
  import opened Rewrite

  datatype Kind = FOLD | REDUCE | CSE

  // The key under which two instructions count as the same computation.
  datatype Key = Key(op: Opcode, ty: Type, args: seq<Value>)

  // Replacements for dropped instructions, and the first instruction computing each key.
  datatype State = State(sub: map<nat, Value>, seen: map<Key, Value>)

  const EMPTY := State(map[], map[])

  function KeyOfValue(v: Value): Value {
    match v
    case Const(ty, lit, _) => Const(ty, lit, Written(0))
    case Arg(k) => v
    case Ref(u, _) => Ref(u, VOID)
  }

  function KeyOf(op: Opcode, ty: Type, args: seq<Value>): Key {
    Key(op, ty, seq(|args|, k requires 0 <= k < |args| => KeyOfValue(args[k])))
  }

  predicate IsNumber(v: Value) { v.Const? && v.lit.Num? }

  predicate IsNumberConst(v: Value, n: int) { IsNumber(v) && v.lit.n == n }

  function TryFold(n: Node, a: Value, b: Value): Option<Value> {
    if IsArith(n.op) && IsNumber(a) && IsNumber(b)
    then Some(Const(n.ty, Num(Arith(n.op, a.lit.n, b.lit.n)), Folded(n.uid, 0)))
    else None
  }

  // `a == b` on values is object identity: constants carry their tag.
  function TryReduce(n: Node, a: Value, b: Value): Option<Value> {
    var zero := Const(n.ty, Num(0), Reduced(n.uid));
    match n.op
    case MUL =>
      if IsNumberConst(b, 0) || IsNumberConst(a, 0) then Some(zero)
      else if IsNumberConst(b, 1) then Some(a)
      else if IsNumberConst(a, 1) then Some(b)
      else None
    case ADD =>
      if IsNumberConst(b, 0) then Some(a) else if IsNumberConst(a, 0) then Some(b) else None
    case SUB =>
      if IsNumberConst(b, 0) then Some(a) else if a == b then Some(zero) else None
    case _ => None
  }

  predicate Shareable(n: Node) { IsArith(n.op) && n.ty != VOID }

  // The value that takes the instruction's place, if the pass drops it; args are its
  // operands with the replacements so far put in.
  function Decide(kind: Kind, n: Node, args: seq<Value>, seen: map<Key, Value>): Option<Value> {
    match kind
    case FOLD => if |args| == 2 then TryFold(n, args[0], args[1]) else None
    case REDUCE => if |args| == 2 then TryReduce(n, args[0], args[1]) else None
    case CSE =>
      if Shareable(n) && KeyOf(n.op, n.ty, args) in seen then Some(seen[KeyOf(n.op, n.ty, args)]) else None
  }

  function EditOf(kind: Kind, s: State): Edit { Edit(kind == FOLD, s.sub.Keys, s.sub) }

  function Operands(kind: Kind, n: Node, s: State): seq<Value> { ResolveAll(n, EditOf(kind, s)) }

  function Decision(kind: Kind, n: Node, s: State): Option<Value> {
    Decide(kind, n, Operands(kind, n, s), s.seen)
  }

  // The state after visiting n.
  function Visit(kind: Kind, n: Node, s: State): State {
    match Decision(kind, n, s)
    case Some(v) => s.(sub := s.sub[n.uid := v])
    case None =>
      if kind == CSE && Shareable(n)
      then s.(seen := s.seen[KeyOf(n.op, n.ty, Operands(kind, n, s)) := Ref(n.uid, n.ty)])
      else s
  }

  // What visiting n appends to the block under construction.
  function Output(kind: Kind, n: Node, s: State): seq<Node> {
    if Decision(kind, n, s).Some? then [] else [n.(args := Operands(kind, n, s))]
  }

  // The state when the sweep reaches position (b, i), and block b's output by then.
  function StateAt(kind: Kind, p: Prog, b: nat, i: nat): State
    requires b <= |p| && i <= (if b < |p| then |p[b].body| else 0)
    decreases b, i
  {
    if i > 0 then Visit(kind, p[b].body[i - 1], StateAt(kind, p, b, i - 1))
    else if b > 0 then StateAt(kind, p, b - 1, |p[b - 1].body|)
    else EMPTY
  }

  function OutputTo(kind: Kind, p: Prog, b: nat, i: nat): seq<Node>
    requires b < |p| && i <= |p[b].body|
  {
    if i == 0 then []
    else OutputTo(kind, p, b, i - 1) + Output(kind, p[b].body[i - 1], StateAt(kind, p, b, i - 1))
  }

  function FinalState(kind: Kind, p: Prog): State { StateAt(kind, p, |p|, 0) }

  // The pass.
  function SweepProg(kind: Kind, p: Prog): (q: Prog)
    ensures |q| == |p|
    ensures forall b :: 0 <= b < |p| ==> q[b] == Block(p[b].name, OutputTo(kind, p, b, |p[b].body|))
  {
    seq(|p|, b requires 0 <= b < |p| => Block(p[b].name, OutputTo(kind, p, b, |p[b].body|)))
  }
}
