// The SSA intermediate representation as values: what the passes rewrite,
// what the interpreter runs and what the code generator compiles.

module Options {
  datatype Option<+T> = None | Some(value: T)
}

module Ir {
  import opened Options

  datatype Type = I32 | I64 | F32 | F64 | PTR | VOID

  datatype Opcode = ADD | SUB | MUL | LOAD | STORE | CMP | JMP | BR | RET

  // A Python constant holds a number, or the text of a label or of a comparison.
  datatype Literal = Num(n: int) | Text(s: string)

  // Which Constant object this is. Two operands that hold equal constants are one
  // object only when their tags agree; strength reduction tests that (`a is b`).
  datatype Tag =
    | Written(k: nat)               // built by the front end
    | Reduced(reduced: nat)         // built when instruction `reduced` was reduced to zero
    | Folded(user: nat, pos: nat)   // built for operand `pos` of instruction `user`

  // An operand. An instruction operand is named by the identity of its object.
  datatype Value =
    | Const(ty: Type, lit: Literal, tag: Tag)
    | Arg(index: nat)
    | Ref(uid: nat, rty: Type)

  datatype Node = Node(uid: nat, op: Opcode, ty: Type, args: seq<Value>)

  datatype Block = Block(name: string, body: seq<Node>)

  type Prog = seq<Block>

  predicate IsArith(op: Opcode) { op == ADD || op == SUB || op == MUL }

  // Opcodes whose instruction leaves a value in the environment.
  predicate HasValue(op: Opcode) { IsArith(op) || op == LOAD || op == CMP }

  predicate IsTerminator(op: Opcode) { op == JMP || op == BR || op == RET }

  predicate IsText(v: Value) { v.Const? && v.lit.Text? }

  // How many instructions the first b blocks hold, and the whole function.
  function CountTo(p: Prog, b: nat): nat
    requires b <= |p|
  {
    if b == 0 then 0 else CountTo(p, b - 1) + |p[b - 1].body|
  }

  function Count(p: Prog): nat { CountTo(p, |p|) }

  // ----- program positions: instruction i of block b -----

  predicate At(p: Prog, b: int, i: int) { 0 <= b < |p| && 0 <= i < |p[b].body| }

  predicate Before(c: int, j: int, b: int, i: int) { c < b || (c == b && j < i) }

  // Each instruction object occurs once.
  ghost predicate Distinct(p: Prog) {
    forall b, i, c, j :: At(p, b, i) && At(p, c, j) && p[b].body[i].uid == p[c].body[j].uid ==> b == c && i == j
  }

  // ----- what the builder's methods guarantee about one instruction -----

  predicate Condition(s: string) { s in {"lt", "le", "gt", "ge", "eq", "ne"} }

  predicate Shape(n: Node) {
    (n.ty != VOID <==> HasValue(n.op)) &&
    match n.op
    case ADD | SUB | MUL | LOAD => |n.args| == 2 && !IsText(n.args[0]) && !IsText(n.args[1])
    case STORE => |n.args| == 3 && !IsText(n.args[0]) && !IsText(n.args[1]) && !IsText(n.args[2])
    case CMP =>
      |n.args| == 3 && IsText(n.args[0]) && Condition(n.args[0].lit.s) && !IsText(n.args[1]) && !IsText(n.args[2])
    case BR => |n.args| == 3 && !IsText(n.args[0]) && IsText(n.args[1]) && IsText(n.args[2])
    case JMP => |n.args| == 1 && IsText(n.args[0])
    case RET => |n.args| <= 1 && (|n.args| == 1 ==> !IsText(n.args[0]))
  }

  // Every block ends in its only terminator.
  ghost predicate BlockShape(blk: Block) {
    |blk.body| > 0 &&
    (forall i :: 0 <= i < |blk.body| ==>
      Shape(blk.body[i]) && (IsTerminator(blk.body[i].op) <==> i == |blk.body| - 1))
  }

  // ----- labels: the last block with a label owns it -----

  function Lookup(p: Prog, name: string, k: nat): (r: Option<nat>)
    requires k <= |p|
    ensures r.Some? ==> r.value < k && p[r.value].name == name && forall c :: r.value < c < k ==> p[c].name != name
    ensures r.None? ==> forall c :: 0 <= c < k ==> p[c].name != name
  {
    if k == 0 then None
    else if p[k - 1].name == name then Some(k - 1)
    else Lookup(p, name, k - 1)
  }

  function Target(p: Prog, name: string): Option<nat> { Lookup(p, name, |p|) }

  lemma {:induction false} LookupSameLabels(p: Prog, q: Prog, name: string, k: nat)
    requires |p| == |q| && k <= |p|
    requires forall b :: 0 <= b < |p| ==> p[b].name == q[b].name
    ensures Lookup(p, name, k) == Lookup(q, name, k)
  {
    if k > 0 { LookupSameLabels(p, q, name, k - 1); }
  }
}
