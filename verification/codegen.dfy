// The x86-64 code generator: a stack slot for every argument and value, and a fixed
// sequence of instructions for each IR instruction.

module Codegen {
  import opened Options
  import opened Ir
  import opened X86
  import opened Assembler

  // ----- the frame -----

  // Value instructions standing before position (b, i).
  function SlotsBefore(p: Prog, b: nat, i: nat): nat
    requires b <= |p| && i <= (if b < |p| then |p[b].body| else 0)
    decreases b, i
  {
    if i > 0 then SlotsBefore(p, b, i - 1) + (if p[b].body[i - 1].ty != VOID then 1 else 0)
    else if b > 0 then SlotsBefore(p, b - 1, |p[b - 1].body|)
    else 0
  }

  // The next free offset below the frame pointer. Arguments come first.
  function OffsetAt(p: Prog, argCount: nat, b: nat, i: nat): nat
    requires b <= |p| && i <= (if b < |p| then |p[b].body| else 0)
  {
    8 + 8 * argCount + 8 * SlotsBefore(p, b, i)
  }

  function SlotsTo(p: Prog, argCount: nat, b: nat, i: nat): map<nat, nat>
    requires b <= |p| && i <= (if b < |p| then |p[b].body| else 0)
    decreases b, i
  {
    if i > 0 then
      var n, before := p[b].body[i - 1], SlotsTo(p, argCount, b, i - 1);
      if n.ty != VOID then before[n.uid := OffsetAt(p, argCount, b, i - 1)] else before
    else if b > 0 then SlotsTo(p, argCount, b - 1, |p[b - 1].body|)
    else map[]
  }

  datatype Frame = Frame(argCount: nat, slots: map<nat, nat>, size: nat)

  function RoundUp16(n: nat): nat { (n + 15) / 16 * 16 }

  function Plan(p: Prog, argCount: nat): Frame {
    Frame(argCount, SlotsTo(p, argCount, |p|, 0), RoundUp16(OffsetAt(p, argCount, |p|, 0)))
  }

  function ArgSlot(k: nat): nat { 8 * (k + 1) }

  // ----- operands -----

  // Whether the generator can load the operand; it raises an error otherwise.
  predicate Loadable(f: Frame, v: Value) {
    match v
    case Const(_, lit, _) => lit.Num?
    case Arg(k) => k < f.argCount
    case Ref(u, _) => u in f.slots
  }

  // The word at [rbp - offset].
  function LoadAt(r: Reg, offset: nat): Insn<string> { MovRM(r, RBP, -(offset as int)) }

  function StoreAt(offset: nat, r: Reg): Insn<string> { MovMR(RBP, -(offset as int), r) }

  function LoadInsn(f: Frame, v: Value, r: Reg): Insn<string> {
    match v
    case Const(_, lit, _) => MovRI(r, if lit.Num? then lit.n else 0)
    case Arg(k) => LoadAt(r, ArgSlot(k))
    case Ref(u, _) => LoadAt(r, if u in f.slots then f.slots[u] else 0)
  }

  // ----- instructions -----

  function CondFor(cond: Option<string>): Cond {
    if cond == Some("eq") then E
    else if cond == Some("ne") then NE
    else if cond == Some("lt") then L
    else if cond == Some("le") then LE
    else if cond == Some("gt") then G
    else if cond == Some("ge") then GE
    else NE
  }

  // The condition of the last comparison in the first i instructions.
  function LastCmp(body: seq<Node>, i: nat): Option<string>
    requires i <= |body|
  {
    if i == 0 then None
    else
      var n := body[i - 1];
      if n.op == CMP && |n.args| >= 1 && IsText(n.args[0]) then Some(n.args[0].lit.s) else LastCmp(body, i - 1)
  }

  function LabelIn(n: Node, k: nat): string {
    if k < |n.args| && IsText(n.args[k]) then n.args[k].lit.s else ""
  }

  function ArithInsn(op: Opcode, dst: Reg, src: Reg): Insn<string> {
    match op case SUB => Sub(dst, src) case MUL => Imul(dst, src) case _ => Add(dst, src)
  }

  const EPILOGUE: seq<Item> :=
    [Ins(MovRR(RSP, RBP)), Ins(Pop(RDI)), Ins(Pop(RSI)), Ins(Pop(RBX)), Ins(Pop(RBP)), Ins(Ret)]

  function NodeItems(f: Frame, n: Node, cond: Option<string>): seq<Item> {
    match n.op
    case ADD | SUB | MUL =>
      if |n.args| < 2 || n.uid !in f.slots then []
      else [Ins(LoadInsn(f, n.args[0], R10)), Ins(LoadInsn(f, n.args[1], R11)), Ins(ArithInsn(n.op, R10, R11)),
            Ins(StoreAt(f.slots[n.uid], R10))]
    case CMP =>
      if |n.args| < 3 then []
      else [Ins(LoadInsn(f, n.args[1], R10)), Ins(LoadInsn(f, n.args[2], R11)), Ins(Insn.Cmp(R10, R11))]
    case BR => [Ins(Jcc(CondFor(cond), LabelIn(n, 1))), Ins(Jmp(LabelIn(n, 2)))]
    case JMP => [Ins(Jmp(LabelIn(n, 0)))]
    case RET => (if |n.args| > 0 then [Ins(LoadInsn(f, n.args[0], RAX))] else []) + EPILOGUE
    case LOAD | STORE => []
  }

  // ----- the program -----

  const SYSV_REGS: seq<Reg> := [RDI, RSI, RDX, RCX, R8, R9]
  const WINDOWS_REGS: seq<Reg> := [RCX, RDX, R8, R9]

  // The generator's table of argument registers.
  function ArgRegs(isWindows: bool): seq<Reg> { if isWindows then WINDOWS_REGS else SYSV_REGS }

  function ArgMoves(regs: seq<Reg>, k: nat): seq<Item>
    requires k <= |regs|
  {
    if k == 0 then [] else ArgMoves(regs, k - 1) + [Ins(StoreAt(ArgSlot(k - 1), regs[k - 1]))]
  }

  function Prologue(f: Frame): seq<Item> {
    [Ins(Push(RBP)), Ins(Push(RBX)), Ins(Push(RSI)), Ins(Push(RDI)), Ins(MovRR(RBP, RSP)), Ins(SubImm(RSP, f.size))]
  }

  function Entry(f: Frame, regs: seq<Reg>): seq<Item> {
    Prologue(f) + ArgMoves(regs, if f.argCount < |regs| then f.argCount else |regs|)
  }

  // The items emitted before position (b, i).
  function Emitted(p: Prog, f: Frame, regs: seq<Reg>, b: nat, i: nat): seq<Item>
    requires b < |p| && i <= |p[b].body|
    decreases b, i
  {
    if i > 0 then Emitted(p, f, regs, b, i - 1) + NodeItems(f, p[b].body[i - 1], LastCmp(p[b].body, i - 1))
    else if b > 0 then Emitted(p, f, regs, b - 1, |p[b - 1].body|) + [Mark(p[b].name)]
    else Entry(f, regs) + [Mark(p[0].name)]
  }

  function Program(p: Prog, argCount: nat, regs: seq<Reg>): seq<Item> {
    var f := Plan(p, argCount);
    if p == [] then Entry(f, regs) else Emitted(p, f, regs, |p| - 1, |p[|p| - 1].body|)
  }

  // ----- what is emitted stays -----

  lemma EmittedNext(p: Prog, f: Frame, regs: seq<Reg>, b: nat, i: nat)
    requires At(p, b, i)
    ensures Emitted(p, f, regs, b, i + 1) ==
      Emitted(p, f, regs, b, i) + NodeItems(f, p[b].body[i], LastCmp(p[b].body, i))
  {
    hide NodeItems;
  }

  lemma {:induction false} EmittedGrows(p: Prog, f: Frame, regs: seq<Reg>, b: nat, i: nat, c: nat, j: nat)
    requires b < |p| && i <= |p[b].body| && c < |p| && j <= |p[c].body| && !Before(c, j, b, i)
    ensures Emitted(p, f, regs, b, i) <= Emitted(p, f, regs, c, j)
    decreases c, j
  {
    hide NodeItems, Entry, LastCmp;
    if b == c && i == j {
    } else if j > 0 {
      EmittedGrows(p, f, regs, b, i, c, j - 1);
    } else {
      EmittedGrows(p, f, regs, b, i, c - 1, |p[c - 1].body|);
    }
  }

  lemma EmittedInProgram(p: Prog, argCount: nat, regs: seq<Reg>, b: nat, i: nat)
    requires b < |p| && i <= |p[b].body|
    ensures Emitted(p, Plan(p, argCount), regs, b, i) <= Program(p, argCount, regs)
  {
    hide Plan, Emitted;
    EmittedGrows(p, Plan(p, argCount), regs, b, i, |p| - 1, |p[|p| - 1].body|);
  }

  // ----- the frame is laid out without overlap -----

  lemma {:induction false} SlotsGrow(p: Prog, b: nat, i: nat, c: nat, j: nat)
    requires b <= |p| && i <= (if b < |p| then |p[b].body| else 0)
    requires c <= |p| && j <= (if c < |p| then |p[c].body| else 0)
    requires !Before(c, j, b, i)
    ensures SlotsBefore(p, b, i) <= SlotsBefore(p, c, j)
    decreases c, j
  {
    if b == c && i == j {
    } else if j > 0 {
      SlotsGrow(p, b, i, c, j - 1);
    } else {
      SlotsGrow(p, b, i, c - 1, |p[c - 1].body|);
    }
  }

  // Every value has the slot it was given when the plan reached it.
  lemma {:induction false} SlotKept(p: Prog, argCount: nat, b: nat, i: nat, c: nat, j: nat)
    requires Distinct(p) && At(p, b, i) && p[b].body[i].ty != VOID
    requires c <= |p| && j <= (if c < |p| then |p[c].body| else 0) && Before(b, i, c, j)
    ensures p[b].body[i].uid in SlotsTo(p, argCount, c, j)
    ensures SlotsTo(p, argCount, c, j)[p[b].body[i].uid] == OffsetAt(p, argCount, b, i)
    decreases c, j
  {
    hide OffsetAt;
    if j > 0 {
      assert At(p, c, j - 1);
      if !(c == b && j - 1 == i) { SlotKept(p, argCount, b, i, c, j - 1); }
    } else {
      SlotKept(p, argCount, b, i, c - 1, |p[c - 1].body|);
    }
  }

  lemma SlotOf(p: Prog, argCount: nat, b: nat, i: nat)
    requires Distinct(p) && At(p, b, i) && p[b].body[i].ty != VOID
    ensures p[b].body[i].uid in Plan(p, argCount).slots
    ensures Plan(p, argCount).slots[p[b].body[i].uid] == OffsetAt(p, argCount, b, i)
  {
    SlotKept(p, argCount, b, i, |p|, 0);
  }

  // Slots are aligned, below the arguments, inside the frame, and no two overlap.
  lemma SlotsDisjoint(p: Prog, argCount: nat, b: nat, i: nat, c: nat, j: nat)
    requires Distinct(p) && At(p, b, i) && p[b].body[i].ty != VOID
    requires At(p, c, j) && p[c].body[j].ty != VOID
    ensures var f := Plan(p, argCount); var x := OffsetAt(p, argCount, b, i);
      x % 8 == 0 && 8 * argCount < x && x + 8 <= f.size && f.size % 16 == 0
    ensures (b, i) != (c, j) ==> OffsetAt(p, argCount, b, i) != OffsetAt(p, argCount, c, j)
  {
    SlotsGrow(p, b, i + 1, |p|, 0);
    if Before(b, i, c, j) { SlotsGrow(p, b, i + 1, c, j); }
    if Before(c, j, b, i) { SlotsGrow(p, c, j + 1, b, i); }
  }

  // Each slot belongs to a value that stands earlier, and there is one for each.
  lemma {:induction false} SlotCount(p: Prog, argCount: nat, b: nat, i: nat)
    requires Distinct(p) && b <= |p| && i <= (if b < |p| then |p[b].body| else 0)
    ensures |SlotsTo(p, argCount, b, i)| == SlotsBefore(p, b, i)
    ensures forall u :: u in SlotsTo(p, argCount, b, i) ==> SlotOwner(p, b, i, u)
    decreases b, i
  {
    hide OffsetAt, Distinct;
    if i > 0 {
      SlotCount(p, argCount, b, i - 1);
      NotOwner(p, b, i - 1);
      assert At(p, b, i - 1);
      forall u | SlotOwner(p, b, i - 1, u) ensures SlotOwner(p, b, i, u) {}
    } else if b > 0 {
      SlotCount(p, argCount, b - 1, |p[b - 1].body|);
      forall u | SlotOwner(p, b - 1, |p[b - 1].body|, u) ensures SlotOwner(p, b, i, u) {}
    }
  }

  ghost predicate SlotOwner(p: Prog, b: int, i: int, u: nat) {
    exists e, k :: At(p, e, k) && Before(e, k, b, i) && p[e].body[k].uid == u
  }

  lemma NotOwner(p: Prog, b: int, i: int)
    requires Distinct(p) && At(p, b, i)
    ensures !SlotOwner(p, b, i, p[b].body[i].uid)
  {}

  // The frame is no larger than it must be: eight bytes for each argument and value and for
  // the saved frame pointer, rounded up to sixteen.
  lemma FrameIsTight(p: Prog, argCount: nat)
    requires Distinct(p)
    ensures var f := Plan(p, argCount); var used := 8 + 8 * argCount + 8 * |f.slots|;
      f.size % 16 == 0 && used <= f.size < used + 16
  {
    SlotCount(p, argCount, |p|, 0);
  }

  lemma ArgSlotsInside(p: Prog, argCount: nat, k: nat)
    requires k < argCount
    ensures ArgSlot(k) % 8 == 0 && 8 <= ArgSlot(k) <= 8 * argCount && ArgSlot(k) + 8 <= Plan(p, argCount).size
  {}
}
