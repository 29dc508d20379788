// The code generator as an object: it plans the frame once, then appends each instruction's
// code to an assembler.

module CodegenObjects {
  import opened Options
  import opened Ir
  import opened IrObjects
  import opened Cfg
  import opened LittleEndian
  import opened X86
  import opened Assembler
  import opened AssemblerObjects
  import opened Codegen

  // A key of the table of stack offsets: an argument or an instruction.
  datatype Holder = OfArg(k: nat) | OfInst(uid: nat)

  // The operands whose values an instruction's code loads.
  predicate Operands(f: Frame, n: Node) {
    match n.op
    case ADD | SUB | MUL => |n.args| >= 2 && Loadable(f, n.args[0]) && Loadable(f, n.args[1])
    case CMP => |n.args| >= 3 && Loadable(f, n.args[1]) && Loadable(f, n.args[2])
    case RET => |n.args| > 0 ==> Loadable(f, n.args[0])
    case _ => true
  }

  predicate Fits(items: seq<Item>) { forall it :: it in items && it.Ins? ==> ImmediateFits(it.insn) }

  // What the generator is given: the builder's shapes, and no memory operations.
  ghost predicate Scalar(p: Prog) {
    forall b, i :: At(p, b, i) ==> Shape(p[b].body[i]) && p[b].body[i].op != LOAD && p[b].body[i].op != STORE
  }

  // Every value loaded is an argument, a constant or some instruction's value.
  ghost predicate AllLoadable(p: Prog, argCount: nat) {
    forall b, i :: At(p, b, i) ==> Operands(Plan(p, argCount), p[b].body[i])
  }

  ghost predicate Assigns(offsets: map<Holder, nat>, argCount: nat, slots: map<nat, nat>) {
    (forall k: nat :: OfArg(k) in offsets <==> k < argCount) &&
    (forall k: nat :: k < argCount ==> offsets[OfArg(k)] == ArgSlot(k)) &&
    (forall u: nat :: OfInst(u) in offsets <==> u in slots) &&
    (forall u: nat :: u in slots ==> offsets[OfInst(u)] == slots[u])
  }

  class X86CodeGenerator {
    const func: Function
    const isWindows: bool
    var asm: X86Assembler
    var stackOffsets: map<Holder, nat>
    var stackSize: nat


    ghost predicate Planned(f: Frame)
      reads this
    {
      stackSize == f.size && Assigns(stackOffsets, f.argCount, f.slots)
    }

    ghost predicate Valid()
      reads this, func, func.Repr
    {
      func.Valid() && this !in func.Repr && asm !in func.Repr && Planned(Plan(func.prog, func.argCount))
    }

    constructor (func: Function, isWindows: bool)
      requires func.Valid()
      ensures Valid() && this.func == func && this.isWindows == isWindows
    {
      this.func, this.isWindows := func, isWindows;
      asm := new X86Assembler();
      stackOffsets, stackSize := map[], 0;
      new;
      PlanStackAndRegisters();
    }

    method PlanStackAndRegisters()
      requires func.Valid() && this !in func.Repr && asm !in func.Repr && stackOffsets == map[]
      modifies `stackOffsets, `stackSize
      ensures Valid()
    {
      ghost var p, argCount := func.prog, func.argCount;
      var offset := 8;
      for k := 0 to func.argCount
        invariant offset == 8 + 8 * k && Assigns(stackOffsets, k, map[])
      {
        stackOffsets := stackOffsets[OfArg(k) := offset];
        offset := offset + 8;
      }
      for b := 0 to |func.blocks|
        invariant offset == OffsetAt(p, argCount, b, 0) && Assigns(stackOffsets, argCount, SlotsTo(p, argCount, b, 0))
      {
        assert func.blocks[b].Mirrors(p[b]);
        var xs := func.blocks[b].instructions;
        for i := 0 to |xs|
          invariant offset == OffsetAt(p, argCount, b, i) && Assigns(stackOffsets, argCount, SlotsTo(p, argCount, b, i))
        {
          assert xs[i].Shows(p[b].body[i]);
          if xs[i].ty != VOID {
            stackOffsets := stackOffsets[OfInst(xs[i].uid) := offset];
            offset := offset + 8;
          }
        }
      }
      stackSize := RoundUp16(offset);
    }

    method LoadScalar(ghost f: Frame, v: Value, r: Reg) returns (ok: bool)
      requires asm.Valid() && Planned(f) && !IsText(v)
      modifies asm
      ensures asm.Valid() && ok == (Loadable(f, v) && ImmediateFits(LoadInsn(f, v, r)))
      ensures ok ==> asm.items == old(asm.items) + [Ins(LoadInsn(f, v, r))]
    {
      match v
      case Const(_, lit, _) =>
        ok := asm.Emit(MovRI(r, lit.n));
      case Arg(k) =>
        if OfArg(k) !in stackOffsets { return false; }
        ok := asm.Emit(LoadAt(r, stackOffsets[OfArg(k)]));
      case Ref(u, _) =>
        if OfInst(u) !in stackOffsets { return false; }
        ok := asm.Emit(LoadAt(r, stackOffsets[OfInst(u)]));
    }

    method StoreScalar(ghost f: Frame, uid: nat, r: Reg) returns (ok: bool)
      requires asm.Valid() && Planned(f) && uid in f.slots
      modifies asm
      ensures asm.Valid() && ok == ImmediateFits(StoreAt(f.slots[uid], r))
      ensures ok ==> asm.items == old(asm.items) + [Ins(StoreAt(f.slots[uid], r))]
    {
      ok := asm.Emit(StoreAt(stackOffsets[OfInst(uid)], r));
    }

    // Two operands into R10 and R11, then one instruction on them.
    method LoadPair(ghost f: Frame, v: Value, w: Value, i: Insn<string>) returns (ok: bool)
      requires asm.Valid() && Planned(f) && !IsText(v) && !IsText(w) && (i.Add? || i.Sub? || i.Imul? || i.Cmp?)
      modifies asm
      ensures asm.Valid()
      ensures ok == (Loadable(f, v) && Loadable(f, w) &&
        Fits([Ins(LoadInsn(f, v, R10)), Ins(LoadInsn(f, w, R11)), Ins(i)]))
      ensures ok ==> asm.items == old(asm.items) + [Ins(LoadInsn(f, v, R10)), Ins(LoadInsn(f, w, R11)), Ins(i)]
    {
      FitsThree(LoadInsn(f, v, R10), LoadInsn(f, w, R11), i);
      hide LoadInsn, Loadable, Fits, X86Assembler.Valid, Assigns;
      ok := LoadScalar(f, v, R10);
      if !ok { return; }
      ok := LoadScalar(f, w, R11);
      if !ok { return; }
      ok := asm.Emit(i);
    }

    method Arithmetic(ghost f: Frame, inst: Instruction, ghost n: Node, cond: Option<string>) returns (ok: bool)
      requires asm.Valid() && Planned(f) && inst.Shows(n) && Shape(n) && IsArith(n.op) && n.uid in f.slots
      modifies asm
      ensures asm.Valid() && ok == (Operands(f, n) && Fits(NodeItems(f, n, cond)))
      ensures ok ==> asm.items == old(asm.items) + NodeItems(f, n, cond)
    {
      hide LoadInsn, Loadable, Fits, X86Assembler.Valid, Planned, StoreAt, NodeItems;
      ghost var three :=
        [Ins(LoadInsn(f, n.args[0], R10)), Ins(LoadInsn(f, n.args[1], R11)), Ins(ArithInsn(n.op, R10, R11))];
      ghost var store := [Ins(StoreAt(f.slots[n.uid], R10))];
      ArithmeticItems(f, n, cond);
      FitsJoin(three, store);
      FitsOne(StoreAt(f.slots[n.uid], R10));
      ok := LoadPair(f, inst.args[0], inst.args[1], ArithInsn(inst.op, R10, R11));
      if !ok { return; }
      ok := StoreScalar(f, inst.uid, R10);
    }

    method Epilogue()
      requires asm.Valid()
      modifies asm
      ensures asm.Valid() && asm.items == old(asm.items) + EPILOGUE
    {
      hide X86Assembler.Valid;
      var _ := asm.Emit(MovRR(RSP, RBP));
      var _ := asm.Emit(Pop(RDI));
      var _ := asm.Emit(Pop(RSI));
      var _ := asm.Emit(Pop(RBX));
      var _ := asm.Emit(Pop(RBP));
      var _ := asm.Emit(Ret);
    }

    method Return(ghost f: Frame, inst: Instruction, ghost n: Node, cond: Option<string>) returns (ok: bool)
      requires asm.Valid() && Planned(f) && inst.Shows(n) && Shape(n) && n.op == RET
      modifies asm
      ensures asm.Valid() && ok == (Operands(f, n) && Fits(NodeItems(f, n, cond)))
      ensures ok ==> asm.items == old(asm.items) + NodeItems(f, n, cond)
    {
      EpilogueFits();
      hide LoadInsn, Loadable, Fits, X86Assembler.Valid, Assigns, ImmediateFits;
      if |inst.args| > 0 {
        ghost var load := [Ins(LoadInsn(f, n.args[0], RAX))];
        assert NodeItems(f, n, cond) == load + EPILOGUE;
        FitsJoin(load, EPILOGUE);
        FitsOne(LoadInsn(f, n.args[0], RAX));
        ok := LoadScalar(f, inst.args[0], RAX);
        if !ok { return; }
      } else {
        assert NodeItems(f, n, cond) == [] + EPILOGUE == EPILOGUE;
      }
      Epilogue();
      ok := true;
    }

    method Branch(ghost f: Frame, inst: Instruction, ghost n: Node, cond: Option<string>)
      requires asm.Valid() && inst.Shows(n) && Shape(n) && n.op == BR
      modifies asm
      ensures asm.Valid() && asm.items == old(asm.items) + NodeItems(f, n, cond)
    {
      hide X86Assembler.Valid;
      asm.EmitJump(Jcc(CondFor(cond), inst.args[1].lit.s));
      asm.EmitJump(Jmp(inst.args[2].lit.s));
    }

    // The code of one instruction; cond is the last comparison's condition in this block.
    method EmitNode(ghost f: Frame, inst: Instruction, ghost n: Node, cond: Option<string>) returns (ok: bool)
      requires asm.Valid() && Planned(f) && inst.Shows(n) && Shape(n) && n.op != LOAD && n.op != STORE
      requires IsArith(n.op) ==> n.uid in f.slots
      modifies asm
      ensures asm.Valid() && ok == (Operands(f, n) && Fits(NodeItems(f, n, cond)))
      ensures ok ==> asm.items == old(asm.items) + NodeItems(f, n, cond)
    {
      hide LoadInsn, Loadable, X86Assembler.Valid, Assigns, CondFor;
      match inst.op
      case ADD | SUB | MUL => ok := Arithmetic(f, inst, n, cond);
      case CMP => ok := LoadPair(f, inst.args[1], inst.args[2], Insn.Cmp(R10, R11));
      case BR => Branch(f, inst, n, cond); ok := true;
      case JMP => asm.EmitJump(Jmp(inst.args[0].lit.s)); ok := true;
      case RET => ok := Return(f, inst, n, cond);
    }

    method EmitPrologue(ghost f: Frame) returns (ok: bool)
      requires asm.Valid() && Planned(f) && asm.items == []
      modifies asm
      ensures asm.Valid() && ok == Fits(Prologue(f))
      ensures ok ==> asm.items == Prologue(f)
    {
      PrologueFits(f);
      hide X86Assembler.Valid, Fits, Assigns;
      var _ := asm.Emit(Push(RBP));
      var _ := asm.Emit(Push(RBX));
      var _ := asm.Emit(Push(RSI));
      var _ := asm.Emit(Push(RDI));
      var _ := asm.Emit(MovRR(RBP, RSP));
      ok := asm.Emit(SubImm(RSP, stackSize));
    }

    // Register arguments into their slots.
    method MoveArgs(ghost f: Frame)
      requires asm.Valid() && Planned(f) && f.argCount == func.argCount
      modifies asm
      ensures asm.Valid() && asm.items == old(asm.items) + ArgMoves(ArgRegs(isWindows), ArgsInRegs())
      ensures Fits(ArgMoves(ArgRegs(isWindows), ArgsInRegs()))
    {
      hide X86Assembler.Valid, Fits;
      var regs := ArgRegs(isWindows);
      FitsNone();
      for i := 0 to ArgsInRegs()
        invariant asm == old(asm) && asm.Valid() && Planned(f) && Fits(ArgMoves(regs, i))
        invariant asm.items == old(asm.items) + ArgMoves(regs, i)
      {
        FitsJoin(ArgMoves(regs, i), [Ins(StoreAt(ArgSlot(i), regs[i]))]);
        FitsOne(StoreAt(ArgSlot(i), regs[i]));
        var _ := asm.Emit(StoreAt(stackOffsets[OfArg(i)], regs[i]));
      }
    }

    ghost function Items(): seq<Item>
      reads func
    {
      Program(func.prog, func.argCount, ArgRegs(isWindows))
    }

    // Instruction i of block b. A failure is a failure of the function.
    method CompileNode(ghost p: Prog, ghost f: Frame, b: nat, i: nat, cond: Option<string>)
      returns (ok: bool, lastCmp: Option<string>)
      requires Valid() && asm.Valid() && Scalar(p) && At(p, b, i) && p == func.prog && f == Plan(p, func.argCount)
      requires asm.items == Emitted(p, f, ArgRegs(isWindows), b, i) && Fits(asm.items) && cond == LastCmp(p[b].body, i)
      modifies asm
      ensures ok ==> asm.Valid() && asm.items == Emitted(p, f, ArgRegs(isWindows), b, i + 1) && Fits(asm.items)
      ensures ok ==> Operands(f, p[b].body[i]) && lastCmp == LastCmp(p[b].body, i + 1)
      ensures !ok ==> !(AllLoadable(p, func.argCount) && Assembles(Items()))
    {
      assert func.blocks[b].Mirrors(p[b]);
      var inst := func.blocks[b].instructions[i];
      NodeReady(p, func.argCount, b, i);
      NodeEmitted(p, func.argCount, ArgRegs(isWindows), b, i);
      hide Plan, Fits, X86Assembler.Valid, Emitted, NodeItems, Operands, Function.Valid, Assembles, Program, LastCmp;
      ghost var n := p[b].body[i];
      assert inst.Shows(n);
      lastCmp := if inst.op == CMP then Some(inst.args[0].lit.s) else cond;
      ok := EmitNode(f, inst, n, cond);
      if !ok && Operands(f, n) { NotAssembled(Items(), Emitted(p, f, ArgRegs(isWindows), b, i + 1)); }
    }

    method CompileLabel(ghost p: Prog, ghost f: Frame, b: nat) returns (ok: bool)
      requires Valid() && asm.Valid() && b < |p| && p == func.prog && f == Plan(p, func.argCount)
      requires asm.items == Upto(p, f, ArgRegs(isWindows), b) && Fits(asm.items)
      modifies asm
      ensures ok ==> asm.Valid() && asm.items == Emitted(p, f, ArgRegs(isWindows), b, 0) && Fits(asm.items)
      ensures !ok ==> !Assembles(Items())
    {
      assert func.blocks[b].Mirrors(p[b]);
      LabelEmitted(p, func.argCount, ArgRegs(isWindows), b);
      hide Valid, Plan, Fits, X86Assembler.Valid, Emitted, Upto, Labels, Assembles, Program;
      ok := asm.Label(func.blocks[b].name);
      if !ok {
        LabelTwice(asm.items, p[b].name);
        NotAssembled(Items(), asm.items + [Mark(p[b].name)]);
      }
    }

    // One block: its label, then each instruction.
    method CompileBlock(ghost p: Prog, ghost f: Frame, b: nat) returns (ok: bool)
      requires Valid() && asm.Valid() && Scalar(p) && b < |p| && p == func.prog && f == Plan(p, func.argCount)
      requires asm.items == Upto(p, f, ArgRegs(isWindows), b) && Fits(asm.items)
      modifies asm
      ensures ok ==> asm.Valid() && asm.items == Upto(p, f, ArgRegs(isWindows), b + 1) && Fits(asm.items)
      ensures ok ==> forall i :: 0 <= i < |p[b].body| ==> Operands(f, p[b].body[i])
      ensures !ok ==> !(AllLoadable(p, func.argCount) && Assembles(Items()))
    {
      hide Valid, Plan, Fits, X86Assembler.Valid, Emitted, Upto, Operands, LastCmp, Assembles, Program, Scalar,
        AllLoadable;
      BlockFacts(b);
      ok := CompileLabel(p, f, b);
      if !ok { return; }
      var lastCmp: Option<string> := None;
      for i := 0 to |func.blocks[b].instructions|
        invariant asm == old(asm) && asm.Valid() && Valid() && lastCmp == LastCmp(p[b].body, i)
        invariant asm.items == Emitted(p, f, ArgRegs(isWindows), b, i) && Fits(asm.items)
        invariant forall j :: 0 <= j < i ==> Operands(f, p[b].body[j])
      {
        ok, lastCmp := CompileNode(p, f, b, i, lastCmp);
        if !ok { return; }
      }
    }

    // The bytes of the function; None stands for the errors the source raises.
    method Compile() returns (code: Option<seq<Byte>>)
      requires Valid() && Scalar(func.prog)
      modifies `asm
      ensures Valid()
      ensures code.Some? <==> AllLoadable(func.prog, func.argCount) && Assembles(Items())
      ensures code.Some? ==> code.value == Link(Items())
    {
      hide Valid, Plan, Fits, X86Assembler.Valid, Upto, LoadableTo, Operands, Assembles, Program, Scalar, AllLoadable,
        JumpsResolve;
      ghost var p, f := func.prog, Plan(func.prog, func.argCount);
      EntryEmitted(p, func.argCount, ArgRegs(isWindows));
      ValidFacts();
      Restart();
      var a := asm;
      var ok := CompileEntry(p, f);
      if !ok { return None; }
      LoadableAll(p, func.argCount);
      for b := 0 to |func.blocks|
        invariant asm == a && fresh(a) && Valid()
        invariant a.Valid() && a.items == Upto(p, f, ArgRegs(isWindows), b) && Fits(a.items) && LoadableTo(p, f, b)
      {
        LoadableStep(p, f, b);
        ok := CompileBlock(p, f, b);
        if !ok { return None; }
      }
      AssemblerLinks(a);
      ok := asm.ResolveLabels();
      code := if ok then Some(asm.code) else None;
    }

    method Restart()
      requires Valid()
      modifies `asm
      ensures Valid() && fresh(asm) && asm.Valid() && asm.items == []
    {
      hide Plan, Assigns;
      asm := new X86Assembler();
    }

    method CompileEntry(ghost p: Prog, ghost f: Frame) returns (ok: bool)
      requires Valid() && asm.Valid() && asm.items == [] && p == func.prog && f == Plan(p, func.argCount)
      modifies asm
      ensures ok ==> asm.Valid() && asm.items == Upto(p, f, ArgRegs(isWindows), 0) && Fits(asm.items)
      ensures !ok ==> !Assembles(Items())
    {
      hide Valid, Plan, Fits, X86Assembler.Valid, Assembles, Program, Prologue, ArgMoves, Planned;
      PlannedAsIs();
      EntryEmitted(p, func.argCount, ArgRegs(isWindows));
      ok := EmitPrologue(f);
      if !ok {
        NotAssembled(Items(), Prologue(f));
        return;
      }
      MoveArgs(f);
      FitsJoin(Prologue(f), ArgMoves(ArgRegs(isWindows), ArgsInRegs()));
    }

    lemma PlannedAsIs()
      requires Valid()
      ensures Planned(Plan(func.prog, func.argCount)) && Plan(func.prog, func.argCount).argCount == func.argCount
    {}

    lemma ValidFacts()
      requires Valid()
      ensures |func.blocks| == |func.prog| && asm !in func.Repr
      ensures Plan(func.prog, func.argCount).argCount == func.argCount
    {}

    lemma BlockFacts(b: nat)
      requires Valid() && b < |func.prog|
      ensures b < |func.blocks| && |func.blocks[b].instructions| == |func.prog[b].body| && asm !in func.Repr
      ensures func.blocks[b] in func.Repr
      ensures var f := Plan(func.prog, func.argCount);
        Upto(func.prog, f, ArgRegs(isWindows), b + 1) ==
          Emitted(func.prog, f, ArgRegs(isWindows), b, |func.prog[b].body|)
      ensures LastCmp(func.prog[b].body, 0) == None
    {
      assert func.blocks[b].Mirrors(func.prog[b]);
      hide Plan, Emitted;
    }

    function ArgsInRegs(): nat { if func.argCount < |ArgRegs(isWindows)| then func.argCount else |ArgRegs(isWindows)| }
  }

  lemma ArithmeticItems(f: Frame, n: Node, cond: Option<string>)
    requires IsArith(n.op) && |n.args| == 2 && n.uid in f.slots
    ensures NodeItems(f, n, cond) ==
      [Ins(LoadInsn(f, n.args[0], R10)), Ins(LoadInsn(f, n.args[1], R11)), Ins(ArithInsn(n.op, R10, R11))] +
      [Ins(StoreAt(f.slots[n.uid], R10))]
  {
    hide LoadInsn, ArithInsn;
  }

  lemma FitsNone()
    ensures Fits([])
  {}

  lemma FitsOne(i: Insn<string>)
    ensures Fits([Ins(i)]) <==> ImmediateFits(i)
  {
    hide ImmediateFits;
    assert [Ins(i)][0] in [Ins(i)];
  }

  lemma FitsJoin(s: seq<Item>, t: seq<Item>)
    ensures Fits(s + t) <==> Fits(s) && Fits(t)
  {
    hide ImmediateFits;
    assert forall it :: it in s ==> it in s + t;
    assert forall it :: it in t ==> it in s + t;
  }

  lemma EpilogueFits()
    ensures Fits(EPILOGUE)
  {}

  lemma PrologueFits(f: Frame)
    ensures Fits(Prologue(f)) <==> ImmediateFits(SubImm(RSP, f.size))
  {
    assert Prologue(f)[5] in Prologue(f);
  }

  lemma FitsThree(a: Insn<string>, b: Insn<string>, c: Insn<string>)
    ensures Fits([Ins(a), Ins(b), Ins(c)]) <==> ImmediateFits(a) && ImmediateFits(b) && ImmediateFits(c)
  {
    hide ImmediateFits;
    var s := [Ins(a), Ins(b), Ins(c)];
    assert s[0] in s && s[1] in s && s[2] in s;
  }

  // The items emitted before block b.
  function Upto(p: Prog, f: Frame, regs: seq<Reg>, b: nat): seq<Item>
    requires b <= |p|
  {
    if b == 0 then Entry(f, regs) else Emitted(p, f, regs, b - 1, |p[b - 1].body|)
  }

  lemma EntryEmitted(p: Prog, argCount: nat, regs: seq<Reg>)
    ensures Upto(p, Plan(p, argCount), regs, |p|) == Program(p, argCount, regs)
    ensures Prologue(Plan(p, argCount)) <= Program(p, argCount, regs)
  {
    hide Plan, Prologue, ArgMoves, Emitted;
    PrologueFirst(Plan(p, argCount), regs);
    if p != [] {
      LabelEmitted(p, argCount, regs, 0);
    }
  }

  lemma PrologueFirst(f: Frame, regs: seq<Reg>)
    ensures Prologue(f) <= Entry(f, regs)
  {
    hide Prologue, ArgMoves;
  }

  lemma LabelEmitted(p: Prog, argCount: nat, regs: seq<Reg>, b: nat)
    requires b < |p|
    ensures var f := Plan(p, argCount); Emitted(p, f, regs, b, 0) == Upto(p, f, regs, b) + [Mark(p[b].name)]
    ensures Emitted(p, Plan(p, argCount), regs, b, 0) <= Program(p, argCount, regs)
    ensures Fits(Upto(p, Plan(p, argCount), regs, b)) ==> Fits(Emitted(p, Plan(p, argCount), regs, b, 0))
  {
    hide Plan, Program, Entry, NodeItems;
    EmittedInProgram(p, argCount, regs, b, 0);
    FitsJoin(Upto(p, Plan(p, argCount), regs, b), [Mark(p[b].name)]);
  }

  lemma NodeEmitted(p: Prog, argCount: nat, regs: seq<Reg>, b: nat, i: nat)
    requires At(p, b, i)
    ensures Emitted(p, Plan(p, argCount), regs, b, i + 1) <= Program(p, argCount, regs)
    ensures var f := Plan(p, argCount); var items := NodeItems(f, p[b].body[i], LastCmp(p[b].body, i));
      Emitted(p, f, regs, b, i + 1) == Emitted(p, f, regs, b, i) + items &&
      (Fits(Emitted(p, f, regs, b, i + 1)) <==> Fits(Emitted(p, f, regs, b, i)) && Fits(items))
  {
    hide Plan, Program, Entry, NodeItems, LastCmp, Fits;
    EmittedInProgram(p, argCount, regs, b, i + 1);
    FitsJoin(Emitted(p, Plan(p, argCount), regs, b, i),
      NodeItems(Plan(p, argCount), p[b].body[i], LastCmp(p[b].body, i)));
  }

  // Everything loaded in the first b blocks can be.
  ghost predicate LoadableTo(p: Prog, f: Frame, b: nat) {
    forall c, i :: At(p, c, i) && c < b ==> Operands(f, p[c].body[i])
  }

  lemma LoadableAll(p: Prog, argCount: nat)
    ensures LoadableTo(p, Plan(p, argCount), 0)
    ensures LoadableTo(p, Plan(p, argCount), |p|) <==> AllLoadable(p, argCount)
  {
    hide Operands, Plan;
  }

  lemma LoadableStep(p: Prog, f: Frame, b: nat)
    requires b < |p| && LoadableTo(p, f, b)
    ensures (forall i :: 0 <= i < |p[b].body| ==> Operands(f, p[b].body[i])) ==> LoadableTo(p, f, b + 1)
  {
    hide Operands;
  }

  lemma NodeReady(p: Prog, argCount: nat, b: int, i: int)
    requires Scalar(p) && Distinct(p) && At(p, b, i)
    ensures var n := p[b].body[i];
      Shape(n) && n.op != LOAD && n.op != STORE && (IsArith(n.op) ==> n.uid in Plan(p, argCount).slots)
    ensures var n := p[b].body[i];
      LastCmp(p[b].body, i + 1) == if n.op == CMP then Some(n.args[0].lit.s) else LastCmp(p[b].body, i)
  {
    hide Plan;
    if IsArith(p[b].body[i].op) { SlotOf(p, argCount, b, i); }
  }

  // Every argument read is one the function has.
  ghost predicate ArgsExist(p: Prog, argCount: nat) {
    forall b, i, v :: At(p, b, i) && v in p[b].body[i].args && v.Arg? ==> v.index < argCount
  }

  // The generator has code for every well-formed function without memory operations.
  lemma WellFormedLoads(p: Prog, argCount: nat)
    requires WellFormed(p) && ArgsExist(p, argCount)
    requires forall b, i :: At(p, b, i) ==> p[b].body[i].op != LOAD && p[b].body[i].op != STORE
    ensures Scalar(p) && AllLoadable(p, argCount)
  {
    forall b, i | At(p, b, i) ensures Shape(p[b].body[i]) && Operands(Plan(p, argCount), p[b].body[i]) {
      assert BlockShape(p[b]) && NodeOk(p, Dominators(p), b, i);
      hide WellFormed, Plan, Dominators;
      forall v | v in p[b].body[i].args && !IsText(v) ensures Loadable(Plan(p, argCount), v) {
        OperandLoads(p, argCount, b, i, v);
      }
    }
  }

  lemma OperandLoads(p: Prog, argCount: nat, b: int, i: int, v: Value)
    requires Structured(p) && At(p, b, i) && v in p[b].body[i].args && !IsText(v)
    requires OperandOk(p, Dominators(p), b, i, v) && (v.Arg? ==> v.index < argCount)
    ensures Loadable(Plan(p, argCount), v)
  {
    hide Dominators, SlotsTo, OffsetAt;
    if v.Ref? {
      var c, j :| Defines(p, Dominators(p), b, i, v, c, j);
      assert BlockShape(p[c]) && Shape(p[c].body[j]);
      SlotOf(p, argCount, c, j);
    }
  }

  // ----- what makes a program assemble -----

  lemma {:induction false} UniquePrefix(items: seq<Item>, k: nat)
    requires k <= |items| && UniqueLabels(items)
    ensures UniqueLabels(items[..k])
  {
    if k == |items| {
      assert items[..k] == items;
    } else {
      var init := items[..|items| - 1];
      UniquePrefix(init, k);
      assert init[..k] == items[..k];
    }
  }

  lemma LabelTwice(items: seq<Item>, name: string)
    requires name in Labels(items)
    ensures !UniqueLabels(items + [Mark(name)])
  {
    var more := items + [Mark(name)];
    assert more[..|more| - 1] == items;
  }

  lemma ResolvedFits(items: seq<Item>, k: nat)
    requires k < |items| && items[k].Ins? && Resolved(items, k).Some?
    ensures Encodable(Resolved(items, k).value) <==>
      ImmediateFits(items[k].insn) && (IsJump(items[k].insn) ==> Fits32(Resolved(items, k).value.target))
    ensures IsJump(items[k].insn) <==> IsJump(Resolved(items, k).value)
  {
    hide Address, DraftItem, Labels;
  }

  lemma PlainResolves(items: seq<Item>, k: nat)
    requires k < |items| && items[k].Ins? && !IsJump(items[k].insn)
    ensures Resolved(items, k).Some?
  {
    hide Address, DraftItem, Labels;
  }

  // The three ways assembling fails: a label declared twice, a constant too wide, a jump
  // whose label is missing or too far.
  lemma AssemblesExactly(items: seq<Item>)
    ensures Assembles(items) <==> UniqueLabels(items) && Fits(items) && JumpsResolve(items, |items|)
  {
    hide Resolved, Encodable, ImmediateFits, UniqueLabels, JumpResolves;
    forall k | 0 <= k < |items| && items[k].Ins?
      ensures Resolved(items, k).Some? && Encodable(Resolved(items, k).value) <==>
        ImmediateFits(items[k].insn) && (IsJump(items[k].insn) ==> JumpResolves(items, k))
    {
      ItemAssembles(items, k);
    }
    assert forall k :: 0 <= k < |items| ==> items[k] in items;
  }

  lemma ItemAssembles(items: seq<Item>, k: nat)
    requires k < |items| && items[k].Ins?
    ensures Resolved(items, k).Some? && Encodable(Resolved(items, k).value) <==>
      ImmediateFits(items[k].insn) && (IsJump(items[k].insn) ==> JumpResolves(items, k))
  {
    hide Encodable, ImmediateFits, Address, DraftItem, Labels;
    if !IsJump(items[k].insn) { PlainResolves(items, k); }
    if Resolved(items, k).Some? { ResolvedFits(items, k); }
  }

  // What resolving the labels of a full assembler yields.
  lemma AssemblerLinks(asm: X86Assembler)
    requires asm.Valid() && Fits(asm.items)
    ensures Assembles(asm.items) <==> JumpsResolve(asm.items, |asm.items|)
    ensures Assembles(asm.items) ==>
      LinkedUpTo(asm.items, |asm.items|) && Link(asm.items) == Linked(asm.items, |asm.items|)
  {
    AssemblesExactly(asm.items);
    hide Fits, JumpsResolve;
  }

  lemma NotAssembled(items: seq<Item>, part: seq<Item>)
    requires part <= items && !(UniqueLabels(part) && Fits(part))
    ensures !Assembles(items)
  {
    hide UniqueLabels, Resolved, Encodable;
    AssemblesExactly(items);
    if UniqueLabels(items) { UniquePrefix(items, |part|); }
    assert items[..|part|] == part;
    FitsJoin(part, items[|part|..]);
    assert part + items[|part|..] == items;
  }
}
