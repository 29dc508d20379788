// The native run takes the interpreter's steps, one block of items each.

module Simulation {
  import opened Options
  import opened Ir
  import opened Interp
  import opened Cfg
  import opened Refinement
  import RI = RunInvariant
  import opened X86
  import opened Assembler
  import opened Machine
  import opened Codegen
  import opened Native

  // At a branch, the flags still hold the comparison before it.
  ghost predicate FlagsOk(k: Call, b: nat, i: nat, env: map<nat, int>, c: Cpu)
    requires At(k.p, b, i)
  {
    k.p[b].body[i].op == BR ==>
      i > 0 && c.flags.Some? && k.p[b].body[i - 1].uid in env &&
      (Met(CondFor(LastCmp(k.p[b].body, i)), c.flags.value) <==> env[k.p[b].body[i - 1].uid] != 0)
  }

  // The two runs stand at the same instruction with the same values.
  ghost predicate InStep(k: Call, s: Config, t: State) {
    s.Running? && t.Live? && s.b in k.d && At(k.p, s.b, s.i) && t.pc == Pc(k, s.b, s.i) &&
    Framed(k, t.cpu) && ValuesHeld(k, t.cpu.mem, s.env, s.b, s.i) && FlagsOk(k, s.b, s.i, s.env, t.cpu)
  }

  // Two operands in the scratch registers.
  lemma LoadTwo(k: Call, s: Config, t: State, v: Value, w: Value, rest: seq<Item>) returns (c: Cpu)
    requires CallOk(k) && InStep(k, s, t) && k.p[s.b].body[s.i].op != BR
    requires v in k.p[s.b].body[s.i].args && w in k.p[s.b].body[s.i].args
    requires IsNum(Eval(v, k.args, s.env)) && IsNum(Eval(w, k.args, s.env))
    requires ItemsOf(k, s.b, s.i) == [Ins(LoadInsn(FrameOf(k), v, R10)), Ins(LoadInsn(FrameOf(k), w, R11))] + rest
    ensures Reaches(Items(k), t, Live(t.pc + 2, c))
    ensures Framed(k, c) && ValuesHeld(k, c.mem, s.env, s.b, s.i)
    ensures c.regs[R10] == W(Eval(v, k.args, s.env).value.n) && c.regs[R11] == W(Eval(w, k.args, s.env).value.n)
  {
    hide Framed, ValuesHeld, FrameOf, Items, Pc, Exec, LoadInsn, Reaches, CallOk, FlagsOk;
    var b, i, c0 := s.b, s.i, t.cpu;
    var x, y := Eval(v, k.args, s.env).value.n, Eval(w, k.args, s.env).value.n;
    ItemsAt(k, b, i);
    LoadOperand(k, c0, s.env, b, i, v, R10);
    var c1 := Set(c0, R10, W(x));
    ScratchKeepsFrame(k, c0, R10, W(x), c0.flags);
    LoadOperand(k, c1, s.env, b, i, w, R11);
    c := Set(c1, R11, W(y));
    ScratchKeepsFrame(k, c1, R11, W(y), c1.flags);
    ReachesSelf(Items(k), t);
    assert ItemsOf(k, b, i)[0] == Ins(LoadInsn(FrameOf(k), v, R10)) &&
      ItemsOf(k, b, i)[1] == Ins(LoadInsn(FrameOf(k), w, R11));
    Continue(Items(k), t, t.pc, c0, LoadInsn(FrameOf(k), v, R10), c1);
    Continue(Items(k), t, t.pc + 1, c1, LoadInsn(FrameOf(k), w, R11), c);
  }

  lemma ArithInsnRuns(op: Opcode, c: Cpu, x: int, y: int)
    requires IsArith(op) && c.regs[R10] == W(x) && c.regs[R11] == W(y)
    ensures FallsThrough(ArithInsn(op, R10, R11))
    ensures Exec(ArithInsn(op, R10, R11), c) == Some(Set(c, R10, W(Arith(op, x, y))).(flags := None))
  {
    WrapArith(op, x, y);
  }

  // What Step does at an instruction of a well-formed function that does not fault.
  lemma ArithStepIs(k: Call, s: Config)
    requires CallOk(k) && s.Running? && At(k.p, s.b, s.i) && IsArith(k.p[s.b].body[s.i].op)
    requires !Step(k.p, k.args, s).Fault?
    ensures var n := k.p[s.b].body[s.i];
      |n.args| == 2 && IsNum(Eval(n.args[0], k.args, s.env)) && IsNum(Eval(n.args[1], k.args, s.env)) &&
      Step(k.p, k.args, s) == Running(s.b, s.i + 1,
        s.env[n.uid := Arith(n.op, Eval(n.args[0], k.args, s.env).value.n, Eval(n.args[1], k.args, s.env).value.n)],
        s.mem)
  {
    assert BlockShape(k.p[s.b]) && Shape(k.p[s.b].body[s.i]);
  }

  // The instruction after one that is not a comparison is not a branch.
  lemma NextIsNoBranch(k: Call, b: nat, i: nat)
    requires CallOk(k) && At(k.p, b, i) && HasValue(k.p[b].body[i].op)
    ensures At(k.p, b, i + 1)
    ensures k.p[b].body[i].op != CMP ==> k.p[b].body[i + 1].op != BR
  {
    assert BlockShape(k.p[b]);
    assert At(k.p, b, i + 1) && NativeNode(k.p, b, i + 1);
  }

  lemma ArithStep(k: Call, s: Config, t: State) returns (t': State)
    requires CallOk(k) && InStep(k, s, t) && IsArith(k.p[s.b].body[s.i].op) && !Step(k.p, k.args, s).Fault?
    ensures Reaches(Items(k), t, t') && InStep(k, Step(k.p, k.args, s), t') && t' != t
  {
    hide Framed, ValuesHeld, FrameOf, Items, Pc, Exec, LoadInsn, Reaches, CallOk, Step, ArithInsn, ItemsOf, StoreAt;
    var b, i, n := s.b, s.i, k.p[s.b].body[s.i];
    ArithStepIs(k, s);
    hide Eval, Arith;
    var x, y := Eval(n.args[0], k.args, s.env).value.n, Eval(n.args[1], k.args, s.env).value.n;
    var v := Arith(n.op, x, y);
    StructuredCall(k);
    ArithItems(k, b, i);
    var rest: seq<Item> := [Ins(ArithInsn(n.op, R10, R11)), Ins(StoreAt(FrameOf(k).slots[n.uid], R10))];
    var c2 := LoadTwo(k, s, t, n.args[0], n.args[1], rest);
    ArithInsnRuns(n.op, c2, x, y);
    var c3 := Set(c2, R10, W(v)).(flags := None);
    ScratchKeepsFrame(k, c2, R10, W(v), None);
    Continue(Items(k), t, t.pc + 2, c2, ArithInsn(n.op, R10, R11), c3);
    StoreSlot(k, c3, s.env, b, i, v);
    var c4 := Exec(StoreAt(FrameOf(k).slots[n.uid], R10), c3).value;
    Continue(Items(k), t, t.pc + 3, c3, StoreAt(FrameOf(k).slots[n.uid], R10), c4);
    NextIsNoBranch(k, b, i);
    t' := Live(t.pc + 4, c4);
  }

  // The four items of an arithmetic instruction.
  lemma ArithItems(k: Call, b: nat, i: nat)
    requires Structured(k.p) && At(k.p, b, i) && IsArith(k.p[b].body[i].op)
    ensures |k.p[b].body[i].args| == 2 && k.p[b].body[i].uid in FrameOf(k).slots
    ensures FallsThrough(StoreAt(FrameOf(k).slots[k.p[b].body[i].uid], R10))
    ensures var n, f, pc := k.p[b].body[i], FrameOf(k), Pc(k, b, i);
      Pc(k, b, i + 1) == pc + 4 <= |Items(k)| &&
      ItemsOf(k, b, i) == [Ins(LoadInsn(f, n.args[0], R10)), Ins(LoadInsn(f, n.args[1], R11))] +
        [Ins(ArithInsn(n.op, R10, R11)), Ins(StoreAt(f.slots[n.uid], R10))] &&
      Items(k)[pc + 2] == Ins(ArithInsn(n.op, R10, R11)) && Items(k)[pc + 3] == Ins(StoreAt(f.slots[n.uid], R10))
  {
    assert BlockShape(k.p[b]) && Shape(k.p[b].body[i]);
    SlotFacts(k, b, i);
    ItemsAt(k, b, i);
    hide FrameOf, Items, Pc, LoadInsn, ArithInsn;
    var n, f, its := k.p[b].body[i], FrameOf(k), ItemsOf(k, b, i);
    assert its == [Ins(LoadInsn(f, n.args[0], R10)), Ins(LoadInsn(f, n.args[1], R11))] +
      [Ins(ArithInsn(n.op, R10, R11)), Ins(StoreAt(f.slots[n.uid], R10))];
    assert Items(k)[Pc(k, b, i) + 2] == its[2] && Items(k)[Pc(k, b, i) + 3] == its[3];
  }

  lemma StructuredCall(k: Call)
    requires CallOk(k)
    ensures Structured(k.p) && StackOk(k) && UniqueLabels(Items(k)) && WellFormedUnder(k.p, k.d)
  {}

  // A comparison leaves no slot behind, and disturbs none.
  lemma ValuesAfterCmp(k: Call, mem: map<int, Word>, env: map<nat, int>, b: nat, i: nat, v: int)
    requires Structured(k.p) && ValuesHeld(k, mem, env, b, i) && At(k.p, b, i) && k.p[b].body[i].op == CMP
    ensures ValuesHeld(k, mem, env[k.p[b].body[i].uid := v], b, i + 1)
  {
    forall e: nat, j: nat | Avail(k.p, k.d, b, i + 1, e, j) && IsArith(k.p[e].body[j].op)
      ensures SlotHeld(k, mem, env[k.p[b].body[i].uid := v], e, j)
    {
      assert Avail(k.p, k.d, b, i, e, j) && SlotHeld(k, mem, env, e, j);
    }
  }

  lemma CmpStepIs(k: Call, s: Config)
    requires CallOk(k) && s.Running? && At(k.p, s.b, s.i) && k.p[s.b].body[s.i].op == CMP
    requires !Step(k.p, k.args, s).Fault?
    ensures var n := k.p[s.b].body[s.i];
      |n.args| == 3 && IsText(n.args[0]) && Condition(n.args[0].lit.s) &&
      IsNum(Eval(n.args[1], k.args, s.env)) && IsNum(Eval(n.args[2], k.args, s.env)) && Step(k.p, k.args, s) ==
        Running(s.b, s.i + 1, s.env[n.uid := if Compare(n.args[0].lit.s, Eval(n.args[1], k.args, s.env).value.n,
          Eval(n.args[2], k.args, s.env).value.n) then 1 else 0], s.mem)
  {
    assert BlockShape(k.p[s.b]) && Shape(k.p[s.b].body[s.i]);
  }

  lemma FlagsAfterCmp(k: Call, b: nat, i: nat, env: map<nat, int>, c: Cpu, x: int, y: int)
    requires At(k.p, b, i + 1) && k.p[b].body[i].op == CMP && |k.p[b].body[i].args| == 3
    requires IsText(k.p[b].body[i].args[0]) && Condition(k.p[b].body[i].args[0].lit.s)
    requires Narrow(x) && Narrow(y) && c.flags == Some(CompareFlags(W(x), W(y)))
    ensures FlagsOk(k, b, i + 1,
      env[k.p[b].body[i].uid := if Compare(k.p[b].body[i].args[0].lit.s, x, y) then 1 else 0], c)
  {
    hide CompareFlags, W, Met, CondFor, Compare;
    CompareNarrow(k.p[b].body[i].args[0].lit.s, x, y);
    assert LastCmp(k.p[b].body, i + 1) == Some(k.p[b].body[i].args[0].lit.s);
  }

  lemma CmpItems(k: Call, b: nat, i: nat)
    requires At(k.p, b, i) && k.p[b].body[i].op == CMP && |k.p[b].body[i].args| == 3
    ensures var n := k.p[b].body[i];
      ItemsOf(k, b, i) ==
        [Ins(LoadInsn(FrameOf(k), n.args[1], R10)), Ins(LoadInsn(FrameOf(k), n.args[2], R11))] +
        [Ins(Insn.Cmp(R10, R11))]
  {
    hide LoadInsn, FrameOf;
  }

  lemma CmpNarrow(k: Call, s: Config)
    requires s.Running? && At(k.p, s.b, s.i) && ComparesNarrow(k.p, k.args, s) && k.p[s.b].body[s.i].op == CMP
    requires |k.p[s.b].body[s.i].args| == 3
    requires var n := k.p[s.b].body[s.i]; IsNum(Eval(n.args[1], k.args, s.env)) && IsNum(Eval(n.args[2], k.args, s.env))
    ensures var n := k.p[s.b].body[s.i];
      Narrow(Eval(n.args[1], k.args, s.env).value.n) && Narrow(Eval(n.args[2], k.args, s.env).value.n)
  {}

  lemma CmpStep(k: Call, s: Config, t: State) returns (t': State)
    requires CallOk(k) && InStep(k, s, t) && k.p[s.b].body[s.i].op == CMP && !Step(k.p, k.args, s).Fault?
    requires ComparesNarrow(k.p, k.args, s)
    ensures Reaches(Items(k), t, t') && InStep(k, Step(k.p, k.args, s), t') && t' != t
  {
    hide Framed, ValuesHeld, FrameOf, Items, Pc, LoadInsn, Reaches, CallOk, Step, CompareFlags, Compare, Met, CondFor,
      W, Condition;
    hide ItemsOf, FlagsOk, ComparesNarrow;
    var b, i, n := s.b, s.i, k.p[s.b].body[s.i];
    CmpStepIs(k, s);
    CmpNarrow(k, s);
    var x, y := Eval(n.args[1], k.args, s.env).value.n, Eval(n.args[2], k.args, s.env).value.n;
    StructuredCall(k);
    var rest: seq<Item> := [Ins(Insn.Cmp(R10, R11))];
    CmpItems(k, b, i);
    ItemsAt(k, b, i);
    var c2 := LoadTwo(k, s, t, n.args[1], n.args[2], rest);
    assert ItemsOf(k, b, i)[2] == rest[0];
    var c3 := c2.(flags := Some(CompareFlags(W(x), W(y))));
    ScratchKeepsFrame(k, c2, R10, c2.regs[R10], c3.flags);
    assert Set(c2, R10, c2.regs[R10]).(flags := c3.flags) == c3;
    Continue(Items(k), t, t.pc + 2, c2, Insn.Cmp(R10, R11), c3);
    ValuesAfterCmp(k, c3.mem, s.env, b, i, if Compare(n.args[0].lit.s, x, y) then 1 else 0);
    NextIsNoBranch(k, b, i);
    FlagsAfterCmp(k, b, i, s.env, c3, x, y);
    t' := Live(t.pc + 3, c3);
  }

  // Values at the start of the block a jump goes to.
  lemma ValuesAlongEdge(k: Call, mem: map<int, Word>, env: map<nat, int>, b: nat, i: nat, c: nat)
    requires WellFormedUnder(k.p, k.d) && b in k.d && At(k.p, b, i) && i == |k.p[b].body| - 1 && Edge(k.p, b, c)
    requires ValuesHeld(k, mem, env, b, i)
    ensures c in k.d && At(k.p, c, 0) && ValuesHeld(k, mem, env, c, 0)
  {
    assert BlockShape(k.p[b]) && BlockShape(k.p[c]);
    forall e: nat, j: nat | Avail(k.p, k.d, c, 0, e, j) && IsArith(k.p[e].body[j].op)
      ensures SlotHeld(k, mem, env, e, j)
    {
      assert Avail(k.p, k.d, b, i, e, j);
    }
  }

  // Both sides of a taken jump.
  lemma JumpStep(k: Call, s: Config, t: State, name: string, c: nat) returns (t': State)
    requires CallOk(k) && s.Running? && s.b in k.d && At(k.p, s.b, s.i) && s.i == |k.p[s.b].body| - 1
    requires Edge(k.p, s.b, c) && k.p[c].name == name && Step(k.p, k.args, s) == Running(c, 0, s.env, s.mem)
    requires t.Live? && Framed(k, t.cpu) && ValuesHeld(k, t.cpu.mem, s.env, s.b, s.i)
    ensures Reaches(Items(k), Jump(Items(k), name, t.cpu), t') && InStep(k, Step(k.p, k.args, s), t')
  {
    hide Framed, ValuesHeld, Items, Pc, Reaches, Step, Jump;
    JumpsToBlock(k, c, t.cpu);
    ValuesAlongEdge(k, t.cpu.mem, s.env, s.b, s.i, c);
    assert NativeNode(k.p, c, 0);
    t' := Live(Pc(k, c, 0), t.cpu);
  }

  lemma GotoStepIs(k: Call, s: Config) returns (name: string, c: nat)
    requires CallOk(k) && s.Running? && At(k.p, s.b, s.i) &&
      (k.p[s.b].body[s.i].op == JMP || k.p[s.b].body[s.i].op == BR)
    requires !Step(k.p, k.args, s).Fault?
    ensures Step(k.p, k.args, s) == Running(c, 0, s.env, s.mem) && Edge(k.p, s.b, c) && s.i == |k.p[s.b].body| - 1
    ensures c < |k.p| && k.p[c].name == name
    ensures var n := k.p[s.b].body[s.i]; if n.op == JMP then name == LabelIn(n, 0) else
      |n.args| == 3 && IsNum(Eval(n.args[0], k.args, s.env)) &&
      name == LabelIn(n, if Eval(n.args[0], k.args, s.env).value.n != 0 then 1 else 2)
  {
    var n := k.p[s.b].body[s.i];
    assert BlockShape(k.p[s.b]) && Shape(n);
    var vals := EvalAll(n.args, k.args, s.env);
    name := Effects(n.op, vals, s.mem).name;
    c := Target(k.p, name).value;
    RI.GotoIsEdge(k.p, s.b, s.i, vals, k.args, s.env, s.mem);
  }

  lemma JmpStep(k: Call, s: Config, t: State) returns (t': State)
    requires CallOk(k) && InStep(k, s, t) && k.p[s.b].body[s.i].op == JMP && !Step(k.p, k.args, s).Fault?
    ensures Advances(Items(k), t, t') && InStep(k, Step(k.p, k.args, s), t')
  {
    hide Framed, ValuesHeld, FrameOf, Items, Pc, Reaches, CallOk, Step, Jump;
    var name, c := GotoStepIs(k, s);
    ItemsAt(k, s.b, s.i);
    assert ItemsOf(k, s.b, s.i)[0] == Ins(Jmp(name));
    t' := JumpStep(k, s, t, name, c);
    assert StepItems(Items(k), t) == Jump(Items(k), name, t.cpu);
  }

  lemma BrStep(k: Call, s: Config, t: State) returns (t': State)
    requires CallOk(k) && InStep(k, s, t) && k.p[s.b].body[s.i].op == BR && !Step(k.p, k.args, s).Fault?
    ensures Advances(Items(k), t, t') && InStep(k, Step(k.p, k.args, s), t')
  {
    hide Framed, ValuesHeld, FrameOf, Items, Pc, Reaches, Advances, CallOk, Step, Jump, Met, CondFor, ItemsOf;
    var b, i, n := s.b, s.i, k.p[s.b].body[s.i];
    var name, c := GotoStepIs(k, s);
    BranchItems(k, b, i);
    BranchTests(k, b, i);
    t' := JumpStep(k, s, t, name, c);
    BranchLands(Items(k), t, CondFor(LastCmp(k.p[b].body, i)), LabelIn(n, 1), LabelIn(n, 2), name, t');
  }

  lemma BranchItems(k: Call, b: nat, i: nat)
    requires At(k.p, b, i) && k.p[b].body[i].op == BR
    ensures var n, pc := k.p[b].body[i], Pc(k, b, i);
      pc + 1 < |Items(k)| && Items(k)[pc] == Ins(Jcc(CondFor(LastCmp(k.p[b].body, i)), LabelIn(n, 1))) &&
      Items(k)[pc + 1] == Ins(Jmp(LabelIn(n, 2)))
  {
    var n := k.p[b].body[i];
    ItemsAt(k, b, i);
    hide Items, Pc;
    var its := ItemsOf(k, b, i);
    assert its == [Ins(Jcc(CondFor(LastCmp(k.p[b].body, i)), LabelIn(n, 1))), Ins(Jmp(LabelIn(n, 2)))];
    assert Items(k)[Pc(k, b, i) + 0] == its[0] && Items(k)[Pc(k, b, i) + 1] == its[1];
  }

  // A conditional jump over a jump arrives at the label its flags select.
  lemma BranchLands(items: seq<Item>, t: State, cond: Cond, yes: string, no: string, name: string, t': State)
    requires t.Live? && 0 <= t.pc < |items| - 1 && items[t.pc] == Ins(Jcc(cond, yes)) && items[t.pc + 1] == Ins(Jmp(no))
    requires t.cpu.flags.Some? && name == (if Met(cond, t.cpu.flags.value) then yes else no)
    requires Reaches(items, Jump(items, name, t.cpu), t')
    ensures Advances(items, t, t')
  {
    hide Jump, Met, Reaches;
    if Met(cond, t.cpu.flags.value) {
      assert StepItems(items, t) == Jump(items, name, t.cpu);
    } else {
      var u := Live(t.pc + 1, t.cpu);
      assert StepItems(items, t) == u;
      ReachesStep(items, u);
      assert StepItems(items, u) == Jump(items, name, t.cpu);
      ReachesMore(items, u, Jump(items, name, t.cpu), t');
    }
  }

  lemma BranchTests(k: Call, b: nat, i: nat)
    requires CallOk(k) && At(k.p, b, i) && k.p[b].body[i].op == BR
    ensures i > 0 && Tests(k.p[b].body[i], k.p[b].body[i - 1])
  {
    assert NativeNode(k.p, b, i);
  }

  // ----- returning -----

  // What the caller sees: everything it may rely on is as it was, and the result is in RAX.
  ghost predicate Returns(k: Call, t: State, v: Option<int>) {
    t.Done? && HeldAt(k.start.mem, Reg64(k.start, RSP), t.to) && Outside(k, t.out.mem) &&
    t.out.regs[RSP] == Reg64(k.start, RSP) + 8 && t.out.regs[RBP] == k.start.regs[RBP] &&
    t.out.regs[RBX] == k.start.regs[RBX] && t.out.regs[RSI] == k.start.regs[RSI] &&
    t.out.regs[RDI] == k.start.regs[RDI] &&
    t.out.regs[12..] == k.start.regs[12..] &&
    (v.Some? ==> t.out.regs[RAX] == W(v.value))
  }

  lemma ReturnsValue(k: Call, t: State, v: int)
    requires Returns(k, t, None) && t.out.regs[RAX] == W(v)
    ensures Returns(k, t, Some(v))
  {}

  function PopOf(r: Reg): Insn<string> { Pop(r) }

  // A pop of a saved word.
  lemma PopRuns(k: Call, c: Cpu, a: int, r: Reg, w: Word)
    requires StackOk(k) && 0 <= a <= Base(k) + 32 && a % 8 == 0 && c.regs[RSP] == a && HeldAt(c.mem, a, w)
    ensures W(a + 8) == a + 8 && Exec(PopOf(r), c) == Some(Set(Set(c, RSP, a + 8), r, w))
  {
    hide FrameOf;
  }

  ghost predicate EpilogueAt(items: seq<Item>, pc: nat) {
    pc + 6 <= |items| && items[pc] == Ins(MovRR(RSP, RBP)) && items[pc + 1] == Ins(PopOf(RDI)) &&
    items[pc + 2] == Ins(PopOf(RSI)) && items[pc + 3] == Ins(PopOf(RBX)) && items[pc + 4] == Ins(PopOf(RBP)) &&
    items[pc + 5] == Ins(Ret)
  }

  // A RET's items: perhaps a load, then the epilogue.
  lemma RetItems(k: Call, b: nat, i: nat)
    requires At(k.p, b, i) && k.p[b].body[i].op == RET
    ensures var n, pc := k.p[b].body[i], Pc(k, b, i); if |n.args| == 0 then EpilogueAt(Items(k), pc) else
      pc < |Items(k)| && Items(k)[pc] == Ins(LoadInsn(FrameOf(k), n.args[0], RAX)) && EpilogueAt(Items(k), pc + 1)
  {
    hide FrameOf, Items, Pc, LoadInsn;
    ItemsAt(k, b, i);
    var n, pc, its := k.p[b].body[i], Pc(k, b, i), ItemsOf(k, b, i);
    var skip := if |n.args| == 0 then 0 else 1;
    if skip == 1 { assert its[0] == Ins(LoadInsn(FrameOf(k), n.args[0], RAX)) && Items(k)[pc + 0] == its[0]; }
    forall x | 0 <= x < 6 ensures Items(k)[pc + skip + x] == EPILOGUE[x] {
      assert its[skip + x] == EPILOGUE[x] && Items(k)[pc + (skip + x)] == its[skip + x];
    }
    assert Items(k)[pc + skip + 0] == EPILOGUE[0] && Items(k)[pc + skip + 1] == EPILOGUE[1];
    assert Items(k)[pc + skip + 2] == EPILOGUE[2] && Items(k)[pc + skip + 3] == EPILOGUE[3];
    assert Items(k)[pc + skip + 4] == EPILOGUE[4] && Items(k)[pc + skip + 5] == EPILOGUE[5];
  }

  // The five restoring instructions and the return, from item pc on.
  lemma EpilogueRuns(k: Call, t0: State, pc: nat, c: Cpu) returns (t: State)
    requires StackOk(k) && Framed(k, c) && Reaches(Items(k), t0, Live(pc, c)) && EpilogueAt(Items(k), pc)
    ensures Reaches(Items(k), t0, t) && t.Done? && Returns(k, t, None) && t.out.regs[RAX] == c.regs[RAX]
  {
    hide FrameOf, Items, Reaches;
    var items, a := Items(k), Base(k);
    var c1 := Set(c, RSP, a);
    Continue(items, t0, pc, c, MovRR(RSP, RBP), c1);
    PopRuns(k, c1, a, RDI, k.start.regs[RDI]);
    var c2 := Set(Set(c1, RSP, a + 8), RDI, k.start.regs[RDI]);
    Continue(items, t0, pc + 1, c1, PopOf(RDI), c2);
    PopRuns(k, c2, a + 8, RSI, k.start.regs[RSI]);
    var c3 := Set(Set(c2, RSP, a + 16), RSI, k.start.regs[RSI]);
    Continue(items, t0, pc + 2, c2, PopOf(RSI), c3);
    PopRuns(k, c3, a + 16, RBX, k.start.regs[RBX]);
    var c4 := Set(Set(c3, RSP, a + 24), RBX, k.start.regs[RBX]);
    Continue(items, t0, pc + 3, c3, PopOf(RBX), c4);
    PopRuns(k, c4, a + 24, RBP, k.start.regs[RBP]);
    var c5 := Set(Set(c4, RSP, a + 32), RBP, k.start.regs[RBP]);
    Continue(items, t0, pc + 4, c4, PopOf(RBP), c5);
    t := RetRuns(k, t0, pc + 5, c5);
    assert c5.regs[12..] == c.regs[12..];
  }

  lemma RetRuns(k: Call, t0: State, pc: nat, c: Cpu) returns (t: State)
    requires StackOk(k) && c.regs[RSP] == Base(k) + 32 && Outside(k, c.mem)
    requires Reaches(Items(k), t0, Live(pc, c)) && pc < |Items(k)| && Items(k)[pc] == Ins(Ret)
    ensures Reaches(Items(k), t0, t) && t.Done? && HeldAt(k.start.mem, Reg64(k.start, RSP), t.to)
    ensures t.out == Set(c, RSP, Reg64(k.start, RSP) + 8)
  {
    hide FrameOf, Items, Reaches;
    t := PopReturn(c);
    ReachesStep(Items(k), Live(pc, c));
    assert StepItems(Items(k), Live(pc, c)) == t;
    ReachesMore(Items(k), t0, Live(pc, c), t);
  }

  lemma RetStepIs(k: Call, s: Config)
    requires CallOk(k) && s.Running? && At(k.p, s.b, s.i) && k.p[s.b].body[s.i].op == RET
    requires !Step(k.p, k.args, s).Fault?
    ensures var n := k.p[s.b].body[s.i]; |n.args| <= 1 && (|n.args| == 1 ==> IsNum(Eval(n.args[0], k.args, s.env)))
    ensures var n := k.p[s.b].body[s.i];
      Step(k.p, k.args, s) ==
        Returned(if |n.args| == 0 then None else Some(Eval(n.args[0], k.args, s.env).value.n), s.mem)
  {
    assert BlockShape(k.p[s.b]) && Shape(k.p[s.b].body[s.i]);
  }

  lemma RetStep(k: Call, s: Config, t: State) returns (t': State)
    requires CallOk(k) && InStep(k, s, t) && k.p[s.b].body[s.i].op == RET && !Step(k.p, k.args, s).Fault?
    ensures Step(k.p, k.args, s).Returned?
    ensures Reaches(Items(k), t, t') && Returns(k, t', Step(k.p, k.args, s).value)
  {
    hide Framed, ValuesHeld, FrameOf, Items, Pc, Reaches, CallOk, Step, LoadInsn, Exec, FlagsOk, Returns;
    var items, b, i, n := Items(k), s.b, s.i, k.p[s.b].body[s.i];
    RetStepIs(k, s);
    RetItems(k, b, i);
    StructuredCall(k);
    ReachesSelf(items, t);
    hide NodeItems, EpilogueAt;
    if |n.args| == 0 {
      t' := EpilogueRuns(k, t, t.pc, t.cpu);
    } else {
      var load, w := LoadInsn(FrameOf(k), n.args[0], RAX), W(Eval(n.args[0], k.args, s.env).value.n);
      LoadOperand(k, t.cpu, s.env, b, i, n.args[0], RAX);
      ScratchKeepsFrame(k, t.cpu, RAX, w, t.cpu.flags);
      Continue(items, t, t.pc, t.cpu, load, Set(t.cpu, RAX, w));
      t' := EpilogueRuns(k, t, t.pc + 1, Set(t.cpu, RAX, w));
      ReturnsValue(k, t', Eval(n.args[0], k.args, s.env).value.n);
    }
  }

  // One step of the interpreter, in at least one of the native code.
  lemma NativeStep(k: Call, s: Config, t: State) returns (t': State)
    requires CallOk(k) && InStep(k, s, t) && !Step(k.p, k.args, s).Fault? && ComparesNarrow(k.p, k.args, s)
    ensures Advances(Items(k), t, t')
    ensures var s' := Step(k.p, k.args, s);
      if s'.Running? then InStep(k, s', t') else s'.Returned? && Returns(k, t', s'.value)
  {
    assert NativeNode(k.p, s.b, s.i);
    var op := k.p[s.b].body[s.i].op;
    hide Framed, ValuesHeld, FrameOf, Items, Pc, Reaches, Advances, CallOk, Step, NativeNode, FlagsOk, ComparesNarrow;
    if IsArith(op) { t' := ArithStep(k, s, t); MovedAdvances(Items(k), t, t'); }
    else if op == CMP { t' := CmpStep(k, s, t); MovedAdvances(Items(k), t, t'); }
    else if op == BR { t' := BrStep(k, s, t); }
    else if op == JMP { t' := JmpStep(k, s, t); }
    else { t' := RetStep(k, s, t); MovedAdvances(Items(k), t, t'); }
  }
}
