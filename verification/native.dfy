// Native code simulates the interpreter: every stack slot holds its value's present
// contents, modulo 2^64.

module Native {
  import opened Options
  import opened Ir
  import opened Interp
  import opened Cfg
  import opened Refinement
  import RI = RunInvariant
  import opened X86
  import opened Assembler
  import opened Machine
  import opened Codegen

  // ----- the functions it is about -----

  ghost predicate NamesArith(p: Prog, u: nat) {
    forall c, j :: At(p, c, j) && p[c].body[j].uid == u ==> IsArith(p[c].body[j].op)
  }

  predicate Tests(n: Node, m: Node) { m.op == CMP && |n.args| > 0 && n.args[0] == Ref(m.uid, m.ty) }

  // No memory; a branch tests the comparison directly before it; nothing else reads one.
  ghost predicate NativeNode(p: Prog, b: int, i: int)
    requires At(p, b, i)
  {
    var n := p[b].body[i];
    n.op != LOAD && n.op != STORE &&
    (n.op == BR ==> i > 0 && Tests(n, p[b].body[i - 1])) &&
    (n.op != BR ==> forall v: Value :: v in n.args && v.Ref? ==> NamesArith(p, v.uid))
  }

  ghost predicate NativeReady(p: Prog) { forall b, i :: At(p, b, i) ==> NativeNode(p, b, i) }

  // ----- a call -----

  datatype Call = Call(p: Prog, d: map<nat, set<nat>>, args: seq<int>, windows: bool, start: Cpu)

  // The registers the generated code takes its arguments from.
  function RegsOf(k: Call): seq<Reg> { ArgRegs(k.windows) }

  function FrameOf(k: Call): Frame { Plan(k.p, |k.args|) }

  function Items(k: Call): seq<Item> { Program(k.p, |k.args|, RegsOf(k)) }

  // The frame pointer's value after the prologue.
  function Base(k: Call): int { Reg64(k.start, RSP) - 32 }

  ghost predicate HeldAt(mem: map<int, Word>, a: int, w: Word) { a in mem && mem[a] == w }

  ghost predicate StackOk(k: Call) {
    Reg64(k.start, RSP) % 8 == 0 && Base(k) - FrameOf(k).size >= 0 && Reg64(k.start, RSP) + 8 < WORDS &&
    k.start.regs[RSP] in k.start.mem && FrameOf(k).size % 16 == 0
  }

  // ----- the calling conventions -----

  ghost predicate PassedIn(c: Cpu, r: Reg, args: seq<int>, j: nat) { j < |args| ==> c.regs[r] == W(args[j]) }

  // Integer arguments in section 3.2.3 of the System V AMD64 ABI.
  ghost predicate SystemVPassed(c: Cpu, args: seq<int>) {
    |args| <= 6 && PassedIn(c, RDI, args, 0) && PassedIn(c, RSI, args, 1) && PassedIn(c, RDX, args, 2) &&
    PassedIn(c, RCX, args, 3) && PassedIn(c, R8, args, 4) && PassedIn(c, R9, args, 5)
  }

  // Integer arguments in the x64 convention of Windows.
  ghost predicate WindowsPassed(c: Cpu, args: seq<int>) {
    |args| <= 4 && PassedIn(c, RCX, args, 0) && PassedIn(c, RDX, args, 1) && PassedIn(c, R8, args, 2) &&
    PassedIn(c, R9, args, 3)
  }

  ghost predicate Passed(windows: bool, c: Cpu, args: seq<int>) {
    if windows then WindowsPassed(c, args) else SystemVPassed(c, args)
  }

  // The generator's table names the registers of the convention, in its order.
  lemma TableFollowsConvention(windows: bool, c: Cpu, args: seq<int>)
    ensures Passed(windows, c, args) <==>
      |args| <= |ArgRegs(windows)| && forall j :: 0 <= j < |args| ==> c.regs[ArgRegs(windows)[j]] == W(args[j])
  {
    hide W;
    var regs := ArgRegs(windows);
    if |args| <= |regs| && forall j :: 0 <= j < |args| ==> c.regs[regs[j]] == W(args[j]) {
      forall j | 0 <= j < |regs| ensures PassedIn(c, regs[j], args, j) {}
      assert PassedIn(c, regs[0], args, 0) && PassedIn(c, regs[1], args, 1) && PassedIn(c, regs[2], args, 2);
      assert PassedIn(c, regs[3], args, 3);
      if !windows { assert PassedIn(c, regs[4], args, 4) && PassedIn(c, regs[5], args, 5); }
    }
  }

  // Arguments in registers, an aligned stack with room for a frame below two
  // gigabytes, a return address on top.
  ghost predicate CallOk(k: Call) {
    WellFormedUnder(k.p, k.d) && NativeReady(k.p) && UniqueLabels(Items(k)) &&
    Passed(k.windows, k.start, k.args) && StackOk(k) && FrameOf(k).size < 0x8000_0000
  }

  ghost predicate Outside(k: Call, mem: map<int, Word>) {
    forall a :: !(Base(k) - FrameOf(k).size <= a < Base(k) + 32) ==>
      (a in mem <==> a in k.start.mem) && (a in mem ==> mem[a] == k.start.mem[a])
  }

  ghost predicate Saved(k: Call, mem: map<int, Word>) {
    HeldAt(mem, Base(k), k.start.regs[RDI]) && HeldAt(mem, Base(k) + 8, k.start.regs[RSI]) &&
    HeldAt(mem, Base(k) + 16, k.start.regs[RBX]) && HeldAt(mem, Base(k) + 24, k.start.regs[RBP])
  }

  ghost predicate Framed(k: Call, c: Cpu) {
    c.regs[RBP] == Base(k) && c.regs[RSP] == Base(k) - FrameOf(k).size && c.regs[12..] == k.start.regs[12..] &&
    Outside(k, c.mem) && Saved(k, c.mem) &&
    forall j :: 0 <= j < |k.args| ==> HeldAt(c.mem, Base(k) - ArgSlot(j), W(k.args[j]))
  }

  // Each available value is in its slot.
  ghost predicate ValuesHeld(k: Call, mem: map<int, Word>, env: map<nat, int>, b: int, i: int) {
    forall e: nat, j: nat :: Avail(k.p, k.d, b, i, e, j) && IsArith(k.p[e].body[j].op) ==>
      SlotHeld(k, mem, env, e, j)
  }

  ghost predicate SlotHeld(k: Call, mem: map<int, Word>, env: map<nat, int>, e: nat, j: nat)
    requires At(k.p, e, j)
  {
    k.p[e].body[j].uid in env &&
    HeldAt(mem, Base(k) - OffsetAt(k.p, |k.args|, e, j), W(env[k.p[e].body[j].uid]))
  }

  // ----- runs of items -----

  ghost predicate Reaches(items: seq<Item>, s: State, t: State) { exists n :: RunItems(items, s, n) == t }

  // The same in at least one step.
  ghost predicate Advances(items: seq<Item>, s: State, t: State) { Reaches(items, StepItems(items, s), t) }

  lemma AdvancesReaches(items: seq<Item>, s: State, t: State)
    requires Advances(items, s, t)
    ensures Reaches(items, s, t)
  {
    hide Reaches;
    ReachesStep(items, s);
    ReachesMore(items, s, StepItems(items, s), t);
  }

  // A run that ends elsewhere took a step.
  lemma MovedAdvances(items: seq<Item>, s: State, t: State)
    requires Reaches(items, s, t) && s != t
    ensures Advances(items, s, t)
  {
    var n: nat :| RunItems(items, s, n) == t;
    assert n > 0 && RunItems(items, StepItems(items, s), n - 1) == t;
  }

  lemma ReachesSelf(items: seq<Item>, s: State)
    ensures Reaches(items, s, s)
  {
    assert RunItems(items, s, 0) == s;
  }

  lemma ReachesMore(items: seq<Item>, s: State, t: State, u: State)
    requires Reaches(items, s, t) && Reaches(items, t, u)
    ensures Reaches(items, s, u)
  {
    hide RunItems;
    var m :| RunItems(items, s, m) == t;
    var n :| RunItems(items, t, n) == u;
    RunItemsSplit(items, s, m, n);
  }

  lemma ReachesStep(items: seq<Item>, s: State)
    ensures Reaches(items, s, StepItems(items, s))
  {
    assert RunItems(items, StepItems(items, s), 0) == StepItems(items, s);
    assert RunItems(items, s, 1) == StepItems(items, s);
  }

  // One instruction that falls through, after whatever came before.
  lemma Continue(items: seq<Item>, s: State, pc: nat, c: Cpu, i: Insn<string>, c': Cpu)
    requires Reaches(items, s, Live(pc, c)) && pc < |items| && items[pc] == Ins(i)
    requires FallsThrough(i) && Exec(i, c) == Some(c')
    ensures Reaches(items, s, Live(pc + 1, c'))
  {
    ReachesStep(items, Live(pc, c));
    hide Exec, Reaches;
    assert StepItems(items, Live(pc, c)) == Live(pc + 1, c');
    ReachesMore(items, s, Live(pc, c), Live(pc + 1, c'));
  }

  // ----- loads and stores -----

  lemma AddressWraps(k: Call, x: int)
    requires StackOk(k) && -(FrameOf(k).size as int) <= x <= 32
    ensures W(Base(k) + x) == Base(k) + x
  {
    hide FrameOf;
  }

  // A word of the frame, through the frame pointer.
  lemma LoadWord(k: Call, c: Cpu, offset: nat, r: Reg, w: Word)
    requires StackOk(k) && c.regs[RBP] == Base(k) && offset <= FrameOf(k).size && offset % 8 == 0
    requires HeldAt(c.mem, Base(k) - offset, w)
    ensures Exec(LoadAt(r, offset), c) == Some(Set(c, r, w))
  {
    hide FrameOf, StackOk, Base;
    AddressWraps(k, -(offset as int));
    BaseAligned(k);
  }

  lemma BaseAligned(k: Call)
    requires StackOk(k)
    ensures Base(k) % 8 == 0
  {
    hide FrameOf;
  }

  lemma StoreWord(k: Call, c: Cpu, offset: nat, r: Reg)
    requires StackOk(k) && c.regs[RBP] == Base(k) && offset <= FrameOf(k).size && offset % 8 == 0
    ensures Exec(StoreAt(offset, r), c) == Some(c.(mem := c.mem[Base(k) - offset := c.regs[r]]))
  {
    hide FrameOf, StackOk, Base;
    AddressWraps(k, -(offset as int));
    BaseAligned(k);
  }

  lemma LoadArg(k: Call, c: Cpu, j: nat, r: Reg)
    requires StackOk(k) && Framed(k, c) && j < |k.args|
    ensures Exec(LoadAt(r, ArgSlot(j)), c) == Some(Set(c, r, W(k.args[j])))
  {
    ArgSlotsInside(k.p, |k.args|, j);
    hide Plan;
    LoadWord(k, c, ArgSlot(j), r, W(k.args[j]));
  }

  // The slot of the value computed at (e, j).
  lemma SlotFacts(k: Call, e: int, j: int)
    requires Structured(k.p) && At(k.p, e, j) && IsArith(k.p[e].body[j].op)
    ensures var u, x := k.p[e].body[j].uid, OffsetAt(k.p, |k.args|, e, j);
      u in FrameOf(k).slots && FrameOf(k).slots[u] == x && x % 8 == 0 && 8 * |k.args| < x && x + 8 <= FrameOf(k).size
  {
    assert BlockShape(k.p[e]) && Shape(k.p[e].body[j]);
    SlotOf(k.p, |k.args|, e, j);
    SlotsDisjoint(k.p, |k.args|, e, j, e, j);
  }

  lemma LoadSlot(k: Call, c: Cpu, env: map<nat, int>, b: int, i: int, e: nat, j: nat, r: Reg)
    requires StackOk(k) && Structured(k.p) && Framed(k, c) && ValuesHeld(k, c.mem, env, b, i)
    requires Avail(k.p, k.d, b, i, e, j) && IsArith(k.p[e].body[j].op)
    ensures k.p[e].body[j].uid in env && k.p[e].body[j].uid in FrameOf(k).slots
    ensures var u := k.p[e].body[j].uid; Exec(LoadAt(r, FrameOf(k).slots[u]), c) == Some(Set(c, r, W(env[u])))
  {
    SlotFacts(k, e, j);
    assert SlotHeld(k, c.mem, env, e, j);
    hide FrameOf, OffsetAt;
    LoadWord(k, c, OffsetAt(k.p, |k.args|, e, j), r, W(env[k.p[e].body[j].uid]));
  }

  // A value operand, loaded into a scratch register.
  lemma LoadOperand(k: Call, c: Cpu, env: map<nat, int>, b: nat, i: nat, v: Value, r: Reg)
    requires CallOk(k) && Framed(k, c) && ValuesHeld(k, c.mem, env, b, i) && b in k.d && At(k.p, b, i)
    requires v in k.p[b].body[i].args && k.p[b].body[i].op != BR && IsNum(Eval(v, k.args, env))
    ensures FallsThrough(LoadInsn(FrameOf(k), v, r))
    ensures Exec(LoadInsn(FrameOf(k), v, r), c) == Some(Set(c, r, W(Eval(v, k.args, env).value.n)))
    ensures Loadable(FrameOf(k), v)
  {
    match v
    case Const(_, lit, _) =>
    case Arg(j) => LoadArg(k, c, j, r);
    case Ref(u, _) =>
      assert NodeOk(k.p, k.d, b, i) && OperandOk(k.p, k.d, b, i, v) && NativeNode(k.p, b, i) && NamesArith(k.p, u);
      var e, j :| Defines(k.p, k.d, b, i, v, e, j);
      assert Avail(k.p, k.d, b, i, e, j);
      LoadSlot(k, c, env, b, i, e, j, r);
  }

  predicate Scratch(r: Reg) { r == RAX || r == R10 || r == R11 }

  lemma ScratchKeepsFrame(k: Call, c: Cpu, r: Reg, w: Word, f: Option<Flags>)
    requires Framed(k, c) && Scratch(r)
    ensures Framed(k, Set(c, r, w).(flags := f))
  {
    assert c.regs[r := w][12..] == c.regs[12..];
  }

  // Writing a value's slot changes no other slot, no argument and nothing saved.
  lemma StoreSlot(k: Call, c: Cpu, env: map<nat, int>, b: nat, i: nat, v: int)
    requires StackOk(k) && Structured(k.p) && Framed(k, c) && ValuesHeld(k, c.mem, env, b, i)
    requires At(k.p, b, i) && IsArith(k.p[b].body[i].op) && c.regs[R10] == W(v)
    ensures k.p[b].body[i].uid in FrameOf(k).slots
    ensures var u := k.p[b].body[i].uid;
      var s := Exec(StoreAt(FrameOf(k).slots[u], R10), c);
      s.Some? && Framed(k, s.value) && ValuesHeld(k, s.value.mem, env[u := v], b, i + 1) && s.value.flags == c.flags
  {
    hide FrameOf, OffsetAt, Framed, ValuesHeld, StackOk, Structured, Exec;
    var x := OffsetAt(k.p, |k.args|, b, i);
    SlotFacts(k, b, i);
    FrameBase(k, c);
    StoreWord(k, c, x, R10);
    StoreKeepsFrame(k, c, x, W(v));
    StoreKeepsValues(k, c.mem, env, b, i, v);
  }

  lemma FrameBase(k: Call, c: Cpu)
    requires Framed(k, c)
    ensures c.regs[RBP] == Base(k)
  {}

  lemma StoreKeepsValues(k: Call, mem: map<int, Word>, env: map<nat, int>, b: nat, i: nat, v: int)
    requires Structured(k.p) && ValuesHeld(k, mem, env, b, i) && At(k.p, b, i) && IsArith(k.p[b].body[i].op)
    ensures ValuesHeld(k, mem[Base(k) - OffsetAt(k.p, |k.args|, b, i) := W(v)], env[k.p[b].body[i].uid := v], b, i + 1)
  {
    hide OffsetAt, W, Structured;
    var u, x := k.p[b].body[i].uid, OffsetAt(k.p, |k.args|, b, i);
    forall e: nat, j: nat | Avail(k.p, k.d, b, i + 1, e, j) && IsArith(k.p[e].body[j].op)
      ensures SlotHeld(k, mem[Base(k) - x := W(v)], env[u := v], e, j)
    {
      if !(e == b && j == i) { OtherSlot(k, mem, env, b, i, e, j, v); }
    }
  }

  lemma StoreKeepsFrame(k: Call, c: Cpu, x: nat, w: Word)
    requires Framed(k, c) && 8 * |k.args| < x && x + 8 <= FrameOf(k).size
    ensures Framed(k, c.(mem := c.mem[Base(k) - x := w]))
  {
    hide FrameOf;
    var mem := c.mem[Base(k) - x := w];
    forall j | 0 <= j < |k.args| ensures HeldAt(mem, Base(k) - ArgSlot(j), W(k.args[j])) {}
  }

  lemma OtherSlot(k: Call, mem: map<int, Word>, env: map<nat, int>, b: nat, i: nat, e: nat, j: nat, v: int)
    requires Structured(k.p) && ValuesHeld(k, mem, env, b, i) && At(k.p, b, i) && IsArith(k.p[b].body[i].op)
    requires Avail(k.p, k.d, b, i + 1, e, j) && IsArith(k.p[e].body[j].op) && !(e == b && j == i)
    ensures SlotHeld(k, mem[Base(k) - OffsetAt(k.p, |k.args|, b, i) := W(v)], env[k.p[b].body[i].uid := v], e, j)
  {
    assert BlockShape(k.p[b]) && Shape(k.p[b].body[i]);
    assert BlockShape(k.p[e]) && Shape(k.p[e].body[j]);
    SlotsDisjoint(k.p, |k.args|, b, i, e, j);
    hide OffsetAt;
    assert Avail(k.p, k.d, b, i, e, j) && SlotHeld(k, mem, env, e, j);
  }

  // ----- where the items of a position stand -----

  function Pc(k: Call, b: nat, i: nat): nat
    requires b < |k.p| && i <= |k.p[b].body|
  {
    |Emitted(k.p, FrameOf(k), RegsOf(k), b, i)|
  }

  function ItemsOf(k: Call, b: nat, i: nat): seq<Item>
    requires At(k.p, b, i)
  {
    NodeItems(FrameOf(k), k.p[b].body[i], LastCmp(k.p[b].body, i))
  }

  lemma ItemsAt(k: Call, b: nat, i: nat)
    requires At(k.p, b, i)
    ensures Pc(k, b, i + 1) == Pc(k, b, i) + |ItemsOf(k, b, i)| <= |Items(k)|
    ensures forall x :: 0 <= x < |ItemsOf(k, b, i)| ==> Items(k)[Pc(k, b, i) + x] == ItemsOf(k, b, i)[x]
  {
    hide NodeItems, Plan, Program, Emitted;
    EmittedNext(k.p, FrameOf(k), RegsOf(k), b, i);
    EmittedInProgram(k.p, |k.args|, RegsOf(k), b, i + 1);
  }

  lemma MarkAt(k: Call, b: nat)
    requires b < |k.p|
    ensures 0 < Pc(k, b, 0) <= |Items(k)| && Items(k)[Pc(k, b, 0) - 1] == Mark(k.p[b].name)
  {
    EmittedInProgram(k.p, |k.args|, RegsOf(k), b, 0);
    hide NodeItems, Entry, Plan, Program;
    assert Emitted(k.p, FrameOf(k), RegsOf(k), b, 0)[Pc(k, b, 0) - 1] == Mark(k.p[b].name);
  }

  // Declared labels are unique, so the search finds the declaration.
  lemma {:induction false} FindsTheMark(items: seq<Item>, name: string, m: nat, k: nat)
    requires UniqueLabels(items) && m < k <= |items| && items[m] == Mark(name)
    ensures Find(items, name, k) == Some(m)
  {
    var r := Find(items, name, k);
    if k - 1 > m {
      if items[k - 1] == Mark(name) { MarksDiffer(items, m, k - 1); }
      FindsTheMark(items, name, m, k - 1);
    }
  }

  lemma {:induction false} MarkInLabels(items: seq<Item>, m: nat, name: string)
    requires m < |items| && items[m] == Mark(name)
    ensures name in Labels(items)
  {
    if m < |items| - 1 { MarkInLabels(items[..|items| - 1], m, name); }
  }

  lemma {:induction false} MarksDiffer(items: seq<Item>, m: nat, n: nat)
    requires UniqueLabels(items) && m < n < |items| && items[m].Mark?
    ensures items[m] != items[n]
  {
    var init := items[..|items| - 1];
    if n == |items| - 1 {
      MarkInLabels(init, m, items[m].name);
    } else {
      MarksDiffer(init, m, n);
    }
  }

  // A jump to a block's label continues with the block's first item.
  lemma JumpsToBlock(k: Call, b: nat, c: Cpu)
    requires UniqueLabels(Items(k)) && b < |k.p|
    ensures Jump(Items(k), k.p[b].name, c).Live?
    ensures Reaches(Items(k), Jump(Items(k), k.p[b].name, c), Live(Pc(k, b, 0), c))
  {
    var items, m := Items(k), Pc(k, b, 0) - 1;
    MarkAt(k, b);
    FindsTheMark(items, k.p[b].name, m, |items|);
    hide Items, Pc;
    ReachesStep(items, Live(m, c));
  }

  // ----- arithmetic modulo 2^64 -----

  lemma ModSame(x: int, y: int, q: int)
    requires x == y + q * WORDS
    ensures W(x) == W(y)
  {}

  lemma WrapArith(op: Opcode, x: int, y: int)
    requires IsArith(op)
    ensures W(Arith(op, W(x), W(y))) == W(Arith(op, x, y))
  {
    var qx, qy := x / WORDS, y / WORDS;
    var a: int, b: int := W(x), W(y);
    assert x == a + qx * WORDS && y == b + qy * WORDS;
    match op
    case ADD => ModSame(x + y, a + b, qx + qy);
    case SUB => ModSame(x - y, a - b, qx - qy);
    case MUL =>
      assert x * y == a * b + (a * qy + qx * b + qx * qy * WORDS) * WORDS;
      ModSame(x * y, a * b, a * qy + qx * b + qx * qy * WORDS);
  }

  // Comparing words compares the signed numbers they hold.
  lemma CompareNarrow(cond: string, x: int, y: int)
    requires Condition(cond) && Narrow(x) && Narrow(y)
    ensures Met(CondFor(Some(cond)), CompareFlags(W(x), W(y))) <==> Compare(cond, x, y)
  {
    assert Signed(W(x)) == x && Signed(W(y)) == y;
    var f := CompareFlags(W(x), W(y));
    assert f.zero <==> x == y;
    assert (f.sign != f.overflow) <==> x < y;
  }

  // Without a comparison before it in its block, a branch tests a word against zero.
  lemma FallbackIsTruthTest(w: Word)
    ensures Met(CondFor(None), CompareFlags(w, 0)) <==> w != 0
  {}
}
