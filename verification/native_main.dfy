// Entering native code, and the whole run.

module NativeMain {
  import opened Options
  import opened Ir
  import opened Interp
  import opened Cfg
  import opened Refinement
  import RI = RunInvariant
  import opened X86
  import opened Assembler
  import opened Machine
  import opened Codegen
  import opened Native
  import opened Simulation

  // After the prologue and j argument moves: only the two stack registers have changed.
  ghost predicate Entered(k: Call, c: Cpu, j: nat) {
    j <= |k.args| && c.regs == k.start.regs[RSP := W(Base(k) - FrameOf(k).size)][RBP := W(Base(k))] &&
    Outside(k, c.mem) && Saved(k, c.mem) &&
    forall x :: 0 <= x < j ==> HeldAt(c.mem, Base(k) - ArgSlot(x), W(k.args[x]))
  }

  lemma {:induction false} ArgMovesItems(regs: seq<Reg>, k: nat, x: nat)
    requires x < k <= |regs|
    ensures |ArgMoves(regs, k)| == k && ArgMoves(regs, k)[x] == Ins(StoreAt(ArgSlot(x), regs[x]))
  {
    if k > 1 {
      if x < k - 1 { ArgMovesItems(regs, k - 1, x); } else { ArgMovesItems(regs, k - 1, 0); }
    }
  }

  lemma {:induction false} ArgMovesCount(regs: seq<Reg>, k: nat)
    requires k <= |regs|
    ensures |ArgMoves(regs, k)| == k
  {
    if k > 0 { ArgMovesItems(regs, k, 0); }
  }

  // Whatever the number of arguments, those that have a register are stored, in order, and
  // nothing else is.
  lemma EntryStores(f: Frame, regs: seq<Reg>, x: nat)
    requires x < f.argCount && x < |regs|
    ensures |Entry(f, regs)| == 6 + if f.argCount < |regs| then f.argCount else |regs|
    ensures Entry(f, regs)[6 + x] == Ins(StoreAt(ArgSlot(x), regs[x]))
  {
    var n := if f.argCount < |regs| then f.argCount else |regs|;
    ArgMovesCount(regs, n);
    ArgMovesItems(regs, n, x);
  }

  lemma EntryItems(k: Call)
    requires |k.p| > 0 && |k.args| <= |RegsOf(k)|
    ensures Pc(k, 0, 0) == |k.args| + 7 <= |Items(k)|
    ensures Items(k)[..6] == Prologue(FrameOf(k))
    ensures forall x {:trigger RegsOf(k)[x]} :: 0 <= x < |k.args| ==>
      Items(k)[6 + x] == Ins(StoreAt(ArgSlot(x), RegsOf(k)[x]))
    ensures Items(k)[|k.args| + 6].Mark?
  {
    var f, last, n := FrameOf(k), |k.p| - 1, |k.args|;
    assert f.argCount == n;
    hide Plan, ArgMoves, NodeItems, FrameOf, RegsOf;
    EmittedGrows(k.p, f, RegsOf(k), 0, 0, last, |k.p[last].body|);
    var e := Emitted(k.p, f, RegsOf(k), 0, 0);
    ArgMovesCount(RegsOf(k), n);
    assert e == Prologue(f) + ArgMoves(RegsOf(k), n) + [Mark(k.p[0].name)];
    hide Emitted, NodeItems;
    forall x | 0 <= x < n ensures Items(k)[6 + x] == Ins(StoreAt(ArgSlot(x), RegsOf(k)[x])) {
      ArgMovesItems(RegsOf(k), n, x);
      assert e[6 + x] == ArgMoves(RegsOf(k), n)[x];
    }
  }

  function PushOf(r: Reg): Insn<string> { Push(r) }

  lemma PushRuns(k: Call, c: Cpu, a: int, r: Reg)
    requires StackOk(k) && 0 <= a && a + 8 <= Base(k) + 32 && a % 8 == 0 && c.regs[RSP] == a + 8
    ensures Exec(PushOf(r), c) == Some(Set(c, RSP, W(a)).(mem := c.mem[a := c.regs[r]]))
  {
    hide FrameOf;
  }

  lemma PushStep(k: Call, s: State, pc: nat, c: Cpu, a: int, r: Reg) returns (c': Cpu)
    requires StackOk(k) && 0 <= a && a + 8 <= Base(k) + 32 && a % 8 == 0 && c.regs[RSP] == a + 8
    requires Reaches(Items(k), s, Live(pc, c)) && pc < |Items(k)| && Items(k)[pc] == Ins(PushOf(r))
    ensures Reaches(Items(k), s, Live(pc + 1, c'))
    ensures c' == Set(c, RSP, W(a)).(mem := c.mem[a := c.regs[r]])
  {
    PushRuns(k, c, a, r);
    hide FrameOf, Items, Reaches, Exec, StackOk;
    c' := Set(c, RSP, W(a)).(mem := c.mem[a := c.regs[r]]);
    Continue(Items(k), s, pc, c, PushOf(r), c');
  }

  function PushedMemory(k: Call): map<int, Word> {
    var a, regs := Base(k), k.start.regs;
    k.start.mem[a + 24 := regs[RBP]][a + 16 := regs[RBX]][a + 8 := regs[RSI]][a := regs[RDI]]
  }

  lemma PushedFacts(k: Call)
    ensures Outside(k, PushedMemory(k)) && Saved(k, PushedMemory(k))
  {
    hide FrameOf;
  }

  lemma PrologueItems(k: Call)
    requires 6 <= |Items(k)| && Items(k)[..6] == Prologue(FrameOf(k))
    ensures Items(k)[0] == Ins(PushOf(RBP)) && Items(k)[1] == Ins(PushOf(RBX)) && Items(k)[2] == Ins(PushOf(RSI))
    ensures Items(k)[3] == Ins(PushOf(RDI)) && Items(k)[4] == Ins(MovRR(RBP, RSP))
    ensures Items(k)[5] == Ins(SubImm(RSP, FrameOf(k).size))
  {
    hide FrameOf, Items;
    var items, its := Items(k), Prologue(FrameOf(k));
    assert items[0] == items[..6][0] && items[1] == items[..6][1] && items[2] == items[..6][2];
    assert items[3] == items[..6][3] && items[4] == items[..6][4] && items[5] == items[..6][5];
  }

  lemma StackFacts(k: Call)
    requires StackOk(k)
    ensures Base(k) >= 0 && Base(k) % 8 == 0 && k.start.regs[RSP] == Base(k) + 32 && W(Base(k) + 24) == Base(k) + 24
    ensures W(Base(k) + 16) == Base(k) + 16 && W(Base(k) + 8) == Base(k) + 8 && W(Base(k)) == Base(k)
  {
    hide FrameOf;
  }

  // The four pushes.
  lemma PushesRun(k: Call) returns (c: Cpu)
    requires StackOk(k) && 6 <= |Items(k)| && Items(k)[..6] == Prologue(FrameOf(k))
    ensures Reaches(Items(k), Live(0, k.start), Live(4, c)) && c.regs == k.start.regs[RSP := W(Base(k))] &&
      c.flags == k.start.flags
    ensures Outside(k, c.mem) && Saved(k, c.mem)
  {
    hide FrameOf, Items, Reaches, StackOk, Outside, Saved, W, Base;
    PrologueItems(k);
    PushedFacts(k);
    StackFacts(k);
    var s, a := Live(0, k.start), Base(k);
    ReachesSelf(Items(k), s);
    c := PushStep(k, s, 0, k.start, a + 24, RBP);
    c := PushStep(k, s, 1, c, a + 16, RBX);
    c := PushStep(k, s, 2, c, a + 8, RSI);
    c := PushStep(k, s, 3, c, a, RDI);
    assert c.mem == PushedMemory(k);
  }

  lemma PrologueRuns(k: Call) returns (c: Cpu)
    requires StackOk(k) && 6 <= |Items(k)| && Items(k)[..6] == Prologue(FrameOf(k))
    ensures Reaches(Items(k), Live(0, k.start), Live(6, c)) && Entered(k, c, 0)
  {
    hide FrameOf, Items, Reaches, Outside, Saved, W;
    var items, s, a := Items(k), Live(0, k.start), Base(k);
    PrologueItems(k);
    var c4 := PushesRun(k);
    var c5 := Set(c4, RBP, W(a));
    Continue(items, s, 4, c4, MovRR(RBP, RSP), c5);
    AddressWraps(k, 0);
    c := Set(c5, RSP, W(a - FrameOf(k).size)).(flags := None);
    Continue(items, s, 5, c5, SubImm(RSP, FrameOf(k).size), c);
    assert c.regs == k.start.regs[RSP := W(a - FrameOf(k).size)][RBP := W(a)];
  }

  // ----- the frame on the bytes -----

  // The bytes reach item pc in that many steps.
  ghost predicate BytesReach(items: seq<Item>, start: Cpu, pc: nat, c: Cpu)
    requires Assembles(items)
  {
    pc <= |items| && RunCode(Link(items), Live(0, start), pc) == Live(Address(items, pc), c)
  }

  lemma BytesContinue(items: seq<Item>, start: Cpu, pc: nat, c: Cpu, i: Insn<string>, c': Cpu)
    requires Assembles(items) && pc < |items| && items[pc] == Ins(i) && ReadAsWritten(i)
    requires BytesReach(items, start, pc, c) && FallsThrough(i) && Exec(i, c) == Some(c')
    ensures BytesReach(items, start, pc + 1, c')
  {
    hide Exec, Assembles, Link, Address, StepCode, ReadAsWritten;
    ExecPlaced(items, pc, c);
    RunCodeNext(Link(items), Live(0, start), pc);
  }

  lemma BytesPush(k: Call, pc: nat, c: Cpu, a: int, r: Reg) returns (c': Cpu)
    requires StackOk(k) && 0 <= a && a + 8 <= Base(k) + 32 && a % 8 == 0 && c.regs[RSP] == a + 8
    requires Assembles(Items(k)) && pc < |Items(k)| && Items(k)[pc] == Ins(PushOf(r)) &&
      BytesReach(Items(k), k.start, pc, c)
    ensures BytesReach(Items(k), k.start, pc + 1, c') && c'.regs == c.regs[RSP := W(a)]
  {
    PushRuns(k, c, a, r);
    hide FrameOf, Items, Exec, StackOk, BytesReach, Assembles;
    c' := Set(c, RSP, W(a)).(mem := c.mem[a := c.regs[r]]);
    BytesContinue(Items(k), k.start, pc, c, PushOf(r), c');
  }

  // The four pushes and the new frame pointer, in bytes.
  lemma BytesEnter(k: Call) returns (c: Cpu)
    requires StackOk(k) && Assembles(Items(k)) && 6 <= |Items(k)| && Items(k)[..6] == Prologue(FrameOf(k))
    ensures BytesReach(Items(k), k.start, 5, c) && Reg64(c, RSP) == W(Base(k))
  {
    hide FrameOf, Items, BytesReach, StackOk, W, Base, Assembles, Link;
    PrologueItems(k);
    StackFacts(k);
    BytesStart(k);
    var a := Base(k);
    c := BytesPush(k, 0, k.start, a + 24, RBP);
    c := BytesPush(k, 1, c, a + 16, RBX);
    c := BytesPush(k, 2, c, a + 8, RSI);
    c := BytesPush(k, 3, c, a, RDI);
    var c5 := Set(c, RBP, c.regs[RSP]);
    BytesContinue(Items(k), k.start, 4, c, MovRR(RBP, RSP), c5);
    c := c5;
  }

  lemma BytesStart(k: Call)
    requires Assembles(Items(k))
    ensures BytesReach(Items(k), k.start, 0, k.start)
  {
    NoAddress(Items(k));
    hide Link, Items;
  }

  // The processor after the compiled prologue.
  ghost predicate AfterPrologue(k: Call, c: Cpu) {
    Assembles(Items(k)) && BytesReach(Items(k), k.start, 6, c)
  }

  // The compiled prologue makes room for the frame exactly when the frame is below two
  // gigabytes; a larger one that the assembler accepts moves the stack pointer up instead.
  lemma FrameMadeExactly(k: Call) returns (c: Cpu)
    requires StackOk(k) && Assembles(Items(k)) && 0 < |k.p| && |k.args| <= |RegsOf(k)|
    ensures AfterPrologue(k, c)
    ensures Reg64(c, RSP) == W(Base(k) - FrameOf(k).size) <==> FrameOf(k).size < 0x8000_0000
    ensures FrameOf(k).size >= 0x8000_0000 ==> Reg64(c, RSP) == W(Base(k) + (0x1_0000_0000 - FrameOf(k).size))
  {
    hide FrameOf, Items, BytesReach, StackOk, Base, Assembles, Link, W, SignExtended, Prologue, Reg64;
    PrologueFirst(k);
    var c5 := BytesEnter(k);
    PrologueItems(k);
    c := BytesSubtract(Items(k), k.start, c5, FrameOf(k).size);
    StackFacts(k);
    WrapsApart(Base(k), FrameOf(k).size);
  }

  lemma PrologueFirst(k: Call)
    requires 0 < |k.p| && |k.args| <= |RegsOf(k)|
    ensures 6 <= |Items(k)| && Items(k)[..6] == Prologue(FrameOf(k))
  {
    hide FrameOf, Items, Prologue;
    EntryItems(k);
  }

  lemma WrapsApart(a: nat, size: nat)
    requires W(a) == a && size < 0x1_0000_0000
    ensures W(a - SignExtended(size)) == W(a - size) <==> size < 0x8000_0000
    ensures size >= 0x8000_0000 ==> W(a - SignExtended(size)) == W(a + (0x1_0000_0000 - size))
  {}

  lemma BytesSubtract(items: seq<Item>, start: Cpu, c: Cpu, size: nat) returns (c': Cpu)
    requires Assembles(items) && 6 <= |items| && items[5] == Ins(SubImm(RSP, size)) && BytesReach(items, start, 5, c)
    ensures BytesReach(items, start, 6, c') && size < 0x1_0000_0000
    ensures Reg64(c', RSP) == W(Reg64(c, RSP) - SignExtended(size))
  {
    hide Assembles, Link, Address, StepCode, W, SignExtended;
    RunCodeNext(Link(items), Live(0, start), 5);
    c' := SubtractSteps(items, 5, c, size);
  }

  lemma SubtractSteps(items: seq<Item>, k: nat, c: Cpu, size: nat) returns (c': Cpu)
    requires Assembles(items) && k < |items| && items[k] == Ins(SubImm(RSP, size))
    ensures StepCode(Link(items), Live(Address(items, k), c)) == Live(Address(items, k + 1), c')
    ensures Reg64(c', RSP) == W(Reg64(c, RSP) - SignExtended(size)) && size < 0x1_0000_0000
  {
    hide Assembles, Link, Address, Decode, W, Resolved, SignExtended;
    AssembledDecodes(items, k);
    AddressInCode(items, k);
    AssemblesAt(items, k);
    SubtractResolves(items, k, size);
    c' := Set(c, RSP, W(Reg64(c, RSP) - SignExtended(size))).(flags := None);
  }

  lemma SubtractResolves(items: seq<Item>, k: nat, size: nat)
    requires k < |items| && items[k] == Ins(SubImm(RSP, size))
    ensures Resolved(items, k) == Some(SubImm(RSP, size))
  {
    hide Address, Labels;
  }

  lemma {:induction false} ArgMovesRun(k: Call, c0: Cpu, j: nat) returns (c: Cpu)
    requires CallOk(k) && j <= |k.args| && Entered(k, c0, 0)
    requires Reaches(Items(k), Live(0, k.start), Live(6, c0))
    ensures Reaches(Items(k), Live(0, k.start), Live(6 + j, c)) && Entered(k, c, j)
  {
    if j == 0 {
      c := c0;
    } else {
      var b := ArgMovesRun(k, c0, j - 1);
      c := OneMove(k, b, j - 1);
    }
  }

  lemma OneMove(k: Call, b: Cpu, j: nat) returns (c: Cpu)
    requires CallOk(k) && j < |k.args| && Entered(k, b, j)
    requires Reaches(Items(k), Live(0, k.start), Live(6 + j, b))
    ensures Reaches(Items(k), Live(0, k.start), Live(6 + j + 1, c)) && Entered(k, c, j + 1)
  {
    hide *;
    StructuredCall(k);
    var offset := MoveFacts(k, b, j);
    StoreWord(k, b, offset, RegsOf(k)[j]);
    c := b.(mem := b.mem[Base(k) - offset := W(k.args[j])]);
    Continue(Items(k), Live(0, k.start), 6 + j, b, StoreAt(offset, RegsOf(k)[j]), c);
    MoveEnters(k, b, j);
  }

  lemma MoveFacts(k: Call, b: Cpu, j: nat) returns (offset: nat)
    requires CallOk(k) && j < |k.args| && Entered(k, b, j)
    ensures offset == ArgSlot(j) && offset % 8 == 0 && offset <= FrameOf(k).size && j < |RegsOf(k)|
    ensures 6 + j < |Items(k)| && Items(k)[6 + j] == Ins(StoreAt(offset, RegsOf(k)[j])) &&
      FallsThrough(StoreAt(offset, RegsOf(k)[j]))
    ensures b.regs[RegsOf(k)[j]] == W(k.args[j]) && b.regs[RBP] == Base(k)
  {
    ArgInRegister(k, b, j);
    StructuredCall(k);
    AddressWraps(k, 0);
    hide Items, Outside, Saved, WellFormedUnder, NativeReady, StackOk, Plan, RegsOf, Passed;
    offset := ArgSlot(j);
    MoveItem(k, j);
    ArgSlotsInside(k.p, |k.args|, j);
  }

  lemma MoveItem(k: Call, j: nat)
    requires 0 < |k.p| && j < |k.args| <= |RegsOf(k)|
    ensures 6 + j < |Items(k)| && Items(k)[6 + j] == Ins(StoreAt(ArgSlot(j), RegsOf(k)[j]))
  {
    hide FrameOf, Items;
    EntryItems(k);
  }

  lemma MoveEnters(k: Call, b: Cpu, j: nat)
    requires j < |k.args| && Entered(k, b, j)
    ensures Entered(k, b.(mem := b.mem[Base(k) - ArgSlot(j) := W(k.args[j])]), j + 1)
  {
    var mem := b.mem[Base(k) - ArgSlot(j) := W(k.args[j])];
    ArgSlotsInside(k.p, |k.args|, j);
    StoreInside(k, b.mem, ArgSlot(j), W(k.args[j]));
    hide FrameOf, Outside, Saved, W;
    forall x | 0 <= x < j + 1 ensures HeldAt(mem, Base(k) - ArgSlot(x), W(k.args[x])) {}
  }

  lemma StoreInside(k: Call, mem: map<int, Word>, x: nat, w: Word)
    requires Outside(k, mem) && Saved(k, mem) && 0 < x <= FrameOf(k).size
    ensures var mem' := mem[Base(k) - x := w]; Outside(k, mem') && Saved(k, mem')
  {
    hide FrameOf;
  }

  lemma ArgInRegister(k: Call, c: Cpu, j: nat)
    requires CallOk(k) && j < |k.args| && Entered(k, c, j)
    ensures c.regs[RegsOf(k)[j]] == W(k.args[j])
  {
    TableFollowsConvention(k.windows, k.start, k.args);
    assert RegsOf(k)[j] != RSP && RegsOf(k)[j] != RBP;
  }

  // From the call to the first instruction.
  lemma EntryRuns(k: Call, mem: Memory) returns (t: State)
    requires CallOk(k)
    ensures Reaches(Items(k), Live(0, k.start), t) && InStep(k, Start(mem), t)
  {
    StructuredCall(k);
    EntryMark(k);
    PrologueFirst(k);
    hide CallOk, StackOk, FrameOf, Items, Reaches, Framed, Entered, Pc;
    var c0 := PrologueRuns(k);
    var c := ArgMovesRun(k, c0, |k.args|);
    EnteredFramed(k, c);
    StartsInStep(k, mem, c);
    t := Live(Pc(k, 0, 0), c);
    ReachesStep(Items(k), Live(6 + |k.args|, c));
    ReachesMore(Items(k), Live(0, k.start), Live(6 + |k.args|, c), t);
  }

  lemma EntryMark(k: Call)
    requires CallOk(k)
    ensures 0 < |k.p| && |k.args| <= |RegsOf(k)| && Pc(k, 0, 0) == |k.args| + 7 <= |Items(k)|
    ensures Items(k)[|k.args| + 6].Mark?
  {
    EntryItems(k);
  }

  lemma StartsInStep(k: Call, mem: Memory, c: Cpu)
    requires CallOk(k) && Framed(k, c)
    ensures InStep(k, Start(mem), Live(Pc(k, 0, 0), c))
  {
    hide Framed, Pc;
    assert BlockShape(k.p[0]) && NativeNode(k.p, 0, 0);
  }

  lemma EnteredFramed(k: Call, c: Cpu)
    requires StackOk(k) && Entered(k, c, |k.args|)
    ensures Framed(k, c)
  {
    hide FrameOf;
    assert c.regs[12..] == k.start.regs[12..];
  }

  // ----- whole runs -----

  lemma StartRuns(mem: Memory)
    ensures Start(mem).Running?
  {}

  lemma {:induction false} NativeRuns(k: Call, mem: Memory, n: nat) returns (t: State)
    requires CallOk(k) && !Run(k.p, k.args, mem, n).Fault? && NarrowRun(k.p, k.args, mem, n)
    ensures Reaches(Items(k), Live(0, k.start), t)
    ensures var s := Run(k.p, k.args, mem, n); if s.Running? then InStep(k, s, t) else Returns(k, t, s.value)
  {
    hide *;
    if n == 0 {
      RunStep(k.p, k.args, mem, 0);
      StartRuns(mem);
      t := EntryRuns(k, mem);
    } else {
      NarrowStep(k.p, k.args, mem, n - 1);
      RunStep(k.p, k.args, mem, n - 1);
      var s := Run(k.p, k.args, mem, n - 1);
      if !s.Running? {
        HaltedStays(k.p, k.args, mem, n - 1, n);
        NarrowStep(k.p, k.args, mem, n - 1);
        t := NativeRuns(k, mem, n - 1);
      } else {
        var u := NativeRuns(k, mem, n - 1);
        t := NativeStep(k, s, u);
        AdvancesReaches(Items(k), u, t);
        ReachesMore(Items(k), Live(0, k.start), u, t);
      }
    }
  }

  // Main result: when the interpreter returns and every comparison on the way was of signed
  // 64-bit numbers, the assembled bytes return the same value modulo 2^64, with the caller's
  // registers and memory as they were.
  lemma NativeCodeReturns(k: Call, mem: Memory, n: nat) returns (m: nat)
    requires CallOk(k) && Assembles(Items(k))
    requires Run(k.p, k.args, mem, n).Returned? && NarrowRun(k.p, k.args, mem, n)
    ensures Returns(k, RunCode(Link(Items(k)), Live(0, k.start), m), Run(k.p, k.args, mem, n).value)
  {
    hide *;
    var t := NativeRuns(k, mem, n);
    var x := ReachesIn(k, t);
    ReturnsIsDone(k, t, Run(k.p, k.args, mem, n).value);
    CallReads(k);
    m := CodeRunsItems(Items(k), Live(0, k.start), x);
    NoAddress(Items(k));
  }

  // ----- runs that never end -----

  // Where the interpreter is still running after n steps, so are the items after n of theirs.
  lemma {:induction false} ItemsRunOn(k: Call, mem: Memory, n: nat) returns (t: State, x: nat)
    requires CallOk(k) && Run(k.p, k.args, mem, n).Running? && NarrowRun(k.p, k.args, mem, n)
    ensures x >= n && RunItems(Items(k), Live(0, k.start), x) == t && InStep(k, Run(k.p, k.args, mem, n), t)
  {
    hide *;
    RunStep(k.p, k.args, mem, if n == 0 then 0 else n - 1);
    if n == 0 {
      t := EntryRuns(k, mem);
      x := ReachesIn(k, t);
    } else {
      NarrowStep(k.p, k.args, mem, n - 1);
      if !Run(k.p, k.args, mem, n - 1).Running? { HaltedStays(k.p, k.args, mem, n - 1, n); }
      var u, y := ItemsRunOn(k, mem, n - 1);
      t := NativeStep(k, Run(k.p, k.args, mem, n - 1), u);
      var z := AdvancesIn(Items(k), u, t);
      x := y + z;
      RunItemsSplit(Items(k), Live(0, k.start), y, z);
    }
  }

  lemma AdvancesIn(items: seq<Item>, s: State, t: State) returns (n: nat)
    requires Advances(items, s, t)
    ensures n > 0 && RunItems(items, s, n) == t
  {
    var m: nat :| RunItems(items, StepItems(items, s), m) == t;
    n := m + 1;
  }

  // A run that is live was live all along.
  lemma LiveBefore(items: seq<Item>, s: State, n: nat, x: nat)
    requires n <= x && RunItems(items, s, x).Live?
    ensures RunItems(items, s, n).Live?
  {
    var t := RunItems(items, s, n);
    RunItemsSplit(items, s, n, x - n);
    if t.Done? { DoneStays(items, t, x - n); }
    if t == Stopped { StoppedStays(items, x - n); }
  }

  // Main result: while the interpreter runs on, comparing signed 64-bit numbers, the bytes
  // neither return nor stop.
  lemma NativeCodeRunsOn(k: Call, mem: Memory, m: nat)
    requires CallOk(k) && Assembles(Items(k))
    requires forall n: nat :: Run(k.p, k.args, mem, n).Running? && NarrowRun(k.p, k.args, mem, n)
    ensures RunCode(Link(Items(k)), Live(0, k.start), m).Live?
  {
    hide *;
    forall n: nat ensures RunItems(Items(k), Live(0, k.start), n).Live? {
      assert Run(k.p, k.args, mem, n).Running? && NarrowRun(k.p, k.args, mem, n);
      var t, x := ItemsRunOn(k, mem, n);
      InStepLive(k, Run(k.p, k.args, mem, n), t);
      LiveBefore(Items(k), Live(0, k.start), n, x);
    }
    CallReads(k);
    NoAddress(Items(k));
    CodeRunsOn(Items(k), Live(0, k.start), m);
  }

  lemma InStepLive(k: Call, s: Config, t: State)
    requires InStep(k, s, t)
    ensures t.Live?
  {}

  // So, without faults and wide comparisons, the code returns exactly when the interpreter does.
  lemma NativeReturnsExactly(k: Call, mem: Memory)
    requires CallOk(k) && Assembles(Items(k))
    requires Steady(k.p, k.args, mem)
    ensures Ends(k.p, k.args, mem) <==> (exists m: nat :: RunCode(Link(Items(k)), Live(0, k.start), m).Done?)
  {
    SteadyOrEnds(k.p, k.args, mem);
    hide *;
    if n: nat :| Run(k.p, k.args, mem, n).Returned? && NarrowRun(k.p, k.args, mem, n) {
      var m := NativeCodeReturns(k, mem, n);
      ReturnsIsDone(k, RunCode(Link(Items(k)), Live(0, k.start), m), Run(k.p, k.args, mem, n).value);
    } else {
      forall m: nat ensures RunCode(Link(Items(k)), Live(0, k.start), m).Live? { NativeCodeRunsOn(k, mem, m); }
    }
  }

  lemma SteadyOrEnds(p: Prog, args: seq<int>, mem: Memory)
    requires Steady(p, args, mem)
    ensures Ends(p, args, mem) <==> exists n: nat :: Run(p, args, mem, n).Returned? && NarrowRun(p, args, mem, n)
    ensures !Ends(p, args, mem) ==> forall n: nat :: Run(p, args, mem, n).Running? && NarrowRun(p, args, mem, n)
  {
    hide Run, NarrowRun;
    if !Ends(p, args, mem) {
      forall n: nat ensures Run(p, args, mem, n).Running? && NarrowRun(p, args, mem, n) {
        assert !Run(p, args, mem, n).Fault? && !Run(p, args, mem, n).Returned?;
      }
    }
  }

  // A frame below two gigabytes is subtracted as written.
  lemma CallReads(k: Call)
    requires CallOk(k)
    ensures AllReadAsWritten(Items(k))
  {
    var b := |k.p| - 1;
    hide Plan, Emitted;
    EmittedReads(k, b, |k.p[b].body|);
  }

  lemma {:induction false} EmittedReads(k: Call, b: nat, i: nat)
    requires FrameOf(k).size < 0x8000_0000 && b < |k.p| && i <= |k.p[b].body|
    ensures AllReadAsWritten(Emitted(k.p, FrameOf(k), RegsOf(k), b, i))
    decreases b, i
  {
    hide NodeItems, Entry, LastCmp, FrameOf;
    if i > 0 {
      EmittedReads(k, b, i - 1);
      NodeReads(FrameOf(k), k.p[b].body[i - 1], LastCmp(k.p[b].body, i - 1));
    } else if b > 0 {
      EmittedReads(k, b - 1, |k.p[b - 1].body|);
    } else {
      EntryReads(FrameOf(k), RegsOf(k));
    }
  }

  lemma NodeReads(f: Frame, n: Node, cond: Option<string>)
    ensures AllReadAsWritten(NodeItems(f, n, cond))
  {}

  lemma EntryReads(f: Frame, regs: seq<Reg>)
    requires f.size < 0x8000_0000
    ensures AllReadAsWritten(Entry(f, regs))
  {
    var n := if f.argCount < |regs| then f.argCount else |regs|;
    ArgMovesCount(regs, n);
    forall it | it in ArgMoves(regs, n) ensures it.Ins? && !it.insn.SubImm? {
      var x :| 0 <= x < n && ArgMoves(regs, n)[x] == it;
      ArgMovesItems(regs, n, x);
    }
  }

  lemma ReachesIn(k: Call, t: State) returns (n: nat)
    requires Reaches(Items(k), Live(0, k.start), t)
    ensures RunItems(Items(k), Live(0, k.start), n) == t
  {
    hide RunItems;
    n :| RunItems(Items(k), Live(0, k.start), n) == t;
  }

  lemma ReturnsIsDone(k: Call, t: State, v: Option<int>)
    requires Returns(k, t, v)
    ensures t.Done?
  {}
}
