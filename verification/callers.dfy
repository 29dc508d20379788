// The hypotheses of the native theorems, in terms a caller can check: which functions
// assemble, and that every one of them can be called.

module Callers {
  import opened Options
  import opened Ir
  import opened Cfg
  import opened X86
  import opened Assembler
  import opened AssemblerObjects
  import opened Codegen
  import opened CodegenObjects
  import opened Machine
  import N = Native
  import E = EndToEnd

  function Names(p: Prog, b: nat): set<string>
    requires b <= |p|
  {
    set c | 0 <= c < b :: p[c].name
  }

  ghost predicate NamesDiffer(p: Prog) { forall b, c :: 0 <= b < c < |p| ==> p[b].name != p[c].name }

  ghost predicate ConstantsFit(p: Prog) {
    forall b, i, v :: At(p, b, i) && v in p[b].body[i].args && v.Const? && v.lit.Num? ==> Fits64(v.lit.n)
  }

  // The labels a node's code jumps to.
  function JumpsOf(n: Node): set<string> {
    if n.op == BR then {LabelIn(n, 1), LabelIn(n, 2)} else if n.op == JMP then {LabelIn(n, 0)} else {}
  }

  ghost predicate TargetsDeclared(p: Prog) {
    forall b, i :: At(p, b, i) ==> JumpsOf(p[b].body[i]) <= Names(p, |p|)
  }

  // ----- labels -----

  ghost predicate NoMarks(items: seq<Item>) { forall it :: it in items ==> it.Ins? }

  lemma {:induction false} LabelsJoin(s: seq<Item>, t: seq<Item>)
    requires NoMarks(t)
    ensures Labels(s + t).Keys == Labels(s).Keys && UniqueLabels(s + t) == UniqueLabels(s)
  {
    hide Draft;
    if t == [] {
      assert s + t == s;
    } else {
      var init := t[..|t| - 1];
      LabelsJoin(s, init);
      assert (s + t)[..|s + t| - 1] == s + init;
      assert t[|t| - 1] in t;
    }
  }

  lemma LabelsMarked(s: seq<Item>, name: string)
    ensures Labels(s + [Mark(name)]).Keys == Labels(s).Keys + {name}
    ensures UniqueLabels(s + [Mark(name)]) <==> UniqueLabels(s) && name !in Labels(s)
  {
    hide Draft;
    assert (s + [Mark(name)])[..|s|] == s;
  }

  lemma NodeHasNoMarks(f: Frame, n: Node, cond: Option<string>)
    ensures NoMarks(NodeItems(f, n, cond))
  {}

  lemma {:induction false} MovesHaveNoMarks(regs: seq<Reg>, k: nat)
    requires k <= |regs|
    ensures NoMarks(ArgMoves(regs, k))
  {
    if k > 0 { MovesHaveNoMarks(regs, k - 1); }
  }

  lemma EntryHasNoMarks(f: Frame, regs: seq<Reg>)
    ensures NoMarks(Entry(f, regs)) && Labels(Entry(f, regs)).Keys == {} && UniqueLabels(Entry(f, regs))
  {
    MovesHaveNoMarks(regs, if f.argCount < |regs| then f.argCount else |regs|);
    hide ArgMoves, Labels, UniqueLabels;
    LabelsJoin([], Entry(f, regs));
    assert [] + Entry(f, regs) == Entry(f, regs);
    NothingLabelled();
  }

  lemma NothingLabelled()
    ensures Labels([]) == map[] && UniqueLabels([])
  {}

  // The labels declared before (b, i) are the blocks' names, each once.
  lemma {:induction false} EmittedLabels(p: Prog, f: Frame, regs: seq<Reg>, b: nat, i: nat)
    requires NamesDiffer(p) && b < |p| && i <= |p[b].body|
    ensures UniqueLabels(Emitted(p, f, regs, b, i)) && Labels(Emitted(p, f, regs, b, i)).Keys == Names(p, b + 1)
    decreases b, i
  {
    hide Labels, UniqueLabels, NodeItems, Entry, LastCmp, NoMarks;
    if i > 0 {
      EmittedLabels(p, f, regs, b, i - 1);
      NodeHasNoMarks(f, p[b].body[i - 1], LastCmp(p[b].body, i - 1));
      LabelsJoin(Emitted(p, f, regs, b, i - 1), NodeItems(f, p[b].body[i - 1], LastCmp(p[b].body, i - 1)));
    } else if b > 0 {
      EmittedLabels(p, f, regs, b - 1, |p[b - 1].body|);
      LabelsMarked(Emitted(p, f, regs, b - 1, |p[b - 1].body|), p[b].name);
      assert p[b].name !in Names(p, b);
    } else {
      EntryHasNoMarks(f, regs);
      LabelsMarked(Entry(f, regs), p[0].name);
    }
  }

  // ----- constants -----

  lemma NodeFits(p: Prog, argCount: nat, b: int, i: int, cond: Option<string>)
    requires Structured(p) && At(p, b, i) && ConstantsFit(p) && Plan(p, argCount).size < 0x8000_0000
    requires AllLoadable(p, argCount)
    ensures Fits(NodeItems(Plan(p, argCount), p[b].body[i], cond))
  {
    var n, f := p[b].body[i], Plan(p, argCount);
    assert BlockShape(p[b]) && Shape(n);
    SlotsFit(p, argCount);
    assert Operands(f, n);
    hide Plan, LoadInsn, ImmediateFits, Structured, ConstantsFit, AllLoadable;
    forall v, r: Reg | v in n.args && Loadable(f, v) ensures ImmediateFits(LoadInsn(f, v, r)) {
      LoadFits(p, argCount, b, i, v, r);
    }
    if n.uid in f.slots { StoreFits(f.slots[n.uid], R10); }
  }

  lemma LoadFits(p: Prog, argCount: nat, b: int, i: int, v: Value, r: Reg)
    requires At(p, b, i) && v in p[b].body[i].args && ConstantsFit(p) && Loadable(Plan(p, argCount), v)
    requires Distinct(p) && Plan(p, argCount).size < 0x8000_0000
    ensures ImmediateFits(LoadInsn(Plan(p, argCount), v, r))
  {
    SlotsFit(p, argCount);
    hide Plan;
  }

  lemma StoreFits(offset: nat, r: Reg)
    requires offset < 0x8000_0000
    ensures ImmediateFits(StoreAt(offset, r))
  {}

  // Offsets stay below the frame's size.
  lemma SlotsFit(p: Prog, argCount: nat)
    requires Distinct(p)
    ensures var f := Plan(p, argCount);
      (forall k: nat :: k < argCount ==> ArgSlot(k) <= f.size) &&
      (forall u: nat :: u in f.slots ==> f.slots[u] <= f.size)
  {
    var f := Plan(p, argCount);
    OffsetsBelow(p, argCount, |p|, 0);
  }

  lemma {:induction false} OffsetsBelow(p: Prog, argCount: nat, b: nat, i: nat)
    requires b <= |p| && i <= (if b < |p| then |p[b].body| else 0)
    ensures forall u: nat :: u in SlotsTo(p, argCount, b, i) ==>
      SlotsTo(p, argCount, b, i)[u] <= OffsetAt(p, argCount, b, i)
    decreases b, i
  {
    if i > 0 { OffsetsBelow(p, argCount, b, i - 1); }
    else if b > 0 { OffsetsBelow(p, argCount, b - 1, |p[b - 1].body|); }
  }

  lemma {:induction false} MovesFit(regs: seq<Reg>, k: nat)
    requires k <= |regs| <= 6
    ensures Fits(ArgMoves(regs, k))
  {
    if k > 0 {
      MovesFit(regs, k - 1);
      FitsJoin(ArgMoves(regs, k - 1), [Ins(StoreAt(ArgSlot(k - 1), regs[k - 1]))]);
      FitsOne(StoreAt(ArgSlot(k - 1), regs[k - 1]));
    }
  }

  lemma EntryFits(f: Frame, regs: seq<Reg>)
    requires |regs| <= 6 && f.size < 0x8000_0000
    ensures Fits(Entry(f, regs))
  {
    var count := if f.argCount < |regs| then f.argCount else |regs|;
    MovesFit(regs, count);
    PrologueFits(f);
    FitsJoin(Prologue(f), ArgMoves(regs, count));
    hide ArgMoves, Prologue, Fits;
  }

  // What a caller checks of a function: labels, constants, and sizes.
  ghost predicate Small(p: Prog, argCount: nat, regs: seq<Reg>) {
    Structured(p) && NamesDiffer(p) && TargetsDeclared(p) && ConstantsFit(p) && AllLoadable(p, argCount) &&
    |regs| <= 6 &&
    Plan(p, argCount).size < 0x8000_0000 && |Draft(Program(p, argCount, regs))| < 0x8000_0000
  }

  lemma {:induction false} EmittedFits(p: Prog, argCount: nat, regs: seq<Reg>, b: nat, i: nat)
    requires Small(p, argCount, regs) && b < |p| && i <= |p[b].body|
    ensures Fits(Emitted(p, Plan(p, argCount), regs, b, i))
    decreases b, i
  {
    hide Fits, NodeItems, Entry, LastCmp, Plan, Structured, NamesDiffer, TargetsDeclared, ConstantsFit, AllLoadable,
      Program, Draft;
    var f := Plan(p, argCount);
    if i > 0 {
      EmittedFits(p, argCount, regs, b, i - 1);
      NodeFits(p, argCount, b, i - 1, LastCmp(p[b].body, i - 1));
      FitsJoin(Emitted(p, f, regs, b, i - 1), NodeItems(f, p[b].body[i - 1], LastCmp(p[b].body, i - 1)));
    } else {
      MarkFits(p[b].name);
      if b > 0 {
        EmittedFits(p, argCount, regs, b - 1, |p[b - 1].body|);
        FitsJoin(Emitted(p, f, regs, b - 1, |p[b - 1].body|), [Mark(p[b].name)]);
      } else {
        EntryFits(f, regs);
        FitsJoin(Entry(f, regs), [Mark(p[0].name)]);
      }
    }
  }

  lemma MarkFits(name: string)
    ensures Fits([Mark(name)])
  {}

  // ----- jumps -----

  ghost predicate JumpsTo(items: seq<Item>, names: set<string>) {
    forall it :: it in items && IsJumpItem(it) ==> it.insn.target in names
  }

  lemma JumpsJoin(s: seq<Item>, t: seq<Item>, names: set<string>)
    requires JumpsTo(s, names) && JumpsTo(t, names)
    ensures JumpsTo(s + t, names)
  {}

  lemma NodeJumps(f: Frame, n: Node, cond: Option<string>)
    ensures JumpsTo(NodeItems(f, n, cond), JumpsOf(n))
  {}

  lemma {:induction false} MovesJumpNowhere(regs: seq<Reg>, k: nat)
    requires k <= |regs|
    ensures JumpsTo(ArgMoves(regs, k), {})
  {
    if k > 0 { MovesJumpNowhere(regs, k - 1); }
  }

  lemma PrologueJumpsNowhere(f: Frame)
    ensures JumpsTo(Prologue(f), {})
  {}

  lemma {:induction false} EmittedJumps(p: Prog, f: Frame, regs: seq<Reg>, b: nat, i: nat)
    requires TargetsDeclared(p) && b < |p| && i <= |p[b].body|
    ensures JumpsTo(Emitted(p, f, regs, b, i), Names(p, |p|))
    decreases b, i
  {
    var names := Names(p, |p|);
    hide NodeItems, Entry, LastCmp, Names, JumpsOf;
    if i > 0 {
      EmittedJumps(p, f, regs, b, i - 1);
      var n := p[b].body[i - 1];
      assert At(p, b, i - 1);
      NodeJumps(f, n, LastCmp(p[b].body, i - 1));
      JumpsJoin(Emitted(p, f, regs, b, i - 1), NodeItems(f, n, LastCmp(p[b].body, i - 1)), names);
    } else if b > 0 {
      EmittedJumps(p, f, regs, b - 1, |p[b - 1].body|);
      JumpsJoin(Emitted(p, f, regs, b - 1, |p[b - 1].body|), [Mark(p[b].name)], names);
    } else {
      EntryIsJumpFree(f, regs);
      JumpsJoin(Entry(f, regs), [Mark(p[0].name)], names);
    }
  }

  lemma EntryIsJumpFree(f: Frame, regs: seq<Reg>)
    ensures JumpsTo(Entry(f, regs), {})
  {
    hide Prologue, ArgMoves, JumpsTo;
    var count := if f.argCount < |regs| then f.argCount else |regs|;
    PrologueJumpsNowhere(f);
    MovesJumpNowhere(regs, count);
    JumpsJoin(Prologue(f), ArgMoves(regs, count), {});
  }

  // In code shorter than 2^31 bytes every declared label is near.
  lemma NearEnough(items: seq<Item>, k: nat)
    requires k < |items| && IsJumpItem(items[k]) && items[k].insn.target in Labels(items) &&
      |Draft(items)| < 0x8000_0000
    ensures JumpResolves(items, k)
  {
    hide Labels, Draft, Head;
    LabelsMark(items, items[k].insn.target);
    var m :| 0 <= m < |items| && items[m] == Mark(items[k].insn.target) &&
      Labels(items)[items[k].insn.target] == Address(items, m);
    DraftGrows(items, m);
    DraftGrows(items, k + 1);
    AddressStep(items, k);
    JumpTarget(items, k);
    JumpEnds(items, k);
  }

  lemma JumpEnds(items: seq<Item>, k: nat)
    requires k < |items| && IsJumpItem(items[k])
    ensures PatchFor(items[k].insn, Address(items, k)).name == items[k].insn.target
    ensures PatchFor(items[k].insn, Address(items, k)).patchPos + 4 == Address(items, k) + |DraftItem(items[k])|
  {
    hide Address, Head;
  }

  // Main result: a function of distinct blocks whose targets exist, with 64-bit constants and
  // less than two gigabytes of code and frame, assembles.
  lemma SmallAssembles(p: Prog, argCount: nat, regs: seq<Reg>)
    requires Small(p, argCount, regs)
    ensures Assembles(Program(p, argCount, regs))
  {
    hide *;
    var items := Program(p, argCount, regs);
    var b := LastBlock(p, argCount, regs);
    var f := Plan(p, argCount);
    EmittedLabels(p, f, regs, b, |p[b].body|);
    EmittedFits(p, argCount, regs, b, |p[b].body|);
    EmittedJumps(p, f, regs, b, |p[b].body|);
    AllNear(items, Names(p, |p|));
    AssemblesExactly(items);
  }

  lemma LastBlock(p: Prog, argCount: nat, regs: seq<Reg>) returns (b: nat)
    requires Small(p, argCount, regs)
    ensures b + 1 == |p| && NamesDiffer(p) && TargetsDeclared(p)
    ensures Program(p, argCount, regs) == Emitted(p, Plan(p, argCount), regs, b, |p[b].body|)
    ensures |Draft(Program(p, argCount, regs))| < 0x8000_0000
  {
    hide Emitted, Plan, NamesDiffer, TargetsDeclared, ConstantsFit, AllLoadable, Draft;
    b := |p| - 1;
  }

  lemma AllNear(items: seq<Item>, names: set<string>)
    requires JumpsTo(items, names) && Labels(items).Keys == names && |Draft(items)| < 0x8000_0000
    ensures JumpsResolve(items, |items|)
  {
    hide Labels, Draft, JumpResolves;
    forall k | 0 <= k < |items| && IsJumpItem(items[k]) ensures JumpResolves(items, k) {
      assert items[k] in items;
      NearEnough(items, k);
    }
  }

  // ----- callers -----

  function StartRegs(args: seq<int>, regs: seq<Reg>, sp: Word): Regs {
    seq(16, r requires 0 <= r < 16 =>
      if r == RSP then sp
      else if r in regs && Place(regs, r) < |args| then W(args[Place(regs, r)]) else 0)
  }

  function Place(regs: seq<Reg>, r: Reg): (k: nat)
    requires r in regs
    ensures k < |regs| && regs[k] == r
  {
    if regs[0] == r then 0 else assert regs == [regs[0]] + regs[1..]; Place(regs[1..], r) + 1
  }

  // Main result: the hypotheses about the caller can be met, for every function with a frame
  // that fits the address space and all arguments in registers.
  lemma SomeCaller(q: Prog, args: seq<int>, windows: bool) returns (k: N.Call)
    requires |args| <= (if windows then 4 else 6) && Plan(q, |args|).size < 0x8000_0000
    ensures k.p == q && k.args == args && k.windows == windows && E.ReadyToCall(k, q)
  {
    hide Plan, Dominators, W, StartRegs, N.StackOk, N.Passed;
    var sp := Plan(q, |args|).size + 32;
    var start := Cpu(StartRegs(args, ArgRegs(windows), sp), map[sp := 0], None);
    k := N.Call(q, Dominators(q), args, windows, start);
    ArgsStart(args, ArgRegs(windows), sp);
    N.TableFollowsConvention(windows, start, args);
    StackHolds(k, sp);
  }

  lemma ArgsStart(args: seq<int>, regs: seq<Reg>, sp: Word)
    requires (regs == SYSV_REGS || regs == WINDOWS_REGS) && |args| <= |regs|
    ensures StartRegs(args, regs, sp)[RSP] == sp
    ensures forall j :: 0 <= j < |args| ==> StartRegs(args, regs, sp)[regs[j]] == W(args[j])
  {
    hide W;
    forall j | 0 <= j < |args| ensures StartRegs(args, regs, sp)[regs[j]] == W(args[j]) {
      RegsDiffer(regs, j, Place(regs, regs[j]));
      hide Place;
    }
  }

  lemma StackHolds(k: N.Call, sp: Word)
    requires sp == Plan(k.p, |k.args|).size + 32 && sp < 0x1_0000_0000 && k.start.regs[RSP] == sp && sp in k.start.mem
    ensures N.StackOk(k)
  {
    FrameRounded(k.p, |k.args|);
    hide Plan;
  }

  lemma FrameRounded(p: Prog, argCount: nat)
    ensures Plan(p, argCount).size % 16 == 0
  {}

  lemma RegsDiffer(regs: seq<Reg>, j: nat, k: nat)
    requires (regs == SYSV_REGS || regs == WINDOWS_REGS) && j < |regs| && k < |regs|
    ensures regs[j] == regs[k] ==> j == k
    ensures regs[j] != RSP
  {}
}
