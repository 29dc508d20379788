// The processor: sixteen 64-bit registers, memory in 64-bit words, and the flags a
// comparison leaves. It runs encoded bytes; it also runs the labelled items they came from.

module Machine {
  import opened Options
  import opened LittleEndian
  import opened X86
  import opened Assembler

  const WORDS: int := 0x1_0000_0000_0000_0000

  type Word = w: nat | w < 0x1_0000_0000_0000_0000

  // The word that holds x modulo 2^64, and the signed number a word holds.
  function W(x: int): Word { x % WORDS }

  function Signed(w: Word): int { if w >= 0x8000_0000_0000_0000 then w - WORDS else w }

  type Regs = r: seq<Word> | |r| == 16 witness seq(16, _ => 0)

  datatype Flags = Flags(zero: bool, sign: bool, overflow: bool)

  // Flags are None where an instruction other than a comparison may have changed them.
  datatype Cpu = Cpu(regs: Regs, mem: map<int, Word>, flags: Option<Flags>)

  function CompareFlags(x: int, y: int): Flags
    requires 0 <= x < WORDS && 0 <= y < WORDS
  {
    var d := W(x - y);
    Flags(d == 0, d >= 0x8000_0000_0000_0000, !Fits64(Signed(x) - Signed(y)))
  }

  predicate Met(c: Cond, f: Flags) {
    match c
    case E => f.zero
    case NE => !f.zero
    case L => f.sign != f.overflow
    case LE => f.zero || f.sign != f.overflow
    case G => !f.zero && f.sign == f.overflow
    case GE => f.sign == f.overflow
  }

  function Reg64(c: Cpu, r: Reg): int { c.regs[r] }

  function Set(c: Cpu, r: Reg, w: Word): Cpu { c.(regs := c.regs[r := w]) }

  function Load(c: Cpu, addr: Word): Option<Word> {
    if addr % 8 == 0 && addr in c.mem then Some(c.mem[addr]) else None
  }

  function Store(c: Cpu, addr: Word, w: Word): Option<Cpu> {
    if addr % 8 == 0 then Some(c.(mem := c.mem[addr := w])) else None
  }

  // Instructions that fall through to the next. Unaligned or absent memory stops the machine.
  function Exec<T>(i: Insn<T>, c: Cpu): Option<Cpu> {
    match i
    case Push(r) =>
      var sp := W(Reg64(c, RSP) - 8);
      Store(Set(c, RSP, sp), sp, c.regs[r])
    case Pop(r) =>
      (match Load(c, c.regs[RSP])
       case Some(w) => Some(Set(Set(c, RSP, W(Reg64(c, RSP) + 8)), r, w))
       case None => None)
    case MovRR(dst, src) => Some(Set(c, dst, c.regs[src]))
    case MovRI(dst, imm) => Some(Set(c, dst, W(imm)))
    case MovRM(dst, base, disp) =>
      (match Load(c, W(Reg64(c, base) + disp))
       case Some(w) => Some(Set(c, dst, w))
       case None => None)
    case MovMR(base, disp, src) => Store(c, W(Reg64(c, base) + disp), c.regs[src])
    case Add(dst, src) => Some(Set(c, dst, W(Reg64(c, dst) + Reg64(c, src))).(flags := None))
    case Sub(dst, src) => Some(Set(c, dst, W(Reg64(c, dst) - Reg64(c, src))).(flags := None))
    case Imul(dst, src) => Some(Set(c, dst, W(Reg64(c, dst) * Reg64(c, src))).(flags := None))
    case SubImm(dst, imm) => Some(Set(c, dst, W(Reg64(c, dst) - imm)).(flags := None))
    case Cmp(left, right) => Some(c.(flags := Some(CompareFlags(c.regs[left], c.regs[right]))))
    case _ => None
  }

  predicate FallsThrough<T>(i: Insn<T>) { !i.Ret? && !i.Jmp? && !i.Jcc? }

  // A run is at an address (or item) with a processor, or has returned, or has stopped.
  datatype State = Live(pc: int, cpu: Cpu) | Done(to: Word, out: Cpu) | Stopped

  function PopReturn(c: Cpu): State {
    match Load(c, c.regs[RSP])
    case Some(w) => Done(w, Set(c, RSP, W(Reg64(c, RSP) + 8)))
    case None => Stopped
  }

  // ----- running bytes -----

  // What a decoded instruction does; next is the address after it.
  function Act(i: Insn<int>, next: int, c: Cpu): State {
    match i
    case Ret => PopReturn(c)
    case Jmp(rel) => Live(next + rel, c)
    case Jcc(cond, rel) =>
      if c.flags.None? then Stopped else Live(if Met(cond, c.flags.value) then next + rel else next, c)
    case _ => (match Exec(i, c) case Some(c') => Live(next, c') case None => Stopped)
  }

  function StepCode(code: seq<Byte>, s: State): State {
    if !s.Live? then s
    else if !(0 <= s.pc < |code|) then Stopped
    else
      match Decode(code, s.pc)
      case None => Stopped
      case Some(Decoded(i, next)) => Act(i, next, s.cpu)
  }

  function RunCode(code: seq<Byte>, s: State, n: nat): State
    decreases n
  {
    if n == 0 then s else RunCode(code, StepCode(code, s), n - 1)
  }

  lemma {:induction false} RunCodeNext(code: seq<Byte>, s: State, n: nat)
    ensures RunCode(code, s, n + 1) == StepCode(code, RunCode(code, s, n))
    decreases n
  {
    hide StepCode;
    if n > 0 { RunCodeNext(code, StepCode(code, s), n - 1); }
  }

  // ----- running items -----

  // The item that declares a label.
  function Find(items: seq<Item>, name: string, k: nat): (r: Option<nat>)
    requires k <= |items|
    ensures r.Some? ==> r.value < k && items[r.value] == Mark(name)
  {
    if k == 0 then None
    else if items[k - 1] == Mark(name) then Some(k - 1)
    else Find(items, name, k - 1)
  }

  function Jump(items: seq<Item>, name: string, c: Cpu): State {
    match Find(items, name, |items|) case Some(k) => Live(k, c) case None => Stopped
  }

  function ActItem(items: seq<Item>, i: Insn<string>, pc: int, c: Cpu): State {
    match i
    case Ret => PopReturn(c)
    case Jmp(name) => Jump(items, name, c)
    case Jcc(cond, name) =>
      if c.flags.None? then Stopped else if Met(cond, c.flags.value) then Jump(items, name, c) else Live(pc + 1, c)
    case _ => (match Exec(i, c) case Some(c') => Live(pc + 1, c') case None => Stopped)
  }

  function StepItems(items: seq<Item>, s: State): State {
    if !s.Live? then s
    else if !(0 <= s.pc < |items|) then Stopped
    else
      match items[s.pc]
      case Mark(_) => Live(s.pc + 1, s.cpu)
      case Ins(i) => ActItem(items, i, s.pc, s.cpu)
  }

  function RunItems(items: seq<Item>, s: State, n: nat): State
    decreases n
  {
    if n == 0 then s else RunItems(items, StepItems(items, s), n - 1)
  }

  lemma {:induction false} RunItemsSplit(items: seq<Item>, s: State, m: nat, n: nat)
    ensures RunItems(items, s, m + n) == RunItems(items, RunItems(items, s, m), n)
    decreases m
  {
    hide StepItems;
    if m > 0 { RunItemsSplit(items, StepItems(items, s), m - 1, n); }
  }

  lemma {:induction false} RunCodeSplit(code: seq<Byte>, s: State, m: nat, n: nat)
    ensures RunCode(code, s, m + n) == RunCode(code, RunCode(code, s, m), n)
    decreases m
  {
    hide StepCode;
    if m > 0 { RunCodeSplit(code, StepCode(code, s), m - 1, n); }
  }

  // ----- the bytes do what the items do -----

  // The same run, seen at byte addresses.
  ghost predicate Placed(items: seq<Item>, s: State, t: State) {
    if s.Live? then 0 <= s.pc <= |items| && t == Live(Address(items, s.pc), s.cpu) else t == s
  }

  lemma {:induction false} FindIsLabel(items: seq<Item>, name: string, k: nat)
    requires k <= |items| && UniqueLabels(items)
    ensures name in Labels(items[..k]) <==> Find(items, name, k).Some?
    ensures name in Labels(items[..k]) ==> Labels(items[..k])[name] == Address(items, Find(items, name, k).value)
  {
    if k > 0 {
      FindIsLabel(items, name, k - 1);
      assert items[..k][..k - 1] == items[..k - 1];
    }
  }

  lemma JumpPlaced(items: seq<Item>, name: string, c: Cpu)
    requires UniqueLabels(items) && name in Labels(items)
    ensures Placed(items, Jump(items, name, c), Live(Labels(items)[name], c))
  {
    assert items[..|items|] == items;
    FindIsLabel(items, name, |items|);
  }

  lemma ResolvedExec(items: seq<Item>, k: nat, c: Cpu)
    requires k < |items| && items[k].Ins? && Resolved(items, k).Some?
    ensures var i, r := items[k].insn, Resolved(items, k).value;
      (FallsThrough(i) <==> FallsThrough(r)) && (i.Ret? <==> r.Ret?) &&
      (FallsThrough(i) ==> Exec(i, c) == Exec(r, c)) &&
      (i.Jmp? <==> r.Jmp?) && (i.Jcc? <==> r.Jcc?) && (i.Jcc? ==> i.cond == r.cond)
  {
    hide Store, Load, Set, W, CompareFlags, Address, Labels;
  }

  lemma ResolvedReads(items: seq<Item>, k: nat)
    requires k < |items| && items[k].Ins? && Resolved(items, k).Some? && ReadAsWritten(items[k].insn)
    ensures AsRead(Resolved(items, k).value) == Resolved(items, k).value
  {
    hide Address, Labels;
  }

  // No frame so large that its subtraction is read as an addition.
  ghost predicate AllReadAsWritten(items: seq<Item>) { forall it :: it in items && it.Ins? ==> ReadAsWritten(it.insn) }

  // One step of an instruction item is one step of its bytes.
  lemma ExecPlaced(items: seq<Item>, k: nat, c: Cpu)
    requires Assembles(items) && k < |items| && items[k].Ins? && ReadAsWritten(items[k].insn)
    requires ActItem(items, items[k].insn, k, c) != Stopped
    ensures Placed(items, ActItem(items, items[k].insn, k, c), StepCode(Link(items), Live(Address(items, k), c)))
  {
    hide Assembles, Address, Link, Labels, Decode, Encode, Encodable, Find, Exec, Met, Jump, Resolved, PopReturn,
      Placed, AsRead;
    AssembledDecodes(items, k);
    AddressInCode(items, k);
    AssemblesAt(items, k);
    ResolvedExec(items, k, c);
    ResolvedReads(items, k);
    var i, r, next := items[k].insn, Resolved(items, k).value, Address(items, k + 1);
    assert StepCode(Link(items), Live(Address(items, k), c)) == Act(r, next, c);
    if IsJump(i) {
      JumpArrives(items, k, c);
    } else {
      var done := Exec(i, c);
      PlacedNext(items, k, if done.Some? then done.value else c, c);
    }
  }

  lemma PlacedNext(items: seq<Item>, k: nat, done: Cpu, c: Cpu)
    requires k < |items|
    ensures Placed(items, Live(k + 1, done), Live(Address(items, k + 1), done))
    ensures Placed(items, PopReturn(c), PopReturn(c))
  {
    hide Address;
  }

  // A jump's target, in items and in bytes.
  lemma JumpArrives(items: seq<Item>, k: nat, c: Cpu)
    requires Assembles(items) && k < |items| && items[k].Ins? && IsJump(items[k].insn) && Resolved(items, k).Some?
    ensures IsJump(Resolved(items, k).value)
    ensures Placed(items, Jump(items, items[k].insn.target, c),
      Live(Address(items, k + 1) + Resolved(items, k).value.target, c))
    ensures Placed(items, Live(k + 1, c), Live(Address(items, k + 1), c))
  {
    hide Address, Labels, Find, Jump, Resolved;
    JumpDistance(items, k);
    JumpPlaced(items, items[k].insn.target, c);
  }

  lemma AddressInCode(items: seq<Item>, k: nat)
    requires Assembles(items) && k < |items| && items[k].Ins?
    ensures Address(items, k) < |Link(items)|
  {
    LinkedHolds(items, k);
  }

  // Main result: a run of the items that returns is a run of the linked bytes that returns
  // with the same processor, in no more steps.
  lemma {:induction false} CodeRunsItems(items: seq<Item>, s: State, n: nat) returns (m: nat)
    requires Assembles(items) && AllReadAsWritten(items)
    requires s.Live? && 0 <= s.pc <= |items| && RunItems(items, s, n).Done?
    ensures m <= n && RunCode(Link(items), Live(Address(items, s.pc), s.cpu), m) == RunItems(items, s, n)
    decreases n
  {
    hide Assembles, StepCode, ActItem, Link, Address, ReadAsWritten;
    var code, t := Link(items), Live(Address(items, s.pc), s.cpu);
    var s' := StepItems(items, s);
    assert n > 0 && RunItems(items, s, n) == RunItems(items, s', n - 1);
    if s' == Stopped { StoppedStays(items, n - 1); }
    if items[s.pc].Mark? {
      MarkTakesNothing(items, s.pc);
      m := CodeRunsItems(items, s', n - 1);
    } else {
      ExecPlaced(items, s.pc, s.cpu);
      if s'.Live? {
        m := CodeRunsItems(items, s', n - 1);
        m := m + 1;
      } else {
        m := 1;
        DoneStays(items, s', n - 1);
        assert RunCode(code, StepCode(code, t), 0) == s';
      }
    }
  }

  // A run of the items that never ends is a run of the bytes that never ends.
  lemma {:induction false} CodeRunsOn(items: seq<Item>, s: State, m: nat)
    requires Assembles(items) && AllReadAsWritten(items) && s.Live? && 0 <= s.pc <= |items|
    requires forall n: nat :: RunItems(items, s, n).Live?
    ensures RunCode(Link(items), Live(Address(items, s.pc), s.cpu), m).Live?
    decreases m, |items| - s.pc
  {
    hide Assembles, StepCode, ActItem, Link, Address, ReadAsWritten;
    if m > 0 {
      var s' := StepItems(items, s);
      assert RunItems(items, s', 0) == RunItems(items, s, 1);
      forall n: nat ensures RunItems(items, s', n).Live? { assert RunItems(items, s', n) == RunItems(items, s, n + 1); }
      if items[s.pc].Mark? {
        MarkTakesNothing(items, s.pc);
        CodeRunsOn(items, s', m);
      } else {
        ExecPlaced(items, s.pc, s.cpu);
        CodeRunsOn(items, s', m - 1);
      }
    }
  }

  lemma MarkTakesNothing(items: seq<Item>, k: nat)
    requires k < |items| && items[k].Mark?
    ensures Address(items, k + 1) == Address(items, k)
  {
    AddressStep(items, k);
  }

  lemma {:induction false} StoppedStays(items: seq<Item>, n: nat)
    ensures RunItems(items, Stopped, n) == Stopped
  {
    if n > 0 { StoppedStays(items, n - 1); }
  }

  lemma {:induction false} DoneStays(items: seq<Item>, s: State, n: nat)
    requires s.Done?
    ensures RunItems(items, s, n) == s
  {
    if n > 0 { DoneStays(items, s, n - 1); }
  }
}
