// The x86-64 instructions the code generator emits, their bytes, and a decoder that follows
// the instruction format of the Intel SDM, volume 2, sections 2.1 and 2.2.1.

module X86 {
  import opened Division
  import opened LittleEndian
  import opened Options

  type Reg = r: nat | r < 16

  const RAX: Reg := 0
  const RCX: Reg := 1
  const RDX: Reg := 2
  const RBX: Reg := 3
  const RSP: Reg := 4
  const RBP: Reg := 5
  const RSI: Reg := 6
  const RDI: Reg := 7
  const R8: Reg := 8
  const R9: Reg := 9
  const R10: Reg := 10
  const R11: Reg := 11

  datatype Cond = E | NE | L | LE | G | GE

  // T is how a jump names its target: a label, or a distance from the jump's end.
  datatype Insn<T> =
    | Push(r: Reg)
    | Pop(r: Reg)
    | Ret
    | MovRR(dst: Reg, src: Reg)
    | MovRI(dst: Reg, imm: int)
    | MovRM(dst: Reg, base: Reg, disp: int)
    | MovMR(base: Reg, disp: int, src: Reg)
    | Add(dst: Reg, src: Reg)
    | Sub(dst: Reg, src: Reg)
    | Imul(dst: Reg, src: Reg)
    | Cmp(left: Reg, right: Reg)
    | SubImm(dst: Reg, imm: int)
    | Jmp(target: T)
    | Jcc(cond: Cond, target: T)

  predicate Fits32(n: int) { -0x8000_0000 <= n < 0x8000_0000 }
  predicate Fits64(n: int) { -0x8000_0000_0000_0000 <= n < 0x8000_0000_0000_0000 }

  // What Python's to_bytes accepts. The prologue's subtraction is written unsigned.
  predicate Encodable(i: Insn<int>) {
    match i
    case MovRI(_, imm) => Fits64(imm)
    case MovRM(_, _, disp) => Fits32(disp)
    case MovMR(_, disp, _) => Fits32(disp)
    case SubImm(dst, imm) => dst == RSP && 0 <= imm < 0x1_0000_0000
    case Jmp(rel) => Fits32(rel)
    case Jcc(_, rel) => Fits32(rel)
    case _ => true
  }

  // What the processor reads of it: the subtraction's 32 bits are sign-extended.
  function AsRead<T>(i: Insn<T>): Insn<T> {
    if i.SubImm? then i.(imm := SignExtended(i.imm)) else i
  }

  function SignExtended(n: int): int { if n >= 0x8000_0000 then n - 0x1_0000_0000 else n }

  predicate ReadAsWritten<T>(i: Insn<T>) { i.SubImm? ==> i.imm < 0x8000_0000 }

  // ----- encoding -----

  // The fields of these bytes do not overlap, so joining them is addition.
  function ModRM(mod: nat, reg: Reg, rm: Reg): Byte
    requires mod < 4
  {
    mod * 64 + (reg % 8) * 8 + rm % 8
  }

  function Sib(scale: nat, index: Reg, base: Reg): Byte
    requires scale < 4
  {
    scale * 64 + (index % 8) * 8 + base % 8
  }

  function Rex(w: bool, reg: Reg, rm: Reg): Byte {
    0x40 + (if w then 8 else 0) + (if reg >= 8 then 4 else 0) + (if rm >= 8 then 1 else 0)
  }

  // The prefix is left out when it would say nothing.
  function RexBytes(w: bool, reg: Reg, rm: Reg): seq<Byte> {
    if Rex(w, reg, rm) != 0x40 || w then [Rex(w, reg, rm)] else []
  }

  // [base + disp]: RSP and R12 need a SIB byte; RBP and R13 always need a displacement.
  function MemOperand(reg: Reg, base: Reg, disp: int): seq<Byte> {
    var sib: seq<Byte> := if base % 8 == RSP then [Sib(0, RSP, base)] else [];
    if disp == 0 && base % 8 != RSP && base % 8 != RBP then [ModRM(0, reg, base)]
    else if -128 <= disp <= 127 then [ModRM(1, reg, base)] + sib + ToBytes(disp, 1)
    else [ModRM(2, reg, base)] + sib + ToBytes(disp, 4)
  }

  function CondByte(c: Cond): Byte {
    match c case E => 0x84 case NE => 0x85 case L => 0x8C case GE => 0x8D case LE => 0x8E case G => 0x8F
  }

  // Everything before a jump's four distance bytes, and the whole of any other instruction.
  function Head<T>(i: Insn<T>): (r: seq<Byte>)
    ensures |r| > 0
  {
    match i
    case Push(r) => RexBytes(false, 0, r) + [0x50 + r % 8]
    case Pop(r) => RexBytes(false, 0, r) + [0x58 + r % 8]
    case Ret => [0xC3]
    case MovRR(dst, src) => RexBytes(true, src, dst) + [0x89, ModRM(3, src, dst)]
    case MovRI(dst, imm) => RexBytes(true, 0, dst) + [0xB8 + dst % 8] + ToBytes(imm, 8)
    case MovRM(dst, base, disp) => RexBytes(true, dst, base) + [0x8B] + MemOperand(dst, base, disp)
    case MovMR(base, disp, src) => RexBytes(true, src, base) + [0x89] + MemOperand(src, base, disp)
    case Add(dst, src) => RexBytes(true, src, dst) + [0x01, ModRM(3, src, dst)]
    case Sub(dst, src) => RexBytes(true, src, dst) + [0x29, ModRM(3, src, dst)]
    case Imul(dst, src) => RexBytes(true, dst, src) + [0x0F, 0xAF, ModRM(3, dst, src)]
    case Cmp(left, right) => RexBytes(true, right, left) + [0x39, ModRM(3, right, left)]
    case SubImm(dst, imm) => [0x48, 0x81, 0xEC] + ToBytes(imm, 4)
    case Jmp(_) => [0xE9]
    case Jcc(c, _) => [0x0F, CondByte(c)]
  }

  // The one-byte pushes of the Intel SDM's opcode table fix the registers' numbers.
  lemma PushBytes()
    ensures Encode(Push(RAX)) == [0x50] && Encode(Push(RCX)) == [0x51] && Encode(Push(RDX)) == [0x52]
    ensures Encode(Push(RBX)) == [0x53] && Encode(Push(RSP)) == [0x54] && Encode(Push(RBP)) == [0x55]
    ensures Encode(Push(RSI)) == [0x56] && Encode(Push(RDI)) == [0x57] && Encode(Push(R8)) == [0x41, 0x50]
    ensures Encode(Push(R9)) == [0x41, 0x51] && Encode(Push(R10)) == [0x41, 0x52] && Encode(Push(R11)) == [0x41, 0x53]
  {
    hide Encode, Head;
    PushByte(RAX); PushByte(RCX); PushByte(RDX); PushByte(RBX); PushByte(RSP); PushByte(RBP);
    PushByte(RSI); PushByte(RDI); PushByte(R8); PushByte(R9); PushByte(R10); PushByte(R11);
  }

  lemma PushByte(r: Reg)
    ensures Encode(Push(r)) == if r < 8 then [0x50 + r] else [0x41, 0x50 + (r - 8)]
  {}

  // A memory operand takes the shortest displacement there is.
  lemma MemOperandLength(reg: Reg, base: Reg, disp: int)
    ensures |MemOperand(reg, base, disp)| == 1 + (if base == RSP || base == RSP + 8 then 1 else 0) +
      (if disp == 0 && base !in {RSP, RBP, RSP + 8, RBP + 8} then 0 else if -128 <= disp <= 127 then 1 else 4)
  {}

  predicate IsJump<T>(i: Insn<T>) { i.Jmp? || i.Jcc? }

  function Encode(i: Insn<int>): seq<Byte> {
    if IsJump(i) then Head(i) + ToBytes(i.target, 4) else Head(i)
  }

  // ----- decoding -----

  datatype Prefix = Prefix(w: bool, r: nat, x: nat, b: nat, at: nat)

  function ReadPrefix(code: seq<Byte>, a: nat): Prefix {
    if a < |code| && 0x40 <= code[a] < 0x50 then
      var v := code[a] - 0x40;
      Prefix(v / 8 == 1, (v / 4) % 2, (v / 2) % 2, v % 2, a + 1)
    else Prefix(false, 0, 0, 0, a)
  }

  function Bytes(code: seq<Byte>, a: nat, k: nat): Option<seq<Byte>> {
    if a + k <= |code| then Some(code[a..a + k]) else None
  }

  // Where a ModRM byte's r/m field points, and the first byte after it.
  datatype Place = Direct(r: Reg, next: nat) | Indirect(base: Reg, disp: int, next: nat) | Unsupported

  function WithDisp(code: seq<Byte>, a: nat, mod: nat, base: Reg): Place {
    if mod == 0 then Indirect(base, 0, a)
    else
      var k := if mod == 1 then 1 else 4;
      match Bytes(code, a, k)
      case Some(s) => Indirect(base, SignedFrom(s), a + k)
      case None => Unsupported
  }

  // a is the address of the ModRM byte.
  function ReadPlace(code: seq<Byte>, a: nat, p: Prefix): Place
    requires p.b < 2 && p.x < 2
  {
    if a >= |code| then Unsupported
    else
      var mod, rm := code[a] / 64, code[a] % 8;
      if mod == 3 then Direct(rm + 8 * p.b, a + 1)
      else if rm == 4 then
        if a + 1 >= |code| then Unsupported
        else
          var index, base := (code[a + 1] / 8) % 8 + 8 * p.x, code[a + 1] % 8;
          if index != 4 || (mod == 0 && base == 5) then Unsupported
          else WithDisp(code, a + 2, mod, base + 8 * p.b)
      else if mod == 0 && rm == 5 then Unsupported
      else WithDisp(code, a + 1, mod, rm + 8 * p.b)
  }

  function ReadReg(code: seq<Byte>, a: nat, p: Prefix): Reg
    requires p.r < 2
  {
    if a < |code| then (code[a] / 8) % 8 + 8 * p.r else 0
  }

  function CondOf(b: Byte): Option<Cond> {
    if b == 0x84 then Some(E) else if b == 0x85 then Some(NE) else if b == 0x8C then Some(L)
    else if b == 0x8D then Some(GE) else if b == 0x8E then Some(LE) else if b == 0x8F then Some(G) else None
  }

  datatype Decoded = Decoded(i: Insn<int>, next: nat)

  function DecodeJump(code: seq<Byte>, a: nat, cond: Option<Cond>): Option<Decoded> {
    match Bytes(code, a, 4)
    case None => None
    case Some(s) =>
      Some(Decoded(match cond case Some(c) => Jcc(c, SignedFrom(s)) case None => Jmp(SignedFrom(s)), a + 4))
  }

  // Register-to-register forms with the destination in r/m.
  function DecodeRegReg(op: Byte, reg: Reg, rm: Reg, next: nat): Option<Decoded> {
    if op == 0x89 then Some(Decoded(MovRR(rm, reg), next))
    else if op == 0x8B then Some(Decoded(MovRR(reg, rm), next))
    else if op == 0x01 then Some(Decoded(Add(rm, reg), next))
    else if op == 0x29 then Some(Decoded(Sub(rm, reg), next))
    else if op == 0x39 then Some(Decoded(Cmp(rm, reg), next))
    else None
  }

  // op is the opcode byte, at address a.
  function DecodeOp(code: seq<Byte>, a: nat, p: Prefix): Option<Decoded>
    requires a < |code| && p.r < 2 && p.b < 2 && p.x < 2
  {
    var op := code[a];
    if 0x50 <= op < 0x58 then Some(Decoded(Push(op - 0x50 + 8 * p.b), a + 1))
    else if 0x58 <= op < 0x60 then Some(Decoded(Pop(op - 0x58 + 8 * p.b), a + 1))
    else if op == 0xC3 then Some(Decoded(Ret, a + 1))
    else if op == 0xE9 then DecodeJump(code, a + 1, None)
    else if op == 0x0F then
      if a + 1 >= |code| then None
      else if code[a + 1] == 0xAF then
        if !p.w then None
        else
          match ReadPlace(code, a + 2, p)
          case Direct(rm, next) => Some(Decoded(Imul(ReadReg(code, a + 2, p), rm), next))
          case _ => None
      else if CondOf(code[a + 1]).Some? then DecodeJump(code, a + 2, CondOf(code[a + 1]))
      else None
    else if !p.w then None
    else if 0xB8 <= op < 0xC0 then
      match Bytes(code, a + 1, 8)
      case Some(s) => Some(Decoded(MovRI(op - 0xB8 + 8 * p.b, SignedFrom(s)), a + 9))
      case None => None
    else if op == 0x81 then
      match ReadPlace(code, a + 1, p)
      case Direct(rm, next) =>
        if (code[a + 1] / 8) % 8 != 5 then None
        else
          (match Bytes(code, next, 4)
           case Some(s) => Some(Decoded(SubImm(rm, SignedFrom(s)), next + 4))
           case None => None)
      case _ => None
    else
      match ReadPlace(code, a + 1, p)
      case Direct(rm, next) => DecodeRegReg(op, ReadReg(code, a + 1, p), rm, next)
      case Indirect(base, disp, next) =>
        if op == 0x8B then Some(Decoded(MovRM(ReadReg(code, a + 1, p), base, disp), next))
        else if op == 0x89 then Some(Decoded(MovMR(base, disp, ReadReg(code, a + 1, p)), next))
        else None
      case Unsupported => None
  }

  function Decode(code: seq<Byte>, a: nat): Option<Decoded> {
    var p := ReadPrefix(code, a);
    if p.at < |code| then DecodeOp(code, p.at, p) else None
  }

  // ----- the round trip -----

  ghost predicate Holds(code: seq<Byte>, a: nat, s: seq<Byte>) {
    a + |s| <= |code| && forall k :: 0 <= k < |s| ==> code[a + k] == s[k]
  }

  lemma ReadsBytes(code: seq<Byte>, a: nat, n: int, k: nat)
    requires Holds(code, a, ToBytes(n, k))
    ensures Bytes(code, a, k) == Some(ToBytes(n, k))
  {
    assert code[a..a + k] == ToBytes(n, k);
  }

  lemma HoldsParts(code: seq<Byte>, a: nat, s: seq<Byte>, t: seq<Byte>)
    requires Holds(code, a, s + t)
    ensures Holds(code, a, s) && Holds(code, a + |s|, t)
  {
    assert forall k :: 0 <= k < |s| ==> (s + t)[k] == s[k];
    assert forall k :: 0 <= k < |t| ==> (s + t)[|s| + k] == t[k];
    forall k | 0 <= k < |t| ensures code[a + |s| + k] == t[k] { assert code[a + (|s| + k)] == (s + t)[|s| + k]; }
  }

  lemma PrefixRead(code: seq<Byte>, a: nat, w: bool, reg: Reg, rm: Reg, s: seq<Byte>)
    requires Holds(code, a, RexBytes(w, reg, rm) + s) && |s| > 0 && !(0x40 <= s[0] < 0x50)
    ensures ReadPrefix(code, a) == Prefix(w, reg / 8, 0, rm / 8, a + |RexBytes(w, reg, rm)|)
    ensures Holds(code, a + |RexBytes(w, reg, rm)|, s)
  {
    HoldsParts(code, a, RexBytes(w, reg, rm), s);
    assert code[a] == (RexBytes(w, reg, rm) + s)[0];
  }

  lemma RegFields(mod: nat, reg: Reg, rm: Reg)
    requires mod < 4
    ensures ModRM(mod, reg, rm) / 64 == mod && (ModRM(mod, reg, rm) / 8) % 8 == reg % 8 &&
      ModRM(mod, reg, rm) % 8 == rm % 8
  {
    var r, m := reg % 8, rm % 8;
    DivModUnique(ModRM(mod, reg, rm), 64, mod, r * 8 + m);
    DivModUnique(ModRM(mod, reg, rm), 8, mod * 8 + r, m);
    DivModUnique(mod * 8 + r, 8, mod, r);
  }

  // The addressing mode of a memory operand, and the bytes of its displacement.
  function ModOf(base: Reg, disp: int): nat {
    if disp == 0 && base % 8 != RSP && base % 8 != RBP then 0 else if -128 <= disp <= 127 then 1 else 2
  }

  function DispBytes(mod: nat, disp: int): seq<Byte> {
    if mod == 0 then [] else ToBytes(disp, if mod == 1 then 1 else 4)
  }

  lemma OperandParts(reg: Reg, base: Reg, disp: int)
    ensures var mod := ModOf(base, disp);
      MemOperand(reg, base, disp) == [ModRM(mod, reg, base)] +
        ((if base % 8 == RSP then [Sib(0, RSP, base)] else []) + DispBytes(mod, disp))
  {
    hide ToBytes, ModRM, Sib;
  }

  lemma DispRead(code: seq<Byte>, a: nat, base: Reg, disp: int)
    requires Fits32(disp) && Holds(code, a, DispBytes(ModOf(base, disp), disp))
    ensures WithDisp(code, a, ModOf(base, disp), base) == Indirect(base, disp, a + |DispBytes(ModOf(base, disp), disp)|)
  {
    hide ToBytes, FromBytes, SignedFrom, Pow256, Bytes, Holds;
    var mod := ModOf(base, disp);
    if mod != 0 {
      var k := if mod == 1 then 1 else 4;
      Powers();
      SignedRoundTrip(disp, k);
      ReadsBytes(code, a, disp, k);
    }
  }

  lemma SibRead(base: Reg)
    requires base % 8 == RSP
    ensures (Sib(0, RSP, base) / 8) % 8 == 4 && Sib(0, RSP, base) % 8 == 4
  {}

  lemma PlaceRead(code: seq<Byte>, a: nat, reg: Reg, base: Reg, disp: int)
    requires Fits32(disp) && Holds(code, a, MemOperand(reg, base, disp))
    ensures var p := Prefix(true, reg / 8, 0, base / 8, a);
      ReadPlace(code, a, p) == Indirect(base, disp, a + |MemOperand(reg, base, disp)|) && ReadReg(code, a, p) == reg
  {
    OperandParts(reg, base, disp);
    RegFields(ModOf(base, disp), reg, base);
    var mod := ModOf(base, disp);
    hide MemOperand, ModRM, Sib, DispBytes, WithDisp, Fits32, Holds;
    var head: seq<Byte> := [ModRM(mod, reg, base)];
    var rest := DispBytes(mod, disp);
    if base % 8 == RSP {
      var sib: seq<Byte> := [Sib(0, RSP, base)];
      HoldsParts(code, a, head, sib + rest);
      HoldsParts(code, a + 1, sib, rest);
      HoldsFirst(code, a + 1, sib);
      SibRead(base);
      DispRead(code, a + 2, base, disp);
    } else {
      assert [] + rest == rest;
      HoldsParts(code, a, head, rest);
      DispRead(code, a + 1, base, disp);
    }
    HoldsFirst(code, a, head);
  }

  lemma DecodesSimple(code: seq<Byte>, a: nat, i: Insn<int>)
    requires (i.Push? || i.Pop? || i.Ret?) && Holds(code, a, Encode(i))
    ensures Decode(code, a) == Some(Decoded(i, a + |Encode(i)|))
  {
    hide ReadPlace, ReadReg, ModRM, DecodeJump, Bytes, CondOf, Holds, RexBytes;
    if i.Ret? {
      HoldsFirst(code, a, Encode(i));
    } else {
      var last: Byte := if i.Push? then 0x50 + i.r % 8 else 0x58 + i.r % 8;
      PrefixRead(code, a, false, 0, i.r, [last]);
      HoldsFirst(code, a + |RexBytes(false, 0, i.r)|, [last]);
      hide ReadPrefix;
    }
  }

  // A ModRM byte of two registers.
  lemma DirectRead(code: seq<Byte>, a: nat, reg: Reg, rm: Reg, p: Prefix)
    requires a < |code| && code[a] == ModRM(3, reg, rm) && p.r == reg / 8 && p.x == 0 && p.b == rm / 8
    ensures ReadPlace(code, a, p) == Direct(rm, a + 1) && ReadReg(code, a, p) == reg
  {
    RegFields(3, reg, rm);
    hide ModRM;
  }

  // op reg, rm with both fields registers.
  lemma DecodesDirect(code: seq<Byte>, a: nat, op: Byte, reg: Reg, rm: Reg)
    requires op in {0x89, 0x01, 0x29, 0x39} && Holds(code, a, RexBytes(true, reg, rm) + [op, ModRM(3, reg, rm)])
    ensures Decode(code, a) == DecodeRegReg(op, reg, rm, a + 3)
  {
    hide ReadPlace, ReadReg, ModRM, DecodeJump, Bytes, CondOf, RexBytes, ReadPrefix, DecodeRegReg;
    var s: seq<Byte> := [op, ModRM(3, reg, rm)];
    PrefixRead(code, a, true, reg, rm, s);
    RexIsOne(reg, rm);
    assert code[a + 1] == s[0] && code[a + 2] == s[1];
    DirectRead(code, a + 2, reg, rm, Prefix(true, reg / 8, 0, rm / 8, a + 1));
  }

  lemma DecodesImul(code: seq<Byte>, a: nat, dst: Reg, src: Reg)
    requires Holds(code, a, Encode(Imul(dst, src)))
    ensures Decode(code, a) == Some(Decoded(Imul(dst, src), a + 4))
  {
    hide ReadPlace, ReadReg, ModRM, DecodeJump, Bytes, CondOf, RexBytes, ReadPrefix, DecodeRegReg;
    var s: seq<Byte> := [0x0F, 0xAF, ModRM(3, dst, src)];
    PrefixRead(code, a, true, dst, src, s);
    RexIsOne(dst, src);
    assert code[a + 1] == s[0] && code[a + 2] == s[1] && code[a + 3] == s[2];
    DirectRead(code, a + 3, dst, src, Prefix(true, dst / 8, 0, src / 8, a + 1));
  }

  lemma DecodesImmediate(code: seq<Byte>, a: nat, dst: Reg, imm: int)
    requires Fits64(imm) && Holds(code, a, Encode(MovRI(dst, imm)))
    ensures Decode(code, a) == Some(Decoded(MovRI(dst, imm), a + 10))
  {
    hide ToBytes, FromBytes, SignedFrom, Pow256, Encode, Head, Holds, RexBytes, ReadPrefix, Bytes, Decode, Fits64;
    var op: Byte := 0xB8 + dst % 8;
    ImmediateEncoded(dst, imm);
    PrefixRead(code, a, true, 0, dst, [op] + ToBytes(imm, 8));
    RexIsOne(0, dst);
    HoldsParts(code, a + 1, [op], ToBytes(imm, 8));
    HoldsFirst(code, a + 1, [op]);
    Signed64(imm);
    ReadsBytes(code, a + 2, imm, 8);
    ReadsImmediate(code, a, dst, ToBytes(imm, 8));
  }

  lemma ImmediateEncoded(dst: Reg, imm: int)
    ensures Encode(MovRI(dst, imm)) == RexBytes(true, 0, dst) + ([0xB8 + dst % 8] + ToBytes(imm, 8))
  {
    hide ToBytes, RexBytes;
  }

  lemma Signed64(imm: int)
    requires Fits64(imm)
    ensures SignedFrom(ToBytes(imm, 8)) == imm
  {
    hide SignedFrom, ToBytes;
    Powers();
    SignedRoundTrip(imm, 8);
  }

  lemma ReadsImmediate(code: seq<Byte>, a: nat, dst: Reg, s: seq<Byte>)
    requires ReadPrefix(code, a) == Prefix(true, 0, 0, dst / 8, a + 1) && a + 1 < |code| &&
      code[a + 1] == 0xB8 + dst % 8
    requires Bytes(code, a + 2, 8) == Some(s)
    ensures Decode(code, a) == Some(Decoded(MovRI(dst, SignedFrom(s)), a + 10))
  {
    hide ReadPrefix, Bytes, SignedFrom, ReadPlace;
  }

  lemma RexIsOne(reg: Reg, rm: Reg)
    ensures |RexBytes(true, reg, rm)| == 1
  {}

  lemma HoldsFirst(code: seq<Byte>, a: nat, s: seq<Byte>)
    requires Holds(code, a, s) && s != []
    ensures a < |code| && code[a] == s[0]
  {
    assert code[a + 0] == s[0];
  }

  lemma DecodesFrame(code: seq<Byte>, a: nat, imm: int)
    requires 0 <= imm < 0x1_0000_0000 && Holds(code, a, Encode(SubImm(RSP, imm)))
    ensures Decode(code, a) == Some(Decoded(AsRead(SubImm(RSP, imm)), a + 7))
  {
    hide ToBytes, FromBytes, SignedFrom, Pow256, ReadPrefix, Bytes, ReadPlace, Holds, Decode;
    var s: seq<Byte> := [0x48, 0x81, 0xEC];
    HoldsParts(code, a, s, ToBytes(imm, 4));
    SignExtends(imm);
    ReadsBytes(code, a + 3, imm, 4);
    ReadsFrame(code, a, ToBytes(imm, 4));
  }

  lemma SignExtends(imm: int)
    requires 0 <= imm < 0x1_0000_0000
    ensures SignedFrom(ToBytes(imm, 4)) == SignExtended(imm)
  {
    hide SignedFrom, ToBytes;
    Powers();
    UnsignedReadSigned(imm, 4);
  }

  lemma ReadsFrame(code: seq<Byte>, a: nat, s: seq<Byte>)
    requires Holds(code, a, [0x48, 0x81, 0xEC]) && Bytes(code, a + 3, 4) == Some(s)
    ensures Decode(code, a) == Some(Decoded(SubImm(RSP, SignedFrom(s)), a + 7))
  {
    var head: seq<Byte> := [0x48, 0x81, 0xEC];
    assert code[a] == head[0] && code[a + 1] == head[1] && code[a + 2] == head[2];
    hide Bytes, SignedFrom;
    assert ReadPrefix(code, a) == Prefix(true, 0, 0, 0, a + 1);
    assert ReadPlace(code, a + 2, Prefix(true, 0, 0, 0, a + 1)) == Direct(RSP, a + 3);
  }

  lemma DecodesMemory(code: seq<Byte>, a: nat, op: Byte, reg: Reg, base: Reg, disp: int)
    requires op in {0x89, 0x8B} && Fits32(disp)
    requires Holds(code, a, RexBytes(true, reg, base) + [op] + MemOperand(reg, base, disp))
    ensures Decode(code, a) == Some(Decoded(if op == 0x8B then MovRM(reg, base, disp) else MovMR(base, disp, reg),
      a + 2 + |MemOperand(reg, base, disp)|))
  {
    var m := MemOperand(reg, base, disp);
    hide MemOperand, ReadPlace, ReadReg;
    assert RexBytes(true, reg, base) + [op] + m == RexBytes(true, reg, base) + ([op] + m);
    PrefixRead(code, a, true, reg, base, [op] + m);
    HoldsParts(code, a + 1, [op], m);
    assert code[a + 1] == [op][0];
    PlaceRead(code, a + 2, reg, base, disp);
    var p := Prefix(true, reg / 8, 0, base / 8, a + 2);
    PlaceIgnoresAddress(code, a + 2, p, p.(at := a + 1));
    assert ReadPrefix(code, a) == Prefix(true, reg / 8, 0, base / 8, a + 1);
  }

  lemma PlaceIgnoresAddress(code: seq<Byte>, a: nat, p: Prefix, q: Prefix)
    requires p.b < 2 && p.x < 2 && p.r < 2 && q == p.(at := q.at)
    ensures ReadPlace(code, a, p) == ReadPlace(code, a, q) && ReadReg(code, a, p) == ReadReg(code, a, q)
  {}

  lemma DecodesJump(code: seq<Byte>, a: nat, i: Insn<int>)
    requires IsJump(i) && Fits32(i.target) && Holds(code, a, Encode(i))
    ensures Decode(code, a) == Some(Decoded(i, a + |Encode(i)|))
  {
    HoldsParts(code, a, Head(i), ToBytes(i.target, 4));
    assert code[a] == Head(i)[0];
    if i.Jcc? { assert code[a + 1] == Head(i)[1]; }
    Powers();
    SignedRoundTrip(i.target, 4);
    ReadsBytes(code, a + |Head(i)|, i.target, 4);
  }

  // Main result: wherever an encoded instruction stands, the decoder reads it back; a
  // subtraction of 2^31 or more comes back as an addition.
  lemma DecodeEncode(code: seq<Byte>, a: nat, i: Insn<int>)
    requires Encodable(i) && Holds(code, a, Encode(i))
    ensures Decode(code, a) == Some(Decoded(AsRead(i), a + |Encode(i)|))
    ensures AsRead(i) == i <==> ReadAsWritten(i)
  {
    hide Decode;
    match i
    case Push(_) => DecodesSimple(code, a, i);
    case Pop(_) => DecodesSimple(code, a, i);
    case Ret => DecodesSimple(code, a, i);
    case MovRR(dst, src) => DecodesDirect(code, a, 0x89, src, dst);
    case MovRI(dst, imm) => DecodesImmediate(code, a, dst, imm);
    case MovRM(dst, base, disp) => DecodesMemory(code, a, 0x8B, dst, base, disp);
    case MovMR(base, disp, src) => DecodesMemory(code, a, 0x89, src, base, disp);
    case Add(dst, src) => DecodesDirect(code, a, 0x01, src, dst);
    case Sub(dst, src) => DecodesDirect(code, a, 0x29, src, dst);
    case Imul(dst, src) => DecodesImul(code, a, dst, src);
    case Cmp(left, right) => DecodesDirect(code, a, 0x39, right, left);
    case SubImm(dst, imm) => DecodesFrame(code, a, imm);
    case Jmp(_) => DecodesJump(code, a, i);
    case Jcc(_, _) => DecodesJump(code, a, i);
  }

  function AllAsRead(insns: seq<Insn<int>>): seq<Insn<int>> {
    if insns == [] then [] else [AsRead(insns[0])] + AllAsRead(insns[1..])
  }

  // A program of encoded instructions decodes, in one pass, to itself as it is read.
  function EncodeAll(insns: seq<Insn<int>>): seq<Byte> {
    if insns == [] then [] else Encode(insns[0]) + EncodeAll(insns[1..])
  }

  function DecodeAll(code: seq<Byte>, a: nat, count: nat): Option<seq<Insn<int>>>
    decreases count
  {
    if count == 0 then Some([])
    else
      match Decode(code, a)
      case None => None
      case Some(d) =>
        match DecodeAll(code, d.next, count - 1)
        case None => None
        case Some(rest) => Some([d.i] + rest)
  }

  lemma {:induction false} DecodeAllEncodeAll(insns: seq<Insn<int>>, before: seq<Byte>, after: seq<Byte>)
    requires forall i :: i in insns ==> Encodable(i)
    ensures DecodeAll(before + EncodeAll(insns) + after, |before|, |insns|) == Some(AllAsRead(insns))
  {
    hide Decode, Encode, Encodable, AsRead, ReadAsWritten;
    if insns != [] {
      var code := before + EncodeAll(insns) + after;
      var b := Encode(insns[0]);
      assert code == (before + b) + EncodeAll(insns[1..]) + after;
      forall k | 0 <= k < |b| ensures code[|before| + k] == b[k] {}
      DecodeEncode(code, |before|, insns[0]);
      DecodeAllEncodeAll(insns[1..], before + b, after);
      assert DecodeAll(code, |before| + |b|, |insns| - 1) == Some(AllAsRead(insns[1..]));
    }
  }
}
