// Branch words of the RISC-V and AArch64 assemblers. A branch is emitted with an empty
// immediate; resolving its label joins the scattered immediate bits into the word.

module BranchWords {
  import opened Division

  const TWO32: nat := 0x1_0000_0000

  type Word32 = w: nat | w < 0x1_0000_0000

  datatype Kind = RiscvBranch | RiscvJal | ArmB | ArmBcond

  // ----- bitwise or -----

  function Or(x: nat, y: nat): nat {
    if x == 0 then y
    else if y == 0 then x
    else 2 * Or(x / 2, y / 2) + (if x % 2 == 1 || y % 2 == 1 then 1 else 0)
  }

  lemma OrZero(x: nat)
    ensures Or(x, 0) == x && Or(0, x) == x
  {}

  lemma OrStep(x: nat, y: nat)
    ensures Or(x, y) == 2 * Or(x / 2, y / 2) + (if x % 2 == 1 || y % 2 == 1 then 1 else 0)
  {
    OrZero(x / 2);
    OrZero(y / 2);
  }

  function Pow2(k: nat): (r: nat)
    ensures r >= 1
  {
    if k == 0 then 1 else 2 * Pow2(k - 1)
  }

  lemma HalveScaled(a: nat, b: nat, k: nat)
    requires k > 0
    ensures (a * Pow2(k) + b) / 2 == a * Pow2(k - 1) + b / 2 && (a * Pow2(k) + b) % 2 == b % 2
  {
    assert a * Pow2(k) == 2 * (a * Pow2(k - 1));
  }

  // Or works on the low k bits and on the rest separately.
  lemma {:induction false} OrSplit(a: nat, b: nat, c: nat, d: nat, k: nat)
    requires b < Pow2(k) && d < Pow2(k)
    ensures Or(a * Pow2(k) + b, c * Pow2(k) + d) == Or(a, c) * Pow2(k) + Or(b, d)
    ensures Or(b, d) < Pow2(k)
    decreases k
  {
    hide Or;
    if k == 0 {
      OrZero(0);
    } else {
      var x, y, p := a * Pow2(k) + b, c * Pow2(k) + d, Pow2(k - 1);
      OrSplit(a, b / 2, c, d / 2, k - 1);
      HalveScaled(a, b, k);
      HalveScaled(c, d, k);
      OrStep(x, y);
      OrStep(b, d);
      Doubled(Or(a, c), p, Or(b / 2, d / 2));
      hide Pow2;
      assert Or(x, y) == 2 * (Or(a, c) * p + Or(b / 2, d / 2)) + (if b % 2 == 1 || d % 2 == 1 then 1 else 0);
    }
  }

  lemma Doubled(a: nat, p: nat, b: nat)
    ensures 2 * (a * p + b) == a * (2 * p) + 2 * b
  {}

  // Fields that do not meet are joined by addition.
  lemma OrApart(a: nat, b: nat, k: nat)
    requires b < Pow2(k)
    ensures Or(a * Pow2(k), b) == a * Pow2(k) + b && Or(b, a * Pow2(k)) == a * Pow2(k) + b
  {
    OrSplit(a, 0, 0, b, k);
    OrSplit(0, b, a, 0, k);
    OrZero(a);
    OrZero(b);
    assert 0 * Pow2(k) == 0;
  }

  // ----- the formats -----

  // The immediate's bits, at their places in the word.
  function Scattered(kind: Kind, distance: int): Word32 {
    match kind
    case RiscvBranch =>
      distance / 0x1000 % 2 * 0x8000_0000 + distance / 0x20 % 0x40 * 0x200_0000 + distance / 2 % 0x10 * 0x100 +
      distance / 0x800 % 2 * 0x80
    case RiscvJal =>
      distance / 0x10_0000 % 2 * 0x8000_0000 + distance / 2 % 0x400 * 0x20_0000 + distance / 0x800 % 2 * 0x10_0000 +
      distance / 0x1000 % 0x100 * 0x1000
    case ArmB => distance / 4 % 0x400_0000
    case ArmBcond => distance / 4 % 0x8_0000 * 0x20
  }

  function Filled(kind: Kind, w: Word32, distance: int): nat { Or(w, Scattered(kind, distance)) }

  // Words whose immediate is empty.
  predicate Blank(kind: Kind, w: Word32) {
    match kind
    case RiscvBranch => w / 0x80 % 0x20 == 0 && w / 0x200_0000 == 0
    case RiscvJal => w / 0x1000 == 0
    case ArmB => w % 0x400_0000 == 0
    case ArmBcond => w / 0x20 % 0x8_0000 == 0
  }

  // What is not immediate: opcode, registers, function, condition.
  function Others(kind: Kind, w: nat): (nat, nat) {
    match kind
    case RiscvBranch => (w / 0x1000 % 0x2000, w % 0x80)
    case RiscvJal => (0, w % 0x1000)
    case ArmB => (w / 0x400_0000, 0)
    case ArmBcond => (w / 0x100_0000, w % 0x20)
  }

  function SignedIn(n: nat, half: nat): int { if n >= half then n - 2 * half else n }

  // The distance a processor reads: section 2.3 of the RISC-V Unprivileged ISA,
  // section C6.2 of Arm DDI 0487.
  function Displacement(kind: Kind, w: nat): int {
    match kind
    case RiscvBranch =>
      SignedIn(w / 0x8000_0000 % 2 * 0x1000 + w / 0x80 % 2 * 0x800 + w / 0x200_0000 % 0x40 * 0x20 +
        w / 0x100 % 0x10 * 2, 0x1000)
    case RiscvJal =>
      SignedIn(w / 0x8000_0000 % 2 * 0x10_0000 + w / 0x1000 % 0x100 * 0x1000 + w / 0x10_0000 % 2 * 0x800 +
        w / 0x20_0000 % 0x400 * 2, 0x10_0000)
    case ArmB => 4 * SignedIn(w % 0x400_0000, 0x200_0000)
    case ArmBcond => 4 * SignedIn(w / 0x20 % 0x8_0000, 0x4_0000)
  }

  // Half the number of distances the format distinguishes, in bytes.
  function Reach(kind: Kind): int {
    match kind case RiscvBranch => 0x1000 case RiscvJal => 0x10_0000 case ArmB => 0x800_0000 case ArmBcond => 0x10_0000
  }

  function Unit(kind: Kind): nat { if kind.ArmB? || kind.ArmBcond? then 4 else 2 }

  // A branch reads its distance back, or the distance wrapped around when it is too far.
  function Wrapped(kind: Kind, distance: int): int { SignedIn(distance % (2 * Reach(kind)), Reach(kind)) }

  // ----- joining and reading the fields -----

  lemma JoinBranch(mid: nat, op: nat, hi: nat, lo: nat)
    requires mid < 0x2000 && op < 0x80 && lo < 0x20
    ensures Or(mid * 0x1000 + op, hi * 0x200_0000 + lo * 0x80) == hi * 0x200_0000 + mid * 0x1000 + lo * 0x80 + op
  {
    Powers2();
    hide Or, Pow2;
    OrSplit(mid, op, hi * 0x2000, lo * 0x80, 12);
    OrApart(hi, mid, 13);
    OrApart(lo, op, 7);
  }

  // s, m, l, t: the distance's sign, bits 10 to 5, bits 4 to 1, and bit 11.
  lemma BranchParts(w: nat, mid: nat, op: nat, s: nat, m: nat, l: nat, t: nat)
    requires mid < 0x2000 && op < 0x80 && s < 2 && m < 0x40 && l < 0x10 && t < 2
    requires w == (s * 0x40 + m) * 0x200_0000 + mid * 0x1000 + (l * 2 + t) * 0x80 + op
    ensures w / 0x1000 % 0x2000 == mid && w % 0x80 == op && w / 0x8000_0000 == s && w / 0x200_0000 % 0x40 == m
    ensures w / 0x100 % 0x10 == l && w / 0x80 % 2 == t
  {
    var hi, lo := s * 0x40 + m, l * 2 + t;
    DivModUnique(w, 0x200_0000, hi, mid * 0x1000 + lo * 0x80 + op);
    DivModUnique(w, 0x1000, hi * 0x2000 + mid, lo * 0x80 + op);
    DivModUnique(w, 0x80, (hi * 0x2000 + mid) * 0x20 + lo, op);
    DivModUnique(w, 0x100, (hi * 0x2000 + mid) * 0x10 + l, t * 0x80 + op);
    DivModUnique(w, 0x8000_0000, s, m * 0x200_0000 + mid * 0x1000 + lo * 0x80 + op);
    DivModUnique(hi * 0x2000 + mid, 0x2000, hi, mid);
    DivModUnique(hi, 0x40, s, m);
    DivModUnique((hi * 0x2000 + mid) * 0x20 + lo, 2, (hi * 0x2000 + mid) * 0x10 + l, t);
    DivModUnique((hi * 0x2000 + mid) * 0x10 + l, 0x10, hi * 0x2000 + mid, l);
  }

  lemma ReadBranch(w: nat, mid: nat, op: nat, s: nat, m: nat, l: nat, t: nat)
    requires mid < 0x2000 && op < 0x80 && s < 2 && m < 0x40 && l < 0x10 && t < 2
    requires w == (s * 0x40 + m) * 0x200_0000 + mid * 0x1000 + (l * 2 + t) * 0x80 + op
    ensures w < TWO32 && Others(RiscvBranch, w) == (mid, op)
    ensures Displacement(RiscvBranch, w) == SignedIn(s * 0x1000 + t * 0x800 + m * 0x20 + l * 2, 0x1000)
  {
    BranchParts(w, mid, op, s, m, l, t);
    hide SignedIn;
  }

  lemma BranchDigits(d: int)
    requires d % 2 == 0
    ensures d % 0x2000 == d / 0x1000 % 2 * 0x1000 + d / 0x800 % 2 * 0x800 + d / 0x20 % 0x40 * 0x20 + d / 2 % 0x10 * 2
  {
    Digits(d, 0x1000, 2);
    Digits(d, 0x800, 2);
    Digits(d, 0x20, 0x40);
    Digits(d, 2, 0x10);
  }

  lemma BranchFilled(w: Word32, d: int)
    requires Blank(RiscvBranch, w) && d % 2 == 0
    ensures FilledWell(RiscvBranch, w, d)
  {
    hide Or, Displacement, Others;
    var s, m, l, t := d / 0x1000 % 2, d / 0x20 % 0x40, d / 2 % 0x10, d / 0x800 % 2;
    var mid, op := w / 0x1000, w % 0x80;
    assert w == mid * 0x1000 + op;
    JoinBranch(mid, op, s * 0x40 + m, l * 2 + t);
    OthersBranch(w);
    ReadBranch(Filled(RiscvBranch, w, d), mid, op, s, m, l, t);
    BranchDigits(d);
  }

  lemma OthersBranch(w: Word32)
    requires Blank(RiscvBranch, w)
    ensures Others(RiscvBranch, w) == (w / 0x1000, w % 0x80) && w / 0x1000 < 0x2000
  {}

  // The processor reads the distance, or it wrapped around; nothing else changed.
  ghost predicate FilledWell(kind: Kind, w: Word32, distance: int) {
    Filled(kind, w, distance) < TWO32 && Others(kind, Filled(kind, w, distance)) == Others(kind, w) &&
    Displacement(kind, Filled(kind, w, distance)) == Wrapped(kind, distance)
  }

  lemma Powers2()
    ensures Pow2(5) == 0x20 && Pow2(7) == 0x80 && Pow2(12) == 0x1000 && Pow2(13) == 0x2000
    ensures Pow2(19) == 0x8_0000 && Pow2(26) == 0x400_0000
  {
    assert Pow2(4) == 0x10;
    assert Pow2(8) == 0x100;
    assert Pow2(12) == 0x1000;
    assert Pow2(16) == 0x1_0000;
    assert Pow2(20) == 0x10_0000;
    assert Pow2(24) == 0x100_0000;
  }

  // s, l, t, m: the distance's sign, bits 10 to 1, bit 11, and bits 19 to 12.
  lemma ReadJal(low: nat, s: nat, l: nat, t: nat, m: nat)
    requires low < 0x1000 && s < 2 && l < 0x400 && t < 2 && m < 0x100
    ensures var w := (((s * 0x400 + l) * 2 + t) * 0x100 + m) * 0x1000 + low;
      w < TWO32 && Others(RiscvJal, w) == (0, low) &&
      Displacement(RiscvJal, w) == SignedIn(s * 0x10_0000 + m * 0x1000 + t * 0x800 + l * 2, 0x10_0000)
  {
    var sl := s * 0x400 + l;
    var w := ((sl * 2 + t) * 0x100 + m) * 0x1000 + low;
    DivModUnique(w, 0x1000, (sl * 2 + t) * 0x100 + m, low);
    DivModUnique((sl * 2 + t) * 0x100 + m, 0x100, sl * 2 + t, m);
    DivModUnique(w, 0x10_0000, sl * 2 + t, m * 0x1000 + low);
    DivModUnique(sl * 2 + t, 2, sl, t);
    DivModUnique(w, 0x20_0000, sl, t * 0x10_0000 + m * 0x1000 + low);
    DivModUnique(sl, 0x400, s, l);
    DivModUnique(w, 0x8000_0000, s, l * 0x20_0000 + t * 0x10_0000 + m * 0x1000 + low);
  }

  lemma JalDigits(d: int)
    requires d % 2 == 0
    ensures d % 0x20_0000 ==
      d / 0x10_0000 % 2 * 0x10_0000 + d / 0x1000 % 0x100 * 0x1000 + d / 0x800 % 2 * 0x800 + d / 2 % 0x400 * 2
  {
    Digits(d, 0x10_0000, 2);
    Digits(d, 0x1000, 0x100);
    Digits(d, 0x800, 2);
    Digits(d, 2, 0x400);
  }

  lemma JalFilled(w: Word32, d: int)
    requires Blank(RiscvJal, w) && d % 2 == 0
    ensures FilledWell(RiscvJal, w, d)
  {
    hide Or, Displacement, Pow2;
    var s, l, t, m := d / 0x10_0000 % 2, d / 2 % 0x400, d / 0x800 % 2, d / 0x1000 % 0x100;
    Powers2();
    OrApart(((s * 0x400 + l) * 2 + t) * 0x100 + m, w, 12);
    ReadJal(w, s, l, t, m);
    JalDigits(d);
  }

  lemma ReadArmB(top: nat, imm: nat)
    requires top < 0x40 && imm < 0x400_0000
    ensures var w := top * 0x400_0000 + imm;
      w < TWO32 && Others(ArmB, w) == (top, 0) && Displacement(ArmB, w) == 4 * SignedIn(imm, 0x200_0000)
  {
    DivModUnique(top * 0x400_0000 + imm, 0x400_0000, top, imm);
    hide SignedIn;
  }

  lemma ArmBParts(w: Word32)
    requires Blank(ArmB, w)
    ensures w / 0x400_0000 < 0x40 && w == w / 0x400_0000 * 0x400_0000 && Others(ArmB, w) == (w / 0x400_0000, 0)
  {}

  // A distance in words is a quarter of a distance in bytes, wrapped around alike.
  lemma WordsWrap(d: int, half: nat)
    requires d % 4 == 0 && half > 0
    ensures 4 * SignedIn(d / 4 % (2 * half), half) == SignedIn(d % (8 * half), 4 * half)
  {
    var n := 2 * half;
    var q, r := d / 4 / n, d / 4 % n;
    assert d / 4 == q * n + r;
    assert d == q * (4 * n) + 4 * r;
    DivModUnique(d, 4 * n, q, 4 * r);
  }

  lemma ArmBFilled(w: Word32, d: int)
    requires Blank(ArmB, w) && d % 4 == 0
    ensures FilledWell(ArmB, w, d)
  {
    ArmBParts(w);
    WordsWrap(d, 0x200_0000);
    hide Or, Pow2, SignedIn, Displacement, Others, Blank;
    var top, imm := w / 0x400_0000, d / 4 % 0x400_0000;
    Powers2();
    OrApart(top, imm, 26);
    ReadArmB(top, imm);
  }

  lemma JoinBcond(top: nat, low: nat, imm: nat)
    requires imm < 0x8_0000 && low < 0x20
    ensures Or(top * 0x8_0000 * 0x20 + low, imm * 0x20) == (top * 0x8_0000 + imm) * 0x20 + low
  {
    hide Or, Pow2;
    Powers2();
    OrSplit(top * 0x8_0000, low, imm, 0, 5);
    OrApart(top, imm, 19);
    OrZero(low);
  }

  lemma ReadArmBcond(top: nat, imm: nat, low: nat)
    requires top < 0x100 && imm < 0x8_0000 && low < 0x20
    ensures var w := (top * 0x8_0000 + imm) * 0x20 + low;
      w < TWO32 && Others(ArmBcond, w) == (top, low) && Displacement(ArmBcond, w) == 4 * SignedIn(imm, 0x4_0000)
  {
    var w := (top * 0x8_0000 + imm) * 0x20 + low;
    DivModUnique(w, 0x20, top * 0x8_0000 + imm, low);
    DivModUnique(w, 0x100_0000, top, imm * 0x20 + low);
    DivModUnique(top * 0x8_0000 + imm, 0x8_0000, top, imm);
    hide SignedIn;
  }

  lemma ArmBcondParts(w: Word32)
    requires Blank(ArmBcond, w)
    ensures var top, low := w / 0x100_0000, w % 0x20;
      top < 0x100 && w == top * 0x8_0000 * 0x20 + low && Others(ArmBcond, w) == (top, low)
  {}

  lemma ArmBcondFilled(w: Word32, d: int)
    requires Blank(ArmBcond, w) && d % 4 == 0
    ensures FilledWell(ArmBcond, w, d)
  {
    ArmBcondParts(w);
    WordsWrap(d, 0x4_0000);
    hide Or, Pow2, SignedIn, Displacement, Others, Blank;
    var top, low, imm := w / 0x100_0000, w % 0x20, d / 4 % 0x8_0000;
    JoinBcond(top, low, imm);
    ReadArmBcond(top, imm, low);
  }

  // Main result: for any aligned distance, the processor reads the distance wrapped around
  // to the format's reach, and every other field is untouched.
  lemma FillDecodes(kind: Kind, w: Word32, distance: int)
    requires Blank(kind, w) && distance % Unit(kind) == 0
    ensures FilledWell(kind, w, distance)
  {
    hide FilledWell;
    match kind
    case RiscvBranch => BranchFilled(w, distance);
    case RiscvJal => JalFilled(w, distance);
    case ArmB => ArmBFilled(w, distance);
    case ArmBcond => ArmBcondFilled(w, distance);
  }

  // The distance read is the distance meant exactly when it is within reach.
  lemma ReachedExactly(kind: Kind, w: Word32, distance: int)
    requires Blank(kind, w) && distance % Unit(kind) == 0
    ensures Displacement(kind, Filled(kind, w, distance)) == distance <==> -Reach(kind) <= distance < Reach(kind)
  {
    FillDecodes(kind, w, distance);
    hide Displacement, Filled, Others;
    WrapsBeyond(distance, Reach(kind));
  }

  lemma WrapsBeyond(d: int, half: int)
    requires half > 0
    ensures SignedIn(d % (2 * half), half) == d <==> -half <= d < half
  {
    if 0 <= d < half { DivModUnique(d, 2 * half, 0, d); }
    if -half <= d < 0 { DivModUnique(d, 2 * half, -1, d + 2 * half); }
  }
}
