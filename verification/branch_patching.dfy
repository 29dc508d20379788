// The label machinery of the RISC-V and AArch64 assemblers: code grows word by word, and
// branches are filled in once every label has an address.

module BranchPatching {
  import opened Division
  import opened LittleEndian
  import opened BranchWords

  datatype Patch = Patch(name: string, offset: nat, kind: Kind)

  function WordAt(code: seq<Byte>, a: nat): nat
    requires a + 4 <= |code|
  {
    FromBytes(code[a..a + 4])
  }

  function PutWord(code: seq<Byte>, a: nat, w: Word32): (r: seq<Byte>)
    requires a + 4 <= |code|
    ensures |r| == |code|
  {
    code[..a] + ToBytes(w, 4) + code[a + 4..]
  }

  lemma WordRoundTrip(w: Word32)
    ensures FromBytes(ToBytes(w, 4)) == w
  {
    Powers();
    BytesRoundTrip(w, 4);
  }

  lemma WordPut(code: seq<Byte>, a: nat, w: Word32)
    requires a + 4 <= |code|
    ensures WordAt(PutWord(code, a, w), a) == w
    ensures forall b: nat :: b + 4 <= a || a + 4 <= b <= |code| - 4 ==>
      WordAt(PutWord(code, a, w), b) == WordAt(code, b)
  {
    hide FromBytes, ToBytes;
    var put := PutWord(code, a, w);
    WordRoundTrip(w);
    assert put[a..a + 4] == ToBytes(w, 4);
    forall b: nat | b + 4 <= a || a + 4 <= b <= |code| - 4 ensures WordAt(put, b) == WordAt(code, b) {
      assert put[b..b + 4] == code[b..b + 4];
    }
  }

  lemma WordAppended(code: seq<Byte>, w: Word32)
    ensures WordAt(code + ToBytes(w, 4), |code|) == w
    ensures forall b: nat :: b + 4 <= |code| ==> WordAt(code + ToBytes(w, 4), b) == WordAt(code, b)
  {
    hide FromBytes, ToBytes;
    var more := code + ToBytes(w, 4);
    WordRoundTrip(w);
    assert more[|code|..|code| + 4] == ToBytes(w, 4);
    forall b: nat | b + 4 <= |code| ensures WordAt(more, b) == WordAt(code, b) {
      assert more[b..b + 4] == code[b..b + 4];
    }
  }

  // A patch's word has an empty immediate, and no later patch meets it.
  ghost predicate Pending(code: seq<Byte>, patches: seq<Patch>, t: int)
    requires 0 <= t < |patches|
  {
    var p := patches[t];
    p.offset % 4 == 0 && p.offset + 4 <= |code| && WordAt(code, p.offset) < TWO32 &&
    Blank(p.kind, WordAt(code, p.offset)) &&
    forall s :: t < s < |patches| ==> p.offset + 4 <= patches[s].offset
  }

  // The patch's word has the distance to its label, wrapped around to the format's reach, and
  // is otherwise the old word.
  ghost predicate PatchDone(was: seq<Byte>, code: seq<Byte>, labels: map<string, nat>, p: Patch)
  {
    p.name in labels && p.offset + 4 <= |was| == |code| &&
    Others(p.kind, WordAt(code, p.offset)) == Others(p.kind, WordAt(was, p.offset)) &&
    Displacement(p.kind, WordAt(code, p.offset)) == Wrapped(p.kind, labels[p.name] - p.offset)
  }

  class WordAssembler {
    var code: seq<Byte>
    var labels: map<string, nat>
    var patches: seq<Patch>

    ghost predicate Valid()
      reads this
    {
      |code| % 4 == 0 && (forall name :: name in labels ==> labels[name] % 4 == 0 && labels[name] <= |code|) &&
      forall t :: 0 <= t < |patches| ==> Pending(code, patches, t)
    }

    constructor ()
      ensures Valid() && code == [] && labels == map[] && patches == []
    {
      code, labels, patches := [], map[], [];
    }

    // A label declared again moves.
    method Label(name: string)
      requires Valid()
      modifies this
      ensures Valid() && labels == old(labels)[name := |code|] && code == old(code) && patches == old(patches)
    {
      labels := labels[name := |code|];
    }

    method Emit(w: Word32)
      requires Valid()
      modifies this
      ensures Valid() && code == old(code) + ToBytes(w, 4) && labels == old(labels) && patches == old(patches)
    {
      hide Blank, WordAt, ToBytes;
      WordAppended(code, w);
      assert forall t :: 0 <= t < |patches| ==> Pending(code, patches, t);
      code := code + ToBytes(w, 4);
      forall t | 0 <= t < |patches| ensures Pending(code, patches, t) { assert old(Pending(code, patches, t)); }
    }

    method Branch(kind: Kind, w: Word32, name: string)
      requires Valid() && Blank(kind, w)
      modifies this
      ensures Valid() && code == old(code) + ToBytes(w, 4) && labels == old(labels)
      ensures patches == old(patches) + [Patch(name, |old(code)|, kind)]
    {
      hide Blank, WordAt, ToBytes;
      WordAppended(code, w);
      var offset := |code|;
      Emit(w);
      patches := patches + [Patch(name, offset, kind)];
      forall t | 0 <= t < |patches| ensures Pending(code, patches, t) {
        if t < |old(patches)| { assert old(Pending(code, patches, t)); }
      }
    }

    // Fails, part of the way, on a label that was never declared.
    method ResolveLabels() returns (ok: bool)
      requires Valid()
      modifies this
      ensures ok <==> forall p :: p in old(patches) ==> p.name in labels
      ensures labels == old(labels) && |code| == |old(code)|
      ensures ok ==> patches == [] && Valid()
      ensures ok ==> forall p :: p in old(patches) ==> PatchDone(old(code), code, labels, p)
      ensures ok ==>
        forall b: nat :: b % 4 == 0 && b + 4 <= |code| && (forall p :: p in old(patches) ==> p.offset != b) ==>
        WordAt(code, b) == WordAt(old(code), b)
    {
      hide Blank, WordAt, Others, Displacement, Wrapped, PutWord, Filled, PatchDone, Pending, Clear;
      ghost var was := code;
      for t := 0 to |patches|
        invariant patches == old(patches) && labels == old(labels) && FilledTo(was, code, labels, patches, t)
        invariant forall s :: 0 <= s < t ==> patches[s].name in labels
      {
        var p := patches[t];
        if p.name !in labels { return false; }
        FillStep(was, code, labels, patches, t);
        var existing := WordAt(code, p.offset);
        code := PutWord(code, p.offset, Filled(p.kind, existing, labels[p.name] - p.offset));
      }
      AllFilled(was, code, labels, patches);
      patches := [];
      ok := true;
    }
  }

  // A word at b does not meet the patch.
  predicate Clear(p: Patch, b: nat) { b + 4 <= p.offset || p.offset + 4 <= b }

  // The first t patches are done; every word that meets none of them is untouched.
  ghost predicate FilledTo(was: seq<Byte>, code: seq<Byte>, labels: map<string, nat>, patches: seq<Patch>, t: int) {
    t <= |patches| && |code| == |was| &&
    (forall name :: name in labels ==> labels[name] % 4 == 0) &&
    (forall s :: 0 <= s < |patches| ==> Pending(was, patches, s)) &&
    (forall s :: 0 <= s < t ==> PatchDone(was, code, labels, patches[s])) &&
    forall b: nat :: b + 4 <= |was| && (forall s :: 0 <= s < t ==> Clear(patches[s], b)) ==>
      WordAt(code, b) == WordAt(was, b)
  }

  lemma PatchBounds(was: seq<Byte>, patches: seq<Patch>, t: nat)
    requires t < |patches| && Pending(was, patches, t)
    ensures patches[t].offset % 4 == 0 && patches[t].offset + 4 <= |was|
    ensures WordAt(was, patches[t].offset) < TWO32 && Blank(patches[t].kind, WordAt(was, patches[t].offset))
    ensures forall s :: t < s < |patches| ==> patches[t].offset + 4 <= patches[s].offset
  {
    hide WordAt, Blank;
  }

  // Up to here the t-th patch's word is untouched.
  lemma StillPending(was: seq<Byte>, code: seq<Byte>, labels: map<string, nat>, patches: seq<Patch>, t: nat)
    requires FilledTo(was, code, labels, patches, t) && t < |patches|
    ensures patches[t].offset + 4 <= |code| == |was| &&
      WordAt(code, patches[t].offset) == WordAt(was, patches[t].offset)
  {
    hide WordAt, Blank, PatchDone;
    PatchBounds(was, patches, t);
    forall s | 0 <= s < t ensures Clear(patches[s], patches[t].offset) { PatchBounds(was, patches, s); }
  }

  // put is code with the word at the t-th patch replaced by a good one.
  lemma FilledMore(was: seq<Byte>, code: seq<Byte>, put: seq<Byte>, labels: map<string, nat>, patches: seq<Patch>,
                   t: nat)
    requires FilledTo(was, code, labels, patches, t) && t < |patches| && |put| == |code|
    requires PatchDone(was, put, labels, patches[t])
    requires forall b: nat :: b + 4 <= |was| && Clear(patches[t], b) ==> WordAt(put, b) == WordAt(code, b)
    ensures FilledTo(was, put, labels, patches, t + 1)
  {
    hide WordAt, Pending, Others, Displacement, Wrapped;
    PatchBounds(was, patches, t);
    forall s | 0 <= s < t ensures PatchDone(was, put, labels, patches[s]) {
      PatchBounds(was, patches, s);
      assert Clear(patches[t], patches[s].offset);
    }
    hide PatchDone, Clear;
    forall b: nat | b + 4 <= |was| && (forall s :: 0 <= s < t + 1 ==> Clear(patches[s], b))
      ensures WordAt(put, b) == WordAt(was, b)
    {
      assert Clear(patches[t], b);
    }
  }

  // The patch's word can be filled in.
  predicate Fillable(code: seq<Byte>, labels: map<string, nat>, p: Patch) {
    p.name in labels && p.offset + 4 <= |code| && WordAt(code, p.offset) < TWO32 &&
    Filled(p.kind, WordAt(code, p.offset), labels[p.name] - p.offset) < TWO32
  }

  function Patched(code: seq<Byte>, labels: map<string, nat>, p: Patch): seq<Byte>
    requires Fillable(code, labels, p)
  {
    PutWord(code, p.offset, Filled(p.kind, WordAt(code, p.offset), labels[p.name] - p.offset))
  }

  lemma UnitDivides(kind: Kind, a: nat, b: nat)
    requires a % 4 == 0 && b % 4 == 0
    ensures (a - b) % Unit(kind) == 0
  {
    var n := a / 4 - b / 4;
    assert a - b == 4 * n;
    DivModUnique(a - b, 4, n, 0);
    DivModUnique(a - b, 2, 2 * n, 0);
  }

  // Filling in one blank word, which is still as it was.
  lemma FillsOne(was: seq<Byte>, code: seq<Byte>, labels: map<string, nat>, p: Patch)
    requires p.name in labels && labels[p.name] % 4 == 0 && p.offset % 4 == 0 && p.offset + 4 <= |was| == |code|
    requires WordAt(code, p.offset) == WordAt(was, p.offset) < TWO32 && Blank(p.kind, WordAt(was, p.offset))
    ensures Fillable(code, labels, p) && PatchDone(was, Patched(code, labels, p), labels, p)
    ensures forall b: nat :: b + 4 <= |was| && Clear(p, b) ==>
      WordAt(Patched(code, labels, p), b) == WordAt(code, b)
  {
    hide WordAt, Blank, PutWord, Others, Displacement, Wrapped, Filled, Unit;
    UnitDivides(p.kind, labels[p.name], p.offset);
    FillDecodes(p.kind, WordAt(code, p.offset), labels[p.name] - p.offset);
    WordPut(code, p.offset, Filled(p.kind, WordAt(code, p.offset), labels[p.name] - p.offset));
  }

  lemma FillStep(was: seq<Byte>, code: seq<Byte>, labels: map<string, nat>, patches: seq<Patch>, t: nat)
    requires FilledTo(was, code, labels, patches, t) && t < |patches| && patches[t].name in labels
    ensures Fillable(code, labels, patches[t])
    ensures FilledTo(was, Patched(code, labels, patches[t]), labels, patches, t + 1)
  {
    LabelAligned(was, code, labels, patches, t);
    PendingAt(was, code, labels, patches, t);
    PatchBounds(was, patches, t);
    StillPending(was, code, labels, patches, t);
    hide WordAt, Blank, PutWord, Filled, FilledTo, Pending, Patched, PatchDone, Fillable;
    FillsOne(was, code, labels, patches[t]);
    FilledMore(was, code, Patched(code, labels, patches[t]), labels, patches, t);
  }

  lemma LabelAligned(was: seq<Byte>, code: seq<Byte>, labels: map<string, nat>, patches: seq<Patch>, t: nat)
    requires FilledTo(was, code, labels, patches, t)
    ensures forall name :: name in labels ==> labels[name] % 4 == 0
  {
    hide WordAt, Pending, PatchDone;
  }

  lemma PendingAt(was: seq<Byte>, code: seq<Byte>, labels: map<string, nat>, patches: seq<Patch>, t: nat)
    requires FilledTo(was, code, labels, patches, t) && t < |patches|
    ensures Pending(was, patches, t) && |code| == |was|
  {
    hide Pending;
  }

  lemma AllFilled(was: seq<Byte>, code: seq<Byte>, labels: map<string, nat>, patches: seq<Patch>)
    requires FilledTo(was, code, labels, patches, |patches|)
    ensures |code| == |was| && forall p :: p in patches ==> PatchDone(was, code, labels, p)
    ensures forall b: nat :: b % 4 == 0 && b + 4 <= |code| && (forall p :: p in patches ==> p.offset != b) ==>
      WordAt(code, b) == WordAt(was, b)
  {
    hide WordAt, Blank, PatchDone;
    forall b: nat | b % 4 == 0 && b + 4 <= |code| && (forall p :: p in patches ==> p.offset != b)
      ensures WordAt(code, b) == WordAt(was, b)
    {
      forall s | 0 <= s < |patches| ensures Clear(patches[s], b) {
        PatchBounds(was, patches, s);
        assert patches[s] in patches;
      }
    }
  }

  // ----- the branches the two assemblers emit -----

  lemma BranchFields(mid: nat)
    requires mid < 0x2000
    ensures var w := mid * 0x1000 + 0x63;
      w < TWO32 && Blank(RiscvBranch, w) && Others(RiscvBranch, w) == (mid, 0x63)
  {
    var w := mid * 0x1000 + 0x63;
    DivModUnique(w, 0x1000, mid, 0x63);
    DivModUnique(w, 0x80, mid * 0x20, 0x63);
  }

  // BEQ, BNE, BLT and BGE differ in funct3.
  function RiscvBranchWord(funct3: nat, rs1: nat, rs2: nat): (w: Word32)
    requires funct3 < 8 && rs1 < 32 && rs2 < 32
    ensures Blank(RiscvBranch, w) && Others(RiscvBranch, w) == (rs2 * 256 + rs1 * 8 + funct3, 0x63)
  {
    BranchFields(rs2 * 256 + rs1 * 8 + funct3);
    (rs2 * 256 + rs1 * 8 + funct3) * 0x1000 + 0x63
  }

  function JalWord(rd: nat): (w: Word32)
    requires rd < 32
    ensures Blank(RiscvJal, w) && Others(RiscvJal, w) == (0, rd * 0x80 + 0x6F)
  {
    rd * 0x80 + 0x6F
  }

  function ArmBWord(): (w: Word32)
    ensures Blank(ArmB, w) && Others(ArmB, w) == (5, 0)
  {
    0x1400_0000
  }

  function BcondWord(cond: nat): (w: Word32)
    requires cond < 16
    ensures Blank(ArmBcond, w) && Others(ArmBcond, w) == (0x54, cond)
  {
    0x5400_0000 + cond
  }

  // Main result: after patching, a branch lands on its label exactly when the label is
  // within the format's reach, forward or backward.
  lemma LandsExactly(was: seq<Byte>, code: seq<Byte>, labels: map<string, nat>, p: Patch)
    requires PatchDone(was, code, labels, p)
    ensures p.offset + Displacement(p.kind, WordAt(code, p.offset)) == labels[p.name] <==>
      -Reach(p.kind) <= labels[p.name] - p.offset < Reach(p.kind)
  {
    hide WordAt, Others, Displacement;
    WrapsBeyond(labels[p.name] - p.offset, Reach(p.kind));
  }
}
