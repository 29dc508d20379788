// The assembler as an object: a growing byte buffer, a label table and a patch list.

module AssemblerObjects {
  import opened Options
  import opened LittleEndian
  import opened X86
  import opened Assembler

  // What to_bytes accepts when the instruction is written.
  predicate ImmediateFits(i: Insn<string>) {
    match i
    case MovRI(_, imm) => Fits64(imm)
    case MovRM(_, _, disp) => Fits32(disp)
    case MovMR(_, disp, _) => Fits32(disp)
    case SubImm(dst, imm) => dst == RSP && 0 <= imm < 0x1_0000_0000
    case _ => true
  }

  lemma {:induction false} DraftGrows(items: seq<Item>, k: nat)
    requires k <= |items|
    ensures Draft(items[..k]) <= Draft(items)
  {
    if k == |items| {
      assert items[..k] == items;
    } else {
      var init := items[..|items| - 1];
      DraftGrows(init, k);
      assert init[..k] == items[..k];
    }
  }

  // The draft, from item k on.
  function Rest(items: seq<Item>, k: nat): seq<Byte>
    requires k <= |items|
  {
    DraftGrows(items, k);
    Draft(items)[Address(items, k)..]
  }

  lemma RestStep(items: seq<Item>, k: nat)
    requires k < |items|
    ensures Rest(items, k) == DraftItem(items[k]) + Rest(items, k + 1)
  {
    hide Draft, DraftItem;
    DraftGrows(items, k);
    DraftGrows(items, k + 1);
    assert items[..k + 1][..k] == items[..k];
    DraftLast(items[..k + 1]);
  }

  // Labels resolved in the first k items.
  ghost predicate LinkedUpTo(items: seq<Item>, k: nat) {
    k <= |items| && forall j :: 0 <= j < k && items[j].Ins? ==> Resolved(items, j).Some?
  }

  // The first k items patched, the rest as drafted.
  function Mixed(items: seq<Item>, k: nat): seq<Byte>
    requires LinkedUpTo(items, k)
  {
    Linked(items, k) + Rest(items, k)
  }

  predicate IsJumpItem(it: Item) { it.Ins? && IsJump(it.insn) }

  lemma LinkedStep(items: seq<Item>, k: nat)
    requires LinkedUpTo(items, k + 1)
    ensures LinkedUpTo(items, k) && Linked(items, k + 1) == Linked(items, k) + LinkedItem(items, k)
  {
    hide Resolved, LinkedItem;
  }

  lemma PlainBytes(items: seq<Item>, k: nat)
    requires k < |items| && !IsJumpItem(items[k])
    ensures (items[k].Ins? ==> Resolved(items, k).Some?) && LinkedItem(items, k) == DraftItem(items[k])
  {
    hide Address, Labels;
    if items[k].Ins? { SameHead(items, k); JumpDistance(items, k); }
  }

  lemma PatchesStep(items: seq<Item>, k: nat)
    requires k < |items|
    ensures Patches(items[..k + 1]) ==
      Patches(items[..k]) + (if IsJumpItem(items[k]) then [PatchFor(items[k].insn, Address(items, k))] else [])
  {
    assert items[..k + 1][..k] == items[..k];
  }

  lemma MixedParts(items: seq<Item>, k: nat)
    requires LinkedUpTo(items, k)
    ensures k <= |items| && Mixed(items, k) == Linked(items, k) + Rest(items, k)
  {
    hide Linked, Rest;
  }

  lemma UpToStep(items: seq<Item>, k: nat)
    requires LinkedUpTo(items, k) && k < |items| && (items[k].Ins? ==> Resolved(items, k).Some?)
    ensures LinkedUpTo(items, k + 1)
  {
    hide Resolved;
  }

  // An item without a jump needs no patch.
  lemma PlainItem(items: seq<Item>, k: nat)
    requires LinkedUpTo(items, k) && k < |items| && !IsJumpItem(items[k])
    ensures LinkedUpTo(items, k + 1) && Mixed(items, k + 1) == Mixed(items, k)
    ensures Patches(items[..k + 1]) == Patches(items[..k])
  {
    hide Resolved, Linked, LinkedItem, Rest, Mixed, DraftItem, Address, Patches, PatchFor;
    PlainBytes(items, k);
    UpToStep(items, k);
    LinkedStep(items, k);
    RestStep(items, k);
    MixedParts(items, k);
    MixedParts(items, k + 1);
    var done, next, rest := Linked(items, k), DraftItem(items[k]), Rest(items, k + 1);
    assert done + (next + rest) == (done + next) + rest;
    PatchesStep(items, k);
    assert Patches(items[..k]) + [] == Patches(items[..k]);
  }

  // The t-th patch is for the next jump, item k.
  lemma NextPatch(items: seq<Item>, k: nat, t: nat)
    requires k < |items| && IsJumpItem(items[k]) && t < |Patches(items)| && Patches(items[..k]) == Patches(items)[..t]
    ensures Patches(items)[t] == PatchFor(items[k].insn, Address(items, k))
    ensures Patches(items[..k + 1]) == Patches(items)[..t + 1]
  {
    hide Patches, Address;
    PatchesStep(items, k);
    PatchesGrow(items, k + 1);
    assert Patches(items[..k + 1])[t] == Patches(items)[t];
  }

  lemma JumpTarget(items: seq<Item>, k: nat)
    requires k < |items| && IsJumpItem(items[k])
    ensures Resolved(items, k).Some? <==> PatchFor(items[k].insn, Address(items, k)).name in Labels(items)
    ensures Resolved(items, k).Some? ==> (
      var patch := PatchFor(items[k].insn, Address(items, k));
      IsJump(Resolved(items, k).value) &&
      Resolved(items, k).value.target == Labels(items)[patch.name] - (patch.patchPos + 4))
  {
    hide Address, Labels;
  }

  function Patched(code: seq<Byte>, at: nat, distance: int): seq<Byte>
    requires at + 4 <= |code|
  {
    code[..at] + ToBytes(distance, 4) + code[at + 4..]
  }

  lemma PatchedRegroup(done: seq<Byte>, head: seq<Byte>, rest: seq<Byte>, distance: int)
    ensures var code := done + ((head + HOLE) + rest); var at := |done| + |head|;
      at + 4 <= |code| && Patched(code, at, distance) == (done + (head + ToBytes(distance, 4))) + rest
  {
    hide ToBytes;
    var code, at := done + ((head + HOLE) + rest), |done| + |head|;
    assert code == (done + head) + HOLE + rest;
    assert code[..at] == done + head;
    assert code[at + 4..] == rest;
  }

  lemma PatchedJump(items: seq<Item>, k: nat)
    requires LinkedUpTo(items, k) && k < |items| && IsJumpItem(items[k])
    requires Resolved(items, k).Some? && IsJump(Resolved(items, k).value)
    ensures var at := Address(items, k) + |Head(items[k].insn)|;
      LinkedUpTo(items, k + 1) && at + 4 <= |Mixed(items, k)| &&
      Mixed(items, k + 1) == Patched(Mixed(items, k), at, Resolved(items, k).value.target)
  {
    hide Resolved, Linked, LinkedItem, Rest, Mixed, DraftItem, Address, Patched, Head, ToBytes;
    JumpBytes(items, k);
    UpToStep(items, k);
    LinkedStep(items, k);
    LinkedSize(items, k);
    RestStep(items, k);
    MixedParts(items, k);
    MixedParts(items, k + 1);
    PatchedRegroup(Linked(items, k), Head(items[k].insn), Rest(items, k + 1), Resolved(items, k).value.target);
  }

  lemma LinkedSize(items: seq<Item>, k: nat)
    requires LinkedUpTo(items, k)
    ensures k <= |items| && |Linked(items, k)| == Address(items, k)
  {
    hide Resolved, Address, Linked;
    LinkedLength(items, k);
  }

  lemma JumpBytes(items: seq<Item>, k: nat)
    requires k < |items| && IsJumpItem(items[k]) && Resolved(items, k).Some?
    ensures IsJump(Resolved(items, k).value) && DraftItem(items[k]) == Head(items[k].insn) + HOLE
    ensures LinkedItem(items, k) == Head(items[k].insn) + ToBytes(Resolved(items, k).value.target, 4)
  {
    hide Address, Labels;
    SameHead(items, k);
    JumpDistance(items, k);
  }

  lemma {:induction false} PatchesGrow(items: seq<Item>, k: nat)
    requires k <= |items|
    ensures Patches(items[..k]) <= Patches(items)
  {
    if k == |items| {
      assert items[..k] == items;
    } else {
      var init := items[..|items| - 1];
      PatchesGrow(init, k);
      assert init[..k] == items[..k];
    }
  }

  // Appending a jump: its head, a hole, and a patch.
  lemma DraftsJump(items: seq<Item>, i: Insn<string>)
    requires IsJump(i)
    ensures Draft(items + [Ins(i)]) == Draft(items) + Head(i) + HOLE
    ensures Patches(items + [Ins(i)]) == Patches(items) + [Patch(i.target, |Draft(items)|, |Draft(items) + Head(i)|)]
    ensures Labels(items + [Ins(i)]) == Labels(items) && UniqueLabels(items + [Ins(i)]) == UniqueLabels(items)
  {
    hide Draft, Patches, Labels, UniqueLabels, Head;
    var more, last := items + [Ins(i)], Ins(i);
    assert more[..|more| - 1] == items && more[|more| - 1] == last;
    DraftLast(more);
    PatchesLast(more);
    LabelsLast(more);
    assert Draft(items) + (Head(i) + HOLE) == Draft(items) + Head(i) + HOLE;
  }

  lemma DraftLast(items: seq<Item>)
    requires items != []
    ensures Draft(items) == Draft(items[..|items| - 1]) + DraftItem(items[|items| - 1])
  {
    hide DraftItem;
  }

  lemma PatchesLast(items: seq<Item>)
    requires items != [] && IsJumpItem(items[|items| - 1])
    ensures Patches(items) ==
      Patches(items[..|items| - 1]) + [PatchFor(items[|items| - 1].insn, |Draft(items[..|items| - 1])|)]
  {
    hide Draft, PatchFor;
  }

  lemma LabelsLast(items: seq<Item>)
    requires items != [] && !items[|items| - 1].Mark?
    ensures Labels(items) == Labels(items[..|items| - 1]) && UniqueLabels(items) == UniqueLabels(items[..|items| - 1])
  {
    hide Draft;
  }

  class X86Assembler {
    var code: seq<Byte>
    var labels: map<string, nat>
    var patches: seq<Patch>
    ghost var items: seq<Item>

    ghost predicate Valid()
      reads this
    {
      code == Draft(items) && labels == Labels(items) && patches == Patches(items) && UniqueLabels(items)
    }

    constructor ()
      ensures Valid() && items == []
    {
      code, labels, patches, items := [], map[], [], [];
    }

    // Fails (the source asserts) when the label is already declared.
    method Label(name: string) returns (ok: bool)
      requires Valid()
      modifies this
      ensures Valid() && ok == (name !in Labels(old(items)))
      ensures items == if ok then old(items) + [Mark(name)] else old(items)
    {
      ok := name !in labels;
      if ok {
        labels := labels[name := |code|];
        items := items + [Mark(name)];
        assert items[..|items| - 1] == old(items);
      }
    }

    // Every emitter but the jumps: the encoded bytes, or an overflow error.
    method Emit(i: Insn<string>) returns (ok: bool)
      requires Valid() && !IsJump(i)
      modifies this
      ensures Valid() && ok == ImmediateFits(i)
      ensures items == if ok then old(items) + [Ins(i)] else old(items)
    {
      ok := ImmediateFits(i);
      if ok {
        code := code + Head(i);
        items := items + [Ins(i)];
        assert items[..|items| - 1] == old(items);
      }
    }

    method EmitJump(i: Insn<string>)
      requires Valid() && IsJump(i)
      modifies this
      ensures Valid() && items == old(items) + [Ins(i)]
    {
      DraftsJump(items, i);
      hide Draft, Labels, Patches, UniqueLabels, Head;
      var at := |code|;
      code := code + Head(i);
      patches := patches + [Patch(i.target, at, |code|)];
      code := code + HOLE;
      items := items + [Ins(i)];
    }

    // `resolve_labels`: fails on an undefined label or a distance beyond 32 bits.
    method ResolveLabels() returns (ok: bool)
      requires Valid()
      modifies this
      ensures items == old(items)
      ensures ok ==> LinkedUpTo(items, |items|) && code == Linked(items, |items|) && patches == []
      ensures ok <==> JumpsResolve(items, |items|)
    {
      hide Draft, Patches, Labels, Resolved, Linked, Mixed, Address, Head, UniqueLabels, Patched;
      ghost var k := 0;
      StartsDrafted(items);
      for t := 0 to |patches|
        invariant items == old(items) && labels == Labels(items) && patches == Patches(items)
        invariant k <= |items| && JumpsResolve(items, k) && LinkedUpTo(items, k) && code == Mixed(items, k)
        invariant Patches(items[..k]) == patches[..t]
      {
        k := NextJump(items, k, t);
        NextPatch(items, k, t);
        JumpTarget(items, k);
        var patch := patches[t];
        if patch.name !in labels || !Fits32(labels[patch.name] - (patch.patchPos + 4)) {
          return false;
        }
        PatchedJump(items, k);
        code := Patched(code, patch.patchPos, labels[patch.name] - (patch.patchPos + 4));
        k := k + 1;
      }
      RestIsPlain(items, k);
      patches := [];
      ok := true;
    }
  }

  // The jump's label is declared, within 32 bits.
  ghost predicate JumpResolves(items: seq<Item>, k: nat)
    requires k < |items| && IsJumpItem(items[k])
  {
    Resolved(items, k).Some? && Fits32(Resolved(items, k).value.target)
  }

  // Every jump among the first k items resolves.
  ghost predicate JumpsResolve(items: seq<Item>, k: nat) {
    k <= |items| && forall j :: 0 <= j < k && IsJumpItem(items[j]) ==> JumpResolves(items, j)
  }

  lemma StartsDrafted(items: seq<Item>)
    ensures LinkedUpTo(items, 0) && Mixed(items, 0) == Draft(items) && Patches(items[..0]) == []
  {
    assert Address(items, 0) == 0;
  }

  // The next unpatched jump; what lies between needs no patch.
  lemma {:induction false} NextJump(items: seq<Item>, k: nat, t: nat) returns (m: nat)
    requires k <= |items| && LinkedUpTo(items, k) && JumpsResolve(items, k)
    requires t < |Patches(items)| && Patches(items[..k]) == Patches(items)[..t]
    ensures k <= m < |items| && IsJumpItem(items[m]) && LinkedUpTo(items, m) && JumpsResolve(items, m)
    ensures Mixed(items, m) == Mixed(items, k) && Patches(items[..m]) == Patches(items)[..t]
    decreases |items| - k
  {
    assert items[..|items|] == items;
    m := k;
    if k < |items| && !IsJumpItem(items[k]) {
      PlainItem(items, k);
      m := NextJump(items, k + 1, t);
    }
  }

  lemma {:induction false} RestIsPlain(items: seq<Item>, k: nat)
    requires k <= |items| && LinkedUpTo(items, k) && JumpsResolve(items, k) && Patches(items[..k]) == Patches(items)
    ensures LinkedUpTo(items, |items|) && JumpsResolve(items, |items|) && Mixed(items, k) == Linked(items, |items|)
    decreases |items| - k
  {
    if k == |items| {
      assert Rest(items, k) == [] by { assert items[..k] == items; }
    } else {
      PatchesStep(items, k);
      PatchesGrow(items, k + 1);
      PlainItem(items, k);
      RestIsPlain(items, k + 1);
    }
  }
}
