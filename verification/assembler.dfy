// The label-patching assembler: instructions are appended with empty jump distances, which
// are filled in once every label has an address.

module Assembler {
  import opened Options
  import opened LittleEndian
  import opened X86

  datatype Item = Mark(name: string) | Ins(insn: Insn<string>)

  datatype Patch = Patch(name: string, instPos: nat, patchPos: nat)

  const HOLE: seq<Byte> := [0, 0, 0, 0]

  function DraftItem(it: Item): seq<Byte> {
    match it
    case Mark(_) => []
    case Ins(i) => if IsJump(i) then Head(i) + HOLE else Head(i)
  }

  // The code before patching.
  function Draft(items: seq<Item>): seq<Byte> {
    if items == [] then [] else Draft(items[..|items| - 1]) + DraftItem(items[|items| - 1])
  }

  // Where item k starts.
  function Address(items: seq<Item>, k: nat): nat
    requires k <= |items|
  {
    |Draft(items[..k])|
  }

  function Labels(items: seq<Item>): map<string, nat> {
    if items == [] then map[]
    else
      var init, last := items[..|items| - 1], items[|items| - 1];
      if last.Mark? then Labels(init)[last.name := |Draft(init)|] else Labels(init)
  }

  function Patches(items: seq<Item>): seq<Patch> {
    if items == [] then []
    else
      var init, last := items[..|items| - 1], items[|items| - 1];
      Patches(init) + (if last.Ins? && IsJump(last.insn) then [PatchFor(last.insn, |Draft(init)|)] else [])
  }

  function PatchFor(i: Insn<string>, at: nat): Patch
    requires IsJump(i)
  {
    Patch(i.target, at, at + |Head(i)|)
  }

  // No label is declared twice.
  predicate UniqueLabels(items: seq<Item>) {
    items == [] ||
    var init, last := items[..|items| - 1], items[|items| - 1];
    UniqueLabels(init) && (last.Mark? ==> last.name !in Labels(init))
  }

  // The distance a jump that ends at `end` must carry.
  function Distance(labels: map<string, nat>, name: string, end: nat): Option<int> {
    if name in labels then Some(labels[name] - end) else None
  }

  // Item k with its target filled in.
  function Resolved(items: seq<Item>, k: nat): Option<Insn<int>>
    requires k < |items| && items[k].Ins?
  {
    var end := Address(items, k) + |DraftItem(items[k])|;
    match items[k].insn
    case Jmp(name) =>
      (match Distance(Labels(items), name, end) case Some(r) => Some(Jmp(r)) case None => None)
    case Jcc(c, name) =>
      (match Distance(Labels(items), name, end) case Some(r) => Some(Jcc(c, r)) case None => None)
    case Push(r) => Some(Push(r))
    case Pop(r) => Some(Pop(r))
    case Ret => Some(Ret)
    case MovRR(x, y) => Some(MovRR(x, y))
    case MovRI(x, n) => Some(MovRI(x, n))
    case MovRM(x, b, n) => Some(MovRM(x, b, n))
    case MovMR(b, n, x) => Some(MovMR(b, n, x))
    case Add(x, y) => Some(Add(x, y))
    case Sub(x, y) => Some(Sub(x, y))
    case Imul(x, y) => Some(Imul(x, y))
    case Cmp(x, y) => Some(Cmp(x, y))
    case SubImm(x, n) => Some(SubImm(x, n))
  }

  // Every target is declared and near enough, and every constant fits its field.
  ghost predicate Assembles(items: seq<Item>) {
    UniqueLabels(items) &&
    forall k :: 0 <= k < |items| && items[k].Ins? ==> Resolved(items, k).Some? && Encodable(Resolved(items, k).value)
  }

  function LinkedItem(items: seq<Item>, k: nat): seq<Byte>
    requires k < |items| && (items[k].Ins? ==> Resolved(items, k).Some?)
  {
    if items[k].Mark? then [] else Encode(Resolved(items, k).value)
  }

  // The final code of the first k items.
  function Linked(items: seq<Item>, k: nat): seq<Byte>
    requires k <= |items| && forall j :: 0 <= j < k && items[j].Ins? ==> Resolved(items, j).Some?
  {
    if k == 0 then [] else Linked(items, k - 1) + LinkedItem(items, k - 1)
  }

  function Link(items: seq<Item>): seq<Byte>
    requires Assembles(items)
  {
    Linked(items, |items|)
  }

  // ----- addresses -----

  lemma AddressStep(items: seq<Item>, k: nat)
    requires k < |items|
    ensures Address(items, k + 1) == Address(items, k) + |DraftItem(items[k])|
    ensures Address(items, 0) == 0
  {
    assert items[..k + 1][..k] == items[..k];
  }

  lemma SameHead(items: seq<Item>, k: nat)
    requires k < |items| && items[k].Ins? && Resolved(items, k).Some?
    ensures Head(Resolved(items, k).value) == Head(items[k].insn)
    ensures |LinkedItem(items, k)| == |DraftItem(items[k])|
  {
    hide Address, Labels, ToBytes, RexBytes, MemOperand, ModRM;
  }

  lemma MarkIsEmpty(it: Item)
    requires it.Mark?
    ensures DraftItem(it) == []
  {}

  lemma NoAddress(items: seq<Item>)
    ensures Address(items, 0) == 0
  {}

  lemma {:induction false} LinkedLength(items: seq<Item>, k: nat)
    requires k <= |items| && forall j :: 0 <= j < k && items[j].Ins? ==> Resolved(items, j).Some?
    ensures |Linked(items, k)| == Address(items, k)
  {
    hide Resolved, Address, DraftItem, Encode;
    if k > 0 {
      LinkedLength(items, k - 1);
      AddressStep(items, k - 1);
      if items[k - 1].Ins? { SameHead(items, k - 1); } else { MarkIsEmpty(items[k - 1]); }
    } else {
      NoAddress(items);
    }
  }

  lemma {:induction false} LinkedPrefix(items: seq<Item>, k: nat, l: nat)
    requires k <= l <= |items| && forall j :: 0 <= j < |items| && items[j].Ins? ==> Resolved(items, j).Some?
    ensures Linked(items, k) <= Linked(items, l)
  {
    hide Resolved, LinkedItem;
    if k < l { LinkedPrefix(items, k, l - 1); }
  }

  // In the final code, item k stands at its address.
  lemma LinkedHolds(items: seq<Item>, k: nat)
    requires Assembles(items) && k < |items| && items[k].Ins?
    ensures Holds(Link(items), Address(items, k), Encode(Resolved(items, k).value))
  {
    hide Resolved, Address, Encode, Labels, Assembles, Link, LinkedItem, Linked, Holds;
    AllResolve(items);
    LinkParts(items, k);
    HoldsAfter(Link(items), Linked(items, k), Encode(Resolved(items, k).value));
  }

  lemma HoldsAfter(code: seq<Byte>, before: seq<Byte>, s: seq<Byte>)
    requires before + s <= code
    ensures Holds(code, |before|, s)
  {
    forall j | 0 <= j < |s| ensures code[|before| + j] == s[j] { assert (before + s)[|before| + j] == s[j]; }
  }

  lemma AllResolve(items: seq<Item>)
    requires Assembles(items)
    ensures forall j :: 0 <= j < |items| && items[j].Ins? ==> Resolved(items, j).Some?
  {
    hide Resolved, Encodable, UniqueLabels;
  }

  lemma LinkParts(items: seq<Item>, k: nat)
    requires Assembles(items) && k < |items| && items[k].Ins? && Resolved(items, k).Some?
    requires forall j :: 0 <= j < |items| && items[j].Ins? ==> Resolved(items, j).Some?
    ensures Linked(items, k) + Encode(Resolved(items, k).value) <= Link(items)
    ensures |Linked(items, k)| == Address(items, k)
  {
    hide Resolved, Address, Encode, Assembles;
    LinkedPrefix(items, k + 1, |items|);
    LinkedLength(items, k);
  }

  // The jump at item k, displaced from its end, arrives at its label.
  ghost predicate JumpLands(items: seq<Item>, k: nat)
    requires k < |items| && items[k].Ins? && Resolved(items, k).Some? && IsJump(items[k].insn)
  {
    var i, name := Resolved(items, k).value, items[k].insn.target;
    IsJump(i) && name in Labels(items) && Address(items, k + 1) + i.target == Labels(items)[name]
  }

  lemma JumpDistance(items: seq<Item>, k: nat)
    requires k < |items| && items[k].Ins? && Resolved(items, k).Some?
    ensures IsJump(items[k].insn) ==> JumpLands(items, k)
    ensures !IsJump(items[k].insn) ==> !IsJump(Resolved(items, k).value)
    ensures |Encode(Resolved(items, k).value)| == |DraftItem(items[k])|
  {
    AddressStep(items, k);
  }

  // Main result: disassembling the assembled program at each item's address gives the item
  // back, and its jump arrives at its label's address.
  lemma AssembledDecodes(items: seq<Item>, k: nat)
    requires Assembles(items) && k < |items| && items[k].Ins?
    ensures Decode(Link(items), Address(items, k)) ==
      Some(Decoded(AsRead(Resolved(items, k).value), Address(items, k + 1)))
    ensures IsJump(items[k].insn) ==> JumpLands(items, k)
  {
    hide *;
    AssemblesAt(items, k);
    JumpDistance(items, k);
    LinkedHolds(items, k);
    AddressStep(items, k);
    DecodeEncode(Link(items), Address(items, k), Resolved(items, k).value);
  }

  lemma AssemblesAt(items: seq<Item>, k: nat)
    requires Assembles(items) && k < |items| && items[k].Ins?
    ensures Resolved(items, k).Some? && Encodable(Resolved(items, k).value)
  {}

  // A label's address is the boundary of the item that declares it.
  lemma {:induction false} LabelsMark(items: seq<Item>, name: string)
    requires name in Labels(items)
    ensures exists k :: 0 <= k < |items| && items[k] == Mark(name) && Labels(items)[name] == Address(items, k)
  {
    var init, last := items[..|items| - 1], items[|items| - 1];
    if last == Mark(name) {
      assert Labels(items)[name] == Address(items, |items| - 1);
    } else {
      LabelsMark(init, name);
      var k :| 0 <= k < |init| && init[k] == Mark(name) && Labels(init)[name] == Address(init, k);
      assert init[..k] == items[..k];
    }
  }
}
