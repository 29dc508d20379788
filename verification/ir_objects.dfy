// The same functions as objects: the passes overwrite `args` and `instructions` in place.

module IrObjects {
  import opened Options
  import opened Sequences
  import opened Ir

  class Instruction {
    const uid: nat      // the identity of the object
    const op: Opcode
    const ty: Type
    var args: seq<Value>
    var id: int         // the printed number, -1 until assigned

    constructor (uid: nat, op: Opcode, ty: Type, args: seq<Value>)
      ensures Shows(Node(uid, op, ty, args)) && id == -1
    {
      this.uid, this.op, this.ty, this.args, this.id := uid, op, ty, args, -1;
    }

    ghost predicate Shows(n: Node)
      reads this`args
    {
      n == Node(uid, op, ty, args)
    }
  }

  class BasicBlock {
    const name: string
    var instructions: seq<Instruction>

    constructor (name: string)
      ensures this.name == name && instructions == []
    {
      this.name, this.instructions := name, [];
    }

    ghost predicate Mirrors(blk: Block)
      reads this, instructions
    {
      name == blk.name && |instructions| == |blk.body| &&
      forall i :: 0 <= i < |instructions| ==> instructions[i].Shows(blk.body[i])
    }
  }

  // Repr holds the blocks and instructions.
  class Function {
    const argCount: nat
    var blocks: seq<BasicBlock>
    var nextInstId: int
    ghost var prog: Prog          // the value of this function
    ghost var Repr: set<object>

    constructor (argCount: nat)
      ensures Valid() && prog == [] && this.argCount == argCount && fresh(Repr)
    {
      this.argCount, blocks, nextInstId := argCount, [], 0;
      prog, Repr := [], {};
    }

    ghost predicate Valid()
      reads `blocks, `prog, `Repr, Repr
    {
      this !in Repr && |blocks| == |prog| && Distinct(prog) && Owned() &&
      forall b :: 0 <= b < |blocks| ==> blocks[b].Mirrors(prog[b])
    }

    // Blocks are distinct objects and this function's own.
    ghost predicate Owned()
      reads `blocks, `Repr, Repr
    {
      (forall b :: 0 <= b < |blocks| ==> blocks[b] in Repr && forall x :: x in blocks[b].instructions ==> x in Repr) &&
      (forall b, c :: 0 <= b < c < |blocks| ==> blocks[b] != blocks[c])
    }

    ghost function Instructions(): set<Instruction>
      reads `blocks, blocks
    {
      set b, i | 0 <= b < |blocks| && 0 <= i < |blocks[b].instructions| :: blocks[b].instructions[i]
    }

    // Sequential numbers in layout order.
    ghost predicate Numbered()
      requires Valid()
      reads this, Repr
    {
      nextInstId == Count(prog) &&
      forall b, i :: At(prog, b, i) ==> blocks[b].instructions[i].id == CountTo(prog, b) + i
    }

    method CreateBlock(name: string) returns (block: BasicBlock)
      requires Valid()
      modifies this
      ensures Valid() && fresh(block) && block.name == name && block.instructions == []
      ensures blocks == old(blocks) + [block] && prog == old(prog) + [Block(name, [])]
      ensures Repr == old(Repr) + {block}
    {
      block := new BasicBlock(name);
      blocks := blocks + [block];
      prog := prog + [Block(name, [])];
      Repr := Repr + {block};
      assert forall b, i :: At(prog, b, i) ==> At(old(prog), b, i) && prog[b] == old(prog)[b];
    }
  }

  lemma OwnedInstructions(f: Function)
    requires f.Valid()
    ensures f.Instructions() <= f.Repr
  {}

  // Distinct identities are distinct objects.
  lemma Apart(f: Function, b: int, i: int, c: int, j: int)
    requires f.Valid() && At(f.prog, b, i) && At(f.prog, c, j) && (b, i) != (c, j)
    ensures f.blocks[b].instructions[i] != f.blocks[c].instructions[j]
  {
    assert f.blocks[b].Mirrors(f.prog[b]) && f.blocks[c].Mirrors(f.prog[c]);
    assert f.blocks[b].instructions[i].Shows(f.prog[b].body[i]);
    assert f.blocks[c].instructions[j].Shows(f.prog[c].body[j]);
  }

  function Objects(xs: seq<Instruction>): set<Instruction> { set x | x in xs }

  ghost predicate NumberedFrom(xs: seq<Instruction>, start: int)
    reads xs
  {
    forall i :: 0 <= i < |xs| ==> xs[i].id == start + i
  }

  method NumberFrom(xs: seq<Instruction>, start: int)
    requires forall i, j :: 0 <= i < j < |xs| ==> xs[i] != xs[j]
    modifies Objects(xs)`id
    ensures NumberedFrom(xs, start)
  {
    for i := 0 to |xs|
      invariant forall j :: 0 <= j < i ==> xs[j].id == start + j
    {
      xs[i].id := start + i;
    }
  }

  // Blocks before b are numbered.
  ghost predicate NumberedTo(f: Function, b: int)
    requires f.Valid()
    reads f, f.Repr
  {
    forall c, j :: At(f.prog, c, j) && c < b ==> f.blocks[c].instructions[j].id == CountTo(f.prog, c) + j
  }

  method NumberBlock(f: Function, b: nat, start: int) returns (next: int)
    requires f.Valid() && b < |f.blocks| && start == CountTo(f.prog, b) && NumberedTo(f, b)
    modifies Objects(f.blocks[b].instructions)`id
    ensures f.Valid() && |f.blocks| == |f.prog| && next == CountTo(f.prog, b + 1) && NumberedTo(f, b + 1)
  {
    var xs := f.blocks[b].instructions;
    assert f.blocks[b].Mirrors(f.prog[b]);
    forall i, j | 0 <= i < j < |xs| ensures xs[i] != xs[j] { Apart(f, b, i, b, j); }
    forall c, j | 0 <= c < |f.blocks| && c != b && 0 <= j < |f.blocks[c].instructions|
      ensures f.blocks[c].instructions[j] !in xs
    {
      assert f.blocks[c].Mirrors(f.prog[c]);
      forall i | 0 <= i < |xs| ensures xs[i] != f.blocks[c].instructions[j] { Apart(f, c, j, b, i); }
    }
    hide CountTo, Function.Instructions;
    assert CountTo(f.prog, b + 1) == CountTo(f.prog, b) + |f.prog[b].body| by { NextCount(f.prog, b); }
    NumberFrom(xs, start);
    next := start + |xs|;
    forall c | 0 <= c < |f.blocks| ensures f.blocks[c].Mirrors(f.prog[c]) {
      assert old(f.blocks[c].Mirrors(f.prog[c]));
    }
  }

  // `_reassign_ids`: number the remaining instructions, one block after another.
  method ReassignIds(f: Function)
    requires f.Valid()
    modifies f`nextInstId, f.Instructions()`id
    ensures f.Valid() && f.Numbered()
  {
    hide Function.Valid, Function.Instructions, CountTo, Function.Numbered;
    Outside(f);
    f.nextInstId := 0;
    NothingNumbered(f);
    for b := 0 to |f.blocks|
      invariant f.Valid() && f.Instructions() == old(f.Instructions()) && f !in f.Repr && |f.blocks| == |f.prog|
      invariant f.nextInstId == CountTo(f.prog, b) && NumberedTo(f, b)
    {
      BlockInstructions(f, b);
      f.nextInstId := NumberBlock(f, b, f.nextInstId);
    }
    AllNumbered(f);
  }

  lemma Outside(f: Function)
    requires f.Valid()
    ensures f !in f.Repr && |f.blocks| == |f.prog|
  {}

  lemma NextCount(p: Prog, b: nat)
    requires b < |p|
    ensures CountTo(p, b + 1) == CountTo(p, b) + |p[b].body|
  {}

  lemma NothingNumbered(f: Function)
    requires f.Valid()
    ensures NumberedTo(f, 0) && CountTo(f.prog, 0) == 0
  {}

  lemma BlockInstructions(f: Function, b: nat)
    requires f.Valid() && b < |f.blocks|
    ensures Objects(f.blocks[b].instructions) <= f.Instructions()
  {}

  lemma AllNumbered(f: Function)
    requires f.Valid() && NumberedTo(f, |f.blocks|) && f.nextInstId == CountTo(f.prog, |f.prog|) &&
      |f.blocks| == |f.prog|
    ensures f.Numbered()
  {}

  function Expected(p: Prog, q: Prog, b: int, c: nat): Block
    requires c < |p| == |q|
  {
    if c < b then q[c] else p[c]
  }

  function Uids(blk: Block): (r: set<nat>)
    ensures forall i :: 0 <= i < |blk.body| ==> blk.body[i].uid in r
    ensures forall u :: u in r ==> exists i :: 0 <= i < |blk.body| && blk.body[i].uid == u
  {
    set i | 0 <= i < |blk.body| :: blk.body[i].uid
  }

  ghost predicate Within(xs: seq<Instruction>, uids: set<nat>) { forall x :: x in xs ==> x.uid in uids }

  // Half-way through a pass: blocks before b show q, the others still show p.
  ghost predicate Between(f: Function, p: Prog, q: Prog, b: int)
    reads f`blocks, f`Repr, f.Repr
  {
    |f.blocks| == |p| == |q| && f.Owned() &&
    forall c: nat :: c < |p| ==>
      f.blocks[c].Mirrors(Expected(p, q, b, c)) && Within(f.blocks[c].instructions, Uids(p[c]))
  }

  lemma UidsApart(p: Prog, b: nat, c: nat)
    requires Distinct(p) && b < |p| && c < |p| && b != c
    ensures Uids(p[b]) !! Uids(p[c])
  {
    forall u | u in Uids(p[b]) && u in Uids(p[c]) ensures false {
      var i :| 0 <= i < |p[b].body| && p[b].body[i].uid == u;
      var j :| 0 <= j < |p[c].body| && p[c].body[j].uid == u;
      assert At(p, b, i) && At(p, c, j);
    }
  }

  lemma BetweenOwns(f: Function, p: Prog, q: Prog, b: int)
    requires Between(f, p, q, b)
    ensures |f.blocks| == |p| == |q|
    ensures forall c: nat :: c < |p| ==> f.blocks[c] in f.Repr && Objects(f.blocks[c].instructions) <= f.Repr
  {}

  lemma BetweenStart(f: Function, p: Prog, q: Prog)
    requires f.Valid() && f.prog == p && |q| == |p|
    ensures Between(f, p, q, 0)
  {
    forall c: nat | c < |p|
      ensures f.blocks[c].Mirrors(Expected(p, q, 0, c)) && Within(f.blocks[c].instructions, Uids(p[c]))
    {
      assert f.blocks[c].Mirrors(f.prog[c]);
    }
  }

  lemma MirrorsNoRepeats(f: Function, p: Prog, b: nat)
    requires Distinct(p) && b < |p| && b < |f.blocks| && f.blocks[b].Mirrors(p[b])
    ensures NoRepeats(f.blocks[b].instructions)
  {
    var xs := f.blocks[b].instructions;
    forall i, j | 0 <= i < j < |xs| ensures xs[i] != xs[j] {
      assert xs[i].Shows(p[b].body[i]) && xs[j].Shows(p[b].body[j]);
      assert At(p, b, i) && At(p, b, j);
    }
  }

  // Before block b is changed: what is listed elsewhere is not listed there.
  lemma ListedElsewhere(f: Function, p: Prog, q: Prog, b: nat)
    requires Between(f, p, q, b) && Distinct(p) && b < |p|
    ensures forall c: nat :: c < |p| && c != b ==>
      f.blocks[c] != f.blocks[b] && Within(f.blocks[c].instructions, Uids(p[c])) && Uids(p[c]) !! Uids(p[b])
  {
    forall c: nat | c < |p| && c != b
      ensures f.blocks[c] != f.blocks[b] && Within(f.blocks[c].instructions, Uids(p[c])) && Uids(p[c]) !! Uids(p[b])
    {
      UidsApart(p, b, c);
    }
  }

  // All blocks done: the function is the new value.
  lemma BetweenEnd(f: Function, p: Prog, q: Prog)
    requires Between(f, p, q, |p|) && Distinct(q) && f.prog == q && f !in f.Repr
    ensures f.Valid()
  {
    forall c: nat | c < |p| ensures f.blocks[c].Mirrors(q[c]) {
      assert f.blocks[c].Mirrors(Expected(p, q, |p|, c));
    }
  }

  // The end of every pass.
  method Finish(f: Function, ghost p: Prog, ghost q: Prog)
    requires Between(f, p, q, |p|) && Distinct(q) && f !in f.Repr
    modifies f`prog, f`nextInstId, f.Instructions()`id
    ensures f.Valid() && f.Numbered() && f.prog == q
  {
    f.prog := q;
    BetweenEnd(f, p, q);
    ReassignIds(f);
  }
}
