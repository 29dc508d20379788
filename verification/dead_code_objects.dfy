// Dead code elimination and the pipeline as the source runs them.

module DeadCodeObjects {
  import opened Options
  import opened Ir
  import opened IrObjects
  import opened Rewrite
  import opened DeadCode
  import opened PassObjects

  method CollectUses(f: Function) returns (used: set<nat>)
    requires f.Valid()
    ensures used == Uses(f.prog)
  {
    used := {};
    for b := 0 to |f.blocks|
      invariant used == UsesTo(f.prog, b, 0)
    {
      var xs := f.blocks[b].instructions;
      assert f.blocks[b].Mirrors(f.prog[b]);
      for i := 0 to |xs|
        invariant used == UsesTo(f.prog, b, i)
      {
        var args := xs[i].args;
        assert xs[i].Shows(f.prog[b].body[i]);
        ghost var before := used;
        for k := 0 to |args|
          invariant used == before + RefsTo(args, k)
        {
          if args[k].Ref? { used := used + {args[k].uid}; }
        }
      }
    }
  }

  // The live instructions of one block.
  method LiveOf(ghost blk: Block, xs: seq<Instruction>, used: set<nat>) returns (kept: seq<Instruction>)
    requires ShowAll(xs, blk.body)
    ensures ShowAll(kept, LiveTo(blk.body, used, |blk.body|)) && forall x :: x in kept ==> x in xs
  {
    kept := [];
    for i := 0 to |xs|
      invariant ShowAll(kept, LiveTo(blk.body, used, i)) && forall x :: x in kept ==> x in xs[..i]
    {
      var inst := xs[i];
      if !IsDead(Node(inst.uid, inst.op, inst.ty, inst.args), used) { kept := kept + [inst]; }
    }
  }

  method LiveInto(f: Function, ghost p: Prog, b: nat, used: set<nat>)
    requires Distinct(p) && b < |p| && used == Uses(p) && Between(f, p, Round(p), b)
    modifies f.blocks[b]
    ensures Between(f, p, Round(p), b + 1)
  {
    hide LiveTo, UsesTo, Uses;
    ghost var q := Round(p);
    var xs := f.blocks[b].instructions;
    assert f.blocks[b].Mirrors(Expected(p, q, b, b));
    ListedElsewhere(f, p, q, b);
    var kept := LiveOf(p[b], xs, used);
    f.blocks[b].instructions := kept;
  }

  lemma RoundDistinct(p: Prog)
    requires Distinct(p)
    ensures Distinct(Round(p))
  {
    RoundIsRewrite(p);
    DistinctKept(p, Deleting(DeadOf(p)));
  }

  // One round of the loop.
  method RunRound(f: Function)
    requires f.Valid()
    modifies f`prog, f.Repr
    ensures f.Valid() && f.prog == Round(old(f.prog)) && f.Repr == old(f.Repr)
  {
    hide LiveTo, UsesTo, Uses;
    ghost var p, q := f.prog, Round(f.prog);
    var used := CollectUses(f);
    BetweenStart(f, p, q);
    for b := 0 to |f.blocks|
      invariant Between(f, p, q, b)
    {
      LiveInto(f, p, b, used);
    }
    f.prog := q;
    RoundDistinct(p);
    BetweenEnd(f, p, q);
  }

  method InstructionCount(f: Function) returns (n: nat)
    requires f.Valid()
    ensures n == Count(f.prog)
  {
    n := 0;
    for b := 0 to |f.blocks|
      invariant n == CountTo(f.prog, b)
    {
      assert f.blocks[b].Mirrors(f.prog[b]);
      n := n + |f.blocks[b].instructions|;
    }
  }

  lemma DceTurn(p: Prog)
    ensures Count(Round(p)) <= Count(p)
    ensures Dce(p) == if Count(Round(p)) < Count(p) then Dce(Round(p)) else Round(p)
  {
    RoundSettles(p);
  }

  // `run` of dead code elimination: rounds while one of them deleted something.
  method RunDce(f: Function) returns (eliminated: nat)
    requires f.Valid()
    modifies f`prog, f`nextInstId, f.Repr
    ensures f.Valid() && f.Numbered() && f.Repr == old(f.Repr)
    ensures f.prog == Dce(old(f.prog))
    ensures eliminated == Count(old(f.prog)) - Count(f.prog)
  {
    hide Round, Dce, Uses, Count, Function.Valid;
    ghost var p := f.prog;
    var start := InstructionCount(f);
    var changed, left := true, start;
    while changed
      invariant f.Valid() && f.Repr == old(f.Repr)
      invariant if changed then Dce(f.prog) == Dce(p) else f.prog == Dce(p)
      invariant left == Count(f.prog) <= start
      decreases changed, left
    {
      DceTurn(f.prog);
      RunRound(f);
      var now := InstructionCount(f);
      changed, left := now < left, now;
    }
    eliminated := start - left;
    OwnedInstructions(f);
    ReassignIds(f);
  }
}
