// The passes as the source runs them: loops that overwrite operands and instruction lists.

module PassObjects {
  import opened Options
  import opened Sequences
  import opened Ir
  import opened IrObjects
  import opened Rewrite
  import opened Sweep
  import opened DeadCode
  import opened Settled

  ghost predicate ShowAll(xs: seq<Instruction>, ns: seq<Node>)
    reads xs
  {
    |xs| == |ns| && forall i :: 0 <= i < |xs| ==> xs[i].Shows(ns[i])
  }

  // What the loop below does with one instruction is a visit of the sweep.
  lemma OneVisit(kind: Kind, p: Prog, b: nat, i: nat)
    requires At(p, b, i)
    ensures var n, s := p[b].body[i], StateAt(kind, p, b, i);
      var args := Operands(kind, n, s);
      StateAt(kind, p, b, i + 1) == AfterVisit(kind, n, args, s) &&
      OutputTo(kind, p, b, i + 1) ==
        OutputTo(kind, p, b, i) + (if Decide(kind, n, args, s.seen).Some? then [] else [n.(args := args)])
  {}

  lemma NothingVisited(kind: Kind, p: Prog, b: nat)
    requires b < |p|
    ensures OutputTo(kind, p, b, 0) == []
  {}

  function AfterVisit(kind: Kind, n: Node, args: seq<Value>, s: State): State {
    match Decide(kind, n, args, s.seen)
    case Some(v) => State(s.sub[n.uid := v], s.seen)
    case None => State(s.sub,
      if kind == CSE && Shareable(n) then s.seen[KeyOf(n.op, n.ty, args) := Ref(n.uid, n.ty)] else s.seen)
  }

  // One block of a forward sweep. The replacement map and the table of first occurrences
  // are carried from block to block.
  method SweepBlock(kind: Kind, ghost p: Prog, ghost b: nat, xs: seq<Instruction>,
                    replacements: map<nat, Value>, exprMap: map<Key, Value>)
      returns (kept: seq<Instruction>, sub: map<nat, Value>, seen: map<Key, Value>, dropped: nat)
    requires b < |p| && ShowAll(xs, p[b].body)
    requires State(replacements, exprMap) == StateAt(kind, p, b, 0)
    requires NoRepeats(xs)
    modifies Objects(xs)`args
    ensures State(sub, seen) == StateAt(kind, p, b, |xs|)
    ensures ShowAll(kept, OutputTo(kind, p, b, |xs|)) && forall x :: x in kept ==> x in xs
    ensures NoRepeats(kept) && dropped == |xs| - |kept|
  {
    hide StateAt, OutputTo, Decide, Operands, KeyOf;
    kept, sub, seen, dropped := [], replacements, exprMap, 0;
    NothingVisited(kind, p, b);
    for i := 0 to |xs|
      invariant State(sub, seen) == StateAt(kind, p, b, i)
      invariant ShowAll(kept, OutputTo(kind, p, b, i)) && forall x :: x in kept ==> x in xs[..i]
      invariant NoRepeats(kept)
      invariant forall j :: i <= j < |xs| ==> xs[j].Shows(p[b].body[j])
      invariant dropped == i - |kept|
    {
      OneVisit(kind, p, b, i);
      var inst := xs[i];
      assert inst !in xs[..i];
      var n := Node(inst.uid, inst.op, inst.ty, inst.args);
      var args := Operands(kind, n, State(sub, seen));
      match Decide(kind, n, args, seen)
      case Some(v) =>
        sub := sub[inst.uid := v];
        dropped := dropped + 1;
      case None =>
        inst.args := args;
        if kind == CSE && Shareable(n) { seen := seen[KeyOf(n.op, n.ty, args) := Ref(n.uid, n.ty)]; }
        assert forall k :: 0 <= k < |kept| ==> kept[k] != inst && kept[k].Shows(OutputTo(kind, p, b, i)[k]);
        kept := kept + [inst];
    }
  }

  method SweepInto(kind: Kind, f: Function, ghost p: Prog, b: nat, replacements: map<nat, Value>,
                   exprMap: map<Key, Value>)
      returns (sub: map<nat, Value>, seen: map<Key, Value>, dropped: nat)
    requires Distinct(p) && b < |p| && Between(f, p, SweepProg(kind, p), b)
    requires State(replacements, exprMap) == StateAt(kind, p, b, 0)
    modifies f.blocks[b], Objects(f.blocks[b].instructions)`args
    ensures Between(f, p, SweepProg(kind, p), b + 1)
    ensures State(sub, seen) == StateAt(kind, p, b, |p[b].body|)
    ensures dropped == |p[b].body| - |SweepProg(kind, p)[b].body|
  {
    hide StateAt, OutputTo;
    ghost var q := SweepProg(kind, p);
    var xs := f.blocks[b].instructions;
    assert f.blocks[b].Mirrors(Expected(p, q, b, b));
    MirrorsNoRepeats(f, p, b);
    ListedElsewhere(f, p, q, b);
    var kept;
    kept, sub, seen, dropped := SweepBlock(kind, p, b, xs, replacements, exprMap);
    f.blocks[b].instructions := kept;
  }

  // A kept instruction keeps its identity, so instructions stay distinct.
  lemma {:induction false} OutputUids(kind: Kind, p: Prog, b: nat, i: nat)
    requires Distinct(p) && b < |p| && i <= |p[b].body|
    ensures forall k :: 0 <= k < |OutputTo(kind, p, b, i)| ==> UidBefore(p, b, i, OutputTo(kind, p, b, i)[k].uid)
    ensures forall k, l :: 0 <= k < l < |OutputTo(kind, p, b, i)| ==>
      OutputTo(kind, p, b, i)[k].uid != OutputTo(kind, p, b, i)[l].uid
  {
    if i > 0 {
      OutputUids(kind, p, b, i - 1);
      hide StateAt, Decide;
      assert At(p, b, i - 1);
      assert UidBefore(p, b, i, p[b].body[i - 1].uid);
      forall u | UidBefore(p, b, i - 1, u) ensures UidBefore(p, b, i, u) && u != p[b].body[i - 1].uid {
        var j :| At(p, b, j) && j < i - 1 && p[b].body[j].uid == u;
      }
    }
  }

  ghost predicate UidBefore(p: Prog, b: int, i: int, u: nat) {
    exists j :: At(p, b, j) && j < i && p[b].body[j].uid == u
  }

  lemma SweepDistinct(kind: Kind, p: Prog)
    requires Distinct(p)
    ensures Distinct(SweepProg(kind, p))
  {
    var q := SweepProg(kind, p);
    forall b, k, c, l | At(q, b, k) && At(q, c, l) && q[b].body[k].uid == q[c].body[l].uid ensures b == c && k == l {
      OutputUids(kind, p, b, |p[b].body|);
      OutputUids(kind, p, c, |p[c].body|);
      var i :| At(p, b, i) && p[b].body[i].uid == q[b].body[k].uid;
      var j :| At(p, c, j) && p[c].body[j].uid == q[c].body[l].uid;
    }
  }

  method SweepBlocks(kind: Kind, f: Function, ghost p: Prog) returns (count: nat)
    requires Distinct(p) && Between(f, p, SweepProg(kind, p), 0) && f !in f.Repr
    modifies f.Repr
    ensures Between(f, p, SweepProg(kind, p), |p|)
    ensures count == Count(p) - Count(SweepProg(kind, p))
  {
    hide StateAt, SweepProg, CountTo, Between;
    var replacements: map<nat, Value>, exprMap: map<Key, Value> := map[], map[];
    count := 0;
    FirstState(kind, p);
    NoCounts(p, SweepProg(kind, p));
    BetweenOwns(f, p, SweepProg(kind, p), 0);
    for b := 0 to |f.blocks|
      invariant |f.blocks| == |p| == |SweepProg(kind, p)| && Between(f, p, SweepProg(kind, p), b)
      invariant forall c: nat :: c < |p| ==> f.blocks[c] in f.Repr && Objects(f.blocks[c].instructions) <= f.Repr
      invariant State(replacements, exprMap) == StateAt(kind, p, b, 0)
      invariant count == CountTo(p, b) - CountTo(SweepProg(kind, p), b)
    {
      var dropped;
      replacements, exprMap, dropped := SweepInto(kind, f, p, b, replacements, exprMap);
      count := count + dropped;
      NextBlock(kind, p, b);
      NextCounts(p, SweepProg(kind, p), b);
      BetweenOwns(f, p, SweepProg(kind, p), b + 1);
    }
  }

  // `run` of the three forward passes.
  method RunSweep(kind: Kind, f: Function) returns (count: nat)
    requires f.Valid()
    modifies f`prog, f`nextInstId, f.Repr
    ensures f.Valid() && f.Numbered() && f.Repr == old(f.Repr)
    ensures f.prog == SweepProg(kind, old(f.prog))
    ensures count == Count(old(f.prog)) - Count(f.prog)
  {
    hide StateAt, OutputTo;
    ghost var p, q := f.prog, SweepProg(kind, f.prog);
    BetweenStart(f, p, q);
    SweepDistinct(kind, p);
    count := SweepBlocks(kind, f, p);
    Finish(f, p, q);
  }

  lemma NoCounts(p: Prog, q: Prog)
    ensures CountTo(p, 0) == CountTo(q, 0) == 0
  {}

  lemma NextCounts(p: Prog, q: Prog, b: nat)
    requires b < |p| == |q|
    ensures CountTo(p, b + 1) == CountTo(p, b) + |p[b].body| && CountTo(q, b + 1) == CountTo(q, b) + |q[b].body|
  {}

  lemma FirstState(kind: Kind, p: Prog)
    ensures StateAt(kind, p, 0, 0) == EMPTY
  {}

  lemma NextBlock(kind: Kind, p: Prog, b: nat)
    requires b < |p|
    ensures StateAt(kind, p, b + 1, 0) == StateAt(kind, p, b, |p[b].body|)
  {}
}
