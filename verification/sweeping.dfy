// One forward sweep is enough: on a function whose operands are defined earlier in the
// layout, resolving each operand once, against the replacements found so far, gives the
// rewriting by the final replacements.

module Sweeping {
  import opened Options
  import opened Ir
  import opened Interp
  import opened Cfg
  import opened Rewrite
  import opened Sweep

  predicate Limit(p: Prog, b: int, i: int) { (0 <= b < |p| && 0 <= i <= |p[b].body|) || (b == |p| && i == 0) }

  function Final(kind: Kind, p: Prog): Edit { EditOf(kind, FinalState(kind, p)) }

  ghost predicate Dropped(kind: Kind, p: Prog, b: int, i: int) {
    At(p, b, i) && Decision(kind, p[b].body[i], StateAt(kind, p, b, i)).Some?
  }

  // From one limit to a later one, replacements are only added, for instructions between.
  ghost predicate Extends(p: Prog, b: int, i: int, c: int, j: int, s: State, t: State) {
    s.sub.Keys <= t.sub.Keys &&
    (forall u :: u in s.sub ==> t.sub[u] == s.sub[u]) &&
    (forall u :: u in t.sub && u !in s.sub ==> InRange(p, b, i, c, j, u))
  }

  // u is the identity of an instruction from (b, i) up to but not including (c, j).
  ghost predicate InRange(p: Prog, b: int, i: int, c: int, j: int, u: nat) {
    exists e, k :: At(p, e, k) && !Before(e, k, b, i) && Before(e, k, c, j) && p[e].body[k].uid == u
  }

  lemma VisitExtends(kind: Kind, p: Prog, b: nat, i: nat, c: nat, j: nat, s: State)
    requires At(p, c, j - 1) && !Before(c, j - 1, b, i)
    requires var t := StateAt(kind, p, c, j - 1);
      Extends(p, b, i, c, j - 1, s, t) && p[c].body[j - 1].uid !in t.sub
    ensures Extends(p, b, i, c, j, s, StateAt(kind, p, c, j))
  {
    var t, t' := StateAt(kind, p, c, j - 1), StateAt(kind, p, c, j);
    hide Decision;
    forall u | u in t'.sub && u !in s.sub ensures InRange(p, b, i, c, j, u) {
      if u in t.sub {
        assert InRange(p, b, i, c, j - 1, u);
      } else {
        assert At(p, c, j - 1) && p[c].body[j - 1].uid == u;
      }
    }
  }

  lemma {:induction false} StatesExtend(kind: Kind, p: Prog, b: nat, i: nat, c: nat, j: nat)
    requires Limit(p, b, i) && Limit(p, c, j) && !Before(c, j, b, i)
    requires Distinct(p)
    ensures Extends(p, b, i, c, j, StateAt(kind, p, b, i), StateAt(kind, p, c, j))
    decreases c, j
  {
    hide Extends, Visit, Distinct;
    if b == c && i == j {
      ExtendsItself(p, b, i, StateAt(kind, p, b, i));
    } else if j > 0 {
      StatesExtend(kind, p, b, i, c, j - 1);
      NotYet(kind, p, c, j - 1);
      VisitExtends(kind, p, b, i, c, j, StateAt(kind, p, b, i));
    } else {
      StatesExtend(kind, p, b, i, c - 1, |p[c - 1].body|);
      ExtendsOver(p, b, i, c, StateAt(kind, p, b, i), StateAt(kind, p, c, j));
    }
  }

  lemma ExtendsItself(p: Prog, b: int, i: int, s: State)
    ensures Extends(p, b, i, b, i, s, s)
  {}

  // From the end of a block to the start of the next.
  lemma ExtendsOver(p: Prog, b: int, i: int, c: nat, s: State, t: State)
    requires 0 < c <= |p| && Extends(p, b, i, c - 1, |p[c - 1].body|, s, t)
    ensures Extends(p, b, i, c, 0, s, t)
  {
    forall u | u in t.sub && u !in s.sub ensures InRange(p, b, i, c, 0, u) {
      assert InRange(p, b, i, c - 1, |p[c - 1].body|, u);
    }
  }

  // An instruction has no replacement before it is visited.
  lemma NotYet(kind: Kind, p: Prog, b: nat, i: nat)
    requires Distinct(p) && At(p, b, i)
    ensures p[b].body[i].uid !in StateAt(kind, p, b, i).sub
    decreases b, i, 0
  {
    if p[b].body[i].uid in StateAt(kind, p, b, i).sub { AllEarlier(kind, p, b, i, p[b].body[i].uid); }
  }

  lemma {:induction false} AllEarlier(kind: Kind, p: Prog, b: nat, i: nat, u: nat)
    requires Limit(p, b, i) && u in StateAt(kind, p, b, i).sub
    ensures exists c, j :: At(p, c, j) && Before(c, j, b, i) && p[c].body[j].uid == u
    decreases b, i
  {
    if i > 0 {
      if u in StateAt(kind, p, b, i - 1).sub {
        AllEarlier(kind, p, b, i - 1, u);
      } else {
        assert At(p, b, i - 1) && p[b].body[i - 1].uid == u;
      }
    } else {
      AllEarlier(kind, p, b - 1, |p[b - 1].body|, u);
    }
  }

  // The final replacements hold exactly the dropped instructions, with their decisions.
  lemma FinalAt(kind: Kind, p: Prog, b: nat, i: nat)
    requires Distinct(p) && At(p, b, i)
    ensures p[b].body[i].uid in Final(kind, p).sub <==> Dropped(kind, p, b, i)
    ensures Dropped(kind, p, b, i) ==>
      Final(kind, p).sub[p[b].body[i].uid] == Decision(kind, p[b].body[i], StateAt(kind, p, b, i)).value
  {
    NotYet(kind, p, b, i);
    StatesExtend(kind, p, b, i + 1, |p|, 0);
    var u := p[b].body[i].uid;
    assert !InRange(p, b, i + 1, |p|, 0, u);
  }

  // An operand defined earlier already has its final replacement, or never gets one.
  lemma ResolvedAlready(kind: Kind, p: Prog, b: nat, i: nat, v: Value)
    requires Distinct(p) && At(p, b, i)
    requires v.Ref? ==> exists c, j :: At(p, c, j) && Before(c, j, b, i) && p[c].body[j].uid == v.uid
    ensures forall user, pos ::
      Resolve(user, pos, v, EditOf(kind, StateAt(kind, p, b, i))) == Resolve(user, pos, v, Final(kind, p))
  {
    StatesExtend(kind, p, b, i, |p|, 0);
    assert v.Ref? ==> !InRange(p, b, i, |p|, 0, v.uid);
  }

  ghost predicate Ordered(p: Prog) {
    Distinct(p) && forall b, i :: At(p, b, i) ==> OrderedNode(p, b, i)
  }

  ghost predicate OrderedNode(p: Prog, b: int, i: int)
    requires At(p, b, i)
  {
    forall v: Value :: v in p[b].body[i].args && v.Ref? ==>
      exists c, j :: At(p, c, j) && Before(c, j, b, i) && p[c].body[j].uid == v.uid
  }

  lemma WellFormedOrdered(p: Prog, d: map<nat, set<nat>>)
    requires WellFormedUnder(p, d)
    ensures Ordered(p)
  {
    forall b, i | At(p, b, i) ensures OrderedNode(p, b, i) {
      assert NodeOk(p, d, b, i);
      forall v: Value | v in p[b].body[i].args && v.Ref?
        ensures exists c, j :: At(p, c, j) && Before(c, j, b, i) && p[c].body[j].uid == v.uid
      {
        assert OperandOk(p, d, b, i, v);
        var c, j :| Defines(p, d, b, i, v, c, j);
      }
    }
  }

  lemma OperandsFinal(kind: Kind, p: Prog, b: nat, i: nat)
    requires Ordered(p) && At(p, b, i)
    ensures Operands(kind, p[b].body[i], StateAt(kind, p, b, i)) == ResolveAll(p[b].body[i], Final(kind, p))
  {
    var n := p[b].body[i];
    assert OrderedNode(p, b, i);
    forall k | 0 <= k < |n.args|
      ensures Resolve(n.uid, k, n.args[k], EditOf(kind, StateAt(kind, p, b, i))) ==
        Resolve(n.uid, k, n.args[k], Final(kind, p))
    {
      assert n.args[k] in n.args;
      ResolvedAlready(kind, p, b, i, n.args[k]);
    }
  }

  lemma {:induction false} OutputIsPrefix(kind: Kind, p: Prog, b: nat, i: nat)
    requires Ordered(p) && b < |p| && i <= |p[b].body|
    ensures OutputTo(kind, p, b, i) == Prefix(p[b].body, Final(kind, p), i)
  {
    if i > 0 {
      OutputIsPrefix(kind, p, b, i - 1);
      assert At(p, b, i - 1);
      OperandsFinal(kind, p, b, i - 1);
      FinalAt(kind, p, b, i - 1);
    }
  }

  // The forward sweep is the rewriting by its final replacements.
  lemma SweepIsRewrite(kind: Kind, p: Prog)
    requires Ordered(p)
    ensures SweepProg(kind, p) == RewriteProg(p, Final(kind, p))
  {
    forall b | 0 <= b < |p| ensures SweepProg(kind, p)[b] == RewriteProg(p, Final(kind, p))[b] {
      OutputIsPrefix(kind, p, b, |p[b].body|);
    }
  }
}
