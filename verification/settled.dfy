// A forward sweep settles at once: run again it changes nothing, and a run that deletes
// no instruction rewrites no operand. Both hold of every function, well formed or not.

module Settled {
  import opened Options
  import opened Ir
  import opened Rewrite
  import opened Sweep

  lemma {:induction false} OutputShorter(kind: Kind, p: Prog, b: nat, i: nat)
    requires b < |p| && i <= |p[b].body|
    ensures |OutputTo(kind, p, b, i)| <= i
  {
    if i > 0 { OutputShorter(kind, p, b, i - 1); }
  }

  lemma {:induction false} OutputGrows(kind: Kind, p: Prog, b: nat, i: nat, j: nat)
    requires b < |p| && i <= j <= |p[b].body|
    ensures OutputTo(kind, p, b, i) <= OutputTo(kind, p, b, j)
  {
    if i < j { OutputGrows(kind, p, b, i, j - 1); }
  }

  lemma NoReplacement(kind: Kind, n: Node, s: State)
    requires s.sub == map[]
    ensures Operands(kind, n, s) == n.args
  {}

  // Visiting a kept instruction's output again keeps it as it is.
  lemma VisitAgain(kind: Kind, n: Node, s: State)
    ensures Decision(kind, n, s).Some? ==> Visit(kind, n, s).seen == s.seen && Output(kind, n, s) == []
    ensures Decision(kind, n, s).None? ==>
      var n', s' := n.(args := Operands(kind, n, s)), State(map[], s.seen);
      Output(kind, n, s) == [n'] && Output(kind, n', s') == [n'] &&
      Visit(kind, n', s') == State(map[], Visit(kind, n, s).seen)
  {
    NoReplacement(kind, n.(args := Operands(kind, n, s)), State(map[], s.seen));
  }

  // The second run meets an empty replacement map and the same keys as the first.
  lemma {:induction false} SecondRun(kind: Kind, p: Prog, b: nat, i: nat)
    requires b < |p| && i <= |p[b].body|
    ensures var q, x := SweepProg(kind, p), |OutputTo(kind, p, b, i)|;
      x <= |q[b].body| && StateAt(kind, q, b, x) == State(map[], StateAt(kind, p, b, i).seen) &&
      OutputTo(kind, q, b, x) == OutputTo(kind, p, b, i)
    decreases b, i
  {
    hide Visit, Output, Decision;
    var q, x := SweepProg(kind, p), |OutputTo(kind, p, b, i)|;
    OutputGrows(kind, p, b, i, |p[b].body|);
    if i > 0 {
      SecondRun(kind, p, b, i - 1);
      var n, s := p[b].body[i - 1], StateAt(kind, p, b, i - 1);
      VisitAgain(kind, n, s);
      if Decision(kind, n, s).None? {
        assert OutputTo(kind, p, b, i)[x - 1] == q[b].body[x - 1];
      }
    } else if b > 0 {
      SecondRun(kind, p, b - 1, |p[b - 1].body|);
    }
  }

  lemma SweepIdempotent(kind: Kind, p: Prog)
    ensures SweepProg(kind, SweepProg(kind, p)) == SweepProg(kind, p)
  {
    var q := SweepProg(kind, p);
    forall b | 0 <= b < |q| ensures SweepProg(kind, q)[b] == q[b] { SecondRun(kind, p, b, |p[b].body|); }
  }

  // While nothing has been deleted there is nothing to replace.
  lemma {:induction false} NothingYet(kind: Kind, p: Prog, b: nat, i: nat)
    requires b < |p| && i <= |p[b].body| && |OutputTo(kind, p, b, i)| == i && StateAt(kind, p, b, 0).sub == map[]
    ensures StateAt(kind, p, b, i).sub == map[] && OutputTo(kind, p, b, i) == p[b].body[..i]
  {
    hide Decision, Resolve;
    if i > 0 {
      OutputShorter(kind, p, b, i - 1);
      NothingYet(kind, p, b, i - 1);
      NoReplacement(kind, p[b].body[i - 1], StateAt(kind, p, b, i - 1));
    }
  }

  lemma NothingInBlock(kind: Kind, p: Prog, b: nat)
    requires b < |p| && |SweepProg(kind, p)[b].body| == |p[b].body| && StateAt(kind, p, b, 0).sub == map[]
    ensures StateAt(kind, p, b + 1, 0).sub == map[] && SweepProg(kind, p)[b] == p[b]
  {
    var l := |p[b].body|;
    NothingYet(kind, p, b, l);
    assert p[b].body[..l] == p[b].body;
  }

  lemma {:induction false} CountShrinks(kind: Kind, p: Prog, b: nat)
    requires b <= |p|
    ensures CountTo(SweepProg(kind, p), b) <= CountTo(p, b)
    ensures CountTo(SweepProg(kind, p), b) == CountTo(p, b) ==>
      StateAt(kind, p, b, 0).sub == map[] && forall c :: 0 <= c < b ==> SweepProg(kind, p)[c] == p[c]
  {
    hide StateAt, OutputTo;
    if b > 0 {
      CountShrinks(kind, p, b - 1);
      OutputShorter(kind, p, b - 1, |p[b - 1].body|);
      if CountTo(SweepProg(kind, p), b) == CountTo(p, b) { NothingInBlock(kind, p, b - 1); }
    } else {
      StartsEmpty(kind, p);
    }
  }

  lemma StartsEmpty(kind: Kind, p: Prog)
    ensures StateAt(kind, p, 0, 0).sub == map[]
  {}

  lemma SweepCounts(kind: Kind, p: Prog)
    ensures Count(SweepProg(kind, p)) <= Count(p)
    ensures Count(SweepProg(kind, p)) == Count(p) ==> SweepProg(kind, p) == p
  {
    CountShrinks(kind, p, |p|);
  }

  // After elimination no two shareable instructions have the same key.
  lemma KeysAreUnique(p: Prog, b: nat, i: nat, c: nat, j: nat)
    requires var q := SweepProg(CSE, p); At(q, b, i) && At(q, c, j) && Before(c, j, b, i)
    requires var q := SweepProg(CSE, p); Shareable(q[b].body[i]) && Shareable(q[c].body[j])
    ensures var q := SweepProg(CSE, p);
      KeyOf(q[b].body[i].op, q[b].body[i].ty, q[b].body[i].args) !=
      KeyOf(q[c].body[j].op, q[c].body[j].ty, q[c].body[j].args)
  {
    var q := SweepProg(CSE, p);
    SweepIdempotent(CSE, p);
    CountShrinks(CSE, q, |q|);
    StillNothing(CSE, q, c, j);
    StillNothing(CSE, q, b, i);
    SeenGrows(q, c, j + 1, b, i);
    var m := q[c].body[j];
    NoReplacement(CSE, m, StateAt(CSE, q, c, j));
    NoReplacement(CSE, q[b].body[i], StateAt(CSE, q, b, i));
    assert KeyOf(m.op, m.ty, m.args) in StateAt(CSE, q, c, j + 1).seen;
  }

  lemma StillNothing(kind: Kind, q: Prog, b: nat, i: nat)
    requires SweepProg(kind, q) == q && At(q, b, i)
    ensures StateAt(kind, q, b, i).sub == map[] && Decision(kind, q[b].body[i], StateAt(kind, q, b, i)).None?
  {
    hide SweepProg, StateAt, OutputTo, Decision;
    CountShrinks(kind, q, b);
    var l := |q[b].body|;
    OutputAll(kind, q, b);
    PrefixFull(kind, q, b, i, l);
    PrefixFull(kind, q, b, i + 1, l);
    NothingYet(kind, q, b, i);
    KeptIsUndecided(kind, q, b, i);
  }

  lemma OutputAll(kind: Kind, p: Prog, b: nat)
    requires b < |p|
    ensures SweepProg(kind, p)[b].body == OutputTo(kind, p, b, |p[b].body|)
  {
    hide OutputTo;
  }

  lemma KeptIsUndecided(kind: Kind, p: Prog, b: nat, i: nat)
    requires At(p, b, i) && |OutputTo(kind, p, b, i)| == i && |OutputTo(kind, p, b, i + 1)| == i + 1
    ensures Decision(kind, p[b].body[i], StateAt(kind, p, b, i)).None?
  {
    hide StateAt, Decide;
  }

  lemma {:induction false} PrefixFull(kind: Kind, p: Prog, b: nat, i: nat, l: nat)
    requires b < |p| && i <= l <= |p[b].body| && |OutputTo(kind, p, b, l)| == l
    ensures |OutputTo(kind, p, b, i)| == i
  {
    if i < l {
      OutputShorter(kind, p, b, l - 1);
      PrefixFull(kind, p, b, i, l - 1);
    }
  }

  lemma {:induction false} SeenGrows(p: Prog, b: nat, i: nat, c: nat, j: nat)
    requires b < |p| && i <= |p[b].body| && c < |p| && j <= |p[c].body| && (b < c || (b == c && i <= j))
    ensures StateAt(CSE, p, b, i).seen.Keys <= StateAt(CSE, p, c, j).seen.Keys
    decreases c, j
  {
    if b == c && i == j {
    } else if j > 0 {
      SeenGrows(p, b, i, c, j - 1);
    } else {
      SeenGrows(p, b, i, c - 1, |p[c - 1].body|);
    }
  }
}
