// Every pass is one rewriting: drop some instructions, and in the kept ones put a
// replacement for each operand that names a substituted instruction.

module Rewrite {
  import opened Options
  import opened Ir
  import opened Interp
  import opened Cfg
  import opened RunInvariant

  // Drop these instructions, and use these values in their place; `retag` when every
  // use of a constant gets an object of its own.
  datatype Edit = Edit(retag: bool, drop: set<nat>, sub: map<nat, Value>)

  // Constant folding builds a new Constant object for each operand it rewrites.
  function Resolve(user: nat, pos: nat, v: Value, ed: Edit): Value {
    if v.Ref? && v.uid in ed.sub then
      var w := ed.sub[v.uid];
      if ed.retag && w.Const? then w.(tag := Folded(user, pos)) else w
    else v
  }

  function ResolveAll(n: Node, ed: Edit): (r: seq<Value>)
    ensures |r| == |n.args|
    ensures forall k :: 0 <= k < |n.args| ==> r[k] == Resolve(n.uid, k, n.args[k], ed)
  {
    seq(|n.args|, k requires 0 <= k < |n.args| => Resolve(n.uid, k, n.args[k], ed))
  }

  function Rewritten(n: Node, ed: Edit): Node {
    n.(args := ResolveAll(n, ed))
  }

  // The rewriting of the first i instructions of a block.
  function Prefix(body: seq<Node>, ed: Edit, i: nat): seq<Node>
    requires i <= |body|
  {
    if i == 0 then []
    else
      Prefix(body, ed, i - 1) +
      (if body[i - 1].uid in ed.drop then [] else [Rewritten(body[i - 1], ed)])
  }

  function RewriteBlock(blk: Block, ed: Edit): Block {
    Block(blk.name, Prefix(blk.body, ed, |blk.body|))
  }

  function RewriteProg(p: Prog, ed: Edit): (q: Prog)
    ensures |q| == |p|
    ensures forall b :: 0 <= b < |p| ==> q[b] == RewriteBlock(p[b], ed)
  {
    seq(|p|, b requires 0 <= b < |p| => RewriteBlock(p[b], ed))
  }

  // ----- where kept instructions go -----

  // The place, in the rewritten block, of the first kept instruction at or after i.
  function Place(body: seq<Node>, ed: Edit, i: nat): (k: nat)
    requires i <= |body|
    ensures k <= i
  {
    if i == 0 then 0 else Place(body, ed, i - 1) + (if body[i - 1].uid in ed.drop then 0 else 1)
  }

  lemma PrefixNext(body: seq<Node>, ed: Edit, i: nat)
    requires i <= |body|
    ensures i == 0 ==> Prefix(body, ed, i) == [] && Place(body, ed, i) == 0
    ensures i > 0 && body[i - 1].uid in ed.drop ==>
      Prefix(body, ed, i) == Prefix(body, ed, i - 1) && Place(body, ed, i) == Place(body, ed, i - 1)
    ensures i > 0 && body[i - 1].uid !in ed.drop ==>
      Prefix(body, ed, i) == Prefix(body, ed, i - 1) + [Rewritten(body[i - 1], ed)] &&
      Place(body, ed, i) == Place(body, ed, i - 1) + 1
  {
    hide Rewritten;
  }

  lemma {:induction false} PrefixPlaces(body: seq<Node>, ed: Edit, i: nat)
    requires i <= |body|
    ensures |Prefix(body, ed, i)| == Place(body, ed, i)
    ensures forall j :: 0 <= j < i && body[j].uid !in ed.drop ==>
      Place(body, ed, j) < Place(body, ed, i) &&
      Prefix(body, ed, i)[Place(body, ed, j)] == Rewritten(body[j], ed)
  {
    hide Rewritten, Prefix, Place;
    if i > 0 {
      PrefixPlaces(body, ed, i - 1);
      PrefixNext(body, ed, i);
    } else {
      PrefixNext(body, ed, 0);
    }
  }

  lemma {:induction false} PlaceMonotone(body: seq<Node>, ed: Edit, i: nat, j: nat)
    requires i <= j <= |body|
    ensures Place(body, ed, i) <= Place(body, ed, j)
    ensures i < j && body[i].uid !in ed.drop ==> Place(body, ed, i) < Place(body, ed, j)
    decreases j - i
  {
    if i < j { PlaceMonotone(body, ed, i + 1, j); }
  }

  // Every instruction of the rewritten block comes from a kept one.
  lemma {:induction false} Origin(body: seq<Node>, ed: Edit, i: nat, k: nat) returns (j: nat)
    requires i <= |body| && k < Place(body, ed, i)
    ensures j < i && body[j].uid !in ed.drop && Place(body, ed, j) == k
  {
    if body[i - 1].uid !in ed.drop && k == Place(body, ed, i - 1) {
      j := i - 1;
    } else {
      j := Origin(body, ed, i - 1, k);
    }
  }

  ghost predicate Kept(p: Prog, ed: Edit, b: int, i: int) { At(p, b, i) && p[b].body[i].uid !in ed.drop }

  lemma KeptAt(p: Prog, ed: Edit, b: int, i: int)
    requires Kept(p, ed, b, i)
    ensures var q := RewriteProg(p, ed); var k := Place(p[b].body, ed, i);
      At(q, b, k) && q[b].body[k] == Rewritten(p[b].body[i], ed)
  {
    PrefixPlaces(p[b].body, ed, |p[b].body|);
  }

  lemma OriginAt(p: Prog, ed: Edit, b: int, k: int) returns (i: int)
    requires At(RewriteProg(p, ed), b, k)
    ensures Kept(p, ed, b, i) && Place(p[b].body, ed, i) == k
    ensures RewriteProg(p, ed)[b].body[k] == Rewritten(p[b].body[i], ed)
  {
    PrefixPlaces(p[b].body, ed, |p[b].body|);
    i := Origin(p[b].body, ed, |p[b].body|, k);
  }

  // ----- when a rewriting is sound -----

  // Only value instructions are dropped; no kept operand names a dropped instruction.
  ghost predicate Scoped(p: Prog, d: map<nat, set<nat>>, ed: Edit) {
    (forall b, i :: At(p, b, i) && p[b].body[i].uid in ed.drop ==> HasValue(p[b].body[i].op)) &&
    (forall u :: u in ed.sub ==> !IsText(ed.sub[u])) &&
    (forall b, i, k :: Kept(p, ed, b, i) && 0 <= k < |p[b].body[i].args| ==>
      ScopedOperand(p, d, ed, b, i, Resolve(p[b].body[i].uid, k, p[b].body[i].args[k], ed)))
  }

  ghost predicate ScopedOperand(p: Prog, d: map<nat, set<nat>>, ed: Edit, b: int, i: int, v: Value) {
    OperandOk(p, d, b, i, v) && (v.Ref? ==> v.uid !in ed.drop)
  }

  // Wherever the run invariant holds, a kept operand and its replacement have one value.
  ghost predicate Faithful(p: Prog, d: map<nat, set<nat>>, ed: Edit) {
    forall args, env, b, i :: Facts(p, d, args, env, b, i) && b in d && Kept(p, ed, b, i) ==>
      SameValues(p[b].body[i], ed, args, env)
  }

  ghost predicate SameValues(n: Node, ed: Edit, args: seq<int>, env: map<nat, int>) {
    forall k :: 0 <= k < |n.args| ==>
      Eval(Resolve(n.uid, k, n.args[k], ed), args, env) == Eval(n.args[k], args, env)
  }

  // ----- the rewritten function is well formed -----

  lemma RewrittenShape(n: Node, ed: Edit)
    requires Shape(n) && forall u :: u in ed.sub ==> !IsText(ed.sub[u])
    ensures Shape(Rewritten(n, ed))
  {}

  lemma BlockShapeKept(p: Prog, d: map<nat, set<nat>>, ed: Edit, b: int)
    requires Structured(p) && Scoped(p, d, ed) && 0 <= b < |p|
    ensures var q := RewriteProg(p, ed); var last := p[b].body[|p[b].body| - 1];
      BlockShape(q[b]) && q[b].body[|q[b].body| - 1] == Rewritten(last, ed)
  {
    var q := RewriteProg(p, ed);
    var body := p[b].body;
    assert BlockShape(p[b]);
    var l := |body| - 1;
    assert At(p, b, l);
    KeptAt(p, ed, b, l);
    PrefixPlaces(body, ed, |body|);
    forall k | 0 <= k < |q[b].body|
      ensures Shape(q[b].body[k]) && (IsTerminator(q[b].body[k].op) <==> k == |q[b].body| - 1)
    {
      assert At(q, b, k);
      var i := OriginAt(p, ed, b, k);
      RewrittenShape(body[i], ed);
      PlaceMonotone(body, ed, i, l);
    }
  }

  lemma EdgesKept(p: Prog, d: map<nat, set<nat>>, ed: Edit)
    requires Structured(p) && Scoped(p, d, ed)
    ensures SameEdges(p, RewriteProg(p, ed))
  {
    var q := RewriteProg(p, ed);
    forall b, c ensures Edge(p, b, c) <==> Edge(q, b, c) {
      if 0 <= b < |p| { EdgeKept(p, d, ed, b, c); }
    }
  }

  lemma EdgeKept(p: Prog, d: map<nat, set<nat>>, ed: Edit, b: int, c: int)
    requires Structured(p) && Scoped(p, d, ed) && 0 <= b < |p|
    ensures Edge(p, b, c) <==> Edge(RewriteProg(p, ed), b, c)
  {
    var q := RewriteProg(p, ed);
    assert BlockShape(p[b]);
    BlockShapeKept(p, d, ed, b);
    var last := p[b].body[|p[b].body| - 1];
    assert Shape(last);
    LabelsKept(last, ed);
    hide Scoped, Structured, BlockShape, Shape, Rewritten, Target;
    forall name: string ensures Target(p, name) == Target(q, name) { SameTarget(p, ed, name); }
  }

  // Labels are constants, which no edit replaces.
  lemma LabelsKept(n: Node, ed: Edit)
    ensures Rewritten(n, ed).op == n.op && |Rewritten(n, ed).args| == |n.args|
    ensures forall k :: 0 <= k < |n.args| && n.args[k].Const? ==> Rewritten(n, ed).args[k] == n.args[k]
  {}

  lemma SameTarget(p: Prog, ed: Edit, name: string)
    ensures Target(p, name) == Target(RewriteProg(p, ed), name)
  {
    LookupSameLabels(p, RewriteProg(p, ed), name, |p|);
  }

  lemma DistinctKept(p: Prog, ed: Edit)
    requires Distinct(p)
    ensures Distinct(RewriteProg(p, ed))
  {
    var q := RewriteProg(p, ed);
    forall b, k, c, l | At(q, b, k) && At(q, c, l) && q[b].body[k].uid == q[c].body[l].uid ensures b == c && k == l {
      var i := OriginAt(p, ed, b, k);
      var j := OriginAt(p, ed, c, l);
      assert At(p, b, i) && At(p, c, j);
    }
  }

  lemma DefinesKept(p: Prog, d: map<nat, set<nat>>, ed: Edit,
                    b: int, i: int, v: Value, c: int, j: int)
    requires v.Ref? && v.uid !in ed.drop && Kept(p, ed, b, i) && Defines(p, d, b, i, v, c, j)
    ensures var q := RewriteProg(p, ed);
      Defines(q, d, b, Place(p[b].body, ed, i), v, c, Place(p[c].body, ed, j))
  {
    KeptAt(p, ed, c, j);
    if c == b { PlaceMonotone(p[b].body, ed, j, i); }
  }

  lemma RewriteWellFormed(p: Prog, d: map<nat, set<nat>>, ed: Edit)
    requires WellFormedUnder(p, d) && Scoped(p, d, ed)
    ensures SameEdges(p, RewriteProg(p, ed))
    ensures WellFormedUnder(RewriteProg(p, ed), d)
  {
    var q := RewriteProg(p, ed);
    EdgesKept(p, d, ed);
    DistinctKept(p, ed);
    forall b | 0 <= b < |q| ensures BlockShape(q[b]) { BlockShapeKept(p, d, ed, b); }
    forall b, k | At(q, b, k) ensures NodeOk(q, d, b, k) {
      var i := OriginAt(p, ed, b, k);
      forall v | v in q[b].body[k].args ensures OperandOk(q, d, b, k, v) {
        var a :| 0 <= a < |q[b].body[k].args| && q[b].body[k].args[a] == v;
        assert ScopedOperand(p, d, ed, b, i, v);
        if v.Ref? {
          var c, j :| Defines(p, d, b, i, v, c, j);
          DefinesKept(p, d, ed, b, i, v, c, j);
        }
      }
    }
  }

  // ----- simulation -----

  // The rewritten run keeps every value that is kept and available.
  ghost predicate Matches(p: Prog, d: map<nat, set<nat>>, ed: Edit, env: map<nat, int>, env': map<nat, int>, b: int,
                          i: int) {
    forall c, j :: Avail(p, d, b, i, c, j) && Kept(p, ed, c, j) && HasValue(p[c].body[j].op) ==>
      SameAt(p[c].body[j].uid, env, env')
  }

  ghost predicate SameAt(u: nat, env: map<nat, int>, env': map<nat, int>) { u in env && u in env' && env[u] == env'[u] }

  ghost predicate Related(p: Prog, d: map<nat, set<nat>>, ed: Edit, s: Config, t: Config) {
    if s.Running? then
      At(p, s.b, s.i) && t.Running? && t.b == s.b && t.i == Place(p[s.b].body, ed, s.i) && t.mem == s.mem &&
      Matches(p, d, ed, s.env, t.env, s.b, s.i)
    else s == t
  }

  lemma OperandsAgree(p: Prog, d: map<nat, set<nat>>, ed: Edit,
                      args: seq<int>, env: map<nat, int>, env': map<nat, int>, b: int, i: int)
    requires Scoped(p, d, ed) && Faithful(p, d, ed)
    requires b in d && Kept(p, ed, b, i) && Facts(p, d, args, env, b, i) && Matches(p, d, ed, env, env', b, i)
    ensures EvalAll(Rewritten(p[b].body[i], ed).args, args, env') == EvalAll(p[b].body[i].args, args, env)
  {
    var n := p[b].body[i];
    assert SameValues(n, ed, args, env);
    forall k | 0 <= k < |n.args|
      ensures Eval(Resolve(n.uid, k, n.args[k], ed), args, env') == Eval(n.args[k], args, env)
    {
      var v := Resolve(n.uid, k, n.args[k], ed);
      assert ScopedOperand(p, d, ed, b, i, v);
      if v.Ref? {
        var c, j :| Defines(p, d, b, i, v, c, j);
        assert Kept(p, ed, c, j);
        assert SameAt(v.uid, env, env');
      }
    }
  }

  lemma DroppedStep(p: Prog, d: map<nat, set<nat>>, ed: Edit, args: seq<int>,
                    s: Config, t: Config)
    requires WellFormedUnder(p, d) && Scoped(p, d, ed)
    requires s.Running? && Sane(p, d, args, s) && Related(p, d, ed, s, t) && p[s.b].body[s.i].uid in ed.drop
    ensures Step(p, args, s).Fault? || (Step(p, args, s).Running? && Step(p, args, s).b == s.b &&
      Step(p, args, s).i == s.i + 1 && Related(p, d, ed, Step(p, args, s), t))
  {
    hide Scoped, WellFormedUnder, Step, Sane, Matches, RewriteProg, Distinct;
    var n := p[s.b].body[s.i];
    NotLast(p, s.b, s.i, d, ed);
    ValueStep(p, args, s);
    PlaceAfterDropped(p[s.b].body, ed, s.i);
    hide Place;
    var s' := Step(p, args, s);
    if s'.Running? { DroppedMatches(p, d, ed, s.env, t.env, s.b, s.i, s'.env[n.uid]); }
  }

  lemma PlaceAfterDropped(body: seq<Node>, ed: Edit, i: nat)
    requires i < |body| && body[i].uid in ed.drop
    ensures Place(body, ed, i + 1) == Place(body, ed, i)
  {}

  lemma NotLast(p: Prog, b: nat, i: nat, d: map<nat, set<nat>>, ed: Edit)
    requires WellFormedUnder(p, d) && Scoped(p, d, ed) && At(p, b, i) && p[b].body[i].uid in ed.drop
    ensures HasValue(p[b].body[i].op) && i + 1 < |p[b].body| && Distinct(p)
  {
    assert BlockShape(p[b]);
    hide DomOk;
  }

  // A value instruction computes its value, or faults.
  lemma ValueStep(p: Prog, args: seq<int>, s: Config)
    requires s.Running? && At(p, s.b, s.i) && HasValue(p[s.b].body[s.i].op)
    ensures Step(p, args, s).Fault? || (Step(p, args, s).Running? && p[s.b].body[s.i].uid in Step(p, args, s).env)
    ensures Step(p, args, s).Running? ==> (
      var u := p[s.b].body[s.i].uid;
      Step(p, args, s) == Running(s.b, s.i + 1, s.env[u := Step(p, args, s).env[u]], s.mem))
  {
    var n := p[s.b].body[s.i];
    EffectKinds(n.op, EvalAll(n.args, args, s.env), s.mem);
    hide Effects;
  }

  // A dropped value changes nothing that is kept.
  lemma DroppedMatches(p: Prog, d: map<nat, set<nat>>, ed: Edit, env: map<nat, int>, env': map<nat, int>, b: int,
                       i: int, v: int)
    requires Distinct(p) && At(p, b, i) && p[b].body[i].uid in ed.drop && Matches(p, d, ed, env, env', b, i)
    ensures Matches(p, d, ed, env[p[b].body[i].uid := v], env', b, i + 1)
  {
    var u := p[b].body[i].uid;
    forall c, j | Avail(p, d, b, i + 1, c, j) && Kept(p, ed, c, j) && HasValue(p[c].body[j].op)
      ensures SameAt(p[c].body[j].uid, env[u := v], env')
    {
      assert Avail(p, d, b, i, c, j);
      assert SameAt(p[c].body[j].uid, env, env');
    }
  }

  lemma MatchesAssign(p: Prog, d: map<nat, set<nat>>, ed: Edit, env: map<nat, int>, env': map<nat, int>, b: int, i: int,
                      v: int)
    requires Distinct(p) && At(p, b, i) && Matches(p, d, ed, env, env', b, i)
    ensures Matches(p, d, ed, env[p[b].body[i].uid := v], env'[p[b].body[i].uid := v], b, i + 1)
  {
    var u := p[b].body[i].uid;
    forall c, j | Avail(p, d, b, i + 1, c, j) && Kept(p, ed, c, j) && HasValue(p[c].body[j].op)
      ensures SameAt(p[c].body[j].uid, env[u := v], env'[u := v])
    {
      if !(c == b && j == i) {
        assert Avail(p, d, b, i, c, j);
        assert SameAt(p[c].body[j].uid, env, env');
      }
    }
  }

  // Moving on without a new value: to the next instruction, or along an edge.
  lemma MatchesMove(p: Prog, d: map<nat, set<nat>>, ed: Edit, env: map<nat, int>, env': map<nat, int>, b: int, i: int,
                    c: int, j: int)
    requires At(p, b, i) && !HasValue(p[b].body[i].op) && Matches(p, d, ed, env, env', b, i)
    requires (c == b && j == i + 1) ||
      (j == 0 && i == |p[b].body| - 1 && b in d && c in d && d[c] <= d[b] + {b})
    ensures Matches(p, d, ed, env, env', c, j)
  {
    forall e, k | Avail(p, d, c, j, e, k) && Kept(p, ed, e, k) && HasValue(p[e].body[k].op)
      ensures SameAt(p[e].body[k].uid, env, env')
    {
      assert Avail(p, d, b, i, e, k);
    }
  }

  lemma KeptApply(p: Prog, q: Prog, d: map<nat, set<nat>>, ed: Edit, s: Config, t: Config, f: Effect, n': Node)
    requires Distinct(p) && DomOk(p, d)
    requires s.Running? && s.b in d && Related(p, d, ed, s, t) && p[s.b].body[s.i].uid !in ed.drop
    requires n'.uid == p[s.b].body[s.i].uid
    requires f.Assign? ==> s.i < |p[s.b].body| - 1
    requires f.Write? ==> s.i < |p[s.b].body| - 1 && !HasValue(p[s.b].body[s.i].op)
    requires f.Goto? ==> Target(p, f.name) == Target(q, f.name)
    requires f.Goto? && Target(p, f.name).Some? ==>
      (s.i == |p[s.b].body| - 1 && !HasValue(p[s.b].body[s.i].op) &&
       Edge(p, s.b, Target(p, f.name).value) && |p[Target(p, f.name).value].body| > 0)
    ensures Related(p, d, ed, Apply(p, p[s.b].body[s.i], f, s.b, s.i, s.env, s.mem),
      Apply(q, n', f, t.b, t.i, t.env, t.mem))
  {
    hide Matches;
    var b, i := s.b, s.i;
    match f
    case Assign(v) => MatchesAssign(p, d, ed, s.env, t.env, b, i, v);
    case Write(m) => MatchesMove(p, d, ed, s.env, t.env, b, i, b, i + 1);
    case Goto(name) =>
      if Target(p, name).Some? { MatchesMove(p, d, ed, s.env, t.env, b, i, Target(p, name).value, 0); }
    case Return(_) =>
    case Bad =>
  }

  lemma KeptStep(p: Prog, d: map<nat, set<nat>>, ed: Edit, args: seq<int>, s: Config, t: Config)
    requires WellFormedUnder(p, d) && Scoped(p, d, ed) && Faithful(p, d, ed)
    requires s.Running? && Sane(p, d, args, s) && Related(p, d, ed, s, t) && p[s.b].body[s.i].uid !in ed.drop
    ensures Related(p, d, ed, Step(p, args, s), Step(RewriteProg(p, ed), args, t))
  {
    hide Scoped, Faithful, Facts, Matches, Effects, EvalAll, DomOk, RewriteProg, Place, Avail;
    var n := p[s.b].body[s.i];
    KeptAt(p, ed, s.b, s.i);
    OperandsAgree(p, d, ed, args, s.env, t.env, s.b, s.i);
    var vals := EvalAll(n.args, args, s.env);
    var f := Effects(n.op, vals, s.mem);
    assert BlockShape(p[s.b]);
    EffectKinds(n.op, vals, s.mem);
    if f.Goto? && Target(p, f.name).Some? {
      GotoIsEdge(p, s.b, s.i, vals, args, s.env, s.mem);
      assert BlockShape(p[Target(p, f.name).value]);
    }
    if f.Goto? { LookupSameLabels(p, RewriteProg(p, ed), f.name, |p|); }
    KeptApply(p, RewriteProg(p, ed), d, ed, s, t, f, Rewritten(n, ed));
  }
}
