// Common subexpression elimination preserves meaning exactly where every shared value is
// computed on all paths to its new uses.

module Cse {
  import opened Options
  import opened Ir
  import opened Interp
  import opened Cfg
  import opened RunInvariant
  import opened Rewrite
  import opened Refinement
  import opened Sweep
  import opened Sweeping
  import opened FoldReduce

  // The caller's check: after sharing, each operand in a kept instruction still names an
  // instruction that strictly dominates the use.
  ghost predicate SharingDominates(p: Prog) { SharingUnder(p, Dominators(p)) }

  ghost predicate SharingUnder(p: Prog, d: map<nat, set<nat>>) {
    var ed := Final(CSE, p);
    forall b, i, k :: Kept(p, ed, b, i) && 0 <= k < |p[b].body[i].args| ==>
      OperandOk(p, d, b, i, Resolved(CSE, p, b, i, k))
  }

  // The first instruction of its key: kept, shareable, and earlier than (b, i).
  ghost predicate FirstOf(p: Prog, b: int, i: int, key: Key, v: Value, c: int, j: int) {
    At(p, c, j) && Before(c, j, b, i) && !Dropped(CSE, p, c, j) && Shareable(p[c].body[j]) &&
    v == Ref(p[c].body[j].uid, p[c].body[j].ty) &&
    key == KeyOf(p[c].body[j].op, p[c].body[j].ty, Operands(CSE, p[c].body[j], StateAt(CSE, p, c, j)))
  }

  lemma {:induction false} SeenAt(p: Prog, b: nat, i: nat, key: Key)
    requires Limit(p, b, i) && key in StateAt(CSE, p, b, i).seen
    ensures exists c, j :: FirstOf(p, b, i, key, StateAt(CSE, p, b, i).seen[key], c, j)
    decreases b, i
  {
    var v := StateAt(CSE, p, b, i).seen[key];
    if i > 0 {
      var s := StateAt(CSE, p, b, i - 1);
      if key in s.seen && s.seen[key] == v {
        SeenAt(p, b, i - 1, key);
        var c, j :| FirstOf(p, b, i - 1, key, v, c, j);
        assert FirstOf(p, b, i, key, v, c, j);
      } else {
        assert FirstOf(p, b, i, key, v, b, i - 1);
      }
    } else {
      SeenAt(p, b - 1, |p[b - 1].body|, key);
      var c, j :| FirstOf(p, b - 1, |p[b - 1].body|, key, v, c, j);
      assert FirstOf(p, b, i, key, v, c, j);
    }
  }

  // A dropped instruction is replaced by an earlier, kept instruction with the same key.
  lemma SharedWith(p: Prog, b: nat, i: nat) returns (c: int, j: int)
    requires Ordered(p) && Dropped(CSE, p, b, i)
    ensures At(p, c, j) && Before(c, j, b, i) && !Dropped(CSE, p, c, j) && Shareable(p[c].body[j])
    ensures p[b].body[i].uid in Final(CSE, p).sub && p[c].body[j].uid !in Final(CSE, p).drop
    ensures Final(CSE, p).sub[p[b].body[i].uid] == Ref(p[c].body[j].uid, p[b].body[i].ty)
    ensures p[c].body[j].ty == p[b].body[i].ty && p[c].body[j].op == p[b].body[i].op
    ensures KeyOf(p[b].body[i].op, p[b].body[i].ty, ResolveAll(p[b].body[i], Final(CSE, p))) ==
      KeyOf(p[c].body[j].op, p[c].body[j].ty, ResolveAll(p[c].body[j], Final(CSE, p)))
  {
    var n := p[b].body[i];
    DroppedDecision(CSE, p, b, i);
    var key := KeyOf(n.op, n.ty, ResolveAll(n, Final(CSE, p)));
    SeenAt(p, b, i, key);
    c, j :| FirstOf(p, b, i, key, StateAt(CSE, p, b, i).seen[key], c, j);
    OperandsFinal(CSE, p, c, j);
    FinalAt(CSE, p, c, j);
  }

  // One step of resolution is enough: replacement targets are kept.
  lemma TargetsKept(p: Prog, d: map<nat, set<nat>>, b: nat, i: nat, k: nat)
    requires WellFormedUnder(p, d) && Ordered(p) && At(p, b, i) && k < |p[b].body[i].args|
    ensures var v := Resolved(CSE, p, b, i, k); v.Ref? ==> v.uid !in Final(CSE, p).drop
    ensures var v := Resolved(CSE, p, b, i, k); IsText(v) ==> v == p[b].body[i].args[k]
  {
    var a := p[b].body[i].args[k];
    assert NodeOk(p, d, b, i) && OperandOk(p, d, b, i, a);
    if a.Ref? && a.uid in Final(CSE, p).sub {
      var c, j :| Defines(p, d, b, i, a, c, j);
      DroppedHasValue(CSE, p, c, j);
      var e, l := SharedWith(p, c, j);
    }
  }

  lemma CseScoped(p: Prog, d: map<nat, set<nat>>)
    requires WellFormedUnder(p, d) && Ordered(p) && SharingUnder(p, d)
    ensures Scoped(p, d, Final(CSE, p))
  {
    var ed := Final(CSE, p);
    forall b, i | At(p, b, i) && p[b].body[i].uid in ed.drop ensures HasValue(p[b].body[i].op) {
      DroppedHasValue(CSE, p, b, i);
    }
    forall u | u in ed.sub ensures !IsText(ed.sub[u]) {
      AllEarlier(CSE, p, |p|, 0, u);
      var b, i :| At(p, b, i) && p[b].body[i].uid == u;
      DroppedHasValue(CSE, p, b, i);
      var e, l := SharedWith(p, b, i);
    }
    forall b, i, k | Kept(p, ed, b, i) && 0 <= k < |p[b].body[i].args|
      ensures ScopedOperand(p, d, ed, b, i, Resolve(p[b].body[i].uid, k, p[b].body[i].args[k], ed))
    {
      TargetsKept(p, d, b, i, k);
      assert OperandOk(p, d, b, i, Resolved(CSE, p, b, i, k));
    }
  }

  // Equal keys have equal operands, up to which Constant object holds them.
  lemma SameKeyOperand(op: Opcode, ty: Type, r: seq<Value>, r': seq<Value>, k: nat, args: seq<int>, env: map<nat, int>)
    requires KeyOf(op, ty, r) == KeyOf(op, ty, r') && k < |r|
    ensures |r| == |r'| && KeyOfValue(r[k]) == KeyOfValue(r'[k])
    ensures Eval(r[k], args, env) == Eval(r'[k], args, env)
    ensures r[k].Ref? ==> r'[k].Ref? && r'[k].uid == r[k].uid
  {
    assert |KeyOf(op, ty, r).args| == |KeyOf(op, ty, r').args|;
    assert KeyOf(op, ty, r).args[k] == KeyOf(op, ty, r').args[k];
  }

  // A dropped instruction and the one it shares with have one value wherever both are
  // available: neither need dominate the other.
  lemma {:induction false} SharedAgrees(p: Prog, d: map<nat, set<nat>>, args: seq<int>, env: map<nat, int>,
                                        b: nat, i: nat, c: nat, j: nat)
    requires WellFormedUnder(p, d) && Ordered(p) && SharingUnder(p, d)
    requires b in d && At(p, b, i) && Facts(p, d, args, env, b, i) && Avail(p, d, b, i, c, j)
    requires Dropped(CSE, p, c, j) && Final(CSE, p).sub.Keys >= {p[c].body[j].uid}
    requires var t := Final(CSE, p).sub[p[c].body[j].uid];
      t.Ref? && AvailableUid(p, d, b, i, t.uid)
    ensures Eval(Final(CSE, p).sub[p[c].body[j].uid], args, env) == Some(Num(env[p[c].body[j].uid]))
    ensures p[c].body[j].uid in env
    decreases c, j
  {
    hide WellFormedUnder, DomOk, Ordered, Final, Dropped, KeyOf, Decide, Facts, SharingUnder;
    var ed := Final(CSE, p);
    var m := p[c].body[j];
    DroppedDecision(CSE, p, c, j);
    var e, l := SharedWith(p, c, j);
    var t := p[e].body[l];
    SharedAvailable(p, d, b, i, e, l);
    ShapedNode(p, d, c, j);
    ShapedNode(p, d, e, l);
    FactHolds(p, d, args, env, b, i, c, j);
    FactHolds(p, d, args, env, b, i, e, l);
    forall k | 0 <= k < 2 ensures Eval(m.args[k], args, env) == Eval(t.args[k], args, env) {
      SameKeyOperand(m.op, m.ty, ResolveAll(m, ed), ResolveAll(t, ed), k, args, env);
      SharedOperandOk(p, d, e, l, k);
      OperandAgrees(p, d, args, env, b, i, c, j, k, Resolved(CSE, p, e, l, k), e, l);
      OperandAgrees(p, d, args, env, b, i, e, l, k, Resolved(CSE, p, e, l, k), e, l);
    }
  }

  lemma SharedAvailable(p: Prog, d: map<nat, set<nat>>, b: int, i: int, e: int, l: int)
    requires WellFormedUnder(p, d) && At(p, e, l) && AvailableUid(p, d, b, i, p[e].body[l].uid)
    ensures Avail(p, d, b, i, e, l)
  {
    hide DomOk;
    var e', l' :| Avail(p, d, b, i, e', l') && p[e'].body[l'].uid == p[e].body[l].uid;
  }

  // A kept instruction's operands stay defined after sharing.
  lemma SharedOperandOk(p: Prog, d: map<nat, set<nat>>, e: int, l: int, k: nat)
    requires SharingUnder(p, d) && Kept(p, Final(CSE, p), e, l) && k < |p[e].body[l].args|
    ensures OperandOk(p, d, e, l, Resolved(CSE, p, e, l, k))
  {}

  ghost predicate AvailableUid(p: Prog, d: map<nat, set<nat>>, b: int, i: int, u: nat) {
    exists e, l :: Avail(p, d, b, i, e, l) && p[e].body[l].uid == u
  }

  // Operand k of (c, j), and its replacement, where the replacement is available.
  lemma {:induction false} OperandAgrees(p: Prog, d: map<nat, set<nat>>, args: seq<int>, env: map<nat, int>,
                                         b: nat, i: nat, c: nat, j: nat, k: nat,
                                         v: Value, e: int, l: int)
    requires WellFormedUnder(p, d) && Ordered(p) && SharingUnder(p, d)
    requires b in d && At(p, b, i) && Facts(p, d, args, env, b, i) && Avail(p, d, b, i, c, j)
    requires k < |p[c].body[j].args|
    requires Avail(p, d, b, i, e, l) && OperandOk(p, d, e, l, v)
    requires var r := Resolved(CSE, p, c, j, k); r.Ref? ==> v.Ref? && v.uid == r.uid
    ensures Eval(Resolved(CSE, p, c, j, k), args, env) == Eval(p[c].body[j].args[k], args, env)
    decreases c, j, 0
  {
    hide WellFormedUnder, Facts, SharingUnder, Ordered, DomOk, Final;
    var ed := Final(CSE, p);
    var a := p[c].body[j].args[k];
    OperandIsOk(p, d, c, j, k);
    if a.Ref? && a.uid in ed.sub {
      var c', j' := DefinedThrough(p, d, b, i, c, j, a);
      DroppedHasValue(CSE, p, c', j');
      var f, g := SharedWith(p, c', j');
      var e', l' := DefinedThrough(p, d, b, i, e, l, v);
      SharedAgrees(p, d, args, env, b, i, c', j');
    }
  }

  lemma CseFaithful(p: Prog, d: map<nat, set<nat>>)
    requires WellFormedUnder(p, d) && Ordered(p) && SharingUnder(p, d)
    ensures Faithful(p, d, Final(CSE, p))
  {
    var ed := Final(CSE, p);
    forall args, env, b, i | Facts(p, d, args, env, b, i) && b in d && Kept(p, ed, b, i)
      ensures SameValues(p[b].body[i], ed, args, env)
    {
      var n := p[b].body[i];
      forall k | 0 <= k < |n.args|
        ensures Eval(Resolve(n.uid, k, n.args[k], ed), args, env) == Eval(n.args[k], args, env)
      {
        UseAgrees(p, d, args, env, b, i, k);
      }
    }
  }

  lemma UseAgrees(p: Prog, d: map<nat, set<nat>>, args: seq<int>, env: map<nat, int>, b: nat, i: nat, k: nat)
    requires WellFormedUnder(p, d) && Ordered(p) && SharingUnder(p, d)
    requires Facts(p, d, args, env, b, i) && b in d && Kept(p, Final(CSE, p), b, i) && k < |p[b].body[i].args|
    ensures Eval(Resolved(CSE, p, b, i, k), args, env) == Eval(p[b].body[i].args[k], args, env)
  {
    var ed := Final(CSE, p);
    var a := p[b].body[i].args[k];
    assert NodeOk(p, d, b, i) && OperandOk(p, d, b, i, a);
    if a.Ref? && a.uid in ed.sub {
      var c, j :| Defines(p, d, b, i, a, c, j);
      DroppedHasValue(CSE, p, c, j);
      var f, g := SharedWith(p, c, j);
      var v := Resolved(CSE, p, b, i, k);
      assert OperandOk(p, d, b, i, v);
      var e, l :| Defines(p, d, b, i, v, e, l);
      assert Avail(p, d, b, i, e, l);
      SharedAgrees(p, d, args, env, b, i, c, j);
    }
  }

  // Main result: sharing that dominates preserves meaning.
  lemma CsePreserves(p: Prog)
    requires WellFormed(p) && SharingDominates(p)
    ensures WellFormed(SweepProg(CSE, p)) && SameMeaning(p, SweepProg(CSE, p))
    ensures Dominators(SweepProg(CSE, p)) == Dominators(p)
  {
    var d, ed := Dominators(p), Final(CSE, p);
    WellFormedOrdered(p, d);
    SweepIsRewrite(CSE, p);
    CseScoped(p, d);
    CseFaithful(p, d);
    RewritePreserves(p, d, ed);
    RewriteWellFormed(p, d, ed);
    SameDominators(p, RewriteProg(p, ed));
  }

  // Elimination leaves the blocks' edges alone, whatever it shares.
  lemma CseSameDominators(p: Prog, d: map<nat, set<nat>>)
    requires WellFormedUnder(p, d) && Ordered(p)
    ensures Dominators(SweepProg(CSE, p)) == Dominators(p)
  {
    // Without the dominance of operands, the layout order alone fixes blocks and edges.
    var p0: map<nat, set<nat>> := map[];
    SweepIsRewrite(CSE, p);
    var ed := Final(CSE, p);
    forall b, i | At(p, b, i) && p[b].body[i].uid in ed.drop ensures HasValue(p[b].body[i].op) {
      DroppedHasValue(CSE, p, b, i);
    }
    forall u | u in ed.sub ensures !IsText(ed.sub[u]) {
      AllEarlier(CSE, p, |p|, 0, u);
      var b, i :| At(p, b, i) && p[b].body[i].uid == u;
      DroppedHasValue(CSE, p, b, i);
      var e, l := SharedWith(p, b, i);
    }
    forall b, i, k | Kept(p, ed, b, i) && 0 <= k < |p[b].body[i].args|
      ensures ScopedOperand(p, p0, ed, b, i, Resolve(p[b].body[i].uid, k, p[b].body[i].args[k], ed))
    {
      TargetsKept(p, d, b, i, k);
      EarlierOperand(p, d, b, i, k);
    }
    EdgesKept(p, p0, ed);
    SameDominators(p, RewriteProg(p, ed));
  }

  lemma EarlierOperand(p: Prog, d: map<nat, set<nat>>, b: nat, i: nat, k: nat)
    requires WellFormedUnder(p, d) && Ordered(p) && At(p, b, i) && k < |p[b].body[i].args|
    ensures OperandOk(p, map[], b, i, Resolved(CSE, p, b, i, k))
  {
    var a := p[b].body[i].args[k];
    assert NodeOk(p, d, b, i) && OperandOk(p, d, b, i, a);
    if a.Ref? {
      var c, j :| Defines(p, d, b, i, a, c, j);
      assert Defines(p, map[], b, i, a, c, j);
      if a.uid in Final(CSE, p).sub {
        DroppedHasValue(CSE, p, c, j);
        var e, l := SharedWith(p, c, j);
        assert Defines(p, map[], b, i, Resolved(CSE, p, b, i, k), e, l);
      }
    }
  }

  // The condition is exact: it holds just when the result is still well formed.
  lemma SharingDominatesExactly(p: Prog)
    requires WellFormed(p)
    ensures SharingDominates(p) <==> WellFormed(SweepProg(CSE, p))
  {
    if SharingDominates(p) { CsePreserves(p); }
    if WellFormed(SweepProg(CSE, p)) {
      var d, ed := Dominators(p), Final(CSE, p);
      WellFormedOrdered(p, d);
      CseSameDominators(p, d);
      SweepIsRewrite(CSE, p);
      forall b, i, k | Kept(p, ed, b, i) && 0 <= k < |p[b].body[i].args|
        ensures OperandOk(p, d, b, i, Resolved(CSE, p, b, i, k))
      {
        OperandBack(p, d, ed, b, i, k);
      }
    }
  }

  // An operand of the rewritten function, seen from the original.
  lemma OperandBack(p: Prog, d: map<nat, set<nat>>, ed: Edit, b: nat, i: nat, k: nat)
    requires WellFormedUnder(RewriteProg(p, ed), d) && Kept(p, ed, b, i) && k < |p[b].body[i].args|
    ensures OperandOk(p, d, b, i, Resolve(p[b].body[i].uid, k, p[b].body[i].args[k], ed))
  {
    var q, x := RewriteProg(p, ed), Place(p[b].body, ed, i);
    var v := Resolve(p[b].body[i].uid, k, p[b].body[i].args[k], ed);
    KeptAt(p, ed, b, i);
    assert q[b].body[x].args[k] == v;
    assert NodeOk(q, d, b, x) && OperandOk(q, d, b, x, v);
    if v.Ref? {
      var c, l :| Defines(q, d, b, x, v, c, l);
      var j := OriginAt(p, ed, c, l);
      if c == b && i <= j { PlaceMonotone(p[b].body, ed, i, j); }
      assert Defines(p, d, b, i, v, c, j);
    }
  }

  // (c, j) takes the place of the dropped (b, i).
  ghost predicate Shares(p: Prog, b: int, i: int, c: int, j: int) {
    Dropped(CSE, p, b, i) && At(p, c, j) && p[b].body[i].uid in Final(CSE, p).sub &&
    Final(CSE, p).sub[p[b].body[i].uid] == Ref(p[c].body[j].uid, p[b].body[i].ty)
  }

  // Each first occurrence strictly dominates the duplicates dropped for it.
  ghost predicate FirstsDominate(p: Prog) {
    forall b, i, c, j :: Shares(p, b, i, c, j) && b in Dominators(p) ==> Avail(p, Dominators(p), b, i, c, j)
  }

  lemma FirstsDominateSuffices(p: Prog)
    requires WellFormed(p) && FirstsDominate(p)
    ensures SharingDominates(p)
  {
    var d, ed := Dominators(p), Final(CSE, p);
    WellFormedOrdered(p, d);
    forall b, i, k | Kept(p, ed, b, i) && 0 <= k < |p[b].body[i].args|
      ensures OperandOk(p, d, b, i, Resolved(CSE, p, b, i, k))
    {
      FirstsOperand(p, d, b, i, k);
    }
  }

  lemma FirstsOperand(p: Prog, d: map<nat, set<nat>>, b: nat, i: nat, k: nat)
    requires WellFormedUnder(p, d) && Ordered(p) && d == Dominators(p) && FirstsDominate(p)
    requires At(p, b, i) && k < |p[b].body[i].args|
    ensures OperandOk(p, d, b, i, Resolved(CSE, p, b, i, k))
  {
    hide Dominators, Final, WellFormedUnder, Ordered, FirstsDominate, KeyOf, Dropped, Avail, DomOk;
    var a := p[b].body[i].args[k];
    OperandIsOk(p, d, b, i, k);
    if a.Ref? && a.uid in Final(CSE, p).sub {
      var c, j :| Defines(p, d, b, i, a, c, j);
      DroppedHasValue(CSE, p, c, j);
      var e, l := SharedWith(p, c, j);
      FirstAvailable(p, d, b, i, c, j, e, l);
      assert Defines(p, d, b, i, Resolved(CSE, p, b, i, k), e, l);
    }
  }

  lemma FirstAvailable(p: Prog, d: map<nat, set<nat>>, b: nat, i: nat, c: int, j: int, e: int, l: int)
    requires WellFormedUnder(p, d) && d == Dominators(p) && FirstsDominate(p) && Shares(p, c, j, e, l) && At(p, b, i)
    requires b in d ==> Avail(p, d, b, i, c, j)
    ensures b in d ==> Avail(p, d, b, i, e, l)
  {
    hide Dominators, Shares;
    if b in d {
      AvailOrder(p, d, b, i, c, j, e, l);
      assert Avail(p, d, c, j, e, l);
    }
  }

  // Of two blocks that hold the same arithmetic operation, the earlier in the layout strictly
  // dominates the later, if that is reachable at all. Loops are allowed.
  ghost predicate OperationsDominate(p: Prog) {
    forall b, i, c, j | At(p, b, i) && At(p, c, j) && c < b && b in Dominators(p) &&
      SameOperation(p[b].body[i], p[c].body[j]) :: c in Dominators(p)[b]
  }

  predicate SameOperation(n: Node, m: Node) { IsArith(n.op) && n.op == m.op && n.ty == m.ty }

  // A condition on the function as it is given.
  lemma OperationsShare(p: Prog)
    requires WellFormed(p) && OperationsDominate(p)
    ensures SharingDominates(p)
  {
    WellFormedOrdered(p, Dominators(p));
    forall b, i, c, j | Shares(p, b, i, c, j) && b in Dominators(p) ensures Avail(p, Dominators(p), b, i, c, j) {
      OperationShared(p, b, i, c, j);
    }
    FirstsDominateSuffices(p);
  }

  lemma OperationShared(p: Prog, b: nat, i: nat, c: nat, j: nat)
    requires Ordered(p) && OperationsDominate(p) && Shares(p, b, i, c, j) && b in Dominators(p)
    ensures Avail(p, Dominators(p), b, i, c, j)
  {
    DroppedDecision(CSE, p, b, i);
    var e, l := SharedWith(p, b, i);
    hide Dominators, Final, Dropped, KeyOf;
    assert e == c && l == j;
    assert c < b ==> SameOperation(p[b].body[i], p[c].body[j]);
  }

  // No rewriting makes the condition fail.
  lemma OperationsKept(p: Prog, ed: Edit)
    requires OperationsDominate(p) && Dominators(RewriteProg(p, ed)) == Dominators(p)
    ensures OperationsDominate(RewriteProg(p, ed))
  {
    var q := RewriteProg(p, ed);
    forall b, x, c, y | At(q, b, x) && At(q, c, y) && c < b && b in Dominators(q) &&
      SameOperation(q[b].body[x], q[c].body[y])
      ensures c in Dominators(q)[b]
    {
      var i := OriginAt(p, ed, b, x);
      var j := OriginAt(p, ed, c, y);
      assert SameOperation(p[b].body[i], p[c].body[j]);
    }
  }

  lemma SingleBlockDominates(p: Prog)
    requires |p| == 1
    ensures OperationsDominate(p)
  {}

  // In a single block, earlier is enough.
  lemma SingleBlockShares(p: Prog)
    requires WellFormed(p) && |p| == 1
    ensures SharingDominates(p)
  {
    SingleBlockDominates(p);
    OperationsShare(p);
  }

  // ----- where sharing goes wrong: duplicates in sibling blocks -----

  // entry: br (a0 < a1), left, right    left: ret (a0 + a1)    right: ret (a0 + a1)
  const SIBLINGS: Prog := [
    Block("entry", [
      Node(0, CMP, I32, [Const(I32, Text("lt"), Written(0)), Arg(0), Arg(1)]),
      Node(1, BR, VOID, [Ref(0, I32), Const(PTR, Text("left"), Written(1)), Const(PTR, Text("right"), Written(2))])]),
    Block("left", [Node(2, ADD, I64, [Arg(0), Arg(1)]), Node(3, RET, VOID, [Ref(2, I64)])]),
    Block("right", [Node(4, ADD, I64, [Arg(0), Arg(1)]), Node(5, RET, VOID, [Ref(4, I64)])])]

  const SHARED: Prog := SIBLINGS[2 := Block("right", [Node(5, RET, VOID, [Ref(2, I64)])])]

  const SIBLINGS_KEY: Key := Key(ADD, I64, [Arg(0), Arg(1)])

  lemma EntrySwept()
    ensures StateAt(CSE, SIBLINGS, 1, 0) == EMPTY && OutputTo(CSE, SIBLINGS, 0, 2) == SIBLINGS[0].body
  {
    var p := SIBLINGS;
    assert Operands(CSE, p[0].body[0], EMPTY) == p[0].body[0].args;
    assert Operands(CSE, p[0].body[1], EMPTY) == p[0].body[1].args;
    assert StateAt(CSE, p, 0, 1) == EMPTY && StateAt(CSE, p, 0, 2) == EMPTY;
    assert OutputTo(CSE, p, 0, 1) == p[0].body[..1];
  }

  function AfterLeft(): Sweep.State { State(map[], map[SIBLINGS_KEY := Ref(2, I64)]) }

  lemma LeftSwept()
    requires StateAt(CSE, SIBLINGS, 1, 0) == EMPTY
    ensures StateAt(CSE, SIBLINGS, 2, 0) == AfterLeft() && OutputTo(CSE, SIBLINGS, 1, 2) == SIBLINGS[1].body
  {
    var p := SIBLINGS;
    assert Operands(CSE, p[1].body[0], EMPTY) == [Arg(0), Arg(1)];
    assert KeyOf(ADD, I64, [Arg(0), Arg(1)]) == SIBLINGS_KEY;
    assert StateAt(CSE, p, 1, 1) == AfterLeft();
    assert Operands(CSE, p[1].body[1], AfterLeft()) == [Ref(2, I64)];
    assert OutputTo(CSE, p, 1, 1) == p[1].body[..1];
  }

  lemma RightSwept()
    requires StateAt(CSE, SIBLINGS, 2, 0) == AfterLeft()
    ensures OutputTo(CSE, SIBLINGS, 2, 2) == SHARED[2].body
  {
    var p := SIBLINGS;
    assert Operands(CSE, p[2].body[0], AfterLeft()) == [Arg(0), Arg(1)];
    assert KeyOf(ADD, I64, [Arg(0), Arg(1)]) == SIBLINGS_KEY;
    var s := State(map[4 := Ref(2, I64)], AfterLeft().seen);
    assert StateAt(CSE, p, 2, 1) == s;
    assert Operands(CSE, p[2].body[1], s) == [Ref(2, I64)];
    assert OutputTo(CSE, p, 2, 1) == [];
  }

  lemma SiblingsSweep()
    ensures SweepProg(CSE, SIBLINGS) == SHARED
  {
    EntrySwept();
    LeftSwept();
    RightSwept();
    hide StateAt, OutputTo;
  }

  lemma SiblingsStructured()
    ensures Structured(SIBLINGS)
  {
    SiblingsShaped();
    hide BlockShape;
    forall b, i | At(SIBLINGS, b, i) ensures SIBLINGS[b].body[i].uid == 2 * b + i {}
  }

  lemma SiblingsShaped()
    ensures BlockShape(SIBLINGS[0]) && BlockShape(SIBLINGS[1]) && BlockShape(SIBLINGS[2])
  {
    TwoNodes(SIBLINGS[0]);
    TwoNodes(SIBLINGS[1]);
    TwoNodes(SIBLINGS[2]);
    hide BlockShape;
  }

  lemma TwoNodes(blk: Block)
    requires |blk.body| == 2 && Shape(blk.body[0]) && Shape(blk.body[1])
    requires !IsTerminator(blk.body[0].op) && IsTerminator(blk.body[1].op)
    ensures BlockShape(blk)
  {
    hide Shape;
  }

  lemma SiblingsWellFormed()
    ensures WellFormed(SIBLINGS)
  {
    var p := SIBLINGS;
    DominatorsOk(p);
    SiblingsStructured();
    hide DomOk, Dominators, Structured, Dominates;
    var d := Dominators(p);
    forall b, i | At(p, b, i) ensures NodeOk(p, d, b, i) {
      forall v | v in p[b].body[i].args ensures OperandOk(p, d, b, i, v) {
        if v.Ref? { assert Defines(p, d, b, i, v, b, 0); }
      }
    }
  }

  lemma SiblingsBranch(p: Prog)
    requires p == SIBLINGS || p == SHARED
    ensures Run(p, [2, 1], map[], 2) == Running(2, 0, map[0 := 0], map[])
  {
    SiblingsCompare(p);
    SiblingsJump(p);
    hide Step;
    RunStep(p, [2, 1], map[], 0);
    RunStep(p, [2, 1], map[], 1);
  }

  lemma SiblingsCompare(p: Prog)
    requires p == SIBLINGS || p == SHARED
    ensures Step(p, [2, 1], Start(map[])) == Running(0, 1, map[0 := 0], map[])
  {}

  lemma SiblingsJump(p: Prog)
    requires p == SIBLINGS || p == SHARED
    ensures Step(p, [2, 1], Running(0, 1, map[0 := 0], map[])) == Running(2, 0, map[0 := 0], map[])
  {
    assert Target(p, "right") == Some(2);
  }

  lemma SiblingsReturn()
    ensures Run(SIBLINGS, [2, 1], map[], 4) == Returned(Some(3), map[])
  {
    SiblingsBranch(SIBLINGS);
    SiblingsAdd();
    SiblingsRet();
    hide Step;
    RunStep(SIBLINGS, [2, 1], map[], 2);
    RunStep(SIBLINGS, [2, 1], map[], 3);
  }

  lemma SiblingsAdd()
    ensures Step(SIBLINGS, [2, 1], Running(2, 0, map[0 := 0], map[])) == Running(2, 1, map[0 := 0, 4 := 3], map[])
  {}

  lemma SiblingsRet()
    ensures Step(SIBLINGS, [2, 1], Running(2, 1, map[0 := 0, 4 := 3], map[])) == Returned(Some(3), map[])
  {}

  lemma SharedFaults()
    ensures Run(SHARED, [2, 1], map[], 3) == Fault
  {
    SiblingsBranch(SHARED);
    assert Step(SHARED, [2, 1], Running(2, 0, map[0 := 0], map[])) == Fault;
    RunStep(SHARED, [2, 1], map[], 2);
  }

  // On (2, 1) the original returns 3; after elimination the interpreter finds no value
  // for the instruction of the block that did not run.
  lemma SiblingsLoseTheirMeaning()
    ensures WellFormed(SIBLINGS) && !SharingDominates(SIBLINGS)
    ensures Run(SIBLINGS, [2, 1], map[], 4) == Returned(Some(3), map[])
    ensures Run(SweepProg(CSE, SIBLINGS), [2, 1], map[], 3) == Fault
    ensures !Refines(SIBLINGS, SweepProg(CSE, SIBLINGS))
  {
    SiblingsSweep();
    SiblingsWellFormed();
    SiblingsReturn();
    SharedFaults();
    hide Run, WellFormed, SharingDominates, SweepProg;
    var p, q, args := SIBLINGS, SHARED, [2, 1];
    if Refines(p, q) {
      var m :| EndsAlike(p, q, args, map[], 4, m);
      if m < 3 { HaltedStays(q, args, map[], m, 3); } else { HaltedStays(q, args, map[], 3, m); }
    }
    if SharingDominates(p) { CsePreserves(p); }
  }
}
