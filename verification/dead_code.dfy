// Dead code elimination: delete unused value instructions until none is left.

module DeadCode {
  import opened Options
  import opened Ir
  import opened Interp
  import opened Cfg
  import opened RunInvariant
  import opened Rewrite
  import opened Refinement
  import opened Sweeping

  predicate HasSideEffect(op: Opcode) { op == STORE || IsTerminator(op) }

  // Never deleted.
  predicate IsRoot(n: Node) { HasSideEffect(n.op) || n.ty == VOID }

  predicate IsDead(n: Node, used: set<nat>) { !IsRoot(n) && n.uid !in used }

  // The instructions that the first k operands name.
  function RefsTo(args: seq<Value>, k: nat): (r: set<nat>)
    requires k <= |args|
    ensures forall u :: u in r <==> exists a :: 0 <= a < k && args[a].Ref? && args[a].uid == u
  {
    if k == 0 then {}
    else RefsTo(args, k - 1) + (if args[k - 1].Ref? then {args[k - 1].uid} else {})
  }

  function Refs(n: Node): set<nat> { RefsTo(n.args, |n.args|) }

  // The instructions used by what stands before position (b, i).
  function UsesTo(p: Prog, b: nat, i: nat): set<nat>
    requires b <= |p| && i <= (if b < |p| then |p[b].body| else 0)
    decreases b, i
  {
    if i > 0 then UsesTo(p, b, i - 1) + Refs(p[b].body[i - 1])
    else if b > 0 then UsesTo(p, b - 1, |p[b - 1].body|)
    else {}
  }

  function Uses(p: Prog): set<nat> { UsesTo(p, |p|, 0) }

  function LiveTo(body: seq<Node>, used: set<nat>, i: nat): (r: seq<Node>)
    requires i <= |body|
    ensures |r| <= i
  {
    if i == 0 then []
    else LiveTo(body, used, i - 1) + (if IsDead(body[i - 1], used) then [] else [body[i - 1]])
  }

  // One round of the loop.
  function Round(p: Prog): (q: Prog)
    ensures |q| == |p|
    ensures forall b :: 0 <= b < |p| ==> q[b] == Block(p[b].name, LiveTo(p[b].body, Uses(p), |p[b].body|))
  {
    seq(|p|, b requires 0 <= b < |p| => Block(p[b].name, LiveTo(p[b].body, Uses(p), |p[b].body|)))
  }

  // The pass: rounds until nothing changes. The instruction count bounds them.
  function Dce(p: Prog): Prog
    decreases Count(p)
  {
    if Count(Round(p)) < Count(p) then Dce(Round(p)) else Round(p)
  }

  // ----- rounds and their fixed point -----

  lemma {:induction false} LiveAll(body: seq<Node>, used: set<nat>, i: nat)
    requires i <= |body| && |LiveTo(body, used, i)| == i
    ensures LiveTo(body, used, i) == body[..i]
    ensures forall j :: 0 <= j < i ==> !IsDead(body[j], used)
  {
    if i > 0 { LiveAll(body, used, i - 1); }
  }

  lemma {:induction false} RoundShrinks(p: Prog, b: nat)
    requires b <= |p|
    ensures CountTo(Round(p), b) <= CountTo(p, b)
    ensures CountTo(Round(p), b) == CountTo(p, b) ==>
      forall c :: 0 <= c < b ==>
        Round(p)[c] == p[c] && forall j :: 0 <= j < |p[c].body| ==> !IsDead(p[c].body[j], Uses(p))
  {
    if b > 0 {
      RoundShrinks(p, b - 1);
      if CountTo(Round(p), b) == CountTo(p, b) {
        var body := p[b - 1].body;
        LiveAll(body, Uses(p), |body|);
        assert body[..|body|] == body;
      }
    }
  }

  lemma RoundSettles(p: Prog)
    ensures Count(Round(p)) <= Count(p)
    ensures Count(Round(p)) == Count(p) ==>
      Round(p) == p && forall b, i :: At(p, b, i) ==> !IsDead(p[b].body[i], Uses(p))
  {
    RoundShrinks(p, |p|);
  }

  lemma {:induction false} DceSettles(p: Prog)
    ensures Count(Dce(p)) <= Count(p)
    ensures Round(Dce(p)) == Dce(p)
    ensures Count(Dce(p)) == Count(p) ==> Dce(p) == p
    decreases Count(p)
  {
    RoundSettles(p);
    if Count(Round(p)) < Count(p) { DceSettles(Round(p)); }
  }

  lemma DceIdempotent(p: Prog)
    ensures Dce(Dce(p)) == Dce(p)
  {
    DceSettles(p);
  }

  // ----- a round is a rewriting -----

  ghost function DeadOf(p: Prog): (r: set<nat>)
    ensures forall u :: u in r <==> exists b, i :: At(p, b, i) && IsDead(p[b].body[i], Uses(p)) && p[b].body[i].uid == u
  {
    set b, i | 0 <= b < |p| && 0 <= i < |p[b].body| && IsDead(p[b].body[i], Uses(p)) :: p[b].body[i].uid
  }

  function Deleting(drop: set<nat>): Edit { Edit(false, drop, map[]) }

  lemma DeletingKeeps(n: Node, drop: set<nat>)
    ensures Rewritten(n, Deleting(drop)) == n
  {
    assert ResolveAll(n, Deleting(drop)) == n.args;
  }

  lemma DeadUid(p: Prog, b: int, i: int)
    requires Distinct(p) && At(p, b, i)
    ensures p[b].body[i].uid in DeadOf(p) <==> IsDead(p[b].body[i], Uses(p))
  {}

  lemma {:induction false} LiveIsPrefix(p: Prog, b: nat, i: nat)
    requires Distinct(p) && b < |p| && i <= |p[b].body|
    ensures LiveTo(p[b].body, Uses(p), i) == Prefix(p[b].body, Deleting(DeadOf(p)), i)
  {
    if i > 0 {
      LiveIsPrefix(p, b, i - 1);
      DeadUid(p, b, i - 1);
      DeletingKeeps(p[b].body[i - 1], DeadOf(p));
    }
  }

  lemma RoundIsRewrite(p: Prog)
    requires Distinct(p)
    ensures Round(p) == RewriteProg(p, Deleting(DeadOf(p)))
  {
    forall b | 0 <= b < |p| ensures Round(p)[b] == RewriteProg(p, Deleting(DeadOf(p)))[b] {
      LiveIsPrefix(p, b, |p[b].body|);
    }
  }

  lemma {:induction false} UsedInside(p: Prog, b: nat, i: nat, u: nat)
    requires b <= |p| && i <= (if b < |p| then |p[b].body| else 0)
    ensures u in UsesTo(p, b, i) <==> exists c, j :: At(p, c, j) && Before(c, j, b, i) && u in Refs(p[c].body[j])
    decreases b, i
  {
    if i > 0 { UsedInside(p, b, i - 1, u); }
    else if b > 0 { UsedInside(p, b - 1, |p[b - 1].body|, u); }
  }

  lemma RoundSound(p: Prog, d: map<nat, set<nat>>)
    requires WellFormedUnder(p, d)
    ensures Sound(p, d, Deleting(DeadOf(p)))
  {
    var ed := Deleting(DeadOf(p));
    forall b, i | At(p, b, i) && p[b].body[i].uid in ed.drop ensures HasValue(p[b].body[i].op) {
      DeadUid(p, b, i);
      assert BlockShape(p[b]) && Shape(p[b].body[i]);
    }
    forall b, i, k | Kept(p, ed, b, i) && 0 <= k < |p[b].body[i].args|
      ensures ScopedOperand(p, d, ed, b, i, Resolve(p[b].body[i].uid, k, p[b].body[i].args[k], ed))
    {
      var v := p[b].body[i].args[k];
      assert NodeOk(p, d, b, i) && OperandOk(p, d, b, i, v);
      if v.Ref? { UsedInside(p, |p|, 0, v.uid); }
    }
    forall args, env, b, i | Facts(p, d, args, env, b, i) && b in d && Kept(p, ed, b, i)
      ensures SameValues(p[b].body[i], ed, args, env) {}
  }

  // Main result: elimination preserves meaning and well-formedness.
  lemma {:induction false} DcePreserves(p: Prog)
    requires WellFormed(p)
    ensures WellFormed(Dce(p)) && SameMeaning(p, Dce(p)) && Dominators(Dce(p)) == Dominators(p)
    decreases Count(p)
  {
    var d, ed, q := Dominators(p), Deleting(DeadOf(p)), Round(p);
    RoundIsRewrite(p);
    RoundSound(p, d);
    RewritePreserves(p, d, ed);
    RewriteWellFormed(p, d, ed);
    SameDominators(p, RewriteProg(p, ed));
    if Count(q) < Count(p) {
      DcePreserves(q);
      SameMeaningTransitive(p, q, Dce(q));
    }
  }

  // ----- what is kept: roots and everything their operands reach -----

  ghost predicate Occurs(p: Prog, n: Node) { exists b, i :: At(p, b, i) && p[b].body[i] == n }

  // For some operand values and some memory the instruction writes memory, jumps or returns.
  ghost predicate Acts(n: Node) {
    exists vals, mem :: |vals| == |n.args| && var e := Effects(n.op, vals, mem); e.Write? || e.Goto? || e.Return?
  }

  // Only roots act, and every well-shaped root does.
  lemma RootsAct(n: Node)
    ensures Acts(n) ==> IsRoot(n)
    ensures Shape(n) ==> (Acts(n) <==> IsRoot(n))
  {
    if Acts(n) {
      var vals, mem :| |vals| == |n.args| && !Effects(n.op, vals, mem).Assign? && !Effects(n.op, vals, mem).Bad?;
      EffectKinds(n.op, vals, mem);
    }
    if Shape(n) && IsRoot(n) {
      var number, text := Some(Num(0)), Some(Text(""));
      match n.op
      case STORE => assert Effects(STORE, [number, number, number], map[0 := [0]]).Write?;
      case JMP => assert Effects(JMP, [text], map[]).Goto?;
      case BR => assert Effects(BR, [number, text, text], map[]).Goto?;
      case RET =>
        assert Effects(RET, [], map[]).Return? && Effects(RET, [number], map[]).Return?;
        assert |n.args| == |if |n.args| == 0 then [] else [number]|;
    }
  }

  // From an instruction that acts, each instruction an operand of the one before.
  ghost predicate Chain(p: Prog, c: seq<Node>) {
    |c| > 0 && Acts(c[0]) && (forall k :: 0 <= k < |c| ==> Occurs(p, c[k])) &&
    (forall k :: 0 <= k < |c| - 1 ==> c[k + 1].uid in Refs(c[k]))
  }

  ghost predicate ChainTo(p: Prog, c: seq<Node>, n: Node) { Chain(p, c) && c[|c| - 1] == n }

  ghost predicate Needed(p: Prog, n: Node) { exists c :: ChainTo(p, c, n) }

  ghost function Unneeded(p: Prog): (r: set<nat>)
    ensures forall u :: u in r <==> exists b, i :: At(p, b, i) && !Needed(p, p[b].body[i]) && p[b].body[i].uid == u
  {
    set b, i | 0 <= b < |p| && 0 <= i < |p[b].body| && !Needed(p, p[b].body[i]) :: p[b].body[i].uid
  }

  lemma OccursKept(p: Prog, drop: set<nat>, n: Node)
    ensures Occurs(RewriteProg(p, Deleting(drop)), n) <==> Occurs(p, n) && n.uid !in drop
  {
    var q := RewriteProg(p, Deleting(drop));
    if Occurs(q, n) {
      var b, k :| At(q, b, k) && q[b].body[k] == n;
      var i := OriginAt(p, Deleting(drop), b, k);
      DeletingKeeps(p[b].body[i], drop);
    }
    if Occurs(p, n) && n.uid !in drop {
      var b, i :| At(p, b, i) && p[b].body[i] == n;
      KeptAt(p, Deleting(drop), b, i);
      DeletingKeeps(n, drop);
    }
  }

  // No instruction on a chain is dead, so chains survive a round.
  lemma ChainSurvives(p: Prog, c: seq<Node>)
    requires Distinct(p) && Chain(p, c)
    ensures Chain(Round(p), c)
  {
    RoundIsRewrite(p);
    hide Round, DeadOf, Distinct;
    forall k | 0 <= k < |c| ensures Occurs(Round(p), c[k]) {
      AliveOnChain(p, c, k);
      OccursKept(p, DeadOf(p), c[k]);
    }
  }

  lemma AliveOnChain(p: Prog, c: seq<Node>, k: nat)
    requires Distinct(p) && Chain(p, c) && k < |c|
    ensures Occurs(p, c[k]) && c[k].uid !in DeadOf(p)
  {
    var b, i :| At(p, b, i) && p[b].body[i] == c[k];
    DeadUid(p, b, i);
    RootsAct(c[0]);
    if k > 0 {
      var e, l :| At(p, e, l) && p[e].body[l] == c[k - 1];
      UsedInside(p, |p|, 0, c[k].uid);
    }
  }

  lemma NeededKept(p: Prog, n: Node)
    requires Distinct(p)
    ensures Needed(p, n) <==> Needed(Round(p), n)
  {
    RoundIsRewrite(p);
    if Needed(p, n) {
      var c :| ChainTo(p, c, n);
      ChainSurvives(p, c);
      assert ChainTo(Round(p), c, n);
    }
    if Needed(Round(p), n) {
      var c :| ChainTo(Round(p), c, n);
      forall k | 0 <= k < |c| ensures Occurs(p, c[k]) { OccursKept(p, DeadOf(p), c[k]); }
      assert ChainTo(p, c, n);
    }
  }

  lemma {:induction false} PrefixOfExtension(body: seq<Node>, n: Node, ed: Edit, i: nat)
    requires i <= |body|
    ensures Prefix(body + [n], ed, i) == Prefix(body, ed, i)
  {
    if i > 0 { PrefixOfExtension(body, n, ed, i - 1); }
  }

  function Without(body: seq<Node>, drop: set<nat>): seq<Node> { Prefix(body, Deleting(drop), |body|) }

  lemma WithoutLast(body: seq<Node>, n: Node, drop: set<nat>)
    ensures Without(body + [n], drop) == Without(body, drop) + (if n.uid in drop then [] else [n])
  {
    PrefixOfExtension(body, n, Deleting(drop), |body|);
    DeletingKeeps(n, drop);
  }

  // Deleting twice is deleting the union.
  lemma {:induction false} DeleteTwice(body: seq<Node>, a: set<nat>, a': set<nat>)
    ensures Without(Without(body, a), a') == Without(body, a + a')
  {
    if body != [] {
      var init, n := body[..|body| - 1], body[|body| - 1];
      assert body == init + [n];
      DeleteTwice(init, a, a');
      WithoutLast(init, n, a);
      WithoutLast(init, n, a + a');
      WithoutLast(Without(init, a), n, a');
      assert Without(init, a) + [] == Without(init, a);
    }
  }

  lemma DeleteUnion(p: Prog, a: set<nat>, a': set<nat>)
    ensures RewriteProg(RewriteProg(p, Deleting(a)), Deleting(a')) == RewriteProg(p, Deleting(a + a'))
  {
    var q := RewriteProg(p, Deleting(a));
    forall b | 0 <= b < |p| ensures RewriteProg(q, Deleting(a'))[b] == RewriteProg(p, Deleting(a + a'))[b] {
      DeleteTwice(p[b].body, a, a');
    }
  }

  // Where nothing is dead everything is needed: a used instruction's user stands later.
  lemma {:induction false} AllNeeded(p: Prog, b: nat, i: nat)
    requires Ordered(p) && Structured(p) && At(p, b, i)
    requires forall c, j :: At(p, c, j) ==> !IsDead(p[c].body[j], Uses(p))
    ensures Needed(p, p[b].body[i])
    decreases |p| - b, |p[b].body| - i
  {
    hide Uses, Ordered, Chain, Acts;
    var n := p[b].body[i];
    assert BlockShape(p[b]) && Shape(n);
    RootsAct(n);
    if IsRoot(n) {
      RootChain(p, n, b, i);
    } else {
      var c, j := UserAfter(p, b, i);
      AllNeeded(p, c, j);
      var h :| ChainTo(p, h, p[c].body[j]);
      LongerChain(p, h, p[c].body[j], n, b, i);
    }
  }

  lemma RootChain(p: Prog, n: Node, b: nat, i: nat)
    requires At(p, b, i) && p[b].body[i] == n && Acts(n)
    ensures ChainTo(p, [n], n)
  {
    assert Occurs(p, n);
  }

  lemma LongerChain(p: Prog, h: seq<Node>, m: Node, n: Node, b: nat, i: nat)
    requires ChainTo(p, h, m) && n.uid in Refs(m) && At(p, b, i) && p[b].body[i] == n
    ensures ChainTo(p, h + [n], n)
  {
    assert Occurs(p, n);
  }

  lemma UserAfter(p: Prog, b: nat, i: nat) returns (c: nat, j: nat)
    requires Ordered(p) && At(p, b, i) && !IsDead(p[b].body[i], Uses(p)) && !IsRoot(p[b].body[i])
    ensures At(p, c, j) && p[b].body[i].uid in Refs(p[c].body[j]) && Before(b, i, c, j)
  {
    UsedInside(p, |p|, 0, p[b].body[i].uid);
    hide Uses;
    c, j :| At(p, c, j) && p[b].body[i].uid in Refs(p[c].body[j]);
    assert OrderedNode(p, c, j);
  }

  // Exact result: what elimination keeps is what the roots reach, in the original order.
  lemma {:induction false} DceKeepsNeeded(p: Prog)
    requires WellFormed(p)
    ensures Dce(p) == RewriteProg(p, Deleting(Unneeded(p)))
    decreases Count(p)
  {
    var q := Round(p);
    var d := Dominators(p);
    WellFormedOrdered(p, d);
    RoundSettles(p);
    RoundIsRewrite(p);
    if Count(q) < Count(p) {
      RoundSound(p, d);
      RewriteWellFormed(p, d, Deleting(DeadOf(p)));
      SameDominators(p, q);
      DceKeepsNeeded(q);
      DeleteUnion(p, DeadOf(p), Unneeded(q));
      UnneededSplits(p);
    } else {
      forall b, i | At(p, b, i) ensures Needed(p, p[b].body[i]) { AllNeeded(p, b, i); }
      assert Unneeded(p) == {} && DeadOf(p) == {};
    }
  }

  lemma DeadUnneeded(p: Prog, u: nat)
    requires Distinct(p) && u in DeadOf(p)
    ensures u in Unneeded(p)
  {
    var b, i :| At(p, b, i) && IsDead(p[b].body[i], Uses(p)) && p[b].body[i].uid == u;
    var n := p[b].body[i];
    RoundIsRewrite(p);
    OccursKept(p, DeadOf(p), n);
    NeededKept(p, n);
    assert Needed(Round(p), n) ==> Occurs(Round(p), n);
  }

  lemma UnneededAfter(p: Prog, u: nat)
    requires Distinct(p) && u !in DeadOf(p)
    ensures u in Unneeded(Round(p)) <==> u in Unneeded(p)
  {
    var q := Round(p);
    RoundIsRewrite(p);
    if u in Unneeded(p) {
      var b, i :| At(p, b, i) && !Needed(p, p[b].body[i]) && p[b].body[i].uid == u;
      OccursKept(p, DeadOf(p), p[b].body[i]);
      NeededKept(p, p[b].body[i]);
    }
    if u in Unneeded(q) {
      var c, k :| At(q, c, k) && !Needed(q, q[c].body[k]) && q[c].body[k].uid == u;
      assert Occurs(q, q[c].body[k]);
      OccursKept(p, DeadOf(p), q[c].body[k]);
      NeededKept(p, q[c].body[k]);
    }
  }

  lemma UnneededSplits(p: Prog)
    requires Distinct(p)
    ensures DeadOf(p) + Unneeded(Round(p)) == Unneeded(p)
  {
    var q := Round(p);
    RoundIsRewrite(p);
    forall u ensures u in DeadOf(p) + Unneeded(q) <==> u in Unneeded(p) {
      if u in DeadOf(p) { DeadUnneeded(p, u); } else { UnneededAfter(p, u); }
    }
  }
}
