// What common subexpression elimination shares, said of the function it is given: an
// instruction is dropped when an earlier one computes the same expression.

module Sharing {
  import opened Options
  import opened Ir
  import opened Cfg
  import opened Refinement
  import opened Rewrite
  import opened Sweep
  import opened Sweeping
  import opened FoldReduce
  import opened Cse

  // ----- expressions -----

  // What an operand computes, down to constants, arguments and the instructions whose values
  // are not arithmetic.
  datatype Tree =
    | Opaque(uid: nat)
    | Number(ty: Type, lit: Literal)
    | Param(k: nat)
    | Apply(op: Opcode, ty: Type, args: seq<Tree>)

  function OperandTree(v: Value, trees: map<nat, Tree>): Tree {
    match v
    case Const(ty, lit, _) => Number(ty, lit)
    case Arg(k) => Param(k)
    case Ref(u, _) => if u in trees then trees[u] else Opaque(u)
  }

  function ArgTrees(args: seq<Value>, trees: map<nat, Tree>): (r: seq<Tree>)
    ensures |r| == |args| && forall k :: 0 <= k < |args| ==> r[k] == OperandTree(args[k], trees)
  {
    seq(|args|, k requires 0 <= k < |args| => OperandTree(args[k], trees))
  }

  // What elimination may share: arithmetic with a result.
  predicate Arithmetic(n: Node) { (n.op == ADD || n.op == SUB || n.op == MUL) && n.ty != VOID }

  function TreeOf(n: Node, trees: map<nat, Tree>): Tree {
    if Arithmetic(n) then Apply(n.op, n.ty, ArgTrees(n.args, trees)) else Opaque(n.uid)
  }

  // The expressions of all instructions before (b, i), by identity.
  function TreesTo(p: Prog, b: nat, i: nat): map<nat, Tree>
    requires b <= |p| && i <= (if b < |p| then |p[b].body| else 0)
    decreases b, i
  {
    if i > 0 then TreesTo(p, b, i - 1)[p[b].body[i - 1].uid := TreeOf(p[b].body[i - 1], TreesTo(p, b, i - 1))]
    else if b > 0 then TreesTo(p, b - 1, |p[b - 1].body|)
    else map[]
  }

  function Expression(p: Prog, b: nat, i: nat): Tree
    requires At(p, b, i)
  {
    TreeOf(p[b].body[i], TreesTo(p, b, i))
  }

  // Instruction (c, j) computes the same arithmetic expression as (b, i), and stands earlier.
  ghost predicate Repeats(p: Prog, b: int, i: int, c: int, j: int) {
    At(p, b, i) && At(p, c, j) && Before(c, j, b, i) && Arithmetic(p[b].body[i]) &&
    Expression(p, c, j) == Expression(p, b, i)
  }

  ghost predicate Duplicate(p: Prog, b: int, i: int) { exists c, j :: Repeats(p, b, i, c, j) }

  // The earliest instruction with the expression of (b, i); itself when there is none earlier.
  ghost predicate Earliest(p: Prog, b: int, i: int, c: int, j: int) {
    At(p, b, i) && At(p, c, j) && Expression(p, c, j) == Expression(p, b, i) &&
    (Repeats(p, b, i, c, j) || (c == b && j == i)) && !Duplicate(p, c, j)
  }

  // ----- keys stand for expressions -----

  // A value in a key, where only kept instructions are named.
  ghost predicate ArgStands(v: Value, x: Tree, s: State, trees: map<nat, Tree>) {
    match v
    case Const(ty, lit, tag) => x == Number(ty, lit) && tag == Written(0)
    case Arg(k) => x == Param(k)
    case Ref(u, ty) => ty == VOID && u in trees && u !in s.sub && trees[u] == x
  }

  ghost predicate KeyStands(key: Key, x: Tree, s: State, trees: map<nat, Tree>) {
    x.Apply? && key.op == x.op && key.ty == x.ty && |key.args| == |x.args| &&
    forall k :: 0 <= k < |x.args| ==> ArgStands(key.args[k], x.args[k], s, trees)
  }

  // Kept instructions have different expressions.
  ghost predicate KeptDiffer(s: State, trees: map<nat, Tree>) {
    forall u: nat, v: nat :: u in trees && v in trees && u !in s.sub && v !in s.sub && trees[u] == trees[v] ==> u == v
  }

  // A dropped instruction's replacement is kept and computes the same expression.
  ghost predicate SubStands(s: State, trees: map<nat, Tree>) {
    forall u: nat :: u in s.sub ==>
      u in trees && s.sub[u].Ref? && s.sub[u].uid in trees && s.sub[u].uid !in s.sub && trees[s.sub[u].uid] == trees[u]
  }

  ghost predicate SeenStands(s: State, trees: map<nat, Tree>) {
    forall key :: key in s.seen ==> SeenKey(key, s, trees)
  }

  ghost predicate SeenKey(key: Key, s: State, trees: map<nat, Tree>)
    requires key in s.seen
  {
    var v := s.seen[key];
    v.Ref? && v.uid in trees && v.uid !in s.sub && KeyStands(key, trees[v.uid], s, trees)
  }

  // Every kept arithmetic instruction has its key among those seen.
  ghost predicate AllSeen(s: State, trees: map<nat, Tree>) {
    forall u: nat :: u in trees && u !in s.sub && trees[u].Apply? ==>
      exists key :: key in s.seen && KeyStands(key, trees[u], s, trees)
  }

  ghost predicate NodeTrees(trees: map<nat, Tree>) {
    forall u: nat :: u in trees ==> trees[u].Apply? || trees[u] == Opaque(u)
  }

  ghost predicate Agree(s: State, trees: map<nat, Tree>) {
    KeptDiffer(s, trees) && SubStands(s, trees) && SeenStands(s, trees) && AllSeen(s, trees) && NodeTrees(trees)
  }

  // One key stands for one expression, and one expression has one key.
  lemma KeysDetermine(k1: Key, x1: Tree, k2: Key, x2: Tree, s: State, trees: map<nat, Tree>)
    requires KeyStands(k1, x1, s, trees) && KeyStands(k2, x2, s, trees) && KeptDiffer(s, trees) && NodeTrees(trees)
    ensures k1 == k2 <==> x1 == x2
  {
    if k1 == k2 {
      forall k | 0 <= k < |x1.args| ensures x1.args[k] == x2.args[k] {
        assert ArgStands(k1.args[k], x1.args[k], s, trees) && ArgStands(k2.args[k], x2.args[k], s, trees);
      }
      assert x1.args == x2.args;
    }
    if x1 == x2 {
      forall k | 0 <= k < |k1.args| ensures k1.args[k] == k2.args[k] {
        assert ArgStands(k1.args[k], x1.args[k], s, trees) && ArgStands(k2.args[k], x2.args[k], s, trees);
      }
      assert k1.args == k2.args;
    }
  }

  // The key of a visited instruction stands for its expression.
  lemma NodeKeyStands(n: Node, s: State, trees: map<nat, Tree>)
    requires SubStands(s, trees) && Shareable(n) && ReadsIn(n, trees)
    ensures KeyStands(KeyOf(n.op, n.ty, Operands(CSE, n, s)), TreeOf(n, trees), s, trees)
  {
    var r := Operands(CSE, n, s);
    forall k | 0 <= k < |n.args| ensures ArgStands(KeyOfValue(r[k]), OperandTree(n.args[k], trees), s, trees) {
      assert n.args[k] in n.args;
    }
  }

  lemma SeenByTree(key: Key, x: Tree, s: State, trees: map<nat, Tree>)
    requires Agree(s, trees) && KeyStands(key, x, s, trees)
    ensures key in s.seen <==> exists u: nat :: u in trees && trees[u] == x
    ensures key in s.seen ==> KeptWith(s.seen[key], x, s, trees)
  {
    hide KeyStands, NodeTrees, KeptDiffer, SubStands, SeenStands, AllSeen;
    if key in s.seen { SeenHasTree(key, x, s, trees); }
    if u: nat :| u in trees && trees[u] == x { TreeIsSeen(key, x, s, trees, u); }
  }

  // A kept value with this expression.
  ghost predicate KeptWith(v: Value, x: Tree, s: State, trees: map<nat, Tree>) {
    v.Ref? && v.uid in trees && v.uid !in s.sub && trees[v.uid] == x
  }

  lemma SeenHasTree(key: Key, x: Tree, s: State, trees: map<nat, Tree>)
    requires SeenStands(s, trees) && KeptDiffer(s, trees) && NodeTrees(trees) && KeyStands(key, x, s, trees) &&
      key in s.seen
    ensures KeptWith(s.seen[key], x, s, trees)
  {
    hide KeyStands, NodeTrees, KeptDiffer;
    assert SeenKey(key, s, trees);
    KeysDetermine(key, x, key, trees[s.seen[key].uid], s, trees);
  }

  lemma TreeIsSeen(key: Key, x: Tree, s: State, trees: map<nat, Tree>, u: nat)
    requires SubStands(s, trees) && AllSeen(s, trees) && KeptDiffer(s, trees) && NodeTrees(trees)
    requires KeyStands(key, x, s, trees) && u in trees && trees[u] == x
    ensures key in s.seen
  {
    StandsIsApply(key, x, s, trees);
    hide KeyStands, NodeTrees, KeptDiffer;
    var w := if u in s.sub then s.sub[u].uid else u;
    var k2 :| k2 in s.seen && KeyStands(k2, trees[w], s, trees);
    KeysDetermine(key, x, k2, trees[w], s, trees);
  }

  lemma StandsIsApply(key: Key, x: Tree, s: State, trees: map<nat, Tree>)
    requires KeyStands(key, x, s, trees)
    ensures x.Apply?
  {}

  function NodeKey(n: Node, s: State): Key { KeyOf(n.op, n.ty, Operands(CSE, n, s)) }

  lemma DecisionIs(n: Node, s: State)
    ensures Decision(CSE, n, s) == if Shareable(n) && NodeKey(n, s) in s.seen then Some(s.seen[NodeKey(n, s)]) else None
    ensures Visit(CSE, n, s) ==
      if Decision(CSE, n, s).Some? then s.(sub := s.sub[n.uid := Decision(CSE, n, s).value])
      else if Shareable(n) then s.(seen := s.seen[NodeKey(n, s) := Ref(n.uid, n.ty)])
      else s
  {
    hide KeyOf, Operands, Shareable;
  }

  lemma TreeIs(n: Node, trees: map<nat, Tree>)
    ensures Shareable(n) ==> TreeOf(n, trees).Apply?
    ensures !Shareable(n) ==> TreeOf(n, trees) == Opaque(n.uid)
  {
    hide ArgTrees;
  }

  ghost predicate ReadsIn(n: Node, trees: map<nat, Tree>) {
    forall v: Value :: v in n.args && v.Ref? ==> v.uid in trees
  }

  // The sweep drops an instruction exactly when its expression is there already.
  lemma DecidesByTree(n: Node, s: State, trees: map<nat, Tree>)
    requires Agree(s, trees) && ReadsIn(n, trees)
    ensures Decision(CSE, n, s).Some? <==> Shareable(n) && exists u: nat :: u in trees && trees[u] == TreeOf(n, trees)
  {
    hide Agree, TreeOf, Decision, Visit, Shareable, NodeKey;
    DecisionIs(n, s);
    if Shareable(n) {
      KeyOfNode(n, s, trees);
      SeenByTree(NodeKey(n, s), TreeOf(n, trees), s, trees);
    }
  }

  lemma KeyOfNode(n: Node, s: State, trees: map<nat, Tree>)
    requires Agree(s, trees) && Shareable(n) && ReadsIn(n, trees)
    ensures KeyStands(NodeKey(n, s), TreeOf(n, trees), s, trees)
  {
    assert SubStands(s, trees);
    hide Agree, TreeOf, Shareable, KeyStands, KeyOf, Operands;
    NodeKeyStands(n, s, trees);
  }

  // ----- one visit -----

  // Known values stay known, and none known so far is dropped.
  ghost predicate Grows(s: State, trees: map<nat, Tree>, s': State, trees': map<nat, Tree>) {
    forall u: nat :: u in trees ==> u in trees' && trees'[u] == trees[u] && (u in s'.sub <==> u in s.sub)
  }

  lemma KeyStandsLater(key: Key, x: Tree, s: State, trees: map<nat, Tree>, s': State, trees': map<nat, Tree>)
    requires KeyStands(key, x, s, trees) && Grows(s, trees, s', trees')
    ensures KeyStands(key, x, s', trees')
  {
    forall k | 0 <= k < |x.args| ensures ArgStands(key.args[k], x.args[k], s', trees') {
      assert ArgStands(key.args[k], x.args[k], s, trees);
    }
  }

  lemma SeenLater(s: State, trees: map<nat, Tree>, s': State, trees': map<nat, Tree>, key: Key)
    requires SeenStands(s, trees) && Grows(s, trees, s', trees') && key in s.seen && key in s'.seen &&
      s'.seen[key] == s.seen[key]
    ensures SeenKey(key, s', trees')
  {
    hide KeyStands;
    assert SeenKey(key, s, trees);
    KeyStandsLater(key, trees[s.seen[key].uid], s, trees, s', trees');
  }

  lemma AllSeenLater(s: State, trees: map<nat, Tree>, s': State, trees': map<nat, Tree>, u: nat)
    requires AllSeen(s, trees) && Grows(s, trees, s', trees') && s.seen.Keys <= s'.seen.Keys
    requires u in trees && u !in s.sub && trees[u].Apply?
    ensures exists key :: key in s'.seen && KeyStands(key, trees'[u], s', trees')
  {
    hide KeyStands;
    var key :| key in s.seen && KeyStands(key, trees[u], s, trees);
    KeyStandsLater(key, trees[u], s, trees, s', trees');
  }

  lemma NewIsFree(s: State, trees: map<nat, Tree>, uid: nat)
    requires SubStands(s, trees) && uid !in trees
    ensures uid !in s.sub
  {}

  // Adding one new expression, dropped or unlike every kept one.
  lemma DifferStep(s: State, trees: map<nat, Tree>, s': State, uid: nat, x: Tree)
    requires KeptDiffer(s, trees) && Grows(s, trees, s', trees[uid := x])
    requires uid in s'.sub || forall u: nat :: u in trees ==> trees[u] != x
    ensures KeptDiffer(s', trees[uid := x])
  {}

  lemma SubStep(s: State, trees: map<nat, Tree>, s': State, uid: nat, x: Tree)
    requires SubStands(s, trees) && Grows(s, trees, s', trees[uid := x]) && uid !in trees
    requires s'.sub == s.sub ||
      (s'.sub.Keys == s.sub.Keys + {uid} && KeptWith(s'.sub[uid], x, s, trees) && s'.sub == s.sub[uid := s'.sub[uid]])
    ensures SubStands(s', trees[uid := x])
  {}

  lemma NodeTreesStep(trees: map<nat, Tree>, uid: nat, x: Tree)
    requires NodeTrees(trees) && (x.Apply? || x == Opaque(uid))
    ensures NodeTrees(trees[uid := x])
  {}

  lemma GrowsBy(s: State, trees: map<nat, Tree>, s': State, uid: nat, x: Tree)
    requires uid !in trees && forall u: nat :: u in trees ==> (u in s'.sub <==> u in s.sub)
    ensures Grows(s, trees, s', trees[uid := x])
  {}

  lemma DropStep(uid: nat, w: Value, x: Tree, s: State, trees: map<nat, Tree>)
    requires Agree(s, trees) && uid !in trees && x.Apply? && KeptWith(w, x, s, trees)
    ensures Agree(s.(sub := s.sub[uid := w]), trees[uid := x])
  {
    hide KeptDiffer, SubStands, SeenStands, AllSeen, NodeTrees, Grows, KeptWith;
    var s', t' := s.(sub := s.sub[uid := w]), trees[uid := x];
    GrowsBy(s, trees, s', uid, x);
    DifferStep(s, trees, s', uid, x);
    SubStep(s, trees, s', uid, x);
    NodeTreesStep(trees, uid, x);
    SeenAll(s, trees, s', t');
    AllSeenAll(s, trees, s', t');
  }

  lemma SeenAll(s: State, trees: map<nat, Tree>, s': State, t': map<nat, Tree>)
    requires SeenStands(s, trees) && Grows(s, trees, s', t') && s'.seen == s.seen
    ensures SeenStands(s', t')
  {
    hide SeenKey, Grows;
    forall key | key in s'.seen ensures SeenKey(key, s', t') { SeenLater(s, trees, s', t', key); }
  }

  // A value that is new either is dropped or has no arithmetic.
  lemma AllSeenAll(s: State, trees: map<nat, Tree>, s': State, t': map<nat, Tree>)
    requires AllSeen(s, trees) && Grows(s, trees, s', t') && s.seen.Keys <= s'.seen.Keys
    requires forall u: nat :: u in t' && u !in trees ==> u in s'.sub || !t'[u].Apply?
    ensures AllSeen(s', t')
  {
    forall u: nat | u in t' && u !in s'.sub && t'[u].Apply?
      ensures exists key :: key in s'.seen && KeyStands(key, t'[u], s', t')
    {
      AllSeenLater(s, trees, s', t', u);
    }
  }

  lemma KeepStep(uid: nat, ty: Type, key: Key, x: Tree, s: State, trees: map<nat, Tree>)
    requires Agree(s, trees) && uid !in trees && KeyStands(key, x, s, trees) && key !in s.seen
    ensures Agree(s.(seen := s.seen[key := Ref(uid, ty)]), trees[uid := x])
  {
    SeenByTree(key, x, s, trees);
    StandsIsApply(key, x, s, trees);
    NewIsFree(s, trees, uid);
    hide KeptDiffer, SubStands, SeenStands, AllSeen, NodeTrees, Grows, KeyStands;
    var s', t' := s.(seen := s.seen[key := Ref(uid, ty)]), trees[uid := x];
    GrowsBy(s, trees, s', uid, x);
    DifferStep(s, trees, s', uid, x);
    SubStep(s, trees, s', uid, x);
    NodeTreesStep(trees, uid, x);
    KeyStandsLater(key, x, s, trees, s', t');
    KeepSeen(uid, ty, key, x, s, trees);
  }

  lemma KeepSeen(uid: nat, ty: Type, key: Key, x: Tree, s: State, trees: map<nat, Tree>)
    requires SeenStands(s, trees) && AllSeen(s, trees) && uid !in trees && uid !in s.sub && key !in s.seen
    requires var s', t' := s.(seen := s.seen[key := Ref(uid, ty)]), trees[uid := x];
      Grows(s, trees, s', t') && KeyStands(key, x, s', t')
    ensures var s', t' := s.(seen := s.seen[key := Ref(uid, ty)]), trees[uid := x];
      SeenStands(s', t') && AllSeen(s', t')
  {
    var s', t' := s.(seen := s.seen[key := Ref(uid, ty)]), trees[uid := x];
    hide KeyStands, Grows;
    forall k2 | k2 in s'.seen ensures SeenKey(k2, s', t') { if k2 != key { SeenLater(s, trees, s', t', k2); } }
    hide SeenKey;
    forall u: nat | u in t' && u !in s'.sub && t'[u].Apply?
      ensures exists k2 :: k2 in s'.seen && KeyStands(k2, t'[u], s', t')
    {
      if u != uid { AllSeenLater(s, trees, s', t', u); }
    }
  }

  lemma OtherStep(uid: nat, s: State, trees: map<nat, Tree>)
    requires Agree(s, trees) && uid !in trees
    ensures Agree(s, trees[uid := Opaque(uid)])
  {
    NoOpaque(trees, uid);
    hide KeptDiffer, SubStands, SeenStands, AllSeen, NodeTrees, Grows;
    GrowsBy(s, trees, s, uid, Opaque(uid));
    DifferStep(s, trees, s, uid, Opaque(uid));
    SubStep(s, trees, s, uid, Opaque(uid));
    NodeTreesStep(trees, uid, Opaque(uid));
    SeenAll(s, trees, s, trees[uid := Opaque(uid)]);
    AllSeenAll(s, trees, s, trees[uid := Opaque(uid)]);
  }

  lemma NoOpaque(trees: map<nat, Tree>, uid: nat)
    requires NodeTrees(trees) && uid !in trees
    ensures forall u: nat :: u in trees ==> trees[u] != Opaque(uid)
  {}

  // Visiting an instruction keeps keys and expressions in agreement.
  lemma VisitKeepsAgree(n: Node, s: State, trees: map<nat, Tree>)
    requires Agree(s, trees) && n.uid !in trees && ReadsIn(n, trees)
    ensures Agree(Visit(CSE, n, s), trees[n.uid := TreeOf(n, trees)])
  {
    hide Agree, TreeOf, Decision, Visit, Shareable, NodeKey;
    DecisionIs(n, s);
    TreeIs(n, trees);
    if Shareable(n) {
      var key, x := NodeKey(n, s), TreeOf(n, trees);
      KeyOfNode(n, s, trees);
      SeenByTree(key, x, s, trees);
      hide KeptWith;
      if key in s.seen { DropStep(n.uid, s.seen[key], x, s, trees); } else { KeepStep(n.uid, n.ty, key, x, s, trees); }
    } else {
      OtherStep(n.uid, s, trees);
    }
  }

  // ----- the sweep over a function -----

  lemma {:induction false} TreesKnown(p: Prog, b: nat, i: nat, u: nat)
    requires Limit(p, b, i)
    ensures u in TreesTo(p, b, i) <==> exists c, j :: At(p, c, j) && Before(c, j, b, i) && p[c].body[j].uid == u
    decreases b, i
  {
    hide TreeOf;
    if i > 0 {
      TreesKnown(p, b, i - 1, u);
      assert At(p, b, i - 1);
      if c, j :| At(p, c, j) && Before(c, j, b, i) && p[c].body[j].uid == u {
        assert Before(c, j, b, i - 1) || (c == b && j == i - 1);
      }
    } else if b > 0 {
      TreesKnown(p, b - 1, |p[b - 1].body|, u);
    }
  }

  lemma {:induction false} ExpressionKept(p: Prog, b: nat, i: nat, c: nat, j: nat)
    requires Distinct(p) && At(p, c, j) && Limit(p, b, i) && Before(c, j, b, i)
    ensures p[c].body[j].uid in TreesTo(p, b, i) && TreesTo(p, b, i)[p[c].body[j].uid] == Expression(p, c, j)
    decreases b, i
  {
    hide TreeOf;
    if i > 0 {
      if c == b && j == i - 1 {
      } else {
        ExpressionKept(p, b, i - 1, c, j);
        assert At(p, b, i - 1);
      }
    } else {
      ExpressionKept(p, b - 1, |p[b - 1].body|, c, j);
    }
  }

  lemma {:induction false} AgreeAt(p: Prog, b: nat, i: nat)
    requires Ordered(p) && Limit(p, b, i)
    ensures Agree(StateAt(CSE, p, b, i), TreesTo(p, b, i))
    decreases b, i
  {
    hide TreeOf, Visit, Decision, Agree;
    if i > 0 {
      AgreeAt(p, b, i - 1);
      ReadsKnown(p, b, i - 1);
      var n, s, trees := p[b].body[i - 1], StateAt(CSE, p, b, i - 1), TreesTo(p, b, i - 1);
      VisitKeepsAgree(n, s, trees);
    } else if b > 0 {
      AgreeAt(p, b - 1, |p[b - 1].body|);
    } else {
      NothingAgrees();
    }
  }

  lemma NothingAgrees()
    ensures Agree(EMPTY, map[])
  {}

  // An instruction is new, and reads only what is known.
  lemma ReadsKnown(p: Prog, b: nat, i: nat)
    requires Ordered(p) && At(p, b, i)
    ensures p[b].body[i].uid !in TreesTo(p, b, i)
    ensures ReadsIn(p[b].body[i], TreesTo(p, b, i))
  {
    TreesKnown(p, b, i, p[b].body[i].uid);
    assert OrderedNode(p, b, i);
    forall v: Value | v in p[b].body[i].args && v.Ref? ensures v.uid in TreesTo(p, b, i) { TreesKnown(p, b, i, v.uid); }
  }

  // Main result: elimination drops an instruction exactly when an earlier one computes the
  // same expression.
  lemma DroppedExactly(p: Prog, b: nat, i: nat)
    requires Ordered(p) && At(p, b, i)
    ensures Dropped(CSE, p, b, i) <==> Duplicate(p, b, i)
  {
    AgreeAt(p, b, i);
    ReadsKnown(p, b, i);
    var n, trees := p[b].body[i], TreesTo(p, b, i);
    DecidesByTree(n, StateAt(CSE, p, b, i), trees);
    hide TreeOf, Decision, Agree, Ordered, StateAt, TreesTo;
    if Dropped(CSE, p, b, i) {
      var u: nat :| u in trees && trees[u] == TreeOf(n, trees);
      TreesKnown(p, b, i, u);
      var c, j :| At(p, c, j) && Before(c, j, b, i) && p[c].body[j].uid == u;
      OrderedDistinct(p);
      ExpressionKept(p, b, i, c, j);
      assert Repeats(p, b, i, c, j);
    }
    if c, j :| Repeats(p, b, i, c, j) {
      OrderedDistinct(p);
      ExpressionKept(p, b, i, c, j);
      assert p[c].body[j].uid in trees && trees[p[c].body[j].uid] == TreeOf(n, trees);
    }
  }

  lemma OrderedDistinct(p: Prog)
    requires Ordered(p)
    ensures Distinct(p)
  {}

  // ----- which earlier instruction takes its place -----

  lemma EarliestIsUnique(p: Prog, b: int, i: int, c: int, j: int, e: int, l: int)
    requires Earliest(p, b, i, c, j) && Earliest(p, b, i, e, l)
    ensures c == e && j == l
  {
    hide Expression;
    if Before(c, j, e, l) { NoneEarlier(p, b, i, e, l, c, j); }
    if Before(e, l, c, j) { NoneEarlier(p, b, i, c, j, e, l); }
  }

  lemma NoneEarlier(p: Prog, b: int, i: int, c: int, j: int, e: int, l: int)
    requires Earliest(p, b, i, c, j) && Earliest(p, b, i, e, l)
    ensures !Before(e, l, c, j)
  {
    TreeIs(p[b].body[i], TreesTo(p, b, i));
    TreeIs(p[c].body[j], TreesTo(p, c, j));
    hide TreeOf;
    assert Before(e, l, c, j) ==> Repeats(p, b, i, e, l);
    assert Before(e, l, c, j) ==> Repeats(p, c, j, e, l);
  }

  // A kept instruction is the earliest with its expression; a dropped one is replaced by it.
  lemma SharedWithEarliest(p: Prog, b: nat, i: nat) returns (c: int, j: int)
    requires Ordered(p) && At(p, b, i)
    ensures Earliest(p, b, i, c, j) && !Dropped(CSE, p, c, j)
    ensures !Dropped(CSE, p, b, i) ==> c == b && j == i
    ensures Dropped(CSE, p, b, i) ==> Shares(p, b, i, c, j)
  {
    DroppedExactly(p, b, i);
    hide Expression, Ordered, Duplicate;
    if Dropped(CSE, p, b, i) {
      c, j := SharedWith(p, b, i);
      SameExpression(p, b, i, c, j);
      DroppedExactly(p, c, j);
    } else {
      c, j := b, i;
    }
  }

  lemma SameExpression(p: Prog, b: nat, i: nat, c: nat, j: nat)
    requires Ordered(p) && Dropped(CSE, p, b, i) && At(p, c, j) && Before(c, j, b, i)
    requires p[b].body[i].uid in Final(CSE, p).sub
    requires Final(CSE, p).sub[p[b].body[i].uid] == Ref(p[c].body[j].uid, p[b].body[i].ty)
    ensures Repeats(p, b, i, c, j)
  {
    AgreeAt(p, b, i);
    ReadsKnown(p, b, i);
    OrderedDistinct(p);
    ExpressionKept(p, b, i, c, j);
    FinalAt(CSE, p, b, i);
    DecisionTree(p[b].body[i], StateAt(CSE, p, b, i), TreesTo(p, b, i));
    hide TreeOf, Decision, Agree, Ordered, StateAt, TreesTo;
  }

  lemma DecisionTree(n: Node, s: State, trees: map<nat, Tree>)
    requires Agree(s, trees) && ReadsIn(n, trees) && Decision(CSE, n, s).Some?
    ensures Shareable(n) && KeptWith(Decision(CSE, n, s).value, TreeOf(n, trees), s, trees)
  {
    hide Agree, TreeOf, Decision, Visit, Shareable, NodeKey, KeptWith;
    DecisionIs(n, s);
    if Shareable(n) {
      KeyOfNode(n, s, trees);
      SeenByTree(NodeKey(n, s), TreeOf(n, trees), s, trees);
    }
  }

  // ----- when elimination is safe, said of the function it is given -----

  // Operand k of (b, i) names (c, j), whose expression is first computed at (e, l).
  ghost predicate Uses(p: Prog, b: int, i: int, k: int, c: int, j: int, e: int, l: int) {
    At(p, b, i) && At(p, c, j) && 0 <= k < |p[b].body[i].args| &&
    p[b].body[i].args[k] == Ref(p[c].body[j].uid, p[c].body[j].ty) &&
    Earliest(p, c, j, e, l)
  }

  // Wherever an instruction that is no duplicate reads a value, the first instruction that
  // computes that value's expression strictly dominates it.
  ghost predicate FirstsReachUses(p: Prog) {
    forall b, i, k, c, j, e, l :: Uses(p, b, i, k, c, j, e, l) && !Duplicate(p, b, i) && b in Dominators(p) ==>
      Avail(p, Dominators(p), b, i, e, l)
  }

  // Main result: elimination keeps a function well formed, and with it its meaning, exactly
  // when first computations reach all uses.
  lemma ReachesExactly(p: Prog)
    requires WellFormed(p)
    ensures FirstsReachUses(p) <==> SharingDominates(p)
    ensures FirstsReachUses(p) <==> WellFormed(SweepProg(CSE, p))
    ensures FirstsReachUses(p) ==> SameMeaning(p, SweepProg(CSE, p))
  {
    var d := Dominators(p);
    WellFormedOrdered(p, d);
    DominatorsOk(p);
    SharingDominatesExactly(p);
    hide Dominators, WellFormed, SameMeaning, SweepProg, Expression;
    if FirstsReachUses(p) { ReachesShare(p); }
    if SharingDominates(p) {
      CsePreserves(p);
      ShareReaches(p);
    }
  }

  lemma ReachesShare(p: Prog)
    requires WellFormed(p) && FirstsReachUses(p)
    ensures SharingDominates(p)
  {
    var d, ed := Dominators(p), Final(CSE, p);
    hide Dominators, FirstsReachUses;
    forall b, i, k | Kept(p, ed, b, i) && 0 <= k < |p[b].body[i].args|
      ensures OperandOk(p, d, b, i, Resolved(CSE, p, b, i, k))
    {
      ReachesOperand(p, b, i, k);
    }
  }

  lemma ReachesOperand(p: Prog, b: nat, i: nat, k: nat)
    requires WellFormed(p) && FirstsReachUses(p) && Kept(p, Final(CSE, p), b, i) && k < |p[b].body[i].args|
    ensures OperandOk(p, Dominators(p), b, i, Resolved(CSE, p, b, i, k))
  {
    var d, a := Dominators(p), p[b].body[i].args[k];
    WellFormedOrdered(p, d);
    OperandIsOk(p, d, b, i, k);
    FinalAt(CSE, p, b, i);
    DroppedExactly(p, b, i);
    hide Dominators, Final, Expression, Ordered, WellFormedUnder, Dropped, Duplicate, Earliest;
    if a.Ref? && a.uid in Final(CSE, p).sub {
      var c, j :| Defines(p, d, b, i, a, c, j);
      DroppedHasValue(CSE, p, c, j);
      var e, l := SharedWithEarliest(p, c, j);
      var f, g := SharedWith(p, c, j);
      SharesOne(p, c, j, e, l, f, g);
      assert Uses(p, b, i, k, c, j, e, l);
      assert Defines(p, d, b, i, Resolved(CSE, p, b, i, k), e, l);
    }
  }

  // The instruction that takes a dropped one's place.
  lemma SharesOne(p: Prog, c: int, j: int, e: int, l: int, f: int, g: int)
    requires Distinct(p) && Shares(p, c, j, e, l) && Shares(p, c, j, f, g)
    ensures e == f && l == g
  {}

  lemma ShareReaches(p: Prog)
    requires WellFormed(p) && SharingDominates(p)
    ensures FirstsReachUses(p)
  {
    var d := Dominators(p);
    hide Dominators, SharingDominates, Uses, Duplicate;
    forall b, i, k, c, j, e, l | Uses(p, b, i, k, c, j, e, l) && !Duplicate(p, b, i) && b in d
      ensures Avail(p, d, b, i, e, l)
    {
      UseReached(p, b, i, k, c, j, e, l);
    }
  }

  lemma UseReached(p: Prog, b: int, i: int, k: int, c: int, j: int, e: int, l: int)
    requires WellFormed(p) && SharingDominates(p) && Uses(p, b, i, k, c, j, e, l) && !Duplicate(p, b, i) &&
      b in Dominators(p)
    ensures Avail(p, Dominators(p), b, i, e, l)
  {
    var d := Dominators(p);
    WellFormedOrdered(p, d);
    OperandIsOk(p, d, b, i, k);
    DroppedExactly(p, b, i);
    FinalAt(CSE, p, b, i);
    FinalAt(CSE, p, c, j);
    assert Kept(p, Final(CSE, p), b, i);
    assert OperandOk(p, d, b, i, Resolved(CSE, p, b, i, k));
    hide Dominators, Final, Expression, Ordered, WellFormedUnder, Dropped, Duplicate, Earliest;
    var f, g := SharedWithEarliest(p, c, j);
    EarliestIsUnique(p, c, j, e, l, f, g);
    var v := Resolved(CSE, p, b, i, k);
    assert v.Ref? && v.uid == p[e].body[l].uid;
    var m, n :| Defines(p, d, b, i, v, m, n);
  }

  // Where the condition fails, some path of blocks reaches a use before the value it would
  // read has been computed: from another block, or further down the same one.
  lemma UnreachedOnSomePath(p: Prog) returns (b: nat, i: int, c: int, j: int, h: seq<nat>)
    requires WellFormed(p) && !FirstsReachUses(p)
    ensures exists k, e, l :: Uses(p, b, i, k, e, l, c, j) && !Duplicate(p, b, i)
    ensures PathTo(p, h, b) && (c in h ==> c == b && i <= j)
  {
    hide Expression, Duplicate, WellFormed, Earliest;
    var b', i', k, e, l, c', j' :|
      Uses(p, b', i', k, e, l, c', j') && !Duplicate(p, b', i') && b' in Dominators(p) &&
      !Avail(p, Dominators(p), b', i', c', j');
    UsesAt(p, b', i', k, e, l, c', j');
    b, i, c, j := b', i', c', j';
    h :| PathTo(p, h, b) && (c == b || c !in h);
  }

  lemma UsesAt(p: Prog, b: int, i: int, k: int, c: int, j: int, e: int, l: int)
    requires Uses(p, b, i, k, c, j, e, l)
    ensures At(p, e, l)
  {
    hide Expression;
  }
}
