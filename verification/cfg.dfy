// Control flow: block edges, paths, dominance, and well-formed functions.

module Cfg {
  import opened Options
  import opened Ir

  // ----- edges -----

  function TargetOf(p: Prog, v: Value): set<nat> {
    if IsText(v) then
      (match Target(p, v.lit.s) case Some(c) => {c} case None => {})
    else {}
  }

  function Exits(p: Prog, n: Node): set<nat> {
    if n.op == JMP && |n.args| >= 1 then TargetOf(p, n.args[0])
    else if n.op == BR && |n.args| >= 3 then TargetOf(p, n.args[1]) + TargetOf(p, n.args[2])
    else {}
  }

  predicate Edge(p: Prog, b: int, c: int) {
    0 <= b < |p| && 0 <= c && |p[b].body| > 0 && c in Exits(p, p[b].body[|p[b].body| - 1])
  }

  ghost predicate SameEdges(p: Prog, q: Prog) {
    |p| == |q| && forall b, c :: Edge(p, b, c) <==> Edge(q, b, c)
  }

  // ----- dominance, by paths from the entry block -----

  ghost predicate Path(p: Prog, h: seq<nat>) {
    |h| > 0 && h[0] == 0 && forall k :: 0 <= k < |h| - 1 ==> Edge(p, h[k], h[k + 1])
  }

  ghost predicate PathTo(p: Prog, h: seq<nat>, b: nat) { Path(p, h) && h[|h| - 1] == b }

  ghost predicate Reachable(p: Prog, b: nat) { exists h :: PathTo(p, h, b) }

  // d is on every path to b.
  ghost predicate Dominates(p: Prog, d: nat, b: nat) { forall h :: PathTo(p, h, b) ==> d in h }

  // The strict dominators of every reachable block.
  ghost function Dominators(p: Prog): (d: map<nat, set<nat>>)
    ensures forall b :: b in d <==> 0 <= b < |p| && Reachable(p, b)
    ensures forall b, c :: b in d ==> (c in d[b] <==> 0 <= c < |p| && c != b && Dominates(p, c, b))
  {
    map b: nat | 0 <= b < |p| && Reachable(p, b) :: (set c: nat | 0 <= c < |p| && c != b && Dominates(p, c, b))
  }

  // What the proofs use of dominance: the local rule on edges, and a strict order.
  ghost predicate DomOk(p: Prog, d: map<nat, set<nat>>) {
    && (|p| > 0 ==> 0 in d && d[0] == {})
    && (forall b :: b in d ==> 0 <= b < |p|)
    && (forall b, c :: b in d && Edge(p, b, c) ==> c in d && d[c] <= d[b] + {b})
    && (forall b, e :: b in d && e in d[b] ==> e in d && b !in d[e] && d[e] <= d[b])
  }

  // A position is available at another when its instruction has run on every path there.
  predicate Avail(p: Prog, d: map<nat, set<nat>>, b: int, i: int, c: int, j: int) {
    At(p, c, j) && ((c == b && j < i) || (b in d && c in d[b]))
  }

  lemma PathPrefix(p: Prog, h: seq<nat>, k: nat)
    requires Path(p, h) && k < |h|
    ensures PathTo(p, h[..k + 1], h[k])
  {}

  lemma PathExtend(p: Prog, h: seq<nat>, b: nat, c: nat)
    requires PathTo(p, h, b) && Edge(p, b, c)
    ensures PathTo(p, h + [c], c)
  {
    var g := h + [c];
    forall k | 0 <= k < |g| - 1 ensures Edge(p, g[k], g[k + 1]) {
      if k < |h| - 1 { assert g[k] == h[k] && g[k + 1] == h[k + 1]; }
    }
  }

  lemma EdgeTargets(p: Prog, b: int, c: int)
    requires Edge(p, b, c)
    ensures 0 <= c < |p|
  {}

  // Along an edge, a strict dominator of the target dominates the source or is the source.
  lemma DominatorsFollowEdges(p: Prog, b: nat, c: nat)
    requires b in Dominators(p) && Edge(p, b, c)
    ensures c in Dominators(p) && Dominators(p)[c] <= Dominators(p)[b] + {b}
  {
    EdgeTargets(p, b, c);
    var h :| PathTo(p, h, b);
    PathExtend(p, h, b, c);
    forall e | e in Dominators(p)[c] && e != b ensures e in Dominators(p)[b] {
      forall g | PathTo(p, g, b) ensures e in g {
        PathExtend(p, g, b, c);
        assert e in g + [c];
      }
    }
  }

  // Of two blocks on a path, the one met first is not dominated by the other.
  lemma {:induction false} FirstOfTwo(p: Prog, h: seq<nat>, e: nat, b: nat, k: nat)
    requires Path(p, h) && k < |h| && e != b && Dominates(p, e, b) && Dominates(p, b, e)
    requires h[k] == b || h[k] == e
    ensures false
    decreases k
  {
    PathPrefix(p, h, k);
    var other := if h[k] == b then e else b;
    assert other in h[..k + 1];
    var j :| 0 <= j < k + 1 && h[j] == other;
    FirstOfTwo(p, h, e, b, j);
  }

  lemma DominatorsAreOrdered(p: Prog, b: nat, e: nat)
    requires b in Dominators(p) && e in Dominators(p)[b]
    ensures e in Dominators(p) && b !in Dominators(p)[e] && Dominators(p)[e] <= Dominators(p)[b]
  {
    var h :| PathTo(p, h, b);
    assert e in h;
    var k :| 0 <= k < |h| && h[k] == e;
    PathPrefix(p, h, k);
    if Dominates(p, b, e) { FirstOfTwo(p, h, e, b, k); }
    forall f | f in Dominators(p)[e] ensures f in Dominators(p)[b] {
      forall g | PathTo(p, g, b) ensures f in g {
        assert e in g;
        var j :| 0 <= j < |g| && g[j] == e;
        PathPrefix(p, g, j);
        assert f in g[..j + 1];
      }
    }
  }

  lemma DominatorsOk(p: Prog)
    ensures DomOk(p, Dominators(p))
  {
    var d := Dominators(p);
    if |p| > 0 {
      assert PathTo(p, [0], 0);
      assert d[0] == {};
    }
    forall b, c | b in d && Edge(p, b, c) ensures c in d && d[c] <= d[b] + {b} { DominatorsFollowEdges(p, b, c); }
    forall b, e | b in d && e in d[b] ensures e in d && b !in d[e] && d[e] <= d[b] { DominatorsAreOrdered(p, b, e); }
  }

  lemma SamePaths(p: Prog, q: Prog, h: seq<nat>)
    requires SameEdges(p, q)
    ensures Path(p, h) <==> Path(q, h)
  {}

  lemma SameDominators(p: Prog, q: Prog)
    requires SameEdges(p, q)
    ensures Dominators(p) == Dominators(q)
  {
    forall h ensures Path(p, h) <==> Path(q, h) { SamePaths(p, q, h); }
    forall b, h ensures PathTo(p, h, b) <==> PathTo(q, h, b) {}
    forall b: nat ensures Reachable(p, b) <==> Reachable(q, b) {
      if Reachable(p, b) { var h :| PathTo(p, h, b); assert PathTo(q, h, b); }
      if Reachable(q, b) { var h :| PathTo(q, h, b); assert PathTo(p, h, b); }
    }
    forall c: nat, b: nat ensures Dominates(p, c, b) <==> Dominates(q, c, b) {}
    assert Dominators(p).Keys == Dominators(q).Keys;
    forall b | b in Dominators(p) ensures Dominators(p)[b] == Dominators(q)[b] {}
  }

  // ----- well-formed functions -----

  // An operand that names an instruction names one that stands earlier in the layout,
  // has its type, and (in a reachable block) strictly dominates the use.
  ghost predicate Defines(p: Prog, d: map<nat, set<nat>>, b: int, i: int, v: Value, c: int, j: int)
    requires v.Ref?
  {
    At(p, c, j) && Before(c, j, b, i) && p[c].body[j].uid == v.uid && p[c].body[j].ty == v.rty &&
    HasValue(p[c].body[j].op) && (b in d ==> Avail(p, d, b, i, c, j))
  }

  ghost predicate OperandOk(p: Prog, d: map<nat, set<nat>>, b: int, i: int, v: Value) {
    v.Ref? ==> exists c, j :: Defines(p, d, b, i, v, c, j)
  }

  ghost predicate NodeOk(p: Prog, d: map<nat, set<nat>>, b: int, i: int)
    requires At(p, b, i)
  {
    forall v :: v in p[b].body[i].args ==> OperandOk(p, d, b, i, v)
  }

  ghost predicate Structured(p: Prog) {
    |p| > 0 && Distinct(p) && forall b :: 0 <= b < |p| ==> BlockShape(p[b])
  }

  ghost predicate WellFormedUnder(p: Prog, d: map<nat, set<nat>>) {
    Structured(p) && DomOk(p, d) && forall b, i :: At(p, b, i) ==> NodeOk(p, d, b, i)
  }

  ghost predicate WellFormed(p: Prog) { WellFormedUnder(p, Dominators(p)) }

  // Availability is a strict partial order on positions of reachable blocks.
  lemma AvailOrder(p: Prog, d: map<nat, set<nat>>, b: int, i: int, c: int, j: int, e: int, k: int)
    requires DomOk(p, d) && b in d && At(p, b, i) && Avail(p, d, b, i, c, j)
    ensures c in d
    ensures !Avail(p, d, c, j, b, i)
    ensures Avail(p, d, c, j, e, k) ==> Avail(p, d, b, i, e, k)
  {}

  lemma OperandIsOk(p: Prog, d: map<nat, set<nat>>, c: int, j: int, k: nat)
    requires WellFormedUnder(p, d) && At(p, c, j) && k < |p[c].body[j].args|
    ensures OperandOk(p, d, c, j, p[c].body[j].args[k]) && Distinct(p)
  {
    assert NodeOk(p, d, c, j);
    hide DomOk, OperandOk;
  }

  // What an available instruction reads is available.
  lemma DefinedThrough(p: Prog, d: map<nat, set<nat>>, b: nat, i: nat, c: int, j: int, a: Value)
      returns (c': nat, j': nat)
    requires WellFormedUnder(p, d) && b in d && At(p, b, i) && Avail(p, d, b, i, c, j) && OperandOk(p, d, c, j, a) &&
      a.Ref?
    ensures Defines(p, d, c, j, a, c', j') && Avail(p, d, b, i, c', j')
  {
    AvailOrder(p, d, b, i, c, j, c, j);
    var e, l :| Defines(p, d, c, j, a, e, l);
    c', j' := e, l;
    AvailOrder(p, d, b, i, c, j, c', j');
  }
}
