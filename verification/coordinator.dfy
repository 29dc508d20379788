// The coordinator: a registry of workers, and three ways to choose one for a job.

module Coordinators {
  import opened Division
  import opened Options

  // ----- choices on loads -----

  function Bump(loads: seq<nat>, k: nat): seq<nat>
    requires k < |loads|
  {
    loads[k := loads[k] + 1]
  }

  // The earliest of the least loaded.
  ghost predicate IsLeast(loads: seq<nat>, k: nat) {
    k < |loads| && (forall j :: 0 <= j < |loads| ==> loads[k] <= loads[j]) &&
    forall j :: 0 <= j < k ==> loads[k] < loads[j]
  }

  datatype Turns = Turns(loads: seq<nat>, cursor: nat)

  function RoundRobinStep(t: Turns): (r: Turns)
    requires t.loads != []
    ensures |r.loads| == |t.loads|
  {
    var k := t.cursor % |t.loads|;
    Turns(Bump(t.loads, k), (k + 1) % |t.loads|)
  }

  // m jobs in a row, to an unchanging healthy pool.
  function RoundRobin(t: Turns, m: nat): (r: Turns)
    requires t.loads != []
    ensures |r.loads| == |t.loads|
  {
    if m == 0 then t else RoundRobinStep(RoundRobin(t, m - 1))
  }

  // How many of m consecutive turns from the cursor fall on worker w.
  function Share(n: nat, cursor: nat, m: nat, w: nat): nat
    requires w < n
  {
    m / n + if (w - cursor) % n < m % n then 1 else 0
  }

  // The cursor after m turns.
  lemma {:induction false} CursorAfter(t: Turns, m: nat)
    requires t.loads != []
    ensures RoundRobin(t, m).cursor % |t.loads| == (t.cursor + m) % |t.loads|
  {
    hide Bump;
    if m > 0 {
      CursorAfter(t, m - 1);
      var n := |t.loads|;
      var k := (t.cursor + m - 1) % n;
      ModNext(t.cursor + m - 1, n);
      SmallMod((k + 1) % n, n);
      if k == n - 1 { DivModUnique(k + 1, n, 1, 0); } else { SmallMod(k + 1, n); }
    }
  }

  lemma ModShift(a: int, n: nat, k: int)
    requires n > 0
    ensures (a + n * k) % n == a % n
  {
    assert a + n * k == n * (a / n + k) + a % n by { assert n * (a / n + k) == n * (a / n) + n * k; }
    DivModUnique(a + n * k, n, a / n + k, a % n);
  }

  // The turn number a after cursor c is worker w's.
  lemma TurnOf(n: nat, c: int, a: int, w: nat)
    requires w < n
    ensures w == (c + a) % n <==> (w - c) % n == a % n
  {
    var x := c + a;
    SmallMod(w, n);
    if w == x % n {
      assert w - c == a + n * -(x / n);
      ModShift(a, n, -(x / n));
    }
    if (w - c) % n == a % n {
      var k := (w - c) / n - a / n;
      assert w == x + n * k by { assert n * ((w - c) / n) - n * (a / n) == n * k; }
      ModShift(x, n, k);
    }
  }

  lemma ShareStep(n: nat, cursor: nat, m: nat, w: nat)
    requires w < n && m > 0
    ensures Share(n, cursor, m, w) == Share(n, cursor, m - 1, w) + if w == (cursor + (m - 1)) % n then 1 else 0
  {
    TurnOf(n, cursor, m - 1, w);
    ModNext(m - 1, n);
  }

  // Main result: from any cursor, m jobs give each worker exactly its share.
  lemma {:induction false} RoundRobinShares(t: Turns, m: nat, w: nat)
    requires w < |t.loads|
    ensures RoundRobin(t, m).loads[w] == t.loads[w] + Share(|t.loads|, t.cursor, m, w)
  {
    var n := |t.loads|;
    if m > 0 {
      RoundRobinShares(t, m - 1, w);
      CursorAfter(t, m - 1);
      ShareStep(n, t.cursor, m, w);
      hide Share;
    } else {
      SmallMod(0, n);
    }
  }

  // A share is m / n, rounded down or up.
  lemma SharesAreEven(n: nat, cursor: nat, m: nat, w: nat)
    requires w < n
    ensures Share(n, cursor, m, w) == m / n || Share(n, cursor, m, w) == (m + n - 1) / n
    ensures m % n == 0 ==> Share(n, cursor, m, w) == m / n
  {
    var q, r := m / n, m % n;
    if r > 0 {
      assert m + n - 1 == n * (q + 1) + (r - 1);
      DivModUnique(m + n - 1, n, q + 1, r - 1);
    }
  }

  // ----- least loaded -----

  function Least(loads: seq<nat>, k: nat): (r: nat)
    requires 0 < k <= |loads|
    ensures IsLeast(loads[..k], r)
  {
    if k == 1 then 0
    else
      var r := Least(loads, k - 1);
      assert loads[..k] == loads[..k - 1] + [loads[k - 1]];
      if loads[k - 1] < loads[r] then k - 1 else r
  }

  function Earliest(loads: seq<nat>): (r: nat)
    requires loads != []
    ensures IsLeast(loads, r)
  {
    assert loads[..|loads|] == loads;
    Least(loads, |loads|)
  }

  function LeastLoaded(loads: seq<nat>, m: nat): (r: seq<nat>)
    requires loads != []
    ensures |r| == |loads|
  {
    if m == 0 then loads
    else Bump(LeastLoaded(loads, m - 1), Earliest(LeastLoaded(loads, m - 1)))
  }

  ghost predicate Between(loads: seq<nat>, lo: int, hi: int) { forall j :: 0 <= j < |loads| ==> lo <= loads[j] <= hi }

  function Lowest(loads: seq<nat>): (r: nat)
    requires loads != []
    ensures r in loads && forall x :: x in loads ==> r <= x
  {
    assert loads == [loads[0]] + loads[1..];
    if |loads| == 1 then loads[0] else var r := Lowest(loads[1..]); if loads[0] < r then loads[0] else r
  }

  function Highest(loads: seq<nat>): (r: nat)
    requires loads != []
    ensures r in loads && forall x :: x in loads ==> x <= r
  {
    assert loads == [loads[0]] + loads[1..];
    if |loads| == 1 then loads[0] else var r := Highest(loads[1..]); if loads[0] > r then loads[0] else r
  }

  function Spread(loads: seq<nat>): nat
    requires loads != []
  {
    Highest(loads) - Lowest(loads)
  }

  lemma BumpBetween(loads: seq<nat>, k: nat, lo: int, s: nat) returns (lo': int)
    requires IsLeast(loads, k) && Between(loads, lo, lo + s) && s >= 1
    ensures Between(Bump(loads, k), lo', lo' + s)
  {
    lo' := if loads[k] + 1 <= lo + s then lo else lo + s;
  }

  lemma {:induction false} StaysBetween(loads: seq<nat>, m: nat, lo: int, s: nat) returns (lo': int)
    requires loads != [] && Between(loads, lo, lo + s) && s >= 1
    ensures Between(LeastLoaded(loads, m), lo', lo' + s)
  {
    hide Between, Bump, IsLeast, Earliest;
    lo' := lo;
    if m > 0 {
      lo' := StaysBetween(loads, m - 1, lo, s);
      var l := LeastLoaded(loads, m - 1);
      lo' := BumpBetween(l, Earliest(l), lo', s);
    }
  }

  // Main result: least-loaded assignment never lets the loads spread further apart than they
  // were, or than one.
  lemma LeastLoadedSpread(loads: seq<nat>, m: nat)
    requires loads != []
    ensures Spread(LeastLoaded(loads, m)) <= if Spread(loads) > 1 then Spread(loads) else 1
  {
    var s := if Spread(loads) > 1 then Spread(loads) else 1;
    assert Between(loads, Lowest(loads), Lowest(loads) + s) by {
      assert forall j :: 0 <= j < |loads| ==> loads[j] in loads;
    }
    var lo := StaysBetween(loads, m, Lowest(loads), s);
    var l := LeastLoaded(loads, m);
    hide LeastLoaded;
    var i :| 0 <= i < |l| && l[i] == Lowest(l);
    var j :| 0 <= j < |l| && l[j] == Highest(l);
  }

  // ----- total load -----

  function Sum(loads: seq<nat>): nat { if loads == [] then 0 else loads[0] + Sum(loads[1..]) }

  lemma {:induction false} BumpSum(loads: seq<nat>, k: nat)
    requires k < |loads|
    ensures Sum(Bump(loads, k)) == Sum(loads) + 1
  {
    if k > 0 {
      BumpSum(loads[1..], k - 1);
      assert Bump(loads, k)[1..] == Bump(loads[1..], k - 1);
    } else {
      assert Bump(loads, 0)[1..] == loads[1..];
    }
  }

  lemma {:induction false} TotalsGrow(t: Turns, m: nat)
    requires t.loads != []
    ensures Sum(RoundRobin(t, m).loads) == Sum(t.loads) + m == Sum(LeastLoaded(t.loads, m))
  {
    hide Sum, Bump;
    if m > 0 {
      TotalsGrow(t, m - 1);
      var r, l := RoundRobin(t, m - 1), LeastLoaded(t.loads, m - 1);
      BumpSum(r.loads, r.cursor % |r.loads|);
      BumpSum(l, Earliest(l));
    }
  }
}
