// The coordinator as an object: workers counted in place, chosen by loops over the registry.

module CoordinatorObjects {
  import opened Options
  import opened Sequences
  import opened Coordinators

  class WorkerInfo {
    const id: string
    const architecture: string
    const simd: seq<string>
    var healthy: bool
    var activeJobs: nat

    constructor (id: string, architecture: string, simd: seq<string>)
      ensures this.id == id && this.architecture == architecture && this.simd == simd && healthy && activeJobs == 0
    {
      this.id, this.architecture, this.simd, healthy, activeJobs := id, architecture, simd, true, 0;
    }
  }

  // Hints parsed from the job's name; an empty one is no hint.
  datatype Strategy = RoundRobinJobs | LeastLoadedJobs | Affinity(arch: string, simd: string)

  function Among(ws: seq<WorkerInfo>): set<WorkerInfo> { set w | w in ws }

  function LoadsOf(ws: seq<WorkerInfo>): (r: seq<nat>)
    reads ws
    ensures |r| == |ws| && forall i :: 0 <= i < |ws| ==> r[i] == ws[i].activeJobs
  {
    if ws == [] then []
    else
      assert ws == ws[..|ws| - 1] + [ws[|ws| - 1]];
      LoadsOf(ws[..|ws| - 1]) + [ws[|ws| - 1].activeJobs]
  }

  // The healthy workers, in registration order.
  function HealthyOf(ws: seq<WorkerInfo>): (r: seq<WorkerInfo>)
    reads ws`healthy
    ensures forall w :: w in r ==> w in ws && w.healthy
    ensures forall w :: w in ws && w.healthy ==> w in r
  {
    if ws == [] then []
    else
      var last := ws[|ws| - 1];
      assert ws == ws[..|ws| - 1] + [last];
      HealthyOf(ws[..|ws| - 1]) + if last.healthy then [last] else []
  }

  ghost function HealthyLoads(ws: seq<WorkerInfo>): (r: seq<nat>)
    reads ws
    ensures |r| == |HealthyOf(ws)|
  {
    if ws == [] then []
    else
      var last := ws[|ws| - 1];
      assert ws == ws[..|ws| - 1] + [last];
      HealthyLoads(ws[..|ws| - 1]) + if last.healthy then [last.activeJobs] else []
  }

  lemma {:induction false} LoadsJoin(a: seq<WorkerInfo>, w: WorkerInfo)
    ensures LoadsOf(a + [w]) == LoadsOf(a) + [w.activeJobs]
  {
    assert (a + [w])[..|a|] == a;
  }

  lemma {:induction false} SameLoads(ws: seq<WorkerInfo>)
    ensures LoadsOf(HealthyOf(ws)) == HealthyLoads(ws)
  {
    if ws != [] {
      var init, last := ws[..|ws| - 1], ws[|ws| - 1];
      SameLoads(init);
      if last.healthy { LoadsJoin(HealthyOf(init), last); } else { assert HealthyOf(init) + [] == HealthyOf(init); }
    }
  }

  // Every healthy worker once, in registration order.
  lemma {:induction false} HealthyInOrder(ws: seq<WorkerInfo>)
    requires NoRepeats(ws)
    ensures NoRepeats(HealthyOf(ws)) && InOrderOf(HealthyOf(ws), ws)
    ensures forall w :: w in HealthyOf(ws) <==> w in ws && w.healthy
  {
    if ws != [] {
      var init, last := Front(ws), Last(ws);
      HealthyInOrder(init);
      assert ws == init + [last];
      OrderGrows(HealthyOf(init), init, last, if last.healthy then [last] else []);
    }
  }

  // One more job for worker k of a list without repeats.
  method GiveJob(w: WorkerInfo, ghost ws: seq<WorkerInfo>, ghost k: nat)
    requires k < |ws| && NoRepeats(ws) && ws[k] == w
    modifies w`activeJobs
    ensures LoadsOf(ws) == Bump(old(LoadsOf(ws)), k)
  {
    w.activeJobs := w.activeJobs + 1;
  }

  predicate Matches(w: WorkerInfo, byArch: bool, hint: string) {
    if byArch then w.architecture == hint else hint in w.simd
  }

  function Matching(ws: seq<WorkerInfo>, byArch: bool, hint: string): (r: seq<WorkerInfo>)
    ensures forall w :: w in r ==> w in ws && Matches(w, byArch, hint)
    ensures forall w :: w in ws && Matches(w, byArch, hint) ==> w in r
  {
    if ws == [] then []
    else
      var last := ws[|ws| - 1];
      assert ws == ws[..|ws| - 1] + [last];
      Matching(ws[..|ws| - 1], byArch, hint) + if Matches(last, byArch, hint) then [last] else []
  }

  // Some worker has the architecture asked for, if one is asked for.
  ghost predicate WantsArch(ws: seq<WorkerInfo>, arch: string) {
    arch != "" && exists v :: v in ws && v.architecture == arch
  }

  // Of those, or of all, some worker has the instructions asked for.
  ghost predicate WantsSimd(ws: seq<WorkerInfo>, arch: string, simd: string) {
    simd != "" && exists v :: v in ws && simd in v.simd && (WantsArch(ws, arch) ==> v.architecture == arch)
  }

  // The candidates are exactly the workers that have what some worker could give.
  lemma CandidatesExactly(ws: seq<WorkerInfo>, arch: string, simd: string, w: WorkerInfo)
    ensures w in Preferred(Preferred(ws, true, arch), false, simd) <==>
      w in ws && (WantsArch(ws, arch) ==> w.architecture == arch) && (WantsSimd(ws, arch, simd) ==> simd in w.simd)
  {
    PreferredByArch(ws, arch);
    PreferredBySimd(Preferred(ws, true, arch), simd);
    hide Preferred, Matching;
  }

  lemma PreferredByArch(ws: seq<WorkerInfo>, arch: string)
    ensures forall v :: v in Preferred(ws, true, arch) <==> v in ws && (WantsArch(ws, arch) ==> v.architecture == arch)
  {
    if Matching(ws, true, arch) != [] { assert Matching(ws, true, arch)[0] in Matching(ws, true, arch); }
  }

  lemma PreferredBySimd(ws: seq<WorkerInfo>, simd: string)
    ensures forall v :: v in Preferred(ws, false, simd) <==>
      v in ws && (simd != "" && (exists u :: u in ws && simd in u.simd) ==> simd in v.simd)
  {
    if Matching(ws, false, simd) != [] { assert Matching(ws, false, simd)[0] in Matching(ws, false, simd); }
  }

  lemma {:induction false} MatchingInOrder(ws: seq<WorkerInfo>, byArch: bool, hint: string)
    requires NoRepeats(ws)
    ensures NoRepeats(Matching(ws, byArch, hint)) && InOrderOf(Matching(ws, byArch, hint), ws)
  {
    if ws != [] {
      var init, last := Front(ws), Last(ws);
      MatchingInOrder(init, byArch, hint);
      assert ws == init + [last] && forall w :: w in Matching(init, byArch, hint) ==> w in init;
      OrderGrows(Matching(init, byArch, hint), init, last, if Matches(last, byArch, hint) then [last] else []);
    }
  }

  lemma PreferredInOrder(ws: seq<WorkerInfo>, byArch: bool, hint: string)
    requires NoRepeats(ws)
    ensures NoRepeats(Preferred(ws, byArch, hint)) && InOrderOf(Preferred(ws, byArch, hint), ws)
  {
    MatchingInOrder(ws, byArch, hint);
  }

  // The workers that match the hint, or all of them when none does.
  function Preferred(ws: seq<WorkerInfo>, byArch: bool, hint: string): (r: seq<WorkerInfo>)
    ensures (forall w :: w in r ==> w in ws) && (ws != [] ==> r != [])
  {
    if hint == "" || Matching(ws, byArch, hint) == [] then ws else Matching(ws, byArch, hint)
  }

  method Prefer(ws: seq<WorkerInfo>, byArch: bool, hint: string) returns (r: seq<WorkerInfo>)
    ensures r == Preferred(ws, byArch, hint)
  {
    if hint == "" { return ws; }
    r := [];
    for i := 0 to |ws|
      invariant r == Matching(ws[..i], byArch, hint)
    {
      assert ws[..i + 1][..i] == ws[..i];
      if Matches(ws[i], byArch, hint) { r := r + [ws[i]]; }
    }
    assert ws[..|ws|] == ws;
    if r == [] { r := ws; }
  }

  // The earliest of the least loaded workers.
  method LeastOf(ws: seq<WorkerInfo>) returns (k: nat)
    requires ws != []
    ensures IsLeast(LoadsOf(ws), k)
  {
    k := 0;
    for i := 1 to |ws|
      invariant k < i && (forall j :: 0 <= j < i ==> ws[k].activeJobs <= ws[j].activeJobs)
      invariant forall j :: 0 <= j < k ==> ws[k].activeJobs < ws[j].activeJobs
    {
      if ws[i].activeJobs < ws[k].activeJobs { k := i; }
    }
  }

  // Which healthy worker each strategy chooses.
  ghost predicate Chosen(strategy: Strategy, healthy: seq<WorkerInfo>, loads: seq<nat>, cursor: nat, k: nat)
    requires |loads| == |healthy| > 0 && k < |healthy|
  {
    match strategy
    case RoundRobinJobs => k == cursor % |healthy|
    case LeastLoadedJobs => k == Earliest(loads)
    case Affinity(arch, simd) =>
      LeastAmong(healthy, Preferred(Preferred(healthy, true, arch), false, simd), loads, k)
  }

  // Worker k is the earliest of the least loaded candidates.
  ghost predicate LeastAmong(healthy: seq<WorkerInfo>, candidates: seq<WorkerInfo>, loads: seq<nat>, k: nat)
    requires |loads| == |healthy| && k < |healthy|
  {
    healthy[k] in candidates &&
    (forall j :: 0 <= j < |healthy| && healthy[j] in candidates ==> loads[k] <= loads[j]) &&
    forall j :: 0 <= j < k && healthy[j] in candidates ==> loads[k] < loads[j]
  }

  lemma EarliestIsLeast(loads: seq<nat>, k: nat)
    requires IsLeast(loads, k)
    ensures loads != [] && k == Earliest(loads)
  {}

  method ByAffinity(healthy: seq<WorkerInfo>, arch: string, simd: string) returns (w: WorkerInfo, ghost k: nat)
    requires healthy != [] && NoRepeats(healthy)
    ensures w in Preferred(Preferred(healthy, true, arch), false, simd)
    ensures forall v :: v in Preferred(Preferred(healthy, true, arch), false, simd) ==> w.activeJobs <= v.activeJobs
    ensures k < |healthy| && w == healthy[k] && Chosen(Affinity(arch, simd), healthy, LoadsOf(healthy), 0, k)
  {
    CandidatesInOrder(healthy, arch, simd);
    hide Preferred, NoRepeats, InOrderOf, IsLeast, LoadsOf, LeastAmong;
    var candidates := Prefer(healthy, true, arch);
    candidates := Prefer(candidates, false, simd);
    var i := LeastOf(candidates);
    LeastInside(candidates, i);
    w := candidates[i];
    k := Standing(healthy, candidates, i);
    LeastLoads(candidates, i);
    LeastStands(healthy, candidates, i, k);
  }

  lemma CandidatesInOrder(healthy: seq<WorkerInfo>, arch: string, simd: string)
    requires NoRepeats(healthy)
    ensures InOrderOf(Preferred(Preferred(healthy, true, arch), false, simd), healthy)
  {
    var matching := Preferred(healthy, true, arch);
    PreferredInOrder(healthy, true, arch);
    PreferredInOrder(matching, false, simd);
    hide Preferred, NoRepeats, InOrderOf;
    OrderCarries(Preferred(matching, false, simd), matching, healthy);
  }

  lemma LeastInside(ws: seq<WorkerInfo>, i: nat)
    requires IsLeast(LoadsOf(ws), i)
    ensures i < |ws|
  {}

  lemma LeastLoads(ws: seq<WorkerInfo>, i: nat)
    requires IsLeast(LoadsOf(ws), i) && i < |ws|
    ensures forall v :: v in ws ==> ws[i].activeJobs <= v.activeJobs
    ensures forall m :: 0 <= m < i ==> ws[i].activeJobs < ws[m].activeJobs
  {
    hide LoadsOf;
    var loads := LoadsOf(ws);
    assert forall m :: 0 <= m < |ws| ==> loads[m] == ws[m].activeJobs;
    assert forall m :: 0 <= m < |ws| ==> loads[i] <= loads[m];
  }

  // The earliest least loaded candidate is the earliest such worker of the whole list.
  lemma LeastStands(healthy: seq<WorkerInfo>, candidates: seq<WorkerInfo>, i: nat, k: nat)
    requires NoRepeats(healthy) && InOrderOf(candidates, healthy) && i < |candidates|
    requires IsLeast(LoadsOf(candidates), i) && k < |healthy| && healthy[k] == candidates[i]
    ensures LeastAmong(healthy, candidates, LoadsOf(healthy), k)
  {
    hide LoadsOf, IsLeast;
    LeastLoads(candidates, i);
    forall j | 0 <= j < k && healthy[j] in candidates ensures healthy[k].activeJobs < healthy[j].activeJobs {
      var m :| 0 <= m < |candidates| && candidates[m] == healthy[j];
      assert m < i;
    }
  }

  lemma Standing(healthy: seq<WorkerInfo>, candidates: seq<WorkerInfo>, i: nat) returns (k: nat)
    requires i < |candidates| && forall w :: w in candidates ==> w in healthy
    ensures k < |healthy| && healthy[k] == candidates[i]
  {
    assert candidates[i] in candidates;
    k :| k < |healthy| && healthy[k] == candidates[i];
  }

  class Coordinator {
    var workers: seq<WorkerInfo>
    var rrIndex: nat

    ghost predicate Valid()
      reads this
    {
      NoRepeats(workers) && forall i, j :: 0 <= i < j < |workers| ==> workers[i].id != workers[j].id
    }

    constructor ()
      ensures Valid() && workers == [] && rrIndex == 0
    {
      workers, rrIndex := [], 0;
    }

    // A worker registered under an id already there takes its place; a new one comes last.
    method RegisterWorker(w: WorkerInfo)
      requires Valid()
      modifies `workers
      ensures Valid()
      ensures forall i :: 0 <= i < |old(workers)| && old(workers)[i].id == w.id ==> workers == old(workers)[i := w]
      ensures (forall v :: v in old(workers) ==> v.id != w.id) ==> workers == old(workers) + [w]
    {
      for i := 0 to |workers|
        invariant workers == old(workers) && forall j :: 0 <= j < i ==> workers[j].id != w.id
      {
        if workers[i].id == w.id {
          workers := workers[i := w];
          return;
        }
      }
      workers := workers + [w];
    }

    method Healthy() returns (h: seq<WorkerInfo>)
      ensures h == HealthyOf(workers) && forall w :: w in h ==> w in workers
    {
      h := [];
      for i := 0 to |workers|
        invariant h == HealthyOf(workers[..i])
      {
        assert workers[..i + 1][..i] == workers[..i];
        if workers[i].healthy { h := h + [workers[i]]; }
      }
      assert workers[..|workers|] == workers;
    }

    method Choose(strategy: Strategy, healthy: seq<WorkerInfo>) returns (w: WorkerInfo, ghost k: nat)
      requires healthy != [] && NoRepeats(healthy)
      modifies `rrIndex
      ensures k < |healthy| && w == healthy[k] && Chosen(strategy, healthy, LoadsOf(healthy), old(rrIndex), k)
      ensures rrIndex == if strategy.RoundRobinJobs? then (old(rrIndex) % |healthy| + 1) % |healthy| else old(rrIndex)
    {
      match strategy
      case RoundRobinJobs =>
        rrIndex := rrIndex % |healthy|;
        w, k := healthy[rrIndex], rrIndex;
        rrIndex := (rrIndex + 1) % |healthy|;
      case LeastLoadedJobs =>
        var i := LeastOf(healthy);
        EarliestIsLeast(LoadsOf(healthy), i);
        w, k := healthy[i], i;
      case Affinity(arch, simd) =>
        w, k := ByAffinity(healthy, arch, simd);
    }

    // The healthy workers' loads.
    ghost function Loads(): (r: seq<nat>)
      reads this, workers
      ensures |r| == |HealthyOf(workers)|
    {
      HealthyLoads(workers)
    }

    // A job for one of the healthy workers, with everything that changes.
    method AssignAmong(strategy: Strategy, h: seq<WorkerInfo>) returns (w: WorkerInfo, ghost k: nat)
      requires Valid() && h != [] && NoRepeats(h)
      modifies this, Among(h)
      ensures Valid() && workers == old(workers) && k < |h| && h[k] == w
      ensures LoadsOf(h) == Bump(old(LoadsOf(h)), k) && Chosen(strategy, h, old(LoadsOf(h)), old(rrIndex), k)
      ensures rrIndex == if strategy.RoundRobinJobs? then (old(rrIndex) % |h| + 1) % |h| else old(rrIndex)
      ensures forall v: WorkerInfo :: v in h ==>
        v.healthy == old(v.healthy) && (v != w ==> v.activeJobs == old(v.activeJobs))
    {
      hide LoadsOf, Chosen, NoRepeats, Bump;
      ghost var loads := LoadsOf(h);
      w, k := Choose(strategy, h);
      assert LoadsOf(h) == loads;
      GiveJob(w, h, k);
    }

    // None when no worker is healthy. The chosen worker has one more job; nothing else changes.
    method AssignJob(strategy: Strategy) returns (r: Option<string>, ghost k: nat)
      requires Valid()
      modifies this, Among(workers)
      ensures Valid() && workers == old(workers)
      ensures r.None? <==> old(Loads()) == []
      ensures r.None? ==> rrIndex == old(rrIndex) && Loads() == old(Loads())
      ensures r.Some? ==>
        k < |old(Loads())| && r.value == old(HealthyOf(workers))[k].id && Loads() == Bump(old(Loads()), k)
      ensures r.Some? ==> Chosen(strategy, old(HealthyOf(workers)), old(Loads()), old(rrIndex), k)
      ensures r.Some? ==>
        rrIndex == if strategy.RoundRobinJobs? then (old(rrIndex) % |Loads()| + 1) % |Loads()| else old(rrIndex)
      ensures r.Some? ==> forall v :: v in workers && v != old(HealthyOf(workers))[k] ==>
        v.activeJobs == old(v.activeJobs)
    {
      hide HealthyLoads, LoadsOf, Chosen, NoRepeats, Bump, HealthyOf;
      HealthyInOrder(workers);
      SameLoads(workers);
      var h := Healthy();
      if h == [] { return None, 0; }
      var w;
      assert Among(h) <= Among(workers);
      w, k := AssignAmong(strategy, h);
      assert HealthyOf(workers) == h;
      SameLoads(workers);
      r := Some(w.id);
    }
  }

  // What an assignment does to the loads and the cursor is one step of the runs whose
  // fairness is proved on values.
  lemma ChosenIsStep(strategy: Strategy, healthy: seq<WorkerInfo>, loads: seq<nat>, cursor: nat, k: nat)
    requires |loads| == |healthy| > 0 && k < |healthy| && Chosen(strategy, healthy, loads, cursor, k)
    ensures strategy.RoundRobinJobs? ==>
      Turns(Bump(loads, k), (cursor % |loads| + 1) % |loads|) == RoundRobinStep(Turns(loads, cursor))
    ensures strategy.LeastLoadedJobs? ==> Bump(loads, k) == LeastLoaded(loads, 1)
    ensures Sum(Bump(loads, k)) == Sum(loads) + 1
  {
    BumpSum(loads, k);
    assert LeastLoaded(loads, 0) == loads;
  }
}
