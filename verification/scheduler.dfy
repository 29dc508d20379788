// The parallel range splitter, and why any interleaving of its workers gives the sequential
// result.

module Scheduler {
  datatype Range = Range(start: int, end: int)

  // Consecutive ranges from 0 to end.
  ghost predicate Chain(ranges: seq<Range>, end: int) {
    if ranges == [] then end == 0
    else
      var last := ranges[|ranges| - 1];
      last.start <= last.end == end && Chain(ranges[..|ranges| - 1], last.start)
  }

  predicate In(r: Range, i: int) { r.start <= i < r.end }

  // A full chunk, or what is left of one at the end.
  predicate IsChunk(r: Range, chunk: int, total: int) {
    0 < r.end - r.start <= chunk && (r.end - r.start == chunk || r.end == total)
  }

  // The ranges handed to the workers. A single one does everything when there is one thread,
  // or no more iterations than threads.
  method ParallelFor(numThreads: int, total: int) returns (ranges: seq<Range>)
    ensures total >= 0 ==> Chain(ranges, total)
    ensures numThreads <= 1 || total <= numThreads ==> ranges == [Range(0, total)]
    ensures |ranges| <= if numThreads > 1 then numThreads else 1
    ensures numThreads > 1 && total > numThreads ==>
      forall r :: r in ranges ==> IsChunk(r, (total + numThreads - 1) / numThreads, total)
  {
    if numThreads <= 1 || total <= numThreads {
      return [Range(0, total)];
    }
    var chunk := (total + numThreads - 1) / numThreads;
    ChunksCover(numThreads, total);
    StartsEmpty();
    hide Chain;
    ranges := [];
    var i := 0;
    while i < numThreads && i * chunk < total
      invariant 0 <= i <= numThreads && |ranges| == i
      invariant Chain(ranges, if i * chunk < total then i * chunk else total)
      invariant forall r :: r in ranges ==> IsChunk(r, chunk, total)
    {
      var start := i * chunk;
      var end := if start + chunk < total then start + chunk else total;
      ChainGrows(ranges, start, end);
      NextStart(i, chunk);
      ranges := ranges + [Range(start, end)];
      i := i + 1;
    }
  }

  lemma StartsEmpty()
    ensures Chain([], 0)
  {}

  lemma ChainGrows(ranges: seq<Range>, start: int, end: int)
    requires Chain(ranges, start) && start <= end
    ensures Chain(ranges + [Range(start, end)], end)
  {
    var more := ranges + [Range(start, end)];
    assert more[..|more| - 1] == ranges;
  }

  lemma NextStart(i: int, chunk: int)
    ensures (i + 1) * chunk == i * chunk + chunk
  {}

  lemma ChunksCover(n: int, total: int)
    requires n > 1 && total > n
    ensures var chunk := (total + n - 1) / n; chunk > 0 && n * chunk >= total
  {
    var chunk := (total + n - 1) / n;
    assert total + n - 1 == n * chunk + (total + n - 1) % n;
  }

  lemma {:induction false} ChainCovers(ranges: seq<Range>, end: int, i: int)
    requires Chain(ranges, end)
    ensures end >= 0
    ensures (exists k :: 0 <= k < |ranges| && In(ranges[k], i)) <==> 0 <= i < end
  {
    if ranges != [] {
      var init, last := ranges[..|ranges| - 1], ranges[|ranges| - 1];
      ChainCovers(init, last.start, i);
      if In(last, i) { assert In(ranges[|ranges| - 1], i); }
      if 0 <= i < last.start {
        var k :| 0 <= k < |init| && In(init[k], i);
        assert In(ranges[k], i);
      }
      if k :| 0 <= k < |ranges| && In(ranges[k], i) && k < |init| { assert In(init[k], i); }
    }
  }

  lemma {:induction false} ChainBelow(ranges: seq<Range>, end: int, k: int)
    requires Chain(ranges, end) && 0 <= k < |ranges|
    ensures 0 <= ranges[k].start <= ranges[k].end <= end
  {
    var init, last := ranges[..|ranges| - 1], ranges[|ranges| - 1];
    if k < |init| { ChainBelow(init, last.start, k); } else { ChainCovers(init, last.start, 0); }
  }

  // Main result: the ranges tile [0, total): each index is in exactly one, and no other is in any.
  lemma {:induction false} RangesTile(ranges: seq<Range>, total: int, i: int, j: int, k: int)
    requires Chain(ranges, total)
    requires 0 <= j < |ranges| && 0 <= k < |ranges| && In(ranges[j], i) && In(ranges[k], i)
    ensures j == k
  {
    var init, last := ranges[..|ranges| - 1], ranges[|ranges| - 1];
    if j < |init| && k < |init| {
      RangesTile(init, last.start, i, j, k);
    } else {
      if j < |init| { ChainBelow(init, last.start, j); }
      if k < |init| { ChainBelow(init, last.start, k); }
    }
  }

  // ----- interleavings -----

  // Each worker's next index.
  datatype Progress<T> = Progress(cells: seq<T>, next: seq<int>)

  ghost predicate Started<T>(ranges: seq<Range>, p: Progress<T>) {
    |p.next| == |ranges| && Chain(ranges, |p.cells|) &&
    forall w :: 0 <= w < |ranges| ==> ranges[w].start <= p.next[w] <= ranges[w].end
  }

  // Worker w does its next index, if any is left.
  function Turn<T>(f: (int, T) -> T, ranges: seq<Range>, p: Progress<T>, w: nat): Progress<T> {
    if w < |ranges| == |p.next| && 0 <= p.next[w] < ranges[w].end && p.next[w] < |p.cells|
    then Progress(p.cells[p.next[w] := f(p.next[w], p.cells[p.next[w]])], p.next[w := p.next[w] + 1])
    else p
  }

  // The turns of a schedule, one after another.
  function Interleave<T>(f: (int, T) -> T, ranges: seq<Range>, p: Progress<T>, schedule: seq<nat>): Progress<T> {
    if schedule == [] then p
    else Turn(f, ranges, Interleave(f, ranges, p, schedule[..|schedule| - 1]), schedule[|schedule| - 1])
  }

  function Start(ranges: seq<Range>): seq<int> { seq(|ranges|, w requires 0 <= w < |ranges| => ranges[w].start) }

  function Sequential<T>(f: (int, T) -> T, cells: seq<T>): seq<T> {
    seq(|cells|, i requires 0 <= i < |cells| => f(i, cells[i]))
  }

  // Cells already passed by their worker are done; the others are untouched.
  ghost predicate Halfway<T>(f: (int, T) -> T, ranges: seq<Range>, cells: seq<T>, p: Progress<T>) {
    |p.cells| == |cells| && Started(ranges, p) &&
    forall w, i :: 0 <= w < |ranges| && In(ranges[w], i) && 0 <= i < |cells| ==>
      p.cells[i] == if i < p.next[w] then f(i, cells[i]) else cells[i]
  }

  lemma TurnHalfway<T>(f: (int, T) -> T, ranges: seq<Range>, cells: seq<T>, p: Progress<T>, w: nat)
    requires Halfway(f, ranges, cells, p)
    ensures Halfway(f, ranges, cells, Turn(f, ranges, p, w))
  {
    var q := Turn(f, ranges, p, w);
    if q != p {
      var at := p.next[w];
      forall v, i | 0 <= v < |ranges| && In(ranges[v], i) && 0 <= i < |cells|
        ensures q.cells[i] == if i < q.next[v] then f(i, cells[i]) else cells[i]
      {
        if i == at { RangesTile(ranges, |cells|, i, v, w); }
      }
    }
  }

  lemma {:induction false} StaysHalfway<T>(f: (int, T) -> T, ranges: seq<Range>, cells: seq<T>, schedule: seq<nat>)
    requires Chain(ranges, |cells|)
    ensures Halfway(f, ranges, cells, Interleave(f, ranges, Progress(cells, Start(ranges)), schedule))
  {
    hide Turn;
    if schedule == [] {
      forall w | 0 <= w < |ranges| ensures ranges[w].start <= ranges[w].end { ChainBelow(ranges, |cells|, w); }
    } else {
      StaysHalfway(f, ranges, cells, schedule[..|schedule| - 1]);
      hide Halfway;
      TurnHalfway(f, ranges, cells, Interleave(f, ranges, Progress(cells, Start(ranges)), schedule[..|schedule| - 1]),
        schedule[|schedule| - 1]);
    }
  }

  // Main result: once every worker is done, whatever the schedule was, each cell holds what a
  // sequential loop would have put there.
  lemma AnyInterleaving<T>(f: (int, T) -> T, ranges: seq<Range>, cells: seq<T>, schedule: seq<nat>)
    requires Chain(ranges, |cells|)
    requires var p := Interleave(f, ranges, Progress(cells, Start(ranges)), schedule);
      |p.next| == |ranges| && forall w :: 0 <= w < |ranges| ==> p.next[w] == ranges[w].end
    ensures Interleave(f, ranges, Progress(cells, Start(ranges)), schedule).cells == Sequential(f, cells)
  {
    StaysHalfway(f, ranges, cells, schedule);
    var p := Interleave(f, ranges, Progress(cells, Start(ranges)), schedule);
    forall i | 0 <= i < |cells| ensures p.cells[i] == f(i, cells[i]) {
      ChainCovers(ranges, |cells|, i);
      var k :| 0 <= k < |ranges| && In(ranges[k], i);
    }
  }
}
