// The memory pool: free buffers kept by size class, and handed out again.

module MemoryPools {
  import opened Options
  import opened Sequences

  const SIZE_CLASSES: seq<nat> := [64, 256, 1024, 4096, 65536, 1048576, 16777216]

  predicate IsClass(c: nat) { c in SIZE_CLASSES }

  // The smallest class that fits.
  ghost predicate Smallest(size: int, r: Option<nat>) {
    match r
    case None => forall c: nat :: IsClass(c) ==> c < size
    case Some(c) => IsClass(c) && size <= c && forall e: nat :: IsClass(e) && size <= e ==> c <= e
  }

  // The classes, and how much of a pooled buffer a request can leave unused.
  lemma ClassFits(size: int, c: nat)
    requires Smallest(size, Some(c))
    ensures c in {64, 256, 1024, 4096, 65536, 1048576, 16777216} && size <= c
    ensures size <= 64 ==> c == 64
    ensures size > 64 ==> c < 16 * size
    ensures 64 < size <= 4096 ==> c < 4 * size
  {
    assert IsClass(64) && IsClass(256) && IsClass(1024) && IsClass(4096) && IsClass(65536) && IsClass(1048576);
  }

  lemma ClassExists(size: int)
    ensures Smallest(size, None) <==> size > 16777216
  {
    assert IsClass(16777216);
  }

  method FindSizeClass(size: int) returns (r: Option<nat>)
    ensures Smallest(size, r)
  {
    Ascending();
    for k := 0 to |SIZE_CLASSES|
      invariant forall j :: 0 <= j < k ==> SIZE_CLASSES[j] < size
    {
      if size <= SIZE_CLASSES[k] { return Some(SIZE_CLASSES[k]); }
    }
    r := None;
  }

  lemma InClasses(k: nat)
    requires k < |SIZE_CLASSES|
    ensures IsClass(SIZE_CLASSES[k])
  {}

  lemma Ascending()
    ensures forall i, j :: 0 <= i < j < |SIZE_CLASSES| ==> SIZE_CLASSES[i] < SIZE_CLASSES[j]
  {}

  // Bytes held in the first k classes' free lists.
  function Pooled<T>(lists: map<nat, seq<T>>, k: nat): nat
    requires k <= |SIZE_CLASSES| && forall c :: IsClass(c) ==> c in lists
  {
    if k == 0 then 0 else Pooled(lists, k - 1) + SIZE_CLASSES[k - 1] * |lists[SIZE_CLASSES[k - 1]]|
  }

  lemma ProductChange(c: int, m: int, n: int)
    ensures c * m == c * n + c * (m - n)
  {}

  // One free list grows or shrinks.
  lemma {:induction false} PooledChange<T>(lists: map<nat, seq<T>>, c: nat, s: seq<T>, k: nat)
    requires k <= |SIZE_CLASSES| && (forall e :: IsClass(e) ==> e in lists) && c in lists
    ensures Pooled(lists[c := s], k) == Pooled(lists, k) + if c in SIZE_CLASSES[..k] then c * (|s| - |lists[c]|) else 0
  {
    Ascending();
    if k > 0 {
      PooledChange(lists, c, s, k - 1);
      var e := SIZE_CLASSES[k - 1];
      assert SIZE_CLASSES[..k] == SIZE_CLASSES[..k - 1] + [e];
      if c == e {
        assert c !in SIZE_CLASSES[..k - 1];
        ProductChange(c, |s|, |lists[c]|);
      }
    }
  }

  class AlignedBuffer {
    const size: nat
    var live: bool      // whether its memory is still allocated

    constructor (size: nat)
      ensures this.size == size && live
    {
      this.size, live := size, true;
    }

    method Free()
      modifies this
      ensures !live
    {
      live := false;
    }
  }

  // A class's free list: live buffers of its size, each once, none of them held.
  ghost predicate ListOk(s: seq<AlignedBuffer>, c: nat, all: set<AlignedBuffer>, held: set<AlignedBuffer>)
    reads all
  {
    (forall b :: b in s ==> b in all && b !in held && b.size == c && b.live) &&
    forall i, j :: 0 <= i < j < |s| ==> s[i] != s[j]
  }

  ghost predicate ListsOk(lists: map<nat, seq<AlignedBuffer>>, all: set<AlignedBuffer>, held: set<AlignedBuffer>)
    reads all
  {
    (forall c :: c in lists <==> IsClass(c)) && forall c :: c in lists ==> ListOk(lists[c], c, all, held)
  }

  lemma Taken(lists: map<nat, seq<AlignedBuffer>>, all: set<AlignedBuffer>, held: set<AlignedBuffer>, c: nat)
    requires ListsOk(lists, all, held) && c in lists && lists[c] != []
    ensures var s := lists[c]; ListsOk(lists[c := s[..|s| - 1]], all, held + {s[|s| - 1]})
    ensures var b := lists[c][|lists[c]| - 1]; b in all && b !in held && b.size == c && b.live
  {
    var s := lists[c];
    var b := s[|s| - 1];
    assert ListOk(s, c, all, held) && b in s;
    forall e | e in lists && e != c ensures ListOk(lists[e], e, all, held + {b}) {
      assert ListOk(lists[e], e, all, held);
    }
    assert ListOk(s[..|s| - 1], c, all, held + {b});
  }

  lemma Given(lists: map<nat, seq<AlignedBuffer>>, all: set<AlignedBuffer>, held: set<AlignedBuffer>, b: AlignedBuffer)
    requires ListsOk(lists, all, held) && b in held && b in all && b.live && b.size in lists
    ensures ListsOk(lists[b.size := lists[b.size] + [b]], all, held - {b})
  {
    var s := lists[b.size];
    assert ListOk(s, b.size, all, held);
    forall e | e in lists && e != b.size ensures ListOk(lists[e], e, all, held - {b}) {
      assert ListOk(lists[e], e, all, held);
    }
    assert ListOk(s + [b], b.size, all, held - {b});
  }

  // The byte count is the lists' total, and within the cap.
  ghost predicate CountOk<T>(lists: map<nat, seq<T>>, bytes: int, cap: int) {
    (forall c :: IsClass(c) ==> c in lists) && bytes == Pooled(lists, |SIZE_CLASSES|) && (bytes > 0 ==> bytes <= cap)
  }

  lemma CountTaken<T>(lists: map<nat, seq<T>>, c: nat, bytes: int, cap: int)
    requires CountOk(lists, bytes, cap) && IsClass(c) && lists[c] != []
    ensures CountOk(lists[c := lists[c][..|lists[c]| - 1]], bytes - c, cap)
  {
    PooledChange(lists, c, lists[c][..|lists[c]| - 1], |SIZE_CLASSES|);
    assert SIZE_CLASSES[..|SIZE_CLASSES|] == SIZE_CLASSES;
  }

  lemma CountGiven<T>(lists: map<nat, seq<T>>, c: nat, b: T, bytes: int, cap: int)
    requires CountOk(lists, bytes, cap) && IsClass(c) && bytes + c <= cap
    ensures CountOk(lists[c := lists[c] + [b]], bytes + c, cap)
  {
    PooledChange(lists, c, lists[c] + [b], |SIZE_CLASSES|);
    assert SIZE_CLASSES[..|SIZE_CLASSES|] == SIZE_CLASSES;
  }

  // A new buffer, held.
  lemma Joined(lists: map<nat, seq<AlignedBuffer>>, all: set<AlignedBuffer>, held: set<AlignedBuffer>, b: AlignedBuffer)
    requires ListsOk(lists, all, held) && b !in all
    ensures ListsOk(lists, all + {b}, held + {b})
  {
    forall c | c in lists ensures ListOk(lists[c], c, all + {b}, held + {b}) { assert ListOk(lists[c], c, all, held); }
  }

  class MemoryPool {
    const maxPoolBytes: int
    var freeLists: map<nat, seq<AlignedBuffer>>
    var pooledBytes: int
    var hits: nat
    var misses: nat
    ghost var held: set<AlignedBuffer>   // given out and not yet released
    ghost var all: set<AlignedBuffer>    // ever given out
    ghost var successes: nat
    ghost var failures: nat              // system allocations that failed

    ghost predicate Valid()
      reads this, all
    {
      held <= all && hits + misses == successes + failures && ListsOk(freeLists, all, held) &&
      CountOk(freeLists, pooledBytes, maxPoolBytes)
    }

    constructor (maxPoolBytes: int := 512 * 1024 * 1024)
      ensures Valid() && held == {} && all == {} && this.maxPoolBytes == maxPoolBytes
      ensures hits == misses == successes == failures == 0 && pooledBytes == 0
    {
      this.maxPoolBytes, pooledBytes, hits, misses := maxPoolBytes, 0, 0, 0;
      freeLists := map c | c in SIZE_CLASSES :: [];
      held, all, successes, failures := {}, {}, 0, 0;
      new;
      NothingPooled(freeLists, |SIZE_CLASSES|);
    }

    // None stands for the errors: a size that is not positive, or a system that has no memory.
    method Allocate(size: int, systemHasMemory: bool) returns (r: Option<AlignedBuffer>)
      requires Valid()
      modifies this
      ensures Valid() && pooledBytes <= old(pooledBytes)
      ensures r.None? ==> (size <= 0 || !systemHasMemory) && held == old(held) && successes == old(successes)
      ensures r.Some? ==> size > 0 && Serves(r.value, size) && r.value !in old(held) && held == old(held) + {r.value}
      ensures r.Some? ==> successes == old(successes) + 1 && (fresh(r.value) || r.value in old(all))
      ensures hits == old(hits) + (if r.Some? && r.value in old(all) then 1 else 0)
      ensures size <= 0 ==> misses == old(misses) && all == old(all) && freeLists == old(freeLists)
      ensures forall c: nat :: size > 0 && Smallest(size, Some(c)) && old(Free(c)) != [] ==>
        r == Some(Last(old(Free(c)))) && freeLists == old(freeLists[c := Front(Free(c))]) &&
        pooledBytes == old(pooledBytes) - c && hits == old(hits) + 1 && misses == old(misses) && all == old(all)
      ensures size > 0 && (forall c: nat :: Smallest(size, Some(c)) ==> old(Free(c)) == []) ==>
        r.Some? == systemHasMemory && misses == old(misses) + 1 && hits == old(hits) &&
        pooledBytes == old(pooledBytes) && freeLists == old(freeLists) &&
        if r.Some? then fresh(r.value) && all == old(all) + {r.value} else all == old(all)
    {
      if size <= 0 { return None; }
      ClassesHaveLists();
      var class_ := FindSizeClass(size);
      OneSmallest(size, class_);
      hide Smallest, IsClass, ListsOk, CountOk, Serves;
      if class_.Some? && freeLists[class_.value] != [] {
        var b := Reuse(class_.value);
        Fits(b, size);
        return Some(b);
      }
      r := FromSystem(size, class_, systemHasMemory);
    }

    lemma ClassesHaveLists()
      requires Valid()
      ensures forall c: nat :: IsClass(c) <==> c in freeLists
    {}

    method FromSystem(size: nat, class_: Option<nat>, systemHasMemory: bool) returns (r: Option<AlignedBuffer>)
      requires Valid() && Smallest(size, class_)
      modifies `misses, `failures, `held, `all, `successes
      ensures Valid() && (r.None? <==> !systemHasMemory)
      ensures r.None? ==> held == old(held) && successes == old(successes)
      ensures misses == old(misses) + 1 && all == if r.Some? then old(all) + {r.value} else old(all)
      ensures r.Some? ==>
        fresh(r.value) && Serves(r.value, size) && held == old(held) + {r.value} && successes == old(successes) + 1
    {
      hide ListsOk, CountOk;
      misses := misses + 1;
      if !systemHasMemory { failures := failures + 1; return None; }
      var b := new AlignedBuffer(if class_.Some? then class_.value else size);
      Joined(freeLists, all, held, b);
      held, all, successes := held + {b}, all + {b}, successes + 1;
      r := Some(b);
    }

    // The buffer released last.
    method Reuse(c: nat) returns (b: AlignedBuffer)
      requires Valid() && c in freeLists && freeLists[c] != []
      modifies `freeLists, `pooledBytes, `hits, `held, `successes
      ensures Valid() && b == Last(old(freeLists[c])) && freeLists == old(freeLists[c := Front(freeLists[c])])
      ensures b.size == c && b.live && b in all && b !in old(held) && held == old(held) + {b}
      ensures hits == old(hits) + 1 && successes == old(successes) + 1 && pooledBytes == old(pooledBytes) - c
    {
      hide ListsOk, CountOk, Smallest, IsClass;
      var s := freeLists[c];
      b := s[|s| - 1];
      ClassesHaveLists();
      Taken(freeLists, all, held, c);
      CountTaken(freeLists, c, pooledBytes, maxPoolBytes);
      freeLists := freeLists[c := s[..|s| - 1]];
      pooledBytes := pooledBytes - c;
      hits := hits + 1;
      held, successes := held + {b}, successes + 1;
    }

    // The buffer is pooled when it is of a class's size and the cap allows; else it is freed.
    // A client may have freed it already.
    method Release(b: AlignedBuffer)
      requires Valid() && b in held
      modifies `freeLists, `pooledBytes, `held, b
      ensures Valid() && held == old(held) - {b}
      ensures b.live <==> old(b.live) && IsClass(b.size) && old(pooledBytes) + b.size <= maxPoolBytes
      ensures b.live ==> pooledBytes == old(pooledBytes) + b.size
      ensures b.live ==> freeLists == old(freeLists[b.size := Free(b.size) + [b]])
      ensures !b.live ==> pooledBytes == old(pooledBytes) && freeLists == old(freeLists)
    {
      Unlisted(freeLists, all, held, b);
      var class_ := FindSizeClass(b.size);
      ClassItself(b.size, class_);
      if b.live && class_ == Some(b.size) && pooledBytes + b.size <= maxPoolBytes {
        Keep(b);
        return;
      }
      hide ListsOk, CountOk, Smallest, IsClass;
      held := held - {b};
      if b.live { b.Free(); }
      Listed(freeLists, all, old(held), b);
    }

    // Whatever was pooled when this began is freed by now, or still waits in its list.
    ghost predicate Draining(was: map<nat, seq<AlignedBuffer>>)
      reads this, set c, b | c in was && b in was[c] :: b
    {
      forall c, b :: c in was && b in was[c] ==> !b.live || b in Free(c)
    }

    // Pops and frees one buffer.
    method FreeLast(c: nat, ghost was: map<nat, seq<AlignedBuffer>>)
      requires ListsOk(freeLists, all, held) && c in freeLists && freeLists[c] != [] && Draining(was)
      modifies `freeLists, all - held
      ensures ListsOk(freeLists, all, held) && freeLists == old(freeLists)[c := freeLists[c]] && Draining(was)
      ensures freeLists[c] == old(freeLists[c])[..|old(freeLists[c])| - 1]
    {
      hide ListsOk;
      var s := freeLists[c];
      var b := s[|s| - 1];
      Taken(freeLists, all, held, c);
      ghost var rest := freeLists[c := s[..|s| - 1]];
      Unlisted(rest, all, held + {b}, b);
      assert held + {b} - {b} == held;
      assert s == s[..|s| - 1] + [b];
      freeLists := freeLists[c := s[..|s| - 1]];
      b.Free();
      Listed(rest, all, held + {b}, b);
    }

    method DrainClass(c: nat, ghost was: map<nat, seq<AlignedBuffer>>)
      requires ListsOk(freeLists, all, held) && c in freeLists && Draining(was)
      modifies `freeLists, all - held
      ensures ListsOk(freeLists, all, held) && freeLists == old(freeLists)[c := []] && Draining(was)
    {
      hide ListsOk, Draining;
      while freeLists[c] != []
        invariant ListsOk(freeLists, all, held) && c in freeLists && Draining(was)
        invariant freeLists == old(freeLists)[c := freeLists[c]]
        decreases |freeLists[c]|
      {
        FreeLast(c, was);
      }
    }

    ghost predicate EmptyTo(k: nat)
      requires k <= |SIZE_CLASSES|
      reads this
    {
      forall j :: 0 <= j < k ==> SIZE_CLASSES[j] in freeLists && freeLists[SIZE_CLASSES[j]] == []
    }

    lemma EmptyFacts(k: nat)
      requires k <= |SIZE_CLASSES| && EmptyTo(k)
      ensures forall j :: 0 <= j < k ==> SIZE_CLASSES[j] in freeLists && freeLists[SIZE_CLASSES[j]] == []
    {}

    lemma EmptyMore(before: map<nat, seq<AlignedBuffer>>, k: nat)
      requires k < |SIZE_CLASSES| && freeLists == before[SIZE_CLASSES[k] := []]
      requires forall j :: 0 <= j < k ==> SIZE_CLASSES[j] in before && before[SIZE_CLASSES[j]] == []
      ensures EmptyTo(k + 1)
    {}

    lemma Drained(was: map<nat, seq<AlignedBuffer>>)
      requires Draining(was) && EmptyTo(|SIZE_CLASSES|) && ListsOk(freeLists, all, held)
      ensures forall c, b :: c in was && b in was[c] ==> !b.live
      ensures CountOk(freeLists, 0, maxPoolBytes) && forall c :: c in freeLists ==> freeLists[c] == []
    {
      AllEmpty(freeLists, all, held, maxPoolBytes);
    }

    method ReleaseAll()
      requires Valid()
      modifies `freeLists, `pooledBytes, all - held
      ensures Valid() && pooledBytes == 0 && forall c :: c in freeLists ==> freeLists[c] == []
      ensures forall c, b :: c in old(freeLists) && b in old(freeLists)[c] ==> !b.live
    {
      ClassesHaveLists();
      ghost var was := freeLists;
      assert Draining(was) && EmptyTo(0);
      hide ListsOk, CountOk, IsClass, Draining, EmptyTo;
      for k := 0 to |SIZE_CLASSES|
        invariant ListsOk(freeLists, all, held) && freeLists.Keys == was.Keys && Draining(was) && EmptyTo(k)
      {
        InClasses(k);
        ghost var before := freeLists;
        EmptyFacts(k);
        DrainClass(SIZE_CLASSES[k], was);
        EmptyMore(before, k);
      }
      Drained(was);
      pooledBytes := 0;
    }

    // Hits and misses count the successful allocations exactly when the system never failed:
    // a miss is counted before the system is asked.
    lemma HitsAndMisses()
      requires Valid()
      ensures hits + misses == successes + failures
      ensures hits + misses == successes <==> failures == 0
    {}

    // No buffer is both held and pooled, and none is pooled twice.
    lemma HeldOrPooled(c: nat, i: nat)
      requires Valid() && i < |Free(c)|
      ensures Free(c)[i] !in held && Free(c)[i].live && Free(c)[i].size == c
      ensures forall e: nat, j: nat :: j < |Free(e)| && (e, j) != (c, i) ==> Free(e)[j] != Free(c)[i]
    {
      assert ListOk(freeLists[c], c, all, held);
      forall e: nat, j: nat | j < |Free(e)| && (e, j) != (c, i) ensures Free(e)[j] != Free(c)[i] {
        assert ListOk(freeLists[e], e, all, held);
        assert Free(e)[j] in freeLists[e] && Free(c)[i] in freeLists[c];
      }
    }

    function Free(c: nat): seq<AlignedBuffer>
      reads this
    {
      if c in freeLists then freeLists[c] else []
    }

    method Keep(b: AlignedBuffer)
      requires Valid() && b in held && b.live && IsClass(b.size) && pooledBytes + b.size <= maxPoolBytes
      modifies `freeLists, `pooledBytes, `held
      ensures Valid() && held == old(held) - {b} && pooledBytes == old(pooledBytes) + b.size
      ensures freeLists == old(freeLists[b.size := Free(b.size) + [b]])
    {
      ClassesHaveLists();
      var s := freeLists[b.size] + [b];
      Given(freeLists, all, held, b);
      CountGiven(freeLists, b.size, b, pooledBytes, maxPoolBytes);
      hide ListsOk, CountOk, IsClass;
      freeLists := freeLists[b.size := s];
      pooledBytes := pooledBytes + b.size;
      held := held - {b};
    }
  }

  // What a client asked for: the smallest class that fits, or the exact size beyond them all.
  ghost predicate Serves(b: AlignedBuffer, size: int)
    reads b
  {
    b.live && b.size >= size && (Smallest(size, Some(b.size)) || (Smallest(size, None) && b.size == size))
  }

  lemma Fits(b: AlignedBuffer, size: int)
    requires b.live && Smallest(size, Some(b.size))
    ensures Serves(b, size)
  {}

  lemma OneSmallest(size: int, r: Option<nat>)
    requires Smallest(size, r)
    ensures forall c: nat :: Smallest(size, Some(c)) ==> r == Some(c)
  {}

  lemma ClassItself(size: nat, r: Option<nat>)
    requires Smallest(size, r)
    ensures r == Some(size) <==> IsClass(size)
  {}

  // Freeing a held buffer touches no free list.
  lemma Unlisted(lists: map<nat, seq<AlignedBuffer>>, all: set<AlignedBuffer>, held: set<AlignedBuffer>,
                 b: AlignedBuffer)
    requires ListsOk(lists, all, held) && b in held
    ensures ListsOk(lists, all - {b}, held - {b})
  {
    forall c | c in lists ensures ListOk(lists[c], c, all - {b}, held - {b}) { assert ListOk(lists[c], c, all, held); }
  }

  lemma Listed(lists: map<nat, seq<AlignedBuffer>>, all: set<AlignedBuffer>, held: set<AlignedBuffer>, b: AlignedBuffer)
    requires ListsOk(lists, all - {b}, held - {b}) && b in held
    ensures ListsOk(lists, all, held - {b})
  {
    forall c | c in lists ensures ListOk(lists[c], c, all, held - {b}) {
      assert ListOk(lists[c], c, all - {b}, held - {b});
    }
  }

  lemma AllEmpty(lists: map<nat, seq<AlignedBuffer>>, all: set<AlignedBuffer>, held: set<AlignedBuffer>, cap: int)
    requires ListsOk(lists, all, held) && forall k :: 0 <= k < |SIZE_CLASSES| ==>
      SIZE_CLASSES[k] in lists && lists[SIZE_CLASSES[k]] == []
    ensures CountOk(lists, 0, cap) && forall c :: c in lists ==> lists[c] == []
  {
    NothingPooled(lists, |SIZE_CLASSES|);
  }

  lemma {:induction false} NothingPooled<T>(lists: map<nat, seq<T>>, k: nat)
    requires k <= |SIZE_CLASSES| && forall c :: IsClass(c) ==> c in lists && lists[c] == []
    ensures Pooled(lists, k) == 0
  {
    if k > 0 { NothingPooled(lists, k - 1); }
  }
}
