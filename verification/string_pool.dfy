// The string interning pool: one counted object per content, collected when unreferenced.

module StringPools {
  class InternedString {
    const content: string
    const id: nat
    var refCount: int

    constructor (content: string, id: nat)
      ensures this.content == content && this.id == id && refCount == 1
    {
      this.content, this.id, refCount := content, id, 1;
    }
  }

  const GC_THRESHOLD: nat := 1000

  // An entry counts its handles; while it has any, it is the pool's entry for its content.
  ghost predicate EntryOk(x: InternedString, pool: map<string, InternedString>, nextId: nat,
                          handles: multiset<InternedString>)
    reads x
  {
    x.refCount == handles[x] && x.id < nextId && (handles[x] > 0 ==> x.content in pool && pool[x.content] == x)
  }

  // Ids are unique among all entries ever made.
  ghost predicate PoolOk(pool: map<string, InternedString>, nextId: nat, handles: multiset<InternedString>,
                         all: set<InternedString>)
    reads all
  {
    (forall x :: x in all ==> EntryOk(x, pool, nextId, handles)) &&
    (forall x :: x in handles ==> x in all) &&
    (forall s :: s in pool ==> pool[s] in all && pool[s].content == s) &&
    forall x, y :: x in all && y in all && x.id == y.id ==> x == y
  }

  // A new entry, with one handle.
  lemma Interned(pool: map<string, InternedString>, nextId: nat, handles: multiset<InternedString>,
                 all: set<InternedString>, r: InternedString)
    requires PoolOk(pool, nextId, handles, all) && r !in all && r.content !in pool && r.id == nextId && r.refCount == 1
    ensures PoolOk(pool[r.content := r], nextId + 1, handles + multiset{r}, all + {r})
  {
    forall x | x in all ensures EntryOk(x, pool[r.content := r], nextId + 1, handles + multiset{r}) {
      assert EntryOk(x, pool, nextId, handles);
    }
  }

  // The pool without its unreferenced strings.
  ghost function Collected(pool: map<string, InternedString>): map<string, InternedString>
    reads set s | s in pool :: pool[s]
  {
    map s | s in pool && pool[s].refCount != 0 :: pool[s]
  }

  lemma CollectedOk(pool: map<string, InternedString>, nextId: nat, handles: multiset<InternedString>,
                    all: set<InternedString>)
    requires PoolOk(pool, nextId, handles, all)
    ensures PoolOk(Collected(pool), nextId, handles, all)
  {
    forall x | x in all ensures EntryOk(x, Collected(pool), nextId, handles) {
      assert EntryOk(x, pool, nextId, handles);
    }
  }

  // A collection keeps exactly the entries that are held, as they are.
  lemma CollectedExactly(pool: map<string, InternedString>, nextId: nat, handles: multiset<InternedString>,
                         all: set<InternedString>)
    requires PoolOk(pool, nextId, handles, all)
    ensures forall s :: s in Collected(pool) <==> s in pool && pool[s] in handles
    ensures forall s :: s in Collected(pool) ==> Collected(pool)[s] == pool[s]
  {
    forall s | s in pool ensures pool[s].refCount == handles[pool[s]] {
      assert EntryOk(pool[s], pool, nextId, handles);
    }
  }

  // The pool with a new entry r: at a thousand strings only the held ones stay beside it.
  ghost predicate Admitted(was: map<string, InternedString>, held: multiset<InternedString>,
                           now: map<string, InternedString>, r: InternedString)
  {
    r.content in now && now[r.content] == r &&
    forall s :: s != r.content ==>
      (s in now <==> s in was && (|was| + 1 >= 1000 ==> was[s] in held)) && (s in now ==> now[s] == was[s])
  }

  lemma AdmittedBeside(was: map<string, InternedString>, held: multiset<InternedString>, r: InternedString)
    requires r.content !in was && |was[r.content := r]| < GC_THRESHOLD
    ensures Admitted(was, held, was[r.content := r], r)
  {}

  lemma AdmittedCollected(was: map<string, InternedString>, held: multiset<InternedString>,
                          now: map<string, InternedString>, r: InternedString)
    requires r.content !in was && (forall s :: s in was ==> was[s] != r) && |was[r.content := r]| >= GC_THRESHOLD
    requires var full := was[r.content := r];
      (forall s :: s in now <==> s in full && full[s] in held + multiset{r}) &&
      forall s :: s in now ==> now[s] == full[s]
    ensures Admitted(was, held, now, r)
  {
    assert |was[r.content := r]| == |was| + 1;
  }

  class StringPool {
    var pool: map<string, InternedString>
    var nextId: nat
    ghost var handles: multiset<InternedString>   // interned and not yet released
    ghost var all: set<InternedString>            // every entry ever made

    ghost predicate Valid()
      reads this, all
    {
      PoolOk(pool, nextId, handles, all)
    }

    constructor ()
      ensures Valid() && handles == multiset{} && pool == map[] && all == {}
    {
      pool, nextId, handles, all := map[], 0, multiset{}, {};
    }

    // `_garbage_collect`: find the unreferenced strings, then delete them.
    method Collect()
      requires Valid()
      modifies `pool
      ensures Valid() && pool == old(Collected(pool))
      ensures forall s :: s in pool <==> s in old(pool) && old(pool)[s] in handles
      ensures forall s :: s in pool ==> pool[s] == old(pool)[s]
    {
      CollectedExactly(pool, nextId, handles, all);
      CollectedOk(pool, nextId, handles, all);
      var unreferenced := set s | s in pool && pool[s].refCount == 0;
      assert pool - unreferenced == Collected(pool);
      hide PoolOk;
      pool := pool - unreferenced;
    }

    // Manual collection: how many strings were removed.
    method GarbageCollect() returns (removed: int)
      requires Valid()
      modifies `pool
      ensures Valid() && removed == |set s | s in old(pool) && old(pool)[s] !in handles| == |old(pool)| - |pool|
      ensures forall s :: s in pool <==> s in old(pool) && old(pool)[s] in handles
      ensures forall s :: s in pool ==> pool[s] == old(pool)[s]
    {
      var before := |pool|;
      Collect();
      removed := before - |pool|;
      ghost var gone := set s | s in old(pool) && old(pool)[s] !in handles;
      assert old(pool).Keys == pool.Keys + gone && pool.Keys !! gone;
    }

    // The entry for this content, counted once more, or a new one.
    method Intern(content: string) returns (r: InternedString)
      requires Valid()
      modifies this, all
      ensures Valid() && r.content == content && handles == old(handles) + multiset{r} && all == old(all) + {r}
      ensures content in old(pool) ==> r == old(pool)[content] && pool == old(pool) && nextId == old(nextId)
      ensures content !in old(pool) ==>
        fresh(r) && r.id == old(nextId) && nextId == old(nextId) + 1 && Admitted(old(pool), old(handles), pool, r)
    {
      hide PoolOk;
      if content in pool {
        PooledIsKnown(content);
        r := Again(content);
      } else {
        r := Admit(content);
      }
    }

    method Admit(content: string) returns (r: InternedString)
      requires Valid() && content !in pool
      modifies this
      ensures Valid() && r.content == content && handles == old(handles) + multiset{r} && all == old(all) + {r}
      ensures fresh(r) && r.id == old(nextId) && nextId == old(nextId) + 1 && Admitted(old(pool), old(handles), pool, r)
    {
      EntriesKnown();
      hide PoolOk, Collected, Admitted;
      ghost var was, held := pool, handles;
      r := Create(content);
      if |pool| >= GC_THRESHOLD {
        Collect();
        AdmittedCollected(was, held, pool, r);
      } else {
        AdmittedBeside(was, held, r);
      }
    }

    lemma EntriesKnown()
      requires Valid()
      ensures forall s :: s in pool ==> pool[s] in all
    {}

    lemma PooledIsKnown(content: string)
      requires Valid() && content in pool
      ensures pool[content] in all
    {}

    method Again(content: string) returns (r: InternedString)
      requires Valid() && content in pool
      modifies `handles, pool[content]
      ensures Valid() && r == pool[content] && r.content == content && r in all && handles == old(handles) + multiset{r}
    {
      r := pool[content];
      r.refCount := r.refCount + 1;
      handles := handles + multiset{r};
    }

    method Create(content: string) returns (r: InternedString)
      requires Valid() && content !in pool
      modifies this
      ensures Valid() && fresh(r) && r.content == content && r.id == old(nextId) && r.refCount == 1
      ensures pool == old(pool)[content := r] && nextId == old(nextId) + 1
      ensures handles == old(handles) + multiset{r} && all == old(all) + {r}
    {
      hide PoolOk;
      r := new InternedString(content, nextId);
      Interned(pool, nextId, handles, all, r);
      pool, nextId, handles, all := pool[content := r], nextId + 1, handles + multiset{r}, all + {r};
    }

    // For a handle the caller holds; one released too often is an error in the source.
    method Release(x: InternedString)
      requires Valid() && x in handles
      modifies `handles, x
      ensures Valid() && handles == old(handles) - multiset{x} && x.refCount == old(x.refCount) - 1 >= 0
    {
      x.refCount := x.refCount - 1;
      handles := handles - multiset{x};
    }

    // Main result: held strings are the same object exactly when their contents are equal,
    // and every held string is in the pool.
    lemma SameExactlyWhenEqual(x: InternedString, y: InternedString)
      requires Valid() && x in handles && y in handles
      ensures x == y <==> x.content == y.content
      ensures x == y <==> x.id == y.id
      ensures x.content in pool && pool[x.content] == x && x.refCount == handles[x] > 0
    {}
  }
}
