// The pool helper: which list each pool is in, what its counters add up to, and the two
// together over whole runs.

module PoolCache {
  import opened MemoryPool

  // ---------- lists and sums ----------

  function Occ(l: seq<Addr>, p: Addr): nat {
    if l == [] then 0 else (if l[0] == p then 1 else 0) + Occ(l[1..], p)
  }

  function OccLists(ls: seq<seq<Addr>>, p: Addr): nat {
    if ls == [] then 0 else Occ(ls[0], p) + OccLists(ls[1..], p)
  }

  function Cap(pools: map<Addr, Pool>, p: Addr): nat { if p in pools then pools[p].capacity else 0 }

  function Sum(pools: map<Addr, Pool>, l: seq<Addr>): nat {
    if l == [] then 0 else Cap(pools, l[0]) + Sum(pools, l[1..])
  }

  function SumLists(pools: map<Addr, Pool>, ls: seq<seq<Addr>>): nat {
    if ls == [] then 0 else Sum(pools, ls[0]) + SumLists(pools, ls[1..])
  }

  lemma {:induction false} OccIn(l: seq<Addr>, p: Addr)
    ensures p in l <==> Occ(l, p) > 0
  {
    if l != [] { OccIn(l[1..], p); }
  }

  lemma {:induction false} OccWithout(l: seq<Addr>, p: Addr, q: Addr)
    requires p in l
    ensures Occ(Without(l, p), q) == Occ(l, q) - (if q == p then 1 else 0)
  {
    if l[0] != p {
      OccWithout(l[1..], p, q);
      assert ([l[0]] + Without(l[1..], p))[1..] == Without(l[1..], p);
    }
  }

  lemma {:induction false} OccSnoc(l: seq<Addr>, p: Addr, q: Addr)
    ensures Occ(l + [p], q) == Occ(l, q) + (if q == p then 1 else 0)
  {
    if l == [] {
      assert l + [p] == [p];
    } else {
      OccSnoc(l[1..], p, q);
      assert (l + [p])[1..] == l[1..] + [p];
    }
  }

  lemma {:induction false} OccListsUpdate(ls: seq<seq<Addr>>, i: nat, l: seq<Addr>, q: Addr)
    requires i < |ls|
    ensures OccLists(ls[i := l], q) == OccLists(ls, q) - Occ(ls[i], q) + Occ(l, q)
  {
    if i == 0 {
      assert ls[i := l][1..] == ls[1..];
    } else {
      OccListsUpdate(ls[1..], i - 1, l, q);
      assert ls[i := l][1..] == ls[1..][i - 1 := l];
    }
  }

  lemma {:induction false} OccListsAt(ls: seq<seq<Addr>>, i: nat, q: Addr)
    requires i < |ls|
    ensures OccLists(ls, q) >= Occ(ls[i], q)
  {
    if i > 0 { OccListsAt(ls[1..], i - 1, q); }
  }

  lemma {:induction false} SumWithout(pools: map<Addr, Pool>, l: seq<Addr>, p: Addr)
    requires p in l
    ensures Sum(pools, Without(l, p)) == Sum(pools, l) - Cap(pools, p)
    ensures |Without(l, p)| == |l| - 1
  {
    if l[0] != p {
      SumWithout(pools, l[1..], p);
      assert ([l[0]] + Without(l[1..], p))[1..] == Without(l[1..], p);
    }
  }

  lemma {:induction false} SumSnoc(pools: map<Addr, Pool>, l: seq<Addr>, p: Addr)
    ensures Sum(pools, l + [p]) == Sum(pools, l) + Cap(pools, p)
  {
    if l == [] {
      assert l + [p] == [p];
    } else {
      SumSnoc(pools, l[1..], p);
      assert (l + [p])[1..] == l[1..] + [p];
    }
  }

  lemma {:induction false} SumListsUpdate(pools: map<Addr, Pool>, ls: seq<seq<Addr>>, i: nat, l: seq<Addr>)
    requires i < |ls|
    ensures SumLists(pools, ls[i := l]) == SumLists(pools, ls) - Sum(pools, ls[i]) + Sum(pools, l)
  {
    if i == 0 {
      assert ls[i := l][1..] == ls[1..];
    } else {
      SumListsUpdate(pools, ls[1..], i - 1, l);
      assert ls[i := l][1..] == ls[1..][i - 1 := l];
    }
  }

  /** Only p's capacity may differ. */
  ghost predicate SameCaps(a: map<Addr, Pool>, b: map<Addr, Pool>, p: Addr) {
    forall q :: q != p ==> Cap(a, q) == Cap(b, q)
  }

  /** A list that holds p once changes its sum by the change of p's capacity; one that does not
      hold p keeps it. */
  lemma {:induction false} SumChange(a: map<Addr, Pool>, b: map<Addr, Pool>, p: Addr, l: seq<Addr>)
    requires SameCaps(a, b, p) && Occ(l, p) <= 1
    ensures Sum(b, l) == Sum(a, l) + (if Occ(l, p) == 1 then Cap(b, p) - Cap(a, p) else 0)
  {
    if l != [] { SumChange(a, b, p, l[1..]); }
  }

  lemma {:induction false} SumListsChange(a: map<Addr, Pool>, b: map<Addr, Pool>, p: Addr, ls: seq<seq<Addr>>)
    requires SameCaps(a, b, p) && OccLists(ls, p) <= 1
    ensures SumLists(b, ls) == SumLists(a, ls) + (if OccLists(ls, p) == 1 then Cap(b, p) - Cap(a, p) else 0)
  {
    if ls != [] {
      SumChange(a, b, p, ls[0]);
      SumListsChange(a, b, p, ls[1..]);
    }
  }

  // ---------- the invariant ----------

  ghost predicate ListedOnce(s: State, p: Addr) {
    Occ(s.used, p) + OccLists(s.free, p) == if p in s.pools then 1 else 0
  }

  /** Every live pool is in exactly one place of exactly one list, and the lists hold nothing else. */
  ghost predicate Listed(s: State) {
    |s.free| == CACHE_LISTS && forall p :: ListedOnce(s, p)
  }

  ghost predicate Accounts(s: State) {
    && s.usedCount == |s.used|
    && s.capacity == SumLists(s.pools, s.free) <= s.maxCapacity
    && s.usedSize == Sum(s.pools, s.used) + SumLists(s.pools, s.free) + s.failed
  }

  ghost predicate ClassOk(q: Pool) {
    q.pos <= CACHE_LISTS && (q.pos < CACHE_LISTS ==> q.capacity >= Class(q.pos))
  }

  ghost predicate Classed(s: State) {
    && (forall p :: p in s.pools ==> ClassOk(s.pools[p]))
    && |s.free| == CACHE_LISTS
    && (forall i: nat, p :: i < CACHE_LISTS && p in s.free[i] ==> p in s.pools && s.pools[p].pos == i)
  }

  ghost predicate Inv(s: State) {
    Shape(s) && Apart(s) && BlocksInv(s) && Listed(s) && Accounts(s) && Classed(s)
  }

  /** What the code dereferences is there: listed pools are live and have their first chunk. */
  predicate Defined(s: State) {
    && |s.free| == CACHE_LISTS
    && (forall i: nat, p :: i < CACHE_LISTS && p in s.free[i] ==> p in s.pools)
    && (forall p :: p in s.used ==> p in s.pools && s.pools[p].chunks != [] && s.pools[p].pos <= CACHE_LISTS)
  }

  function Step(s: State, l: Label): State
    requires Defined(s) && Enabled(s, l)
  {
    match l
    case DoAlloc(p, size, mem) => Alloc(s, p, size, mem).0
    case DoCreate(initSize, incr, mem) => Create(s, initSize, incr, mem).0
    case DoRelease(p) => Release(s, p)
  }

  ghost predicate Runs(s: State, ls: seq<Label>, s': State)
    decreases |ls|
  {
    if ls == [] then s == s'
    else Defined(s) && Enabled(s, ls[0]) && Runs(Step(s, ls[0]), ls[1..], s')
  }

  ghost predicate Reachable(maxCapacity: nat, s: State) {
    exists ls :: Runs(Init(maxCapacity), ls, s)
  }

  lemma UsedIsLive(s: State, p: Addr)
    requires Shape(s) && Listed(s) && Classed(s)
    ensures p in s.used ==> p in s.pools && s.pools[p].chunks != [] && s.pools[p].pos <= CACHE_LISTS &&
                            Occ(s.used, p) == 1 && OccLists(s.free, p) == 0
  {
    OccIn(s.used, p);
    assert ListedOnce(s, p);
    if p in s.used { assert PoolOk(p, s.pools[p]); }
  }

  lemma CachedIsLive(s: State, i: nat, p: Addr)
    requires Listed(s) && i < CACHE_LISTS && p in s.free[i]
    ensures p in s.pools && Occ(s.used, p) == 0 && OccLists(s.free, p) == 1 && Occ(s.free[i], p) == 1
  {
    OccIn(s.free[i], p);
    OccListsAt(s.free, i, p);
    assert ListedOnce(s, p);
  }

  // ---------- allocation ----------

  /** The books after a used pool grew by n bytes and a request for f bytes failed. */
  lemma GrowBooks(s: State, s': State, p: Addr, n: nat, f: nat)
    requires Shape(s) && Listed(s) && Accounts(s) && Classed(s) && p in s.used && p in s.pools
    requires p in s'.pools && s'.pools == s.pools[p := s'.pools[p]]
    requires s'.pools[p].capacity == s.pools[p].capacity + n && s'.pools[p].pos == s.pools[p].pos
    requires s' == s.(pools := s'.pools, blocks := s'.blocks, usedSize := s.usedSize + n + f, failed := s.failed + f)
    ensures Listed(s') && Accounts(s') && Classed(s')
  {
    UsedIsLive(s, p);
    assert SameCaps(s.pools, s'.pools, p);
    SumChange(s.pools, s'.pools, p, s.used);
    SumListsChange(s.pools, s'.pools, p, s.free);
    forall q ensures ListedOnce(s', q) { assert ListedOnce(s, q); }
    assert ClassOk(s.pools[p]);
  }

  lemma BumpInv(s: State, p: Addr, k: nat, size: nat)
    requires Inv(s) && p in s.used && HasChunk(s, p, k) && Fits(ChunkAt(s, p, k), size) && size > 0
    ensures Inv(Bump(s, p, k, size))
  {
    BumpShape(s, p, k, size);
    BumpBlocks(s, p, k, size);
    GrowBooks(s, Bump(s, p, k, size), p, 0, 0);
  }

  lemma AddChunkInv(s: State, p: Addr, m: Addr, n: nat)
    requires Inv(s) && p in s.used && p in s.pools && n >= CHUNK_HEADER && FreshRegion(s, m, n)
    ensures Inv(AddChunk(s, p, m, n))
  {
    AddChunkShape(s, p, m, n);
    AddChunkBlocks(s, p, m, n);
    GrowBooks(s, AddChunk(s, p, m, n), p, n, 0);
  }

  lemma FailInv(s: State, n: nat)
    requires Inv(s)
    ensures Inv(Fail(s, n))
  {
    var s' := Fail(s, n);
    forall q ensures ListedOnce(s', q) { assert ListedOnce(s, q); }
    SameRegionsApart(s, s');
    SameChunksBlocks(s, s');
  }

  lemma AllocInv(s: State, p: Addr, size: nat, mem: Option<Addr>)
    requires Inv(s) && Enabled(s, DoAlloc(p, size, mem))
    ensures Inv(Alloc(s, p, size, mem).0)
  {
    var q := s.pools[p];
    var k := FirstFit(q.chunks, size);
    if size == 0 {
    } else if k < |q.chunks| {
      BumpInv(s, p, k, size);
    } else if q.incr > 0 {
      var n := NewChunkSize(q.incr, size);
      NewChunkSizeBounds(q.incr, size);
      if mem.None? {
        FailInv(s, n);
      } else {
        AddChunkInv(s, p, mem.value, n);
        var a := AddChunk(s, p, mem.value, n);
        if Fits(NewChunk(mem.value, n), size) {
          assert ChunkAt(a, p, 0) == NewChunk(mem.value, n);
          BumpInv(a, p, 0, size);
        }
      }
    }
  }

  // ---------- creation ----------

  lemma CreatedBooks(s: State, m: Addr, n: nat, incr: nat, pos: nat)
    requires Listed(s) && Accounts(s) && Classed(s) && m !in s.pools
    requires pos <= CACHE_LISTS && (pos < CACHE_LISTS ==> n >= Class(pos))
    ensures var s' := Created(s, m, n, incr, pos); Listed(s') && Accounts(s') && Classed(s')
  {
    var s' := Created(s, m, n, incr, pos);
    assert ListedOnce(s, m);
    SumChange(s.pools, s'.pools, m, s.used);
    SumListsChange(s.pools, s'.pools, m, s.free);
    assert s'.used[1..] == s.used;
    forall q ensures ListedOnce(s', q) { assert ListedOnce(s, q); }
    assert ClassOk(s'.pools[m]);
  }

  lemma CreateFreshInv(s: State, m: Addr, n: nat, incr: nat, pos: nat)
    requires Inv(s) && FreshRegion(s, m, n) && n >= POOL_HEADER + CHUNK_HEADER
    requires pos <= CACHE_LISTS && (pos < CACHE_LISTS ==> n >= Class(pos))
    ensures Inv(Created(s, m, n, incr, pos))
  {
    var s' := Created(s, m, n, incr, pos);
    NewPoolShape(s, s', m, n, incr, pos);
    SameChunksBlocks(s, s');
    CreatedBooks(s, m, n, incr, pos);
  }

  lemma CachedHead(s: State, pos: nat)
    requires Classed(s) && pos < CACHE_LISTS && s.free[pos] != []
    ensures s.free[pos][0] in s.pools && s.pools[s.free[pos][0]].pos == pos
  {
    assert s.free[pos][0] in s.free[pos];
  }

  /** Taking a pool from the cache gives back exactly its capacity: the clamp to zero loses nothing. */
  lemma ReissuedBooks(s: State, pos: nat, incr: nat)
    requires Listed(s) && Accounts(s) && Classed(s) && pos < CACHE_LISTS && s.free[pos] != []
    requires s.free[pos][0] in s.pools
    ensures var s' := Reissued(s, pos, incr);
            Listed(s') && Accounts(s') && s.capacity >= Cap(s.pools, s.free[pos][0])
  {
    var s', l := Reissued(s, pos, incr), s.free[pos];
    var p := l[0];
    CachedIsLive(s, pos, p);
    SumChange(s.pools, s'.pools, p, s.used);
    SumListsChange(s.pools, s'.pools, p, s.free);
    SumListsUpdate(s'.pools, s.free, pos, l[1..]);
    assert s'.used[1..] == s.used;
    forall q ensures ListedOnce(s', q) {
      assert ListedOnce(s, q);
      OccListsUpdate(s.free, pos, l[1..], q);
    }
  }

  lemma ReissuedClassed(s: State, pos: nat, incr: nat)
    requires Listed(s) && Classed(s) && pos < CACHE_LISTS && s.free[pos] != []
    requires s.free[pos][0] in s.pools
    ensures Classed(Reissued(s, pos, incr))
  {
    var s', p := Reissued(s, pos, incr), s.free[pos][0];
    assert p in s.free[pos];
    assert ClassOk(s.pools[p]);
    forall i: nat, a | i < CACHE_LISTS && a in s'.free[i] ensures a in s.free[i] {
    }
  }

  lemma ReissuedShape(s: State, pos: nat, incr: nat)
    requires Shape(s) && Apart(s) && pos < |s.free| && s.free[pos] != [] && s.free[pos][0] in s.pools
    ensures Shape(Reissued(s, pos, incr)) && Apart(Reissued(s, pos, incr))
  {
    var p := s.free[pos][0];
    assert PoolOk(p, s.pools[p]);
    SameRegionsApart(s, Reissued(s, pos, incr));
  }

  lemma ReissueInv(s: State, pos: nat, incr: nat)
    requires Inv(s) && pos < CACHE_LISTS && s.free[pos] != []
    requires s.free[pos][0] in s.pools
    ensures Inv(Reissued(s, pos, incr))
  {
    ReissuedBooks(s, pos, incr);
    ReissuedClassed(s, pos, incr);
    ReissuedShape(s, pos, incr);
    SameChunksBlocks(s, Reissued(s, pos, incr));
  }

  lemma CreateInv(s: State, initSize: nat, incr: nat, mem: Option<Addr>)
    requires Inv(s) && Enabled(s, DoCreate(initSize, incr, mem))
    ensures Inv(Create(s, initSize, incr, mem).0)
  {
    var pos, n := ClassOf(initSize), FreshSize(initSize);
    if pos == CACHE_LISTS || s.free[pos] == [] {
      if mem.None? {
        FailInv(s, n);
      } else {
        CreateFreshInv(s, mem.value, n, incr, pos);
      }
    } else {
      CachedHead(s, pos);
      ReissueInv(s, pos, incr);
    }
  }

  // ---------- release ----------

  function Cached(s: State, p: Addr): State
    requires p in s.pools && s.pools[p].pos < |s.free|
  {
    s.(used := Without(s.used, p), usedCount := s.usedCount - 1,
       free := s.free[s.pools[p].pos := s.free[s.pools[p].pos] + [p]],
       capacity := s.capacity + s.pools[p].capacity)
  }

  lemma CachedListed(s: State, p: Addr)
    requires Listed(s) && p in s.used && p in s.pools && s.pools[p].pos < CACHE_LISTS
    ensures Listed(Cached(s, p))
  {
    var s', i := Cached(s, p), s.pools[p].pos;
    forall q ensures ListedOnce(s', q) {
      assert ListedOnce(s, q);
      OccWithout(s.used, p, q);
      OccSnoc(s.free[i], p, q);
      OccListsUpdate(s.free, i, s.free[i] + [p], q);
    }
  }

  lemma CachedAccounts(s: State, p: Addr)
    requires Accounts(s) && p in s.used && p in s.pools && s.pools[p].pos < |s.free| && !Destroys(s, p)
    ensures Accounts(Cached(s, p))
  {
    var i := s.pools[p].pos;
    SumWithout(s.pools, s.used, p);
    SumSnoc(s.pools, s.free[i], p);
    SumListsUpdate(s.pools, s.free, i, s.free[i] + [p]);
  }

  lemma UnlistInv(s: State, u: State)
    requires Shape(s) && Apart(s) && BlocksInv(s) && u.pools == s.pools && u.blocks == s.blocks
    ensures Shape(u) && Apart(u) && BlocksInv(u)
  {
    SameRegionsApart(s, u);
    SameChunksBlocks(s, u);
  }

  lemma CacheInv(s: State, p: Addr)
    requires Inv(s) && p in s.used && p in s.pools && s.pools[p].pos < CACHE_LISTS && !Destroys(s, p)
    ensures Inv(Cached(s, p))
  {
    CachedListed(s, p);
    CachedAccounts(s, p);
    UnlistInv(s, Cached(s, p));
  }

  lemma DestroyBooks(s: State, p: Addr)
    requires Shape(s) && Listed(s) && Accounts(s) && Classed(s) && p in s.used && p in s.pools
    requires |s.pools[p].chunks| == 1
    ensures var s' := Destroy(s.(used := Without(s.used, p), usedCount := s.usedCount - 1), p);
            Listed(s') && Accounts(s') && Classed(s')
  {
    UsedIsLive(s, p);
    var s' := Destroy(s.(used := Without(s.used, p), usedCount := s.usedCount - 1), p);
    var q := s.pools[p];
    assert PoolOk(p, q) && q.chunks[1..] == [] && Sizes(q.chunks[1..]) == 0;
    assert q.capacity == q.chunks[0].end - p;
    SumWithout(s.pools, s.used, p);
    OccWithout(s.used, p, p);
    SumChange(s.pools, s'.pools, p, s'.used);
    SumListsChange(s.pools, s'.pools, p, s.free);
    forall a ensures ListedOnce(s', a) {
      assert ListedOnce(s, a);
      OccWithout(s.used, p, a);
    }
    forall i: nat, a | i < CACHE_LISTS && a in s'.free[i] ensures a != p && a in s'.pools {
      CachedIsLive(s, i, a);
    }
  }

  lemma DestroyInv(s: State, p: Addr)
    requires Inv(s) && p in s.used && p in s.pools && |s.pools[p].chunks| == 1
    ensures Inv(Destroy(s.(used := Without(s.used, p), usedCount := s.usedCount - 1), p))
  {
    var u := s.(used := Without(s.used, p), usedCount := s.usedCount - 1);
    UnlistInv(s, u);
    DestroyBooks(s, p);
    DestroyBlocks(u, p);
    SameRegionsApart(u, Destroy(u, p));
  }

  lemma ReleaseIs(s: State, p: Addr)
    requires Defined(s) && p in s.used
    ensures if Destroys(s, p) then Release(s, p) == Destroy(s.(used := Without(s.used, p), usedCount := s.usedCount - 1), p)
            else s.pools[p].pos < CACHE_LISTS && Release(s, p) == Cached(s, p)
  {
  }

  lemma ReleaseInv(s: State, p: Addr)
    requires Inv(s) && Defined(s) && Enabled(s, DoRelease(p))
    ensures Inv(Release(s, p))
  {
    if p in s.used {
      ReleaseIs(s, p);
      if Destroys(s, p) {
        DestroyInv(s, p);
      } else {
        CacheInv(s, p);
      }
    }
  }

  // ---------- whole runs ----------

  lemma InvDefined(s: State)
    requires Inv(s)
    ensures Defined(s)
  {
    forall p | p in s.used ensures p in s.pools && s.pools[p].chunks != [] && s.pools[p].pos <= CACHE_LISTS {
      UsedIsLive(s, p);
    }
  }

  lemma StepInv(s: State, l: Label)
    requires Inv(s) && Defined(s) && Enabled(s, l)
    ensures Inv(Step(s, l)) && Step(s, l).maxCapacity == s.maxCapacity
  {
    match l
    case DoAlloc(p, size, mem) => AllocInv(s, p, size, mem);
    case DoCreate(initSize, incr, mem) => CreateInv(s, initSize, incr, mem);
    case DoRelease(p) => ReleaseInv(s, p);
  }

  lemma {:induction false} EmptyLists(ls: seq<seq<Addr>>, p: Addr)
    requires forall i :: 0 <= i < |ls| ==> ls[i] == []
    ensures OccLists(ls, p) == 0 && SumLists(map[], ls) == 0
  {
    if ls != [] { EmptyLists(ls[1..], p); }
  }

  lemma InitInv(maxCapacity: nat)
    ensures Inv(Init(maxCapacity))
  {
    var s := Init(maxCapacity);
    EmptyLists(s.free, 0);
    forall p ensures ListedOnce(s, p) { EmptyLists(s.free, p); }
  }

  lemma InitDefined(maxCapacity: nat)
    ensures Defined(Init(maxCapacity)) && Reachable(maxCapacity, Init(maxCapacity))
  {
    assert Runs(Init(maxCapacity), [], Init(maxCapacity));
  }

  lemma {:induction false} RunInv(s: State, ls: seq<Label>, s': State)
    requires Inv(s) && Runs(s, ls, s')
    ensures Inv(s') && s'.maxCapacity == s.maxCapacity
    decreases |ls|
  {
    if ls != [] {
      StepInv(s, ls[0]);
      RunInv(Step(s, ls[0]), ls[1..], s');
    }
  }

  lemma ReachableInv(maxCapacity: nat, s: State)
    requires Reachable(maxCapacity, s)
    ensures Inv(s) && Defined(s) && s.maxCapacity == maxCapacity
  {
    var ls :| Runs(Init(maxCapacity), ls, s);
    InitInv(maxCapacity);
    RunInv(Init(maxCapacity), ls, s);
    InvDefined(s);
  }

  lemma {:induction false} RunsThen(s: State, ls: seq<Label>, m: State, l: Label)
    requires Runs(s, ls, m) && Defined(m) && Enabled(m, l)
    ensures Runs(s, ls + [l], Step(m, l))
    decreases |ls|
  {
    if ls == [] {
      assert [l][1..] == [] && Runs(Step(m, l), [], Step(m, l));
    } else {
      RunsThen(Step(s, ls[0]), ls[1..], m, l);
      assert (ls + [l])[1..] == ls[1..] + [l];
    }
  }

  lemma ReachableThen(maxCapacity: nat, s: State, l: Label)
    requires Reachable(maxCapacity, s) && Defined(s) && Enabled(s, l)
    ensures Reachable(maxCapacity, Step(s, l))
  {
    var ls :| Runs(Init(maxCapacity), ls, s);
    RunsThen(Init(maxCapacity), ls, s, l);
  }

  /** The bytes in front of a chunk's buffer: its header, and for the last chunk, which is embedded
      in the pool, the pool's header before that. */
  function Headers(q: Pool, i: nat): nat {
    if i + 1 == |q.chunks| then POOL_HEADER + CHUNK_HEADER else CHUNK_HEADER
  }

  /** In a chunk of its own pool, past all headers and before the end. */
  predicate WithinChunk(s: State, b: Block, i: nat) {
    && HasChunk(s, b.pool, i)
    && ChunkAt(s, b.pool, i).region + Headers(s.pools[b.pool], i) <= b.addr
    && b.addr + b.size <= ChunkAt(s, b.pool, i).end
  }

  ghost predicate SafeBlock(s: State, b: Block) {
    Aligned(b.addr) && exists i: nat :: WithinChunk(s, b, i)
  }

  /** The block and the headers of a chunk have no byte in common. */
  predicate ClearOfHeaders(s: State, b: Block, p: Addr, i: nat)
    requires HasChunk(s, p, i)
  {
    var r := ChunkAt(s, p, i).region;
    b.addr + b.size <= r || r + Headers(s.pools[p], i) <= b.addr
  }

  lemma BlockIsSafe(s: State, b: Block)
    requires Shape(s) && BlockOk(s, b)
    ensures SafeBlock(s, b)
  {
    var i: nat :| InChunk(s, b, i);
    assert PoolOk(b.pool, s.pools[b.pool]);
    assert WithinChunk(s, b, i);
  }

  lemma BlockClearOfHeaders(s: State, b: Block, p: Addr, i: nat)
    requires Shape(s) && Apart(s) && BlockOk(s, b) && HasChunk(s, p, i)
    ensures ClearOfHeaders(s, b, p, i)
  {
    var k: nat :| InChunk(s, b, k);
    var c, d := ChunkAt(s, b.pool, k), ChunkAt(s, p, i);
    assert PoolOk(b.pool, s.pools[b.pool]) && PoolOk(p, s.pools[p]);
    if b.pool != p || k != i {
      assert Disjoint(c, d);
    }
  }

  /** Memory safety over whole runs of allocation, growth, caching and re-issue.  Every block of a
      pool not yet destroyed is aligned and inside a chunk of its pool, past the headers; it overlaps
      no header of any chunk of any pool, and no other block, of whatever pool and whatever age. */
  lemma PoolMemorySafety(maxCapacity: nat, s: State)
    requires Reachable(maxCapacity, s)
    ensures forall k :: 0 <= k < |s.blocks| ==> SafeBlock(s, s.blocks[k])
    ensures forall k, p, i: nat :: 0 <= k < |s.blocks| && HasChunk(s, p, i) ==> ClearOfHeaders(s, s.blocks[k], p, i)
    ensures forall j, k :: 0 <= j < k < |s.blocks| ==> BlocksDisjoint(s.blocks[j], s.blocks[k])
  {
    ReachableInv(maxCapacity, s);
    forall k | 0 <= k < |s.blocks| ensures SafeBlock(s, s.blocks[k]) {
      assert BlockOk(s, s.blocks[k]);
      BlockIsSafe(s, s.blocks[k]);
    }
    forall k, p, i: nat | 0 <= k < |s.blocks| && HasChunk(s, p, i) ensures ClearOfHeaders(s, s.blocks[k], p, i) {
      assert BlockOk(s, s.blocks[k]);
      BlockClearOfHeaders(s, s.blocks[k], p, i);
    }
  }

  predicate Room(q: Pool, size: nat) { exists i :: 0 <= i < |q.chunks| && Fits(q.chunks[i], size) }

  /** The bytes a step asks of chunk_alloc: a chunk when no chunk of the pool has room, a pool when
      its class has none cached. */
  function Asks(s: State, l: Label): nat
    requires Defined(s) && (l.DoAlloc? ==> l.p in s.pools)
  {
    match l
    case DoAlloc(p, size, _) =>
      if size > 0 && s.pools[p].incr > 0 && !Room(s.pools[p], size) then NewChunkSize(s.pools[p].incr, size) else 0
    case DoCreate(initSize, _, _) =>
      if ClassOf(initSize) == CACHE_LISTS then initSize
      else if s.free[ClassOf(initSize)] == [] then Class(ClassOf(initSize)) else 0
    case DoRelease(_) => 0
  }

  /** The bytes asked for in vain. */
  function Refused(s: State, l: Label): nat
    requires Defined(s) && (l.DoAlloc? ==> l.p in s.pools)
  {
    if !l.DoRelease? && l.mem.None? then Asks(s, l) else 0
  }

  ghost function AllRefused(s: State, ls: seq<Label>): nat
    decreases |ls|
  {
    if ls == [] || !Defined(s) || !Enabled(s, ls[0]) then 0
    else Refused(s, ls[0]) + AllRefused(Step(s, ls[0]), ls[1..])
  }

  lemma StepFailed(s: State, l: Label)
    requires Defined(s) && Enabled(s, l)
    ensures Step(s, l).failed == s.failed + Refused(s, l)
  {
  }

  lemma {:induction false} RunFailed(s: State, ls: seq<Label>, s': State)
    requires Runs(s, ls, s')
    ensures s'.failed == s.failed + AllRefused(s, ls)
    decreases |ls|
  {
    if ls != [] {
      StepFailed(s, ls[0]);
      RunFailed(Step(s, ls[0]), ls[1..], s');
    }
  }

  /** Cache accounting: every live pool is listed exactly once, the counters are what they are
      named after, the cache never exceeds its limit; `used_size_` is the total size of the live
      pools plus the bytes that chunk_alloc was asked for in vain. */
  lemma CacheAccounting(maxCapacity: nat, ls: seq<Label>, s: State)
    requires Runs(Init(maxCapacity), ls, s)
    ensures forall p :: ListedOnce(s, p)
    ensures s.usedCount == |s.used|
    ensures s.capacity == SumLists(s.pools, s.free) <= maxCapacity
    ensures s.usedSize == Sum(s.pools, s.used) + SumLists(s.pools, s.free) + AllRefused(Init(maxCapacity), ls)
  {
    ReachableInv(maxCapacity, s);
    RunFailed(Init(maxCapacity), ls, s);
  }

  /** A first creation that the allocator refuses leaves no pool and 256 bytes counted as used. */
  lemma FailedCreationCounted() returns (s: State)
    ensures Reachable(0, s) && s.usedSize == 256 && s.used == [] && s.pools == map[]
    ensures Sum(s.pools, s.used) + SumLists(s.pools, s.free) == 0
  {
    var l := DoCreate(256, 256, None);
    assert ClassOf(256) == 0;
    InitDefined(0);
    s := Fail(Init(0), 256);
    assert Step(Init(0), l) == s;
    ReachableThen(0, Init(0), l);
    EmptyLists(s.free, 0);
  }

  lemma FreshCreation(s: State, initSize: nat, incr: nat, m: Addr)
    requires Defined(s) && Asks(s, DoCreate(initSize, incr, Some(m))) > 0
    ensures var n := Asks(s, DoCreate(initSize, incr, Some(m)));
            && n == FreshSize(initSize)
            && Create(s, initSize, incr, Some(m)) == (Created(s, m, n, incr, ClassOf(initSize)), Some(m))
  {
  }

  lemma CachedHolds(maxCapacity: nat, s: State, pos: nat)
    requires Reachable(maxCapacity, s) && |s.free| == CACHE_LISTS && pos < CACHE_LISTS && s.free[pos] != []
    ensures var p := s.free[pos][0]; p in s.pools && s.pools[p].capacity >= Class(pos)
  {
    ReachableInv(maxCapacity, s);
    CachedHead(s, pos);
    assert ClassOk(s.pools[s.free[pos][0]]);
  }

  lemma FreshLayout(m: Addr, n: nat, incr: nat, pos: nat)
    requires Aligned(m)
    ensures NewPool(m, n, incr, pos).chunks == [Chunk(m, m + 168, m + 168, m + n)]
  {
    AlignedSum(m, 168);
  }

  /** A creation whose class has pools in the cache asks for no memory: it hands out the one that has
      been there longest, with its chunks and blocks as they were. */
  lemma CreationReissuesOldest(s: State, initSize: nat, incr: nat, mem: Option<Addr>)
    requires Defined(s) && ClassOf(initSize) < 16 && s.free[ClassOf(initSize)] != []
    ensures var pos := ClassOf(initSize);
            var p := s.free[pos][0];
            var (s', r) := Create(s, initSize, incr, mem);
            && r == Some(p) && p in s.pools && p in s'.pools
            && s'.free[pos] == s.free[pos][1..] && s'.used == [p] + s.used
            && s'.usedSize == s.usedSize && s'.failed == s.failed && s'.blocks == s.blocks
            && s'.pools[p].chunks == s.pools[p].chunks && s'.pools[p].capacity == s.pools[p].capacity
  {
    assert s.free[ClassOf(initSize)][0] in s.free[ClassOf(initSize)];
  }

  /** The pool that a creation hands out holds the request and carries its increment and class. */
  predicate Suits(q: Pool, initSize: nat, incr: nat) {
    q.capacity >= initSize && q.incr == incr && q.pos == ClassOf(initSize)
  }

  lemma ReissuedSuits(maxCapacity: nat, s: State, initSize: nat, incr: nat)
    requires Reachable(maxCapacity, s) && Defined(s) && ClassOf(initSize) < 16 && s.free[ClassOf(initSize)] != []
    ensures var p := s.free[ClassOf(initSize)][0];
            p in s.pools && Suits(Reissued(s, ClassOf(initSize), incr).pools[p], initSize, incr)
  {
    CachedHolds(maxCapacity, s, ClassOf(initSize));
  }

  /** A fresh pool is as large as its class, or as the request if that has none: one region, with the
      first chunk after both headers. */
  lemma FreshPoolLayout(s: State, initSize: nat, incr: nat, m: Addr)
    requires Defined(s) && Asks(s, DoCreate(initSize, incr, Some(m))) > 0 && Aligned(m)
    ensures var (s', r), n := Create(s, initSize, incr, Some(m)), Asks(s, DoCreate(initSize, incr, Some(m)));
            && r == Some(m) && n == (if ClassOf(initSize) < 16 then Class(ClassOf(initSize)) else initSize)
            && s'.pools == s.pools[m := Pool(n, incr, ClassOf(initSize), [Chunk(m, m + 168, m + 168, m + n)])]
            && s'.used == [m] + s.used && s'.usedSize == s.usedSize + n
  {
    FreshCreation(s, initSize, incr, m);
    FreshLayout(m, FreshSize(initSize), incr, ClassOf(initSize));
  }

  /** Size classes: creation fails only if memory is asked for and refused; a pool from create_pool__,
      fresh or cached, heads the used list and suits the request. */
  lemma CreatedPoolHoldsRequest(maxCapacity: nat, s: State, initSize: nat, incr: nat, mem: Option<Addr>)
    requires Reachable(maxCapacity, s) && Defined(s)
    ensures var (s', r) := Create(s, initSize, incr, mem);
            && (r.None? <==> Asks(s, DoCreate(initSize, incr, mem)) > 0 && mem.None?)
            && (r.Some? ==> r.value in s'.pools && s'.used == [r.value] + s.used && Suits(s'.pools[r.value], initSize, incr))
  {
    if Asks(s, DoCreate(initSize, incr, mem)) > 0 {
      if mem.Some? { FreshCreation(s, initSize, incr, mem.value); }
    } else {
      CreationReissuesOldest(s, initSize, incr, mem);
      ReissuedSuits(maxCapacity, s, initSize, incr);
    }
  }

  /** A request is served from the first chunk with room, at its bump pointer, which moves by the
      rounded size; nothing else changes. */
  lemma AllocIsFirstFit(s: State, p: Addr, size: nat, mem: Option<Addr>, k: nat)
    requires p in s.pools && size > 0 && k < |s.pools[p].chunks| && Fits(s.pools[p].chunks[k], size)
    requires forall i :: 0 <= i < k ==> !Fits(s.pools[p].chunks[i], size)
    ensures var (s', r), q, c := Alloc(s, p, size, mem), s.pools[p], s.pools[p].chunks[k];
            && r == Some(c.cur)
            && s' == s.(pools := s.pools[p := q.(chunks := q.chunks[k := c.(cur := c.cur + RoundUp(size))])],
                        blocks := s.blocks + [Block(p, c.region, c.cur, RoundUp(size))])
  {
  }

  /** Without room, a new chunk of the size asked for goes to the head of the list, and serves the
      request from right after its header. */
  lemma AllocGrows(s: State, p: Addr, size: nat, m: Addr)
    requires p in s.pools && size > 0 && s.pools[p].incr > 0 && !Room(s.pools[p], size) && Aligned(m)
    requires NewChunkSize(s.pools[p].incr, size) >= CHUNK_HEADER + RoundUp(size)
    ensures var (s', r), q, n := Alloc(s, p, size, Some(m)), s.pools[p], NewChunkSize(s.pools[p].incr, size);
            && r == Some(m + 40) && p in s'.pools
            && s'.pools[p].chunks == [Chunk(m, m + 40, m + 40 + RoundUp(size), m + n)] + q.chunks
            && s'.pools[p].capacity == q.capacity + n && s'.usedSize == s.usedSize + n
            && s'.blocks == s.blocks + [Block(p, m, m + 40, RoundUp(size))]
  {
    AlignedSum(m, 40);
    var n := NewChunkSize(s.pools[p].incr, size);
    var cs := [NewChunk(m, n)] + s.pools[p].chunks;
    assert cs[0 := cs[0].(cur := cs[0].cur + RoundUp(size))][1..] == s.pools[p].chunks;
  }

  // ---------- what a release does ----------

  lemma {:induction false} BlocksWithoutIff(bs: seq<Block>, p: Addr, b: Block)
    ensures b in BlocksWithout(bs, p) <==> b in bs && b.pool != p
  {
    if bs != [] {
      BlocksWithoutIff(bs[1..], p, b);
      assert bs == [bs[0]] + bs[1..];
    }
  }

  /** Releasing a used pool keeps it exactly when it has a class, the cache has room for it and it is
      not larger than the largest class; then it is the last of its list.  Anything else is left alone. */
  lemma ReleaseCachesIff(s: State, p: Addr)
    requires Defined(s) && Enabled(s, DoRelease(p)) && p in s.used
    ensures var s', q := Release(s, p), s.pools[p];
            && (p in s'.pools <==> q.pos < 16 && q.capacity + s.capacity <= s.maxCapacity && q.capacity <= 65535)
            && (p in s'.pools ==>
                && s'.pools == s.pools && s'.free == s.free[q.pos := s.free[q.pos] + [p]]
                && s'.capacity == s.capacity + q.capacity && s'.usedSize == s.usedSize)
            && (p !in s'.pools ==> s'.pools == s.pools - {p} && s'.free == s.free && s'.capacity == s.capacity)
            && s'.usedCount == s.usedCount - 1
  {
  }

  /** A pool that is not in use is not released. */
  lemma ReleaseOfOthersIgnored(s: State, p: Addr)
    requires Defined(s) && p !in s.used
    ensures Release(s, p) == s
  {
  }

  lemma ReleaseThenCreate(s: State, p: Addr, initSize: nat, incr: nat)
    requires Defined(s) && Enabled(s, DoRelease(p)) && p in s.used && p in s.pools && Defined(Release(s, p))
    requires s.pools[p].pos == ClassOf(initSize) < 16 && s.free[ClassOf(initSize)] == []
    ensures Create(Release(s, p), initSize, incr, None).1 == Some(p) <==>
            s.pools[p].capacity + s.capacity <= s.maxCapacity && s.pools[p].capacity <= 65535
  {
    ReleaseCachesIff(s, p);
  }

  /** Created with nothing of its class cached, released and created again: the same pool comes back,
      and no memory is asked for, exactly when the cache has room for it. */
  lemma CreateReleaseCreate(maxCapacity: nat, s: State, initSize: nat, incr: nat, m: Addr, incr': nat)
    requires Reachable(maxCapacity, s) && Enabled(s, DoCreate(initSize, incr, Some(m)))
    requires Defined(s) && ClassOf(initSize) < 16 && s.free[ClassOf(initSize)] == []
    ensures var s1 := Create(s, initSize, incr, Some(m)).0;
            && Defined(s1) && Enabled(s1, DoRelease(m))
            && var s2 := Release(s1, m);
               && Defined(s2)
               && (Create(s2, initSize, incr', None).1 == Some(m) <==>
                   Class(ClassOf(initSize)) + s.capacity <= maxCapacity)
  {
    var l := DoCreate(initSize, incr, Some(m));
    FreshCreation(s, initSize, incr, m);
    ReachableThen(maxCapacity, s, l);
    var s1 := Step(s, l);
    ReachableInv(maxCapacity, s1);
    ReachableThen(maxCapacity, s1, DoRelease(m));
    ReachableInv(maxCapacity, Release(s1, m));
    ReleaseThenCreate(s1, m, initSize, incr');
  }

  ghost predicate LiveThroughout(s: State, ls: seq<Label>, p: Addr)
    decreases |ls|
  {
    p in s.pools && (ls == [] || (Defined(s) && Enabled(s, ls[0]) && LiveThroughout(Step(s, ls[0]), ls[1..], p)))
  }

  lemma StepKeepsBlock(s: State, l: Label, b: Block)
    requires Defined(s) && Enabled(s, l) && b in s.blocks && b.pool in Step(s, l).pools
    ensures b in Step(s, l).blocks
  {
    if l.DoRelease? { BlocksWithoutIff(s.blocks, l.p, b); }
  }

  /** A block that was handed out stays one of those that PoolMemorySafety speaks of for as long as its
      pool lives, in use or in the cache. */
  lemma {:induction false} BlocksSurvive(s: State, ls: seq<Label>, s': State, b: Block)
    requires Runs(s, ls, s') && b in s.blocks && LiveThroughout(s, ls, b.pool)
    ensures b in s'.blocks
    decreases |ls|
  {
    if ls != [] {
      StepKeepsBlock(s, ls[0], b);
      BlocksSurvive(Step(s, ls[0]), ls[1..], s', b);
    }
  }

  /** An increment that holds a request with its header, but not the rounded request. */
  predicate FallsShort(incr: nat, size: nat) { size + CHUNK_HEADER <= incr < RoundUp(size) + CHUNK_HEADER }

  /** Allocation fails exactly when the size is zero, or no chunk has room and the pool cannot grow
      enough: its increment is zero or falls short, or chunk_alloc fails. */
  lemma AllocFailsIff(s: State, p: Addr, size: nat, mem: Option<Addr>)
    requires p in s.pools && Enabled(s, DoAlloc(p, size, mem))
    ensures Alloc(s, p, size, mem).1.None? <==>
            size == 0 || (!Room(s.pools[p], size) && (s.pools[p].incr == 0 || mem.None? || FallsShort(s.pools[p].incr, size)))
  {
    var q := s.pools[p];
    if mem.Some? && q.incr > 0 && size > 0 { GrowthSufficesIff(q.incr, size, mem.value); }
  }

  /** With an increment that is a positive multiple of 8, a non-empty request fails only if no chunk
      has room and chunk_alloc fails. */
  lemma AlignedAllocFailsIff(s: State, p: Addr, size: nat, mem: Option<Addr>)
    requires p in s.pools && Enabled(s, DoAlloc(p, size, mem))
    requires size > 0 && s.pools[p].incr > 0 && Aligned(s.pools[p].incr)
    ensures Alloc(s, p, size, mem).1.None? <==> !Room(s.pools[p], size) && mem.None?
  {
    AllocFailsIff(s, p, size, mem);
    AlignedGrowthSuffices(s.pools[p].incr, size);
  }

  /** A successful allocation records one block of the pool at the address returned, large enough
      for the request; a chunk is added only when no chunk has room. */
  lemma AllocRecordsBlock(s: State, p: Addr, size: nat, mem: Option<Addr>)
    requires p in s.pools && Enabled(s, DoAlloc(p, size, mem))
    ensures var (s', r) := Alloc(s, p, size, mem);
            && (r.None? ==> s'.blocks == s.blocks)
            && (r.Some? ==> |s'.blocks| == |s.blocks| + 1 && s'.blocks[..|s.blocks|] == s.blocks &&
                            var b := s'.blocks[|s.blocks|]; b.pool == p && b.addr == r.value && b.size >= size)
            && (|s'.pools[p].chunks| != |s.pools[p].chunks| ==> !Room(s.pools[p], size))
  {
  }

  // ---------- destroying a pool ----------

  /** The (address, size) pairs that release_pool2 passes to chunk_free: the list head is taken for
      the chunk embedded in the pool, every other chunk is freed at its own header. */
  function FreeCalls(p: Addr, q: Pool): seq<(int, int)>
    requires q.chunks != []
  {
    seq(|q.chunks| - 1, i requires 0 <= i < |q.chunks| - 1 =>
      (q.chunks[i + 1].buf - CHUNK_HEADER, q.chunks[i + 1].end - q.chunks[i + 1].buf))
    + [(p, q.chunks[0].end - p)]
  }

  function Regions(q: Pool): seq<(int, int)> {
    seq(|q.chunks|, i requires 0 <= i < |q.chunks| => (q.chunks[i].region, q.chunks[i].end - q.chunks[i].region))
  }

  ghost predicate FreesItsRegions(p: Addr, q: Pool)
    requires q.chunks != []
  {
    forall x :: x in FreeCalls(p, q) <==> x in Regions(q)
  }

  /** Destroying a pool gives the allocator back exactly the regions it handed out if and only if
      the pool has a single chunk: new chunks go to the head of the list, where release_pool2
      expects the embedded one. */
  lemma DestroyFreesItsRegionsIff(s: State, p: Addr)
    requires Shape(s) && Apart(s) && p in s.pools && s.pools[p].chunks != []
    ensures FreesItsRegions(p, s.pools[p]) <==> |s.pools[p].chunks| == 1
  {
    var q := s.pools[p];
    assert PoolOk(p, q);
    var l := |q.chunks| - 1;
    if l == 0 {
      assert FreeCalls(p, q) == [(p, q.chunks[0].end - p)];
      assert Regions(q) == [(p, q.chunks[0].end - p)];
    } else {
      var x := (q.chunks[l].buf - CHUNK_HEADER, q.chunks[l].end - q.chunks[l].buf);
      assert FreeCalls(p, q)[l - 1] == x;
      assert x in FreeCalls(p, q);
      forall i | 0 <= i <= l ensures Regions(q)[i] != x {
        assert HasChunk(s, p, i) && HasChunk(s, p, l);
      }
    }
  }

  lemma FirstCreation()
    requires Defined(Init(0))
    ensures Enabled(Init(0), DoCreate(256, 256, Some(0)))
    ensures Create(Init(0), 256, 256, Some(0)).0 == Created(Init(0), 0, 256, 256, 0)
  {
    assert ClassOf(256) == 0 && FreshSize(256) == 256;
  }

  lemma FirstState()
    ensures var s := Created(Init(0), 0, 256, 256, 0);
            s.used == [0] && s.pools == map[0 := Pool(256, 256, 0, [Chunk(0, 168, 168, 256)])]
  {
  }

  /** A fresh pool of the smallest class at address 0, with increment 256. */
  lemma FirstPool() returns (s: State)
    ensures Reachable(0, s) && s.used == [0]
    ensures s.pools == map[0 := Pool(256, 256, 0, [Chunk(0, 168, 168, 256)])]
  {
    InitDefined(0);
    FirstCreation();
    s := Created(Init(0), 0, 256, 256, 0);
    ReachableThen(0, Init(0), DoCreate(256, 256, Some(0)));
    FirstState();
  }

  lemma SecondChunk(s: State)
    requires s.pools == map[0 := Pool(256, 256, 0, [Chunk(0, 168, 168, 256)])] && s.used == [0]
    ensures Enabled(s, DoAlloc(0, 100, Some(1000)))
    ensures var s' := Alloc(s, 0, 100, Some(1000)).0;
            s'.used == s.used && 0 in s'.pools && s'.pools[0].capacity == 512 && |s'.pools[0].chunks| == 2
  {
    var c := Chunk(0, 168, 168, 256);
    assert RoundUp(100) == 104 && NewChunkSize(256, 100) == 256;
    assert !Fits(c, 100);
    assert s.pools[0].chunks == [c] && FirstFit([c], 100) == 1;
    forall p, i: nat | HasChunk(s, p, i) ensures ChunkAt(s, p, i) == c { }
  }

  /** A pool that grows and is then destroyed by its release, two steps from the start. */
  lemma GrownPoolFreedWrongly() returns (s: State, p: Addr)
    ensures Reachable(0, s) && p in s.used && p in s.pools && Destroys(s, p)
    ensures s.pools[p].chunks != [] && !FreesItsRegions(p, s.pools[p])
  {
    p := 0;
    s := FirstPool();
    SecondChunk(s);
    ReachableInv(0, s);
    ReachableThen(0, s, DoAlloc(0, 100, Some(1000)));
    s := Step(s, DoAlloc(0, 100, Some(1000)));
    ReachableInv(0, s);
    DestroyFreesItsRegionsIff(s, p);
  }

  // ---------- tearing everything down ----------

  /** What the teardown relies on: no pool has grown, and the bytes in use are accounted for. */
  ghost predicate Teardown(s: State) {
    && Shape(s) && Listed(s)
    && (forall p :: p in s.pools ==> |s.pools[p].chunks| == 1)
    && s.usedSize == Sum(s.pools, s.used) + SumLists(s.pools, s.free) + s.failed
  }

  lemma OneChunkCapacity(s: State, p: Addr)
    requires Shape(s) && p in s.pools && |s.pools[p].chunks| == 1
    ensures s.pools[p].capacity == s.pools[p].chunks[0].end - p
  {
    var q := s.pools[p];
    assert PoolOk(p, q) && q.chunks[1..] == [] && Sizes(q.chunks[1..]) == 0;
  }

  lemma DropUsed(s: State)
    requires Teardown(s) && s.used != []
    ensures var p := s.used[0];
            p in s.pools && Teardown(Destroy(s.(used := s.used[1..]), p))
  {
    var p := s.used[0];
    assert ListedOnce(s, p);
    OneChunkCapacity(s, p);
    var s' := Destroy(s.(used := s.used[1..]), p);
    SumChange(s.pools, s'.pools, p, s'.used);
    SumListsChange(s.pools, s'.pools, p, s.free);
    forall q ensures ListedOnce(s', q) { assert ListedOnce(s, q); }
  }

  lemma DropCached(s: State, i: nat)
    requires Teardown(s) && i < CACHE_LISTS && s.free[i] != []
    ensures var p := s.free[i][0];
            p in s.pools && Teardown(Destroy(s.(free := s.free[i := s.free[i][1..]]), p))
  {
    var l := s.free[i];
    var p := l[0];
    CachedIsLive(s, i, p);
    OneChunkCapacity(s, p);
    var s' := Destroy(s.(free := s.free[i := l[1..]]), p);
    OccListsUpdate(s.free, i, l[1..], p);
    SumListsUpdate(s.pools, s.free, i, l[1..]);
    SumChange(s.pools, s'.pools, p, s.used);
    SumListsChange(s.pools, s'.pools, p, s'.free);
    forall q ensures ListedOnce(s', q) {
      assert ListedOnce(s, q);
      OccListsUpdate(s.free, i, l[1..], q);
    }
  }

  lemma {:induction false} EmptySums(pools: map<Addr, Pool>, ls: seq<seq<Addr>>)
    requires forall i :: 0 <= i < |ls| ==> ls[i] == []
    ensures SumLists(pools, ls) == 0
  {
    if ls != [] { EmptySums(pools, ls[1..]); }
  }

  /** With every list empty no pool is left, and of the bytes counted as used only those of failed
      requests remain. */
  lemma TeardownReturnsAll(s: State)
    requires Teardown(s) && s.used == [] && forall i :: 0 <= i < CACHE_LISTS ==> s.free[i] == []
    ensures s.pools == map[] && s.usedSize == s.failed
  {
    EmptySums(s.pools, s.free);
    forall p ensures p !in s.pools {
      assert ListedOnce(s, p);
      EmptyLists(s.free, p);
    }
  }
}
