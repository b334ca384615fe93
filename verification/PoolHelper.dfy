// The pool helper object and the loops of the memory pool: the binary search over the size
// classes, the walk over the chunks, and the teardown of all pools.

module PoolHelpers {
  import opened MemoryPool
  import opened PoolCache

  lemma ClassStep(i: nat)
    requires i + 1 < CACHE_LISTS
    ensures Class(i) < Class(i + 1)
  {
  }

  lemma {:induction false} ClassMonotone(i: nat, j: nat)
    requires i <= j < CACHE_LISTS
    ensures Class(i) <= Class(j)
  {
    if i < j {
      ClassMonotone(i, j - 1);
      ClassStep(j - 1);
    }
  }

  /** atp_binary_search finds the least class that holds the value, or 16. */
  method BinarySearch(value: nat) returns (pos: nat)
    ensures pos <= CACHE_LISTS
    ensures pos < CACHE_LISTS ==> value <= Class(pos)
    ensures forall i: nat :: i < pos ==> Class(i) < value
    ensures pos == ClassOf(value)
  {
    var left, right := 0, CACHE_LISTS - 1;
    if Class(left) >= value {
      return left;
    }
    if Class(right) < value {
      forall i: nat | i < CACHE_LISTS ensures Class(i) < value { ClassMonotone(i, 15); }
      return CACHE_LISTS;
    }
    pos := 0;
    while left <= right
      invariant 0 <= left <= CACHE_LISTS && -1 <= right < CACHE_LISTS && left <= right + 1
      invariant forall i: nat :: i < left ==> Class(i) < value
      invariant right < CACHE_LISTS - 1 ==> pos == right + 1 && Class(pos) >= value
    {
      var mid := (left + right) / 2;
      if Class(mid) >= value {
        pos := mid;
        right := mid - 1;
      } else {
        forall i: nat | i <= mid ensures Class(i) < value { ClassMonotone(i, mid); }
        left := mid + 1;
      }
    }
  }

  class PoolHelper {
    const maxCapacity: nat
    var capacity: nat
    var usedCount: int
    var usedSize: int
    var used: seq<Addr>
    var free: seq<seq<Addr>>
    var pools: map<Addr, Pool>      // the pool headers in memory, by address
    ghost var blocks: seq<Block>
    ghost var failed: nat

    ghost function View(): State
      reads this
    {
      State(maxCapacity, capacity, usedCount, usedSize, used, free, pools, blocks, failed)
    }

    constructor (maxCapacity: nat)
      ensures View() == Init(maxCapacity) && Inv(View())
    {
      this.maxCapacity := maxCapacity;
      capacity, usedCount, usedSize, used, pools := 0, 0, 0, [], map[];
      free := seq(CACHE_LISTS, _ => []);
      blocks, failed := [], 0;
      new;
      InitInv(maxCapacity);
    }

    /** The default policy counts a request before it knows whether it succeeds. */
    method ChunkAlloc(size: nat, mem: Option<Addr>) returns (r: Option<Addr>)
      modifies this`usedSize, this`failed
      ensures r == mem && usedSize == old(usedSize) + size
      ensures failed == old(failed) + if mem.None? then size else 0
    {
      usedSize := usedSize + size;
      if mem.None? { failed := failed + size; }
      r := mem;
    }

    /** pool_alloc_from_chunk on the k-th chunk of a pool. */
    method AllocFromChunk(p: Addr, k: nat, size: nat) returns (r: Option<Addr>)
      requires HasChunk(View(), p, k) && size > 0
      modifies this`pools, this`blocks
      ensures if Fits(old(ChunkAt(View(), p, k)), size)
              then View() == Bump(old(View()), p, k, size) && r == Some(old(ChunkAt(View(), p, k)).cur)
              else View() == old(View()) && r == None
    {
      var q := pools[p];
      var c := q.chunks[k];
      var n := if size % 8 != 0 then (size + 8) / 8 * 8 else size;
      assert n == RoundUp(size);
      if c.end - c.cur >= n {
        pools := pools[p := q.(chunks := q.chunks[k := c.(cur := c.cur + n)])];
        blocks := blocks + [Block(p, c.region, c.cur, n)];
        r := Some(c.cur);
      } else {
        r := None;
      }
    }

    method CreateChunkAppendPool(p: Addr, chunkSize: nat, mem: Option<Addr>) returns (ok: bool)
      requires p in pools
      modifies this`pools, this`usedSize, this`failed
      ensures ok == mem.Some?
      ensures View() == if ok then AddChunk(old(View()), p, mem.value, chunkSize) else Fail(old(View()), chunkSize)
    {
      var m := ChunkAlloc(chunkSize, mem);
      if m.None? {
        return false;
      }
      var q := pools[p];
      pools := pools[p := q.(capacity := q.capacity + chunkSize, chunks := [NewChunk(m.value, chunkSize)] + q.chunks)];
      ok := true;
    }

    /** pool_alloc: the head chunk first, then the walk over the list, then a new chunk. */
    method PoolAlloc(p: Addr, size: nat, mem: Option<Addr>) returns (r: Option<Addr>)
      requires Inv(View()) && Enabled(View(), DoAlloc(p, size, mem))
      modifies this
      ensures (View(), r) == Alloc(old(View()), p, size, mem) && Inv(View())
    {
      AllocInv(View(), p, size, mem);
      if size == 0 {
        return None;
      }
      var k := 0;
      while k < |pools[p].chunks|
        invariant View() == old(View()) && 0 <= k <= FirstFit(pools[p].chunks, size)
      {
        r := AllocFromChunk(p, k, size);
        if r.Some? {
          return;
        }
        k := k + 1;
      }
      if pools[p].incr == 0 {
        return None;
      }
      var ok := CreateChunkAppendPool(p, NewChunkSize(pools[p].incr, size), mem);
      if !ok {
        return None;
      }
      r := AllocFromChunk(p, 0, size);
    }

    /** A fresh pool, with its header and first chunk in one region. */
    method CreateFresh(n: nat, incr: nat, pos: nat, mem: Option<Addr>) returns (r: Option<Addr>)
      modifies this
      ensures r == mem
      ensures View() == if mem.None? then Fail(old(View()), n) else Created(old(View()), mem.value, n, incr, pos)
    {
      r := ChunkAlloc(n, mem);
      if r.None? {
        return;
      }
      var p := r.value;
      pools := pools[p := NewPool(p, n, incr, pos)];
      used := [p] + used;
      usedCount := usedCount + 1;
    }

    /** The first cached pool of a size class. */
    method TakeCached(pos: nat, incr: nat) returns (p: Addr)
      requires pos < |free| && free[pos] != [] && free[pos][0] in pools
      modifies this
      ensures p == old(free[pos][0]) && View() == Reissued(old(View()), pos, incr)
    {
      p := free[pos][0];
      free := free[pos := free[pos][1..]];
      var q := pools[p];
      pools := pools[p := q.(incr := incr, pos := pos)];
      capacity := if capacity > q.capacity then capacity - q.capacity else 0;
      used := [p] + used;
      usedCount := usedCount + 1;
    }

    method CreatePool(initSize: nat, incr: nat, mem: Option<Addr>) returns (r: Option<Addr>)
      requires Inv(View()) && Enabled(View(), DoCreate(initSize, incr, mem))
      modifies this
      ensures Defined(old(View())) && (View(), r) == Create(old(View()), initSize, incr, mem) && Inv(View())
    {
      InvDefined(View());
      CreateInv(View(), initSize, incr, mem);
      var pos := BinarySearch(initSize);
      if pos == CACHE_LISTS || free[pos] == [] {
        var n := if pos < CACHE_LISTS then Class(pos) else initSize;
        assert n == FreshSize(initSize) >= POOL_HEADER + CHUNK_HEADER;
        r := CreateFresh(n, incr, pos, mem);
      } else {
        CachedHead(View(), pos);
        var p := TakeCached(pos, incr);
        r := Some(p);
      }
    }

    method InUsedList(p: Addr) returns (exist: bool)
      ensures exist <==> p in used
    {
      for i := 0 to |used|
        invariant p !in used[..i]
      {
        if used[i] == p {
          return true;
        }
      }
      exist := false;
    }

    method ReleasePool(p: Addr)
      requires Inv(View()) && Enabled(View(), DoRelease(p))
      modifies this
      ensures Defined(old(View())) && View() == Release(old(View()), p) && Inv(View())
    {
      InvDefined(View());
      ReleaseInv(View(), p);
      var exist := InUsedList(p);
      if !exist {
        return;
      }
      used := Without(used, p);
      usedCount := usedCount - 1;
      var q := pools[p];
      if q.pos == CACHE_LISTS || q.capacity + capacity > maxCapacity || q.capacity > Class(CACHE_LISTS - 1) {
        ReleasePool2(p);
        return;
      }
      free := free[q.pos := free[q.pos] + [p]];
      capacity := capacity + q.capacity;
    }

    /** One chunk_free, of the region from the pool's header to the end of its only chunk. */
    method ReleasePool2(p: Addr)
      requires p in pools && |pools[p].chunks| == 1
      modifies this`pools, this`usedSize, this`blocks
      ensures View() == MemoryPool.Destroy(old(View()), p)
    {
      usedSize := usedSize - (pools[p].chunks[0].end - p);
      pools := pools - {p};
      blocks := BlocksWithout(blocks, p);
    }

    /** pool_helper_destroy: used pools first, then the cache, list by list. */
    method Destroy()
      requires Inv(View()) && forall p :: p in pools ==> |pools[p].chunks| == 1
      modifies this
      ensures pools == map[] && used == [] && usedSize == failed == old(failed)
    {
      while used != []
        invariant Teardown(View()) && failed == old(failed)
        decreases |used|
      {
        DropUsed(View());
        var p := used[0];
        used := used[1..];
        ReleasePool2(p);
      }
      for i := 0 to CACHE_LISTS
        invariant Teardown(View()) && used == [] && failed == old(failed)
        invariant forall k :: 0 <= k < i ==> free[k] == []
      {
        while free[i] != []
          invariant Teardown(View()) && used == [] && failed == old(failed)
          invariant forall k :: 0 <= k < i ==> free[k] == []
          decreases |free[i]|
        {
          DropCached(View(), i);
          var p := free[i][0];
          free := free[i := free[i][1..]];
          ReleasePool2(p);
        }
      }
      TeardownReturnsAll(View());
    }
  }
}
