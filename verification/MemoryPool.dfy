// The chunked memory pools and the size-class cache in front of the system allocator.
// Addresses are integers; the system allocator is an adversary that hands out any fresh,
// aligned region, or fails.

module MemoryPool {

  type Addr = nat

  datatype Option<T> = None | Some(value: T)

  const POOL_HEADER: nat := 128     // sizeof(pool_t)
  const CHUNK_HEADER: nat := 40     // sizeof(pool_chunk_t)
  const CACHE_LISTS: nat := 16

  /** pool_size_array. */
  function Class(i: nat): (c: nat)
    requires i < CACHE_LISTS
    ensures 256 <= c <= 65535
  {
    match i
    case 0 => 256    case 1 => 512    case 2 => 1024   case 3 => 2048
    case 4 => 4096   case 5 => 8192   case 6 => 12288  case 7 => 16484
    case 8 => 20480  case 9 => 24567  case 10 => 28672 case 11 => 32768
    case 12 => 40960 case 13 => 49125 case 14 => 57344 case _ => 65535
  }

  predicate Aligned(x: int) { x % 8 == 0 }

  /** ATP_ALIGN_PTR. */
  function AlignUp(x: nat): (r: nat)
    ensures Aligned(r) && x <= r < x + 8
    ensures Aligned(x) ==> r == x
  {
    if Aligned(x) then x else x + 8 - x % 8
  }

  /** The rounding in pool_alloc_from_chunk. */
  function RoundUp(size: nat): (r: nat)
    ensures Aligned(r) && size <= r < size + 8
  {
    if Aligned(size) then size else (size + 8) / 8 * 8
  }

  /** The rounding is the least multiple of 8 that holds the request. */
  lemma RoundUpIsLeast(size: nat, k: nat)
    requires Aligned(k) && size <= k
    ensures RoundUp(size) <= k
  {
  }

  /** region: the address the allocator returned; buf: the first byte after the headers. */
  datatype Chunk = Chunk(region: Addr, buf: Addr, cur: Addr, end: Addr)

  datatype Pool = Pool(capacity: nat, incr: nat, pos: nat, chunks: seq<Chunk>)

  /** A block handed out by pool_alloc, with its rounded size. */
  datatype Block = Block(pool: Addr, region: Addr, addr: Addr, size: nat)

  datatype State = State(
    maxCapacity: nat,
    capacity: nat,
    usedCount: int,
    usedSize: int,
    used: seq<Addr>,
    free: seq<seq<Addr>>,
    pools: map<Addr, Pool>,
    blocks: seq<Block>,     // history: blocks of pools not yet destroyed
    failed: nat             // history: bytes asked of chunk_alloc when it failed
  )

  function Init(maxCapacity: nat): State {
    State(maxCapacity, 0, 0, 0, [], seq(CACHE_LISTS, _ => []), map[], [], 0)
  }

  // ---------- pool_alloc ----------

  predicate Fits(c: Chunk, size: nat) { c.end - c.cur >= RoundUp(size) }

  /** The first chunk with room, or the number of chunks. */
  function FirstFit(cs: seq<Chunk>, size: nat): (k: nat)
    ensures k <= |cs|
    ensures k < |cs| ==> Fits(cs[k], size)
    ensures forall i :: 0 <= i < k ==> !Fits(cs[i], size)
  {
    if cs == [] then 0 else if Fits(cs[0], size) then 0 else 1 + FirstFit(cs[1..], size)
  }

  function NewChunk(m: Addr, chunkSize: nat): Chunk {
    Chunk(m, m + CHUNK_HEADER, AlignUp(m + CHUNK_HEADER), m + chunkSize)
  }

  lemma AlignedSum(a: int, b: int)
    requires Aligned(a) && Aligned(b)
    ensures Aligned(a + b)
  {
  }

  /** The size of the chunk that pool_alloc_find asks for. */
  function NewChunkSize(incr: nat, size: nat): nat
    requires incr > 0
  {
    if incr < size + CHUNK_HEADER then incr * ((size + CHUNK_HEADER + incr + 8) / incr) else incr
  }

  lemma DivisionBounds(x: nat, d: nat)
    requires d > 0
    ensures x - d < d * (x / d) <= x
  {
    assert x == d * (x / d) + x % d;
  }

  predicate IsTimes(n: nat, d: nat, k: nat) { n == d * k }

  /** The new chunk holds its header, so the assert in create_chunk_append_pool never trips, and
      the request; the rounded request too, unless the increment was taken as it is. */
  lemma NewChunkSizeBounds(incr: nat, size: nat)
    requires incr > 0
    ensures NewChunkSize(incr, size) >= CHUNK_HEADER + size
    ensures incr < size + CHUNK_HEADER ==> NewChunkSize(incr, size) >= CHUNK_HEADER + RoundUp(size)
  {
    DivisionBounds(size + CHUNK_HEADER + incr + 8, incr);
  }

  /** The size asked for is the increment if that holds header and request; otherwise it is the only
      multiple of the increment that exceeds header, request and 8 by at most the increment. */
  lemma NewChunkSizeExact(incr: nat, size: nat)
    requires incr > 0
    ensures incr >= size + CHUNK_HEADER ==> NewChunkSize(incr, size) == incr
    ensures incr < size + CHUNK_HEADER ==>
              && (exists k: nat :: IsTimes(NewChunkSize(incr, size), incr, k))
              && size + CHUNK_HEADER + 8 < NewChunkSize(incr, size) <= size + CHUNK_HEADER + 8 + incr
  {
    var x := size + CHUNK_HEADER + incr + 8;
    DivisionBounds(x, incr);
    if incr < size + CHUNK_HEADER { assert IsTimes(NewChunkSize(incr, size), incr, x / incr); }
  }

  const SIZE_MODULUS: nat := 0x1_0000_0000_0000_0000
  const INT_MODULUS: nat := 0x1_0000_0000

  /** Conversion to a 32-bit int. */
  function ToInt(q: nat): int {
    if q % INT_MODULUS < INT_MODULUS / 2 then q % INT_MODULUS else q % INT_MODULUS - INT_MODULUS
  }

  /** How often the increment goes into the request, with a header and an increment to spare. */
  function ChunkCount(incr: nat, size: nat): nat
    requires incr > 0
  {
    (size + CHUNK_HEADER + incr + 8) / incr
  }

  /** NewChunkSize as the machine computes it: the count is an int, the product a size_t. */
  function MachineChunkSize(incr: nat, size: nat): nat
    requires incr > 0
  {
    if incr < size + CHUNK_HEADER then incr * ToInt(ChunkCount(incr, size)) % SIZE_MODULUS else incr
  }

  lemma ToIntWraps(q: nat) returns (k: nat)
    ensures ToInt(q) == q - k * INT_MODULUS
    ensures if q < INT_MODULUS / 2 then k == 0 else k >= 1 && k * INT_MODULUS <= 2 * q
  {
    k := q / INT_MODULUS;
    if q % INT_MODULUS >= INT_MODULUS / 2 { k := k + 1; }
  }

  lemma WrapsAround(p: nat, d: nat)
    requires p < SIZE_MODULUS && d < SIZE_MODULUS
    ensures (p - d) % SIZE_MODULUS == p <==> d == 0
  {
  }

  lemma ProductBound(incr: nat, x: nat, y: nat)
    requires x <= 2 * y
    ensures incr * x <= 2 * (incr * y)
  {
  }

  /** The machine's chunk size is the intended one exactly when the count fits an int. */
  lemma ChunkCountFitsIff(incr: nat, size: nat)
    requires incr > 0 && size + CHUNK_HEADER + incr + 8 < SIZE_MODULUS / 2
    ensures MachineChunkSize(incr, size) == NewChunkSize(incr, size) <==>
            incr >= size + CHUNK_HEADER || ChunkCount(incr, size) < INT_MODULUS / 2
  {
    var q := ChunkCount(incr, size);
    DivisionBounds(size + CHUNK_HEADER + incr + 8, incr);
    var k := ToIntWraps(q);
    var d := k * INT_MODULUS;
    ProductBound(incr, d, q);
    assert incr * (q - d) == incr * q - incr * d;
    assert k >= 1 ==> incr * d > 0;
    WrapsAround(incr * q, incr * d);
  }

  /** A count of 2^32 becomes 0: the assert on the chunk size trips. */
  lemma ChunkCountOverflows()
    ensures MachineChunkSize(1, INT_MODULUS - 49) == 0
  {
    assert ChunkCount(1, INT_MODULUS - 49) == INT_MODULUS;
  }

  /** When no chunk of the pool has room and chunk_alloc delivers, allocation succeeds exactly
      when the increment is non-zero and does not fall short of the rounded request while
      holding the plain one; on the machine too, while the count fits an int. */
  lemma GrowthSufficesIff(incr: nat, size: nat, m: Addr)
    requires size > 0 && Aligned(m)
    ensures incr > 0 && Fits(NewChunk(m, NewChunkSize(incr, size)), size) <==>
            incr > 0 && (incr < size + CHUNK_HEADER || RoundUp(size) + CHUNK_HEADER <= incr)
    ensures incr > 0 && size + CHUNK_HEADER + incr + 8 < SIZE_MODULUS / 2 && ChunkCount(incr, size) < INT_MODULUS / 2 ==>
            (Fits(NewChunk(m, MachineChunkSize(incr, size)), size) <==>
             incr < size + CHUNK_HEADER || RoundUp(size) + CHUNK_HEADER <= incr)
  {
    if incr > 0 {
      if size + CHUNK_HEADER + incr + 8 < SIZE_MODULUS / 2 { ChunkCountFitsIff(incr, size); }
      NewChunkSizeBounds(incr, size);
      AlignedSum(m, CHUNK_HEADER);
    }
  }

  /** In particular it always suffices for increments that are positive multiples of 8. */
  lemma AlignedGrowthSuffices(incr: nat, size: nat)
    requires incr > 0 && Aligned(incr)
    ensures incr < size + CHUNK_HEADER || RoundUp(size) + CHUNK_HEADER <= incr
  {
    if incr >= size + CHUNK_HEADER {
      AlignedSum(incr - CHUNK_HEADER, 0);
      RoundUpIsLeast(size, incr - CHUNK_HEADER);
    }
  }

  /** An increment of 41 holds a chunk header and one byte, but not the byte rounded up to 8. */
  lemma IncrementFallsShort()
    ensures 41 >= 1 + CHUNK_HEADER && !Fits(NewChunk(0, NewChunkSize(41, 1)), 1)
  {
  }

  /** Bump allocation from chunk k. */
  function Bump(s: State, p: Addr, k: nat, size: nat): State
    requires p in s.pools && k < |s.pools[p].chunks|
  {
    var c := s.pools[p].chunks[k];
    s.(pools := s.pools[p := s.pools[p].(chunks := s.pools[p].chunks[k := c.(cur := c.cur + RoundUp(size))])],
       blocks := s.blocks + [Block(p, c.region, c.cur, RoundUp(size))])
  }

  function AddChunk(s: State, p: Addr, m: Addr, chunkSize: nat): State
    requires p in s.pools
  {
    var q := s.pools[p];
    s.(usedSize := s.usedSize + chunkSize,
       pools := s.pools[p := q.(capacity := q.capacity + chunkSize, chunks := [NewChunk(m, chunkSize)] + q.chunks)])
  }

  function Fail(s: State, size: nat): State {
    s.(usedSize := s.usedSize + size, failed := s.failed + size)
  }

  /** pool_alloc; `mem` is what chunk_alloc answers, should it be asked. */
  function Alloc(s: State, p: Addr, size: nat, mem: Option<Addr>): (State, Option<Addr>)
    requires p in s.pools
  {
    var q := s.pools[p];
    var k := FirstFit(q.chunks, size);
    if size == 0 then (s, None)
    else if k < |q.chunks| then (Bump(s, p, k, size), Some(q.chunks[k].cur))
    else if q.incr == 0 then (s, None)
    else
      var n := NewChunkSize(q.incr, size);
      if mem.None? then (Fail(s, n), None)
      else
        var a := AddChunk(s, p, mem.value, n);
        var c := NewChunk(mem.value, n);
        if Fits(c, size) then (Bump(a, p, 0, size), Some(c.cur)) else (a, None)
  }

  // ---------- the cache ----------

  function ClassFrom(size: nat, i: nat): (k: nat)
    requires i <= CACHE_LISTS
    requires forall j: nat :: j < i ==> Class(j) < size
    ensures k <= CACHE_LISTS
    ensures k < CACHE_LISTS ==> size <= Class(k)
    ensures forall j: nat :: j < k ==> Class(j) < size
    decreases CACHE_LISTS - i
  {
    if i == CACHE_LISTS || size <= Class(i) then i else ClassFrom(size, i + 1)
  }

  /** atp_binary_search: the least class that holds the request, 16 if none does. */
  function ClassOf(size: nat): (k: nat)
    ensures k <= CACHE_LISTS
    ensures k < CACHE_LISTS ==> size <= Class(k)
    ensures forall i: nat :: i < k ==> Class(i) < size
  {
    ClassFrom(size, 0)
  }

  function NewPool(m: Addr, size: nat, incr: nat, pos: nat): Pool {
    Pool(size, incr, pos, [Chunk(m, m + POOL_HEADER + CHUNK_HEADER, AlignUp(m + POOL_HEADER + CHUNK_HEADER), m + size)])
  }

  function FreshSize(initSize: nat): (n: nat)
    ensures n >= initSize && n >= POOL_HEADER + CHUNK_HEADER
  {
    var pos := ClassOf(initSize);
    if pos < CACHE_LISTS then Class(pos) else (assert Class(15) < initSize; initSize)
  }

  function Enlist(s: State, p: Addr): State {
    s.(used := [p] + s.used, usedCount := s.usedCount + 1)
  }

  function Created(s: State, m: Addr, n: nat, incr: nat, pos: nat): State {
    Enlist(s.(usedSize := s.usedSize + n, pools := s.pools[m := NewPool(m, n, incr, pos)]), m)
  }

  /** The first cached pool of a size class; the cache's capacity is clamped at zero. */
  function Reissued(s: State, pos: nat, incr: nat): State
    requires pos < |s.free| && s.free[pos] != [] && s.free[pos][0] in s.pools
  {
    var p := s.free[pos][0];
    var q := s.pools[p];
    Enlist(s.(free := s.free[pos := s.free[pos][1..]],
              pools := s.pools[p := q.(incr := incr, pos := pos)],
              capacity := if s.capacity > q.capacity then s.capacity - q.capacity else 0), p)
  }

  /** create_pool__. */
  function Create(s: State, initSize: nat, incr: nat, mem: Option<Addr>): (State, Option<Addr>)
    requires |s.free| == CACHE_LISTS
    requires forall i: nat, a :: i < CACHE_LISTS && a in s.free[i] ==> a in s.pools
  {
    var pos := ClassOf(initSize);
    if pos == CACHE_LISTS || s.free[pos] == [] then
      var n := FreshSize(initSize);
      if mem.None? then (Fail(s, n), None) else (Created(s, mem.value, n, incr, pos), mem)
    else
      var p := s.free[pos][0];
      assert p in s.free[pos];
      (Reissued(s, pos, incr), Some(p))
  }

  function Without(l: seq<Addr>, p: Addr): seq<Addr> {
    if l == [] then [] else if l[0] == p then l[1..] else [l[0]] + Without(l[1..], p)
  }

  function BlocksWithout(bs: seq<Block>, p: Addr): (r: seq<Block>)
    ensures forall b :: b in r ==> b in bs && b.pool != p
  {
    if bs == [] then []
    else if bs[0].pool == p then BlocksWithout(bs[1..], p)
    else [bs[0]] + BlocksWithout(bs[1..], p)
  }

  predicate Destroys(s: State, p: Addr)
    requires p in s.pools
  {
    var q := s.pools[p];
    q.pos == CACHE_LISTS || q.capacity + s.capacity > s.maxCapacity || q.capacity > Class(CACHE_LISTS - 1)
  }

  /** release_pool2 on a pool with one chunk: one chunk_free, of the whole region. */
  function Destroy(s: State, p: Addr): State
    requires p in s.pools && s.pools[p].chunks != []
  {
    s.(usedSize := s.usedSize - (s.pools[p].chunks[0].end - p),
       pools := s.pools - {p},
       blocks := BlocksWithout(s.blocks, p))
  }

  /** release_pool__. */
  function Release(s: State, p: Addr): State
    requires p in s.used ==> p in s.pools && s.pools[p].chunks != []
    requires p in s.used ==> s.pools[p].pos <= CACHE_LISTS && |s.free| == CACHE_LISTS
  {
    if p !in s.used then s
    else
      var u := s.(used := Without(s.used, p), usedCount := s.usedCount - 1);
      var q := s.pools[p];
      if Destroys(s, p) then Destroy(u, p)
      else u.(free := s.free[q.pos := s.free[q.pos] + [p]], capacity := s.capacity + q.capacity)
  }

  // ---------- runs ----------

  datatype Label =
    | DoAlloc(p: Addr, size: nat, mem: Option<Addr>)
    | DoCreate(initSize: nat, incr: nat, mem: Option<Addr>)
    | DoRelease(p: Addr)

  predicate HasChunk(s: State, p: Addr, i: nat) { p in s.pools && i < |s.pools[p].chunks| }

  function ChunkAt(s: State, p: Addr, i: nat): Chunk
    requires HasChunk(s, p, i)
  {
    s.pools[p].chunks[i]
  }

  /** The allocator's promise: an aligned region that overlaps no region in use. */
  ghost predicate FreshRegion(s: State, m: Addr, size: nat) {
    Aligned(m) && forall p, i :: HasChunk(s, p, i) ==> m + size <= ChunkAt(s, p, i).region || ChunkAt(s, p, i).end <= m
  }

  ghost predicate Fresh(s: State, mem: Option<Addr>, size: nat) {
    mem.Some? ==> FreshRegion(s, mem.value, size)
  }

  ghost predicate Enabled(s: State, l: Label) {
    match l
    case DoAlloc(p, size, mem) =>
      p in s.used && p in s.pools &&
      (s.pools[p].incr > 0 ==> Fresh(s, mem, NewChunkSize(s.pools[p].incr, size)))
    case DoCreate(initSize, incr, mem) => Fresh(s, mem, FreshSize(initSize))
    case DoRelease(p) =>
      // A pool that is to be destroyed has not grown.
      p in s.used && p in s.pools && Destroys(s, p) ==> |s.pools[p].chunks| == 1
  }

  // ---------- chunks and regions ----------

  /** A chunk lies in its region after its header, with its bump pointer aligned and in range. */
  predicate ChunkOk(c: Chunk, header: nat) {
    && Aligned(c.region) && Aligned(c.cur)
    && c.buf == c.region + header
    && c.buf <= c.cur <= c.end
  }

  function Sizes(cs: seq<Chunk>): int {
    if cs == [] then 0 else cs[0].end - cs[0].region + Sizes(cs[1..])
  }

  /** The last chunk is the one embedded behind the pool's own header; the capacity is the
      total size of the regions. */
  ghost predicate PoolOk(p: Addr, q: Pool) {
    && q.chunks != []
    && (forall i :: 0 <= i < |q.chunks| - 1 ==> ChunkOk(q.chunks[i], CHUNK_HEADER))
    && ChunkOk(q.chunks[|q.chunks| - 1], POOL_HEADER + CHUNK_HEADER)
    && q.chunks[|q.chunks| - 1].region == p
    && q.capacity == Sizes(q.chunks)
  }

  ghost predicate Shape(s: State) { forall p :: p in s.pools ==> PoolOk(p, s.pools[p]) }

  predicate Disjoint(c: Chunk, d: Chunk) { c.end <= d.region || d.end <= c.region }

  ghost predicate Apart(s: State) {
    forall p, i, q, j :: HasChunk(s, p, i) && HasChunk(s, q, j) && (p != q || i != j) ==>
      Disjoint(ChunkAt(s, p, i), ChunkAt(s, q, j))
  }

  lemma {:induction false} SizesUpdate(cs: seq<Chunk>, k: nat, cur: nat)
    requires k < |cs|
    ensures Sizes(cs[k := cs[k].(cur := cur)]) == Sizes(cs)
  {
    var ds := cs[k := cs[k].(cur := cur)];
    if k == 0 {
      assert ds[1..] == cs[1..];
    } else {
      SizesUpdate(cs[1..], k - 1, cur);
      assert ds[1..] == cs[1..][k - 1 := cs[k].(cur := cur)];
    }
  }

  /** Whatever else happens to them, chunks that keep their regions stay apart. */
  lemma SameRegionsApart(s: State, s': State)
    requires Apart(s)
    requires forall q, i: nat :: HasChunk(s', q, i) ==>
      HasChunk(s, q, i) && ChunkAt(s', q, i).region == ChunkAt(s, q, i).region && ChunkAt(s', q, i).end == ChunkAt(s, q, i).end
    ensures Apart(s')
  {
  }

  lemma BumpPool(p: Addr, q: Pool, k: nat, size: nat)
    requires PoolOk(p, q) && k < |q.chunks| && Fits(q.chunks[k], size)
    ensures var c := q.chunks[k];
            PoolOk(p, q.(chunks := q.chunks[k := c.(cur := c.cur + RoundUp(size))]))
  {
    AlignedSum(q.chunks[k].cur, RoundUp(size));
    SizesUpdate(q.chunks, k, q.chunks[k].cur + RoundUp(size));
  }

  lemma BumpShape(s: State, p: Addr, k: nat, size: nat)
    requires Shape(s) && Apart(s) && HasChunk(s, p, k) && Fits(ChunkAt(s, p, k), size)
    ensures Shape(Bump(s, p, k, size)) && Apart(Bump(s, p, k, size))
  {
    BumpPool(p, s.pools[p], k, size);
    SameRegionsApart(s, Bump(s, p, k, size));
  }

  lemma NewChunkOk(m: Addr, n: nat)
    requires Aligned(m) && n >= CHUNK_HEADER
    ensures ChunkOk(NewChunk(m, n), CHUNK_HEADER) && NewChunk(m, n).cur == m + CHUNK_HEADER
  {
    AlignedSum(m, CHUNK_HEADER);
  }

  lemma AddChunkPool(q: Pool, p: Addr, m: Addr, n: nat)
    requires PoolOk(p, q) && Aligned(m) && n >= CHUNK_HEADER
    ensures PoolOk(p, q.(capacity := q.capacity + n, chunks := [NewChunk(m, n)] + q.chunks))
  {
    var cs := [NewChunk(m, n)] + q.chunks;
    NewChunkOk(m, n);
    assert cs[1..] == q.chunks;
    forall i | 0 <= i < |cs| - 1 ensures ChunkOk(cs[i], CHUNK_HEADER) {
      if i > 0 { assert cs[i] == q.chunks[i - 1]; }
    }
  }

  lemma AddChunkApart(s: State, p: Addr, m: Addr, n: nat)
    requires Apart(s) && p in s.pools && FreshRegion(s, m, n)
    ensures Apart(AddChunk(s, p, m, n))
  {
    var s' := AddChunk(s, p, m, n);
    forall q, i: nat | HasChunk(s', q, i)
      ensures (q == p && i == 0) || HasChunk(s, q, if q == p then i - 1 else i)
      ensures ChunkAt(s', q, i) == if q == p && i == 0 then NewChunk(m, n) else ChunkAt(s, q, if q == p then i - 1 else i)
    {
    }
  }

  lemma AddChunkShape(s: State, p: Addr, m: Addr, n: nat)
    requires Shape(s) && Apart(s) && p in s.pools && n >= CHUNK_HEADER && FreshRegion(s, m, n)
    ensures Shape(AddChunk(s, p, m, n)) && Apart(AddChunk(s, p, m, n))
  {
    AddChunkPool(s.pools[p], p, m, n);
    AddChunkApart(s, p, m, n);
  }

  lemma NewPoolShape(s: State, s': State, m: Addr, n: nat, incr: nat, pos: nat)
    requires Shape(s) && Apart(s) && FreshRegion(s, m, n) && n >= POOL_HEADER + CHUNK_HEADER
    requires s'.pools == s.pools[m := NewPool(m, n, incr, pos)]
    ensures Shape(s') && Apart(s') && m !in s.pools
  {
    if m in s.pools {
      var l := |s.pools[m].chunks| - 1;
      assert PoolOk(m, s.pools[m]);
      assert HasChunk(s, m, l);
      assert false;
    }
    AlignedSum(m, POOL_HEADER + CHUNK_HEADER);
    var cs := NewPool(m, n, incr, pos).chunks;
    assert cs[1..] == [];
    assert PoolOk(m, s'.pools[m]);
    forall q, i: nat | HasChunk(s', q, i)
      ensures if q == m then i == 0 else HasChunk(s, q, i) && ChunkAt(s', q, i) == ChunkAt(s, q, i)
    {
    }
  }

  // ---------- blocks ----------

  predicate InChunk(s: State, b: Block, i: nat) {
    && HasChunk(s, b.pool, i)
    && var c := ChunkAt(s, b.pool, i);
       c.region == b.region && c.buf <= b.addr && b.addr + b.size <= c.cur
  }

  /** Aligned, not empty, and inside the used part of a chunk of its pool, past the headers. */
  ghost predicate BlockOk(s: State, b: Block) {
    Aligned(b.addr) && b.size > 0 && exists i: nat :: InChunk(s, b, i)
  }

  predicate BlocksDisjoint(b: Block, d: Block) { b.addr + b.size <= d.addr || d.addr + d.size <= b.addr }

  ghost predicate PairwiseDisjoint(bs: seq<Block>) {
    forall j, k :: 0 <= j < k < |bs| ==> BlocksDisjoint(bs[j], bs[k])
  }

  ghost predicate BlocksInv(s: State) {
    (forall k :: 0 <= k < |s.blocks| ==> BlockOk(s, s.blocks[k])) && PairwiseDisjoint(s.blocks)
  }

  lemma BlockKept(s: State, s': State, b: Block, i: nat, i': nat)
    requires Aligned(b.addr) && b.size > 0 && InChunk(s, b, i)
    requires HasChunk(s', b.pool, i')
    requires var c, c' := ChunkAt(s, b.pool, i), ChunkAt(s', b.pool, i');
             c'.region == c.region && c'.buf == c.buf && c.cur <= c'.cur
    ensures BlockOk(s', b)
  {
    assert InChunk(s', b, i');
  }

  /** A block that was handed out before does not overlap the free part of any chunk. */
  lemma BlockBelowCur(s: State, b: Block, p: Addr, k: nat)
    requires Shape(s) && Apart(s) && BlockOk(s, b) && HasChunk(s, p, k)
    ensures b.addr + b.size <= ChunkAt(s, p, k).cur || ChunkAt(s, p, k).end <= b.addr
  {
    var i: nat :| InChunk(s, b, i);
    var c := ChunkAt(s, b.pool, i);
    assert PoolOk(b.pool, s.pools[b.pool]) && PoolOk(p, s.pools[p]);
    assert c.region <= c.buf && c.cur <= c.end;
    if b.pool != p || i != k {
      assert Disjoint(c, ChunkAt(s, p, k));
    }
  }

  lemma BumpBlocks(s: State, p: Addr, k: nat, size: nat)
    requires Shape(s) && Apart(s) && BlocksInv(s)
    requires HasChunk(s, p, k) && Fits(ChunkAt(s, p, k), size) && size > 0
    ensures BlocksInv(Bump(s, p, k, size))
  {
    var s', c := Bump(s, p, k, size), ChunkAt(s, p, k);
    var b := s'.blocks[|s.blocks|];
    assert PoolOk(p, s.pools[p]);
    assert InChunk(s', b, k);
    forall j | 0 <= j < |s.blocks|
      ensures BlockOk(s', s.blocks[j]) && BlocksDisjoint(s.blocks[j], b)
    {
      var d := s.blocks[j];
      assert BlockOk(s, d);
      BlockBelowCur(s, d, p, k);
      var i: nat :| InChunk(s, d, i);
      BlockKept(s, s', d, i, i);
    }
  }

  lemma AddChunkBlocks(s: State, p: Addr, m: Addr, n: nat)
    requires BlocksInv(s) && p in s.pools
    ensures BlocksInv(AddChunk(s, p, m, n))
  {
    var s' := AddChunk(s, p, m, n);
    forall k | 0 <= k < |s.blocks| ensures BlockOk(s', s.blocks[k]) {
      var b := s.blocks[k];
      assert BlockOk(s, b);
      var i: nat :| InChunk(s, b, i);
      BlockKept(s, s', b, i, if b.pool == p then i + 1 else i);
    }
  }

  /** Steps that leave the chunks of the pools with blocks alone. */
  lemma SameChunksBlocks(s: State, s': State)
    requires BlocksInv(s) && s'.blocks == s.blocks
    requires forall k :: 0 <= k < |s.blocks| ==>
      var p := s.blocks[k].pool; p in s.pools ==> p in s'.pools && s'.pools[p].chunks == s.pools[p].chunks
    ensures BlocksInv(s')
  {
    forall k | 0 <= k < |s.blocks| ensures BlockOk(s', s.blocks[k]) {
      var b := s.blocks[k];
      assert BlockOk(s, b);
      var i: nat :| InChunk(s, b, i);
      BlockKept(s, s', b, i, i);
    }
  }

  lemma HeadDisjoint(bs: seq<Block>, b: Block)
    requires PairwiseDisjoint(bs) && bs != [] && b in bs[1..]
    ensures BlocksDisjoint(bs[0], b)
  {
    var j :| 0 <= j < |bs[1..]| && bs[1..][j] == b;
    assert bs[j + 1] == b;
  }

  lemma {:induction false} BlocksWithoutApart(bs: seq<Block>, p: Addr)
    requires PairwiseDisjoint(bs)
    ensures PairwiseDisjoint(BlocksWithout(bs, p))
  {
    if bs != [] {
      BlocksWithoutApart(bs[1..], p);
      var r, t := BlocksWithout(bs, p), BlocksWithout(bs[1..], p);
      if bs[0].pool != p {
        forall j, k | 0 <= j < k < |r| ensures BlocksDisjoint(r[j], r[k]) {
          if j == 0 {
            assert t[k - 1] in bs[1..];
            HeadDisjoint(bs, t[k - 1]);
          } else {
            assert r[j] == t[j - 1] && r[k] == t[k - 1];
          }
        }
      }
    }
  }

  lemma DestroyBlocks(s: State, p: Addr)
    requires BlocksInv(s) && p in s.pools && s.pools[p].chunks != []
    ensures BlocksInv(Destroy(s, p))
  {
    var s' := Destroy(s, p);
    BlocksWithoutApart(s.blocks, p);
    forall k | 0 <= k < |s'.blocks| ensures BlockOk(s', s'.blocks[k]) {
      var b := s'.blocks[k];
      assert b in s.blocks && b.pool != p;
      assert BlockOk(s, b);
      var i: nat :| InChunk(s, b, i);
      BlockKept(s, s', b, i, i);
    }
  }
}
