/** Arenas stacked on arenas: allocating and freeing through the whole hierarchy, and runs of both. */
module Hierarchy {
  import opened Words
  import opened Options
  import opened Legion
  import opened Arena
  import opened Slices

  /** sizes[i] is the block size of level i. */
  datatype Config = Config(sizes: seq<nat>)

  predicate ConfigOk(c: Config) {
    && 0 < |c.sizes|
    && (forall i :: 0 <= i < |c.sizes| ==> c.sizes[i] >= 1)
    && (forall i, j :: 0 <= i <= j < |c.sizes| ==> c.sizes[i] <= c.sizes[j])
  }

  datatype World = World(bins: seq<Bins>, pool: map<Id, Heap>, buffers: set<nat>, nextId: Id)

  function Empty(c: Config): World { World(seq(|c.sizes|, _ => NoBins()), map[], {}, 0) }

  /** What the backing allocator grants, if asked: nothing, or a buffer that is not in use. */
  function Granted(buffers: set<nat>, grant: Option<nat>): Option<nat> {
    if grant.Some? && grant.value !in buffers then grant else None
  }

  /** Every heap is filed in its arena, and heap names are never reused. */
  ghost predicate Shaped(c: Config, w: World) {
    && ConfigOk(c)
    && |w.bins| == |c.sizes|
    && (forall i :: 0 <= i < |w.bins| ==> Filed(w.bins[i], i, w.pool))
    && (forall id :: id in w.pool ==> id < w.nextId)
  }

  /** The number of blocks of a given size that cover count elements. */
  function Blocks(count: nat, size: nat): nat
    requires size >= 1
  {
    (count + size - 1) / size
  }

  lemma BlocksOk(count: nat, size: nat)
    requires size >= 1 && 1 <= count <= 32 * size
    ensures 1 <= Blocks(count, size) <= 32 && count <= Blocks(count, size) * size < count + size
  {
    var x := count + size - 1;
    var q, r := x / size, x % size;
    assert x == size * q + r;
    assert q * size == size * q;
    MulOrder(size, 33, q);
  }

  /** Take n blocks from the lowest place they fit in heap id, and file it anew. */
  function TakeFrom(c: Config, w: World, i: nat, id: Id, n: nat): (w': World)
    requires Shaped(c, w) && i < |c.sizes| && id in w.pool && w.pool[id].level == i
    requires 1 <= n <= 32 && FirstFit(w.pool[id].free, n) < 32
    ensures Shaped(c, w')
  {
    var h := w.pool[id];
    var h' := Taking(h, FirstFit(h.free, n), n);
    TakingOk(h, n);
    Refiled(c, w, i, id, h')
  }

  lemma TakingOk(h: Heap, n: nat)
    requires 1 <= n && FirstFit(h.free, n) < 32
    ensures Taking(h, FirstFit(h.free, n), n).free != AllFree()
  {
    var b := FirstFit(h.free, n);
    assert !Taking(h, b, n).free[b];
  }

  lemma OthersFiled(bins: seq<Bins>, i: nat, pool: map<Id, Heap>, pool': map<Id, Heap>)
    requires forall j :: 0 <= j < |bins| ==> Filed(bins[j], j, pool)
    requires forall id :: (id in pool && pool[id].level != i) || (id in pool' && pool'[id].level != i) ==>
      id in pool && id in pool' && pool[id] == pool'[id]
    ensures forall j :: 0 <= j < |bins| && j != i ==> Filed(bins[j], j, pool')
  {
    hide Filed;
    forall j | 0 <= j < |bins| && j != i ensures Filed(bins[j], j, pool') {
      OtherLevel(bins[j], j, pool, pool');
    }
  }

  /** A new heap on slice a, its first n blocks taken. */
  function NewHeap(c: Config, w: World, i: nat, a: Slice, n: nat): (w': World)
    requires Shaped(c, w) && i < |c.sizes| && 1 <= n <= 32
    ensures Shaped(c, w')
  {
    var h := Taking(Heap(i, a, AllFree()), 0, n);
    FreshOk(i, a, n);
    FileOk(w.bins[i], i, w.pool, w.nextId, h);
    OthersFiled(w.bins, i, w.pool, w.pool[w.nextId := h]);
    World(w.bins[i := File(w.bins[i], w.nextId, LongestRun(h.free))], w.pool[w.nextId := h], w.buffers, w.nextId + 1)
  }

  lemma FreshOk(i: nat, a: Slice, n: nat)
    requires 1 <= n <= 32
    ensures FirstFit(AllFree(), n) == 0 && RunFrom(AllFree(), 0, n)
    ensures Taking(Heap(i, a, AllFree()), 0, n).free != AllFree()
  {
    AllFreeFits();
    TakingOk(Heap(i, a, AllFree()), n);
  }

  /** Allocate count elements at level i: from the tightest heap that has room, else from a new heap,
      which the next level or, with this grant, the backing allocator must supply. A failure leaves everything
      as it was. */
  function Alloc(c: Config, w: World, i: nat, count: nat, grant: Option<nat>): (r: (World, Option<Slice>))
    requires Shaped(c, w) && i < |c.sizes| && 1 <= count <= 32 * c.sizes[i]
    ensures Shaped(c, r.0)
    decreases |c.sizes| - i
  {
    var size := c.sizes[i];
    var n := Blocks(count, size);
    BlocksOk(count, size);
    var k := Pick(w.bins[i], n);
    PickOk(w.bins[i], i, w.pool, n);
    if k < 32 then
      var id := w.bins[i].heaps[k][0];
      (TakeFrom(c, w, i, id, n), Some(Carved(w.pool[id], id, size, FirstFit(w.pool[id].free, n), n)))
    else
      var (w1, backing) := Backing(c, w, i, grant);
      match backing
      case None => (w1, None)
      case Some(a) =>
        (NewHeap(c, w1, i, a, n), Some(Carved(Heap(i, a, AllFree()), w1.nextId, size, 0, n)))
  }

  function Backing(c: Config, w: World, i: nat, grant: Option<nat>): (r: (World, Option<Slice>))
    requires Shaped(c, w) && i < |c.sizes|
    ensures Shaped(c, r.0)
    decreases |c.sizes| - i, 0
  {
    var count := 32 * c.sizes[i];
    if i + 1 < |c.sizes| then Alloc(c, w, i + 1, count, grant)
    else
      match Granted(w.buffers, grant)
      case None => (w, None)
      case Some(x) => (w.(buffers := w.buffers + {x}), Some(Slice(x, 0, count, NoneFree(), Root)))
  }

  /** Heap id of level i, the heap its slice came from, and so on to the top, all exist. */
  predicate Chain(pool: map<Id, Heap>, levels: nat, i: nat, id: Id)
    decreases levels - i
  {
    && i < levels && id in pool && pool[id].level == i
    && (i + 1 < levels ==> pool[id].allocation.home.In? && Chain(pool, levels, i + 1, pool[id].allocation.home.heap))
  }

  lemma {:induction false} ChainKept(pool: map<Id, Heap>, pool': map<Id, Heap>, levels: nat, i: nat, id: Id)
    requires Chain(pool, levels, i, id)
    requires forall x :: x in pool && pool[x].level >= i ==> x in pool' && pool'[x] == pool[x]
    ensures Chain(pool', levels, i, id)
    decreases levels - i
  {
    if i + 1 < levels {
      ChainKept(pool, pool', levels, i + 1, pool[id].allocation.home.heap);
    }
  }

  /** Give the blocks in mask back to heap id of level i; a heap that becomes wholly free is given back itself. */
  function Free(c: Config, w: World, i: nat, id: Id, mask: Mask): (w': World)
    requires Shaped(c, w) && Chain(w.pool, |c.sizes|, i, id)
    ensures Shaped(c, w')
    decreases |c.sizes| - i
  {
    var h := w.pool[id];
    var h' := Returning(h, mask);
    if h'.free == AllFree() then
      var w1 := Without(c, w, i, id);
      if i + 1 < |c.sizes| then
        ChainKept(w.pool, w1.pool, |c.sizes|, i + 1, h.allocation.home.heap);
        Free(c, w1, i + 1, h.allocation.home.heap, h.allocation.mask)
      else w1.(buffers := w1.buffers - {h.allocation.buffer})
    else Refiled(c, w, i, id, h')
  }

  /** Heap id leaves its list and the pool. */
  function Without(c: Config, w: World, i: nat, id: Id): (w': World)
    requires Shaped(c, w) && i < |c.sizes| && id in w.pool && w.pool[id].level == i
    ensures Shaped(c, w')
  {
    UnfileOk(w.bins[i], i, w.pool, id);
    OthersFiled(w.bins, i, w.pool, w.pool - {id});
    w.(bins := w.bins[i := Unfile(w.bins[i], id, LongestRun(w.pool[id].free))], pool := w.pool - {id})
  }

  /** Heap id becomes h', and moves to the list of its longest run. */
  function Refiled(c: Config, w: World, i: nat, id: Id, h': Heap): (w': World)
    requires Shaped(c, w) && i < |c.sizes| && id in w.pool && w.pool[id].level == h'.level == i && h'.free != AllFree()
    ensures Shaped(c, w')
  {
    var h := w.pool[id];
    RefileOk(w.bins[i], i, w.pool, id, h');
    OthersFiled(w.bins, i, w.pool, w.pool[id := h']);
    w.(bins := w.bins[i := Refile(w.bins[i], id, LongestRun(h.free), LongestRun(h'.free))], pool := w.pool[id := h'])
  }
}
