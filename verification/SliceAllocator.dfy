/** The slice allocator: block sizes of its levels, and the operations that move heaps between buckets. */
module SliceAllocator {
  import opened Words
  import opened Options
  import opened Legion
  import opened Arena
  import opened Slices
  import opened Hierarchy
  import opened HierarchyProofs

  const SLICE_ALLOCATOR_COUNT: nat := 5

  lemma {:induction false} Pow2Add(a: nat, b: nat)
    ensures Pow2(a + b) == Pow2(a) * Pow2(b)
  {
    if a > 0 {
      Pow2Add(a - 1, b);
      assert Pow2(a + b) == 2 * Pow2(a - 1 + b);
    }
  }

  /** A level's blocks are at least as large as those below, and a heap of the level below fits one heap of this one. */
  lemma Stack(sub: nat, s: nat, s': nat)
    requires s <= s' <= s + 5
    ensures sub * Pow2(s) <= sub * Pow2(s') <= 32 * (sub * Pow2(s))
  {
    hide Pow2;
    var d := s' - s;
    Pow2Add(s, d);
    SmallPower(d);
    Between(sub * Pow2(s), Pow2(d));
    Assoc(sub, Pow2(s), Pow2(d));
  }

  lemma SmallPower(d: nat)
    requires d <= 5
    ensures 1 <= Pow2(d) <= 32
  {
    assert Pow2(5) == 32;
    PowMonotone(d, 5);
  }

  lemma Between(x: nat, d: nat)
    requires 1 <= d <= 32
    ensures x <= x * d <= 32 * x
  {
    MulOrder(x, 1, d);
    MulOrder(x, d, 32);
  }

  lemma Assoc(a: nat, b: nat, c: nat)
    ensures a * (b * c) == (a * b) * c
  {
  }

  lemma {:induction false} PowMonotone(a: nat, b: nat)
    requires a <= b
    ensures Pow2(a) <= Pow2(b)
    decreases b
  {
    if a < b {
      PowMonotone(a, b - 1);
    }
  }

  /** The shift of level i - 1, given that of level i: level i keeps its share of the places. */
  function Spread(s: nat, i: nat): nat
    requires i >= 1
  {
    ShareAtMost(s, i);
    s - s / i
  }

  lemma ShareAtMost(s: nat, i: nat)
    requires i >= 1
    ensures s / i <= s
  {
    var q, r := s / i, s % i;
    assert s == i * q + r;
    MulOrder(q, 1, i);
    assert q * i == i * q;
  }

  /** At most five places per level are left for the levels below. */
  lemma SpreadStep(s: nat, i: nat)
    requires i >= 1 && s <= 5 * i
    ensures Spread(s, i) <= s <= Spread(s, i) + 5 && Spread(s, i) <= 5 * (i - 1)
  {
    var q, r := s / i, s % i;
    assert s == i * q + r;
    MulOrder(i, 6, q);
    MulOrder(i - 1, q, 4);
    assert i * q - q == (i - 1) * q;
  }

  /** s places are e or e + 1 for each of i levels. */
  predicate Share(s: nat, i: nat, e: nat) { i * e <= s <= i * (e + 1) }

  /** Spreading leaves such a share to the levels below. */
  lemma SpreadEvenly(s: nat, i: nat, e: nat)
    requires i >= 1 && Share(s, i, e)
    ensures e <= s - Spread(s, i) <= e + 1 && Share(Spread(s, i), i - 1, e)
  {
    var q, r := s / i, s % i;
    assert s == i * q + r;
    MulOrder(i, e + 2, q);
    MulOrder(i, q + 1, e);
    OneLess(i, q);
    OneLess(i, e);
    OneLess(i, e + 1);
    OneMore(i, q);
    OneMore(i, e);
    OneMore(i, e + 1);
  }

  lemma OneLess(i: nat, q: nat)
    requires i >= 1
    ensures (i - 1) * q == i * q - q
  {
  }

  lemma OneMore(i: nat, q: nat)
    ensures i * (q + 1) == i * q + i
  {
  }

  /** How far each level's block size is shifted up: nothing for the first, everything but one heap for the last,
      and at most five places more than the level below. */
  method InitShifts(log2: nat) returns (shamt: seq<nat>)
    requires 5 <= log2 < 5 * SLICE_ALLOCATOR_COUNT
    ensures |shamt| == (log2 + 4) / 5 <= SLICE_ALLOCATOR_COUNT
    ensures shamt[0] == 0 && shamt[|shamt| - 1] == log2 - 5
    ensures forall j :: 0 <= j && j + 1 < |shamt| ==> shamt[j] <= shamt[j + 1] <= shamt[j] + 5
    ensures |shamt| > 1 ==> EvenFrom(shamt, 0, (log2 - 5) / (|shamt| - 1))
  {
    hide Spread, EvenFrom, RisingFrom, Share;
    var levels := (log2 + 4) / 5;
    shamt := seq(levels, _ => 0);
    shamt := shamt[levels - 1 := log2 - 5];
    var i := levels - 1;
    ghost var e := if i > 0 then (log2 - 5) / i else 0;
    if i > 0 {
      EvenShare(log2 - 5, i);
    } else {
      NoShare(log2 - 5, e);
    }
    FromTop(shamt, e);
    while i > 1
      invariant |shamt| == levels && 0 <= i < levels && (i >= 1 || levels == 1)
      invariant shamt[levels - 1] == log2 - 5 && shamt[i] <= 5 * i
      invariant Share(shamt[i], i, e)
      invariant EvenFrom(shamt, i, e) && RisingFrom(shamt, i)
    {
      SpreadStep(shamt[i], i);
      SpreadEvenly(shamt[i], i, e);
      FromBelow(shamt, i, e, Spread(shamt[i], i));
      shamt := shamt[i - 1 := Spread(shamt[i], i)];
      i := i - 1;
    }
    AllRising(shamt, i, e);
  }

  lemma EvenShare(s: nat, i: nat)
    requires i >= 1
    ensures Share(s, i, s / i)
  {
    var q, r := s / i, s % i;
    assert s == i * q + r;
    OneMore(i, q);
  }

  lemma NoShare(s: nat, e: nat)
    requires s == 0
    ensures Share(s, 0, e)
  {
  }

  /** From level i up, every level is e or e + 1 places above the one below it. */
  predicate EvenFrom(shamt: seq<nat>, i: nat, e: nat) {
    forall j :: i <= j && j + 1 < |shamt| ==> e <= shamt[j + 1] - shamt[j] <= e + 1
  }

  /** From level i up, every level is at most five places above the one below it; the levels below i have none. */
  predicate RisingFrom(shamt: seq<nat>, i: nat) {
    && (forall j :: i <= j && j + 1 < |shamt| ==> shamt[j] <= shamt[j + 1] <= shamt[j] + 5)
    && (forall j :: 0 <= j < i && j < |shamt| ==> shamt[j] == 0)
  }

  lemma FromTop(shamt: seq<nat>, e: nat)
    requires |shamt| > 0 && forall j :: 0 <= j < |shamt| - 1 ==> shamt[j] == 0
    ensures EvenFrom(shamt, |shamt| - 1, e) && RisingFrom(shamt, |shamt| - 1)
  {
  }

  lemma FromBelow(shamt: seq<nat>, i: nat, e: nat, v: nat)
    requires 1 <= i < |shamt| && EvenFrom(shamt, i, e) && e <= shamt[i] - v <= e + 1
    requires RisingFrom(shamt, i) && v <= shamt[i] <= v + 5
    ensures EvenFrom(shamt[i - 1 := v], i - 1, e) && RisingFrom(shamt[i - 1 := v], i - 1)
  {
  }

  /** The first level has no places of its own. */
  lemma AllRising(shamt: seq<nat>, i: nat, e: nat)
    requires i <= 1 && i < |shamt| && (i == 1 || |shamt| == 1) && EvenFrom(shamt, i, e) && RisingFrom(shamt, i)
    requires Share(shamt[i], i, e) && shamt[i] <= 5 * i
    ensures shamt[0] == 0 && EvenFrom(shamt, 0, e)
    ensures forall j :: 0 <= j && j + 1 < |shamt| ==> shamt[j] <= shamt[j + 1] <= shamt[j] + 5
  {
  }

  /** Block sizes of the levels of an arena of 2^log2 blocks: the first level has the given size, each level's
      heap fits one heap of the next level, and a heap of the last level is the whole arena. */
  method InitSizes(subBlockSize: nat, log2: nat) returns (sizes: seq<nat>)
    requires subBlockSize >= 1 && 5 <= log2 < 5 * SLICE_ALLOCATOR_COUNT
    ensures |sizes| == (log2 + 4) / 5 <= SLICE_ALLOCATOR_COUNT
    ensures sizes[0] == subBlockSize
    ensures 32 * sizes[|sizes| - 1] == subBlockSize * Pow2(log2)
    ensures forall i :: 0 <= i && i + 1 < |sizes| ==> 1 <= sizes[i] <= sizes[i + 1] <= 32 * sizes[i]
  {
    hide Pow2;
    var shamt := InitShifts(log2);
    sizes := [];
    for i := 0 to |shamt|
      invariant |sizes| == i && forall j :: 0 <= j < i ==> sizes[j] == subBlockSize * Pow2(shamt[j])
    {
      sizes := sizes + [subBlockSize * Pow2(shamt[i])];
    }
    forall j | 0 <= j && j + 1 < |sizes| ensures 1 <= sizes[j] <= sizes[j + 1] <= 32 * sizes[j] {
      Stack(subBlockSize, shamt[j], shamt[j + 1]);
      Product(subBlockSize, Pow2(shamt[j]));
    }
    WholeArena(subBlockSize, log2);
  }

  lemma Product(a: nat, b: nat)
    requires a >= 1 && b >= 1
    ensures a * b >= 1
  {
  }

  lemma WholeArena(sub: nat, log2: nat)
    requires log2 >= 5
    ensures 32 * (sub * Pow2(log2 - 5)) == sub * Pow2(log2)
    ensures Pow2(0) == 1
  {
    Pow2Add(log2 - 5, 5);
    assert Pow2(5) == 32;
    assert sub * (Pow2(log2 - 5) * 32) == 32 * (sub * Pow2(log2 - 5));
  }

  lemma SizesOrdered(sizes: seq<nat>, i: nat, j: nat)
    requires forall k :: 0 <= k && k + 1 < |sizes| ==> sizes[k] <= sizes[k + 1]
    requires i <= j < |sizes|
    ensures sizes[i] <= sizes[j]
    decreases j
  {
    if i < j {
      SizesOrdered(sizes, i, j - 1);
      assert sizes[j - 1] <= sizes[j - 1 + 1];
    }
  }

  /** A heap of an arena: its level, the slice it divides, and the buddy allocator that divides it. */
  datatype Node = Node(level: nat, allocation: Slice, heap: LegionAllocator)

  /** No two heaps share a buddy allocator. */
  ghost predicate OwnHeaps(nodes: map<Id, Node>) {
    forall id, id' :: id in nodes && id' in nodes && id != id' ==>
      nodes[id].heap != nodes[id'].heap && nodes[id].heap.freeBlocks != nodes[id'].heap.freeBlocks
  }

  lemma OwnHeapsInsert(nodes: map<Id, Node>, id: Id, node: Node)
    requires OwnHeaps(nodes)
    requires forall x :: x in nodes ==> nodes[x].heap != node.heap && nodes[x].heap.freeBlocks != node.heap.freeBlocks
    ensures OwnHeaps(nodes[id := node])
  {
  }

  ghost predicate Lives(n: Node, h: Heap)
    reads n.heap, n.heap.freeBlocks
  {
    n.heap.Valid() && h == Heap(n.level, n.allocation, n.heap.Free())
  }

  lemma LivesIs(n: Node, h: Heap)
    ensures Lives(n, h) <==> n.heap.Valid() && h == Heap(n.level, n.allocation, n.heap.Free())
  {
  }

  class SliceAllocator {
    const config: Config
    const arenas: array<Bins>
    var nodes: map<Id, Node>
    var buffers: set<nat>
    var nextId: Id
    ghost var pool: map<Id, Heap>
    ghost var heaps: set<object>

    ghost function W(): World
      reads this, arenas
    {
      World(arenas[..], pool, buffers, nextId)
    }

    /** Every heap has a buddy allocator of its own, in a valid state, with its free blocks. */
    ghost predicate Stands()
      reads this`nodes, this`pool, this`heaps, heaps
    {
      && this !in heaps && arenas !in heaps && nodes.Keys == pool.Keys
      && (forall id :: id in nodes ==>
            nodes[id].heap in heaps && nodes[id].heap.freeBlocks in heaps && Lives(nodes[id], pool[id]))
      && OwnHeaps(nodes)
    }

    lemma Separate()
      requires Stands()
      ensures this !in heaps && arenas !in heaps
    {
    }

    lemma NodeOf(id: Id)
      requires Stands() && id in pool
      ensures id in nodes && nodes[id].level == pool[id].level && nodes[id].allocation == pool[id].allocation
      ensures nodes[id].heap in heaps && nodes[id].heap.freeBlocks in heaps
      ensures nodes[id].heap.Valid() && nodes[id].heap.Free() == pool[id].free
    {
    }

    constructor (subBlockSize: nat, log2: nat)
      requires subBlockSize >= 1 && 5 <= log2 < 5 * SLICE_ALLOCATOR_COUNT
      ensures ConfigOk(config) && Stands() && W() == Empty(config) && fresh(arenas) && heaps == {}
      ensures config.sizes[0] == subBlockSize
      ensures 32 * config.sizes[|config.sizes| - 1] == subBlockSize * Pow2(log2)
    {
      var sizes := InitSizes(subBlockSize, log2);
      forall i, j | 0 <= i <= j < |sizes| ensures 1 <= sizes[i] <= sizes[j] {
        SizesOrdered(sizes, i, j);
        SizesOrdered(sizes, 0, i);
      }
      config := Config(sizes);
      arenas := new Bins[|sizes|](_ => NoBins());
      nodes, pool, heaps, buffers, nextId := map[], map[], {}, {}, 0;
      new;
      assert arenas[..] == Empty(config).bins;
    }

    method Suballocate(id: Id, size: nat, numBlocks: nat) returns (slice: Slice)
      requires Stands() && id in pool && numBlocks >= 1 && FirstFit(pool[id].free, numBlocks) < 32
      modifies this`pool, heaps
      ensures Stands() && arenas[..] == old(arenas[..])
      ensures var h, b := old(pool[id]), FirstFit(old(pool[id].free), numBlocks);
        pool == old(pool)[id := Taking(h, b, numBlocks)] && slice == Carved(h, id, size, b, numBlocks)
    {
      hide Stands, FirstFit, And, Not, Span;
      NodeOf(id);
      var a := nodes[id].allocation;
      var mask, offset := TakeBlocks(id, numBlocks);
      slice := Slice(a.buffer, a.offset + offset * size, numBlocks * size, mask, In(id));
    }

    /** Takes blocks from heap id, through its buddy allocator. */
    method TakeBlocks(id: Id, numBlocks: nat) returns (mask: Mask, offset: nat)
      requires Stands() && id in pool && numBlocks >= 1 && FirstFit(pool[id].free, numBlocks) < 32
      modifies this`pool, heaps
      ensures Stands() && arenas[..] == old(arenas[..])
      ensures offset == FirstFit(old(pool[id].free), numBlocks) && mask == Span(offset, numBlocks)
      ensures pool == old(pool)[id := Taking(old(pool[id]), offset, numBlocks)]
    {
      hide LongestRun, And, Not, Span, FirstFit, Lives, LegionAllocator.Valid, LegionAllocator.Free;
      NodeOf(id);
      var node := nodes[id];
      FitsIff(pool[id].free, numBlocks);
      node.heap.LongestIsValid();
      mask, offset := node.heap.Allocate(numBlocks);
      ghost var h := pool[id];
      pool := pool[id := h.(free := And(h.free, Not(mask)))];
      LivesIs(node, pool[id]);
    }

    /** A wholly free heap for slice a. */
    method NewNode(i: nat, a: Slice) returns (id: Id)
      requires Stands() && nextId !in pool
      modifies this`nodes, this`pool, this`heaps, this`nextId
      ensures Stands() && fresh(heaps - old(heaps)) && id == old(nextId) && nextId == id + 1
      ensures pool == old(pool)[id := Heap(i, a, AllFree())]
    {
      hide LongestRun, AllFree, Lives, LegionAllocator.Valid;
      id := nextId;
      nextId := nextId + 1;
      var heap := new LegionAllocator();
      LivesIs(Node(i, a, heap), Heap(i, a, AllFree()));
      InsertNode(id, Node(i, a, heap), Heap(i, a, AllFree()));
    }

    method InsertNode(id: Id, node: Node, ghost h: Heap)
      requires Stands() && id !in pool && Lives(node, h) && node.heap !in heaps && node.heap.freeBlocks !in heaps
      requires arenas !in {node.heap as object, node.heap.freeBlocks}
      modifies this`nodes, this`pool, this`heaps
      ensures Stands() && heaps == old(heaps) + {node.heap, node.heap.freeBlocks} && pool == old(pool)[id := h]
    {
      hide Lives, OwnHeaps;
      OwnHeapsInsert(nodes, id, node);
      nodes, pool := nodes[id := node], pool[id := h];
      heaps := heaps + {node.heap, node.heap.freeBlocks};
    }

    /** Gives blocks back to heap id, through its buddy allocator: what it was and is now. */
    method GiveBack(id: Id, mask: Mask) returns (wasFull: bool, index: int, newIndex: int, empty: bool)
      requires Stands() && id in pool && And(pool[id].free, mask) == NoneFree()
      modifies this`pool, heaps
      ensures Stands() && arenas[..] == old(arenas[..])
      ensures pool == old(pool)[id := Returning(old(pool[id]), mask)]
      ensures index + 1 == LongestRun(old(pool[id].free)) && newIndex + 1 == LongestRun(pool[id].free)
      ensures (wasFull <==> index == -1) && (empty <==> pool[id].free == AllFree())
    {
      hide Stands, LongestRun, And, Or, AllFree, NoneFree, LegionAllocator.Valid, Returning;
      Separate();
      NodeOf(id);
      var block := nodes[id].heap;
      block.LongestIsValid();
      FullIff(pool[id].free);
      wasFull, index := block.Full(), block.longestRun - 1;
      ReleaseBlocks(id, mask);
      NodeOf(id);
      block.LongestIsValid();
      newIndex, empty := block.longestRun - 1, block.Empty();
    }

    method ReleaseBlocks(id: Id, mask: Mask)
      requires Stands() && id in pool && And(pool[id].free, mask) == NoneFree()
      modifies this`pool, heaps
      ensures Stands() && arenas[..] == old(arenas[..]) && pool == old(pool)[id := Returning(old(pool[id]), mask)]
    {
      hide LongestRun, And, Or, Lives, LegionAllocator.Valid, LegionAllocator.Free;
      NodeOf(id);
      ghost var h := pool[id];
      nodes[id].heap.Release(mask);
      pool := pool[id := h.(free := Or(h.free, mask))];
      LivesIs(nodes[id], pool[id]);
    }

    method DropNode(id: Id)
      requires Stands()
      modifies this`nodes, this`pool
      ensures Stands() && heaps == old(heaps) && pool == old(pool) - {id}
    {
      hide Lives;
      nodes, pool := nodes - {id}, pool - {id};
    }

    /** After its first heap lost blocks, bucket index passes it on. */
    method RefileFirst(i: nat, index: nat)
      requires Stands() && i < arenas.Length && |arenas[i].heaps| == 32 && index < 32
      requires arenas[i].heaps[index] != [] && arenas[i].heaps[index][0] in pool
      modifies arenas
      ensures Stands()
      ensures var id := old(arenas[i].heaps[index][0]);
        arenas[..] == old(arenas[..])[i := Refile(old(arenas[i]), id, index + 1, LongestRun(pool[id].free))]
    {
      hide Stands, LongestRun, LegionAllocator.Valid, NoneFree;
      Separate();
      var b := arenas[i];
      var id, rest := b.heaps[index][0], b.heaps[index][1..];
      assert Remove(b.heaps[index], id) == rest;
      NodeOf(id);
      var heap := nodes[id].heap;
      heap.LongestIsValid();
      FullIff(heap.Free());
      var newIndex := heap.longestRun - 1;
      if heap.Full() {
        arenas[i] := Bins(b.heaps[index := rest], [id] + b.full,
                          if rest == [] then b.availability[index := false] else b.availability);
      } else if newIndex != index {
        var availability := b.availability[newIndex := true];
        if rest == [] {
          availability := availability[index := false];
        }
        arenas[i] := Bins(b.heaps[index := rest][newIndex := [id] + b.heaps[newIndex]], b.full, availability);
        assert availability == Refile(b, id, index + 1, newIndex + 1).availability;
      }
    }

    /** A heap joins the bucket of its longest run. */
    method InsertHeap(i: nat, id: Id)
      requires Stands() && i < arenas.Length && |arenas[i].heaps| == 32 && id in pool
      modifies arenas
      ensures Stands() && arenas[..] == old(arenas[..])[i := File(old(arenas[i]), id, LongestRun(pool[id].free))]
    {
      hide Stands, LongestRun, LegionAllocator.Valid, NoneFree;
      Separate();
      NodeOf(id);
      var b, heap := arenas[i], nodes[id].heap;
      heap.LongestIsValid();
      FullIff(heap.Free());
      if heap.Full() {
        arenas[i] := b.(full := [id] + b.full);
      } else {
        var index := heap.longestRun - 1;
        arenas[i] := b.(heaps := b.heaps[index := [id] + b.heaps[index]],
                        availability := b.availability[index := true]);
      }
    }

    method AllocateBackingHeap(i: nat, grant: Option<nat>) returns (r: Option<Slice>)
      requires Stands() && Shaped(config, W()) && i < |config.sizes|
      modifies this, arenas, heaps
      ensures Stands() && fresh(heaps - old(heaps)) && (W(), r) == Backing(config, old(W()), i, grant)
      decreases |config.sizes| - i, 0
    {
      hide Stands, Alloc, Filed;
      Separate();
      var count := 32 * config.sizes[i];
      if i + 1 < |config.sizes| {
        r := AllocateAt(i + 1, count, grant);
      } else {
        var x := Granted(buffers, grant);
        if x.None? {
          return None;
        }
        buffers := buffers + {x.value};
        r := Some(Slice(x.value, 0, count, NoneFree(), Root));
      }
    }

    method AllocateAt(i: nat, count: nat, grant: Option<nat>) returns (r: Option<Slice>)
      requires Stands() && Shaped(config, W()) && i < |config.sizes| && 1 <= count <= 32 * config.sizes[i]
      modifies this, arenas, heaps
      ensures Stands() && fresh(heaps - old(heaps)) && (W(), r) == Alloc(config, old(W()), i, count, grant)
      decreases |config.sizes| - i
    {
      hide Stands, Shaped, FirstFit, LongestRun, Taking, Refile, File, Filed, Backing, AllFree;
      Separate();
      ghost var w := W();
      SizesOk(config, w);
      BinsFiled(config, w, i);
      var size := config.sizes[i];
      var numBlocks := (count + size - 1) / size;
      BlocksOk(count, size);
      PickOk(arenas[i], i, pool, numBlocks);
      var index := LowestFrom(arenas[i].availability, numBlocks - 1);
      if index < 32 {
        var id := arenas[i].heaps[index][0];
        var slice := Suballocate(id, size, numBlocks);
        RefileFirst(i, index);
        return Some(slice);
      }
      r := AllocateBackingHeap(i, grant);
      if r.Some? {
        BinsFiled(config, W(), i);
        NamesBelow(config, W());
        var slice := PlaceHeap(i, r.value, size, numBlocks);
        r := Some(slice);
      }
    }

    /** A new heap on slice a, its first blocks taken, joins its bucket. */
    method PlaceHeap(i: nat, a: Slice, size: nat, numBlocks: nat) returns (slice: Slice)
      requires Stands() && i < arenas.Length && |arenas[i].heaps| == 32 && nextId !in pool && 1 <= numBlocks <= 32
      modifies this, arenas, heaps
      ensures Stands() && fresh(heaps - old(heaps)) && buffers == old(buffers)
      ensures var id, h := old(nextId), Taking(Heap(i, a, AllFree()), 0, numBlocks);
        && nextId == id + 1 && pool == old(pool)[id := h]
        && slice == Carved(Heap(i, a, AllFree()), id, size, 0, numBlocks)
        && arenas[..] == old(arenas[..])[i := File(old(arenas[i]), id, LongestRun(h.free))]
    {
      hide Stands, FirstFit, LongestRun, Taking, File, AllFree, RunFrom;
      Separate();
      FreshOk(i, a, numBlocks);
      ghost var pool1 := pool;
      var id := NewNode(i, a);
      slice := Suballocate(id, size, numBlocks);
      assert pool == pool1[id := Taking(Heap(i, a, AllFree()), 0, numBlocks)];
      InsertHeap(i, id);
    }

    /** Heap id leaves the list it was in when it was full or not, and its longest run was index + 1. */
    method EraseHeap(i: nat, id: Id, wasFull: bool, index: int)
      requires Stands() && i < arenas.Length && |arenas[i].heaps| == 32
      requires -1 <= index < 32 && (wasFull <==> index == -1)
      modifies arenas
      ensures Stands() && arenas[..] == old(arenas[..])[i := Unfile(old(arenas[i]), id, index + 1)]
    {
      hide Stands;
      Separate();
      var b := arenas[i];
      if wasFull {
        arenas[i] := b.(full := Remove(b.full, id));
      } else {
        var rest := Remove(b.heaps[index], id);
        arenas[i] := b.(heaps := b.heaps[index := rest],
                        availability := if rest == [] then b.availability[index := false] else b.availability);
      }
    }

    /** The order in which a heap leaves its bucket and gives its slice back does not matter:
        they are of different levels. */
    method FreeAt(i: nat, id: Id, mask: Mask)
      requires Stands() && Shaped(config, W()) && Taken(pool, |config.sizes|, i, id, mask)
      modifies this, arenas, heaps
      ensures Stands() && heaps == old(heaps)
      ensures Chain(old(pool), |config.sizes|, i, id) && W() == Free(config, old(W()), i, id, mask)
      decreases |config.sizes| - i
    {
      hide Stands, Shaped, FirstFit, LongestRun, Unfile, File, Filed, AllFree, Or, And, NoneFree;
      Separate();
      NodeOf(id);
      ghost var w := W();
      BinsFiled(config, w, i);
      SizesOk(config, w);
      TakenChain(pool, |config.sizes|, i, id, mask);
      var a := nodes[id].allocation;
      var wasFull, index, newIndex, empty := GiveBack(id, mask);
      if empty {
        Dropped(config, w, i, id, w.pool[id]);
        EraseHeap(i, id, wasFull, index);
        DropNode(id);
        assert pool == w.pool - {id};
        if i + 1 < |config.sizes| {
          TakenKept(w.pool, pool, |config.sizes|, i + 1, a.home.heap, a.mask);
          FreeAt(i + 1, a.home.heap, a.mask);
        } else {
          buffers := buffers - {a.buffer};
        }
      } else if index != newIndex {
        EraseHeap(i, id, wasFull, index);
        UnfileLength(w.bins[i], id, index + 1);
        InsertHeap(i, id);
        assert arenas[..] == w.bins[i := File(Unfile(w.bins[i], id, index + 1), id, newIndex + 1)];
      } else {
        assert arenas[..] == w.bins[i := w.bins[i]];
      }
    }

    /** The first level whose heaps are large enough serves the request. */
    method Allocate(count: nat, grant: Option<nat>) returns (r: Option<Slice>)
      requires Stands() && Shaped(config, W()) && count >= 1
      modifies this, arenas, heaps
      ensures Stands() && fresh(heaps - old(heaps))
      ensures var i := LevelFor(config.sizes, count);
        if i < |config.sizes| then (W(), r) == Alloc(config, old(W()), i, count, grant)
        else W() == old(W()) && r.None?
    {
      hide Stands, Alloc, Shaped;
      for i := 0 to |config.sizes|
        invariant Stands() && W() == old(W()) && heaps == old(heaps)
        invariant LevelFor(config.sizes, count) == LevelFrom(config.sizes, count, i)
      {
        if count <= 32 * config.sizes[i] {
          r := AllocateAt(i, count, grant);
          return;
        }
      }
      r := None;
    }

    method Release(slice: Slice)
      requires Stands() && Shaped(config, W()) && slice.home.In? && slice.home.heap in pool
      requires Taken(pool, |config.sizes|, pool[slice.home.heap].level, slice.home.heap, slice.mask)
      modifies this, arenas, heaps
      ensures Stands() && heaps == old(heaps)
      ensures Chain(old(pool), |config.sizes|, old(pool[slice.home.heap].level), slice.home.heap)
      ensures W() == Free(config, old(W()), old(pool[slice.home.heap].level), slice.home.heap, slice.mask)
    {
      hide Stands, Filed, Taken, Free, Shaped;
      NodeOf(slice.home.heap);
      FreeAt(nodes[slice.home.heap].level, slice.home.heap, slice.mask);
    }
  }

  lemma NamesBelow(c: Config, w: World)
    requires Shaped(c, w)
    ensures w.nextId !in w.pool
  {
  }

  /** Serves requests with one allocator, whatever the backing allocator answers. What is held at the end never
      overlaps and lies inside the arenas. */
  method ServeAll(subBlockSize: nat, log2: nat, rs: seq<Request>) returns (held: map<nat, Slice>)
    requires subBlockSize >= 1 && 5 <= log2 < 5 * SLICE_ALLOCATOR_COUNT
    requires RequestsOk(rs)
    ensures exists c :: ConfigOk(c) && held == After(c, rs).users
    ensures forall t, t' :: t in held && t' in held && t != t' ==> !Overlap(held[t], held[t'])
    ensures forall t :: t in held ==> held[t].offset + held[t].count <= subBlockSize * Pow2(log2)
  {
    hide SliceAllocator.Stands, Alloc, Free, Shaped, Inv, Owned, LevelFor, Empty, Pow2, Taken;
    var a := new SliceAllocator(subBlockSize, log2);
    var c, next := a.config, 0;
    held := map[];
    for k := 0 to |rs|
      invariant fresh(a) && fresh(a.arenas) && fresh(a.heaps) && a.config == c && a.Stands()
      invariant RequestsOk(rs[..k]) && After(c, rs[..k]) == State(a.W(), held, next)
    {
      assert rs[..k + 1][..k] == rs[..k];
      StateShaped(c, After(c, rs[..k]));
      match rs[k]
      case Allocate(count, grant) =>
        var slice := a.Allocate(count, grant);
        if slice.Some? {
          held := held[next := slice.value];
        }
        next := next + 1;
      case Release(t) =>
        if t in held {
          HeldTaken(c, a.W(), held, t);
          a.Release(held[t]);
          held := held - {t};
        }
    }
    assert rs[..|rs|] == rs;
    EveryRun(c, rs);
  }

  lemma HeldTaken(c: Config, w: World, users: map<nat, Slice>, t: nat)
    requires Inv(c, w, users) && t in users && users[t].home.In?
    ensures var id := users[t].home.heap;
      id in w.pool && Taken(w.pool, |c.sizes|, w.pool[id].level, id, users[t].mask)
  {
    hide Inv;
    OwnerTaken(c, w, users, User(t));
  }

  lemma StateShaped(c: Config, s: State)
    requires StateOk(c, s)
    ensures Shaped(c, s.w) && Inv(c, s.w, s.users) && forall t :: t in s.users ==> s.users[t].home.In?
  {
  }

  lemma UnfileLength(b: Bins, id: Id, r: nat)
    requires |b.heaps| == 32 && r <= 32
    ensures |Unfile(b, id, r).heaps| == 32
  {
  }
}
