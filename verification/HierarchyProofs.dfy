/** What every run of allocations and frees keeps: buckets in order, slices apart and in place, nothing lost. */
module HierarchyProofs {
  import opened Options
  import opened Legion
  import opened Arena
  import opened Slices
  import opened Hierarchy

  ghost predicate Inv(c: Config, w: World, users: map<nat, Slice>) {
    Shaped(c, w) && Owned(c.sizes, w.pool, w.buffers, users)
  }

  lemma TakeOk(c: Config, w: World, users: map<nat, Slice>, t: nat, i: nat, id: Id, n: nat)
    requires Inv(c, w, users) && t !in users && i < |c.sizes| && id in w.pool && w.pool[id].level == i
    requires 1 <= n <= 32 && FirstFit(w.pool[id].free, n) < 32
    ensures Inv(c, TakeFrom(c, w, i, id, n),
                users[t := Carved(w.pool[id], id, c.sizes[i], FirstFit(w.pool[id].free, n), n)])
  {
    hide Owned, Refile, LongestRun;
    CarveOk(c.sizes, w.pool, w.buffers, users, t, id, FirstFit(w.pool[id].free, n), n);
  }

  lemma NewHeapOk(c: Config, w: World, users: map<nat, Slice>, t: nat, i: nat, n: nat)
    requires Inv(c, w, users) && t in users && i < |c.sizes| && 1 <= n <= 32
    requires BackingOk(c.sizes, w.pool, Heap(i, users[t], AllFree()))
    ensures Inv(c, NewHeap(c, w, i, users[t], n),
                users[t := Carved(Heap(i, users[t], AllFree()), w.nextId, c.sizes[i], 0, n)])
  {
    hide Owned, File, LongestRun, Taking, FirstFit, BackingOk;
    var id, h := w.nextId, Heap(i, users[t], AllFree());
    FreshOk(i, users[t], n);
    AddHeapOk(c.sizes, w.pool, w.buffers, users, t, id, h);
    var s := Carved(h, id, c.sizes[i], 0, n);
    CarveOk(c.sizes, w.pool[id := h], w.buffers, users - {t}, t, id, 0, n);
    assert w.pool[id := h][id := Taking(h, 0, n)] == w.pool[id := Taking(h, 0, n)];
    assert (users - {t})[t := s] == users[t := s];
  }

  /** Ticket t receives the slice a successful allocation returns. */
  lemma {:induction false} AllocOk(c: Config, w: World, users: map<nat, Slice>, i: nat, count: nat, grant: Option<nat>,
                                  t: nat)
    requires Inv(c, w, users) && t !in users && i < |c.sizes| && 1 <= count <= 32 * c.sizes[i]
    ensures var (w', r) := Alloc(c, w, i, count, grant);
      match r
      case None => w' == w
      case Some(s) =>
        && Inv(c, w', users[t := s])
        && s.home.In? && s.home.heap in w'.pool && w'.pool[s.home.heap].level == i
        && count <= s.count < count + c.sizes[i]
    decreases |c.sizes| - i
  {
    hide Owned, Shaped, TakeFrom, NewHeap, BackingOk, FirstFit, Backing;
    var size := c.sizes[i];
    SizesOk(c, w);
    var n := Blocks(count, size);
    BlocksOk(count, size);
    var k := Pick(w.bins[i], n);
    BinsFiled(c, w, i);
    PickOk(w.bins[i], i, w.pool, n);
    if k < 32 {
      var id := w.bins[i].heaps[k][0];
      TakeOk(c, w, users, t, i, id, n);
      TakePool(c, w, i, id, n);
    } else {
      BackingHeld(c, w, users, i, grant, t);
      var (w1, backing) := Backing(c, w, i, grant);
      if backing.Some? {
        NewHeapOk(c, w1, users[t := backing.value], t, i, n);
        NewPool(c, w1, i, backing.value, n);
        var s := Carved(Heap(i, backing.value, AllFree()), w1.nextId, size, 0, n);
        assert users[t := backing.value][t := s] == users[t := s];
      }
    }
  }

  lemma SizesOk(c: Config, w: World)
    requires Shaped(c, w)
    ensures forall i :: 0 <= i < |c.sizes| ==> c.sizes[i] >= 1
    ensures forall i, j :: 0 <= i <= j < |c.sizes| ==> c.sizes[i] <= c.sizes[j]
    ensures |w.bins| == |c.sizes|
  {
  }

  lemma BinsFiled(c: Config, w: World, i: nat)
    requires Shaped(c, w) && i < |c.sizes|
    ensures Filed(w.bins[i], i, w.pool) && |w.bins[i].heaps| == 32
  {
  }

  lemma TakePool(c: Config, w: World, i: nat, id: Id, n: nat)
    requires Shaped(c, w) && i < |c.sizes| && id in w.pool && w.pool[id].level == i
    requires 1 <= n <= 32 && FirstFit(w.pool[id].free, n) < 32
    ensures id in TakeFrom(c, w, i, id, n).pool && TakeFrom(c, w, i, id, n).pool[id].level == i
  {
  }

  lemma NewPool(c: Config, w: World, i: nat, a: Slice, n: nat)
    requires Shaped(c, w) && i < |c.sizes| && 1 <= n <= 32
    ensures w.nextId in NewHeap(c, w, i, a, n).pool && NewHeap(c, w, i, a, n).pool[w.nextId].level == i
  {
  }

  lemma {:induction false} BackingHeld(c: Config, w: World, users: map<nat, Slice>, i: nat, grant: Option<nat>,
                                      t: nat)
    requires Inv(c, w, users) && t !in users && i < |c.sizes|
    ensures var (w', r) := Backing(c, w, i, grant);
      match r
      case None => w' == w
      case Some(a) => Inv(c, w', users[t := a]) && BackingOk(c.sizes, w'.pool, Heap(i, a, AllFree()))
    decreases |c.sizes| - i, 0
  {
    hide Owned, Alloc;
    if i + 1 < |c.sizes| {
      AllocOk(c, w, users, i + 1, 32 * c.sizes[i], grant, t);
    } else if Granted(w.buffers, grant).Some? {
      var x := grant.value;
      AddBufferOk(c.sizes, w.pool, w.buffers, users, t, Slice(x, 0, 32 * c.sizes[i], NoneFree(), Root));
    }
  }

  /** Room for n blocks in some heap of level i. */
  ghost predicate Room(w: World, i: nat, n: nat) {
    exists id :: id in w.pool && w.pool[id].level == i && FirstFit(w.pool[id].free, n) < 32
  }

  /** No heap from level i up has room for what would be asked of it, and the backing allocator grants no buffer. */
  ghost predicate Exhausted(c: Config, w: World, i: nat, count: nat, grant: Option<nat>)
    requires ConfigOk(c) && i < |c.sizes|
    decreases |c.sizes| - i
  {
    && !Room(w, i, Blocks(count, c.sizes[i]))
    && (if i + 1 < |c.sizes| then Exhausted(c, w, i + 1, 32 * c.sizes[i], grant)
        else Granted(w.buffers, grant).None?)
  }

  lemma {:induction false} AllocFailsIff(c: Config, w: World, i: nat, count: nat, grant: Option<nat>)
    requires Shaped(c, w) && i < |c.sizes| && 1 <= count <= 32 * c.sizes[i]
    ensures Alloc(c, w, i, count, grant).1.None? <==> Exhausted(c, w, i, count, grant)
    decreases |c.sizes| - i
  {
    hide FirstFit, Filed, TakeFrom, NewHeap;
    BlocksOk(count, c.sizes[i]);
    PickOk(w.bins[i], i, w.pool, Blocks(count, c.sizes[i]));
    if i + 1 < |c.sizes| {
      AllocFailsIff(c, w, i + 1, 32 * c.sizes[i], grant);
    }
  }

  lemma {:induction false} ChainOf(sizes: seq<nat>, pool: map<Id, Heap>, i: nat, id: Id)
    requires forall x :: x in pool ==> BackingOk(sizes, pool, pool[x])
    requires id in pool && pool[id].level == i
    ensures Chain(pool, |sizes|, i, id)
    decreases |sizes| - i
  {
    assert BackingOk(sizes, pool, pool[id]);
    if i + 1 < |sizes| {
      ChainOf(sizes, pool, i + 1, pool[id].allocation.home.heap);
    }
  }

  lemma HeldChain(c: Config, w: World, users: map<nat, Slice>, t: nat)
    requires Inv(c, w, users) && t in users && users[t].home.In?
    ensures var id := users[t].home.heap;
      id in w.pool && w.pool[id].level < |c.sizes| && Chain(w.pool, |c.sizes|, w.pool[id].level, id)
  {
    assert Holds(w.pool, users, User(t)) && SliceOf(w.pool, users, User(t)) == users[t];
    var id := users[t].home.heap;
    assert SliceOk(c.sizes, w.pool, w.buffers, users[t]);
    ChainOf(c.sizes, w.pool, w.pool[id].level, id);
  }

  /** The blocks in mask are taken in heap id of level i, its own slice's blocks are taken one level up, and so on. */
  predicate Taken(pool: map<Id, Heap>, levels: nat, i: nat, id: Id, mask: Mask)
    decreases levels - i
  {
    && i < levels && id in pool && pool[id].level == i && And(pool[id].free, mask) == NoneFree()
    && (i + 1 < levels ==>
          pool[id].allocation.home.In? &&
          Taken(pool, levels, i + 1, pool[id].allocation.home.heap, pool[id].allocation.mask))
  }

  lemma {:induction false} TakenKept(pool: map<Id, Heap>, pool': map<Id, Heap>, levels: nat, i: nat, id: Id, mask: Mask)
    requires Taken(pool, levels, i, id, mask)
    requires forall x :: x in pool && pool[x].level >= i ==> x in pool' && pool'[x] == pool[x]
    ensures Taken(pool', levels, i, id, mask)
    decreases levels - i
  {
    if i + 1 < levels {
      TakenKept(pool, pool', levels, i + 1, pool[id].allocation.home.heap, pool[id].allocation.mask);
    }
  }

  lemma {:induction false} TakenChain(pool: map<Id, Heap>, levels: nat, i: nat, id: Id, mask: Mask)
    requires Taken(pool, levels, i, id, mask)
    ensures Chain(pool, levels, i, id)
    decreases levels - i
  {
    if i + 1 < levels {
      TakenChain(pool, levels, i + 1, pool[id].allocation.home.heap, pool[id].allocation.mask);
    }
  }

  lemma {:induction false} OwnerTaken(c: Config, w: World, users: map<nat, Slice>, o: Owner)
    requires Inv(c, w, users) && Holds(w.pool, users, o) && SliceOf(w.pool, users, o).home.In?
    ensures var s := SliceOf(w.pool, users, o);
      s.home.heap in w.pool && Taken(w.pool, |c.sizes|, w.pool[s.home.heap].level, s.home.heap, s.mask)
    decreases |c.sizes| - LevelOf(c.sizes, w.pool, SliceOf(w.pool, users, o))
  {
    hide Shaped, Apart;
    var s := SliceOf(w.pool, users, o);
    assert SliceOk(c.sizes, w.pool, w.buffers, s);
    var h := w.pool[s.home.heap];
    var b: nat, n: nat :| Sits(s, h, c.sizes[h.level], b, n);
    assert And(h.free, s.mask) == NoneFree();
    assert BackingOk(c.sizes, w.pool, h);
    if h.level + 1 < |c.sizes| {
      OwnerTaken(c, w, users, HeapOf(s.home.heap));
    }
  }

  lemma {:induction false} FreeOk(c: Config, w: World, users: map<nat, Slice>, i: nat, t: nat)
    requires Inv(c, w, users) && t in users && users[t].home.In?
    requires Chain(w.pool, |c.sizes|, i, users[t].home.heap)
    ensures Inv(c, Free(c, w, i, users[t].home.heap, users[t].mask), users - {t})
    decreases |c.sizes| - i
  {
    hide Owned, Unfile, Refile, Filed, LongestRun, Returning;
    var id, mask := users[t].home.heap, users[t].mask;
    var h := w.pool[id];
    var h' := Returning(h, mask);
    ReturnOk(c.sizes, w.pool, w.buffers, users, t, id);
    ReturningFields(h, mask);
    if h'.free == AllFree() {
      var pool' := w.pool - {id};
      var users' := (users - {t})[t := h.allocation];
      DropHeapOk(c.sizes, w.pool[id := h'], w.buffers, users - {t}, t, id);
      assert w.pool[id := h'] - {id} == pool';
      assert users' - {t} == users - {t};
      BinsFiled(c, w, i);
      Dropped(c, w, i, id, h');
      var w1 := w.(bins := w.bins[i := Unfile(w.bins[i], id, LongestRun(h.free))], pool := pool');
      if i + 1 < |c.sizes| {
        ChainKept(w.pool, pool', |c.sizes|, i + 1, h.allocation.home.heap);
        FreeOk(c, w1, users', i + 1, t);
      } else {
        TopIsRoot(c, w, users, id);
        DropBufferOk(c.sizes, pool', w.buffers, users', t);
      }
    }
  }

  lemma TopIsRoot(c: Config, w: World, users: map<nat, Slice>, id: Id)
    requires Inv(c, w, users) && id in w.pool && w.pool[id].level + 1 == |c.sizes|
    ensures w.pool[id].allocation.home.Root?
  {
    assert BackingOk(c.sizes, w.pool, w.pool[id]);
  }

  lemma ReturningFields(h: Heap, mask: Mask)
    ensures Returning(h, mask).level == h.level && Returning(h, mask).allocation == h.allocation
  {
  }

  lemma Dropped(c: Config, w: World, i: nat, id: Id, h': Heap)
    requires Shaped(c, w) && i < |c.sizes| && id in w.pool && w.pool[id].level == i && |w.bins[i].heaps| == 32
    ensures Shaped(c, w.(bins := w.bins[i := Unfile(w.bins[i], id, LongestRun(w.pool[id].free))],
                         pool := w.pool - {id}))
  {
    hide Unfile, LongestRun;
    BinsFiled(c, w, i);
    UnfileOk(w.bins[i], i, w.pool, id);
    OthersFiled(w.bins, i, w.pool, w.pool - {id});
  }

  // ---- runs -----------------------------------------------------------------------------------

  /** An allocation comes with the backing allocator's answer, should it be asked. */
  datatype Request = Allocate(count: nat, grant: Option<nat>) | Release(ticket: nat)

  /** The allocator and what its users hold; every allocation draws a ticket. */
  datatype State = State(w: World, users: map<nat, Slice>, next: nat)

  /** The smallest level whose heaps can hold count elements. */
  function LevelFor(sizes: seq<nat>, count: nat): (i: nat)
    ensures i <= |sizes|
    ensures i < |sizes| ==> count <= 32 * sizes[i]
    ensures forall j :: 0 <= j < i ==> count > 32 * sizes[j]
  {
    LevelFrom(sizes, count, 0)
  }

  function LevelFrom(sizes: seq<nat>, count: nat, i: nat): (r: nat)
    requires i <= |sizes|
    ensures i <= r <= |sizes|
    ensures r < |sizes| ==> count <= 32 * sizes[r]
    ensures forall j :: i <= j < r ==> count > 32 * sizes[j]
    decreases |sizes| - i
  {
    if i == |sizes| || count <= 32 * sizes[i] then i else LevelFrom(sizes, count, i + 1)
  }

  ghost predicate StateOk(c: Config, s: State) {
    && Inv(c, s.w, s.users)
    && (forall t :: t in s.users ==> t < s.next && s.users[t].home.In?)
  }

  /** One request. Asking for nothing is not allowed; releasing a ticket that holds nothing does nothing. */
  ghost function Serve(c: Config, s: State, r: Request): (s': State)
    requires StateOk(c, s) && (r.Allocate? ==> r.count >= 1)
    ensures StateOk(c, s')
  {
    match r
    case Allocate(count, grant) =>
      var i := LevelFor(c.sizes, count);
      if i == |c.sizes| then s.(next := s.next + 1)
      else
        AllocOk(c, s.w, s.users, i, count, grant, s.next);
        var (w', slice) := Alloc(c, s.w, i, count, grant);
        State(w', if slice.Some? then s.users[s.next := slice.value] else s.users, s.next + 1)
    case Release(t) =>
      if t !in s.users then s
      else
        HeldChain(c, s.w, s.users, t);
        var id := s.users[t].home.heap;
        FreeOk(c, s.w, s.users, s.w.pool[id].level, t);
        State(Free(c, s.w, s.w.pool[id].level, id, s.users[t].mask), s.users - {t}, s.next)
  }

  /** What a request means for those who hold slices: a request that can be met gives the next ticket a slice of at
      least the size asked for, a release takes the ticket's slice away, and no other slice changes. */
  lemma ServeMeans(c: Config, s: State, r: Request)
    requires StateOk(c, s) && (r.Allocate? ==> r.count >= 1)
    ensures var s' := Serve(c, s, r);
      match r
      case Allocate(count, grant) =>
        var i := LevelFor(c.sizes, count);
        && s'.next == s.next + 1
        && (s.next in s'.users <==> i < |c.sizes| && !Exhausted(c, s.w, i, count, grant))
        && (s.next in s'.users ==> count <= s'.users[s.next].count < count + c.sizes[i])
        && s'.users - {s.next} == s.users
      case Release(t) => s'.next == s.next && s'.users == s.users - {t}
  {
    hide Inv, Alloc, Free, Exhausted;
    match r
    case Allocate(count, grant) =>
      var i := LevelFor(c.sizes, count);
      if i < |c.sizes| {
        InvShaped(c, s.w, s.users);
        AllocOk(c, s.w, s.users, i, count, grant, s.next);
        AllocFailsIff(c, s.w, i, count, grant);
      }
    case Release(t) =>
  }

  lemma InvShaped(c: Config, w: World, users: map<nat, Slice>)
    requires Inv(c, w, users)
    ensures Shaped(c, w)
  {
  }

  ghost predicate RequestsOk(rs: seq<Request>) { forall k :: 0 <= k < |rs| && rs[k].Allocate? ==> rs[k].count >= 1 }

  ghost function After(c: Config, rs: seq<Request>): (s: State)
    requires ConfigOk(c) && RequestsOk(rs)
    ensures StateOk(c, s)
  {
    if rs == [] then
      EmptyOk(c);
      State(Empty(c), map[], 0)
    else Serve(c, After(c, rs[..|rs| - 1]), rs[|rs| - 1])
  }

  lemma EmptyOk(c: Config)
    requires ConfigOk(c)
    ensures Inv(c, Empty(c), map[])
  {
    forall i | 0 <= i < |c.sizes| ensures Filed(Empty(c).bins[i], i, map[]) {
    }
  }

  /** Main result: after every run, the slices that are held are pairwise apart and inside buffers in use,
      every heap is in exactly the bucket of its longest run, and no wholly free heap is kept. */
  lemma EveryRun(c: Config, rs: seq<Request>)
    requires ConfigOk(c) && RequestsOk(rs)
    ensures var s := After(c, rs);
      && (forall t, t' :: t in s.users && t' in s.users && t != t' ==> !Overlap(s.users[t], s.users[t']))
      && (forall t :: t in s.users ==>
            s.users[t].buffer in s.w.buffers && s.users[t].offset + s.users[t].count <= 32 * c.sizes[|c.sizes| - 1])
      && |s.w.bins| == |c.sizes|
      && (forall i :: 0 <= i < |c.sizes| ==> Filed(s.w.bins[i], i, s.w.pool))
      && (s.users == map[] ==> s.w.pool == map[] && s.w.buffers == {})
  {
    hide Owned, Filed;
    var s := After(c, rs);
    forall t, t' | t in s.users && t' in s.users && t != t' ensures !Overlap(s.users[t], s.users[t']) {
      UsersNeverOverlap(c.sizes, s.w.pool, s.w.buffers, s.users, t, t');
    }
    forall t | t in s.users
      ensures s.users[t].buffer in s.w.buffers && s.users[t].offset + s.users[t].count <= 32 * c.sizes[|c.sizes| - 1]
    {
      InsideBuffer(c.sizes, s.w.pool, s.w.buffers, s.users, User(t));
    }
    if s.users == map[] {
      NoneWhollyFree(c, s.w, s.users);
      NothingLeaks(c.sizes, s.w.pool, s.w.buffers);
    }
  }

  lemma NoneWhollyFree(c: Config, w: World, users: map<nat, Slice>)
    requires Inv(c, w, users)
    ensures forall id :: id in w.pool ==> w.pool[id].free != AllFree()
  {
    forall id | id in w.pool ensures w.pool[id].free != AllFree() {
      assert BackingOk(c.sizes, w.pool, w.pool[id]);
      BinsFiled(c, w, w.pool[id].level);
    }
  }
}
