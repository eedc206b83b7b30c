/** Who holds which slice: users and heaps hold slices of heaps one level up, or whole buffers. */
module Slices {
  import opened Legion
  import opened Arena

  datatype Owner = User(ticket: nat) | HeapOf(heap: Id)

  predicate Holds(pool: map<Id, Heap>, users: map<nat, Slice>, o: Owner) {
    match o case User(t) => t in users case HeapOf(id) => id in pool
  }

  function SliceOf(pool: map<Id, Heap>, users: map<nat, Slice>, o: Owner): Slice
    requires Holds(pool, users, o)
  {
    match o case User(t) => users[t] case HeapOf(id) => pool[id].allocation
  }

  /** Slice s is n blocks of heap h from block b on, none of them free. */
  predicate Sits(s: Slice, h: Heap, size: nat, b: nat, n: nat) {
    && 1 <= n && b + n <= 32
    && s.mask == Span(b, n)
    && s.buffer == h.allocation.buffer
    && s.offset == h.allocation.offset + b * size
    && s.count == n * size
    && forall k :: b <= k < b + n ==> !h.free[k]
  }

  ghost predicate SliceOk(sizes: seq<nat>, pool: map<Id, Heap>, buffers: set<nat>, s: Slice) {
    match s.home
    case Root => s.offset == 0 && 0 < |sizes| && s.count == 32 * sizes[|sizes| - 1] && s.buffer in buffers
    case In(id) =>
      id in pool && pool[id].level < |sizes| && exists b, n :: Sits(s, pool[id], sizes[pool[id].level], b, n)
  }

  predicate Apart(s: Slice, s': Slice) {
    && (s.home.Root? && s'.home.Root? ==> s.buffer != s'.buffer)
    && (s.home.In? && s.home == s'.home ==> forall k :: 0 <= k < 32 ==> !(s.mask[k] && s'.mask[k]))
  }

  /** A heap divides a slice of the next level that has room for its 32 blocks, or a whole buffer at the top. */
  predicate BackingOk(sizes: seq<nat>, pool: map<Id, Heap>, h: Heap) {
    && h.level < |sizes|
    && 32 * sizes[h.level] <= h.allocation.count
    && (h.level + 1 == |sizes| ==> h.allocation.home.Root?)
    && (h.level + 1 < |sizes| ==>
          h.allocation.home.In? && h.allocation.home.heap in pool && pool[h.allocation.home.heap].level == h.level + 1)
  }

  /** Owner o holds block k of heap id. */
  predicate HoldsBlock(pool: map<Id, Heap>, users: map<nat, Slice>, o: Owner, id: Id, k: nat) {
    && Holds(pool, users, o) && k < 32
    && SliceOf(pool, users, o).home == In(id) && SliceOf(pool, users, o).mask[k]
  }

  predicate HoldsBuffer(pool: map<Id, Heap>, users: map<nat, Slice>, o: Owner, x: nat) {
    Holds(pool, users, o) && SliceOf(pool, users, o).home.Root? && SliceOf(pool, users, o).buffer == x
  }

  /** Everything handed out is in place and apart, and everything taken is held by somebody. */
  ghost predicate Owned(sizes: seq<nat>, pool: map<Id, Heap>, buffers: set<nat>, users: map<nat, Slice>) {
    && (forall o :: Holds(pool, users, o) ==> SliceOk(sizes, pool, buffers, SliceOf(pool, users, o)))
    && (forall o, o' :: Holds(pool, users, o) && Holds(pool, users, o') && o != o' ==>
          Apart(SliceOf(pool, users, o), SliceOf(pool, users, o')))
    && (forall id :: id in pool ==> BackingOk(sizes, pool, pool[id]))
    && (forall id, k :: id in pool && 0 <= k < 32 && !pool[id].free[k] ==>
          exists o :: HoldsBlock(pool, users, o, id, k))
    && (forall x :: x in buffers ==> exists o :: HoldsBuffer(pool, users, o, x))
  }

  /** The slice of n blocks taken from heap id at block b. */
  function Carved(h: Heap, id: Id, size: nat, b: nat, n: nat): Slice {
    Slice(h.allocation.buffer, h.allocation.offset + b * size, n * size, Span(b, n), In(id))
  }

  function Taking(h: Heap, b: nat, n: nat): Heap { h.(free := And(h.free, Not(Span(b, n)))) }

  function Returning(h: Heap, mask: Mask): Heap { h.(free := Or(h.free, mask)) }

  lemma CarveOk(sizes: seq<nat>, pool: map<Id, Heap>, buffers: set<nat>, users: map<nat, Slice>,
                t: nat, id: Id, b: nat, n: nat)
    requires Owned(sizes, pool, buffers, users) && t !in users && id in pool && n >= 1 && RunFrom(pool[id].free, b, n)
    requires pool[id].level < |sizes|
    ensures Owned(sizes, pool[id := Taking(pool[id], b, n)], buffers,
                  users[t := Carved(pool[id], id, sizes[pool[id].level], b, n)])
  {
    hide SliceOk, BackingOk;
    var size, h := sizes[pool[id].level], pool[id];
    var h', s := Taking(h, b, n), Carved(h, id, size, b, n);
    var pool', users' := pool[id := h'], users[t := s];
    NewInPlace(sizes, pool', buffers, s, id, b, n);
    BackingKept(sizes, pool, id, h');
    forall o | Holds(pool', users', o)
      ensures SliceOk(sizes, pool', buffers, SliceOf(pool', users', o))
      ensures o != User(t) ==> Apart(s, SliceOf(pool', users', o)) && Apart(SliceOf(pool', users', o), s)
    {
      if o != User(t) {
        var x := SliceOf(pool, users, o);
        assert SliceOf(pool', users', o) == x;
        assert SliceOk(sizes, pool, buffers, x);
        SliceKept(sizes, pool, buffers, x, id, h');
        if x.home == In(id) {
          TakenBits(sizes, pool, buffers, x);
        }
      }
    }
    forall o, o' | Holds(pool', users', o) && Holds(pool', users', o') && o != o'
      ensures Apart(SliceOf(pool', users', o), SliceOf(pool', users', o'))
    {
      if o != User(t) && o' != User(t) {
        assert Holds(pool, users, o) && Holds(pool, users, o');
      }
    }
    BlocksKept(pool, users, pool', users', id, t, s);
    forall x | x in buffers ensures exists o :: HoldsBuffer(pool', users', o, x) {
      var o :| HoldsBuffer(pool, users, o, x);
      assert HoldsBuffer(pool', users', o, x);
    }
  }

  lemma NewInPlace(sizes: seq<nat>, pool: map<Id, Heap>, buffers: set<nat>, s: Slice, id: Id, b: nat, n: nat)
    requires s.home == In(id) && id in pool && pool[id].level < |sizes|
    requires Sits(s, pool[id], sizes[pool[id].level], b, n)
    ensures SliceOk(sizes, pool, buffers, s)
  {
  }

  lemma TakenBits(sizes: seq<nat>, pool: map<Id, Heap>, buffers: set<nat>, x: Slice)
    requires SliceOk(sizes, pool, buffers, x) && x.home.In?
    ensures x.home.heap in pool && forall k :: 0 <= k < 32 && x.mask[k] ==> !pool[x.home.heap].free[k]
  {
  }

  /** A slice stays in place when blocks outside it change. */
  lemma SliceKept(sizes: seq<nat>, pool: map<Id, Heap>, buffers: set<nat>, x: Slice, id: Id, h': Heap)
    requires SliceOk(sizes, pool, buffers, x) && id in pool
    requires h'.level == pool[id].level && h'.allocation == pool[id].allocation
    requires x.home == In(id) ==> forall k :: 0 <= k < 32 && x.mask[k] && !pool[id].free[k] ==> !h'.free[k]
    ensures SliceOk(sizes, pool[id := h'], buffers, x)
  {
    if x.home.In? {
      var h := pool[x.home.heap];
      var b1, n1 :| Sits(x, h, sizes[h.level], b1, n1);
      assert Sits(x, pool[id := h'][x.home.heap], sizes[h.level], b1, n1);
    }
  }

  lemma BlocksKept(pool: map<Id, Heap>, users: map<nat, Slice>, pool': map<Id, Heap>, users': map<nat, Slice>,
                   id: Id, t: nat, s: Slice)
    requires id in pool && t !in users && users' == users[t := s] && s.home == In(id)
    requires id in pool' && pool' == pool[id := pool'[id]] && pool'[id].allocation == pool[id].allocation
    requires pool'[id].free == And(pool[id].free, Not(s.mask))
    requires forall i, k :: i in pool && 0 <= k < 32 && !pool[i].free[k] ==>
      exists o :: HoldsBlock(pool, users, o, i, k)
    ensures forall i, k :: i in pool' && 0 <= k < 32 && !pool'[i].free[k] ==>
      exists o :: HoldsBlock(pool', users', o, i, k)
  {
    forall i, k | i in pool' && 0 <= k < 32 && !pool'[i].free[k]
      ensures exists o :: HoldsBlock(pool', users', o, i, k)
    {
      if !pool[i].free[k] {
        var o :| HoldsBlock(pool, users, o, i, k);
        assert HoldsBlock(pool', users', o, i, k);
      } else {
        assert HoldsBlock(pool', users', User(t), i, k);
      }
    }
  }

  lemma HomeThere(sizes: seq<nat>, pool: map<Id, Heap>, buffers: set<nat>, x: Slice)
    requires SliceOk(sizes, pool, buffers, x) && x.home.In?
    ensures x.home.heap in pool
  {
  }

  lemma BackingKept(sizes: seq<nat>, pool: map<Id, Heap>, id: Id, h': Heap)
    requires id in pool && h'.level == pool[id].level && h'.allocation == pool[id].allocation
    requires forall i :: i in pool ==> BackingOk(sizes, pool, pool[i])
    ensures forall i :: i in pool ==> BackingOk(sizes, pool[id := h'], pool[id := h'][i])
  {
  }

  lemma ReturnOk(sizes: seq<nat>, pool: map<Id, Heap>, buffers: set<nat>, users: map<nat, Slice>, t: nat, id: Id)
    requires Owned(sizes, pool, buffers, users) && t in users && users[t].home == In(id)
    ensures id in pool && Owned(sizes, pool[id := Returning(pool[id], users[t].mask)], buffers, users - {t})
  {
    hide SliceOk, BackingOk;
    assert Holds(pool, users, User(t)) && SliceOf(pool, users, User(t)) == users[t];
    var s := users[t];
    HomeThere(sizes, pool, buffers, s);
    var h := pool[id];
    var h' := Returning(h, s.mask);
    var pool', users' := pool[id := h'], users - {t};
    BackingKept(sizes, pool, id, h');
    forall o | Holds(pool', users', o)
      ensures SliceOk(sizes, pool', buffers, SliceOf(pool', users', o))
    {
      assert Holds(pool, users, o) && Apart(SliceOf(pool, users, o), s);
      SliceKept(sizes, pool, buffers, SliceOf(pool, users, o), id, h');
    }
    forall o, o' | Holds(pool', users', o) && Holds(pool', users', o') && o != o'
      ensures Apart(SliceOf(pool', users', o), SliceOf(pool', users', o'))
    {
      assert Holds(pool, users, o) && Holds(pool, users, o');
    }
    forall i, k | i in pool' && 0 <= k < 32 && !pool'[i].free[k]
      ensures exists o :: HoldsBlock(pool', users', o, i, k)
    {
      var o :| HoldsBlock(pool, users, o, i, k);
      assert o != User(t);
      assert HoldsBlock(pool', users', o, i, k);
    }
    forall x | x in buffers ensures exists o :: HoldsBuffer(pool', users', o, x) {
      var o :| HoldsBuffer(pool, users, o, x);
      assert HoldsBuffer(pool', users', o, x);
    }
  }

  /** Renaming owner User(t) to HeapOf(id) when heap id appears on the slice t held. */
  lemma AddHeapOk(sizes: seq<nat>, pool: map<Id, Heap>, buffers: set<nat>, users: map<nat, Slice>,
                  t: nat, id: Id, h: Heap)
    requires Owned(sizes, pool, buffers, users) && t in users && id !in pool
    requires h.allocation == users[t] && h.free == AllFree() && BackingOk(sizes, pool, h)
    ensures Owned(sizes, pool[id := h], buffers, users - {t})
  {
    hide SliceOk, Apart;
    var pool', users' := pool[id := h], users - {t};
    forall o | Holds(pool', users', o)
      ensures SliceOk(sizes, pool', buffers, SliceOf(pool', users', o))
      ensures Holds(pool, users, Unrenamed(o, t, id))
      ensures SliceOf(pool', users', o) == SliceOf(pool, users, Unrenamed(o, t, id))
    {
      GrowKeeps(sizes, pool, buffers, SliceOf(pool, users, Unrenamed(o, t, id)), id, h);
    }
    forall o, o' | Holds(pool', users', o) && Holds(pool', users', o') && o != o'
      ensures Apart(SliceOf(pool', users', o), SliceOf(pool', users', o'))
    {
      assert Unrenamed(o, t, id) != Unrenamed(o', t, id);
    }
    forall i, k | i in pool' && 0 <= k < 32 && !pool'[i].free[k]
      ensures exists o :: HoldsBlock(pool', users', o, i, k)
    {
      var o :| HoldsBlock(pool, users, o, i, k);
      assert HoldsBlock(pool', users', Renamed(o, t, id), i, k);
    }
    forall x | x in buffers ensures exists o :: HoldsBuffer(pool', users', o, x) {
      var o :| HoldsBuffer(pool, users, o, x);
      assert HoldsBuffer(pool', users', Renamed(o, t, id), x);
    }
  }

  function Unrenamed(o: Owner, t: nat, id: Id): Owner { if o == HeapOf(id) then User(t) else o }

  function Renamed(o: Owner, t: nat, id: Id): Owner { if o == User(t) then HeapOf(id) else o }

  lemma GrowKeeps(sizes: seq<nat>, pool: map<Id, Heap>, buffers: set<nat>, x: Slice, id: Id, h: Heap)
    requires SliceOk(sizes, pool, buffers, x) && id !in pool
    ensures SliceOk(sizes, pool[id := h], buffers, x)
  {
    if x.home.In? {
      var g := pool[x.home.heap];
      var b1, n1 :| Sits(x, g, sizes[g.level], b1, n1);
      assert Sits(x, pool[id := h][x.home.heap], sizes[g.level], b1, n1);
    }
  }

  /** A wholly free heap can go: ticket t takes over its slice. */
  lemma DropHeapOk(sizes: seq<nat>, pool: map<Id, Heap>, buffers: set<nat>, users: map<nat, Slice>, t: nat, id: Id)
    requires Owned(sizes, pool, buffers, users) && t !in users && id in pool && pool[id].free == AllFree()
    ensures Owned(sizes, pool - {id}, buffers, users[t := pool[id].allocation])
  {
    hide SliceOk, Apart;
    var pool', users' := pool - {id}, users[t := pool[id].allocation];
    forall o | Holds(pool, users, o) ensures SliceOf(pool, users, o).home != In(id) {
      if SliceOf(pool, users, o).home.In? {
        HomeTaken(sizes, pool, buffers, SliceOf(pool, users, o));
      }
    }
    forall o | Holds(pool', users', o)
      ensures SliceOk(sizes, pool', buffers, SliceOf(pool', users', o))
      ensures Holds(pool, users, Renamed(o, t, id))
      ensures SliceOf(pool', users', o) == SliceOf(pool, users, Renamed(o, t, id))
    {
      ShrinkKeeps(sizes, pool, buffers, SliceOf(pool, users, Renamed(o, t, id)), id);
    }
    forall o, o' | Holds(pool', users', o) && Holds(pool', users', o') && o != o'
      ensures Apart(SliceOf(pool', users', o), SliceOf(pool', users', o'))
    {
      assert Renamed(o, t, id) != Renamed(o', t, id);
    }
    forall i | i in pool' ensures BackingOk(sizes, pool', pool'[i]) {
      assert BackingOk(sizes, pool, pool[i]);
      assert Holds(pool, users, HeapOf(i));
    }
    forall i, k | i in pool' && 0 <= k < 32 && !pool'[i].free[k]
      ensures exists o :: HoldsBlock(pool', users', o, i, k)
    {
      var o :| HoldsBlock(pool, users, o, i, k);
      assert HoldsBlock(pool', users', Unrenamed(o, t, id), i, k);
    }
    forall x | x in buffers ensures exists o :: HoldsBuffer(pool', users', o, x) {
      var o :| HoldsBuffer(pool, users, o, x);
      assert HoldsBuffer(pool', users', Unrenamed(o, t, id), x);
    }
  }

  lemma HomeTaken(sizes: seq<nat>, pool: map<Id, Heap>, buffers: set<nat>, x: Slice)
    requires SliceOk(sizes, pool, buffers, x) && x.home.In?
    ensures pool[x.home.heap].free != AllFree()
  {
    var h := pool[x.home.heap];
    var b: nat, n: nat :| Sits(x, h, sizes[h.level], b, n);
    assert !h.free[b];
  }

  lemma ShrinkKeeps(sizes: seq<nat>, pool: map<Id, Heap>, buffers: set<nat>, x: Slice, id: Id)
    requires SliceOk(sizes, pool, buffers, x) && x.home != In(id)
    ensures SliceOk(sizes, pool - {id}, buffers, x)
  {
    if x.home.In? {
      var g := pool[x.home.heap];
      var b1, n1 :| Sits(x, g, sizes[g.level], b1, n1);
      assert Sits(x, (pool - {id})[x.home.heap], sizes[g.level], b1, n1);
    }
  }

  lemma NewRootOk(sizes: seq<nat>, pool: map<Id, Heap>, buffers: set<nat>, s: Slice)
    requires s.home.Root? && s.offset == 0 && 0 < |sizes| && s.count == 32 * sizes[|sizes| - 1]
    ensures SliceOk(sizes, pool, buffers + {s.buffer}, s)
  {
  }

  lemma NewRootApart(sizes: seq<nat>, pool: map<Id, Heap>, buffers: set<nat>, x: Slice, s: Slice)
    requires SliceOk(sizes, pool, buffers, x) && s.home.Root? && s.buffer !in buffers
    ensures SliceOk(sizes, pool, buffers + {s.buffer}, x) && Apart(x, s) && Apart(s, x)
  {
  }

  lemma AddBufferOk(sizes: seq<nat>, pool: map<Id, Heap>, buffers: set<nat>, users: map<nat, Slice>, t: nat, s: Slice)
    requires Owned(sizes, pool, buffers, users) && t !in users && s.home.Root? && s.buffer !in buffers
    requires s.offset == 0 && 0 < |sizes| && s.count == 32 * sizes[|sizes| - 1]
    ensures Owned(sizes, pool, buffers + {s.buffer}, users[t := s])
  {
    hide SliceOk, Apart, BackingOk;
    var buffers', users' := buffers + {s.buffer}, users[t := s];
    NewRootOk(sizes, pool, buffers, s);
    forall o | Holds(pool, users, o)
      ensures SliceOk(sizes, pool, buffers', SliceOf(pool, users, o))
      ensures Apart(SliceOf(pool, users, o), s) && Apart(s, SliceOf(pool, users, o))
    {
      NewRootApart(sizes, pool, buffers, SliceOf(pool, users, o), s);
    }
    forall o | Holds(pool, users', o) && o != User(t)
      ensures Holds(pool, users, o) && SliceOf(pool, users', o) == SliceOf(pool, users, o)
    {
    }
    forall i, k | i in pool && 0 <= k < 32 && !pool[i].free[k]
      ensures exists o :: HoldsBlock(pool, users', o, i, k)
    {
      var o :| HoldsBlock(pool, users, o, i, k);
      assert HoldsBlock(pool, users', o, i, k);
    }
    forall x | x in buffers' ensures exists o :: HoldsBuffer(pool, users', o, x) {
      if x == s.buffer {
        assert HoldsBuffer(pool, users', User(t), x);
      } else {
        var o :| HoldsBuffer(pool, users, o, x);
        assert HoldsBuffer(pool, users', o, x);
      }
    }
  }

  lemma DropBufferOk(sizes: seq<nat>, pool: map<Id, Heap>, buffers: set<nat>, users: map<nat, Slice>, t: nat)
    requires Owned(sizes, pool, buffers, users) && t in users && users[t].home.Root?
    ensures users[t].buffer in buffers && Owned(sizes, pool, buffers - {users[t].buffer}, users - {t})
  {
    var s := users[t];
    var buffers', users' := buffers - {s.buffer}, users - {t};
    assert Holds(pool, users, User(t)) && SliceOf(pool, users, User(t)) == s;
    forall o | Holds(pool, users', o)
      ensures Holds(pool, users, o) && SliceOf(pool, users', o) == SliceOf(pool, users, o)
      ensures SliceOk(sizes, pool, buffers', SliceOf(pool, users, o))
    {
      assert Holds(pool, users, o) && o != User(t);
      assert Apart(SliceOf(pool, users, o), s);
      assert SliceOk(sizes, pool, buffers, SliceOf(pool, users, o));
    }
    forall i, k | i in pool && 0 <= k < 32 && !pool[i].free[k]
      ensures exists o :: HoldsBlock(pool, users', o, i, k)
    {
      var o :| HoldsBlock(pool, users, o, i, k);
      assert HoldsBlock(pool, users', o, i, k);
    }
    forall x | x in buffers' ensures exists o :: HoldsBuffer(pool, users', o, x) {
      var o :| HoldsBuffer(pool, users, o, x);
      assert HoldsBuffer(pool, users', o, x);
    }
  }

  // ---- ranges ---------------------------------------------------------------------------------

  predicate Overlap(s: Slice, s': Slice) {
    s.buffer == s'.buffer && s.offset < s'.offset + s'.count && s'.offset < s.offset + s.count
  }

  /** The level a slice was taken from; whole buffers come from above the top. */
  function LevelOf(sizes: seq<nat>, pool: map<Id, Heap>, s: Slice): nat {
    if s.home.In? && s.home.heap in pool then pool[s.home.heap].level else |sizes|
  }

  lemma SpanRange(b: nat, n: nat, size: nat)
    requires b + n <= 32
    ensures b * size + n * size <= 32 * size
  {
    assert b * size + n * size == (b + n) * size;
    assert (32 - (b + n)) * size >= 0;
  }

  /** A slice lies in the slice its heap divides. */
  lemma InsideBacking(sizes: seq<nat>, pool: map<Id, Heap>, buffers: set<nat>, users: map<nat, Slice>, o: Owner)
    requires Owned(sizes, pool, buffers, users) && Holds(pool, users, o) && SliceOf(pool, users, o).home.In?
    ensures var s := SliceOf(pool, users, o);
      && s.home.heap in pool && pool[s.home.heap].level < |sizes|
      && var a := pool[s.home.heap].allocation;
        && s.buffer == a.buffer && a.offset <= s.offset && s.offset + s.count <= a.offset + a.count
        && LevelOf(sizes, pool, a) == LevelOf(sizes, pool, s) + 1
  {
    var s := SliceOf(pool, users, o);
    assert SliceOk(sizes, pool, buffers, s);
    var h := pool[s.home.heap];
    assert BackingOk(sizes, pool, h);
    var b: nat, n: nat :| Sits(s, h, sizes[h.level], b, n);
    SpanRange(b, n, sizes[h.level]);
  }

  lemma SpansApart(b: nat, n: nat, b': nat, n': nat)
    requires 1 <= n && b + n <= 32 && 1 <= n' && b' + n' <= 32
    requires forall k :: 0 <= k < 32 ==> !(Span(b, n)[k] && Span(b', n')[k])
    ensures b + n <= b' || b' + n' <= b
  {
    var k := if b < b' then b' else b;
    assert !(Span(b, n)[k] && Span(b', n')[k]);
  }

  lemma ScaledOrder(b: nat, n: nat, b': nat, size: nat)
    requires b + n <= b'
    ensures b * size + n * size <= b' * size
  {
    assert b' * size == b * size + n * size + (b' - b - n) * size;
  }

  lemma ApartRanges(s: Slice, s': Slice, h: Heap, size: nat, b: nat, n: nat, b': nat, n': nat)
    requires Sits(s, h, size, b, n) && Sits(s', h, size, b', n')
    requires forall k :: 0 <= k < 32 ==> !(s.mask[k] && s'.mask[k])
    ensures !Overlap(s, s')
  {
    hide Span;
    SpansApart(b, n, b', n');
    if b + n <= b' {
      ScaledOrder(b, n, b', size);
    } else {
      ScaledOrder(b', n', b, size);
    }
  }

  /** Different slices of one level never overlap. */
  lemma {:induction false} LevelApart(sizes: seq<nat>, pool: map<Id, Heap>, buffers: set<nat>, users: map<nat, Slice>,
                                      o: Owner, o': Owner)
    requires Owned(sizes, pool, buffers, users) && Holds(pool, users, o) && Holds(pool, users, o') && o != o'
    requires LevelOf(sizes, pool, SliceOf(pool, users, o)) == LevelOf(sizes, pool, SliceOf(pool, users, o'))
    ensures !Overlap(SliceOf(pool, users, o), SliceOf(pool, users, o'))
    decreases |sizes| + 1 - LevelOf(sizes, pool, SliceOf(pool, users, o))
  {
    hide Sits, BackingOk;
    var s, s' := SliceOf(pool, users, o), SliceOf(pool, users, o');
    assert SliceOk(sizes, pool, buffers, s) && SliceOk(sizes, pool, buffers, s') && Apart(s, s');
    if s.home.In? && s'.home.In? {
      InsideBacking(sizes, pool, buffers, users, o);
      InsideBacking(sizes, pool, buffers, users, o');
      var id, id' := s.home.heap, s'.home.heap;
      if id == id' {
        var h := pool[id];
        var b: nat, n: nat :| Sits(s, h, sizes[h.level], b, n);
        var b': nat, n': nat :| Sits(s', h, sizes[h.level], b', n');
        ApartRanges(s, s', h, sizes[h.level], b, n, b', n');
      } else {
        LevelApart(sizes, pool, buffers, users, HeapOf(id), HeapOf(id'));
      }
    } else if s.home.In? {
      InsideBacking(sizes, pool, buffers, users, o);
    } else if s'.home.In? {
      InsideBacking(sizes, pool, buffers, users, o');
    }
  }

  /** What a user holds overlaps nothing from the same level or below. */
  lemma {:induction false} UserApart(sizes: seq<nat>, pool: map<Id, Heap>, buffers: set<nat>, users: map<nat, Slice>,
                                     o: Owner, t: nat)
    requires Owned(sizes, pool, buffers, users) && Holds(pool, users, o) && t in users && o != User(t)
    requires LevelOf(sizes, pool, SliceOf(pool, users, o)) <= LevelOf(sizes, pool, users[t])
    ensures !Overlap(SliceOf(pool, users, o), users[t])
    decreases LevelOf(sizes, pool, users[t]) - LevelOf(sizes, pool, SliceOf(pool, users, o))
  {
    hide SliceOk, BackingOk, Apart;
    var s := SliceOf(pool, users, o);
    assert Holds(pool, users, User(t));
    if LevelOf(sizes, pool, s) == LevelOf(sizes, pool, users[t]) {
      LevelApart(sizes, pool, buffers, users, o, User(t));
    } else {
      HomeLevel(sizes, pool, buffers, users, User(t));
      InsideBacking(sizes, pool, buffers, users, o);
      UserApart(sizes, pool, buffers, users, HeapOf(s.home.heap), t);
    }
  }

  lemma HomeLevel(sizes: seq<nat>, pool: map<Id, Heap>, buffers: set<nat>, users: map<nat, Slice>, o: Owner)
    requires Owned(sizes, pool, buffers, users) && Holds(pool, users, o)
    ensures LevelOf(sizes, pool, SliceOf(pool, users, o)) <= |sizes|
  {
    assert SliceOk(sizes, pool, buffers, SliceOf(pool, users, o));
  }

  /** No two users' slices overlap. */
  lemma UsersNeverOverlap(sizes: seq<nat>, pool: map<Id, Heap>, buffers: set<nat>, users: map<nat, Slice>,
                          t: nat, t': nat)
    requires Owned(sizes, pool, buffers, users) && t in users && t' in users && t != t'
    ensures !Overlap(users[t], users[t'])
  {
    if LevelOf(sizes, pool, users[t]) <= LevelOf(sizes, pool, users[t']) {
      UserApart(sizes, pool, buffers, users, User(t), t');
    } else {
      UserApart(sizes, pool, buffers, users, User(t'), t);
    }
  }

  /** Every slice lies in a buffer that is in use. */
  lemma {:induction false} InsideBuffer(sizes: seq<nat>, pool: map<Id, Heap>, buffers: set<nat>, users: map<nat, Slice>,
                                        o: Owner)
    requires Owned(sizes, pool, buffers, users) && Holds(pool, users, o)
    ensures var s := SliceOf(pool, users, o);
      s.buffer in buffers && 0 < |sizes| && s.offset + s.count <= 32 * sizes[|sizes| - 1]
    decreases |sizes| + 1 - LevelOf(sizes, pool, SliceOf(pool, users, o))
  {
    hide Sits, BackingOk;
    var s := SliceOf(pool, users, o);
    assert SliceOk(sizes, pool, buffers, s);
    if s.home.In? {
      InsideBacking(sizes, pool, buffers, users, o);
      HomeLevel(sizes, pool, buffers, users, HeapOf(s.home.heap));
      InsideBuffer(sizes, pool, buffers, users, HeapOf(s.home.heap));
    }
  }

  /** Once the users hold nothing, every heap has been given back. */
  lemma {:induction false} NoHeapLeft(sizes: seq<nat>, pool: map<Id, Heap>, buffers: set<nat>, id: Id)
    requires Owned(sizes, pool, buffers, map[])
    requires forall i :: i in pool ==> pool[i].free != AllFree()
    ensures id !in pool
    decreases if id in pool then pool[id].level else 0
  {
    if id in pool {
      var k :| 0 <= k < 32 && !pool[id].free[k];
      var o :| HoldsBlock(pool, map[], o, id, k);
      assert BackingOk(sizes, pool, pool[o.heap]);
      NoHeapLeft(sizes, pool, buffers, o.heap);
    }
  }

  lemma NothingLeaks(sizes: seq<nat>, pool: map<Id, Heap>, buffers: set<nat>)
    requires Owned(sizes, pool, buffers, map[])
    requires forall i :: i in pool ==> pool[i].free != AllFree()
    ensures pool == map[] && buffers == {}
  {
    forall id ensures id !in pool {
      NoHeapLeft(sizes, pool, buffers, id);
    }
    assert forall o, x :: !HoldsBuffer(pool, map[], o, x);
  }
}
