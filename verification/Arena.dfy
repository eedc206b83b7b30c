/** The buckets of an arena: every heap is filed by its longest free run. */
module Arena {
  import opened Legion

  type Id = nat

  datatype Home = Root | In(heap: Id)

  /** A range of a buffer, and the heap and mask it was carved from. */
  datatype Slice = Slice(buffer: nat, offset: nat, count: nat, mask: Mask, home: Home)

  /** A heap of an arena: the level of its allocator, the slice it divides, and its free blocks. */
  datatype Heap = Heap(level: nat, allocation: Slice, free: Mask)

  /** heaps[k] holds the heaps whose longest run is k + 1; bit k of availability says that there are some. */
  datatype Bins = Bins(heaps: seq<seq<Id>>, full: seq<Id>, availability: Mask)

  function NoBins(): Bins { Bins(seq(32, _ => []), [], NoneFree()) }

  /** The list for a longest run of r. */
  function ListOf(b: Bins, r: nat): seq<Id> {
    if r == 0 then b.full else if r <= |b.heaps| then b.heaps[r - 1] else []
  }

  ghost predicate NoRepeats(s: seq<Id>) { forall i, j :: 0 <= i < j < |s| ==> s[i] != s[j] }

  /** Exactly the heaps of this level are filed, each once, by its longest run; bits follow the lists;
      no heap is wholly free. */
  ghost predicate Filed(b: Bins, level: nat, pool: map<Id, Heap>) {
    && |b.heaps| == 32
    && (forall k :: 0 <= k < 32 ==> (b.availability[k] <==> b.heaps[k] != []))
    && (forall r :: 0 <= r <= 32 ==> NoRepeats(ListOf(b, r)))
    && (forall id, r :: 0 <= r <= 32 ==> (id in ListOf(b, r) <==> BelongsIn(level, pool, id, r)))
    && (forall id :: id in pool && pool[id].level == level ==> pool[id].free != AllFree())
  }

  predicate BelongsIn(level: nat, pool: map<Id, Heap>, id: Id, r: nat) {
    id in pool && pool[id].level == level && LongestRun(pool[id].free) == r
  }

  function Remove(s: seq<Id>, id: Id): (r: seq<Id>)
    ensures forall x :: x in r ==> x in s
  {
    if s == [] then []
    else if s[0] == id then s[1..]
    else [s[0]] + Remove(s[1..], id)
  }

  lemma {:induction false} RemoveOk(s: seq<Id>, id: Id)
    requires NoRepeats(s)
    ensures NoRepeats(Remove(s, id))
    ensures forall x :: x in Remove(s, id) <==> x in s && x != id
  {
    if s != [] {
      var rest := s[1..];
      assert s == [s[0]] + rest;
      assert s[0] !in rest;
      if s[0] != id {
        RemoveOk(rest, id);
        assert s[0] !in Remove(rest, id);
      }
    }
  }

  /** Take a heap out of the list for runs of r. */
  function Unfile(b: Bins, id: Id, r: nat): Bins
    requires |b.heaps| == 32 && r <= 32
  {
    if r == 0 then b.(full := Remove(b.full, id))
    else
      var rest := Remove(b.heaps[r - 1], id);
      b.(heaps := b.heaps[r - 1 := rest],
         availability := if rest == [] then b.availability[r - 1 := false] else b.availability)
  }

  /** Put a heap at the front of the list for runs of r. */
  function File(b: Bins, id: Id, r: nat): Bins
    requires |b.heaps| == 32 && r <= 32
  {
    if r == 0 then b.(full := [id] + b.full)
    else b.(heaps := b.heaps[r - 1 := [id] + b.heaps[r - 1]], availability := b.availability[r - 1 := true])
  }

  /** A heap whose longest run changed moves to the front of its new list; otherwise it keeps its place. */
  function Refile(b: Bins, id: Id, r: nat, r': nat): (b': Bins)
    requires |b.heaps| == 32 && r <= 32 && r' <= 32
    ensures |b'.heaps| == 32
  {
    if r == r' then b else File(Unfile(b, id, r), id, r')
  }

  lemma UnfileOk(b: Bins, level: nat, pool: map<Id, Heap>, id: Id)
    requires Filed(b, level, pool) && id in pool && pool[id].level == level
    ensures Filed(Unfile(b, id, LongestRun(pool[id].free)), level, pool - {id})
  {
    hide LongestRun;
    var r0, pool' := LongestRun(pool[id].free), pool - {id};
    var b' := Unfile(b, id, r0);
    RemoveOk(ListOf(b, r0), id);
    forall x, r | 0 <= r <= 32
      ensures x in ListOf(b', r) <==> BelongsIn(level, pool', x, r)
    {
      assert x in ListOf(b, r) <==> BelongsIn(level, pool, x, r);
      assert r != r0 ==> ListOf(b', r) == ListOf(b, r);
    }
    forall r | 0 <= r <= 32 ensures NoRepeats(ListOf(b', r)) {
      assert NoRepeats(ListOf(b, r));
    }
  }

  lemma FileOk(b: Bins, level: nat, pool: map<Id, Heap>, id: Id, h: Heap)
    requires Filed(b, level, pool) && id !in pool && h.level == level && h.free != AllFree()
    ensures Filed(File(b, id, LongestRun(h.free)), level, pool[id := h])
  {
    hide LongestRun;
    var r0, pool' := LongestRun(h.free), pool[id := h];
    var b' := File(b, id, r0);
    forall x, r | 0 <= r <= 32
      ensures x in ListOf(b', r) <==> BelongsIn(level, pool', x, r)
    {
      assert x in ListOf(b, r) <==> BelongsIn(level, pool, x, r);
      assert ListOf(b', r) == if r == r0 then [id] + ListOf(b, r) else ListOf(b, r);
    }
    forall r | 0 <= r <= 32 ensures NoRepeats(ListOf(b', r)) {
      assert NoRepeats(ListOf(b, r));
      assert id in ListOf(b, r) <==> BelongsIn(level, pool, id, r);
      assert ListOf(b', r) == if r == r0 then [id] + ListOf(b, r) else ListOf(b, r);
    }
  }

  lemma RefileOk(b: Bins, level: nat, pool: map<Id, Heap>, id: Id, h: Heap)
    requires Filed(b, level, pool) && id in pool && pool[id].level == level == h.level && h.free != AllFree()
    ensures Filed(Refile(b, id, LongestRun(pool[id].free), LongestRun(h.free)), level, pool[id := h])
  {
    hide LongestRun, File, Unfile;
    if LongestRun(pool[id].free) == LongestRun(h.free) {
      SameFiled(b, level, pool, id, h);
    } else {
      UnfileOk(b, level, pool, id);
      FileOk(Unfile(b, id, LongestRun(pool[id].free)), level, pool - {id}, id, h);
      assert (pool - {id})[id := h] == pool[id := h];
    }
  }

  lemma SameFiled(b: Bins, level: nat, pool: map<Id, Heap>, id: Id, h: Heap)
    requires Filed(b, level, pool) && id in pool && pool[id].level == level == h.level && h.free != AllFree()
    requires LongestRun(pool[id].free) == LongestRun(h.free)
    ensures Filed(b, level, pool[id := h])
  {
    hide LongestRun;
    var pool' := pool[id := h];
    forall x, r | 0 <= r <= 32 ensures x in ListOf(b, r) <==> BelongsIn(level, pool', x, r) {
      assert BelongsIn(level, pool, x, r) <==> BelongsIn(level, pool', x, r);
    }
  }

  /** Heaps of other levels do not matter. */
  lemma OtherLevel(b: Bins, level: nat, pool: map<Id, Heap>, pool': map<Id, Heap>)
    requires Filed(b, level, pool)
    requires forall id :: (id in pool && pool[id].level == level) || (id in pool' && pool'[id].level == level) ==>
      id in pool && id in pool' && pool[id] == pool'[id]
    ensures Filed(b, level, pool')
  {
    hide LongestRun;
    forall x, r | 0 <= r <= 32 ensures x in ListOf(b, r) <==> BelongsIn(level, pool', x, r) {
      assert BelongsIn(level, pool, x, r) <==> BelongsIn(level, pool', x, r);
    }
  }

  // ---- choosing a heap ------------------------------------------------------------------------

  /** The lowest bucket whose heaps have a run of n blocks. */
  function Pick(b: Bins, n: nat): (k: nat)
    requires 1 <= n <= 32
    ensures n - 1 <= k <= 32
    ensures k < 32 ==> b.availability[k]
    ensures forall j :: n - 1 <= j < k ==> !b.availability[j]
  {
    LowestFrom(b.availability, n - 1)
  }

  /** A heap is picked exactly if some heap of the level has room, and then the tightest. */
  lemma PickOk(b: Bins, level: nat, pool: map<Id, Heap>, n: nat)
    requires Filed(b, level, pool) && 1 <= n <= 32
    ensures Pick(b, n) < 32 <==>
      exists id :: id in pool && pool[id].level == level && FirstFit(pool[id].free, n) < 32
    ensures var k := Pick(b, n); k < 32 ==>
      && b.heaps[k] != []
      && var id := b.heaps[k][0];
        && id in pool && pool[id].level == level && LongestRun(pool[id].free) == k + 1
        && FirstFit(pool[id].free, n) < 32
        && forall x :: x in pool && pool[x].level == level && FirstFit(pool[x].free, n) < 32 ==>
             k + 1 <= LongestRun(pool[x].free)
  {
    hide LongestRun, FirstFit;
    var k := Pick(b, n);
    forall x | x in pool && pool[x].level == level && FirstFit(pool[x].free, n) < 32
      ensures k < 32 && k + 1 <= LongestRun(pool[x].free)
    {
      RoomPicked(b, level, pool, n, x);
    }
    if k < 32 {
      var id := b.heaps[k][0];
      assert id in ListOf(b, k + 1);
      assert BelongsIn(level, pool, id, k + 1);
      FitsIff(pool[id].free, n);
    }
  }

  lemma RoomPicked(b: Bins, level: nat, pool: map<Id, Heap>, n: nat, x: Id)
    requires Filed(b, level, pool) && 1 <= n <= 32
    requires x in pool && pool[x].level == level && FirstFit(pool[x].free, n) < 32
    ensures Pick(b, n) + 1 <= LongestRun(pool[x].free) <= 32
  {
    FitsIff(pool[x].free, n);
    var r := LongestRun(pool[x].free);
    assert BelongsIn(level, pool, x, r);
    assert x in ListOf(b, r);
  }
}
