/** A 32-buddy allocator: masks of free blocks, runs of them, and the allocator that keeps the runs of every length. */
module Legion {
  /** A 32-bit mask; bit k is m[k]. */
  type Mask = m: seq<bool> | |m| == 32 witness seq(32, _ => false)

  function AllFree(): Mask { seq(32, _ => true) }
  function NoneFree(): Mask { seq(32, _ => false) }

  function And(a: Mask, b: Mask): Mask { seq(32, k requires 0 <= k < 32 => a[k] && b[k]) }
  function Or(a: Mask, b: Mask): Mask { seq(32, k requires 0 <= k < 32 => a[k] || b[k]) }
  function Not(a: Mask): Mask { seq(32, k requires 0 <= k < 32 => !a[k]) }
  function ShiftDown(a: Mask): Mask { seq(32, k requires 0 <= k < 32 => k < 31 && a[k + 1]) }

  /** The n bits from bit b on. */
  function Span(b: nat, n: nat): Mask { seq(32, k => b <= k < b + n) }

  /** Blocks b to b + n - 1 exist and are all free. */
  predicate RunFrom(f: Mask, b: nat, n: nat) {
    b + n <= 32 && forall k :: b <= k < b + n ==> f[k]
  }

  predicate HasRun(f: Mask, n: nat) { exists b :: 0 <= b < 32 && RunFrom(f, b, n) }

  /** The lowest set bit at or above b, 32 when there is none. */
  function LowestFrom(f: Mask, b: nat): (r: nat)
    requires b <= 32
    ensures b <= r <= 32
    ensures r < 32 ==> f[r]
    ensures forall k :: b <= k < r ==> !f[k]
    decreases 32 - b
  {
    if b == 32 || f[b] then b else LowestFrom(f, b + 1)
  }

  function TrailingZeroes(f: Mask): nat { LowestFrom(f, 0) }

  /** The lowest run of n free blocks at or above b, 32 when there is none. */
  function FitFrom(f: Mask, n: nat, b: nat): (r: nat)
    requires b <= 32
    ensures b <= r <= 32
    ensures r < 32 ==> RunFrom(f, r, n)
    ensures forall k :: b <= k < r ==> !RunFrom(f, k, n)
    decreases 32 - b
  {
    if b == 32 || RunFrom(f, b, n) then b else FitFrom(f, n, b + 1)
  }

  function FirstFit(f: Mask, n: nat): nat { FitFrom(f, n, 0) }

  /** The length of the longest run of free blocks, at most n. */
  function LongestUpTo(f: Mask, n: nat): (r: nat)
    requires n <= 32
    ensures r <= n
    ensures r > 0 ==> FirstFit(f, r) < 32
    ensures forall k :: r < k <= n ==> FirstFit(f, k) == 32
  {
    hide FirstFit;
    if n == 0 || FirstFit(f, n) < 32 then n else LongestUpTo(f, n - 1)
  }

  function LongestRun(f: Mask): (r: nat)
    ensures r <= 32
  {
    LongestUpTo(f, 32)
  }

  /** A run of n blocks exists, and is found, exactly if n is at most the longest run. */
  lemma FitsIff(f: Mask, n: nat)
    requires n >= 1
    ensures HasRun(f, n) <==> n <= LongestRun(f)
    ensures FirstFit(f, n) < 32 <==> n <= LongestRun(f)
  {
    var r := LongestRun(f);
    assert HasRun(f, n) <==> FirstFit(f, n) < 32;
    if n <= r {
      assert RunFrom(f, FirstFit(f, r), n);
    }
  }

  lemma LongestIs(f: Mask, r: nat)
    requires (r > 0 ==> HasRun(f, r)) && !HasRun(f, r + 1)
    ensures LongestRun(f) == r
  {
    if r > 0 {
      FitsIff(f, r);
    }
    FitsIff(f, r + 1);
  }

  lemma FullIff(f: Mask)
    ensures LongestRun(f) == 0 <==> f == NoneFree()
  {
    if f == NoneFree() {
      assert forall b: nat :: RunFrom(f, b, 1) ==> f[b];
      LongestIs(f, 0);
    } else {
      var k :| 0 <= k < 32 && f[k];
      assert RunFrom(f, k, 1);
      FitsIff(f, 1);
    }
  }

  /** Giving back what was just taken restores the mask. */
  lemma FreeUndoesAllocate(f: Mask, n: nat)
    requires 1 <= n <= LongestRun(f)
    ensures var taken := Span(FirstFit(f, n), n);
      And(f, taken) == taken && And(And(f, Not(taken)), taken) == NoneFree() && Or(And(f, Not(taken)), taken) == f
  {
    FitsIff(f, n);
    var taken := Span(FirstFit(f, n), n);
    assert And(f, taken) == taken;
    assert And(And(f, Not(taken)), taken) == NoneFree();
    assert Or(And(f, Not(taken)), taken) == f;
  }

  /** Bit b of m says that a run of n blocks starts at b. */
  predicate Starts(m: Mask, f: Mask, n: nat) {
    forall b :: 0 <= b < 32 ==> (m[b] <==> RunFrom(f, b, n))
  }

  lemma StartsShrink(m: Mask, f: Mask, n: nat)
    requires n >= 1 && Starts(m, f, n)
    ensures Starts(And(m, ShiftDown(m)), f, n + 1)
  {
    forall b | 0 <= b < 32 ensures And(m, ShiftDown(m))[b] <==> RunFrom(f, b, n + 1) {
      if b < 31 && RunFrom(f, b, n) && RunFrom(f, b + 1, n) {
        assert f[b];
      }
      if RunFrom(f, b, n + 1) {
        assert RunFrom(f, b, n);
        assert RunFrom(f, b + 1, n);
        assert b < 31 ==> m[b + 1];
      }
    }
  }

  lemma StartsLowest(m: Mask, f: Mask, n: nat)
    requires n >= 1 && Starts(m, f, n)
    ensures TrailingZeroes(m) == FirstFit(f, n)
  {
    var r, s := TrailingZeroes(m), FirstFit(f, n);
    assert s < 32 ==> m[s];
    assert r < 32 ==> RunFrom(f, r, n);
  }

  lemma AllFreeFits()
    ensures TrailingZeroes(AllFree()) == 0 && forall n :: 0 <= n <= 32 ==> FirstFit(AllFree(), n) == 0
  {
    forall n | 0 <= n <= 32 ensures FirstFit(AllFree(), n) == 0 {
      assert RunFrom(AllFree(), 0, n);
    }
  }

  /** In a fresh allocator every mask has every bit set, so only the first says where runs of its length start. */
  lemma FreshMasks(n: nat)
    requires 1 <= n <= 32
    ensures Starts(AllFree(), AllFree(), n) <==> n == 1
  {
    assert AllFree()[31] && (RunFrom(AllFree(), 31, n) ==> n == 1);
    if n == 1 {
      assert forall b :: 0 <= b < 32 ==> RunFrom(AllFree(), b, 1);
    }
  }

  class LegionAllocator {
    const freeBlocks: array<Mask>
    var longestRun: nat

    /** For every length that occurs, the lowest start of a run of that length can be read off. In a fresh
        allocator the masks beyond the first say no more than that. */
    ghost predicate Valid()
      reads this, freeBlocks
    {
      && freeBlocks.Length == 32
      && longestRun == LongestRun(freeBlocks[0])
      && forall k :: 0 <= k < longestRun ==> TrailingZeroes(freeBlocks[k]) == FirstFit(freeBlocks[0], k + 1)
    }

    ghost function Free(): Mask
      requires Valid()
      reads this, freeBlocks
    {
      freeBlocks[0]
    }

    constructor ()
      ensures Valid() && Free() == AllFree() && fresh(freeBlocks)
      ensures forall k :: 0 <= k < 32 ==> freeBlocks[k] == AllFree()
    {
      freeBlocks := new Mask[32](_ => AllFree());
      longestRun := 32;
      new;
      assert RunFrom(AllFree(), 0, 32);
      LongestIs(AllFree(), 32);
      AllFreeFits();
    }

    lemma LongestIsValid()
      requires Valid()
      ensures longestRun == LongestRun(Free()) && freeBlocks.Length == 32 && freeBlocks[0] == Free()
    {
    }

    predicate Full()
      requires freeBlocks.Length == 32
      reads freeBlocks
    {
      freeBlocks[0] == NoneFree()
    }

    predicate Empty()
      requires freeBlocks.Length == 32
      reads freeBlocks
    {
      freeBlocks[0] == AllFree()
    }

    method UpdateLongestRun()
      requires freeBlocks.Length == 32
      modifies this, freeBlocks
      ensures Valid() && Free() == old(freeBlocks[0])
      ensures forall k :: 0 <= k < longestRun ==> Starts(freeBlocks[k], Free(), k + 1)
    {
      var f := freeBlocks[0];
      ghost var free := f;
      longestRun := 0;
      while f != NoneFree()
        invariant longestRun <= 32 && freeBlocks[0] == free
        invariant Starts(f, free, longestRun + 1)
        invariant forall k :: 0 <= k < longestRun ==> Starts(freeBlocks[k], free, k + 1)
        invariant longestRun > 0 ==> HasRun(free, longestRun)
        decreases 32 - longestRun
      {
        var b :| 0 <= b < 32 && f[b];
        assert RunFrom(free, b, longestRun + 1);
        if longestRun == 0 {
          assert f == free;
        }
        StartsShrink(f, free, longestRun + 1);
        freeBlocks[longestRun] := f;
        longestRun := longestRun + 1;
        f := And(f, ShiftDown(f));
      }
      assert !HasRun(free, longestRun + 1);
      LongestIs(free, longestRun);
      forall k | 0 <= k < longestRun ensures TrailingZeroes(freeBlocks[k]) == FirstFit(free, k + 1) {
        StartsLowest(freeBlocks[k], free, k + 1);
      }
    }

    /** Takes the lowest run of numBlocks free blocks. */
    method Allocate(numBlocks: nat) returns (mask: Mask, offset: nat)
      requires Valid() && 1 <= numBlocks <= longestRun
      modifies this, freeBlocks
      ensures Valid() && offset == FirstFit(old(Free()), numBlocks) && mask == Span(offset, numBlocks)
      ensures RunFrom(old(Free()), offset, numBlocks)
      ensures Free() == And(old(Free()), Not(mask))
    {
      hide LongestRun, FitFrom, TrailingZeroes, Starts, And, Not, Span;
      FitsIff(Free(), numBlocks);
      offset := TrailingZeroes(freeBlocks[numBlocks - 1]);
      mask := Span(offset, numBlocks);
      freeBlocks[0] := And(freeBlocks[0], Not(mask));
      UpdateLongestRun();
    }

    method Release(mask: Mask)
      requires Valid() && And(Free(), mask) == NoneFree()
      modifies this, freeBlocks
      ensures Valid() && Free() == Or(old(Free()), mask)
    {
      hide LongestRun, FirstFit, TrailingZeroes, Starts, And, Or;
      freeBlocks[0] := Or(freeBlocks[0], mask);
      UpdateLongestRun();
    }
  }
}
