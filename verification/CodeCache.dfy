/** The cache of compiled regions, kept coherent with instruction memory by comparing 64-word blocks. */
module CodeCache {
  import opened Options
  import opened Words
  import opened Mips
  import opened RegionCode
  import opened StaticEnd
  import opened RegionCompiler

  const CODE_BLOCKS: nat := 16

  // ---- the mask of dirty blocks -------------------------------------------------------------

  /** A change in block i also concerns the regions that start in the block before it. */
  function Mark(i: nat): nat { 3 * Pow2(i) / 2 }

  lemma {:induction false} ZeroBit(k: nat)
    ensures !BitAt(0, k)
  {
    if k > 0 {
      ZeroBit(k - 1);
    }
  }

  lemma {:induction false} ThreeBits(j: nat, k: nat)
    ensures BitAt(3 * Pow2(j), k) <==> k == j || k == j + 1
  {
    if k == 0 {
    } else if j > 0 {
      assert 3 * Pow2(j) / 2 == 3 * Pow2(j - 1);
      ThreeBits(j - 1, k - 1);
    } else if k > 1 {
      ZeroBit(k - 2);
    }
  }

  /** Marking block i sets exactly the bits of block i and of the block before it. */
  lemma MarkBits(i: nat, k: nat)
    ensures BitAt(Mark(i), k) <==> k == i || k + 1 == i
  {
    if i > 0 {
      ThreeBits(i - 1, k);
      assert Mark(i) == 3 * Pow2(i - 1);
    } else if k > 0 {
      ZeroBit(k - 1);
    }
  }

  // ---- coherence on values ------------------------------------------------------------------

  function Block(m: seq<Instr>, i: nat): seq<Instr>
    requires |m| == IMEM_WORDS && i < CODE_BLOCKS
  {
    m[i * CODE_BLOCK_WORDS..(i + 1) * CODE_BLOCK_WORDS]
  }

  predicate Changed(cached: seq<Instr>, imem: seq<Instr>, i: nat)
    requires |cached| == |imem| == IMEM_WORDS
  {
    i < CODE_BLOCKS && Block(cached, i) != Block(imem, i)
  }

  /** A change that the regions starting in block k may see. */
  predicate Concerned(cached: seq<Instr>, imem: seq<Instr>, k: nat)
    requires |cached| == |imem| == IMEM_WORDS
  {
    Changed(cached, imem, k) || Changed(cached, imem, k + 1)
  }

  /** Every changed block is marked, and so is the block before it. */
  predicate Tracks(dirty: nat, cached: seq<Instr>, imem: seq<Instr>)
    requires |cached| == |imem| == IMEM_WORDS
  {
    forall i :: 0 <= i < CODE_BLOCKS && Changed(cached, imem, i) ==>
      BitAt(dirty, i) && (i > 0 ==> BitAt(dirty, i - 1))
  }

  /** Every block pointer leads to the code of the region as the cached copy of memory has it. */
  predicate Coherent(blocks: seq<Option<Code>>, cached: seq<Instr>)
    requires |blocks| == |cached| == IMEM_WORDS
  {
    forall w :: 0 <= w < IMEM_WORDS && blocks[w].Some? ==> blocks[w].value == RegionCodeAt(cached, w)
  }

  function RegionCodeAt(imem: seq<Instr>, w: nat): Code
    requires |imem| == IMEM_WORDS && w < IMEM_WORDS
  {
    RegionAtOk(imem, w);
    CompileRegion(RegionAt(imem, w))
  }

  /** A region that starts in an unmarked block reads the same words before and after. */
  lemma UnmarkedSame(dirty: nat, cached: seq<Instr>, imem: seq<Instr>, w: nat)
    requires |cached| == |imem| == IMEM_WORDS && w < IMEM_WORDS
    requires Tracks(dirty, cached, imem) && !BitAt(dirty, w / CODE_BLOCK_WORDS)
    ensures RegionAt(cached, w) == RegionAt(imem, w)
  {
    hide RegionAt, WindowEnd;
    var i := w / CODE_BLOCK_WORDS;
    WindowOk(w);
    forall k | w <= k < WindowEnd(w) ensures cached[k] == imem[k] {
      var b := k / CODE_BLOCK_WORDS;
      assert b == i || b == i + 1;
      assert !Changed(cached, imem, b);
      assert cached[k] == Block(cached, b)[k - b * CODE_BLOCK_WORDS];
      assert imem[k] == Block(imem, b)[k - b * CODE_BLOCK_WORDS];
    }
    assert cached[w..WindowEnd(w)] == imem[w..WindowEnd(w)];
    RegionLocal(cached, imem, w);
  }

  /** Dropping the pointers of marked blocks makes the rest right for the memory as it is now. */
  lemma CleanedCoherent(dirty: nat, blocks: seq<Option<Code>>, blocks': seq<Option<Code>>,
                        cached: seq<Instr>, imem: seq<Instr>)
    requires |blocks| == |blocks'| == |cached| == |imem| == IMEM_WORDS
    requires Tracks(dirty, cached, imem) && Coherent(blocks, cached)
    requires forall w :: 0 <= w < IMEM_WORDS ==>
      blocks'[w] == if BitAt(dirty, w / CODE_BLOCK_WORDS) then None else blocks[w]
    ensures Coherent(blocks', imem)
  {
    hide RegionAt, CompileRegion, Tracks;
    forall w | 0 <= w < IMEM_WORDS && blocks'[w].Some? ensures blocks'[w].value == RegionCodeAt(imem, w) {
      UnmarkedSame(dirty, cached, imem, w);
    }
  }

  /** No two of these memory contents have different regions at the same address with the same hash. */
  ghost predicate CollisionFree(hash: (nat, seq<Instr>) -> Word64, images: set<seq<Instr>>) {
    && (forall m :: m in images ==> |m| == IMEM_WORDS)
    && (forall w, m, m' | 0 <= w < IMEM_WORDS && m in images && m' in images ::
         hash(w, RegionAt(m, w).words) == hash(w, RegionAt(m', w).words) ==> RegionAt(m, w) == RegionAt(m', w))
  }

  /** A hash that tells regions apart has no collisions. */
  lemma InjectiveHash(hash: (nat, seq<Instr>) -> Word64, images: set<seq<Instr>>)
    requires forall m :: m in images ==> |m| == IMEM_WORDS
    requires forall w: nat, a, b :: hash(w, a) == hash(w, b) ==> a == b
    ensures CollisionFree(hash, images)
  {
    hide EndOf, WindowEnd;
    forall w, m, m' | 0 <= w < IMEM_WORDS && m in images && m' in images
      ensures RegionAt(m, w).base == RegionAt(m', w).base == w
    {
      RegionBase(m, w);
      RegionBase(m', w);
    }
  }

  lemma RegionBase(imem: seq<Instr>, w: nat)
    requires |imem| == IMEM_WORDS && w < IMEM_WORDS
    ensures RegionAt(imem, w).base == w
  {
    hide EndOf, WindowEnd;
    WindowOk(w);
    RegionCloses(imem[w..WindowEnd(w)], w);
  }

  /** Everything kept under a hash was compiled from one of these memory contents, under its hash. */
  ghost predicate Kept(kept: map<(nat, Word64), Code>, hash: (nat, seq<Instr>) -> Word64, images: set<seq<Instr>>) {
    forall w, h :: (w, h) in kept ==> w < IMEM_WORDS && exists m :: WasCompiled(kept, hash, images, w, h, m)
  }

  ghost predicate WasCompiled(kept: map<(nat, Word64), Code>, hash: (nat, seq<Instr>) -> Word64,
                              images: set<seq<Instr>>, w: nat, h: Word64, m: seq<Instr>) {
    && (w, h) in kept && m in images && |m| == IMEM_WORDS && w < IMEM_WORDS
    && h == hash(w, RegionAt(m, w).words) && kept[(w, h)] == RegionCodeAt(m, w)
  }

  // ---- the code cache -----------------------------------------------------------------------

  class Cpu {
    const imem: array<Instr>
    const cachedImem: array<Instr>
    const blocks: array<Option<Code>>
    const hash: (nat, seq<Instr>) -> Word64
    var cachedBlocks: map<(nat, Word64), Code>
    var dirtyBlocks: nat

    ghost predicate Sizes() {
      imem.Length == cachedImem.Length == blocks.Length == IMEM_WORDS && imem != cachedImem
    }

    /** Holds whenever no method is running. */
    ghost predicate Valid(images: set<seq<Instr>>)
      reads this, cachedImem, blocks
    {
      Sizes() && Coherent(blocks[..], cachedImem[..]) && Kept(cachedBlocks, hash, images)
    }

    /** All changes of instruction memory have been noticed. */
    ghost predicate Noticed()
      requires Sizes()
      reads this, imem, cachedImem
    {
      Tracks(dirtyBlocks, cachedImem[..], imem[..])
    }

    constructor (start: array<Instr>, zero: Instr, hash: (nat, seq<Instr>) -> Word64)
      requires start.Length == IMEM_WORDS
      ensures imem == start && this.hash == hash && fresh(cachedImem) && fresh(blocks)
      ensures Valid({}) && dirtyBlocks == 0 && cachedBlocks == map[]
    {
      imem, this.hash := start, hash;
      cachedImem := new Instr[IMEM_WORDS](_ => zero);
      blocks := new Option<Code>[IMEM_WORDS](_ => None);
      cachedBlocks, dirtyBlocks := map[], 0;
    }

    method InvalidateImem()
      requires Sizes()
      modifies this`dirtyBlocks
      ensures forall k :: 0 <= k < CODE_BLOCKS ==>
        (BitAt(dirtyBlocks, k) <==> BitAt(old(dirtyBlocks), k) || Concerned(cachedImem[..], imem[..], k))
      ensures Noticed()
    {
      hide Mark, Changed;
      ghost var cached, image := cachedImem[..], imem[..];
      var i := 0;
      while i < CODE_BLOCKS
        invariant i <= CODE_BLOCKS
        invariant forall k :: 0 <= k < CODE_BLOCKS ==>
          (BitAt(dirtyBlocks, k) <==> BitAt(old(dirtyBlocks), k) || ConcernedBefore(cached, image, i, k))
      {
        var at := i * CODE_BLOCK_WORDS;
        var changed := cachedImem[at..at + CODE_BLOCK_WORDS] != imem[at..at + CODE_BLOCK_WORDS];
        assert changed == Changed(cached, image, i) by {
          SameBlock(cachedImem, imem, i);
        }
        ghost var before := dirtyBlocks;
        if changed {
          SetMark(dirtyBlocks, i);
          dirtyBlocks := Bits(BOr, dirtyBlocks, Mark(i), 32);
        }
        forall k | 0 <= k < CODE_BLOCKS
          ensures BitAt(dirtyBlocks, k) <==> BitAt(old(dirtyBlocks), k) || ConcernedBefore(cached, image, i + 1, k)
        {
          assert BitAt(before, k) <==> BitAt(old(dirtyBlocks), k) || ConcernedBefore(cached, image, i, k);
        }
        i := i + 1;
      }
      forall k | 0 <= k < CODE_BLOCKS
        ensures ConcernedBefore(cached, image, CODE_BLOCKS, k) <==> Concerned(cached, image, k)
      {
        LastBlock(cached, image, k);
      }
      MarkedTracks(dirtyBlocks, cached, image);
    }

    /** A word transferred by the RSP's own DMA marks its block at once. */
    method DmaWrite(at: nat, word: Instr) returns (leave: bool)
      requires Sizes() && at < IMEM_WORDS
      modifies this`dirtyBlocks, imem
      ensures imem[..] == old(imem[..])[at := word]
      ensures leave && (old(Noticed()) ==> Noticed())
    {
      hide Mark;
      var block := at / CODE_BLOCK_WORDS;
      SetMark(dirtyBlocks, block);
      ZeroBit(block);
      if Noticed() {
        StillTracks(dirtyBlocks, Bits(BOr, dirtyBlocks, Mark(block), 32), cachedImem[..], imem[..], at, word);
      }
      dirtyBlocks := Bits(BOr, dirtyBlocks, Mark(block), 32);
      imem[at] := word;
      assert imem[..] == old(imem[..])[at := word];
      leave := dirtyBlocks != 0;
    }

    method InvalidateCode(ghost images: set<seq<Instr>>)
      requires Valid(images) && Noticed()
      modifies this`dirtyBlocks, blocks, cachedImem
      ensures Valid(images) && dirtyBlocks == 0 && cachedImem[..] == imem[..]
      ensures forall w :: 0 <= w < IMEM_WORDS ==>
        blocks[w] == if BitAt(old(dirtyBlocks), w / CODE_BLOCK_WORDS) then None else old(blocks[w])
    {
      hide RegionAt, CompileRegion, Tracks;
      forall k: nat ensures !BitAt(0, k) {
        ZeroBit(k);
      }
      ghost var cached0, blocks0 := cachedImem[..], blocks[..];
      if dirtyBlocks == 0 {
        NothingChanged(dirtyBlocks, cached0, imem[..]);
        return;
      }
      var i := 0;
      while i < CODE_BLOCKS
        invariant i <= CODE_BLOCKS && dirtyBlocks == old(dirtyBlocks)
        invariant forall w :: 0 <= w < IMEM_WORDS ==>
          blocks[w] == if w < i * CODE_BLOCK_WORDS && BitAt(dirtyBlocks, w / CODE_BLOCK_WORDS) then None else blocks0[w]
        invariant forall w :: 0 <= w < IMEM_WORDS ==>
          cachedImem[w] ==
          if w < i * CODE_BLOCK_WORDS && BitAt(dirtyBlocks, w / CODE_BLOCK_WORDS) then imem[w] else cached0[w]
      {
        if BitAt(dirtyBlocks, i) {
          forall w | i * CODE_BLOCK_WORDS <= w < (i + 1) * CODE_BLOCK_WORDS {
            blocks[w] := None;
          }
          forall w | i * CODE_BLOCK_WORDS <= w < (i + 1) * CODE_BLOCK_WORDS {
            cachedImem[w] := imem[w];
          }
        }
        i := i + 1;
      }
      CopiedAll(dirtyBlocks, cached0, imem[..], cachedImem[..]);
      CleanedCoherent(dirtyBlocks, blocks0, blocks[..], cached0, imem[..]);
      dirtyBlocks := 0;
    }

    /** The code of the region at an address, compiled at most once per content. */
    method GetJitBlock(pc: nat, ghost images: set<seq<Instr>>) returns (code: Code)
      requires Valid(images) && cachedImem[..] == imem[..] && CollisionFree(hash, images + {imem[..]})
      modifies this`cachedBlocks, blocks
      ensures Valid(images + {imem[..]})
      ensures code == RegionCodeAt(imem[..], Word(pc))
      ensures blocks[..] == old(blocks[..])[Word(pc) := Some(code)]
    {
      hide RegionAt, CompileRegion, CollisionFree, Kept, WasCompiled, Scan;
      ghost var image := imem[..];
      var word := Word(pc);
      KeptGrows(cachedBlocks, hash, images, images + {image});
      if blocks[word].Some? {
        code := blocks[word].value;
        assert blocks[..] == blocks[..][word := Some(code)];
        return;
      }
      WindowOk(word);
      SameWindow(pc);
      var end := Min((pc % 0x1000 + 512) / 256 * 64, IMEM_WORDS);
      end := AnalyzeStaticEnd(imem, word, end);
      var h := hash(word, imem[word..end]);
      RegionIs(image, word, end);
      assert imem[word..end] == image[word..end];
      if (word, h) in cachedBlocks {
        code := cachedBlocks[(word, h)];
        KeptRight(cachedBlocks, hash, images, word, image);
      } else {
        code := JitRegion(imem, word, end - word);
        assert code == RegionCodeAt(image, word) by {
          assert imem[word..word + (end - word)] == image[word..end];
        }
        KeptInsert(cachedBlocks, hash, images + {image}, word, image);
        cachedBlocks := cachedBlocks[(word, h) := code];
      }
      blocks[word] := Some(code);
      assert blocks[..] == old(blocks[..])[word := Some(code)];
    }
  }

  lemma SameWindow(pc: nat)
    ensures Min((pc % 0x1000 + 512) / 256 * 64, IMEM_WORDS) == WindowEnd(Word(pc))
  {
  }

  lemma RegionIs(imem: seq<Instr>, w: nat, end: nat)
    requires |imem| == IMEM_WORDS && w < WindowEnd(w) <= IMEM_WORDS && w <= end <= IMEM_WORDS
    requires end == EndOf(imem[w..WindowEnd(w)], w)
    ensures RegionAt(imem, w) == Region(w, imem[w..end])
    ensures |imem[w..end]| > 0 ==> RegionCodeAt(imem, w) == CompileRegion(Region(w, imem[w..end]))
  {
  }

  lemma KeptGrows(kept: map<(nat, Word64), Code>, hash: (nat, seq<Instr>) -> Word64,
                  images: set<seq<Instr>>, images': set<seq<Instr>>)
    requires Kept(kept, hash, images) && images <= images'
    ensures Kept(kept, hash, images')
  {
    hide RegionAt, RegionCodeAt;
    forall w, h | (w, h) in kept ensures w < IMEM_WORDS && exists m :: WasCompiled(kept, hash, images', w, h, m) {
      var m :| WasCompiled(kept, hash, images, w, h, m);
      assert WasCompiled(kept, hash, images', w, h, m);
    }
  }

  /** Without a collision, the code kept under a region's hash is that region's code. */
  lemma KeptRight(kept: map<(nat, Word64), Code>, hash: (nat, seq<Instr>) -> Word64,
                  images: set<seq<Instr>>, w: nat, image: seq<Instr>)
    requires |image| == IMEM_WORDS && w < IMEM_WORDS
    requires Kept(kept, hash, images) && CollisionFree(hash, images + {image})
    requires (w, hash(w, RegionAt(image, w).words)) in kept
    ensures kept[(w, hash(w, RegionAt(image, w).words))] == RegionCodeAt(image, w)
  {
    hide RegionAt, CompileRegion;
    var h := hash(w, RegionAt(image, w).words);
    var m :| WasCompiled(kept, hash, images, w, h, m);
    assert RegionAt(m, w) == RegionAt(image, w);
  }

  lemma KeptInsert(kept: map<(nat, Word64), Code>, hash: (nat, seq<Instr>) -> Word64,
                   images: set<seq<Instr>>, w: nat, image: seq<Instr>)
    requires |image| == IMEM_WORDS && w < IMEM_WORDS && image in images && Kept(kept, hash, images)
    requires (w, hash(w, RegionAt(image, w).words)) !in kept
    ensures Kept(kept[(w, hash(w, RegionAt(image, w).words)) := RegionCodeAt(image, w)], hash, images)
  {
    hide RegionAt, RegionCodeAt;
    var h := hash(w, RegionAt(image, w).words);
    var kept' := kept[(w, h) := RegionCodeAt(image, w)];
    forall v, g | (v, g) in kept' ensures v < IMEM_WORDS && exists m :: WasCompiled(kept', hash, images, v, g, m) {
      if v == w && g == h {
        assert WasCompiled(kept', hash, images, v, g, image);
      } else {
        var m :| WasCompiled(kept, hash, images, v, g, m);
        assert WasCompiled(kept', hash, images, v, g, m);
      }
    }
  }

  lemma SetMark(dirty: nat, i: nat)
    requires i < CODE_BLOCKS
    ensures forall k :: 0 <= k < CODE_BLOCKS ==>
      (BitAt(Bits(BOr, dirty, Mark(i), 32), k) <==> BitAt(dirty, k) || k == i || k + 1 == i)
  {
    forall k | 0 <= k < CODE_BLOCKS
      ensures BitAt(Bits(BOr, dirty, Mark(i), 32), k) <==> BitAt(dirty, k) || k == i || k + 1 == i
    {
      BitsAt(BOr, dirty, Mark(i), 32, k);
      MarkBits(i, k);
    }
  }

  lemma SameBlock(cached: array<Instr>, imem: array<Instr>, i: nat)
    requires cached.Length == imem.Length == IMEM_WORDS && i < CODE_BLOCKS
    ensures (cached[i * CODE_BLOCK_WORDS..i * CODE_BLOCK_WORDS + CODE_BLOCK_WORDS] !=
             imem[i * CODE_BLOCK_WORDS..i * CODE_BLOCK_WORDS + CODE_BLOCK_WORDS]) ==
            Changed(cached[..], imem[..], i)
  {
    var at := i * CODE_BLOCK_WORDS;
    assert cached[at..at + CODE_BLOCK_WORDS] == Block(cached[..], i);
    assert imem[at..at + CODE_BLOCK_WORDS] == Block(imem[..], i);
  }

  /** Concerned, as far as the first i blocks tell. */
  predicate ConcernedBefore(cached: seq<Instr>, imem: seq<Instr>, i: nat, k: nat)
    requires |cached| == |imem| == IMEM_WORDS
  {
    (k < i && Changed(cached, imem, k)) || (k + 1 < i && Changed(cached, imem, k + 1))
  }

  lemma LastBlock(cached: seq<Instr>, imem: seq<Instr>, k: nat)
    requires |cached| == |imem| == IMEM_WORDS && k < CODE_BLOCKS
    ensures ConcernedBefore(cached, imem, CODE_BLOCKS, k) <==> Concerned(cached, imem, k)
  {
  }

  lemma MarkedTracks(dirty: nat, cached: seq<Instr>, imem: seq<Instr>)
    requires |cached| == |imem| == IMEM_WORDS
    requires forall k :: 0 <= k < CODE_BLOCKS && Concerned(cached, imem, k) ==> BitAt(dirty, k)
    ensures Tracks(dirty, cached, imem)
  {
    forall i | 0 <= i < CODE_BLOCKS && Changed(cached, imem, i)
      ensures BitAt(dirty, i) && (i > 0 ==> BitAt(dirty, i - 1))
    {
      assert Concerned(cached, imem, i);
      assert i > 0 ==> Concerned(cached, imem, i - 1);
    }
  }

  /** Writing a word and marking its block leaves no change unnoticed. */
  lemma StillTracks(dirty: nat, dirty': nat, cached: seq<Instr>, imem: seq<Instr>, at: nat, word: Instr)
    requires |cached| == |imem| == IMEM_WORDS && at < IMEM_WORDS && Tracks(dirty, cached, imem)
    requires forall k :: 0 <= k < CODE_BLOCKS ==>
      (BitAt(dirty', k) <==> BitAt(dirty, k) || k == at / CODE_BLOCK_WORDS || k + 1 == at / CODE_BLOCK_WORDS)
    ensures Tracks(dirty', cached, imem[at := word])
  {
    var imem' := imem[at := word];
    forall i | 0 <= i < CODE_BLOCKS && Changed(cached, imem', i)
      ensures BitAt(dirty', i) && (i > 0 ==> BitAt(dirty', i - 1))
    {
      if i != at / CODE_BLOCK_WORDS {
        assert Block(imem', i) == Block(imem, i);
        assert Changed(cached, imem, i);
      }
    }
  }

  lemma NothingChanged(dirty: nat, cached: seq<Instr>, imem: seq<Instr>)
    requires |cached| == |imem| == IMEM_WORDS && Tracks(dirty, cached, imem)
    requires forall k: nat :: !BitAt(dirty, k)
    ensures cached == imem
  {
    CopiedAll(dirty, cached, imem, cached);
  }

  lemma CopiedAll(dirty: nat, cached: seq<Instr>, imem: seq<Instr>, cached': seq<Instr>)
    requires |cached| == |imem| == |cached'| == IMEM_WORDS && Tracks(dirty, cached, imem)
    requires forall w :: 0 <= w < IMEM_WORDS ==>
      cached'[w] == if BitAt(dirty, w / CODE_BLOCK_WORDS) then imem[w] else cached[w]
    ensures cached' == imem
  {
    forall w | 0 <= w < IMEM_WORDS ensures cached'[w] == imem[w] {
      var b := w / CODE_BLOCK_WORDS;
      assert cached[w] == Block(cached, b)[w - b * CODE_BLOCK_WORDS];
      assert imem[w] == Block(imem, b)[w - b * CODE_BLOCK_WORDS];
      assert !BitAt(dirty, b) ==> !Changed(cached, imem, b);
    }
  }
}
