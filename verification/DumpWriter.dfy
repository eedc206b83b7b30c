/** The dump writer: a file that grows record by record, and shadow copies that tell which blocks changed. */
module DumpWriter {
  import opened Words
  import opened DumpFormat
  import opened DumpReplay

  class RDPDumpWriter {
    var isOpen: bool
    var file: seq<Byte>
    var dramCache: array<Byte>
    var hiddenDramCache: array<Byte>
    ghost var records: seq<Record>
    ghost var sizes: (Word32, Word32)

    /** What is on disk is a header and the records written so far. */
    ghost predicate Valid()
      reads this, dramCache, hiddenDramCache
    {
      && dramCache != hiddenDramCache
      && AllOk(records)
      && (isOpen ==>
            && file == Header(sizes.0, sizes.1) + EncodeAll(records)
            && MemoriesOk(Caches()))
    }

    ghost function Caches(): Memories
      reads this, dramCache, hiddenDramCache
    {
      Memories(dramCache[..], hiddenDramCache[..])
    }

    constructor ()
      ensures Valid() && !isOpen && fresh(dramCache) && fresh(hiddenDramCache)
    {
      isOpen, file, records, sizes := false, [], [], (0, 0);
      dramCache := new Byte[0];
      hiddenDramCache := new Byte[0];
    }

    /** Starts a new file; fails if one is open or the file cannot be created. */
    method Init(canCreate: bool, dramSize: Word32, hiddenDramSize: Word32) returns (ok: bool)
      requires Valid() && SizeOk(dramSize) && SizeOk(hiddenDramSize)
      modifies this
      ensures Valid() && ok == (!old(isOpen) && canCreate)
      ensures ok ==> isOpen && records == [] && sizes == (dramSize, hiddenDramSize)
      ensures ok ==> Caches() == Start(dramSize, hiddenDramSize)
      ensures ok ==> fresh(dramCache) && fresh(hiddenDramCache)
      ensures !ok ==> isOpen == old(isOpen) && file == old(file)
    {
      if isOpen {
        return false;
      }
      dramCache := new Byte[dramSize](_ => 0);
      hiddenDramCache := new Byte[hiddenDramSize](_ => 0);
      records, sizes := [], (dramSize, hiddenDramSize);
      if !canCreate {
        return false;
      }
      file := MAGIC;
      file := file + Le32(dramSize);
      file := file + Le32(hiddenDramSize);
      assert file == Header(dramSize, hiddenDramSize) + EncodeAll([]);
      isOpen := true;
      ok := true;
    }

    method WriteRecord(r: Record)
      requires Valid() && isOpen && RecordOk(r)
      modifies this`file, this`records
      ensures Valid() && records == old(records) + [r]
    {
      hide Header, Encode, EncodeAll, MemoriesOk;
      EncodeSnoc(Header(sizes.0, sizes.1), records, r);
      file := file + Encode(r);
      records := records + [r];
    }

    /** Writes the blocks that differ from the cache and brings the cache up to date. */
    method FlushWith(hidden: bool, memory: array<Byte>, cache: array<Byte>)
      requires Valid() && isOpen && cache == (if hidden then hiddenDramCache else dramCache)
      requires memory.Length == cache.Length && memory != dramCache && memory != hiddenDramCache
      modifies this`file, this`records, cache
      ensures Valid() && records == old(records) + RecordsOf(old(Caches()), FlushMemory(hidden, memory[..]))
      ensures Caches() == ShadowAfter(old(Caches()), FlushMemory(hidden, memory[..]))
    {
      hide EncodeAll, Header, Encode, Updates, Synced, Patched, BlockOf;
      ghost var shadow, image, before := cache[..], memory[..], records;
      var size := memory.Length;
      assert SizeOk(size);
      var i := 0;
      ghost var n := 0;
      SyncedEnds(shadow, image);
      NoUpdates(hidden, shadow, image);
      while i < size
        invariant i == BLOCK_SIZE * n <= size
        invariant Valid() && isOpen
        invariant cache[..] == Synced(shadow, image, n)
        invariant records == before + Updates(hidden, shadow, image, n)
        decreases size - i
      {
        var changed := memory[i..i + BLOCK_SIZE] != cache[i..i + BLOCK_SIZE];
        BlockIs(image, n);
        SyncedBlock(shadow, image, n);
        PatchedBlock(shadow, image, n);
        UpdatesStep(hidden, shadow, image, n);
        if changed {
          WriteRecord(Update(hidden, i, memory[i..i + BLOCK_SIZE]));
          CopyBlock(memory, cache, i);
        }
        i, n := i + BLOCK_SIZE, n + 1;
      }
      WriteRecord(Flushed(hidden));
    }

    method CopyBlock(memory: array<Byte>, cache: array<Byte>, i: nat)
      requires memory.Length == cache.Length && i + BLOCK_SIZE <= cache.Length && memory != cache
      modifies cache
      ensures cache[..] == Patched(old(cache[..]), i, memory[i..i + BLOCK_SIZE])
    {
      forall k | i <= k < i + BLOCK_SIZE {
        cache[k] := memory[k];
      }
    }

    method FlushDram(memory: array<Byte>)
      requires Valid() && (isOpen ==> memory.Length == dramCache.Length)
      requires memory != dramCache && memory != hiddenDramCache
      modifies this`file, this`records, dramCache
      ensures Valid() && isOpen == old(isOpen)
      ensures isOpen ==> records == old(records) + RecordsOf(old(Caches()), FlushMemory(false, memory[..]))
      ensures isOpen ==> Caches() == ShadowAfter(old(Caches()), FlushMemory(false, memory[..]))
    {
      if isOpen {
        FlushWith(false, memory, dramCache);
      }
    }

    method FlushHiddenDram(memory: array<Byte>)
      requires Valid() && (isOpen ==> memory.Length == hiddenDramCache.Length)
      requires memory != dramCache && memory != hiddenDramCache
      modifies this`file, this`records, hiddenDramCache
      ensures Valid() && isOpen == old(isOpen)
      ensures isOpen ==> records == old(records) + RecordsOf(old(Caches()), FlushMemory(true, memory[..]))
      ensures isOpen ==> Caches() == ShadowAfter(old(Caches()), FlushMemory(true, memory[..]))
    {
      if isOpen {
        FlushWith(true, memory, hiddenDramCache);
      }
    }

    /** Every other call writes one record, unless no file is open. */
    method EmitCall(c: Call)
      requires Valid() && !c.FlushMemory? && (c.EmitCommand? ==> |c.words| < TWO_32)
      modifies this`file, this`records
      ensures Valid()
      ensures isOpen ==> records == old(records) + RecordsOf(Caches(), c)
    {
      if !isOpen {
        return;
      }
      match c
      case EmitCommand(op, words) => WriteRecord(Command(op, words));
      case SetViRegister(reg, value) => WriteRecord(SetVi(reg, value));
      case FrameEnds => WriteRecord(EndFrame);
      case CommandListEnds => WriteRecord(SignalComplete);
    }

    /** Marks the end of the file and closes it. */
    method End()
      requires Valid()
      modifies this
      ensures Valid() && !isOpen
      ensures old(isOpen) ==> file == Header(old(sizes).0, old(sizes).1) + EncodeAll(old(records) + [Eof])
      ensures !old(isOpen) ==> file == old(file)
    {
      if isOpen {
        WriteRecord(Eof);
        isOpen := false;
        dramCache := new Byte[0];
        hiddenDramCache := new Byte[0];
      }
    }
  }

  lemma EncodeSnoc(header: seq<Byte>, rs: seq<Record>, r: Record)
    requires AllOk(rs) && RecordOk(r)
    ensures AllOk(rs + [r]) && header + EncodeAll(rs + [r]) == header + EncodeAll(rs) + Encode(r)
  {
    hide Encode;
    EncodeAllConcat(rs, [r]);
    assert EncodeAll([r]) == Encode(r) + EncodeAll([r][1..]);
  }

  lemma NoUpdates(hidden: bool, shadow: seq<Byte>, memory: seq<Byte>)
    requires |shadow| == |memory| < TWO_32
    ensures Updates(hidden, shadow, memory, 0) == []
  {
  }

  lemma UpdatesStep(hidden: bool, shadow: seq<Byte>, memory: seq<Byte>, n: nat)
    requires |shadow| == |memory| < TWO_32 && BLOCK_SIZE * (n + 1) <= |memory|
    ensures BlockOf(shadow, n) == BlockOf(memory, n) ==>
      Updates(hidden, shadow, memory, n + 1) == Updates(hidden, shadow, memory, n)
    ensures BlockOf(shadow, n) != BlockOf(memory, n) ==>
      Updates(hidden, shadow, memory, n + 1) ==
      Updates(hidden, shadow, memory, n) + [Update(hidden, BLOCK_SIZE * n, BlockOf(memory, n))]
  {
  }

  lemma BlockIs(m: seq<Byte>, n: nat)
    requires BLOCK_SIZE * (n + 1) <= |m|
    ensures m[BLOCK_SIZE * n..BLOCK_SIZE * n + BLOCK_SIZE] == BlockOf(m, n) && |BlockOf(m, n)| == BLOCK_SIZE
  {
  }

  /** A block not yet visited is still as it was. */
  lemma SyncedBlock(shadow: seq<Byte>, memory: seq<Byte>, n: nat)
    requires |shadow| == |memory| && BLOCK_SIZE * (n + 1) <= |memory|
    ensures |Synced(shadow, memory, n)| == |memory|
    ensures Synced(shadow, memory, n)[BLOCK_SIZE * n..BLOCK_SIZE * n + BLOCK_SIZE] == BlockOf(shadow, n)
  {
  }

  /** Writes a whole dump. Decoding the file and replaying it from zeroed memories recovers every call. */
  method WriteDump(dramSize: Word32, hiddenDramSize: Word32, cs: seq<Call>) returns (file: seq<Byte>)
    requires SizeOk(dramSize) && SizeOk(hiddenDramSize) && CallsOk(Start(dramSize, hiddenDramSize), cs)
    ensures DecodeFile(file).Some?
    ensures var f := DecodeFile(file).value;
      f.dramSize == dramSize && f.hiddenSize == hiddenDramSize &&
      Replay(Replayer(Start(f.dramSize, f.hiddenSize), []), f.records).seen == cs
  {
    hide EncodeAll, Header, Replay, RecordsOf, DecodeFile;
    var w := new RDPDumpWriter();
    ghost var m := Start(dramSize, hiddenDramSize);
    var ok := w.Init(true, dramSize, hiddenDramSize);
    for k := 0 to |cs|
      invariant fresh(w) && fresh(w.dramCache) && fresh(w.hiddenDramCache)
      invariant w.Valid() && w.isOpen && w.sizes == (dramSize, hiddenDramSize)
      invariant CallsOk(m, cs[..k])
      invariant w.Caches() == Shadow(m, cs[..k]) && w.records == Written(m, cs[..k])
    {
      assert cs[..k + 1][..k] == cs[..k];
      assert CallOk(m, cs[k]);
      SizesKept(m, cs[..k], cs[k]);
      if cs[k].FlushMemory? {
        var bytes := cs[k].memory;
        var memory := new Byte[|bytes|](i requires 0 <= i < |bytes| => bytes[i]);
        assert memory[..] == bytes;
        if cs[k].hidden {
          w.FlushHiddenDram(memory);
        } else {
          w.FlushDram(memory);
        }
      } else {
        w.EmitCall(cs[k]);
      }
    }
    assert cs[..|cs|] == cs;
    ghost var rs := w.records;
    w.End();
    file := w.file;
    DecodeFileOk(File(dramSize, hiddenDramSize, rs + [Eof]));
    ReplayRecovers(m, cs);
    ReplayEof(Replayer(m, []), rs);
  }

  lemma ReplayEof(p: Replayer, rs: seq<Record>)
    ensures Replay(p, rs + [Eof]) == Replay(p, rs)
  {
    ReplayConcat(p, rs, [Eof]);
    ReplayOne(Replay(p, rs), Eof);
  }
}
