/** Runs of blocks filled by a file write, and the file they add up to. */
module FileRuns {
  import opened Bytes
  import opened Layout
  import opened Volumes
  import opened Coupling
  import opened Operations
  import opened Invariants

  lemma RunStart(v: Vol, n: nat)
    requires Sized(v)
    ensures AllocMany(v.used, 0) == [] && SetOf([]) == {} && v.used + {} == v.used
    ensures FreshBlocks(v.used, AllocMany(v.used, n))
  {
    AllocManyFresh(v.used, n);
  }

  /** The block a run obtains next: new to the run, owned by nobody. */
  lemma RunStep(v0: Vol, v: Vol, i: nat, blk: u32)
    requires Sized(v0) && WellOwned(v0) && WellOwned(v)
    requires |AllocMany(v0.used, i)| == i
    requires v == v0.(used := v0.used + SetOf(AllocMany(v0.used, i)))
    requires blk == NextBlock(v.used) && blk != 0
    ensures var bs := AllocMany(v0.used, i);
      && AllocMany(v0.used, i + 1) == bs + [blk]
      && SetOf(bs + [blk]) == SetOf(bs) + {blk as nat}
      && v0.used + SetOf(bs + [blk]) == v.used + {blk as nat}
      && INITIAL_USED_BLOCKS <= blk < BLOCKS_PER_GROUP
      && (forall k | 0 <= k < i :: bs[k] != blk && INITIAL_USED_BLOCKS <= bs[k] < BLOCKS_PER_GROUP)
    ensures WellOwned(v.(used := v.used + {blk as nat}))
    ensures forall n, y | n in v.objs && y in Blocks(v.objs[n]) :: y != blk
  {
    hide NextBlock, AllocMany, Blocks, ObjOK, NoDup;
    AllocManyUnfold(v0.used, i, blk);
    AllocManyFresh(v0.used, i);
    NextFresh(v0.used, AllocMany(v0.used, i));
    SetOfSnoc(AllocMany(v0.used, i), blk);
    FreeUnowned(v, blk);
    UsedGrows(v, v.used + {blk as nat});
  }

  lemma AllocManyUnfold(used: set<nat>, i: nat, blk: u32)
    requires |AllocMany(used, i)| == i && blk == NextBlock(used + SetOf(AllocMany(used, i))) && blk != 0
    ensures AllocMany(used, i + 1) == AllocMany(used, i) + [blk]
  {
    hide NextBlock, SetOf;
  }

  lemma RunStops(v: Vol, i: nat, n: nat)
    requires Sized(v) && i <= n && NextBlock(v.used + SetOf(AllocMany(v.used, i))) == 0
    ensures AllocMany(v.used, n) == AllocMany(v.used, i)
    ensures FreshBlocks(v.used, AllocMany(v.used, i))
  {
    AllocManyStops(v.used, i, n);
    AllocManyFresh(v.used, i);
  }

  lemma RunKept(bl: seq<Block>, cl: seq<Block>, dl: seq<Block>, used: set<nat>, bs: seq<u32>, src: seq<byte>,
        first: nat)
    requires RunStored(bl, cl, bs, src, first) && OnlyCounters(cl, dl)
    requires FreshBlocks(used, bs)
    ensures RunStored(bl, dl, bs, src, first)
  {
    forall k | 0 <= k < |bs|
      ensures bs[k] < BLOCKS_PER_GROUP && BLOCK_SIZE * (first + k) <= |src| && dl[bs[k]] == Chunk(src, first + k)
    {
      assert cl[bs[k]] == Chunk(src, first + k);
      assert INITIAL_USED_BLOCKS <= bs[k] < BLOCKS_PER_GROUP;
      assert dl[bs[k]] == cl[bs[k]];
    }
    forall x: nat | INODE_TABLE_LBA <= x < |bl| && x !in SetOf(bs) ensures dl[x] == bl[x] {
      assert cl[x] == bl[x];
    }
  }

  /** The blocks of a run hold consecutive chunks; nothing else from the inode table up changed. */
  ghost predicate RunStored(bl: seq<Block>, cl: seq<Block>, bs: seq<u32>, src: seq<byte>, first: nat) {
    && |bl| == |cl| >= BLOCKS_PER_GROUP
    && (forall k | 0 <= k < |bs| ::
          bs[k] < BLOCKS_PER_GROUP && BLOCK_SIZE * (first + k) <= |src| && cl[bs[k]] == Chunk(src, first + k))
    && (forall x: nat | INODE_TABLE_LBA <= x < |bl| && x !in SetOf(bs) :: cl[x] == bl[x])
  }

  lemma RunEmpty(bl: seq<Block>, src: seq<byte>, first: nat)
    requires |bl| >= BLOCKS_PER_GROUP
    ensures RunStored(bl, bl, [], src, first)
  {}

  lemma RunExtends(bl: seq<Block>, cl: seq<Block>, dl: seq<Block>, bs: seq<u32>, blk: u32, src: seq<byte>, first: nat)
    requires RunStored(bl, cl, bs, src, first) && OnlyCounters(cl, dl)
    requires INITIAL_USED_BLOCKS <= blk < BLOCKS_PER_GROUP
    requires forall k | 0 <= k < |bs| :: bs[k] != blk && INITIAL_USED_BLOCKS <= bs[k] < BLOCKS_PER_GROUP
    requires BLOCK_SIZE * (first + |bs|) <= |src|
    ensures RunStored(bl, dl[blk := Chunk(src, first + |bs|)], bs + [blk], src, first)
  {
    hide Chunk, SetOf;
    SetOfSnoc(bs, blk);
  }

  /** The inode of a regular file before any block is attached. */
  function BareFile(size: u32): (i: Inode)
    ensures i.WellSized()
  {
    ZeroInode().(mode := FILE_MODE, links := 1, size := size)
  }

  lemma FileInode(used: set<nat>, src: seq<byte>)
    requires |src| < 0x1_0000_0000
    requires forall b | 0 <= b < INITIAL_USED_BLOCKS :: b in used
    ensures var o, d, t := NewFile(used, src), DirectBlocks(used, src), IndirectBlocks(used, src);
      var zeros := BareFile(|src|).block;
      && ObjOK(o) && |d| <= DIRECT_BLOCKS && |t| <= POINTERS_PER_BLOCK
      && (o.ind == 0 ==> t == [] && InodeOf(o) == BareFile(|src|).(block := d + zeros[|d|..], blocks := |d|))
      && (o.ind != 0 ==> |d| == DIRECT_BLOCKS)
      && (o.ind != 0 ==>
            InodeOf(o)
              == BareFile(|src|).(block := (d + zeros[|d|..])[DIRECT_BLOCKS := o.ind], blocks := |d| + 1 + |t|))
  {
    hide NextBlock, AllocMany;
    NewFileOK(used, src);
    var o, d := NewFile(used, src), DirectBlocks(used, src);
    var zeros := BareFile(|src|).block;
    if o.ind == 0 {
      assert BlockMap(o) == d + zeros[|d|..];
    } else {
      assert BlockMap(o) == (d + zeros[|d|..])[DIRECT_BLOCKS := o.ind];
    }
  }

  /** Without an indirect table the direct run is the whole file. */
  lemma DirectOn(bl: seq<Block>, cl: seq<Block>, used: set<nat>, src: seq<byte>)
    requires |src| < 0x1_0000_0000
    requires forall b | 0 <= b < INITIAL_USED_BLOCKS :: b in used
    requires RunStored(bl, cl, DirectBlocks(used, src), src, 0) && TableBlock(used, src) == 0
    ensures FileOn(cl, NewFile(used, src))
  {
    hide NextBlock, AllocMany, Chunk, SetOf;
    NewFileOK(used, src);
  }

  /** The table written last, over both runs. */
  lemma IndirectOn(bl: seq<Block>, cl: seq<Block>, dl: seq<Block>, el: seq<Block>, used: set<nat>, src: seq<byte>,
        table: Block)
    requires |src| < 0x1_0000_0000
    requires forall b | 0 <= b < INITIAL_USED_BLOCKS :: b in used
    requires RunStored(bl, cl, DirectBlocks(used, src), src, 0) && OnlyCounters(cl, dl)
    requires TableBlock(used, src) != 0 && TableBlock(used, src) < BLOCKS_PER_GROUP
    requires RunStored(dl, el, IndirectBlocks(used, src), src, DIRECT_BLOCKS)
    requires WordsAt(table, 0, POINTERS_PER_BLOCK) == TableWords(NewFile(used, src))
    ensures FileOn(el[TableBlock(used, src) := table], NewFile(used, src))
  {
    hide NextBlock, AllocMany, Chunk, WordsAt, TableWords, TableBlock, DirectBlocks, IndirectBlocks, ObjOK;
    NewFileOK(used, src);
    NewFileApart(used, src);
  }

  /** Direct blocks, indirect blocks and table are pairwise different. */
  lemma NewFileApart(used: set<nat>, src: seq<byte>)
    requires |src| < 0x1_0000_0000
    requires forall b | 0 <= b < INITIAL_USED_BLOCKS :: b in used
    requires TableBlock(used, src) != 0
    ensures var d, t, i := DirectBlocks(used, src), TableBlock(used, src), IndirectBlocks(used, src);
      && |d| == DIRECT_BLOCKS
      && (forall k | 0 <= k < |d| :: d[k] != t && d[k] !in SetOf(i) && d[k] >= INITIAL_USED_BLOCKS)
      && (forall k | 0 <= k < |i| :: i[k] != t && i[k] >= INITIAL_USED_BLOCKS)
  {
    hide NextBlock, AllocMany, TableBlock, DirectBlocks, IndirectBlocks;
    NewFileOK(used, src);
    var o := NewFile(used, src);
    var d, t, i := DirectBlocks(used, src), TableBlock(used, src), IndirectBlocks(used, src);
    assert Blocks(o) == d + i + [t];
    assert Blocks(o)[|d| + |i|] == t;
    forall k | 0 <= k < |d| ensures d[k] != t && d[k] !in SetOf(i) && d[k] >= INITIAL_USED_BLOCKS {
      assert Blocks(o)[k] == d[k];
      forall j | 0 <= j < |i| ensures i[j] != d[k] {
        assert Blocks(o)[|d| + j] == i[j];
      }
    }
    forall k | 0 <= k < |i| ensures i[k] != t && i[k] >= INITIAL_USED_BLOCKS {
      assert Blocks(o)[|d| + k] == i[k];
    }
  }

  /** Without a table the file's blocks are the direct run. */
  lemma NoTable(used: set<nat>, src: seq<byte>)
    requires |src| < 0x1_0000_0000 && TableBlock(used, src) == 0
    ensures Blocks(NewFile(used, src)) == DirectBlocks(used, src)
    ensures NewFile(used, src).ind == 0
  {
    hide NextBlock, AllocMany;
    assert DirectBlocks(used, src) + [] == DirectBlocks(used, src);
  }

  /** With a table they are the direct run, the indirect run and the table. */
  lemma WithTable(used: set<nat>, src: seq<byte>)
    requires |src| < 0x1_0000_0000 && TableBlock(used, src) != 0
    ensures var o, d, t := NewFile(used, src), DirectBlocks(used, src), TableBlock(used, src);
      var i := IndirectBlocks(used, src);
      && o.ind == t
      && used + SetOf(Blocks(o)) == used + SetOf(d) + {t as nat} + SetOf(i)
  {
    hide NextBlock, AllocMany, DirectBlocks, IndirectBlocks, TableBlock;
    var o, d, t, i := NewFile(used, src), DirectBlocks(used, src), TableBlock(used, src), IndirectBlocks(used, src);
    SetOfConcat(d, i);
    SetOfSnoc(d + i, t);
  }

  /** The table's words: the indirect run, then zeros. */
  lemma TableIs(used: set<nat>, src: seq<byte>, ptrs: seq<u32>, zeros: seq<u32>)
    requires |src| < 0x1_0000_0000 && TableBlock(used, src) != 0
    requires forall b | 0 <= b < INITIAL_USED_BLOCKS :: b in used
    requires |zeros| == POINTERS_PER_BLOCK && forall k | 0 <= k < |zeros| :: zeros[k] == 0
    requires |IndirectBlocks(used, src)| <= POINTERS_PER_BLOCK
    requires ptrs == IndirectBlocks(used, src) + zeros[|IndirectBlocks(used, src)|..]
    ensures TableWords(NewFile(used, src)) == ptrs
    ensures WordsAt(WordBytes(ptrs), 0, POINTERS_PER_BLOCK) == ptrs
  {
    hide NextBlock, AllocMany, DirectBlocks, IndirectBlocks, TableBlock, WordsAt, WordBytes;
    NewFileApart(used, src);
    assert |WordBytes(ptrs)| == BLOCK_SIZE by {
      TableLength(ptrs);
    }
    assert WordBytes(ptrs)[0..0 + 4 * |ptrs|] == WordBytes(ptrs);
    WordsRoundTrip(WordBytes(ptrs), 0, ptrs);
  }

  lemma TableLength(ptrs: seq<u32>)
    requires |ptrs| == POINTERS_PER_BLOCK
    ensures |WordBytes(ptrs)| == BLOCK_SIZE
  {}

  lemma TableIsNext(used: set<nat>, src: seq<byte>, ind: u32)
    requires CeilDiv(|src|) > DIRECT_BLOCKS && ind == NextBlock(used + SetOf(DirectBlocks(used, src)))
    ensures TableBlock(used, src) == ind
    ensures var todo := Min(CeilDiv(|src|) - DIRECT_BLOCKS, POINTERS_PER_BLOCK);
      var rest := AllocMany(used + SetOf(DirectBlocks(used, src)) + {ind as nat}, todo);
      ind != 0 ==> IndirectBlocks(used, src) == rest
  {
    hide NextBlock, AllocMany;
  }

  /** The table block is in range, owned by nobody, and disturbs no owner. */
  lemma TableTaken(v: Vol, ind: u32)
    requires Sized(v) && WellOwned(v) && ind == NextBlock(v.used) && ind != 0
    ensures INITIAL_USED_BLOCKS <= ind < BLOCKS_PER_GROUP
    ensures forall n, y | n in v.objs && y in Blocks(v.objs[n]) :: y != ind
    ensures WellOwned(v.(used := v.used + {ind as nat}))
  {
    hide NextBlock, Blocks, ObjOK, NoDup;
    NextBlockFresh(v);
    FreeUnowned(v, ind);
    UsedGrows(v, v.used + {ind as nat});
  }

  lemma NothingTaken(v: Vol, used: set<nat>, src: seq<byte>, bl: seq<Block>, cl: seq<Block>, dl: seq<Block>)
    requires forall b | 0 <= b < INITIAL_USED_BLOCKS :: b in used
    requires v.used == used + SetOf(DirectBlocks(used, src))
    requires RunStored(bl, cl, DirectBlocks(used, src), src, 0) && OnlyCounters(cl, dl)
    ensures RunStored(bl, dl, DirectBlocks(used, src), src, 0)
  {
    hide NextBlock, AllocMany, RunStored, OnlyCounters;
    AllocManyFresh(used, Min(CeilDiv(|src|), DIRECT_BLOCKS));
    RunKept(bl, cl, dl, used, DirectBlocks(used, src), src, 0);
  }

  // ---------------------------------------------------------------- the new object of a write

  /** Shape and place of the object a write creates. */
  lemma NewObjFacts(v: Vol, n: u32, p: u32, isDir: bool, src: seq<byte>)
    requires VolOK(v) && IsDirObj(v, p) && |src| < 0x1_0000_0000
    requires n == NextInode(v.inos) && n != 0
    requires isDir ==> NextBlock(v.used) != 0
    ensures INITIAL_USED_INODES < n <= INODES_PER_GROUP
    ensures var o := NewObj(v, n, p, isDir, src);
      && ObjOK(o) && o.Dir? == isDir
      && forall b | b in Blocks(o) :: ROOT_DIR_BLOCK_LBA <= b < BLOCKS_PER_GROUP
  {
    hide NextBlock, NextInode, WellOwned, Exact, DirOK, ObjOK, Blocks, AllocMany, TableBlock, DirectBlocks,
         IndirectBlocks;
    NextInodeFresh(v);
    WritableParent(v, p);
    NewObjOK(v, n, p, isDir, src);
    var o := NewObj(v, n, p, isDir, src);
    assert forall b | b in Blocks(o) :: exists k :: 0 <= k < |Blocks(o)| && Blocks(o)[k] == b;
  }

  /** Marking an inode used disturbs no owner. */
  lemma InodeTaken(v: Vol, n: nat)
    requires VolOK(v)
    ensures WellOwned(v.(inos := v.inos + {n}))
  {
    hide Blocks, ObjOK, NoDup, Exact, DirsOK;
    assert forall m: nat, b: nat :: Owns(v.(inos := v.inos + {n}), m, b) <==> Owns(v, m, b);
  }

  /** The empty file owns nothing. */
  lemma EmptyFile(used: set<nat>)
    ensures var o := NewFile(used, []);
      && ObjOK(o) && BareFile(0) == InodeOf(o) && used + SetOf(Blocks(o)) == used
      && forall bl: seq<Block> | |bl| > 0 :: FileOn(bl, o)
  {
    var o := NewFile(used, []);
    assert o == File(0, [], 0, []);
    assert BlockMap(o) == BareFile(0).block;
  }

  lemma FileIsOn(bl: seq<Block>, o: Obj)
    ensures o.File? && FileOn(bl, o) ==> ObjOn(bl, o)
  {}
}
