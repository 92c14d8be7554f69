/** When the bytes of a disk say what a volume says. */
module Coupling {
  import opened Bytes
  import opened FiniteSets
  import opened RamDisks
  import opened Layout
  import opened Records
  import opened Directories
  import opened Volumes

  // ---------------------------------------------------------------- counters

  /** The free counts are exact: bits not set in the group's bitmap ranges. */
  lemma SizedCards(v: Vol)
    requires Sized(v)
    ensures |v.used| <= BLOCKS_PER_GROUP && |v.inos| <= INODES_PER_GROUP
    ensures |v.used| == BLOCKS_PER_GROUP ==> forall b | 0 <= b < BLOCKS_PER_GROUP :: b in v.used
    ensures |v.inos| == INODES_PER_GROUP ==> forall i | 1 <= i <= INODES_PER_GROUP :: i in v.inos
  {
    BelowCard(v.used, BLOCKS_PER_GROUP);
    var s := v.inos + {0};
    assert 0 !in v.inos;
    assert |s| == |v.inos| + 1;
    BelowCard(s, INODES_PER_GROUP + 1);
  }

  function SuperOf(v: Vol): Superblock
    requires |v.used| <= BLOCKS_PER_GROUP && |v.inos| <= INODES_PER_GROUP
  {
    SuperWith(TOTAL_BLOCKS - |v.used|, TOTAL_INODES - |v.inos|)
  }

  function DescOf(v: Vol): GroupDesc
    requires |v.used| <= BLOCKS_PER_GROUP && |v.inos| <= INODES_PER_GROUP
  {
    DescWith(BLOCKS_PER_GROUP - |v.used|, INODES_PER_GROUP - |v.inos|)
  }

  // ---------------------------------------------------------------- objects on disk

  const DIR_MODE: u16 := 0x41ED
  const FILE_MODE: u16 := 0x81A4

  function BlockMap(o: Obj): (r: seq<u32>)
    ensures |r| == 15
  {
    seq(15, k requires 0 <= k < 15 =>
      if k < DIRECT_BLOCKS then (if k < |o.blks| then o.blks[k] else 0)
      else if k == DIRECT_BLOCKS && o.File? then o.ind
      else 0)
  }

  /** The inode record of an object. */
  function InodeOf(o: Obj): (i: Inode)
    requires ObjOK(o)
    ensures i.WellSized()
  {
    match o
    case Dir(blks, _) =>
      Inode(DIR_MODE, 0, BLOCK_SIZE * |blks|, 0, 0, 0, 0, 0, 2, |blks|, 0, 0, BlockMap(o), 0, 0, 0, 0, seq(3, _ => 0))
    case File(size, blks, ind, _) =>
      Inode(FILE_MODE, 0, size, 0, 0, 0, 0, 0, 1, |blks| + (if ind == 0 then 0 else 1), 0, 0, BlockMap(o), 0, 0, 0, 0,
           seq(3, _ => 0))
  }

  function InodeFor(objs: map<nat, Obj>, n: nat): (i: Inode)
    requires n in objs ==> ObjOK(objs[n])
    ensures i.WellSized()
  {
    if n in objs then InodeOf(objs[n]) else ZeroInode()
  }

  /** The words of an indirect table: block numbers, then zeros. */
  function TableWords(o: Obj): (r: seq<u32>)
    requires o.File?
    ensures |r| == POINTERS_PER_BLOCK
  {
    seq(POINTERS_PER_BLOCK, i requires 0 <= i < POINTERS_PER_BLOCK =>
      if DIRECT_BLOCKS + i < |o.blks| then o.blks[DIRECT_BLOCKS + i] else 0)
  }

  ghost predicate DirOn(bl: seq<Block>, blks: seq<u32>, cs: Chains) {
    && |blks| == |cs|
    && (forall k | 0 <= k < |blks| :: blks[k] < |bl|)
    && forall k | 0 <= k < |blks| :: Seg(bl[blks[k]], 0, cs[k], BLOCK_SIZE)
  }

  ghost predicate FileOn(bl: seq<Block>, o: Obj)
    requires o.File?
  {
    && |o.blks| == |o.data| && o.ind < |bl|
    && (forall k | 0 <= k < |o.blks| :: o.blks[k] < |bl|)
    && (forall k | 0 <= k < |o.blks| :: bl[o.blks[k]] == o.data[k])
    && (o.ind != 0 ==> WordsAt(bl[o.ind], 0, POINTERS_PER_BLOCK) == TableWords(o))
  }

  /** The blocks of an object hold its contents. */
  ghost predicate ObjOn(bl: seq<Block>, o: Obj) {
    match o
    case Dir(blks, cs) => DirOn(bl, blks, cs)
    case File(_, _, _, _) => FileOn(bl, o)
  }

  ghost predicate BitsOn(b: Block, used: set<nat>) {
    forall i | 0 <= i < BLOCKS_PER_GROUP :: TestBit(b, i) <==> i in used
  }

  ghost predicate InodeBitsOn(b: Block, inos: set<nat>) {
    forall i | 0 <= i < INODES_PER_GROUP :: TestBit(b, i) <==> i + 1 in inos
  }

  /** Superblock, descriptor and bitmaps agree with the volume. */
  ghost predicate MetaOn(bl: seq<Block>, v: Vol) {
    && |bl| >= BLOCKS_PER_GROUP
    && |v.used| <= BLOCKS_PER_GROUP && |v.inos| <= INODES_PER_GROUP
    && bl[BOOT_SECTOR] == Signature()
    && WordsAt(bl[SUPERBLOCK_LBA], 0, SUPER_WORDS) == SuperOf(v)
    && WordsAt(bl[BGDT_LBA], 0, DESC_WORDS) == DescOf(v)
    && BitsOn(bl[BLOCK_BITMAP_LBA], v.used)
    && InodeBitsOn(bl[INODE_BITMAP_LBA], v.inos)
  }

  /** The inode table holds every object's record, and zeros elsewhere. */
  ghost predicate TableOn(bl: seq<Block>, objs: map<nat, Obj>) {
    && |bl| >= BLOCKS_PER_GROUP
    && (forall n | n in objs :: ObjOK(objs[n]))
    && forall n | 1 <= n <= INODES_PER_GROUP :: InodeAt(bl, n) == InodeFor(objs, n)
  }

  ghost predicate DataOn(bl: seq<Block>, objs: map<nat, Obj>) {
    forall n | n in objs :: ObjOn(bl, objs[n])
  }

  /** Objects live in blocks 21 to 255, clear of the metadata. */
  predicate Placement(objs: map<nat, Obj>) {
    forall n, b | n in objs && b in Blocks(objs[n]) :: ROOT_DIR_BLOCK_LBA <= b < BLOCKS_PER_GROUP
  }

  /** The disk holds the volume. */
  ghost predicate Repr(bl: seq<Block>, v: Vol) {
    MetaOn(bl, v) && TableOn(bl, v.objs) && DataOn(bl, v.objs) && Placement(v.objs)
  }

  // ---------------------------------------------------------------- bits past the group

  /** The bits of a bitmap block from `n` on. */
  function Beyond(b: Block, n: nat): seq<bool>
    requires n <= 8 * BLOCK_SIZE
  {
    seq(8 * BLOCK_SIZE - n, k requires 0 <= k < 8 * BLOCK_SIZE - n => TestBit(b, n + k))
  }

  /** The bits of both bitmap blocks that stand for nothing. */
  function Pads(bl: seq<Block>): (seq<bool>, seq<bool>) {
    if |bl| <= INODE_BITMAP_LBA then ([], [])
    else (Beyond(bl[BLOCK_BITMAP_LBA], BLOCKS_PER_GROUP), Beyond(bl[INODE_BITMAP_LBA], INODES_PER_GROUP))
  }

  lemma PadsWrite(bl: seq<Block>, at: nat, x: Block)
    requires INODE_BITMAP_LBA < at < |bl|
    ensures Pads(bl[at := x]) == Pads(bl)
  {
    hide Beyond;
  }

  lemma BeyondKept(b: Block, n: nat, i: nat)
    requires i < n <= 8 * BLOCK_SIZE
    ensures Beyond(SetBit(b, i), n) == Beyond(b, n) && Beyond(ClearBit(b, i), n) == Beyond(b, n)
  {
    hide TestBit;
  }

  // ---------------------------------------------------------------- what leaves an object alone

  predicate SameAt(bl: seq<Block>, cl: seq<Block>, bs: seq<u32>) {
    |bl| == |cl| && forall b | b in bs :: b < |bl| && bl[b] == cl[b]
  }

  lemma ObjFrame(bl: seq<Block>, cl: seq<Block>, o: Obj)
    requires ObjOn(bl, o) && SameAt(bl, cl, Blocks(o))
    ensures ObjOn(cl, o)
  {
    hide Seg, WordsAt;
    forall k | 0 <= k < |o.blks| ensures bl[o.blks[k]] == cl[o.blks[k]] {
      assert o.blks[k] in Blocks(o);
    }
    if o.File? && o.ind != 0 {
      assert Blocks(o)[|o.blks|] == o.ind;
    }
  }

  /** Writes below block 21 leave every object's contents alone. */
  lemma DataFrameLow(bl: seq<Block>, cl: seq<Block>, objs: map<nat, Obj>)
    requires DataOn(bl, objs) && Placement(objs) && |bl| == |cl| >= BLOCKS_PER_GROUP
    requires forall k | ROOT_DIR_BLOCK_LBA <= k < |bl| :: bl[k] == cl[k]
    ensures DataOn(cl, objs)
  {
    hide ObjOn, Blocks;
    forall n | n in objs ensures ObjOn(cl, objs[n]) {
      ObjFrame(bl, cl, objs[n]);
    }
  }

  /** A write to a block no object owns leaves every object's contents alone. */
  lemma DataFrameFree(bl: seq<Block>, objs: map<nat, Obj>, at: nat, x: Block)
    requires DataOn(bl, objs) && Placement(objs) && at < |bl| && |bl| >= BLOCKS_PER_GROUP
    requires forall n, b | n in objs && b in Blocks(objs[n]) :: b != at
    ensures DataOn(bl[at := x], objs)
  {
    hide ObjOn, Blocks;
    forall n | n in objs ensures ObjOn(bl[at := x], objs[n]) {
      ObjFrame(bl, bl[at := x], objs[n]);
    }
  }

  lemma TableFrame(bl: seq<Block>, cl: seq<Block>, objs: map<nat, Obj>)
    requires TableOn(bl, objs) && |cl| == |bl|
    requires forall k | INODE_TABLE_LBA <= k < ROOT_DIR_BLOCK_LBA :: bl[k] == cl[k]
    ensures TableOn(cl, objs)
  {
    hide InodeFor, ObjOK, InodeIn;
  }

  lemma MetaFrame(bl: seq<Block>, cl: seq<Block>, v: Vol)
    requires MetaOn(bl, v) && |cl| == |bl|
    requires forall k | 0 <= k < INODE_TABLE_LBA :: bl[k] == cl[k]
    ensures MetaOn(cl, v)
  {
    hide WordsAt, BitsOn, InodeBitsOn, SuperOf, DescOf, Signature;
  }

  /** Metadata may change while table and data stay: only bitmaps and counters move. */
  lemma MetaChange(bl: seq<Block>, cl: seq<Block>, v: Vol, used: set<nat>, inos: set<nat>)
    requires Repr(bl, v) && |bl| == |cl|
    requires forall k | INODE_TABLE_LBA <= k < |bl| :: bl[k] == cl[k]
    requires MetaOn(cl, Vol(v.objs, used, inos))
    ensures Repr(cl, Vol(v.objs, used, inos))
  {
    hide MetaOn, TableOn, DataOn, Placement;
    LongEnough(bl, v.objs);
    DataFrameLow(bl, cl, v.objs);
    TableFrame(bl, cl, v.objs);
  }

  lemma LongEnough(bl: seq<Block>, objs: map<nat, Obj>)
    requires TableOn(bl, objs)
    ensures |bl| >= BLOCKS_PER_GROUP
  {}

  /** Writing a data block nobody owns. */
  lemma FreeBlockWrite(bl: seq<Block>, v: Vol, at: nat, x: Block)
    requires Repr(bl, v) && ROOT_DIR_BLOCK_LBA <= at < |bl|
    requires forall n, b | n in v.objs && b in Blocks(v.objs[n]) :: b != at
    ensures Repr(bl[at := x], v)
  {
    hide MetaOn, TableOn, DataOn, Placement, Blocks;
    LongEnough(bl, v.objs);
    DataFrameFree(bl, v.objs, at, x);
    TableFrame(bl, bl[at := x], v.objs);
    MetaFrame(bl, bl[at := x], v);
  }

  /** Writing the record of one inode whose object's contents are already in place. */
  lemma InodeWrite(bl: seq<Block>, v: Vol, n: nat, o: Obj)
    requires Repr(bl, v) && 1 <= n <= INODES_PER_GROUP
    requires ObjOK(o) && ObjOn(bl, o)
    requires forall b | b in Blocks(o) :: ROOT_DIR_BLOCK_LBA <= b < BLOCKS_PER_GROUP
    ensures var lba := INODE_TABLE_LBA + SlotBlock(n);
      Repr(bl[lba := PutInode(bl[lba], SlotOffset(n), InodeOf(o))], Vol(v.objs[n := o], v.used, v.inos))
  {
    hide MetaOn, DataOn, InodeOf, InodeAt, PutInode, ObjOK, ObjOn, Blocks;
    LongEnough(bl, v.objs);
    var lba := INODE_TABLE_LBA + SlotBlock(n);
    var cl := bl[lba := PutInode(bl[lba], SlotOffset(n), InodeOf(o))];
    var w := v.objs[n := o];
    DataFrameLow(bl, cl, v.objs);
    ObjFrame(bl, cl, o);
    DataAdd(cl, v.objs, n, o);
    MetaFrame(bl, cl, v);
    MetaObjs(cl, v, w);
    forall m | 1 <= m <= INODES_PER_GROUP ensures InodeAt(cl, m) == InodeFor(w, m) {
      InodeSlots(bl, n, InodeOf(o), m);
    }
  }

  lemma DataAdd(bl: seq<Block>, objs: map<nat, Obj>, n: nat, o: Obj)
    requires DataOn(bl, objs) && ObjOn(bl, o)
    ensures DataOn(bl, objs[n := o])
  {
    hide ObjOn;
  }

  lemma MetaObjs(bl: seq<Block>, v: Vol, objs: map<nat, Obj>)
    requires MetaOn(bl, v)
    ensures MetaOn(bl, Vol(objs, v.used, v.inos))
  {
    hide WordsAt, BitsOn, InodeBitsOn, Signature, SuperWith, DescWith;
  }

  /** Clearing the record of one inode forgets its object. */
  lemma InodeClear(bl: seq<Block>, v: Vol, n: nat)
    requires Repr(bl, v) && 1 <= n <= INODES_PER_GROUP
    ensures var lba := INODE_TABLE_LBA + SlotBlock(n);
      Repr(bl[lba := PutInode(bl[lba], SlotOffset(n), ZeroInode())], Vol(v.objs - {n}, v.used, v.inos))
  {
    hide MetaOn, InodeOf, InodeAt, PutInode, ObjOK, ObjOn, Blocks, ZeroInode;
    LongEnough(bl, v.objs);
    var lba := INODE_TABLE_LBA + SlotBlock(n);
    ZeroSized();
    var cl := bl[lba := PutInode(bl[lba], SlotOffset(n), ZeroInode())];
    var w := v.objs - {n};
    DataFrameLow(bl, cl, v.objs);
    MetaFrame(bl, cl, v);
    MetaObjs(cl, v, w);
    forall m | 1 <= m <= INODES_PER_GROUP ensures InodeAt(cl, m) == InodeFor(w, m) {
      InodeSlots(bl, n, ZeroInode(), m);
    }
  }

  lemma ZeroSized()
    ensures ZeroInode().WellSized()
  {}

  // ---------------------------------------------------------------- one bit and one count

  /** Blocks from the inode table upward, and the boot sector, are the same. */
  predicate OnlyCounters(bl: seq<Block>, cl: seq<Block>) {
    && |bl| == |cl| && (|bl| > 0 ==> bl[0] == cl[0])
    && forall k | INODE_TABLE_LBA <= k < |bl| :: bl[k] == cl[k]
  }

  /** New bitmaps and counters make a new volume with the same objects. */
  lemma CountersWritten(bl: seq<Block>, cl: seq<Block>, v: Vol, w: Vol)
    requires Repr(bl, v) && OnlyCounters(bl, cl) && w.objs == v.objs
    requires |w.used| <= BLOCKS_PER_GROUP && |w.inos| <= INODES_PER_GROUP
    requires |cl| >= BLOCKS_PER_GROUP
    requires BitsOn(cl[BLOCK_BITMAP_LBA], w.used) && InodeBitsOn(cl[INODE_BITMAP_LBA], w.inos)
    requires WordsAt(cl[SUPERBLOCK_LBA], 0, SUPER_WORDS) == SuperOf(w)
    requires WordsAt(cl[BGDT_LBA], 0, DESC_WORDS) == DescOf(w)
    ensures Repr(cl, w)
  {
    hide WordsAt, BitsOn, InodeBitsOn, Signature, SuperWith, DescWith, TableOn, DataOn, Placement;
    MetaChange(bl, cl, v, w.used, w.inos);
  }

  lemma BlockSet(v: Vol, i: nat)
    requires Sized(v) && i < BLOCKS_PER_GROUP && i !in v.used
    ensures var w := v.(used := v.used + {i});
      && Sized(w) && |w.used| == |v.used| + 1 <= BLOCKS_PER_GROUP && |w.inos| <= INODES_PER_GROUP
      && SuperOf(v)[SB_FREE_BLOCKS] > 0
      && SuperOf(w) == SuperOf(v)[SB_FREE_BLOCKS := SuperOf(v)[SB_FREE_BLOCKS] - 1]
      && FreeBlocksCount(DescOf(v)) > 0
      && DescOf(w) == SetFreeBlocksCount(DescOf(v), FreeBlocksCount(DescOf(v)) - 1)
  {
    hide SuperWith, DescWith, SetFreeBlocksCount, FreeBlocksCount;
    var w := v.(used := v.used + {i});
    assert |w.used| == |v.used| + 1;
    SizedCards(v);
    SizedCards(w);
    SuperCounts(TOTAL_BLOCKS - |v.used|, TOTAL_INODES - |v.inos|, TOTAL_BLOCKS - |w.used|);
    DescCounts(BLOCKS_PER_GROUP - |v.used|, INODES_PER_GROUP - |v.inos|, BLOCKS_PER_GROUP - |w.used|);
  }

  lemma BlockCleared(v: Vol, i: nat)
    requires Sized(v) && INITIAL_USED_BLOCKS <= i < BLOCKS_PER_GROUP && i in v.used
    ensures var w := v.(used := v.used - {i});
      && Sized(w) && |w.used| == |v.used| - 1 && |v.used| <= BLOCKS_PER_GROUP && |w.inos| <= INODES_PER_GROUP
      && SuperOf(v)[SB_FREE_BLOCKS] < TOTAL_BLOCKS
      && SuperOf(w) == SuperOf(v)[SB_FREE_BLOCKS := SuperOf(v)[SB_FREE_BLOCKS] + 1]
      && FreeBlocksCount(DescOf(v)) < BLOCKS_PER_GROUP
      && DescOf(w) == SetFreeBlocksCount(DescOf(v), FreeBlocksCount(DescOf(v)) + 1)
  {
    hide SuperWith, DescWith, SetFreeBlocksCount, FreeBlocksCount;
    var w := v.(used := v.used - {i});
    SizedCards(v);
    SizedCards(w);
    SuperCounts(TOTAL_BLOCKS - |v.used|, TOTAL_INODES - |v.inos|, TOTAL_BLOCKS - |w.used|);
    DescCounts(BLOCKS_PER_GROUP - |v.used|, INODES_PER_GROUP - |v.inos|, BLOCKS_PER_GROUP - |w.used|);
  }

  lemma InodeSet(v: Vol, n: nat)
    requires Sized(v) && 1 <= n <= INODES_PER_GROUP && n !in v.inos
    ensures var w := v.(inos := v.inos + {n});
      && Sized(w) && |w.inos| == |v.inos| + 1 <= INODES_PER_GROUP && |w.used| <= BLOCKS_PER_GROUP
      && SuperOf(v)[SB_FREE_INODES] > 0
      && SuperOf(w) == SuperOf(v)[SB_FREE_INODES := SuperOf(v)[SB_FREE_INODES] - 1]
      && FreeInodesCount(DescOf(v)) > 0
      && DescOf(w) == SetFreeInodesCount(DescOf(v), FreeInodesCount(DescOf(v)) - 1)
  {
    hide SuperWith, DescWith, SetFreeInodesCount, FreeInodesCount;
    var w := v.(inos := v.inos + {n});
    SizedCards(v);
    SizedCards(w);
    SuperCounts(TOTAL_BLOCKS - |v.used|, TOTAL_INODES - |v.inos|, TOTAL_INODES - |w.inos|);
    DescCounts(BLOCKS_PER_GROUP - |v.used|, INODES_PER_GROUP - |v.inos|, INODES_PER_GROUP - |w.inos|);
  }

  lemma InodeCleared(v: Vol, n: nat)
    requires Sized(v) && INITIAL_USED_INODES < n <= INODES_PER_GROUP && n in v.inos && n !in v.objs
    ensures var w := v.(inos := v.inos - {n});
      && Sized(w) && |w.inos| == |v.inos| - 1 && |v.inos| <= INODES_PER_GROUP && |w.used| <= BLOCKS_PER_GROUP
      && SuperOf(v)[SB_FREE_INODES] < TOTAL_INODES
      && SuperOf(w) == SuperOf(v)[SB_FREE_INODES := SuperOf(v)[SB_FREE_INODES] + 1]
      && FreeInodesCount(DescOf(v)) < INODES_PER_GROUP
      && DescOf(w) == SetFreeInodesCount(DescOf(v), FreeInodesCount(DescOf(v)) + 1)
  {
    hide SuperWith, DescWith, SetFreeInodesCount, FreeInodesCount;
    var w := v.(inos := v.inos - {n});
    SizedCards(v);
    SizedCards(w);
    SuperCounts(TOTAL_BLOCKS - |v.used|, TOTAL_INODES - |v.inos|, TOTAL_INODES - |w.inos|);
    DescCounts(BLOCKS_PER_GROUP - |v.used|, INODES_PER_GROUP - |v.inos|, INODES_PER_GROUP - |w.inos|);
  }

  // ---------------------------------------------------------------- directory blocks

  /** No object but `p` owns the block. */
  predicate OnlyOwner(objs: map<nat, Obj>, p: nat, at: nat) {
    forall n, b | n in objs && n != p && b in Blocks(objs[n]) :: b != at
  }

  lemma SoleOwner(v: Vol, p: nat, i: nat)
    requires WellOwned(v) && p in v.objs && v.objs[p].Dir? && i < |v.objs[p].blks|
    ensures OnlyOwner(v.objs, p, v.objs[p].blks[i])
    ensures forall k | 0 <= k < |v.objs[p].blks| && k != i :: v.objs[p].blks[k] != v.objs[p].blks[i]
  {
    var at := v.objs[p].blks[i];
    assert Owns(v, p, at);
    forall n, b | n in v.objs && n != p && b in Blocks(v.objs[n]) ensures b != at {
      assert Owns(v, n, b);
    }
    assert NoDup(Blocks(v.objs[p]));
  }

  lemma DirBlockOn(bl: seq<Block>, blks: seq<u32>, cs: Chains, i: nat, x: Block, rs: seq<Rec>)
    requires DirOn(bl, blks, cs) && i < |blks| && Seg(x, 0, rs, BLOCK_SIZE)
    requires forall k | 0 <= k < |blks| && k != i :: blks[k] != blks[i]
    ensures DirOn(bl[blks[i] := x], blks, cs[i := rs])
  {
    hide Seg;
  }

  /** The inode table does not depend on what a directory's blocks hold. */
  lemma RechainTable(bl: seq<Block>, objs: map<nat, Obj>, p: nat, cs: Chains)
    requires TableOn(bl, objs) && p in objs && objs[p].Dir?
    requires |cs| == |objs[p].chains| && AllTiled(cs)
    ensures TableOn(bl, objs[p := Dir(objs[p].blks, cs)])
  {
    hide AllTiled, InodeAt;
    var o, w := objs[p], Dir(objs[p].blks, cs);
    assert ObjOK(o);
    assert BlockMap(w) == BlockMap(o);
    assert InodeOf(w) == InodeOf(o);
  }

  lemma OthersFrame(bl: seq<Block>, objs: map<nat, Obj>, p: nat, at: nat, x: Block, o: Obj)
    requires DataOn(bl, objs) && Placement(objs) && OnlyOwner(objs, p, at)
    requires at < |bl| && |bl| >= BLOCKS_PER_GROUP && ObjOn(bl[at := x], o)
    ensures DataOn(bl[at := x], objs[p := o])
  {
    hide ObjOn, Blocks;
    forall n | n in objs && n != p ensures ObjOn(bl[at := x], objs[n]) {
      ObjFrame(bl, bl[at := x], objs[n]);
    }
  }

  /** Rewriting one block of a directory rewrites one chain of the volume. */
  lemma DirBlockWritten(bl: seq<Block>, v: Vol, p: nat, i: nat, x: Block, rs: seq<Rec>)
    requires Repr(bl, v) && WellOwned(v) && p in v.objs && v.objs[p].Dir?
    requires i < |v.objs[p].chains| && i < |v.objs[p].blks| && Seg(x, 0, rs, BLOCK_SIZE) && Tiled(rs)
    ensures ROOT_DIR_BLOCK_LBA <= v.objs[p].blks[i] < |bl|
    ensures var o := Dir(v.objs[p].blks, v.objs[p].chains[i := rs]);
      Repr(bl[v.objs[p].blks[i] := x], v.(objs := v.objs[p := o]))
  {
    hide WellOwned, MetaOn, TableOn, Placement, Seg, Tiled, AllTiled, OnlyOwner;
    LongEnough(bl, v.objs);
    var o := v.objs[p];
    var at := o.blks[i];
    PlacedAt(v.objs, p, i);
    SoleOwner(v, p, i);
    DirTiled(bl, v.objs, p);
    UpdateTiled(o.chains, i, rs);
    var w := Dir(o.blks, o.chains[i := rs]);
    assert ObjOn(bl, o);
    DirBlockOn(bl, o.blks, o.chains, i, x, rs);
    OthersFrame(bl, v.objs, p, at, x, w);
    RechainTable(bl, v.objs, p, w.chains);
    TableFrame(bl, bl[at := x], v.objs[p := w]);
    MetaFrame(bl, bl[at := x], v);
    MetaObjs(bl[at := x], v, v.objs[p := w]);
    SamePlacement(v.objs, p, w);
  }

  lemma UpdateTiled(cs: Chains, i: nat, rs: seq<Rec>)
    requires AllTiled(cs) && i < |cs| && Tiled(rs)
    ensures AllTiled(cs[i := rs])
  {
    hide Tiled;
  }

  lemma DirTiled(bl: seq<Block>, objs: map<nat, Obj>, p: nat)
    requires TableOn(bl, objs) && p in objs && objs[p].Dir?
    ensures AllTiled(objs[p].chains)
  {
    hide AllTiled, InodeAt, InodeFor;
    assert ObjOK(objs[p]);
  }

  lemma PlacedAt(objs: map<nat, Obj>, p: nat, i: nat)
    requires Placement(objs) && p in objs && objs[p].Dir? && i < |objs[p].blks|
    ensures ROOT_DIR_BLOCK_LBA <= objs[p].blks[i] < BLOCKS_PER_GROUP
  {
    assert objs[p].blks[i] in Blocks(objs[p]);
  }

  lemma SamePlacement(objs: map<nat, Obj>, p: nat, o: Obj)
    requires Placement(objs) && p in objs && Blocks(o) == Blocks(objs[p])
    ensures Placement(objs[p := o])
  {
    hide Blocks;
  }

  /** The fields `add_entry_to_dir` updates when a directory grows. */
  function GrownRecord(i: Inode, at: nat, b: u32): (r: Inode)
    requires i.WellSized() && at < DIRECT_BLOCKS && i.blocks < 12 && i.size < 6144
    ensures r.WellSized()
  {
    i.(block := i.block[at := b], blocks := i.blocks + 1, size := i.size + BLOCK_SIZE)
  }

  /** The inode of a directory that gained a block. */
  lemma GrownInode(o: Obj, b: u32, c: seq<Rec>)
    requires o.Dir? && ObjOK(o) && |o.chains| < DIRECT_BLOCKS && Tiled(c)
    ensures ObjOK(Dir(o.blks + [b], o.chains + [c]))
    ensures InodeOf(o).blocks < 12 && InodeOf(o).size < 6144
    ensures InodeOf(Dir(o.blks + [b], o.chains + [c])) == GrownRecord(InodeOf(o), |o.blks|, b)
  {
    hide Tiled;
    var w := Dir(o.blks + [b], o.chains + [c]);
    assert BlockMap(w) == BlockMap(o)[|o.blks| := b];
  }

  /** A zeroed block with one record spanning it. */
  function FreshBlock(ino: u32, name: Name, ftype: byte): (b: Block)
    requires |name| <= 255
    ensures Seg(b, 0, FreshChain(ino, name, ftype), BLOCK_SIZE)
  {
    var b := PutRec(Zeros(BLOCK_SIZE), 0, Rec(ino, 512, name, ftype));
    SegOne(b, 0, Rec(ino, 512, name, ftype));
    b
  }

  /** The disk after an inode record and then a block were written. */
  function InodeThenBlock(bl: seq<Block>, p: nat, record: Inode, b: nat, x: Block): seq<Block>
    requires |bl| >= BLOCKS_PER_GROUP && 1 <= p <= INODES_PER_GROUP && record.WellSized() && b < |bl|
  {
    var lba := INODE_TABLE_LBA + SlotBlock(p);
    bl[lba := PutInode(bl[lba], SlotOffset(p), record)][b := x]
  }

  lemma ThenBlockPads(bl: seq<Block>, p: nat, record: Inode, b: nat, x: Block)
    requires |bl| >= BLOCKS_PER_GROUP && 1 <= p <= INODES_PER_GROUP && record.WellSized()
    requires ROOT_DIR_BLOCK_LBA <= b < |bl|
    ensures Pads(InodeThenBlock(bl, p, record, b, x)) == Pads(bl)
  {
    hide Beyond, PutInode;
  }

  /** A directory gains a block: first its inode is written, then the block. */
  lemma DirGrown(bl: seq<Block>, v: Vol, p: nat, b: u32, x: Block, c: seq<Rec>)
    requires Repr(bl, v) && p in v.objs && v.objs[p].Dir? && 1 <= p <= INODES_PER_GROUP
    requires |v.objs[p].chains| < DIRECT_BLOCKS
    requires ROOT_DIR_BLOCK_LBA <= b < BLOCKS_PER_GROUP && b < |bl|
    requires forall n, y | n in v.objs && y in Blocks(v.objs[n]) :: y != b
    requires Seg(x, 0, c, BLOCK_SIZE) && Tiled(c)
    ensures |bl| >= BLOCKS_PER_GROUP && ObjOK(v.objs[p]) && InodeOf(v.objs[p]).blocks < 12
      && InodeOf(v.objs[p]).size < 6144
    ensures var o := Dir(v.objs[p].blks + [b], v.objs[p].chains + [c]);
      var record := GrownRecord(InodeOf(v.objs[p]), |v.objs[p].chains|, b);
      Repr(InodeThenBlock(bl, p, record, b, x), Vol(v.objs[p := o], v.used, v.inos))
  {
    hide MetaOn, DataOn, Placement, Seg, Tiled, InodeAt, InodeFor, InodeOf, PutInode, Blocks, GrownRecord;
    var o := v.objs[p];
    assert ObjOK(o);
    GrownInode(o, b, c);
    var w := Dir(o.blks + [b], o.chains + [c]);
    FreeBlockWrite(bl, v, b, x);
    GrownDirOn(bl, v, p, b, x, c);
    GrownRange(v.objs, p, b, c);
    InodeWrite(bl[b := x], v, p, w);
    var lba := INODE_TABLE_LBA + SlotBlock(p);
    assert bl[lba := PutInode(bl[lba], SlotOffset(p), InodeOf(w))][b := x]
        == bl[b := x][lba := PutInode(bl[b := x][lba], SlotOffset(p), InodeOf(w))];
  }

  lemma GrownDirOn(bl: seq<Block>, v: Vol, p: nat, b: u32, x: Block, c: seq<Rec>)
    requires Repr(bl, v) && p in v.objs && v.objs[p].Dir? && b < |bl|
    requires forall n, y | n in v.objs && y in Blocks(v.objs[n]) :: y != b
    requires Seg(x, 0, c, BLOCK_SIZE)
    ensures ObjOn(bl[b := x], Dir(v.objs[p].blks + [b], v.objs[p].chains + [c]))
  {
    hide MetaOn, TableOn, Placement, Seg;
    var o := v.objs[p];
    assert ObjOn(bl, o);
    forall k | 0 <= k < |o.blks| ensures o.blks[k] != b {
      assert o.blks[k] in Blocks(o);
    }
  }

  lemma GrownRange(objs: map<nat, Obj>, p: nat, b: u32, c: seq<Rec>)
    requires Placement(objs) && p in objs && objs[p].Dir? && ROOT_DIR_BLOCK_LBA <= b < BLOCKS_PER_GROUP
    ensures var w := Dir(objs[p].blks + [b], objs[p].chains + [c]);
      forall y | y in Blocks(w) :: ROOT_DIR_BLOCK_LBA <= y < BLOCKS_PER_GROUP
  {
    var w := Dir(objs[p].blks + [b], objs[p].chains + [c]);
    forall y | y in Blocks(w) ensures ROOT_DIR_BLOCK_LBA <= y < BLOCKS_PER_GROUP {
      assert y in objs[p].blks || y == b;
      assert y in objs[p].blks ==> y in Blocks(objs[p]);
    }
  }

  /** A block that was free is owned by nobody. */
  lemma FreeUnowned(v: Vol, b: nat)
    requires WellOwned(v) && b !in v.used
    ensures forall n, y | n in v.objs && y in Blocks(v.objs[n]) :: y != b
  {
    forall n, y | n in v.objs && y in Blocks(v.objs[n]) ensures y != b {
      assert Owns(v, n, y);
    }
  }

  // ---------------------------------------------------------------- new directories

  /** The first block of a new directory, as `write` and `create_ext2` build it. */
  function DotBlock(self: u32, parent: u32): (b: Block)
    ensures Seg(b, 0, DotChain(self, parent), BLOCK_SIZE)
  {
    var c := PutRec(Zeros(BLOCK_SIZE), 0, Rec(self, 12, DOT, FT_DIR));
    var b := PutRec(c, 12, Rec(parent, 500, DOTDOT, FT_DIR));
    RecAtFrame(c, b, 0, Rec(self, 12, DOT, FT_DIR));
    SegTwo(b, 0, Rec(self, 12, DOT, FT_DIR), Rec(parent, 500, DOTDOT, FT_DIR));
    b
  }

  /** The inode of a new directory before it has a block. */
  function BareDir(): (i: Inode)
    ensures i.WellSized()
  {
    ZeroInode().(mode := DIR_MODE, links := 2)
  }

  lemma NewDirInode(b: u32, self: u32, parent: u32)
    ensures ObjOK(Dir([b], [DotChain(self, parent)]))
    ensures InodeOf(Dir([b], [DotChain(self, parent)])) == 
            BareDir().(block := BareDir().block[0 := b], blocks := 1, size := BLOCK_SIZE)
  {
    hide Tiled;
    DotTiled(self, parent);
    var o := Dir([b], [DotChain(self, parent)]);
    assert BlockMap(o) == BareDir().block[0 := b];
  }

  lemma NewDirOn(bl: seq<Block>, b: u32, self: u32, parent: u32)
    requires b < |bl| && bl[b] == DotBlock(self, parent)
    ensures DirOn(bl, [b], [DotChain(self, parent)])
  {
    hide Seg, DotBlock, DotChain;
    DotSeg(self, parent);
  }

  lemma DotSeg(self: u32, parent: u32)
    ensures Seg(DotBlock(self, parent), 0, DotChain(self, parent), BLOCK_SIZE)
  {
    hide Seg;
  }

  // ---------------------------------------------------------------- raw directory contents

  /** The raw blocks of a directory, in order. */
  function DirBlocks(bl: seq<Block>, o: Obj): (r: seq<Block>)
    ensures |r| == |o.blks|
  {
    seq(|o.blks|, k requires 0 <= k < |o.blks| => if o.blks[k] < |bl| then bl[o.blks[k]] else Zeros(BLOCK_SIZE))
  }

  /** The first `n` raw bytes of directory `p`. */
  function DirBytes(bl: seq<Block>, v: Vol, p: nat, n: nat): seq<byte> {
    if p !in v.objs || !v.objs[p].Dir? then []
    else Join(DirBlocks(bl, v.objs[p]))[..Min(n, BLOCK_SIZE * |v.objs[p].blks|)]
  }
}
