/** The filesystem driver: cached metadata over a disk of bytes. */
module Ext2Driver {
  import opened Bytes
  import opened RamDisks
  import opened Layout
  import opened Records
  import opened Directories
  import opened Volumes
  import opened Operations
  import opened Invariants
  import opened Coupling
  import opened FileRuns
  import opened Format
  import opened DirectoryBlocks
  import T = Trees

  /** An uninitialised block buffer: nothing is promised about its bytes. */
  method ScratchBlock() returns (b: Block) {
    b := Zeros(BLOCK_SIZE);
  }

  /** The bitmap scan of both allocators: the first clear bit below `n`, or `n`. */
  method FirstClearBit(bitmap: Block, n: nat) returns (i: nat)
    requires n <= 8 * BLOCK_SIZE
    ensures i <= n
    ensures i < n ==> !TestBit(bitmap, i)
    ensures forall j | 0 <= j < i :: TestBit(bitmap, j)
  {
    hide TestBit;
    i := 0;
    while i < n
      invariant i <= n
      invariant forall j | 0 <= j < i :: TestBit(bitmap, j)
    {
      if !TestBit(bitmap, i) {
        return;
      }
      i := i + 1;
    }
  }

  // ---------------------------------------------------------------- facts the driver relies on

  lemma ZeroBits()
    ensures forall j | 0 <= j < 8 * BLOCK_SIZE :: !TestBit(Zeros(BLOCK_SIZE), j)
  {
    forall j | 0 <= j < 8 * BLOCK_SIZE ensures !TestBit(Zeros(BLOCK_SIZE), j) {
      ZeroBitmap(BLOCK_SIZE, j);
    }
  }

  lemma FreshSized()
    ensures Sized(FreshVol())
  {
    FreshOwners();
  }

  lemma MagicOf(v: Vol)
    requires |v.used| <= BLOCKS_PER_GROUP && |v.inos| <= INODES_PER_GROUP
    ensures Magic(SuperOf(v)) == EXT2_SUPER_MAGIC
  {}

  lemma StructStored(b: Block, ws: seq<u32>)
    requires 4 * |ws| <= BLOCK_SIZE
    requires exists c: Block :: b == Splice(c, 0, WordBytes(ws))
    ensures WordsAt(b, 0, |ws|) == ws
  {
    var c: Block :| b == Splice(c, 0, WordBytes(ws));
    SpliceSlice(c, 0, WordBytes(ws));
    WordsRoundTrip(b, 0, ws);
  }

  lemma FullBlocks(used: set<nat>)
    requires forall b | 0 <= b < BLOCKS_PER_GROUP :: b in used
    ensures NextBlock(used) == 0
  {
    LowestFreeUnique(used, 0, BLOCKS_PER_GROUP, BLOCKS_PER_GROUP);
  }

  lemma FirstBlock(v: Vol, i: nat)
    requires Sized(v)
    requires i < BLOCKS_PER_GROUP && i !in v.used && forall j | 0 <= j < i :: j in v.used
    ensures NextBlock(v.used) == i && i != 0
  {
    assert 0 in v.used;
    LowestFreeUnique(v.used, 0, BLOCKS_PER_GROUP, i);
  }

  lemma FullInodes(inos: set<nat>)
    requires forall n | 1 <= n <= INODES_PER_GROUP :: n in inos
    ensures NextInode(inos) == 0
  {
    LowestFreeUnique(inos, 1, INODES_PER_GROUP + 1, INODES_PER_GROUP + 1);
  }

  lemma FirstInode(v: Vol, i: nat)
    requires i < INODES_PER_GROUP && i + 1 !in v.inos && forall n | 1 <= n <= i :: n in v.inos
    ensures NextInode(v.inos) == i + 1
  {
    LowestFreeUnique(v.inos, 1, INODES_PER_GROUP + 1, i + 1);
  }

  lemma DirRechained(v: Vol, p: nat, o: Obj)
    requires Sized(v) && p in v.objs
    ensures Sized(v.(objs := v.objs[p := o]))
  {}

  lemma FreedStep(s: set<nat>, blks: seq<u32>, i: nat)
    requires i < |blks|
    ensures s - SetOf(blks[..i]) - {blks[i] as nat} == s - SetOf(blks[..i + 1])
  {
    assert blks[..i + 1] == blks[..i] + [blks[i]];
    SetOfSnoc(blks[..i], blks[i]);
  }

  lemma OwnedInRange(o: Obj)
    requires ObjOK(o) && forall b | b in Blocks(o) :: INITIAL_USED_BLOCKS <= b < BLOCKS_PER_GROUP
    ensures forall k | 0 <= k < |o.blks| :: INITIAL_USED_BLOCKS <= o.blks[k] < BLOCKS_PER_GROUP
    ensures o.File? && o.ind != 0 ==> INITIAL_USED_BLOCKS <= o.ind < BLOCKS_PER_GROUP
  {
    assert forall k | 0 <= k < |o.blks| :: o.blks[k] in Blocks(o);
    if o.File? && o.ind != 0 {
      assert Blocks(o)[|o.blks|] == o.ind;
      assert o.ind in Blocks(o);
    }
  }

  lemma MapEntries(o: Obj)
    requires ObjOK(o)
    ensures InodeOf(o).block[DIRECT_BLOCKS] == if o.File? then o.ind else 0
    ensures forall k | 0 <= k < DIRECT_BLOCKS :: InodeOf(o).block[k] == if k < |o.blks| then o.blks[k] else 0
  {}

  lemma ObjOnKept(bl: seq<Block>, cl: seq<Block>, o: Obj)
    requires ObjOn(bl, o) && OnlyCounters(bl, cl) && |bl| >= BLOCKS_PER_GROUP
    requires forall b | b in Blocks(o) :: ROOT_DIR_BLOCK_LBA <= b < BLOCKS_PER_GROUP
    ensures ObjOn(cl, o) && (o.File? ==> FileOn(cl, o))
  {
    hide FileOn, DirOn, Blocks;
    ObjFrame(bl, cl, o);
  }

  /** Direct, indirect and table blocks together are all the blocks of the object. */
  lemma FreedAll(used: set<nat>, o: Obj)
    requires ObjOK(o)
    ensures var direct := SetOf(o.blks[..Min(|o.blks|, DIRECT_BLOCKS)]);
      if InodeOf(o).block[DIRECT_BLOCKS] == 0 then used - direct == used - SetOf(Blocks(o))
      else used - direct - SetOf(o.blks[DIRECT_BLOCKS..]) - {o.ind as nat} == used - SetOf(Blocks(o))
  {
    hide SetOf;
    if o.File? && o.ind != 0 {
      SetOfSnoc(o.blks, o.ind);
      SetOfConcat(o.blks[..DIRECT_BLOCKS], o.blks[DIRECT_BLOCKS..]);
      assert o.blks == o.blks[..DIRECT_BLOCKS] + o.blks[DIRECT_BLOCKS..];
    } else {
      assert o.blks[..|o.blks|] == o.blks;
    }
  }

  lemma DiscardIs(v: Vol, n: nat)
    requires n in v.objs
    ensures Discard(v, n) == Vol(v.objs - {n}, v.used - SetOf(Blocks(v.objs[n])), v.inos - {n})
  {}

  /** How much of block `i` of the data there is to copy. */
  lemma CopySize(n: nat, i: nat)
    requires i < CeilDiv(n)
    ensures var rest := if i == CeilDiv(n) - 1 then n % BLOCK_SIZE else BLOCK_SIZE;
      (if rest == 0 then BLOCK_SIZE else rest) == Min(BLOCK_SIZE, n - BLOCK_SIZE * i) > 0
  {}

  lemma ChunkFilled(src: seq<byte>, i: nat, copy: nat)
    requires BLOCK_SIZE * i <= |src| && copy == Min(BLOCK_SIZE, |src| - BLOCK_SIZE * i)
    ensures Splice(Zeros(BLOCK_SIZE), 0, src[i * BLOCK_SIZE..i * BLOCK_SIZE + copy]) == Chunk(src, i)
  {
    assert src[i * BLOCK_SIZE..i * BLOCK_SIZE + copy] == src[BLOCK_SIZE * i..BLOCK_SIZE * i + copy];
  }

  lemma PointerAdded(bs: seq<u32>, start: seq<u32>, blk: u32)
    requires |bs| < |start|
    ensures (bs + start[|bs|..])[|bs| := blk] == bs + [blk] + start[|bs| + 1..]
  {}

  lemma FreedNone(v: Vol, blks: seq<u32>)
    ensures v == v.(used := v.used - SetOf(blks[..0]))
  {
    assert v.used - SetOf(blks[..0]) == v.used;
  }

  lemma CountersSame(bl: seq<Block>)
    ensures OnlyCounters(bl, bl)
  {}

  lemma CountersChain(bl: seq<Block>, cl: seq<Block>, dl: seq<Block>)
    requires OnlyCounters(bl, cl) && OnlyCounters(cl, dl)
    ensures OnlyCounters(bl, dl)
  {}

  /** The parent is still a directory of a sound volume when its entry is added. */
  lemma ParentStays(v: Vol, p: nat, isDir: bool, src: seq<byte>)
    requires VolOK(v) && IsDirObj(v, p) && |src| <= 0xFFFF_FE00 && p <= INODES_PER_GROUP
    requires NextInode(v.inos) != 0 && (isDir ==> NextBlock(v.used) != 0)
    ensures var w := Placed(v, p, isDir, src);
      && WellOwned(w) && IsDirObj(w, p)
      && w == Place(v, NextInode(v.inos), NewObj(v, NextInode(v.inos), p, isDir, src))
  {
    hide WellOwned, Exact, DirsOK, NextInode, NextBlock, NewObj;
    PlacedOK(v, p, isDir, src);
  }

  /** Removing the entry leaves the target object and its blocks in place. */
  lemma TargetStays(v: Vol, p: nat, name: Name)
    requires Inv(v) && name != DOT && name != DOTDOT && Lookup(v, p, name) != 0
    requires IsDirObj(v, p) && AllTiled(v.objs[p].chains)
    requires BlockWithName(v.objs[p].chains, name) < |v.objs[p].chains|
    ensures var c, w := Lookup(v, p, name), RemoveEntry(v, p, name);
      && c as nat in w.objs && w.objs[c] == v.objs[c]
      && forall b | b in Blocks(w.objs[c]) :: INITIAL_USED_BLOCKS <= b
  {
    hide Exact, DirsOK, T.WfTree, DirKids, AllTiled, BlockWithName, ObjOK;
    LookupTarget(v, p, name);
    var c := Lookup(v, p, name);
    RemovedOthers(v, p, name, c);
    forall b | b in Blocks(v.objs[c]) ensures INITIAL_USED_BLOCKS <= b {
      assert Owns(v, c, b);
    }
  }

  lemma JoinStep(data: seq<Block>, k: nat, chunk: nat)
    requires k < |data| && chunk <= BLOCK_SIZE
    ensures BLOCK_SIZE * k + chunk <= |Join(data)|
    ensures Join(data)[BLOCK_SIZE * k..BLOCK_SIZE * k + chunk] == data[k][..chunk]
  {
    hide Join;
    JoinAt(data, k);
    SliceOfSlice(Join(data), BLOCK_SIZE * k, BLOCK_SIZE, 0, chunk);
  }

  lemma CopyStep(cur: seq<byte>, orig: seq<byte>, done: nat, s: seq<byte>, all: seq<byte>)
    requires |cur| == |orig| && done + |s| <= |cur| && done + |s| <= |all|
    requires cur[..done] == all[..done] && cur[done..] == orig[done..]
    requires all[done..done + |s|] == s
    ensures var r := cur[..done] + s + cur[done + |s|..];
      r[..done + |s|] == all[..done + |s|] && r[done + |s|..] == orig[done + |s|..]
  {
    assert all[..done + |s|] == all[..done] + all[done..done + |s|];
    assert cur[done + |s|..] == cur[done..][|s|..];
    assert orig[done + |s|..] == orig[done..][|s|..];
  }

  lemma CopyDone(now: seq<byte>, before: seq<byte>, done: nat, all: seq<byte>)
    requires |now| == |before| && done <= |now| && done <= |all|
    requires now[..done] == all[..done] && now[done..] == before[done..]
    ensures CopiedOut(now, before, all[..done])
  {
    assert now == now[..done] + now[done..];
  }

  // ---------------------------------------------------------------- the driver

  class Ext2 {
    const disk: RamDisk
    var sb: Superblock
    var gd: GroupDesc
    var initialized: bool
    ghost var vol: Vol
    ghost var pads: (seq<bool>, seq<bool>)

    /** Static storage at boot: nothing is loaded yet. */
    constructor (disk: RamDisk)
      ensures this.disk == disk && !initialized
    {
      this.disk := disk;
      sb, gd := seq(51, _ => 0), seq(8, _ => 0);
      initialized := false;
      vol, pads := Vol(map[], {}, {}), ([], []);
    }

    /** Disk and caches hold the volume, and bits past the group's range are what they always were; the volume may
        be in the middle of an operation. */
    ghost predicate Synced()
      reads this, disk, disk.image
    {
      && disk.Valid() && initialized
      && Sized(vol) && Repr(disk.blocks, vol)
      && sb == SuperOf(vol) && gd == DescOf(vol)
      && Pads(disk.blocks) == pads
    }

    /** The caches are the two structs on the disk. */
    ghost predicate Loaded()
      reads this, disk
    {
      && |disk.blocks| >= BLOCKS_PER_GROUP
      && sb == WordsAt(disk.blocks[SUPERBLOCK_LBA], 0, SUPER_WORDS)
      && gd == WordsAt(disk.blocks[BGDT_LBA], 0, DESC_WORDS)
    }

    /** The state between operations. */
    ghost predicate Ready()
      reads this, disk, disk.image
    {
      initialized && Synced() && Inv(vol)
    }

    // -------------------------------------------------------------- format and mount

    /** Boot signature, superblock and group descriptor. */
    method FormatHeaders()
      requires disk.Valid() && |disk.blocks| >= BLOCKS_PER_GROUP
      modifies this`sb, this`gd, disk, disk.image
      ensures disk.Valid() && |disk.blocks| == old(|disk.blocks|)
      ensures disk.blocks[BOOT_SECTOR] == Signature()
      ensures sb == SuperWith(TOTAL_BLOCKS - INITIAL_USED_BLOCKS, TOTAL_INODES - INITIAL_USED_INODES)
      ensures gd == DescWith(BLOCKS_PER_GROUP - INITIAL_USED_BLOCKS, INODES_PER_GROUP - INITIAL_USED_INODES)
      ensures WordsAt(disk.blocks[SUPERBLOCK_LBA], 0, SUPER_WORDS) == sb
      ensures WordsAt(disk.blocks[BGDT_LBA], 0, DESC_WORDS) == gd
    {
      hide RamDisk.Valid, WordsAt, SuperWith, DescWith, Signature;
      disk.WriteBlocks(Signature(), BOOT_SECTOR, 1);
      sb := SuperWith(TOTAL_BLOCKS - INITIAL_USED_BLOCKS, TOTAL_INODES - INITIAL_USED_INODES);
      var buffer: Block := Splice(Zeros(BLOCK_SIZE), 0, WordBytes(sb));
      StructStored(buffer, sb);
      disk.WriteBlocks(buffer, SUPERBLOCK_LBA, 1);
      gd := DescWith(BLOCKS_PER_GROUP - INITIAL_USED_BLOCKS, INODES_PER_GROUP - INITIAL_USED_INODES);
      buffer := Splice(Zeros(BLOCK_SIZE), 0, WordBytes(gd));
      StructStored(buffer, gd);
      disk.WriteBlocks(buffer, BGDT_LBA, 1);
    }

    /** A bitmap block with exactly the bits below `n` set. */
    method LowBits(n: nat) returns (buffer: Block)
      requires n <= 8 * BLOCK_SIZE
      ensures forall j | 0 <= j < 8 * BLOCK_SIZE :: TestBit(buffer, j) <==> j < n
    {
      hide SetBit, TestBit;
      buffer := Zeros(BLOCK_SIZE);
      ZeroBits();
      var i := 0;
      while i < n
        invariant i <= n
        invariant forall j | 0 <= j < 8 * BLOCK_SIZE :: TestBit(buffer, j) <==> j < i
      {
        buffer := SetBit(buffer, i);
        i := i + 1;
      }
    }

    /** Both bitmaps: blocks 0 to 21 and inodes 1 to 11 in use. */
    method FormatBitmaps()
      requires disk.Valid() && |disk.blocks| >= BLOCKS_PER_GROUP
      modifies disk, disk.image
      ensures disk.Valid() && |disk.blocks| == old(|disk.blocks|)
      ensures forall k | 0 <= k < |disk.blocks| && k != BLOCK_BITMAP_LBA && k != INODE_BITMAP_LBA ::
        disk.blocks[k] == old(disk.blocks[k])
      ensures BitsOn(disk.blocks[BLOCK_BITMAP_LBA], FreshVol().used)
      ensures InodeBitsOn(disk.blocks[INODE_BITMAP_LBA], FreshVol().inos)
    {
      hide RamDisk.Valid, TestBit, FreshVol;
      FreshSets();
      var buffer := LowBits(ROOT_DIR_BLOCK_LBA + 1);
      disk.WriteBlocks(buffer, BLOCK_BITMAP_LBA, 1);
      buffer := LowBits(INITIAL_USED_INODES);
      disk.WriteBlocks(buffer, INODE_BITMAP_LBA, 1);
    }

    /** Clears the inode table, then stores the root's inode and block. */
    method FormatTable()
      requires disk.Valid() && |disk.blocks| >= BLOCKS_PER_GROUP && InodeTable(gd) == INODE_TABLE_LBA
      modifies disk, disk.image
      ensures disk.Valid() && |disk.blocks| == old(|disk.blocks|)
      ensures forall k | 0 <= k < INODE_TABLE_LBA :: disk.blocks[k] == old(disk.blocks[k])
      ensures TableOn(disk.blocks, FreshVol().objs)
      ensures DataOn(disk.blocks, FreshVol().objs) && Placement(FreshVol().objs)
    {
      hide RamDisk.Valid, PutInode, DotBlock, FreshVol, BareDir;
      for i := 0 to INODES_TABLE_BLOCK_COUNT
        invariant disk.Valid() && |disk.blocks| == old(|disk.blocks|)
        invariant forall k | 0 <= k < INODE_TABLE_LBA :: disk.blocks[k] == old(disk.blocks[k])
        invariant forall k | INODE_TABLE_LBA <= k < INODE_TABLE_LBA + i :: disk.blocks[k] == Zeros(BLOCK_SIZE)
      {
        disk.WriteBlocks(Zeros(BLOCK_SIZE), INODE_TABLE_LBA + i, 1);
      }
      ghost var zl := disk.blocks;
      NewDirInode(ROOT_DIR_BLOCK_LBA, ROOT_INODE_NO, ROOT_INODE_NO);
      var root := BareDir();
      root := root.(size := BLOCK_SIZE, blocks := 1, block := root.block[0 := ROOT_DIR_BLOCK_LBA]);
      WriteInode(ROOT_INODE_NO, root);
      disk.WriteBlocks(DotBlock(ROOT_INODE_NO, ROOT_INODE_NO), ROOT_DIR_BLOCK_LBA, 1);
      FreshSets();
      FreshTable(disk.blocks, zl, RootObj());
      FreshData(disk.blocks);
    }

    method CreateExt2()
      requires disk.Valid() && |disk.blocks| >= BLOCKS_PER_GROUP
      modifies this, disk, disk.image
      ensures Ready() && vol == FreshVol()
    {
      hide RamDisk.Valid, WordsAt, TableOn, DataOn, Placement, BitsOn, InodeBitsOn, FreshVol, Inv, SuperWith,
           DescWith, Signature;
      FreshSets();
      FreshInv();
      DescCounts(BLOCKS_PER_GROUP - INITIAL_USED_BLOCKS, INODES_PER_GROUP - INITIAL_USED_INODES, 0);
      FormatHeaders();
      FormatBitmaps();
      FormatTable();
      vol, pads := FreshVol(), Pads(disk.blocks);
      initialized := true;
      FreshSized();
    }

    /** `is_empty_storage`: the boot block does not carry the signature. */
    method IsEmptyStorage() returns (empty: bool)
      requires disk.Valid() && |disk.blocks| > 0
      ensures empty <==> disk.blocks[BOOT_SECTOR] != Signature()
    {
      var buffer := disk.ReadBlocks(BOOT_SECTOR, 1);
      empty := buffer != Signature();
    }

    /** Mounts the disk. A disk without the signature is formatted. One that carries it is loaded: no block is
        rewritten, the caches are what the disk says, and the driver starts if the magic number is right; if the
        disk holds a sound volume, that is the volume then. */
    method Initialize(ghost v: Vol)
      requires disk.Valid() && |disk.blocks| >= BLOCKS_PER_GROUP
      modifies this, disk, disk.image
      ensures old(disk.blocks[BOOT_SECTOR]) != Signature() ==> Ready() && vol == FreshVol()
      ensures old(disk.blocks[BOOT_SECTOR]) == Signature() ==>
        disk.Valid() && disk.blocks == old(disk.blocks) && Loaded()
      ensures old(disk.blocks[BOOT_SECTOR]) == Signature() ==>
        initialized == old(initialized || (disk.blocks[1][56] == 0x53 && disk.blocks[1][57] == 0xEF))
      ensures old(Repr(disk.blocks, v)) && Inv(v) ==> Ready() && vol == v
    {
      hide RamDisk.Valid, TableOn, DataOn, Placement, BitsOn, InodeBitsOn, FreshVol, WellOwned, Exact, DirsOK, T.WfTree,
           SuperWith, DescWith, Signature, WordsAt, Pads;
      var empty := IsEmptyStorage();
      if empty {
        CreateExt2();
        initialized := true;
      } else {
        var buffer := disk.ReadBlocks(SUPERBLOCK_LBA, 1);
        sb := WordsAt(buffer, 0, SUPER_WORDS);
        MagicBytes(buffer);
        buffer := disk.ReadBlocks(BGDT_LBA, 1);
        gd := WordsAt(buffer, 0, DESC_WORDS);
        vol, pads := v, Pads(disk.blocks);
        if Repr(disk.blocks, v) {
          MagicOf(v);
        }
        if Magic(sb) == EXT2_SUPER_MAGIC {
          initialized := true;
        }
      }
    }

    // -------------------------------------------------------------- inodes

    method ReadInode(n: nat) returns (ok: bool, i: Inode)
      requires Synced() && n <= INODES_PER_GROUP
      ensures ok <==> n != 0
      ensures i.WellSized()
      ensures ok ==> i == InodeFor(vol.objs, n)
    {
      hide RamDisk.Valid, Sized, MetaOn, DataOn, Placement, InodeFor, InodeIn;
      if n == 0 {
        return false, ZeroInode();
      }
      GdTable();
      var buf := disk.ReadBlocks(InodeTable(gd) + SlotBlock(n), 1);
      i := InodeIn(buf, SlotOffset(n));
      ok := true;
      assert i == InodeAt(disk.blocks, n);
    }

    lemma GdTable()
      requires Synced()
      ensures InodeTable(gd) == INODE_TABLE_LBA && |disk.blocks| >= BLOCKS_PER_GROUP
    {
      hide RamDisk.Valid, Pads, Sized, TableOn, DataOn, Placement;
    }

    method WriteInode(n: nat, i: Inode)
      requires disk.Valid() && |disk.blocks| >= BLOCKS_PER_GROUP && InodeTable(gd) == INODE_TABLE_LBA
      requires n <= INODES_PER_GROUP && i.WellSized()
      modifies disk, disk.image
      ensures disk.Valid()
      ensures var lba := INODE_TABLE_LBA + SlotBlock(n);
        disk.blocks == if n == 0 then old(disk.blocks)
                       else old(disk.blocks)[lba := PutInode(old(disk.blocks)[lba], SlotOffset(n), i)]
    {
      if n == 0 {
        return;
      }
      var lba := InodeTable(gd) + SlotBlock(n);
      var buf := disk.ReadBlocks(lba, 1);
      disk.WriteBlocks(PutInode(buf, SlotOffset(n), i), lba, 1);
    }

    // -------------------------------------------------------------- allocation

    /** Writes both cached structs through a scratch block whose other bytes are unspecified. */
    method FlushCounters()
      requires disk.Valid() && |disk.blocks| >= BLOCKS_PER_GROUP
      modifies disk, disk.image
      ensures disk.Valid() && |disk.blocks| == old(|disk.blocks|)
      ensures forall k | 0 <= k < |disk.blocks| && k != SUPERBLOCK_LBA && k != BGDT_LBA ::
        disk.blocks[k] == old(disk.blocks[k])
      ensures WordsAt(disk.blocks[SUPERBLOCK_LBA], 0, SUPER_WORDS) == sb
      ensures WordsAt(disk.blocks[BGDT_LBA], 0, DESC_WORDS) == gd
    {
      hide WordsAt;
      var meta := ScratchBlock();
      meta := Splice(meta, 0, WordBytes(sb));
      StructStored(meta, sb);
      disk.WriteBlocks(meta, SUPERBLOCK_LBA, 1);
      meta := Splice(meta, 0, WordBytes(gd));
      StructStored(meta, gd);
      disk.WriteBlocks(meta, BGDT_LBA, 1);
    }

    method AllocateBlock() returns (r: u32)
      requires Synced()
      modifies this`sb, this`gd, this`vol, disk, disk.image
      ensures Synced()
      ensures r == NextBlock(old(vol.used))
      ensures vol == if r == 0 then old(vol) else old(vol).(used := old(vol.used) + {r as nat})
      ensures OnlyCounters(old(disk.blocks), disk.blocks)
    {
      hide RamDisk.Valid, Repr, NextBlock, LowestFree, SetBit, TestBit, Sized;
      SizedCards(vol);
      GdCounts();
      if FreeBlocksCount(gd) == 0 {
        FullBlocks(vol.used);
        return 0;
      }
      var bitmap := disk.ReadBlocks(BLOCK_BITMAP_LBA, 1);
      var i := FirstClearBit(bitmap, BLOCKS_PER_GROUP);
      BlockBits();
      if i < BLOCKS_PER_GROUP {
        FirstBlock(vol, i);
        ClaimBlock(SetBit(bitmap, i), i);
        r := i;
      } else {
        FullBlocks(vol.used);
        r := 0;
      }
    }

    lemma GdCounts()
      requires Synced()
      ensures |vol.used| <= BLOCKS_PER_GROUP && |vol.inos| <= INODES_PER_GROUP
      ensures FreeBlocksCount(gd) == BLOCKS_PER_GROUP - |vol.used|
      ensures FreeInodesCount(gd) == INODES_PER_GROUP - |vol.inos|
      ensures |disk.blocks| >= BLOCKS_PER_GROUP
    {
      hide RamDisk.Valid, Pads, Sized, TableOn, DataOn, Placement;
    }

    lemma BlockBits()
      requires Synced()
      ensures |disk.blocks| >= BLOCKS_PER_GROUP
      ensures forall i | 0 <= i < BLOCKS_PER_GROUP :: TestBit(disk.blocks[BLOCK_BITMAP_LBA], i) <==> i in vol.used
    {
      hide RamDisk.Valid, Pads, Sized, TableOn, DataOn, Placement, TestBit;
    }

    /** Writes the bitmap back and takes one block off the counters. */
    method ClaimBlock(bitmap: Block, i: nat)
      requires Synced() && i < BLOCKS_PER_GROUP && i !in vol.used
      requires bitmap == SetBit(disk.blocks[BLOCK_BITMAP_LBA], i)
      modifies this`sb, this`gd, this`vol, disk, disk.image
      ensures Synced() && vol == old(vol).(used := old(vol.used) + {i})
      ensures OnlyCounters(old(disk.blocks), disk.blocks)
    {
      hide RamDisk.Valid, Repr, Beyond, SetBit, Sized, SuperOf, DescOf, FreeBlocksCount, SetFreeBlocksCount, WordsAt,
           BitsOn, InodeBitsOn;
      MetaFacts();
      BlockSet(vol, i);
      BitmapSet(bitmap, vol.used, i);
      disk.WriteBlocks(bitmap, BLOCK_BITMAP_LBA, 1);
      sb := sb[SB_FREE_BLOCKS := sb[SB_FREE_BLOCKS] - 1];
      gd := SetFreeBlocksCount(gd, FreeBlocksCount(gd) - 1);
      FlushCounters();
      CountersWritten(old(disk.blocks), disk.blocks, vol, vol.(used := vol.used + {i}));
      vol := vol.(used := vol.used + {i});
    }

    lemma MetaFacts()
      requires Synced()
      ensures |disk.blocks| >= BLOCKS_PER_GROUP
      ensures |vol.used| <= BLOCKS_PER_GROUP && |vol.inos| <= INODES_PER_GROUP
      ensures BitsOn(disk.blocks[BLOCK_BITMAP_LBA], vol.used)
      ensures InodeBitsOn(disk.blocks[INODE_BITMAP_LBA], vol.inos)
    {
      hide RamDisk.Valid, Pads, Sized, TableOn, DataOn, Placement;
    }

    lemma BitmapSet(bitmap: Block, used: set<nat>, i: nat)
      requires Synced() && i < BLOCKS_PER_GROUP && used == vol.used
      requires bitmap == SetBit(disk.blocks[BLOCK_BITMAP_LBA], i)
      ensures BitsOn(bitmap, used + {i})
      ensures |disk.blocks| >= BLOCKS_PER_GROUP
        && Beyond(bitmap, BLOCKS_PER_GROUP) == Beyond(disk.blocks[BLOCK_BITMAP_LBA], BLOCKS_PER_GROUP)
    {
      hide RamDisk.Valid, Sized, TableOn, DataOn, Placement, SetBit, TestBit, Pads, Beyond;
      BeyondKept(disk.blocks[BLOCK_BITMAP_LBA], BLOCKS_PER_GROUP, i);
    }

    method DeallocateSingleBlock(b: nat)
      requires Synced() && (b == 0 || INITIAL_USED_BLOCKS <= b < BLOCKS_PER_GROUP)
      modifies this`sb, this`gd, this`vol, disk, disk.image
      ensures Synced()
      ensures vol == if b == 0 then old(vol) else old(vol).(used := old(vol.used) - {b})
      ensures OnlyCounters(old(disk.blocks), disk.blocks)
    {
      hide RamDisk.Valid, Repr, Beyond, ClearBit, TestBit, Sized, SuperOf, DescOf, FreeBlocksCount,
           SetFreeBlocksCount, WordsAt, BitsOn, InodeBitsOn;
      if b == 0 {
        return;
      }
      MetaFacts();
      BlockBits();
      var bitmap := disk.ReadBlocks(BLOCK_BITMAP_LBA, 1);
      if TestBit(bitmap, b) {
        BlockCleared(vol, b);
        bitmap := ClearBit(bitmap, b);
        BitmapClear(bitmap, vol.used, b);
        disk.WriteBlocks(bitmap, BLOCK_BITMAP_LBA, 1);
        sb := sb[SB_FREE_BLOCKS := sb[SB_FREE_BLOCKS] + 1];
        gd := SetFreeBlocksCount(gd, FreeBlocksCount(gd) + 1);
        FlushCounters();
        CountersWritten(old(disk.blocks), disk.blocks, vol, vol.(used := vol.used - {b}));
      } else {
        assert vol.used - {b} == vol.used;
        assert vol.(used := vol.used) == vol;
      }
      vol := vol.(used := vol.used - {b});
    }

    lemma BitmapClear(bitmap: Block, used: set<nat>, i: nat)
      requires Synced() && i < BLOCKS_PER_GROUP && used == vol.used
      requires bitmap == ClearBit(disk.blocks[BLOCK_BITMAP_LBA], i)
      ensures BitsOn(bitmap, used - {i})
      ensures |disk.blocks| >= BLOCKS_PER_GROUP
        && Beyond(bitmap, BLOCKS_PER_GROUP) == Beyond(disk.blocks[BLOCK_BITMAP_LBA], BLOCKS_PER_GROUP)
    {
      hide RamDisk.Valid, Sized, TableOn, DataOn, Placement, ClearBit, TestBit, Pads, Beyond;
      BeyondKept(disk.blocks[BLOCK_BITMAP_LBA], BLOCKS_PER_GROUP, i);
    }

    method AllocateNode() returns (r: u32)
      requires Synced()
      modifies this`sb, this`gd, this`vol, disk, disk.image
      ensures Synced()
      ensures r == NextInode(old(vol.inos))
      ensures vol == if r == 0 then old(vol) else old(vol).(inos := old(vol.inos) + {r as nat})
      ensures OnlyCounters(old(disk.blocks), disk.blocks)
    {
      hide RamDisk.Valid, Repr, NextInode, LowestFree, SetBit, TestBit, Sized;
      SizedCards(vol);
      GdCounts();
      if FreeInodesCount(gd) == 0 {
        FullInodes(vol.inos);
        return 0;
      }
      var bitmap := disk.ReadBlocks(INODE_BITMAP_LBA, 1);
      var i := FirstClearBit(bitmap, INODES_PER_GROUP);
      InodeBits();
      if i < INODES_PER_GROUP {
        FirstInode(vol, i);
        ClaimInode(SetBit(bitmap, i), i);
        r := i + 1;
      } else {
        FullInodes(vol.inos);
        r := 0;
      }
    }

    lemma InodeBits()
      requires Synced()
      ensures |disk.blocks| >= BLOCKS_PER_GROUP
      ensures forall n | 1 <= n <= INODES_PER_GROUP :: n in vol.inos <==> TestBit(disk.blocks[INODE_BITMAP_LBA], n - 1)
    {
      hide RamDisk.Valid, Pads, Sized, TableOn, DataOn, Placement, TestBit;
      var b := disk.blocks[INODE_BITMAP_LBA];
      forall n | 1 <= n <= INODES_PER_GROUP ensures n in vol.inos <==> TestBit(b, n - 1) {
        assert TestBit(b, n - 1) <==> n - 1 + 1 in vol.inos;
      }
    }

    method ClaimInode(bitmap: Block, i: nat)
      requires Synced() && i < INODES_PER_GROUP && i + 1 !in vol.inos
      requires bitmap == SetBit(disk.blocks[INODE_BITMAP_LBA], i)
      modifies this`sb, this`gd, this`vol, disk, disk.image
      ensures Synced() && vol == old(vol).(inos := old(vol.inos) + {i + 1})
      ensures OnlyCounters(old(disk.blocks), disk.blocks)
    {
      hide RamDisk.Valid, Repr, Beyond, SetBit, Sized, SuperOf, DescOf, FreeInodesCount, SetFreeInodesCount, WordsAt,
           BitsOn, InodeBitsOn;
      MetaFacts();
      InodeSet(vol, i + 1);
      InodeBitmapSet(bitmap, vol.inos, i);
      disk.WriteBlocks(bitmap, INODE_BITMAP_LBA, 1);
      sb := sb[SB_FREE_INODES := sb[SB_FREE_INODES] - 1];
      gd := SetFreeInodesCount(gd, FreeInodesCount(gd) - 1);
      FlushCounters();
      CountersWritten(old(disk.blocks), disk.blocks, vol, vol.(inos := vol.inos + {i + 1}));
      vol := vol.(inos := vol.inos + {i + 1});
    }

    lemma InodeBitmapSet(bitmap: Block, inos: set<nat>, i: nat)
      requires Synced() && i < INODES_PER_GROUP && inos == vol.inos
      requires bitmap == SetBit(disk.blocks[INODE_BITMAP_LBA], i)
      ensures InodeBitsOn(bitmap, inos + {i + 1})
      ensures |disk.blocks| >= BLOCKS_PER_GROUP
        && Beyond(bitmap, INODES_PER_GROUP) == Beyond(disk.blocks[INODE_BITMAP_LBA], INODES_PER_GROUP)
    {
      hide RamDisk.Valid, Sized, TableOn, DataOn, Placement, SetBit, TestBit, Pads, Beyond;
      BeyondKept(disk.blocks[INODE_BITMAP_LBA], INODES_PER_GROUP, i);
    }

    /** The end of `deallocate_node`: the inode's bit and count go back. */
    method ReleaseInode(n: nat)
      requires Synced() && INITIAL_USED_INODES < n <= INODES_PER_GROUP && n in vol.inos && n !in vol.objs
      modifies this`sb, this`gd, this`vol, disk, disk.image
      ensures Synced() && vol == old(vol).(inos := old(vol.inos) - {n})
      ensures OnlyCounters(old(disk.blocks), disk.blocks)
    {
      hide RamDisk.Valid, Repr, Beyond, ClearBit, Sized, SuperOf, DescOf, FreeInodesCount, SetFreeInodesCount,
           WordsAt, BitsOn, InodeBitsOn;
      MetaFacts();
      InodeCleared(vol, n);
      var bitmap := disk.ReadBlocks(INODE_BITMAP_LBA, 1);
      bitmap := ClearBit(bitmap, n - 1);
      InodeBitmapClear(bitmap, vol.inos, n - 1);
      disk.WriteBlocks(bitmap, INODE_BITMAP_LBA, 1);
      sb := sb[SB_FREE_INODES := sb[SB_FREE_INODES] + 1];
      gd := SetFreeInodesCount(gd, FreeInodesCount(gd) + 1);
      FlushCounters();
      CountersWritten(old(disk.blocks), disk.blocks, vol, vol.(inos := vol.inos - {n}));
      vol := vol.(inos := vol.inos - {n});
    }

    lemma InodeBitmapClear(bitmap: Block, inos: set<nat>, i: nat)
      requires Synced() && i < INODES_PER_GROUP && inos == vol.inos
      requires bitmap == ClearBit(disk.blocks[INODE_BITMAP_LBA], i)
      ensures InodeBitsOn(bitmap, inos - {i + 1})
      ensures |disk.blocks| >= BLOCKS_PER_GROUP
        && Beyond(bitmap, INODES_PER_GROUP) == Beyond(disk.blocks[INODE_BITMAP_LBA], INODES_PER_GROUP)
    {
      hide RamDisk.Valid, Sized, TableOn, DataOn, Placement, ClearBit, TestBit, Pads, Beyond;
      BeyondKept(disk.blocks[INODE_BITMAP_LBA], INODES_PER_GROUP, i);
    }

    // -------------------------------------------------------------- directories

    /** What the inode and the blocks of a directory hold. */
    lemma DirLayout(p: nat)
      requires Synced() && IsDirObj(vol, p)
      ensures |disk.blocks| >= BLOCKS_PER_GROUP && 1 <= p <= INODES_PER_GROUP
      ensures var o := vol.objs[p];
        && ObjOK(o) && 1 <= |o.blks| == |o.chains| <= DIRECT_BLOCKS && AllTiled(o.chains)
        && InodeFor(vol.objs, p) == InodeOf(o)
        && (forall k | 0 <= k < DIRECT_BLOCKS :: BlockMap(o)[k] == if k < |o.blks| then o.blks[k] else 0)
        && (forall k | 0 <= k < |o.blks| :: ROOT_DIR_BLOCK_LBA <= o.blks[k] < BLOCKS_PER_GROUP)
        && (forall k | 0 <= k < |o.blks| :: Seg(disk.blocks[o.blks[k]], 0, o.chains[k], BLOCK_SIZE))
    {
      hide MetaOn, AllTiled, InodeOf, Seg, InodeAt;
      var o := vol.objs[p];
      assert ObjOn(disk.blocks, o);
      assert forall k | 0 <= k < |o.blks| :: o.blks[k] in Blocks(o);
    }

    lemma ModeOf(n: nat)
      requires Synced() && n <= INODES_PER_GROUP
      ensures n in vol.objs ==> ObjOK(vol.objs[n])
      ensures InodeFor(vol.objs, n).IsDir() <==> IsDirObj(vol, n)
    {
      hide RamDisk.Valid, MetaOn, DataOn, InodeAt, Sized;
    }

    method FindEntryInDir(dir: nat, name: Name) returns (r: u32)
      requires Synced() && dir <= INODES_PER_GROUP
      ensures r == Lookup(vol, dir, name)
    {
      hide RamDisk.Valid, Synced, InodeFor, IndexOf, DirKids, Seg, Sized;
      SyncedDisk();
      var ok, inode := ReadInode(dir);
      if !ok {
        NoDirZero();
        return 0;
      }
      ModeOf(dir);
      if !inode.IsDir() {
        return 0;
      }
      DirLayout(dir);
      var i := 0;
      while i < DIRECT_BLOCKS
        invariant 0 <= i <= |vol.objs[dir].chains|
        invariant forall j | 0 <= j < i :: IndexOf(vol.objs[dir].chains[j], name) == |vol.objs[dir].chains[j]|
      {
        if inode.block[i] == 0 {
          break;
        }
        var buf := disk.ReadBlocks(inode.block[i], 1);
        r := FindInBlock(buf, name, vol.objs[dir].chains[i]);
        if r != 0 {
          EntryFound(dir, name, i);
          return;
        }
        i := i + 1;
      }
      EntryMissing(dir, name);
      r := 0;
    }

    /** What a running system has on its disk and in its caches. */
    lemma Mounted()
      requires Ready()
      ensures disk.Valid() && |disk.blocks| >= BLOCKS_PER_GROUP && disk.blocks[BOOT_SECTOR] == Signature()
      ensures Repr(disk.blocks, vol) && |vol.used| <= BLOCKS_PER_GROUP && |vol.inos| <= INODES_PER_GROUP
      ensures sb == SuperOf(vol) && gd == DescOf(vol)
    {
      hide RamDisk.Valid, TableOn, DataOn, Placement, BitsOn, InodeBitsOn, Sized, VolOK, T.WfTree, Pads, SuperOf,
           DescOf, Signature, WordsAt;
    }

    lemma SyncedDisk()
      requires Synced()
      ensures disk.Valid() && |disk.blocks| >= BLOCKS_PER_GROUP
    {
      hide RamDisk.Valid, Pads, Sized, TableOn, DataOn, Placement;
    }

    lemma NoDirZero()
      requires Synced()
      ensures 0 !in vol.objs
    {
      hide RamDisk.Valid, Repr;
    }

    lemma EntryFound(dir: nat, name: Name, i: nat)
      requires IsDirObj(vol, dir) && i < |vol.objs[dir].chains|
      requires forall j | 0 <= j < i :: IndexOf(vol.objs[dir].chains[j], name) == |vol.objs[dir].chains[j]|
      requires IndexOf(vol.objs[dir].chains[i], name) < |vol.objs[dir].chains[i]|
      ensures var c := vol.objs[dir].chains[i]; Lookup(vol, dir, name) == c[IndexOf(c, name)].ino
    {
      hide DirKids, IndexOf;
      BlockWithNameUnique(vol.objs[dir].chains, name, i);
      BlockWithNameFound(vol.objs[dir].chains, name);
    }

    lemma EntryMissing(dir: nat, name: Name)
      requires IsDirObj(vol, dir)
      requires forall j | 0 <= j < |vol.objs[dir].chains| ::
        IndexOf(vol.objs[dir].chains[j], name) == |vol.objs[dir].chains[j]|
      ensures Lookup(vol, dir, name) == 0
    {
      hide DirKids, IndexOf;
      BlockWithNameUnique(vol.objs[dir].chains, name, |vol.objs[dir].chains|);
      BlockWithNameFound(vol.objs[dir].chains, name);
    }

    method IsDirectoryEmpty(n: nat) returns (empty: bool)
      requires Synced() && n <= INODES_PER_GROUP && (IsDirObj(vol, n) ==> DirOK(n, vol.objs[n].chains))
      ensures empty <==> (IsDirObj(vol, n) ==> EmptyDir(vol.objs[n].chains))
    {
      hide RamDisk.Valid, Synced, InodeFor, Seg, Sized, DistinctNames;
      SyncedDisk();
      ModeOf(n);
      var ok, inode := ReadInode(n);
      if !ok {
        NoDirZero();
        return true;
      }
      if !inode.IsDir() {
        return true;
      }
      DirLayout(n);
      ghost var cs := vol.objs[n].chains;
      var i := 0;
      while i < DIRECT_BLOCKS
        invariant 0 <= i <= |cs|
        invariant i > 0 ==> AllDead(cs[0][2..])
        invariant forall j | 1 <= j < i :: AllDead(cs[j])
      {
        if inode.block[i] == 0 {
          break;
        }
        var buf := disk.ReadBlocks(inode.block[i], 1);
        AtStart(buf, cs[i]);
        assert cs[i][0..] == cs[i];
        var offset := 0;
        if i == 0 {
          offset := FirstChildOffset(buf, cs[0]);
        }
        var dead := AllDeadFrom(buf, offset, cs[i], if i == 0 then 2 else 0);
        if !dead {
          return false;
        }
        i := i + 1;
      }
      empty := true;
    }

    method RemoveEntryFromDir(p: nat, name: Name) returns (code: int)
      requires Synced() && WellOwned(vol) && IsDirObj(vol, p)
      modifies this`vol, disk, disk.image
      ensures Synced() && AllTiled(old(vol.objs[p].chains))
      ensures if BlockWithName(old(vol.objs[p].chains), name) < |old(vol.objs[p].chains)|
        then code == 0 && vol == RemoveEntry(old(vol), p, name)
        else code == -1 && vol == old(vol)
    {
      hide RamDisk.Valid, Synced, WellOwned, AllTiled, Tiled, ObjOK, BlockMap, Blocks,
           InodeFor, IndexOf, Seg, Sized, RemoveAt, BlockWithName;
      SyncedDisk();
      DirLayout(p);
      ModeOf(p);
      var _, inode := ReadInode(p);
      ghost var o := vol.objs[p];
      var i := 0;
      while i < DIRECT_BLOCKS && inode.block[i] != 0
        invariant 0 <= i <= |o.chains|
        invariant forall j | 0 <= j < i :: IndexOf(o.chains[j], name) == |o.chains[j]|
        invariant vol == old(vol) && disk.blocks == old(disk.blocks) && Synced() && disk.Valid()
      {
        var buf := disk.ReadBlocks(inode.block[i], 1);
        var done, c := RemoveInBlock(buf, name, o.chains[i]);
        if done {
          BlockWithNameUnique(o.chains, name, i);
          RewriteDirBlock(p, i, c, RemoveAt(o.chains[i], IndexOf(o.chains[i], name)), inode.block[i]);
          return 0;
        }
        i := i + 1;
      }
      BlockWithNameUnique(o.chains, name, i);
      code := -1;
    }

    /** Stores a rewritten directory block. */
    method RewriteDirBlock(p: nat, ghost i: nat, c: Block, ghost rs: seq<Rec>, lba: u32)
      requires Synced() && WellOwned(vol) && IsDirObj(vol, p)
      requires i < |vol.objs[p].chains| && i < |vol.objs[p].blks| && lba == vol.objs[p].blks[i]
      requires Seg(c, 0, rs, BLOCK_SIZE)
      modifies this`vol, disk, disk.image
      ensures Synced()
      ensures vol == old(vol).(objs := old(vol.objs)[p := Dir(old(vol.objs[p].blks), old(vol.objs[p].chains)[i := rs])])
    {
      hide RamDisk.Valid, Repr, Pads, Seg, Sized, WellOwned, Tiled, SuperWith, DescWith;
      SyncedDisk();
      SegTiled(c, rs);
      DirBlockWritten(disk.blocks, vol, p, i, c, rs);
      PadsWrite(disk.blocks, lba, c);
      DirRechained(vol, p, Dir(vol.objs[p].blks, vol.objs[p].chains[i := rs]));
      disk.WriteBlocks(c, lba, 1);
      vol := vol.(objs := vol.objs[p := Dir(vol.objs[p].blks, vol.objs[p].chains[i := rs])]);
    }

    method AddEntryToDir(p: nat, ino: u32, name: Name, ftype: byte) returns (code: int)
      requires Synced() && WellOwned(vol) && IsDirObj(vol, p) && |name| <= 255
      modifies this`sb, this`gd, this`vol, disk, disk.image
      ensures Synced() && AllTiled(old(vol.objs[p].chains))
      ensures code == 0 || code == -1
      ensures (vol, code == 0) == AddEntry(old(vol), p, ino, name, ftype)
    {
      hide RamDisk.Valid, Synced, WellOwned, AllTiled, Tiled, ObjOK, BlockMap, Blocks,
           InodeFor, FirstFit, Seg, Sized, SplitAt, BlockWithRoom, NextBlock;
      SyncedDisk();
      DirLayout(p);
      ModeOf(p);
      var _, inode := ReadInode(p);
      ghost var o := vol.objs[p];
      var i := 0;
      while i < DIRECT_BLOCKS
        invariant 0 <= i <= |o.chains|
        invariant forall j | 0 <= j < i :: FirstFit(o.chains[j], EntryLen(|name|)) == |o.chains[j]|
        invariant vol == old(vol) && disk.blocks == old(disk.blocks) && Synced() && disk.Valid()
      {
        if inode.block[i] == 0 {
          BlockWithRoomUnique(o.chains, EntryLen(|name|), i);
          code := GrowDir(p, i, inode, ino, name, ftype);
          return;
        }
        var buf := disk.ReadBlocks(inode.block[i], 1);
        var done, c := AddToBlock(buf, ino, name, ftype, o.chains[i]);
        if done {
          BlockWithRoomUnique(o.chains, EntryLen(|name|), i);
          ghost var k := FirstFit(o.chains[i], EntryLen(|name|));
          RewriteDirBlock(p, i, c, SplitAt(o.chains[i], k, ino, name, ftype), inode.block[i]);
          return 0;
        }
        i := i + 1;
      }
      BlockWithRoomUnique(o.chains, EntryLen(|name|), i);
      code := -1;
    }

    /** The growing branch of `add_entry_to_dir`: a new block holding just the new record. */
    method GrowDir(p: nat, i: nat, inode: Inode, ino: u32, name: Name, ftype: byte) returns (code: int)
      requires Synced() && WellOwned(vol) && IsDirObj(vol, p) && |name| <= 255
      requires ObjOK(vol.objs[p]) && inode == InodeOf(vol.objs[p])
      requires i == |vol.objs[p].chains| < DIRECT_BLOCKS && inode.block[i] == 0
      modifies this`sb, this`gd, this`vol, disk, disk.image
      ensures Synced()
      ensures var o, b := old(vol.objs[p]), NextBlock(old(vol.used));
        if b == 0 then code == -1 && vol == old(vol)
        else code == 0 && vol == Vol(old(vol.objs)[p := Dir(o.blks + [b], o.chains + [FreshChain(ino, name, ftype)])],
                                     old(vol.used) + {b as nat}, old(vol.inos))
    {
      hide Repr, Sized, NextBlock, InodeOf, ObjOK, RamDisk.Valid;
      NextBlockFresh(vol);
      var b := AllocateBlock();
      if b == 0 {
        return -1;
      }
      FreeUnowned(old(vol), b);
      AppendDirBlock(p, i, inode, b, ino, name, ftype);
      code := 0;
    }

    /** Points the directory's inode at the new block, then writes the block. */
    method AppendDirBlock(p: nat, i: nat, inode: Inode, b: u32, ino: u32, name: Name, ftype: byte)
      requires Synced() && IsDirObj(vol, p) && |name| <= 255
      requires ObjOK(vol.objs[p]) && inode == InodeOf(vol.objs[p])
      requires i == |vol.objs[p].chains| < DIRECT_BLOCKS
      requires INITIAL_USED_BLOCKS <= b < BLOCKS_PER_GROUP
      requires forall n, y | n in vol.objs && y in Blocks(vol.objs[n]) :: y != b
      modifies this`vol, disk, disk.image
      ensures Synced()
      ensures vol == old(vol).(objs := old(vol.objs)[p :=
                       Dir(old(vol.objs[p].blks) + [b], old(vol.objs[p].chains) + [FreshChain(ino, name, ftype)])])
    {
      hide RamDisk.Valid, Repr, Seg, Sized, InodeOf, Tiled, FreshChain, PutInode, Blocks, AllTiled, ObjOK,
           InodeThenBlock, GrownRecord, Pads;
      ghost var w := Dir(vol.objs[p].blks + [b], vol.objs[p].chains + [FreshChain(ino, name, ftype)]);
      GdTable();
      DirSmall(p);
      FreshTiled(ino, name, ftype);
      DirGrown(disk.blocks, vol, p, b, FreshBlock(ino, name, ftype), FreshChain(ino, name, ftype));
      DirRechained(vol, p, w);
      var record := GrownRecord(inode, i, b);
      ThenBlockPads(disk.blocks, p, record, b, FreshBlock(ino, name, ftype));
      WriteInodeAndBlock(p, record, b, FreshBlock(ino, name, ftype));
      vol := vol.(objs := vol.objs[p := w]);
    }

    method WriteInodeAndBlock(p: nat, record: Inode, b: u32, buf: Block)
      requires disk.Valid() && |disk.blocks| >= BLOCKS_PER_GROUP && InodeTable(gd) == INODE_TABLE_LBA
      requires 1 <= p <= INODES_PER_GROUP && record.WellSized() && b < BLOCKS_PER_GROUP
      modifies disk, disk.image
      ensures disk.Valid()
      ensures disk.blocks == InodeThenBlock(old(disk.blocks), p, record, b, buf)
    {
      hide RamDisk.Valid, PutInode;
      WriteInode(p, record);
      disk.WriteBlocks(buf, b, 1);
    }

    lemma DirSmall(p: nat)
      requires Synced() && p in vol.objs
      ensures 1 <= p <= INODES_PER_GROUP
    {
      hide RamDisk.Valid, Repr;
    }

    // -------------------------------------------------------------- deallocate_node

    /** What `deallocate_node` reads of an object. */
    lemma ObjLayout(n: nat)
      requires Synced() && n in vol.objs
      ensures |disk.blocks| >= BLOCKS_PER_GROUP && 1 <= n <= INODES_PER_GROUP && n in vol.inos
      ensures var o := vol.objs[n];
        && ObjOK(o) && InodeFor(vol.objs, n) == InodeOf(o)
        && (forall b | b in Blocks(o) :: ROOT_DIR_BLOCK_LBA <= b < BLOCKS_PER_GROUP)
        && ObjOn(disk.blocks, o)
    {
      hide RamDisk.Valid, MetaOn, InodeOf, InodeAt, ObjOn, Blocks, ObjOK;
    }

    /** Returns every block of a pointer array that is zero past the blocks it lists. */
    method FreePointers(ptrs: seq<u32>, ghost blks: seq<u32>)
      requires Synced() && |blks| <= |ptrs|
      requires forall k | 0 <= k < |ptrs| :: ptrs[k] == if k < |blks| then blks[k] else 0
      requires forall k | 0 <= k < |blks| :: INITIAL_USED_BLOCKS <= blks[k] < BLOCKS_PER_GROUP
      modifies this`sb, this`gd, this`vol, disk, disk.image
      ensures Synced() && OnlyCounters(old(disk.blocks), disk.blocks)
      ensures vol == old(vol).(used := old(vol.used) - SetOf(blks))
    {
      hide RamDisk.Valid, Synced, SetOf, OnlyCounters;
      ghost var v, bl := vol, disk.blocks;
      FreedNone(v, blks);
      CountersSame(bl);
      var i := 0;
      while i < |ptrs|
        invariant 0 <= i <= |ptrs|
        invariant Synced() && OnlyCounters(bl, disk.blocks)
        invariant vol == v.(used := v.used - SetOf(blks[..Min(|blks|, i)]))
      {
        if ptrs[i] != 0 {
          ghost var cl := disk.blocks;
          FreedStep(v.used, blks, i);
          DeallocateSingleBlock(ptrs[i]);
          CountersChain(bl, cl, disk.blocks);
        }
        i := i + 1;
      }
      assert blks[..|blks|] == blks;
    }

    /** Returns the blocks of the indirect table, then the table itself. */
    method FreeIndirect(ind: u32, ghost o: Obj)
      requires Synced() && ObjOK(o) && o.File? && ind == o.ind && ind != 0
      requires forall b | b in Blocks(o) :: INITIAL_USED_BLOCKS <= b < BLOCKS_PER_GROUP
      requires |disk.blocks| >= BLOCKS_PER_GROUP && FileOn(disk.blocks, o)
      modifies this`sb, this`gd, this`vol, disk, disk.image
      ensures Synced() && OnlyCounters(old(disk.blocks), disk.blocks)
      ensures vol == old(vol).(used := old(vol.used) - SetOf(o.blks[DIRECT_BLOCKS..]) - {o.ind as nat})
    {
      hide RamDisk.Valid, Repr, Sized, SetOf, WordsAt, Blocks;
      OwnedInRange(o);
      SyncedDisk();
      var table := disk.ReadBlocks(ind, 1);
      FreePointers(WordsAt(table, 0, POINTERS_PER_BLOCK), o.blks[DIRECT_BLOCKS..]);
      DeallocateSingleBlock(ind);
    }

    method DeallocateNode(n: nat)
      requires initialized && n != 0 ==> Synced() && n in vol.objs && n > INITIAL_USED_INODES
      requires initialized && n != 0 ==> forall b | b in Blocks(vol.objs[n]) :: INITIAL_USED_BLOCKS <= b
      modifies this`sb, this`gd, this`vol, disk, disk.image
      ensures initialized && n != 0 ==> Synced() && vol == Discard(old(vol), n)
      ensures !initialized || n == 0 ==> unchanged(this, disk, disk.image)
    {
      hide RamDisk.Valid, Repr, Sized, InodeOf, ObjOn, Blocks, ObjOK, Discard, SetOf;
      if !initialized || n == 0 {
        return;
      }
      ghost var o := vol.objs[n];
      ghost var v := vol;
      ObjLayout(n);
      var ok, inode := ReadInode(n);
      if !ok {
        return;
      }
      MapEntries(o);
      OwnedInRange(o);
      FreePointers(inode.block[..DIRECT_BLOCKS], o.blks[..Min(|o.blks|, DIRECT_BLOCKS)]);
      if inode.block[DIRECT_BLOCKS] != 0 {
        ObjOnKept(old(disk.blocks), disk.blocks, o);
        FreeIndirect(inode.block[DIRECT_BLOCKS], o);
      }
      FreedAll(v.used, o);
      ForgetInode(n);
      ReleaseInode(n);
      DiscardIs(v, n);
    }

    /** Writes a zeroed inode record. */
    method ForgetInode(n: nat)
      requires Synced() && INITIAL_USED_INODES < n <= INODES_PER_GROUP
      modifies this`vol, disk, disk.image
      ensures Synced() && vol == old(vol).(objs := old(vol.objs) - {n})
    {
      hide RamDisk.Valid, Repr, Pads, PutInode, ZeroInode, SuperWith, DescWith;
      GdTable();
      ZeroSized();
      InodeClear(disk.blocks, vol, n);
      var lba := INODE_TABLE_LBA + SlotBlock(n);
      PadsWrite(disk.blocks, lba, PutInode(disk.blocks[lba], SlotOffset(n), ZeroInode()));
      WriteInode(n, ZeroInode());
      vol := vol.(objs := vol.objs - {n});
    }

    // -------------------------------------------------------------- write

    /** The zero-padded buffer the write loops fill for block `i`. */
    method FillChunk(src: seq<byte>, i: nat, needed: nat) returns (data: Block)
      requires needed == CeilDiv(|src|) && i < needed
      ensures data == Chunk(src, i)
    {
      var copy := if i == needed - 1 then |src| % BLOCK_SIZE else BLOCK_SIZE;
      if copy == 0 {
        copy := BLOCK_SIZE;
      }
      CopySize(|src|, i);
      data := Splice(Zeros(BLOCK_SIZE), 0, src[i * BLOCK_SIZE..i * BLOCK_SIZE + copy]);
      ChunkFilled(src, i, copy);
    }

    /** Writes chunk `i` of the data into a block nobody owns. */
    method StoreChunk(src: seq<byte>, i: nat, needed: nat, blk: nat)
      requires Synced() && needed == CeilDiv(|src|) && i < needed
      requires INITIAL_USED_BLOCKS <= blk < BLOCKS_PER_GROUP
      requires forall n, y | n in vol.objs && y in Blocks(vol.objs[n]) :: y != blk
      modifies disk, disk.image
      ensures Synced() && disk.blocks == old(disk.blocks)[blk := Chunk(src, i)]
    {
      hide RamDisk.Valid, Repr, Beyond, Sized, Blocks, Chunk;
      SyncedDisk();
      var data := FillChunk(src, i, needed);
      FreeBlockWrite(disk.blocks, vol, blk, data);
      disk.WriteBlocks(data, blk, 1);
    }

    /** One turn of the write loop: allocate a block and, if there is one, fill it. */
    method StoreNext(src: seq<byte>, first: nat, i: nat, needed: nat, ghost v0: Vol, ghost bl0: seq<Block>)
      returns (blk: u32)
      requires Synced() && WellOwned(v0) && WellOwned(vol) && Sized(v0)
      requires |AllocMany(v0.used, i)| == i && vol == v0.(used := v0.used + SetOf(AllocMany(v0.used, i)))
      requires RunStored(bl0, disk.blocks, AllocMany(v0.used, i), src, first)
      requires needed == CeilDiv(|src|) && first + i < needed
      modifies this`sb, this`gd, this`vol, disk, disk.image
      ensures Synced() && WellOwned(vol)
      ensures blk == 0 ==> NextBlock(old(vol.used)) == 0 && vol == old(vol)
      ensures blk == 0 ==> RunStored(bl0, disk.blocks, AllocMany(v0.used, i), src, first)
      ensures blk != 0 ==> AllocMany(v0.used, i + 1) == AllocMany(v0.used, i) + [blk]
      ensures blk != 0 ==> vol == v0.(used := v0.used + SetOf(AllocMany(v0.used, i + 1)))
      ensures blk != 0 ==> RunStored(bl0, disk.blocks, AllocMany(v0.used, i + 1), src, first)
    {
      hide RamDisk.Valid, Repr, Sized, SetOf, AllocMany, NextBlock, WellOwned, FreshBlocks, Chunk, Blocks, RunStored,
           OnlyCounters;
      ghost var v, bl := vol, disk.blocks;
      blk := AllocateBlock();
      if blk == 0 {
        RunStops(v0, i, i);
        RunKept(bl0, bl, disk.blocks, v0.used, AllocMany(v0.used, i), src, first);
      } else {
        RunStep(v0, v, i, blk);
        RunExtends(bl0, bl, disk.blocks, AllocMany(v0.used, i), blk, src, first);
        StoreChunk(src, first + i, needed, blk);
      }
    }

    /** One run of the write loop: allocate, note the block in `ptrs`, write the chunk. */
    method StoreRun(src: seq<byte>, first: nat, count: nat, start: seq<u32>) returns (ptrs: seq<u32>, stored: nat)
      requires Synced() && WellOwned(vol) && count <= |start|
      requires first + count <= CeilDiv(|src|)
      modifies this`sb, this`gd, this`vol, disk, disk.image
      ensures Synced() && WellOwned(vol)
      ensures var bs := AllocMany(old(vol.used), count);
        && stored == |bs| && ptrs == bs + start[|bs|..]
        && FreshBlocks(old(vol.used), bs)
        && vol == old(vol).(used := old(vol.used) + SetOf(bs))
        && RunStored(old(disk.blocks), disk.blocks, bs, src, first)
    {
      hide RamDisk.Valid, Repr, SetOf, AllocMany, NextBlock, WellOwned, FreshBlocks, Chunk, Blocks, RunStored,
           OnlyCounters;
      ghost var v0 := vol;
      SyncedDisk();
      RunStart(v0, count);
      RunEmpty(disk.blocks, src, first);
      hide Synced, Sized;
      ptrs := start;
      var i := 0;
      var needed := (|src| + BLOCK_SIZE - 1) / BLOCK_SIZE;
      assert needed == CeilDiv(|src|);
      hide CeilDiv;
      while i < count
        invariant 0 <= i <= count
        invariant Synced() && WellOwned(vol)
        invariant |AllocMany(v0.used, i)| == i && ptrs == AllocMany(v0.used, i) + start[i..]
        invariant vol == v0.(used := v0.used + SetOf(AllocMany(v0.used, i)))
        invariant RunStored(old(disk.blocks), disk.blocks, AllocMany(v0.used, i), src, first)
      {
        var blk := StoreNext(src, first, i, needed, v0, old(disk.blocks));
        if blk == 0 {
          RunStops(v0, i, count);
          break;
        }
        PointerAdded(AllocMany(v0.used, i), start, blk);
        ptrs := ptrs[i := blk];
        i := i + 1;
      }
      stored := i;
    }

    /** The file part of `write`: every block of the new file, and its inode. */
    method StoreFile(src: seq<byte>) returns (inode: Inode)
      requires Synced() && WellOwned(vol) && |src| <= 0xFFFF_FE00
      modifies this`sb, this`gd, this`vol, disk, disk.image
      ensures Synced() && WellOwned(vol)
      ensures var o := NewFile(old(vol.used), src);
        && ObjOK(o) && inode == InodeOf(o)
        && vol == old(vol).(used := old(vol.used) + SetOf(Blocks(o)))
        && FileOn(disk.blocks, o)
    {
      hide RamDisk.Valid, Repr, SetOf, NextBlock, AllocMany, WellOwned, FreshBlocks, RunStored, OnlyCounters, InodeOf,
           ObjOK, FileOn, BareFile;
      ghost var used := vol.used;
      FileInode(used, src);
      var needed := (|src| + BLOCK_SIZE - 1) % 0x1_0000_0000 / BLOCK_SIZE;
      inode := BareFile(|src|);
      var ptrs, k := StoreRun(src, 0, Min(needed, DIRECT_BLOCKS), inode.block);
      inode := inode.(block := ptrs, blocks := k);
      if needed > DIRECT_BLOCKS {
        inode := StoreIndirect(src, needed, inode, used, old(disk.blocks));
      } else {
        NoTable(used, src);
        DirectOn(old(disk.blocks), disk.blocks, used, src);
      }
    }

    /** Blocks 12 and up: a table block, the run it lists, and the table itself last. */
    method StoreIndirect(src: seq<byte>, needed: nat, start: Inode, ghost used: set<nat>, ghost bl: seq<Block>)
      returns (inode: Inode)
      requires Synced() && WellOwned(vol) && |src| <= 0xFFFF_FE00
      requires needed == CeilDiv(|src|) > DIRECT_BLOCKS
      requires forall b | 0 <= b < INITIAL_USED_BLOCKS :: b in used
      requires vol.used == used + SetOf(DirectBlocks(used, src))
      requires RunStored(bl, disk.blocks, DirectBlocks(used, src), src, 0)
      requires |DirectBlocks(used, src)| <= DIRECT_BLOCKS
      requires var d, bare := DirectBlocks(used, src), BareFile(|src|);
        start == bare.(block := d + bare.block[|d|..], blocks := |d|)
      modifies this`sb, this`gd, this`vol, disk, disk.image
      ensures Synced() && WellOwned(vol)
      ensures var o := NewFile(used, src);
        && ObjOK(o) && inode == InodeOf(o)
        && vol == old(vol).(used := used + SetOf(Blocks(o)))
        && FileOn(disk.blocks, o)
    {
      hide RamDisk.Valid, Repr, Beyond, SetOf, NextBlock, AllocMany, WellOwned, FreshBlocks, RunStored, OnlyCounters,
           InodeOf, ObjOK, FileOn, BareFile, DirectBlocks, WordBytes, WordsAt, Blocks;
      FileInode(used, src);
      inode := start;
      ghost var v, cl := vol, disk.blocks;
      var ind := AllocateBlock();
      TableIsNext(used, src, ind);
      if ind == 0 {
        NoTable(used, src);
        NothingTaken(v, used, src, bl, cl, disk.blocks);
        DirectOn(bl, disk.blocks, used, src);
        return;
      }
      TableTaken(v, ind);
      ghost var dl := disk.blocks;
      var zeros := seq(POINTERS_PER_BLOCK, _ => 0);
      var ptrs, k := StoreRun(src, DIRECT_BLOCKS, Min(needed - DIRECT_BLOCKS, POINTERS_PER_BLOCK), zeros);
      inode := inode.(block := inode.block[DIRECT_BLOCKS := ind], blocks := inode.blocks + 1 + k);
      WithTable(used, src);
      TableIs(used, src, ptrs, zeros);
      TableLength(ptrs);
      IndirectOn(bl, cl, dl, disk.blocks, used, src, WordBytes(ptrs));
      SyncedDisk();
      FreeBlockWrite(disk.blocks, vol, ind, WordBytes(ptrs));
      disk.WriteBlocks(WordBytes(ptrs), ind, 1);
    }

    /** The directory part of `write`: one block holding the two dot records. */
    method StoreDir(self: u32, parent: u32) returns (inode: Inode)
      requires Synced() && WellOwned(vol) && NextBlock(vol.used) != 0
      modifies this`sb, this`gd, this`vol, disk, disk.image
      ensures Synced() && WellOwned(vol)
      ensures var o := NewDir(old(vol.used), self, parent);
        && ObjOK(o) && inode == InodeOf(o)
        && vol == old(vol).(used := old(vol.used) + SetOf(Blocks(o)))
        && ObjOn(disk.blocks, o)
    {
      hide RamDisk.Valid, Repr, Beyond, NextBlock, WellOwned, InodeOf, ObjOK, DirOn, DotBlock, DotChain, BareDir;
      ghost var v := vol;
      var blk := AllocateBlock();
      TableTaken(v, blk);
      NewDirInode(blk, self, parent);
      inode := BareDir();
      inode := inode.(block := inode.block[0 := blk], blocks := 1, size := BLOCK_SIZE);
      SyncedDisk();
      FreeBlockWrite(disk.blocks, vol, blk, DotBlock(self, parent));
      disk.WriteBlocks(DotBlock(self, parent), blk, 1);
      NewDirOn(disk.blocks, blk, self, parent);
      assert SetOf([blk]) == {blk as nat};
    }

    /** Writes the inode of an object whose blocks are in place. */
    method RecordObject(n: nat, inode: Inode, ghost o: Obj)
      requires Synced() && INITIAL_USED_INODES < n <= INODES_PER_GROUP && n in vol.inos
      requires |disk.blocks| >= BLOCKS_PER_GROUP && ObjOK(o) && inode == InodeOf(o) && ObjOn(disk.blocks, o)
      requires forall b | b in Blocks(o) :: ROOT_DIR_BLOCK_LBA <= b < BLOCKS_PER_GROUP
      modifies this`vol, disk, disk.image
      ensures Synced() && vol == old(vol).(objs := old(vol.objs)[n := o])
    {
      hide RamDisk.Valid, Repr, Pads, PutInode, InodeOf, ObjOK, ObjOn, Blocks, SuperWith, DescWith;
      GdTable();
      InodeWrite(disk.blocks, vol, n, o);
      var lba := INODE_TABLE_LBA + SlotBlock(n);
      PadsWrite(disk.blocks, lba, PutInode(disk.blocks[lba], SlotOffset(n), inode));
      WriteInode(n, inode);
      vol := vol.(objs := vol.objs[n := o]);
    }

    /** Allocates an inode and everything the new object needs, and records it. */
    method PlaceObject(n: u32, p: u32, isDir: bool, src: seq<byte>, ghost v: Vol)
      requires Synced() && VolOK(v) && IsDirObj(v, p) && |src| <= 0xFFFF_FE00
      requires n == NextInode(v.inos) && n != 0 && vol == v.(inos := v.inos + {n as nat})
      requires isDir ==> NextBlock(v.used) != 0
      modifies this`sb, this`gd, this`vol, disk, disk.image
      ensures Synced() && vol == Placed(v, p, isDir, src)
    {
      hide RamDisk.Valid, Repr, NextBlock, NextInode, InodeOf, ObjOK, ObjOn, Blocks, WellOwned, Exact, DirsOK,
           NewFile, NewDir, BareFile;
      NewObjFacts(v, n, p, isDir, src);
      InodeTaken(v, n);
      var inode;
      if !isDir && |src| > 0 {
        inode := StoreFile(src);
      } else if isDir {
        inode := StoreDir(n, p);
      } else {
        inode := BareFile(0);
        EmptyFile(v.used);
      }
      SyncedDisk();
      FileIsOn(disk.blocks, NewObj(v, n, p, isDir, src));
      RecordObject(n, inode, NewObj(v, n, p, isDir, src));
    }

    method Write(p: nat, name: Name, isDir: bool, src: seq<byte>) returns (code: int)
      requires initialized ==> Ready() && CanWrite(vol, p, name, isDir, src)
      requires initialized && p != 0 ==> T.Attached(Abs(vol), p)
      modifies this`sb, this`gd, this`vol, disk, disk.image
      ensures initialized ==> Ready() && (vol, code) == Operations.Write(old(vol), p, name, isDir, src)
      ensures !initialized ==> code == -1 && unchanged(this, disk, disk.image)
    {
      hide RamDisk.Valid, Synced, Repr, Sized, WellOwned, Exact, DirsOK, T.WfTree, T.Attached, NextBlock, NextInode,
           AddEntry, Lookup, Placed;
      if !initialized {
        return -1;
      }
      WriteKeepsInv(vol, p, name, isDir, src);
      if p == 0 {
        return 2;
      }
      ParentSmall(p);
      var found := FindEntryInDir(p, name);
      if found != 0 {
        return 1;
      }
      ghost var v := vol;
      var n := AllocateNode();
      if n == 0 {
        return -1;
      }
      PlaceObject(n, p, isDir, src, v);
      ParentStays(v, p, isDir, src);
      var added := AddEntryToDir(p, n, name, if isDir then FT_DIR else FT_REG_FILE);
      code := if added != 0 then -1 else 0;
    }

    lemma ParentSmall(p: nat)
      requires VolOK(vol) && IsDirObj(vol, p)
      ensures 1 <= p <= INODES_PER_GROUP
    {
      WritableParent(vol, p);
    }

    // -------------------------------------------------------------- delete and stat

    method Delete(p: nat, name: Name, isDir: bool) returns (code: int)
      requires initialized ==> Ready() && p <= INODES_PER_GROUP && name != DOT && name != DOTDOT
      modifies this`sb, this`gd, this`vol, disk, disk.image
      ensures initialized ==> Ready() && (vol, code) == Operations.Delete(old(vol), p, name, isDir)
      ensures !initialized ==> code == -1 && unchanged(this, disk, disk.image)
    {
      hide RamDisk.Valid, Synced, Repr, Sized, VolOK, T.WfTree, Lookup, RemoveEntry, Discard, EmptyDir, AllTiled,
           DirKids, BlockWithName;
      if !initialized {
        return -1;
      }
      DeleteKeepsInv(vol, p, name, isDir);
      if p == 0 {
        return 3;
      }
      if name == [] {
        return -1;
      }
      var c := FindEntryInDir(p, name);
      if c == 0 {
        return 1;
      }
      DeleteTarget(p, name);
      var ok, inode := ReadInode(c);
      if !ok {
        return -1;
      }
      ModeOf(c);
      if isDir {
        if !inode.IsDir() {
          return 1;
        }
        var empty := IsDirectoryEmpty(c);
        if !empty {
          return 2;
        }
      } else {
        if inode.IsDir() {
          return 1;
        }
      }
      ghost var v := vol;
      var removed := RemoveEntryFromDir(p, name);
      if removed != 0 {
        return -1;
      }
      TargetStays(v, p, name);
      DeallocateNode(c);
      code := 0;
    }

    /** What a delete knows about the inode its name leads to. */
    lemma DeleteTarget(p: nat, name: Name)
      requires Inv(vol) && name != DOT && name != DOTDOT && Lookup(vol, p, name) != 0
      ensures var c := Lookup(vol, p, name);
        && FIRST_INO < c <= INODES_PER_GROUP && c as nat in vol.objs && c as nat != p
        && IsDirObj(vol, p) && AllTiled(vol.objs[p].chains)
        && BlockWithName(vol.objs[p].chains, name) < |vol.objs[p].chains|
        && WellOwned(vol)
        && (IsDirObj(vol, c) ==> DirOK(c, vol.objs[c].chains))
    {
      hide WellOwned, Exact, DirOK, T.WfTree, DirKids, AllTiled;
      LookupTarget(vol, p, name);
      DirFacts(vol, p);
      BlockWithNameFound(vol.objs[p].chains, name);
    }

    method Stat(p: nat, name: Name) returns (code: int, size: int, isDir: bool)
      requires initialized ==> Ready() && p <= INODES_PER_GROUP
      ensures (code, size, isDir) == if initialized then Operations.Stat(vol, p, name) else (-1, 0, false)
    {
      hide RamDisk.Valid, Synced, Repr, VolOK, T.WfTree, Lookup, InodeFor;
      if !initialized {
        return -1, 0, false;
      }
      if p == 0 || name == [] {
        return -1, 0, false;
      }
      var c := FindEntryInDir(p, name);
      if c == 0 {
        return 1, 0, false;
      }
      LookupSmall(p, name);
      var ok, inode := ReadInode(c);
      if !ok {
        return -1, 0, false;
      }
      ModeOf(c);
      SizeField(c);
      code, size, isDir := 0, inode.size, inode.IsDir();
    }

    /** Every inode number a directory holds, dots included, is in the table. */
    lemma LookupSmall(p: nat, name: Name)
      requires Inv(vol)
      ensures Lookup(vol, p, name) <= INODES_PER_GROUP
    {
      hide WellOwned, Exact, DirKids, T.WfTree;
      if Lookup(vol, p, name) != 0 {
        DirFacts(vol, p);
        if name == DOT || name == DOTDOT {
          DotsInKids(p, vol.objs[p].chains);
        } else {
          LookupTarget(vol, p, name);
        }
      }
    }

    lemma SizeField(c: nat)
      requires Synced()
      ensures c in vol.objs ==> ObjOK(vol.objs[c])
      ensures InodeFor(vol.objs, c).size == SizeOf(vol, c)
    {
      hide RamDisk.Valid, MetaOn, DataOn, Sized, InodeAt;
    }

    // -------------------------------------------------------------- read

    /** `memcpy(out + at, s, |s|)` into the caller's buffer. */
    method CopyOut(out: array<byte>, at: nat, s: seq<byte>)
      requires at + |s| <= out.Length
      modifies out
      ensures out[..] == old(out[..at]) + s + old(out[at + |s|..])
    {
      forall j | 0 <= j < |s| {
        out[at + j] := s[j];
      }
    }

    /** The copy loop of the readers over one pointer array, from block `first` of the data on. */
    method CopyRun(out: array<byte>, ptrs: seq<u32>, todo: nat, start: nat, ghost first: nat, ghost data: seq<Block>)
      returns (done: nat)
      requires disk.Valid() && out != disk.image && todo <= out.Length
      requires first <= |data| && start == Min(todo, BLOCK_SIZE * first)
      requires forall k | 0 <= k < |ptrs| ::
        if first + k < |data| then 0 < ptrs[k] < |disk.blocks| && disk.blocks[ptrs[k]] == data[first + k]
        else ptrs[k] == 0
      requires out[..start] == Join(data)[..start]
      modifies out
      ensures done == Min(todo, BLOCK_SIZE * Min(|data|, first + |ptrs|))
      ensures out[..done] == Join(data)[..done] && out[done..] == old(out[done..])
    {
      hide Join, RamDisk.Valid;
      done := start;
      var i := 0;
      while i < |ptrs| && done < todo
        invariant 0 <= i <= |ptrs| && first + i <= |data|
        invariant done == Min(todo, BLOCK_SIZE * (first + i))
        invariant disk.Valid()
        invariant out[..done] == Join(data)[..done] && out[done..] == old(out[done..])
      {
        if ptrs[i] == 0 {
          break;
        }
        var buf := disk.ReadBlocks(ptrs[i], 1);
        var chunk := BLOCK_SIZE;
        if todo - done < BLOCK_SIZE {
          chunk := todo - done;
        }
        JoinStep(data, first + i, chunk);
        CopyStep(out[..], old(out[..]), done, buf[..chunk], Join(data));
        CopyOut(out, done, buf[..chunk]);
        done := done + chunk;
        i := i + 1;
      }
    }

    method Read(p: nat, name: Name, n: nat, out: array<byte>) returns (code: int)
      requires initialized ==> Ready() && p <= INODES_PER_GROUP
      requires n <= out.Length && out != disk.image
      modifies out
      ensures initialized ==> Ready() && vol == old(vol)
      ensures var (c, bytes) := if initialized then Operations.Read(vol, p, name, n) else (-1, []);
        code == c && CopiedOut(out[..], old(out[..]), bytes)
    {
      hide RamDisk.Valid, Synced, Repr, VolOK, T.WfTree, Lookup, InodeFor, Sized;
      if !initialized {
        return -1;
      }
      if p == 0 {
        return 4;
      }
      var c := FindEntryInDir(p, name);
      if c == 0 {
        return 3;
      }
      LookupSmall(p, name);
      SyncedDisk();
      var ok, inode := ReadInode(c);
      if !ok {
        return -1;
      }
      ModeOf(c);
      if inode.IsDir() {
        return 1;
      }
      ghost var data := FileData(c);
      ReadFile(inode, n, out, data);
      code := 0;
    }

    /** The data blocks a reader finds behind inode `c`; none if no object is there. */
    ghost method FileData(c: nat) returns (data: seq<Block>)
      requires Synced() && 1 <= c <= INODES_PER_GROUP && !IsDirObj(vol, c)
      requires c in vol.objs ==> ObjOK(vol.objs[c])
      ensures PointsTo(disk.blocks, InodeFor(vol.objs, c), data)
      ensures var size := InodeFor(vol.objs, c).size;
        if c in vol.objs then data == vol.objs[c].data && size == vol.objs[c].size else data == [] && size == 0
    {
      hide RamDisk.Valid, InodeAt, WordsAt, Sized;
      if c in vol.objs {
        data := vol.objs[c].data;
        ObjLayout(c);
        FilePointers(disk.blocks, vol.objs[c]);
      } else {
        data := [];
      }
    }

    /** The copying half of `read`. */
    method ReadFile(inode: Inode, n: nat, out: array<byte>, ghost data: seq<Block>)
      requires disk.Valid() && out != disk.image && n <= out.Length
      requires PointsTo(disk.blocks, inode, data)
      modifies out
      ensures CopiedOut(out[..], old(out[..]), Join(data)[..Min(n, Min(inode.size, BLOCK_SIZE * |data|))])
    {
      hide RamDisk.Valid, Join, WordsAt;
      var todo := if n < inode.size then n else inode.size;
      var done := CopyRun(out, inode.block[..DIRECT_BLOCKS], todo, 0, 0, data);
      if done < todo && inode.block[DIRECT_BLOCKS] != 0 {
        var table := disk.ReadBlocks(inode.block[DIRECT_BLOCKS], 1);
        done := CopyRun(out, WordsAt(table, 0, POINTERS_PER_BLOCK), todo, done, DIRECT_BLOCKS, data);
      }
      assert done == Min(n, Min(inode.size, BLOCK_SIZE * |data|));
      CopyDone(out[..], old(out[..]), done, Join(data));
    }

    method ReadDirectory(p: nat, n: nat, out: array<byte>) returns (code: int)
      requires initialized ==> Ready() && p <= INODES_PER_GROUP
      requires n <= out.Length && out != disk.image
      modifies out
      ensures initialized ==> Ready() && vol == old(vol)
      ensures code == if !initialized then -1 else if p == 0 then 3 else if IsDirObj(vol, p) then 0 else 1
      ensures CopiedOut(out[..], old(out[..]), if initialized then DirBytes(disk.blocks, vol, p, n) else [])
    {
      hide RamDisk.Valid, Synced, Repr, VolOK, T.WfTree, InodeFor, Sized, Join;
      if !initialized {
        return -1;
      }
      SyncedDisk();
      var ok, inode := ReadInode(p);
      if !ok {
        NoDirZero();
        return 3;
      }
      ModeOf(p);
      if !inode.IsDir() {
        return 1;
      }
      DirLayout(p);
      if inode.block[0] == 0 {
        return 0;
      }
      ghost var data := DirBlocks(disk.blocks, vol.objs[p]);
      var done := CopyRun(out, inode.block[..DIRECT_BLOCKS], n, 0, 0, data);
      CopyDone(out[..], old(out[..]), done, Join(data));
      code := 0;
    }
  }

  /** The caller's buffer starts with the bytes and is otherwise as before. */
  predicate CopiedOut(now: seq<byte>, before: seq<byte>, bytes: seq<byte>) {
    |now| == |before| && |bytes| <= |now| && now == bytes + before[|bytes|..]
  }

  /** The pointers of an inode lead to exactly these data blocks. */
  ghost predicate PointsTo(bl: seq<Block>, i: Inode, data: seq<Block>) {
    && i.WellSized()
    && (forall k | 0 <= k < DIRECT_BLOCKS ::
          if k < |data| then 0 < i.block[k] < |bl| && bl[i.block[k]] == data[k] else i.block[k] == 0)
    && i.block[DIRECT_BLOCKS] < |bl|
    && (i.block[DIRECT_BLOCKS] == 0 ==> |data| <= DIRECT_BLOCKS)
    && (i.block[DIRECT_BLOCKS] != 0 ==> DIRECT_BLOCKS <= |data| <= DIRECT_BLOCKS + POINTERS_PER_BLOCK)
    && (i.block[DIRECT_BLOCKS] != 0 ==>
          TablePointsTo(bl, WordsAt(bl[i.block[DIRECT_BLOCKS]], 0, POINTERS_PER_BLOCK), data))
  }

  ghost predicate TablePointsTo(bl: seq<Block>, ptrs: seq<u32>, data: seq<Block>) {
    forall k | 0 <= k < |ptrs| ::
      if DIRECT_BLOCKS + k < |data| then 0 < ptrs[k] < |bl| && bl[ptrs[k]] == data[DIRECT_BLOCKS + k] else ptrs[k] == 0
  }

  lemma FilePointers(bl: seq<Block>, o: Obj)
    requires |bl| >= BLOCKS_PER_GROUP && o.File? && ObjOK(o) && FileOn(bl, o)
    requires forall b | b in Blocks(o) :: ROOT_DIR_BLOCK_LBA <= b < BLOCKS_PER_GROUP
    ensures PointsTo(bl, InodeOf(o), o.data)
  {
    hide WordsAt;
    assert forall k | 0 <= k < |o.blks| :: o.blks[k] in Blocks(o);
  }

  /** A second boot from the disk of a running system takes the load branch, rewrites nothing, and ends up
      with the same caches and the same volume. */
  method Remount(fs: Ext2) returns (again: Ext2)
    requires fs.Ready()
    modifies fs.disk, fs.disk.image
    ensures fresh(again) && again.disk == fs.disk
    ensures again.Ready() && again.vol == fs.vol && again.sb == fs.sb && again.gd == fs.gd
    ensures fs.disk.blocks == old(fs.disk.blocks)
  {
    hide RamDisk.Valid, Repr, Ext2.Synced, VolOK, T.WfTree, SuperOf, DescOf, Signature, Ext2.Loaded;
    fs.Mounted();
    again := new Ext2(fs.disk);
    again.Initialize(fs.vol);
    again.Mounted();
  }
}
