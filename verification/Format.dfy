/** The freshly formatted volume. */
module Format {
  import opened Bytes
  import opened Layout
  import opened Records
  import opened Directories
  import opened Volumes
  import opened Operations
  import opened Coupling
  import T = Trees

  function RootObj(): Obj {
    Dir([ROOT_DIR_BLOCK_LBA], [DotChain(ROOT_INODE_NO, ROOT_INODE_NO)])
  }

  /** The numbers from `lo` up to, but not including, `hi`. */
  function Between(lo: nat, hi: nat): (s: set<nat>)
    requires lo <= hi
    ensures forall x: nat :: x in s <==> lo <= x < hi
    ensures |s| == hi - lo
  {
    if lo == hi then {} else Between(lo, hi - 1) + {hi - 1}
  }

  /** Blocks 0 to 21. */
  function ReservedBlocks(): set<nat> {
    Between(0, INITIAL_USED_BLOCKS)
  }

  /** Inodes 1 to 11. */
  function ReservedInodes(): set<nat> {
    Between(1, INITIAL_USED_INODES + 1)
  }

  /** The reserved blocks and inodes are taken, block 21 by the root; nothing else exists. */
  function FreshVol(): Vol {
    Vol(map[ROOT_INODE_NO := RootObj()], ReservedBlocks(), ReservedInodes())
  }

  /** The fresh volume, by its members. */
  ghost predicate IsFresh(v: Vol) {
    && v.objs == map[ROOT_INODE_NO := RootObj()]
    && (forall x: nat :: x in v.used <==> x < INITIAL_USED_BLOCKS)
    && (forall x: nat :: x in v.inos <==> 1 <= x <= INITIAL_USED_INODES)
  }

  lemma IsFreshIff(v: Vol)
    ensures IsFresh(v) <==> v == FreshVol()
  {
    hide FreshVol, RootObj;
    FreshSets();
    if IsFresh(v) {
      assert v.used == FreshVol().used && v.inos == FreshVol().inos;
    }
  }

  lemma BetweenIs(lo: nat, hi: nat)
    requires lo <= hi
    ensures forall x: nat :: x in Between(lo, hi) <==> lo <= x < hi
    ensures |Between(lo, hi)| == hi - lo
  {}

  lemma FreshSets()
    ensures FreshVol().objs == map[ROOT_INODE_NO := RootObj()]
    ensures forall x: nat :: x in FreshVol().used <==> x < INITIAL_USED_BLOCKS
    ensures forall x: nat :: x in FreshVol().inos <==> 1 <= x <= INITIAL_USED_INODES
    ensures |FreshVol().used| == INITIAL_USED_BLOCKS && |FreshVol().inos| == INITIAL_USED_INODES
  {
    hide Between, RootObj;
    BetweenIs(0, INITIAL_USED_BLOCKS);
    BetweenIs(1, INITIAL_USED_INODES + 1);
  }

  /** The fresh volume satisfies every invariant, and its namespace is a bare root. */
  lemma FreshInv()
    ensures Inv(FreshVol())
    ensures Abs(FreshVol()) == map[T.ROOT := T.TDir(T.ROOT, map[])]
  {
    hide FreshVol, Sized, WellOwned, Exact, T.WfTree, DotChain, DistinctNames, DirKids;
    FreshSets();
    FreshOwners();
    DotKids(ROOT_INODE_NO, ROOT_INODE_NO);
    DotShape(ROOT_INODE_NO, ROOT_INODE_NO);
    var kids: map<Name, u32> := map[DOT := ROOT_INODE_NO, DOTDOT := ROOT_INODE_NO];
    assert kids - {DOT, DOTDOT} == map[];
    FreshTree(Abs(FreshVol()));
  }

  lemma DotShape(self: u32, parent: u32)
    ensures |DotChain(self, parent)| == 2
    ensures StartsWithDots([DotChain(self, parent)], self, parent)
    ensures ParentOf([DotChain(self, parent)]) == parent
  {}

  lemma FreshOwners()
    ensures Sized(FreshVol()) && WellOwned(FreshVol()) && Exact(FreshVol())
  {
    hide FreshVol, Tiled, DotChain;
    FreshSets();
    DotTiled(ROOT_INODE_NO, ROOT_INODE_NO);
    assert Blocks(RootObj()) == [ROOT_DIR_BLOCK_LBA];
    assert ObjOK(RootObj());
  }

  lemma FreshTree(t: T.Tree)
    requires t == map[T.ROOT := T.TDir(T.ROOT, map[])]
    ensures T.WfTree(t)
  {
    assert T.Up(t, T.ROOT, 0) == T.ROOT;
    assert forall c: nat :: !T.Named(t, c);
  }

  // ---------------------------------------------------------------- what the formatter leaves on disk

  lemma ZeroSlot(off: nat)
    requires off + INODE_BYTES <= BLOCK_SIZE
    ensures InodeIn(Zeros(BLOCK_SIZE), off) == ZeroInode()
  {
    var ws := WordsAt(Zeros(BLOCK_SIZE), off, INODE_WORDS);
    assert forall k | 0 <= k < INODE_WORDS :: ws[k] == 0;
    assert ws[10..25] == seq(15, _ => 0);
    assert ws[29..32] == seq(3, _ => 0);
  }

  /** The inode table: zeros, then the root's record written into slot 2. */
  lemma FreshTable(bl: seq<Block>, zl: seq<Block>, o: Obj)
    requires |bl| == |zl| >= BLOCKS_PER_GROUP && ObjOK(o)
    requires forall k | INODE_TABLE_LBA <= k < ROOT_DIR_BLOCK_LBA :: zl[k] == Zeros(BLOCK_SIZE)
    requires var lba := INODE_TABLE_LBA + SlotBlock(ROOT_INODE_NO);
      var cl := zl[lba := PutInode(zl[lba], SlotOffset(ROOT_INODE_NO), InodeOf(o))];
      forall k | INODE_TABLE_LBA <= k < ROOT_DIR_BLOCK_LBA :: bl[k] == cl[k]
    ensures TableOn(bl, map[ROOT_INODE_NO := o])
  {
    hide InodeOf, PutInode, InodeIn, ObjOK, ZeroInode;
    var lba := INODE_TABLE_LBA + SlotBlock(ROOT_INODE_NO);
    var cl := zl[lba := PutInode(zl[lba], SlotOffset(ROOT_INODE_NO), InodeOf(o))];
    forall n | 1 <= n <= INODES_PER_GROUP ensures InodeAt(bl, n) == InodeFor(map[ROOT_INODE_NO := o], n) {
      assert InodeAt(bl, n) == InodeAt(cl, n);
      InodeSlots(zl, ROOT_INODE_NO, InodeOf(o), n);
      ZeroSlot(SlotOffset(n));
    }
  }

  lemma FreshData(bl: seq<Block>)
    requires |bl| >= BLOCKS_PER_GROUP && bl[ROOT_DIR_BLOCK_LBA] == DotBlock(ROOT_INODE_NO, ROOT_INODE_NO)
    ensures DataOn(bl, FreshVol().objs) && Placement(FreshVol().objs)
  {
    hide DotBlock, DotChain, Seg, FreshVol;
    FreshSets();
    NewDirOn(bl, ROOT_DIR_BLOCK_LBA, ROOT_INODE_NO, ROOT_INODE_NO);
    assert Blocks(RootObj()) == [ROOT_DIR_BLOCK_LBA];
  }
}
