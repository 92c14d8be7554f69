/** How many blocks a write gets, what becomes of its data, and what its answer depends on. */
module Space {
  import opened Bytes
  import opened FiniteSets
  import opened Layout
  import opened Records
  import opened Directories
  import opened Volumes
  import opened Operations
  import opened Invariants

  /** Blocks not in use, as the group descriptor counts them. */
  function FreeCount(v: Vol): int {
    BLOCKS_PER_GROUP - |v.used|
  }

  /** The blocks a write asks for: data blocks, at most 140 of them, and a table beyond the twelfth. */
  function Wanted(isDir: bool, data: seq<byte>): nat {
    var k := CeilDiv(|data|);
    if isDir then 1
    else if k <= DIRECT_BLOCKS then k
    else DIRECT_BLOCKS + 1 + Min(k - DIRECT_BLOCKS, POINTERS_PER_BLOCK)
  }

  /** Of the blocks obtained, those that hold data: the thirteenth is the table. */
  function DataBlocks(taken: nat): nat {
    if taken <= DIRECT_BLOCKS then taken else taken - 1
  }

  function Prefix(s: seq<byte>, n: nat): seq<byte> {
    s[..Min(n, |s|)]
  }

  /** The part of the data a file write finds blocks for. */
  function Kept(used: set<nat>, data: seq<byte>): seq<byte>
    requires |data| < 0x1_0000_0000
  {
    Prefix(data, BLOCK_SIZE * |NewFile(used, data).blks|)
  }

  // ---------------------------------------------------------------- counting allocations

  predicate InGroup(used: set<nat>) {
    && (forall b | b in used :: b < BLOCKS_PER_GROUP)
    && (forall b | 0 <= b < INITIAL_USED_BLOCKS :: b in used)
  }

  lemma {:induction false} SetOfCard(bs: seq<u32>)
    requires NoDup(bs)
    ensures |SetOf(bs)| == |bs|
    decreases |bs|
  {
    if bs != [] {
      var n := |bs| - 1;
      SetOfCard(bs[..n]);
      assert bs == bs[..n] + [bs[n]];
      SetOfSnoc(bs[..n], bs[n]);
      assert bs[n] !in bs[..n];
    } else {
      assert SetOf(bs) == {};
    }
  }

  lemma AddFresh(used: set<nat>, bs: seq<u32>)
    requires FreshBlocks(used, bs)
    ensures |used + SetOf(bs)| == |used| + |bs|
    ensures InGroup(used) ==> InGroup(used + SetOf(bs))
  {
    SetOfCard(bs);
    DisjointCard(used, SetOf(bs));
  }

  /** No block is left exactly when 256 bits are set. */
  lemma FullCard(used: set<nat>)
    requires InGroup(used)
    ensures |used| <= BLOCKS_PER_GROUP
    ensures NextBlock(used) == 0 <==> |used| == BLOCKS_PER_GROUP
  {
    BelowCard(used, BLOCKS_PER_GROUP);
    assert 0 in used;
    if NextBlock(used) == 0 {
      AtLeast(used, BLOCKS_PER_GROUP);
    }
  }

  /** `n` allocations in a row give the smaller of `n` and the number of clear bits. */
  lemma AllocManyCount(used: set<nat>, n: nat)
    requires InGroup(used)
    ensures |used| <= BLOCKS_PER_GROUP
    ensures var bs := AllocMany(used, n);
      && |bs| == Min(n, BLOCKS_PER_GROUP - |used|)
      && FreshBlocks(used, bs)
      && |used + SetOf(bs)| == |used| + |bs| && InGroup(used + SetOf(bs))
  {
    hide AllocMany, NextBlock, SetOf, FreshBlocks;
    var bs := AllocMany(used, n);
    AllocManyFresh(used, n);
    AddFresh(used, bs);
    FullCard(used);
    FullCard(used + SetOf(bs));
  }

  /** A table block is there exactly when a block is left after twelve. */
  lemma TableCount(used: set<nat>, data: seq<byte>)
    requires InGroup(used) && CeilDiv(|data|) > DIRECT_BLOCKS
    ensures |used| <= BLOCKS_PER_GROUP
    ensures TableBlock(used, data) == 0 <==> BLOCKS_PER_GROUP - |used| <= DIRECT_BLOCKS
    ensures TableBlock(used, data) != 0 ==>
      var rest := used + SetOf(DirectBlocks(used, data)) + {TableBlock(used, data) as nat};
      InGroup(rest) && |rest| == |used| + DIRECT_BLOCKS + 1
  {
    hide AllocMany, NextBlock, SetOf, FreshBlocks;
    var d := DirectBlocks(used, data);
    AllocManyCount(used, DIRECT_BLOCKS);
    FullCard(used + SetOf(d));
    if TableBlock(used, data) != 0 {
      NextFresh(used, d);
      NotInUnion(used, d, TableBlock(used, data));
    }
  }

  lemma NotInUnion(used: set<nat>, d: seq<u32>, t: u32)
    requires t !in used && t !in d
    ensures (t as nat) !in used + SetOf(d)
  {}

  /** A file takes the blocks it wants or all there are, and one of them is the table once there are thirteen. */
  lemma NewFileCount(used: set<nat>, data: seq<byte>)
    requires InGroup(used) && |data| < 0x1_0000_0000
    ensures |used| <= BLOCKS_PER_GROUP
    ensures |Blocks(NewFile(used, data))| == Min(Wanted(false, data), BLOCKS_PER_GROUP - |used|)
    ensures |NewFile(used, data).blks| == DataBlocks(Min(Wanted(false, data), BLOCKS_PER_GROUP - |used|))
  {
    hide AllocMany, NextBlock, SetOf;
    var k := CeilDiv(|data|);
    AllocManyCount(used, Min(k, DIRECT_BLOCKS));
    if k > DIRECT_BLOCKS {
      TableCount(used, data);
      var t := TableBlock(used, data);
      if t != 0 {
        AllocManyCount(used + SetOf(DirectBlocks(used, data)) + {t as nat}, Min(k - DIRECT_BLOCKS, POINTERS_PER_BLOCK));
      }
    }
  }

  /** All of the data is kept if and only if it fits in 140 blocks and they are free, the table's among them. */
  lemma KeptWhole(used: set<nat>, data: seq<byte>)
    requires InGroup(used) && |data| < 0x1_0000_0000
    ensures |used| <= BLOCKS_PER_GROUP
    ensures var taken := Min(Wanted(false, data), BLOCKS_PER_GROUP - |used|);
      |Kept(used, data)| == Min(|data|, BLOCK_SIZE * DataBlocks(taken))
    ensures Kept(used, data) == data <==>
      CeilDiv(|data|) <= DIRECT_BLOCKS + POINTERS_PER_BLOCK && |used| + Wanted(false, data) <= BLOCKS_PER_GROUP
  {
    hide NewFile;
    NewFileCount(used, data);
    var n, m := |data|, |NewFile(used, data).blks|;
    assert |Kept(used, data)| == Min(n, BLOCK_SIZE * m);
    assert Kept(used, data) == data <==> BLOCK_SIZE * m >= n;
    CeilDivTight(n, m);
  }

  lemma CeilDivTight(n: nat, m: nat)
    ensures BLOCK_SIZE * m >= n <==> m >= CeilDiv(n)
  {}

  // ---------------------------------------------------------------- the answer of a write

  /** The whole object finds room: every block of its data, and the table. */
  predicate Whole(v: Vol, isDir: bool, data: seq<byte>) {
    isDir || (CeilDiv(|data|) <= DIRECT_BLOCKS + POINTERS_PER_BLOCK && Wanted(false, data) <= FreeCount(v))
  }

  lemma TakenCount(v: Vol, n: u32, p: u32, isDir: bool, data: seq<byte>)
    requires Sized(v) && |data| < 0x1_0000_0000
    requires isDir ==> NextBlock(v.used) != 0
    ensures FreeCount(v) >= 0
    ensures var o := NewObj(v, n, p, isDir, data);
      && |Blocks(o)| == Min(Wanted(isDir, data), FreeCount(v))
      && FreshBlocks(v.used, Blocks(o))
      && |v.used + SetOf(Blocks(o))| == |v.used| + |Blocks(o)| && InGroup(v.used + SetOf(Blocks(o)))
  {
    hide NewFile, NextBlock, SetOf;
    FullCard(v.used);
    if isDir {
      NextBlockFresh(v);
    } else {
      NewFileCount(v.used, data);
      NewFileOK(v.used, data);
    }
    AddFresh(v.used, Blocks(NewObj(v, n, p, isDir, data)));
  }

  /** The new entry finds a place: slack in some record, or a block that is still free once the object has its
      own, in a directory of fewer than twelve. */
  predicate CanName(v: Vol, p: nat, name: Name, isDir: bool, data: seq<byte>) {
    && IsDirObj(v, p)
    && var cs := v.objs[p].chains;
       SlackIn(cs, |name|) || (|cs| < DIRECT_BLOCKS && Wanted(isDir, data) < FreeCount(v))
  }

  lemma ParentKept(v: Vol, p: nat, isDir: bool, data: seq<byte>)
    requires IsDirObj(v, p) && NextInode(v.inos) as nat != p && |data| < 0x1_0000_0000 && p < 0x1_0000_0000
    ensures var w := Placed(v, p, isDir, data);
      && IsDirObj(w, p) && w.objs[p] == v.objs[p]
      && w.used == v.used + SetOf(Blocks(NewObj(v, NextInode(v.inos), p, isDir, data)))
  {
    hide NextInode, NewObj, Blocks;
  }

  /** Naming the new object succeeds exactly when there is a place for the entry. */
  lemma NamingCount(v: Vol, p: nat, name: Name, isDir: bool, data: seq<byte>, ino: u32, ftype: byte)
    requires VolOK(v) && CanWrite(v, p, name, isDir, data) && p != 0
    requires Lookup(v, p, name) == 0 && NextInode(v.inos) != 0
    ensures p <= INODES_PER_GROUP && IsDirObj(Placed(v, p, isDir, data), p)
    ensures AllTiled(v.objs[p].chains) && Placed(v, p, isDir, data).objs[p] == v.objs[p]
    ensures AddEntry(Placed(v, p, isDir, data), p, ino, name, ftype).1 <==> CanName(v, p, name, isDir, data)
  {
    hide WellOwned, Exact, DirsOK, InsertInto, AllTiled, FreshChain, NextBlock, BlockWithRoom, NewObj, NextInode,
         Lookup, Blocks, SetOf, FreshBlocks, Place, SlackIn;
    SlackFound(v.objs[p].chains, |name|);
    DirFacts(v, p);
    PlacedOK(v, p, isDir, data);
    ParentKept(v, p, isDir, data);
    TakenCount(v, NextInode(v.inos), p, isDir, data);
    FullCard(Placed(v, p, isDir, data).used);
  }

  /** Each answer of a write, if and only if. A full inode table is the only -1 that changes nothing; the other
      leaves behind an object that nothing names. */
  lemma WriteAnswers(v: Vol, p: nat, name: Name, isDir: bool, data: seq<byte>)
    requires VolOK(v) && CanWrite(v, p, name, isDir, data)
    ensures p <= INODES_PER_GROUP
    ensures var (w, code) := Write(v, p, name, isDir, data);
      var isNew := p != 0 && Lookup(v, p, name) == 0;
      && (code == 2 <==> p == 0)
      && (code == 1 <==> p != 0 && Lookup(v, p, name) != 0)
      && (code == 0 <==> isNew && NextInode(v.inos) != 0 && CanName(v, p, name, isDir, data))
      && (code == -1 && w == v <==> isNew && NextInode(v.inos) == 0)
      && (code == -1 && w != v <==> isNew && NextInode(v.inos) != 0 && !CanName(v, p, name, isDir, data))
      && (code == -1 && w != v ==> Leaked(v, p, isDir, data, w))
  {
    hide VolOK, NextInode, NextBlock, NewObj, AddEntry, DirKids, CanName, Lookup, Placed, Abs;
    WriteEffect(v, p, name, isDir, data);
    if p != 0 && Lookup(v, p, name) == 0 && NextInode(v.inos) != 0 {
      var ftype := if isDir then FT_DIR else FT_REG_FILE;
      NamingCount(v, p, name, isDir, data, NextInode(v.inos), ftype);
      WriteUnfolds(v, p, name, isDir, data);
      LeakChanges(v, p, isDir, data);
    }
  }

  lemma WriteUnfolds(v: Vol, p: nat, name: Name, isDir: bool, data: seq<byte>)
    requires VolOK(v) && CanWrite(v, p, name, isDir, data) && p != 0 && p < 0x1_0000_0000
    requires Lookup(v, p, name) == 0 && NextInode(v.inos) != 0
    requires var x := Placed(v, p, isDir, data); IsDirObj(x, p) && AllTiled(x.objs[p].chains)
    ensures var ftype := if isDir then FT_DIR else FT_REG_FILE;
      var (w, ok) := AddEntry(Placed(v, p, isDir, data), p, NextInode(v.inos), name, ftype);
      Write(v, p, name, isDir, data) == (w, if ok then 0 else -1)
  {
    hide VolOK, NextInode, NextBlock, NewObj, AddEntry, Lookup;
  }

  lemma LeakChanges(v: Vol, p: nat, isDir: bool, data: seq<byte>)
    requires VolOK(v) && IsDirObj(v, p) && |data| < 0x1_0000_0000 && p < 0x1_0000_0000
    requires NextInode(v.inos) != 0 && (isDir ==> NextBlock(v.used) != 0)
    ensures Placed(v, p, isDir, data) != v
  {
    hide VolOK, NextInode, NextBlock, NewObj;
    PlacedOK(v, p, isDir, data);
    assert NextInode(v.inos) as nat in Placed(v, p, isDir, data).inos;
  }

  /** The inode table is full exactly when 64 bits are set. */
  lemma InodesFull(v: Vol)
    requires Sized(v)
    ensures |v.inos| <= INODES_PER_GROUP
    ensures NextInode(v.inos) == 0 <==> |v.inos| == INODES_PER_GROUP
  {
    var s := v.inos + {0};
    assert 0 !in v.inos;
    assert |s| == |v.inos| + 1;
    BelowCard(s, INODES_PER_GROUP + 1);
    NextInodeFresh(v);
    if NextInode(v.inos) == 0 {
      AtLeast(s, INODES_PER_GROUP + 1);
    }
  }
}
