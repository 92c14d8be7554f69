/** The volume: what the bytes of a disk mean, and the file operations on that meaning. */
module Volumes {
  import opened Bytes
  import opened RamDisks
  import opened Layout
  import opened Directories

  /** What an allocated inode describes: its blocks and what they hold. */
  datatype Obj =
    | Dir(blks: seq<u32>, chains: Chains)
    | File(size: u32, blks: seq<u32>, ind: u32, data: seq<Block>)

  /** Objects by inode number, and the set bits of the block and inode bitmaps. */
  datatype Vol = Vol(objs: map<nat, Obj>, used: set<nat>, inos: set<nat>)

  /** Every block an object owns: its data blocks, then its indirect table if it has one. */
  function Blocks(o: Obj): seq<u32> {
    if o.Dir? || o.ind == 0 then o.blks else o.blks + [o.ind]
  }

  function SetOf(bs: seq<u32>): set<nat> {
    set b | b in bs
  }

  predicate NoDup(bs: seq<u32>) {
    forall i, j | 0 <= i < j < |bs| :: bs[i] != bs[j]
  }

  predicate ObjOK(o: Obj) {
    match o
    case Dir(blks, chains) => 1 <= |blks| == |chains| <= DIRECT_BLOCKS && AllTiled(chains)
    case File(_, blks, ind, data) =>
      && |blks| == |data| <= DIRECT_BLOCKS + POINTERS_PER_BLOCK
      && (ind != 0 ==> |blks| >= DIRECT_BLOCKS)
      && (|blks| > DIRECT_BLOCKS ==> ind != 0)
  }

  // ---------------------------------------------------------------- ownership

  predicate Owns(v: Vol, n: nat, b: nat) {
    n in v.objs && b in Blocks(v.objs[n])
  }

  /** Bitmap bits stay in range and the format-time bits stay set. */
  predicate Sized(v: Vol) {
    && (forall b | b in v.used :: b < BLOCKS_PER_GROUP)
    && (forall b | 0 <= b < INITIAL_USED_BLOCKS :: b in v.used)
    && (forall i | i in v.inos :: 1 <= i <= INODES_PER_GROUP)
    && (forall i | 1 <= i <= INITIAL_USED_INODES :: i in v.inos)
    && (forall n | n in v.objs :: n in v.inos && (n == ROOT_INODE_NO || n > INITIAL_USED_INODES))
  }

  /** No block has two owners, and every owned block is marked used. */
  ghost predicate WellOwned(v: Vol) {
    && (forall n | n in v.objs :: ObjOK(v.objs[n]) && NoDup(Blocks(v.objs[n])))
    && (forall n: nat, b: nat | Owns(v, n, b) :: b in v.used)
    && (forall n: nat, b: nat | Owns(v, n, b) ::
          b >= INITIAL_USED_BLOCKS || (n == ROOT_INODE_NO && b == ROOT_DIR_BLOCK_LBA))
    && (forall n: nat, m: nat, b: nat | Owns(v, n, b) && Owns(v, m, b) :: n == m)
  }

  /** Nothing is leaked: every data block in use has an owner, every inode in use has an object. */
  ghost predicate Exact(v: Vol) {
    && (forall b | b in v.used :: b < INITIAL_USED_BLOCKS || exists n: nat :: Owns(v, n, b))
    && (forall i | i in v.inos :: i <= INITIAL_USED_INODES || i in v.objs)
  }

  /** Marking more blocks used disturbs no owner. */
  lemma UsedGrows(v: Vol, used: set<nat>)
    requires WellOwned(v) && v.used <= used
    ensures WellOwned(v.(used := used))
  {
    hide Blocks, ObjOK, NoDup;
    assert forall n: nat, b: nat :: Owns(v.(used := used), n, b) <==> Owns(v, n, b);
  }

  function ParentOf(cs: Chains): u32
    requires cs != [] && |cs[0]| >= 2
  {
    cs[0][1].ino
  }

  /** A directory's chains: dots first, and no name twice. */
  predicate DirOK(n: nat, cs: Chains) {
    && n < 0x1_0000_0000
    && cs != [] && |cs[0]| >= 2
    && StartsWithDots(cs, n, ParentOf(cs)) && 1 <= ParentOf(cs) <= INODES_PER_GROUP
    && DistinctNames(cs)
  }

  predicate DirsOK(v: Vol) {
    forall n | n in v.objs && v.objs[n].Dir? :: DirOK(n, v.objs[n].chains)
  }

  predicate RootOK(v: Vol) {
    ROOT_INODE_NO in v.objs && v.objs[ROOT_INODE_NO].Dir?
  }

  /** The invariant of a volume between operations. */
  ghost predicate VolOK(v: Vol) {
    Sized(v) && WellOwned(v) && Exact(v) && DirsOK(v) && RootOK(v)
  }

  // ---------------------------------------------------------------- allocation

  /** The first number from `lo` that is not taken, or `hi`. */
  function LowestFree(taken: set<nat>, lo: nat, hi: nat): (k: nat)
    requires lo <= hi
    ensures lo <= k <= hi
    ensures k < hi ==> k !in taken
    ensures forall j | lo <= j < k :: j in taken
    decreases hi - lo
  {
    if lo == hi || lo !in taken then lo else LowestFree(taken, lo + 1, hi)
  }

  lemma LowestFreeUnique(taken: set<nat>, lo: nat, hi: nat, k: nat)
    requires lo <= k <= hi
    requires k < hi ==> k !in taken
    requires forall j | lo <= j < k :: j in taken
    ensures LowestFree(taken, lo, hi) == k
  {}

  /** The block the next allocation hands out; 0 when every bit is set. */
  function NextBlock(used: set<nat>): (b: u32) {
    var k := LowestFree(used, 0, BLOCKS_PER_GROUP);
    if k == BLOCKS_PER_GROUP then 0 else k
  }

  /** The inode number the next allocation hands out; 0 when every bit is set. */
  function NextInode(inos: set<nat>): (n: u32) {
    var k := LowestFree(inos, 1, INODES_PER_GROUP + 1);
    if k == INODES_PER_GROUP + 1 then 0 else k
  }

  lemma NextBlockFresh(v: Vol)
    requires Sized(v)
    ensures NextBlock(v.used) != 0 ==>
      INITIAL_USED_BLOCKS <= NextBlock(v.used) < BLOCKS_PER_GROUP && NextBlock(v.used) !in v.used
    ensures forall b | 0 <= b < NextBlock(v.used) as nat :: b in v.used
    ensures NextBlock(v.used) == 0 ==> forall b | 0 <= b < BLOCKS_PER_GROUP :: b in v.used
  {
    assert 0 in v.used;
    var k := LowestFree(v.used, 0, BLOCKS_PER_GROUP);
    assert k < INITIAL_USED_BLOCKS ==> k in v.used;
  }

  lemma NextInodeFresh(v: Vol)
    requires Sized(v)
    ensures NextInode(v.inos) != 0 ==>
      INITIAL_USED_INODES < NextInode(v.inos) <= INODES_PER_GROUP && NextInode(v.inos) !in v.inos
    ensures NextInode(v.inos) == 0 ==> forall i | 1 <= i <= INODES_PER_GROUP :: i in v.inos
  {
    var k := LowestFree(v.inos, 1, INODES_PER_GROUP + 1);
    assert k <= INITIAL_USED_INODES ==> k in v.inos;
  }

  /** `n` successive allocations; fewer blocks when they run out. */
  function AllocMany(used: set<nat>, n: nat): (bs: seq<u32>)
    ensures |bs| <= n
  {
    if n == 0 then []
    else
      var p := AllocMany(used, n - 1);
      var b := NextBlock(used + SetOf(p));
      if |p| < n - 1 || b == 0 then p else p + [b]
  }

  lemma SetOfSnoc(p: seq<u32>, b: u32)
    ensures SetOf(p + [b]) == SetOf(p) + {b as nat}
  {
    assert forall x | x in p + [b] :: x in p || x == b;
    assert forall x | x in p :: x in p + [b];
    assert (p + [b])[|p|] == b;
  }

  lemma SetOfConcat(p: seq<u32>, q: seq<u32>)
    ensures SetOf(p + q) == SetOf(p) + SetOf(q)
  {
    assert forall x | x in p + q :: x in p || x in q;
    assert forall x | x in p :: x in p + q;
    assert forall x | x in q :: x in p + q;
  }

  predicate FreshBlocks(used: set<nat>, bs: seq<u32>) {
    && NoDup(bs)
    && forall i | 0 <= i < |bs| :: bs[i] !in used && INITIAL_USED_BLOCKS <= bs[i] < BLOCKS_PER_GROUP
  }

  predicate Full(used: set<nat>) {
    NextBlock(used) == 0
  }

  lemma NextFresh(used: set<nat>, d: seq<u32>)
    requires forall b | 0 <= b < INITIAL_USED_BLOCKS :: b in used
    ensures var t := NextBlock(used + SetOf(d));
      t != 0 ==> t !in used && t !in d && INITIAL_USED_BLOCKS <= t < BLOCKS_PER_GROUP
  {
    var k := LowestFree(used + SetOf(d), 0, BLOCKS_PER_GROUP);
    assert k < INITIAL_USED_BLOCKS ==> k in used;
  }

  /** Successive allocations are distinct free blocks, and stop early only when the disk is full. */
  lemma {:induction false} AllocManyFresh(used: set<nat>, n: nat)
    requires forall b | 0 <= b < INITIAL_USED_BLOCKS :: b in used
    ensures FreshBlocks(used, AllocMany(used, n))
    ensures |AllocMany(used, n)| < n ==> Full(used + SetOf(AllocMany(used, n)))
  {
    hide NextBlock, SetOf;
    if n > 0 {
      AllocManyFresh(used, n - 1);
      NextFresh(used, AllocMany(used, n - 1));
    }
  }

  /** Once the disk is full, asking for more blocks changes nothing. */
  lemma {:induction false} AllocManyStops(used: set<nat>, i: nat, n: nat)
    requires i <= n && Full(used + SetOf(AllocMany(used, i)))
    ensures AllocMany(used, n) == AllocMany(used, i)
  {
    hide NextBlock, SetOf;
    if i < n {
      AllocManyStops(used, i, n - 1);
    }
  }

  // ---------------------------------------------------------------- new objects

  function CeilDiv(n: nat): nat {
    (n + BLOCK_SIZE - 1) / BLOCK_SIZE
  }

  function Min(a: nat, b: nat): nat {
    if a < b then a else b
  }

  /** Block `k` of the data, the last one padded with zeros. */
  function Chunk(data: seq<byte>, k: nat): Block
    requires BLOCK_SIZE * k <= |data|
  {
    if BLOCK_SIZE * (k + 1) <= |data| then data[BLOCK_SIZE * k..BLOCK_SIZE * (k + 1)]
    else data[BLOCK_SIZE * k..] + Zeros(BLOCK_SIZE * (k + 1) - |data|)
  }

  function Chunks(data: seq<byte>, n: nat): (bs: seq<Block>)
    requires n <= CeilDiv(|data|)
    ensures |bs| == n
  {
    seq(n, k requires 0 <= k < n => Chunk(data, k))
  }

  /** The blocks a file write obtains: up to 12 direct, then a table and up to 128 more. */
  function DirectBlocks(used: set<nat>, data: seq<byte>): seq<u32> {
    AllocMany(used, Min(CeilDiv(|data|), DIRECT_BLOCKS))
  }

  function TableBlock(used: set<nat>, data: seq<byte>): u32 {
    if CeilDiv(|data|) <= DIRECT_BLOCKS then 0 else NextBlock(used + SetOf(DirectBlocks(used, data)))
  }

  function IndirectBlocks(used: set<nat>, data: seq<byte>): seq<u32> {
    var t := TableBlock(used, data);
    if t == 0 then []
    else
      var todo := Min(CeilDiv(|data|) - DIRECT_BLOCKS, POINTERS_PER_BLOCK);
      AllocMany(used + SetOf(DirectBlocks(used, data)) + {t as nat}, todo)
  }

  function NewFile(used: set<nat>, data: seq<byte>): Obj
    requires |data| < 0x1_0000_0000
  {
    var bs := DirectBlocks(used, data) + IndirectBlocks(used, data);
    File(|data|, bs, TableBlock(used, data), Chunks(data, |bs|))
  }

  function NewDir(used: set<nat>, self: u32, parent: u32): Obj {
    Dir([NextBlock(used)], [DotChain(self, parent)])
  }

  /** The bytes a file holds: its size, or less when the disk ran out while it was written. */
  function FileBytes(o: Obj): seq<byte>
    requires o.File?
  {
    Join(o.data)[..Min(o.size, BLOCK_SIZE * |o.data|)]
  }

  lemma NewFileOK(used: set<nat>, data: seq<byte>)
    requires |data| < 0x1_0000_0000
    requires forall b | 0 <= b < INITIAL_USED_BLOCKS :: b in used
    ensures var o := NewFile(used, data);
      ObjOK(o) && FreshBlocks(used, Blocks(o)) && |o.data| <= CeilDiv(|data|)
    ensures TableBlock(used, data) != 0 ==> |DirectBlocks(used, data)| == DIRECT_BLOCKS
  {
    hide LowestFree, AllocMany;
    var d, t := DirectBlocks(used, data), TableBlock(used, data);
    AllocManyFresh(used, Min(CeilDiv(|data|), DIRECT_BLOCKS));
    if t != 0 {
      var used1 := used + SetOf(d);
      NextFresh(used, d);
      AllocManyFresh(used1 + {t as nat}, Min(CeilDiv(|data|) - DIRECT_BLOCKS, POINTERS_PER_BLOCK));
      FreshConcat(used, d, t, IndirectBlocks(used, data));
    } else {
      assert d + [] == d;
    }
  }

  lemma FreshConcat(used: set<nat>, d: seq<u32>, t: u32, i: seq<u32>)
    requires FreshBlocks(used, d) && t !in used && t !in d && INITIAL_USED_BLOCKS <= t < BLOCKS_PER_GROUP
    requires FreshBlocks(used + SetOf(d) + {t as nat}, i)
    ensures FreshBlocks(used, d + i + [t])
  {
    var bs := d + i + [t];
    forall x, y | 0 <= x < y < |bs| ensures bs[x] != bs[y] {
      if x < |d| {
        assert bs[x] == d[x] && d[x] in SetOf(d);
      }
    }
  }
}
