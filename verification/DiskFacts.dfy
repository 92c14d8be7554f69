/** What the invariants mean for the bytes on the disk. */
module DiskFacts {
  import opened Bytes
  import opened FiniteSets
  import opened RamDisks
  import opened Layout
  import opened Records
  import opened Directories
  import opened Volumes
  import opened Kinds
  import opened Operations
  import opened Invariants
  import opened Coupling
  import T = Trees

  // ---------------------------------------------------------------- who owns a block

  const SLOTS: nat := 141

  /** Pointer slot `k` of inode `n`: 12 direct, the table, then the 128 entries of the table. */
  function SlotValue(bl: seq<Block>, n: nat, k: nat): u32
    requires |bl| >= BLOCKS_PER_GROUP && 1 <= n <= INODES_PER_GROUP && k < SLOTS
  {
    var i := InodeAt(bl, n);
    if k <= DIRECT_BLOCKS then i.block[k]
    else if i.block[DIRECT_BLOCKS] == 0 || i.block[DIRECT_BLOCKS] >= |bl| then 0
    else WordsAt(bl[i.block[DIRECT_BLOCKS]], 0, POINTERS_PER_BLOCK)[k - DIRECT_BLOCKS - 1]
  }

  /** Slot `k` of the allocated inode `n` holds block `b`. */
  ghost predicate Holds(bl: seq<Block>, n: nat, k: nat, b: nat) {
    && |bl| >= BLOCKS_PER_GROUP && 1 <= n <= INODES_PER_GROUP && k < SLOTS
    && TestBit(bl[INODE_BITMAP_LBA], n - 1)
    && SlotValue(bl, n, k) == b && b != 0
  }

  /** The same slot, read off the object. */
  function SlotOf(o: Obj, k: nat): u32 {
    if k < DIRECT_BLOCKS then (if k < |o.blks| then o.blks[k] else 0)
    else if k == DIRECT_BLOCKS then (if o.File? then o.ind else 0)
    else if o.File? && k - 1 < |o.blks| then o.blks[k - 1]
    else 0
  }

  lemma SlotOnDisk(bl: seq<Block>, v: Vol, n: nat, k: nat)
    requires Repr(bl, v) && 1 <= n <= INODES_PER_GROUP && k < SLOTS
    ensures |bl| >= BLOCKS_PER_GROUP
    ensures SlotValue(bl, n, k) == if n in v.objs then SlotOf(v.objs[n], k) else 0
  {
    hide MetaOn, Placement, InodeAt, WordsAt;
    if n in v.objs {
      assert ObjOn(bl, v.objs[n]);
    }
  }

  /** Position in the list of owned blocks of a non-zero slot. */
  function SlotIndex(o: Obj, k: nat): nat {
    if k < DIRECT_BLOCKS then k else if k == DIRECT_BLOCKS then |o.blks| else k - 1
  }

  lemma SlotIsOwned(o: Obj, k: nat)
    requires ObjOK(o) && k < SLOTS && SlotOf(o, k) != 0
    ensures SlotIndex(o, k) < |Blocks(o)| && Blocks(o)[SlotIndex(o, k)] == SlotOf(o, k)
  {}

  lemma SlotOfIndex(o: Obj, j: nat) returns (k: nat)
    requires ObjOK(o) && j < |Blocks(o)|
    ensures k < SLOTS && SlotOf(o, k) == Blocks(o)[j]
  {
    k := if j == |o.blks| then DIRECT_BLOCKS else if j < DIRECT_BLOCKS then j else j + 1;
  }

  /** Two slots of one object never hold the same block. */
  lemma SlotsDiffer(o: Obj, k: nat, l: nat)
    requires ObjOK(o) && NoDup(Blocks(o)) && k < SLOTS && l < SLOTS
    requires SlotOf(o, k) == SlotOf(o, l) != 0
    ensures k == l
  {
    SlotIsOwned(o, k);
    SlotIsOwned(o, l);
  }

  lemma HoldsObj(bl: seq<Block>, v: Vol, n: nat, k: nat, b: nat)
    requires Repr(bl, v) && VolOK(v)
    ensures Holds(bl, n, k, b) <==> n in v.objs && k < SLOTS && SlotOf(v.objs[n], k) == b && b != 0
  {
    hide TableOn, DataOn, Placement, WellOwned, Exact, DirsOK, SlotValue, SlotOf;
    if 1 <= n <= INODES_PER_GROUP && k < SLOTS {
      SlotOnDisk(bl, v, n, k);
      assert TestBit(bl[INODE_BITMAP_LBA], n - 1) <==> n - 1 + 1 in v.inos;
    }
  }

  /** In the block bitmap, a bit from 22 up is set exactly when a slot of an allocated inode holds the block. */
  lemma BlockOwnership(bl: seq<Block>, v: Vol, b: nat)
    requires Repr(bl, v) && VolOK(v) && INITIAL_USED_BLOCKS <= b < BLOCKS_PER_GROUP
    ensures |bl| >= BLOCKS_PER_GROUP
    ensures TestBit(bl[BLOCK_BITMAP_LBA], b) <==> exists n: nat, k: nat :: Holds(bl, n, k, b)
  {
    hide DirsOK, RootOK, TableOn, DataOn, Placement, ObjOK, Blocks, SlotOf, Holds, TestBit;
    assert TestBit(bl[BLOCK_BITMAP_LBA], b) <==> b in v.used;
    if b in v.used {
      var n: nat :| Owns(v, n, b);
      var j: nat :| j < |Blocks(v.objs[n])| && Blocks(v.objs[n])[j] == b;
      var k := SlotOfIndex(v.objs[n], j);
      HoldsObj(bl, v, n, k, b);
    }
    forall n: nat, k: nat | Holds(bl, n, k, b) ensures b in v.used {
      HeldIsUsed(bl, v, n, k, b);
    }
  }

  lemma HeldIsUsed(bl: seq<Block>, v: Vol, n: nat, k: nat, b: nat)
    requires Repr(bl, v) && VolOK(v) && Holds(bl, n, k, b)
    ensures b in v.used && b < BLOCKS_PER_GROUP && b >= ROOT_DIR_BLOCK_LBA
    ensures b == ROOT_DIR_BLOCK_LBA ==> n == ROOT_INODE_NO
    ensures TestBit(bl[BLOCK_BITMAP_LBA], b)
  {
    hide DirsOK, RootOK, TableOn, DataOn, Placement, ObjOK, SlotOf, Exact, Blocks, TestBit, SlotValue;
    HoldsObj(bl, v, n, k, b);
    SlotIsOwned(v.objs[n], k);
    assert Owns(v, n, b);
  }

  /** No block is held twice, by two inodes or by two slots of one. */
  lemma SoleHolder(bl: seq<Block>, v: Vol, b: nat, n: nat, k: nat, m: nat, l: nat)
    requires Repr(bl, v) && VolOK(v) && Holds(bl, n, k, b) && Holds(bl, m, l, b)
    ensures n == m && k == l
  {
    hide DirsOK, RootOK, Repr, ObjOK, SlotOf, Exact, Blocks, NoDup, Holds;
    HoldsObj(bl, v, n, k, b);
    HoldsObj(bl, v, m, l, b);
    SlotIsOwned(v.objs[n], k);
    SlotIsOwned(v.objs[m], l);
    assert Owns(v, n, b) && Owns(v, m, b);
    SlotsDiffer(v.objs[n], k, l);
  }

  // ---------------------------------------------------------------- counters

  /** Clear bits among the first `n` of a bitmap. */
  function ClearBits(b: Block, n: nat): nat
    requires n <= 8 * BLOCK_SIZE
  {
    if n == 0 then 0 else ClearBits(b, n - 1) + (if TestBit(b, n - 1) then 0 else 1)
  }

  lemma {:induction false} ClearBitsCard(b: Block, s: set<nat>, n: nat, first: nat)
    requires n <= 8 * BLOCK_SIZE
    requires forall i | 0 <= i < n :: TestBit(b, i) <==> i + first in s
    requires forall x | x in s :: first <= x < n + first
    ensures |s| <= n && ClearBits(b, n) == n - |s|
    decreases n
  {
    hide TestBit;
    if n > 0 {
      var x := n - 1 + first;
      assert TestBit(b, n - 1) <==> x in s;
      ClearBitsCard(b, s - {x}, n - 1, first);
      WithoutCard(s, x);
    } else {
      assert s == {};
    }
  }

  /** Clear bits of both bitmaps are what is free. */
  lemma BitmapCounts(bl: seq<Block>, v: Vol)
    requires Repr(bl, v) && Sized(v)
    ensures |bl| >= BLOCKS_PER_GROUP && |v.used| <= BLOCKS_PER_GROUP && |v.inos| <= INODES_PER_GROUP
    ensures ClearBits(bl[BLOCK_BITMAP_LBA], BLOCKS_PER_GROUP) == BLOCKS_PER_GROUP - |v.used|
    ensures ClearBits(bl[INODE_BITMAP_LBA], INODES_PER_GROUP) == INODES_PER_GROUP - |v.inos|
  {
    hide TableOn, DataOn, Placement, TestBit, WordsAt, ClearBits, SuperOf, DescOf, Signature;
    ClearBitsCard(bl[BLOCK_BITMAP_LBA], v.used, BLOCKS_PER_GROUP, 0);
    ClearBitsCard(bl[INODE_BITMAP_LBA], v.inos, INODES_PER_GROUP, 1);
  }

  /** The stored free counts: the group's equal the clear bits of its bitmaps, the superblock's differ
      from them by the seven unused groups. */
  lemma CountersExact(bl: seq<Block>, v: Vol)
    requires Repr(bl, v) && Sized(v)
    ensures |bl| >= BLOCKS_PER_GROUP
    ensures var sb, gd := WordsAt(bl[SUPERBLOCK_LBA], 0, SUPER_WORDS), WordsAt(bl[BGDT_LBA], 0, DESC_WORDS);
      && FreeBlocksCount(gd) == ClearBits(bl[BLOCK_BITMAP_LBA], BLOCKS_PER_GROUP)
      && FreeInodesCount(gd) == ClearBits(bl[INODE_BITMAP_LBA], INODES_PER_GROUP)
      && sb[SB_FREE_BLOCKS] == FreeBlocksCount(gd) + (TOTAL_BLOCKS - BLOCKS_PER_GROUP)
      && sb[SB_FREE_INODES] == FreeInodesCount(gd) + (TOTAL_INODES - INODES_PER_GROUP)
  {
    hide TableOn, DataOn, Placement, BitsOn, InodeBitsOn, WordsAt, ClearBits, SuperWith, DescWith, FreeBlocksCount,
         FreeInodesCount, Signature, Sized;
    BitmapCounts(bl, v);
    SuperCounts(TOTAL_BLOCKS - |v.used|, TOTAL_INODES - |v.inos|, 0);
    DescCounts(BLOCKS_PER_GROUP - |v.used|, INODES_PER_GROUP - |v.inos|, 0);
  }

  /** Allocation answers 0 exactly when no bit of the range is clear. */
  lemma AllocationFails(v: Vol)
    requires Sized(v)
    ensures NextBlock(v.used) == 0 <==> forall b | 0 <= b < BLOCKS_PER_GROUP :: b in v.used
    ensures NextInode(v.inos) == 0 <==> forall i | 1 <= i <= INODES_PER_GROUP :: i in v.inos
  {
    NextBlockFresh(v);
    NextInodeFresh(v);
  }

  // ---------------------------------------------------------------- the volume is a function of the bytes

  /** An inode record tells the kind, the size, the number of blocks and the first blocks of its object. */
  lemma InodeTells(o: Obj, q: Obj)
    requires ObjOK(o) && ObjOK(q) && InodeOf(o) == InodeOf(q)
    ensures o.Dir? == q.Dir? && |o.blks| == |q.blks|
    ensures o.File? ==> o.size == q.size && o.ind == q.ind
    ensures forall k | 0 <= k < Min(|o.blks|, DIRECT_BLOCKS) :: o.blks[k] == q.blks[k]
    ensures o.Dir? ==> o.blks == q.blks
  {
    assert InodeOf(o).block == BlockMap(o) && InodeOf(q).block == BlockMap(q);
    assert BlockMap(o)[DIRECT_BLOCKS] == BlockMap(q)[DIRECT_BLOCKS];
    forall k | 0 <= k < Min(|o.blks|, DIRECT_BLOCKS) ensures o.blks[k] == q.blks[k] {
      assert BlockMap(o)[k] == BlockMap(q)[k];
    }
  }

  lemma FileTells(bl: seq<Block>, o: Obj, q: Obj)
    requires ObjOK(o) && ObjOK(q) && InodeOf(o) == InodeOf(q) && o.File? && q.File?
    requires FileOn(bl, o) && FileOn(bl, q)
    ensures o == q
  {
    hide InodeOf, WordsAt;
    InodeTells(o, q);
    forall k | 0 <= k < |o.blks| ensures o.blks[k] == q.blks[k] {
      if k >= DIRECT_BLOCKS {
        assert TableWords(o)[k - DIRECT_BLOCKS] == TableWords(q)[k - DIRECT_BLOCKS];
      }
    }
    assert o.blks == q.blks && o.data == q.data;
  }

  lemma DirTells(bl: seq<Block>, o: Obj, q: Obj)
    requires ObjOK(o) && ObjOK(q) && InodeOf(o) == InodeOf(q) && o.Dir? && q.Dir?
    requires DirOn(bl, o.blks, o.chains) && DirOn(bl, q.blks, q.chains)
    ensures o == q
  {
    hide InodeOf, Seg, AllTiled;
    InodeTells(o, q);
    forall k | 0 <= k < |o.blks| ensures o.chains[k] == q.chains[k] {
      SegUnique(bl[o.blks[k]], 0, o.chains[k], q.chains[k], BLOCK_SIZE);
    }
    assert o.chains == q.chains;
  }

  lemma ModeNotZero(o: Obj)
    requires ObjOK(o)
    ensures InodeOf(o) != ZeroInode()
  {}

  lemma ObjectsTell(bl: seq<Block>, v: Vol, w: Vol, n: nat)
    requires Repr(bl, v) && Repr(bl, w) && 1 <= n <= INODES_PER_GROUP
    ensures n in v.objs <==> n in w.objs
    ensures n in v.objs && n in w.objs ==> v.objs[n] == w.objs[n]
  {
    hide MetaOn, Placement, InodeOf, InodeAt, FileOn, DirOn, ObjOK, ZeroInode;
    assert InodeAt(bl, n) == InodeFor(v.objs, n) == InodeFor(w.objs, n);
    if n in v.objs {
      ModeNotZero(v.objs[n]);
    }
    if n in w.objs {
      ModeNotZero(w.objs[n]);
    }
    if n in v.objs && n in w.objs {
      var o, q := v.objs[n], w.objs[n];
      assert ObjOn(bl, o) && ObjOn(bl, q);
      KindTells(o, q);
      if o.File? {
        FileTells(bl, o, q);
      } else {
        DirTells(bl, o, q);
      }
    }
  }

  lemma KindTells(o: Obj, q: Obj)
    requires ObjOK(o) && ObjOK(q) && InodeOf(o) == InodeOf(q)
    ensures o.Dir? == q.Dir?
  {
    InodeTells(o, q);
  }

  /** The bytes of a disk hold at most one volume. */
  lemma DiskDetermines(bl: seq<Block>, v: Vol, w: Vol)
    requires Repr(bl, v) && Sized(v) && Repr(bl, w) && Sized(w)
    ensures v == w
  {
    hide TableOn, DataOn, Placement, WordsAt, TestBit, SuperOf, DescOf;
    forall n ensures n in v.objs <==> n in w.objs {
      if 1 <= n <= INODES_PER_GROUP {
        ObjectsTell(bl, v, w, n);
      }
    }
    forall n | n in v.objs ensures v.objs[n] == w.objs[n] {
      ObjectsTell(bl, v, w, n);
    }
    assert v.objs == w.objs;
    forall b | 0 <= b < BLOCKS_PER_GROUP ensures b in v.used <==> b in w.used {
      assert TestBit(bl[BLOCK_BITMAP_LBA], b) <==> b in v.used;
    }
    assert v.used == w.used;
    forall i | 1 <= i <= INODES_PER_GROUP ensures i in v.inos <==> i in w.inos {
      assert TestBit(bl[INODE_BITMAP_LBA], i - 1) <==> i - 1 + 1 in v.inos;
    }
    assert v.inos == w.inos;
  }

  // ---------------------------------------------------------------- the metadata bytes are a function of the volume

  lemma BitmapTells(b: Block, c: Block, n: nat)
    requires n <= 8 * BLOCK_SIZE && Beyond(b, n) == Beyond(c, n)
    requires forall j | 0 <= j < n :: TestBit(b, j) == TestBit(c, j)
    ensures b == c
  {
    hide TestBit;
    forall j | 0 <= j < 8 * BLOCK_SIZE ensures TestBit(b, j) == TestBit(c, j) {
      if j >= n {
        assert Beyond(b, n)[j - n] == Beyond(c, n)[j - n];
      }
    }
    BitmapExtensional(b, c);
  }

  lemma DecodeInjective(ws: seq<u32>, xs: seq<u32>)
    requires |ws| == INODE_WORDS && |xs| == INODE_WORDS && DecodeInode(ws) == DecodeInode(xs)
    ensures ws == xs
  {
    forall k | 0 <= k < INODE_WORDS ensures ws[k] == xs[k] {
      if 10 <= k < 25 {
        assert ws[k] == ws[10..25][k - 10] && xs[k] == xs[10..25][k - 10];
      } else if k >= 29 {
        assert ws[k] == ws[29..32][k - 29] && xs[k] == xs[29..32][k - 29];
      }
    }
  }

  /** The record of slot `s` of a table block determines the slot's bytes. */
  lemma SlotBytes(b: Block, c: Block, s: nat, i: nat)
    requires s < 4 && INODE_BYTES * s <= i < INODE_BYTES * (s + 1)
    requires InodeIn(b, INODE_BYTES * s) == InodeIn(c, INODE_BYTES * s)
    ensures b[i] == c[i]
  {
    hide WordsAt, DecodeInode;
    var off := INODE_BYTES * s;
    DecodeInjective(WordsAt(b, off, INODE_WORDS), WordsAt(c, off, INODE_WORDS));
    WordsTell(b, c, off, INODE_WORDS, (i - off) / 4, (i - off) % 4);
  }

  lemma SlotPlace(j: nat, s: nat)
    requires j < INODES_TABLE_BLOCK_COUNT && s < 4
    ensures SlotBlock(4 * j + s + 1) == j && SlotOffset(4 * j + s + 1) == INODE_BYTES * s
  {
    var local := 4 * j + s;
    assert local / 4 == j && local % 4 == s;
    assert InodeToLocal(local + 1) == local;
  }

  lemma TableBlockTells(bl: seq<Block>, cl: seq<Block>, j: nat)
    requires 21 <= |bl| && 21 <= |cl| && j < INODES_TABLE_BLOCK_COUNT
    requires forall n | 1 <= n <= INODES_PER_GROUP :: InodeAt(bl, n) == InodeAt(cl, n)
    ensures bl[INODE_TABLE_LBA + j] == cl[INODE_TABLE_LBA + j]
  {
    hide InodeIn, SlotBlock, SlotOffset;
    var b, c := bl[INODE_TABLE_LBA + j], cl[INODE_TABLE_LBA + j];
    forall i | 0 <= i < BLOCK_SIZE ensures b[i] == c[i] {
      var s := i / INODE_BYTES;
      var n := 4 * j + s + 1;
      SlotPlace(j, s);
      assert InodeAt(bl, n) == InodeAt(cl, n);
      SlotBytes(b, c, s, i);
    }
  }

  /** Two disks that hold the same volume, and agree on the bits past the group, have the same bitmap blocks and
      the same inode table, byte for byte, and the same superblock and descriptor structs. */
  lemma MetadataDetermined(bl: seq<Block>, cl: seq<Block>, v: Vol)
    requires Repr(bl, v) && Repr(cl, v) && Pads(bl) == Pads(cl)
    ensures |bl| >= BLOCKS_PER_GROUP && |cl| >= BLOCKS_PER_GROUP
    ensures forall k | BLOCK_BITMAP_LBA <= k < ROOT_DIR_BLOCK_LBA :: bl[k] == cl[k]
    ensures WordsAt(bl[SUPERBLOCK_LBA], 0, SUPER_WORDS) == WordsAt(cl[SUPERBLOCK_LBA], 0, SUPER_WORDS)
    ensures WordsAt(bl[BGDT_LBA], 0, DESC_WORDS) == WordsAt(cl[BGDT_LBA], 0, DESC_WORDS)
  {
    hide DataOn, Placement, WordsAt, TestBit, Beyond, InodeAt, InodeFor, Signature, SuperOf, DescOf;
    BitmapTells(bl[BLOCK_BITMAP_LBA], cl[BLOCK_BITMAP_LBA], BLOCKS_PER_GROUP);
    BitmapTells(bl[INODE_BITMAP_LBA], cl[INODE_BITMAP_LBA], INODES_PER_GROUP);
    forall k | INODE_TABLE_LBA <= k < ROOT_DIR_BLOCK_LBA ensures bl[k] == cl[k] {
      TableBlockTells(bl, cl, k - INODE_TABLE_LBA);
    }
  }

  // ---------------------------------------------------------------- what a reader of raw directory bytes sees

  /** A reader's own walk over the records of a block, trusting nothing but the bytes. */
  function ParseFrom(b: Block, off: nat): seq<Rec>
    decreases BLOCK_SIZE - off
  {
    if off + 8 > BLOCK_SIZE || off + 8 + b[off + 6] as nat > BLOCK_SIZE || Get16(b, off + 4) < 8 then []
    else
      [Rec(Get32(b, off), Get16(b, off + 4), b[off + 8..off + 8 + b[off + 6] as nat], b[off + 7])]
      + ParseFrom(b, off + Get16(b, off + 4))
  }

  lemma {:induction false} ParseSeg(b: Block, off: nat, rs: seq<Rec>)
    requires Seg(b, off, rs, BLOCK_SIZE)
    ensures ParseFrom(b, off) == rs
    decreases |rs|
  {
    hide ParseFrom, RecAt, RecOK;
    if rs != [] {
      ParseStep(b, off, rs[0]);
      ParseSeg(b, off + rs[0].len, rs[1..]);
      assert rs == [rs[0]] + rs[1..];
    } else {
      ParseEnd(b);
    }
  }

  lemma ParseStep(b: Block, off: nat, r: Rec)
    requires RecOK(r) && RecAt(b, off, r) && off + r.len <= BLOCK_SIZE
    ensures ParseFrom(b, off) == [r] + ParseFrom(b, off + r.len)
  {
    hide Get32;
  }

  lemma ParseEnd(b: Block)
    ensures ParseFrom(b, BLOCK_SIZE) == []
  {}

  /** Parses whole blocks out of a buffer. */
  function ParseBlocks(bs: seq<byte>, n: nat): seq<Rec>
    requires BLOCK_SIZE * n <= |bs|
  {
    if n == 0 then []
    else ParseBlocks(bs, n - 1) + ParseFrom(bs[BLOCK_SIZE * (n - 1)..BLOCK_SIZE * n], 0)
  }

  lemma {:induction false} ParseJoined(bs: seq<byte>, cs: Chains, n: nat)
    requires n <= |cs| && BLOCK_SIZE * n <= |bs|
    requires forall k | 0 <= k < n :: Seg(bs[BLOCK_SIZE * k..BLOCK_SIZE * (k + 1)], 0, cs[k], BLOCK_SIZE)
    ensures ParseBlocks(bs, n) == Flat(cs[..n])
    decreases n
  {
    hide Seg, ParseFrom;
    if n > 0 {
      hide Flat;
      ParseJoined(bs, cs, n - 1);
      ParseSeg(bs[BLOCK_SIZE * (n - 1)..BLOCK_SIZE * n], 0, cs[n - 1]);
      FlatSnoc(cs[..n - 1], cs[n - 1]);
      assert cs[..n] == cs[..n - 1] + [cs[n - 1]];
    } else {
      assert cs[..0] == [];
    }
  }

  /** Every entry has the number and the kind of an object of the volume; of all blocks of the directory the entries
      have exactly its names. */
  ghost predicate Faithful(v: Vol, p: nat, k: nat, items: map<Name, Item>)
    requires IsDirObj(v, p)
  {
    && (forall x | x in items :: Shown(v, v.objs[p].chains, x, items[x]))
    && (k == |v.objs[p].chains| ==> items.Keys == DirKids(v.objs[p].chains).Keys)
  }

  /** Whatever room there is, the whole blocks copied parse back to the records they hold, and so to names, numbers
      and kinds. */
  lemma ListingDecodes(bl: seq<Block>, v: Vol, p: nat, n: nat)
    requires Repr(bl, v) && Inv(v) && IsDirObj(v, p)
    ensures var o, bytes := v.objs[p], DirBytes(bl, v, p, n);
      var k := Min(|o.blks|, n / BLOCK_SIZE);
      && |bytes| == Min(n, BLOCK_SIZE * |o.blks|) && BLOCK_SIZE * k <= |bytes| && |o.blks| == |o.chains|
      && ParseBlocks(bytes, k) == Flat(o.chains[..k])
      && Faithful(v, p, k, Items(ParseBlocks(bytes, k)))
  {
    hide MetaOn, TableOn, Placement, Seg, Join, ParseBlocks, Flat, Items, VolOK, T.WfTree, KindsOK, Faithful;
    var o := v.objs[p];
    var bytes := DirBytes(bl, v, p, n);
    var k := Min(|o.blks|, n / BLOCK_SIZE);
    assert ObjOn(bl, o);
    DirBytesLength(bl, v, p, n);
    forall i | 0 <= i < k ensures Seg(bytes[BLOCK_SIZE * i..BLOCK_SIZE * (i + 1)], 0, o.chains[i], BLOCK_SIZE) {
      DirBytesBlock(bl, v, p, n, i);
    }
    ParseJoined(bytes, o.chains, k);
    ItemsFaithful(v, p, k);
  }

  lemma ItemsFaithful(v: Vol, p: nat, k: nat)
    requires Inv(v) && IsDirObj(v, p) && k <= |v.objs[p].chains|
    ensures Faithful(v, p, k, Items(Flat(v.objs[p].chains[..k])))
  {
    hide VolOK, T.WfTree, KindsOK, Flat, Kids, Items, Shown;
    var cs := v.objs[p].chains;
    assert cs[..|cs|] == cs;
    ItemsAreKids(Flat(cs[..k]));
    forall x | x in Items(Flat(cs[..k])) ensures Shown(v, cs, x, Items(Flat(cs[..k]))[x]) {
      ItemShown(v, p, k, x);
    }
  }

  lemma DirBytesLength(bl: seq<Block>, v: Vol, p: nat, n: nat)
    requires IsDirObj(v, p)
    ensures |DirBytes(bl, v, p, n)| == Min(n, BLOCK_SIZE * |v.objs[p].blks|)
  {}

  lemma DirBytesBlock(bl: seq<Block>, v: Vol, p: nat, n: nat, i: nat)
    requires IsDirObj(v, p) && i < |v.objs[p].blks| && BLOCK_SIZE * (i + 1) <= n
    requires v.objs[p].blks[i] < |bl|
    ensures BLOCK_SIZE * (i + 1) <= |DirBytes(bl, v, p, n)|
    ensures DirBytes(bl, v, p, n)[BLOCK_SIZE * i..BLOCK_SIZE * (i + 1)] == bl[v.objs[p].blks[i]]
  {
    var bs := DirBlocks(bl, v.objs[p]);
    JoinAt(bs, i);
    var all, bytes := Join(bs), DirBytes(bl, v, p, n);
    hide Join;
    assert bytes == all[..|bytes|];
    assert bytes[BLOCK_SIZE * i..BLOCK_SIZE * (i + 1)] == all[BLOCK_SIZE * i..BLOCK_SIZE * (i + 1)];
  }
}
