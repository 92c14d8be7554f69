/** Fixed places on the disk and the packed structs stored there. */
module Layout {
  import opened Bytes

  const BOOT_SECTOR: nat := 0
  const SUPERBLOCK_LBA: nat := 1
  const BGDT_LBA: nat := 2
  const BLOCK_BITMAP_LBA: nat := 3
  const INODE_BITMAP_LBA: nat := 4
  const INODE_TABLE_LBA: nat := 5
  const INODES_TABLE_BLOCK_COUNT: nat := 16
  const ROOT_DIR_BLOCK_LBA: nat := 21
  const ROOT_INODE_NO: nat := 2
  const FIRST_INO: nat := 11

  const BLOCKS_PER_GROUP: nat := 256
  const TOTAL_BLOCKS: nat := 2048
  const INODES_PER_GROUP: nat := 64
  const TOTAL_INODES: nat := 512
  const INITIAL_USED_BLOCKS: nat := 22
  const INITIAL_USED_INODES: nat := 11

  const DIRECT_BLOCKS: nat := 12
  const POINTERS_PER_BLOCK: nat := 128
  const S_IFDIR: nat := 0x4000
  const EXT2_SUPER_MAGIC: nat := 0xEF53

  // ---------------------------------------------------------------- boot signature

  const SIGNATURE_TEXT: seq<byte> := [82, 69, 78, 68, 65, 78, 71, 79, 83, 32, 70, 83, 32, 118, 49, 46]

  /** The signature block: a banner, zeros, and `Ok` in the last two bytes. */
  function Signature(): Block {
    SIGNATURE_TEXT + Zeros(494) + [79, 107]
  }

  // ---------------------------------------------------------------- superblock and group descriptor

  const SUPER_WORDS: nat := 51
  const SB_FREE_BLOCKS: nat := 3
  const SB_FREE_INODES: nat := 4

  /** The 204-byte superblock struct, as 32-bit words. */
  type Superblock = ws: seq<u32> | |ws| == 51 witness seq(51, _ => 0)

  const DESC_WORDS: nat := 8

  /** The 32-byte group descriptor, as 32-bit words; word 3 packs both free counts. */
  type GroupDesc = ws: seq<u32> | |ws| == 8 witness seq(8, _ => 0)

  function SuperWith(freeBlocks: u32, freeInodes: u32): Superblock {
    [TOTAL_INODES, TOTAL_BLOCKS, 0, freeBlocks, freeInodes, BGDT_LBA + 1, 0, 0,
     BLOCKS_PER_GROUP, 0, INODES_PER_GROUP, 0, 0, 0, EXT2_SUPER_MAGIC, 0,
     0, 0, 0, 0, 0, FIRST_INO, 128, 0] + seq(27, _ => 0)
  }

  function Magic(s: Superblock): u16 {
    s[14] % 0x1_0000
  }

  /** The magic of a stored superblock: bytes 56 and 57 are 0x53 and 0xEF. */
  lemma MagicBytes(b: Block)
    ensures Magic(WordsAt(b, 0, 51)) == EXT2_SUPER_MAGIC <==> b[56] == 0x53 && b[57] == 0xEF
  {
    var p: int, q: int, r: int, s: int := b[56], b[57], b[58], b[59];
    var low: int, high: int := p + 256 * q, r + 256 * s;
    assert WordsAt(b, 0, SUPER_WORDS)[14] == low + 0x1_0000 * high;
    assert Magic(WordsAt(b, 0, SUPER_WORDS)) == low;
    assert low == 0x53 + 256 * 0xEF <==> b[56] == 0x53 && b[57] == 0xEF;
  }

  function DescWith(freeBlocks: u16, freeInodes: u16): GroupDesc {
    [BLOCK_BITMAP_LBA, INODE_BITMAP_LBA, INODE_TABLE_LBA, freeBlocks + 0x1_0000 * freeInodes, 1, 0, 0, 0]
  }

  function InodeTable(d: GroupDesc): u32 {
    d[2]
  }

  function FreeBlocksCount(d: GroupDesc): u16 {
    d[3] % 0x1_0000
  }

  function FreeInodesCount(d: GroupDesc): u16 {
    d[3] / 0x1_0000
  }

  function SetFreeBlocksCount(d: GroupDesc, n: u16): GroupDesc {
    d[3 := n + 0x1_0000 * FreeInodesCount(d)]
  }

  function SetFreeInodesCount(d: GroupDesc, n: u16): GroupDesc {
    d[3 := FreeBlocksCount(d) + 0x1_0000 * n]
  }

  lemma DescCounts(fb: u16, fi: u16, n: u16)
    ensures InodeTable(DescWith(fb, fi)) == INODE_TABLE_LBA
    ensures FreeBlocksCount(DescWith(fb, fi)) == fb && FreeInodesCount(DescWith(fb, fi)) == fi
    ensures SetFreeBlocksCount(DescWith(fb, fi), n) == DescWith(n, fi)
    ensures SetFreeInodesCount(DescWith(fb, fi), n) == DescWith(fb, n)
  {}

  lemma SuperCounts(fb: u32, fi: u32, n: u32)
    ensures SuperWith(fb, fi)[SB_FREE_BLOCKS] == fb && SuperWith(fb, fi)[SB_FREE_INODES] == fi
    ensures SuperWith(fb, fi)[SB_FREE_BLOCKS := n] == SuperWith(n, fi)
    ensures SuperWith(fb, fi)[SB_FREE_INODES := n] == SuperWith(fb, n)
  {}

  // ---------------------------------------------------------------- inodes

  /** The 128-byte on-disk inode. */
  datatype Inode = Inode(
    mode: u16, uid: u16, size: u32, atime: u32, ctime: u32, mtime: u32, dtime: u32,
    gid: u16, links: u16, blocks: u32, flags: u32, osd1: u32,
    block: seq<u32>, generation: u32, fileAcl: u32, dirAcl: u32, faddr: u32, osd2: seq<u32>)
  {
    predicate WellSized() {
      |block| == 15 && |osd2| == 3
    }

    predicate IsDir() {
      mode / S_IFDIR % 2 == 1
    }
  }

  const INODE_BYTES: nat := 128
  const INODE_WORDS: nat := 32

  function EncodeInode(i: Inode): (ws: seq<u32>)
    requires i.WellSized()
    ensures |ws| == INODE_WORDS
  {
    [i.mode + 0x1_0000 * i.uid, i.size, i.atime, i.ctime, i.mtime, i.dtime,
     i.gid + 0x1_0000 * i.links, i.blocks, i.flags, i.osd1]
    + i.block + [i.generation, i.fileAcl, i.dirAcl, i.faddr] + i.osd2
  }

  function DecodeInode(ws: seq<u32>): (i: Inode)
    requires |ws| == INODE_WORDS
    ensures i.WellSized()
  {
    Inode(ws[0] % 0x1_0000, ws[0] / 0x1_0000, ws[1], ws[2], ws[3], ws[4], ws[5],
          ws[6] % 0x1_0000, ws[6] / 0x1_0000, ws[7], ws[8], ws[9],
          ws[10..25], ws[25], ws[26], ws[27], ws[28], ws[29..32])
  }

  lemma InodeRoundTrip(i: Inode)
    requires i.WellSized()
    ensures DecodeInode(EncodeInode(i)) == i
  {
    var ws := EncodeInode(i);
    assert ws[10..25] == i.block;
    assert ws[29..32] == i.osd2;
  }

  function ZeroInode(): Inode {
    Inode(0, 0, 0, 0, 0, 0, 0, 0, 0, 0, 0, 0, seq(15, _ => 0), 0, 0, 0, 0, seq(3, _ => 0))
  }

  function InodeToLocal(inode: nat): nat {
    if inode == 0 then 0 else (inode - 1) % INODES_PER_GROUP
  }

  /** Inode table block, and byte offset inside it, of inode `n`. */
  function SlotBlock(n: nat): nat {
    InodeToLocal(n) / (BLOCK_SIZE / INODE_BYTES)
  }

  function SlotOffset(n: nat): nat {
    InodeToLocal(n) % (BLOCK_SIZE / INODE_BYTES) * INODE_BYTES
  }

  function InodeIn(b: Block, off: nat): (i: Inode)
    requires off + INODE_BYTES <= BLOCK_SIZE
    ensures i.WellSized()
  {
    DecodeInode(WordsAt(b, off, INODE_WORDS))
  }

  function PutInode(b: Block, off: nat, i: Inode): Block
    requires off + INODE_BYTES <= BLOCK_SIZE && i.WellSized()
  {
    Splice(b, off, WordBytes(EncodeInode(i)))
  }

  /** The inode record `n` of the table stored in blocks 5 to 20. */
  function InodeAt(blocks: seq<Block>, n: nat): (i: Inode)
    requires 21 <= |blocks| && 1 <= n <= INODES_PER_GROUP
    ensures i.WellSized()
  {
    InodeIn(blocks[INODE_TABLE_LBA + SlotBlock(n)], SlotOffset(n))
  }

  lemma SlotsApart(n: nat, m: nat)
    requires 1 <= n <= INODES_PER_GROUP && 1 <= m <= INODES_PER_GROUP && n != m
    ensures SlotBlock(n) != SlotBlock(m)
         || SlotOffset(n) + INODE_BYTES <= SlotOffset(m)
         || SlotOffset(m) + INODE_BYTES <= SlotOffset(n)
  {}

  lemma PutInodeSame(b: Block, off: nat, i: Inode)
    requires off + INODE_BYTES <= BLOCK_SIZE && i.WellSized()
    ensures InodeIn(PutInode(b, off, i), off) == i
  {
    var ws := EncodeInode(i);
    SpliceSlice(b, off, WordBytes(ws));
    WordsRoundTrip(PutInode(b, off, i), off, ws);
    InodeRoundTrip(i);
  }

  lemma PutInodeOther(b: Block, off: nat, i: Inode, other: nat)
    requires off + INODE_BYTES <= BLOCK_SIZE && i.WellSized() && other + INODE_BYTES <= BLOCK_SIZE
    requires off + INODE_BYTES <= other || other + INODE_BYTES <= off
    ensures InodeIn(PutInode(b, off, i), other) == InodeIn(b, other)
  {
    WordsFrame(PutInode(b, off, i), b, other, INODE_WORDS);
  }

  /** Writing inode `n` and reading inode `m` back: the written record if equal, the old one otherwise. */
  lemma InodeSlots(blocks: seq<Block>, n: nat, i: Inode, m: nat)
    requires 21 <= |blocks| && i.WellSized()
    requires 1 <= n <= INODES_PER_GROUP && 1 <= m <= INODES_PER_GROUP
    ensures var lba := INODE_TABLE_LBA + SlotBlock(n);
      InodeAt(blocks[lba := PutInode(blocks[lba], SlotOffset(n), i)], m) == if m == n then i else InodeAt(blocks, m)
  {
    hide PutInode, InodeIn;
    var b := blocks[INODE_TABLE_LBA + SlotBlock(n)];
    PutInodeSame(b, SlotOffset(n), i);
    if m != n {
      SlotsApart(n, m);
      if SlotBlock(m) == SlotBlock(n) {
        PutInodeOther(b, SlotOffset(n), i, SlotOffset(m));
      }
    }
  }
}
