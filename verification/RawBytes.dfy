/** Byte by byte: what a tool that knows only the EXT2 format finds on the disk of a volume. */
module RawBytes {
  import opened Bytes
  import opened Layout
  import opened Volumes
  import opened Format
  import opened Coupling

  lemma WordIs(b: Block, off: nat, n: nat, k: nat)
    requires off + 4 * n <= BLOCK_SIZE && k < n
    ensures WordsAt(b, off, n)[k] == Get32(b, off + 4 * k)
  {}

  lemma Halves(b: Block, off: nat)
    requires off + 4 <= BLOCK_SIZE
    ensures Get32(b, off) % 0x1_0000 == Get16(b, off) && Get32(b, off) / 0x1_0000 == Get16(b, off + 2)
  {
    var x: int, y: int := Get16(b, off), Get16(b, off + 2);
    assert Get32(b, off) == x + 0x1_0000 * y;
  }

  // ---------------------------------------------------------------- boot block, superblock and descriptor

  /** The boot block: the banner, zeros, and `Ok` at its end. */
  lemma SignatureBytes(bl: seq<Block>, v: Vol)
    requires Repr(bl, v)
    ensures |bl| >= 256
    ensures forall i | 0 <= i < 16 :: bl[0][i] as char == "RENDANGOS FS v1."[i]
    ensures forall i | 16 <= i < 510 :: bl[0][i] == 0
    ensures bl[0][510] as char == 'O' && bl[0][511] as char == 'k'
  {
    hide TableOn, DataOn, Placement, WordsAt, SuperOf, DescOf;
  }

  /** Blocks 1 and 2: the fields of the superblock and of the descriptor at their offsets. */
  lemma HeaderFields(bl: seq<Block>, v: Vol)
    requires Repr(bl, v)
    ensures |bl| >= 256
    ensures Get32(bl[1], 0) == 512 && Get32(bl[1], 4) == 2048
    ensures Get32(bl[1], 12) == 2048 - |v.used| && Get32(bl[1], 16) == 512 - |v.inos|
    ensures Get32(bl[1], 20) == 3 && Get32(bl[1], 32) == 256 && Get32(bl[1], 40) == 64
    ensures Get16(bl[1], 56) == 0xEF53 && Get32(bl[1], 84) == 11 && Get16(bl[1], 88) == 128
    ensures Get32(bl[2], 0) == 3 && Get32(bl[2], 4) == 4 && Get32(bl[2], 8) == 5
    ensures Get16(bl[2], 12) == 256 - |v.used| && Get16(bl[2], 14) == 64 - |v.inos| && Get16(bl[2], 16) == 1
  {
    hide TableOn, DataOn, Placement, Get32, Get16, Signature, BitsOn, InodeBitsOn;
    forall k | 0 <= k < 51 ensures SuperOf(v)[k] == Get32(bl[1], 4 * k) {
      WordIs(bl[1], 0, 51, k);
    }
    forall k | 0 <= k < 8 ensures DescOf(v)[k] == Get32(bl[2], 4 * k) {
      WordIs(bl[2], 0, 8, k);
    }
    hide WordsAt;
    SuperFields(v, bl[1]);
    DescFields(v, bl[2]);
  }

  lemma SuperWords(v: Vol)
    requires |v.used| <= 256 && |v.inos| <= 64
    ensures var s := SuperOf(v);
      && s[0] == 512 && s[1] == 2048 && s[3] == 2048 - |v.used| && s[4] == 512 - |v.inos| && s[5] == 3
      && s[8] == 256 && s[10] == 64 && s[14] == 0xEF53 && s[21] == 11 && s[22] == 128
  {}

  lemma SuperFields(v: Vol, b: Block)
    requires |v.used| <= 256 && |v.inos| <= 64 && forall k | 0 <= k < 51 :: SuperOf(v)[k] == Get32(b, 4 * k)
    ensures Get32(b, 0) == 512 && Get32(b, 4) == 2048
    ensures Get32(b, 12) == 2048 - |v.used| && Get32(b, 16) == 512 - |v.inos|
    ensures Get32(b, 20) == 3 && Get32(b, 32) == 256 && Get32(b, 40) == 64
    ensures Get16(b, 56) == 0xEF53 && Get32(b, 84) == 11 && Get16(b, 88) == 128
  {
    SuperWords(v);
    hide SuperOf;
    var s := SuperOf(v);
    assert s[0] == Get32(b, 0) && s[1] == Get32(b, 4) && s[3] == Get32(b, 12) && s[4] == Get32(b, 16);
    assert s[5] == Get32(b, 20) && s[8] == Get32(b, 32) && s[10] == Get32(b, 40);
    assert s[14] == Get32(b, 56) && s[21] == Get32(b, 84) && s[22] == Get32(b, 88);
    Halves(b, 56);
    Halves(b, 88);
    hide Get32, Get16;
  }

  lemma DescFields(v: Vol, b: Block)
    requires |v.used| <= 256 && |v.inos| <= 64 && forall k | 0 <= k < 8 :: DescOf(v)[k] == Get32(b, 4 * k)
    ensures Get32(b, 0) == 3 && Get32(b, 4) == 4 && Get32(b, 8) == 5
    ensures Get16(b, 12) == 256 - |v.used| && Get16(b, 14) == 64 - |v.inos| && Get16(b, 16) == 1
  {
    var d := DescOf(v);
    assert d[0] == Get32(b, 0) && d[1] == Get32(b, 4) && d[2] == Get32(b, 8);
    assert d[3] == Get32(b, 12) && d[4] == Get32(b, 16);
    Halves(b, 12);
    Halves(b, 16);
    hide Get32, Get16;
  }

  // ---------------------------------------------------------------- inodes

  /** The record of inode `n`, four to a block from block 5 on: mode, size, links, blocks and the fifteen pointers. */
  lemma InodeFields(bl: seq<Block>, v: Vol, n: nat)
    requires Repr(bl, v) && n in v.objs && 1 <= n <= 64
    ensures |bl| >= 256 && ObjOK(v.objs[n])
    ensures var o, b, off := v.objs[n], bl[5 + (n - 1) / 4], (n - 1) % 4 * 128;
      && Get16(b, off) == (if o.Dir? then 0x4000 + 0x1ED else 0x8000 + 0x1A4)
      && Get32(b, off + 4) == (if o.Dir? then 512 * |o.blks| else o.size)
      && Get16(b, off + 26) == (if o.Dir? then 2 else 1)
      && Get32(b, off + 28) == |Blocks(o)|
      && (forall k | 0 <= k < 12 :: Get32(b, off + 40 + 4 * k) == if k < |o.blks| then o.blks[k] else 0)
      && Get32(b, off + 88) == (if o.File? then o.ind else 0)
  {
    hide MetaOn, DataOn, Placement, ObjOK, Get32, Get16, DecodeInode, InodeOf, Blocks;
    var o, b, off := v.objs[n], bl[5 + (n - 1) / 4], (n - 1) % 4 * 128;
    assert InodeAt(bl, n) == InodeOf(o);
    forall k | 0 <= k < 32 ensures WordsAt(b, off, 32)[k] == Get32(b, off + 4 * k) {
      WordIs(b, off, 32, k);
    }
    Halves(b, off);
    Halves(b, off + 24);
    hide WordsAt;
    RecordFields(o, WordsAt(b, off, 32));
  }

  lemma RecordFields(o: Obj, ws: seq<u32>)
    requires ObjOK(o) && |ws| == 32 && DecodeInode(ws) == InodeOf(o)
    ensures ws[0] % 0x1_0000 == (if o.Dir? then 0x4000 + 0x1ED else 0x8000 + 0x1A4)
    ensures ws[1] == if o.Dir? then 512 * |o.blks| else o.size
    ensures ws[6] / 0x1_0000 == if o.Dir? then 2 else 1
    ensures ws[7] == |Blocks(o)|
    ensures forall k | 0 <= k < 12 :: ws[10 + k] == if k < |o.blks| then o.blks[k] else 0
    ensures ws[22] == if o.File? then o.ind else 0
  {
    var i := InodeOf(o);
    assert i.mode == ws[0] % 0x1_0000 && i.size == ws[1] && i.links == ws[6] / 0x1_0000 && i.blocks == ws[7];
    assert i.block == ws[10..25] && i.block == BlockMap(o);
    hide DecodeInode, InodeOf;
    forall k | 0 <= k < 15 ensures BlockMap(o)[k] == ws[10 + k] {
      assert ws[10..25][k] == ws[10 + k];
    }
    assert BlockMap(o)[12] == ws[22];
  }

  /** Block `k` of a new file: 512 bytes of the data, and zeros past its end. */
  lemma StoredBytes(used: set<nat>, data: seq<byte>, k: nat, i: nat)
    requires |data| < 0x1_0000_0000 && i < 512
    requires k < |NewFile(used, data).data|
    ensures NewFile(used, data).data[k][i] == if 512 * k + i < |data| then data[512 * k + i] else 0
  {
    hide AllocMany, NextBlock, SetOf;
  }

  // ---------------------------------------------------------------- bits

  /** Bit `k` of a bitmap byte is worth 2 to the `k`: these bytes have exactly that bit set. */
  lemma BitValues(k: nat)
    requires k < 8
    ensures ByteBit(1, k) <==> k == 0
    ensures ByteBit(2, k) <==> k == 1
    ensures ByteBit(4, k) <==> k == 2
    ensures ByteBit(8, k) <==> k == 3
    ensures ByteBit(16, k) <==> k == 4
    ensures ByteBit(32, k) <==> k == 5
    ensures ByteBit(64, k) <==> k == 6
    ensures ByteBit(128, k) <==> k == 7
  {
    SmallIndexThroughBv(k);
  }
}
