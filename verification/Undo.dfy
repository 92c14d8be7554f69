/** What a write followed by a delete leaves on the disk. */
module Undo {
  import opened Bytes
  import opened RamDisks
  import opened Layout
  import opened Records
  import opened Directories
  import opened Volumes
  import opened Operations
  import opened Coupling
  import opened RoundTrip
  import opened DiskFacts
  import opened Ext2Driver
  import T = Trees

  /** Superblock, descriptor and bitmap blocks and the inode table are the same bytes; of the first two, the
      bytes of the structs. */
  ghost predicate SameMetadata(bl: seq<Block>, cl: seq<Block>) {
    && |bl| >= BLOCKS_PER_GROUP && |cl| >= BLOCKS_PER_GROUP
    && WordsAt(bl[SUPERBLOCK_LBA], 0, SUPER_WORDS) == WordsAt(cl[SUPERBLOCK_LBA], 0, SUPER_WORDS)
    && WordsAt(bl[BGDT_LBA], 0, DESC_WORDS) == WordsAt(cl[BGDT_LBA], 0, DESC_WORDS)
    && forall k | BLOCK_BITMAP_LBA <= k < ROOT_DIR_BLOCK_LBA :: bl[k] == cl[k]
  }

  /** A write that answers 0, and a delete of what it stored: with slack for the entry the volume and every byte of
      the metadata are as before; otherwise the directory keeps one block with one dead record. */
  method CreateThenDelete(fs: Ext2, p: nat, name: Name, isDir: bool, src: seq<byte>)
    returns (written: int, deleted: int)
    requires fs.Ready() && CanWrite(fs.vol, p, name, isDir, src) && p != 0 && T.Attached(Abs(fs.vol), p)
    modifies fs`sb, fs`gd, fs`vol, fs.disk, fs.disk.image
    ensures fs.Ready()
    ensures (written == 0) == (Operations.Write(old(fs.vol), p, name, isDir, src).1 == 0)
    ensures written == 0 ==> deleted == 0 && Undone(old(fs.vol), p, name, isDir, fs.vol)
    ensures written == 0 && fs.vol == old(fs.vol) ==> SameMetadata(old(fs.disk.blocks), fs.disk.blocks)
  {
    hide RamDisk.Valid, VolOK, T.WfTree, Operations.Write, Operations.Delete, Abs, T.Attached, CanWrite, Undone, Repr,
         Sized, Pads, SameMetadata;
    ghost var v, bl := fs.vol, fs.disk.blocks;
    deleted := -1;
    written := fs.Write(p, name, isDir, src);
    if written == 0 {
      UndoesOn(v, p, name, isDir, src);
      deleted := fs.Delete(p, name, isDir);
      if fs.vol == v {
        Metadata(bl, fs.disk.blocks, v);
      }
    }
  }

  /** The volume is as before, or the directory had to grow. */
  ghost predicate Undone(v: Vol, p: nat, name: Name, isDir: bool, u: Vol) {
    && IsDirObj(v, p)
    && if BlockWithRoom(v.objs[p].chains, EntryLen(|name|)) < |v.objs[p].chains| then u == v
       else exists b: u32 :: b !in v.used && u == GrownDead(v, p, b, name, if isDir then FT_DIR else FT_REG_FILE)
  }

  lemma UndoesOn(v: Vol, p: nat, name: Name, isDir: bool, data: seq<byte>)
    requires Inv(v) && CanWrite(v, p, name, isDir, data) && T.Attached(Abs(v), p)
    requires Operations.Write(v, p, name, isDir, data).1 == 0
    ensures p <= INODES_PER_GROUP && name != DOT && name != DOTDOT
    ensures Inv(Operations.Write(v, p, name, isDir, data).0)
    ensures var (u, code) := Operations.Delete(Operations.Write(v, p, name, isDir, data).0, p, name, isDir);
      code == 0 && Undone(v, p, name, isDir, u)
  {
    hide VolOK, T.WfTree, Operations.Write, Operations.Delete, Abs, T.Attached, CanWrite, BlockWithRoom, GrownDead;
    WriteThenDelete(v, p, name, isDir, data);
    WriteThenLookup(v, p, name, isDir, data);
  }

  lemma Metadata(bl: seq<Block>, cl: seq<Block>, v: Vol)
    requires Repr(bl, v) && Repr(cl, v) && Pads(bl) == Pads(cl)
    ensures SameMetadata(bl, cl)
  {
    hide Repr, Pads, WordsAt;
    MetadataDetermined(bl, cl, v);
  }
}
