/** The host-side inserter: put one file into an image, replacing an older one. */
module Inserter {
  import opened Bytes
  import opened Layout
  import opened Records
  import opened Volumes
  import opened Operations
  import opened Invariants
  import opened Space
  import opened RoundTrip
  import opened Ext2Driver
  import T = Trees

  /** What the image must offer: the parent is an attached directory and the name is none of the dots. */
  ghost predicate CanInsert(v: Vol, p: nat, name: Name, src: seq<byte>) {
    && CanWrite(v, p, name, false, src) && p != 0 && T.Attached(Abs(v), p)
    && name != DOT && name != DOTDOT
  }

  /** The volume the last write starts from: without the old file, if there was one. */
  ghost function Cleared(v: Vol, p: nat, name: Name): Vol
    requires Inv(v) && name != DOT && name != DOTDOT
  {
    if Lookup(v, p, name) == 0 then v else Delete(v, p, name, false).0
  }

  lemma ClearedReady(v: Vol, p: nat, name: Name, src: seq<byte>)
    requires Inv(v) && CanInsert(v, p, name, src)
    ensures |src| < 0x1_0000_0000
    ensures Inv(Cleared(v, p, name)) && CanInsert(Cleared(v, p, name), p, name, src)
    ensures Lookup(Cleared(v, p, name), p, name) != 0 <==> Lookup(v, p, name) != 0 && IsDirObj(v, Lookup(v, p, name))
    ensures Lookup(v, p, name) != 0 && IsDirObj(v, Lookup(v, p, name)) ==> Cleared(v, p, name) == v
  {
    hide VolOK, T.WfTree, Lookup, Delete, Abs, T.Attached;
    if Lookup(v, p, name) != 0 {
      ReplaceDeletes(v, p, name, src);
      DeleteEffect(v, p, name, false);
    }
  }

  /** Reads the file into a zeroed buffer and compares it with the source, byte by byte. */
  method ReadBack(fs: Ext2, p: nat, name: Name, src: seq<byte>, buf: array<byte>) returns (verified: bool)
    requires fs.Ready() && p <= INODES_PER_GROUP && Read(fs.vol, p, name, |src|).0 == 0
    requires buf != fs.disk.image && |src| <= buf.Length
    modifies buf
    ensures fs.Ready() && fs.vol == old(fs.vol)
    ensures var bytes := Read(fs.vol, p, name, |src|).1;
      verified <==> |bytes| <= |src| && src == bytes + Zeros(|src| - |bytes|)
  {
    hide Ext2.Synced, Inv, Lookup, FileBytes;
    forall i | 0 <= i < buf.Length {
      buf[i] := 0;
    }
    var code := fs.Read(p, name, |src|, buf);
    ghost var bytes := Read(fs.vol, p, name, |src|).1;
    ReadLimit(fs.vol, p, name, |src|);
    assert buf[..|src|] == bytes + Zeros(|src| - |bytes|);
    var i := 0;
    while i < |src|
      invariant 0 <= i <= |src|
      invariant fs.Ready() && fs.vol == old(fs.vol)
      invariant buf[..|src|] == bytes + Zeros(|src| - |bytes|)
      invariant forall j | 0 <= j < i :: src[j] == buf[j]
    {
      if src[i] != buf[i] {
        assert buf[..|src|][i] != src[i];
        return false;
      }
      i := i + 1;
    }
    assert buf[..|src|] == src;
    verified := true;
  }

  lemma ReadLimit(v: Vol, p: nat, name: Name, n: nat)
    ensures |Read(v, p, name, n).1| <= n
  {}

  /** Writes the file, or deletes the old one and writes it again, then reads it back. Answer 1 means the
      name belongs to a directory; answer 0 that the file is stored, and then the comparison says
      whether the part without blocks, if any, was all zeros. */
  method Insert(fs: Ext2, p: nat, name: Name, src: seq<byte>, buf: array<byte>) returns (code: int, verified: bool)
    requires fs.Ready() && CanInsert(fs.vol, p, name, src)
    requires buf != fs.disk.image && |src| <= buf.Length
    modifies fs`sb, fs`gd, fs`vol, fs.disk, fs.disk.image, buf
    ensures fs.Ready()
    ensures Inv(Cleared(old(fs.vol), p, name)) && CanInsert(Cleared(old(fs.vol), p, name), p, name, src)
    ensures (fs.vol, code) == Write(Cleared(old(fs.vol), p, name), p, name, false, src)
    ensures var kept := Kept(Cleared(old(fs.vol), p, name).used, src);
      && (kept == src <==> Whole(Cleared(old(fs.vol), p, name), false, src))
      && (code == 0 ==> (verified <==> src == kept + Zeros(|src| - |kept|)))
  {
    hide Ext2.Synced, VolOK, T.WfTree, Lookup, T.Attached, Kept, Write, Delete, Read, CanWrite, Abs, Cleared, Whole;
    verified := false;
    ghost var v := fs.vol;
    ClearedReady(v, p, name, src);
    ghost var d := Cleared(v, p, name);
    SoundKept(d, src);
    FirstWrite(v, p, name, src);
    code := fs.Write(p, name, false, src);
    if code == 1 {
      var _ := fs.Delete(p, name, false);
      code := fs.Write(p, name, false, src);
    }
    if code == 0 {
      StoredBytes(d, p, name, src);
      verified := ReadBack(fs, p, name, src, buf);
    }
  }

  lemma SoundKept(d: Vol, src: seq<byte>)
    requires Inv(d) && |src| < 0x1_0000_0000
    ensures Kept(d.used, src) == src <==> Whole(d, false, src)
    ensures |Kept(d.used, src)| <= |src|
  {
    hide Kept;
    KeptPart(d, src);
  }

  lemma FirstWrite(v: Vol, p: nat, name: Name, src: seq<byte>)
    requires Inv(v) && CanInsert(v, p, name, src)
    ensures p <= INODES_PER_GROUP
    ensures Write(v, p, name, false, src).1 == 1 <==> Lookup(v, p, name) != 0
    ensures Lookup(v, p, name) == 0 ==> Cleared(v, p, name) == v
    ensures Lookup(v, p, name) != 0 ==> Write(v, p, name, false, src).0 == v
    ensures Lookup(v, p, name) != 0 ==> Cleared(v, p, name) == Delete(v, p, name, false).0
  {
    hide VolOK, T.WfTree, Lookup, T.Attached, Write, Delete, Abs;
    WriteEffect(v, p, name, false, src);
  }

  lemma StoredBytes(d: Vol, p: nat, name: Name, src: seq<byte>)
    requires Inv(d) && CanInsert(d, p, name, src) && Write(d, p, name, false, src).1 == 0
    ensures var kept := Kept(d.used, src);
      |kept| <= |src| && Read(Write(d, p, name, false, src).0, p, name, |src|) == (0, kept)
  {
    hide VolOK, T.WfTree, Lookup, T.Attached, Write, Read, Abs, NewFile;
    WriteThenRead(d, p, name, src, |src|);
    var kept := Kept(d.used, src);
    assert kept[..|kept|] == kept;
  }
}
