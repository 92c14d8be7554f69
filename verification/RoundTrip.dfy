/** What reads see after writes, what a delete undoes, and what an operation leaves alone. */
module RoundTrip {
  import opened Bytes
  import opened Layout
  import opened Records
  import opened Directories
  import opened Volumes
  import opened Operations
  import opened Invariants
  import opened Coupling
  import opened FiniteSets
  import opened Refinement
  import opened Space
  import T = Trees

  // ---------------------------------------------------------------- read after write

  /** The node a successful write stores, found again by its name. */
  lemma WriteThenLookup(v: Vol, p: nat, name: Name, isDir: bool, data: seq<byte>)
    requires Inv(v) && CanWrite(v, p, name, isDir, data) && T.Attached(Abs(v), p)
    requires Write(v, p, name, isDir, data).1 == 0
    ensures var w := Write(v, p, name, isDir, data).0;
      var n := NextInode(v.inos);
      && Inv(w) && 1 <= p <= INODES_PER_GROUP && n != 0
      && Lookup(w, p, name) == n
      && (n as nat) in Abs(w) && Abs(w)[n] == AbsNode(NewObj(v, n, p, isDir, data))
  {
    hide VolOK, T.WfTree, Write, NewObj, Lookup, Abs, AbsNode, NextInode, T.Attached;
    WriteKeepsInv(v, p, name, isDir, data);
    WriteEffect(v, p, name, isDir, data);
    var w := Write(v, p, name, isDir, data).0;
    LookupMatches(v, p, name);
    LookupMatches(w, p, name);
    NotDots(v, p, name);
    AbsDomain(v);
  }

  lemma AbsDomain(v: Vol)
    ensures forall n :: n in Abs(v) <==> n in v.objs
  {}

  /** A name not yet in a directory is not one of the dots. */
  lemma NotDots(v: Vol, p: nat, name: Name)
    requires VolOK(v) && IsDirObj(v, p) && Lookup(v, p, name) == 0
    ensures name != DOT && name != DOTDOT
  {
    hide VolOK, DirKids;
    DirFacts(v, p);
    LookupAnswers(v, p, name);
  }

  /** Reading a written file back gives the bytes that were stored: a prefix of the data, as long as the free
      blocks allow, and all of it if and only if the whole file found room. */
  lemma WriteThenRead(v: Vol, p: nat, name: Name, data: seq<byte>, n: nat)
    requires Inv(v) && CanWrite(v, p, name, false, data) && T.Attached(Abs(v), p)
    requires Write(v, p, name, false, data).1 == 0
    ensures var w := Write(v, p, name, false, data).0;
      && Read(w, p, name, n) == (0, Prefix(Kept(v.used, data), n))
      && Stat(w, p, name) == (0, |data|, false)
    ensures FreeCount(v) >= 0
    ensures |Kept(v.used, data)| == Min(|data|, BLOCK_SIZE * DataBlocks(Min(Wanted(false, data), FreeCount(v))))
    ensures Kept(v.used, data) == data <==> Whole(v, false, data)
  {
    KeptPart(v, data);
    hide VolOK, T.WfTree, Write, Lookup, Abs, NextInode, T.Attached, NewFile, FileBytes, Kept;
    var w := Write(v, p, name, false, data).0;
    var i := NextInode(v.inos);
    WriteThenLookup(v, p, name, false, data);
    FileNode(v, i, p, data);
    NodeKind(w, i);
  }

  lemma FileNode(v: Vol, n: u32, p: u32, data: seq<byte>)
    requires VolOK(v) && n != 0 && p != 0 && |data| < 0x1_0000_0000
    ensures AbsNode(NewObj(v, n, p, false, data)) == T.TFile(|data|, Kept(v.used, data))
  {
    hide VolOK, AbsNode, NewFile;
    NewNode(v, n, p, false, data);
  }

  lemma KeptPart(v: Vol, data: seq<byte>)
    requires Sized(v) && |data| < 0x1_0000_0000
    ensures FreeCount(v) >= 0
    ensures |Kept(v.used, data)| == Min(|data|, BLOCK_SIZE * DataBlocks(Min(Wanted(false, data), FreeCount(v))))
    ensures Kept(v.used, data) == data <==> Whole(v, false, data)
  {
    hide Kept;
    KeptWhole(v.used, data);
  }

  // ---------------------------------------------------------------- what an operation leaves alone

  /** No answer of a write changes another object or the meaning of another name. */
  lemma WriteFrame(v: Vol, p: nat, name: Name, isDir: bool, data: seq<byte>)
    requires VolOK(v) && CanWrite(v, p, name, isDir, data)
    ensures var w := Write(v, p, name, isDir, data).0;
      && (forall m | m in v.objs && m != p :: m in w.objs && Abs(w)[m] == Abs(v)[m])
      && (forall d: nat, x: Name | d in v.objs && !(d == p && x == name) :: Lookup(w, d, x) == Lookup(v, d, x))
  {
    hide VolOK, Write, Lookup, NewObj, AbsNode, NextInode;
    WriteEffect(v, p, name, isDir, data);
    var w := Write(v, p, name, isDir, data).0;
    AbsDomain(v);
    AbsDomain(w);
    forall d: nat, x: Name | d in v.objs && !(d == p && x == name) ensures Lookup(w, d, x) == Lookup(v, d, x) {
      LookupMatches(v, d, x);
      LookupMatches(w, d, x);
    }
  }

  /** A delete changes no object but the parent and the target, and no other name. */
  lemma DeleteFrame(v: Vol, p: nat, name: Name, isDir: bool)
    requires Inv(v) && name != DOT && name != DOTDOT
    ensures var (w, code) := Delete(v, p, name, isDir);
      var c := Lookup(v, p, name);
      && (forall m | m in v.objs && m != p && m != c as nat :: m in w.objs && Abs(w)[m] == Abs(v)[m])
      && (forall d: nat, x: Name | d in v.objs && d != c as nat && !(d == p && x == name) ::
            Lookup(w, d, x) == Lookup(v, d, x))
      && (code == 0 ==> Lookup(w, p, name) == 0 && c as nat !in w.objs)
  {
    hide VolOK, Delete, Lookup, AbsNode, T.WfTree;
    DeleteEffect(v, p, name, isDir);
    var (w, code) := Delete(v, p, name, isDir);
    var c := Lookup(v, p, name);
    AbsDomain(v);
    AbsDomain(w);
    LookupMatches(v, p, name);
    LookupMatches(w, p, name);
    if code == 0 {
      LookupTarget(v, p, name);
    }
    forall d: nat, x: Name | d in v.objs && d != c as nat && !(d == p && x == name)
      ensures Lookup(w, d, x) == Lookup(v, d, x)
    {
      LookupMatches(v, d, x);
      LookupMatches(w, d, x);
    }
  }

  // ---------------------------------------------------------------- delete undoes write

  lemma SplitIndex(rs: seq<Rec>, k: nat, ino: u32, name: Name, ftype: byte)
    requires k < |rs| && RecOK(rs[k]) && ino != 0
    requires forall j | 0 <= j < |rs| :: !(Live(rs[j]) && rs[j].name == name)
    ensures IndexOf(SplitAt(rs, k, ino, name, ftype), name) == k + 1
  {
    hide IndexOf, RecOK;
    var ns := SplitAt(rs, k, ino, name, ftype);
    forall j | 0 <= j < k + 1 ensures !(Live(ns[j]) && ns[j].name == name) {
      assert !(Live(rs[j]) && rs[j].name == name);
    }
    IndexOfUnique(ns, name, k + 1);
  }

  lemma SplitMerged(rs: seq<Rec>, k: nat, ino: u32, name: Name, ftype: byte)
    requires k < |rs| && RecOK(rs[k]) && rs[k].len <= BLOCK_SIZE
    ensures var ns := SplitAt(rs, k, ino, name, ftype);
      ns[k].len + ns[k + 1].len == rs[k].len && RemoveAt(ns, k + 1) == rs
  {
    var ns := SplitAt(rs, k, ino, name, ftype);
    assert Merged(ns[k], ns[k + 1]) == rs[k];
    assert ns[..k] == rs[..k] && ns[k + 2..] == rs[k + 1..];
  }

  lemma SplitThenRemove(rs: seq<Rec>, k: nat, ino: u32, name: Name, ftype: byte)
    requires Tiled(rs) && k < |rs| && |name| <= 255 && HasRoom(rs[k], EntryLen(|name|))
    requires ino != 0 && forall j | 0 <= j < |rs| :: !(Live(rs[j]) && rs[j].name == name)
    ensures var ns := SplitAt(rs, k, ino, name, ftype);
      && IndexOf(ns, name) == k + 1 < |ns|
      && ns[k].len + ns[k + 1].len <= BLOCK_SIZE
      && RemoveAt(ns, k + 1) == rs
  {
    hide IndexOf, Span, Live;
    SplitIndex(rs, k, ino, name, ftype);
    RecordFits(rs, k);
    SplitMerged(rs, k, ino, name, ftype);
  }

  lemma RecordFits(rs: seq<Rec>, k: nat)
    requires Tiled(rs) && k < |rs|
    ensures rs[k].len <= BLOCK_SIZE
  {
    hide RecOK;
    assert rs == rs[..k] + [rs[k]] + rs[k + 1..];
    SpanMiddle(rs[..k], [rs[k]], rs[k + 1..]);
    SpanOne(rs[k]);
  }

  lemma {:induction false} AbsentLive(rs: seq<Rec>, name: Name)
    requires name !in Kids(rs)
    ensures forall j | 0 <= j < |rs| :: !(Live(rs[j]) && rs[j].name == name)
    ensures IndexOf(rs, name) == |rs|
    decreases |rs|
  {
    if rs != [] {
      AbsentLive(rs[1..], name);
      assert rs == [rs[0]] + rs[1..];
    }
  }

  lemma AbsentEverywhere(cs: Chains, name: Name)
    requires name !in DirKids(cs)
    ensures forall i | 0 <= i < |cs| :: name !in Kids(cs[i])
    ensures forall i | 0 <= i < |cs| :: IndexOf(cs[i], name) == |cs[i]|
  {
    hide Kids, IndexOf, Flat;
    forall i | 0 <= i < |cs| ensures name !in Kids(cs[i]) && IndexOf(cs[i], name) == |cs[i]| {
      FlatUpdate(cs, i, cs[i]);
      PartKids(Flat(cs[..i]), cs[i], Flat(cs[i + 1..]));
      AbsentLive(cs[i], name);
    }
  }

  /** Removing what was just inserted restores every chain. */
  lemma InsertThenRemove(cs: Chains, ino: u32, name: Name, ftype: byte)
    requires AllTiled(cs) && ino != 0 && |name| <= 255 && name !in DirKids(cs)
    requires BlockWithRoom(cs, EntryLen(|name|)) < |cs|
    ensures var ds := InsertInto(cs, ino, name, ftype);
      AllTiled(ds) && BlockWithName(ds, name) < |ds| && RemoveFrom(ds, name) == cs
  {
    hide Kids, IndexOf, SplitAt, BlockWithRoom, BlockWithName, FirstFit, RemoveAt, Tiled, DirKids;
    var i := BlockWithRoom(cs, EntryLen(|name|));
    var k := FirstFit(cs[i], EntryLen(|name|));
    InsertTiled(cs, ino, name, ftype);
    AbsentEverywhere(cs, name);
    AbsentLive(cs[i], name);
    SplitThenRemove(cs[i], k, ino, name, ftype);
    BlockWithNameUnique(InsertInto(cs, ino, name, ftype), name, i);
  }

  /** Removing the only record of a block the directory grew by leaves a dead record there. */
  lemma GrowThenRemove(cs: Chains, ino: u32, name: Name, ftype: byte)
    requires AllTiled(cs) && ino != 0 && |name| <= 255 && name !in DirKids(cs)
    ensures var ds := cs + [FreshChain(ino, name, ftype)];
      AllTiled(ds) && BlockWithName(ds, name) < |ds| && RemoveFrom(ds, name) == cs + [FreshChain(0, name, ftype)]
  {
    hide Kids, IndexOf, BlockWithName, Tiled, DirKids;
    var c := FreshChain(ino, name, ftype);
    var ds := cs + [c];
    FreshTiled(ino, name, ftype);
    AbsentEverywhere(cs, name);
    IndexOfUnique(c, name, 0);
    BlockWithNameUnique(ds, name, |cs|);
    assert RemoveAt(c, 0) == FreshChain(0, name, ftype);
  }

  /** The directory a write-then-delete leaves when it had to grow: one more block, one dead record. */
  function GrownDead(v: Vol, p: nat, b: u32, name: Name, ftype: byte): Vol
    requires IsDirObj(v, p)
  {
    var d := Dir(v.objs[p].blks + [b], v.objs[p].chains + [FreshChain(0, name, ftype)]);
    Vol(v.objs[p := d], v.used + {b as nat}, v.inos)
  }

  lemma UndoPlace(v: Vol, n: nat, o: Obj)
    requires n !in v.objs && n !in v.inos && FreshBlocks(v.used, Blocks(o))
    ensures v.used + SetOf(Blocks(o)) - SetOf(Blocks(o)) == v.used
    ensures v.inos + {n} - {n} == v.inos
    ensures SetOf(Blocks(o)) !! v.used
  {
    hide Blocks;
  }

  /** Removing `name` from directory `p` and then discarding inode `n` leads from `w` to `u`. */
  ghost predicate UndoneTo(w: Vol, p: nat, name: Name, n: nat, o: Obj, u: Vol) {
    && IsDirObj(w, p) && n in w.objs && n != p && w.objs[n] == o
    && AllTiled(w.objs[p].chains) && BlockWithName(w.objs[p].chains, name) < |w.objs[p].chains|
    && Discard(RemoveEntry(w, p, name), n) == u
  }

  lemma UndoDir(v: Vol, p: nat, n: nat, o: Obj, name: Name, d: Obj, used: set<nat>, w: Vol, left: set<nat>)
    requires IsDirObj(v, p) && n !in v.objs && n !in v.inos && n != p && d.Dir?
    requires w == Vol(v.objs[n := o][p := d], used, v.inos + {n})
    requires AllTiled(d.chains) && BlockWithName(d.chains, name) < |d.chains|
    requires used - SetOf(Blocks(o)) == left
    ensures UndoneTo(w, p, name, n, o, Vol(v.objs[p := Dir(d.blks, RemoveFrom(d.chains, name))], left, v.inos))
  {
    hide AllTiled, BlockWithName, RemoveFrom, SetOf, Blocks;
    var e := Dir(d.blks, RemoveFrom(d.chains, name));
    assert v.objs[n := o][p := d][p := e] - {n} == v.objs[p := e];
    assert v.inos + {n} - {n} == v.inos;
  }

  lemma UndoInsert(v: Vol, p: nat, n: u32, o: Obj, name: Name, ftype: byte, w: Vol)
    requires IsDirObj(v, p) && (n as nat) !in v.objs && (n as nat) !in v.inos && n != 0 && n as nat != p
      && |name| <= 255
    requires FreshBlocks(v.used, Blocks(o))
    requires AllTiled(v.objs[p].chains) && name !in DirKids(v.objs[p].chains)
    requires BlockWithRoom(v.objs[p].chains, EntryLen(|name|)) < |v.objs[p].chains|
    requires w == Vol(v.objs[n as nat := o][p := Dir(v.objs[p].blks, InsertInto(v.objs[p].chains, n, name, ftype))],
                      v.used + SetOf(Blocks(o)), v.inos + {n as nat})
    ensures UndoneTo(w, p, name, n, o, v)
  {
    hide InsertInto, AllTiled, BlockWithRoom, BlockWithName, RemoveFrom, DirKids, Blocks, UndoneTo, FreshBlocks, SetOf;
    var cs := v.objs[p].chains;
    InsertThenRemove(cs, n, name, ftype);
    UndoPlace(v, n, o);
    UndoDir(v, p, n, o, name, Dir(v.objs[p].blks, InsertInto(cs, n, name, ftype)), w.used, w, v.used);
    assert v.objs[p := Dir(v.objs[p].blks, cs)] == v.objs;
  }

  lemma UndoGrow(v: Vol, p: nat, n: u32, o: Obj, name: Name, ftype: byte, b: u32, w: Vol)
    requires IsDirObj(v, p) && (n as nat) !in v.objs && (n as nat) !in v.inos && n != 0 && n as nat != p
      && |name| <= 255
    requires FreshBlocks(v.used, Blocks(o)) && (b as nat) !in v.used + SetOf(Blocks(o))
    requires AllTiled(v.objs[p].chains) && name !in DirKids(v.objs[p].chains)
    requires var d := Dir(v.objs[p].blks + [b], v.objs[p].chains + [FreshChain(n, name, ftype)]);
      w == Vol(v.objs[n as nat := o][p := d], v.used + SetOf(Blocks(o)) + {b as nat}, v.inos + {n as nat})
    ensures UndoneTo(w, p, name, n, o, GrownDead(v, p, b, name, ftype))
  {
    hide AllTiled, BlockWithName, RemoveFrom, DirKids, Blocks, UndoneTo, FreshBlocks, SetOf, FreshChain;
    var cs := v.objs[p].chains;
    GrowThenRemove(cs, n, name, ftype);
    UndoPlace(v, n, o);
    assert w.used - SetOf(Blocks(o)) == v.used + {b as nat};
    var d := Dir(v.objs[p].blks + [b], cs + [FreshChain(n, name, ftype)]);
    UndoDir(v, p, n, o, name, d, w.used, w, v.used + {b as nat});
  }

  /** Everything a successful write tells about the volume before it. */
  lemma WrittenFacts(v: Vol, p: nat, name: Name, isDir: bool, data: seq<byte>)
    requires VolOK(v) && CanWrite(v, p, name, isDir, data) && Write(v, p, name, isDir, data).1 == 0
    ensures var n := NextInode(v.inos);
      && 1 <= p <= INODES_PER_GROUP && n != 0 && (n as nat) !in v.objs && (n as nat) !in v.inos && n as nat != p
      && IsDirObj(v, p) && AllTiled(v.objs[p].chains) && name !in DirKids(v.objs[p].chains) && Lookup(v, p, name) == 0
      && (var o := NewObj(v, n, p, isDir, data);
        && FreshBlocks(v.used, Blocks(o)) && o.Dir? == isDir
        && (isDir ==> o.chains == [DotChain(n, p)]))
  {
    hide WellOwned, Exact, DirsOK, NextInode, NextBlock, AddEntry, DirKids, AllTiled, DirOK, NewFile, DotChain,
         Blocks, FreshBlocks;
    PlacedOK(v, p, isDir, data);
    DirFacts(v, p);
    LookupAnswers(v, p, name);
    NewObjOK(v, NextInode(v.inos), p, isDir, data);
    NewKind(v, NextInode(v.inos), p, isDir, data);
  }

  lemma NewKind(v: Vol, n: u32, p: u32, isDir: bool, data: seq<byte>)
    requires |data| < 0x1_0000_0000
    ensures var o := NewObj(v, n, p, isDir, data); o.Dir? == isDir && (isDir ==> o.chains == [DotChain(n, p)])
  {}

  /** The volume after a successful write, field by field: an entry split into slack, or a new block. */
  lemma WrittenVolume(v: Vol, p: nat, name: Name, isDir: bool, data: seq<byte>)
    requires VolOK(v) && CanWrite(v, p, name, isDir, data) && Write(v, p, name, isDir, data).1 == 0
    requires IsDirObj(v, p) && AllTiled(v.objs[p].chains) && p < 0x1_0000_0000
    ensures var w, n := Write(v, p, name, isDir, data).0, NextInode(v.inos);
      var o, d := NewObj(v, n, p, isDir, data), v.objs[p];
      var used := v.used + SetOf(Blocks(o));
      var ftype := if isDir then FT_DIR else FT_REG_FILE;
      if BlockWithRoom(d.chains, EntryLen(|name|)) < |d.chains| then
        w == Vol(v.objs[n as nat := o][p := Dir(d.blks, InsertInto(d.chains, n, name, ftype))],
                 used, v.inos + {n as nat})
      else
        && NextBlock(used) != 0 && NextBlock(used) !in used
        && var e := Dir(d.blks + [NextBlock(used)], d.chains + [FreshChain(n, name, ftype)]);
           w == Vol(v.objs[n as nat := o][p := e], used + {NextBlock(used) as nat}, v.inos + {n as nat})
  {
    hide VolOK, NextInode, NextBlock, Lookup, NewObj, Blocks, InsertInto, FreshChain, AllTiled, BlockWithRoom;
    PlacedOK(v, p, isDir, data);
    ParentKept(v, p, isDir, data);
    var x := Placed(v, p, isDir, data);
    if NextBlock(x.used) != 0 {
      BlockFacts(x);
    }
  }

  /** Deleting a new object succeeds: a new directory is empty. */
  lemma DeleteNew(w: Vol, p: nat, name: Name, isDir: bool, n: u32, parent: u32, u: Vol)
    requires Inv(w) && name != DOT && name != DOTDOT && name != [] && p != 0
    requires n != 0 && Lookup(w, p, name) == n && (n as nat) in w.objs && UndoneTo(w, p, name, n, w.objs[n], u)
    requires w.objs[n].Dir? == isDir && (isDir ==> w.objs[n].chains == [DotChain(n, parent)])
    ensures Delete(w, p, name, isDir) == (u, 0)
  {
    hide VolOK, T.WfTree, Lookup, AllTiled, BlockWithName, RemoveEntry, Discard, Abs;
    LookupTarget(w, p, name);
  }

  /** Deleting what was just written: bitmaps, inode table and every record chain are exactly as
      before, except that a directory that had to grow keeps one more block with a dead record. */
  lemma WriteThenDelete(v: Vol, p: nat, name: Name, isDir: bool, data: seq<byte>)
    requires Inv(v) && CanWrite(v, p, name, isDir, data) && T.Attached(Abs(v), p)
    requires Write(v, p, name, isDir, data).1 == 0
    ensures name != DOT && name != DOTDOT && IsDirObj(v, p)
    ensures Inv(Write(v, p, name, isDir, data).0)
    ensures var ftype := if isDir then FT_DIR else FT_REG_FILE;
      var (u, code) := Delete(Write(v, p, name, isDir, data).0, p, name, isDir);
      && code == 0
      && if BlockWithRoom(v.objs[p].chains, EntryLen(|name|)) < |v.objs[p].chains| then u == v
         else exists b: u32 :: b !in v.used && u == GrownDead(v, p, b, name, ftype)
  {
    hide VolOK, T.WfTree, Write, AddEntry, NextBlock, NextInode, NewObj, Lookup, Abs, AbsNode, BlockWithRoom, Blocks,
         Delete, Placed, FreshBlocks, GrownDead, DirKids, AllTiled, InsertInto, FreshChain, SetOf, DotChain, Discard,
         RemoveEntry, BlockWithName;
    var ftype := if isDir then FT_DIR else FT_REG_FILE;
    var w, n := Write(v, p, name, isDir, data).0, NextInode(v.inos);
    WriteThenLookup(v, p, name, isDir, data);
    WrittenFacts(v, p, name, isDir, data);
    WrittenVolume(v, p, name, isDir, data);
    NotDots(v, p, name);
    var o := NewObj(v, n, p, isDir, data);
    if BlockWithRoom(v.objs[p].chains, EntryLen(|name|)) < |v.objs[p].chains| {
      UndoInsert(v, p, n, o, name, ftype, w);
      DeleteNew(w, p, name, isDir, n, p, v);
    } else {
      var b := NextBlock(v.used + SetOf(Blocks(o)));
      UndoGrow(v, p, n, o, name, ftype, b, w);
      DeleteNew(w, p, name, isDir, n, p, GrownDead(v, p, b, name, ftype));
    }
  }

  // ---------------------------------------------------------------- free space

  /** Discarding an object frees exactly the blocks its inode counts. */
  lemma DeleteFrees(v: Vol, p: nat, name: Name, isDir: bool)
    requires Inv(v) && name != DOT && name != DOTDOT && Delete(v, p, name, isDir).1 == 0
    ensures var c: nat := Lookup(v, p, name);
      && c in v.objs && ObjOK(v.objs[c])
      && FreeCount(Delete(v, p, name, isDir).0) == FreeCount(v) + InodeOf(v.objs[c]).blocks
  {
    hide Exact, DirsOK, T.WfTree, Lookup, ObjOK, InodeOf, AllTiled, EmptyDir, Blocks, NoDup;
    LookupTarget(v, p, name);
    var c: nat := Lookup(v, p, name);
    var o := v.objs[c];
    DeletedUsed(v, p, name, isDir);
    forall b | b in Blocks(o) ensures b as nat in v.used {
      assert Owns(v, c, b);
    }
    CountBlocks(o);
    SetOfCard(Blocks(o));
    DifferenceCard(v.used, SetOf(Blocks(o)));
  }

  lemma DeletedUsed(v: Vol, p: nat, name: Name, isDir: bool)
    requires Inv(v) && name != DOT && name != DOTDOT && Delete(v, p, name, isDir).1 == 0
    ensures var c: nat := Lookup(v, p, name);
      c in v.objs && Delete(v, p, name, isDir).0.used == v.used - SetOf(Blocks(v.objs[c]))
  {
    hide VolOK, T.WfTree, Lookup, AllTiled, EmptyDir, Blocks, RemoveFrom, DirKids;
    LookupTarget(v, p, name);
  }

  lemma CountBlocks(o: Obj)
    requires ObjOK(o)
    ensures InodeOf(o).blocks == |Blocks(o)|
  {}

  /** A successful write takes exactly the blocks its inode counts, and one more if the directory grew. */
  lemma WriteTakes(v: Vol, p: nat, name: Name, isDir: bool, data: seq<byte>)
    requires VolOK(v) && CanWrite(v, p, name, isDir, data) && Write(v, p, name, isDir, data).1 == 0
    ensures IsDirObj(v, p) && p <= INODES_PER_GROUP
    ensures var o := NewObj(v, NextInode(v.inos), p, isDir, data);
      var grew := BlockWithRoom(v.objs[p].chains, EntryLen(|name|)) == |v.objs[p].chains|;
      FreeCount(Write(v, p, name, isDir, data).0) == FreeCount(v) - |Blocks(o)| - (if grew then 1 else 0)
  {
    hide VolOK, Write, NextInode, NextBlock, NewObj, Blocks, InsertInto, FreshChain, AllTiled, BlockWithRoom, SetOf,
         FreshBlocks, DirKids, DotChain;
    WrittenFacts(v, p, name, isDir, data);
    WrittenVolume(v, p, name, isDir, data);
    AddFresh(v.used, Blocks(NewObj(v, NextInode(v.inos), p, isDir, data)));
  }

  // ---------------------------------------------------------------- replacing a file

  /** The inserter's answer to "already exists": from `v`, delete the old file, giving `d`, and write
      the new one, giving `w` and `code`. */
  ghost predicate Replacing(v: Vol, d: Vol, w: Vol, code: int, p: nat, name: Name, data: seq<byte>) {
    && Inv(v) && name != DOT && name != DOTDOT && T.Attached(Abs(v), p)
    && CanWrite(v, p, name, false, data) && Write(v, p, name, false, data).1 == 1
    && (d, 0) == Delete(v, p, name, false)
    && Inv(d) && CanWrite(d, p, name, false, data) && (w, code) == Write(d, p, name, false, data)
  }

  /** After a replacement every other file and name is as before. */
  lemma ReplaceFrame(v: Vol, d: Vol, w: Vol, code: int, p: nat, name: Name, data: seq<byte>)
    requires Replacing(v, d, w, code, p, name, data)
    ensures code == 0 || code == -1
    ensures (Lookup(v, p, name) as nat) in v.objs
    ensures forall m | m in v.objs && m != p && m != Lookup(v, p, name) as nat :: m in w.objs && Abs(w)[m] == Abs(v)[m]
    ensures forall e: nat, x: Name | e in v.objs && e != Lookup(v, p, name) as nat && !(e == p && x == name) ::
      Lookup(w, e, x) == Lookup(v, e, x)
  {
    hide VolOK, T.WfTree, Write, Delete, Lookup, Abs, AbsNode, T.Attached, Read;
    WriteEffect(v, p, name, false, data);
    DeleteEffect(v, p, name, false);
    LookupTarget(v, p, name);
    ReplaceDeletes(v, p, name, data);
    DeleteFrame(v, p, name, false);
    WriteEffect(d, p, name, false, data);
    WriteFrame(d, p, name, false, data);
  }

  /** After a successful replacement the new bytes are read back: what the disk had room for. */
  lemma ReplaceRead(v: Vol, d: Vol, w: Vol, p: nat, name: Name, data: seq<byte>, n: nat)
    requires Replacing(v, d, w, 0, p, name, data) && |data| < 0x1_0000_0000
    ensures Read(w, p, name, n) == (0, Prefix(Kept(d.used, data), n))
    ensures Kept(d.used, data) == data <==> Whole(d, false, data)
  {
    hide VolOK, T.WfTree, Write, Delete, Lookup, Abs, AbsNode, T.Attached, NewFile, Whole, Read, Kept;
    WriteEffect(v, p, name, false, data);
    ReplaceDeletes(v, p, name, data);
    WriteThenRead(d, p, name, data, n);
  }

  lemma StaysDir(v: Vol, p: nat, name: Name, isDir: bool)
    requires Inv(v) && name != DOT && name != DOTDOT && Delete(v, p, name, isDir).1 == 0
    ensures var d := Delete(v, p, name, isDir).0;
      IsDirObj(d, p) && d.objs.Keys == v.objs.Keys - {Lookup(v, p, name) as nat}
  {
    hide VolOK, T.WfTree, Lookup, AllTiled, EmptyDir, Blocks, RemoveFrom, DirKids;
    LookupTarget(v, p, name);
  }

  /** An existing file can be deleted, and the write repeated. */
  lemma ReplaceDeletes(v: Vol, p: nat, name: Name, data: seq<byte>)
    requires Inv(v) && CanWrite(v, p, name, false, data) && p != 0 && Lookup(v, p, name) != 0
    requires name != DOT && name != DOTDOT && T.Attached(Abs(v), p)
    ensures (Delete(v, p, name, false).1 == 0) == !IsDirObj(v, Lookup(v, p, name))
    ensures var (d, code) := Delete(v, p, name, false);
      && Inv(d)
      && (code == 0 ==> CanWrite(d, p, name, false, data) && T.Attached(Abs(d), p) && Lookup(d, p, name) == 0)
      && (code == 0 ==> d.objs.Keys == v.objs.Keys - {Lookup(v, p, name) as nat})
  {
    hide VolOK, T.WfTree, Lookup, Abs, AbsNode, T.Attached, AllTiled, DirKids, RemoveFrom, Discard;
    LookupTarget(v, p, name);
    DeleteKeepsInv(v, p, name, false);
    if !IsDirObj(v, Lookup(v, p, name)) {
      DeleteSucceeds(v, p, name, false);
      DeleteFrame(v, p, name, false);
      DeleteEffect(v, p, name, false);
      StaysDir(v, p, name, false);
      LookupMatches(v, p, name);
      AbsDomain(v);
      T.StillAttached(Abs(v), p, name, p);
    }
  }

  /** The free count after a replacement: the difference of the two footprints, and any growth. */
  lemma ReplaceCount(v: Vol, d: Vol, w: Vol, p: nat, name: Name, data: seq<byte>)
    requires Inv(v) && name != DOT && name != DOTDOT && (d, 0) == Delete(v, p, name, false)
    requires Inv(d) && CanWrite(d, p, name, false, data) && (w, 0) == Write(d, p, name, false, data)
    ensures var c: nat := Lookup(v, p, name);
      && c in v.objs && IsDirObj(d, p)
      && var grew := BlockWithRoom(d.objs[p].chains, EntryLen(|name|)) == |d.objs[p].chains|;
         FreeCount(w) == FreeCount(v) + |Blocks(v.objs[c])| - |Blocks(NewFile(d.used, data))| - (if grew then 1 else 0)
  {
    hide VolOK, T.WfTree, Write, Delete, Lookup, Abs, NewFile, Blocks, FreeCount, BlockWithRoom, InodeOf;
    DeleteFrees(v, p, name, false);
    CountBlocks(v.objs[Lookup(v, p, name)]);
    WriteTakes(d, p, name, false, data);
  }
}
