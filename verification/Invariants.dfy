/** Every file operation keeps the ownership, directory and namespace invariants of a volume. */
module Invariants {
  import opened Bytes
  import opened RamDisks
  import opened Layout
  import opened Records
  import opened Directories
  import opened Volumes
  import opened Operations
  import opened Kinds
  import opened KindSteps
  import T = Trees

  // ---------------------------------------------------------------- placing a new object

  lemma PlaceOwners(v: Vol, n: nat, o: Obj)
    requires VolOK(v) && n !in v.inos
    requires ObjOK(o) && FreshBlocks(v.used, Blocks(o))
    ensures WellOwned(Place(v, n, o))
  {
    hide DirsOK, RootOK, ObjOK, Blocks;
    var w := Place(v, n, o);
    assert forall m: nat, b: nat | Owns(w, m, b) && m != n :: Owns(v, m, b);
    assert forall b | b in Blocks(o) :: b !in v.used;
  }

  lemma PlaceExact(v: Vol, n: nat, o: Obj)
    requires VolOK(v) && n !in v.inos
    ensures Exact(Place(v, n, o))
  {
    hide DirsOK, RootOK, WellOwned, Blocks;
    var w := Place(v, n, o);
    forall b | b in w.used ensures b < INITIAL_USED_BLOCKS || exists m: nat :: Owns(w, m, b) {
      if b in SetOf(Blocks(o)) {
        assert Owns(w, n, b);
      } else if b >= INITIAL_USED_BLOCKS {
        var m: nat :| Owns(v, m, b);
        assert Owns(w, m, b);
      }
    }
  }

  lemma PlaceOK(v: Vol, n: nat, o: Obj)
    requires VolOK(v) && n !in v.inos && INITIAL_USED_INODES < n <= INODES_PER_GROUP
    requires ObjOK(o) && FreshBlocks(v.used, Blocks(o))
    requires o.Dir? ==> DirOK(n, o.chains)
    ensures VolOK(Place(v, n, o))
  {
    hide WellOwned, Exact, DirOK, ObjOK, Blocks;
    PlaceOwners(v, n, o);
    PlaceExact(v, n, o);
  }

  lemma NewObjOK(v: Vol, n: u32, p: u32, isDir: bool, data: seq<byte>)
    requires VolOK(v) && |data| < 0x1_0000_0000
    requires 1 <= n <= INODES_PER_GROUP && 1 <= p <= INODES_PER_GROUP
    requires isDir ==> NextBlock(v.used) != 0
    ensures var o := NewObj(v, n, p, isDir, data);
      ObjOK(o) && FreshBlocks(v.used, Blocks(o)) && (o.Dir? ==> DirOK(n, o.chains))
  {
    hide NextBlock, WellOwned, Exact, DirsOK;
    if isDir {
      NextBlockFresh(v);
      DotTiled(n, p);
      DotKids(n, p);
    } else {
      NewFileOK(v.used, data);
    }
  }

  // ---------------------------------------------------------------- changing one directory

  /** Replacing the chains of a directory, its blocks unchanged. */
  lemma RechainOK(v: Vol, p: nat, cs: Chains)
    requires VolOK(v) && IsDirObj(v, p)
    requires |cs| == |v.objs[p].chains| && AllTiled(cs) && DirOK(p, cs)
    ensures VolOK(v.(objs := v.objs[p := Dir(v.objs[p].blks, cs)]))
  {
    hide AllTiled, DirOK;
    var w := v.(objs := v.objs[p := Dir(v.objs[p].blks, cs)]);
    assert forall m: nat, b: nat :: Owns(w, m, b) <==> Owns(v, m, b);
    RechainExact(v, p, cs);
  }

  lemma RechainExact(v: Vol, p: nat, cs: Chains)
    requires Exact(v) && IsDirObj(v, p)
    ensures Exact(v.(objs := v.objs[p := Dir(v.objs[p].blks, cs)]))
  {
    var w := v.(objs := v.objs[p := Dir(v.objs[p].blks, cs)]);
    forall b | b in w.used ensures b < INITIAL_USED_BLOCKS || exists m: nat :: Owns(w, m, b) {
      if b >= INITIAL_USED_BLOCKS {
        var m: nat :| Owns(v, m, b);
        assert Owns(w, m, b);
      }
    }
  }

  function Grown(v: Vol, p: nat, b: u32, c: seq<Rec>): Vol
    requires IsDirObj(v, p)
  {
    Vol(v.objs[p := Dir(v.objs[p].blks + [b], v.objs[p].chains + [c])], v.used + {b as nat}, v.inos)
  }

  lemma GrownOwns(v: Vol, p: nat, b: u32, c: seq<Rec>)
    requires IsDirObj(v, p)
    ensures forall m: nat, x: nat ::
      Owns(Grown(v, p, b, c), m, x) <==> Owns(v, m, x) || (m == p && x == b)
  {
    SetOfSnoc(v.objs[p].blks, b);
    assert forall x: nat :: x in v.objs[p].blks + [b] <==> x in v.objs[p].blks || x == b;
  }

  lemma GrownOwners(v: Vol, p: nat, b: u32, c: seq<Rec>)
    requires VolOK(v) && IsDirObj(v, p) && |v.objs[p].chains| < DIRECT_BLOCKS
    requires INITIAL_USED_BLOCKS <= b < BLOCKS_PER_GROUP && b !in v.used && Tiled(c)
    ensures WellOwned(Grown(v, p, b, c))
  {
    hide Tiled, Exact, DirsOK, RootOK;
    GrownOwns(v, p, b, c);
    var o := v.objs[p];
    assert forall i | 0 <= i < |o.blks| :: Owns(v, p, o.blks[i]);
    GrownShape(o, b, c);
  }

  lemma GrownShape(o: Obj, b: u32, c: seq<Rec>)
    requires o.Dir? && ObjOK(o) && |o.chains| < DIRECT_BLOCKS && Tiled(c) && NoDup(o.blks) && b !in o.blks
    ensures ObjOK(Dir(o.blks + [b], o.chains + [c])) && NoDup(o.blks + [b])
  {
    hide Tiled;
  }

  lemma GrownExact(v: Vol, p: nat, b: u32, c: seq<Rec>)
    requires Exact(v) && IsDirObj(v, p)
    ensures Exact(Grown(v, p, b, c))
  {
    GrownOwns(v, p, b, c);
    var w := Grown(v, p, b, c);
    forall x | x in w.used ensures x < INITIAL_USED_BLOCKS || exists m: nat :: Owns(w, m, x) {
      if x == b as nat {
        assert Owns(w, p, x);
      } else if x >= INITIAL_USED_BLOCKS {
        var m: nat :| Owns(v, m, x);
        assert Owns(w, m, x);
      }
    }
  }

  lemma GrownOK(v: Vol, p: nat, b: u32, c: seq<Rec>)
    requires VolOK(v) && IsDirObj(v, p) && |v.objs[p].chains| < DIRECT_BLOCKS
    requires INITIAL_USED_BLOCKS <= b < BLOCKS_PER_GROUP && b !in v.used && Tiled(c)
    requires DirOK(p, v.objs[p].chains + [c])
    ensures VolOK(Grown(v, p, b, c))
  {
    hide WellOwned, Exact, DirOK, Tiled;
    GrownOwners(v, p, b, c);
    GrownExact(v, p, b, c);
  }

  lemma DirFacts(v: Vol, p: nat)
    requires VolOK(v) && IsDirObj(v, p)
    ensures var o := v.objs[p];
      && 1 <= p <= INODES_PER_GROUP
      && 1 <= |o.blks| == |o.chains| <= DIRECT_BLOCKS
      && AllTiled(o.chains) && DirOK(p, o.chains)
      && DOT in DirKids(o.chains) && DOTDOT in DirKids(o.chains)
  {
    hide DirOK, AllTiled, DirKids;
    assert ObjOK(v.objs[p]);
    DotsInKids(p, v.objs[p].chains);
  }

  lemma AbsUpdate(v: Vol, p: nat, o: Obj, used: set<nat>)
    requires p in v.objs
    ensures Abs(Vol(v.objs[p := o], used, v.inos)) == Abs(v)[p := AbsNode(o)]
  {
    hide AbsNode;
  }

  /** The namespace gains exactly one name in one directory. */
  lemma AbsGain(v: Vol, p: nat, blks: seq<u32>, cs: Chains, used: set<nat>, name: Name, ino: u32)
    requires IsDirObj(v, p) && DirOK(p, v.objs[p].chains) && DirOK(p, cs)
    requires ParentOf(cs) == ParentOf(v.objs[p].chains)
    requires DirKids(cs) == DirKids(v.objs[p].chains)[name := ino] && name != DOT && name != DOTDOT
    ensures Abs(Vol(v.objs[p := Dir(blks, cs)], used, v.inos))
         == Abs(v)[p := T.TDir(Abs(v)[p].parent, Abs(v)[p].kids[name := ino])]
  {
    hide DirKids, StartsWithDots, DistinctNames;
    AbsUpdate(v, p, Dir(blks, cs), used);
    var m := DirKids(v.objs[p].chains);
    assert m[name := ino] - {DOT, DOTDOT} == (m - {DOT, DOTDOT})[name := ino];
  }

  lemma InsertOK(v: Vol, p: nat, ino: u32, name: Name, ftype: byte)
    requires VolOK(v) && IsDirObj(v, p) && ino != 0 && |name| <= 255
    requires name !in DirKids(v.objs[p].chains)
    requires BlockWithRoom(v.objs[p].chains, EntryLen(|name|)) < |v.objs[p].chains|
    ensures AllTiled(v.objs[p].chains)
    ensures var cs := InsertInto(v.objs[p].chains, ino, name, ftype);
      |cs| == |v.objs[p].chains| && AllTiled(cs) && DirOK(p, cs) && ParentOf(cs) == ParentOf(v.objs[p].chains)
      && DirKids(cs) == DirKids(v.objs[p].chains)[name := ino]
  {
    hide VolOK, DirKids, InsertInto, AllTiled, BlockWithRoom, DistinctNames;
    DirFacts(v, p);
    var cs := v.objs[p].chains;
    Directories.InsertKids(cs, ino, name, ftype);
    InsertTiled(cs, ino, name, ftype);
    InsertKeepsDots(cs, ino, name, ftype, p, ParentOf(cs));
  }

  lemma GrowOK(v: Vol, p: nat, ino: u32, name: Name, ftype: byte)
    requires VolOK(v) && IsDirObj(v, p) && ino != 0 && |name| <= 255
    requires name !in DirKids(v.objs[p].chains)
    ensures var cs := v.objs[p].chains + [FreshChain(ino, name, ftype)];
      Tiled(FreshChain(ino, name, ftype)) && DirOK(p, cs) && ParentOf(cs) == ParentOf(v.objs[p].chains)
      && DirKids(cs) == DirKids(v.objs[p].chains)[name := ino]
  {
    hide VolOK, DirKids, AllTiled, DistinctNames, Tiled, FreshChain;
    DirFacts(v, p);
    GrowKids(v.objs[p].chains, ino, name, ftype);
    FreshTiled(ino, name, ftype);
  }

  /** Adding an entry keeps the volume sound and adds exactly one name, or changes nothing. */
  lemma AddEntryOK(v: Vol, p: nat, ino: u32, name: Name, ftype: byte)
    requires VolOK(v) && IsDirObj(v, p) && ino != 0 && |name| <= 255
    requires name !in DirKids(v.objs[p].chains)
    ensures AllTiled(v.objs[p].chains)
    ensures var (w, ok) := AddEntry(v, p, ino, name, ftype);
      && VolOK(w)
      && if ok then Abs(w) == Abs(v)[p := T.TDir(Abs(v)[p].parent, Abs(v)[p].kids[name := ino])] else w == v
  {
    hide VolOK, NextBlock, DirKids, InsertInto, AllTiled, Tiled, DirOK, Abs, BlockWithRoom, FreshChain;
    DirFacts(v, p);
    var o := v.objs[p];
    if BlockWithRoom(o.chains, EntryLen(|name|)) < |o.chains| {
      InsertOK(v, p, ino, name, ftype);
      RechainOK(v, p, InsertInto(o.chains, ino, name, ftype));
      AbsGain(v, p, o.blks, InsertInto(o.chains, ino, name, ftype), v.used, name, ino);
    } else if |o.chains| < DIRECT_BLOCKS && NextBlock(v.used) != 0 {
      var b := NextBlock(v.used);
      GrowOK(v, p, ino, name, ftype);
      BlockFacts(v);
      GrownOK(v, p, b, FreshChain(ino, name, ftype));
      AbsGain(v, p, o.blks + [b], o.chains + [FreshChain(ino, name, ftype)], v.used + {b as nat}, name, ino);
    }
  }

  lemma BlockFacts(v: Vol)
    requires VolOK(v) && NextBlock(v.used) != 0
    ensures INITIAL_USED_BLOCKS <= NextBlock(v.used) < BLOCKS_PER_GROUP && NextBlock(v.used) !in v.used
  {
    NextBlockFresh(v);
  }

  lemma DotsInKids(n: nat, cs: Chains)
    requires DirOK(n, cs) && n != 0
    ensures DOT in DirKids(cs) && DOTDOT in DirKids(cs)
    ensures DirKids(cs)[DOT] == n && DirKids(cs)[DOTDOT] == ParentOf(cs)
  {
    var c, rest := cs[0], Flat(cs[1..]);
    hide Kids, Distinct, DistinctNames;
    assert c == [c[0], c[1]] + c[2..];
    assert Flat(cs) == [c[0], c[1]] + (c[2..] + rest);
    FirstTwoKids(c[0], c[1], c[2..] + rest);
  }

  /** Whatever follows, two live records of different names answer for their names. */
  lemma FirstTwoKids(r: Rec, s: Rec, ys: seq<Rec>)
    requires Live(r) && Live(s) && r.name != s.name
    ensures var kids := Kids([r, s] + ys);
      r.name in kids && kids[r.name] == r.ino && s.name in kids && kids[s.name] == s.ino
  {
    hide Kids, Distinct;
    KidsConcat([r, s], ys);
    assert [r, s] == [r] + [s];
    KidsConcat([r], [s]);
    KidsOne(r);
    KidsOne(s);
  }

  // ---------------------------------------------------------------- what a new object holds

  lemma {:induction false} JoinChunks(data: seq<byte>, k: nat)
    requires k <= CeilDiv(|data|)
    ensures Join(Chunks(data, k))[..Min(BLOCK_SIZE * k, |data|)] == data[..Min(BLOCK_SIZE * k, |data|)]
  {
    if k > 0 {
      JoinChunks(data, k - 1);
      assert Chunks(data, k) == Chunks(data, k - 1) + [Chunk(data, k - 1)];
      JoinSnoc(Chunks(data, k - 1), Chunk(data, k - 1));
      assert BLOCK_SIZE * (k - 1) < |data|;
      LastChunk(data, k, Join(Chunks(data, k - 1)));
    }
  }

  lemma LastChunk(data: seq<byte>, k: nat, before: seq<byte>)
    requires k > 0 && BLOCK_SIZE * (k - 1) < |data|
    requires |before| == BLOCK_SIZE * (k - 1) && before == data[..BLOCK_SIZE * (k - 1)]
    ensures (before + Chunk(data, k - 1))[..Min(BLOCK_SIZE * k, |data|)] == data[..Min(BLOCK_SIZE * k, |data|)]
  {
    var m := Min(BLOCK_SIZE * k, |data|);
    assert Chunk(data, k - 1)[..m - BLOCK_SIZE * (k - 1)] == data[BLOCK_SIZE * (k - 1)..m];
    assert (before + Chunk(data, k - 1))[..m] == before + Chunk(data, k - 1)[..m - BLOCK_SIZE * (k - 1)];
  }

  /** A new file holds a prefix of the data, as long as the blocks it obtained allow. */
  lemma NewFileBytes(used: set<nat>, data: seq<byte>)
    requires |data| < 0x1_0000_0000
    requires forall b | 0 <= b < INITIAL_USED_BLOCKS :: b in used
    ensures var o := NewFile(used, data);
      AbsNode(o) == T.TFile(|data|, data[..Min(|data|, BLOCK_SIZE * |o.blks|)])
  {
    hide AllocMany, TableBlock, Join, Chunks;
    NewFileOK(used, data);
    JoinChunks(data, |NewFile(used, data).blks|);
  }

  lemma NewDirNode(used: set<nat>, n: u32, p: u32)
    requires n != 0 && p != 0
    ensures AbsNode(NewDir(used, n, p)) == T.TDir(p, map[])
  {
    DotKids(n, p);
    assert map[DOT := n, DOTDOT := p] - {DOT, DOTDOT} == map[];
  }

  // ---------------------------------------------------------------- write

  lemma AbsPlace(v: Vol, n: nat, o: Obj)
    ensures Abs(Place(v, n, o)) == T.Leak(Abs(v), n, AbsNode(o))
  {
    hide AbsNode, Blocks;
  }

  lemma NewNode(v: Vol, n: u32, p: u32, isDir: bool, data: seq<byte>)
    requires VolOK(v) && |data| < 0x1_0000_0000 && n != 0 && p != 0
    ensures var o := NewObj(v, n, p, isDir, data);
      && T.Newborn(AbsNode(o), p)
      && o.Dir? == isDir
      && AbsNode(o) == if isDir then T.TDir(p, map[]) else T.TFile(|data|, data[..Min(|data|, BLOCK_SIZE * |o.blks|)])
  {
    hide AbsNode, WellOwned, Exact, DirsOK, RootOK;
    if isDir {
      NewDirNode(v.used, n, p);
    } else {
      NewFileBytes(v.used, data);
    }
  }

  /** The volume between recording a new object and naming it. */
  function Placed(v: Vol, p: nat, isDir: bool, data: seq<byte>): Vol
    requires |data| < 0x1_0000_0000 && p < 0x1_0000_0000
  {
    Place(v, NextInode(v.inos), NewObj(v, NextInode(v.inos), p, isDir, data))
  }

  lemma PlacedOK(v: Vol, p: nat, isDir: bool, data: seq<byte>)
    requires VolOK(v) && IsDirObj(v, p) && |data| < 0x1_0000_0000
    requires NextInode(v.inos) != 0 && (isDir ==> NextBlock(v.used) != 0)
    ensures 1 <= p <= INODES_PER_GROUP
    ensures var n: nat := NextInode(v.inos);
      && INITIAL_USED_INODES < n <= INODES_PER_GROUP && n !in v.inos && n !in v.objs && n != p
    ensures VolOK(Placed(v, p, isDir, data))
  {
    hide NextInode, NextBlock, NewObj, WellOwned, Exact, DirsOK, Place;
    NextInodeFresh(v);
    NewObjOK(v, NextInode(v.inos), p, isDir, data);
    PlaceOK(v, NextInode(v.inos), NewObj(v, NextInode(v.inos), p, isDir, data));
  }

  /** A successful write: a new node under a new inode number, named by its parent. */
  ghost predicate Stored(v: Vol, p: nat, name: Name, isDir: bool, data: seq<byte>, w: Vol)
    requires |data| < 0x1_0000_0000 && p < 0x1_0000_0000
  {
    var n := NextInode(v.inos);
    && T.IsDir(Abs(v), p)
    && n != 0 && (n as nat) !in v.objs && name !in Abs(v)[p].kids
    && Abs(w) == T.Attach(Abs(v), p, name, n, AbsNode(NewObj(v, n, p, isDir, data)))
  }

  /** A write that could not name its object: the object stays, nothing names it. */
  ghost predicate Leaked(v: Vol, p: nat, isDir: bool, data: seq<byte>, w: Vol)
    requires |data| < 0x1_0000_0000 && p < 0x1_0000_0000
  {
    var n := NextInode(v.inos);
    && n != 0 && (n as nat) !in v.objs && w == Placed(v, p, isDir, data)
    && Abs(w) == T.Leak(Abs(v), n, AbsNode(NewObj(v, n, p, isDir, data)))
  }

  /** What each answer of a write means for the namespace. */
  lemma WriteEffect(v: Vol, p: nat, name: Name, isDir: bool, data: seq<byte>)
    requires VolOK(v) && CanWrite(v, p, name, isDir, data)
    ensures p <= INODES_PER_GROUP
    ensures VolOK(Write(v, p, name, isDir, data).0)
    ensures var (w, code) := Write(v, p, name, isDir, data);
      && code in {0, 1, 2, -1}
      && (code == 2 <==> p == 0)
      && (code == 1 <==> p != 0 && Lookup(v, p, name) != 0)
      && (code == 0 ==> Stored(v, p, name, isDir, data, w))
      && (code == -1 ==> p != 0 && if NextInode(v.inos) == 0 then w == v else Leaked(v, p, isDir, data, w))
      && (code == 1 || code == 2 ==> w == v)
  {
    hide VolOK, NextInode, NextBlock, NewObj, AddEntry, AbsNode, DirKids;
    if p != 0 {
      WritableParent(v, p);
    }
    var n := NextInode(v.inos);
    if p != 0 && Lookup(v, p, name) == 0 && n != 0 {
      PlacedOK(v, p, isDir, data);
      LookupAnswers(v, p, name);
      AbsPlace(v, n, NewObj(v, n, p, isDir, data));
      AddEntryOK(Placed(v, p, isDir, data), p, n, name, if isDir then FT_DIR else FT_REG_FILE);
    }
  }

  lemma LookupAnswers(v: Vol, p: nat, name: Name)
    requires VolOK(v) && IsDirObj(v, p)
    ensures Lookup(v, p, name) == 0 <==> name !in DirKids(v.objs[p].chains)
    ensures Abs(v)[p].TDir? && Abs(v)[p].kids == DirKids(v.objs[p].chains) - {DOT, DOTDOT}
  {
    DirFacts(v, p);
    KidsLive(Flat(v.objs[p].chains));
  }

  lemma {:induction false} KidsLive(rs: seq<Rec>)
    ensures forall x | x in Kids(rs) :: Kids(rs)[x] != 0
    decreases |rs|
  {
    if rs != [] {
      KidsLive(rs[1..]);
    }
  }

  lemma EntryType(v: Vol, n: u32, p: u32, isDir: bool, data: seq<byte>)
    requires |data| < 0x1_0000_0000
    ensures TypeOf(NewObj(v, n, p, isDir, data)) == if isDir then FT_DIR else FT_REG_FILE
  {}

  /** Every answer of a write leaves every entry's type byte true. */
  lemma WriteKinds(v: Vol, p: nat, name: Name, isDir: bool, data: seq<byte>)
    requires Inv(v) && CanWrite(v, p, name, isDir, data)
    ensures KindsOK(Write(v, p, name, isDir, data).0)
  {
    hide VolOK, T.WfTree, NextInode, NextBlock, NewObj, AddEntry, DirKids, KindsOK, TypeOf;
    if p != 0 {
      WritableParent(v, p);
    }
    var n := NextInode(v.inos);
    if p != 0 && Lookup(v, p, name) == 0 && n != 0 {
      PlacedOK(v, p, isDir, data);
      PlaceKinds(v, n, p, isDir, data);
      EntryType(v, n, p, isDir, data);
      DirFacts(Placed(v, p, isDir, data), p);
      AddEntryKinds(Placed(v, p, isDir, data), p, n, name, if isDir then FT_DIR else FT_REG_FILE);
    }
  }

  /** Every answer of a write leaves the volume sound and the namespace a tree. */
  lemma WriteKeepsInv(v: Vol, p: nat, name: Name, isDir: bool, data: seq<byte>)
    requires Inv(v) && CanWrite(v, p, name, isDir, data)
    requires p == 0 || T.Attached(Abs(v), p)
    ensures Inv(Write(v, p, name, isDir, data).0)
  {
    hide VolOK, Write, T.WfTree, AbsNode, NewObj, T.Attach, T.Leak, T.Attached, Placed, KindsOK;
    WriteEffect(v, p, name, isDir, data);
    WriteKinds(v, p, name, isDir, data);
    var (w, code) := Write(v, p, name, isDir, data);
    var n := NextInode(v.inos);
    if code == 0 || (code == -1 && w != v) {
      NewNode(v, n, p, isDir, data);
      if code == 0 {
        T.AttachWf(Abs(v), p, name, n, AbsNode(NewObj(v, n, p, isDir, data)));
      } else {
        LeakedKeepsWf(v, n, AbsNode(NewObj(v, n, p, isDir, data)), p);
      }
    }
  }

  lemma WritableParent(v: Vol, p: nat)
    requires VolOK(v) && IsDirObj(v, p)
    ensures 1 <= p <= INODES_PER_GROUP && T.IsDir(Abs(v), p)
  {
    DirFacts(v, p);
  }

  lemma LeakedKeepsWf(v: Vol, n: nat, node: T.Node, p: nat)
    requires T.WfTree(Abs(v)) && n !in v.objs && T.Newborn(node, p)
    ensures T.WfTree(T.Leak(Abs(v), n, node))
  {
    hide T.NamedOnce, T.LeaksEmpty, T.AllReachRoot, T.RootOK;
    T.NotNamedOutside(Abs(v), n);
    T.LeakWf(Abs(v), n, node);
  }

  // ---------------------------------------------------------------- delete

  lemma DiscardOwners(v: Vol, c: nat)
    requires VolOK(v) && c in v.objs
    ensures WellOwned(Discard(v, c))
  {
    hide Exact, DirsOK, RootOK, ObjOK, Blocks, NoDup;
    var w := Discard(v, c);
    assert forall m: nat, b: nat | Owns(w, m, b) :: Owns(v, m, b) && m != c;
    forall m: nat, b: nat | Owns(w, m, b) ensures b in w.used {
      assert Owns(v, m, b);
      assert b in Blocks(v.objs[c]) ==> Owns(v, c, b);
    }
  }

  lemma DiscardExact(v: Vol, c: nat)
    requires VolOK(v) && c in v.objs
    ensures Exact(Discard(v, c))
  {
    hide WellOwned, DirsOK, RootOK, Blocks;
    var w := Discard(v, c);
    forall b | b in w.used ensures b < INITIAL_USED_BLOCKS || exists m: nat :: Owns(w, m, b) {
      if b >= INITIAL_USED_BLOCKS {
        var m: nat :| Owns(v, m, b);
        assert Owns(w, m, b);
      }
    }
  }

  /** Only blocks from 22 up are ever returned. */
  lemma DiscardSized(v: Vol, c: nat)
    requires VolOK(v) && c in v.objs && c != ROOT_INODE_NO
    ensures Sized(Discard(v, c))
  {
    hide Exact, DirsOK, RootOK, ObjOK, NoDup;
    var w := Discard(v, c);
    forall b | 0 <= b < INITIAL_USED_BLOCKS ensures b in w.used {
      assert b in Blocks(v.objs[c]) ==> Owns(v, c, b);
    }
  }

  lemma DiscardOK(v: Vol, c: nat)
    requires VolOK(v) && c in v.objs && c != ROOT_INODE_NO
    ensures VolOK(Discard(v, c))
    ensures Abs(Discard(v, c)) == Abs(v) - {c}
  {
    hide Sized, Exact, WellOwned, DirOK, AbsNode, Blocks;
    DiscardOwners(v, c);
    DiscardExact(v, c);
    DiscardSized(v, c);
  }

  lemma RemoveEntryOK(v: Vol, p: nat, name: Name)
    requires VolOK(v) && IsDirObj(v, p) && name in DirKids(v.objs[p].chains)
    requires name != DOT && name != DOTDOT
    ensures AllTiled(v.objs[p].chains) && BlockWithName(v.objs[p].chains, name) < |v.objs[p].chains|
    ensures VolOK(RemoveEntry(v, p, name))
    ensures Abs(RemoveEntry(v, p, name)) == Abs(v)[p := T.TDir(Abs(v)[p].parent, Abs(v)[p].kids - {name})]
  {
    hide VolOK, DirKids, RemoveFrom, AllTiled, DistinctNames, BlockWithName, StartsWithDots, Abs;
    DirFacts(v, p);
    var cs := v.objs[p].chains;
    RemoveFromKids(cs, name);
    RemoveFromTiled(cs, name);
    RemoveKeepsDots(cs, name, p, ParentOf(cs));
    SameParent(RemoveFrom(cs, name), p, ParentOf(cs));
    RechainOK(v, p, RemoveFrom(cs, name));
    AbsUpdate(v, p, Dir(v.objs[p].blks, RemoveFrom(cs, name)), v.used);
    AbsAt(v, p);
    var m := DirKids(cs);
    assert (m - {name}) - {DOT, DOTDOT} == (m - {DOT, DOTDOT}) - {name};
  }

  lemma AbsAt(v: Vol, p: nat)
    requires p in v.objs
    ensures p in Abs(v) && Abs(v)[p] == AbsNode(v.objs[p])
  {}

  lemma SameParent(cs: Chains, self: u32, parent: u32)
    requires StartsWithDots(cs, self, parent)
    ensures cs != [] && |cs[0]| >= 2 && ParentOf(cs) == parent
  {}

  /** The answers of a delete, and what a successful one removes. */
  lemma DeleteEffect(v: Vol, p: nat, name: Name, isDir: bool)
    requires Inv(v) && name != DOT && name != DOTDOT
    ensures var (w, code) := Delete(v, p, name, isDir);
      && code in {0, 1, 2, 3, -1}
      && (code != 0 ==> w == v)
      && (code == 0 ==> Detached(v, p, name, isDir, w))
      && (code == 0 ==> p != 0 && name != [] && Lookup(v, p, name) != 0)
  {
    hide VolOK, DirKids, EmptyDir, AllTiled, T.WfTree, Abs;
    var c := Lookup(v, p, name);
    if p != 0 && name != [] && c != 0 {
      LookupTarget(v, p, name);
      if IsDirObj(v, c) {
        EmptyNode(v, c);
      }
      if isDir == IsDirObj(v, c) && (isDir ==> EmptyDir(v.objs[c].chains)) {
        DeleteSucceeds(v, p, name, isDir);
      }
    }
  }

  ghost predicate Detached(v: Vol, p: nat, name: Name, isDir: bool, w: Vol) {
    && T.IsDir(Abs(v), p) && name in Abs(v)[p].kids
    && T.Removable(Abs(v), Abs(v)[p].kids[name])
    && T.IsDir(Abs(v), Abs(v)[p].kids[name]) == isDir
    && VolOK(w)
    && Abs(w) == T.Detach(Abs(v), p, name)
  }

  lemma EmptyNode(v: Vol, c: nat)
    requires VolOK(v) && IsDirObj(v, c)
    ensures DirOK(c, v.objs[c].chains)
    ensures c in Abs(v) && Abs(v)[c].TDir?
    ensures EmptyDir(v.objs[c].chains) <==> Abs(v)[c].kids == map[]
  {
    hide VolOK, EmptyDir, DirKids, DistinctNames, StartsWithDots;
    DirFacts(v, c);
    var cs := v.objs[c].chains;
    EmptyDirKids(cs, c, ParentOf(cs));
    assert Abs(v)[c].kids == DirKids(cs) - {DOT, DOTDOT};
    assert Abs(v)[c].kids == map[] <==> Abs(v)[c].kids.Keys == {};
    assert DirKids(cs).Keys == {DOT, DOTDOT} <==> DirKids(cs).Keys - {DOT, DOTDOT} == {};
  }

  lemma DeleteSucceeds(v: Vol, p: nat, name: Name, isDir: bool)
    requires Inv(v) && name != DOT && name != DOTDOT
    requires p != 0 && name != [] && Lookup(v, p, name) != 0
    requires var c := Lookup(v, p, name);
      isDir == IsDirObj(v, c) && (isDir ==> DirOK(c, v.objs[c].chains) && EmptyDir(v.objs[c].chains))
    ensures Delete(v, p, name, isDir).1 == 0
    ensures Detached(v, p, name, isDir, Delete(v, p, name, isDir).0)
  {
    hide VolOK, DirKids, EmptyDir, AllTiled, T.WfTree, RemoveEntry, DirOK;
    var c := Lookup(v, p, name);
    LookupTarget(v, p, name);
    RemoveEntryOK(v, p, name);
    var r := RemoveEntry(v, p, name);
    RemovedOthers(v, p, name, c);
    DiscardOK(r, c);
    LookupAnswers(v, p, name);
    if isDir {
      EmptyNode(v, c);
    }
    DetachShape(Abs(v), p, name, c);
  }

  lemma RemovedOthers(v: Vol, p: nat, name: Name, c: nat)
    requires IsDirObj(v, p) && AllTiled(v.objs[p].chains)
    requires BlockWithName(v.objs[p].chains, name) < |v.objs[p].chains|
    requires c in v.objs && c != p
    ensures c in RemoveEntry(v, p, name).objs && RemoveEntry(v, p, name).objs[c] == v.objs[c]
  {}

  lemma DetachShape(t: T.Tree, p: nat, name: Name, c: nat)
    requires T.IsDir(t, p) && name in t[p].kids && t[p].kids[name] as nat == c && c != p
    ensures t[p := T.TDir(t[p].parent, t[p].kids - {name})] - {c} == T.Detach(t, p, name)
  {}

  /** Nothing names the target once its entry is gone. */
  lemma UnnamedTarget(v: Vol, p: nat, name: Name, w: Vol, c: nat)
    requires T.NamedOnce(Abs(v)) && T.Names(Abs(v), p, name, c)
    requires Abs(w) == Abs(v)[p := T.TDir(Abs(v)[p].parent, Abs(v)[p].kids - {name})]
    ensures !T.Named(Abs(w), c)
  {
    hide Abs;
    assert forall d: nat, x: Name | T.Names(Abs(w), d, x, c) :: T.Names(Abs(v), d, x, c) && (d != p || x != name);
  }

  /** Every answer of a delete leaves every entry's type byte true. */
  lemma DeleteKinds(v: Vol, p: nat, name: Name, isDir: bool)
    requires Inv(v) && name != DOT && name != DOTDOT
    ensures KindsOK(Delete(v, p, name, isDir).0)
  {
    hide VolOK, DirKids, EmptyDir, AllTiled, Abs, RemoveEntry, Discard, KindsOK, BlockWithName, Lookup, T.NamedOnce,
         T.LinksOK, T.LeaksEmpty, T.RootOK, T.AllReachRoot;
    var c := Lookup(v, p, name);
    if p != 0 && name != [] && c != 0 {
      LookupTarget(v, p, name);
      LookupFound(v, p, name);
      if IsDirObj(v, c) {
        EmptyNode(v, c);
      }
      if isDir == IsDirObj(v, c) && (isDir ==> EmptyDir(v.objs[c].chains)) {
        RemoveEntryOK(v, p, name);
        RemoveEntryKinds(v, p, name);
        RemovedOthers(v, p, name, c);
        UnnamedTarget(v, p, name, RemoveEntry(v, p, name), c);
        SoundDirs(RemoveEntry(v, p, name));
        DiscardKinds(RemoveEntry(v, p, name), c);
      }
    }
  }

  lemma LookupFound(v: Vol, p: nat, name: Name)
    requires Lookup(v, p, name) != 0
    ensures IsDirObj(v, p) && name in DirKids(v.objs[p].chains)
  {}

  lemma SoundDirs(v: Vol)
    requires VolOK(v)
    ensures DirsOK(v)
  {}

  /** Every answer of a delete leaves the volume sound and the namespace a tree. */
  lemma DeleteKeepsInv(v: Vol, p: nat, name: Name, isDir: bool)
    requires Inv(v) && name != DOT && name != DOTDOT
    ensures Inv(Delete(v, p, name, isDir).0)
  {
    hide VolOK, Delete, T.WfTree, Abs, KindsOK;
    DeleteEffect(v, p, name, isDir);
    DeleteKinds(v, p, name, isDir);
    if Delete(v, p, name, isDir).1 == 0 {
      T.DetachWf(Abs(v), p, name);
    }
  }

  // ---------------------------------------------------------------- what a listing shows

  /** An entry of a directory tells the number under its name, and type 2 if that is a directory, else 1. */
  predicate Shown(v: Vol, cs: Chains, x: Name, item: Item) {
    && x in DirKids(cs) && item.ino == DirKids(cs)[x]
    && if x == DOT || x == DOTDOT then item.kind == 2
       else item.ino in v.objs && item.kind == if v.objs[item.ino].Dir? then 2 else 1
  }

  lemma ItemShown(v: Vol, p: nat, k: nat, x: Name)
    requires Inv(v) && IsDirObj(v, p) && k <= |v.objs[p].chains| && x in Items(Flat(v.objs[p].chains[..k]))
    ensures Shown(v, v.objs[p].chains, x, Items(Flat(v.objs[p].chains[..k]))[x])
  {
    var cs := v.objs[p].chains;
    DirFacts(v, p);
    FirstNames(cs, k);
    ItemsAreKids(Flat(cs[..k]));
    assert DirTyped(v.objs, cs);
    TypedPrefix(v.objs, cs, k);
    hide VolOK, T.WfTree, KindsOK, DirTyped, DistinctNames, Kids, Items, Flat;
    if k > 0 {
      ItemKinds(v.objs, cs[..k], p, ParentOf(cs), x);
    } else {
      NoItems(cs);
    }
  }
}
