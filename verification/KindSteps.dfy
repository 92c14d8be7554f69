/** Storing, naming, unnaming and freeing an object keep every entry's type byte true. */
module KindSteps {
  import opened Bytes
  import opened Layout
  import opened Records
  import opened Directories
  import opened Volumes
  import opened Kinds
  import opened Operations
  import T = Trees

  /** A new object under a number nothing had: old entries tell the same kinds, and a new directory has none. */
  lemma PlaceKinds(v: Vol, n: u32, p: u32, isDir: bool, data: seq<byte>)
    requires KindsOK(v) && n as nat !in v.objs && |data| < 0x1_0000_0000
    ensures KindsOK(Place(v, n, NewObj(v, n, p, isDir, data)))
  {
    hide DirTyped, DirectBlocks, IndirectBlocks, TableBlock, NextBlock, DotChain, Blocks;
    var o := NewObj(v, n, p, isDir, data);
    var w := Place(v, n, o);
    forall m | m in w.objs && w.objs[m].Dir? ensures DirTyped(w.objs, w.objs[m].chains) {
      if m == n as nat {
        DotsTyped(w.objs, n, p);
      } else {
        StillTyped(v.objs, w.objs, v.objs[m].chains);
      }
    }
  }

  /** New chains for one directory. */
  lemma RechainKinds(v: Vol, p: nat, blks: seq<u32>, cs: Chains, used: set<nat>)
    requires KindsOK(v) && IsDirObj(v, p) && DirTyped(v.objs, cs)
    ensures KindsOK(Vol(v.objs[p := Dir(blks, cs)], used, v.inos))
  {
    hide DirTyped;
    var objs := v.objs[p := Dir(blks, cs)];
    StillTyped(v.objs, objs, cs);
    forall m | m in objs && objs[m].Dir? ensures DirTyped(objs, objs[m].chains) {
      if m != p {
        StillTyped(v.objs, objs, v.objs[m].chains);
      }
    }
  }

  lemma AddEntryKinds(v: Vol, p: nat, ino: u32, name: Name, ftype: byte)
    requires KindsOK(v) && IsDirObj(v, p) && AllTiled(v.objs[p].chains)
    requires ino as nat in v.objs && ftype == TypeOf(v.objs[ino])
    ensures KindsOK(AddEntry(v, p, ino, name, ftype).0)
  {
    var o, b := v.objs[p], NextBlock(v.used);
    assert DirTyped(v.objs, o.chains);
    hide KindsOK, DirTyped, BlockWithRoom, InsertInto, FreshChain, NextBlock, AllTiled, EntryLen, TypeOf;
    if BlockWithRoom(o.chains, EntryLen(|name|)) < |o.chains| {
      InsertTyped(v.objs, o.chains, ino, name, ftype);
      RechainKinds(v, p, o.blks, InsertInto(o.chains, ino, name, ftype), v.used);
    } else if |o.chains| < DIRECT_BLOCKS && b != 0 {
      GrownTyped(v.objs, o.chains, ino, name, ftype);
      RechainKinds(v, p, o.blks + [b], o.chains + [FreshChain(ino, name, ftype)], v.used + {b as nat});
    }
  }

  lemma RemoveEntryKinds(v: Vol, p: nat, name: Name)
    requires KindsOK(v) && IsDirObj(v, p) && AllTiled(v.objs[p].chains)
    requires BlockWithName(v.objs[p].chains, name) < |v.objs[p].chains|
    ensures KindsOK(RemoveEntry(v, p, name))
  {
    var o := v.objs[p];
    assert DirTyped(v.objs, o.chains);
    hide KindsOK, DirTyped, RemoveFrom, AllTiled, BlockWithName;
    RemoveFromTyped(v.objs, o.chains, name);
    RechainKinds(v, p, o.blks, RemoveFrom(o.chains, name), v.used);
  }

  lemma UnnamedUnmentioned(v: Vol, d: nat, c: nat)
    requires DirsOK(v) && IsDirObj(v, d) && !T.Named(Abs(v), c)
    ensures Unmentioned(v.objs[d].chains, c)
  {
    hide DirKids, DistinctNames;
    var cs := v.objs[d].chains;
    assert DirOK(d, cs);
    forall i, k | 0 <= i < |cs| && 0 <= k < |cs[i]| && Live(cs[i][k]) && cs[i][k].ino as nat == c
      ensures cs[i][k].name == DOT || cs[i][k].name == DOTDOT
    {
      LiveInDir(cs, i, k);
      assert cs[i][k].name in Abs(v)[d].kids ==> T.Names(Abs(v), d, cs[i][k].name, c);
    }
  }

  /** Freeing an object that no directory names. */
  lemma DiscardKinds(v: Vol, c: nat)
    requires KindsOK(v) && DirsOK(v) && c in v.objs && !T.Named(Abs(v), c)
    ensures KindsOK(Discard(v, c))
  {
    hide DirTyped, DirOK, T.Named, Abs, Unmentioned, Blocks;
    forall m | m in v.objs && m != c && v.objs[m].Dir? ensures DirTyped(v.objs - {c}, v.objs[m].chains) {
      UnnamedUnmentioned(v, m, c);
      TypedWithout(v.objs, v.objs[m].chains, c);
    }
  }
}
