/** What becomes of an object that a failed write left without a name. */
module Leaks {
  import opened Bytes
  import opened Layout
  import opened Records
  import opened Directories
  import opened Volumes
  import opened Kinds
  import opened Operations
  import opened Invariants
  import opened Format
  import opened Space
  import opened Refinement
  import opened RoundTrip
  import opened Accounts
  import T = Trees

  /** The write stores an object and then cannot name it. */
  ghost predicate Leaky(v: Vol, op: Op)
    requires Inv(v) && Legal(v, op)
  {
    op.OpWrite? && VStep(v, op).1.code == -1 && VStep(v, op).0 != v
  }

  /** An object that no directory names. */
  ghost predicate Adrift(v: Vol, m: nat) {
    m in v.objs && !T.Attached(Abs(v), m)
  }

  ghost predicate AllAttached(v: Vol) {
    forall m | m in v.objs :: T.Attached(Abs(v), m)
  }

  // ---------------------------------------------------------------- on the tree

  lemma AttachAttached(t: T.Tree, p: nat, name: Name, n: u32, node: T.Node, m: nat)
    requires T.IsDir(t, p) && (n as nat) !in t && name !in t[p].kids && T.Newborn(node, p)
    ensures T.Attached(T.Attach(t, p, name, n, node), m) <==> T.Attached(t, m) || m == n as nat
  {
    T.AttachNames(t, p, name, n, node);
    var u := T.Attach(t, p, name, n, node);
    assert T.Names(u, p, name, n);
    if T.Named(t, m) {
      var d: nat, x: Name :| T.Names(t, d, x, m);
      assert T.Names(u, d, x, m);
    }
  }

  lemma LeakAttached(t: T.Tree, n: nat, node: T.Node, m: nat)
    requires T.WfTree(t) && n !in t && (node.TDir? ==> node.kids == map[])
    ensures T.Attached(T.Leak(t, n, node), m) <==> T.Attached(t, m)
    ensures n != T.ROOT && !T.Attached(T.Leak(t, n, node), n)
  {
    T.LeakNames(t, n, node);
    T.NotNamedOutside(t, n);
    assert T.Named(T.Leak(t, n, node), m) <==> T.Named(t, m);
    assert T.Named(T.Leak(t, n, node), n) <==> T.Named(t, n);
  }

  lemma DetachAttached(t: T.Tree, p: nat, name: Name, m: nat)
    requires T.WfTree(t) && T.IsDir(t, p) && name in t[p].kids && T.Removable(t, t[p].kids[name])
    requires m != t[p].kids[name] as nat
    ensures T.Attached(T.Detach(t, p, name), m) <==> T.Attached(t, m)
    ensures T.Attached(t, t[p].kids[name]) && T.Attached(t, p)
  {
    T.DetachNames(t, p, name);
    assert T.Names(t, p, name, t[p].kids[name]);
    assert t[p].kids != map[];
    if T.Attached(t, m) {
      T.StillAttached(t, p, name, m);
    }
  }

  // ---------------------------------------------------------------- one step

  lemma StoredAttaches(v: Vol, p: nat, name: Name, isDir: bool, data: seq<byte>, w: Vol, m: nat)
    requires Inv(v) && |data| < 0x1_0000_0000 && 1 <= p <= INODES_PER_GROUP
    requires Invariants.Stored(v, p, name, isDir, data, w)
    ensures var n: nat := NextInode(v.inos);
      && n !in v.objs && w.objs.Keys == v.objs.Keys + {n}
      && (T.Attached(Abs(w), m) <==> T.Attached(Abs(v), m) || m == n)
  {
    hide VolOK, T.WfTree, NextInode, NewObj, Abs, AbsNode, T.Attached, T.Attach, T.Newborn;
    var n := NextInode(v.inos);
    NewNode(v, n, p, isDir, data);
    var node := AbsNode(NewObj(v, n, p, isDir, data));
    AbsDomain(v);
    AbsDomain(w);
    AttachKeys(Abs(v), p, name, n, node);
    AttachAttached(Abs(v), p, name, n, node, m);
  }

  lemma LeakedAttaches(v: Vol, p: nat, isDir: bool, data: seq<byte>, w: Vol, m: nat)
    requires Inv(v) && |data| < 0x1_0000_0000 && 1 <= p <= INODES_PER_GROUP
    requires Leaked(v, p, isDir, data, w)
    ensures var n: nat := NextInode(v.inos);
      && n !in v.objs && w.objs.Keys == v.objs.Keys + {n}
      && (T.Attached(Abs(w), m) <==> T.Attached(Abs(v), m))
      && !T.Attached(Abs(w), n)
  {
    hide VolOK, T.WfTree, NextInode, NewObj, Abs, AbsNode, T.Attached, T.Leak, Placed;
    var n := NextInode(v.inos);
    NewNode(v, n, p, isDir, data);
    var node := AbsNode(NewObj(v, n, p, isDir, data));
    AbsDomain(v);
    AbsDomain(w);
    LeakKeys(Abs(v), n, node);
    LeakAttached(Abs(v), n, node, m);
  }

  /** What a write attaches: what was attached, and the new object when it answers 0. */
  lemma WriteAttaches(v: Vol, p: nat, name: Name, isDir: bool, data: seq<byte>, m: nat)
    requires Inv(v) && CanWrite(v, p, name, isDir, data)
    ensures var (w, code) := Operations.Write(v, p, name, isDir, data);
      var n: nat := NextInode(v.inos);
      && (w == v || (n !in v.objs && w.objs.Keys == v.objs.Keys + {n} && (code == 0 || code == -1)))
      && (w != v ==> (T.Attached(Abs(w), m) <==> T.Attached(Abs(v), m) || (code == 0 && m == n)))
      && (w != v && code == -1 ==> !T.Attached(Abs(w), n))
      && (code == 0 ==> w != v)
  {
    hide VolOK, T.WfTree, Operations.Write, NextInode, Abs, Lookup, CanName, CanWrite, T.Attached, Invariants.Stored,
         Leaked;
    WriteEffect(v, p, name, isDir, data);
    WriteAnswers(v, p, name, isDir, data);
    DataFits(v, p, name, isDir, data);
    var (w, code) := Operations.Write(v, p, name, isDir, data);
    if code == 0 {
      StoredAttaches(v, p, name, isDir, data, w, m);
    } else if code == -1 && w != v {
      LeakedAttaches(v, p, isDir, data, w, m);
    }
  }

  lemma DataFits(v: Vol, p: nat, name: Name, isDir: bool, data: seq<byte>)
    requires VolOK(v) && CanWrite(v, p, name, isDir, data)
    ensures |data| < 0x1_0000_0000 && (p != 0 ==> 1 <= p <= INODES_PER_GROUP)
  {
    hide VolOK, Lookup;
    if p != 0 {
      WritableParent(v, p);
    }
  }

  lemma AttachKeys(t: T.Tree, p: nat, name: Name, n: u32, node: T.Node)
    requires T.IsDir(t, p)
    ensures T.Attach(t, p, name, n, node).Keys == t.Keys + {n as nat}
  {}

  lemma LeakKeys(t: T.Tree, n: nat, node: T.Node)
    ensures T.Leak(t, n, node).Keys == t.Keys + {n}
  {}

  lemma PlacedObjs(v: Vol, p: nat, isDir: bool, data: seq<byte>)
    requires |data| < 0x1_0000_0000 && p < 0x1_0000_0000 && (NextInode(v.inos) as nat) !in v.objs
    ensures forall m | m in v.objs ::
      m in Placed(v, p, isDir, data).objs && Placed(v, p, isDir, data).objs[m] == v.objs[m]
  {
    hide NextInode, NewObj, Blocks, SetOf;
  }

  lemma EntryObjs(v: Vol, p: nat, ino: u32, name: Name, ftype: byte)
    requires IsDirObj(v, p) && AllTiled(v.objs[p].chains)
    ensures forall m | m in v.objs && m != p ::
      m in AddEntry(v, p, ino, name, ftype).0.objs && AddEntry(v, p, ino, name, ftype).0.objs[m] == v.objs[m]
  {
    hide BlockWithRoom, InsertInto, NextBlock, AllTiled;
  }

  /** A write changes no object that was there but the parent. */
  lemma WriteObjs(v: Vol, p: nat, name: Name, isDir: bool, data: seq<byte>)
    requires VolOK(v) && CanWrite(v, p, name, isDir, data)
    ensures var w := Operations.Write(v, p, name, isDir, data).0;
      forall m | m in v.objs && m != p :: m in w.objs && w.objs[m] == v.objs[m]
  {
    hide VolOK, NextInode, NextBlock, NewObj, Lookup, AddEntry, Placed, AllTiled, CanName;
    DataFits(v, p, name, isDir, data);
    if p != 0 && Lookup(v, p, name) == 0 && NextInode(v.inos) != 0 {
      var ftype := if isDir then FT_DIR else FT_REG_FILE;
      NamingCount(v, p, name, isDir, data, NextInode(v.inos), ftype);
      FreshInode(v);
      PlacedObjs(v, p, isDir, data);
      EntryObjs(Placed(v, p, isDir, data), p, NextInode(v.inos), name, ftype);
      WriteUnfolds(v, p, name, isDir, data);
    }
  }

  lemma FreshInode(v: Vol)
    requires VolOK(v) && NextInode(v.inos) != 0
    ensures (NextInode(v.inos) as nat) !in v.objs
  {
    NextInodeFresh(v);
  }

  lemma DeleteAttaches(v: Vol, p: nat, name: Name, isDir: bool, m: nat)
    requires Inv(v) && name != DOT && name != DOTDOT
    ensures var (w, code) := Delete(v, p, name, isDir);
      && (code != 0 ==> w == v)
      && (code == 0 ==>
        var c: nat := Lookup(v, p, name);
        && w.objs.Keys == v.objs.Keys - {c} && T.Attached(Abs(v), c) && T.Attached(Abs(v), p)
        && (m != c ==> (T.Attached(Abs(w), m) <==> T.Attached(Abs(v), m)))
        && (forall x | x in w.objs && x != p :: w.objs[x] == v.objs[x]))
  {
    hide VolOK, T.WfTree, Delete, Lookup, Abs, T.Attached, T.Detach, T.Removable, Blocks, KindsOK, RemoveFrom, AllTiled,
         BlockWithName;
    DeleteEffect(v, p, name, isDir);
    if Delete(v, p, name, isDir).1 == 0 {
      DeletedVolume(v, p, name, isDir);
      TargetNamed(v, p, name);
      DetachAttached(Abs(v), p, name, Lookup(v, p, name) + 1);
      if m != Lookup(v, p, name) as nat {
        DetachAttached(Abs(v), p, name, m);
      }
    }
  }

  lemma TargetNamed(v: Vol, p: nat, name: Name)
    requires VolOK(v) && name != DOT && name != DOTDOT && T.IsDir(Abs(v), p) && name in Abs(v)[p].kids
    ensures Abs(v)[p].kids[name] == Lookup(v, p, name)
  {
    hide VolOK, Lookup, Abs;
    LookupMatches(v, p, name);
  }

  /** Adrift once, adrift after any further operation, and not a byte of it changed. */
  lemma StepDrifts(v: Vol, op: Op, m: nat)
    requires Inv(v) && Legal(v, op) && Adrift(v, m)
    ensures Adrift(VStep(v, op).0, m) && VStep(v, op).0.objs[m] == v.objs[m]
  {
    hide VolOK, T.WfTree, Abs, Operations.Write, Delete, Lookup, T.Attached, CanWrite, NextInode, Read, Stat, Listing;
    match op
    case OpWrite(p, name, isDir, data) =>
      WriteAttaches(v, p, name, isDir, data, m);
      WriteParent(v, p, name, isDir, data);
      WriteObjs(v, p, name, isDir, data);
      ParentZero(v, p, m);
    case OpDelete(p, name, isDir) => DeleteAttaches(v, p, name, isDir, m);
    case _ =>
  }

  lemma ParentZero(v: Vol, p: nat, m: nat)
    requires VolOK(v) && m in v.objs
    ensures m != 0
  {}

  /** From a volume where all is attached a step leads to another exactly when it does not leak. */
  lemma StepAttached(v: Vol, op: Op)
    requires Inv(v) && Legal(v, op) && AllAttached(v)
    ensures AllAttached(VStep(v, op).0) <==> !Leaky(v, op)
  {
    hide VolOK, T.WfTree, Abs, Operations.Write, Delete, Lookup, T.Attached, CanWrite, NextInode, Read, Stat, Listing;
    var w := VStep(v, op).0;
    match op
    case OpWrite(p, name, isDir, data) =>
      forall m ensures m in w.objs ==> (T.Attached(Abs(w), m) <==> m in v.objs || !Leaky(v, op)) {
        WriteAttaches(v, p, name, isDir, data, m);
      }
      WriteAttaches(v, p, name, isDir, data, NextInode(v.inos));
    case OpDelete(p, name, isDir) =>
      forall m ensures m in w.objs ==> T.Attached(Abs(w), m) {
        DeleteAttaches(v, p, name, isDir, m);
      }
    case _ =>
  }

  // ---------------------------------------------------------------- every run

  /** A leaked object is there for good: after every legal run it is unnamed, unchanged, and its blocks and its
      inode still count as used. */
  lemma {:induction false} RunDrifts(v: Vol, ops: seq<Op>, m: nat)
    requires LegalRun(v, ops) && Adrift(v, m)
    ensures var w := VRun(v, ops).0;
      && Adrift(w, m) && w.objs[m] == v.objs[m]
      && m in w.inos && forall b | b in Blocks(v.objs[m]) :: b as nat in w.used
    decreases |ops|
  {
    hide Legal, VStep, T.WfTree, VolOK, Abs, T.Attached;
    if ops == [] {
      StillUsed(v, m);
    } else {
      StepDrifts(v, ops[0], m);
      RunDrifts(VStep(v, ops[0]).0, ops[1..], m);
    }
  }

  lemma StillUsed(v: Vol, m: nat)
    requires VolOK(v) && m in v.objs
    ensures m in v.inos && forall b | b in Blocks(v.objs[m]) :: b as nat in v.used
  {
    hide Blocks, Exact, DirsOK;
    forall b | b in Blocks(v.objs[m]) ensures b as nat in v.used {
      assert Owns(v, m, b);
    }
  }

  ghost predicate LeakFree(v: Vol, ops: seq<Op>)
    requires LegalRun(v, ops)
    decreases |ops|
  {
    ops != [] ==> !Leaky(v, ops[0]) && LeakFree(VStep(v, ops[0]).0, ops[1..])
  }

  /** Every object of the final volume is attached if and only if no write of the run leaked. */
  lemma {:induction false} RunAttached(v: Vol, ops: seq<Op>)
    requires LegalRun(v, ops) && AllAttached(v)
    ensures AllAttached(VRun(v, ops).0) <==> LeakFree(v, ops)
    decreases |ops|
  {
    hide Legal, VStep, T.WfTree, VolOK, Abs, T.Attached, Leaky;
    if ops != [] {
      var w := VStep(v, ops[0]).0;
      StepAttached(v, ops[0]);
      if Leaky(v, ops[0]) {
        var m :| m in w.objs && !T.Attached(Abs(w), m);
        RunDrifts(w, ops[1..], m);
      } else {
        RunAttached(w, ops[1..]);
      }
    }
  }

  /** On a fresh disk all is attached. */
  lemma FreshAttached()
    ensures AllAttached(FreshVol())
  {
    FreshSets();
  }
}
