/** Runs of file operations refine runs over a plain tree of named files and directories. */
module Refinement {
  import opened Bytes
  import opened Layout
  import opened Records
  import opened Directories
  import opened Volumes
  import opened Kinds
  import opened Operations
  import opened Invariants
  import opened Space
  import opened Format
  import T = Trees

  datatype Op =
    | OpWrite(p: nat, name: Name, isDir: bool, data: seq<byte>)
    | OpDelete(p: nat, name: Name, isDir: bool)
    | OpRead(p: nat, name: Name, n: nat)
    | OpStat(p: nat, name: Name)
    | OpList(p: nat, n: nat)

  /** What a caller sees: the return code, the bytes of a file read, for `stat` kind and size, and for a directory
      that is read the number of bytes copied, and number and kind of each name in them. */
  datatype Answer = Answer(code: int, bytes: seq<byte>, isDir: bool, size: nat, names: map<Name, Item>)

  function Code(c: int): Answer {
    Answer(c, [], false, 0, map[])
  }

  /** The part of an answer that does not depend on how many blocks a directory has. */
  function Plain(a: Answer): Answer {
    if a.isDir then Answer(a.code, a.bytes, true, 0, map[]) else a
  }

  function Plains(answers: seq<Answer>): seq<Answer> {
    if answers == [] then [] else [Plain(answers[0])] + Plains(answers[1..])
  }

  // ---------------------------------------------------------------- the abstract tree

  /** The node a name leads to; 0 when there is none. */
  ghost function TLookup(t: T.Tree, p: nat, name: Name): nat {
    if !T.IsDir(t, p) then 0
    else if name == DOT then p
    else if name == DOTDOT then t[p].parent
    else if name in t[p].kids then t[p].kids[name]
    else 0
  }

  /** The lowest inode number no node has, among those not reserved. */
  ghost function TFresh(t: T.Tree): u32 {
    var k := LowestFree(t.Keys, FIRST_INO + 1, INODES_PER_GROUP + 1);
    if k == INODES_PER_GROUP + 1 then 0 else k
  }

  ghost function TNewNode(p: nat, isDir: bool, data: seq<byte>): T.Node {
    if isDir then T.TDir(p, map[]) else T.TFile(|data|, data)
  }

  /** The operations on a tree with room for everything but inode numbers. */
  ghost function TStep(t: T.Tree, op: Op): (T.Tree, Answer) {
    match op
    case OpWrite(p, name, isDir, data) =>
      if p == 0 || !T.IsDir(t, p) then (t, Code(2))
      else if TLookup(t, p, name) != 0 then (t, Code(1))
      else if TFresh(t) == 0 then (t, Code(-1))
      else (T.Attach(t, p, name, TFresh(t), TNewNode(p, isDir, data)), Code(0))
    case OpDelete(p, name, isDir) =>
      var c := TLookup(t, p, name);
      if p == 0 then (t, Code(3))
      else if name == [] then (t, Code(-1))
      else if c == 0 || c !in t || name == DOT || name == DOTDOT then (t, Code(1))
      else if t[c].TDir? != isDir then (t, Code(1))
      else if isDir && t[c].kids != map[] then (t, Code(2))
      else (T.Detach(t, p, name), Code(0))
    case OpRead(p, name, n) =>
      var c := TLookup(t, p, name);
      if p == 0 then (t, Code(4))
      else if c == 0 then (t, Code(3))
      else if T.IsDir(t, c) then (t, Code(1))
      else (t, Code(0).(bytes := if c in t then t[c].bytes[..Min(n, |t[c].bytes|)] else []))
    case OpStat(p, name) =>
      var c := TLookup(t, p, name);
      if p == 0 || name == [] then (t, Code(-1))
      else if c == 0 then (t, Code(1))
      else (t, Code(0).(isDir := T.IsDir(t, c), size := if c in t && t[c].TFile? then t[c].size else 0))
    case OpList(p, n) =>
      (t, if p == 0 then Code(3) else if T.IsDir(t, p) then Code(0).(isDir := true) else Code(1))
  }

  // ---------------------------------------------------------------- the volume

  /** What the code needs of a request. */
  ghost predicate Legal(v: Vol, op: Op) {
    match op
    case OpWrite(p, name, isDir, data) => CanWrite(v, p, name, isDir, data) && (p == 0 || T.Attached(Abs(v), p))
    case OpDelete(_, name, _) => name != DOT && name != DOTDOT
    case OpRead(_, _, _) => true
    case OpStat(_, _) => true
    case OpList(_, _) => true
  }

  /** One operation of the driver. */
  ghost function VStep(v: Vol, op: Op): (Vol, Answer)
    requires Inv(v) && Legal(v, op)
  {
    match op
    case OpWrite(p, name, isDir, data) =>
      var (w, code) := Write(v, p, name, isDir, data);
      (w, Code(code))
    case OpDelete(p, name, isDir) =>
      var (w, code) := Delete(v, p, name, isDir);
      (w, Code(code))
    case OpRead(p, name, n) =>
      var (code, bytes) := Read(v, p, name, n);
      (v, Code(code).(bytes := bytes))
    case OpStat(p, name) =>
      var (code, size, isDir) := Stat(v, p, name);
      (v, Code(code).(isDir := isDir, size := size))
    case OpList(p, n) =>
      var (code, size, names) := Listing(v, p, n);
      (v, Code(code).(isDir := code == 0, size := size, names := names))
  }

  /** Every operation, whatever it answers, keeps the invariant. */
  lemma StepKeepsInv(v: Vol, op: Op)
    requires Inv(v) && Legal(v, op)
    ensures Inv(VStep(v, op).0)
  {
    hide Inv, Write, Delete, T.Attached;
    match op
    case OpWrite(p, name, isDir, data) => WriteKeepsInv(v, p, name, isDir, data);
    case OpDelete(p, name, isDir) => DeleteKeepsInv(v, p, name, isDir);
    case _ =>
  }

  // ---------------------------------------------------------------- matching the two

  lemma LookupMatches(v: Vol, p: nat, name: Name)
    requires VolOK(v)
    ensures TLookup(Abs(v), p, name) == Lookup(v, p, name)
  {
    hide WellOwned, Exact, DirKids;
    if IsDirObj(v, p) {
      DirFacts(v, p);
      LookupAnswers(v, p, name);
      DotsInKids(p, v.objs[p].chains);
    }
  }

  /** Follow the `..` entries of the directories themselves for `k` steps. */
  function Climb(v: Vol, d: nat, k: nat): nat
    decreases k
  {
    if k == 0 then d else Climb(v, Lookup(v, d, DOTDOT), k - 1)
  }

  lemma {:induction false} ClimbIsUp(v: Vol, d: nat, k: nat)
    requires Inv(v) && T.IsDir(Abs(v), d) && T.Attached(Abs(v), d)
    ensures Climb(v, d, k) == T.Up(Abs(v), d, k)
    decreases k
  {
    hide VolOK, Lookup, Abs, T.Attached, T.AllReachRoot;
    if k > 0 {
      LookupMatches(v, d, DOTDOT);
      T.ParentAttached(Abs(v), d);
      ClimbIsUp(v, Abs(v)[d].parent, k - 1);
    }
  }

  /** `.` is the directory itself, and from every attached directory finitely many `..` lead to inode 2. */
  lemma DotDotReachesRoot(v: Vol, d: nat)
    requires Inv(v) && T.IsDir(Abs(v), d) && T.Attached(Abs(v), d)
    ensures Lookup(v, d, DOT) == d
    ensures exists k: nat :: Climb(v, d, k) == ROOT_INODE_NO
  {
    LookupMatches(v, d, DOT);
    hide VolOK, Lookup, Abs, T.Attached;
    var k: nat :| T.Up(Abs(v), d, k) == T.ROOT;
    ClimbIsUp(v, d, k);
  }

  lemma {:induction false} SkipTaken(taken: set<nat>, lo: nat, mid: nat, hi: nat)
    requires lo <= mid <= hi && forall j | lo <= j < mid :: j in taken
    ensures LowestFree(taken, lo, hi) == LowestFree(taken, mid, hi)
    decreases mid - lo
  {
    if lo < mid {
      SkipTaken(taken, lo + 1, mid, hi);
    }
  }

  lemma SameFree(a: set<nat>, b: set<nat>, lo: nat, hi: nat)
    requires lo <= hi && forall j | lo <= j < hi :: j in a <==> j in b
    ensures LowestFree(a, lo, hi) == LowestFree(b, lo, hi)
  {
    LowestFreeUnique(b, lo, hi, LowestFree(a, lo, hi));
  }

  /** The driver's choice of inode is the tree's. */
  lemma FreshMatches(v: Vol)
    requires VolOK(v)
    ensures TFresh(Abs(v)) == NextInode(v.inos)
    ensures var n := NextInode(v.inos);
      if n == 0 then forall k | 12 <= k <= 64 :: k in Abs(v)
      else 12 <= n <= 64 && (n as nat) !in Abs(v) && forall k | 12 <= k < n as nat :: k in Abs(v)
  {
    hide WellOwned, DirsOK;
    SkipTaken(v.inos, 1, FIRST_INO + 1, INODES_PER_GROUP + 1);
    SameFree(v.inos, Abs(v).Keys, FIRST_INO + 1, INODES_PER_GROUP + 1);
  }

  // ---------------------------------------------------------------- enough room

  /** A write that is about to store something has room for all of it and a place for its entry. */
  predicate Roomy(v: Vol, op: Op) {
    op.OpWrite? && IsDirObj(v, op.p) && Lookup(v, op.p, op.name) == 0 && NextInode(v.inos) != 0 ==>
      Whole(v, op.isDir, op.data) && CanName(v, op.p, op.name, op.isDir, op.data)
  }

  // ---------------------------------------------------------------- one step refines

  /** The new node is the tree's if and only if the whole object found room. */
  lemma NewObjWhole(v: Vol, n: u32, p: u32, isDir: bool, data: seq<byte>)
    requires VolOK(v) && n != 0 && p != 0 && |data| < 0x1_0000_0000
    requires isDir ==> NextBlock(v.used) != 0
    ensures AbsNode(NewObj(v, n, p, isDir, data)) == TNewNode(p, isDir, data) <==> Whole(v, isDir, data)
  {
    hide AbsNode, NextBlock, WellOwned, Exact, DirsOK, NewFile;
    NewNode(v, n, p, isDir, data);
    if !isDir {
      KeptWhole(v.used, data);
    }
  }

  lemma AttachDiffers(t: T.Tree, p: nat, name: Name, n: u32, x: T.Node, y: T.Node)
    requires T.IsDir(t, p) && n as nat != p
    ensures T.Attach(t, p, name, n, x) == T.Attach(t, p, name, n, y) <==> x == y
  {
    assert T.Attach(t, p, name, n, x)[n as nat] == x;
    assert T.Attach(t, p, name, n, y)[n as nat] == y;
  }

  /** A write does what the tree's does if and only if there is room. */
  lemma WriteRefines(v: Vol, p: nat, name: Name, isDir: bool, data: seq<byte>)
    requires Inv(v) && CanWrite(v, p, name, isDir, data)
    ensures var (w, code) := Write(v, p, name, isDir, data);
      var op := OpWrite(p, name, isDir, data);
      TStep(Abs(v), op) == (Abs(w), Code(code)) <==> Roomy(v, op)
  {
    hide VolOK, T.WfTree, NextBlock, NextInode, NewObj, Lookup, Abs, AbsNode, TLookup, TFresh, TNewNode, T.Attach,
         CanName,
         Whole, Write, Placed, T.Leak;
    LookupMatches(v, p, name);
    FreshMatches(v);
    WriteEffect(v, p, name, isDir, data);
    WriteAnswers(v, p, name, isDir, data);
    if IsDirObj(v, p) {
      WritableParent(v, p);
      var n := NextInode(v.inos);
      if Lookup(v, p, name) == 0 && n != 0 {
        PlacedOK(v, p, isDir, data);
        NewObjWhole(v, n, p, isDir, data);
        var x, y := AbsNode(NewObj(v, n, p, isDir, data)), TNewNode(p, isDir, data);
        AttachDiffers(Abs(v), p, name, n, x, y);
        var (w, code) := Write(v, p, name, isDir, data);
        assert TStep(Abs(v), OpWrite(p, name, isDir, data)) == (T.Attach(Abs(v), p, name, n, y), Code(0));
        if code == 0 {
          assert Abs(w) == T.Attach(Abs(v), p, name, n, x);
        } else {
          assert code == -1;
        }
      }
    }
  }

  lemma DeleteRefines(v: Vol, p: nat, name: Name, isDir: bool)
    requires Inv(v) && name != DOT && name != DOTDOT
    ensures var (w, code) := Delete(v, p, name, isDir);
      TStep(Abs(v), OpDelete(p, name, isDir)) == (Abs(w), Code(code))
  {
    hide VolOK, DirKids, EmptyDir, AllTiled, T.WfTree, Abs, AbsNode, RemoveEntry, Discard, TLookup, Lookup,
         BlockWithName;
    LookupMatches(v, p, name);
    var c := Lookup(v, p, name);
    if p != 0 && name != [] && c != 0 {
      LookupTarget(v, p, name);
      NodeKind(v, c);
      if IsDirObj(v, c) {
        EmptyNode(v, c);
      }
      if isDir == IsDirObj(v, c) && (isDir ==> EmptyDir(v.objs[c].chains)) {
        DeleteSucceeds(v, p, name, isDir);
      }
    }
  }

  lemma NodeKind(v: Vol, c: nat)
    ensures c in v.objs <==> c in Abs(v)
    ensures c in v.objs ==> (Abs(v)[c].TDir? <==> IsDirObj(v, c))
    ensures c in v.objs && v.objs[c].File? ==> Abs(v)[c] == T.TFile(v.objs[c].size, FileBytes(v.objs[c]))
  {
    hide FileBytes, DirKids;
  }

  lemma ReadRefines(v: Vol, p: nat, name: Name, n: nat)
    requires VolOK(v)
    ensures var (code, bytes) := Read(v, p, name, n);
      TStep(Abs(v), OpRead(p, name, n)) == (Abs(v), Code(code).(bytes := bytes))
  {
    hide VolOK, Abs, AbsNode, TLookup, Lookup, FileBytes;
    LookupMatches(v, p, name);
    NodeKind(v, Lookup(v, p, name));
  }

  lemma StatRefines(v: Vol, p: nat, name: Name)
    requires VolOK(v)
    ensures var (code, size, isDir) := Stat(v, p, name);
      TStep(Abs(v), OpStat(p, name)) == (Abs(v), Code(code).(isDir := isDir, size := if isDir then 0 else size))
  {
    hide VolOK, Abs, AbsNode, TLookup, Lookup, FileBytes;
    LookupMatches(v, p, name);
    NodeKind(v, Lookup(v, p, name));
  }

  /** One operation does to the tree, and answers, what the tree's operation does if and only if there is room. */
  lemma StepRefines(v: Vol, op: Op)
    requires Inv(v) && Legal(v, op)
    ensures var (w, a) := VStep(v, op); TStep(Abs(v), op) == (Abs(w), Plain(a)) <==> Roomy(v, op)
  {
    hide VolOK, Write, Delete, Read, Stat, T.WfTree, Abs, T.Attached, Whole, CanName, Lookup, TLookup, DirKids;
    match op
    case OpWrite(p, name, isDir, data) => WriteRefines(v, p, name, isDir, data);
    case OpDelete(p, name, isDir) => DeleteRefines(v, p, name, isDir);
    case OpRead(p, name, n) => ReadRefines(v, p, name, n);
    case OpStat(p, name) => StatRefines(v, p, name);
    case OpList(p, _) => NodeKind(v, p);
  }

  // ---------------------------------------------------------------- whole runs

  /** Every request of the run is legal when its turn comes. */
  ghost predicate LegalRun(v: Vol, ops: seq<Op>)
    decreases |ops|
  {
    && Inv(v)
    && (ops != [] ==> Legal(v, ops[0]) && LegalRun(VStep(v, ops[0]).0, ops[1..]))
  }

  ghost function VRun(v: Vol, ops: seq<Op>): (Vol, seq<Answer>)
    requires LegalRun(v, ops)
    decreases |ops|
  {
    if ops == [] then (v, [])
    else
      var (w, a) := VStep(v, ops[0]);
      var (x, rest) := VRun(w, ops[1..]);
      (x, [a] + rest)
  }

  ghost predicate RoomyRun(v: Vol, ops: seq<Op>)
    requires LegalRun(v, ops)
    decreases |ops|
  {
    ops != [] ==> Roomy(v, ops[0]) && RoomyRun(VStep(v, ops[0]).0, ops[1..])
  }

  ghost function TRun(t: T.Tree, ops: seq<Op>): (T.Tree, seq<Answer>)
    decreases |ops|
  {
    if ops == [] then (t, [])
    else
      var (u, a) := TStep(t, ops[0]);
      var (x, rest) := TRun(u, ops[1..]);
      (x, [a] + rest)
  }

  /** Every run with room answers as the tree does and ends in the tree's state. */
  lemma {:induction false} RunRefines(v: Vol, ops: seq<Op>)
    requires LegalRun(v, ops) && RoomyRun(v, ops)
    ensures TRun(Abs(v), ops) == (Abs(VRun(v, ops).0), Plains(VRun(v, ops).1))
    decreases |ops|
  {
    hide Legal, Roomy, Inv, VStep, TStep, Abs, Plain;
    if ops != [] {
      StepRefines(v, ops[0]);
      RunRefines(VStep(v, ops[0]).0, ops[1..]);
    }
  }

  /** Every reachable volume, room or no room, satisfies the invariant. */
  lemma {:induction false} RunKeepsInv(v: Vol, ops: seq<Op>)
    requires LegalRun(v, ops)
    ensures Inv(VRun(v, ops).0)
    decreases |ops|
  {
    hide Legal, Inv, VStep;
    if ops != [] {
      RunKeepsInv(VStep(v, ops[0]).0, ops[1..]);
    }
  }

  /** A run may always continue with a legal request: legality of the next request is all that is needed. */
  lemma {:induction false} LegalExtends(v: Vol, ops: seq<Op>, op: Op)
    requires LegalRun(v, ops) && Legal(VRun(v, ops).0, op)
    ensures LegalRun(v, ops + [op])
    decreases |ops|
  {
    hide Legal, Inv, VStep;
    if ops == [] {
      StepKeepsInv(v, op);
      assert (ops + [op])[1..] == [];
    } else {
      LegalExtends(VStep(v, ops[0]).0, ops[1..], op);
      assert (ops + [op])[1..] == ops[1..] + [op];
    }
  }

  /** From a fresh format: the run refines a run over the bare root. */
  lemma FreshRunRefines(v: Vol, ops: seq<Op>)
    requires IsFresh(v) && LegalRun(v, ops) && RoomyRun(v, ops)
    ensures TRun(map[T.ROOT := T.TDir(T.ROOT, map[])], ops) == (Abs(VRun(v, ops).0), Plains(VRun(v, ops).1))
  {
    hide LegalRun, RoomyRun, TRun, VRun, Abs, FreshVol, IsFresh;
    IsFreshIff(v);
    FreshInv();
    RunRefines(v, ops);
  }

  /** On a fresh disk any file of up to 140 blocks, and any directory, can be created under the root. */
  lemma FreshAcceptsWrite(name: Name, isDir: bool, data: seq<byte>)
    requires 1 <= |name| <= 255 && name != DOT && name != DOTDOT
    requires |data| <= BLOCK_SIZE * (DIRECT_BLOCKS + POINTERS_PER_BLOCK)
    ensures var v, op := FreshVol(), OpWrite(T.ROOT, name, isDir, data);
      && Inv(v) && Legal(v, op) && Roomy(v, op)
      && VStep(v, op).1 == Code(0)
  {
    hide FreshVol, VolOK, T.WfTree, Lookup, NextBlock, NextInode, BlockWithRoom, Write;
    var v := FreshVol();
    FreshInv();
    LookupMatches(v, T.ROOT, name);
    FreshHasRoom(v);
    WriteAnswers(v, T.ROOT, name, isDir, data);
  }

  lemma FreshHasRoom(v: Vol)
    requires v == FreshVol()
    ensures NextBlock(v.used) == 22 && NextInode(v.inos) == 12 && |v.used| == 22
    ensures IsDirObj(v, T.ROOT) && |v.objs[T.ROOT].chains| == 1
  {
    FreshSets();
    hide DotChain, FreshVol;
    LowestFreeUnique(v.used, 0, BLOCKS_PER_GROUP, INITIAL_USED_BLOCKS);
    LowestFreeUnique(v.inos, 1, INODES_PER_GROUP + 1, INITIAL_USED_INODES + 1);
  }
}
