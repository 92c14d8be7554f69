/** The tree with its block accounts: what every run does, with room or without. */
module Accounts {
  import opened Bytes
  import opened Layout
  import opened Records
  import opened Directories
  import opened Volumes
  import opened Kinds
  import opened Operations
  import opened Invariants
  import opened Coupling
  import opened Format
  import opened Space
  import opened Refinement
  import opened RoundTrip
  import opened Pages
  import T = Trees

  /** A tree, the pages of each of its directories, how many blocks each of its files holds, and how many are free. */
  datatype Account = Account(t: T.Tree, pages: map<nat, seq<Page>>, files: map<nat, nat>, free: nat)

  function PagesAt(s: Account, n: nat): seq<Page> {
    if n in s.pages then s.pages[n] else []
  }

  /** The blocks a node holds. */
  function Held(s: Account, n: nat): nat {
    if n in s.pages then |s.pages[n]| else if n in s.files then s.files[n] else 0
  }

  // ---------------------------------------------------------------- the machine

  /** The blocks a write asks for: one for 512 bytes, at most 140 of them, and one more beyond the twelfth. */
  function Asked(isDir: bool, n: nat): nat {
    var k := (n + 511) / 512;
    if isDir then 1 else if k <= 12 then k else if k <= 140 then k + 1 else 141
  }

  /** The blocks a new object gets: what it asks for, or all there are. */
  function Taken(free: nat, isDir: bool, n: nat): nat {
    Min(Asked(isDir, n), free)
  }

  /** A new node: of a file, the part of the data its blocks hold, the thirteenth of which holds none. */
  ghost function ANode(p: nat, isDir: bool, data: seq<byte>, taken: nat): T.Node {
    if isDir then T.TDir(p, map[])
    else T.TFile(|data|, data[..Min(|data|, 512 * (if taken <= 12 then taken else taken - 1))])
  }

  /** A new object is stored; its entry goes into the first record with room, or into a new block of its directory if
      one is left and the directory has fewer than twelve. Otherwise the object stays without a name. */
  ghost function AStore(s: Account, p: nat, name: Name, isDir: bool, data: seq<byte>): (Account, Answer)
    requires T.IsDir(s.t, p)
  {
    var n, ps, taken := TFresh(s.t), PagesAt(s, p), Taken(s.free, isDir, |data|);
    var node := ANode(p, isDir, data, taken);
    var pages := if isDir then s.pages[n as nat := [DotPage()]] else s.pages;
    var files := if isDir then s.files else s.files[n as nat := taken];
    if AnySpare(ps, |name|) then
      (Account(T.Attach(s.t, p, name, n, node), pages[p := PutInto(ps, name)], files, s.free - taken), Code(0))
    else if taken < s.free && |ps| < 12 then
      (Account(T.Attach(s.t, p, name, n, node), pages[p := ps + [NewPage(name)]], files, s.free - taken - 1), Code(0))
    else
      (Account(T.Leak(s.t, n, node), pages, files, s.free - taken), Code(-1))
  }

  /** A delete gives back what the node holds; its entry is absorbed by the one before it, or goes out of use. */
  ghost function ADelete(s: Account, op: Op): (Account, Answer)
    requires op.OpDelete?
  {
    var (t, a) := TStep(s.t, op);
    var c := TLookup(s.t, op.p, op.name);
    if a.code != 0 then (s, a)
    else
      var pages := (s.pages - {c})[op.p := DropFrom(PagesAt(s, op.p), op.name)];
      (Account(t, pages, s.files - {c}, s.free + Held(s, c)), a)
  }

  /** What an entry of a directory says: the two dots lead to directories, any other name to what the tree has. */
  ghost function TItem(t: T.Tree, p: nat, x: Name): Item
    requires T.IsDir(t, p)
  {
    if x == [46] then Item(p, 2)
    else if x == [46, 46] then Item(t[p].parent, 2)
    else if x !in t[p].kids then Item(0, 0)
    else Item(t[p].kids[x], if T.IsDir(t, t[p].kids[x]) then 2 else 1)
  }

  /** Reading a directory into `n` bytes shows the names in use in the whole blocks that fit. */
  ghost function AList(s: Account, p: nat, n: nat): Answer
    requires T.IsDir(s.t, p)
  {
    var ps := PagesAt(s, p);
    var shown := LiveNames(ps[..Min(|ps|, n / 512)]);
    Code(0).(isDir := true, size := Min(n, 512 * |ps|), names := map x | x in shown :: TItem(s.t, p, x))
  }

  /** One step of the machine. */
  ghost function AStep(s: Account, op: Op): (Account, Answer) {
    var plain := TStep(s.t, op).1;
    match op
    case OpWrite(p, name, isDir, data) => if plain.code != 0 then (s, plain) else AStore(s, p, name, isDir, data)
    case OpDelete(_, _, _) => ADelete(s, op)
    case OpRead(_, _, _) => (s, plain)
    case OpStat(p, name) =>
      (s, if plain.isDir then plain.(size := 512 * Held(s, TLookup(s.t, p, name))) else plain)
    case OpList(p, n) => (s, if plain.code != 0 then plain else AList(s, p, n))
  }

  ghost function ARun(s: Account, ops: seq<Op>): (Account, seq<Answer>)
    decreases |ops|
  {
    if ops == [] then (s, [])
    else
      var (u, a) := AStep(s, ops[0]);
      var (x, rest) := ARun(u, ops[1..]);
      (x, [a] + rest)
  }

  // ---------------------------------------------------------------- the accounts of a volume

  function DirPages(objs: map<nat, Obj>): map<nat, seq<Page>> {
    map n | n in objs && objs[n].Dir? :: PagesOf(objs[n].chains)
  }

  function FileBlocks(objs: map<nat, Obj>): map<nat, nat> {
    map n | n in objs && objs[n].File? :: |Blocks(objs[n])|
  }

  ghost function AccountOf(v: Vol): Account
    requires FreeCount(v) >= 0
  {
    Account(Abs(v), DirPages(v.objs), FileBlocks(v.objs), FreeCount(v))
  }

  lemma FreeIsNat(v: Vol)
    requires VolOK(v)
    ensures FreeCount(v) >= 0
  {
    FullCard(v.used);
  }

  lemma DirSmall(v: Vol, p: nat)
    requires VolOK(v) && IsDirObj(v, p)
    ensures 1 <= p <= INODES_PER_GROUP
  {
    WritableParent(v, p);
  }

  lemma DirAccount(v: Vol, p: nat)
    requires VolOK(v) && IsDirObj(v, p)
    ensures FreeCount(v) >= 0 && T.IsDir(Abs(v), p)
    ensures PagesAt(AccountOf(v), p) == PagesOf(v.objs[p].chains)
    ensures |PagesAt(AccountOf(v), p)| == Held(AccountOf(v), p) == |v.objs[p].blks| == |v.objs[p].chains| <= 12
  {
    FreeIsNat(v);
    WritableParent(v, p);
    DirFacts(v, p);
    hide VolOK, PagesOf, Abs;
  }

  lemma FileAccount(v: Vol, n: nat)
    requires FreeCount(v) >= 0 && n in v.objs && v.objs[n].File?
    ensures Held(AccountOf(v), n) == |Blocks(v.objs[n])|
  {
    hide Abs, Blocks, FreeCount;
  }

  // ---------------------------------------------------------------- the driver's write

  lemma AskedIsWanted(isDir: bool, data: seq<byte>)
    ensures Asked(isDir, |data|) == Wanted(isDir, data)
  {
    assert CeilDiv(|data|) == (|data| + 511) / 512;
  }

  /** The node a write stores is the machine's, and takes as many blocks. */
  lemma NewANode(v: Vol, n: u32, p: u32, isDir: bool, data: seq<byte>)
    requires VolOK(v) && n != 0 && p != 0 && |data| < 0x1_0000_0000 && (isDir ==> NextBlock(v.used) != 0)
    ensures FreeCount(v) >= 0
    ensures var o, taken := NewObj(v, n, p, isDir, data), Taken(FreeCount(v), isDir, |data|);
      && AbsNode(o) == ANode(p, isDir, data, taken)
      && |Blocks(o)| == taken && |v.used + SetOf(Blocks(o))| == |v.used| + taken
  {
    hide AbsNode, NextBlock, WellOwned, Exact, DirsOK, NewFile, Blocks, SetOf, Wanted, Asked;
    AskedIsWanted(isDir, data);
    TakenCount(v, n, p, isDir, data);
    NewNode(v, n, p, isDir, data);
    if !isDir {
      NewFileCount(v.used, data);
    }
  }

  lemma NewPages(v: Vol, n: u32, p: u32, isDir: bool, data: seq<byte>)
    requires n != 0 && p != 0 && |data| < 0x1_0000_0000
    ensures var o := NewObj(v, n, p, isDir, data);
      o.Dir? == isDir && (isDir ==> PagesOf(o.chains) == [DotPage()])
  {
    hide NextBlock, DirectBlocks, IndirectBlocks, TableBlock, PagesOf, DotPage, DotChain;
    DotsArePage(n, p);
  }

  lemma PlacedPages(objs: map<nat, Obj>, n: nat, o: Obj)
    requires n !in objs
    ensures DirPages(objs[n := o]) == if o.Dir? then DirPages(objs)[n := PagesOf(o.chains)] else DirPages(objs)
    ensures FileBlocks(objs[n := o]) == if o.Dir? then FileBlocks(objs) else FileBlocks(objs)[n := |Blocks(o)|]
  {
    hide PagesOf, Blocks;
  }

  lemma RechainedPages(objs: map<nat, Obj>, p: nat, d: Obj)
    requires p in objs && objs[p].Dir? && d.Dir?
    ensures DirPages(objs[p := d]) == DirPages(objs)[p := PagesOf(d.chains)]
    ensures FileBlocks(objs[p := d]) == FileBlocks(objs)
  {
    hide PagesOf, Blocks;
  }

  lemma WrittenPages(v: Vol, p: nat, n: u32, o: Obj, d: Obj)
    requires IsDirObj(v, p) && (n as nat) !in v.objs && d.Dir?
    ensures var objs := v.objs[n as nat := o][p := d];
      && DirPages(objs) == (if o.Dir? then DirPages(v.objs)[n as nat := PagesOf(o.chains)]
                            else DirPages(v.objs))[p := PagesOf(d.chains)]
      && FileBlocks(objs) == if o.Dir? then FileBlocks(v.objs) else FileBlocks(v.objs)[n as nat := |Blocks(o)|]
  {
    hide PagesOf, Blocks, DirPages, FileBlocks;
    PlacedPages(v.objs, n, o);
    RechainedPages(v.objs[n as nat := o], p, d);
  }

  lemma DirNeedsBlock(v: Vol, p: nat, name: Name, isDir: bool, data: seq<byte>)
    requires CanWrite(v, p, name, isDir, data) && Lookup(v, p, name) == 0 && NextInode(v.inos) != 0
    ensures isDir ==> NextBlock(v.used) != 0
    ensures |data| < 0x1_0000_0000
  {
    hide NextInode, NextBlock, Lookup;
  }

  /** Where the entry goes is decided by the arithmetic of the pages. */
  lemma FateIs(v: Vol, p: nat, name: Name, isDir: bool, data: seq<byte>)
    requires VolOK(v) && IsDirObj(v, p)
    ensures FreeCount(v) >= 0
    ensures var ps := PagesAt(AccountOf(v), p);
      && (AnySpare(ps, |name|) <==> BlockWithRoom(v.objs[p].chains, EntryLen(|name|)) < |v.objs[p].chains|)
      && (CanName(v, p, name, isDir, data) <==>
            AnySpare(ps, |name|) || (Taken(FreeCount(v), isDir, |data|) < FreeCount(v) && |ps| < 12))
  {
    DirAccount(v, p);
    var cs := v.objs[p].chains;
    hide VolOK, PagesOf, AnySpare, SlackIn, EntryLen, BlockWithRoom, Wanted, Asked, AccountOf;
    AnySpareIs(cs, |name|);
    SlackFound(cs, |name|);
    AskedIsWanted(isDir, data);
  }

  /** A write that answers 0: pages, blocks and free count. */
  lemma NamedPages(v: Vol, p: nat, name: Name, isDir: bool, data: seq<byte>)
    requires Inv(v) && CanWrite(v, p, name, isDir, data) && Operations.Write(v, p, name, isDir, data).1 == 0
    ensures IsDirObj(v, p) && FreeCount(v) >= 0
    ensures var w, n: nat := Operations.Write(v, p, name, isDir, data).0, NextInode(v.inos);
      var cs, taken := v.objs[p].chains, Taken(FreeCount(v), isDir, |data|);
      var fits := BlockWithRoom(cs, EntryLen(|name|)) < |cs|;
      var ps := if fits then PutInto(PagesOf(cs), name) else PagesOf(cs) + [NewPage(name)];
      && DirPages(w.objs)
          == (if isDir then DirPages(v.objs)[n := [DotPage()]] else DirPages(v.objs))[p := ps]
      && FileBlocks(w.objs) == (if isDir then FileBlocks(v.objs) else FileBlocks(v.objs)[n := taken])
      && FreeCount(w) == FreeCount(v) - taken - (if fits then 0 else 1)
  {
    hide VolOK, T.WfTree, KindsOK, Operations.Write, NextInode, NextBlock, Lookup, CanWrite, NewObj, AbsNode, Blocks,
         InsertInto, FreshChain, AllTiled, BlockWithRoom, SetOf, FreshBlocks, DirKids, Taken, PagesOf, PutInto,
         NewPage, DotPage, DirPages, FileBlocks, ANode, DotChain, EntryLen;
    WriteEffectCode(v, p, name, isDir, data);
    WrittenFacts(v, p, name, isDir, data);
    DirNeedsBlock(v, p, name, isDir, data);
    WrittenVolume(v, p, name, isDir, data);
    WriteTakes(v, p, name, isDir, data);
    var n, d, ftype := NextInode(v.inos), v.objs[p], if isDir then FT_DIR else FT_REG_FILE;
    var o := NewObj(v, n, p, isDir, data);
    NewANode(v, n, p, isDir, data);
    NewPages(v, n, p, isDir, data);
    FitBound(d.chains, EntryLen(|name|));
    if BlockWithRoom(d.chains, EntryLen(|name|)) < |d.chains| {
      InsertIsPut(d.chains, n, name, ftype);
      WrittenPages(v, p, n, o, Dir(d.blks, InsertInto(d.chains, n, name, ftype)));
    } else {
      GrowIsPage(d.chains, n, name, ftype);
      var b := NextBlock(v.used + SetOf(Blocks(o)));
      WrittenPages(v, p, n, o, Dir(d.blks + [b], d.chains + [FreshChain(n, name, ftype)]));
    }
  }

  lemma WriteEffectCode(v: Vol, p: nat, name: Name, isDir: bool, data: seq<byte>)
    requires VolOK(v) && CanWrite(v, p, name, isDir, data) && Operations.Write(v, p, name, isDir, data).1 == 0
    ensures Lookup(v, p, name) == 0 && NextInode(v.inos) != 0 && p != 0
  {
    hide VolOK, Lookup, NextInode, NextBlock, NewObj, AddEntry, Place;
  }

  /** A write that cannot name its object keeps its blocks all the same. */
  lemma LeakedPages(v: Vol, p: nat, isDir: bool, data: seq<byte>)
    requires VolOK(v) && IsDirObj(v, p) && NextInode(v.inos) != 0 && |data| < 0x1_0000_0000
    requires isDir ==> NextBlock(v.used) != 0
    ensures FreeCount(v) >= 0 && p < 0x1_0000_0000
    ensures var w, n: nat := Placed(v, p, isDir, data), NextInode(v.inos);
      var taken := Taken(FreeCount(v), isDir, |data|);
      && DirPages(w.objs) == (if isDir then DirPages(v.objs)[n := [DotPage()]] else DirPages(v.objs))
      && FileBlocks(w.objs) == (if isDir then FileBlocks(v.objs) else FileBlocks(v.objs)[n := taken])
      && FreeCount(w) == FreeCount(v) - taken
  {
    hide VolOK, NextInode, NextBlock, NewObj, Blocks, SetOf, Taken, ANode, AbsNode, PagesOf, DotPage, DirPages,
         FileBlocks;
    DirSmall(v, p);
    PlacedOK(v, p, isDir, data);
    var n := NextInode(v.inos);
    NewANode(v, n, p, isDir, data);
    NewPages(v, n, p, isDir, data);
    PlacedPages(v.objs, n, NewObj(v, n, p, isDir, data));
  }

  /** Storing a new object is the machine's step. */
  lemma StoreSteps(v: Vol, p: nat, name: Name, isDir: bool, data: seq<byte>)
    requires Inv(v) && CanWrite(v, p, name, isDir, data) && IsDirObj(v, p) && p != 0
    requires Lookup(v, p, name) == 0 && NextInode(v.inos) != 0
    ensures FreeCount(v) >= 0 && FreeCount(Operations.Write(v, p, name, isDir, data).0) >= 0
    ensures T.IsDir(Abs(v), p)
    ensures var (w, code) := Operations.Write(v, p, name, isDir, data);
      AStore(AccountOf(v), p, name, isDir, data) == (AccountOf(w), Code(code))
  {
    hide VolOK, T.WfTree, KindsOK, Operations.Write, NextInode, NextBlock, Lookup, CanWrite, CanName, Abs, AbsNode,
         DirPages, FileBlocks, NewObj, TFresh, T.Attach, T.Leak, ANode, BlockWithRoom, Placed, Blocks, PagesOf,
         PutInto, NewPage, DotPage, AnySpare, Taken, EntryLen;
    var (w, code) := Operations.Write(v, p, name, isDir, data);
    WriteEffect(v, p, name, isDir, data);
    FreeIsNat(w);
    FreshMatches(v);
    WriteAnswers(v, p, name, isDir, data);
    DirAccount(v, p);
    FateIs(v, p, name, isDir, data);
    DirNeedsBlock(v, p, name, isDir, data);
    NewANode(v, NextInode(v.inos), p, isDir, data);
    if code == 0 {
      NamedPages(v, p, name, isDir, data);
    } else {
      LeakedPages(v, p, isDir, data);
    }
  }

  lemma WriteParent(v: Vol, p: nat, name: Name, isDir: bool, data: seq<byte>)
    requires CanWrite(v, p, name, isDir, data)
    ensures p == 0 || IsDirObj(v, p)
  {}

  /** What the plain tree says of a write: refused, or 0. */
  lemma PlainWrite(v: Vol, p: nat, name: Name, isDir: bool, data: seq<byte>)
    requires VolOK(v) && CanWrite(v, p, name, isDir, data)
    ensures var plain := TStep(Abs(v), OpWrite(p, name, isDir, data)).1;
      plain == if p == 0 then Code(2) else if Lookup(v, p, name) != 0 then Code(1)
               else if NextInode(v.inos) == 0 then Code(-1) else Code(0)
  {
    WriteParent(v, p, name, isDir, data);
    hide VolOK, Abs, TLookup, TFresh, NextInode, Lookup, CanWrite, T.Attach, TNewNode;
    LookupMatches(v, p, name);
    FreshMatches(v);
    NodeKind(v, p);
  }

  lemma RefusedWrite(v: Vol, p: nat, name: Name, isDir: bool, data: seq<byte>)
    requires VolOK(v) && CanWrite(v, p, name, isDir, data)
    requires p == 0 || Lookup(v, p, name) != 0 || NextInode(v.inos) == 0
    ensures var plain := TStep(Abs(v), OpWrite(p, name, isDir, data)).1;
      plain.code != 0 && Operations.Write(v, p, name, isDir, data) == (v, plain.code) && plain == Code(plain.code)
  {
    hide VolOK, Abs, TStep, NextInode, Lookup, CanWrite, Operations.Write, CanName, Leaked;
    PlainWrite(v, p, name, isDir, data);
    WriteAnswers(v, p, name, isDir, data);
    WriteEffect(v, p, name, isDir, data);
  }

  /** The driver's write is a write of the machine. */
  lemma WriteSteps(v: Vol, p: nat, name: Name, isDir: bool, data: seq<byte>)
    requires Inv(v) && CanWrite(v, p, name, isDir, data)
    ensures FreeCount(v) >= 0 && FreeCount(Operations.Write(v, p, name, isDir, data).0) >= 0
    ensures var (w, code) := Operations.Write(v, p, name, isDir, data);
      AStep(AccountOf(v), OpWrite(p, name, isDir, data)) == (AccountOf(w), Code(code))
  {
    WriteParent(v, p, name, isDir, data);
    hide VolOK, T.WfTree, KindsOK, Operations.Write, NextInode, Lookup, Abs, DirPages, FileBlocks, AStore, TStep,
         CanWrite;
    FreeIsNat(v);
    if p != 0 && Lookup(v, p, name) == 0 && NextInode(v.inos) != 0 {
      PlainWrite(v, p, name, isDir, data);
      StoreSteps(v, p, name, isDir, data);
    } else {
      RefusedWrite(v, p, name, isDir, data);
    }
  }

  // ---------------------------------------------------------------- the other operations

  lemma FreedPages(objs: map<nat, Obj>, p: nat, d: Obj, c: nat)
    requires p in objs && objs[p].Dir? && d.Dir? && c != p
    ensures DirPages(objs[p := d] - {c}) == (DirPages(objs) - {c})[p := PagesOf(d.chains)]
    ensures FileBlocks(objs[p := d] - {c}) == FileBlocks(objs) - {c}
  {
    hide PagesOf, Blocks;
  }

  lemma DeletedVolume(v: Vol, p: nat, name: Name, isDir: bool)
    requires Inv(v) && name != DOT && name != DOTDOT && Delete(v, p, name, isDir).1 == 0
    ensures IsDirObj(v, p) && AllTiled(v.objs[p].chains)
    ensures BlockWithName(v.objs[p].chains, name) < |v.objs[p].chains|
    ensures var w, c: nat := Delete(v, p, name, isDir).0, Lookup(v, p, name);
      && c in v.objs && c != p
      && w.objs == v.objs[p := Dir(v.objs[p].blks, RemoveFrom(v.objs[p].chains, name))] - {c}
  {
    hide WellOwned, Exact, T.WfTree, KindsOK, AllTiled, EmptyDir, RemoveFrom, DirKids, BlockWithName, Lookup;
    LookupTarget(v, p, name);
    LookupFound(v, p, name);
    DirFacts(v, p);
    BlockWithNameFound(v.objs[p].chains, name);
  }

  lemma HeldBlocks(v: Vol, c: nat)
    requires VolOK(v) && c in v.objs && FreeCount(v) >= 0
    ensures Held(AccountOf(v), c) == |Blocks(v.objs[c])|
  {
    if v.objs[c].Dir? {
      DirAccount(v, c);
    } else {
      FileAccount(v, c);
    }
  }

  lemma DeletedAccount(v: Vol, p: nat, name: Name, isDir: bool)
    requires Inv(v) && name != DOT && name != DOTDOT && Delete(v, p, name, isDir).1 == 0
    ensures FreeCount(v) >= 0
    ensures var w, c: nat := Delete(v, p, name, isDir).0, Lookup(v, p, name);
      && DirPages(w.objs) == (DirPages(v.objs) - {c})[p := DropFrom(PagesAt(AccountOf(v), p), name)]
      && FileBlocks(w.objs) == FileBlocks(v.objs) - {c}
      && FreeCount(w) == FreeCount(v) + Held(AccountOf(v), c)
  {
    hide VolOK, T.WfTree, KindsOK, Delete, Lookup, Blocks, InodeOf, ObjOK, DirPages, FileBlocks, AccountOf, PagesAt,
         Held, PagesOf, DropFrom, RemoveFrom, AllTiled, BlockWithName;
    DeleteFrees(v, p, name, isDir);
    DeletedVolume(v, p, name, isDir);
    var c: nat := Lookup(v, p, name);
    CountBlocks(v.objs[c]);
    DirAccount(v, p);
    HeldBlocks(v, c);
    RemoveFromIsDrop(v.objs[p].chains, name);
    FreedPages(v.objs, p, Dir(v.objs[p].blks, RemoveFrom(v.objs[p].chains, name)), c);
  }

  /** The driver's delete gives back exactly what the account says the node holds. */
  lemma DeleteSteps(v: Vol, p: nat, name: Name, isDir: bool)
    requires Inv(v) && name != DOT && name != DOTDOT
    ensures FreeCount(v) >= 0 && FreeCount(Delete(v, p, name, isDir).0) >= 0
    ensures var (w, code) := Delete(v, p, name, isDir);
      ADelete(AccountOf(v), OpDelete(p, name, isDir)) == (AccountOf(w), Code(code))
  {
    hide VolOK, T.WfTree, KindsOK, Delete, Lookup, Abs, DirPages, FileBlocks, TLookup, Detached, DropFrom, Held,
         PagesAt, TStep;
    var (w, code) := Delete(v, p, name, isDir);
    DeleteEffect(v, p, name, isDir);
    DeleteRefines(v, p, name, isDir);
    DeleteKeepsInv(v, p, name, isDir);
    FreeIsNat(v);
    FreeIsNat(w);
    LookupMatches(v, p, name);
    if code == 0 {
      DeletedAccount(v, p, name, isDir);
    }
  }

  lemma StatSteps(v: Vol, p: nat, name: Name)
    requires Inv(v)
    ensures FreeCount(v) >= 0
    ensures var (code, size, isDir) := Stat(v, p, name);
      AStep(AccountOf(v), OpStat(p, name)) == (AccountOf(v), Code(code).(isDir := isDir, size := size))
  {
    hide VolOK, T.WfTree, KindsOK, Lookup, Abs, TLookup, TStep, Held, DirPages, FileBlocks;
    FreeIsNat(v);
    StatRefines(v, p, name);
    LookupMatches(v, p, name);
    if IsDirObj(v, Lookup(v, p, name)) {
      DirAccount(v, Lookup(v, p, name));
    }
  }

  // ---------------------------------------------------------------- listings

  /** What one entry of the first blocks says is what the tree has under its name. */
  lemma ItemMatches(v: Vol, p: nat, k: nat, x: Name)
    requires Inv(v) && IsDirObj(v, p) && 0 < k <= |v.objs[p].chains| && x in Items(Flat(v.objs[p].chains[..k]))
    ensures T.IsDir(Abs(v), p)
    ensures Items(Flat(v.objs[p].chains[..k]))[x] == TItem(Abs(v), p, x)
  {
    var cs := v.objs[p].chains;
    DirFacts(v, p);
    LookupAnswers(v, p, x);
    DotsInKids(p, cs);
    hide VolOK, T.WfTree, KindsOK, DirKids, Items, Flat, DirTyped, DirOK;
    ItemShown(v, p, k, x);
    var c := Items(Flat(cs[..k]))[x].ino;
    NodeKind(v, c);
    assert Abs(v)[p].parent == ParentOf(cs);
  }

  lemma ItemsMatch(v: Vol, p: nat, k: nat)
    requires Inv(v) && IsDirObj(v, p) && k <= |v.objs[p].chains|
    ensures T.IsDir(Abs(v), p)
    ensures Items(Flat(v.objs[p].chains[..k]))
         == map x | x in LiveNames(PagesOf(v.objs[p].chains)[..k]) :: TItem(Abs(v), p, x)
  {
    hide VolOK, T.WfTree, KindsOK, Abs, Items, PagesOf, LiveNames, Flat, Kids, TItem;
    var cs := v.objs[p].chains;
    WritableParent(v, p);
    PagesPrefix(cs, k);
    LiveNamesAre(cs[..k]);
    ItemsAreKids(Flat(cs[..k]));
    forall x | x in Items(Flat(cs[..k])) ensures Items(Flat(cs[..k]))[x] == TItem(Abs(v), p, x) {
      if k == 0 {
        NoItems(cs);
      } else {
        ItemMatches(v, p, k, x);
      }
    }
  }

  /** Reading a directory is the machine's step: bytes copied, names shown, numbers and kinds. */
  lemma ListSteps(v: Vol, p: nat, n: nat)
    requires Inv(v)
    ensures FreeCount(v) >= 0
    ensures var (code, size, names) := Listing(v, p, n);
      AStep(AccountOf(v), OpList(p, n))
        == (AccountOf(v), Code(code).(isDir := code == 0, size := size, names := names))
  {
    hide VolOK, T.WfTree, KindsOK, Abs, Items, Flat, TItem, PagesOf, LiveNames, DirPages, FileBlocks;
    FreeIsNat(v);
    NodeKind(v, p);
    if IsDirObj(v, p) {
      DirSmall(v, p);
      DirAccount(v, p);
      ItemsMatch(v, p, Min(|v.objs[p].chains|, n / BLOCK_SIZE));
    }
  }

  /** In an attached directory the kind of `..` is that of what it leads to as well. */
  lemma DotDotIsDirectory(t: T.Tree, p: nat)
    requires T.WfTree(t) && T.IsDir(t, p) && T.Attached(t, p)
    ensures T.IsDir(t, TItem(t, p, DOT).ino) && T.IsDir(t, TItem(t, p, DOTDOT).ino)
  {
    T.ParentAttached(t, p);
  }

  // ---------------------------------------------------------------- every run

  /** Every operation of the driver, whatever room there is, is a step of the machine, sizes and names included. */
  lemma StepAccounts(v: Vol, op: Op)
    requires Inv(v) && Legal(v, op)
    ensures FreeCount(v) >= 0 && FreeCount(VStep(v, op).0) >= 0
    ensures AStep(AccountOf(v), op) == (AccountOf(VStep(v, op).0), VStep(v, op).1)
  {
    hide VolOK, T.WfTree, KindsOK, Abs, AStore, AList, ADelete, Operations.Write, Delete, Read, Stat, Listing,
         T.Attached, TStep, FreeCount, DirPages, FileBlocks, CanWrite;
    match op
    case OpWrite(p, name, isDir, data) => WriteSteps(v, p, name, isDir, data);
    case OpDelete(p, name, isDir) => DeleteSteps(v, p, name, isDir);
    case OpRead(p, name, n) =>
      FreeIsNat(v);
      ReadRefines(v, p, name, n);
    case OpStat(p, name) => StatSteps(v, p, name);
    case OpList(p, n) => ListSteps(v, p, n);
  }

  /** Every legal run, room or no room, is the machine's run from the account of its first volume to that of its
      last, answer by answer. */
  lemma {:induction false} RunAccounts(v: Vol, ops: seq<Op>)
    requires LegalRun(v, ops)
    ensures FreeCount(v) >= 0 && FreeCount(VRun(v, ops).0) >= 0
    ensures ARun(AccountOf(v), ops) == (AccountOf(VRun(v, ops).0), VRun(v, ops).1)
    decreases |ops|
  {
    hide Legal, VStep, AStep, VolOK, T.WfTree, KindsOK, AccountOf, FreeCount;
    FreeIsNat(v);
    if ops != [] {
      StepAccounts(v, ops[0]);
      RunAccounts(VStep(v, ops[0]).0, ops[1..]);
    }
  }

  /** A fresh disk: a bare root of one block with the two dots, and 234 blocks free. */
  lemma FreshAccount(v: Vol)
    requires IsFresh(v)
    ensures FreeCount(v) == 234
    ensures AccountOf(v)
         == Account(map[T.ROOT := T.TDir(T.ROOT, map[])], map[T.ROOT := [DotPage()]], map[], 234)
  {
    IsFreshIff(v);
    hide FreshVol, Inv, Abs, DotChain, DotPage, PagesOf;
    FreshInv();
    FreshSets();
    DotsArePage(T.ROOT, T.ROOT);
  }
}
