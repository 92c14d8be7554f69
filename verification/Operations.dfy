/** The file operations on volumes, and what each does to the namespace. */
module Operations {
  import opened Bytes
  import opened Layout
  import opened Records
  import opened Directories
  import opened Volumes
  import opened Kinds
  import T = Trees

  // ---------------------------------------------------------------- the operations

  predicate IsDirObj(v: Vol, p: nat) {
    p in v.objs && v.objs[p].Dir?
  }

  /** The inode a directory gives to a name; 0 when there is none or `p` is no directory. */
  function Lookup(v: Vol, p: nat, name: Name): u32 {
    if IsDirObj(v, p) && name in DirKids(v.objs[p].chains) then DirKids(v.objs[p].chains)[name] else 0
  }

  /** First-fit insertion; a directory whose blocks are full grows by one block if it can. */
  function AddEntry(v: Vol, p: nat, ino: u32, name: Name, ftype: byte): (Vol, bool)
    requires IsDirObj(v, p) && AllTiled(v.objs[p].chains)
  {
    var o := v.objs[p];
    var b := NextBlock(v.used);
    if BlockWithRoom(o.chains, EntryLen(|name|)) < |o.chains| then
      (v.(objs := v.objs[p := Dir(o.blks, InsertInto(o.chains, ino, name, ftype))]), true)
    else if |o.chains| < DIRECT_BLOCKS && b != 0 then
      var d := Dir(o.blks + [b], o.chains + [FreshChain(ino, name, ftype)]);
      (Vol(v.objs[p := d], v.used + {b as nat}, v.inos), true)
    else
      (v, false)
  }

  function RemoveEntry(v: Vol, p: nat, name: Name): Vol
    requires IsDirObj(v, p) && AllTiled(v.objs[p].chains)
    requires BlockWithName(v.objs[p].chains, name) < |v.objs[p].chains|
  {
    v.(objs := v.objs[p := Dir(v.objs[p].blks, RemoveFrom(v.objs[p].chains, name))])
  }

  /** Records a new object under inode `n`. */
  function Place(v: Vol, n: nat, o: Obj): Vol {
    Vol(v.objs[n := o], v.used + SetOf(Blocks(o)), v.inos + {n})
  }

  /** Returns an inode and all its blocks. */
  function Discard(v: Vol, n: nat): Vol
    requires n in v.objs
  {
    Vol(v.objs - {n}, v.used - SetOf(Blocks(v.objs[n])), v.inos - {n})
  }

  function NewObj(v: Vol, n: u32, p: u32, isDir: bool, data: seq<byte>): Obj
    requires |data| < 0x1_0000_0000
  {
    if isDir then NewDir(v.used, n, p) else NewFile(v.used, data)
  }

  /** What the code needs of a write request: a parent that is a directory, a name, and for a
      new directory at least one free block. */
  predicate CanWrite(v: Vol, p: nat, name: Name, isDir: bool, data: seq<byte>) {
    && (p == 0 || IsDirObj(v, p))
    && 1 <= |name| <= 255
    && |data| <= 0xFFFF_FE00
    && (isDir && Lookup(v, p, name) == 0 && NextInode(v.inos) != 0 ==> NextBlock(v.used) != 0)
  }

  function Write(v: Vol, p: nat, name: Name, isDir: bool, data: seq<byte>): (Vol, int)
    requires VolOK(v) && CanWrite(v, p, name, isDir, data)
  {
    if p == 0 then (v, 2)
    else if Lookup(v, p, name) != 0 then (v, 1)
    else
      var n := NextInode(v.inos);
      if n == 0 then (v, -1)
      else
        NextInodeFresh(v);
        var placed := Place(v, n, NewObj(v, n, p, isDir, data));
        var (added, ok) := AddEntry(placed, p, n, name, if isDir then FT_DIR else FT_REG_FILE);
        (added, if ok then 0 else -1)
  }

  /** `read` with room for `n` bytes: the answer and the bytes copied out. */
  function Read(v: Vol, p: nat, name: Name, n: nat): (int, seq<byte>) {
    var c := Lookup(v, p, name);
    if p == 0 then (4, [])
    else if c == 0 then (3, [])
    else if IsDirObj(v, c) then (1, [])
    else if c as nat !in v.objs then (0, [])
    else (0, FileBytes(v.objs[c])[..Min(n, |FileBytes(v.objs[c])|)])
  }

  function SizeOf(v: Vol, c: nat): nat {
    if c !in v.objs then 0
    else if v.objs[c].Dir? then BLOCK_SIZE * |v.objs[c].blks|
    else v.objs[c].size
  }

  /** `stat`: the answer, and on success the size and whether it is a directory. */
  function Stat(v: Vol, p: nat, name: Name): (int, nat, bool) {
    var c := Lookup(v, p, name);
    if p == 0 || name == [] then (-1, 0, false)
    else if c == 0 then (1, 0, false)
    else (0, SizeOf(v, c), IsDirObj(v, c))
  }

  /** `read_directory` with room for `n` bytes: the answer, how many bytes are copied, and what the entries in the
      whole blocks among them say. */
  function Listing(v: Vol, p: nat, n: nat): (int, nat, map<Name, Item>) {
    if p == 0 then (3, 0, map[])
    else if !IsDirObj(v, p) then (1, 0, map[])
    else
      var o := v.objs[p];
      (0, Min(n, BLOCK_SIZE * |o.blks|), Items(Flat(o.chains[..Min(|o.chains|, n / BLOCK_SIZE)])))
  }

  function Delete(v: Vol, p: nat, name: Name, isDir: bool): (Vol, int)
    requires VolOK(v) && T.WfTree(Abs(v)) && name != DOT && name != DOTDOT
  {
    var c := Lookup(v, p, name);
    if p == 0 then (v, 3)
    else if name == [] then (v, -1)
    else if c == 0 then (v, 1)
    else
      LookupTarget(v, p, name);
      if isDir != IsDirObj(v, c) then (v, 1)
      else if isDir && !EmptyDir(v.objs[c].chains) then (v, 2)
      else
        BlockWithNameFound(v.objs[p].chains, name);
        (Discard(RemoveEntry(v, p, name), c), 0)
  }

  // ---------------------------------------------------------------- the namespace of a volume

  /** A volume read as a tree: directories lose their dot records, files keep their bytes. */
  function AbsNode(o: Obj): T.Node {
    if o.File? then T.TFile(o.size, FileBytes(o))
    else if o.chains == [] || |o.chains[0]| < 2 then T.TDir(0, map[])
    else T.TDir(ParentOf(o.chains), DirKids(o.chains) - {DOT, DOTDOT})
  }

  function Abs(v: Vol): T.Tree {
    map n | n in v.objs :: AbsNode(v.objs[n])
  }

  /** The complete invariant of a volume in use. */
  ghost predicate Inv(v: Vol) {
    VolOK(v) && T.WfTree(Abs(v)) && KindsOK(v)
  }

  /** A name other than the dots leads to an object below the root. */
  lemma LookupTarget(v: Vol, p: nat, name: Name)
    requires VolOK(v) && T.WfTree(Abs(v)) && name != DOT && name != DOTDOT
    requires Lookup(v, p, name) != 0
    ensures var c := Lookup(v, p, name);
      c as nat in v.objs && c > FIRST_INO && c as nat != p && T.Names(Abs(v), p, name, c)
  {
    var t, c := Abs(v), Lookup(v, p, name);
    assert T.Names(t, p, name, c);
    if c as nat == p {
      assert t[p].parent == p;
      RootIsOwnParent(t, p);
    }
  }

  lemma RootIsOwnParent(t: T.Tree, p: nat)
    requires T.WfTree(t) && T.IsDir(t, p) && t[p].parent == p && T.Attached(t, p)
    ensures p == T.ROOT
  {
    var k: nat :| T.Up(t, p, k) == T.ROOT;
    SelfLoop(t, p, k);
  }

  lemma {:induction false} SelfLoop(t: T.Tree, p: nat, k: nat)
    requires T.IsDir(t, p) && t[p].parent == p
    ensures T.Up(t, p, k) == p
    decreases k
  {
    if k > 0 {
      SelfLoop(t, p, k - 1);
    }
  }
}
