/** A volume with 93 blocks left, and the two ways a write of a hundred blocks falls short on it. */
module Shortage {
  import opened Bytes
  import opened Layout
  import opened Records
  import opened Directories
  import opened Volumes
  import opened Kinds
  import opened Operations
  import opened Invariants
  import opened Format
  import opened Space
  import opened Refinement
  import opened RoundTrip
  import T = Trees

  /** A name as long as names get, all of one character. */
  function LongName(c: byte): (name: Name)
    ensures |name| == 255 && name[0] == c
    ensures name != DOT && name != DOTDOT
  {
    seq(255, _ => c)
  }

  /** The largest file there can be, alone on a fresh disk: 141 blocks of 234 are taken. */
  ghost function NearlyFull(): Vol {
    FreshAcceptsWrite(LongName(0x78), false, Zeros(71680));
    Write(FreshVol(), T.ROOT, LongName(0x78), false, Zeros(71680)).0
  }

  /** The root then holds three records, and the last has 224 bytes to give. */
  function RootChain(): seq<Rec> {
    [Rec(2, 12, DOT, FT_DIR), Rec(2, 12, DOTDOT, FT_DIR), Rec(12, 488, LongName(0x78), FT_REG_FILE)]
  }

  lemma FirstFill()
    ensures Tiled(DotChain(2, 2))
    ensures BlockWithRoom([DotChain(2, 2)], EntryLen(255)) == 0
    ensures InsertInto([DotChain(2, 2)], 12, LongName(0x78), FT_REG_FILE) == [RootChain()]
  {
    var cs := [DotChain(2, 2)];
    DotTiled(2, 2);
    FirstFitUnique(cs[0], EntryLen(255), 1);
    BlockWithRoomUnique(cs, EntryLen(255), 0);
    assert SplitAt(cs[0], 1, 12, LongName(0x78), FT_REG_FILE) == RootChain();
  }

  /** What matters of it: 93 blocks and some inode left, and the root as just described. */
  ghost predicate Scarce(v: Vol) {
    && Inv(v) && FreeCount(v) == 93 && NextInode(v.inos) != 0
    && IsDirObj(v, T.ROOT) && v.objs[T.ROOT].chains == [RootChain()]
    && forall name: Name | name != DOT && name != DOTDOT && name != LongName(0x78) :: Lookup(v, T.ROOT, name) == 0
  }

  lemma FilledIsScarce(u: Vol, x: Name, data: seq<byte>)
    requires Inv(u) && Abs(u) == map[T.ROOT := T.TDir(T.ROOT, map[])]
    requires CanWrite(u, T.ROOT, x, false, data) && Write(u, T.ROOT, x, false, data).1 == 0
    requires |data| == 71680 && |u.used| == 22 && |u.inos| <= 11 && NextInode(u.inos) == 12
    requires IsDirObj(u, T.ROOT) && u.objs[T.ROOT].chains == [DotChain(2, 2)] && x == LongName(0x78)
    ensures Scarce(Write(u, T.ROOT, x, false, data).0)
  {
    FirstFill();
    hide VolOK, T.WfTree, Write, Lookup, NextBlock, NextInode, Abs, InsertInto, BlockWithRoom, DotChain, LongName,
         RootChain, CanWrite;
    WriteKeepsInv(u, T.ROOT, x, false, data);
    FilledRoot(u, x, data);
    FilledCount(u, x, data);
    FilledNames(u, x, data);
  }

  lemma NearlyFullIsScarce()
    ensures Scarce(NearlyFull())
  {
    var u, x, data := FreshVol(), LongName(0x78), Zeros(71680);
    FreshAcceptsWrite(x, false, data);
    FreshHasRoom(u);
    FreshSets();
    FreshInv();
    hide FreshVol, Inv, Write, NextBlock, NextInode, Abs, DotChain, LongName, Scarce, CanWrite, T.Attached, Roomy;
    FilledIsScarce(u, x, data);
  }

  lemma FilledCount(u: Vol, x: Name, data: seq<byte>)
    requires Inv(u) && CanWrite(u, T.ROOT, x, false, data) && Write(u, T.ROOT, x, false, data).1 == 0
    requires |data| == 71680 && |u.used| == 22 && |u.inos| <= 11
    requires IsDirObj(u, T.ROOT) && BlockWithRoom(u.objs[T.ROOT].chains, EntryLen(|x|)) == 0
      && |u.objs[T.ROOT].chains| == 1
    ensures FreeCount(Write(u, T.ROOT, x, false, data).0) == 93
    ensures NextInode(Write(u, T.ROOT, x, false, data).0.inos) != 0
  {
    WrittenInodes(u, T.ROOT, x, false, data);
    hide VolOK, T.WfTree, Write, NextBlock, NextInode, NewObj, BlockWithRoom, Blocks, Lookup, CanWrite;
    WriteTakes(u, T.ROOT, x, false, data);
    FreshTaken(u, data);
    WriteEffect(u, T.ROOT, x, false, data);
    SoundInodes(Write(u, T.ROOT, x, false, data).0);
  }

  lemma SoundInodes(v: Vol)
    requires VolOK(v)
    ensures NextInode(v.inos) == 0 ==> |v.inos| == INODES_PER_GROUP
  {
    InodesFull(v);
  }

  lemma FreshTaken(u: Vol, data: seq<byte>)
    requires VolOK(u) && |data| == 71680 && |u.used| == 22
    ensures |Blocks(NewObj(u, NextInode(u.inos), T.ROOT, false, data))| == 141
  {
    hide Blocks, NewObj, NextInode;
    TakenCount(u, NextInode(u.inos), T.ROOT, false, data);
  }

  lemma WrittenInodes(v: Vol, p: nat, name: Name, isDir: bool, data: seq<byte>)
    requires VolOK(v) && CanWrite(v, p, name, isDir, data) && Write(v, p, name, isDir, data).1 == 0
    ensures |Write(v, p, name, isDir, data).0.inos| <= |v.inos| + 1
  {
    hide VolOK, NextInode, NextBlock, Lookup, NewObj, Blocks, InsertInto, FreshChain, BlockWithRoom;
    WrittenFacts(v, p, name, isDir, data);
    WrittenVolume(v, p, name, isDir, data);
  }

  lemma FilledRoot(u: Vol, x: Name, data: seq<byte>)
    requires VolOK(u) && CanWrite(u, T.ROOT, x, false, data) && Write(u, T.ROOT, x, false, data).1 == 0
    requires IsDirObj(u, T.ROOT) && u.objs[T.ROOT].chains == [DotChain(2, 2)] && NextInode(u.inos) == 12
    requires x == LongName(0x78)
    ensures var w := Write(u, T.ROOT, x, false, data).0;
      IsDirObj(w, T.ROOT) && w.objs[T.ROOT].chains == [RootChain()]
  {
    FirstFill();
    WrittenFacts(u, T.ROOT, x, false, data);
    hide VolOK, Write, NextBlock, NextInode, NewObj, BlockWithRoom, Blocks, DotChain, InsertInto, LongName, RootChain;
    WrittenVolume(u, T.ROOT, x, false, data);
  }

  lemma FilledNames(u: Vol, x: Name, data: seq<byte>)
    requires Inv(u) && Abs(u) == map[T.ROOT := T.TDir(T.ROOT, map[])]
    requires CanWrite(u, T.ROOT, x, false, data)
    ensures forall name: Name | name != DOT && name != DOTDOT && name != x ::
      Lookup(Write(u, T.ROOT, x, false, data).0, T.ROOT, name) == 0
  {
    hide VolOK, T.WfTree, Write, Lookup, Abs;
    WriteFrame(u, T.ROOT, x, false, data);
    AbsDomain(u);
    forall name: Name | name != DOT && name != DOTDOT && name != x
      ensures Lookup(Write(u, T.ROOT, x, false, data).0, T.ROOT, name) == 0
    {
      LookupMatches(u, T.ROOT, name);
    }
  }

  lemma RootSlack()
    ensures SlackIn([RootChain()], 1) && !SlackIn([RootChain()], 255)
  {
    var cs := [RootChain()];
    FirstFitUnique(cs[0], EntryLen(1), 2);
    FirstFitUnique(cs[0], EntryLen(255), 3);
    BlockWithRoomUnique(cs, EntryLen(1), 0);
    BlockWithRoomUnique(cs, EntryLen(255), 1);
    SlackFound(cs, 1);
    SlackFound(cs, 255);
  }

  lemma RootAttached(v: Vol)
    ensures T.Attached(Abs(v), T.ROOT)
  {}

  lemma KeptShort(v: Vol, data: seq<byte>)
    requires VolOK(v) && FreeCount(v) == 93 && |data| == 51200
    ensures Prefix(Kept(v.used, data), 51200) == data[..47104]
  {
    hide NewFile;
    KeptPart(v, data);
    var kept := Kept(v.used, data);
    assert |kept| == 47104;
    assert kept == data[..47104];
  }

  /** A write that answers 0 and keeps only 92 of 100 blocks: `stat` tells the full length, `read` gives less. */
  lemma ShortWrite(v: Vol, name: Name, data: seq<byte>)
    requires Scarce(v) && |name| == 1 && name != DOT && |data| == 51200
    ensures CanWrite(v, T.ROOT, name, false, data)
    ensures var (w, code) := Write(v, T.ROOT, name, false, data);
      && code == 0
      && Stat(w, T.ROOT, name) == (0, 51200, false)
      && Read(w, T.ROOT, name, 51200) == (0, data[..47104])
  {
    RootSlack();
    assert name != LongName(0x78) && name != DOTDOT;
    hide VolOK, T.WfTree, Write, Lookup, NextInode, SlackIn, RootChain, LongName, Abs, Read, Stat, Kept, Prefix,
         Wanted, T.Attached;
    WriteAnswers(v, T.ROOT, name, false, data);
    KeptShort(v, data);
    RootAttached(v);
    WriteThenRead(v, T.ROOT, name, data, 51200);
  }

  lemma NoPlace(v: Vol, name: Name, data: seq<byte>)
    requires Scarce(v) && |name| == 255 && name != LongName(0x78) && |data| == 51200
    ensures CanWrite(v, T.ROOT, name, false, data) && !CanName(v, T.ROOT, name, false, data)
    ensures VolOK(v) && Lookup(v, T.ROOT, name) == 0 && NextInode(v.inos) != 0
  {
    RootSlack();
    assert name != DOT && name != DOTDOT;
    hide VolOK, T.WfTree, KindsOK, Lookup, NextInode, NextBlock, SlackIn, RootChain, LongName, Abs, FreeCount;
  }

  lemma LeakingAnswer(v: Vol, name: Name, data: seq<byte>)
    requires Scarce(v) && |name| == 255 && name != LongName(0x78) && |data| == 51200
    ensures CanWrite(v, T.ROOT, name, false, data)
    ensures var (w, code) := Write(v, T.ROOT, name, false, data);
      code == -1 && w != v && Leaked(v, T.ROOT, false, data, w)
    ensures Lookup(v, T.ROOT, name) == 0
  {
    NoPlace(v, name, data);
    hide VolOK, Write, Lookup, NextInode, LongName, Leaked, CanName, CanWrite, Scarce;
    WriteAnswers(v, T.ROOT, name, false, data);
  }

  /** A write that answers -1 and still takes an inode and every block that was left. */
  lemma LeakingWrite(v: Vol, name: Name, data: seq<byte>)
    requires Scarce(v) && |name| == 255 && name != LongName(0x78) && |data| == 51200
    ensures CanWrite(v, T.ROOT, name, false, data)
    ensures var (w, code) := Write(v, T.ROOT, name, false, data);
      && code == -1 && w != v
      && FreeCount(w) == 0 && |w.inos| == |v.inos| + 1
      && Lookup(w, T.ROOT, name) == 0
  {
    hide VolOK, T.WfTree, KindsOK, Write, Lookup, NextInode, RootChain, LongName, Leaked, FreeCount, CanWrite;
    LeakingAnswer(v, name, data);
    LeakedCount(v, T.ROOT, data, Write(v, T.ROOT, name, false, data).0);
    LeakedName(v, T.ROOT, name, data, Write(v, T.ROOT, name, false, data).0);
  }

  lemma LeakedCount(v: Vol, p: nat, data: seq<byte>, w: Vol)
    requires VolOK(v) && IsDirObj(v, p) && |data| < 0x1_0000_0000 && p < 0x1_0000_0000
    requires Leaked(v, p, false, data, w)
    ensures FreeCount(v) >= 0
    ensures FreeCount(w) == FreeCount(v) - Min(Wanted(false, data), FreeCount(v))
    ensures |w.inos| == |v.inos| + 1
  {
    hide NextInode, NextBlock, NewObj, Blocks, SetOf, Wanted, WellOwned, Exact, DirsOK;
    TakenCount(v, NextInode(v.inos), p, false, data);
    PlacedOK(v, p, false, data);
  }

  lemma LeakedName(v: Vol, p: nat, name: Name, data: seq<byte>, w: Vol)
    requires VolOK(v) && IsDirObj(v, p) && |data| < 0x1_0000_0000 && p < 0x1_0000_0000
    requires Leaked(v, p, false, data, w) && Lookup(v, p, name) == 0
    ensures Lookup(w, p, name) == 0
  {
    hide NextInode, NextBlock, NewObj, Blocks, DirKids;
    PlacedOK(v, p, false, data);
  }
}
