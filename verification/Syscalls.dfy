/** The file calls as user code makes them: one request after another, from the boot of the disk on. */
module Syscalls {
  import opened Bytes
  import opened RamDisks
  import opened Layout
  import opened Records
  import opened Directories
  import opened Volumes
  import opened Kinds
  import opened Operations
  import opened Invariants
  import opened Coupling
  import opened Format
  import opened DiskFacts
  import opened Space
  import opened Refinement
  import opened Accounts
  import opened Ext2Driver
  import T = Trees

  /** What a request leaves with its caller: the return code, what `stat` stores through its two pointers, and the
      whole buffer. */
  datatype Outcome = Outcome(code: int, size: int, isDir: bool, buffer: seq<byte>)

  /** The parent has a slot in the inode table, and the buffer is as large as the request says. */
  predicate Fits(op: Op, room: nat) {
    op.p <= INODES_PER_GROUP && (op.OpRead? || op.OpList? ==> op.n <= room)
  }

  /** As many bytes as the answer says replace the front of the buffer, and a reader who walks the whole blocks
      among them finds the names of the answer, each with its number and kind. */
  predicate Listed(before: seq<byte>, now: seq<byte>, a: Answer) {
    && |now| == |before| && a.size <= |now| && now[a.size..] == before[a.size..]
    && Items(ParseBlocks(now[..a.size], a.size / BLOCK_SIZE)) == a.names
  }

  /** The outcome is the answer: same code; the bytes of a file, or the names of a directory, at the front of an
      otherwise unchanged buffer; and after a successful `stat` kind and size. */
  predicate Told(op: Op, before: seq<byte>, r: Outcome, a: Answer) {
    && r.code == a.code
    && (if op.OpList? then Listed(before, r.buffer, a) else CopiedOut(r.buffer, before, a.bytes))
    && (op.OpStat? && r.code == 0 ==> r.isDir == a.isDir && r.size == a.size)
  }

  /** The buffer request `i` of a session finds. */
  function Before(first: seq<byte>, rs: seq<Outcome>, i: nat): seq<byte>
    requires i <= |rs|
  {
    if i == 0 then first else rs[i - 1].buffer
  }

  /** Every outcome of a session is its answer: the first over the buffer the session found, each later one over the
      buffer of the one before it. */
  predicate AllTold(ops: seq<Op>, first: seq<byte>, rs: seq<Outcome>, answers: seq<Answer>)
    decreases |ops|
  {
    && |rs| == |ops| == |answers|
    && (ops != [] ==>
          Told(ops[0], first, rs[0], answers[0]) && AllTold(ops[1..], rs[0].buffer, rs[1..], answers[1..]))
  }

  /** That is, outcome `i` is answer `i` over the buffer request `i` found. */
  lemma {:induction false} ToldAt(ops: seq<Op>, first: seq<byte>, rs: seq<Outcome>, answers: seq<Answer>, i: nat)
    requires AllTold(ops, first, rs, answers) && i < |ops|
    ensures |rs| == |ops| == |answers|
    ensures Told(ops[i], Before(first, rs, i), rs[i], answers[i])
    decreases i
  {
    hide Told;
    if i > 0 {
      ToldAt(ops[1..], rs[0].buffer, rs[1..], answers[1..], i - 1);
    }
  }

  lemma TellNext(ops: seq<Op>, first: seq<byte>, r: Outcome, rs: seq<Outcome>, a: Answer, answers: seq<Answer>)
    requires ops != [] && Told(ops[0], first, r, a) && AllTold(ops[1..], r.buffer, rs, answers)
    ensures AllTold(ops, first, [r] + rs, [a] + answers)
    ensures Before(first, [r] + rs, |rs| + 1) == Before(r.buffer, rs, |rs|)
  {
    hide Told;
    assert ([r] + rs)[1..] == rs && ([a] + answers)[1..] == answers;
  }

  /** The bytes `read_directory` copies are as many, and hold the names, that `Listing` says. */
  lemma ListingTold(fs: Ext2, p: nat, n: nat)
    requires fs.Ready()
    ensures var (code, size, names) := Listing(fs.vol, p, n);
      var bytes := DirBytes(fs.disk.blocks, fs.vol, p, n);
      && code == (if p == 0 then 3 else if IsDirObj(fs.vol, p) then 0 else 1)
      && |bytes| == size && Items(ParseBlocks(bytes, size / BLOCK_SIZE)) == names
  {
    hide RamDisk.Valid, WellOwned, Exact, DirsOK, T.WfTree, Repr, DirBytes, ParseBlocks, Pads;
    if IsDirObj(fs.vol, p) {
      WritableParent(fs.vol, p);
      ListingDecodes(fs.disk.blocks, fs.vol, p, n);
      DirLength(fs.vol, p);
    } else {
      NothingListed(fs.disk.blocks, fs.vol, p, n);
    }
  }

  lemma DirLength(v: Vol, p: nat)
    requires VolOK(v) && IsDirObj(v, p)
    ensures |v.objs[p].blks| == |v.objs[p].chains|
  {}

  lemma NothingListed(bl: seq<Block>, v: Vol, p: nat, n: nat)
    requires !IsDirObj(v, p)
    ensures DirBytes(bl, v, p, n) == [] && Items(ParseBlocks([], 0)) == map[]
  {}

  lemma TellListing(before: seq<byte>, now: seq<byte>, bytes: seq<byte>, a: Answer)
    requires CopiedOut(now, before, bytes) && |bytes| == a.size
    requires Items(ParseBlocks(bytes, a.size / BLOCK_SIZE)) == a.names
    ensures Listed(before, now, a)
  {
    hide Items, ParseBlocks;
    assert now[..a.size] == bytes;
  }

  /** The file cases of the system call handler. */
  method Serve(fs: Ext2, op: Op, out: array<byte>) returns (r: Outcome, ghost answer: Answer)
    requires fs.Ready() && Legal(fs.vol, op) && Fits(op, out.Length)
    requires out != fs.disk.image
    modifies fs`sb, fs`gd, fs`vol, fs.disk, fs.disk.image, out
    ensures fs.Ready()
    ensures (fs.vol, answer) == VStep(old(fs.vol), op)
    ensures r.buffer == out[..] && Told(op, old(out[..]), r, answer)
    ensures op.OpList? ==> CopiedOut(out[..], old(out[..]), DirBytes(fs.disk.blocks, fs.vol, op.p, op.n))
  {
    hide Ext2.Synced, Inv, Write, Delete, Read, Stat, Listing, Abs, T.Attached, CanWrite, DirBytes, Items, ParseBlocks;
    match op
    case OpWrite(p, name, isDir, data) =>
      var code := fs.Write(p, name, isDir, data);
      r, answer := Outcome(code, 0, false, out[..]), Code(code);
    case OpDelete(p, name, isDir) =>
      var code := fs.Delete(p, name, isDir);
      r, answer := Outcome(code, 0, false, out[..]), Code(code);
    case OpRead(p, name, n) =>
      ghost var bytes := Read(fs.vol, p, name, n).1;
      var code := fs.Read(p, name, n, out);
      r, answer := Outcome(code, 0, false, out[..]), Code(code).(bytes := bytes);
    case OpStat(p, name) =>
      var code, size, isDir := fs.Stat(p, name);
      r, answer := Outcome(code, size, isDir, out[..]), Code(code).(isDir := isDir, size := size);
    case OpList(p, n) =>
      var code := fs.ReadDirectory(p, n, out);
      r := Outcome(code, 0, false, out[..]);
      ghost var (c, size, names) := Listing(fs.vol, p, n);
      answer := Code(c).(isDir := c == 0, size := size, names := names);
      ListingTold(fs, p, n);
      TellListing(old(out[..]), out[..], DirBytes(fs.disk.blocks, fs.vol, p, n), answer);
  }

  /** The answers and the final volume are those of the volume's run, which is a run of the tree with its accounts,
      and with room a run of the plain tree, but for what only the number of a directory's blocks decides. */
  ghost predicate Served(v: Vol, ops: seq<Op>, w: Vol, answers: seq<Answer>)
    requires LegalRun(v, ops)
  {
    && (w, answers) == VRun(v, ops)
    && FreeCount(v) >= 0 && FreeCount(w) >= 0 && ARun(AccountOf(v), ops) == (AccountOf(w), answers)
    && (RoomyRun(v, ops) ==> TRun(Abs(v), ops) == (Abs(w), Plains(answers)))
  }

  /** Any sequence of requests: what every one of them leaves with its caller is its answer in the run. */
  method Session(fs: Ext2, ops: seq<Op>, out: array<byte>) returns (rs: seq<Outcome>, ghost answers: seq<Answer>)
    requires fs.Ready() && LegalRun(fs.vol, ops)
    requires forall i | 0 <= i < |ops| :: Fits(ops[i], out.Length)
    requires out != fs.disk.image
    modifies fs`sb, fs`gd, fs`vol, fs.disk, fs.disk.image, out
    ensures fs.Ready()
    ensures Served(old(fs.vol), ops, fs.vol, answers)
    ensures AllTold(ops, old(out[..]), rs, answers) && out[..] == Before(old(out[..]), rs, |rs|)
    decreases |ops|
  {
    hide Ext2.Synced, Inv, Legal, VStep, Roomy, TStep, Abs, Told, ARun, AccountOf;
    ghost var v, first := fs.vol, out[..];
    if ops == [] {
      rs, answers := [], [];
    } else {
      var r, answer := Serve(fs, ops[0], out);
      var rest, others := Session(fs, ops[1..], out);
      TellNext(ops, first, r, rest, answer, others);
      rs, answers := [r] + rest, [answer] + others;
    }
    RunAccounts(v, ops);
    if RoomyRun(v, ops) {
      RunRefines(v, ops);
    }
  }

  ghost predicate Blank(disk: RamDisk)
    reads disk, disk.image
  {
    disk.Valid() && |disk.blocks| >= BLOCKS_PER_GROUP && disk.blocks[BOOT_SECTOR] != Signature()
  }

  /** From a disk without the signature: boot formats it, and whatever is then asked is answered as by a tree
      that starts with a bare root. */
  method BootAndServe(disk: RamDisk, ops: seq<Op>, out: array<byte>)
    returns (fs: Ext2, rs: seq<Outcome>, ghost answers: seq<Answer>)
    requires Blank(disk) && LegalRun(FreshVol(), ops)
    requires forall i | 0 <= i < |ops| :: Fits(ops[i], out.Length)
    requires out != disk.image
    modifies disk, disk.image, out
    ensures fs.disk == disk && fs.Ready()
    ensures Served(FreshVol(), ops, fs.vol, answers)
    ensures Abs(FreshVol()) == map[T.ROOT := T.TDir(T.ROOT, map[])]
    ensures AllTold(ops, old(out[..]), rs, answers) && out[..] == Before(old(out[..]), rs, |rs|)
  {
    hide RamDisk.Valid, Ext2.Synced, Inv, FreshVol, Signature, LegalRun, Served, AllTold, Abs;
    fs := new Ext2(disk);
    FreshInv();
    fs.Initialize(FreshVol());
    rs, answers := Session(fs, ops, out);
  }
}
