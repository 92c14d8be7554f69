/** Directory blocks: chains of variable-length records and the operations on them. */
module Records {
  import opened Bytes

  type Name = seq<byte>

  /** One directory record; a record whose inode is 0 is dead. */
  datatype Rec = Rec(ino: u32, len: u16, name: Name, ftype: byte)

  const DOT: Name := [46]
  const DOTDOT: Name := [46, 46]
  const FT_REG_FILE: byte := 1
  const FT_DIR: byte := 2

  /** `get_entry_record_len`: header plus name, rounded up to a multiple of 4. */
  function EntryLen(nameLen: nat): nat {
    (8 + nameLen + 3) / 4 * 4
  }

  predicate RecOK(r: Rec) {
    |r.name| <= 255 && r.len % 4 == 0 && EntryLen(|r.name|) <= r.len
  }

  // ---------------------------------------------------------------- bytes of a record

  /** The bytes at `off` are record `r`; bytes between the name and `rec_len` are unspecified. */
  ghost predicate RecAt(b: Block, off: nat, r: Rec) {
    && off + 8 + |r.name| <= BLOCK_SIZE
    && Get32(b, off) == r.ino
    && Get16(b, off + 4) == r.len
    && b[off + 6] == |r.name|
    && b[off + 7] == r.ftype
    && b[off + 8..off + 8 + |r.name|] == r.name
  }

  /** The records `rs` tile bytes `lo` to `hi` of the block exactly. */
  ghost predicate Seg(b: Block, lo: nat, rs: seq<Rec>, hi: nat)
    decreases |rs|
  {
    if rs == [] then lo == hi
    else
      && RecOK(rs[0])
      && RecAt(b, lo, rs[0])
      && lo + rs[0].len <= hi <= BLOCK_SIZE
      && Seg(b, lo + rs[0].len, rs[1..], hi)
  }

  function Span(rs: seq<Rec>): nat {
    if rs == [] then 0 else rs[0].len + Span(rs[1..])
  }

  lemma RecAtFrame(b: Block, c: Block, off: nat, r: Rec)
    requires RecAt(b, off, r)
    requires forall i | off <= i < off + 8 + |r.name| :: b[i] == c[i]
    ensures RecAt(c, off, r)
  {
    assert b[off] == c[off] && b[off + 1] == c[off + 1] && b[off + 2] == c[off + 2] && b[off + 3] == c[off + 3];
    assert b[off + 4] == c[off + 4] && b[off + 5] == c[off + 5];
    assert b[off + 8..off + 8 + |r.name|] == c[off + 8..off + 8 + |r.name|];
  }

  lemma {:induction false} SegFrame(b: Block, c: Block, lo: nat, rs: seq<Rec>, hi: nat)
    requires Seg(b, lo, rs, hi)
    requires forall i | lo <= i < hi :: b[i] == c[i]
    ensures Seg(c, lo, rs, hi)
    decreases |rs|
  {
    hide RecAt;
    if rs != [] {
      RecAtFrame(b, c, lo, rs[0]);
      SegFrame(b, c, lo + rs[0].len, rs[1..], hi);
    }
  }

  lemma {:induction false} SegConcat(b: Block, lo: nat, xs: seq<Rec>, mid: nat, ys: seq<Rec>, hi: nat)
    requires Seg(b, lo, xs, mid) && Seg(b, mid, ys, hi) && hi <= BLOCK_SIZE
    ensures Seg(b, lo, xs + ys, hi) && mid <= hi
    decreases |xs|
  {
    hide RecAt, RecOK;
    SegSpan(b, mid, ys, hi);
    if xs == [] {
      assert xs + ys == ys;
    } else {
      SegConcat(b, lo + xs[0].len, xs[1..], mid, ys, hi);
      assert (xs + ys)[1..] == xs[1..] + ys;
      SegSpan(b, lo + xs[0].len, xs[1..], mid);
    }
  }

  lemma {:induction false} SegSpan(b: Block, lo: nat, rs: seq<Rec>, hi: nat)
    requires Seg(b, lo, rs, hi)
    ensures hi == lo + Span(rs)
    decreases |rs|
  {
    hide RecAt, RecOK;
    if rs != [] {
      SegSpan(b, lo + rs[0].len, rs[1..], hi);
    }
  }

  lemma {:induction false} SegSplit(b: Block, lo: nat, xs: seq<Rec>, ys: seq<Rec>, hi: nat)
    requires Seg(b, lo, xs + ys, hi)
    ensures Seg(b, lo, xs, lo + Span(xs)) && Seg(b, lo + Span(xs), ys, hi)
    ensures lo + Span(xs) <= hi
    decreases |xs|
  {
    hide RecAt, RecOK;
    if xs == [] {
      assert xs + ys == ys;
      SegSpan(b, lo, ys, hi);
    } else {
      assert (xs + ys)[1..] == xs[1..] + ys;
      SegSplit(b, lo + xs[0].len, xs[1..], ys, hi);
    }
  }

  lemma SegOne(b: Block, lo: nat, r: Rec)
    requires RecOK(r) && RecAt(b, lo, r) && lo + r.len <= BLOCK_SIZE
    ensures Seg(b, lo, [r], lo + r.len)
  {
    assert [r][1..] == [];
  }

  /** The record at position `k` of a chain and the offset it starts at. */
  lemma SegIndex(b: Block, rs: seq<Rec>, k: nat)
    requires Seg(b, 0, rs, BLOCK_SIZE) && k < |rs|
    ensures RecOK(rs[k]) && RecAt(b, Span(rs[..k]), rs[k])
    ensures Span(rs[..k]) + rs[k].len == Span(rs[..k + 1]) <= BLOCK_SIZE
  {
    hide RecAt, RecOK;
    SegPrefix(b, rs, k);
    SegPrefix(b, rs, k + 1);
    assert rs[k..][0] == rs[k];
    SpanSnoc(rs[..k], rs[k]);
    assert rs[..k] + [rs[k]] == rs[..k + 1];
  }

  lemma {:induction false} SpanSnoc(xs: seq<Rec>, r: Rec)
    ensures Span(xs + [r]) == Span(xs) + r.len
    decreases |xs|
  {
    if xs == [] {
      assert [] + [r] == [r];
    } else {
      SpanSnoc(xs[1..], r);
      assert (xs + [r])[1..] == xs[1..] + [r];
    }
  }

  /** Rewriting the bytes of records `i..j` as the chain `ms` rewrites exactly those records. */
  lemma SegReplace(b: Block, c: Block, rs: seq<Rec>, i: nat, j: nat, ms: seq<Rec>)
    requires Seg(b, 0, rs, BLOCK_SIZE) && i <= j <= |rs|
    requires Seg(c, Span(rs[..i]), ms, Span(rs[..j]))
    requires forall x | 0 <= x < BLOCK_SIZE && !(Span(rs[..i]) <= x < Span(rs[..j])) :: b[x] == c[x]
    ensures Seg(c, 0, rs[..i] + ms + rs[j..], BLOCK_SIZE)
  {
    hide Seg, RecAt, RecOK;
    var lo, hi := Span(rs[..i]), Span(rs[..j]);
    SegPrefix(b, rs, i);
    SegPrefix(b, rs, j);
    SegFrame(b, c, 0, rs[..i], lo);
    SegFrame(b, c, hi, rs[j..], BLOCK_SIZE);
    SegConcat(c, 0, rs[..i], lo, ms, hi);
    SegConcat(c, 0, rs[..i] + ms, hi, rs[j..], BLOCK_SIZE);
  }

  lemma SegPrefix(b: Block, rs: seq<Rec>, i: nat)
    requires Seg(b, 0, rs, BLOCK_SIZE) && i <= |rs|
    ensures Seg(b, 0, rs[..i], Span(rs[..i])) && Seg(b, Span(rs[..i]), rs[i..], BLOCK_SIZE)
    ensures Span(rs[..i]) <= BLOCK_SIZE
  {
    hide Seg;
    assert rs == rs[..i] + rs[i..];
    SegSplit(b, 0, rs[..i], rs[i..], BLOCK_SIZE);
  }

  /** A chain is determined by the bytes of its block. */
  lemma {:induction false} SegUnique(b: Block, lo: nat, xs: seq<Rec>, ys: seq<Rec>, hi: nat)
    requires Seg(b, lo, xs, hi) && Seg(b, lo, ys, hi)
    ensures xs == ys
    decreases |xs|
  {
    if xs != [] && ys != [] {
      assert xs[0] == ys[0];
      SegUnique(b, lo + xs[0].len, xs[1..], ys[1..], hi);
      assert xs == [xs[0]] + xs[1..] && ys == [ys[0]] + ys[1..];
    } else if xs != [] {
      SegSpan(b, lo, xs, hi);
    } else if ys != [] {
      SegSpan(b, lo, ys, hi);
    }
  }

  /** Fills in the fields of the record at `off`, as every writer of the directory code does. */
  function PutRec(b: Block, off: nat, r: Rec): (c: Block)
    requires |r.name| <= 255 && off + 8 + |r.name| <= BLOCK_SIZE
    ensures RecAt(c, off, r)
    ensures forall i | 0 <= i < BLOCK_SIZE && !(off <= i < off + 8 + |r.name|) :: c[i] == b[i]
  {
    var c1 := Splice(b, off, Le32(r.ino));
    var c2 := Splice(c1, off + 4, Le16(r.len));
    var c3 := c2[off + 6 := |r.name|][off + 7 := r.ftype];
    var c := Splice(c3, off + 8, r.name);
    assert c[off..off + 4] == Le32(r.ino);
    Get32OfLe32(c, off, r.ino);
    assert c[off + 4..off + 6] == Le16(r.len);
    Get16OfLe16(c, off + 4, r.len);
    c
  }

  // ---------------------------------------------------------------- names to inodes

  predicate Live(r: Rec) {
    r.ino != 0
  }

  /** The directory as a map: each name to the inode of its first live record. */
  function Kids(rs: seq<Rec>): map<Name, u32> {
    if rs == [] then map[]
    else if Live(rs[0]) then Kids(rs[1..])[rs[0].name := rs[0].ino]
    else Kids(rs[1..])
  }

  /** No name occurs in two live records. */
  predicate Distinct(rs: seq<Rec>) {
    rs == [] || ((Live(rs[0]) ==> rs[0].name !in Kids(rs[1..])) && Distinct(rs[1..]))
  }

  lemma {:induction false} KidsConcat(xs: seq<Rec>, ys: seq<Rec>)
    ensures Kids(xs + ys) == Kids(ys) + Kids(xs)
    decreases |xs|
  {
    if xs == [] {
      assert xs + ys == ys;
    } else {
      KidsConcat(xs[1..], ys);
      assert (xs + ys)[1..] == xs[1..] + ys;
    }
  }

  lemma {:induction false} DistinctConcat(xs: seq<Rec>, ys: seq<Rec>)
    ensures Distinct(xs + ys) <==> Distinct(xs) && Distinct(ys) && Kids(xs).Keys !! Kids(ys).Keys
    decreases |xs|
  {
    if xs == [] {
      assert xs + ys == ys;
    } else {
      DistinctConcat(xs[1..], ys);
      KidsConcat(xs[1..], ys);
      assert (xs + ys)[1..] == xs[1..] + ys;
    }
  }

  /** One record more or less in the middle of a chain, seen from the map. */
  lemma KidsMiddle(xs: seq<Rec>, ms: seq<Rec>, ys: seq<Rec>)
    ensures Kids(xs + ms + ys) == Kids(ys) + Kids(ms) + Kids(xs)
    ensures Distinct(xs + ms + ys) <==>
      && Distinct(xs) && Distinct(ms) && Distinct(ys)
      && Kids(xs).Keys !! Kids(ms).Keys
      && Kids(xs).Keys !! Kids(ys).Keys
      && Kids(ms).Keys !! Kids(ys).Keys
  {
    KidsConcat(xs + ms, ys);
    KidsConcat(xs, ms);
    DistinctConcat(xs + ms, ys);
    DistinctConcat(xs, ms);
    assert Kids(ys) + (Kids(ms) + Kids(xs)) == Kids(ys) + Kids(ms) + Kids(xs);
  }

  // ---------------------------------------------------------------- first fit and split

  predicate HasRoom(r: Rec, need: nat) {
    r.len >= EntryLen(|r.name|) + need
  }

  /** Position of the first record with room for `need` more bytes, or `|rs|`. */
  function FirstFit(rs: seq<Rec>, need: nat): (k: nat)
    ensures k <= |rs|
    ensures k < |rs| ==> HasRoom(rs[k], need)
    ensures forall j | 0 <= j < k :: !HasRoom(rs[j], need)
  {
    if rs == [] then 0
    else if HasRoom(rs[0], need) then 0
    else 1 + FirstFit(rs[1..], need)
  }

  lemma FirstFitUnique(rs: seq<Rec>, need: nat, k: nat)
    requires k <= |rs|
    requires k < |rs| ==> HasRoom(rs[k], need)
    requires forall j | 0 <= j < k :: !HasRoom(rs[j], need)
    ensures FirstFit(rs, need) == k
  {}

  /** The record is long enough for its own name and a new record with a name of `n` bytes: each takes eight bytes
      and its name, in multiples of four. */
  predicate RoomFor(r: Rec, n: nat) {
    r.len - (8 + |r.name| + 3) / 4 * 4 >= (8 + n + 3) / 4 * 4
  }

  predicate Slack(rs: seq<Rec>, n: nat) {
    exists r | r in rs :: RoomFor(r, n)
  }

  lemma RoomForIs(r: Rec, n: nat)
    ensures RoomFor(r, n) <==> HasRoom(r, EntryLen(n))
  {}

  lemma FitIffSlack(rs: seq<Rec>, n: nat)
    ensures FirstFit(rs, EntryLen(n)) < |rs| <==> Slack(rs, n)
  {
    hide RoomFor, HasRoom, EntryLen;
    forall r | r in rs ensures RoomFor(r, n) <==> HasRoom(r, EntryLen(n)) {
      RoomForIs(r, n);
    }
    var k := FirstFit(rs, EntryLen(n));
    assert k < |rs| ==> rs[k] in rs;
  }

  /** What is left of a record after its slack is given away. */
  function Trimmed(r: Rec): Rec
    requires RecOK(r)
  {
    r.(len := EntryLen(|r.name|))
  }

  function Carved(r: Rec, ino: u32, name: Name, ftype: byte): Rec
    requires RecOK(r)
  {
    Rec(ino, r.len - EntryLen(|r.name|), name, ftype)
  }

  function SplitAt(rs: seq<Rec>, k: nat, ino: u32, name: Name, ftype: byte): seq<Rec>
    requires k < |rs| && RecOK(rs[k])
  {
    rs[..k] + [Trimmed(rs[k]), Carved(rs[k], ino, name, ftype)] + rs[k + 1..]
  }

  /** Cuts the record at `off` down to `actual` bytes and starts a new one in the rest. */
  function SplitRaw(b: Block, off: nat, actual: nat, remaining: u16, ino: u32, name: Name, ftype: byte): Block
    requires |name| <= 255 && 8 <= actual && off + actual + 8 + |name| <= BLOCK_SIZE
  {
    var c := Splice(b, off + 4, Le16(actual));
    PutRec(c, off + actual, Rec(ino, remaining, name, ftype))
  }

  function SplitBytes(b: Block, off: nat, r: Rec, ino: u32, name: Name, ftype: byte): Block
    requires RecOK(r) && |name| <= 255 && HasRoom(r, EntryLen(|name|)) && off + r.len <= BLOCK_SIZE
  {
    SplitRaw(b, off, EntryLen(|r.name|), r.len - EntryLen(|r.name|), ino, name, ftype)
  }

  /** Overwriting `rec_len` changes nothing else of the record. */
  lemma SetLenRec(b: Block, off: nat, r: Rec, len: u16)
    requires RecAt(b, off, r)
    ensures RecAt(Splice(b, off + 4, Le16(len)), off, r.(len := len))
  {
    var c: Block := Splice(b, off + 4, Le16(len));
    assert c[off + 4..off + 6] == Le16(len);
    Get16OfLe16(c, off + 4, len);
    assert c[off + 8..off + 8 + |r.name|] == b[off + 8..off + 8 + |r.name|];
  }

  /** The two records of a split are well-formed and as long as the one before. */
  lemma SplitRecsOK(r: Rec, ino: u32, name: Name, ftype: byte)
    requires RecOK(r) && |name| <= 255 && HasRoom(r, EntryLen(|name|))
    ensures RecOK(Trimmed(r)) && RecOK(Carved(r, ino, name, ftype))
    ensures Trimmed(r).len == EntryLen(|r.name|)
    ensures Trimmed(r).len + Carved(r, ino, name, ftype).len == r.len
  {}

  lemma SplitBytesRecs(b: Block, off: nat, r: Rec, ino: u32, name: Name, ftype: byte)
    requires RecOK(r) && |name| <= 255 && HasRoom(r, EntryLen(|name|)) && off + r.len <= BLOCK_SIZE
    requires RecAt(b, off, r)
    ensures var c := SplitBytes(b, off, r, ino, name, ftype);
      && RecAt(c, off, Trimmed(r))
      && RecAt(c, off + EntryLen(|r.name|), Carved(r, ino, name, ftype))
      && forall i | 0 <= i < BLOCK_SIZE && !(off <= i < off + r.len) :: c[i] == b[i]
  {
    hide Get32, Get16, Le16, Le32;
    SetLenRec(b, off, r, EntryLen(|r.name|));
    var c1 := Splice(b, off + 4, Le16(EntryLen(|r.name|)));
    var c := SplitBytes(b, off, r, ino, name, ftype);
    RecAtFrame(c1, c, off, Trimmed(r));
  }

  /** Splitting a record with room keeps the block tiled and holds exactly the split chain. */
  lemma SplitKeepsChain(b: Block, rs: seq<Rec>, k: nat, ino: u32, name: Name, ftype: byte)
    requires Seg(b, 0, rs, BLOCK_SIZE) && k < |rs| && RecOK(rs[k])
    requires |name| <= 255 && HasRoom(rs[k], EntryLen(|name|))
    ensures Span(rs[..k]) + rs[k].len <= BLOCK_SIZE
    ensures Seg(SplitBytes(b, Span(rs[..k]), rs[k], ino, name, ftype), 0, SplitAt(rs, k, ino, name, ftype), BLOCK_SIZE)
  {
    hide Seg, RecAt, SplitBytes, RecOK, EntryLen, Trimmed, Carved, HasRoom;
    SegIndex(b, rs, k);
    var o, r := Span(rs[..k]), rs[k];
    SplitRecsOK(r, ino, name, ftype);
    SplitBytesRecs(b, o, r, ino, name, ftype);
    var c := SplitBytes(b, o, r, ino, name, ftype);
    SegTwo(c, o, Trimmed(r), Carved(r, ino, name, ftype));
    SegReplace(b, c, rs, k, k + 1, [Trimmed(r), Carved(r, ino, name, ftype)]);
  }

  lemma SegTwo(b: Block, lo: nat, r: Rec, s: Rec)
    requires RecOK(r) && RecAt(b, lo, r) && RecOK(s) && RecAt(b, lo + r.len, s)
    requires lo + r.len + s.len <= BLOCK_SIZE
    ensures Seg(b, lo, [r, s], lo + r.len + s.len)
  {
    assert [r, s][1..] == [s] && [s][1..] == [];
  }

  // ---------------------------------------------------------------- removal

  /** Position of the first live record named `name`, or `|rs|`. */
  function IndexOf(rs: seq<Rec>, name: Name): (k: nat)
    ensures k <= |rs|
    ensures k < |rs| ==> Live(rs[k]) && rs[k].name == name
    ensures forall j | 0 <= j < k :: !(Live(rs[j]) && rs[j].name == name)
  {
    if rs == [] then 0
    else if Live(rs[0]) && rs[0].name == name then 0
    else 1 + IndexOf(rs[1..], name)
  }

  lemma IndexOfUnique(rs: seq<Rec>, name: Name, k: nat)
    requires k <= |rs|
    requires k < |rs| ==> Live(rs[k]) && rs[k].name == name
    requires forall j | 0 <= j < k :: !(Live(rs[j]) && rs[j].name == name)
    ensures IndexOf(rs, name) == k
  {}

  lemma {:induction false} IndexOfKids(rs: seq<Rec>, name: Name)
    ensures IndexOf(rs, name) < |rs| <==> name in Kids(rs)
    ensures name in Kids(rs) ==> Kids(rs)[name] == rs[IndexOf(rs, name)].ino
    decreases |rs|
  {
    if rs != [] {
      IndexOfKids(rs[1..], name);
    }
  }

  function Killed(r: Rec): Rec {
    r.(ino := 0)
  }

  function Merged(p: Rec, r: Rec): Rec
    requires p.len + r.len <= BLOCK_SIZE
  {
    p.(len := p.len + r.len)
  }

  /** The head of a block is marked dead; any other record is absorbed by the one before it. */
  function RemoveAt(rs: seq<Rec>, k: nat): seq<Rec>
    requires k < |rs| && (k > 0 ==> rs[k - 1].len + rs[k].len <= BLOCK_SIZE)
  {
    if k == 0 then [Killed(rs[0])] + rs[1..]
    else rs[..k - 1] + [Merged(rs[k - 1], rs[k])] + rs[k + 1..]
  }

  lemma KillRec(b: Block, r: Rec)
    requires RecAt(b, 0, r)
    ensures RecAt(Splice(b, 0, Le32(0)), 0, Killed(r))
  {
    var c: Block := Splice(b, 0, Le32(0));
    assert c[0..4] == Le32(0);
    Get32OfLe32(c, 0, 0);
    assert c[8..8 + |r.name|] == b[8..8 + |r.name|];
  }

  /** Marking the head record dead keeps the block tiled. */
  lemma KillKeepsChain(b: Block, rs: seq<Rec>)
    requires Seg(b, 0, rs, BLOCK_SIZE) && rs != []
    ensures Seg(Splice(b, 0, Le32(0)), 0, RemoveAt(rs, 0), BLOCK_SIZE)
  {
    hide RecAt;
    var c: Block := Splice(b, 0, Le32(0));
    KillRec(b, rs[0]);
    SegFrame(b, c, rs[0].len, rs[1..], BLOCK_SIZE);
    assert ([Killed(rs[0])] + rs[1..])[1..] == rs[1..];
  }

  function MergeBytes(b: Block, off: nat, p: Rec, r: Rec): Block
    requires RecOK(p) && off + p.len + r.len <= BLOCK_SIZE
  {
    Splice(b, off + 4, Le16(p.len + r.len))
  }

  lemma MergedOK(p: Rec, r: Rec)
    requires RecOK(p) && RecOK(r) && p.len + r.len <= BLOCK_SIZE
    ensures RecOK(Merged(p, r))
  {}

  lemma MergeBytesRec(b: Block, off: nat, p: Rec, r: Rec)
    requires RecOK(p) && RecOK(r) && off + p.len + r.len <= BLOCK_SIZE
    requires RecAt(b, off, p)
    ensures RecOK(Merged(p, r)) && RecAt(MergeBytes(b, off, p, r), off, Merged(p, r))
    ensures forall i | 0 <= i < BLOCK_SIZE && !(off <= i < off + p.len + r.len) :: MergeBytes(b, off, p, r)[i] == b[i]
  {
    MergedOK(p, r);
    hide RecAt, RecOK;
    SetLenRec(b, off, p, p.len + r.len);
  }

  /** Absorbing a record into the one before it keeps the block tiled. */
  lemma MergeKeepsChain(b: Block, rs: seq<Rec>, k: nat)
    requires Seg(b, 0, rs, BLOCK_SIZE) && 0 < k < |rs|
    ensures RecOK(rs[k - 1]) && Span(rs[..k - 1]) + rs[k - 1].len + rs[k].len <= BLOCK_SIZE
    ensures Seg(MergeBytes(b, Span(rs[..k - 1]), rs[k - 1], rs[k]), 0, RemoveAt(rs, k), BLOCK_SIZE)
  {
    hide Seg, RecAt, RecOK, MergeBytes;
    SegIndex(b, rs, k - 1);
    SegIndex(b, rs, k);
    var o, p, r := Span(rs[..k - 1]), rs[k - 1], rs[k];
    MergeBytesRec(b, o, p, r);
    SegOne(MergeBytes(b, o, p, r), o, Merged(p, r));
    SegReplace(b, MergeBytes(b, o, p, r), rs, k - 1, k + 1, [Merged(p, r)]);
  }

  // ---------------------------------------------------------------- the map under add and remove

  lemma KidsOne(r: Rec)
    ensures Kids([r]) == if Live(r) then map[r.name := r.ino] else map[]
    ensures Distinct([r])
  {
    assert [r][1..] == [];
  }

  /** Splitting adds exactly one name. */
  lemma SplitKids(rs: seq<Rec>, k: nat, ino: u32, name: Name, ftype: byte)
    requires k < |rs| && RecOK(rs[k]) && ino != 0
    requires name !in Kids(rs)
    ensures Kids(SplitAt(rs, k, ino, name, ftype)) == Kids(rs)[name := ino]
    ensures Distinct(rs) ==> Distinct(SplitAt(rs, k, ino, name, ftype))
  {
    var xs, ys := rs[..k], rs[k + 1..];
    var t, c := Trimmed(rs[k]), Carved(rs[k], ino, name, ftype);
    assert rs == xs + [rs[k]] + ys;
    LengthIrrelevant(xs, rs[k], t, ys);
    InsertKids(xs + [t], c, ys);
    assert SplitAt(rs, k, ino, name, ftype) == xs + [t] + [c] + ys;
  }

  lemma InsertKids(xs: seq<Rec>, r: Rec, ys: seq<Rec>)
    requires Live(r) && r.name !in Kids(xs + ys)
    ensures Kids(xs + [r] + ys) == Kids(xs + ys)[r.name := r.ino]
    ensures Distinct(xs + ys) ==> Distinct(xs + [r] + ys)
  {
    KidsMiddle(xs, [r], ys);
    KidsOne(r);
    KidsConcat(xs, ys);
    DistinctConcat(xs, ys);
  }

  /** Removing the first record of a name removes exactly that name. */
  lemma RemoveKids(rs: seq<Rec>, name: Name)
    requires Distinct(rs) && name in Kids(rs)
    requires forall j | 0 < j < |rs| :: rs[j - 1].len + rs[j].len <= BLOCK_SIZE
    ensures IndexOf(rs, name) < |rs|
    ensures Kids(RemoveAt(rs, IndexOf(rs, name))) == Kids(rs) - {name}
    ensures Distinct(RemoveAt(rs, IndexOf(rs, name)))
  {
    hide Kids, Distinct, IndexOf;
    IndexOfKids(rs, name);
    var k := IndexOf(rs, name);
    if k == 0 {
      RemoveHeadKids(rs);
    } else {
      assert rs == rs[..k - 1] + [rs[k - 1]] + [rs[k]] + rs[k + 1..];
      AbsorbKids(rs[..k - 1], rs[k - 1], rs[k], rs[k + 1..]);
    }
  }

  lemma RemoveHeadKids(rs: seq<Rec>)
    requires Distinct(rs) && rs != [] && Live(rs[0])
    ensures Kids(RemoveAt(rs, 0)) == Kids(rs) - {rs[0].name}
    ensures Distinct(RemoveAt(rs, 0))
  {
    assert RemoveAt(rs, 0)[1..] == rs[1..];
  }

  lemma DropKids(xs: seq<Rec>, r: Rec, ys: seq<Rec>)
    requires Distinct(xs + [r] + ys) && Live(r)
    ensures Kids(xs + ys) == Kids(xs + [r] + ys) - {r.name}
    ensures Distinct(xs + ys)
  {
    KidsMiddle(xs, [r], ys);
    KidsOne(r);
    KidsConcat(xs, ys);
    DistinctConcat(xs, ys);
  }

  lemma LengthIrrelevant(ws: seq<Rec>, p: Rec, q: Rec, ys: seq<Rec>)
    requires q == p.(len := q.len)
    ensures Kids(ws + [p] + ys) == Kids(ws + [q] + ys)
    ensures Distinct(ws + [p] + ys) <==> Distinct(ws + [q] + ys)
  {
    KidsMiddle(ws, [p], ys);
    KidsMiddle(ws, [q], ys);
    KidsOne(p);
    KidsOne(q);
  }

  lemma AbsorbKids(ws: seq<Rec>, p: Rec, r: Rec, ys: seq<Rec>)
    requires Distinct(ws + [p] + [r] + ys) && Live(r) && p.len + r.len <= BLOCK_SIZE
    ensures Kids(ws + [Merged(p, r)] + ys) == Kids(ws + [p] + [r] + ys) - {r.name}
    ensures Distinct(ws + [Merged(p, r)] + ys)
  {
    hide Kids, Distinct;
    DropKids(ws + [p], r, ys);
    LengthIrrelevant(ws, p, Merged(p, r), ys);
  }
}
