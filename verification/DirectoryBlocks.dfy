/** The scan loops over the records of one directory block. */
module DirectoryBlocks {
  import opened Bytes
  import opened Records
  import opened Directories

  /** A scan stands on record `k`, at the offset where that record starts. */
  ghost predicate At(b: Block, rs: seq<Rec>, k: nat, offset: nat) {
    Seg(b, 0, rs, BLOCK_SIZE) && k <= |rs| && offset == Span(rs[..k])
  }

  lemma AtStart(b: Block, rs: seq<Rec>)
    requires Seg(b, 0, rs, BLOCK_SIZE)
    ensures At(b, rs, 0, 0)
  {
    assert rs[..0] == [];
  }

  /** While the offset is inside the block there is a record, its fields are readable, and it has length. */
  lemma AtRecord(b: Block, rs: seq<Rec>, k: nat, offset: nat)
    requires At(b, rs, k, offset)
    ensures offset < BLOCK_SIZE <==> k < |rs|
    ensures k == |rs| ==> offset == BLOCK_SIZE
    ensures k < |rs| ==>
      && RecOK(rs[k]) && RecAt(b, offset, rs[k]) && rs[k].len >= 8
      && offset + rs[k].len <= BLOCK_SIZE
      && At(b, rs, k + 1, offset + rs[k].len)
  {
    hide Seg, RecAt;
    if k < |rs| {
      SegIndex(b, rs, k);
    } else {
      assert rs[..k] == rs;
      SegSpan(b, 0, rs, BLOCK_SIZE);
    }
  }

  /** Is the record at `offset` live and called `name`? */
  predicate Matches(b: Block, offset: nat, name: Name)
    requires offset + 8 <= BLOCK_SIZE && offset + 8 + b[offset + 6] as nat <= BLOCK_SIZE
  {
    && Get32(b, offset) != 0
    && b[offset + 6] == |name|
    && b[offset + 8..offset + 8 + |name|] == name
  }

  lemma MatchesRec(b: Block, offset: nat, r: Rec, name: Name)
    requires RecAt(b, offset, r)
    ensures Matches(b, offset, name) <==> Live(r) && r.name == name
  {}

  /** The inner loop of `find_entry_in_dir`. */
  method FindInBlock(b: Block, name: Name, ghost rs: seq<Rec>) returns (r: u32)
    requires Seg(b, 0, rs, BLOCK_SIZE)
    ensures r == if IndexOf(rs, name) < |rs| then rs[IndexOf(rs, name)].ino else 0
    ensures r != 0 <==> IndexOf(rs, name) < |rs|
  {
    hide Seg, Matches, IndexOf;
    AtStart(b, rs);
    var offset: nat := 0;
    ghost var k := 0;
    while offset < BLOCK_SIZE
      invariant At(b, rs, k, offset)
      invariant forall j | 0 <= j < k :: !(Live(rs[j]) && rs[j].name == name)
      decreases |rs| - k
    {
      AtRecord(b, rs, k, offset);
      if Get16(b, offset + 4) == 0 {
        break;
      }
      MatchesRec(b, offset, rs[k], name);
      if Matches(b, offset, name) {
        IndexOfUnique(rs, name, k);
        return Get32(b, offset);
      }
      offset := offset + Get16(b, offset + 4);
      k := k + 1;
    }
    AtRecord(b, rs, k, offset);
    IndexOfUnique(rs, name, k);
    r := 0;
  }

  /** The inner loop of `add_entry_to_dir`: split the first record with room. */
  method AddToBlock(b: Block, ino: u32, name: Name, ftype: byte, ghost rs: seq<Rec>) returns (done: bool, c: Block)
    requires Seg(b, 0, rs, BLOCK_SIZE) && |name| <= 255
    ensures done <==> Slack(rs, |name|)
    ensures done <==> FirstFit(rs, EntryLen(|name|)) < |rs|
    ensures done ==> var k := FirstFit(rs, EntryLen(|name|));
      RecOK(rs[k]) && Seg(c, 0, SplitAt(rs, k, ino, name, ftype), BLOCK_SIZE)
  {
    hide Seg, SplitAt, FirstFit, PutRec, Splice, Slack;
    FitIffSlack(rs, |name|);
    AtStart(b, rs);
    var need := EntryLen(|name|);
    var offset: nat := 0;
    ghost var k := 0;
    while offset < BLOCK_SIZE
      invariant At(b, rs, k, offset)
      invariant forall j | 0 <= j < k :: !HasRoom(rs[j], need)
      decreases |rs| - k
    {
      AtRecord(b, rs, k, offset);
      var actual := EntryLen(b[offset + 6]);
      if Get16(b, offset + 4) >= actual + need {
        FirstFitUnique(rs, need, k);
        c := CarveRecord(b, offset, actual, ino, name, ftype, rs, k);
        return true, c;
      }
      var step := Get16(b, offset + 4);
      offset := offset + step;
      k := k + 1;
      if step == 0 {
        break;
      }
    }
    AtRecord(b, rs, k, offset);
    FirstFitUnique(rs, need, k);
    return false, b;
  }

  /** Gives the slack of one record to a new one. */
  method CarveRecord(b: Block, offset: nat, actual: nat, ino: u32, name: Name, ftype: byte, ghost rs: seq<Rec>,
        ghost k: nat)
    returns (c: Block)
    requires At(b, rs, k, offset) && k < |rs| && RecOK(rs[k]) && RecAt(b, offset, rs[k])
    requires |name| <= 255 && actual == EntryLen(|rs[k].name|) && HasRoom(rs[k], EntryLen(|name|))
    requires offset + rs[k].len <= BLOCK_SIZE
    ensures Seg(c, 0, SplitAt(rs, k, ino, name, ftype), BLOCK_SIZE)
  {
    hide Seg, SplitAt, RecAt, SplitRaw;
    RecLen(b, offset, rs[k]);
    var remaining := Get16(b, offset + 4) - actual;
    c := SplitRaw(b, offset, actual, remaining, ino, name, ftype);
    SplitKeepsChain(b, rs, k, ino, name, ftype);
  }

  lemma RecLen(b: Block, offset: nat, r: Rec)
    requires RecAt(b, offset, r)
    ensures offset + 8 <= BLOCK_SIZE && Get16(b, offset + 4) == r.len
  {}

  /** The inner loop of `remove_entry_from_dir`: merge into the previous record, or kill the head. */
  method RemoveInBlock(b: Block, name: Name, ghost rs: seq<Rec>) returns (done: bool, c: Block)
    requires Seg(b, 0, rs, BLOCK_SIZE)
    ensures done <==> IndexOf(rs, name) < |rs|
    ensures done ==> var k := IndexOf(rs, name);
      (k > 0 ==> rs[k - 1].len + rs[k].len <= BLOCK_SIZE) && Seg(c, 0, RemoveAt(rs, k), BLOCK_SIZE)
  {
    hide Seg, Matches, IndexOf, RemoveAt;
    AtStart(b, rs);
    var offset: nat, prev: int := 0, -1;
    ghost var k := 0;
    while offset < BLOCK_SIZE
      invariant At(b, rs, k, offset)
      invariant if k == 0 then prev == -1 else 0 <= prev && At(b, rs, k - 1, prev)
      invariant forall j | 0 <= j < k :: !(Live(rs[j]) && rs[j].name == name)
      decreases |rs| - k
    {
      AtRecord(b, rs, k, offset);
      if Get16(b, offset + 4) == 0 {
        break;
      }
      MatchesRec(b, offset, rs[k], name);
      if Matches(b, offset, name) {
        IndexOfUnique(rs, name, k);
        c := UnlinkRecord(b, offset, prev, rs, k);
        return true, c;
      }
      prev := offset;
      offset := offset + Get16(b, offset + 4);
      k := k + 1;
    }
    AtRecord(b, rs, k, offset);
    IndexOfUnique(rs, name, k);
    return false, b;
  }

  method UnlinkRecord(b: Block, offset: nat, prev: int, ghost rs: seq<Rec>, ghost k: nat) returns (c: Block)
    requires At(b, rs, k, offset) && k < |rs|
    requires if k == 0 then prev == -1 else 0 <= prev && At(b, rs, k - 1, prev)
    ensures k > 0 ==> rs[k - 1].len + rs[k].len <= BLOCK_SIZE
    ensures Seg(c, 0, RemoveAt(rs, k), BLOCK_SIZE)
  {
    hide Seg, RemoveAt, Splice;
    AtRecord(b, rs, k, offset);
    if prev >= 0 {
      AtRecord(b, rs, k - 1, prev);
      MergeKeepsChain(b, rs, k);
      c := Splice(b, prev + 4, Le16(Get16(b, prev + 4) + Get16(b, offset + 4)));
    } else {
      KillKeepsChain(b, rs);
      c := Splice(b, offset, Le32(0));
    }
  }

  /** The inner loop of `is_directory_empty`: is every record from `offset` on dead? */
  method AllDeadFrom(b: Block, start: nat, ghost rs: seq<Rec>, ghost first: nat) returns (dead: bool)
    requires At(b, rs, first, start)
    ensures dead <==> AllDead(rs[first..])
  {
    hide Seg;
    var offset: nat := start;
    ghost var k := first;
    while offset < BLOCK_SIZE
      invariant first <= k && At(b, rs, k, offset)
      invariant forall j | first <= j < k :: !Live(rs[j])
      decreases |rs| - k
    {
      AtRecord(b, rs, k, offset);
      if Get16(b, offset + 4) == 0 {
        break;
      }
      if Get32(b, offset) != 0 {
        assert rs[first..][k - first] == rs[k];
        assert rs[k] in rs[first..];
        return false;
      }
      offset := offset + Get16(b, offset + 4);
      k := k + 1;
    }
    AtRecord(b, rs, k, offset);
    dead := true;
  }

  /** `get_dir_first_child_offset`: the offset just past the two dot records. */
  method FirstChildOffset(b: Block, ghost rs: seq<Rec>) returns (offset: nat)
    requires Seg(b, 0, rs, BLOCK_SIZE) && |rs| >= 2
    ensures At(b, rs, 2, offset)
  {
    hide Seg;
    AtStart(b, rs);
    AtRecord(b, rs, 0, 0);
    var dotdot := Get16(b, 4);
    AtRecord(b, rs, 1, dotdot);
    offset := dotdot + Get16(b, dotdot + 4);
  }
}
