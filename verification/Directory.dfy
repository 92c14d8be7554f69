/** A directory as up to twelve record chains, one per block. */
module Directories {
  import opened Bytes
  import opened Records

  type Chains = seq<seq<Rec>>

  /** The records of a chain fill one block exactly. */
  predicate Tiled(rs: seq<Rec>) {
    (forall i | 0 <= i < |rs| :: RecOK(rs[i])) && Span(rs) == BLOCK_SIZE
  }

  predicate AllTiled(cs: Chains) {
    forall i | 0 <= i < |cs| :: Tiled(cs[i])
  }

  function Flat(cs: Chains): seq<Rec> {
    if cs == [] then [] else cs[0] + Flat(cs[1..])
  }

  /** The directory read as a map from names to inode numbers. */
  function DirKids(cs: Chains): map<Name, u32> {
    Kids(Flat(cs))
  }

  predicate DistinctNames(cs: Chains) {
    Distinct(Flat(cs))
  }

  // ---------------------------------------------------------------- tiling

  lemma {:induction false} SegTiled(b: Block, rs: seq<Rec>)
    requires Seg(b, 0, rs, BLOCK_SIZE)
    ensures Tiled(rs)
  {
    SegSpan(b, 0, rs, BLOCK_SIZE);
    SegRecsOK(b, 0, rs, BLOCK_SIZE);
  }

  lemma {:induction false} SegRecsOK(b: Block, lo: nat, rs: seq<Rec>, hi: nat)
    requires Seg(b, lo, rs, hi)
    ensures forall i | 0 <= i < |rs| :: RecOK(rs[i])
    decreases |rs|
  {
    hide RecOK, RecAt;
    if rs != [] {
      SegRecsOK(b, lo + rs[0].len, rs[1..], hi);
      assert rs == [rs[0]] + rs[1..];
    }
  }

  lemma {:induction false} SpanConcat(xs: seq<Rec>, ys: seq<Rec>)
    ensures Span(xs + ys) == Span(xs) + Span(ys)
    decreases |xs|
  {
    if xs == [] {
      assert xs + ys == ys;
    } else {
      SpanConcat(xs[1..], ys);
      assert (xs + ys)[1..] == xs[1..] + ys;
    }
  }

  lemma SpanMiddle(xs: seq<Rec>, ms: seq<Rec>, ys: seq<Rec>)
    ensures Span(xs + ms + ys) == Span(xs) + Span(ms) + Span(ys)
  {
    SpanConcat(xs + ms, ys);
    SpanConcat(xs, ms);
  }

  lemma SpanOne(r: Rec)
    ensures Span([r]) == r.len
  {
    assert [r][1..] == [];
  }

  lemma SpanTwo(r: Rec, s: Rec)
    ensures Span([r, s]) == r.len + s.len
  {
    assert [r, s] == [r] + [s];
    SpanConcat([r], [s]);
    SpanOne(r);
    SpanOne(s);
  }

  /** Any two neighbours of a tiled chain fit in one block together. */
  lemma Neighbours(rs: seq<Rec>, k: nat)
    requires Tiled(rs) && 0 < k < |rs|
    ensures rs[k - 1].len + rs[k].len <= BLOCK_SIZE
  {
    assert rs == rs[..k - 1] + [rs[k - 1], rs[k]] + rs[k + 1..];
    SpanMiddle(rs[..k - 1], [rs[k - 1], rs[k]], rs[k + 1..]);
    SpanTwo(rs[k - 1], rs[k]);
  }

  /** Rewriting records `i..j` by as many bytes of well-formed records keeps the tiling. */
  lemma MiddleTiled(rs: seq<Rec>, i: nat, j: nat, ms: seq<Rec>)
    requires Tiled(rs) && i <= j <= |rs|
    requires forall k | 0 <= k < |ms| :: RecOK(ms[k])
    requires Span(rs[i..j]) == Span(ms)
    ensures Tiled(rs[..i] + ms + rs[j..])
  {
    hide RecOK, Span;
    assert rs == rs[..i] + rs[i..j] + rs[j..];
    SpanMiddle(rs[..i], rs[i..j], rs[j..]);
    SpanMiddle(rs[..i], ms, rs[j..]);
  }

  lemma SplitTiled(rs: seq<Rec>, k: nat, ino: u32, name: Name, ftype: byte)
    requires Tiled(rs) && k < |rs| && |name| <= 255 && HasRoom(rs[k], EntryLen(|name|))
    ensures Tiled(SplitAt(rs, k, ino, name, ftype))
  {
    SplitRecsOK(rs[k], ino, name, ftype);
    hide Span, Trimmed, Carved, EntryLen, HasRoom;
    var t, c := Trimmed(rs[k]), Carved(rs[k], ino, name, ftype);
    assert rs[k..k + 1] == [rs[k]];
    SpanTwo(t, c);
    SpanOne(rs[k]);
    MiddleTiled(rs, k, k + 1, [t, c]);
  }

  lemma RemoveTiled(rs: seq<Rec>, k: nat)
    requires Tiled(rs) && k < |rs|
    ensures k > 0 ==> rs[k - 1].len + rs[k].len <= BLOCK_SIZE
    ensures Tiled(RemoveAt(rs, k))
  {
    hide Span;
    if k == 0 {
      assert rs[0..1] == [rs[0]];
      SpanOne(rs[0]);
      SpanOne(Killed(rs[0]));
      MiddleTiled(rs, 0, 1, [Killed(rs[0])]);
      assert rs[..0] + [Killed(rs[0])] + rs[1..] == RemoveAt(rs, 0);
    } else {
      Neighbours(rs, k);
      assert rs[k - 1..k + 1] == [rs[k - 1], rs[k]];
      SpanTwo(rs[k - 1], rs[k]);
      SpanOne(Merged(rs[k - 1], rs[k]));
      MiddleTiled(rs, k - 1, k + 1, [Merged(rs[k - 1], rs[k])]);
    }
  }

  // ---------------------------------------------------------------- flattening

  lemma {:induction false} FlatConcat(xs: Chains, ys: Chains)
    ensures Flat(xs + ys) == Flat(xs) + Flat(ys)
    decreases |xs|
  {
    if xs == [] {
      assert xs + ys == ys;
    } else {
      FlatConcat(xs[1..], ys);
      assert (xs + ys)[1..] == xs[1..] + ys;
    }
  }

  lemma FlatOne(c: seq<Rec>)
    ensures Flat([c]) == c
  {
    assert [c][1..] == [];
  }

  lemma FlatSnoc(cs: Chains, c: seq<Rec>)
    ensures Flat(cs + [c]) == Flat(cs) + c
  {
    FlatConcat(cs, [c]);
    FlatOne(c);
  }

  lemma FlatUpdate(cs: Chains, i: nat, c: seq<Rec>)
    requires i < |cs|
    ensures Flat(cs) == Flat(cs[..i]) + cs[i] + Flat(cs[i + 1..])
    ensures Flat(cs[i := c]) == Flat(cs[..i]) + c + Flat(cs[i + 1..])
  {
    assert cs == cs[..i] + [cs[i]] + cs[i + 1..];
    FlatConcat(cs[..i] + [cs[i]], cs[i + 1..]);
    FlatSnoc(cs[..i], cs[i]);
    assert cs[i := c] == cs[..i] + [c] + cs[i + 1..];
    FlatConcat(cs[..i] + [c], cs[i + 1..]);
    FlatSnoc(cs[..i], c);
  }

  /** A name gained by the middle of a chain is gained by the whole. */
  lemma GainKids(xs: seq<Rec>, ms: seq<Rec>, ns: seq<Rec>, ys: seq<Rec>, name: Name, ino: u32)
    requires name !in Kids(xs + ms + ys) && Kids(ns) == Kids(ms)[name := ino]
    requires Distinct(ms) ==> Distinct(ns)
    ensures Kids(xs + ns + ys) == Kids(xs + ms + ys)[name := ino]
    ensures Distinct(xs + ms + ys) ==> Distinct(xs + ns + ys)
  {
    hide Kids, Distinct;
    KidsMiddle(xs, ms, ys);
    KidsMiddle(xs, ns, ys);
  }

  /** A name lost by the middle of a chain is lost by the whole. */
  lemma LoseKids(xs: seq<Rec>, ms: seq<Rec>, ns: seq<Rec>, ys: seq<Rec>, name: Name)
    requires Distinct(xs + ms + ys) && name in Kids(ms)
    requires Distinct(ns) && Kids(ns) == Kids(ms) - {name}
    ensures Kids(xs + ns + ys) == Kids(xs + ms + ys) - {name}
    ensures Distinct(xs + ns + ys)
  {
    hide Kids, Distinct;
    KidsMiddle(xs, ms, ys);
    KidsMiddle(xs, ns, ys);
  }

  lemma PartKids(xs: seq<Rec>, ms: seq<Rec>, ys: seq<Rec>)
    ensures Kids(ms).Keys <= Kids(xs + ms + ys).Keys
    ensures Distinct(xs + ms + ys) ==> Distinct(ms)
  {
    hide Kids, Distinct;
    KidsMiddle(xs, ms, ys);
  }

  /** The first blocks of a directory show names it has. */
  lemma FirstNames(cs: Chains, k: nat)
    requires k <= |cs|
    ensures forall x | x in DirKids(cs[..k]) :: x in DirKids(cs) && DirKids(cs)[x] == DirKids(cs[..k])[x]
  {
    hide Flat, Kids;
    FlatConcat(cs[..k], cs[k..]);
    assert cs == cs[..k] + cs[k..];
    KidsConcat(Flat(cs[..k]), Flat(cs[k..]));
  }

  // ---------------------------------------------------------------- adding a name

  /** Index of the first block with a record that has room, or `|cs|`. */
  function BlockWithRoom(cs: Chains, need: nat): (i: nat)
    ensures i <= |cs|
    ensures i < |cs| ==> FirstFit(cs[i], need) < |cs[i]|
    ensures forall j | 0 <= j < i :: FirstFit(cs[j], need) == |cs[j]|
  {
    if cs == [] then 0
    else if FirstFit(cs[0], need) < |cs[0]| then 0
    else 1 + BlockWithRoom(cs[1..], need)
  }

  lemma BlockWithRoomUnique(cs: Chains, need: nat, i: nat)
    requires i <= |cs|
    requires i < |cs| ==> FirstFit(cs[i], need) < |cs[i]|
    requires forall j | 0 <= j < i :: FirstFit(cs[j], need) == |cs[j]|
    ensures BlockWithRoom(cs, need) == i
  {}

  /** A record of some block is long enough for its own name and a new record with a name of `n` bytes. */
  predicate SlackIn(cs: Chains, n: nat) {
    exists i | 0 <= i < |cs| :: Slack(cs[i], n)
  }

  lemma SlackFound(cs: Chains, n: nat)
    ensures SlackIn(cs, n) <==> BlockWithRoom(cs, EntryLen(n)) < |cs|
  {
    hide Slack, EntryLen, FirstFit;
    forall i | 0 <= i < |cs| ensures FirstFit(cs[i], EntryLen(n)) < |cs[i]| <==> Slack(cs[i], n) {
      FitIffSlack(cs[i], n);
    }
    var i := BlockWithRoom(cs, EntryLen(n));
    FitBound(cs, EntryLen(n));
  }

  lemma FitBound(cs: Chains, need: nat)
    ensures forall i | 0 <= i < |cs| :: FirstFit(cs[i], need) <= |cs[i]|
    ensures BlockWithRoom(cs, need) <= |cs|
    ensures BlockWithRoom(cs, need) < |cs| <==> exists i | 0 <= i < |cs| :: FirstFit(cs[i], need) < |cs[i]|
  {
    hide FirstFit;
  }

  /** The new record goes into the first slack that holds it. */
  function InsertInto(cs: Chains, ino: u32, name: Name, ftype: byte): Chains
    requires AllTiled(cs) && BlockWithRoom(cs, EntryLen(|name|)) < |cs|
  {
    var i := BlockWithRoom(cs, EntryLen(|name|));
    cs[i := SplitAt(cs[i], FirstFit(cs[i], EntryLen(|name|)), ino, name, ftype)]
  }

  /** A fresh directory block holding a single record. */
  function FreshChain(ino: u32, name: Name, ftype: byte): seq<Rec> {
    [Rec(ino, 512, name, ftype)]
  }

  lemma InsertTiled(cs: Chains, ino: u32, name: Name, ftype: byte)
    requires AllTiled(cs) && |name| <= 255 && BlockWithRoom(cs, EntryLen(|name|)) < |cs|
    ensures AllTiled(InsertInto(cs, ino, name, ftype))
    ensures |InsertInto(cs, ino, name, ftype)| == |cs|
  {
    var i := BlockWithRoom(cs, EntryLen(|name|));
    SplitTiled(cs[i], FirstFit(cs[i], EntryLen(|name|)), ino, name, ftype);
  }

  lemma FreshTiled(ino: u32, name: Name, ftype: byte)
    requires |name| <= 255
    ensures Tiled(FreshChain(ino, name, ftype))
  {
    SpanOne(Rec(ino, 512, name, ftype));
  }

  /** Adding into slack: the directory gains exactly the one name. */
  lemma InsertKids(cs: Chains, ino: u32, name: Name, ftype: byte)
    requires AllTiled(cs) && ino != 0 && |name| <= 255
    requires BlockWithRoom(cs, EntryLen(|name|)) < |cs|
    requires name !in DirKids(cs)
    ensures DirKids(InsertInto(cs, ino, name, ftype)) == DirKids(cs)[name := ino]
    ensures DistinctNames(cs) ==> DistinctNames(InsertInto(cs, ino, name, ftype))
  {
    hide SplitAt, Flat, Kids, Distinct;
    var i := BlockWithRoom(cs, EntryLen(|name|));
    var k := FirstFit(cs[i], EntryLen(|name|));
    var c := SplitAt(cs[i], k, ino, name, ftype);
    var xs, ys := Flat(cs[..i]), Flat(cs[i + 1..]);
    FlatUpdate(cs, i, c);
    PartKids(xs, cs[i], ys);
    SplitKids(cs[i], k, ino, name, ftype);
    GainKids(xs, cs[i], c, ys, name, ino);
  }

  /** Growing by a block: the directory gains exactly the one name. */
  lemma GrowKids(cs: Chains, ino: u32, name: Name, ftype: byte)
    requires ino != 0 && name !in DirKids(cs)
    ensures DirKids(cs + [FreshChain(ino, name, ftype)]) == DirKids(cs)[name := ino]
    ensures DistinctNames(cs) ==> DistinctNames(cs + [FreshChain(ino, name, ftype)])
  {
    var c := FreshChain(ino, name, ftype);
    FlatSnoc(cs, c);
    KidsConcat(Flat(cs), c);
    DistinctConcat(Flat(cs), c);
    KidsOne(c[0]);
  }

  // ---------------------------------------------------------------- removing a name

  /** Index of the first block holding a live record of that name, or `|cs|`. */
  function BlockWithName(cs: Chains, name: Name): (i: nat)
    ensures i <= |cs|
    ensures i < |cs| ==> IndexOf(cs[i], name) < |cs[i]|
    ensures forall j | 0 <= j < i :: IndexOf(cs[j], name) == |cs[j]|
  {
    if cs == [] then 0
    else if IndexOf(cs[0], name) < |cs[0]| then 0
    else 1 + BlockWithName(cs[1..], name)
  }

  lemma BlockWithNameUnique(cs: Chains, name: Name, i: nat)
    requires i <= |cs|
    requires i < |cs| ==> IndexOf(cs[i], name) < |cs[i]|
    requires forall j | 0 <= j < i :: IndexOf(cs[j], name) == |cs[j]|
    ensures BlockWithName(cs, name) == i
  {}

  lemma {:induction false} BlockWithNameFound(cs: Chains, name: Name)
    ensures BlockWithName(cs, name) < |cs| <==> name in DirKids(cs)
    ensures var i := BlockWithName(cs, name);
      i < |cs| ==> DirKids(cs)[name] == cs[i][IndexOf(cs[i], name)].ino
    decreases |cs|
  {
    if cs != [] {
      BlockWithNameFound(cs[1..], name);
      KidsConcat(cs[0], Flat(cs[1..]));
      IndexOfKids(cs[0], name);
    }
  }

  function RemoveFrom(cs: Chains, name: Name): Chains
    requires AllTiled(cs) && BlockWithName(cs, name) < |cs|
  {
    var i := BlockWithName(cs, name);
    var k := IndexOf(cs[i], name);
    RemoveTiled(cs[i], k);
    cs[i := RemoveAt(cs[i], k)]
  }

  lemma RemoveFromTiled(cs: Chains, name: Name)
    requires AllTiled(cs) && BlockWithName(cs, name) < |cs|
    ensures AllTiled(RemoveFrom(cs, name)) && |RemoveFrom(cs, name)| == |cs|
  {
    var i := BlockWithName(cs, name);
    RemoveTiled(cs[i], IndexOf(cs[i], name));
  }

  /** Removing a name: the directory loses exactly that name. */
  lemma RemoveFromKids(cs: Chains, name: Name)
    requires AllTiled(cs) && DistinctNames(cs) && name in DirKids(cs)
    ensures BlockWithName(cs, name) < |cs|
    ensures DirKids(RemoveFrom(cs, name)) == DirKids(cs) - {name}
    ensures DistinctNames(RemoveFrom(cs, name))
  {
    hide RemoveAt, Flat, Distinct, Kids, IndexOf;
    BlockWithNameFound(cs, name);
    var i := BlockWithName(cs, name);
    forall j | 0 < j < |cs[i]| ensures cs[i][j - 1].len + cs[i][j].len <= BLOCK_SIZE {
      Neighbours(cs[i], j);
    }
    IndexOfKids(cs[i], name);
    RemoveFromKidsAt(cs, name, i, RemoveAt(cs[i], IndexOf(cs[i], name)));
  }

  lemma RemoveFromKidsAt(cs: Chains, name: Name, i: nat, c: seq<Rec>)
    requires i < |cs| && DistinctNames(cs) && name in Kids(cs[i])
    requires forall j | 0 < j < |cs[i]| :: cs[i][j - 1].len + cs[i][j].len <= BLOCK_SIZE
    requires IndexOf(cs[i], name) < |cs[i]| && c == RemoveAt(cs[i], IndexOf(cs[i], name))
    ensures DirKids(cs[i := c]) == DirKids(cs) - {name}
    ensures DistinctNames(cs[i := c])
  {
    hide RemoveAt, Flat, Distinct, Kids, IndexOf;
    var xs, ys := Flat(cs[..i]), Flat(cs[i + 1..]);
    FlatUpdate(cs, i, c);
    PartKids(xs, cs[i], ys);
    RemoveKids(cs[i], name);
    LoseKids(xs, cs[i], c, ys, name);
  }

  // ---------------------------------------------------------------- a new directory

  /** The first block of a directory: `.` and `..`. */
  function DotChain(self: u32, parent: u32): seq<Rec> {
    [Rec(self, 12, DOT, FT_DIR), Rec(parent, 500, DOTDOT, FT_DIR)]
  }

  lemma DotTiled(self: u32, parent: u32)
    ensures Tiled(DotChain(self, parent))
  {
    SpanTwo(DotChain(self, parent)[0], DotChain(self, parent)[1]);
  }

  lemma DotKids(self: u32, parent: u32)
    requires self != 0 && parent != 0
    ensures DirKids([DotChain(self, parent)]) == map[DOT := self, DOTDOT := parent]
    ensures DistinctNames([DotChain(self, parent)])
  {
    var c := DotChain(self, parent);
    FlatOne(c);
    assert c == [c[0]] + [c[1]];
    KidsConcat([c[0]], [c[1]]);
    DistinctConcat([c[0]], [c[1]]);
    KidsOne(c[0]);
    KidsOne(c[1]);
  }

  /** A directory begins with `.` for itself and `..` for its parent. */
  predicate StartsWithDots(cs: Chains, self: u32, parent: u32) {
    && cs != [] && |cs[0]| >= 2
    && cs[0][0] == Rec(self, 12, DOT, FT_DIR)
    && cs[0][1].ino == parent && cs[0][1].name == DOTDOT && cs[0][1].ftype == FT_DIR
  }

  lemma SplitKeepsDots(rs: seq<Rec>, k: nat, ino: u32, name: Name, ftype: byte)
    requires k < |rs| && RecOK(rs[k]) && HasRoom(rs[k], EntryLen(|name|))
    requires |rs| >= 2 && rs[0].len == 12 && rs[0].name == DOT
    ensures var ns := SplitAt(rs, k, ino, name, ftype);
      |ns| >= 2 && ns[0] == rs[0] && ns[1] == rs[1].(len := ns[1].len)
  {}

  lemma InsertKeepsDots(cs: Chains, ino: u32, name: Name, ftype: byte, self: u32, parent: u32)
    requires AllTiled(cs) && |name| <= 255 && BlockWithRoom(cs, EntryLen(|name|)) < |cs|
    requires StartsWithDots(cs, self, parent)
    ensures StartsWithDots(InsertInto(cs, ino, name, ftype), self, parent)
  {
    hide SplitAt, RecOK, HasRoom, BlockWithRoom;
    var i := BlockWithRoom(cs, EntryLen(|name|));
    if i == 0 {
      SplitKeepsDots(cs[0], FirstFit(cs[0], EntryLen(|name|)), ino, name, ftype);
    }
  }

  lemma RemoveKeepsDots(cs: Chains, name: Name, self: u32, parent: u32)
    requires AllTiled(cs) && BlockWithName(cs, name) < |cs|
    requires StartsWithDots(cs, self, parent) && name != DOT && name != DOTDOT
    requires self != 0 && parent != 0
    ensures StartsWithDots(RemoveFrom(cs, name), self, parent)
  {}

  /** `is_directory_empty`: past the two dot records everything is dead. */
  predicate AllDead(rs: seq<Rec>) {
    forall r | r in rs :: !Live(r)
  }

  predicate EmptyDir(cs: Chains)
    requires cs != [] && |cs[0]| >= 2
  {
    AllDead(cs[0][2..]) && forall i | 1 <= i < |cs| :: AllDead(cs[i])
  }

  lemma {:induction false} DeadKids(rs: seq<Rec>)
    ensures AllDead(rs) <==> Kids(rs) == map[]
    decreases |rs|
  {
    if rs != [] {
      DeadKids(rs[1..]);
      assert rs == [rs[0]] + rs[1..];
      if Live(rs[0]) {
        assert rs[0].name in Kids(rs);
      }
    }
  }

  lemma {:induction false} DeadFlat(cs: Chains)
    ensures (forall i | 0 <= i < |cs| :: AllDead(cs[i])) <==> AllDead(Flat(cs))
    decreases |cs|
  {
    if cs != [] {
      DeadFlat(cs[1..]);
      assert cs == [cs[0]] + cs[1..];
      if forall i | 0 <= i < |cs| :: AllDead(cs[i]) {
        assert forall i | 0 <= i < |cs[1..]| :: AllDead(cs[1..][i]) by {
          forall i | 0 <= i < |cs[1..]| ensures AllDead(cs[1..][i]) {
            assert cs[1..][i] == cs[i + 1];
          }
        }
      }
      if AllDead(Flat(cs)) {
        assert forall r | r in cs[0] :: r in Flat(cs);
        assert forall r | r in Flat(cs[1..]) :: r in Flat(cs);
        forall i | 0 <= i < |cs| ensures AllDead(cs[i]) {
          if i > 0 {
            assert cs[i] == cs[1..][i - 1];
          }
        }
      }
    }
  }

  /** The emptiness scan answers true exactly when no name but the dots is left. */
  lemma EmptyDirKids(cs: Chains, self: u32, parent: u32)
    requires StartsWithDots(cs, self, parent) && self != 0 && parent != 0
    requires DistinctNames(cs)
    ensures EmptyDir(cs) <==> DirKids(cs).Keys == {DOT, DOTDOT}
  {
    hide Kids, Distinct;
    var d, rest := cs[0][..2], cs[0][2..] + Flat(cs[1..]);
    assert cs[0] == d + cs[0][2..];
    assert Flat(cs) == d + rest;
    KidsConcat(d, rest);
    DistinctConcat(d, rest);
    KidsConcat([d[0]], [d[1]]);
    assert d == [d[0]] + [d[1]];
    KidsOne(d[0]);
    KidsOne(d[1]);
    assert Kids(d).Keys == {DOT, DOTDOT};
    DeadKids(rest);
    EmptyDirRest(cs);
    assert Kids(rest) == map[] <==> Kids(rest).Keys == {};
  }

  lemma EmptyDirRest(cs: Chains)
    requires cs != [] && |cs[0]| >= 2
    ensures EmptyDir(cs) <==> AllDead(cs[0][2..] + Flat(cs[1..]))
  {
    hide Live;
    DeadFlat(cs[1..]);
    assert AllDead(cs[0][2..] + Flat(cs[1..])) <==> AllDead(cs[0][2..]) && AllDead(Flat(cs[1..]));
    assert forall i | 0 <= i < |cs[1..]| :: cs[1..][i] == cs[i + 1];
    assert forall i | 1 <= i < |cs| :: cs[i] == cs[1..][i - 1];
  }
}
