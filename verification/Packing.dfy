/** How many short names the one block of a fresh root takes. */
module Packing {
  import opened Bytes
  import opened Layout
  import opened Records
  import opened Volumes
  import opened Kinds
  import opened Operations
  import opened Format
  import opened Space
  import opened Refinement
  import opened Accounts
  import opened Pages
  import T = Trees

  /** A name of at most four bytes that is none of the dots. */
  predicate ShortName(x: Name) {
    1 <= |x| <= 4 && x != [46] && x != [46, 46]
  }

  /** Different short names. */
  predicate ShortNames(xs: seq<Name>) {
    && (forall i | 0 <= i < |xs| :: ShortName(xs[i]))
    && (forall i, j | 0 <= i < j < |xs| :: xs[i] != xs[j])
  }

  /** The requests to create empty files of these names under the root. */
  function Creations(xs: seq<Name>): (ops: seq<Op>)
    ensures |ops| == |xs|
    ensures forall i | 0 <= i < |xs| :: ops[i] == OpWrite(2, xs[i], false, [])
  {
    seq(|xs|, i requires 0 <= i < |xs| => OpWrite(2, xs[i], false, []))
  }

  // ---------------------------------------------------------------- one block

  /** A block of short names in which every record but the last takes twelve bytes. */
  predicate Packed(page: Page, last: int) {
    && page != []
    && (forall i | 0 <= i < |page| :: 1 <= |page[i].name| <= 4)
    && (forall i | 0 <= i < |page| :: page[i].len == if i < |page| - 1 then 12 else last)
  }

  lemma NeedShort(n: nat)
    requires 1 <= n <= 4
    ensures Need(n) == 12
  {}

  lemma SpareShort(c: Cell, n: nat)
    requires 1 <= |c.name| <= 4 && 1 <= n <= 4
    ensures Spare(c, n) <==> c.len >= 24
  {
    NeedShort(|c.name|);
    NeedShort(n);
  }

  /** Only the last record can have room. */
  lemma PackedSpare(page: Page, last: int, n: nat)
    requires Packed(page, last) && 1 <= n <= 4
    ensures forall i | 0 <= i < |page| - 1 :: !Spare(page[i], n)
    ensures Spare(page[|page| - 1], n) <==> last >= 24
    ensures PageSpare(page, n) <==> last >= 24
  {
    forall i | 0 <= i < |page| ensures Spare(page[i], n) <==> page[i].len >= 24 {
      SpareShort(page[i], n);
    }
    hide Spare, Need;
    assert page[|page| - 1] in page;
  }

  lemma {:induction false} PutAtLast(page: Page, name: Name)
    requires page != [] && Spare(page[|page| - 1], |name|)
    requires forall i | 0 <= i < |page| - 1 :: !Spare(page[i], |name|)
    ensures var last := page[|page| - 1];
      PutIn(page, name) == page[..|page| - 1]
        + [Cell(last.name, last.live, Need(|last.name|)), Cell(name, true, last.len - Need(|last.name|))]
    decreases |page|
  {
    hide Spare, Need;
    if |page| > 1 {
      PutAtLast(page[1..], name);
      assert page[..|page| - 1] == [page[0]] + page[1..][..|page| - 2];
    }
  }

  lemma PackedPut(page: Page, last: int, name: Name)
    requires Packed(page, last) && last >= 24 && 1 <= |name| <= 4
    ensures Packed(PutIn(page, name), last - 12)
  {
    hide PutIn, Spare, Need;
    PackedSpare(page, last, |name|);
    PutAtLast(page, name);
    NeedShort(|page[|page| - 1].name|);
  }

  lemma NewPacked(name: Name)
    requires 1 <= |name| <= 4
    ensures Packed(DotPage(), 500) && Packed(NewPage(name), 512)
  {}

  // ---------------------------------------------------------------- the root's blocks

  /** One block for up to forty names, a second one beyond. */
  predicate RootShape(pages: seq<Page>, k: nat) {
    if k <= 40 then |pages| == 1 && Packed(pages[0], 500 - 12 * k)
    else |pages| == 2 && Packed(pages[0], 20) && Packed(pages[1], 512 - 12 * (k - 41))
  }

  lemma OnePage(pages: seq<Page>, name: Name)
    requires |pages| == 1
    ensures AnySpare(pages, |name|) <==> PageSpare(pages[0], |name|)
    ensures PageSpare(pages[0], |name|) ==> PutInto(pages, name) == [PutIn(pages[0], name)]
  {
    hide PutIn, PageSpare;
  }

  lemma TwoPages(pages: seq<Page>, name: Name)
    requires |pages| == 2 && !PageSpare(pages[0], |name|) && PageSpare(pages[1], |name|)
    ensures AnySpare(pages, |name|) && PutInto(pages, name) == [pages[0], PutIn(pages[1], name)]
  {
    hide PutIn, PageSpare;
    OnePage(pages[1..], name);
    assert pages[1] in pages;
  }

  /** One more name, in slack or in a new block. */
  lemma RootShapeStep(pages: seq<Page>, k: nat, name: Name)
    requires RootShape(pages, k) && 1 <= |name| <= 4 && k <= 80
    ensures RootShape(if AnySpare(pages, |name|) then PutInto(pages, name) else pages + [NewPage(name)], k + 1)
    ensures AnySpare(pages, |name|) <==> k != 40
  {
    hide Packed, PutIn, PageSpare, NewPage, PutInto, AnySpare;
    if k <= 40 {
      OnePage(pages, name);
      PackedSpare(pages[0], 500 - 12 * k, |name|);
      if k <= 39 {
        PackedPut(pages[0], 500 - 12 * k, name);
      } else {
        NewPacked(name);
      }
    } else {
      PackedSpare(pages[0], 20, |name|);
      PackedSpare(pages[1], 512 - 12 * (k - 41), |name|);
      TwoPages(pages, name);
      PackedPut(pages[1], 512 - 12 * (k - 41), name);
    }
  }

  // ---------------------------------------------------------------- the machine

  /** The account after the first `k` names of a fresh disk. */
  ghost predicate Filled(s: Account, xs: seq<Name>, k: nat)
    requires k <= |xs|
  {
    && T.IsDir(s.t, 2)
    && (forall n :: n in s.t <==> n == 2 || 12 <= n < 12 + k)
    && (forall x | x in s.t[2].kids :: x in xs[..k])
    && RootShape(PagesAt(s, 2), k)
    && s.free == if k <= 40 then 234 else 233
  }

  lemma NextFree(t: T.Tree, k: nat)
    requires k < 53 && forall n :: n in t <==> n == 2 || 12 <= n < 12 + k
    ensures TFresh(t) == (12 + k) as u32
  {
    LowestFreeUnique(t.Keys, 12, 65, 12 + k);
  }

  lemma NameIsNew(s: Account, xs: seq<Name>, k: nat)
    requires ShortNames(xs) && k < |xs| && Filled(s, xs, k)
    ensures xs[k] !in s.t[2].kids && TLookup(s.t, 2, xs[k]) == 0
  {
    hide RootShape, PagesAt;
    assert ShortName(xs[k]);
  }

  /** The next name is stored. */
  lemma FillStep(s: Account, xs: seq<Name>, k: nat)
    requires ShortNames(xs) && k < |xs| <= 53 && Filled(s, xs, k)
    ensures var (u, a) := AStep(s, OpWrite(2, xs[k], false, [])); a == Code(0) && Filled(u, xs, k + 1)
  {
    hide TFresh, AnySpare, PutInto, NewPage, RootShape, ANode;
    assert ShortName(xs[k]);
    NextFree(s.t, k);
    NameIsNew(s, xs, k);
    RootShapeStep(PagesAt(s, 2), k, xs[k]);
    assert xs[..k + 1] == xs[..k] + [xs[k]];
    assert Taken(s.free, false, 0) == 0;
    RootPages(PagesAt(s, 2), k);
  }

  lemma RootPages(pages: seq<Page>, k: nat)
    requires RootShape(pages, k)
    ensures |pages| <= 2
  {}

  lemma {:induction false} FillRun(s: Account, xs: seq<Name>, k: nat)
    requires ShortNames(xs) && k <= |xs| <= 53 && Filled(s, xs, k)
    ensures var (u, answers) := ARun(s, Creations(xs)[k..]);
      Filled(u, xs, |xs|) && forall a | a in answers :: a == Code(0)
    decreases |xs| - k
  {
    hide AStep, Filled, ShortNames;
    if k < |xs| {
      var ops := Creations(xs)[k..];
      FillStep(s, xs, k);
      assert ops[1..] == Creations(xs)[k + 1..];
      FillRun(AStep(s, ops[0]).0, xs, k + 1);
    }
  }

  // ---------------------------------------------------------------- the driver

  lemma RootWriteLegal(v: Vol, x: Name)
    requires Inv(v) && 1 <= |x| <= 255
    ensures Legal(v, OpWrite(2, x, false, []))
  {
    hide T.WfTree, KindsOK, WellOwned, Exact, DirsOK, Lookup;
  }

  lemma {:induction false} CreationsLegal(v: Vol, xs: seq<Name>, k: nat)
    requires Inv(v) && ShortNames(xs) && k <= |xs|
    ensures LegalRun(v, Creations(xs)[k..])
    decreases |xs| - k
  {
    hide Inv, Legal, VStep;
    if k < |xs| {
      var ops := Creations(xs)[k..];
      assert ShortName(xs[k]);
      RootWriteLegal(v, xs[k]);
      assert ops[1..] == Creations(xs)[k + 1..];
      StepKeepsInv(v, ops[0]);
      CreationsLegal(VStep(v, ops[0]).0, xs, k + 1);
    }
  }

  lemma FreshFilled(xs: seq<Name>)
    ensures FreeCount(FreshVol()) >= 0 && Filled(AccountOf(FreshVol()), xs, 0)
  {
    hide FreshVol, IsFresh, Packed, DotPage, AccountOf, FreeCount;
    IsFreshIff(FreshVol());
    FreshAccount(FreshVol());
    NewPacked([0]);
  }

  /** On a fresh disk up to 53 different names of at most four bytes can be created under the root, each answered
      with 0, and the root still has one block if and only if there are at most forty. */
  lemma FortyNamesFit(xs: seq<Name>)
    requires ShortNames(xs) && |xs| <= 53
    ensures LegalRun(FreshVol(), Creations(xs))
    ensures var (w, answers) := VRun(FreshVol(), Creations(xs));
      && (forall a | a in answers :: a == Code(0))
      && IsDirObj(w, 2)
      && (|w.objs[2].blks| == 1 <==> |xs| <= 40)
      && (Stat(w, 2, [46]) == (0, 512, true) <==> |xs| <= 40)
  {
    hide FreshVol, Filled, AStep, ARun, VRun, LegalRun, VolOK, T.WfTree, KindsOK, Lookup, Stat, AccountOf;
    var v, ops := FreshVol(), Creations(xs);
    assert ops[0..] == ops;
    FreshInv();
    CreationsLegal(v, xs, 0);
    FreshFilled(xs);
    FillRun(AccountOf(v), xs, 0);
    RunAccounts(v, ops);
    RunKeepsInv(v, ops);
    var w := VRun(v, ops).0;
    SoundRoot(w);
    DirAccount(w, 2);
    FilledPages(AccountOf(w), xs);
    RootStat(w);
  }

  lemma FilledPages(s: Account, xs: seq<Name>)
    requires Filled(s, xs, |xs|)
    ensures |PagesAt(s, 2)| == if |xs| <= 40 then 1 else 2
  {}

  lemma SoundRoot(v: Vol)
    requires VolOK(v)
    ensures IsDirObj(v, 2)
  {}

  lemma RootStat(v: Vol)
    requires VolOK(v) && IsDirObj(v, 2)
    ensures Stat(v, 2, [46]) == (0, 512 * |v.objs[2].blks|, true)
  {
    LookupMatches(v, 2, [46]);
    hide VolOK, Lookup, Abs;
    NodeKind(v, 2);
  }
}
