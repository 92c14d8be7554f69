/** Directory pages as the accounts keep them: the length of every record, and whether its name is in use. */
module Pages {
  import opened Bytes
  import opened Records
  import opened Directories

  /** One record: its name, whether it is in use, and the bytes it takes. */
  datatype Cell = Cell(name: Name, live: bool, len: nat)

  /** One block. */
  type Page = seq<Cell>

  // ---------------------------------------------------------------- the arithmetic of a page

  /** What a record with a name of `n` bytes needs: a header of eight bytes and the name, in multiples of four. */
  function Need(n: nat): nat {
    (8 + n + 3) / 4 * 4
  }

  /** The record has room for another with a name of `n` bytes. */
  predicate Spare(c: Cell, n: nat) {
    c.len - Need(|c.name|) >= Need(n)
  }

  predicate PageSpare(page: Page, n: nat) {
    exists c | c in page :: Spare(c, n)
  }

  predicate AnySpare(pages: seq<Page>, n: nat) {
    exists page | page in pages :: PageSpare(page, n)
  }

  /** The first record with room is cut to what it needs, and the new one takes the rest. */
  function PutIn(page: Page, name: Name): Page {
    if page == [] then []
    else if Spare(page[0], |name|) then
      var own := Need(|page[0].name|);
      [Cell(page[0].name, page[0].live, own), Cell(name, true, page[0].len - own)] + page[1..]
    else [page[0]] + PutIn(page[1..], name)
  }

  /** The first block with room takes the record. */
  function PutInto(pages: seq<Page>, name: Name): seq<Page> {
    if pages == [] then []
    else if PageSpare(pages[0], |name|) then [PutIn(pages[0], name)] + pages[1..]
    else [pages[0]] + PutInto(pages[1..], name)
  }

  /** A block with one record. */
  function NewPage(name: Name): Page {
    [Cell(name, true, 512)]
  }

  /** The block of a new directory: `.` and `..`. */
  function DotPage(): Page {
    [Cell([46], true, 12), Cell([46, 46], true, 500)]
  }

  predicate Is(c: Cell, name: Name) {
    c.live && c.name == name
  }

  predicate Has(page: Page, name: Name) {
    exists c | c in page :: Is(c, name)
  }

  /** The record after the first that has the name is absorbed by the one before it. */
  function Absorb(page: Page, name: Name): Page {
    if |page| <= 1 then page
    else if Is(page[1], name) then [Cell(page[0].name, page[0].live, page[0].len + page[1].len)] + page[2..]
    else [page[0]] + Absorb(page[1..], name)
  }

  /** The head of a block only goes out of use. */
  function Drop(page: Page, name: Name): Page {
    if page != [] && Is(page[0], name) then [Cell(name, false, page[0].len)] + page[1..] else Absorb(page, name)
  }

  function DropFrom(pages: seq<Page>, name: Name): seq<Page> {
    if pages == [] then []
    else if Has(pages[0], name) then [Drop(pages[0], name)] + pages[1..]
    else [pages[0]] + DropFrom(pages[1..], name)
  }

  function PageNames(page: Page): set<Name> {
    set c | c in page && c.live :: c.name
  }

  /** The names in use. */
  function LiveNames(pages: seq<Page>): set<Name> {
    if pages == [] then {} else PageNames(pages[0]) + LiveNames(pages[1..])
  }

  // ---------------------------------------------------------------- the pages of the driver's directories

  function CellOf(r: Rec): Cell {
    Cell(r.name, Live(r), r.len)
  }

  function PageOf(rs: seq<Rec>): (page: Page)
    ensures |page| == |rs|
    ensures forall k | 0 <= k < |rs| :: page[k] == CellOf(rs[k])
  {
    seq(|rs|, k requires 0 <= k < |rs| => CellOf(rs[k]))
  }

  function PagesOf(cs: Chains): (pages: seq<Page>)
    ensures |pages| == |cs|
    ensures forall i | 0 <= i < |cs| :: pages[i] == PageOf(cs[i])
  {
    seq(|cs|, i requires 0 <= i < |cs| => PageOf(cs[i]))
  }

  lemma SpareIs(r: Rec, n: nat)
    ensures Spare(CellOf(r), n) <==> RoomFor(r, n)
    ensures Spare(CellOf(r), n) <==> HasRoom(r, EntryLen(n))
  {}

  lemma PageSpareIs(rs: seq<Rec>, n: nat)
    ensures PageSpare(PageOf(rs), n) <==> FirstFit(rs, EntryLen(n)) < |rs|
  {
    hide Spare, HasRoom, EntryLen, CellOf;
    forall k | 0 <= k < |rs| ensures Spare(CellOf(rs[k]), n) <==> HasRoom(rs[k], EntryLen(n)) {
      SpareIs(rs[k], n);
    }
    var page, k := PageOf(rs), FirstFit(rs, EntryLen(n));
    assert k < |rs| ==> page[k] in page;
  }

  lemma AnySpareIs(cs: Chains, n: nat)
    ensures AnySpare(PagesOf(cs), n) <==> BlockWithRoom(cs, EntryLen(n)) < |cs|
  {
    hide PageSpare, EntryLen, FirstFit, PageOf;
    forall i | 0 <= i < |cs| ensures PageSpare(PageOf(cs[i]), n) <==> FirstFit(cs[i], EntryLen(n)) < |cs[i]| {
      PageSpareIs(cs[i], n);
    }
    FitBound(cs, EntryLen(n));
    var pages, i := PagesOf(cs), BlockWithRoom(cs, EntryLen(n));
    assert i < |cs| ==> pages[i] in pages;
  }

  /** Rewriting the middle of a sequence leaves its head alone. */
  lemma MiddleTail<X>(s: seq<X>, i: nat, ms: seq<X>, j: nat)
    requires 1 <= i <= j <= |s|
    ensures s[..i] + ms + s[j..] == [s[0]] + (s[1..][..i - 1] + ms + s[1..][j - 1..])
  {
    assert s[..i] == [s[0]] + s[1..][..i - 1];
    assert s[j..] == s[1..][j - 1..];
  }

  lemma SplitTail(rs: seq<Rec>, k: nat, ino: u32, name: Name, ftype: byte)
    requires k + 1 < |rs| && RecOK(rs[k + 1])
    ensures SplitAt(rs, k + 1, ino, name, ftype) == [rs[0]] + SplitAt(rs[1..], k, ino, name, ftype)
  {
    hide Trimmed, Carved, RecOK;
    var r := rs[k + 1];
    MiddleTail(rs, k + 1, [Trimmed(r), Carved(r, ino, name, ftype)], k + 2);
  }

  /** Splitting the first record with room is the arithmetic's step. */
  lemma {:induction false} SplitIsPut(rs: seq<Rec>, ino: u32, name: Name, ftype: byte)
    requires FirstFit(rs, EntryLen(|name|)) < |rs| && ino != 0
    requires forall k | 0 <= k < |rs| :: RecOK(rs[k])
    ensures PageOf(SplitAt(rs, FirstFit(rs, EntryLen(|name|)), ino, name, ftype)) == PutIn(PageOf(rs), name)
    decreases |rs|
  {
    hide HasRoom, EntryLen, Spare, PageOf, RecOK, CellOf, SplitAt, FirstFit, PutIn, Need;
    var need := EntryLen(|name|);
    FitStep(rs, need);
    SpareIs(rs[0], |name|);
    PageHead(rs);
    if HasRoom(rs[0], need) {
      HeadSplit(rs, ino, name, ftype);
    } else {
      PutTail(PageOf(rs), name);
      var k := FirstFit(rs[1..], need);
      SplitIsPut(rs[1..], ino, name, ftype);
      SplitTail(rs, k, ino, name, ftype);
      PageCons(rs[0], SplitAt(rs[1..], k, ino, name, ftype));
    }
  }

  lemma FitStep(rs: seq<Rec>, need: nat)
    requires FirstFit(rs, need) < |rs|
    ensures rs != [] && HasRoom(rs[FirstFit(rs, need)], need)
    ensures HasRoom(rs[0], need) ==> FirstFit(rs, need) == 0
    ensures !HasRoom(rs[0], need) ==> FirstFit(rs, need) == 1 + FirstFit(rs[1..], need)
  {
    hide HasRoom;
  }

  lemma PutTail(page: Page, name: Name)
    requires page != [] && !Spare(page[0], |name|)
    ensures PutIn(page, name) == [page[0]] + PutIn(page[1..], name)
  {
    hide Spare, Need;
  }

  lemma PageHead(rs: seq<Rec>)
    requires rs != []
    ensures PageOf(rs) == [CellOf(rs[0])] + PageOf(rs[1..])
    ensures PageOf(rs)[1..] == PageOf(rs[1..])
  {}

  lemma PagesHead(cs: Chains)
    requires cs != []
    ensures PagesOf(cs) == [PageOf(cs[0])] + PagesOf(cs[1..])
    ensures PagesOf(cs)[1..] == PagesOf(cs[1..])
  {}

  lemma CutCells(r: Rec, ino: u32, name: Name, ftype: byte)
    requires RecOK(r) && ino != 0
    ensures CellOf(Trimmed(r)) == Cell(r.name, Live(r), Need(|r.name|))
    ensures CellOf(Carved(r, ino, name, ftype)) == Cell(name, true, r.len - Need(|r.name|))
  {}

  lemma SplitHead(rs: seq<Rec>, ino: u32, name: Name, ftype: byte)
    requires rs != [] && RecOK(rs[0])
    ensures SplitAt(rs, 0, ino, name, ftype) == [Trimmed(rs[0]), Carved(rs[0], ino, name, ftype)] + rs[1..]
  {}

  lemma PageTwo(t: Rec, c: Rec, rs: seq<Rec>)
    ensures PageOf([t, c] + rs) == [CellOf(t), CellOf(c)] + PageOf(rs)
  {
    hide CellOf;
  }

  lemma PutHead(page: Page, name: Name)
    requires page != [] && Spare(page[0], |name|)
    ensures var own := Need(|page[0].name|);
      PutIn(page, name)
        == [Cell(page[0].name, page[0].live, own), Cell(name, true, page[0].len - own)] + page[1..]
  {
    hide Need;
  }

  lemma HeadSplit(rs: seq<Rec>, ino: u32, name: Name, ftype: byte)
    requires rs != [] && RecOK(rs[0]) && ino != 0 && HasRoom(rs[0], EntryLen(|name|))
    ensures PageOf(SplitAt(rs, 0, ino, name, ftype)) == PutIn(PageOf(rs), name)
  {
    hide PageOf, PutIn, Spare, EntryLen, HasRoom, Trimmed, Carved, CellOf, RecOK, Need, SplitAt;
    SpareIs(rs[0], |name|);
    CutCells(rs[0], ino, name, ftype);
    SplitHead(rs, ino, name, ftype);
    PageTwo(Trimmed(rs[0]), Carved(rs[0], ino, name, ftype), rs[1..]);
    CellFields(rs[0]);
    PageHead(rs);
    PutHead(PageOf(rs), name);
  }

  lemma CellFields(r: Rec)
    ensures CellOf(r).name == r.name && CellOf(r).live == Live(r) && CellOf(r).len == r.len
  {}

  lemma UpdateHead<X>(s: seq<X>, i: nat, x: X)
    requires i < |s|
    ensures s[i := x] == if i == 0 then [x] + s[1..] else [s[0]] + s[1..][i - 1 := x]
  {}

  lemma RoomStep(cs: Chains, need: nat)
    requires cs != []
    ensures FirstFit(cs[0], need) <= |cs[0]|
    ensures BlockWithRoom(cs, need)
         == if FirstFit(cs[0], need) < |cs[0]| then 0 else 1 + BlockWithRoom(cs[1..], need)
  {
    hide FirstFit;
  }

  lemma RoomFound(cs: Chains, need: nat)
    requires AllTiled(cs) && BlockWithRoom(cs, need) < |cs|
    ensures var i := BlockWithRoom(cs, need);
      FirstFit(cs[i], need) < |cs[i]| && RecOK(cs[i][FirstFit(cs[i], need)])
  {
    hide FirstFit, RecOK;
    assert Tiled(cs[BlockWithRoom(cs, need)]);
  }

  lemma TailTiled(cs: Chains)
    requires AllTiled(cs) && cs != []
    ensures AllTiled(cs[1..]) && Tiled(cs[0])
  {
    hide Tiled;
  }

  lemma InsertIs(cs: Chains, ino: u32, name: Name, ftype: byte)
    requires AllTiled(cs) && BlockWithRoom(cs, EntryLen(|name|)) < |cs|
    ensures var i := BlockWithRoom(cs, EntryLen(|name|));
      && FirstFit(cs[i], EntryLen(|name|)) < |cs[i]| && RecOK(cs[i][FirstFit(cs[i], EntryLen(|name|))])
      && InsertInto(cs, ino, name, ftype)
          == cs[i := SplitAt(cs[i], FirstFit(cs[i], EntryLen(|name|)), ino, name, ftype)]
  {
    RoomFound(cs, EntryLen(|name|));
    hide SplitAt, FirstFit, BlockWithRoom, AllTiled, RecOK;
  }

  lemma InsertHere(cs: Chains, ino: u32, name: Name, ftype: byte)
    requires AllTiled(cs) && cs != [] && FirstFit(cs[0], EntryLen(|name|)) < |cs[0]|
    ensures BlockWithRoom(cs, EntryLen(|name|)) == 0 && RecOK(cs[0][FirstFit(cs[0], EntryLen(|name|))])
    ensures InsertInto(cs, ino, name, ftype)
         == [SplitAt(cs[0], FirstFit(cs[0], EntryLen(|name|)), ino, name, ftype)] + cs[1..]
  {
    hide SplitAt, EntryLen, FirstFit, AllTiled, BlockWithRoom, InsertInto, RecOK;
    RoomStep(cs, EntryLen(|name|));
    InsertIs(cs, ino, name, ftype);
    UpdateHead(cs, 0, SplitAt(cs[0], FirstFit(cs[0], EntryLen(|name|)), ino, name, ftype));
  }

  lemma InsertLater(cs: Chains, ino: u32, name: Name, ftype: byte)
    requires AllTiled(cs) && cs != [] && FirstFit(cs[0], EntryLen(|name|)) == |cs[0]|
    requires BlockWithRoom(cs, EntryLen(|name|)) < |cs|
    ensures AllTiled(cs[1..]) && BlockWithRoom(cs[1..], EntryLen(|name|)) < |cs[1..]|
    ensures InsertInto(cs, ino, name, ftype) == [cs[0]] + InsertInto(cs[1..], ino, name, ftype)
  {
    hide SplitAt, EntryLen, FirstFit, AllTiled, BlockWithRoom, InsertInto, RecOK;
    TailTiled(cs);
    RoomStep(cs, EntryLen(|name|));
    InsertIs(cs, ino, name, ftype);
    InsertIs(cs[1..], ino, name, ftype);
    var i := BlockWithRoom(cs, EntryLen(|name|));
    UpdateHead(cs, i, SplitAt(cs[i], FirstFit(cs[i], EntryLen(|name|)), ino, name, ftype));
  }

  lemma PutIntoHead(pages: seq<Page>, name: Name)
    requires pages != []
    ensures PutInto(pages, name)
         == if PageSpare(pages[0], |name|) then [PutIn(pages[0], name)] + pages[1..]
            else [pages[0]] + PutInto(pages[1..], name)
  {
    hide PageSpare, PutIn;
  }

  lemma FitWithin(rs: seq<Rec>, need: nat)
    ensures FirstFit(rs, need) <= |rs|
  {}

  lemma {:induction false} InsertIsPut(cs: Chains, ino: u32, name: Name, ftype: byte)
    requires AllTiled(cs) && ino != 0 && BlockWithRoom(cs, EntryLen(|name|)) < |cs|
    ensures PagesOf(InsertInto(cs, ino, name, ftype)) == PutInto(PagesOf(cs), name)
    decreases |cs|
  {
    hide PutIn, PutInto, InsertInto, SplitAt, EntryLen, PageOf, PagesOf, FirstFit, PageSpare, BlockWithRoom;
    FitBound(cs, EntryLen(|name|));
    FitWithin(cs[0], EntryLen(|name|));
    PageSpareIs(cs[0], |name|);
    PagesHead(cs);
    PutIntoHead(PagesOf(cs), name);
    assert Tiled(cs[0]);
    if FirstFit(cs[0], EntryLen(|name|)) < |cs[0]| {
      InsertHere(cs, ino, name, ftype);
      SplitIsPut(cs[0], ino, name, ftype);
    } else {
      InsertLater(cs, ino, name, ftype);
      InsertIsPut(cs[1..], ino, name, ftype);
    }
    PagesHead(InsertInto(cs, ino, name, ftype));
  }

  lemma GrowIsPage(cs: Chains, ino: u32, name: Name, ftype: byte)
    requires ino != 0
    ensures PagesOf(cs + [FreshChain(ino, name, ftype)]) == PagesOf(cs) + [NewPage(name)]
  {
    assert PageOf(FreshChain(ino, name, ftype)) == NewPage(name);
  }

  lemma DotsArePage(self: u32, parent: u32)
    requires self != 0 && parent != 0
    ensures PagesOf([DotChain(self, parent)]) == [DotPage()]
  {
    assert PageOf(DotChain(self, parent)) == DotPage();
  }

  // ---------------------------------------------------------------- removal

  lemma AbsorbHead(page: Page, name: Name)
    requires |page| >= 2
    ensures Absorb(page, name)
         == if Is(page[1], name) then [Cell(page[0].name, page[0].live, page[0].len + page[1].len)] + page[2..]
            else [page[0]] + Absorb(page[1..], name)
  {
    hide Is;
  }

  lemma RemoveTail(rs: seq<Rec>, k: nat)
    requires 0 < k < |rs| && rs[k - 1].len + rs[k].len <= BLOCK_SIZE
    ensures k == 1 ==> RemoveAt(rs, k) == [Merged(rs[0], rs[1])] + rs[2..]
    ensures k > 1 ==> RemoveAt(rs, k) == [rs[0]] + RemoveAt(rs[1..], k - 1)
  {
    hide Merged;
    if k > 1 {
      MiddleTail(rs, k - 1, [Merged(rs[k - 1], rs[k])], k + 1);
    }
  }

  lemma MergedCell(p: Rec, r: Rec)
    requires p.len + r.len <= BLOCK_SIZE
    ensures CellOf(Merged(p, r)) == Cell(CellOf(p).name, CellOf(p).live, CellOf(p).len + CellOf(r).len)
  {}

  lemma PageCons(r: Rec, rs: seq<Rec>)
    ensures PageOf([r] + rs) == [CellOf(r)] + PageOf(rs)
  {
    hide CellOf;
  }

  lemma PageAt(rs: seq<Rec>, k: nat, name: Name)
    requires k < |rs|
    ensures PageOf(rs)[k] == CellOf(rs[k]) && PageOf(rs)[k..] == PageOf(rs[k..])
    ensures Is(PageOf(rs)[k], name) <==> Live(rs[k]) && rs[k].name == name
  {}

  lemma {:induction false} MergeIsAbsorb(rs: seq<Rec>, k: nat, name: Name)
    requires 0 < k < |rs| && rs[k - 1].len + rs[k].len <= BLOCK_SIZE
    requires Live(rs[k]) && rs[k].name == name
    requires forall j | 0 <= j < k :: !(Live(rs[j]) && rs[j].name == name)
    ensures PageOf(RemoveAt(rs, k)) == Absorb(PageOf(rs), name)
    decreases k
  {
    hide PageOf, CellOf, Absorb, RemoveAt, Is, Merged;
    var page := PageOf(rs);
    PageAt(rs, 0, name);
    PageAt(rs, 1, name);
    RemoveTail(rs, k);
    AbsorbHead(page, name);
    if k == 1 {
      MergedCell(rs[0], rs[1]);
      PageCons(Merged(rs[0], rs[1]), rs[2..]);
      assert page[2..] == page[1..][1..] && rs[1..][1..] == rs[2..];
      PageHead(rs[1..]);
    } else {
      MergeIsAbsorb(rs[1..], k - 1, name);
      PageCons(rs[0], RemoveAt(rs[1..], k - 1));
    }
  }

  lemma RemoveIsDrop(rs: seq<Rec>, name: Name)
    requires IndexOf(rs, name) < |rs|
    requires forall j | 0 < j < |rs| :: rs[j - 1].len + rs[j].len <= BLOCK_SIZE
    ensures PageOf(RemoveAt(rs, IndexOf(rs, name))) == Drop(PageOf(rs), name)
  {
    hide PageOf, RemoveAt, Absorb, CellOf, Is;
    var k := IndexOf(rs, name);
    PageAt(rs, 0, name);
    if k > 0 {
      MergeIsAbsorb(rs, k, name);
    } else {
      KilledCell(rs[0]);
      RemoveFirst(rs);
      PageCons(Killed(rs[0]), rs[1..]);
      PageHead(rs);
    }
  }

  lemma KilledCell(r: Rec)
    ensures CellOf(Killed(r)) == Cell(CellOf(r).name, false, CellOf(r).len)
    ensures CellOf(r).name == r.name
  {}

  lemma RemoveFirst(rs: seq<Rec>)
    requires rs != []
    ensures RemoveAt(rs, 0) == [Killed(rs[0])] + rs[1..]
  {}

  lemma HasIs(rs: seq<Rec>, name: Name)
    ensures Has(PageOf(rs), name) <==> IndexOf(rs, name) < |rs|
  {
    var page, k := PageOf(rs), IndexOf(rs, name);
    assert k < |rs| ==> Is(page[k], name) && page[k] in page;
  }

  lemma DropHead(pages: seq<Page>, name: Name)
    requires pages != []
    ensures DropFrom(pages, name)
         == if Has(pages[0], name) then [Drop(pages[0], name)] + pages[1..]
            else [pages[0]] + DropFrom(pages[1..], name)
  {
    hide Has, Drop;
  }

  lemma NameStep(cs: Chains, name: Name)
    requires cs != []
    ensures IndexOf(cs[0], name) <= |cs[0]| && BlockWithName(cs, name) <= |cs|
    ensures BlockWithName(cs, name) < |cs| ==>
      var i := BlockWithName(cs, name); IndexOf(cs[i], name) < |cs[i]|
    ensures BlockWithName(cs, name)
         == if IndexOf(cs[0], name) < |cs[0]| then 0 else 1 + BlockWithName(cs[1..], name)
  {
    hide IndexOf;
  }

  lemma AllNeighbours(rs: seq<Rec>)
    requires Tiled(rs)
    ensures forall j | 0 < j < |rs| :: rs[j - 1].len + rs[j].len <= BLOCK_SIZE
  {
    forall j | 0 < j < |rs| ensures rs[j - 1].len + rs[j].len <= BLOCK_SIZE {
      Neighbours(rs, j);
    }
  }

  lemma RemoveHere(cs: Chains, name: Name)
    requires AllTiled(cs) && cs != [] && IndexOf(cs[0], name) < |cs[0]|
    ensures BlockWithName(cs, name) == 0
    ensures forall j | 0 < j < |cs[0]| :: cs[0][j - 1].len + cs[0][j].len <= BLOCK_SIZE
    ensures RemoveFrom(cs, name) == [RemoveAt(cs[0], IndexOf(cs[0], name))] + cs[1..]
  {
    hide RemoveAt, Tiled, BlockWithName, IndexOf;
    AllNeighbours(cs[0]);
    NameStep(cs, name);
    UpdateHead(cs, 0, RemoveAt(cs[0], IndexOf(cs[0], name)));
  }

  lemma RemoveLater(cs: Chains, name: Name)
    requires AllTiled(cs) && cs != [] && IndexOf(cs[0], name) == |cs[0]| && BlockWithName(cs, name) < |cs|
    ensures AllTiled(cs[1..]) && BlockWithName(cs[1..], name) < |cs[1..]|
    ensures RemoveFrom(cs, name) == [cs[0]] + RemoveFrom(cs[1..], name)
  {
    NameStep(cs, name);
    var i := BlockWithName(cs, name);
    assert Tiled(cs[i]);
    AllNeighbours(cs[i]);
    TailTiled(cs);
    hide RemoveAt, Tiled, BlockWithName, IndexOf, AllTiled;
    UpdateHead(cs, i, RemoveAt(cs[i], IndexOf(cs[i], name)));
  }

  lemma {:induction false} RemoveFromIsDrop(cs: Chains, name: Name)
    requires AllTiled(cs) && BlockWithName(cs, name) < |cs|
    ensures PagesOf(RemoveFrom(cs, name)) == DropFrom(PagesOf(cs), name)
    decreases |cs|
  {
    hide Drop, DropFrom, RemoveAt, RemoveFrom, PageOf, PagesOf, IndexOf, Has, BlockWithName, Tiled, AllTiled, Live;
    NameStep(cs, name);
    HasIs(cs[0], name);
    PagesHead(cs);
    DropHead(PagesOf(cs), name);
    if IndexOf(cs[0], name) < |cs[0]| {
      RemoveHere(cs, name);
      RemoveIsDrop(cs[0], name);
    } else {
      RemoveLater(cs, name);
      RemoveFromIsDrop(cs[1..], name);
    }
    PagesHead(RemoveFrom(cs, name));
  }

  // ---------------------------------------------------------------- names

  lemma {:induction false} PageNamesAre(rs: seq<Rec>)
    ensures PageNames(PageOf(rs)) == Kids(rs).Keys
    decreases |rs|
  {
    var page := PageOf(rs);
    if rs != [] {
      PageNamesAre(rs[1..]);
      assert page == [CellOf(rs[0])] + PageOf(rs[1..]);
    }
  }

  /** The names in use are those the directory, read as a map, has. */
  lemma {:induction false} LiveNamesAre(cs: Chains)
    ensures LiveNames(PagesOf(cs)) == DirKids(cs).Keys
    decreases |cs|
  {
    var pages := PagesOf(cs);
    if cs != [] {
      LiveNamesAre(cs[1..]);
      assert pages[1..] == PagesOf(cs[1..]);
      PageNamesAre(cs[0]);
      KidsConcat(cs[0], Flat(cs[1..]));
    }
  }

  lemma PagesPrefix(cs: Chains, k: nat)
    requires k <= |cs|
    ensures PagesOf(cs)[..k] == PagesOf(cs[..k])
  {}
}
