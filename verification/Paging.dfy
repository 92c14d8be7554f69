/** The page-frame manager: 32 frames of 4 MiB shared by any number of page directories. */
module Paging {
  import opened Bytes
  import opened FiniteSets

  const PAGE_ENTRY_COUNT: nat := 1024
  const PAGE_FRAME_SIZE: nat := 0x40_0000
  const PAGE_FRAME_MAX_COUNT: nat := 32

  type Bits3 = x: int | 0 <= x < 8
  type Bits9 = x: int | 0 <= x < 0x200
  type Bits10 = x: int | 0 <= x < 0x400

  /** A directory entry mapping a 4 MiB page, bit field by bit field. */
  datatype Pde = Pde(present: bool, write: bool, user: bool, pwt: bool, pcd: bool, accessed: bool, dirty: bool,
                     pageSize4Mb: bool, globalPage: bool, available: Bits3, pat: bool, reservedHigh: Bits9,
                     lower: Bits10)

  const ZERO_PDE: Pde :=
    Pde(false, false, false, false, false, false, false, false, false, 0, false, 0, 0)

  const KERNEL_PDE: Pde := ZERO_PDE.(present := true, write := true, pageSize4Mb := true)

  function UserPde(frame: Bits10): Pde {
    ZERO_PDE.(present := true, write := true, user := true, pageSize4Mb := true, lower := frame)
  }

  function Bit(b: bool): (r: nat)
    ensures r <= 1
  {
    if b then 1 else 0
  }

  /** What each field is worth at its place in the word, from the lowest bit up. */
  function Places(e: Pde): (ps: seq<nat>)
    ensures |ps| == 13
  {
    [Bit(e.present), 0x2 * Bit(e.write), 0x4 * Bit(e.user), 0x8 * Bit(e.pwt), 0x10 * Bit(e.pcd),
     0x20 * Bit(e.accessed), 0x40 * Bit(e.dirty), 0x80 * Bit(e.pageSize4Mb), 0x100 * Bit(e.globalPage),
     0x200 * e.available, 0x1000 * Bit(e.pat), 0x2000 * e.reservedHigh, 0x40_0000 * e.lower]
  }

  function Sum(xs: seq<nat>): nat {
    if xs == [] then 0 else xs[0] + Sum(xs[1..])
  }

  /** The 32-bit word a directory entry is in memory. */
  function Word(e: Pde): nat {
    Sum(Places(e))
  }

  lemma SumCons(a: nat, rest: seq<nat>)
    ensures Sum([a] + rest) == a + Sum(rest)
  {
    assert ([a] + rest)[1..] == rest;
  }

  lemma SumFour(a: nat, b: nat, c: nat, d: nat, rest: seq<nat>)
    ensures Sum([a, b, c, d] + rest) == a + b + c + d + Sum(rest)
  {
    hide Sum;
    SumCons(a, [b, c, d] + rest);
    SumCons(b, [c, d] + rest);
    SumCons(c, [d] + rest);
    SumCons(d, rest);
    assert [a, b, c, d] + rest == [a] + ([b, c, d] + rest);
    assert [b, c, d] + rest == [b] + ([c, d] + rest);
    assert [c, d] + rest == [c] + ([d] + rest);
  }

  lemma SumOne(a: nat)
    ensures Sum([a]) == a
  {
    assert [a][1..] == [];
  }

  lemma SumThirteen(ps: seq<nat>)
    requires |ps| == 13
    ensures Sum(ps) == ps[0] + ps[1] + ps[2] + ps[3] + ps[4] + ps[5] + ps[6] + ps[7] + ps[8] + ps[9] + ps[10]
                     + ps[11] + ps[12]
  {
    assert ps == [ps[0], ps[1], ps[2], ps[3]] + ps[4..];
    assert ps[4..] == [ps[4], ps[5], ps[6], ps[7]] + ps[8..];
    assert ps[8..] == [ps[8], ps[9], ps[10], ps[11]] + [ps[12]];
    hide Sum;
    SumFour(ps[0], ps[1], ps[2], ps[3], ps[4..]);
    SumFour(ps[4], ps[5], ps[6], ps[7], ps[8..]);
    SumFour(ps[8], ps[9], ps[10], ps[11], [ps[12]]);
    SumOne(ps[12]);
  }

  lemma WordSum(e: Pde)
    ensures Word(e)
      == Bit(e.present) + 0x2 * Bit(e.write) + 0x4 * Bit(e.user) + 0x8 * Bit(e.pwt) + 0x10 * Bit(e.pcd)
       + 0x20 * Bit(e.accessed) + 0x40 * Bit(e.dirty) + 0x80 * Bit(e.pageSize4Mb) + 0x100 * Bit(e.globalPage)
       + 0x200 * e.available + 0x1000 * Bit(e.pat) + 0x2000 * e.reservedHigh + 0x40_0000 * e.lower
    ensures Word(e) < 0x1_0000_0000
  {
    SumThirteen(Places(e));
    hide Sum, Bit;
  }

  type FrameMap = s: seq<bool> | |s| == PAGE_FRAME_MAX_COUNT witness seq(32, _ => false)

  type Table = s: seq<Pde> | |s| == PAGE_ENTRY_COUNT witness seq(1024, _ => ZERO_PDE)

  function PageIndex(va: u32): (i: nat)
    ensures i < PAGE_ENTRY_COUNT
    ensures i * PAGE_FRAME_SIZE <= va < (i + 1) * PAGE_FRAME_SIZE
  {
    va / PAGE_FRAME_SIZE % PAGE_ENTRY_COUNT
  }

  /** The lowest clear map entry from i on, or the map's length. */
  function FirstFree(frames: FrameMap, i: nat): (r: nat)
    requires i <= PAGE_FRAME_MAX_COUNT
    ensures i <= r <= PAGE_FRAME_MAX_COUNT
    ensures forall k | i <= k < r :: frames[k]
    ensures r < PAGE_FRAME_MAX_COUNT ==> !frames[r]
    decreases PAGE_FRAME_MAX_COUNT - i
  {
    if i == PAGE_FRAME_MAX_COUNT || !frames[i] then i else FirstFree(frames, i + 1)
  }

  // ---------------------------------------------------------------- the machine

  /** The shared map and count, and every page directory under a name of its own. */
  datatype Machine = Machine(frames: FrameMap, free: u32, dirs: map<nat, Table>)

  /** A page of one directory. */
  datatype Slot = Slot(dir: nat, va: u32)

  predicate Names(m: Machine, s: Slot) {
    s.dir in m.dirs
  }

  function EntryOf(m: Machine, s: Slot): Pde
    requires Names(m, s)
  {
    m.dirs[s.dir][PageIndex(s.va)]
  }

  predicate CanAllocate(frames: FrameMap, table: Table, va: u32) {
    !table[PageIndex(va)].present && FirstFree(frames, 1) < PAGE_FRAME_MAX_COUNT
  }

  predicate CanFree(table: Table, va: u32) {
    var e := table[PageIndex(va)];
    e.present && 0 < e.lower < PAGE_FRAME_MAX_COUNT
  }

  /** What one call sees: the shared map and count, and the one directory it is given. */
  datatype View = View(frames: FrameMap, free: u32, table: Table)

  function AllocateIn(w: View, va: u32): View {
    if CanAllocate(w.frames, w.table, va) then
      var f := FirstFree(w.frames, 1);
      View(w.frames[f := true], (w.free - 1) % 0x1_0000_0000, w.table[PageIndex(va) := UserPde(f)])
    else
      w
  }

  function FreeIn(w: View, va: u32): View {
    if CanFree(w.table, va) then
      var f := w.table[PageIndex(va)].lower;
      View(w.frames[f := false], if w.frames[f] then (w.free + 1) % 0x1_0000_0000 else w.free,
           w.table[PageIndex(va) := ZERO_PDE])
    else
      w
  }

  function ViewOf(m: Machine, d: nat): View
    requires d in m.dirs
  {
    View(m.frames, m.free, m.dirs[d])
  }

  function Put(m: Machine, d: nat, w: View): Machine {
    Machine(w.frames, w.free, m.dirs[d := w.table])
  }

  function Allocate(m: Machine, s: Slot): Machine
    requires Names(m, s)
  {
    Put(m, s.dir, AllocateIn(ViewOf(m, s.dir), s.va))
  }

  function Free(m: Machine, s: Slot): Machine
    requires Names(m, s)
  {
    Put(m, s.dir, FreeIn(ViewOf(m, s.dir), s.va))
  }

  datatype Event = Alloc(slot: Slot) | Release(slot: Slot)

  function Step(m: Machine, e: Event): Machine
    requires Names(m, e.slot)
  {
    match e
    case Alloc(s) => Allocate(m, s)
    case Release(s) => Free(m, s)
  }

  predicate Succeeds(m: Machine, e: Event)
    requires Names(m, e.slot)
  {
    match e
    case Alloc(s) => CanAllocate(m.frames, m.dirs[s.dir], s.va)
    case Release(s) => CanFree(m.dirs[s.dir], s.va)
  }

  /** Every event names a directory that exists. */
  predicate Named(m: Machine, es: seq<Event>) {
    forall i | 0 <= i < |es| :: Names(m, es[i].slot)
  }

  function Run(m: Machine, es: seq<Event>): (r: Machine)
    requires Named(m, es)
    ensures r.dirs.Keys == m.dirs.Keys
    decreases |es|
  {
    if es == [] then m else Run(Step(m, es[0]), es[1..])
  }

  /** What each call of a run answers. */
  function Answers(m: Machine, es: seq<Event>): (oks: seq<bool>)
    requires Named(m, es)
    ensures |oks| == |es|
    decreases |es|
  {
    if es == [] then [] else [Succeeds(m, es[0])] + Answers(Step(m, es[0]), es[1..])
  }

  // ---------------------------------------------------------------- ownership

  predicate Maps(m: Machine, d: nat, p: nat) {
    d in m.dirs && p < PAGE_ENTRY_COUNT && m.dirs[d][p].present && m.dirs[d][p].lower != 0
  }

  predicate MapsTo(m: Machine, d: nat, p: nat, f: nat) {
    Maps(m, d, p) && m.dirs[d][p].lower == f
  }

  /** Present entries are the kernel's, or user entries of a used frame. */
  predicate EntriesOK(m: Machine) {
    forall d, p | d in m.dirs && 0 <= p < PAGE_ENTRY_COUNT && m.dirs[d][p].present ::
      var e := m.dirs[d][p];
      e == KERNEL_PDE || (0 < e.lower < PAGE_FRAME_MAX_COUNT && m.frames[e.lower] && e == UserPde(e.lower))
  }

  ghost predicate Unshared(m: Machine) {
    forall d, p, d', p', f | MapsTo(m, d, p, f) && MapsTo(m, d', p', f) :: d == d' && p == p'
  }

  ghost predicate Accounted(m: Machine) {
    forall f | 0 < f < PAGE_FRAME_MAX_COUNT && m.frames[f] :: exists d, p :: MapsTo(m, d, p, f)
  }

  function FreeFrames(frames: FrameMap): set<nat> {
    set f: nat | f < PAGE_FRAME_MAX_COUNT && !frames[f]
  }

  /** Frame 0 stays the kernel's, each other used frame has exactly one entry, and the count is right. */
  ghost predicate Inv(m: Machine) {
    && m.frames[0]
    && EntriesOK(m)
    && Unshared(m)
    && Accounted(m)
    && m.free == |FreeFrames(m.frames)|
  }

  /** Boot: frame 0 taken, 31 free, and only kernel entries present in any directory. */
  predicate Booted(m: Machine) {
    && m.frames == [true] + seq(31, _ => false)
    && m.free == 31
    && (forall d, p | d in m.dirs && 0 <= p < PAGE_ENTRY_COUNT ::
          m.dirs[d][p].present ==> m.dirs[d][p] == KERNEL_PDE)
  }

  /** The kernel's own directory as it is compiled in. */
  function KernelTable(): (t: Table)
    ensures t[0] == KERNEL_PDE && t[0x300] == KERNEL_PDE
    ensures forall p | 0 <= p < PAGE_ENTRY_COUNT && p != 0 && p != 0x300 :: t[p] == ZERO_PDE
  {
    seq(PAGE_ENTRY_COUNT, p => if p == 0 || p == 0x300 then KERNEL_PDE else ZERO_PDE)
  }

  function FreeBelow(frames: FrameMap, k: nat): set<nat> {
    set f: nat | f < PAGE_FRAME_MAX_COUNT && f < k && !frames[f]
  }

  lemma FreeBelowNext(frames: FrameMap, k: nat)
    requires k < PAGE_FRAME_MAX_COUNT
    ensures |FreeBelow(frames, k + 1)| == |FreeBelow(frames, k)| + (if frames[k] then 0 else 1)
  {
    if frames[k] {
      assert FreeBelow(frames, k + 1) == FreeBelow(frames, k);
    } else {
      assert FreeBelow(frames, k + 1) == FreeBelow(frames, k) + {k};
    }
  }

  function ZeroTable(): (t: Table)
    ensures forall p | 0 <= p < PAGE_ENTRY_COUNT :: t[p] == ZERO_PDE
  {
    seq(PAGE_ENTRY_COUNT, _ => ZERO_PDE)
  }

  function BootTable(d: nat): Table {
    if d == 0 then KernelTable() else ZeroTable()
  }

  /** The state at boot with the kernel's directory under 0 and `k` zeroed ones after it. */
  function BootMachine(k: nat): Machine {
    Machine([true] + seq(31, _ => false), 31, map d: nat | d <= k :: BootTable(d))
  }

  lemma BootMachineBooted(k: nat)
    ensures Booted(BootMachine(k))
  {}

  lemma {:induction false} BootCount(frames: FrameMap, k: nat)
    requires frames == [true] + seq(31, _ => false) && 1 <= k <= PAGE_FRAME_MAX_COUNT
    ensures |FreeBelow(frames, k)| == k - 1
  {
    if k == 1 {
      assert FreeBelow(frames, 1) == {};
    } else {
      BootCount(frames, k - 1);
      FreeBelowNext(frames, k - 1);
    }
  }

  lemma BootInv(m: Machine)
    requires Booted(m)
    ensures Inv(m)
  {
    BootCount(m.frames, PAGE_FRAME_MAX_COUNT);
    assert FreeFrames(m.frames) == FreeBelow(m.frames, PAGE_FRAME_MAX_COUNT);
  }

  lemma FreeIsBounded(m: Machine)
    requires Inv(m)
    ensures m.free <= 31
    ensures m.free == 0 <==> FirstFree(m.frames, 1) == PAGE_FRAME_MAX_COUNT
  {
    var s := FreeFrames(m.frames);
    BelowCard(s, PAGE_FRAME_MAX_COUNT);
    assert 0 !in s;
    var f := FirstFree(m.frames, 1);
    if f < PAGE_FRAME_MAX_COUNT {
      assert f in s;
    } else {
      assert s == {};
    }
  }

  lemma FrameFreed(frames: FrameMap, f: nat)
    requires f < PAGE_FRAME_MAX_COUNT && frames[f]
    ensures f !in FreeFrames(frames) && FreeFrames(frames[f := false]) == FreeFrames(frames) + {f}
  {}

  lemma FrameTaken(frames: FrameMap, f: nat)
    requires f < PAGE_FRAME_MAX_COUNT && !frames[f]
    ensures f in FreeFrames(frames) && FreeFrames(frames[f := true]) == FreeFrames(frames) - {f}
  {}

  /** Allocation moves the lowest free frame, and nothing else, to the slot; the count follows. */
  lemma AllocateTakes(m: Machine, s: Slot)
    requires Inv(m) && Names(m, s) && CanAllocate(m.frames, m.dirs[s.dir], s.va)
    ensures var f, r := FirstFree(m.frames, 1), Allocate(m, s);
      && r.frames == m.frames[f := true]
      && r.free == m.free - 1
      && FreeFrames(r.frames) == FreeFrames(m.frames) - {f}
      && f in FreeFrames(m.frames)
  {
    var f := FirstFree(m.frames, 1);
    FreeIsBounded(m);
    FrameTaken(m.frames, f);
    hide FreeFrames, EntriesOK, Unshared, Accounted;
  }

  lemma AllocateMaps(m: Machine, s: Slot, d: nat, p: nat, g: nat)
    requires Names(m, s) && CanAllocate(m.frames, m.dirs[s.dir], s.va)
    ensures MapsTo(Allocate(m, s), d, p, g)
       <==> (if d == s.dir && p == PageIndex(s.va) then g == FirstFree(m.frames, 1) else MapsTo(m, d, p, g))
  {}

  lemma AllocateEntriesOK(m: Machine, s: Slot)
    requires Inv(m) && Names(m, s) && CanAllocate(m.frames, m.dirs[s.dir], s.va)
    ensures EntriesOK(Allocate(m, s))
  {}

  lemma NoMapToFree(m: Machine, d: nat, p: nat, f: nat)
    requires Inv(m) && f < PAGE_FRAME_MAX_COUNT && !m.frames[f]
    ensures !MapsTo(m, d, p, f)
  {}

  lemma AllocateInv(m: Machine, s: Slot)
    requires Inv(m) && Names(m, s)
    ensures Inv(Allocate(m, s))
  {
    var r := Allocate(m, s);
    if CanAllocate(m.frames, m.dirs[s.dir], s.va) {
      AllocateTakes(m, s);
      AllocateEntriesOK(m, s);
      var f, q := FirstFree(m.frames, 1), PageIndex(s.va);
      hide Allocate, EntriesOK, CanAllocate;
      forall d, p, d', p', g | MapsTo(r, d, p, g) && MapsTo(r, d', p', g)
        ensures d == d' && p == p'
      {
        hide MapsTo;
        AllocateMaps(m, s, d, p, g);
        AllocateMaps(m, s, d', p', g);
        NoMapToFree(m, d, p, f);
        NoMapToFree(m, d', p', f);
      }
      forall g | 0 < g < PAGE_FRAME_MAX_COUNT && r.frames[g]
        ensures exists d, p :: MapsTo(r, d, p, g)
      {
        hide MapsTo;
        if g == f {
          AllocateMaps(m, s, s.dir, q, f);
          assert MapsTo(r, s.dir, q, f);
        } else {
          var d, p :| MapsTo(m, d, p, g);
          AllocateMaps(m, s, d, p, g);
          assert MapsTo(r, d, p, g);
        }
      }
    } else {
      assert r == m;
    }
  }

  lemma FreeMaps(m: Machine, s: Slot, d: nat, p: nat, g: nat)
    requires Names(m, s) && CanFree(m.dirs[s.dir], s.va)
    ensures MapsTo(Free(m, s), d, p, g)
       <==> MapsTo(m, d, p, g) && (d != s.dir || p != PageIndex(s.va))
    ensures MapsTo(m, s.dir, PageIndex(s.va), EntryOf(m, s).lower)
  {}

  lemma FreeEntriesOK(m: Machine, s: Slot)
    requires Inv(m) && Names(m, s) && CanFree(m.dirs[s.dir], s.va)
    ensures EntriesOK(Free(m, s))
  {
    var r, q, f := Free(m, s), PageIndex(s.va), EntryOf(m, s).lower;
    assert MapsTo(m, s.dir, q, f);
    forall d, p | d in r.dirs && 0 <= p < PAGE_ENTRY_COUNT && r.dirs[d][p].present
      ensures var e := r.dirs[d][p];
        e == KERNEL_PDE || (0 < e.lower < PAGE_FRAME_MAX_COUNT && r.frames[e.lower] && e == UserPde(e.lower))
    {
      var e := m.dirs[d][p];
      assert r.dirs[d][p] == e;
      if e != KERNEL_PDE {
        assert MapsTo(m, d, p, e.lower);
      }
    }
  }

  lemma FreeGives(m: Machine, s: Slot)
    requires Inv(m) && Names(m, s) && CanFree(m.dirs[s.dir], s.va)
    ensures var f, r := EntryOf(m, s).lower, Free(m, s);
      && r.frames == m.frames[f := false]
      && r.free == m.free + 1
      && FreeFrames(r.frames) == FreeFrames(m.frames) + {f}
      && f !in FreeFrames(m.frames)
  {
    var f: nat := EntryOf(m, s).lower;
    assert m.frames[f];
    FreeIsBounded(m);
    FrameFreed(m.frames, f);
    hide FreeFrames, EntriesOK, Unshared, Accounted;
  }

  lemma FreeInv(m: Machine, s: Slot)
    requires Inv(m) && Names(m, s)
    ensures Inv(Free(m, s))
  {
    var r := Free(m, s);
    if CanFree(m.dirs[s.dir], s.va) {
      FreeGives(m, s);
      FreeEntriesOK(m, s);
      var q, f: nat := PageIndex(s.va), EntryOf(m, s).lower;
      hide Free, EntriesOK, CanFree;
      forall d, p, d', p', g | MapsTo(r, d, p, g) && MapsTo(r, d', p', g)
        ensures d == d' && p == p'
      {
        hide MapsTo;
        FreeMaps(m, s, d, p, g);
        FreeMaps(m, s, d', p', g);
      }
      forall g | 0 < g < PAGE_FRAME_MAX_COUNT && r.frames[g]
        ensures exists d, p :: MapsTo(r, d, p, g)
      {
        hide MapsTo;
        var d, p :| MapsTo(m, d, p, g);
        FreeMaps(m, s, d, p, g);
        assert MapsTo(r, d, p, g);
      }
    } else {
      assert r == m;
    }
  }

  lemma StepInv(m: Machine, e: Event)
    requires Inv(m) && Names(m, e.slot)
    ensures Inv(Step(m, e)) && Step(m, e).dirs.Keys == m.dirs.Keys
  {
    AllocateInv(m, e.slot);
    FreeInv(m, e.slot);
  }

  /** Whatever sequence of allocations and releases follows, on whichever directories, ownership stays exact. */
  lemma {:induction false} RunKeepsInv(m: Machine, es: seq<Event>)
    requires Inv(m) && Named(m, es)
    ensures Inv(Run(m, es))
    decreases |es|
  {
    if es != [] {
      StepInv(m, es[0]);
      hide Inv, Step;
      RunKeepsInv(Step(m, es[0]), es[1..]);
    }
  }

  /** Entries for frame 0 outlive every run, the kernel directory's entries 0 and 0x300 among them. */
  lemma {:induction false} KernelEntriesStay(m: Machine, es: seq<Event>, d: nat, p: nat)
    requires Named(m, es)
    requires d in m.dirs && p < PAGE_ENTRY_COUNT && m.dirs[d][p] == KERNEL_PDE
    ensures Run(m, es).dirs[d][p] == KERNEL_PDE
    decreases |es|
  {
    if es != [] {
      assert Step(m, es[0]).dirs[d][p] == KERNEL_PDE;
      KernelEntriesStay(Step(m, es[0]), es[1..], d, p);
    }
  }

  lemma KernelDirectoryStays(m: Machine, es: seq<Event>, d: nat)
    requires Booted(m) && Named(m, es) && d in m.dirs && m.dirs[d] == KernelTable()
    ensures Run(m, es).dirs[d][0] == KERNEL_PDE && Run(m, es).dirs[d][0x300] == KERNEL_PDE
    ensures Word(Run(m, es).dirs[d][0]) == 0x83 && Word(Run(m, es).dirs[d][0x300]) == 0x83
    ensures Inv(Run(m, es))
  {
    hide Inv, Run, Word;
    BootInv(m);
    RunKeepsInv(m, es);
    KernelEntriesStay(m, es, d, 0);
    KernelEntriesStay(m, es, d, 0x300);
    KernelPdeWord();
  }

  lemma KernelPdeWord()
    ensures Word(KERNEL_PDE) == 0x83
  {
    WordSum(KERNEL_PDE);
    hide Word;
  }

  // ---------------------------------------------------------------- isolation

  function WordAt(m: Machine, s: Slot): nat
    requires Names(m, s)
  {
    Word(EntryOf(m, s))
  }

  /** How the processor reads the bits of a word, with 4 MiB pages on. */
  predicate HardwarePresent(w: nat) {
    w % 2 == 1
  }

  predicate HardwareWritable(w: nat) {
    w / 2 % 2 == 1
  }

  predicate HardwareUser(w: nat) {
    w / 4 % 2 == 1
  }

  /** A present entry maps a page itself; without this bit it points to a table of 4 KiB pages. */
  predicate HardwareLarge(w: nat) {
    w / 128 % 2 == 1
  }

  /** The physical address behind an entry that maps a 4 MiB page: the top ten bits, then the offset. */
  function Physical(m: Machine, s: Slot): nat
    requires Names(m, s) && HardwarePresent(WordAt(m, s)) && HardwareLarge(WordAt(m, s))
  {
    WordAt(m, s) / 0x40_0000 * 0x40_0000 + s.va % 0x40_0000
  }

  /** User code reaches the address: the word is present, a user page, and a 4 MiB one. */
  predicate UserReaches(m: Machine, s: Slot) {
    && Names(m, s)
    && HardwarePresent(WordAt(m, s)) && HardwareUser(WordAt(m, s)) && HardwareLarge(WordAt(m, s))
  }

  lemma PresentBit(e: Pde)
    ensures HardwarePresent(Word(e)) <==> e.present
  {
    var rest := Bit(e.write) + 0x2 * Bit(e.user) + 0x4 * Bit(e.pwt) + 0x8 * Bit(e.pcd)
      + 0x10 * Bit(e.accessed) + 0x20 * Bit(e.dirty) + 0x40 * Bit(e.pageSize4Mb) + 0x80 * Bit(e.globalPage)
      + 0x100 * e.available + 0x800 * Bit(e.pat) + 0x1000 * e.reservedHigh + 0x20_0000 * e.lower;
    WordSum(e);
    assert Word(e) == Bit(e.present) + 2 * rest;
  }

  /** What an entry's word can be: not present, the kernel's, or a writable user page of a used frame. */
  lemma WordForms(m: Machine, s: Slot)
    requires Inv(m) && Names(m, s)
    ensures var w, e := WordAt(m, s), EntryOf(m, s);
      || (!HardwarePresent(w) && !e.present)
      || (w == 0x83 && e.present && e.lower == 0)
      || (w == 0x87 + 0x40_0000 * e.lower && e.present && 1 <= e.lower < 32 && m.frames[e.lower])
  {
    PresentBit(EntryOf(m, s));
    WordSum(EntryOf(m, s));
    hide Word, HardwarePresent;
  }

  lemma UserWord(f: nat)
    requires 1 <= f < 32
    ensures var w := 0x87 + 0x40_0000 * f;
      && HardwarePresent(w) && HardwareWritable(w) && HardwareUser(w) && HardwareLarge(w)
      && w / 0x40_0000 == f
  {}

  lemma UserPdeWord(f: nat)
    requires f < 32
    ensures Word(UserPde(f)) == 0x87 + 0x40_0000 * f
  {
    WordSum(UserPde(f));
    hide Word;
  }

  lemma KernelWord()
    ensures HardwarePresent(0x83) && HardwareWritable(0x83) && !HardwareUser(0x83) && HardwareLarge(0x83)
  {}

  /** What user code reaches it may also write, and the word is 0x87 with the number of a frame in its top bits. */
  lemma ReachedWord(m: Machine, s: Slot)
    requires Inv(m) && UserReaches(m, s)
    ensures HardwareWritable(WordAt(m, s))
    ensures var f := WordAt(m, s) / 0x40_0000;
      1 <= f < 32 && m.frames[f] && WordAt(m, s) == 0x87 + 0x40_0000 * f && EntryOf(m, s).lower == f
    ensures EntryOf(m, s).present
  {
    hide Word, Inv, HardwarePresent, HardwareWritable, HardwareUser, HardwareLarge;
    WordForms(m, s);
    KernelWord();
    var f := EntryOf(m, s).lower;
    if WordAt(m, s) != 0x83 {
      UserWord(f);
    }
  }

  /** No byte of memory has two user addresses, none lies in frame 0, and none lies past 128 MiB. */
  lemma Isolation(m: Machine, s: Slot, t: Slot)
    requires Inv(m) && UserReaches(m, s) && UserReaches(m, t)
    ensures 0x40_0000 <= Physical(m, s) < 0x800_0000
    ensures Physical(m, s) == Physical(m, t) ==> s == t
  {
    hide Word, HardwarePresent, HardwareWritable, HardwareUser, HardwareLarge, EntriesOK, Accounted;
    ReachedWord(m, s);
    ReachedWord(m, t);
    assert MapsTo(m, s.dir, PageIndex(s.va), EntryOf(m, s).lower);
    assert MapsTo(m, t.dir, PageIndex(t.va), EntryOf(m, t).lower);
    if Physical(m, s) == Physical(m, t) {
      assert EntryOf(m, s).lower == EntryOf(m, t).lower;
      assert s.dir == t.dir && PageIndex(s.va) == PageIndex(t.va);
    }
  }

  /** A present word is the kernel's 0x83, which user code does not reach, or one that user code reaches and writes. */
  predicate SoundWord(m: Machine, s: Slot)
    requires Names(m, s)
  {
    && (HardwarePresent(WordAt(m, s)) ==> WordAt(m, s) == 0x83 || UserReaches(m, s))
    && (UserReaches(m, s) ==> HardwareWritable(WordAt(m, s)) && WordAt(m, s) % 0x40_0000 == 0x87)
  }

  lemma WordIsSound(m: Machine, s: Slot)
    requires Inv(m) && Names(m, s)
    ensures SoundWord(m, s)
  {
    hide Word, Inv, HardwarePresent, HardwareWritable, HardwareUser, HardwareLarge;
    WordForms(m, s);
    KernelWord();
    if HardwarePresent(WordAt(m, s)) && WordAt(m, s) != 0x83 {
      UserWord(EntryOf(m, s).lower);
    }
  }

  lemma WordsAfterRun(m: Machine, es: seq<Event>, s: Slot)
    requires Booted(m) && Named(m, es) && Names(Run(m, es), s)
    ensures SoundWord(Run(m, es), s)
  {
    BootInv(m);
    RunKeepsInv(m, es);
    hide SoundWord, Inv, Run;
    WordIsSound(Run(m, es), s);
  }

  /** An allocation writes the word 0x87 for the lowest frame above 0 that is free. */
  lemma AllocatedWord(m: Machine, s: Slot)
    requires Names(m, s) && CanAllocate(m.frames, m.dirs[s.dir], s.va)
    ensures exists f: nat | 1 <= f < 32 && !m.frames[f] ::
      (forall k | 1 <= k < f :: m.frames[k]) && WordAt(Allocate(m, s), s) == 0x87 + 0x40_0000 * f
      && Allocate(m, s).frames == m.frames[f := true]
  {
    hide Word, UserPde;
    var f := FirstFree(m.frames, 1);
    assert !m.frames[f] && EntryOf(Allocate(m, s), s) == UserPde(f);
    UserPdeWord(f);
  }

  /** A free writes the word 0 and gives back the frame the entry's word named. */
  lemma FreedWord(m: Machine, s: Slot)
    requires Inv(m) && Names(m, s) && CanFree(m.dirs[s.dir], s.va)
    ensures 1 <= WordAt(m, s) / 0x40_0000 < 32
    ensures WordAt(Free(m, s), s) == 0
    ensures Free(m, s).frames == m.frames[WordAt(m, s) / 0x40_0000 := false]
  {
    ZeroPdeWord();
    hide Word, UserReaches, HardwarePresent, HardwareWritable, HardwareUser, HardwareLarge;
    Outcomes(m, s);
    ReachedWord(m, s);
    assert EntryOf(Free(m, s), s) == ZERO_PDE;
  }

  lemma ZeroPdeWord()
    ensures Word(ZERO_PDE) == 0
  {
    WordSum(ZERO_PDE);
    hide Word;
  }

  /** A step changes what no other page of any directory is mapped to. */
  lemma StepFrame(m: Machine, e: Event, s: Slot)
    requires Names(m, e.slot) && Names(m, s)
    requires s.dir != e.slot.dir || PageIndex(s.va) != PageIndex(e.slot.va)
    ensures Names(Step(m, e), s) && EntryOf(Step(m, e), s) == EntryOf(m, s)
  {}

  /** The processor's reading of a word and the fields of its entry. */
  lemma ReadsAsFields(m: Machine, s: Slot)
    requires Inv(m) && Names(m, s)
    ensures var e := EntryOf(m, s);
      && (HardwarePresent(WordAt(m, s)) <==> e.present)
      && (UserReaches(m, s) <==> e.present && 0 < e.lower < PAGE_FRAME_MAX_COUNT)
  {
    hide Word, Inv, HardwarePresent, HardwareWritable, HardwareUser, HardwareLarge;
    WordForms(m, s);
    KernelWord();
    var e := EntryOf(m, s);
    if e.present && e.lower != 0 {
      UserWord(e.lower);
    }
  }

  /** When the calls say yes: an entry whose word is not present while any frame is left; a page user code reaches,
      never the kernel's. */
  lemma Outcomes(m: Machine, s: Slot)
    requires Inv(m) && Names(m, s)
    ensures CanAllocate(m.frames, m.dirs[s.dir], s.va) <==> !HardwarePresent(WordAt(m, s)) && m.free > 0
    ensures CanFree(m.dirs[s.dir], s.va) <==> UserReaches(m, s)
  {
    FreeIsBounded(m);
    ReadsAsFields(m, s);
    hide Inv, UserReaches, HardwarePresent, Word, FirstFree;
  }

  // ---------------------------------------------------------------- conservation

  ghost function MappedBelow(m: Machine, k: nat): set<(nat, nat)> {
    set d, p | d in m.dirs && 0 <= p < PAGE_ENTRY_COUNT && Maps(m, d, p) && m.dirs[d][p].lower < k :: (d, p)
  }

  lemma MappedAt(m: Machine, f: nat, x: (nat, nat))
    requires f > 0
    ensures x in MappedBelow(m, f + 1) <==> x in MappedBelow(m, f) || MapsTo(m, x.0, x.1, f)
    ensures MapsTo(m, x.0, x.1, f) ==> x !in MappedBelow(m, f)
  {}

  lemma MappedOnce(m: Machine, f: nat, d: nat, p: nat, x: (nat, nat))
    requires Inv(m) && MapsTo(m, d, p, f)
    ensures MapsTo(m, x.0, x.1, f) <==> x == (d, p)
  {}

  lemma MappedBelowNext(m: Machine, f: nat)
    requires Inv(m) && 0 < f < PAGE_FRAME_MAX_COUNT
    ensures |MappedBelow(m, f + 1)| == |MappedBelow(m, f)| + (if m.frames[f] then 1 else 0)
  {
    hide MappedBelow, MapsTo;
    if m.frames[f] {
      var d: nat, p: nat :| MapsTo(m, d, p, f);
      hide Inv;
      forall x: (nat, nat)
        ensures x in MappedBelow(m, f + 1) <==> x in MappedBelow(m, f) + {(d, p)}
      {
        MappedAt(m, f, x);
        MappedOnce(m, f, d, p, x);
      }
      assert MappedBelow(m, f + 1) == MappedBelow(m, f) + {(d, p)};
      MappedAt(m, f, (d, p));
    } else {
      hide Inv;
      forall x: (nat, nat)
        ensures x in MappedBelow(m, f + 1) <==> x in MappedBelow(m, f)
      {
        MappedAt(m, f, x);
        NoMapToFree(m, x.0, x.1, f);
      }
      assert MappedBelow(m, f + 1) == MappedBelow(m, f);
    }
  }

  lemma {:induction false} ConservedBelow(m: Machine, k: nat)
    requires Inv(m) && 1 <= k <= PAGE_FRAME_MAX_COUNT
    ensures |MappedBelow(m, k)| + |FreeBelow(m.frames, k)| == k - 1
  {
    if k == 1 {
      assert MappedBelow(m, 1) == {} && FreeBelow(m.frames, 1) == {};
    } else {
      hide Inv, MappedBelow, FreeBelow;
      ConservedBelow(m, k - 1);
      MappedBelowNext(m, k - 1);
      FreeBelowNext(m.frames, k - 1);
    }
  }

  /** Over all directories together, user mappings and free frames always add up to 31. */
  lemma Conservation(m: Machine)
    requires Inv(m)
    ensures |set d, p | d in m.dirs && 0 <= p < PAGE_ENTRY_COUNT && Maps(m, d, p) :: (d, p)| + m.free == 31
  {
    ConservedBelow(m, PAGE_FRAME_MAX_COUNT);
    assert FreeBelow(m.frames, PAGE_FRAME_MAX_COUNT) == FreeFrames(m.frames);
    assert MappedBelow(m, PAGE_FRAME_MAX_COUNT)
        == set d, p | d in m.dirs && 0 <= p < PAGE_ENTRY_COUNT && Maps(m, d, p) :: (d, p);
  }

  // ---------------------------------------------------------------- undo

  /** A release right after an allocation restores the machine exactly when the entry was all zero before. */
  lemma AllocateThenFree(m: Machine, s: Slot)
    requires Inv(m) && Names(m, s) && CanAllocate(m.frames, m.dirs[s.dir], s.va)
    ensures CanFree(Allocate(m, s).dirs[s.dir], s.va)
    ensures Free(Allocate(m, s), s) == m <==> EntryOf(m, s) == ZERO_PDE
  {
    AllocateTakes(m, s);
    FreeIsBounded(m);
    var a, f, q := Allocate(m, s), FirstFree(m.frames, 1), PageIndex(s.va);
    var b := Free(a, s);
    assert b.frames == m.frames && b.free == m.free;
    assert EntryOf(b, s) == ZERO_PDE;
    if EntryOf(m, s) == ZERO_PDE {
      assert b.dirs[s.dir] == m.dirs[s.dir];
      assert b.dirs == m.dirs;
    }
  }

  // ---------------------------------------------------------------- admission

  /** How many whole frames hold that many bytes. */
  function FramesFor(amount: u32): (n: nat)
    ensures n * PAGE_FRAME_SIZE >= amount
    ensures n == 0 || (n - 1) * PAGE_FRAME_SIZE < amount
  {
    if amount == 0 then 0 else (amount - 1) / PAGE_FRAME_SIZE + 1
  }

  /** The check as it is computed, in 32-bit arithmetic. */
  predicate Admits(amount: u32, free: u32) {
    (amount + PAGE_FRAME_SIZE - 1) % 0x1_0000_0000 / PAGE_FRAME_SIZE <= free
  }

  /** Requests for distinct pages, none of them mapped. */
  predicate Fresh(m: Machine, ss: seq<Slot>) {
    && (forall i | 0 <= i < |ss| :: Names(m, ss[i]) && !EntryOf(m, ss[i]).present)
    && (forall i, j | 0 <= i < j < |ss| :: ss[i].dir != ss[j].dir || PageIndex(ss[i].va) != PageIndex(ss[j].va))
  }

  predicate AllSucceed(m: Machine, ss: seq<Slot>)
    decreases |ss|
  {
    |ss| == 0
    || (var s := ss[0];
        Names(m, s) && CanAllocate(m.frames, m.dirs[s.dir], s.va) && AllSucceed(Allocate(m, s), ss[1..]))
  }

  lemma FreshStays(m: Machine, ss: seq<Slot>)
    requires Fresh(m, ss) && |ss| > 0
    ensures Fresh(Allocate(m, ss[0]), ss[1..])
  {
    var r, rest := Allocate(m, ss[0]), ss[1..];
    forall i | 0 <= i < |rest|
      ensures Names(r, rest[i]) && !EntryOf(r, rest[i]).present
    {
      assert rest[i] == ss[i + 1];
      StepFrame(m, Alloc(ss[0]), ss[i + 1]);
    }
  }

  /** Requests for distinct unmapped pages all succeed exactly when there are frames enough for them. */
  lemma {:induction false} EnoughFrames(m: Machine, ss: seq<Slot>)
    requires Inv(m) && Fresh(m, ss)
    ensures AllSucceed(m, ss) <==> |ss| <= m.free
    decreases |ss|
  {
    if ss != [] {
      FreeIsBounded(m);
      FreshStays(m, ss);
      if CanAllocate(m.frames, m.dirs[ss[0].dir], ss[0].va) {
        AllocateInv(m, ss[0]);
        AllocateTakes(m, ss[0]);
        EnoughFrames(Allocate(m, ss[0]), ss[1..]);
      }
    }
  }

  lemma AdmitsCounts(amount: u32, free: u32)
    requires amount <= 0x1_0000_0000 - PAGE_FRAME_SIZE
    ensures Admits(amount, free) <==> FramesFor(amount) <= free
  {}

  /** Up to 2^32 - 2^22 bytes the check says yes exactly when that many allocations in a row would succeed. */
  lemma AdmissionExact(m: Machine, amount: u32, ss: seq<Slot>)
    requires Inv(m) && Fresh(m, ss) && |ss| == FramesFor(amount)
    requires amount <= 0x1_0000_0000 - PAGE_FRAME_SIZE
    ensures Admits(amount, m.free) <==> AllSucceed(m, ss)
  {
    AdmitsCounts(amount, m.free);
    EnoughFrames(m, ss);
  }

  /** The bound is sharp: the check tells the truth about an amount if and only if its rounding does not wrap. */
  lemma AdmissionLimit(m: Machine, amount: u32)
    requires Inv(m)
    ensures (Admits(amount, m.free) <==> FramesFor(amount) <= m.free) <==> amount <= 0x1_0000_0000 - PAGE_FRAME_SIZE
  {
    FreeIsBounded(m);
    if amount <= 0x1_0000_0000 - PAGE_FRAME_SIZE {
      AdmitsCounts(amount, m.free);
    } else {
      assert (amount + PAGE_FRAME_SIZE - 1) % 0x1_0000_0000 == amount + PAGE_FRAME_SIZE - 1 - 0x1_0000_0000;
      assert FramesFor(amount) == 1024;
    }
  }

  /** With no frame left at all, a request for the last byte of the address space is still admitted. */
  lemma AdmissionWraps()
    ensures Admits(0xFFFF_FFFF, 0) && FramesFor(0xFFFF_FFFF) == 1024
  {
    assert (0xFFFF_FFFF + PAGE_FRAME_SIZE - 1) % 0x1_0000_0000 == PAGE_FRAME_SIZE - 2;
  }

  // ---------------------------------------------------------------- the code

  lemma LowerBits(frame: nat)
    requires frame < PAGE_FRAME_MAX_COUNT
    ensures frame * PAGE_FRAME_SIZE % 0x1_0000_0000 / PAGE_FRAME_SIZE % 0x400 == frame
  {}

  class PageDirectory {
    const table: array<Pde>

    predicate Valid() {
      table.Length == PAGE_ENTRY_COUNT
    }

    /** The kernel's directory as compiled in: two entries for frame 0. */
    constructor Kernel()
      ensures Valid() && fresh(table)
      ensures table[..] == KernelTable()
    {
      var t := new Pde[PAGE_ENTRY_COUNT](_ => ZERO_PDE);
      t[0] := KERNEL_PDE;
      t[0x300] := KERNEL_PDE;
      table := t;
      new;
      assert table[..] == KernelTable();
    }

    /** Zeroed memory: no page is mapped. */
    constructor Zeroed()
      ensures Valid() && fresh(table)
      ensures table[..] == ZeroTable()
    {
      table := new Pde[PAGE_ENTRY_COUNT](_ => ZERO_PDE);
      new;
      assert table[..] == ZeroTable();
    }
  }

  class PageManager {
    const frameMap: array<bool>
    var freeCount: u32

    predicate Valid() {
      frameMap.Length == PAGE_FRAME_MAX_COUNT
    }

    constructor ()
      ensures Valid() && fresh(frameMap)
      ensures frameMap[..] == [true] + seq(31, _ => false) && freeCount == 31
    {
      var t := new bool[PAGE_FRAME_MAX_COUNT](_ => false);
      t[0] := true;
      frameMap := t;
      freeCount := PAGE_FRAME_MAX_COUNT - 1;
      new;
      assert frameMap[..] == [true] + seq(31, _ => false);
    }

    method AllocateCheck(amount: u32) returns (enough: bool)
      requires Valid()
      ensures enough == Admits(amount, freeCount)
      ensures amount <= 0x1_0000_0000 - PAGE_FRAME_SIZE ==> (enough <==> FramesFor(amount) <= freeCount)
    {
      if amount <= 0x1_0000_0000 - PAGE_FRAME_SIZE {
        AdmitsCounts(amount, freeCount);
      }
      var required := (amount + PAGE_FRAME_SIZE - 1) % 0x1_0000_0000 / PAGE_FRAME_SIZE;
      enough := required <= freeCount;
    }

    /** The manager and the one directory end up as `AllocateIn` says; nothing else is touched. */
    method AllocateUserPageFrame(dir: PageDirectory, va: u32) returns (ok: bool)
      requires Valid() && dir.Valid()
      modifies this`freeCount, frameMap, dir.table
      ensures ok == old(CanAllocate(frameMap[..], dir.table[..], va))
      ensures View(frameMap[..], freeCount, dir.table[..])
           == AllocateIn(old(View(frameMap[..], freeCount, dir.table[..])), va)
      ensures ok ==> Word(dir.table[PageIndex(va)]) == 0x87 + 0x40_0000 * FirstFree(old(frameMap[..]), 1)
    {
      hide Word;
      var page := PageIndex(va);
      if dir.table[page].present {
        return false;
      }
      ghost var w := View(frameMap[..], freeCount, dir.table[..]);
      var frame := 0;
      var found := false;
      var i := 1;
      while i < PAGE_FRAME_MAX_COUNT && !found
        invariant 1 <= i <= PAGE_FRAME_MAX_COUNT
        invariant found ==> 1 <= frame < PAGE_FRAME_MAX_COUNT && frame == FirstFree(w.frames, 1)
        invariant !found ==> FirstFree(w.frames, 1) == FirstFree(w.frames, i)
        decreases PAGE_FRAME_MAX_COUNT - i, !found
      {
        if !frameMap[i] {
          frame := i;
          found := true;
        } else {
          i := i + 1;
        }
      }
      if !found {
        return false;
      }
      frameMap[frame] := true;
      freeCount := (freeCount - 1) % 0x1_0000_0000;
      LowerBits(frame);
      var physical := frame * PAGE_FRAME_SIZE % 0x1_0000_0000;
      var entry := ZERO_PDE.(present := true, write := true, user := true, pageSize4Mb := true,
                             lower := physical / PAGE_FRAME_SIZE % 0x400);
      dir.table[page] := entry;
      assert dir.table[..] == w.table[page := UserPde(frame)];
      UserPdeWord(frame);
      return true;
    }

    method FreeUserPageFrame(dir: PageDirectory, va: u32) returns (ok: bool)
      requires Valid() && dir.Valid()
      modifies this`freeCount, frameMap, dir.table
      ensures ok == old(CanFree(dir.table[..], va))
      ensures View(frameMap[..], freeCount, dir.table[..])
           == FreeIn(old(View(frameMap[..], freeCount, dir.table[..])), va)
    {
      var page := PageIndex(va);
      if !dir.table[page].present {
        return false;
      }
      var frame := dir.table[page].lower;
      if frame >= PAGE_FRAME_MAX_COUNT {
        return false;
      }
      if frame == 0 {
        return false;
      }
      if frameMap[frame] {
        frameMap[frame] := false;
        freeCount := (freeCount + 1) % 0x1_0000_0000;
      }
      dir.table[page] := ZERO_PDE;
      return true;
    }
  }

  // ---------------------------------------------------------------- the code as the machine

  /** Directories that share no table. */
  ghost predicate Apart(dirs: seq<PageDirectory>) {
    && (forall i | 0 <= i < |dirs| :: dirs[i].Valid())
    && forall i, j | 0 <= i < j < |dirs| :: dirs[i].table != dirs[j].table
  }

  ghost function Tables(dirs: seq<PageDirectory>): set<object> {
    set i | 0 <= i < |dirs| :: dirs[i].table
  }

  /** One manager and some directories, each under its index. */
  ghost function MachineOf(manager: PageManager, dirs: seq<PageDirectory>): Machine
    requires manager.Valid() && Apart(dirs)
    reads manager, manager.frameMap, Tables(dirs)
  {
    Machine(manager.frameMap[..], manager.freeCount, map i: nat | i < |dirs| :: dirs[i].table[..])
  }

  method PerformOne(manager: PageManager, dirs: seq<PageDirectory>, e: Event) returns (ok: bool)
    requires manager.Valid() && Apart(dirs) && e.slot.dir < |dirs|
    modifies manager`freeCount, manager.frameMap, Tables(dirs)
    ensures ok == Succeeds(old(MachineOf(manager, dirs)), e)
    ensures MachineOf(manager, dirs) == Step(old(MachineOf(manager, dirs)), e)
  {
    hide AllocateIn, FreeIn, CanAllocate, CanFree;
    var d := dirs[e.slot.dir];
    assert d.table in Tables(dirs);
    ghost var m := MachineOf(manager, dirs);
    match e
    case Alloc(s) => ok := manager.AllocateUserPageFrame(d, s.va);
    case Release(s) => ok := manager.FreeUserPageFrame(d, s.va);
    assert forall i | 0 <= i < |dirs| && i != e.slot.dir :: dirs[i].table[..] == m.dirs[i];
    assert MachineOf(manager, dirs).dirs == m.dirs[e.slot.dir := d.table[..]];
  }

  lemma AllNamed(manager: PageManager, dirs: seq<PageDirectory>, es: seq<Event>)
    requires manager.Valid() && Apart(dirs) && forall i | 0 <= i < |es| :: es[i].slot.dir < |dirs|
    ensures Named(MachineOf(manager, dirs), es)
  {}

  /** Any sequence of calls on any directories is a run of the machine, answer by answer. */
  method Perform(manager: PageManager, dirs: seq<PageDirectory>, es: seq<Event>) returns (oks: seq<bool>)
    requires manager.Valid() && Apart(dirs) && forall i | 0 <= i < |es| :: es[i].slot.dir < |dirs|
    modifies manager`freeCount, manager.frameMap, Tables(dirs)
    ensures Named(old(MachineOf(manager, dirs)), es)
    ensures oks == Answers(old(MachineOf(manager, dirs)), es)
    ensures MachineOf(manager, dirs) == Run(old(MachineOf(manager, dirs)), es)
    ensures Inv(old(MachineOf(manager, dirs))) ==> Inv(MachineOf(manager, dirs))
    decreases |es|
  {
    hide Step, Succeeds, Inv, MachineOf;
    ghost var m := MachineOf(manager, dirs);
    AllNamed(manager, dirs, es);
    if es == [] {
      oks := [];
    } else {
      var ok := PerformOne(manager, dirs, es[0]);
      var rest := Perform(manager, dirs, es[1..]);
      oks := [ok] + rest;
    }
    if Inv(m) {
      RunKeepsInv(m, es);
    }
  }

  /** A new manager, the kernel's directory and `k` zeroed ones: the machine at boot. */
  method Boot(k: nat) returns (manager: PageManager, dirs: seq<PageDirectory>)
    ensures fresh(manager) && fresh(manager.frameMap) && fresh(Tables(dirs))
    ensures manager.Valid() && Apart(dirs) && |dirs| == k + 1
    ensures MachineOf(manager, dirs) == BootMachine(k)
  {
    hide KernelTable, ZeroTable, BootTable, BootMachine, MachineOf;
    manager := new PageManager();
    BootTables();
    var kernel := new PageDirectory.Kernel();
    dirs := [kernel];
    var i := 0;
    while i < k
      invariant 0 <= i <= k && |dirs| == i + 1
      invariant fresh(manager) && fresh(manager.frameMap) && fresh(Tables(dirs))
      invariant manager.Valid() && Apart(dirs)
      invariant manager.frameMap[..] == [true] + seq(31, _ => false) && manager.freeCount == 31
      invariant forall j | 0 <= j <= i :: dirs[j].table[..] == BootTable(j)
    {
      var zeroed := new PageDirectory.Zeroed();
      TablesGrow(dirs, zeroed);
      assert forall j | 0 <= j <= i :: dirs[j].table in Tables(dirs);
      dirs := dirs + [zeroed];
      i := i + 1;
    }
    BootMatches(manager, dirs, k);
  }

  lemma BootTables()
    ensures BootTable(0) == KernelTable()
    ensures forall d | d > 0 :: BootTable(d) == ZeroTable()
  {}

  lemma BootMatches(manager: PageManager, dirs: seq<PageDirectory>, k: nat)
    requires manager.Valid() && Apart(dirs) && |dirs| == k + 1
    requires manager.frameMap[..] == [true] + seq(31, _ => false) && manager.freeCount == 31
    requires forall j | 0 <= j <= k :: dirs[j].table[..] == BootTable(j)
    ensures MachineOf(manager, dirs) == BootMachine(k)
  {
    hide BootTable;
    assert MachineOf(manager, dirs).dirs == BootMachine(k).dirs;
  }

  lemma TablesGrow(dirs: seq<PageDirectory>, d: PageDirectory)
    ensures Tables(dirs + [d]) == Tables(dirs) + {d.table}
  {
    assert forall i | 0 <= i < |dirs| :: (dirs + [d])[i] == dirs[i];
    assert (dirs + [d])[|dirs|] == d;
  }

  /** From boot, any sequence of calls on any of the directories: state and answers of the machine's run, frames owned
      exactly, and the kernel's two entries as compiled in. */
  method BootAndPerform(k: nat, es: seq<Event>)
    returns (manager: PageManager, dirs: seq<PageDirectory>, oks: seq<bool>)
    requires forall i | 0 <= i < |es| :: es[i].slot.dir <= k
    ensures manager.Valid() && Apart(dirs) && |dirs| == k + 1
    ensures Named(BootMachine(k), es)
    ensures MachineOf(manager, dirs) == Run(BootMachine(k), es) && oks == Answers(BootMachine(k), es)
    ensures Inv(MachineOf(manager, dirs))
    ensures Word(dirs[0].table[0]) == 0x83 && Word(dirs[0].table[0x300]) == 0x83
  {
    hide Inv, Run, Answers, Word;
    manager, dirs := Boot(k);
    BootMachineBooted(k);
    BootInv(BootMachine(k));
    oks := Perform(manager, dirs, es);
    KernelDirectoryStays(BootMachine(k), es, 0);
    assert MachineOf(manager, dirs).dirs[0] == dirs[0].table[..];
  }
}
