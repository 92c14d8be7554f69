/** The console behind the PUTCHAR and PUTS system calls: 25 rows of 80 cells scrolled in place. */
module Console {
  import opened Bytes

  const WIDTH: nat := 80
  const HEIGHT: nat := 25
  const CELLS: nat := 2000

  const BACKSPACE: byte := 0x08
  const NEWLINE: byte := 0x0A
  const SPACE: byte := 0x20
  const LIGHT_GRAY: byte := 7

  type Cells = s: seq<u16> | |s| == CELLS witness seq(2000, _ => 0)

  type Line = s: seq<u16> | |s| == WIDTH witness seq(80, _ => 0)

  /** Background in the upper four bits, foreground in the lower four. */
  function Attribute(fg: byte, bg: byte): byte {
    bg % 16 * 16 + fg % 16
  }

  /**
   * The word stored for a character. A character is signed, so from 0x80 on its sign extension
   * overwrites the attribute byte: the colour asked for is then shown only if it was 0xFF anyway.
   */
  function CellOf(c: byte, fg: byte, bg: byte): (w: u16)
    ensures w % 256 == c
    ensures c < 0x80 ==> w / 256 % 16 == fg % 16 && w / 256 / 16 == bg % 16
    ensures c >= 0x80 ==> w / 256 == 0xFF
    ensures w / 256 == Attribute(fg, bg) <==> c < 0x80 || Attribute(fg, bg) == 0xFF
  {
    if c < 0x80 then c + Attribute(fg, bg) * 256 else 0xFF00 + c
  }

  const BLANK: u16 := CellOf(SPACE, LIGHT_GRAY, 0)

  /** A character as it is asked for. */
  datatype Typed = Typed(c: byte, color: byte)

  // ---------------------------------------------------------------- the screen

  datatype Screen = Screen(cells: Cells, row: nat, col: nat)

  predicate Inside(s: Screen) {
    s.row < HEIGHT && s.col < WIDTH
  }

  function Shifted(cells: Cells): Cells {
    cells[WIDTH..] + seq(WIDTH, _ => BLANK)
  }

  function Scrolled(s: Screen): Screen {
    if s.row >= HEIGHT then Screen(Shifted(s.cells), HEIGHT - 1, s.col) else s
  }

  function Written(s: Screen, c: byte, color: byte): Screen
    requires Inside(s)
  {
    s.(cells := s.cells[s.row * WIDTH + s.col := CellOf(c, color, 0)])
  }

  function Left(s: Screen): Screen {
    if s.col > 0 then s.(col := s.col - 1)
    else if s.row > 0 then s.(row := s.row - 1, col := WIDTH - 1)
    else s
  }

  function Right(s: Screen): Screen {
    if s.col + 1 >= WIDTH then s.(row := s.row + 1, col := 0) else s.(col := s.col + 1)
  }

  /** One character, before any scrolling. */
  function Placed(s: Screen, t: Typed): Screen
    requires Inside(s)
  {
    if t.c == BACKSPACE then Written(Left(s), SPACE, t.color)
    else if t.c == NEWLINE then s.(row := s.row + 1, col := 0)
    else Right(Written(s, t.c, t.color))
  }

  function Put(s: Screen, t: Typed): (r: Screen)
    requires Inside(s)
    ensures Inside(r)
  {
    Scrolled(Placed(s, t))
  }

  /** A character from 0x80 up in light gray on black is shown with attribute 0xFF. */
  lemma ColorLost(s: Screen)
    requires Inside(s) && s.row < HEIGHT - 1
    ensures Attribute(LIGHT_GRAY, 0) == 0x07
    ensures Put(s, Typed(0x80, LIGHT_GRAY)).cells[s.row * WIDTH + s.col] == 0xFF80
  {
    assert Placed(s, Typed(0x80, LIGHT_GRAY)) == Right(Written(s, 0x80, LIGHT_GRAY));
  }

  function Feed(s: Screen, ts: seq<Typed>): (r: Screen)
    requires Inside(s)
    ensures Inside(r)
    decreases |ts|
  {
    if ts == [] then s else Feed(Put(s, ts[0]), ts[1..])
  }

  /** PUTS of a string in two calls, or one PUTCHAR a character, leaves what one PUTS leaves. */
  lemma {:induction false} FeedSplits(s: Screen, a: seq<Typed>, b: seq<Typed>)
    requires Inside(s)
    ensures Feed(s, a + b) == Feed(Feed(s, a), b)
    decreases |a|
  {
    if a == [] {
      assert a + b == b;
    } else {
      assert (a + b)[1..] == a[1..] + b;
      FeedSplits(Put(s, a[0]), a[1..], b);
    }
  }

  /** PUTCHAR of each character of a string in turn, all in one colour. */
  function PutAll(s: Screen, str: seq<byte>, color: byte): (r: Screen)
    requires Inside(s)
    ensures Inside(r)
    decreases |str|
  {
    if str == [] then s else PutAll(Put(s, Typed(str[0], color)), str[1..], color)
  }

  lemma {:induction false} PutAllFeeds(s: Screen, str: seq<byte>, color: byte, ts: seq<Typed>)
    requires Inside(s)
    requires |ts| == |str| && forall i | 0 <= i < |ts| :: ts[i] == Typed(str[i], color)
    ensures PutAll(s, str, color) == Feed(s, ts)
    decreases |str|
  {
    if str != [] {
      hide Put;
      PutAllFeeds(Put(s, ts[0]), str[1..], color, ts[1..]);
    }
  }

  lemma PutAllStep(s: Screen, str: seq<byte>, i: nat, color: byte)
    requires Inside(s) && i <= |str|
    ensures PutAll(s, str[i..], color)
         == if i == |str| then s else PutAll(Put(s, Typed(str[i], color)), str[i + 1..], color)
  {
    assert i < |str| ==> str[i..][1..] == str[i + 1..];
  }

  // ---------------------------------------------------------------- what single characters do to the screen

  predicate Printable(c: byte) {
    c != 0x08 && c != 0x0A && c < 0x80
  }

  function Position(s: Screen): nat {
    s.row * 80 + s.col
  }

  /** A letter goes to the cursor's cell in its colour on black; the cursor moves on. */
  lemma PutLetter(s: Screen, c: byte, color: byte)
    requires Inside(s) && Printable(c) && Position(s) < 1999
    ensures var r := Put(s, Typed(c, color));
      r.cells == s.cells[Position(s) := c + 256 * (color % 16)] && Position(r) == Position(s) + 1
  {}

  /** A backspace goes back one cell, unless in the first, and leaves a space there. */
  lemma PutBackspace(s: Screen, color: byte)
    requires Inside(s)
    ensures var r, b := Put(s, Typed(0x08, color)), if Position(s) == 0 then 0 else Position(s) - 1;
      r.cells == s.cells[b := 0x20 + 256 * (color % 16)] && Position(r) == b
  {}

  /** A new line goes to the start of the next row; below the last, every row moves up and the last turns blank. */
  lemma PutNewline(s: Screen, color: byte)
    requires Inside(s)
    ensures var r := Put(s, Typed(0x0A, color));
      if s.row < 24 then r == Screen(s.cells, s.row + 1, 0)
      else r.row == 24 && r.col == 0 && (forall i | 0 <= i < 2000 ::
        r.cells[i] == if i < 1920 then s.cells[i + 80] else 0x0720)
  {}

  /** From position k on the cells read as the string; all others are as before. */
  predicate Reads(was: Cells, now: Cells, k: nat, str: seq<byte>, color: byte)
    requires k + |str| <= 2000
  {
    && (forall i | k <= i < k + |str| :: now[i] == str[i - k] + 256 * (color % 16))
    && (forall j | 0 <= j < k :: now[j] == was[j])
    && (forall j | k + |str| <= j < 2000 :: now[j] == was[j])
  }

  lemma ReadsOn(was: Cells, next: Cells, now: Cells, k: nat, str: seq<byte>, color: byte)
    requires str != [] && k + |str| <= 2000
    requires next == was[k := str[0] + 256 * (color % 16)]
    requires Reads(next, now, k + 1, str[1..], color)
    ensures Reads(was, now, k, str, color)
  {
    forall i | k <= i < k + |str|
      ensures now[i] == str[i - k] + 256 * (color % 16)
    {
      assert i > k ==> str[1..][i - (k + 1)] == str[i - k];
    }
  }

  lemma {:induction false} PutsLetters(s: Screen, str: seq<byte>, color: byte)
    requires Inside(s) && Position(s) + |str| < 2000
    requires forall i | 0 <= i < |str| :: Printable(str[i])
    ensures var r := PutAll(s, str, color);
      Reads(s.cells, r.cells, Position(s), str, color) && Position(r) == Position(s) + |str|
    decreases |str|
  {
    if str != [] {
      var t := Put(s, Typed(str[0], color));
      PutLetter(s, str[0], color);
      hide Put, Position, Printable, Reads;
      PutsLetters(t, str[1..], color);
      ReadsOn(s.cells, t.cells, PutAll(s, str, color).cells, Position(s), str, color);
    }
  }

  lemma LetterParts(c: byte, color: byte)
    ensures (c + 256 * (color % 16)) % 256 == c && (c + 256 * (color % 16)) / 256 == color % 16
  {}

  /** A printable string that fits on the screen is shown as it reads, across rows, and nothing else changes. */
  lemma PutsAsItReads(s: Screen, str: seq<byte>, color: byte)
    requires Inside(s) && Position(s) + |str| < 2000
    requires forall i | 0 <= i < |str| :: Printable(str[i])
    ensures var r, k := PutAll(s, str, color), Position(s);
      && (forall i | k <= i < k + |str| :: r.cells[i] % 256 == str[i - k] && r.cells[i] / 256 == color % 16)
      && (forall j | 0 <= j < 2000 && !(k <= j < k + |str|) :: r.cells[j] == s.cells[j])
      && Position(r) == k + |str|
  {
    PutsLetters(s, str, color);
    hide PutAll, Position, Printable;
    var r, k := PutAll(s, str, color), Position(s);
    forall i | k <= i < k + |str|
      ensures r.cells[i] % 256 == str[i - k] && r.cells[i] / 256 == color % 16
    {
      LetterParts(str[i - k], color);
    }
  }

  // ---------------------------------------------------------------- the page

  /**
   * Paper without an end: every line ever written stays. The window is the last 25 lines,
   * and the cursor's row counts from the first line of all.
   */
  datatype Page = Page(lines: seq<Line>, row: nat, col: nat)

  predicate PageOK(p: Page) {
    |p.lines| >= HEIGHT && Top(p) <= p.row < |p.lines| && p.col < WIDTH
  }

  function Top(p: Page): int {
    |p.lines| - HEIGHT
  }

  function Type(p: Page, t: Typed): (q: Page)
    requires PageOK(p)
    ensures PageOK(q)
  {
    if t.c == 0x08 then Erase(p, t.color)
    else if t.c == 0x0A then Down(p)
    else if p.col + 1 == WIDTH then Down(Ink(p, t.c, t.color))
    else Ink(p, t.c, t.color).(col := p.col + 1)
  }

  /** What a letter looks like, in its colour on black; from 0x80 on every colour looks like 0xFF. */
  function Letter(c: byte, color: byte): u16 {
    if c < 0x80 then c + 256 * (color % 16) else c + 256 * 0xFF
  }

  function Ink(p: Page, c: byte, color: byte): Page
    requires PageOK(p)
  {
    p.(lines := p.lines[p.row := p.lines[p.row][p.col := Letter(c, color)]])
  }

  /** To the start of the next line, which is fresh when the last one was left. */
  function Down(p: Page): Page {
    Page(if p.row + 1 < |p.lines| then p.lines else p.lines + [seq(WIDTH, _ => 0x0720)], p.row + 1, 0)
  }

  /** Back one cell, but never above the window, and a space there. */
  function Erase(p: Page, color: byte): Page
    requires PageOK(p)
  {
    var back :=
      if p.col > 0 then p.(col := p.col - 1)
      else if p.row > Top(p) then p.(row := p.row - 1, col := WIDTH - 1)
      else p;
    Ink(back, 0x20, color)
  }

  function TypeAll(p: Page, ts: seq<Typed>): (q: Page)
    requires PageOK(p)
    ensures PageOK(q)
    decreases |ts|
  {
    if ts == [] then p else TypeAll(Type(p, ts[0]), ts[1..])
  }

  function CellAt(p: Page, i: nat): u16
    requires PageOK(p) && i < CELLS
  {
    p.lines[Top(p) + i / WIDTH][i % WIDTH]
  }

  /** What the window shows, and where in it the cursor is. */
  function Window(p: Page): (s: Screen)
    requires PageOK(p)
    ensures Inside(s)
    ensures forall i: nat | i < CELLS :: s.cells[i] == CellAt(p, i)
  {
    Screen(seq(CELLS, i requires 0 <= i < CELLS => CellAt(p, i)), p.row - Top(p), p.col)
  }

  /** The screen at any moment is the window of a page of 25 lines. */
  function PageOf(s: Screen): (p: Page)
    requires Inside(s)
    ensures PageOK(p)
  {
    Page(seq(HEIGHT, r requires 0 <= r < HEIGHT => s.cells[r * WIDTH..(r + 1) * WIDTH]), s.row, s.col)
  }

  lemma WindowOfPage(s: Screen)
    requires Inside(s)
    ensures Window(PageOf(s)) == s
  {
    forall i: nat | i < CELLS
      ensures Window(PageOf(s)).cells[i] == s.cells[i]
    {
      assert i / WIDTH * WIDTH + i % WIDTH == i;
      assert PageOf(s).lines[i / WIDTH] == s.cells[i / WIDTH * WIDTH..(i / WIDTH + 1) * WIDTH];
    }
    assert Window(PageOf(s)).cells == s.cells;
  }

  lemma InkShows(p: Page, c: byte, color: byte)
    requires PageOK(p)
    ensures Window(Ink(p, c, color)) == Written(Window(p), c, color)
  {
    var q, s, k := Ink(p, c, color), Window(p), (p.row - Top(p)) * WIDTH + p.col;
    forall i: nat | i < CELLS
      ensures Window(q).cells[i] == Written(s, c, color).cells[i]
    {
      assert i == k <==> Top(p) + i / WIDTH == p.row && i % WIDTH == p.col;
    }
    assert Window(q).cells == Written(s, c, color).cells;
  }

  /** A fresh line below the last one shows as an exact one-row shift. */
  lemma DownShows(p: Page)
    requires PageOK(p)
    ensures PageOK(Down(p))
    ensures Window(Down(p)) == Scrolled(Window(p).(row := Window(p).row + 1, col := 0))
  {
    if p.row + 1 == |p.lines| {
      var q, s := Down(p), Window(p);
      forall i: nat | i < CELLS
        ensures Window(q).cells[i] == Shifted(s.cells)[i]
      {
        if i < CELLS - WIDTH {
          assert (i + WIDTH) / WIDTH == i / WIDTH + 1 && (i + WIDTH) % WIDTH == i % WIDTH;
          assert CellAt(q, i) == CellAt(p, i + WIDTH);
        } else {
          assert i / WIDTH == HEIGHT - 1;
        }
      }
      assert Window(q).cells == Shifted(s.cells);
    } else {
      assert Window(Down(p)).cells == Window(p).cells;
    }
  }

  lemma MoveShows(p: Page, row: nat, col: nat)
    requires PageOK(p) && PageOK(p.(row := row, col := col))
    ensures Window(p.(row := row, col := col)) == Screen(Window(p).cells, row - Top(p), col)
  {
    assert Window(p.(row := row, col := col)).cells == Window(p).cells;
  }

  lemma EraseShows(p: Page, color: byte)
    requires PageOK(p)
    ensures Window(Erase(p, color)) == Written(Left(Window(p)), SPACE, color)
  {
    WindowCursor(p);
    hide Window, Ink, Written;
    var back := Left(Window(p));
    var q := p.(row := back.row + Top(p), col := back.col);
    MoveShows(p, q.row, q.col);
    InkShows(q, SPACE, color);
    assert Erase(p, color) == Ink(q, SPACE, color);
  }

  lemma WindowCursor(p: Page)
    requires PageOK(p)
    ensures Window(p).row == p.row - Top(p) && Window(p).col == p.col && Inside(Window(p))
  {}

  lemma TypeShows(p: Page, t: Typed)
    requires PageOK(p)
    ensures Window(Type(p, t)) == Put(Window(p), t)
  {
    if t.c == BACKSPACE {
      EraseShows(p, t.color);
    } else if t.c == NEWLINE {
      DownShows(p);
    } else {
      InkShows(p, t.c, t.color);
      var q := Ink(p, t.c, t.color);
      if p.col + 1 == WIDTH {
        DownShows(q);
      } else {
        MoveShows(q, q.row, q.col + 1);
      }
    }
  }

  /** For every sequence of characters the screen is the window of the page they were typed on. */
  lemma {:induction false} FeedShows(p: Page, ts: seq<Typed>)
    requires PageOK(p)
    ensures Window(TypeAll(p, ts)) == Feed(Window(p), ts)
    decreases |ts|
  {
    if ts != [] {
      TypeShows(p, ts[0]);
      FeedShows(Type(p, ts[0]), ts[1..]);
    }
  }

  lemma ScreenIsWindow(s: Screen, ts: seq<Typed>)
    requires Inside(s)
    ensures Feed(s, ts) == Window(TypeAll(PageOf(s), ts))
  {
    WindowOfPage(s);
    FeedShows(PageOf(s), ts);
  }

  lemma TypeKeepsHistory(p: Page, t: Typed)
    requires PageOK(p)
    ensures Top(p) <= Top(Type(p, t)) && Type(p, t).lines[..Top(p)] == p.lines[..Top(p)]
  {
    assert forall i | 0 <= i < Top(p) :: Type(p, t).lines[i] == p.lines[i];
  }

  /** Lines that have scrolled off are never touched again: backspace stops at the window's first cell. */
  lemma {:induction false} HistoryIsFinal(p: Page, ts: seq<Typed>)
    requires PageOK(p)
    ensures Top(p) <= Top(TypeAll(p, ts)) && TypeAll(p, ts).lines[..Top(p)] == p.lines[..Top(p)]
    decreases |ts|
  {
    if ts != [] {
      var q := Type(p, ts[0]);
      TypeKeepsHistory(p, ts[0]);
      HistoryIsFinal(q, ts[1..]);
      assert q.lines[..Top(q)][..Top(p)] == q.lines[..Top(p)];
      var r := TypeAll(q, ts[1..]);
      assert r.lines[..Top(q)][..Top(p)] == r.lines[..Top(p)];
    }
  }

  /**
   * A printable character followed by a backspace puts the cursor back on the same cell of the page,
   * across a wrap and across a scroll, and leaves a space there and every other cell as it was.
   */
  lemma TypeThenErase(p: Page, c: byte, color: byte)
    requires PageOK(p) && c != 0x08 && c != 0x0A
    ensures var q := Type(Type(p, Typed(c, color)), Typed(0x08, color));
      && q.row == p.row && q.col == p.col
      && |q.lines| - |p.lines| == (if p.col == WIDTH - 1 && p.row == |p.lines| - 1 then 1 else 0)
      && q.lines[..|p.lines|] == Ink(p, 0x20, color).lines
  {
    var a := Type(p, Typed(c, color));
    var q := Type(a, Typed(0x08, color));
    assert q.lines[p.row] == p.lines[p.row][p.col := Letter(0x20, color)];
    assert q.lines[..|p.lines|] == Ink(p, 0x20, color).lines;
  }

  // ---------------------------------------------------------------- the code

  class Terminal {
    const video: array<u16>
    var row: byte
    var col: byte
    var cursor: u16

    ghost predicate Valid()
      reads this
    {
      video.Length == CELLS && row < HEIGHT && col < WIDTH
    }

    ghost function Shown(): Screen
      requires video.Length == CELLS
      reads this, video
    {
      Screen(video[..], row, col)
    }

    constructor (memory: array<u16>)
      requires memory.Length == CELLS
      ensures Valid() && video == memory && row == 0 && col == 0
    {
      video := memory;
      row := 0;
      col := 0;
      cursor := 0;
    }

    method SetCursor(r: byte, c: byte)
      requires r < HEIGHT && c < WIDTH
      modifies this`cursor
      ensures cursor == r * WIDTH + c
    {
      cursor := r * WIDTH + c;
    }

    method FramebufferWrite(r: byte, k: byte, c: byte, fg: byte, bg: byte)
      requires video.Length == CELLS && r < HEIGHT && k < WIDTH
      modifies video
      ensures video[..] == old(video[..])[r * WIDTH + k := CellOf(c, fg, bg)]
    {
      var position := r * WIDTH + k;
      var attribute := bg % 16 * 16 + fg % 16;
      video[position] := if c < 0x80 then c + attribute * 256 else 0xFF00 + c;
    }

    method Backspace(color: byte)
      requires Valid()
      modifies this`row, this`col, video
      ensures Valid() && Shown() == Written(Left(old(Shown())), SPACE, color)
    {
      if col > 0 {
        col := col - 1;
      } else if row > 0 {
        row := row - 1;
        col := 79;
      }
      FramebufferWrite(row, col, SPACE, color, 0);
    }

    /** Every row moves up by one in place, and the last is cleared. */
    method Scroll()
      requires video.Length == CELLS
      modifies video
      ensures video[..] == Shifted(old(video[..]))
    {
      ghost var was := video[..];
      var r := 0;
      while r < 24
        invariant 0 <= r <= 24
        invariant forall i | 0 <= i < r * WIDTH :: video[i] == was[i + WIDTH]
        invariant forall i | r * WIDTH <= i < CELLS :: video[i] == was[i]
      {
        var k := 0;
        while k < WIDTH
          invariant 0 <= k <= WIDTH
          invariant forall i | 0 <= i < r * WIDTH + k :: video[i] == was[i + WIDTH]
          invariant forall i | r * WIDTH + k <= i < CELLS :: video[i] == was[i]
        {
          var src := (r + 1) * WIDTH + k;
          var dst := r * WIDTH + k;
          video[dst] := video[src];
          k := k + 1;
        }
        r := r + 1;
      }
      var k := 0;
      while k < WIDTH
        invariant 0 <= k <= WIDTH
        invariant forall i | 0 <= i < 24 * WIDTH :: video[i] == was[i + WIDTH]
        invariant forall i | 24 * WIDTH <= i < 24 * WIDTH + k :: video[i] == BLANK
      {
        ghost var before := video[..];
        FramebufferWrite(24, k, SPACE, 0x07, 0);
        assert forall i | 0 <= i < CELLS && i != 24 * WIDTH + k :: video[..][i] == before[i];
        k := k + 1;
      }
      assert video[..] == Shifted(was);
    }

    /** SYSCALL_PUTCHAR. */
    method PutChar(c: byte, color: byte)
      requires Valid()
      modifies this`row, this`col, this`cursor, video
      ensures Valid() && Shown() == Put(old(Shown()), Typed(c, color))
      ensures cursor == row * WIDTH + col
    {
      if c == BACKSPACE {
        Backspace(color);
      } else if c == NEWLINE {
        col := 0;
        row := row + 1;
      } else {
        FramebufferWrite(row, col, c, color, 0);
        col := col + 1;
        if col >= 80 {
          col := 0;
          row := row + 1;
        }
      }
      if row >= 25 {
        Scroll();
        row := 24;
      }
      SetCursor(row, col);
    }

    /** SYSCALL_PUTS. */
    method Puts(str: seq<byte>, color: byte)
      requires Valid()
      modifies this`row, this`col, this`cursor, video
      ensures Valid() && Shown() == PutAll(old(Shown()), str, color)
      ensures cursor == row * WIDTH + col
    {
      hide PutAll;
      ghost var s := Shown();
      var i := 0;
      assert str[0..] == str;
      while i < |str|
        invariant 0 <= i <= |str|
        invariant Valid() && PutAll(s, str, color) == PutAll(Shown(), str[i..], color)
      {
        var c := str[i];
        PutAllStep(Shown(), str, i, color);
        ghost var before := Shown();
        if c == BACKSPACE {
          Backspace(color);
        } else if c == NEWLINE {
          col := 0;
          row := row + 1;
        } else {
          FramebufferWrite(row, col, c, color, 0);
          col := col + 1;
          if col >= 80 {
            col := 0;
            row := row + 1;
          }
        }
        if row >= 25 {
          Scroll();
          row := 24;
        }
        assert Shown() == Put(before, Typed(c, color));
        i := i + 1;
      }
      PutAllStep(Shown(), str, i, color);
      SetCursor(row, col);
    }
  }
}
