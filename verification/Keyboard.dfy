/** The keyboard driver: scancode decoding, and a ring buffer filled by an interrupt while a system call drains it. */
module Keyboard {
  import opened Bytes

  const KEYBOARD_BUFFER_SIZE: nat := 256
  const EXTENDED_SCANCODE_BYTE: byte := 0xE0

  const EXT_SCANCODE_UP: byte := 0x48
  const EXT_SCANCODE_DOWN: byte := 0x50
  const EXT_SCANCODE_LEFT: byte := 0x4B
  const EXT_SCANCODE_RIGHT: byte := 0x4D
  const EXT_SCANCODE_DELETE: byte := 0x53

  const KEY_DELETE: byte := 0x7F
  const KEY_ARROW_UP: byte := 0x80
  const KEY_ARROW_DOWN: byte := 0x81
  const KEY_ARROW_LEFT: byte := 0x82
  const KEY_ARROW_RIGHT: byte := 0x83

  /** Scancode set 1 to ASCII, for the codes below 0x50; every later entry of the table is 0. */
  const ASCII_MAP: seq<byte> :=
    // none, escape, 1 to 0, minus, equals, backspace, tab
    [0x00, 0x1B, 0x31, 0x32, 0x33, 0x34, 0x35, 0x36] + [0x37, 0x38, 0x39, 0x30, 0x2D, 0x3D, 0x08, 0x09]
    // q to p, brackets, newline, none, a, s
    + [0x71, 0x77, 0x65, 0x72, 0x74, 0x79, 0x75, 0x69] + [0x6F, 0x70, 0x5B, 0x5D, 0x0A, 0x00, 0x61, 0x73]
    // d to l, semicolon, quote, back quote, none, backslash, z, x, c, v
    + [0x64, 0x66, 0x67, 0x68, 0x6A, 0x6B, 0x6C, 0x3B] + [0x27, 0x60, 0x00, 0x5C, 0x7A, 0x78, 0x63, 0x76]
    // b, n, m, comma, period, slash, none, star, none, space
    + [0x62, 0x6E, 0x6D, 0x2C, 0x2E, 0x2F, 0x00, 0x2A] + [0x00, 0x20, 0x00, 0x00, 0x00, 0x00, 0x00, 0x00]
    // keypad minus and plus
    + [0x00, 0x00, 0x00, 0x00, 0x00, 0x00, 0x00, 0x00] + [0x00, 0x00, 0x2D, 0x00, 0x00, 0x00, 0x2B, 0x00]

  function AsciiMap(code: byte): byte {
    if code < |ASCII_MAP| then ASCII_MAP[code] else 0
  }

  // ---------------------------------------------------------------- which keys give which characters

  /** The characters of a run of neighbouring keys. */
  function InRow(code: byte, first: byte, row: string): (c: byte)
    ensures c < 0x80
  {
    if first <= code < first + |row| && row[code - first] < 128 as char then row[code - first] as int else 0
  }

  /** The characters on the keys of an unshifted keyboard, 0 for a key without one. */
  function KeyCap(code: byte): byte {
    if code == 0x01 then 0x1B
    else if code == 0x0E then 8
    else if code == 0x0F then 9
    else if code == 0x1C then 10
    else if code <= 0x0D then InRow(code, 0x02, "1234567890-=")
    else if code <= 0x1B then InRow(code, 0x10, "qwertyuiop[]")
    else if code <= 0x29 then InRow(code, 0x1E, "asdfghjkl;'`")
    else if code <= 0x35 then InRow(code, 0x2B, "\\zxcvbnm,./")
    else if code == 0x37 then '*' as int
    else if code == 0x39 then ' ' as int
    else if code == 0x4A then '-' as int
    else if code == 0x4E then '+' as int
    else 0
  }

  /** What a byte adds to the characters waiting, by the byte before it, key by key. */
  function KeyOf(code: byte, afterPrefix: bool): byte {
    if !afterPrefix then KeyCap(code)
    else if code == 0x48 then 0x80
    else if code == 0x50 then 0x81
    else if code == 0x4B then 0x82
    else if code == 0x4D then 0x83
    else if code == 0x53 then 0x7F
    else 0
  }

  lemma ReleaseIsNoKey(code: byte, afterPrefix: bool)
    requires code >= 0x80
    ensures KeyOf(code, afterPrefix) == 0
  {}

  // ---------------------------------------------------------------- what the driver makes of a byte

  /** The character a press after the prefix stands for, 0 for none. */
  function ExtendedKey(code: byte): byte {
    if code == EXT_SCANCODE_UP then KEY_ARROW_UP
    else if code == EXT_SCANCODE_DOWN then KEY_ARROW_DOWN
    else if code == EXT_SCANCODE_LEFT then KEY_ARROW_LEFT
    else if code == EXT_SCANCODE_RIGHT then KEY_ARROW_RIGHT
    else if code == EXT_SCANCODE_DELETE then KEY_DELETE
    else 0
  }

  /** A release has the top bit set and stands for nothing. */
  function PlainKey(code: byte): byte {
    if code < 0x80 then AsciiMap(code) else 0
  }

  // ---------------------------------------------------------------- what a byte stream means

  predicate AfterPrefix(bs: seq<byte>, i: nat)
    requires i <= |bs|
  {
    i > 0 && bs[i - 1] == EXTENDED_SCANCODE_BYTE
  }

  /** What the byte at one position stands for: only it and the byte before it matter, and a release is nothing. */
  function KeyAt(bs: seq<byte>, i: nat): byte
    requires i < |bs|
  {
    if bs[i] >= 0x80 then 0 else KeyOf(bs[i], AfterPrefix(bs, i))
  }

  /** The characters of the first n bytes, in order. */
  function Decoded(bs: seq<byte>, n: nat): (cs: seq<byte>)
    requires n <= |bs|
    ensures forall c | c in cs :: c != 0
  {
    if n == 0 then []
    else
      var cs := Decoded(bs, n - 1);
      if KeyAt(bs, n - 1) == 0 then cs else cs + [KeyAt(bs, n - 1)]
  }

  lemma {:induction false} DecodedPrefix(bs: seq<byte>, b: byte, n: nat)
    requires n <= |bs|
    ensures Decoded(bs + [b], n) == Decoded(bs, n)
  {
    if n > 0 {
      DecodedPrefix(bs, b, n - 1);
      assert KeyAt(bs + [b], n - 1) == KeyAt(bs, n - 1);
    }
  }

  /** The byte at a position presses a key with a character. */
  predicate IsPress(bs: seq<byte>, p: nat)
    requires p < |bs|
  {
    bs[p] < 0x80 && KeyOf(bs[p], p > 0 && bs[p - 1] == 0xE0) != 0
  }

  /** A press adds its character to those decoded; a release, a prefix or a key without one adds nothing. */
  lemma DecodedStep(bs: seq<byte>, n: nat)
    requires n < |bs|
    ensures Decoded(bs, n + 1)
         == if IsPress(bs, n) then Decoded(bs, n) + [KeyOf(bs[n], n > 0 && bs[n - 1] == 0xE0)] else Decoded(bs, n)
  {
    hide KeyOf;
  }

  /** Every character decoded comes from a press: the one that follows the bytes of those before it. */
  lemma {:induction false} ComesFromPress(bs: seq<byte>, n: nat, k: nat) returns (p: nat)
    requires n <= |bs| && k < |Decoded(bs, n)|
    ensures p < n && bs[p] < 0x80 && |Decoded(bs, p)| == k
    ensures Decoded(bs, n)[k] == KeyOf(bs[p], p > 0 && bs[p - 1] == 0xE0)
    decreases n
  {
    DecodedStep(bs, n - 1);
    hide KeyOf, Decoded;
    if k < |Decoded(bs, n - 1)| {
      p := ComesFromPress(bs, n - 1, k);
    } else {
      p := n - 1;
    }
  }

  // ---------------------------------------------------------------- the ring buffer

  type Index = x: int | 0 <= x < 256

  type Ring = s: seq<byte> | |s| == KEYBOARD_BUFFER_SIZE witness Zeros(256)

  datatype State = State(extended: bool, on: bool, buffer: Ring, head: Index, tail: Index)

  /** The characters waiting, oldest first. */
  function Pending(s: State): (p: seq<byte>)
    ensures |p| == (s.head - s.tail) % KEYBOARD_BUFFER_SIZE
  {
    if s.tail <= s.head then s.buffer[s.tail..s.head] else s.buffer[s.tail..] + s.buffer[..s.head]
  }

  function After(i: Index): Index {
    (i + 1) % KEYBOARD_BUFFER_SIZE
  }

  function AddToBuffer(s: State, c: byte): State {
    if After(s.head) == s.tail then s
    else s.(buffer := s.buffer[s.head := c], head := After(s.head))
  }

  function Pop(s: State): State {
    s.(tail := After(s.tail))
  }

  lemma PendingAt(s: State)
    ensures |Pending(s)| == (s.head - s.tail) % KEYBOARD_BUFFER_SIZE
    ensures forall i | 0 <= i < |Pending(s)| :: Pending(s)[i] == s.buffer[(s.tail + i) % KEYBOARD_BUFFER_SIZE]
  {}

  /** The character is kept as the newest unless 255 are waiting already. */
  lemma AddQueues(s: State, c: byte)
    ensures Pending(AddToBuffer(s, c)) == if |Pending(s)| < 255 then Pending(s) + [c] else Pending(s)
    ensures After(s.head) == s.tail <==> |Pending(s)| == 255
  {
    if After(s.head) != s.tail {
      if s.tail <= s.head {
        AddStraight(s, c);
      } else {
        AddWrapped(s, c);
      }
    }
  }

  lemma AddStraight(s: State, c: byte)
    requires After(s.head) != s.tail && s.tail <= s.head
    ensures Pending(AddToBuffer(s, c)) == Pending(s) + [c]
  {
    var r := AddToBuffer(s, c);
    if s.head < 255 {
      assert r.buffer[s.tail..s.head + 1] == s.buffer[s.tail..s.head] + [c];
    } else {
      assert r.buffer[s.tail..] + r.buffer[..0] == s.buffer[s.tail..s.head] + [c];
    }
  }

  lemma AddWrapped(s: State, c: byte)
    requires After(s.head) != s.tail && s.tail > s.head
    ensures Pending(AddToBuffer(s, c)) == Pending(s) + [c]
  {
    var r := AddToBuffer(s, c);
    assert r.buffer[s.tail..] == s.buffer[s.tail..];
    assert r.buffer[..s.head + 1] == s.buffer[..s.head] + [c];
  }

  lemma PopDequeues(s: State)
    requires Pending(s) != []
    ensures Pending(s)[0] == s.buffer[s.tail]
    ensures Pending(Pop(s)) == Pending(s)[1..]
  {
    PendingAt(s);
    PendingAt(Pop(s));
    hide Pending;
    assert Pending(Pop(s)) == Pending(s)[1..];
  }

  lemma EmptyWhenEqual(s: State)
    ensures Pending(s) == [] <==> s.head == s.tail
  {}

  /** The character an interrupt hands to the buffer, 0 for none. */
  function Offer(s: State, code: byte): byte {
    if !s.on || code == EXTENDED_SCANCODE_BYTE then 0
    else if s.extended then ExtendedKey(code)
    else PlainKey(code)
  }

  function Mode(s: State, code: byte): State {
    if !s.on then s else s.(extended := code == EXTENDED_SCANCODE_BYTE)
  }

  function Isr(s: State, code: byte): State {
    var c := Offer(s, code);
    if c == 0 then Mode(s, code) else AddToBuffer(Mode(s, code), c)
  }

  function Get(s: State): (State, byte) {
    if s.head == s.tail then (s, 0) else (Pop(s), s.buffer[s.tail])
  }

  // ---------------------------------------------------------------- the protocol, step by step

  /** Where the getter stands between two of its statements. */
  datatype Pc =
    | Idle
    | Called
    | HeadRead(head: Index)
    | NonEmpty
    | TailRead(tail: Index)
    | CharRead(c: byte)
    | NextReady(c: byte, next: Index)

  /** A character the interrupt handler offered, how many were waiting, and whether it was kept. */
  datatype Offered = Offered(c: byte, waiting: nat, kept: bool)

  /** What a call answered, and whether nothing was waiting when it read the head. */
  datatype Answer = Answer(value: byte, sawEmpty: bool)

  datatype System = System(
    st: State,
    pc: Pc,
    sawEmpty: bool,
    received: seq<byte>,
    log: seq<Offered>,
    answers: seq<Answer>)

  datatype Event = Interrupt(code: byte) | Activate | Deactivate | Call | Advance

  function Next(y: System, e: Event): System {
    match e
    case Interrupt(code) => Interrupted(y, code)
    case Activate => y.(st := y.st.(on := true))
    case Deactivate => y.(st := y.st.(on := false))
    case Call => if y.pc.Idle? then y.(pc := Called) else y
    case Advance => Advanced(y)
  }

  function Interrupted(y: System, code: byte): System {
    var c := Offer(y.st, code);
    var kept := |Pending(Isr(y.st, code))| > |Pending(y.st)|;
    y.(st := Isr(y.st, code),
       received := if y.st.on then y.received + [code] else y.received,
       log := if c == 0 then y.log else y.log + [Offered(c, |Pending(y.st)|, kept)])
  }

  function Advanced(y: System): System {
    match y.pc
    case Idle => y
    case Called => y.(pc := HeadRead(y.st.head), sawEmpty := Pending(y.st) == [])
    case HeadRead(h) =>
      if h == y.st.tail then y.(pc := Idle, answers := y.answers + [Answer(0, y.sawEmpty)]) else y.(pc := NonEmpty)
    case NonEmpty => y.(pc := TailRead(y.st.tail))
    case TailRead(t) => y.(pc := CharRead(y.st.buffer[t]))
    case CharRead(c) => y.(pc := NextReady(c, After(y.st.tail)))
    case NextReady(c, n) =>
      y.(pc := Idle, st := y.st.(tail := n), answers := y.answers + [Answer(c, y.sawEmpty)])
  }

  function Run(y: System, es: seq<Event>): System
    decreases |es|
  {
    if es == [] then y else Run(Next(y, es[0]), es[1..])
  }

  const START: System := System(State(false, false, Zeros(256), 0, 0), Idle, false, [], [], [])

  /** The characters offered, the ones among them kept, and the ones handed out, each in order. */
  function Chars(log: seq<Offered>): (cs: seq<byte>)
    ensures |cs| == |log|
    ensures forall i | 0 <= i < |log| :: cs[i] == log[i].c
  {
    seq(|log|, i requires 0 <= i < |log| => log[i].c)
  }

  function Kept(log: seq<Offered>): (cs: seq<byte>) {
    if log == [] then []
    else
      var cs, last := Kept(log[..|log| - 1]), log[|log| - 1];
      if last.kept then cs + [last.c] else cs
  }

  function Delivered(answers: seq<Answer>): (cs: seq<byte>) {
    if answers == [] then []
    else
      var cs, last := Delivered(answers[..|answers| - 1]), answers[|answers| - 1];
      if last.value != 0 then cs + [last.value] else cs
  }

  lemma KeptSnoc(log: seq<Offered>, o: Offered)
    ensures Kept(log + [o]) == if o.kept then Kept(log) + [o.c] else Kept(log)
  {
    assert (log + [o])[..|log|] == log;
  }

  lemma DeliveredSnoc(answers: seq<Answer>, a: Answer)
    ensures Delivered(answers + [a]) == if a.value != 0 then Delivered(answers) + [a.value] else Delivered(answers)
  {
    assert (answers + [a])[..|answers|] == answers;
  }

  lemma {:induction false} KeptNonzero(log: seq<Offered>)
    requires forall o | o in log :: o.c != 0
    ensures forall c | c in Kept(log) :: c != 0
  {
    if log != [] {
      KeptNonzero(log[..|log| - 1]);
    }
  }

  /** What the getter knows at each point, whatever interrupts came since. */
  predicate PcOK(y: System) {
    match y.pc
    case Idle => true
    case Called => true
    case HeadRead(h) => (h == y.st.tail <==> y.sawEmpty) && (y.sawEmpty || Pending(y.st) != [])
    case NonEmpty => !y.sawEmpty && Pending(y.st) != []
    case TailRead(t) => !y.sawEmpty && Pending(y.st) != [] && t == y.st.tail
    case CharRead(c) => !y.sawEmpty && Pending(y.st) != [] && c == Pending(y.st)[0]
    case NextReady(c, n) =>
      !y.sawEmpty && Pending(y.st) != [] && c == Pending(y.st)[0] && n == After(y.st.tail)
  }

  predicate LogOK(log: seq<Offered>) {
    forall o | o in log :: o.c != 0 && (o.kept <==> o.waiting < 255)
  }

  predicate AnswersOK(answers: seq<Answer>) {
    forall a | a in answers :: a.value == 0 <==> a.sawEmpty
  }

  /** Nothing lost, duplicated, reordered or corrupted between the offers kept and the answers given. */
  predicate Fifo(y: System) {
    Kept(y.log) == Delivered(y.answers) + Pending(y.st)
  }

  predicate Decoding(y: System) {
    && Chars(y.log) == Decoded(y.received, |y.received|)
    && y.st.extended == AfterPrefix(y.received, |y.received|)
  }

  predicate Inv(y: System) {
    PcOK(y) && LogOK(y.log) && AnswersOK(y.answers) && Fifo(y) && Decoding(y)
  }

  // ---------------------------------------------------------------- every step keeps it

  lemma IsrQueues(s: State, code: byte)
    ensures var c := Offer(s, code);
      Pending(Isr(s, code)) == if c != 0 && |Pending(s)| < 255 then Pending(s) + [c] else Pending(s)
    ensures Isr(s, code).tail == s.tail
  {
    assert Pending(Mode(s, code)) == Pending(s);
    AddQueues(Mode(s, code), Offer(s, code));
  }

  lemma DigitsAgree(code: byte)
    requires code <= 0x0D
    ensures PlainKey(code) == KeyOf(code, false)
  {}

  lemma TopRowAgrees(code: byte)
    requires 0x0E <= code <= 0x1D
    ensures PlainKey(code) == KeyOf(code, false)
  {}

  lemma HomeRowAgrees(code: byte)
    requires 0x1D < code <= 0x2A
    ensures PlainKey(code) == KeyOf(code, false)
  {}

  lemma BottomRowAgrees(code: byte)
    requires 0x2A < code <= 0x36
    ensures PlainKey(code) == KeyOf(code, false)
  {}

  lemma OthersAgree(code: byte)
    requires 0x36 < code
    ensures PlainKey(code) == KeyOf(code, false)
  {}

  lemma KeysAgree(code: byte)
    ensures PlainKey(code) == KeyOf(code, false)
    ensures ExtendedKey(code) == KeyOf(code, true)
  {
    assert ExtendedKey(code) == KeyOf(code, true);
    hide PlainKey, KeyOf;
    if code <= 0x0D {
      DigitsAgree(code);
    } else if code <= 0x1D {
      TopRowAgrees(code);
    } else if code <= 0x2A {
      HomeRowAgrees(code);
    } else if code <= 0x36 {
      BottomRowAgrees(code);
    } else {
      OthersAgree(code);
    }
  }

  /** Presses append the character on the key while fewer than 255 wait; nothing else appends. */
  lemma KeyPressed(s: State, code: byte)
    ensures Pending(Isr(s, code))
         == if s.on && KeyOf(code, s.extended) != 0 && |Pending(s)| < 255
            then Pending(s) + [KeyOf(code, s.extended)]
            else Pending(s)
  {
    IsrQueues(s, code);
    KeysAgree(code);
    hide Pending, Isr;
  }

  /** The byte of a release, and the prefix byte, leave the waiting characters as they are, in every state. */
  lemma ReleaseIsSilent(s: State, code: byte)
    requires code >= 0x80
    ensures Pending(Isr(s, code)) == Pending(s)
  {
    hide KeyOf, Pending, Isr;
    KeyPressed(s, code);
    ReleaseIsNoKey(code, s.extended);
  }

  lemma InterruptDecodes(y: System, code: byte)
    requires Decoding(y)
    ensures Decoding(Interrupted(y, code))
  {
    if y.st.on {
      var bs, n := y.received + [code], |y.received|;
      DecodedPrefix(y.received, code, n);
      KeysAgree(code);
      assert Offer(y.st, code) == KeyAt(bs, n);
      assert Chars(Interrupted(y, code).log) == Decoded(bs, n + 1);
    }
  }

  lemma InterruptFifo(y: System, code: byte)
    requires LogOK(y.log) && Fifo(y)
    ensures var z := Interrupted(y, code); LogOK(z.log) && Fifo(z)
  {
    IsrQueues(y.st, code);
    hide Isr, Offer, Pending;
    var z, c := Interrupted(y, code), Offer(y.st, code);
    if c != 0 {
      var o := Offered(c, |Pending(y.st)|, |Pending(y.st)| < 255);
      assert z.log == y.log + [o];
      KeptSnoc(y.log, o);
      PendingFits(y.st);
      if o.kept {
        assert Delivered(y.answers) + Pending(y.st) + [c] == Delivered(y.answers) + (Pending(y.st) + [c]);
      }
    }
  }

  lemma PendingFits(s: State)
    ensures |Pending(s)| <= 255
  {}

  lemma InterruptPc(y: System, code: byte)
    requires PcOK(y)
    ensures PcOK(Interrupted(y, code))
  {
    IsrQueues(y.st, code);
    EmptyWhenEqual(y.st);
    hide Isr, Offer, Pending;
  }

  lemma InterruptInv(y: System, code: byte)
    requires Inv(y)
    ensures Inv(Interrupted(y, code))
  {
    InterruptDecodes(y, code);
    InterruptFifo(y, code);
    InterruptPc(y, code);
    hide Interrupted, Fifo, LogOK, PcOK, Decoding;
    InterruptAnswers(y, code);
  }

  lemma InterruptAnswers(y: System, code: byte)
    ensures Interrupted(y, code).answers == y.answers
  {
    hide Isr, Offer, Pending;
  }

  /** The last step of a call hands out the oldest character, which is never 0. */
  lemma HandsOut(y: System)
    requires Inv(y) && y.pc.NextReady?
    ensures var z := Advanced(y);
      && z.answers == y.answers + [Answer(y.pc.c, y.sawEmpty)]
      && y.pc.c != 0
      && Fifo(z)
  {
    var c := y.pc.c;
    PopDequeues(y.st);
    hide Pending, Decoding;
    KeptNonzero(y.log);
    SplitQueue(Kept(y.log), Delivered(y.answers), Pending(y.st), c);
    DeliveredSnoc(y.answers, Answer(c, y.sawEmpty));
    assert Advanced(y).st == Pop(y.st);
    hide Kept, Delivered;
  }

  lemma SplitQueue(k: seq<byte>, d: seq<byte>, p: seq<byte>, c: byte)
    requires k == d + p && p != [] && p[0] == c
    ensures c in k && k == d + [c] + p[1..]
  {
    assert k[|d|] == c;
    assert p == [c] + p[1..];
  }

  /** Steps that only read. */
  lemma ReadingInv(y: System)
    requires Inv(y) && !y.pc.NextReady? && !y.pc.HeadRead?
    ensures Inv(Advanced(y))
  {
    if y.pc.TailRead? {
      PopDequeues(y.st);
    }
    EmptyWhenEqual(y.st);
    hide Pending, LogOK, AnswersOK, Fifo, Decoding;
    var z := Advanced(y);
    assert PcOK(z);
    ReadingKeeps(y);
  }

  lemma ReadingKeeps(y: System)
    requires !y.pc.NextReady? && !y.pc.HeadRead?
    ensures var z := Advanced(y);
      z.st == y.st && z.log == y.log && z.answers == y.answers && z.received == y.received
    ensures Fifo(y) ==> Fifo(Advanced(y))
    ensures Decoding(y) ==> Decoding(Advanced(y))
  {
    hide Pending;
  }

  /** The check of a call that may end with 0. */
  lemma CheckingInv(y: System)
    requires Inv(y) && y.pc.HeadRead?
    ensures Inv(Advanced(y))
  {
    EmptyWhenEqual(y.st);
    hide Pending, LogOK;
    DeliveredSnoc(y.answers, Answer(0, y.sawEmpty));
  }

  /** The last step of a call. */
  lemma HandingInv(y: System)
    requires Inv(y) && y.pc.NextReady?
    ensures Inv(Advanced(y))
  {
    HandsOut(y);
    hide Pending, Fifo, LogOK;
    assert Decoding(Advanced(y));
  }

  lemma AdvanceInv(y: System)
    requires Inv(y)
    ensures Inv(Advanced(y))
  {
    hide Inv, Advanced;
    if y.pc.NextReady? {
      HandingInv(y);
    } else if y.pc.HeadRead? {
      CheckingInv(y);
    } else {
      ReadingInv(y);
    }
  }

  lemma NextInv(y: System, e: Event)
    requires Inv(y)
    ensures Inv(Next(y, e))
  {
    match e
    case Interrupt(code) => InterruptInv(y, code);
    case Advance => AdvanceInv(y);
    case _ =>
  }

  lemma {:induction false} RunInv(y: System, es: seq<Event>)
    requires Inv(y)
    ensures Inv(Run(y, es))
    decreases |es|
  {
    if es != [] {
      NextInv(y, es[0]);
      hide Next, Inv;
      RunInv(Next(y, es[0]), es[1..]);
    }
  }

  lemma StartInv()
    ensures Inv(START)
  {}

  /**
   * Every schedule of interrupts, toggles and getter steps: the nonzero answers followed by what is still waiting
   * are exactly the characters kept, in order; a character is lost only when 255 were waiting; and an answer of 0
   * was given exactly when nothing was waiting at the moment the head was read.
   */
  lemma InterruptSafe(es: seq<Event>)
    ensures var y := Run(START, es);
      && Delivered(y.answers) + Pending(y.st) == Kept(y.log)
      && (forall o | o in y.log :: !o.kept <==> o.waiting >= 255)
      && (forall a | a in y.answers :: a.value == 0 <==> a.sawEmpty)
  {
    StartInv();
    RunInv(START, es);
  }

  /** The characters offered on any schedule are the decoding of the bytes received while input was on. */
  lemma DecodesStream(es: seq<Event>)
    ensures var y := Run(START, es); Chars(y.log) == Decoded(y.received, |y.received|)
  {
    StartInv();
    RunInv(START, es);
  }

  /** The bytes a run receives: those of the interrupts that find input switched on. */
  function Received(on: bool, es: seq<Event>): seq<byte>
    decreases |es|
  {
    if es == [] then []
    else match es[0]
      case Activate => Received(true, es[1..])
      case Deactivate => Received(false, es[1..])
      case Interrupt(code) => (if on then [code] else []) + Received(on, es[1..])
      case _ => Received(on, es[1..])
  }

  lemma NextReceives(y: System, e: Event)
    ensures Next(y, e).received == y.received + (if e.Interrupt? && y.st.on then [e.code] else [])
    ensures Next(y, e).st.on == (e.Activate? || (!e.Deactivate? && y.st.on))
  {
    hide Pending, Offer;
  }

  lemma {:induction false} ReceivedWhileOn(y: System, es: seq<Event>)
    ensures Run(y, es).received == y.received + Received(y.st.on, es)
    decreases |es|
  {
    if es != [] {
      hide Next;
      NextReceives(y, es[0]);
      ReceivedWhileOn(Next(y, es[0]), es[1..]);
    }
  }

  /** Bytes that come while input is off leave no trace, not even in a prefix already seen. */
  lemma OffIsDeaf(es: seq<Event>)
    ensures Chars(Run(START, es).log) == Decoded(Received(false, es), |Received(false, es)|)
  {
    DecodesStream(es);
    ReceivedWhileOn(START, es);
    assert [] + Received(false, es) == Received(false, es);
  }

  /** A repeated prefix counts once. */
  lemma RepeatedPrefix(bs: seq<byte>, i: nat)
    requires 0 < i < |bs| && bs[i] == bs[i - 1] == 0xE0
    ensures Decoded(bs, i + 1) == Decoded(bs, i) && AfterPrefix(bs, i + 1)
  {}

  lemma TakingSteps(y: System)
    requires y.pc == NonEmpty
    ensures Advanced(Advanced(Advanced(Advanced(y))))
         == y.(pc := Idle, st := Pop(y.st), answers := y.answers + [Answer(y.st.buffer[y.st.tail], y.sawEmpty)])
  {
    hide Pending;
    var a := Advanced(y);
    assert a == y.(pc := TailRead(y.st.tail));
    var b := Advanced(a);
    assert b == y.(pc := CharRead(y.st.buffer[y.st.tail]));
    var c := Advanced(b);
    assert c == y.(pc := NextReady(y.st.buffer[y.st.tail], After(y.st.tail)));
  }

  lemma CheckingSteps(y: System)
    requires y.pc == Called
    ensures Advanced(Advanced(y))
         == if y.st.head == y.st.tail
            then y.(pc := Idle, sawEmpty := Pending(y.st) == [],
                    answers := y.answers + [Answer(0, Pending(y.st) == [])])
            else y.(pc := NonEmpty, sawEmpty := Pending(y.st) == [])
  {
    hide Pending;
    var a := Advanced(y);
    assert a == y.(pc := HeadRead(y.st.head), sawEmpty := Pending(y.st) == []);
  }

  /** With no interrupt in between, the getter's steps amount to one `Get`. */
  lemma GetterAlone(y: System)
    requires y.pc == Called
    ensures var a := Advanced(Advanced(y));
      var z := if y.st.head == y.st.tail then a else Advanced(Advanced(Advanced(Advanced(a))));
      && z.pc == Idle
      && z.st == Get(y.st).0
      && |z.answers| == |y.answers| + 1
      && z.answers[|y.answers|].value == Get(y.st).1
  {
    hide Advanced, Pending;
    CheckingSteps(y);
    if y.st.head != y.st.tail {
      TakingSteps(Advanced(Advanced(y)));
    }
  }

  // ---------------------------------------------------------------- the code

  class KeyboardDriver {
    var readExtendedMode: bool
    var keyboardInputOn: bool
    const buffer: array<byte>
    var head: u32
    var tail: u32

    ghost predicate Valid()
      reads this
    {
      buffer.Length == KEYBOARD_BUFFER_SIZE && head < KEYBOARD_BUFFER_SIZE && tail < KEYBOARD_BUFFER_SIZE
    }

    ghost function Snapshot(): State
      requires Valid()
      reads this, buffer
    {
      State(readExtendedMode, keyboardInputOn, buffer[..], head, tail)
    }

    constructor ()
      ensures Valid() && fresh(buffer)
      ensures Snapshot() == START.st
    {
      readExtendedMode := false;
      keyboardInputOn := false;
      buffer := new byte[KEYBOARD_BUFFER_SIZE](_ => 0);
      head := 0;
      tail := 0;
      new;
      assert buffer[..] == Zeros(256);
    }

    method Activate()
      requires Valid()
      modifies this
      ensures Valid() && Snapshot() == old(Snapshot()).(on := true)
    {
      keyboardInputOn := true;
    }

    method Deactivate()
      requires Valid()
      modifies this
      ensures Valid() && Snapshot() == old(Snapshot()).(on := false)
    {
      keyboardInputOn := false;
    }

    method GetKeyboardBuffer() returns (c: byte)
      requires Valid()
      modifies this`tail
      ensures Valid() && (Snapshot(), c) == Get(old(Snapshot()))
      ensures var p := old(Pending(Snapshot()));
        if p == [] then c == 0 && Pending(Snapshot()) == [] else c == p[0] && Pending(Snapshot()) == p[1..]
    {
      if head == tail {
        c := 0;
        return;
      }
      PopDequeues(Snapshot());
      c := buffer[tail];
      tail := (tail + 1) % KEYBOARD_BUFFER_SIZE;
    }

    method AddChar(c: byte)
      requires Valid()
      modifies this`head, buffer
      ensures Valid() && Snapshot() == AddToBuffer(old(Snapshot()), c)
    {
      var nextHead := (head + 1) % KEYBOARD_BUFFER_SIZE;
      if nextHead == tail {
        return;
      }
      buffer[head] := c;
      head := nextHead;
    }

    /** The handler, given the byte it reads from the port. */
    method KeyboardIsr(scancode: byte)
      requires Valid()
      modifies this`head, this`readExtendedMode, buffer
      ensures Valid() && Snapshot() == Isr(old(Snapshot()), scancode)
      ensures var s, c := old(Snapshot()), KeyOf(scancode, old(readExtendedMode));
        Pending(Snapshot()) == if s.on && c != 0 && |Pending(s)| < 255 then Pending(s) + [c] else Pending(s)
    {
      hide Pending, KeyOf;
      KeyPressed(Snapshot(), scancode);
      if !keyboardInputOn {
        return;
      }
      if scancode == EXTENDED_SCANCODE_BYTE {
        readExtendedMode := true;
        return;
      }
      if readExtendedMode {
        readExtendedMode := false;
        if scancode == EXT_SCANCODE_UP {
          AddChar(KEY_ARROW_UP);
        } else if scancode == EXT_SCANCODE_DOWN {
          AddChar(KEY_ARROW_DOWN);
        } else if scancode == EXT_SCANCODE_LEFT {
          AddChar(KEY_ARROW_LEFT);
        } else if scancode == EXT_SCANCODE_RIGHT {
          AddChar(KEY_ARROW_RIGHT);
        } else if scancode == EXT_SCANCODE_DELETE {
          AddChar(KEY_DELETE);
        }
        return;
      }
      if scancode < 0x80 {
        var c := AsciiMap(scancode);
        if c != 0 {
          AddChar(c);
        }
      }
    }
  }
}
