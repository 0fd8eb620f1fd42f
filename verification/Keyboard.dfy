/** The keyboard line buffer of `src/keybd.c`: an interrupt handler that fills it, and one
    reader that waits for a line, copies it out and clears it, statement by statement. */
module Keyboard {
  import opened Options
  import opened Words
  import Memory

  const ENTER: byte := 10

  // The key tables: the character of a scan code without and with shift, 0 if it has none.
  // Codes from 0x58 on count as none.
  function Keys(scancode: byte): (byte, byte) {
    match scancode
    case 1 => (27, 27) case 2 => (49, 33) case 3 => (50, 64) case 4 => (51, 35) case 5 => (52, 36)
    case 6 => (53, 37) case 7 => (54, 94) case 8 => (55, 38) case 9 => (56, 42) case 10 => (57, 40)
    case 11 => (48, 41) case 12 => (45, 95) case 13 => (61, 43) case 14 => (8, 8) case 15 => (9, 9)
    case 16 => (113, 81) case 17 => (119, 87) case 18 => (101, 69) case 19 => (114, 82) case 20 => (116, 84)
    case 21 => (121, 89) case 22 => (117, 85) case 23 => (105, 73) case 24 => (111, 79) case 25 => (112, 80)
    case 26 => (91, 123) case 27 => (93, 125) case 28 => (10, 10) case 30 => (97, 65) case 31 => (115, 83)
    case 32 => (100, 68) case 33 => (102, 70) case 34 => (103, 71) case 35 => (104, 72) case 36 => (106, 74)
    case 37 => (107, 75) case 38 => (108, 76) case 39 => (59, 58) case 40 => (39, 34) case 41 => (96, 126)
    case 43 => (92, 124) case 44 => (122, 90) case 45 => (120, 88) case 46 => (99, 67) case 47 => (118, 86)
    case 48 => (98, 66) case 49 => (110, 78) case 50 => (109, 77) case 51 => (44, 60) case 52 => (46, 62)
    case 53 => (47, 63) case 55 => (42, 42) case 57 => (32, 32) case 74 => (45, 45) case 78 => (43, 43)
    case _ => (0, 0)
  }

  function CharOf(scancode: byte, shifted: bool): byte {
    if shifted then Keys(scancode).1 else Keys(scancode).0
  }

  function ShiftOf(scancode: byte, shifted: bool): bool {
    if scancode == 0x2A || scancode == 0x36 then true
    else if scancode == 0xAA || scancode == 0xB6 then false
    else if scancode == 0x3A then !shifted
    else shifted
  }

  predicate Printable(scancode: byte) {
    CharOf(scancode, false) != 0
  }

  lemma Tables(scancode: byte, shifted: bool)
    ensures CharOf(scancode, shifted) != 0 <==> Printable(scancode)
    ensures CharOf(scancode, shifted) == ENTER <==> scancode == 0x1C
    ensures Printable(scancode) ==> scancode < 0x58 && ShiftOf(scancode, shifted) == shifted
  {
  }

  lemma TableEntries(scancode: byte, shifted: bool)
    ensures CharOf(scancode, shifted) == if shifted then Keys(scancode).1 else Keys(scancode).0
    ensures Printable(scancode) <==> Keys(scancode).0 != 0
  {
    hide Keys;
  }

  // The rows of the keyboard, in characters, and the keys beside them.
  lemma Rows(scancode: byte, shifted: bool)
    ensures 2 <= scancode <= 13 ==>
              CharOf(scancode, shifted) == (if shifted then "!@#$%^&*()_+" else "1234567890-=")[scancode - 2] as int
    ensures 16 <= scancode <= 27 ==>
              CharOf(scancode, shifted) == (if shifted then "QWERTYUIOP{}" else "qwertyuiop[]")[scancode - 16] as int
    ensures 30 <= scancode <= 41 ==>
              CharOf(scancode, shifted) == (if shifted then "ASDFGHJKL:\"~" else "asdfghjkl;'`")[scancode - 30] as int
    ensures 43 <= scancode <= 53 ==>
              CharOf(scancode, shifted) == (if shifted then "|ZXCVBNM<>?" else "\\zxcvbnm,./")[scancode - 43] as int
  {
  }

  lemma Beside(scancode: byte, shifted: bool)
    ensures scancode == 1 ==> CharOf(scancode, shifted) == 27
    ensures scancode == 14 ==> CharOf(scancode, shifted) == 8
    ensures scancode == 15 ==> CharOf(scancode, shifted) == 9
    ensures scancode == 28 ==> CharOf(scancode, shifted) == 10
    ensures scancode == 55 ==> CharOf(scancode, shifted) == '*' as int
    ensures scancode == 57 ==> CharOf(scancode, shifted) == ' ' as int
    ensures scancode == 74 ==> CharOf(scancode, shifted) == '-' as int
    ensures scancode == 78 ==> CharOf(scancode, shifted) == '+' as int
  {
  }

  // Which keys have a character, and what the others do: shift down, shift up, and caps lock.
  lemma Others(scancode: byte, shifted: bool)
    ensures Printable(scancode) <==>
            1 <= scancode <= 28 || 30 <= scancode <= 41 || 43 <= scancode <= 53 ||
            scancode == 55 || scancode == 57 || scancode == 74 || scancode == 78
    ensures ShiftOf(scancode, shifted) ==
            (scancode == 42 || scancode == 54 ||
             if scancode == 58 then !shifted else shifted && scancode != 170 && scancode != 182)
  {
  }

  // A letter key gives its small letter without shift and its capital, 32 less, with shift; a
  // digit key without shift gives its digit.
  lemma Letters(scancode: byte)
    ensures 16 <= scancode <= 25 || 30 <= scancode <= 38 || 44 <= scancode <= 50 <==>
            97 <= CharOf(scancode, false) <= 122
    ensures 97 <= CharOf(scancode, false) <= 122 <==> 65 <= CharOf(scancode, true) <= 90
    ensures 97 <= CharOf(scancode, false) <= 122 ==> CharOf(scancode, true) == CharOf(scancode, false) - 32
    ensures 2 <= scancode <= 10 ==> CharOf(scancode, false) == 47 + scancode
    ensures scancode == 11 ==> CharOf(scancode, false) == 48
    ensures !(65 <= CharOf(scancode, false) <= 90) && !(97 <= CharOf(scancode, true) <= 122)
  {
  }

  // ----- the protocol -----

  // Where the reader stands in `get_kbd`: it waits for a line, has copied it, has terminated
  // the copy, has zeroed the buffer, has reset the index.
  datatype Phase = Waiting | Copied | Terminated | Zeroed | Reset

  type Buffer = b: seq<byte> | |b| == 256 witness seq(256, _ => 0)

  // `out` collects what the reader has copied out.
  datatype State = State(
    buffer: Buffer, i: nat, shifted: bool, pending: bool, phase: Phase, out: seq<seq<byte>>)

  datatype Event = Key(scancode: byte) | Reader

  // The handler writes outside the buffer at index 256; runs stop short of that.
  function KeyStep(s: State, scancode: byte): State
    requires Printable(scancode) ==> s.i < 256
  {
    if Printable(scancode) then
      s.(pending := s.pending || scancode == 0x1C,
         buffer := s.buffer[s.i := CharOf(scancode, s.shifted)],
         i := s.i + 1)
    else s.(shifted := ShiftOf(scancode, s.shifted))
  }

  function Zeros(n: nat): (z: seq<byte>)
    ensures |z| == n && forall k :: 0 <= k < n ==> z[k] == 0
  {
    seq(n, _ => 0)
  }

  function ZeroedBuffer(b: Buffer): Buffer {
    Zeros(255) + b[255..]
  }

  function ReadStep(s: State): State
    requires s.i <= 256 && (s.phase == Waiting && s.pending ==> s.i >= 1)
  {
    match s.phase
    case Waiting => if s.pending then s.(phase := Copied, out := s.out + [s.buffer[..s.i - 1]]) else s
    case Copied => s.(phase := Terminated)
    case Terminated => s.(phase := Zeroed, buffer := ZeroedBuffer(s.buffer))
    case Zeroed => s.(phase := Reset, i := 0)
    case Reset => s.(phase := Waiting, pending := false)
  }

  // ----- what was typed -----

  function ShiftAfter(es: seq<Event>): bool {
    if es == [] then false
    else
      var e := es[|es| - 1];
      var before := ShiftAfter(es[..|es| - 1]);
      if e.Key? then ShiftOf(e.scancode, before) else before
  }

  // The shift-translated key stream, whatever the reader does meanwhile.
  function Typed(es: seq<Event>): seq<byte> {
    if es == [] then []
    else
      var e := es[|es| - 1];
      var before := es[..|es| - 1];
      Typed(before) + if e.Key? && Printable(e.scancode) then [CharOf(e.scancode, ShiftAfter(before))] else []
  }

  // The lines of a text that are ended by Enter, and what follows the last of them.
  function CompleteLines(t: seq<byte>): seq<seq<byte>> {
    if t == [] then []
    else if t[|t| - 1] == ENTER then
      CompleteLines(t[..|t| - 1]) + [LastLine(t[..|t| - 1])]
    else CompleteLines(t[..|t| - 1])
  }

  function LastLine(t: seq<byte>): seq<byte> {
    if t == [] || t[|t| - 1] == ENTER then [] else LastLine(t[..|t| - 1]) + [t[|t| - 1]]
  }

  // ----- runs -----

  // The state of the kernel's zero-initialised globals, with the reader at its wait.
  function Initial(): State {
    State(Zeros(256), 0, false, false, Waiting, [])
  }

  // A key is safe when it falls neither between Enter and the reset of the index nor, being
  // Enter itself, between that reset and the clearing of the flag; and when the line, Enter
  // included, keeps within the 256 cells of the buffer.
  predicate SafeKey(s: State, scancode: byte) {
    Printable(scancode) ==>
      s.i < 256 && if s.phase == Waiting then !s.pending else s.phase == Reset && scancode != 0x1C
  }

  // The state after any interleaving of keys and reader steps; `None` once a key was not safe.
  function RunSafely(es: seq<Event>): Option<State> {
    if es == [] then Some(Initial())
    else
      var before := RunSafely(es[..|es| - 1]);
      if before.None? then None
      else
        var s := before.value;
        match es[|es| - 1]
        case Key(c) => if SafeKey(s, c) then Some(KeyStep(s, c)) else None
        case Reader => if s.i <= 256 && (s.phase == Waiting && s.pending ==> s.i >= 1) then Some(ReadStep(s)) else None
  }

  function Flat(lines: seq<seq<byte>>): seq<byte> {
    if lines == [] then [] else Flat(lines[..|lines| - 1]) + lines[|lines| - 1] + [ENTER]
  }

  ghost predicate Lines(lines: seq<seq<byte>>) {
    forall k :: 0 <= k < |lines| ==> ENTER !in lines[k]
  }

  // What is in the buffer and has not been copied out.
  function Rest(s: State): seq<byte>
    requires s.i <= 256
  {
    if s.phase == Waiting || s.phase == Reset then s.buffer[..s.i] else []
  }

  // Every character typed has been copied out or is still in the buffer, once and in order;
  // what was copied out is whole lines; a whole line in the buffer has been announced.
  ghost predicate Faithful(s: State, typed: seq<byte>) {
    s.i <= 256 && typed == Flat(s.out) + Rest(s) && Lines(s.out) && (ENTER in Rest(s) ==> s.pending)
  }

  // The invariant of safe runs.
  ghost predicate Inv(s: State, typed: seq<byte>) {
    Faithful(s, typed) && (s.phase != Waiting ==> s.pending) &&
    (s.phase == Waiting && s.pending ==> s.i >= 1 && s.buffer[s.i - 1] == ENTER && ENTER !in s.buffer[..s.i - 1]) &&
    (s.phase == Reset ==> ENTER !in s.buffer[..s.i])
  }

  lemma KeyKeepsInv(s: State, typed: seq<byte>, scancode: byte)
    requires Inv(s, typed) && SafeKey(s, scancode)
    ensures var more := if Printable(scancode) then [CharOf(scancode, s.shifted)] else [];
            Inv(KeyStep(s, scancode), typed + more)
  {
    hide CharOf;
    Tables(scancode, s.shifted);
    if Printable(scancode) {
      var c := CharOf(scancode, s.shifted);
      var t := KeyStep(s, scancode);
      assert t.buffer[..t.i] == s.buffer[..s.i] + [c];
      assert t.buffer[..t.i - 1] == s.buffer[..s.i];
    }
  }

  lemma ReaderKeepsInv(s: State, typed: seq<byte>)
    requires Inv(s, typed)
    ensures Inv(ReadStep(s), typed)
  {
    hide Flat;
    if s.phase == Waiting && s.pending {
      var line := s.buffer[..s.i - 1];
      assert s.buffer[..s.i] == line + [ENTER];
      FlatSnoc(s.out, line);
    }
  }

  lemma FlatSnoc(lines: seq<seq<byte>>, line: seq<byte>)
    ensures Flat(lines + [line]) == Flat(lines) + (line + [ENTER])
  {
    assert (lines + [line])[..|lines|] == lines;
  }

  lemma InitialInv()
    ensures Inv(Initial(), [])
  {
    assert Flat([]) == [];
  }

  // In every safe run nothing typed is lost, repeated or reordered.
  lemma {:induction false} SafeRunsKeepInv(es: seq<Event>)
    requires RunSafely(es).Some?
    ensures Inv(RunSafely(es).value, Typed(es)) && RunSafely(es).value.shifted == ShiftAfter(es)
  {
    hide KeyStep, ReadStep, CharOf, Printable, ShiftOf, Inv, SafeKey;
    if es == [] {
      InitialInv();
    } else {
      var before := es[..|es| - 1];
      SafeRunsKeepInv(before);
      var s := RunSafely(before).value;
      match es[|es| - 1] {
        case Key(c) =>
          KeyKeepsInv(s, Typed(before), c);
          KeyShift(s, c);
        case Reader =>
          ReaderKeepsInv(s, Typed(before));
          ReaderShift(s);
          assert Typed(es) == Typed(before);
      }
    }
  }

  lemma KeyShift(s: State, c: byte)
    requires SafeKey(s, c)
    ensures KeyStep(s, c).shifted == ShiftOf(c, s.shifted)
  {
    hide CharOf;
    Tables(c, s.shifted);
  }

  lemma ReaderShift(s: State)
    requires s.i <= 256 && (s.phase == Waiting && s.pending ==> s.i >= 1)
    ensures ReadStep(s).shifted == s.shifted
  {
  }

  lemma SplitSnoc(t: seq<byte>, c: byte)
    ensures CompleteLines(t + [c]) == if c == ENTER then CompleteLines(t) + [LastLine(t)] else CompleteLines(t)
    ensures LastLine(t + [c]) == if c == ENTER then [] else LastLine(t) + [c]
  {
    assert (t + [c])[..|t|] == t;
  }

  lemma {:induction false} SplitFlat(lines: seq<seq<byte>>, rest: seq<byte>)
    requires Lines(lines) && ENTER !in rest
    ensures CompleteLines(Flat(lines) + rest) == lines && LastLine(Flat(lines) + rest) == rest
    decreases |lines|, |rest|
  {
    hide CompleteLines, LastLine;
    var t := Flat(lines) + rest;
    if rest != [] {
      var head := rest[..|rest| - 1];
      SplitFlat(lines, head);
      SplitSnoc(Flat(lines) + head, rest[|rest| - 1]);
      assert t == Flat(lines) + head + [rest[|rest| - 1]];
    } else if lines != [] {
      var front, line := lines[..|lines| - 1], lines[|lines| - 1];
      assert lines == front + [line];
      FlatSnoc(front, line);
      SplitFlat(front, line);
      SplitSnoc(Flat(front) + line, ENTER);
      assert t == Flat(front) + line + [ENTER];
    } else {
      SplitEmpty();
      assert t == [];
    }
  }

  lemma SplitEmpty()
    ensures CompleteLines([]) == [] && LastLine([]) == []
  {
  }

  // The line that is announced and has not been copied out yet.
  function Announced(s: State): seq<seq<byte>> {
    if s.phase == Waiting && s.pending && 1 <= s.i <= 256 then [s.buffer[..s.i - 1]] else []
  }

  // In a safe run the lines copied out are the key stream split at Enter: all of its lines, or
  // all but the one that waits in the buffer to be read.
  lemma LinesDelivered(es: seq<Event>)
    requires RunSafely(es).Some?
    ensures var s := RunSafely(es).value;
            CompleteLines(Typed(es)) == s.out + Announced(s) && s.i <= 256 &&
            LastLine(Typed(es)) == if Announced(s) == [] then Rest(s) else []
  {
    hide CompleteLines, LastLine, Flat, RunSafely, Typed, ShiftAfter;
    SafeRunsKeepInv(es);
    var s := RunSafely(es).value;
    if s.phase == Waiting && s.pending {
      var line := s.buffer[..s.i - 1];
      assert s.buffer[..s.i] == line + [ENTER];
      FlatSnoc(s.out, line);
      assert Typed(es) == Flat(s.out + [line]) + [];
      SplitFlat(s.out + [line], []);
    } else {
      SplitFlat(s.out, Rest(s));
    }
  }

  // ----- capitals -----

  // Whoever presses neither shift nor caps lock types no capital letter, ...
  lemma {:induction false} NoCapitals(es: seq<Event>)
    requires forall k :: 0 <= k < |es| && es[k].Key? ==>
               es[k].scancode != 42 && es[k].scancode != 54 && es[k].scancode != 58
    ensures !ShiftAfter(es) && forall c :: c in Typed(es) ==> !(65 <= c <= 90)
  {
    hide CharOf, ShiftOf;
    if es != [] {
      var e := es[|es| - 1];
      NoCapitals(es[..|es| - 1]);
      if e.Key? {
        Others(e.scancode, false);
        Letters(e.scancode);
      }
    }
  }

  // ... and whoever holds shift down from the start, and leaves caps lock alone, no small one.
  lemma {:induction false} OnlyCapitals(es: seq<Event>)
    requires es != [] && (es[0] == Key(42) || es[0] == Key(54))
    requires forall k :: 0 < k < |es| && es[k].Key? ==>
               es[k].scancode != 170 && es[k].scancode != 182 && es[k].scancode != 58
    ensures ShiftAfter(es) && forall c :: c in Typed(es) ==> !(97 <= c <= 122)
  {
    hide CharOf, ShiftOf;
    var front, e := es[..|es| - 1], es[|es| - 1];
    if front == [] {
      Others(e.scancode, false);
    } else {
      OnlyCapitals(front);
      if e.Key? {
        Others(e.scancode, true);
        Letters(e.scancode);
      }
    }
  }

  // So the lines handed to the reader hold no capital letter then.
  lemma LowerCaseLines(es: seq<Event>, n: nat)
    requires RunSafely(es).Some? && n < |RunSafely(es).value.out|
    requires forall k :: 0 <= k < |es| && es[k].Key? ==>
               es[k].scancode != 42 && es[k].scancode != 54 && es[k].scancode != 58
    ensures forall c :: c in RunSafely(es).value.out[n] ==> !(65 <= c <= 90)
  {
    hide RunSafely, Typed, CompleteLines;
    NoCapitals(es);
    LinesDelivered(es);
    var out := RunSafely(es).value.out;
    assert CompleteLines(Typed(es))[n] == out[n];
    LineChars(Typed(es), n);
  }

  lemma {:induction false} LineChars(t: seq<byte>, n: nat)
    requires n < |CompleteLines(t)|
    ensures forall c :: c in CompleteLines(t)[n] ==> c in t
  {
    var front := t[..|t| - 1];
    if n < |CompleteLines(front)| {
      LineChars(front, n);
    } else {
      LastChars(front);
    }
  }

  lemma {:induction false} LastChars(t: seq<byte>)
    ensures forall c :: c in LastLine(t) ==> c in t
  {
    if t != [] && t[|t| - 1] != ENTER {
      LastChars(t[..|t| - 1]);
    }
  }

  // ----- an undisturbed read -----

  // The reader runs on, without interruption, until it waits for the next line.
  function Finish(s: State): State
    requires s.i <= 256 && (s.phase == Waiting && s.pending ==> s.i >= 1)
    decreases match s.phase case Waiting => 5 case Copied => 4 case Terminated => 3 case Zeroed => 2 case Reset => 1
  {
    if s.phase == Reset || (s.phase == Waiting && !s.pending) then ReadStep(s) else Finish(ReadStep(s))
  }

  // Safety is exactly what it takes: in a state of a safe run whose buffer has a cell for it, a
  // key is kept faithfully, once the reader has got back to its wait, if and only if it is safe there.
  lemma KeyExact(s: State, typed: seq<byte>, scancode: byte)
    requires Inv(s, typed) && s.i < 256 && Printable(scancode)
    ensures Faithful(Finish(KeyStep(s, scancode)), typed + [CharOf(scancode, s.shifted)]) <==> SafeKey(s, scancode)
  {
    hide CharOf;
    Tables(scancode, s.shifted);
    var c := CharOf(scancode, s.shifted);
    var t := KeyStep(s, scancode);
    if SafeKey(s, scancode) {
      KeyKeepsInv(s, typed, scancode);
      FinishKeepsInv(t, typed + [c]);
    } else if s.phase == Waiting {
      // the line copied out ends in the Enter that ended the real one
      FinishResult(t);
      var line := t.buffer[..t.i - 1];
      assert line[s.i - 1] == ENTER;
      var u := Finish(t);
      assert u.out[|s.out|] == line;
    } else if s.phase != Reset {
      // the reset of the index drops the character
      FinishResult(t);
      assert t.out + Announced(t) == s.out;
      assert |Flat(s.out) + Rest(Finish(t))| == |typed|;
    } else {
      // the flag Enter has set is taken back
      var u := Finish(t);
      assert Rest(u)[s.i] == ENTER;
    }
  }

  lemma {:induction false} FinishResult(s: State)
    requires s.i <= 256 && s.phase != Reset && s.pending && (s.phase == Waiting ==> s.i >= 1)
    ensures Finish(s) ==
            State(if s.phase == Zeroed then s.buffer else ZeroedBuffer(s.buffer),
                  0, s.shifted, false, Waiting, s.out + Announced(s))
    decreases match s.phase case Waiting => 5 case Copied => 4 case Terminated => 3 case Zeroed => 2 case Reset => 1
  {
    if s.phase != Zeroed {
      FinishResult(ReadStep(s));
    }
  }

  lemma FinishKeepsInv(s: State, typed: seq<byte>)
    requires Inv(s, typed)
    ensures Inv(Finish(s), typed)
    decreases match s.phase case Waiting => 5 case Copied => 4 case Terminated => 3 case Zeroed => 2 case Reset => 1
  {
    ReaderKeepsInv(s, typed);
    if !(s.phase == Reset || (s.phase == Waiting && !s.pending)) {
      FinishKeepsInv(ReadStep(s), typed);
    }
  }

  // ----- the globals and the functions that change them -----

  class Keybd {
    const kbBuffer: array<byte>
    var kbI: nat
    var kbShifted: bool
    var kbBufferPending: bool

    // Where the reader stands, and what it has copied out.
    ghost var phase: Phase
    ghost var out: seq<seq<byte>>

    ghost predicate Valid()
      reads this
    {
      kbBuffer.Length == 256 && kbI <= 256 && (phase == Waiting && kbBufferPending ==> kbI >= 1)
    }

    ghost function View(): State
      reads this, kbBuffer
      requires Valid()
    {
      State(kbBuffer[..], kbI, kbShifted, kbBufferPending, phase, out)
    }

    constructor ()
      ensures Valid() && fresh(kbBuffer) && View() == Initial()
    {
      kbBuffer := new byte[256](_ => 0);
      kbI, kbShifted, kbBufferPending := 0, false, false;
      phase, out := Waiting, [];
    }

    // `keyboard_handler`, without the echo.
    method Handler(scancode: byte)
      requires Valid() && (Printable(scancode) ==> kbI < 256)
      modifies this, kbBuffer
      ensures Valid() && View() == KeyStep(old(View()), scancode)
      ensures 16 <= scancode <= 25 || 30 <= scancode <= 38 || 44 <= scancode <= 50 ==>
                old(kbI) < 256 && 97 <= kbBuffer[old(kbI)] + (if old(kbShifted) then 32 else 0) as int <= 122
      ensures 2 <= scancode <= 11 && !old(kbShifted) ==>
                old(kbI) < 256 && kbBuffer[old(kbI)] == if scancode == 11 then 48 else 47 + scancode
      ensures kbI == old(kbI) + 1 ==> old(kbI) < 256 && kbBuffer[old(kbI)] == CharOf(scancode, old(kbShifted))
      ensures scancode == 28 || scancode == 57 ==>
                old(kbI) < 256 && kbBuffer[old(kbI)] == if scancode == 28 then 10 else 32
      ensures kbI == old(kbI) + 1 <==>
              1 <= scancode <= 28 || 30 <= scancode <= 41 || 43 <= scancode <= 53 ||
              scancode == 55 || scancode == 57 || scancode == 74 || scancode == 78
      ensures kbI == old(kbI) || kbI == old(kbI) + 1
      ensures forall k :: 0 <= k < 256 && (kbI == old(kbI) || k != old(kbI)) ==> kbBuffer[k] == old(kbBuffer[k])
      ensures kbBufferPending == (old(kbBufferPending) || scancode == 28)
      ensures kbShifted ==
              (scancode == 42 || scancode == 54 ||
               if scancode == 58 then !old(kbShifted) else old(kbShifted) && scancode != 170 && scancode != 182)
    {
      hide CharOf, Keys, ShiftOf, Printable;
      TableEntries(scancode, kbShifted);
      Tables(scancode, kbShifted);
      Others(scancode, kbShifted);
      Letters(scancode);
      Beside(scancode, kbShifted);
      if Keys(scancode).0 != 0 && scancode < 0x58 {
        var c := if kbShifted then Keys(scancode).1 else Keys(scancode).0;
        if scancode == 0x1C {
          kbBufferPending := true;
        }
        kbBuffer[kbI] := c;
        kbI := kbI + 1;
      } else if scancode == 0x2A || scancode == 0x36 {
        kbShifted := true;
      } else if scancode == 0xAA || scancode == 0xB6 {
        kbShifted := false;
      } else if scancode == 0x3A {
        kbShifted := !kbShifted;
      }
    }

    // The statements of `get_kbd` behind its wait loop, and of `clear_kb_buffer`, one by one:
    // the handler may run between any two of them.

    method CopyOut(dest: array<byte>)
      requires Valid() && phase == Waiting && kbBufferPending
      requires dest != kbBuffer && kbI <= dest.Length
      modifies this`phase, this`out, dest
      ensures Valid() && View() == ReadStep(old(View()))
      ensures dest[..] == kbBuffer[..kbI - 1] + old(dest[kbI - 1..])
    {
      Memory.MemCpy(dest, 0, kbBuffer, 0, kbI - 1);
      phase, out := Copied, out + [kbBuffer[..kbI - 1]];
    }

    method Terminate(dest: array<byte>)
      requires Valid() && phase == Copied
      requires dest != kbBuffer && kbI < dest.Length
      modifies this`phase, dest
      ensures Valid() && View() == ReadStep(old(View()))
      ensures dest[..] == old(dest[..])[kbI := 0]
    {
      dest[kbI] := 0;
      phase := Terminated;
    }

    method ZeroBuffer()
      requires Valid() && phase == Terminated
      modifies this`phase, kbBuffer
      ensures Valid() && View() == ReadStep(old(View()))
      ensures (forall k :: 0 <= k < 255 ==> kbBuffer[k] == 0) && kbBuffer[255] == old(kbBuffer[255])
    {
      Memory.MemSet(kbBuffer, 0, 255);
      phase := Zeroed;
    }

    method ResetIndex()
      requires Valid() && phase == Zeroed
      modifies this`phase, this`kbI
      ensures Valid() && View() == ReadStep(old(View()))
    {
      kbI := 0;
      phase := Reset;
    }

    method ReleaseLock()
      requires Valid() && phase == Reset
      modifies this`phase, this`kbBufferPending
      ensures Valid() && View() == ReadStep(old(View()))
    {
      kbBufferPending := false;
      phase := Waiting;
    }

    // `get_kbd` once its wait is over, when no key interrupts it. The cell between the line and
    // the zero is left as it was.
    method GetKbd(dest: array<byte>)
      requires Valid() && phase == Waiting && kbBufferPending
      requires dest != kbBuffer && kbI < dest.Length
      modifies this, kbBuffer, dest
      ensures Valid() && View() == Finish(old(View()))
      ensures dest[..] == old(kbBuffer[..kbI - 1] + [dest[kbI - 1], 0] + dest[kbI + 1..])
      ensures kbI == 0 && !kbBufferPending && kbShifted == old(kbShifted)
      ensures forall k :: 0 <= k < 255 ==> kbBuffer[k] == 0
    {
      FiveSteps(View());
      ZeroBehind(kbBuffer[..kbI - 1], dest[kbI - 1..]);
      hide ReadStep, Finish;
      CopyOut(dest);
      Terminate(dest);
      ZeroBuffer();
      ResetIndex();
      ReleaseLock();
    }
  }

  lemma ZeroBehind(line: seq<byte>, tail: seq<byte>)
    requires |tail| >= 2
    ensures (line + tail)[|line| + 1 := 0] == line + [tail[0], 0] + tail[2..]
  {
  }

  lemma FiveSteps(s: State)
    requires s.i <= 256 && s.phase == Waiting && s.pending && s.i >= 1
    ensures var s1 := ReadStep(s);
            s1.phase == Copied && s1.i == s.i &&
            var s2 := ReadStep(s1);
            s2.phase == Terminated && s2.i == s.i &&
            var s3 := ReadStep(s2);
            s3.phase == Zeroed && s3.i == s.i &&
            var s4 := ReadStep(s3);
            s4.phase == Reset && s4.i == 0 && Finish(s) == ReadStep(s4)
  {
    FinishResult(s);
  }

  // The C string at the start of `d`.
  function TextOf(d: seq<byte>): seq<byte> {
    if d == [] || d[0] == 0 then [] else [d[0]] + TextOf(d[1..])
  }

  lemma TextOfCons(c: byte, d: seq<byte>)
    requires c != 0
    ensures TextOf([c] + d) == [c] + TextOf(d)
  {
  }

  lemma {:induction false} TextOfLine(line: seq<byte>, tail: seq<byte>)
    requires 0 !in line
    ensures TextOf(line + tail) == line + TextOf(tail)
  {
    hide TextOf;
    if line == [] {
      assert line + tail == tail;
    } else {
      var rest := line[1..];
      TextOfLine(rest, tail);
      assert line + tail == [line[0]] + (rest + tail);
      TextOfCons(line[0], rest + tail);
      assert line == [line[0]] + rest;
    }
  }

  // The caller reads the line back exactly when the cell `get_kbd` skips was zero before the
  // call; otherwise it reads one stale character more.
  lemma StaleCell(line: seq<byte>, x: byte, rest: seq<byte>)
    requires 0 !in line
    ensures TextOf(line + [x, 0] + rest) == line + if x == 0 then [] else [x]
  {
    assert line + [x, 0] + rest == line + ([x, 0] + rest);
    TextOfLine(line, [x, 0] + rest);
    assert ([x, 0] + rest)[1..] == [0] + rest;
  }

  lemma {:induction false} TypedNonzero(es: seq<Event>)
    ensures 0 !in Typed(es)
  {
    hide CharOf, ShiftAfter;
    if es != [] {
      var e := es[|es| - 1];
      TypedNonzero(es[..|es| - 1]);
      if e.Key? {
        Tables(e.scancode, ShiftAfter(es[..|es| - 1]));
      }
    }
  }

  // The line a safe run has announced is the last one typed, and this is how the caller reads
  // what `get_kbd` leaves of it in front of the destination's old content.
  lemma AnnouncedText(es: seq<Event>, x: byte, rest: seq<byte>)
    requires RunSafely(es).Some? && Announced(RunSafely(es).value) != []
    ensures var line := Announced(RunSafely(es).value)[0];
            CompleteLines(Typed(es)) != [] && line == CompleteLines(Typed(es))[|CompleteLines(Typed(es))| - 1] &&
            (TextOf(line + [x, 0] + rest) == line <==> x == 0)
  {
    hide RunSafely, CompleteLines, TextOf, Typed, LastLine, Flat;
    var s := RunSafely(es).value;
    var line := Announced(s)[0];
    LinesDelivered(es);
    SafeRunsKeepInv(es);
    TypedNonzero(es);
    forall k | 0 <= k < |line|
      ensures line[k] != 0
    {
      assert Typed(es)[|Flat(s.out)| + k] == line[k];
    }
    StaleCell(line, x, rest);
  }

  // `get_kbd` after a safe run, undisturbed: the text in `dest` is the last line typed exactly
  // when the cell that is skipped was zero.
  method ReadLine(keybd: Keybd, dest: array<byte>, ghost es: seq<Event>)
    requires keybd.Valid() && RunSafely(es) == Some(keybd.View())
    requires keybd.phase == Waiting && keybd.kbBufferPending
    requires dest != keybd.kbBuffer && keybd.kbI < dest.Length
    modifies keybd, keybd.kbBuffer, dest
    ensures keybd.Valid() && keybd.View() == Finish(old(keybd.View()))
    ensures CompleteLines(Typed(es)) != []
    ensures TextOf(dest[..]) == CompleteLines(Typed(es))[|CompleteLines(Typed(es))| - 1] <==>
            old(dest[keybd.kbI - 1]) == 0
  {
    hide RunSafely, CompleteLines, TextOf, Typed, Finish;
    AnnouncedText(es, dest[keybd.kbI - 1], dest[keybd.kbI + 1..]);
    ghost var line, x, rest := keybd.kbBuffer[..keybd.kbI - 1], dest[keybd.kbI - 1], dest[keybd.kbI + 1..];
    keybd.GetKbd(dest);
    assert dest[..] == line + [x, 0] + rest;
  }
}
