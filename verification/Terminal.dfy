/** The text terminal of `src/term.c`: a screen that is a window on an unbounded document. */
module Terminal {
  import opened Arithmetic
  import opened Words
  import Memory

  type Cell = x: int | 0 <= x < 0x1_0000

  const NEWLINE: schar := 10
  const BACKSPACE: schar := 8
  const SPACE: schar := 32

  // `make_vgaentry`: a negative character is sign-extended and covers the colour.
  function Entry(color: byte, c: schar): Cell {
    if c >= 0 then 0x100 * color + c else 0x1_0000 + c
  }

  // `make_color`, for the sixteen colours.
  function MakeColor(fg: nat, bg: nat): byte
    requires fg < 16 && bg < 16
  {
    fg + 16 * bg
  }

  // ----- the document -----

  // What has been written where, on rows that never run out, and where the cursor is.
  datatype Document = Document(row: nat, col: nat, written: map<(nat, nat), Cell>)

  const EMPTY := Document(0, 0, map[])

  function Control(d: Document, color: byte, c: schar): Document {
    if c == NEWLINE then d.(row := d.row + 1, col := 0)
    else if c == BACKSPACE && d.col > 0 then
      d.(col := d.col - 1, written := d.written[(d.row, d.col - 1) := Entry(color, SPACE)])
    else d
  }

  function Wrap(d: Document, w: nat): Document {
    if d.col + 1 >= w then d.(row := d.row + 1, col := 0) else d
  }

  function Place(d: Document, color: byte, c: schar): Document {
    if c == NEWLINE || c == BACKSPACE then d
    else d.(col := d.col + 1, written := d.written[(d.row, d.col) := Entry(color, c)])
  }

  // Typing one character. Lines wrap late: the cursor moves to the next row only when there
  // is something more to write.
  function Type(d: Document, w: nat, color: byte, c: schar): Document {
    Place(Wrap(Control(d, color, c), w), color, c)
  }

  function TypeAll(d: Document, w: nat, color: byte, data: seq<schar>): Document {
    if data == [] then d else Type(TypeAll(d, w, color, data[..|data| - 1]), w, color, data[|data| - 1])
  }

  // Rows of the first screen start blank, later rows as a copy of the off-screen row.
  function CellAt(d: Document, h: nat, blank: Cell, off: seq<Cell>, r: nat, c: nat): Cell
    requires c < |off|
  {
    if (r, c) in d.written then d.written[(r, c)] else if r < h then blank else off[c]
  }

  // The cursor stays on its row's cells, nothing is written below it, and nothing at all is
  // ever written in the last column.
  ghost predicate Sound(d: Document, w: nat) {
    d.col < w && forall r, c :: (r, c) in d.written ==> r <= d.row && c + 1 < w
  }

  lemma TypeSound(d: Document, w: nat, color: byte, c: schar)
    requires w >= 2 && Sound(d, w)
    ensures Sound(Type(d, w, color, c), w)
    ensures d.row <= Type(d, w, color, c).row <= d.row + 1
  {
  }

  lemma {:induction false} TypeAllSound(d: Document, w: nat, color: byte, data: seq<schar>)
    requires w >= 2 && Sound(d, w)
    ensures Sound(TypeAll(d, w, color, data), w)
  {
    if data != [] {
      TypeAllSound(d, w, color, data[..|data| - 1]);
      TypeSound(TypeAll(d, w, color, data[..|data| - 1]), w, color, data[|data| - 1]);
    }
  }

  // ----- plain text -----

  ghost predicate Plain(data: seq<schar>) {
    NEWLINE !in data && BACKSPACE !in data
  }

  // Character i of a plain text that begins at the start of `row` stands i / (w-1) rows below,
  // in column i % (w-1).
  function Spot(row: nat, i: nat, w: nat): (nat, nat)
    requires w >= 2
  {
    (row + Quotient(i, w - 1), Remainder(i, w - 1))
  }

  ghost predicate Holds(d: Document, row: nat, w: nat, color: byte, data: seq<schar>)
    requires w >= 2
  {
    forall i :: 0 <= i < |data| ==>
      Spot(row, i, w) in d.written && d.written[Spot(row, i, w)] == Entry(color, data[i])
  }

  ghost predicate Keeps(d: Document, e: Document) {
    forall p :: p in d.written ==> p in e.written && e.written[p] == d.written[p]
  }

  // Nothing is written on the cursor's row or below it.
  ghost predicate Fresh(d: Document) {
    d.col == 0 && forall r, c :: (r, c) in d.written ==> r < d.row
  }

  // Plain text typed at the start of a fresh row, and where the cursor is then.
  lemma {:induction false} PlainFrom(d: Document, w: nat, color: byte, data: seq<schar>)
    requires w >= 2 && Plain(data) && Fresh(d)
    ensures var e := TypeAll(d, w, color, data);
            Holds(e, d.row, w, color, data) && Keeps(d, e) &&
            (forall r, c :: (r, c) in e.written ==> r <= e.row) &&
            if data == [] then e == d
            else e.row == d.row + Quotient(|data| - 1, w - 1) && e.col == Remainder(|data| - 1, w - 1) + 1
  {
    hide Quotient, Remainder;
    if data != [] {
      var n := |data| - 1;
      var text, c := data[..n], data[n];
      PlainFrom(d, w, color, text);
      var here := Wrap(TypeAll(d, w, color, text), w);
      if n > 0 {
        NextDivision(n - 1, w - 1);
      } else {
        DivModOf(0, 0, 0, w - 1);
      }
      assert Spot(d.row, n, w) == (here.row, here.col);
      forall i | 0 <= i < n
        ensures Spot(d.row, i, w) != Spot(d.row, n, w)
      {
        if Spot(d.row, i, w) == Spot(d.row, n, w) {
          DivisionInjective(i, n, w - 1);
        }
      }
      assert Holds(Place(here, color, c), d.row, w, color, data);
    }
  }

  lemma PlainText(w: nat, color: byte, data: seq<schar>)
    requires w >= 2 && Plain(data)
    ensures var d := TypeAll(EMPTY, w, color, data);
            Holds(d, 0, w, color, data) &&
            if data == [] then d == EMPTY
            else d.row == Quotient(|data| - 1, w - 1) && d.col == Remainder(|data| - 1, w - 1) + 1
  {
    PlainFrom(EMPTY, w, color, data);
  }

  // What the screen shows of it: the cursor, and how often it has scrolled.
  lemma PlainScreen(t: Term, color: byte, data: seq<schar>)
    requires t.Valid() && Plain(data) && data != []
    requires t.doc == TypeAll(EMPTY, t.width, color, data)
    ensures var last := Quotient(|data| - 1, t.width - 1);
            t.xpos == Remainder(|data| - 1, t.width - 1) + 1 &&
            t.ypos == (if last < t.height then last else t.height - 1) &&
            t.scrolls == (if last < t.height then 0 else last - (t.height - 1))
  {
    PlainText(t.width, color, data);
  }

  // ----- text with line breaks -----

  lemma {:induction false} TypeAppend(d: Document, w: nat, color: byte, data: seq<schar>, more: seq<schar>)
    ensures TypeAll(d, w, color, data + more) == TypeAll(TypeAll(d, w, color, data), w, color, more)
  {
    if more == [] {
      assert data + more == data;
    } else {
      var n := |more| - 1;
      TypeAppend(d, w, color, data, more[..n]);
      assert (data + more)[..|data + more| - 1] == data + more[..n];
    }
  }

  // A newline takes the cursor to the start of the next row and writes nothing.
  lemma NewlineRow(d: Document, w: nat, color: byte)
    requires w >= 2
    ensures TypeAll(d, w, color, [10]) == Document(d.row + 1, 0, d.written)
  {
    assert [10][..0] == [];
  }

  // The text of some lines, with a newline between each two of them.
  function Text(lines: seq<seq<schar>>): seq<schar> {
    if |lines| == 0 then []
    else if |lines| == 1 then lines[0]
    else Text(lines[..|lines| - 1]) + [10] + lines[|lines| - 1]
  }

  // The rows they take: an empty line takes one, a full row is not followed by an empty one.
  function RowsOf(lines: seq<seq<schar>>, w: nat): nat
    requires w >= 2
  {
    if lines == [] then 0
    else
      var last := lines[|lines| - 1];
      RowsOf(lines[..|lines| - 1], w) + if last == [] then 1 else Quotient(|last| - 1, w - 1) + 1
  }

  ghost predicate PlainLines(lines: seq<seq<schar>>) {
    forall k :: 0 <= k < |lines| ==> Plain(lines[k])
  }

  // Every line stands where the rows of the lines before it end.
  ghost predicate AllHold(d: Document, w: nat, color: byte, lines: seq<seq<schar>>)
    requires w >= 2
  {
    forall k :: 0 <= k < |lines| ==> Holds(d, RowsOf(lines[..k], w), w, color, lines[k])
  }

  lemma {:induction false} TextHolds(w: nat, color: byte, lines: seq<seq<schar>>)
    requires w >= 2 && lines != [] && PlainLines(lines)
    ensures var d := TypeAll(EMPTY, w, color, Text(lines));
            AllHold(d, w, color, lines) && d.row + 1 == RowsOf(lines, w) &&
            forall r, c :: (r, c) in d.written ==> r <= d.row
    decreases |lines|
  {
    hide Quotient, Holds, TypeAll;
    var n := |lines| - 1;
    var front, last := lines[..n], lines[n];
    if n == 0 {
      PlainFrom(EMPTY, w, color, last);
      assert RowsOf(front, w) == 0;
    } else {
      TextHolds(w, color, front);
      var d := TypeAll(EMPTY, w, color, Text(front));
      TypeLine(w, color, Text(front), last);
      NextLine(d, w, color, front, last);
      assert lines == front + [last];
    }
  }

  lemma TypeLine(w: nat, color: byte, text: seq<schar>, last: seq<schar>)
    requires w >= 2
    ensures var d := TypeAll(EMPTY, w, color, text);
            TypeAll(EMPTY, w, color, text + [10] + last) ==
            TypeAll(Document(d.row + 1, 0, d.written), w, color, last)
  {
    hide TypeAll;
    NewlineRow(TypeAll(EMPTY, w, color, text), w, color);
    TypeAppend(EMPTY, w, color, text, [10]);
    TypeAppend(EMPTY, w, color, text + [10], last);
  }

  lemma NextLine(d: Document, w: nat, color: byte, front: seq<seq<schar>>, last: seq<schar>)
    requires w >= 2 && Plain(last) && AllHold(d, w, color, front) && d.row + 1 == RowsOf(front, w)
    requires forall r, c :: (r, c) in d.written ==> r <= d.row
    ensures var e := TypeAll(Document(d.row + 1, 0, d.written), w, color, last);
            AllHold(e, w, color, front + [last]) && e.row + 1 == RowsOf(front + [last], w) &&
            forall r, c :: (r, c) in e.written ==> r <= e.row
  {
    hide Quotient, Holds, TypeAll, RowsOf;
    var lines, start := front + [last], Document(d.row + 1, 0, d.written);
    PlainFrom(start, w, color, last);
    var e := TypeAll(start, w, color, last);
    RowsOfSnoc(front, last, w);
    forall k | 0 <= k < |lines|
      ensures Holds(e, RowsOf(lines[..k], w), w, color, lines[k])
    {
      if k < |front| {
        assert front[..k] == lines[..k];
        HoldsOn(d, start, e, RowsOf(front[..k], w), w, color, front[k]);
      } else {
        assert lines[..k] == front;
      }
    }
  }

  lemma RowsOfSnoc(front: seq<seq<schar>>, last: seq<schar>, w: nat)
    requires w >= 2
    ensures RowsOf(front + [last], w) == RowsOf(front, w) + if last == [] then 1 else Quotient(|last| - 1, w - 1) + 1
  {
    assert (front + [last])[..|front|] == front;
  }

  lemma HoldsOn(d: Document, e: Document, f: Document, row: nat, w: nat, color: byte, data: seq<schar>)
    requires w >= 2 && Holds(d, row, w, color, data) && e.written == d.written && Keeps(e, f)
    ensures Holds(f, row, w, color, data)
  {
  }

  // On the screen: how often it has scrolled, and the cell of every character still shown.
  lemma TextScreen(t: Term, color: byte, lines: seq<seq<schar>>, k: nat, i: nat)
    requires t.Valid() && lines != [] && PlainLines(lines) && k < |lines| && i < |lines[k]|
    requires t.doc == TypeAll(EMPTY, t.width, color, Text(lines))
    ensures var rows := RowsOf(lines, t.width);
            t.scrolls == (if rows <= t.height then 0 else rows - t.height) && t.scrolls + t.ypos + 1 == rows
    ensures var r := RowsOf(lines[..k], t.width) + Quotient(i, t.width - 1);
            var x := Remainder(i, t.width - 1);
            t.scrolls <= r ==>
              r - t.scrolls < t.height && x < t.width &&
              t.At(r - t.scrolls, x) == (if lines[k][i] >= 0 then 0x100 * color else 0x1_0000) + lines[k][i]
  {
    hide Quotient, Remainder, RowsOf, TypeAll;
    TextHolds(t.width, color, lines);
    assert Holds(t.doc, RowsOf(lines[..k], t.width), t.width, color, lines[k]);
    var p := Spot(RowsOf(lines[..k], t.width), i, t.width);
    assert p in t.doc.written;
  }

  // ----- cells of the buffer -----

  function Index(r: nat, c: nat, w: nat): nat {
    r * w + c
  }

  lemma RowsApart(r: nat, r': nat, w: nat)
    requires r < r'
    ensures r * w + w <= r' * w
  {
    Multiples(r + 1, r', w);
    assert (r + 1) * w == r * w + w;
  }

  lemma Multiples(a: nat, b: nat, w: nat)
    requires a <= b
    ensures a * w <= b * w
  {
  }

  lemma IndexInside(r: nat, c: nat, w: nat, h: nat)
    requires r <= h && c < w
    ensures Index(r, c, w) < w * (h + 1)
    ensures if r < h then Index(r, c, w) < w * h else Index(r, c, w) >= w * h
  {
    RowsApart(r, h + 1, w);
    if r < h {
      RowsApart(r, h, w);
    }
  }

  lemma IndexInjective(r: nat, c: nat, r': nat, c': nat, w: nat)
    requires c < w && c' < w && Index(r, c, w) == Index(r', c', w)
    ensures r == r' && c == c'
  {
    if r < r' {
      RowsApart(r, r', w);
    } else if r' < r {
      RowsApart(r', r, w);
    }
  }

  lemma IndexBelow(r: nat, c: nat, w: nat)
    ensures Index(r + 1, c, w) == Index(r, c, w) + w
  {
  }

  class Term {
    const width: nat
    const height: nat
    const buffer: array<Cell>
    var color: byte
    var xpos: int
    var ypos: int

    ghost const blank: Cell
    ghost const off: seq<Cell>
    ghost var doc: Document
    ghost var scrolls: nat

    ghost predicate Shape() {
      width >= 2 && height >= 1 && buffer.Length == width * (height + 1) && |off| == width
    }

    function At(r: nat, c: nat): Cell
      requires Shape() && r <= height && c < width
      reads buffer
    {
      IndexInside(r, c, width, height);
      buffer[Index(r, c, width)]
    }

    // The row behind the screen still holds what it held at the start.
    ghost predicate OffRowKept()
      requires Shape()
      reads buffer
    {
      forall c :: 0 <= c < width ==> At(height, c) == off[c]
    }

    // Screen row r shows document row top + r.
    ghost predicate Shows(d: Document, top: nat)
      requires Shape()
      reads buffer
    {
      forall r, c :: 0 <= r < height && 0 <= c < width ==>
        At(r, c) == CellAt(d, height, blank, off, top + r, c)
    }

    // The screen is the window on the document that begins at row `scrolls`. In the middle of
    // an operation the cursor may stand on the row just below it.
    ghost predicate Window()
      reads this, buffer
    {
      Shape() && OffRowKept() && Shows(doc, scrolls) &&
      xpos == doc.col && 0 <= ypos <= height && scrolls + ypos == doc.row &&
      (scrolls > 0 ==> ypos >= height - 1) &&
      (forall r, c :: (r, c) in doc.written ==> r < scrolls + height)
    }

    ghost predicate Valid()
      reads this, buffer
    {
      Window() && ypos < height && Sound(doc, width)
    }

    // `term_init`.
    constructor (width: nat, height: nat, fg: nat, bg: nat, buffer: array<Cell>)
      requires width >= 2 && height >= 1 && fg < 16 && bg < 16
      requires buffer.Length == width * (height + 1)
      modifies buffer
      ensures Valid() && this.width == width && this.height == height && this.buffer == buffer
      ensures color == MakeColor(fg, bg) && blank == Entry(color, SPACE)
      ensures off == old(buffer[width * height..])
      ensures doc == EMPTY && scrolls == 0
      ensures color == fg + 16 * bg && blank == 0x100 * color + 32 && xpos == ypos == 0
    {
      this.width := width;
      this.height := height;
      this.buffer := buffer;
      color := MakeColor(fg, bg);
      xpos := 0;
      ypos := 0;
      blank := Entry(MakeColor(fg, bg), SPACE);
      off := buffer[width * height..];
      doc := EMPTY;
      scrolls := 0;
      new;
      assert buffer.Length == width * height + width;
      forall c | 0 <= c < width
        ensures At(height, c) == off[c]
      {
      }
      Clear(SPACE);
    }

    // So every cell of the empty screen is a space in that colour.
    lemma EmptyScreen(r: nat, x: nat)
      requires Valid() && doc == EMPTY && scrolls == 0 && blank == 0x100 * color + 32
      requires r < height && x < width
      ensures At(r, x) == 0x100 * color + 32
    {
    }

    // `term_clear`.
    method Clear(c: schar)
      requires Shape()
      modifies buffer
      ensures forall r, x :: 0 <= r < height && 0 <= x < width ==> At(r, x) == Entry(color, c)
      ensures forall x :: 0 <= x < width ==> At(height, x) == old(At(height, x))
    {
      var y := 0;
      while y < height
        invariant 0 <= y <= height
        invariant forall r, x :: 0 <= r < y && 0 <= x < width ==> At(r, x) == Entry(color, c)
        invariant forall x :: 0 <= x < width ==> At(height, x) == old(At(height, x))
      {
        var x := 0;
        while x < width
          invariant 0 <= x <= width
          invariant forall r, x' :: 0 <= r < y && 0 <= x' < width ==> At(r, x') == Entry(color, c)
          invariant forall x' :: 0 <= x' < x ==> At(y, x') == Entry(color, c)
          invariant forall x' :: 0 <= x' < width ==> At(height, x') == old(At(height, x'))
        {
          PutEntryAt(c, x, y);
          x := x + 1;
        }
        y := y + 1;
      }
    }

    // `term_putentryat`.
    method PutEntryAt(c: schar, x: nat, y: nat)
      requires Shape() && x < width && y < height
      modifies buffer
      ensures forall r, x' :: 0 <= r <= height && 0 <= x' < width ==>
                At(r, x') == if r == y && x' == x then Entry(color, c) else old(At(r, x'))
      ensures y * width + x < buffer.Length
      ensures buffer[..] == old(buffer[..])[y * width + x := (if c >= 0 then 0x100 * color else 0x1_0000) + c]
    {
      IndexInside(y, x, width, height);
      buffer[Index(y, x, width)] := Entry(color, c);
      forall r, x' | 0 <= r <= height && 0 <= x' < width
        ensures At(r, x') == if r == y && x' == x then Entry(color, c) else old(At(r, x'))
      {
        IndexInside(r, x', width, height);
        if Index(r, x', width) == Index(y, x, width) {
          IndexInjective(r, x', y, x, width);
        }
      }
    }

    // `term_scroll`: the last screen row becomes a copy of the row behind it.
    method Scroll()
      requires Shape()
      modifies buffer, this`scrolls
      ensures forall r, c :: 0 <= r < height && 0 <= c < width ==> At(r, c) == old(At(r + 1, c))
      ensures forall c :: 0 <= c < width ==> At(height, c) == old(At(height, c))
      ensures scrolls == old(scrolls) + 1
    {
      assert buffer.Length == width * height + width;
      Memory.MemCpy(buffer, 0, buffer, width, width * height);
      forall r, c | 0 <= r <= height && 0 <= c < width
        ensures At(r, c) == old(At(if r < height then r + 1 else height, c))
      {
        IndexInside(r, c, width, height);
        IndexBelow(r, c, width);
        assert buffer[Index(r, c, width)] == buffer[..][Index(r, c, width)];
      }
      scrolls := scrolls + 1;
    }

    // `term_setcolor`.
    method SetColor(color: byte)
      requires Valid()
      modifies this`color
      ensures Valid() && this.color == color
    {
      this.color := color;
    }

    // `term_putchar`, without the hardware cursor, in its three parts. On the screen: a newline goes
    // to the start of the next row, a backspace goes back one column and leaves a space there, and
    // any other character stands where the cursor was, or at the start of the next row if that was
    // the last column. All other cells are as before, but for the scrolling by a row at the bottom.
    method PutChar(c: schar)
      requires Valid()
      modifies this`xpos, this`ypos, this`doc, this`scrolls, buffer
      ensures Valid() && doc == Type(old(doc), width, color, c)
      ensures c == 10 ==> xpos == 0 && scrolls + ypos == old(scrolls + ypos) + 1
      ensures c == 8 ==>
                xpos == (if old(xpos) > 0 then old(xpos) - 1 else 0) && scrolls + ypos == old(scrolls + ypos) &&
                (old(xpos) > 0 ==> At(ypos, xpos) == 0x100 * color + 32)
      ensures c != 10 && c != 8 ==>
                (if old(xpos) + 1 < width then xpos == old(xpos) + 1 && scrolls + ypos == old(scrolls + ypos)
                 else xpos == 1 && scrolls + ypos == old(scrolls + ypos) + 1) &&
                At(ypos, xpos - 1) == (if c >= 0 then 0x100 * color else 0x1_0000) + c
      ensures scrolls == old(scrolls) + if scrolls + ypos - old(scrolls) == height then 1 else 0
      ensures var up := scrolls - old(scrolls);
              var touched := if c == 10 || (c == 8 && old(xpos) == 0) then -1 else if c == 8 then xpos else xpos - 1;
              forall r, x :: 0 <= r < height && 0 <= x < width && !(r == ypos && x == touched) ==>
                At(r, x) == old(At(r + up, x))
    {
      hide At, Index, Entry, Control, Wrap, Place, Window;
      CursorSound(c);
      PutControl(c);
      WrapAndScroll();
      PutPrintable(c);
      CursorMoved(c);
      CellsMoved(c);
    }

    lemma CursorSound(c: schar)
      requires Valid()
      ensures Sound(Type(doc, width, color, c), width)
    {
      TypeSound(doc, width, color, c);
    }

    twostate lemma CursorMoved(c: schar)
      requires old(Valid()) && Valid() && doc == Type(old(doc), width, color, c)
      ensures c == 10 ==> xpos == 0 && scrolls + ypos == old(scrolls + ypos) + 1
      ensures c == 8 ==>
                xpos == (if old(xpos) > 0 then old(xpos) - 1 else 0) && scrolls + ypos == old(scrolls + ypos)
      ensures c != 10 && c != 8 ==>
                if old(xpos) + 1 < width then xpos == old(xpos) + 1 && scrolls + ypos == old(scrolls + ypos)
                else xpos == 1 && scrolls + ypos == old(scrolls + ypos) + 1
    {
      hide At;
    }

    twostate lemma CellsMoved(c: schar)
      requires old(Valid()) && Valid() && doc == Type(old(doc), width, color, c) && color == old(color)
      requires old(scrolls) <= scrolls <= old(scrolls) + 1
      ensures scrolls == old(scrolls) + if scrolls + ypos - old(scrolls) == height then 1 else 0
      ensures c == 8 && old(xpos) > 0 ==> At(ypos, xpos) == 0x100 * color + 32
      ensures c != 10 && c != 8 ==>
                xpos > 0 && At(ypos, xpos - 1) == (if c >= 0 then 0x100 * color else 0x1_0000) + c
      ensures var up := scrolls - old(scrolls);
              var touched := if c == 10 || (c == 8 && old(xpos) == 0) then -1 else if c == 8 then xpos else xpos - 1;
              forall r, x :: 0 <= r < height && 0 <= x < width && !(r == ypos && x == touched) ==>
                At(r, x) == old(At(r + up, x))
    {
      hide Index, At;
      CursorMoved(c);
    }

    method PutControl(c: schar)
      requires Valid()
      modifies this`xpos, this`ypos, this`doc, buffer
      ensures Window() && doc == Control(old(doc), color, c)
      ensures xpos + 1 < width || ypos < height
    {
      if c == NEWLINE {
        xpos := 0;
        ypos := ypos + 1;
        doc := Control(doc, color, c);
      } else if c == BACKSPACE {
        if xpos > 0 {
          Erase();
        }
      }
    }

    method Erase()
      requires Valid() && xpos > 0
      modifies this`xpos, this`doc, buffer
      ensures Window() && ypos < height && doc == Control(old(doc), color, BACKSPACE)
    {
      hide Index, At;
      doc := Control(doc, color, BACKSPACE);
      xpos := xpos - 1;
      PutEntryAt(SPACE, xpos, ypos);
    }

    method WrapAndScroll()
      requires Window() && (xpos + 1 < width || ypos < height)
      modifies this`xpos, this`ypos, this`doc, this`scrolls, buffer
      ensures Window() && ypos < height && xpos + 1 < width && doc == Wrap(old(doc), width)
      ensures old(scrolls) <= scrolls <= old(scrolls) + 1
    {
      hide Index, At;
      doc := Wrap(doc, width);
      if xpos + 1 >= width {
        xpos := 0;
        ypos := ypos + 1;
      }
      if ypos >= height {
        Scroll();
        ypos := ypos - 1;
      }
    }

    method PutPrintable(c: schar)
      requires Window() && ypos < height && xpos + 1 < width
      modifies this`xpos, this`doc, buffer
      ensures Window() && ypos < height && doc == Place(old(doc), color, c)
    {
      hide Index, At;
      doc := Place(doc, color, c);
      if c != NEWLINE && c != BACKSPACE {
        PutEntryAt(c, xpos, ypos);
        if xpos < width {
          xpos := xpos + 1;
        }
      }
    }

    // `term_writestring`.
    method WriteString(data: seq<schar>)
      requires Valid()
      modifies this`xpos, this`ypos, this`doc, this`scrolls, buffer
      ensures Valid() && doc == TypeAll(old(doc), width, color, data)
    {
      var i := 0;
      assert data[..0] == [];
      while i < |data|
        invariant 0 <= i <= |data|
        invariant Valid() && doc == TypeAll(old(doc), width, color, data[..i])
      {
        assert data[..i + 1][..i] == data[..i];
        PutChar(data[i]);
        i := i + 1;
      }
      assert data[..i] == data;
    }
  }
}
