/** What the screen shows around a line that is being edited (user/shell.c:360-388). */
module EditedScreen {
  import opened CArithmetic
  import opened Screen

  function Position(t: Text): int {
    CellIndex(t.row, t.col)
  }

  /** Cell `i` of the screen that editing began on, `k` rows further up. */
  function BaseAt(base: seq<Cell>, k: nat, color: Byte, i: nat): Cell
    requires |base| == CELLS
  {
    if i + k * WIDTH < CELLS then base[i + k * WIDTH] else Blank(color)
  }

  /**
   * Cell `i` while `line` stands on the screen from `start`: the line, then blanks as far as any
   * line ever reached, and everywhere else the old screen.
   */
  function ShownAt(base: seq<Cell>, k: nat, color: Byte, start: nat, line: seq<Byte>, reach: nat, i: nat): Cell
    requires |base| == CELLS
  {
    if start <= i < start + |line| then Glyph(color, line[i - start])
    else if start <= i < start + reach then Blank(color)
    else BaseAt(base, k, color, i)
  }

  ghost predicate Painted(t: Text, base: seq<Cell>, k: nat, start: nat, line: seq<Byte>, reach: nat) {
    && t.Ok() && |base| == CELLS
    && start + |line| < CELLS && |line| <= reach
    && t.guarded && CellIndex(t.edgeRow, t.edgeCol) == start
    && forall i :: 0 <= i < CELLS ==> t.cells[i] == ShownAt(base, k, t.color, start, line, reach, i)
  }

  /** While a line is redrawn: the first `n` cells from `start` are new, the others still show `old`. */
  ghost predicate Drawn(
      t: Text, base: seq<Cell>, k: nat, start: nat, was: seq<Byte>, line: seq<Byte>, reach: nat, n: nat) {
    && t.Ok() && |base| == CELLS
    && t.guarded && CellIndex(t.edgeRow, t.edgeCol) == start && Position(t) == start + n
    && forall i :: 0 <= i < CELLS ==>
         t.cells[i] == if start <= i < start + n
           then (if i - start < |line| then Glyph(t.color, line[i - start]) else Blank(t.color))
                       else ShownAt(base, k, t.color, start, was, reach, i)
  }

  predicate Printable(c: Byte) {
    32 <= c < 127
  }

  predicate AllPrintable(s: seq<Byte>) {
    forall i :: 0 <= i < |s| ==> Printable(s[i])
  }

  lemma {:induction false} ProtectedInOrder(t: Text, r: int, c: int)
    requires t.Ok() && 0 <= r < HEIGHT && 0 <= c < WIDTH
    ensures t.IsProtected(r, c) <==> t.guarded && CellIndex(r, c) < CellIndex(t.edgeRow, t.edgeCol)
  {}

  lemma {:induction false} CursorMoves(t: Text, r: int, c: int)
    requires t.Ok() && 0 <= r < HEIGHT && 0 <= c < WIDTH
    ensures SetCursor(t, r, c) ==
            if t.guarded && CellIndex(r, c) < CellIndex(t.edgeRow, t.edgeCol) then t else t.(row := r, col := c)
  {
    ProtectedInOrder(t, r, c);
  }

  /** Row and column of a linear position (user/shell.c:360-363). */
  lemma {:induction false} RowAndColumn(row: nat, col: nat, n: nat)
    requires col < WIDTH
    ensures var r, c := row + (col + n) / WIDTH, (col + n) % WIDTH;
            0 <= c < WIDTH && CellIndex(r, c) == CellIndex(row, col) + n
              && (CellIndex(row, col) + n < CELLS <==> r < HEIGHT)
  {
    assert col + n == WIDTH * ((col + n) / WIDTH) + (col + n) % WIDTH;
  }

  /** One printable character, away from the last cell of the screen. */
  lemma {:induction false} PutOne(t: Text, c: Byte)
    requires t.Ok() && Printable(c) && Position(t) + 1 < CELLS
    requires t.guarded ==> CellIndex(t.edgeRow, t.edgeCol) <= Position(t)
    ensures var t' := Put(t, c, t.color);
            && t'.cells == t.cells[Position(t) := Glyph(t.color, c)] && Position(t') == Position(t) + 1
            && t'.guarded == t.guarded && t'.edgeRow == t.edgeRow && t'.edgeCol == t.edgeCol && t'.color == t.color
  {
    ProtectedInOrder(t, t.row, t.col);
  }

  lemma {:induction false} DrawOne(
      t: Text, base: seq<Cell>, k: nat, start: nat, was: seq<Byte>, line: seq<Byte>, reach: nat, n: nat, c: Byte)
    requires Drawn(t, base, k, start, was, line, reach, n) && start + n + 1 < CELLS
    requires c == if n < |line| then line[n] else SPACE
    requires Printable(c)
    ensures Drawn(Put(t, c, t.color), base, k, start, was, line, reach, n + 1)
  {
    PutOne(t, c);
    hide Put, Glyph, BaseAt;
  }

  lemma {:induction false} DrawBegins(
      t: Text, base: seq<Cell>, k: nat, start: nat, was: seq<Byte>, line: seq<Byte>, reach: nat)
    requires Painted(t, base, k, start, was, reach) && Position(t) == start
    ensures Drawn(t, base, k, start, was, line, reach, 0)
  {}

  lemma {:induction false} DrawEnds(
      t: Text, base: seq<Cell>, k: nat, start: nat, was: seq<Byte>, line: seq<Byte>, reach: nat, n: nat)
    requires Drawn(t, base, k, start, was, line, reach, n) && n >= |line| && n >= |was| && |was| <= reach
             && start + n < CELLS
    ensures Painted(t, base, k, start, line, if n > reach then n else reach)
  {
    hide Glyph, BaseAt;
  }

  /** A newline on the bottom row takes line, boundary and old screen one row up. */
  lemma {:induction false} ScrollPaints(t: Text, base: seq<Cell>, k: nat, start: nat, line: seq<Byte>, reach: nat)
    requires Painted(t, base, k, start, line, reach) && t.row == HEIGHT - 1 && start >= WIDTH
    ensures var t' := Put(t, NEWLINE, t.color);
            && Painted(t', base, k + 1, start - WIDTH, line, reach)
            && t'.edgeRow == t.edgeRow - 1 && t'.edgeCol == t.edgeCol && t'.color == t.color
            && t'.row == HEIGHT - 1 && t'.col == 0
  {
    var t' := Put(t, NEWLINE, t.color);
    assert t' == NewLine(t);
    assert t.edgeRow > 0;
    forall i | 0 <= i < CELLS ensures t'.cells[i] == ShownAt(base, k + 1, t.color, start - WIDTH, line, reach, i) {
      if i + WIDTH < CELLS {
        assert t'.cells[i] == t.cells[i + WIDTH];
      }
    }
  }

  /** Moving the cursor does not repaint. */
  lemma {:induction false} MoveStaysPainted(
      t: Text, r: int, c: int, base: seq<Cell>, k: nat, start: nat, line: seq<Byte>, reach: nat)
    requires Painted(t, base, k, start, line, reach)
    ensures var t' := SetCursor(t, r, c);
            Painted(t', base, k, start, line, reach) && t'.edgeRow == t.edgeRow && t'.edgeCol == t.edgeCol
              && t'.color == t.color
  {}
}

/** The line as a value: what each key means, without a screen (user/shell.c:498-562). */
module EditedLine {
  import opened CArithmetic
  import opened Screen
  import opened EditedScreen

  const UP: Byte := 1
  const DOWN: Byte := 2
  const LEFT: Byte := 3
  const RIGHT: Byte := 4
  const HIST_MAX := 8
  const ENTRY := 127

  /** The row a line of `n` characters must begin on to leave the bottom row uncrossed. */
  function RoomyRow(row: int, col: int, n: nat): int
    requires col >= 0
  {
    var more := (col + n) / WIDTH;
    if row + more >= HEIGHT then HEIGHT - 1 - more else row
  }

  datatype Line = Line(text: seq<Byte>, pos: nat, back: nat)

  ghost predicate LineOk(l: Line, history: seq<seq<Byte>>, size: nat) {
    && |l.text| < size && l.pos <= |l.text| && l.back <= |history| && AllPrintable(l.text)
  }

  ghost predicate HistoryOk(history: seq<seq<Byte>>) {
    && |history| <= HIST_MAX
    && forall i :: 0 <= i < |history| ==> 0 < |history[i]| <= ENTRY && AllPrintable(history[i])
  }

  function Fitting(s: seq<Byte>, n: nat): seq<Byte> {
    if |s| <= n then s else s[..n]
  }

  /** The entry `i` steps back, as far as the buffer holds it. */
  function Recalled(history: seq<seq<Byte>>, i: nat, size: nat): seq<Byte>
    requires 1 <= i <= |history| && size >= 1
  {
    Fitting(history[|history| - i], size - 1)
  }

  function Key(l: Line, c: int, history: seq<seq<Byte>>, size: nat): (l': Line)
    requires l.pos <= |l.text| && l.back <= |history| && size >= 1
    ensures l'.pos <= |l'.text| && l'.back <= |history|
  {
    if c == UP then
      if l.back < |history| then
        var text := Recalled(history, l.back + 1, size);
        Line(text, |text|, l.back + 1)
      else l
    else if c == DOWN then
      if l.back == 0 then l
      else if l.back == 1 then Line([], 0, 0)
      else
        var text := Recalled(history, l.back - 1, size);
        Line(text, |text|, l.back - 1)
    else if c == LEFT then (if l.pos > 0 then l.(pos := l.pos - 1) else l)
    else if c == RIGHT then (if l.pos < |l.text| then l.(pos := l.pos + 1) else l)
    else if c == BACKSPACE then
      if l.pos > 0 then l.(text := l.text[..l.pos - 1] + l.text[l.pos..], pos := l.pos - 1) else l
    else if 32 <= c < 127 then
      if |l.text| + 1 < size then l.(text := l.text[..l.pos] + [c] + l.text[l.pos..], pos := l.pos + 1) else l
    else l
  }

  /** The row the line begins on after a key: every key that repaints first makes room. */
  function KeyRow(l: Line, c: int, history: seq<seq<Byte>>, size: nat, row: int, col: int): int
    requires col >= 0
  {
    if c == UP then (if l.back < |history| then RoomyRow(row, col, 127) else row)
    else if c == DOWN then (if l.back == 0 then row else RoomyRow(row, col, if l.back == 1 then 0 else 127))
    else if c == BACKSPACE then (if l.pos > 0 && l.text != [] then RoomyRow(row, col, |l.text| - 1) else row)
    else if 32 <= c < 127 then (if |l.text| + 1 < size then RoomyRow(row, col, |l.text| + 1) else row)
    else row
  }

  /** What the mouse does to a line (user/shell.c:463-488): a press and a release in one place are a click. */
  datatype Edit = Edit(line: Line, row: int, held: bool, pressX: int, pressY: int)

  function ClickedOffset(row: int, col: int, len: nat, x: int, y: int): nat {
    var off := (y - row) * WIDTH + (x - col);
    if off < 0 then 0 else if off > len then len else off
  }

  predicate IsClick(e: Edit, x: int, y: int, left: bool) {
    !left && e.held && x == e.pressX && y == e.pressY
  }

  function Mouse(e: Edit, x: int, y: int, left: bool, col: int): Edit
    requires col >= 0
  {
    var e1 := if left && !e.held then e.(pressX := x, pressY := y) else e;
    var n := |e.line.text|;
    var e2 := if IsClick(e, x, y, left) && e.row <= y <= e.row + (col + n) / WIDTH
              then e1.(line := e.line.(pos := ClickedOffset(e.row, col, n, x, y))) else e1;
    e2.(held := left)
  }

  datatype Event = KeyPress(c: int) | MouseState(x: int, y: int, left: bool)

  predicate IsEnter(ev: Event) {
    ev.KeyPress? && (ev.c == NEWLINE || ev.c == RETURN)
  }

  function Step(e: Edit, ev: Event, history: seq<seq<Byte>>, size: nat, col: int): (e': Edit)
    requires e.line.pos <= |e.line.text| && e.line.back <= |history| && size >= 1 && col >= 0
    ensures e'.line.pos <= |e'.line.text| && e'.line.back <= |history|
  {
    match ev
    case KeyPress(c) => e.(line := Key(e.line, c, history, size), row := KeyRow(e.line, c, history, size, e.row, col))
    case MouseState(x, y, left) => Mouse(e, x, y, left, col)
  }

  function RunEvents(e: Edit, evs: seq<Event>, history: seq<seq<Byte>>, size: nat, col: int): Edit
    requires e.line.pos <= |e.line.text| && e.line.back <= |history| && size >= 1 && col >= 0
    decreases |evs|
  {
    if evs == [] then e else RunEvents(Step(e, evs[0], history, size, col), evs[1..], history, size, col)
  }

  /** user/shell.c:418-442. */
  function Remember(history: seq<seq<Byte>>, line: seq<Byte>): seq<seq<Byte>> {
    if line == [] || (history != [] && history[|history| - 1] == line) then history
    else (if |history| < HIST_MAX then history else history[1..]) + [Fitting(line, ENTRY)]
  }

  lemma {:induction false} KeyKeepsLine(l: Line, c: int, history: seq<seq<Byte>>, size: nat)
    requires LineOk(l, history, size) && HistoryOk(history)
    ensures LineOk(Key(l, c, history, size), history, size)
  {}

  lemma {:induction false} RememberKeepsHistory(history: seq<seq<Byte>>, line: seq<Byte>)
    requires HistoryOk(history) && AllPrintable(line)
    ensures HistoryOk(Remember(history, line))
  {}

  /** A character typed and taken back leaves the line as it was. */
  lemma {:induction false} TypeAndErase(l: Line, c: Byte, history: seq<seq<Byte>>, size: nat)
    requires LineOk(l, history, size) && Printable(c) && |l.text| + 1 < size
    ensures Key(Key(l, c, history, size), BACKSPACE, history, size) == l
  {
    var l1 := Key(l, c, history, size);
    assert l1.text[..l1.pos - 1] == l.text[..l.pos];
    assert l1.text[l1.pos..] == l.text[l.pos..];
    assert l.text[..l.pos] + l.text[l.pos..] == l.text;
  }

  /** The line just entered is what the next Up recalls, cut to what an entry and the buffer hold. */
  lemma {:induction false} UpRecallsTheLast(history: seq<seq<Byte>>, line: seq<Byte>, size: nat)
    requires line != [] && size >= 1 && HistoryOk(history)
    ensures var h := Remember(history, line);
            Key(Line([], 0, 0), UP, h, size).text == Fitting(Fitting(line, ENTRY), size - 1)
  {
    var h := Remember(history, line);
    assert h[|h| - 1] == Fitting(line, ENTRY);
  }
}

/** What the editor's keys, clicks and history do, over runs of events and said of the history itself. */
module EditingLaws {
  import opened CArithmetic
  import opened Screen
  import opened EditedLine

  function Presses(c: int, n: nat): seq<Event> {
    seq(n, _ => KeyPress(c))
  }

  ghost predicate Running(e: Edit, history: seq<seq<Byte>>, size: nat, col: int) {
    e.line.pos <= |e.line.text| && e.line.back <= |history| && size >= 1 && col >= 0
  }

  lemma {:induction false} RunConcat(
      e: Edit, a: seq<Event>, b: seq<Event>, history: seq<seq<Byte>>, size: nat, col: int)
    requires Running(e, history, size, col)
    ensures Running(RunEvents(e, a, history, size, col), history, size, col)
    ensures RunEvents(e, a + b, history, size, col) ==
            RunEvents(RunEvents(e, a, history, size, col), b, history, size, col)
    decreases |a|
  {
    hide Step;
    if a == [] {
      assert a + b == b;
    } else {
      assert (a + b)[1..] == a[1..] + b;
      RunConcat(Step(e, a[0], history, size, col), a[1..], b, history, size, col);
    }
  }

  lemma {:induction false} RunOne(e: Edit, ev: Event, history: seq<seq<Byte>>, size: nat, col: int)
    requires Running(e, history, size, col)
    ensures RunEvents(e, [ev], history, size, col) == Step(e, ev, history, size, col)
  {
    hide Step;
    assert [ev][1..] == [];
  }

  /** The line is the history's entry `i` places from its end, as far as the buffer takes it, cursor at its end. */
  ghost predicate ShowsEntry(l: Line, history: seq<seq<Byte>>, i: nat, size: nat)
    requires 1 <= i <= |history| && size >= 1
  {
    var h := history[|history| - i];
    l.text == (if |h| < size then h else h[..size - 1]) && l.pos == |l.text| && l.back == i
  }

  /** From outside the history, `k` presses of Up bring the `k`-th entry from the end. */
  lemma {:induction false} UpsRecall(e: Edit, k: nat, history: seq<seq<Byte>>, size: nat, col: int)
    requires Running(e, history, size, col) && e.line.back == 0 && 1 <= k <= |history|
    ensures ShowsEntry(RunEvents(e, Presses(1, k), history, size, col).line, history, k, size)
    decreases k
  {
    hide RunEvents, ShowsEntry, Step;
    RunConcat(e, Presses(1, k - 1), [], history, size, col);
    var before := RunEvents(e, Presses(1, k - 1), history, size, col);
    assert Presses(1, k) == Presses(1, k - 1) + [KeyPress(1)];
    RunConcat(e, Presses(1, k - 1), [KeyPress(1)], history, size, col);
    RunOne(before, KeyPress(1), history, size, col);
    if k > 1 {
      UpsRecall(e, k - 1, history, size, col);
    } else {
      assert Presses(1, 0) == [];
      RunNone(e, history, size, col);
    }
    UpFrom(before, k - 1, history, size, col);
  }

  lemma {:induction false} RunNone(e: Edit, history: seq<seq<Byte>>, size: nat, col: int)
    requires Running(e, history, size, col)
    ensures RunEvents(e, [], history, size, col) == e
  {}

  lemma {:induction false} UpFrom(e: Edit, b: nat, history: seq<seq<Byte>>, size: nat, col: int)
    requires Running(e, history, size, col) && b < |history|
    requires if b == 0 then e.line.back == 0 else ShowsEntry(e.line, history, b, size)
    ensures ShowsEntry(Step(e, KeyPress(1), history, size, col).line, history, b + 1, size)
  {}

  lemma {:induction false} DownFrom(e: Edit, b: nat, history: seq<seq<Byte>>, size: nat, col: int)
    requires Running(e, history, size, col) && 1 <= b <= |history| && ShowsEntry(e.line, history, b, size)
    ensures var l := Step(e, KeyPress(2), history, size, col).line;
            if b == 1 then l == Line([], 0, 0) else ShowsEntry(l, history, b - 1, size)
  {}

  /** `k` presses of Up and then `j` of Down: the entry `j` places newer, and below the newest the empty line. */
  lemma {:induction false} HistoryWalk(e: Edit, k: nat, j: nat, history: seq<seq<Byte>>, size: nat, col: int)
    requires Running(e, history, size, col) && e.line.back == 0 && 1 <= k <= |history| && j <= k
    ensures var l := RunEvents(e, Presses(1, k) + Presses(2, j), history, size, col).line;
            if j == k then l == Line([], 0, 0) else ShowsEntry(l, history, k - j, size)
    decreases j
  {
    hide RunEvents, ShowsEntry, Step;
    if j == 0 {
      assert Presses(1, k) + Presses(2, 0) == Presses(1, k);
      UpsRecall(e, k, history, size, col);
    } else {
      var events := Presses(1, k) + Presses(2, j - 1);
      assert Presses(1, k) + Presses(2, j) == events + [KeyPress(2)];
      HistoryWalk(e, k, j - 1, history, size, col);
      RunConcat(e, events, [KeyPress(2)], history, size, col);
      var before := RunEvents(e, events, history, size, col);
      RunOne(before, KeyPress(2), history, size, col);
      DownFrom(before, k - j + 1, history, size, col);
    }
  }

  /** Past the oldest entry Up does nothing, and outside the history Down does nothing. */
  lemma {:induction false} HistoryEnds(e: Edit, history: seq<seq<Byte>>, size: nat, col: int)
    requires Running(e, history, size, col)
    ensures e.line.back == |history| ==> RunEvents(e, [KeyPress(1)], history, size, col) == e
    ensures e.line.back == 0 ==> RunEvents(e, [KeyPress(2)], history, size, col) == e
  {
    RunOne(e, KeyPress(1), history, size, col);
    RunOne(e, KeyPress(2), history, size, col);
  }

  /** Left and Right move the cursor by one and change nothing else; each undoes the other inside the line. */
  lemma {:induction false} CursorKeys(e: Edit, history: seq<seq<Byte>>, size: nat, col: int)
    requires Running(e, history, size, col)
    ensures RunEvents(e, [KeyPress(3)], history, size, col) ==
            if e.line.pos == 0 then e else e.(line := e.line.(pos := e.line.pos - 1))
    ensures RunEvents(e, [KeyPress(4)], history, size, col) ==
            if e.line.pos == |e.line.text| then e else e.(line := e.line.(pos := e.line.pos + 1))
    ensures e.line.pos > 0 ==> RunEvents(e, [KeyPress(3), KeyPress(4)], history, size, col) == e
    ensures e.line.pos < |e.line.text| ==> RunEvents(e, [KeyPress(4), KeyPress(3)], history, size, col) == e
  {
    hide RunEvents;
    var l, r := KeyPress(3), KeyPress(4);
    assert [l] + [r] == [l, r] && [r] + [l] == [r, l];
    RunOne(e, l, history, size, col);
    RunOne(e, r, history, size, col);
    RunConcat(e, [l], [r], history, size, col);
    RunConcat(e, [r], [l], history, size, col);
    RunOne(RunEvents(e, [l], history, size, col), r, history, size, col);
    RunOne(RunEvents(e, [r], history, size, col), l, history, size, col);
  }

  /** A character appears at the cursor, which goes past it; Backspace takes out the one before the cursor. */
  lemma {:induction false} TypingLaw(e: Edit, c: Byte, history: seq<seq<Byte>>, size: nat, col: int)
    requires Running(e, history, size, col) && 32 <= c < 127
    ensures var l, l' := e.line, RunEvents(e, [KeyPress(c)], history, size, col).line;
            if |l.text| + 1 >= size then l' == l
            else |l'.text| == |l.text| + 1 && l'.pos == l.pos + 1 && l'.back == l.back
                 && forall i :: 0 <= i < |l'.text| ==>
                      l'.text[i] == if i < l.pos then l.text[i] else if i == l.pos then c else l.text[i - 1]
    ensures var l, l' := e.line, RunEvents(e, [KeyPress(8)], history, size, col).line;
            if l.pos == 0 then l' == l
            else |l'.text| == |l.text| - 1 && l'.pos == l.pos - 1 && l'.back == l.back
                 && forall i :: 0 <= i < |l'.text| ==>
                      l'.text[i] == if i < l.pos - 1 then l.text[i] else l.text[i + 1]
  {
    RunOne(e, KeyPress(c), history, size, col);
    RunOne(e, KeyPress(8), history, size, col);
  }

  /** `r` is the lowest row, not below `row`, from which `n` characters and the cursor after them are on the screen. */
  ghost predicate Roomiest(row: int, col: int, n: nat, r: int) {
    && r <= row && 80 * r + col + n < 2000
    && forall x :: r < x <= row ==> 80 * x + col + n >= 2000
  }

  /** A character or Backspace moves the line up only as far as the new text needs, a recalled entry as far as 127
      characters would; the cursor keys do not move it. */
  lemma {:induction false} RowLaw(e: Edit, c: int, history: seq<seq<Byte>>, size: nat, col: int)
    requires Running(e, history, size, col)
    ensures var row := RunEvents(e, [KeyPress(c)], history, size, col).row; var n := |e.line.text|;
            if 32 <= c < 127 && n + 1 < size then Roomiest(e.row, col, n + 1, row)
            else if c == 8 && e.line.pos > 0 then Roomiest(e.row, col, n - 1, row)
            else if (c == 1 && e.line.back < |history|) || (c == 2 && e.line.back > 1)
              then Roomiest(e.row, col, 127, row)
            else if c == 2 && e.line.back == 1 then Roomiest(e.row, col, 0, row)
            else row == e.row
  {
    RunOne(e, KeyPress(c), history, size, col);
    hide RoomyRow;
    RoomIsLeast(e.row, col, |e.line.text| + 1);
    RoomIsLeast(e.row, col, 127);
    RoomIsLeast(e.row, col, 0);
    if e.line.text != [] {
      RoomIsLeast(e.row, col, |e.line.text| - 1);
    }
  }

  lemma {:induction false} RoomIsLeast(row: int, col: int, n: nat)
    requires col >= 0
    ensures Roomiest(row, col, n, RoomyRow(row, col, n))
  {
    var q, m := (col + n) / 80, (col + n) % 80;
    assert col + n == 80 * q + m;
  }

  function Click(x: int, y: int): seq<Event> {
    [MouseState(x, y, true), MouseState(x, y, false)]
  }

  /**
   * Press and release on one cell: on a cell of the line, or the one after its end, the cursor goes there; right
   * of the end on the last row it goes to the end, left of the start on the first row to the start; above and
   * below, nothing happens.
   */
  lemma {:induction false} ClickLaw(e: Edit, x: int, y: int, history: seq<seq<Byte>>, size: nat, col: int)
    requires Running(e, history, size, col) && !e.held && 0 <= e.row && col < 80 && 0 <= x < 80
    ensures var l, l' := e.line, RunEvents(e, Click(x, y), history, size, col).line;
            var start, last, cell := 80 * e.row + col, 80 * e.row + col + |l.text|, 80 * y + x;
            && l'.text == l.text && l'.back == l.back
            && (start <= cell <= last ==> l'.pos == cell - start)
            && (y == e.row && cell < start ==> l'.pos == 0)
            && (y == last / 80 && cell > last ==> l'.pos == |l.text|)
            && (y < e.row || y > last / 80 ==> l' == l)
  {
    hide RunEvents;
    var p, q := MouseState(x, y, true), MouseState(x, y, false);
    assert Click(x, y) == [p] + [q];
    RunConcat(e, [p], [q], history, size, col);
    RunOne(e, p, history, size, col);
    RunOne(RunEvents(e, [p], history, size, col), q, history, size, col);
    LastRow(e.row, col, |e.line.text|);
  }

  lemma {:induction false} LastRow(row: int, col: int, n: nat)
    requires 0 <= row && 0 <= col
    ensures (80 * row + col + n) / 80 == row + (col + n) / 80
  {}

  /** A press on one cell and a release on another is no click. */
  lemma {:induction false} DragLaw(
      e: Edit, x: int, y: int, x': int, y': int, history: seq<seq<Byte>>, size: nat, col: int)
    requires Running(e, history, size, col) && !e.held && (x != x' || y != y')
    ensures RunEvents(e, [MouseState(x, y, true), MouseState(x', y', false)], history, size, col).line == e.line
  {
    hide RunEvents;
    var p, q := MouseState(x, y, true), MouseState(x', y', false);
    assert [p, q] == [p] + [q];
    RunConcat(e, [p], [q], history, size, col);
    RunOne(e, p, history, size, col);
    RunOne(RunEvents(e, [p], history, size, col), q, history, size, col);
  }

  // The history.

  function Cut(line: seq<Byte>): seq<Byte> {
    if |line| <= 127 then line else line[..127]
  }

  function LastEight(log: seq<seq<Byte>>): seq<seq<Byte>> {
    if |log| <= 8 then log else log[|log| - 8..]
  }

  /** One line more: an empty one, or the same as the newest, changes nothing; any other becomes the newest, cut to
      127 characters, behind the seven newest before it. */
  lemma {:induction false} RememberLaw(history: seq<seq<Byte>>, line: seq<Byte>)
    requires |history| <= 8
    ensures line == [] || (history != [] && history[|history| - 1] == line) ==> Remember(history, line) == history
    ensures line != [] && (history != [] ==> history[|history| - 1] != line) ==>
              Remember(history, line) == LastEight(history + [Cut(line)])
  {
    if line != [] && (history != [] ==> history[|history| - 1] != line) {
      var all := history + [Cut(line)];
      if |history| == 8 {
        assert all[1..] == history[1..] + [Cut(line)];
      }
    }
  }

  /** Every line entered that is not empty and not the one before again, oldest first. */
  function Log(lines: seq<seq<Byte>>): seq<seq<Byte>> {
    if lines == [] then [] else
      var log, line := Log(lines[..|lines| - 1]), lines[|lines| - 1];
      if line == [] || (log != [] && log[|log| - 1] == line) then log else log + [Cut(line)]
  }

  function Remembered(lines: seq<seq<Byte>>): seq<seq<Byte>> {
    if lines == [] then [] else Remember(Remembered(lines[..|lines| - 1]), lines[|lines| - 1])
  }

  /** After any lines entered, the history is the last eight of these. */
  lemma {:induction false} HistoryIsLog(lines: seq<seq<Byte>>)
    ensures Remembered(lines) == LastEight(Log(lines))
    decreases |lines|
  {
    if lines != [] {
      hide Remember, Cut, LastEight;
      var before, line := lines[..|lines| - 1], lines[|lines| - 1];
      HistoryIsLog(before);
      var log, h := Log(before), Remembered(before);
      LastEightEnds(log);
      RememberLaw(h, line);
      LastOfLast(log, Cut(line));
    }
  }

  lemma {:induction false} LastEightEnds(log: seq<seq<Byte>>)
    ensures var h := LastEight(log);
            |h| <= 8 && (h == [] <==> log == []) && (log != [] ==> h[|h| - 1] == log[|log| - 1])
  {}

  lemma {:induction false} LastOfLast(log: seq<seq<Byte>>, x: seq<Byte>)
    ensures LastEight(LastEight(log) + [x]) == LastEight(log + [x])
  {}
}

/** The editor with its buffer, its history and its screen (user/shell.c:365-564). */
module LineEditor {
  import opened CArithmetic
  import opened Screen
  import opened EditedScreen
  import opened EditedLine

  class Editor {
    var screen: Text                 // what the putchar and set_cursor calls act on
    const buf: array<Byte>
    var pos: nat
    var len: nat
    var dispLen: nat
    var startRow: int
    var startCol: int
    var prevLeft: bool
    var pressX: int
    var pressY: int
    var history: seq<seq<Byte>>
    var histPos: nat

    ghost var base: seq<Cell>        // the screen when editing began
    ghost var firstRow: int          // and the row it began on
    ghost var reach: nat             // the longest line shown so far

    ghost function LineOf(): Line
      reads this`pos, this`len, this`histPos, buf
      requires len <= buf.Length
    {
      Line(buf[..len], pos, histPos)
    }

    ghost function Start(): int
      reads this`startRow, this`startCol
    {
      CellIndex(startRow, startCol)
    }

    /** How often the screen has scrolled since. */
    ghost function Ups(): int
      reads this`startRow, this`firstRow
    {
      firstRow - startRow
    }

    /** `line` stands on the screen at the tracked start, which is also the protected boundary. */
    ghost predicate Shows(line: seq<Byte>)
      reads this`screen, this`dispLen, this`startRow, this`startCol, this`base, this`firstRow, this`reach
    {
      && 0 <= startRow <= firstRow && 0 <= startCol < WIDTH
      && dispLen == |line|
      && Painted(screen, base, Ups(), Start(), line, reach)
      && screen.edgeRow == startRow && screen.edgeCol == startCol
    }

    ghost predicate StateOk()
      reads this`pos, this`len, this`histPos, this`history, buf
    {
      && 1 <= buf.Length && len < buf.Length && HistoryOk(history)
      && LineOk(LineOf(), history, buf.Length)
    }

    /** Between two events: screen, buffer and cursor agree. */
    ghost predicate InStep()
      reads this, buf
    {
      && buf.Length <= 1921 && StateOk()
      && Shows(buf[..len])
      && Position(screen) == Start() + pos
    }

    /** user/shell.c:445-458, right after the shell has set the boundary to the cursor (user/shell.c:1426-1431). */
    constructor (screen: Text, buf: array<Byte>, history: seq<seq<Byte>>)
      requires screen.Ok() && screen.guarded && screen.edgeRow == screen.row && screen.edgeCol == screen.col
      requires 1 <= buf.Length <= 1921 && HistoryOk(history)
      ensures InStep() && this.buf == buf && this.screen == screen && this.history == history
      ensures LineOf() == Line([], 0, 0) && base == screen.cells && firstRow == screen.row
      ensures EditOf() == Edit(LineOf(), screen.row, false, 0, 0) && startCol == screen.col
    {
      this.screen, this.buf, this.history := screen, buf, history;
      pos, len, dispLen, histPos := 0, 0, 0, 0;
      startRow, startCol := screen.row, screen.col;
      prevLeft, pressX, pressY := false, 0, 0;
      base, firstRow, reach := screen.cells, screen.row, 0;
    }

    method PutChar(c: Byte)
      requires screen.Ok()
      modifies this`screen
      ensures screen == Put(old(screen), c, old(screen).color)
    {
      screen := Put(screen, c, screen.color);
    }

    method SetScreenCursor(r: int, c: int)
      requires screen.Ok()
      modifies this`screen
      ensures screen == SetCursor(old(screen), r, c)
    {
      screen := SetCursor(screen, r, c);
    }

    /** user/shell.c:360-363. */
    method LineSetCursor(p: nat, ghost line: seq<Byte>)
      requires Shows(line) && p <= |line|
      modifies this`screen
      ensures Shows(line) && Position(screen) == Start() + p
      ensures screen.row == startRow + (startCol + p) / WIDTH && screen.col == (startCol + p) % WIDTH
    {
      RowAndColumn(startRow, startCol, p);
      var r, c := startRow + (startCol + p) / WIDTH, (startCol + p) % WIDTH;
      CursorMoves(screen, r, c);
      MoveStaysPainted(screen, r, c, base, Ups(), Start(), line, reach);
      SetScreenCursor(r, c);
    }

    /** user/shell.c:370-376. Room for `n` characters, won by scrolling line and boundary up together. */
    method EnsureEditSpace(n: nat, ghost line: seq<Byte>)
      requires Shows(line) && startCol + n < CELLS
      requires startRow == HEIGHT - 1 ==> screen.row == HEIGHT - 1
      modifies this`screen, this`startRow
      ensures Shows(line) && Start() + n < CELLS
      ensures startRow == RoomyRow(old(startRow), startCol, n)
    {
      while startRow + (startCol + n) / WIDTH >= HEIGHT
        invariant Shows(line)
        invariant startRow == HEIGHT - 1 ==> screen.row == HEIGHT - 1
        invariant RoomyRow(startRow, startCol, n) == RoomyRow(old(startRow), startCol, n)
        decreases startRow
      {
        NeedsRoom(startRow, startCol, n);
        MoveStaysPainted(screen, HEIGHT - 1, 0, base, Ups(), Start(), line, reach);
        CursorMoves(screen, HEIGHT - 1, 0);
        SetScreenCursor(HEIGHT - 1, 0);
        ScrollPaints(screen, base, Ups(), Start(), line, reach);
        PutChar(NEWLINE);
        startRow := startRow - 1;
      }
      RowAndColumn(startRow, startCol, n);
    }

    /** user/shell.c:380-388, for the first `n` characters of the buffer. */
    method LineRedraw(n: nat, p: nat, ghost was: seq<Byte>)
      requires Shows(was) && Start() + n < CELLS && p <= n <= buf.Length && AllPrintable(buf[..n])
      modifies this`screen, this`dispLen, this`reach
      ensures Shows(buf[..n]) && Position(screen) == Start() + p
    {
      ghost var line, k, start := buf[..n], Ups(), Start();
      CursorMoves(screen, startRow, startCol);
      MoveStaysPainted(screen, startRow, startCol, base, k, start, was, reach);
      SetScreenCursor(startRow, startCol);
      DrawBegins(screen, base, k, start, was, line, reach);
      assert start + |was| < CELLS && |was| <= reach && dispLen == |was|;
      hide Painted, Drawn, Put;
      for i := 0 to n
        invariant Drawn(screen, base, k, start, was, line, reach, i)
        invariant SameEdge(screen, old(screen))
        modifies this`screen
      {
        DrawOne(screen, base, k, start, was, line, reach, i, buf[i]);
        PutKeepsEdge(screen, base, k, start, was, line, reach, i, buf[i]);
        PutChar(buf[i]);
      }
      var i := n;
      while i < dispLen
        invariant n <= i && (i <= dispLen || i == n)
        invariant Drawn(screen, base, k, start, was, line, reach, i)
        invariant SameEdge(screen, old(screen))
        modifies this`screen
      {
        DrawOne(screen, base, k, start, was, line, reach, i, SPACE);
        PutKeepsEdge(screen, base, k, start, was, line, reach, i, SPACE);
        PutChar(SPACE);
        i := i + 1;
      }
      DrawEnds(screen, base, k, start, was, line, reach, i);
      reach := if i > reach then i else reach;
      dispLen := n;
      LineSetCursor(p, line);
    }

    /** user/shell.c:391-399; the entry and its end mark are copied into the buffer. */
    method HistApply(i: nat, ghost was: seq<Byte>) returns (k: nat)
      requires Shows(was) && HistoryOk(history) && 1 <= i <= |history| && 1 <= buf.Length
      requires Start() + ENTRY < CELLS
      modifies this`screen, this`dispLen, this`reach, buf
      ensures k < buf.Length && buf[..k] == Recalled(history, i, buf.Length)
      ensures var h := history[|history| - i]; buf[..k] == if |h| < buf.Length then h else h[..buf.Length - 1]
      ensures Shows(buf[..k]) && Position(screen) == Start() + k
    {
      var h := history[|history| - i];
      k := 0;
      while k < |h| && k < buf.Length - 1
        invariant k <= |h| && k <= buf.Length - 1
        invariant buf[..k] == h[..k]
        modifies buf
      {
        buf[k] := h[k];
        k := k + 1;
      }
      buf[k] := 0;
      assert buf[..k] == Recalled(history, i, buf.Length);
      RecalledFacts(history, i, buf.Length);
      LineRedraw(k, k, was);
    }

    /** user/shell.c:402-404. */
    method HistClearLine(ghost was: seq<Byte>)
      requires Shows(was)
      modifies this`screen, this`dispLen, this`reach
      ensures Shows([]) && Position(screen) == Start()
    {
      assert buf[..0] == [];
      LineRedraw(0, 0, was);
    }

    /** user/shell.c:407-410. */
    method ShiftRight(from: nat, n: nat)
      requires from + n < buf.Length
      modifies buf
      ensures buf[..from] == old(buf[..from])
      ensures buf[from + 1..from + n + 1] == old(buf[from..from + n])
    {
      var i := n;
      while i > 0
        invariant 0 <= i <= n
        invariant forall j :: 0 <= j < from + i ==> buf[j] == old(buf[j])
        invariant forall j :: from + i < j <= from + n ==> buf[j] == old(buf[j - 1])
      {
        i := i - 1;
        buf[from + i + 1] := buf[from + i];
      }
    }

    /** user/shell.c:413-415. */
    method ShiftLeft(from: nat, n: nat)
      requires 1 <= from && from + n <= buf.Length
      modifies buf
      ensures buf[..from - 1] == old(buf[..from - 1])
      ensures buf[from - 1..from + n - 1] == old(buf[from..from + n])
    {
      ghost var was := buf[..];
      for i := 0 to n
        invariant buf[..from - 1] == was[..from - 1]
        invariant buf[from - 1..from + i - 1] == was[from..from + i]
        invariant buf[from + i..] == was[from + i..]
      {
        ghost var now := buf[..];
        assert now[from + i..][0] == was[from + i..][0];
        buf[from + i - 1] := buf[from + i];
        assert buf[..] == now[from + i - 1 := was[from + i]];
        assert buf[from - 1..from + i] == now[from - 1..from + i - 1] + [was[from + i]];
        assert buf[from + i + 1..] == now[from + i..][1..] && was[from + i + 1..] == was[from + i..][1..];
      }
    }

    /** The entry `i` steps back replaces the line (user/shell.c:502-504 and 517-519). */
    method Recall(i: nat)
      requires InStep() && 1 <= i <= |history|
      modifies this`screen, this`dispLen, this`reach, this`startRow, this`pos, this`len, this`histPos, buf
      ensures InStep() && LineOf() == Line(Recalled(history, i, buf.Length), |Recalled(history, i, buf.Length)|, i)
      ensures startRow == RoomyRow(old(startRow), startCol, 127)
    {
      hide Painted, HistoryOk, AllPrintable, Recalled, RoomyRow;
      InStepRow();
      histPos := i;
      EnsureEditSpace(127, buf[..len]);
      len := HistApply(histPos, buf[..len]);
      pos := len;
      RecalledFacts(history, histPos, buf.Length);
    }

    /** Below the newest entry the line is empty again (user/shell.c:510-515). */
    method LeaveHistory()
      requires InStep()
      modifies this`screen, this`dispLen, this`reach, this`startRow, this`pos, this`len, this`histPos, buf
      ensures InStep() && LineOf() == Line([], 0, 0)
      ensures startRow == RoomyRow(old(startRow), startCol, 0)
    {
      hide Painted, HistoryOk, AllPrintable, RoomyRow;
      InStepRow();
      NothingPrintable();
      histPos := 0;
      EnsureEditSpace(0, buf[..len]);
      HistClearLine(buf[..len]);
      pos, len := 0, 0;
      buf[0] := 0;
      assert buf[..0] == [];
    }

    /** user/shell.c:498-505. */
    method BrowseUp()
      requires InStep()
      modifies this`screen, this`dispLen, this`reach, this`startRow, this`pos, this`len, this`histPos, buf
      ensures InStep() && LineOf() == Key(old(LineOf()), UP, history, buf.Length)
      ensures startRow == KeyRow(old(LineOf()), UP, history, buf.Length, old(startRow), startCol)
    {
      if |history| > 0 && histPos < |history| {
        Recall(histPos + 1);
      }
    }

    /** user/shell.c:506-521. */
    method BrowseDown()
      requires InStep()
      modifies this`screen, this`dispLen, this`reach, this`startRow, this`pos, this`len, this`histPos, buf
      ensures InStep() && LineOf() == Key(old(LineOf()), DOWN, history, buf.Length)
      ensures startRow == KeyRow(old(LineOf()), DOWN, history, buf.Length, old(startRow), startCol)
    {
      if histPos > 0 {
        if histPos == 1 {
          LeaveHistory();
        } else {
          Recall(histPos - 1);
        }
      }
    }

    /** On the bottom row, the cursor is there too. */
    lemma InStepRow()
      requires InStep()
      ensures startRow == HEIGHT - 1 ==> screen.row == HEIGHT - 1
    {}

    /** Left and Right only move the cursor (user/shell.c:522-533). */
    method MoveInLine(right: bool)
      requires InStep()
      modifies this`screen, this`pos
      ensures InStep() && LineOf() == Key(old(LineOf()), if right then RIGHT else LEFT, history, buf.Length)
    {
      if right {
        if pos < len {
          pos := pos + 1;
          LineSetCursor(pos, buf[..len]);
        }
      } else if pos > 0 {
        pos := pos - 1;
        LineSetCursor(pos, buf[..len]);
      }
    }

    /** The buffer's part of Backspace (user/shell.c:543-545). */
    method EraseInBuffer()
      requires 0 < pos <= len < buf.Length
      modifies this`pos, this`len, buf
      ensures pos == old(pos) - 1 && len == old(len) - 1
      ensures buf[..len] == old(buf[..pos - 1]) + old(buf[pos..len])
    {
      ghost var p, n := pos, len;
      ShiftLeft(pos, len - pos);
      Spliced(buf[..n - 1], old(buf[..p - 1]), old(buf[p..n]), p - 1, n - 1);
      pos := pos - 1;
      len := len - 1;
    }

    /** user/shell.c:541-549. */
    method DeleteBefore()
      requires InStep()
      modifies this`screen, this`dispLen, this`reach, this`startRow, this`pos, this`len, buf
      ensures InStep() && LineOf() == Key(old(LineOf()), BACKSPACE, history, buf.Length)
      ensures startRow == KeyRow(old(LineOf()), BACKSPACE, history, buf.Length, old(startRow), startCol)
    {
      hide Painted, HistoryOk, AllPrintable, RoomyRow;
      if pos > 0 {
        ghost var was, p := buf[..len], pos;
        InStepRow();
        EraseInBuffer();
        assert buf[..len] == was[..p - 1] + was[p..];
        PrintableWithout(was, p);
        EnsureEditSpace(len, was);
        LineRedraw(len, pos, was);
      }
    }

    /** The buffer's part of a character (user/shell.c:553-556). */
    method InsertInBuffer(c: Byte)
      requires pos <= len < buf.Length - 1
      modifies this`pos, this`len, buf
      ensures pos == old(pos) + 1 && len == old(len) + 1
      ensures buf[..len] == old(buf[..pos]) + [c] + old(buf[pos..len])
    {
      ShiftRight(pos, len - pos);
      buf[pos] := c;
      pos := pos + 1;
      len := len + 1;
      Spliced(buf[..len], buf[..pos], buf[pos..len], pos, len);
      assert buf[..pos] == old(buf[..pos]) + [c];
    }

    /** user/shell.c:550-560. */
    method InsertAt(c: Byte)
      requires InStep() && Printable(c)
      modifies this`screen, this`dispLen, this`reach, this`startRow, this`pos, this`len, buf
      ensures InStep() && LineOf() == Key(old(LineOf()), c, history, buf.Length)
      ensures startRow == KeyRow(old(LineOf()), c, history, buf.Length, old(startRow), startCol)
    {
      hide Painted, HistoryOk, AllPrintable, RoomyRow;
      if len < buf.Length - 1 {
        ghost var was, p := buf[..len], pos;
        InStepRow();
        InsertInBuffer(c);
        assert buf[..len] == was[..p] + [c] + was[p..];
        PrintableWith(was, p, c);
        EnsureEditSpace(len, was);
        LineRedraw(len, pos, was);
      }
    }

    ghost function EditOf(): Edit
      reads this`pos, this`len, this`histPos, this`startRow, this`prevLeft, this`pressX, this`pressY, buf
      requires len <= buf.Length
    {
      Edit(LineOf(), startRow, prevLeft, pressX, pressY)
    }

    /** One round of the mouse poll (user/shell.c:463-488). */
    method PollMouse(x: int, y: int, left: bool)
      requires InStep() && 0 <= x < WIDTH
      modifies this`screen, this`pos, this`prevLeft, this`pressX, this`pressY
      ensures InStep() && EditOf() == Mouse(old(EditOf()), x, y, left, startCol)
      ensures IsClick(old(EditOf()), x, y, left) && Start() <= CellIndex(y, x) <= Start() + len ==>
                screen.row == y && screen.col == x
    {
      hide Painted, HistoryOk, AllPrintable;
      if left {
        if !prevLeft {
          pressX, pressY := x, y;
        }
      } else if prevLeft {
        if x == pressX && y == pressY {
          var editLastRow := startRow + (startCol + len) / WIDTH;
          if startRow <= y <= editLastRow {
            pos := ClickedOffset(startRow, startCol, len, x, y);
            LineSetCursor(pos, buf[..len]);
          }
          ClickInside(startRow, startCol, len, x, y);
        }
      }
      prevLeft := left;
    }

    /** One key other than Enter (user/shell.c:498-562). */
    method HandleKey(c: int)
      requires InStep() && c != NEWLINE && c != RETURN
      modifies this`screen, this`dispLen, this`reach, this`startRow, this`pos, this`len, this`histPos, buf
      ensures InStep()
      ensures LineOf() == Key(old(LineOf()), c, history, buf.Length)
      ensures startRow == KeyRow(old(LineOf()), c, history, buf.Length, old(startRow), startCol)
    {
      if c == 0x01 {
        BrowseUp();
      } else if c == 0x02 {
        BrowseDown();
      } else if c == 0x03 {
        MoveInLine(false);
      } else if c == 0x04 {
        MoveInLine(true);
      } else if c == BACKSPACE {
        DeleteBefore();
      } else if 32 <= c <= 126 {
        InsertAt(c);
      }
    }

    lemma {:induction false} EditingShape()
      requires InStep()
      ensures screen.Ok() && len < buf.Length && 0 <= startRow && 0 <= startCol < WIDTH && pos <= len
      ensures AllPrintable(buf[..len]) && HistoryOk(history)
    {}

    /**
     * Enter (user/shell.c:534-540). The newline is printed where the cursor stands, which need not be the end
     * of the line: the cursor's new row shows nothing of the line, and what is printed next leaves the line
     * alone, if and only if the cursor was on the row of the last character or below.
     */
    method Enter() returns (n: nat)
      requires InStep()
      modifies this`screen, this`history, this`histPos, buf
      ensures n == len && buf[..n] == old(buf[..len]) && buf[n] == 0
      ensures history == Remember(old(history), buf[..n]) && HistoryOk(history) && histPos == 0
      ensures screen == Put(old(screen), NEWLINE, screen.color)
      ensures screen.Ok() && !screen.IsProtected(screen.row, screen.col)
      ensures screen.row == startRow - Scrolled(old(screen)) + (startCol + pos) / WIDTH + 1 && screen.col == 0
      ensures BelowText(startRow - Scrolled(old(screen)), startCol, n, screen.row) <==>
                n == 0 || (startCol + pos) / WIDTH >= (startCol + n - 1) / WIDTH
      ensures screen.row > startRow - Scrolled(old(screen)) + (startCol + n) / WIDTH <==>
                (startCol + pos) / WIDTH == (startCol + n) / WIDTH
      ensures !BelowText(startRow - Scrolled(old(screen)), startCol, n, screen.row) ==>
                var j := WIDTH * ((startCol + pos) / WIDTH + 1) - startCol;
                Scrolled(old(screen)) == 0 && 0 <= j < n
                  && screen.cells[CellIndex(screen.row, 0)] == Glyph(screen.color, buf[j])
    {
      hide Painted, HistoryOk, AllPrintable, BelowText, Remember, Put;
      ghost var line, t := buf[..len], screen;
      EditingShape();
      TailShown(t, base, Ups(), startRow, startCol, line, reach, pos);
      PutChar(NEWLINE);
      buf[len] := 0;
      assert buf[..len] == line;
      RememberKeepsHistory(history, buf[..len]);
      history := Remember(history, buf[..len]);
      histPos := 0;
      n := len;
    }

    /**
     * The event loop up to Enter (user/shell.c:460-564). After every event the screen shows the buffer
     * at the tracked start; the buffer, the cursor and the start row are what the events make of a line.
     */
    method ReadEvents(evs: seq<Event>) returns (used: nat)
      requires InStep()
      requires forall i :: 0 <= i < |evs| && evs[i].MouseState? ==> 0 <= evs[i].x < WIDTH
      modifies this`screen, this`dispLen, this`reach, this`startRow, this`pos, this`len, this`histPos, buf
      modifies this`prevLeft, this`pressX, this`pressY
      ensures InStep() && used <= |evs|
      ensures used == |evs| || IsEnter(evs[used])
      ensures forall i :: 0 <= i < used ==> !IsEnter(evs[i])
      ensures EditOf() == RunEvents(old(EditOf()), evs[..used], history, buf.Length, startCol)
    {
      hide Painted, HistoryOk, AllPrintable, Key, KeyRow, Mouse;
      used := 0;
      ghost var e0, h, size, col := EditOf(), history, buf.Length, startCol;
      while used < |evs| && !IsEnter(evs[used])
        invariant used <= |evs| && InStep()
        invariant forall i :: 0 <= i < used ==> !IsEnter(evs[i])
        invariant EditOf() == RunEvents(e0, evs[..used], h, size, col)
      {
        ghost var e := EditOf();
        match evs[used] {
          case KeyPress(c) => HandleKey(c);
          case MouseState(x, y, left) => PollMouse(x, y, left);
        }
        RunOneMore(e0, evs, used, h, size, col);
        used := used + 1;
      }
    }
  }

  /** A click on a cell of the line maps to that cell. */
  lemma {:induction false} ClickInside(row: nat, col: nat, len: nat, x: int, y: int)
    requires col < WIDTH && 0 <= x < WIDTH
    ensures CellIndex(row, col) <= CellIndex(y, x) <= CellIndex(row, col) + len ==>
              var off := ClickedOffset(row, col, len, x, y);
              && row <= y <= row + (col + len) / WIDTH
              && row + (col + off) / WIDTH == y && (col + off) % WIDTH == x
  {
    if CellIndex(row, col) <= CellIndex(y, x) <= CellIndex(row, col) + len {
      var off := ClickedOffset(row, col, len, x, y);
      assert col + off == WIDTH * (y - row) + x;
    }
  }

  lemma {:induction false} RunOneMore(e: Edit, evs: seq<Event>, n: nat, history: seq<seq<Byte>>, size: nat, col: int)
    requires e.line.pos <= |e.line.text| && e.line.back <= |history| && size >= 1 && col >= 0 && n < |evs|
    ensures var e' := RunEvents(e, evs[..n], history, size, col);
            && e'.line.pos <= |e'.line.text| && e'.line.back <= |history|
            && RunEvents(e, evs[..n + 1], history, size, col) == Step(e', evs[n], history, size, col)
    decreases n
  {
    if n == 0 {
      assert evs[..1][1..] == [];
    } else {
      assert evs[..n][1..] == evs[1..][..n - 1] && evs[..n + 1][1..] == evs[1..][..n];
      RunOneMore(Step(e, evs[0], history, size, col), evs[1..], n - 1, history, size, col);
    }
  }

  lemma {:induction false} Spliced(s: seq<Byte>, a: seq<Byte>, b: seq<Byte>, i: nat, n: nat)
    requires |s| == n && i <= n && s[..i] == a && s[i..] == b
    ensures s == a + b
  {}

  /** Every character of a line of `n` characters from (row, col) stands above row `r`. */
  ghost predicate BelowText(row: int, col: nat, n: nat, r: int) {
    forall j: nat :: j < n ==> RowOf(row, col, j) < r
  }

  /** The row of character `j` of a line from (row, col). */
  function RowOf(row: int, col: nat, j: nat): int {
    row + (col + j) / WIDTH
  }

  function Scrolled(t: Text): nat {
    if t.row == HEIGHT - 1 then 1 else 0
  }

  /** The row a newline leads to, against the rows of the line. */
  lemma {:induction false} EnterRow(row: nat, col: nat, pos: nat, len: nat, r: nat, c: nat)
    requires col < WIDTH && pos <= len && CellIndex(row, col) + len < CELLS && r < HEIGHT && c < WIDTH
    requires CellIndex(r, c) == CellIndex(row, col) + pos
    ensures r == row + (col + pos) / WIDTH
    ensures var up := if r == HEIGHT - 1 then 1 else 0;
            && (BelowText(row - up, col, len, r - up + 1) <==>
               len == 0 || (col + pos) / WIDTH >= (col + len - 1) / WIDTH)
            && (r - up + 1 > row - up + (col + len) / WIDTH <==> (col + pos) / WIDTH == (col + len) / WIDTH)
    ensures !(len == 0 || (col + pos) / WIDTH >= (col + len - 1) / WIDTH) ==> r < HEIGHT - 1
  {
    RowAndColumn(row, col, pos);
    RowAndColumn(row, col, len);
    QuotientOrder(col + pos, col + len);
    if len > 0 {
      QuotientOrder(col + len - 1, col + len);
      var up := if r == HEIGHT - 1 then 1 else 0;
      var top := row - up;
      forall j: nat | j < len ensures RowOf(top, col, j) <= RowOf(top, col, len - 1) {
        QuotientOrder(col + j, col + len - 1);
      }
      assert RowOf(top, col, len - 1) < r - up + 1 <==> (col + pos) / WIDTH >= (col + len - 1) / WIDTH;
    }
  }

  lemma {:induction false} QuotientOrder(a: nat, b: nat)
    requires a <= b
    ensures a / WIDTH <= b / WIDTH
  {}

  /** If text of the line stands below the cursor's row, the next row begins with it. */
  lemma {:induction false} TailShown(
      t: Text, base: seq<Cell>, k: nat, row: nat, col: nat, line: seq<Byte>, reach: nat, pos: nat)
    requires Painted(t, base, k, CellIndex(row, col), line, reach) && col < WIDTH && t.edgeRow == row
             && t.edgeCol == col
    requires pos <= |line| && Position(t) == CellIndex(row, col) + pos
    ensures var t' := Put(t, NEWLINE, t.color);
            && t'.row == row - Scrolled(t) + (col + pos) / WIDTH + 1 && t'.col == 0
            && t'.Ok() && t'.color == t.color && !t'.IsProtected(t'.row, t'.col)
            && (BelowText(row - Scrolled(t), col, |line|, t'.row) <==>
               |line| == 0 || (col + pos) / WIDTH >= (col + |line| - 1) / WIDTH)
            && (t'.row > row - Scrolled(t) + (col + |line|) / WIDTH <==> (col + pos) / WIDTH == (col + |line|) / WIDTH)
            && (|line| > 0 && (col + pos) / WIDTH < (col + |line| - 1) / WIDTH ==>
                  var j := WIDTH * ((col + pos) / WIDTH + 1) - col;
                  Scrolled(t) == 0 && 0 <= j < |line| && t'.cells[CellIndex(t'.row, 0)] == Glyph(t.color, line[j]))
  {
    RowAndColumn(row, col, pos);
    EnterRow(row, col, pos, |line|, t.row, t.col);
    var t' := Put(t, NEWLINE, t.color);
    if |line| > 0 && (col + pos) / WIDTH < (col + |line| - 1) / WIDTH {
      var q := (col + pos) / WIDTH + 1;
      var j := WIDTH * q - col;
      assert WIDTH * q <= col + |line| - 1;
      assert CellIndex(t'.row, 0) == CellIndex(row, col) + j;
    }
  }

  lemma {:induction false} PrintableWithout(s: seq<Byte>, p: nat)
    requires AllPrintable(s) && 1 <= p <= |s|
    ensures AllPrintable(s[..p - 1] + s[p..])
  {}

  lemma {:induction false} PrintableWith(s: seq<Byte>, p: nat, c: Byte)
    requires AllPrintable(s) && p <= |s| && Printable(c)
    ensures AllPrintable(s[..p] + [c] + s[p..])
  {}

  lemma {:induction false} NothingPrintable()
    ensures AllPrintable([])
  {}

  lemma {:induction false} RecalledFacts(history: seq<seq<Byte>>, i: nat, size: nat)
    requires HistoryOk(history) && 1 <= i <= |history| && size >= 1
    ensures var r := Recalled(history, i, size);
            |r| < size && |r| <= ENTRY && AllPrintable(r)
  {}

  ghost predicate SameEdge(t: Text, u: Text) {
    t.edgeRow == u.edgeRow && t.edgeCol == u.edgeCol && t.color == u.color
  }

  lemma {:induction false} PutKeepsEdge(
      t: Text, base: seq<Cell>, k: nat, start: nat, was: seq<Byte>, line: seq<Byte>, reach: nat, n: nat, c: Byte)
    requires Drawn(t, base, k, start, was, line, reach, n) && start + n + 1 < CELLS && Printable(c)
    ensures SameEdge(Put(t, c, t.color), t)
  {
    PutOne(t, c);
  }

  /** Room is only ever needed below the top row. */
  lemma {:induction false} NeedsRoom(row: nat, col: nat, n: nat)
    requires col < WIDTH && col + n < CELLS && row + (col + n) / WIDTH >= HEIGHT
    ensures row > 0
  {}

  /** Thirty letters, then thirty times Left. */
  function ThereAndBack(): seq<Event> {
    seq(60, i => KeyPress(if i < 30 then 97 else LEFT as int))
  }

  function Letters(n: nat): seq<Byte> {
    seq(n, _ => 97)
  }

  lemma {:induction false} ThereAndBackAfter(n: nat)
    requires n <= 60
    ensures RunEvents(Edit(Line([], 0, 0), 10, false, 0, 0), ThereAndBack()[..n], [], 128, 70) ==
            Edit(Line(Letters(if n < 30 then n else 30), if n < 30 then n else 60 - n, 0), 10, false, 0, 0)
  {
    if n == 0 {
      assert Letters(0) == [];
    } else {
      ThereAndBackAfter(n - 1);
      RunOneMore(Edit(Line([], 0, 0), 10, false, 0, 0), ThereAndBack(), n - 1, [], 128, 70);
      assert ThereAndBack()[n - 1] == KeyPress(if n - 1 < 30 then 97 else LEFT as int);
      if n <= 30 {
        var was := Letters(n - 1);
        assert was[..n - 1] + [97] + was[n - 1..] == Letters(n);
      }
    }
  }

  function EmptyScreen(): Text {
    Text(seq(CELLS, _ => Blank(0x0F)), 10, 70, true, 10, 70, 0x0F)
  }

  lemma {:induction false} EmptyStart()
    ensures EmptyScreen().Ok() && HistoryOk([]) && |Letters(30)| == 30 && Letters(30)[10] == 97
    ensures |ThereAndBack()| == 60 && ThereAndBack()[..60] == ThereAndBack()
    ensures forall i :: 0 <= i < 60 ==> ThereAndBack()[i].KeyPress? && !IsEnter(ThereAndBack()[i])
  {}

  /**
   * A line wrapped to the next row, the cursor brought back to its start: Enter leaves the cursor on text of
   * the line.
   */
  method EnterInsideTheLine() returns (screen: Text)
    ensures screen.row == 11 && screen.col == 0 && |screen.cells| == CELLS && screen.cells[CellIndex(11, 0)] % 256 == 97
  {
    hide Painted, HistoryOk, RunEvents, Put, ThereAndBack, Letters, BelowText, Remember;
    EmptyStart();
    ThereAndBackAfter(60);
    var buf := new Byte[128](_ => 0);
    var editor := new Editor(EmptyScreen(), buf, []);
    var used := editor.ReadEvents(ThereAndBack());
    assert used == 60;
    assert editor.LineOf() == Line(Letters(30), 0, 0) && editor.startRow == 10;
    var n := editor.Enter();
    assert n == 30 && (70 + 0) / WIDTH == 0 && (70 + n - 1) / WIDTH == 1;
    screen := editor.screen;
  }
}
