/** The text screen as the writers of text see it (driver/vga.c). */
module Screen {
  import opened CArithmetic

  const WIDTH := 80
  const HEIGHT := 25
  const CELLS := 2000

  type Cell = x: int | 0 <= x < 0x1_0000     // attribute and character

  const NEWLINE: Byte := 10
  const RETURN: Byte := 13
  const BACKSPACE: Byte := 8
  const TAB: Byte := 9
  const SPACE: Byte := 32

  function Glyph(attribute: Byte, c: Byte): Cell {
    attribute * 256 + c
  }

  /** The screen, the cursor, the protected boundary and the default colour. */
  datatype Text = Text(
    cells: seq<Cell>, row: int, col: int, guarded: bool, edgeRow: int, edgeCol: int, color: Byte)
  {
    ghost predicate Ok() {
      && |cells| == CELLS
      && 0 <= row < HEIGHT && 0 <= col < WIDTH
      && 0 <= edgeRow < HEIGHT && 0 <= edgeCol < WIDTH
    }

    /** driver/vga.c:26-32. */
    predicate IsProtected(r: int, c: int) {
      guarded && (r < edgeRow || (r == edgeRow && c < edgeCol))
    }
  }

  function CellIndex(r: int, c: int): int {
    r * WIDTH + c
  }

  function Blank(color: Byte): Cell {
    Glyph(color, SPACE)
  }

  /** The screen one row up, with a blank bottom row (driver/vga.c:91-98). */
  function ScrolledCells(cells: seq<Cell>, blank: Cell): (r: seq<Cell>)
    requires |cells| == CELLS
    ensures |r| == CELLS
  {
    seq(CELLS, i requires 0 <= i < CELLS => if i + WIDTH < CELLS then cells[i + WIDTH] else blank)
  }

  /** A newline, in an unprotected place (driver/vga.c:110-118 and 81-103). */
  function NewLine(t: Text): (t': Text)
    requires t.Ok()
    ensures t'.Ok()
  {
    if t.row + 1 < HEIGHT then t.(row := t.row + 1, col := 0)
    else
      t.(cells := ScrolledCells(t.cells, Blank(t.color)), row := HEIGHT - 1, col := 0,
         edgeRow := if t.edgeRow > 0 then t.edgeRow - 1 else 0)
  }

  /** Column of the last cell of a row that does not show a space, 0 if there is none, looking left from `from`. */
  function LastShown(cells: seq<Cell>, r: int, from: int): (c: int)
    requires |cells| == CELLS && 0 <= r < HEIGHT && -1 <= from < WIDTH
    ensures 0 <= c && (from >= 0 ==> c <= from)
    decreases from + 1
  {
    if from == -1 then 0
    else if cells[CellIndex(r, from)] % 256 != SPACE then from
    else LastShown(cells, r, from - 1)
  }

  /** driver/vga.c:126-155. */
  function Backspace(t: Text, color: Byte): (t': Text)
    requires t.Ok()
    ensures t'.Ok()
  {
    if t.col == 0 && t.row == 0 then t else
      var r := if t.col > 0 then t.row else t.row - 1;
      var c := if t.col > 0 then t.col - 1 else LastShown(t.cells, t.row - 1, WIDTH - 1);
      if t.IsProtected(r, c) then t else t.(row := r, col := c, cells := t.cells[CellIndex(r, c) := Blank(color)])
  }

  /** Any other character (driver/vga.c:165-183): the bottom right corner does not scroll. */
  function Show(t: Text, ch: Byte, color: Byte): (t': Text)
    requires t.Ok()
    ensures t'.Ok()
  {
    if t.IsProtected(t.row, t.col) then t else
      var t1 := t.(cells := t.cells[CellIndex(t.row, t.col) := Glyph(color, ch)]);
      if t.col + 1 < WIDTH then t1.(col := t.col + 1)
      else if t.row + 1 < HEIGHT then t1.(row := t.row + 1, col := 0)
      else t1
  }

  function ShowSpaces(t: Text, n: nat, color: Byte): (t': Text)
    requires t.Ok()
    ensures t'.Ok()
    decreases n
  {
    if n == 0 then t else ShowSpaces(Show(t, SPACE, color), n - 1, color)
  }

  /** driver/vga.c:106-187. */
  function Put(t: Text, ch: Byte, color: Byte): (t': Text)
    requires t.Ok()
    ensures t'.Ok()
  {
    if ch == NEWLINE then (if t.IsProtected(t.row + 1, 0) then t else NewLine(t))
    else if ch == RETURN then (if t.IsProtected(t.row, 0) then t else t.(col := 0))
    else if ch == BACKSPACE then Backspace(t, color)
    else if ch == TAB then ShowSpaces(t, 4 - t.col % 4, color)
    else Show(t, ch, color)
  }

  function PutAll(t: Text, s: seq<Byte>, color: Byte): (t': Text)
    requires t.Ok()
    ensures t'.Ok()
    decreases |s|
  {
    if s == [] then t else PutAll(Put(t, s[0], color), s[1..], color)
  }

  function Clamp(x: int, limit: int): int {
    if x < 0 then 0 else if x >= limit then limit - 1 else x
  }

  /** driver/vga.c:319-332. */
  function SetCursor(t: Text, row: int, col: int): (t': Text)
    requires t.Ok()
    ensures t'.Ok()
  {
    var r, c := Clamp(row, HEIGHT), Clamp(col, WIDTH);
    if t.IsProtected(r, c) then t else t.(row := r, col := c)
  }

  /** driver/vga.c:235-257. */
  function SetProtected(t: Text, row: int, col: int): (t': Text)
    requires t.Ok()
    ensures t'.Ok()
  {
    t.(guarded := true, edgeRow := Clamp(row, HEIGHT), edgeCol := Clamp(col, WIDTH))
  }

  /** driver/vga.c:68-78. */
  function Cleared(t: Text): (t': Text)
    requires t.Ok()
    ensures t'.Ok()
  {
    t.(cells := seq(CELLS, _ => Blank(t.color)), row := 0, col := 0, guarded := false)
  }

  /** What callers may ask of the screen. */
  datatype Op =
    | OpPut(ch: Byte)
    | OpWrite(s: seq<Byte>, color: Byte)
    | OpSetCursor(row: int, col: int)
    | OpProtect(row: int, col: int)
    | OpProtectHere
    | OpUnprotect
    | OpColor(color: Byte)
    | OpClear

  function Apply(t: Text, op: Op): (t': Text)
    requires t.Ok()
    ensures t'.Ok()
  {
    match op
    case OpPut(ch) => Put(t, ch, t.color)
    case OpWrite(s, color) => PutAll(t, s, color)
    case OpSetCursor(r, c) => SetCursor(t, r, c)
    case OpProtect(r, c) => SetProtected(t, r, c)
    case OpProtectHere => SetProtected(t, t.row, t.col)
    case OpUnprotect => t.(guarded := false)
    case OpColor(color) => t.(color := color)
    case OpClear => Cleared(t)
  }

  function Run(t: Text, ops: seq<Op>): (t': Text)
    requires t.Ok()
    ensures t'.Ok()
    decreases |ops|
  {
    if ops == [] then t else Run(Apply(t, ops[0]), ops[1..])
  }
}

/** What single characters do to the screen, cell by cell and with the screen's numbers. */
module CharacterLaws {
  import opened CArithmetic
  import opened Screen

  /** Cells in reading order: 80 to a row, 25 rows. */
  function Position(t: Text): int {
    80 * t.row + t.col
  }

  predicate Plain(ch: Byte) {
    ch != 8 && ch != 9 && ch != 10 && ch != 13
  }

  /** The cursor stands on or behind the boundary. */
  predicate Open(t: Text) {
    t.guarded ==> 80 * t.edgeRow + t.edgeCol <= Position(t)
  }

  lemma {:induction false} OpenPlaces(t: Text, r: int, c: int)
    requires t.Ok() && 0 <= r <= 25 && 0 <= c < 80
    ensures t.IsProtected(r, c) <==> t.guarded && 80 * r + c < 80 * t.edgeRow + t.edgeCol
  {}

  /** A character fills the cursor's cell; the cursor goes to the next cell, and stays in the last one. */
  lemma {:induction false} ShowLaw(t: Text, ch: Byte, color: Byte)
    requires t.Ok() && Plain(ch)
    ensures !Open(t) ==> Put(t, ch, color) == t
    ensures Open(t) ==>
              var t' := Put(t, ch, color);
              && t' == t.(cells := t'.cells, row := t'.row, col := t'.col) && |t'.cells| == 2000
              && Position(t') == (if Position(t) < 1999 then Position(t) + 1 else 1999)
              && t'.cells[Position(t)] == color * 256 + ch
              && forall i :: 0 <= i < 2000 && i != Position(t) ==> t'.cells[i] == t.cells[i]
  {
    OpenPlaces(t, t.row, t.col);
  }

  lemma {:induction false} LastShownLaw(cells: seq<Cell>, r: int, from: int)
    requires |cells| == CELLS && 0 <= r < HEIGHT && -1 <= from < WIDTH
    ensures var c := LastShown(cells, r, from);
            && (forall i :: 80 * r + c < i <= 80 * r + from ==> cells[i] % 256 == 32)
            && (c > 0 ==> c <= from && cells[80 * r + c] % 256 != 32)
    decreases from + 1
  {
    if from >= 0 && cells[80 * r + from] % 256 == 32 {
      LastShownLaw(cells, r, from - 1);
    }
  }

  /** Backspace goes one to the left, or from the start of a row to the last character shown on the row above, and
      blanks that cell, unless it is protected or there is none. */
  lemma {:induction false} BackspaceLaw(t: Text, color: Byte)
    requires t.Ok()
    ensures var t' := Put(t, 8, color);
            && |t'.cells| == 2000
            && (t' == t || t' == t.(row := t'.row, col := t'.col,
                                    cells := t.cells[Position(t') := color * 256 + 32]))
            && (t.col > 0 && !(t.guarded && Position(t) <= 80 * t.edgeRow + t.edgeCol) ==>
                  Position(t') == Position(t) - 1 && t'.cells[Position(t')] == color * 256 + 32)
            && (t.col == 0 && t.row > 0 && t' != t ==>
                  && t'.row == t.row - 1
                  && (forall i :: Position(t') < i < 80 * t.row ==> t.cells[i] % 256 == 32)
                  && (t'.col > 0 ==> t.cells[80 * t'.row + t'.col] % 256 != 32))
            && (Position(t) == 0 ==> t' == t)
            && (t.guarded && Position(t) <= 80 * t.edgeRow + t.edgeCol ==> t' == t)
  {
    hide LastShown;
    if t.col > 0 {
      OpenPlaces(t, t.row, t.col - 1);
    } else if t.row > 0 {
      var c := LastShown(t.cells, t.row - 1, 79);
      OpenPlaces(t, t.row - 1, c);
      LastShownLaw(t.cells, t.row - 1, 79);
    }
  }

  /** A character shown and taken back leaves the cursor where it was and a blank in its cell, if and only if the
      cursor was not in the last column or the character is not a space. */
  lemma {:induction false} ShowAndErase(t: Text, ch: Byte, color: Byte)
    requires t.Ok() && Plain(ch) && Open(t) && Position(t) < 1999
    ensures var t' := Put(Put(t, ch, color), 8, color);
            && (Position(t') == Position(t) <==> t.col < 79 || ch != 32)
            && (t.col < 79 || ch != 32 ==> t' == t.(cells := t.cells[Position(t) := color * 256 + 32]))
  {
    hide Put;
    ShowLaw(t, ch, color);
    var t1 := Put(t, ch, color);
    BackspaceLaw(t1, color);
    if t.col == 79 {
      assert t1.col == 0 && t1.row == t.row + 1 && t1.cells[80 * t.row + 79] % 256 == ch;
      LastColumn(t, t1, ch, color);
    }
  }

  lemma {:induction false} LastColumn(t: Text, t1: Text, ch: Byte, color: Byte)
    requires t.Ok() && t1.Ok() && Open(t) && t.row < 24 && t.col == 79
    requires t1 == t.(row := t.row + 1, col := 0, cells := t1.cells) && t1.cells[80 * t.row + 79] % 256 == ch
    ensures var t' := Put(t1, 8, color);
            if ch == 32 then Position(t') != Position(t)
            else t' == t1.(row := t.row, col := 79, cells := t1.cells[Position(t) := color * 256 + 32])
  {
    var c := LastShown(t1.cells, t.row, 79);
    LastShownLaw(t1.cells, t.row, 79);
    OpenPlaces(t1, t.row, c);
    assert ch != 32 ==> c == 79;
    assert t1.cells[80 * t.row + 79] % 256 == ch;
  }

  /** A tab goes to the next multiple of 4, or the last cell if that is past the screen, leaving blanks. */
  lemma {:induction false} TabLaw(t: Text, color: Byte)
    requires t.Ok()
    ensures !Open(t) ==> Put(t, 9, color) == t
    ensures Open(t) ==>
              var t', stop := Put(t, 9, color), t.col / 4 * 4 + 4;
              && t' == t.(cells := t'.cells, row := t'.row, col := t'.col) && |t'.cells| == 2000
              && Position(t') == (if 80 * t.row + stop < 2000 then 80 * t.row + stop else 1999)
              && forall i :: 0 <= i < 2000 ==>
                   t'.cells[i] == if Position(t) <= i < 80 * t.row + stop then color * 256 + 32 else t.cells[i]
  {
    var n := 4 - t.col % 4;
    assert t.col == t.col / 4 * 4 + t.col % 4;
    assert t.col / 4 < 20;
    Spaces(t, n, color);
  }

  lemma {:induction false} Spaces(t: Text, n: nat, color: Byte)
    requires t.Ok() && Position(t) + n <= 2000
    ensures !Open(t) ==> ShowSpaces(t, n, color) == t
    ensures Open(t) ==>
              var t' := ShowSpaces(t, n, color);
              && t' == t.(cells := t'.cells, row := t'.row, col := t'.col) && |t'.cells| == 2000
              && Position(t') == (if Position(t) + n < 2000 then Position(t) + n else 1999)
              && forall i :: 0 <= i < 2000 ==>
                   t'.cells[i] == if Position(t) <= i < Position(t) + n then color * 256 + 32 else t.cells[i]
    decreases n
  {
    if n > 0 {
      ShowLaw(t, SPACE, color);
      var t1 := Show(t, SPACE, color);
      assert t1 == Put(t, SPACE, color);
      hide Put, Show;
      if Position(t1) + (n - 1) <= 2000 {
        Spaces(t1, n - 1, color);
      }
    }
  }

  function Within(v: int, last: int): int {
    if v < 0 then 0 else if v > last then last else v
  }

  /** The cursor goes to the place asked for, kept on the screen, unless that is protected; protection starts there,
      protected or not; clearing leaves blanks in the default colour, the cursor on top and no protection. */
  lemma {:induction false} RequestLaw(t: Text, r: int, c: int)
    requires t.Ok()
    ensures var r', c' := Within(r, 24), Within(c, 79);
            && Apply(t, OpSetCursor(r, c)) ==
               (if t.guarded && 80 * r' + c' < 80 * t.edgeRow + t.edgeCol then t else t.(row := r', col := c'))
            && Apply(t, OpProtect(r, c)) == t.(guarded := true, edgeRow := r', edgeCol := c')
    ensures Apply(t, OpProtectHere) == t.(guarded := true, edgeRow := t.row, edgeCol := t.col)
    ensures var t' := Apply(t, OpClear);
            && t' == t.(cells := t'.cells, row := 0, col := 0, guarded := false) && |t'.cells| == 2000
            && forall i :: 0 <= i < 2000 ==> t'.cells[i] == t.color * 256 + 32
  {
    OpenPlaces(t, Within(r, 24), Within(c, 79));
  }

  /** A newline goes to the start of the next row; on the last row the screen moves up by one row instead. */
  lemma {:induction false} NewlineLaw(t: Text, color: Byte)
    requires t.Ok()
    ensures var t' := Put(t, 10, color);
            if t.guarded && 80 * (t.row + 1) < 80 * t.edgeRow + t.edgeCol then t' == t
            else if t.row < 24 then t' == t.(row := t.row + 1, col := 0)
            else
              && |t'.cells| == 2000 && t'.row == 24 && t'.col == 0
              && (forall i :: 0 <= i < 1920 ==> t'.cells[i] == t.cells[i + 80])
              && (forall i :: 1920 <= i < 2000 ==> t'.cells[i] == t.color * 256 + 32)
              && t'.guarded == t.guarded && t'.edgeCol == t.edgeCol && t'.color == t.color
              && t'.edgeRow == if t.edgeRow > 0 then t.edgeRow - 1 else 0
    ensures Put(t, 13, color) == if t.guarded && 80 * t.row < 80 * t.edgeRow + t.edgeCol then t else t.(col := 0)
  {
    OpenPlaces(t, t.row + 1, 0);
    OpenPlaces(t, t.row, 0);
  }
}

/** Text before the protected boundary can only move up with the whole screen. */
module ProtectedText {
  import opened CArithmetic
  import opened Screen

  /** The operations that neither clear the screen nor touch the boundary. */
  predicate Ordinary(op: Op) {
    op.OpPut? || op.OpWrite? || op.OpSetCursor? || op.OpColor?
  }

  predicate AllOrdinary(ops: seq<Op>) {
    forall i :: 0 <= i < |ops| ==> Ordinary(ops[i])
  }

  function ScrollsPut(t: Text, ch: Byte): nat {
    if ch == NEWLINE && t.row == HEIGHT - 1 && !t.IsProtected(t.row + 1, 0) then 1 else 0
  }

  function ScrollsAll(t: Text, s: seq<Byte>, color: Byte): nat
    requires t.Ok()
    decreases |s|
  {
    if s == [] then 0 else ScrollsPut(t, s[0]) + ScrollsAll(Put(t, s[0], color), s[1..], color)
  }

  /** How often one operation scrolls. */
  function Scrolls(t: Text, op: Op): nat
    requires t.Ok()
  {
    match op
    case OpPut(ch) => ScrollsPut(t, ch)
    case OpWrite(s, color) => ScrollsAll(t, s, color)
    case _ => 0
  }

  function RunScrolls(t: Text, ops: seq<Op>): nat
    requires t.Ok()
    decreases |ops|
  {
    if ops == [] then 0 else Scrolls(t, ops[0]) + RunScrolls(Apply(t, ops[0]), ops[1..])
  }

  /** `t'` shows the protected text of `t`, `k` rows further up, behind the boundary moved with it. */
  ghost predicate Keeps(t: Text, t': Text, k: nat) {
    && t.Ok() && t'.Ok() && t.guarded && t'.guarded
    && t'.edgeCol == t.edgeCol
    && t'.edgeRow == (if k <= t.edgeRow then t.edgeRow - k else 0)
    && (k <= t.edgeRow ==>
          forall i :: 0 <= i < CellIndex(t'.edgeRow, t'.edgeCol) ==> t'.cells[i] == t.cells[i + k * WIDTH])
  }

  lemma {:induction false} KeepsTransitive(t: Text, t1: Text, t2: Text, k: nat, n: nat)
    requires Keeps(t, t1, k) && Keeps(t1, t2, n)
    ensures Keeps(t, t2, k + n)
  {
    if k + n <= t.edgeRow {
      forall i | 0 <= i < CellIndex(t2.edgeRow, t2.edgeCol) ensures t2.cells[i] == t.cells[i + (k + n) * WIDTH] {
        assert t2.cells[i] == t1.cells[i + n * WIDTH];
        assert t1.cells[i + n * WIDTH] == t.cells[i + n * WIDTH + k * WIDTH];
      }
    }
  }

  /** A cell at or after the boundary is written. */
  lemma {:induction false} WriteKeeps(t: Text, r: int, c: int, cell: Cell)
    requires t.Ok() && t.guarded && 0 <= r < HEIGHT && 0 <= c < WIDTH && !t.IsProtected(r, c)
    ensures Keeps(t, t.(cells := t.cells[CellIndex(r, c) := cell]), 0)
  {}

  lemma {:induction false} MoveKeeps(t: Text, t': Text)
    requires t.Ok() && t'.Ok() && t.guarded && t'.guarded
    requires t'.cells == t.cells && t'.edgeRow == t.edgeRow && t'.edgeCol == t.edgeCol
    ensures Keeps(t, t', 0)
  {}

  lemma {:induction false} NewLineKeeps(t: Text)
    requires t.Ok() && t.guarded
    ensures Keeps(t, NewLine(t), if t.row + 1 < HEIGHT then 0 else 1)
  {}

  lemma {:induction false} ShowKeeps(t: Text, ch: Byte, color: Byte)
    requires t.Ok() && t.guarded
    ensures Keeps(t, Show(t, ch, color), 0)
  {
    hide Glyph;
    if !t.IsProtected(t.row, t.col) {
      var t1 := t.(cells := t.cells[CellIndex(t.row, t.col) := Glyph(color, ch)]);
      WriteKeeps(t, t.row, t.col, Glyph(color, ch));
      MoveKeeps(t1, Show(t, ch, color));
      KeepsTransitive(t, t1, Show(t, ch, color), 0, 0);
    } else {
      MoveKeeps(t, t);
    }
  }

  lemma {:induction false} SpacesKeep(t: Text, n: nat, color: Byte)
    requires t.Ok() && t.guarded
    ensures Keeps(t, ShowSpaces(t, n, color), 0)
    decreases n
  {
    hide Show, CellIndex;
    if n == 0 {
      MoveKeeps(t, t);
    } else {
      var t1 := Show(t, SPACE, color);
      ShowKeeps(t, SPACE, color);
      SpacesKeep(t1, n - 1, color);
      KeepsTransitive(t, t1, ShowSpaces(t, n, color), 0, 0);
    }
  }

  lemma {:induction false} BackspaceKeeps(t: Text, color: Byte)
    requires t.Ok() && t.guarded
    ensures Keeps(t, Backspace(t, color), 0)
  {
    var t' := Backspace(t, color);
    if t' == t {
      MoveKeeps(t, t);
    } else {
      var t1 := t.(row := t'.row, col := t'.col);
      MoveKeeps(t, t1);
      WriteKeeps(t1, t'.row, t'.col, Blank(color));
      KeepsTransitive(t, t1, t', 0, 0);
    }
  }

  lemma {:induction false} PutKeeps(t: Text, ch: Byte, color: Byte)
    requires t.Ok() && t.guarded
    ensures Keeps(t, Put(t, ch, color), ScrollsPut(t, ch))
  {
    hide Keeps, Backspace, Show, ShowSpaces, NewLine;
    if ch == NEWLINE && !t.IsProtected(t.row + 1, 0) {
      NewLineKeeps(t);
    } else if ch == BACKSPACE {
      BackspaceKeeps(t, color);
    } else if ch == TAB {
      SpacesKeep(t, 4 - t.col % 4, color);
    } else if ch == NEWLINE || ch == RETURN {
      MoveKeeps(t, Put(t, ch, color));
    } else {
      ShowKeeps(t, ch, color);
    }
  }

  lemma {:induction false} PutAllKeeps(t: Text, s: seq<Byte>, color: Byte)
    requires t.Ok() && t.guarded
    ensures Keeps(t, PutAll(t, s, color), ScrollsAll(t, s, color))
    decreases |s|
  {
    if s == [] {
      MoveKeeps(t, t);
    } else {
      var t1 := Put(t, s[0], color);
      PutKeeps(t, s[0], color);
      PutAllKeeps(t1, s[1..], color);
      hide Put, CellIndex, ScrollsPut;
      KeepsTransitive(t, t1, PutAll(t, s, color), ScrollsPut(t, s[0]), ScrollsAll(t1, s[1..], color));
    }
  }

  lemma {:induction false} ApplyKeeps(t: Text, op: Op)
    requires t.Ok() && t.guarded && Ordinary(op)
    ensures Keeps(t, Apply(t, op), Scrolls(t, op))
  {
    if op.OpPut? {
      PutKeeps(t, op.ch, t.color);
    } else if op.OpWrite? {
      PutAllKeeps(t, op.s, op.color);
    } else {
      MoveKeeps(t, Apply(t, op));
    }
  }

  /**
   * Over any run of output, colour changes and cursor moves: while the boundary has not been pushed
   * off the top, every protected cell is the original one, moved up by the number of scrolls.
   */
  lemma {:induction false} ProtectedTextIsImmutable(t: Text, ops: seq<Op>)
    requires t.Ok() && t.guarded && AllOrdinary(ops)
    ensures Keeps(t, Run(t, ops), RunScrolls(t, ops))
    decreases |ops|
  {
    if ops == [] {
      MoveKeeps(t, t);
    } else {
      var t1 := Apply(t, ops[0]);
      ApplyKeeps(t, ops[0]);
      ProtectedTextIsImmutable(t1, ops[1..]);
      hide Apply, CellIndex, Scrolls;
      KeepsTransitive(t, t1, Run(t, ops), Scrolls(t, ops[0]), RunScrolls(t1, ops[1..]));
    }
  }

  /** One scroll more and text in front of the boundary is gone: the top row is replaced by the next. */
  lemma {:induction false} ProtectionEndsAtTheTop(t: Text)
    requires t.Ok() && t.guarded && t.edgeRow == 0 && t.row == HEIGHT - 1
    ensures forall c :: 0 <= c < t.edgeCol ==>
              NewLine(t).IsProtected(0, c) && NewLine(t).cells[CellIndex(0, c)] == t.cells[CellIndex(1, c)]
  {}
}

/** The pointer's position, from the bytes the mouse sends (driver/mouse.c:118-154 and 230-249). */
module MouseMotion {
  import opened CArithmetic
  import opened Screen

  datatype Mouse = Mouse(
    x: int, y: int, buttons: Byte, restX: int, restY: int, sensitivity: int, packet: seq<Byte>)
  {
    ghost predicate Ok() {
      && 0 <= x < WIDTH && 0 <= y < HEIGHT
      && 1 <= sensitivity <= 16
      && -16 < restX < 16 && -16 < restY < 16
      && |packet| < 3
    }
  }

  /** The C remainder, with the sign of the dividend. */
  function Remainder(a: int, b: int): int
    requires b > 0
  {
    a - b * Quotient(a, b)
  }

  lemma {:induction false} DivisionFacts(a: int, b: int)
    requires b > 0
    ensures b * Quotient(a, b) + Remainder(a, b) == a
    ensures -b < Remainder(a, b) < b
    ensures a >= 0 ==> Remainder(a, b) >= 0
    ensures a <= 0 ==> Remainder(a, b) <= 0
  {
    if a < 0 {
      var q := -a / b;
      assert -a == b * q + -a % b;
      assert b * -q == -(b * q);
    }
  }

  /** A movement by (dx, dy) counted to the right and down; what the sensitivity leaves over is kept. */
  function Moved(m: Mouse, dx: int, dy: int, up: bool, buttons: Byte): (m': Mouse)
    requires m.Ok()
    ensures m'.Ok() && m'.packet == m.packet && m'.sensitivity == m.sensitivity && m'.buttons == buttons
  {
    var (ax, ay) := (m.restX + dx, m.restY + dy);
    var step := Quotient(ay, m.sensitivity);
    DivisionFacts(ax, m.sensitivity);
    DivisionFacts(ay, m.sensitivity);
    m.(x := Clamp(m.x + Quotient(ax, m.sensitivity), WIDTH),
       y := Clamp(if up then m.y - step else m.y + step, HEIGHT),
       restX := Remainder(ax, m.sensitivity), restY := Remainder(ay, m.sensitivity), buttons := buttons)
  }

  /** A nine-bit displacement: a byte and its sign bit. */
  function Signed9(b: Byte, negative: bool): int {
    if negative then b - 256 else b
  }

  function Signed8(b: Byte): int {
    if b >= 128 then b - 256 else b
  }

  predicate HasBit(b: Byte, mask: nat)
    requires mask > 0
  {
    b / mask % 2 == 1
  }

  /** Three bytes are a packet; without bit 3 in the first one they are dropped. */
  function Packet(m: Mouse, b0: Byte, b1: Byte, b2: Byte): (m': Mouse)
    requires m.Ok()
    ensures m'.Ok() && m'.packet == m.packet
  {
    if HasBit(b0, 8) then Moved(m, Signed9(b1, HasBit(b0, 0x10)), Signed9(b2, HasBit(b0, 0x20)), true, b0 % 8) else m
  }

  /** driver/mouse.c:118-154. */
  function Feed(m: Mouse, b: Byte): (m': Mouse)
    requires m.Ok()
    ensures m'.Ok()
  {
    if |m.packet| < 2 then m.(packet := m.packet + [b])
    else Packet(m.(packet := []), m.packet[0], m.packet[1], b)
  }

  /** driver/mouse.c:230-249. */
  function Report(m: Mouse, data: seq<Byte>): (m': Mouse)
    requires m.Ok()
    ensures m'.Ok()
  {
    if |data| < 3 then m else Moved(m, Signed8(data[1]), Signed8(data[2]), false, data[0] % 8)
  }

  function FeedAll(m: Mouse, bytes: seq<Byte>): (m': Mouse)
    requires m.Ok()
    ensures m'.Ok()
    decreases |bytes|
  {
    if bytes == [] then m else FeedAll(Feed(m, bytes[0]), bytes[1..])
  }

  function PacketAll(m: Mouse, packets: seq<(Byte, Byte, Byte)>): (m': Mouse)
    requires m.Ok()
    ensures m'.Ok()
    decreases |packets|
  {
    if packets == [] then m else PacketAll(Packet(m, packets[0].0, packets[0].1, packets[0].2), packets[1..])
  }

  function Bytes(packets: seq<(Byte, Byte, Byte)>): seq<Byte> {
    if packets == [] then [] else [packets[0].0, packets[0].1, packets[0].2] + Bytes(packets[1..])
  }

  lemma {:induction false} FeedThree(m: Mouse, b0: Byte, b1: Byte, b2: Byte, rest: seq<Byte>)
    requires m.Ok() && m.packet == []
    ensures FeedAll(m, [b0, b1, b2] + rest) == FeedAll(Packet(m, b0, b1, b2), rest)
  {
    var bytes := [b0, b1, b2] + rest;
    var m1 := Feed(m, b0);
    var m2 := Feed(m1, b1);
    assert m1.packet == [b0] && m2.packet == [b0, b1];
    assert m2.(packet := []) == m;
    assert bytes[1..] == [b1, b2] + rest && bytes[1..][1..] == [b2] + rest && bytes[1..][1..][1..] == rest;
    hide Packet;
    assert FeedAll(m, bytes) == FeedAll(m1, bytes[1..]);
    assert FeedAll(m1, bytes[1..]) == FeedAll(m2, bytes[1..][1..]);
  }

  /** Feeding bytes one at a time, in however many interrupts, amounts to whole packets. */
  lemma {:induction false} BytesArePackets(m: Mouse, packets: seq<(Byte, Byte, Byte)>)
    requires m.Ok() && m.packet == []
    ensures FeedAll(m, Bytes(packets)) == PacketAll(m, packets)
    decreases |packets|
  {
    if packets != [] {
      var p := packets[0];
      FeedThree(m, p.0, p.1, p.2, Bytes(packets[1..]));
      BytesArePackets(Packet(m, p.0, p.1, p.2), packets[1..]);
    }
  }

  /** `q` is `a` in steps of `s`, and `rest` what is left of it, in the direction of `a`. */
  predicate Steps(a: int, s: int, q: int, rest: int) {
    s * q + rest == a && -s < rest < s && (a >= 0 ==> q >= 0 && rest >= 0) && (a <= 0 ==> q <= 0 && rest <= 0)
  }

  function Cut(v: int, last: int): int {
    if v < 0 then 0 else if v > last then last else v
  }

  /**
   * Three bytes: bit 3 of the first makes them a packet, bits 0 to 2 are the buttons. The second byte, negative
   * with bit 4 of the first, goes to the right; the third, negative with bit 5, goes up.
   */
  lemma {:induction false} PacketLaw(m: Mouse, b0: Byte, b1: Byte, b2: Byte) returns (right: int, up: int)
    requires m.Ok() && m.packet == []
    ensures var m' := FeedAll(m, [b0, b1, b2]);
            if b0 / 8 % 2 == 0 then m' == m
            else
              && Steps(m.restX + b1 - (if b0 / 16 % 2 == 1 then 256 else 0), m.sensitivity, right, m'.restX)
              && Steps(m.restY + b2 - (if b0 / 32 % 2 == 1 then 256 else 0), m.sensitivity, up, m'.restY)
              && m'.x == Cut(m.x + right, 79) && m'.y == Cut(m.y - up, 24)
              && m'.buttons == b0 % 8 && m'.sensitivity == m.sensitivity && m'.packet == []
  {
    assert [b0, b1, b2] + [] == [b0, b1, b2];
    FeedThree(m, b0, b1, b2, []);
    var dx, dy := Signed9(b1, HasBit(b0, 0x10)), Signed9(b2, HasBit(b0, 0x20));
    right, up := MovedLaw(m, dx, dy, true, b0 % 8);
  }

  /** A USB report: its second byte, signed, goes to the right and its third down. */
  lemma {:induction false} ReportLaw(m: Mouse, data: seq<Byte>) returns (right: int, down: int)
    requires m.Ok()
    ensures var m' := Report(m, data);
            if |data| < 3 then m' == m
            else
              && Steps(m.restX + data[1] - (if data[1] >= 128 then 256 else 0), m.sensitivity, right, m'.restX)
              && Steps(m.restY + data[2] - (if data[2] >= 128 then 256 else 0), m.sensitivity, down, m'.restY)
              && m'.x == Cut(m.x + right, 79) && m'.y == Cut(m.y + down, 24) && m'.buttons == data[0] % 8
  {
    right, down := 0, 0;
    if |data| >= 3 {
      right, down := MovedLaw(m, Signed8(data[1]), Signed8(data[2]), false, data[0] % 8);
    }
  }

  lemma {:induction false} MovedLaw(m: Mouse, dx: int, dy: int, up: bool, buttons: Byte) returns (qx: int, qy: int)
    requires m.Ok()
    ensures var m' := Moved(m, dx, dy, up, buttons);
            && Steps(m.restX + dx, m.sensitivity, qx, m'.restX) && Steps(m.restY + dy, m.sensitivity, qy, m'.restY)
            && m'.x == Cut(m.x + qx, 79) && m'.y == Cut(if up then m.y - qy else m.y + qy, 24)
  {
    qx, qy := Quotient(m.restX + dx, m.sensitivity), Quotient(m.restY + dy, m.sensitivity);
    DivisionFacts(m.restX + dx, m.sensitivity);
    DivisionFacts(m.restY + dy, m.sensitivity);
    QuotientSign(m.restX + dx, m.sensitivity);
    QuotientSign(m.restY + dy, m.sensitivity);
  }

  lemma {:induction false} QuotientSign(a: int, b: int)
    requires b > 0
    ensures (a >= 0 ==> Quotient(a, b) >= 0) && (a <= 0 ==> Quotient(a, b) <= 0)
  {}

  /** Displacements to the right and down, or up, one after the other. */
  function SumX(ds: seq<(int, int)>): int {
    if ds == [] then 0 else ds[0].0 + SumX(ds[1..])
  }

  function SumY(ds: seq<(int, int)>): int {
    if ds == [] then 0 else ds[0].1 + SumY(ds[1..])
  }

  function MoveAll(m: Mouse, ds: seq<(int, int)>, up: bool): (m': Mouse)
    requires m.Ok()
    ensures m'.Ok()
    decreases |ds|
  {
    if ds == [] then m else MoveAll(Moved(m, ds[0].0, ds[0].1, up, m.buttons), ds[1..], up)
  }

  predicate StepInside(m: Mouse, dx: int, dy: int, up: bool)
    requires m.Ok()
  {
    var step := Quotient(m.restY + dy, m.sensitivity);
    && 0 <= m.x + Quotient(m.restX + dx, m.sensitivity) < WIDTH
    && 0 <= (if up then m.y - step else m.y + step) < HEIGHT
  }

  /** No step is cut off at the edge of the screen. */
  predicate StaysInside(m: Mouse, ds: seq<(int, int)>, up: bool)
    requires m.Ok()
    decreases |ds|
  {
    ds == [] ||
    (StepInside(m, ds[0].0, ds[0].1, up) && StaysInside(Moved(m, ds[0].0, ds[0].1, up, m.buttons), ds[1..], up))
  }

  /** The exact position, in units of the mouse. */
  function ExactX(m: Mouse): int {
    m.sensitivity * m.x + m.restX
  }

  function ExactY(m: Mouse, up: bool): int {
    if up then m.sensitivity * m.y - m.restY else m.sensitivity * m.y + m.restY
  }

  /** However small the steps, none of the movement is lost on either axis. */
  lemma {:induction false} NoMotionLost(m: Mouse, ds: seq<(int, int)>, up: bool)
    requires m.Ok() && StaysInside(m, ds, up)
    ensures ExactX(MoveAll(m, ds, up)) == ExactX(m) + SumX(ds)
    ensures ExactY(MoveAll(m, ds, up), up) == ExactY(m, up) + if up then -SumY(ds) else SumY(ds)
    decreases |ds|
  {
    hide Moved, StepInside, ExactX, ExactY;
    if ds != [] {
      OneStep(m, ds[0].0, ds[0].1, up);
      NoMotionLost(Moved(m, ds[0].0, ds[0].1, up, m.buttons), ds[1..], up);
    }
  }

  lemma {:induction false} OneStep(m: Mouse, dx: int, dy: int, up: bool)
    requires m.Ok() && StepInside(m, dx, dy, up)
    ensures var m' := Moved(m, dx, dy, up, m.buttons);
            ExactX(m') == ExactX(m) + dx && ExactY(m', up) == ExactY(m, up) + if up then -dy else dy
  {
    hide Quotient, Remainder;
    var qx, qy := Quotient(m.restX + dx, m.sensitivity), Quotient(m.restY + dy, m.sensitivity);
    DivisionFacts(m.restX + dx, m.sensitivity);
    DivisionFacts(m.restY + dy, m.sensitivity);
    Distribute(m.sensitivity, m.x, qx);
    Distribute(m.sensitivity, m.y, qy);
    Distribute(m.sensitivity, m.y, -qy);
    Distribute(m.sensitivity, qy, -qy);
  }

  lemma {:induction false} Distribute(k: int, a: int, b: int)
    ensures k * (a + b) == k * a + k * b
  {}
}

/** Video memory with its two writers: text output and the mouse pointer (driver/vga.c, driver/mouse.c). */
module Terminal {
  import opened CArithmetic
  import opened Screen
  import opened MouseMotion

  /** driver/mouse.c:75-77. */
  function InvertAttribute(a: Byte): Byte {
    a % 16 * 16 + a / 16
  }

  function PointerCell(under: Cell, glyph: Byte): Cell {
    Glyph(InvertAttribute(under / 256), glyph)
  }

  /** What may happen on the machine: a request for text, or bytes from a mouse. */
  datatype Event = TextRequest(op: Op) | SerialByte(b: Byte) | UsbReport(data: seq<Byte>)

  /** The text requests of a run, and what the mouse sends in it. */
  function TextPart(es: seq<Event>): seq<Op> {
    if es == [] then [] else (if es[0].TextRequest? then [es[0].op] else []) + TextPart(es[1..])
  }

  function MouseStep(m: Mouse, e: Event): (m': Mouse)
    requires m.Ok()
    ensures m'.Ok()
  {
    match e
    case TextRequest(_) => m
    case SerialByte(b) => Feed(m, b)
    case UsbReport(data) => Report(m, data)
  }

  function RunMouse(m: Mouse, es: seq<Event>): (m': Mouse)
    requires m.Ok()
    ensures m'.Ok()
    decreases |es|
  {
    if es == [] then m else RunMouse(MouseStep(m, es[0]), es[1..])
  }

  class Console {
    const video: array<Cell>
    var row: int
    var col: int
    var guarded: bool
    var edgeRow: int
    var edgeCol: int
    var color: Byte

    var pointerActive: bool
    var pointerRow: int
    var pointerCol: int
    var pointerUnder: Cell
    const pointerGlyph: Byte

    var mouseX: int
    var mouseY: int
    var buttons: Byte
    var restX: int
    var restY: int
    const sensitivity: int
    var packet: seq<Byte>

    constructor (video: array<Cell>, sensitivity: int)
      requires video.Length == CELLS && 1 <= sensitivity <= 16
      ensures Valid() && this.video == video && !pointerActive
      ensures TextOf() == Text(video[..], 0, 0, false, 0, 0, 0x0F)
      ensures MouseOf() == Mouse(0, 0, 0, 0, 0, sensitivity, [])
    {
      this.video, this.sensitivity := video, sensitivity;
      row, col, guarded, edgeRow, edgeCol, color := 0, 0, false, 0, 0, 0x0F;
      pointerActive, pointerRow, pointerCol, pointerUnder, pointerGlyph := false, 0, 0, 0x0F20, 0x1E;
      mouseX, mouseY, buttons, restX, restY, packet := 0, 0, 0, 0, 0, [];
    }

    /** Video memory with the cell under the pointer put back. */
    ghost function Underneath(): seq<Cell>
      reads this`pointerActive, this`pointerRow, this`pointerCol, this`pointerUnder, video
      requires video.Length == CELLS && 0 <= pointerRow < HEIGHT && 0 <= pointerCol < WIDTH
    {
      if pointerActive then video[..][CellIndex(pointerRow, pointerCol) := pointerUnder] else video[..]
    }

    ghost predicate PointerOk()
      reads this`pointerActive, this`pointerRow, this`pointerCol, this`pointerUnder, video
    {
      && video.Length == CELLS && 0 <= pointerRow < HEIGHT && 0 <= pointerCol < WIDTH
      && (pointerActive ==> video[CellIndex(pointerRow, pointerCol)] == PointerCell(pointerUnder, pointerGlyph))
    }

    ghost function TextOf(): Text
      reads this`pointerActive, this`pointerRow, this`pointerCol, this`pointerUnder, video
      reads this`row, this`col, this`guarded, this`edgeRow, this`edgeCol, this`color
      requires PointerOk()
    {
      Text(Underneath(), row, col, guarded, edgeRow, edgeCol, color)
    }

    ghost function MouseOf(): Mouse
      reads this`mouseX, this`mouseY, this`buttons, this`restX, this`restY, this`packet
    {
      Mouse(mouseX, mouseY, buttons, restX, restY, sensitivity, packet)
    }

    ghost predicate Valid()
      reads this, video
    {
      PointerOk() && TextOf().Ok() && MouseOf().Ok()
    }

    predicate IsPositionProtected(r: int, c: int)
      reads this`guarded, this`edgeRow, this`edgeCol
    {
      guarded && (r < edgeRow || (r == edgeRow && c < edgeCol))
    }

    /** driver/mouse.c:80-89. */
    method PointerErase()
      requires PointerOk()
      modifies this`pointerActive, video
      ensures PointerOk() && !pointerActive && TextOf() == old(TextOf())
      ensures video[..] == old(Underneath())
    {
      if !pointerActive {
        return;
      }
      video[CellIndex(pointerRow, pointerCol)] := pointerUnder;
      pointerActive := false;
    }

    /** driver/mouse.c:91-112. */
    method PointerDraw(r: int, c: int)
      requires PointerOk() && 0 <= r < HEIGHT && 0 <= c < WIDTH
      modifies this`pointerActive, this`pointerRow, this`pointerCol, this`pointerUnder, video
      ensures PointerOk() && TextOf() == old(TextOf())
      ensures pointerActive && pointerRow == r && pointerCol == c
      ensures var under := TextOf().cells[80 * r + c];
              video[80 * r + c] == (under / 256 % 16 * 16 + under / 256 / 16) * 256 + pointerGlyph
    {
      if pointerActive && pointerRow == r && pointerCol == c {
        return;
      }
      ghost var text := Underneath();
      if pointerActive {
        video[CellIndex(pointerRow, pointerCol)] := pointerUnder;
      }
      assert video[..] == text;
      pointerRow, pointerCol := r, c;
      var i := CellIndex(r, c);
      pointerUnder := video[i];
      video[i] := PointerCell(pointerUnder, pointerGlyph);
      pointerActive := true;
      assert Underneath() == text;
    }

    /** driver/vga.c:81-103. */
    method Scroll()
      requires video.Length == CELLS
      modifies this`row, this`edgeRow, video
      ensures old(row) < HEIGHT ==> row == old(row) && edgeRow == old(edgeRow) && video[..] == old(video[..])
      ensures old(row) >= HEIGHT ==>
                && row == HEIGHT - 1
                && edgeRow == (if old(edgeRow) > 0 then old(edgeRow) - 1 else old(edgeRow))
                && video[..] == ScrolledCells(old(video[..]), Blank(color))
    {
      if row < HEIGHT {
        return;
      }
      ghost var was := video[..];
      for r := 1 to HEIGHT
        invariant forall i :: 0 <= i < CellIndex(r - 1, 0) ==> video[i] == was[i + WIDTH]
        invariant forall i :: CellIndex(r - 1, 0) <= i < CELLS ==> video[i] == was[i]
        modifies video
      {
        for c := 0 to WIDTH
          invariant forall i :: 0 <= i < CellIndex(r - 1, c) ==> video[i] == was[i + WIDTH]
          invariant forall i :: CellIndex(r - 1, c) <= i < CELLS ==> video[i] == was[i]
          modifies video
        {
          video[CellIndex(r - 1, c)] := video[CellIndex(r, c)];
        }
      }
      for c := 0 to WIDTH
        invariant forall i :: 0 <= i < CellIndex(HEIGHT - 1, 0) ==> video[i] == was[i + WIDTH]
        invariant forall i :: CellIndex(HEIGHT - 1, 0) <= i < CellIndex(HEIGHT - 1, c) ==> video[i] == Blank(color)
        modifies video
      {
        video[CellIndex(HEIGHT - 1, c)] := Blank(color);
      }
      if edgeRow > 0 {
        edgeRow := edgeRow - 1;
      }
      row := HEIGHT - 1;
    }

    /** The last cell of a row that does not show a space (driver/vga.c:135-142). */
    method FindLastShown(r: int) returns (c: int)
      requires video.Length == CELLS && 0 <= r < HEIGHT
      ensures c == LastShown(video[..], r, WIDTH - 1)
    {
      var i := WIDTH - 1;
      while i >= 0
        invariant -1 <= i < WIDTH
        invariant LastShown(video[..], r, i) == LastShown(video[..], r, WIDTH - 1)
      {
        if video[CellIndex(r, i)] % 256 != SPACE {
          return i;
        }
        i := i - 1;
      }
      c := 0;
    }

    /** driver/vga.c:106-187. */
    method PutChar(ch: Byte, paint: Byte)
      requires PointerOk() && TextOf().Ok()
      modifies this`pointerActive, this`row, this`col, this`edgeRow, video
      ensures PointerOk() && !pointerActive
      ensures TextOf() == Put(old(TextOf()), ch, paint)
      decreases if ch == TAB then 1 else 0, 0
    {
      PointerErase();
      if ch == NEWLINE {
        if IsPositionProtected(row + 1, 0) {
          return;
        }
        row, col := row + 1, 0;
      } else if ch == RETURN {
        if IsPositionProtected(row, 0) {
          return;
        }
        col := 0;
      } else if ch == BACKSPACE {
        EraseBack(paint);
        return;
      } else if ch == TAB {
        PutSpaces(4 - col % 4, paint);
        return;
      } else {
        if IsPositionProtected(row, col) {
          return;
        }
        video[CellIndex(row, col)] := Glyph(paint, ch);
        col := col + 1;
        if col >= WIDTH {
          row, col := row + 1, 0;
          if row >= HEIGHT {
            row, col := HEIGHT - 1, WIDTH - 1;
          }
        }
      }
      Scroll();
    }

    method EraseBack(paint: Byte)
      requires PointerOk() && TextOf().Ok() && !pointerActive
      modifies this`row, this`col, video
      ensures PointerOk() && TextOf() == Backspace(old(TextOf()), paint)
    {
      var targetRow, targetCol := row, col;
      if col > 0 {
        targetCol := col - 1;
      } else if row > 0 {
        targetRow := row - 1;
        targetCol := FindLastShown(targetRow);
      } else {
        return;
      }
      if IsPositionProtected(targetRow, targetCol) {
        return;
      }
      row, col := targetRow, targetCol;
      video[CellIndex(row, col)] := Blank(paint);
    }

    method PutSpaces(n: nat, paint: Byte)
      requires PointerOk() && TextOf().Ok() && !pointerActive
      modifies this`pointerActive, this`row, this`col, this`edgeRow, video
      ensures PointerOk() && !pointerActive
      ensures TextOf() == ShowSpaces(old(TextOf()), n, paint)
      decreases 0, 1
    {
      for i := 0 to n
        invariant PointerOk() && TextOf().Ok() && !pointerActive
        invariant ShowSpaces(TextOf(), n - i, paint) == ShowSpaces(old(TextOf()), n, paint)
      {
        PutChar(SPACE, paint);
      }
    }

    /** driver/vga.c:196-207. */
    method Write(s: seq<Byte>, paint: Byte)
      requires PointerOk() && TextOf().Ok()
      modifies this`pointerActive, this`row, this`col, this`edgeRow, video
      ensures PointerOk() && TextOf() == PutAll(old(TextOf()), s, paint)
    {
      for i := 0 to |s|
        invariant PointerOk() && TextOf().Ok()
        invariant PutAll(TextOf(), s[i..], paint) == PutAll(old(TextOf()), s, paint)
      {
        assert s[i..][1..] == s[i + 1..];
        PutChar(s[i], paint);
      }
    }

    /** driver/vga.c:68-78. */
    method Clear()
      requires PointerOk() && TextOf().Ok()
      modifies this`pointerActive, this`row, this`col, this`guarded, video
      ensures PointerOk() && TextOf() == Cleared(old(TextOf()))
    {
      PointerErase();
      var blank := Blank(color);
      for i := 0 to CELLS
        invariant forall j :: 0 <= j < i ==> video[j] == blank
        modifies video
      {
        video[i] := blank;
      }
      assert video[..] == seq(CELLS, _ => blank);
      row, col, guarded := 0, 0, false;
    }

    method MoveCursor(r: int, c: int)
      requires PointerOk() && TextOf().Ok()
      modifies this`row, this`col
      ensures TextOf() == SetCursor(old(TextOf()), r, c)
    {
      var r', c' := Clamp(r, HEIGHT), Clamp(c, WIDTH);
      if IsPositionProtected(r', c') {
        return;
      }
      row, col := r', c';
    }

    method SetProtectedPosition(r: int, c: int)
      requires PointerOk() && TextOf().Ok()
      modifies this`guarded, this`edgeRow, this`edgeCol
      ensures TextOf() == SetProtected(old(TextOf()), r, c)
    {
      edgeRow, edgeCol, guarded := Clamp(r, HEIGHT), Clamp(c, WIDTH), true;
    }

    /** One text request. */
    method Serve(op: Op)
      requires Valid()
      modifies this`pointerActive, this`row, this`col, this`guarded, this`edgeRow, this`edgeCol, this`color, video
      ensures Valid() && TextOf() == Apply(old(TextOf()), op)
    {
      match op {
        case OpPut(ch) => PutChar(ch, color);
        case OpWrite(s, paint) => Write(s, paint);
        case OpSetCursor(r, c) => MoveCursor(r, c);
        case OpProtect(r, c) => SetProtectedPosition(r, c);
        case OpProtectHere => SetProtectedPosition(row, col);
        case OpUnprotect => guarded := false;
        case OpColor(paint) => color := paint;
        case OpClear => Clear();
      }
    }

    /** The sum, the division and the clamping shared by both mouse protocols. */
    method Accumulate(dx: int, dy: int, up: bool, pressed: Byte)
      requires MouseOf().Ok()
      modifies this`mouseX, this`mouseY, this`buttons, this`restX, this`restY
      ensures MouseOf() == Moved(old(MouseOf()), dx, dy, up, pressed)
    {
      restX := restX + dx;
      restY := restY + dy;
      mouseX := mouseX + Quotient(restX, sensitivity);
      mouseY := if up then mouseY - Quotient(restY, sensitivity) else mouseY + Quotient(restY, sensitivity);
      restX := Remainder(restX, sensitivity);
      restY := Remainder(restY, sensitivity);
      if mouseX < 0 {
        mouseX := 0;
      }
      if mouseX >= 80 {
        mouseX := 79;
      }
      if mouseY < 0 {
        mouseY := 0;
      }
      if mouseY >= 25 {
        mouseY := 24;
      }
      buttons := pressed;
    }

    /** driver/mouse.c:118-154. */
    method FeedByte(data: Byte)
      requires Valid()
      modifies this`pointerActive, this`pointerRow, this`pointerCol, this`pointerUnder, video
      modifies this`mouseX, this`mouseY, this`buttons, this`restX, this`restY, this`packet
      ensures Valid() && TextOf() == old(TextOf()) && MouseOf() == Feed(old(MouseOf()), data)
      ensures |old(packet)| == 2 && old(packet)[0] / 8 % 2 == 1 ==>
                pointerActive && pointerRow == mouseY && pointerCol == mouseX
    {
      hide Packet, HasBit, Glyph;
      packet := packet + [data];
      if |packet| == 3 {
        var b0, b1, b2 := packet[0], packet[1], packet[2];
        packet := [];
        UsePacket(b0, b1, b2);
      }
    }

    /** driver/mouse.c:121-151. */
    method UsePacket(b0: Byte, b1: Byte, b2: Byte)
      requires Valid()
      modifies this`pointerActive, this`pointerRow, this`pointerCol, this`pointerUnder, video
      modifies this`mouseX, this`mouseY, this`buttons, this`restX, this`restY
      ensures Valid() && TextOf() == old(TextOf()) && MouseOf() == Packet(old(MouseOf()), b0, b1, b2)
      ensures b0 / 8 % 2 == 1 ==> pointerActive && pointerRow == mouseY && pointerCol == mouseX
    {
      hide Quotient, Remainder, Clamp, Signed9, Glyph;
      if HasBit(b0, 0x08) {
        Accumulate(Signed9(b1, HasBit(b0, 0x10)), Signed9(b2, HasBit(b0, 0x20)), true, b0 % 8);
        PointerDraw(mouseY, mouseX);
      }
    }

    /** driver/mouse.c:230-249. */
    method ProcessReport(data: seq<Byte>)
      requires Valid()
      modifies this`pointerActive, this`pointerRow, this`pointerCol, this`pointerUnder, video
      modifies this`mouseX, this`mouseY, this`buttons, this`restX, this`restY
      ensures Valid() && TextOf() == old(TextOf()) && MouseOf() == Report(old(MouseOf()), data)
      ensures |data| >= 3 ==> pointerActive && pointerRow == mouseY && pointerCol == mouseX
    {
      if |data| < 3 {
        return;
      }
      Accumulate(Signed8(data[1]), Signed8(data[2]), false, data[0] % 8);
      PointerDraw(mouseY, mouseX);
    }

    /**
     * Any interleaving of text output and mouse input: the screen under the pointer, the cursor and
     * the protection are what the text requests alone make of them, and the mouse is where its own
     * bytes alone put it.
     */
    method PerformAll(es: seq<Event>)
      requires Valid()
      modifies this, video
      ensures Valid()
      ensures TextOf() == Run(old(TextOf()), TextPart(es))
      ensures MouseOf() == RunMouse(old(MouseOf()), es)
    {
      ghost var t0, m0 := TextOf(), MouseOf();
      for i := 0 to |es|
        invariant Valid()
        invariant Run(TextOf(), TextPart(es[i..])) == Run(t0, TextPart(es))
        invariant RunMouse(MouseOf(), es[i..]) == RunMouse(m0, es)
      {
        assert es[i..][1..] == es[i + 1..];
        ghost var t := TextOf();
        match es[i] {
          case TextRequest(op) => Serve(op);
          case SerialByte(b) => FeedByte(b);
          case UsbReport(data) => ProcessReport(data);
        }
        TextPartHead(t, es[i..]);
      }
    }
  }

  lemma {:induction false} TextPartHead(t: Text, es: seq<Event>)
    requires t.Ok() && es != []
    ensures Run(t, TextPart(es)) ==
            Run(if es[0].TextRequest? then Apply(t, es[0].op) else t, TextPart(es[1..]))
  {
    if es[0].TextRequest? {
      assert TextPart(es)[1..] == TextPart(es[1..]);
    } else {
      assert TextPart(es) == TextPart(es[1..]);
    }
  }
}
