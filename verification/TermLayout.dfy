// The text terminal as a picture: the unbounded layout of everything written, in colour, wrapped at 80
// columns, and the 25 rows of it that an 80 by 25 screen shows.
module TermLayout {
  import opened Bytes

  const WIDTH: nat := 80
  const HEIGHT: nat := 25

  const BACKSPACE: char := '\U{8}'

  predicate Ascii(c: char) { c < '\U{80}' }

  // ----- the layout -----

  // A character and the attribute byte that gives its colours.
  datatype Cell = Cell(c: char, attr: byte)

  type Line = seq<Cell>

  // The lines as written: a newline starts one, a backspace takes a character back unless the cursor
  // is at the left edge, where it does nothing.
  function Put(lines: seq<Line>, x: Cell): (r: seq<Line>)
    requires lines != []
    ensures r != []
  {
    var n := |lines| - 1;
    if x.c == '\n' then lines + [[]]
    else if x.c == '\U{8}' then
      if |lines[n]| % 80 > 0 then lines[n := lines[n][..|lines[n]| - 1]] else lines
    else lines[n := lines[n] + [x]]
  }

  function PutAll(lines: seq<Line>, text: seq<Cell>): (r: seq<Line>)
    requires lines != []
    ensures r != []
    decreases |text|
  {
    if text == [] then lines else PutAll(Put(lines, text[0]), text[1..])
  }

  // A line folded into rows. One that fills its last row leaves an empty row after it.
  function Fold(line: Line): (rows: seq<Line>)
    ensures rows != [] && forall r :: 0 <= r < |rows| ==> |rows[r]| <= 80
    ensures |rows[|rows| - 1]| == |line| % 80
    decreases |line|
  {
    if |line| < 80 then [line] else [line[..80]] + Fold(line[80..])
  }

  function Rows(lines: seq<Line>): (rows: seq<Line>)
    ensures forall r :: 0 <= r < |rows| ==> |rows[r]| <= WIDTH
  {
    if lines == [] then [] else Rows(lines[..|lines| - 1]) + Fold(lines[|lines| - 1])
  }

  // ----- what one character does to the rows -----

  // The change itself, which may leave the last row full.
  function RowMoved(rows: seq<Line>, x: Cell): (r: seq<Line>)
    requires rows != [] && |rows[|rows| - 1]| < WIDTH
    ensures r != [] && |r[|r| - 1]| <= WIDTH
  {
    var n := |rows| - 1;
    if x.c == '\n' then rows + [[]]
    else if x.c == BACKSPACE then if rows[n] != [] then rows[n := rows[n][..|rows[n]| - 1]] else rows
    else rows[n := rows[n] + [x]]
  }

  function RowPut(rows: seq<Line>, x: Cell): (r: seq<Line>)
    requires rows != [] && |rows[|rows| - 1]| < WIDTH
    ensures r != [] && |r[|r| - 1]| < WIDTH
  {
    var moved := RowMoved(rows, x);
    if |moved[|moved| - 1]| == WIDTH then moved + [[]] else moved
  }

  lemma {:induction false} FoldGrows(line: Line, x: Cell)
    requires x.c != '\n' && x.c != BACKSPACE
    ensures Fold(line + [x]) == RowPut(Fold(line), x)
    decreases |line|
  {
    if |line| >= WIDTH {
      FoldGrows(line[WIDTH..], x);
      assert (line + [x])[..WIDTH] == line[..WIDTH];
      assert (line + [x])[WIDTH..] == line[WIDTH..] + [x];
      RowPutTail([line[..WIDTH]], Fold(line[WIDTH..]), x);
    } else if |line| == WIDTH - 1 {
      assert (line + [x])[..WIDTH] == line + [x];
      assert Fold((line + [x])[WIDTH..]) == [[]];
    }
  }

  lemma {:induction false} FoldShrinks(line: Line, x: Cell)
    requires |line| % WIDTH > 0 && x.c == BACKSPACE
    ensures Fold(line[..|line| - 1]) == RowPut(Fold(line), x)
    decreases |line|
  {
    if |line| >= WIDTH {
      FoldShrinks(line[WIDTH..], x);
      var less := line[..|line| - 1];
      assert less[..WIDTH] == line[..WIDTH];
      assert less[WIDTH..] == line[WIDTH..][..|line| - WIDTH - 1];
      RowPutTail([line[..WIDTH]], Fold(line[WIDTH..]), x);
    }
  }

  lemma RowPutTail(above: seq<Line>, rows: seq<Line>, x: Cell)
    requires rows != [] && |rows[|rows| - 1]| < WIDTH
    ensures RowPut(above + rows, x) == above + RowPut(rows, x)
  {
    var n := |rows| - 1;
    assert (above + rows)[|above| + n] == rows[n];
  }

  lemma LastRow(lines: seq<Line>)
    requires lines != []
    ensures Rows(lines) != [] && |Rows(lines)[|Rows(lines)| - 1]| == |lines[|lines| - 1]| % WIDTH
  {
  }

  lemma RowsAdd(lines: seq<Line>, line: Line)
    ensures Rows(lines + [line]) == Rows(lines) + Fold(line)
  {
    assert (lines + [line])[..|lines|] == lines;
  }

  lemma RowsPut(lines: seq<Line>, x: Cell)
    requires lines != []
    ensures Rows(lines) != [] && |Rows(lines)[|Rows(lines)| - 1]| < WIDTH
    ensures Rows(Put(lines, x)) == RowPut(Rows(lines), x)
  {
    hide Fold, Rows, RowPut;
    LastRow(lines);
    var n := |lines| - 1;
    var rest, last := lines[..n], lines[n];
    assert lines == rest + [last];
    RowsAdd(rest, last);
    RowPutTail(Rows(rest), Fold(last), x);
    if x.c == '\n' {
      FoldEmpty();
      RowsAdd(lines, []);
      NewRow(Rows(lines), x);
    } else if x.c != BACKSPACE {
      FoldGrows(last, x);
      RowsAdd(rest, last + [x]);
      assert Put(lines, x) == rest + [last + [x]];
    } else if |last| % WIDTH > 0 {
      FoldShrinks(last, x);
      RowsAdd(rest, last[..|last| - 1]);
      assert Put(lines, x) == rest + [last[..|last| - 1]];
    } else {
      BackAtEdge(Rows(lines), x);
    }
  }

  lemma NewRow(rows: seq<Line>, x: Cell)
    requires rows != [] && |rows[|rows| - 1]| < WIDTH && x.c == '\n'
    ensures RowPut(rows, x) == rows + [[]]
  {
  }

  lemma BackAtEdge(rows: seq<Line>, x: Cell)
    requires rows != [] && rows[|rows| - 1] == [] && x.c == BACKSPACE
    ensures RowPut(rows, x) == rows
  {
  }

  lemma FoldEmpty()
    ensures Fold([]) == [[]]
  {
  }

  // ----- the screen -----

  datatype Screen = Screen(cells: seq<Cell>, row: nat, col: nat, attr: byte)

  predicate Proper(s: Screen) { |s.cells| == WIDTH * HEIGHT && s.row < HEIGHT && s.col < WIDTH }

  function Place(row: nat, col: nat): (k: nat)
    requires row < HEIGHT && col < WIDTH
    ensures k < WIDTH * HEIGHT
  {
    row * 80 + col
  }

  function At(s: Screen, row: nat, col: nat): Cell
    requires |s.cells| == WIDTH * HEIGHT && row < HEIGHT && col < WIDTH
  {
    s.cells[Place(row, col)]
  }

  function Blank(attr: byte): Cell { Cell(' ', attr) }

  function Cleared(attr: byte): (s: Screen)
    ensures Proper(s)
  {
    Screen(seq(WIDTH * HEIGHT, _ => Blank(0x0F)), 0, 0, attr)
  }

  // The rows moved up by one, with a blank row below.
  function Scrolled(cells: seq<Cell>, attr: byte): (r: seq<Cell>)
    requires |cells| == WIDTH * HEIGHT
    ensures |r| == WIDTH * HEIGHT
  {
    cells[WIDTH..] + seq(WIDTH, _ => Blank(attr))
  }

  function Moved(s: Screen, c: char): (r: Screen)
    requires Proper(s)
    ensures |r.cells| == WIDTH * HEIGHT && r.row <= s.row + 1 && r.col <= WIDTH && (r.row > s.row ==> r.col == 0)
  {
    if c == '\n' then s.(row := s.row + 1, col := 0)
    else if c == BACKSPACE then
      if s.col > 0 then s.(cells := s.cells[Place(s.row, s.col - 1) := Blank(s.attr)], col := s.col - 1) else s
    else s.(cells := s.cells[Place(s.row, s.col) := Cell(c, s.attr)], col := s.col + 1)
  }

  function Wrapped(s: Screen): Screen { if s.col >= WIDTH then s.(row := s.row + 1, col := 0) else s }

  function Kept(s: Screen): Screen
    requires |s.cells| == WIDTH * HEIGHT
  {
    if s.row >= HEIGHT then s.(cells := Scrolled(s.cells, s.attr), row := HEIGHT - 1) else s
  }

  function Step(s: Screen, c: char): (r: Screen)
    requires Proper(s)
    ensures Proper(r)
  {
    Kept(Wrapped(Moved(s, c)))
  }

  function StepAll(s: Screen, text: string): (r: Screen)
    requires Proper(s)
    ensures Proper(r)
    decreases |text|
  {
    if text == "" then s else StepAll(Step(s, text[0]), text[1..])
  }

  // ----- the screen shows the layout -----

  // What is to be seen at place `c` of row `r`: the character written there, in its colour, or a blank.
  predicate Seen(x: Cell, rows: seq<Line>, r: nat, c: nat)
  {
    if r < |rows| && c < |rows[r]| then x == rows[r][c] else x.c == ' '
  }

  // The number of rows that have left the screen at the top.
  function Top(rows: seq<Line>): nat { if |rows| > 25 then |rows| - 25 else 0 }

  // The screen is the rows from `top` on, and the cursor is after the last character.
  ghost predicate ShowsFrom(s: Screen, rows: seq<Line>, top: nat)
  {
    && |s.cells| == WIDTH * HEIGHT && rows != []
    && s.row == |rows| - 1 - top && s.col == |rows[|rows| - 1]|
    && forall r: nat, c: nat :: r < 25 && c < 80 ==> Seen(At(s, r, c), rows, top + r, c)
  }

  // It is the last 25 of them.
  ghost predicate Shows(s: Screen, lines: seq<Line>)
    requires lines != []
  {
    Proper(s) && ShowsFrom(s, Rows(lines), Top(Rows(lines)))
  }

  lemma PlaceInjective(r: nat, c: nat, r': nat, c': nat)
    requires r < HEIGHT && c < WIDTH && r' < HEIGHT && c' < WIDTH
    ensures Place(r, c) == Place(r', c') <==> r == r' && c == c'
  {
  }

  // One cell changed.
  lemma AtUpdated(s: Screen, row: nat, col: nat, cell: Cell, r: nat, c: nat)
    requires |s.cells| == WIDTH * HEIGHT && row < HEIGHT && col < WIDTH && r < HEIGHT && c < WIDTH
    ensures At(s.(cells := s.cells[Place(row, col) := cell]), r, c) == if r == row && c == col then cell else At(s, r, c)
  {
    hide Place;
    PlaceInjective(row, col, r, c);
  }

  lemma AtScrolled(s: Screen, r: nat, c: nat)
    requires |s.cells| == WIDTH * HEIGHT && r < HEIGHT && c < WIDTH
    ensures At(s.(cells := Scrolled(s.cells, s.attr)), r, c) == if r + 1 < HEIGHT then At(s, r + 1, c) else Blank(s.attr)
  {
    assert r + 1 < HEIGHT ==> Place(r + 1, c) == Place(r, c) + WIDTH;
  }

  lemma MovedShows(s: Screen, rows: seq<Line>, top: nat, c: char)
    requires Proper(s) && ShowsFrom(s, rows, top)
    ensures ShowsFrom(Moved(s, c), RowMoved(rows, Cell(c, s.attr)), top)
  {
    hide Place;
    var m, moved := Moved(s, c), RowMoved(rows, Cell(c, s.attr));
    var n := |rows| - 1;
    forall r: nat, k: nat | r < HEIGHT && k < WIDTH
      ensures Seen(At(m, r, k), moved, top + r, k)
    {
      assert Seen(At(s, r, k), rows, top + r, k);
      if c != '\n' && c != BACKSPACE {
        AtUpdated(s, s.row, s.col, Cell(c, s.attr), r, k);
      } else if c == BACKSPACE && s.col > 0 {
        AtUpdated(s, s.row, s.col - 1, Blank(s.attr), r, k);
      }
    }
  }

  lemma WrappedShows(s: Screen, rows: seq<Line>, top: nat)
    requires ShowsFrom(s, rows, top) && |rows[|rows| - 1]| <= WIDTH
    ensures ShowsFrom(Wrapped(s), if |rows[|rows| - 1]| == WIDTH then rows + [[]] else rows, top)
  {
    hide Place;
    var more := if |rows[|rows| - 1]| == WIDTH then rows + [[]] else rows;
    var w := Wrapped(s);
    forall r: nat, k: nat | r < HEIGHT && k < WIDTH
      ensures Seen(At(w, r, k), more, top + r, k)
    {
      assert Seen(At(s, r, k), rows, top + r, k);
    }
  }

  lemma KeptShows(s: Screen, rows: seq<Line>, top: nat)
    requires ShowsFrom(s, rows, top) && s.row <= HEIGHT && (s.row == HEIGHT ==> s.col == 0)
    ensures ShowsFrom(Kept(s), rows, if s.row == HEIGHT then top + 1 else top)
  {
    hide Place, Scrolled;
    if s.row == HEIGHT {
      forall r: nat, k: nat | r < HEIGHT && k < WIDTH
        ensures Seen(At(Kept(s), r, k), rows, top + 1 + r, k)
      {
        AtScrolled(s, r, k);
        if r + 1 < HEIGHT {
          assert Seen(At(s, r + 1, k), rows, top + (r + 1), k);
        }
      }
    }
  }

  lemma StepShows(s: Screen, lines: seq<Line>, c: char)
    requires lines != [] && Shows(s, lines)
    ensures Shows(Step(s, c), Put(lines, Cell(c, s.attr))) && Step(s, c).attr == s.attr
  {
    hide ShowsFrom, Rows, Scrolled, Put;
    var rows := Rows(lines);
    var top := Top(rows);
    var x := Cell(c, s.attr);
    RowsPut(lines, x);
    ShowsPlace(s, rows, top);
    MovedShows(s, rows, top, c);
    var moved := RowMoved(rows, x);
    ShowsPlace(Moved(s, c), moved, top);
    WrappedShows(Moved(s, c), moved, top);
    var put := RowPut(rows, x);
    ShowsPlace(Wrapped(Moved(s, c)), put, top);
    KeptShows(Wrapped(Moved(s, c)), put, top);
  }

  lemma ShowsPlace(s: Screen, rows: seq<Line>, top: nat)
    requires ShowsFrom(s, rows, top)
    ensures rows != [] && s.row == |rows| - 1 - top && s.col == |rows[|rows| - 1]| && |s.cells| == WIDTH * HEIGHT
  {
  }

  lemma RowsStart()
    ensures Rows([[]]) == [[]]
  {
    var none: seq<Line> := [];
    RowsAdd(none, []);
    FoldEmpty();
    assert none + [[]] == [[]];
  }

  lemma ClearedShows(attr: byte)
    ensures Shows(Cleared(attr), [[]])
  {
    hide Place, Rows, Scrolled;
    var s := Cleared(attr);
    RowsStart();
    forall r: nat, c: nat | r < HEIGHT && c < WIDTH
      ensures Seen(At(s, r, c), [[]], 0 + r, c)
    {
      assert s.cells[Place(r, c)] == Blank(0x0F);
    }
  }

  // Text in one colour.
  function Tinted(text: string, attr: byte): (cells: seq<Cell>)
    ensures |cells| == |text|
  {
    seq(|text|, i requires 0 <= i < |text| => Cell(text[i], attr))
  }

  // However much is written, and through however many scrolls, the screen shows the last 25 rows of
  // all of it.
  lemma {:induction false} ScreenShowsAll(s: Screen, lines: seq<Line>, text: string)
    requires lines != [] && Shows(s, lines)
    ensures Shows(StepAll(s, text), PutAll(lines, Tinted(text, s.attr)))
    decreases |text|
  {
    hide ShowsFrom, Step, Put;
    if text != "" {
      StepShows(s, lines, text[0]);
      ScreenShowsAll(Step(s, text[0]), Put(lines, Cell(text[0], s.attr)), text[1..]);
      assert Tinted(text, s.attr)[1..] == Tinted(text[1..], s.attr);
    }
  }

  lemma SinceInitialised(attr: byte, text: string)
    ensures Shows(StepAll(Cleared(attr), text), PutAll([[]], Tinted(text, attr)))
  {
    ClearedShows(attr);
    ScreenShowsAll(Cleared(attr), [[]], text);
  }
}
