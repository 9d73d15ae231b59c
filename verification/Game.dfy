/** The game as the program keeps it: the 24 x 30 board in `data` and `color`, updated in
    place, and a terminal that only receives single cells. Every method is tied to the
    state machine of module Engine through the ghost field `st`. */
module Game {
  import opened Blocks
  import opened Board
  import opened Clearing
  import opened Engine

  ghost predicate ShowsScreen(screen: array2<Glyph>, p: Screen)
    reads screen
  {
    && screen.Length0 == SCREEN_ROWS && screen.Length1 == SCREEN_COLS && IsScreen(p)
    && forall r, c :: 0 <= r < SCREEN_ROWS && 0 <= c < SCREEN_COLS ==> screen[r, c] == p[r][c]
  }

  predicate Boards(data: array2<int>, color: array2<int>) {
    && data.Length0 == SCREEN_ROWS && data.Length1 == SCREEN_COLS
    && color.Length0 == SCREEN_ROWS && color.Length1 == SCREEN_COLS
    && data != color
  }

  predicate HoldsCell(d: int, k: int, cell: Cell) {
    if d == 1 then 0 <= k < 7 && cell == Locked(k) else d == 0 && cell.Vacant?
  }

  ghost predicate HoldsField(data: array2<int>, color: array2<int>, g: Field)
    requires Boards(data, color)
    reads data, color
  {
    && IsField(g)
    && forall r, c :: 0 <= r < ROWS && 1 <= c <= COLS ==> HoldsCell(data[r, c], color[r, c], g[r][c - 1])
  }

  /** Walls, floor, separator and side panel keep the values InitInterface gave them. */
  ghost predicate FrameIntact(data: array2<int>, color: array2<int>)
    requires Boards(data, color)
    reads data, color
  {
    && (forall r, c :: 0 <= r < SCREEN_ROWS && 0 <= c < SCREEN_COLS && OutsideField(r, c) ==>
          data[r, c] == if IsFrame(r, c) then 1 else 0)
    && (forall c :: 1 <= c <= COLS ==> color[ROWS, c] == -1)
  }

  lemma OnScreenInBox(s: Shape, f: Form, row: int, col: int)
    requires InBox(s, f, row, col)
    ensures OnScreen(s, f, row, col)
  {
    forall i: Index, j: Index | Solid(s, f, i, j)
      ensures 0 <= row - 1 + i < SCREEN_ROWS && 0 <= col - 1 + j < SCREEN_COLS
    {
      assert 0 <= row - 1 + i < ROWS && 0 <= col - 2 + j < COLS;
    }
  }

  class Game {
    const blocks: array4<int>
    const data: array2<int>
    const color: array2<int>
    const screen: array2<Glyph>
    var scoreShown: nat
    var shape: Shape
    var form: Form
    var row: int
    var col: int
    var nextShape: Shape
    var nextForm: Form
    var score: nat
    var line: nat
    var status: Status
    ghost var st: State

    ghost predicate Wired() {
      Boards(data, color) && screen.Length0 == SCREEN_ROWS && screen.Length1 == SCREEN_COLS && TableShape(blocks)
    }

    ghost predicate Valid()
      reads this, data, color, screen, blocks
    {
      && Wired() && TableReady(blocks) && FrameIntact(data, color)
      && Wf(st)
      && HoldsField(data, color, st.field) && ShowsScreen(screen, st.screen)
      && st.scoreShown == scoreShown && st.shape == shape && st.form == form && st.row == row && st.col == col
      && st.nextShape == nextShape && st.nextForm == nextForm && st.score == score && st.line == line
      && st.status == status
    }

    ghost predicate Holds(v: View)
      requires Wired()
      reads data, color, screen
    {
      HoldsField(data, color, v.field) && ShowsScreen(screen, v.screen)
    }

    /** `table` is the table of forms that all games share. */
    constructor (table: array4<int>)
      requires TableShape(table)
      ensures Wired() && fresh(data) && fresh(color) && fresh(screen) && blocks == table && score == 0
      ensures forall r, c :: 0 <= r < SCREEN_ROWS && 0 <= c < SCREEN_COLS ==> color[r, c] == -1
    {
      blocks := table;
      data := new int[SCREEN_ROWS, SCREEN_COLS]((r, c) => 0);
      color := new int[SCREEN_ROWS, SCREEN_COLS]((r, c) => -1);
      screen := new Glyph[SCREEN_ROWS, SCREEN_COLS]((r, c) => Blank);
      score, line, status, scoreShown := 0, 0, Over, 0;
      shape, form, nextShape, nextForm, row, col := 0, 0, 0, 0, SPAWN_ROW, SPAWN_COL;
    }

    // --------------------------------------------------------------------- drawing

    method DrawCell(r: nat, c: nat, v: Glyph, ghost p: Screen)
      requires Wired() && ShowsScreen(screen, p) && r < SCREEN_ROWS && c < SCREEN_COLS
      modifies screen
      ensures ShowsScreen(screen, Put(p, r, c, v))
    {
      screen[r, c] := v;
    }

    /** Writes one glyph at every cell of a piece; DrawBlock and DrawSpace differ only in it. */
    method DrawCells(s: Shape, f: Form, row: int, col: int, v: Glyph, ghost p: Screen)
      requires Wired() && TableReady(blocks) && ShowsScreen(screen, p) && OnScreen(s, f, row, col)
      modifies screen
      ensures ShowsScreen(screen, Stamp(p, SCREEN_ROWS, SCREEN_COLS, s, f, row - 1, col - 1, v, 16))
    {
      ghost var q := p;
      for i := 0 to 4
        invariant ShowsScreen(screen, q)
        invariant q == Stamp(p, SCREEN_ROWS, SCREEN_COLS, s, f, row - 1, col - 1, v, 4 * i)
      {
        for j := 0 to 4
          invariant ShowsScreen(screen, q)
          invariant q == Stamp(p, SCREEN_ROWS, SCREEN_COLS, s, f, row - 1, col - 1, v, 4 * i + j)
        {
          StampStep(p, SCREEN_ROWS, SCREEN_COLS, s, f, row - 1, col - 1, v, i, j);
          if blocks[s, f, i, j] == 1 {
            DrawCell(row + i - 1, col + j - 1, v, q);
            q := Put(q, row + i - 1, col + j - 1, v);
          }
        }
      }
    }

    method PaintWalls(ghost p: Screen)
      requires Wired() && ShowsScreen(screen, p)
      modifies screen
      ensures ShowsScreen(screen, RedrawWalls(p))
    {
      for i := 0 to SCREEN_ROWS
        invariant forall r, c :: 0 <= r < SCREEN_ROWS && 0 <= c < SCREEN_COLS ==>
                    screen[r, c] == if r < i && c in {0, 19, 29} then Block(WHITE) else p[r][c]
      {
        screen[i, 0] := Block(WHITE);
        screen[i, 19] := Block(WHITE);
        screen[i, 29] := Block(WHITE);
      }
    }

    method PaintBackground(ghost g: Field)
      requires Wired() && FrameIntact(data, color) && HoldsField(data, color, g)
      modifies screen
      ensures ShowsScreen(screen, Background(g))
    {
      ClearScreen();
      PaintFrame();
      for i := 0 to SCREEN_ROWS
        invariant forall r, c :: 0 <= r < SCREEN_ROWS && 0 <= c < SCREEN_COLS ==>
                    screen[r, c] == if r < i || IsFrame(r, c) then BackgroundGlyph(g, r, c) else Blank
      {
        for j := 1 to COLS + 1
          invariant forall r, c :: 0 <= r < SCREEN_ROWS && 0 <= c < SCREEN_COLS ==>
                      screen[r, c] == if r < i || (r == i && c < j) || IsFrame(r, c)
                                      then BackgroundGlyph(g, r, c) else Blank
        {
          if data[i, j] == 1 {
            var stored := color[i, j];
            screen[i, j] := Block(if SHAPE_T <= stored <= SHAPE_I then Color(stored) else WHITE);
          }
        }
      }
    }

    method ClearScreen()
      requires Wired()
      modifies screen
      ensures forall r, c :: 0 <= r < SCREEN_ROWS && 0 <= c < SCREEN_COLS ==> screen[r, c] == Blank
    {
      for i := 0 to SCREEN_ROWS
        invariant forall r, c :: 0 <= r < i && 0 <= c < SCREEN_COLS ==> screen[r, c] == Blank
      {
        for j := 0 to SCREEN_COLS
          invariant forall r, c :: 0 <= r < i && 0 <= c < SCREEN_COLS ==> screen[r, c] == Blank
          invariant forall c :: 0 <= c < j ==> screen[i, c] == Blank
        {
          screen[i, j] := Blank;
        }
      }
    }

    method PaintFrame()
      requires Wired()
      modifies screen
      ensures forall r, c :: 0 <= r < SCREEN_ROWS && 0 <= c < SCREEN_COLS ==>
                screen[r, c] == if IsFrame(r, c) then Block(WHITE) else old(screen[r, c])
    {
      for i := 0 to SCREEN_ROWS
        invariant forall r, c :: 0 <= r < SCREEN_ROWS && 0 <= c < SCREEN_COLS ==>
                    screen[r, c] == if r < i && (c in {0, 19, 29} || r == ROWS) then Block(WHITE) else old(screen[r, c])
      {
        for j := 0 to SCREEN_COLS
          invariant forall r, c :: 0 <= r < SCREEN_ROWS && 0 <= c < SCREEN_COLS ==>
                      screen[r, c] == if (r < i || (r == i && c < j)) && (c in {0, 19, 29} || r == ROWS)
                                      then Block(WHITE) else old(screen[r, c])
        {
          if j == 0 || j == 19 || j == 29 || i == ROWS {
            screen[i, j] := Block(WHITE);
          }
        }
      }
      for i := 20 to 30
        invariant forall r, c :: 0 <= r < SCREEN_ROWS && 0 <= c < SCREEN_COLS ==>
                    screen[r, c] == if c in {0, 19, 29} || r == ROWS || (r == 11 && 20 <= c < i)
                                    then Block(WHITE) else old(screen[r, c])
      {
        screen[11, i] := Block(WHITE);
      }
    }

    // ----------------------------------------------------------------------- rules

    method IsLegal(s: Shape, f: Form, row: int, col: int, ghost g: Field) returns (legal: bool)
      requires Wired() && TableReady(blocks) && HoldsField(data, color, g)
      ensures legal == Legal(g, s, f, row, col)
    {
      for i := 0 to 4
        invariant forall p: Index, q: Index :: p < i && Solid(s, f, p, q) ==>
                    0 <= row + p - 1 < ROWS && 1 <= col + q - 1 <= COLS && g[row + p - 1][col + q - 2].Vacant?
      {
        for j := 0 to 4
          invariant forall p: Index, q: Index :: (p < i || (p == i && q < j)) && Solid(s, f, p, q) ==>
                      0 <= row + p - 1 < ROWS && 1 <= col + q - 1 <= COLS && g[row + p - 1][col + q - 2].Vacant?
        {
          if blocks[s, f, i, j] == 1 {
            var r, c := row + i - 1, col + j - 1;
            if r < 0 || r > ROWS - 1 || c < 1 || c > COLS {
              return false;
            }
            assert HoldsCell(data[r, c], color[r, c], g[r][c - 1]);
            if data[r, c] == 1 {
              return false;
            }
          }
        }
      }
      return true;
    }

    method DrawMove(f: Form, row': int, col': int)
      requires Valid() && InBox(shape, f, row', col')
      modifies screen
      ensures OnScreen(shape, form, row, col) && OnScreen(shape, f, row', col')
      ensures ShowsScreen(screen, DrawBlock(DrawSpace(st.screen, shape, form, row, col), shape, f, row', col'))
    {
      OnScreenInBox(shape, form, row, col);
      OnScreenInBox(shape, f, row', col');
      DrawCells(shape, form, row, col, Blank, st.screen);
      DrawCells(shape, f, row', col', Block(Color(shape)), DrawSpace(st.screen, shape, form, row, col));
    }

    method MoveTo(f: Form, row': int, col': int)
      requires Valid()
      modifies this, screen
      ensures Valid() && st == Move(old(st), f, row', col')
    {
      var legal := IsLegal(shape, f, row', col', st.field);
      if legal {
        LegalInBox(st.field, shape, f, row', col');
        DrawMove(f, row', col');
        row, col, form := row', col', f;
        st := Move(st, f, row', col');
      }
    }

    method RepaintScreen(s: Shape, f: Form, row: int, col: int, ns: Shape, nf: Form, ghost g: Field)
      requires Wired() && TableReady(blocks) && FrameIntact(data, color) && HoldsField(data, color, g)
      requires OnScreen(s, f, row, col)
      modifies screen
      ensures ShowsScreen(screen, DrawBlock(DrawBlock(Background(g), s, f, row, col), ns, nf, PREVIEW_ROW, PREVIEW_COL))
    {
      PaintBackground(g);
      DrawCells(s, f, row, col, Block(Color(s)), Background(g));
      DrawCells(ns, nf, PREVIEW_ROW, PREVIEW_COL, Block(Color(ns)), DrawBlock(Background(g), s, f, row, col));
    }

    method Repaint()
      requires Valid()
      modifies this, screen
      ensures Valid() && st == PressKey(old(st), Redraw)
    {
      OnScreenInBox(shape, form, row, col);
      RepaintScreen(shape, form, row, col, nextShape, nextForm, st.field);
      scoreShown := score;
      st := PressKey(st, Redraw);
    }

    // ---------------------------------------------------------------- clearing rows

    method RowSum(i: nat, ghost g: Field) returns (sum: nat)
      requires Wired() && HoldsField(data, color, g) && i < ROWS
      ensures sum == CountTo(g[i], COLS)
    {
      sum := 0;
      for j := 1 to COLS + 1
        invariant sum == CountTo(g[i], j - 1)
      {
        assert HoldsCell(data[i, j], color[i, j], g[i][j - 1]);
        sum := sum + data[i, j];
      }
    }

    method EraseRow(i: nat, ghost v: View)
      requires Wired() && FrameIntact(data, color) && IsView(v) && Holds(v) && i < ROWS
      modifies data, screen
      ensures FrameIntact(data, color) && Holds(SetRow(v, i, VacantRow()))
    {
      for j := 1 to COLS + 1
        invariant forall r, c :: 0 <= r < SCREEN_ROWS && 0 <= c < SCREEN_COLS ==>
                    && data[r, c] == (if r == i && 1 <= c < j then 0 else old(data[r, c]))
                    && screen[r, c] == if r == i && 1 <= c < j then Blank else v.screen[r][c]
      {
        data[i, j] := 0;
        screen[i, j] := Blank;
      }
    }

    /** Row m - 1 moves down to row m, cell by cell; the sum counts what moved. */
    method CopyRowDown(m: nat, ghost v: View) returns (sum: nat)
      requires Wired() && FrameIntact(data, color) && IsView(v) && Holds(v) && 1 < m < ROWS
      modifies data, color, screen
      ensures FrameIntact(data, color) && Holds(SetRow(v, m, v.field[m - 1]))
      ensures sum == CountTo(v.field[m - 1], COLS)
    {
      sum := 0;
      for n := 1 to COLS + 1
        invariant sum == CountTo(v.field[m - 1], n - 1)
        invariant forall r, c :: 0 <= r < SCREEN_ROWS && 0 <= c < SCREEN_COLS ==>
                    && data[r, c] == (if r == m && 1 <= c < n then old(data[m - 1, c]) else old(data[r, c]))
                    && color[r, c] == (if r == m && 1 <= c < n then old(color[m - 1, c]) else old(color[r, c]))
                    && screen[r, c] == if r == m && 1 <= c < n then CellGlyph(v.field[m - 1][c - 1]) else v.screen[r][c]
      {
        assert HoldsCell(data[m - 1, n], color[m - 1, n], v.field[m - 1][n - 1]);
        sum := sum + data[m - 1, n];
        data[m, n] := data[m - 1, n];
        color[m, n] := color[m - 1, n];
        if data[m, n] == 1 {
          screen[m, n] := Block(Color(color[m, n]));
        } else {
          screen[m, n] := Blank;
        }
      }
    }

    method ShiftDown(i: nat, ghost v: View) returns (stopped: bool)
      requires Wired() && FrameIntact(data, color) && IsView(v) && Holds(v) && i < ROWS
      modifies data, color, screen
      ensures FrameIntact(data, color) && Holds(Shift(v, i).view)
      ensures stopped == Shift(v, i).stopped
    {
      var m := i;
      ghost var w := v;
      while m > 1
        invariant 0 <= m <= i && IsView(w) && FrameIntact(data, color) && Holds(w)
        invariant Shift(w, m) == Shift(v, i)
      {
        var sum := CopyRowDown(m, w);
        RowCountMeaning(w.field[m - 1]);
        w := SetRow(w, m, w.field[m - 1]);
        if sum == 0 {
          return true;
        }
        m := m - 1;
      }
      return false;
    }

    method IncreaseScore(ghost v: View) returns (again: bool)
      requires Wired() && FrameIntact(data, color) && IsView(v) && Holds(v)
      modifies this`line, data, color, screen
      ensures FrameIntact(data, color) && Holds(Scan(v, ROWS - 1).view)
      ensures again == Scan(v, ROWS - 1).again && line == old(line) + Scan(v, ROWS - 1).lines
    {
      var i := ROWS - 1;
      ghost var w, n := v, 0;
      while i > 4
        invariant 4 <= i < ROWS && IsView(w) && FrameIntact(data, color) && Holds(w) && line == old(line) + n
        invariant Scan(w, i).view == Scan(v, ROWS - 1).view && Scan(w, i).again == Scan(v, ROWS - 1).again
        invariant Scan(w, i).lines + n == Scan(v, ROWS - 1).lines
      {
        var sum := RowSum(i, w.field);
        RowCountMeaning(w.field[i]);
        if sum == 0 {
          break;
        }
        if sum == COLS {
          line := line + 1;
          EraseRow(i, w);
          w := SetRow(w, i, VacantRow());
          var stopped := ShiftDown(i, w);
          if stopped {
            return true;
          }
          w, n := Shift(w, i).view, n + 1;
        }
        i := i - 1;
      }
      return false;
    }

    /** Passes until one reports nothing more to do. */
    method ClearRows(ghost v: View)
      requires Wired() && FrameIntact(data, color) && IsView(v) && Holds(v)
      modifies this`line, data, color, screen
      ensures FrameIntact(data, color) && Holds(ClearLoop(v).view)
      ensures line == ClearLoop(v).lines
    {
      line := 0;
      ghost var w := v;
      while true
        invariant IsView(w) && FrameIntact(data, color) && Holds(w)
        invariant ClearLoop(v).view == ClearLoop(w).view && ClearLoop(v).lines == line + ClearLoop(w).lines
        decreases Total(w.field)
      {
        var again := IncreaseScore(w);
        if !again {
          break;
        }
        RepeatRemovesOneRow(w);
        w := Scan(w, ROWS - 1).view;
      }
    }

    method IsOver(ghost g: Field) returns (over: bool)
      requires Wired() && HoldsField(data, color, g)
      ensures over == !BlankRow(g[1])
    {
      for j := 1 to COLS + 1
        invariant forall c :: 0 <= c < j - 1 ==> g[1][c].Vacant?
      {
        assert HoldsCell(data[1, j], color[1, j], g[1][j - 1]);
        if data[1, j] == 1 {
          return true;
        }
      }
      return false;
    }

    // ------------------------------------------------------------------------ steps

    method LockCell(r: nat, c: nat, k: Shape, ghost g: Field)
      requires Wired() && FrameIntact(data, color) && HoldsField(data, color, g) && r < ROWS && 1 <= c <= COLS
      modifies data, color
      ensures FrameIntact(data, color) && HoldsField(data, color, Put(g, r, c - 1, Locked(k)))
    {
      data[r, c] := 1;
      color[r, c] := k;
    }

    method LockCells(s: Shape, f: Form, row: int, col: int, ghost g: Field)
      requires Wired() && TableReady(blocks) && FrameIntact(data, color) && HoldsField(data, color, g)
      requires InBox(s, f, row, col)
      modifies data, color
      ensures FrameIntact(data, color)
      ensures HoldsField(data, color, Stamp(g, ROWS, COLS, s, f, row - 1, col - 2, Locked(s), 16))
    {
      ghost var h := g;
      for i := 0 to 4
        invariant FrameIntact(data, color) && HoldsField(data, color, h)
        invariant h == Stamp(g, ROWS, COLS, s, f, row - 1, col - 2, Locked(s), 4 * i)
      {
        for j := 0 to 4
          invariant FrameIntact(data, color) && HoldsField(data, color, h)
          invariant h == Stamp(g, ROWS, COLS, s, f, row - 1, col - 2, Locked(s), 4 * i + j)
        {
          StampStep(g, ROWS, COLS, s, f, row - 1, col - 2, Locked(s), i, j);
          if blocks[s, f, i, j] == 1 {
            LockCell(row + i - 1, col + j - 1, s, h);
            h := Put(h, row + i - 1, col + j - 2, Locked(s));
          }
        }
      }
    }

    method UpdateCurrentScore()
      modifies this`score, this`scoreShown
      ensures score == old(score) + Points(line) && scoreShown == score
    {
      if line >= 2 {
        score := score + (line + 1) * 10;
      } else {
        score := score + line * 10;
      }
      scoreShown := score;
    }

    /** The old preview goes, the new one (s, f) comes, and the old next piece appears on the board. */
    method DrawSpawn(s: Shape, f: Form)
      requires Valid()
      modifies screen
      ensures ShowsScreen(screen, Spawn(st, s, f).screen)
    {
      DrawCells(nextShape, nextForm, PREVIEW_ROW, PREVIEW_COL, Blank, st.screen);
      DrawPieces(s, f, nextShape, nextForm, DrawSpace(st.screen, nextShape, nextForm, PREVIEW_ROW, PREVIEW_COL));
    }

    method SpawnNext(s: Shape, f: Form)
      requires Valid()
      modifies this, screen
      ensures Valid() && st == Spawn(old(st), s, f)
    {
      DrawSpawn(s, f);
      shape, form := nextShape, nextForm;
      nextShape, nextForm := s, f;
      row, col := SPAWN_ROW, SPAWN_COL;
      st := Spawn(st, s, f);
    }

    method ClearAndScore(ghost v: View)
      requires Wired() && FrameIntact(data, color) && IsView(v) && Holds(v)
      modifies this`line, this`score, this`scoreShown, data, color, screen
      ensures FrameIntact(data, color) && HoldsField(data, color, ClearLoop(v).view.field)
      ensures ShowsScreen(screen, RedrawWalls(ClearLoop(v).view.screen))
      ensures line == ClearLoop(v).lines && score == old(score) + Points(line) && scoreShown == score
    {
      ClearRows(v);
      UpdateCurrentScore();
      PaintWalls(ClearLoop(v).view.screen);
    }

    method LockAndClear()
      requires Valid()
      modifies this, data, color, screen
      ensures Valid() && st == Settled(old(st))
    {
      LockCells(shape, form, row, col, st.field);
      ClearAndScore(View(LockedField(st), st.screen));
      st := Settled(st);
    }

    method EndGame()
      requires Valid()
      modifies this`status, this`st
      ensures Valid() && st == old(st).(status := Over)
    {
      status := Over;
      st := st.(status := Over);
    }

    method ProcessBlockDown(s: Shape, f: Form)
      requires Valid()
      modifies this, data, color, screen
      ensures Valid() && st == Gravity(old(st), s, f)
    {
      var legal := IsLegal(shape, form, row + 1, col, st.field);
      if !legal {
        LockAndClear();
        var over := IsOver(st.field);
        if over {
          EndGame();
        } else {
          SpawnNext(s, f);
        }
      } else {
        MoveTo(form, row + 1, col);
      }
    }

    /** What the dispatcher does with a key or with the gravity timer. */
    method React(e: Event)
      requires Valid()
      modifies this, data, color, screen
      ensures Valid() && st == Step(old(st), e)
    {
      if status == Playing {
        match e
        case Tick(s, f) => ProcessBlockDown(s, f);
        case Press(Down) => MoveTo(form, row + 1, col);
        case Press(Left) => MoveTo(form, row, col - 1);
        case Press(Right) => MoveTo(form, row, col + 1);
        case Press(Rotate) => MoveTo((form + 1) % 4, row + 1, col);
        case Press(Redraw) => Repaint();
        case Press(Other) =>
      }
    }

    // ------------------------------------------------------------------------ start

    method InitInterface()
      requires Wired()
      modifies data, screen
      ensures forall r, c :: 0 <= r < SCREEN_ROWS && 0 <= c < SCREEN_COLS ==>
                && data[r, c] == (if IsFrame(r, c) then 1 else 0)
                && screen[r, c] == if IsFrame(r, c) then Block(WHITE) else old(screen[r, c])
    {
      for i := 0 to SCREEN_ROWS
        invariant unchanged(screen)
        invariant forall r, c :: 0 <= r < i && 0 <= c < SCREEN_COLS ==>
                    data[r, c] == if c in {0, 19, 29} || r == ROWS then 1 else 0
      {
        for j := 0 to SCREEN_COLS
          invariant unchanged(screen)
          invariant forall r, c :: 0 <= r < SCREEN_ROWS && 0 <= c < SCREEN_COLS && (r < i || (r == i && c < j)) ==>
                      data[r, c] == if c in {0, 19, 29} || r == ROWS then 1 else 0
        {
          data[i, j] := if j == 0 || j == 19 || j == 29 || i == ROWS then 1 else 0;
        }
      }
      for i := 20 to 30
        invariant unchanged(screen)
        invariant forall r, c :: 0 <= r < SCREEN_ROWS && 0 <= c < SCREEN_COLS ==>
                    data[r, c] == if c in {0, 19, 29} || r == ROWS || (r == 11 && 20 <= c < i) then 1 else 0
      {
        data[11, i] := 1;
      }
      PaintFrame();
    }

    /** The empty board and its picture. */
    method FreshBoard()
      requires Wired() && forall c :: 1 <= c <= COLS ==> color[ROWS, c] == -1
      modifies data, screen
      ensures FrameIntact(data, color) && HoldsField(data, color, VacantField())
      ensures ShowsScreen(screen, Background(VacantField()))
    {
      ClearScreen();
      InitInterface();
      assert forall r, c :: 0 <= r < ROWS && 0 <= c < COLS ==> VacantField()[r][c].Vacant?;
    }

    /** The next piece (ns, nf) into the preview, the current one (s, f) to where pieces appear. */
    method DrawPieces(ns: Shape, nf: Form, s: Shape, f: Form, ghost p: Screen)
      requires Wired() && TableReady(blocks) && ShowsScreen(screen, p)
      modifies screen
      ensures ShowsScreen(screen, DrawBlock(DrawBlock(p, ns, nf, PREVIEW_ROW, PREVIEW_COL), s, f, SPAWN_ROW, SPAWN_COL))
    {
      DrawCells(ns, nf, PREVIEW_ROW, PREVIEW_COL, Block(Color(ns)), p);
      DrawCells(s, f, SPAWN_ROW, SPAWN_COL, Block(Color(s)), DrawBlock(p, ns, nf, PREVIEW_ROW, PREVIEW_COL));
    }

    method BuildFace(s: Shape, f: Form, ns: Shape, nf: Form)
      requires Wired() && TableBuildable(blocks)
      requires forall c :: 1 <= c <= COLS ==> color[ROWS, c] == -1
      modifies data, screen, blocks
      ensures TableReady(blocks) && FrameIntact(data, color) && HoldsField(data, color, VacantField())
      ensures ShowsScreen(screen, Start(s, f, ns, nf).screen)
    {
      FreshBoard();
      InitBlockInfo(blocks);
      DrawPieces(ns, nf, s, f, Background(VacantField()));
    }

    /** A new game on a connection whose score has been reset. Colours may be left over
        from an earlier game, but never on the floor row. */
    method InitGameFace(s: Shape, f: Form, ns: Shape, nf: Form)
      requires Wired() && TableBuildable(blocks) && score == 0
      requires forall c :: 1 <= c <= COLS ==> color[ROWS, c] == -1
      modifies this, data, screen, blocks
      ensures Valid() && st == Start(s, f, ns, nf)
    {
      BuildFace(s, f, ns, nf);
      shape, form, nextShape, nextForm := s, f, ns, nf;
      row, col := SPAWN_ROW, SPAWN_COL;
      line, status, scoreShown := 0, Playing, 0;
      st := Start(s, f, ns, nf);
    }

    /** The answer "yes" after the end of a game, and the next game it leads to: nothing of
        the old board, its colours or the finished table gets in the way. */
    method PlayAgain(s: Shape, f: Form, ns: Shape, nf: Form)
      requires Valid()
      modifies this, data, screen, blocks
      ensures Valid() && st == Start(s, f, ns, nf)
    {
      assert forall c :: 1 <= c <= COLS ==> color[ROWS, c] == -1;
      ReadyIsBuildable(blocks);
      score := 0;
      InitGameFace(s, f, ns, nf);
    }
  }
}
