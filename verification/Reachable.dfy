/** What holds in every reachable state of a game. */
module Reachable {
  import opened Blocks
  import opened Board
  import opened Clearing
  import opened Engine

  // ------------------------------------------------------------ the picture, by cell

  predicate CoversCell(s: Shape, f: Form, row: int, col: int, r: int, c: int) {
    Covers(s, f, row - 1, col - 1, r, c)
  }

  lemma PictureAt(st: State, r: nat, c: nat)
    requires Wf(st) && r < SCREEN_ROWS && c < SCREEN_COLS
    ensures Picture(st)[r][c] ==
              if CoversCell(st.nextShape, st.nextForm, PREVIEW_ROW, PREVIEW_COL, r, c) then Block(Color(st.nextShape))
              else if CoversCell(st.shape, st.form, st.row, st.col, r, c) then Block(Color(st.shape))
              else BackgroundGlyph(st.field, r, c)
  {
  }

  lemma PictureByCell(p: Screen, st: State)
    requires Wf(st) && IsScreen(p)
    requires forall r, c :: 0 <= r < SCREEN_ROWS && 0 <= c < SCREEN_COLS ==> p[r][c] == Picture(st)[r][c]
    ensures p == Picture(st)
  {
    forall r | 0 <= r < SCREEN_ROWS
      ensures p[r] == Picture(st)[r]
    {
    }
  }

  /** The piece stays inside rows 0..22 and columns 1..18, never under the preview. */
  lemma PieceInside(s: Shape, f: Form, row: int, col: int, r: int, c: int)
    requires InBox(s, f, row, col) && CoversCell(s, f, row, col, r, c)
    ensures 0 <= r < ROWS && 1 <= c <= COLS && !IsFrame(r, c)
    ensures !CoversCell(s, f, PREVIEW_ROW, PREVIEW_COL, r, c)
  {
    var i: Index, j: Index := r - row + 1, c - col + 1;
    assert Solid(s, f, i, j);
  }

  /** Where an executed move leaves the picture wrong: on a cell the piece has left that
      is locked underneath. */
  lemma MovePictureAt(st: State, f: Form, row: int, col: int, r: nat, c: nat)
    requires Wf(st) && Legal(st.field, st.shape, f, row, col) && st.screen == Picture(st)
    requires r < SCREEN_ROWS && c < SCREEN_COLS
    ensures CoversCell(st.shape, st.form, st.row, st.col, r, c) ==> r < ROWS && 1 <= c <= COLS
    ensures Move(st, f, row, col).screen[r][c] == Picture(Move(st, f, row, col))[r][c]
       <==> !(CoversCell(st.shape, st.form, st.row, st.col, r, c) && st.field[r][c - 1].Locked?)
  {
    PictureAt(st, r, c);
    PictureAt(Move(st, f, row, col), r, c);
    if CoversCell(st.shape, st.form, st.row, st.col, r, c) {
      PieceInside(st.shape, st.form, st.row, st.col, r, c);
    }
    if CoversCell(st.shape, f, row, col, r, c) {
      PieceInside(st.shape, f, row, col, r, c);
      var i: Index, j: Index := r - row + 1, c - col + 1;
      assert Solid(st.shape, f, i, j);
    }
  }

  /** The piece lies on a locked cell, by board coordinates. */
  lemma PieceFreeByCell(st: State)
    requires Wf(st)
    ensures PieceFree(st) <==>
              forall r, c :: 0 <= r < ROWS && 1 <= c <= COLS && CoversCell(st.shape, st.form, st.row, st.col, r, c)
                             ==> st.field[r][c - 1].Vacant?
  {
    if PieceFree(st) {
      forall r, c | 0 <= r < ROWS && 1 <= c <= COLS && CoversCell(st.shape, st.form, st.row, st.col, r, c)
        ensures st.field[r][c - 1].Vacant?
      {
        var i: Index, j: Index := r - st.row + 1, c - st.col + 1;
        assert Solid(st.shape, st.form, i, j);
      }
    } else {
      var i: Index, j: Index :| Solid(st.shape, st.form, i, j)
        && !(0 <= st.row + i - 1 < ROWS && 1 <= st.col + j - 1 <= COLS
             && st.field[st.row + i - 1][st.col + j - 2].Vacant?);
      assert CoversCell(st.shape, st.form, st.row, st.col, st.row + i - 1, st.col + j - 1);
    }
  }

  /** An executed move keeps the picture right exactly when the piece did not lie on
      locked cells: moving off them blanks cells that are still occupied. */
  lemma MovePicture(st: State, f: Form, row: int, col: int)
    requires Wf(st) && Legal(st.field, st.shape, f, row, col) && st.screen == Picture(st)
    ensures Move(st, f, row, col).screen == Picture(Move(st, f, row, col)) <==> PieceFree(st)
  {
    var t := Move(st, f, row, col);
    PieceFreeByCell(st);
    if PieceFree(st) {
      forall r, c | 0 <= r < SCREEN_ROWS && 0 <= c < SCREEN_COLS
        ensures t.screen[r][c] == Picture(t)[r][c]
      {
        MovePictureAt(st, f, row, col, r, c);
      }
      PictureByCell(t.screen, t);
    } else {
      var r, c :| 0 <= r < ROWS && 1 <= c <= COLS && CoversCell(st.shape, st.form, st.row, st.col, r, c)
                  && st.field[r][c - 1].Locked?;
      MovePictureAt(st, f, row, col, r, c);
    }
  }

  // ------------------------------------------------------------------ locking a piece

  lemma LockedAt(st: State, r: nat, c: nat)
    requires Wf(st) && r < ROWS && c < COLS
    ensures LockedField(st)[r][c] ==
              if CoversCell(st.shape, st.form, st.row, st.col, r, c + 1) then Locked(st.shape) else st.field[r][c]
  {
  }

  predicate PieceRow(st: State, r: int) {
    0 <= r - st.row + 1 < 4 && RowUsed(st.shape, st.form, r - st.row + 1)
  }

  lemma LockedRows(st: State, r: nat)
    requires Wf(st) && r < ROWS
    ensures BlankRow(LockedField(st)[r]) <==> BlankRow(st.field[r]) && !PieceRow(st, r)
    ensures !PieceRow(st, r) ==> LockedField(st)[r] == st.field[r]
  {
    forall c | 0 <= c < COLS
      ensures LockedField(st)[r][c] ==
                if CoversCell(st.shape, st.form, st.row, st.col, r, c + 1) then Locked(st.shape) else st.field[r][c]
    {
      LockedAt(st, r, c);
    }
    if PieceRow(st, r) {
      var i: Index := r - st.row + 1;
      var j: Index :| Solid(st.shape, st.form, i, j);
      assert CoversCell(st.shape, st.form, st.row, st.col, r, st.col + j - 1);
      assert LockedField(st)[r][st.col + j - 2].Locked?;
    } else {
      assert LockedField(st)[r] == st.field[r];
    }
  }

  /** A piece that cannot fall rests on the floor or on the stack. */
  lemma RestsOn(st: State) returns (r: nat)
    requires Wf(st) && !Legal(st.field, st.shape, st.form, st.row + 1, st.col)
    ensures r < ROWS && PieceRow(st, r) && (r == ROWS - 1 || !BlankRow(st.field[r + 1]))
  {
    var i: Index, j: Index :| Solid(st.shape, st.form, i, j)
      && !(0 <= st.row + i < ROWS && 1 <= st.col + j - 1 <= COLS && st.field[st.row + i][st.col + j - 2].Vacant?);
    r := st.row + i - 1;
    assert RowUsed(st.shape, st.form, i);
  }

  lemma LockKeepsNoGap(st: State)
    requires Wf(st) && NoGap(st.field) && !Legal(st.field, st.shape, st.form, st.row + 1, st.col)
    ensures NoGap(LockedField(st))
  {
    var g := LockedField(st);
    var r := RestsOn(st);
    FormFacts(st.shape, st.form);
    forall a, b | 0 <= a < b < ROWS && BlankRow(g[b])
      ensures BlankRow(g[a])
    {
      LockedRows(st, a);
      LockedRows(st, b);
    }
  }

  /** A piece that locks over row 1 has all its cells in rows 0..4. */
  lemma LosingPieceIsHigh(st: State, r: nat)
    requires Wf(st) && 1 <= st.row && PieceRow(st, 1) && r < ROWS && PieceRow(st, r)
    ensures r <= LAST_UNSCANNED
  {
  }

  /** Locking and clearing: no gap, no full scanned row, and either the fold of the locked
      field with row 1 blank, or a losing lock that clears nothing at all. */
  lemma LockOutcome(st: State)
    requires Inv(st) && st.status == Playing && !Legal(st.field, st.shape, st.form, st.row + 1, st.col)
    ensures var g, c := LockedField(st), LockCleared(st);
      && NoGap(c.view.field) && NoFullScannedRow(c.view.field)
      && Fold(c.view.field, c.lines) == Settle(g, [])
      && (BlankRow(c.view.field[1]) <==> BlankRow(g[1]))
      && (!BlankRow(g[1]) ==> c == Cleared(View(g, st.screen), 0))
  {
    var g := LockedField(st);
    LockKeepsNoGap(st);
    if BlankRow(g[1]) {
      ClearIsSettle(View(g, st.screen));
    } else {
      LockedRows(st, 1);
      forall r | LAST_UNSCANNED < r < ROWS
        ensures !FullRow(g[r])
      {
        LockedRows(st, r);
        if PieceRow(st, r) {
          LosingPieceIsHigh(st, r);
        }
      }
      ClearMeaning(View(g, st.screen));
    }
  }

  /** Cells are conserved: a lock adds the four cells of the piece, less those it put on
      locked cells, and a cleared row takes 18 away. */
  lemma {:induction false} ClearTotal(v: View)
    requires IsView(v) && NoGap(v.field) && BlankRow(v.field[1])
    ensures Total(ClearLoop(v).view.field) + COLS * ClearLoop(v).lines == Total(v.field)
    decreases Total(v.field)
  {
    ScanRemovesLowest(v, ROWS - 1);
    var p := Scan(v, ROWS - 1);
    if p.again {
      var k :| LAST_UNSCANNED < k < ROWS && FullRow(v.field[k]) && p.view.field == Removed(v.field, k);
      RepeatRemovesOneRow(v);
      RemovedKeepsShape(v.field, k);
      ClearTotal(p.view);
    }
  }

  lemma LockedTotal(st: State)
    requires Wf(st)
    ensures Total(LockedField(st)) + OverlapTo(st.field, st.shape, st.form, st.row - 1, st.col - 2, 16)
         == Total(st.field) + 4
  {
    StampTotal(st.field, st.shape, st.form, st.row - 1, st.col - 2, Locked(st.shape), 16);
    FormFacts(st.shape, st.form);
  }

  lemma ClearedTotal(st: State)
    requires Inv(st) && st.status == Playing && !Legal(st.field, st.shape, st.form, st.row + 1, st.col)
    ensures Total(LockCleared(st).view.field) + COLS * LockCleared(st).lines == Total(LockedField(st))
  {
    LockKeepsNoGap(st);
    LockOutcome(st);
    if BlankRow(LockedField(st)[1]) {
      ClearTotal(View(LockedField(st), st.screen));
    }
  }

  lemma LockTotal(st: State)
    requires Inv(st) && st.status == Playing && !Legal(st.field, st.shape, st.form, st.row + 1, st.col)
    ensures Total(Settled(st).field) + COLS * LockCleared(st).lines + Settled(st).overlaps
         == Total(st.field) + st.overlaps + 4
  {
    LockedTotal(st);
    ClearedTotal(st);
  }

  /** The picture after a lock, its row redraws and the wall redraw. */
  lemma SettledPicture(st: State)
    requires Inv(st) && st.status == Playing && !st.smeared
    requires !Legal(st.field, st.shape, st.form, st.row + 1, st.col)
    ensures var t := Settled(st);
            forall r, c :: 0 <= r < SCREEN_ROWS && 0 <= c < SCREEN_COLS ==>
              t.screen[r][c] ==
                if CoversCell(st.nextShape, st.nextForm, PREVIEW_ROW, PREVIEW_COL, r, c)
                then Block(Color(st.nextShape)) else BackgroundGlyph(t.field, r, c)
  {
    var v := View(LockedField(st), st.screen);
    forall r, c | 0 <= r < ROWS && 1 <= c <= COLS
      ensures v.screen[r][c] == CellGlyph(v.field[r][c - 1])
    {
      PictureAt(st, r, c);
      LockedAt(st, r, c - 1);
    }
    ClearShows(v);
    var t := Settled(st);
    forall r, c | 0 <= r < SCREEN_ROWS && 0 <= c < SCREEN_COLS
      ensures t.screen[r][c] ==
                if CoversCell(st.nextShape, st.nextForm, PREVIEW_ROW, PREVIEW_COL, r, c)
                then Block(Color(st.nextShape)) else BackgroundGlyph(t.field, r, c)
    {
      PictureAt(st, r, c);
      if CoversCell(st.shape, st.form, st.row, st.col, r, c) {
        PieceInside(st.shape, st.form, st.row, st.col, r, c);
      }
      if r < ROWS && 1 <= c <= COLS {
        assert LockCleared(st).view.screen[r][c] == CellGlyph(t.field[r][c - 1]);
      } else {
        assert OutsideField(r, c);
        assert LockCleared(st).view.screen[r][c] == st.screen[r][c];
      }
    }
  }

  lemma SpawnPicture(t: State, shape: Shape, form: Form)
    requires Wf(t)
    requires forall r, c :: 0 <= r < SCREEN_ROWS && 0 <= c < SCREEN_COLS ==>
               t.screen[r][c] == if CoversCell(t.nextShape, t.nextForm, PREVIEW_ROW, PREVIEW_COL, r, c)
                                 then Block(Color(t.nextShape)) else BackgroundGlyph(t.field, r, c)
    ensures Spawn(t, shape, form).screen == Picture(Spawn(t, shape, form))
  {
    var u := Spawn(t, shape, form);
    forall r, c | 0 <= r < SCREEN_ROWS && 0 <= c < SCREEN_COLS
      ensures u.screen[r][c] == Picture(u)[r][c]
    {
      PictureAt(u, r, c);
      if CoversCell(u.shape, u.form, SPAWN_ROW, SPAWN_COL, r, c) {
        PieceInside(u.shape, u.form, SPAWN_ROW, SPAWN_COL, r, c);
      }
    }
    PictureByCell(u.screen, u);
  }

  /** A losing lock leaves piece and locked cells showing the same picture. */
  lemma LostPicture(st: State)
    requires Inv(st) && st.status == Playing && !st.smeared
    requires !Legal(st.field, st.shape, st.form, st.row + 1, st.col) && !BlankRow(Settled(st).field[1])
    ensures Settled(st).screen == Picture(Settled(st))
  {
    var t := Settled(st);
    LockOutcome(st);
    SettledPicture(st);
    forall r, c | 0 <= r < SCREEN_ROWS && 0 <= c < SCREEN_COLS
      ensures t.screen[r][c] == Picture(t)[r][c]
    {
      PictureAt(t, r, c);
      if CoversCell(st.shape, st.form, st.row, st.col, r, c) {
        PieceInside(st.shape, st.form, st.row, st.col, r, c);
        LockedAt(st, r, c - 1);
      }
    }
    PictureByCell(t.screen, t);
  }

  // -------------------------------------------------------------------- the invariant

  lemma MoveKeepsInv(st: State, f: Form, row: int, col: int)
    requires Inv(st) && st.status == Playing && row >= st.row
    ensures Inv(Move(st, f, row, col))
  {
    if Legal(st.field, st.shape, f, row, col) {
      LegalInBox(st.field, st.shape, f, row, col);
      if !st.smeared {
        MovePicture(st, f, row, col);
      }
    }
  }

  lemma HistoryGrows(ns: seq<nat>, n: nat)
    ensures Sum(ns + [n]) == Sum(ns) + n && SumPoints(ns + [n]) == SumPoints(ns) + Points(n)
  {
    assert (ns + [n])[..|ns|] == ns;
  }

  lemma FreeLockOverlapsNothing(st: State)
    requires Wf(st) && PieceFree(st)
    ensures OverlapTo(st.field, st.shape, st.form, st.row - 1, st.col - 2, 16) == 0
  {
    PieceFreeByCell(st);
    forall r, c | 0 <= r < ROWS && 0 <= c < COLS && Covers(st.shape, st.form, st.row - 1, st.col - 2, r, c)
      ensures st.field[r][c].Vacant?
    {
      assert CoversCell(st.shape, st.form, st.row, st.col, r, c + 1);
    }
    NoOverlap(st.field, st.shape, st.form, st.row - 1, st.col - 2, 16);
  }

  lemma LockPicture(st: State, shape: Shape, form: Form)
    requires Inv(st) && st.status == Playing && !st.smeared
    requires !Legal(st.field, st.shape, st.form, st.row + 1, st.col)
    ensures Gravity(st, shape, form).screen == Picture(Gravity(st, shape, form))
  {
    var t := Settled(st);
    if BlankRow(t.field[1]) {
      SettledPicture(st);
      SpawnPicture(t, shape, form);
    } else {
      LostPicture(st);
      assert Picture(t) == Picture(t.(status := Over));
    }
  }

  lemma LockKeepsBoard(st: State)
    requires Inv(st) && st.status == Playing && !Legal(st.field, st.shape, st.form, st.row + 1, st.col)
    ensures NoGap(Settled(st).field) && NoFullScannedRow(Settled(st).field)
    ensures Settled(st).lines == st.lines + [LockCleared(st).lines]
  {
    LockOutcome(st);
  }

  lemma LockKeepsAccounts(st: State)
    requires Inv(st) && st.status == Playing && !Legal(st.field, st.shape, st.form, st.row + 1, st.col)
    ensures var t := Settled(st);
      && t.scoreShown == t.score == SumPoints(t.lines)
      && Total(t.field) + COLS * Sum(t.lines) + t.overlaps == 4 * |t.lines|
  {
    LockTotal(st);
    HistoryGrows(st.lines, LockCleared(st).lines);
  }

  /** After a lock the piece is replaced, or the game is over; nothing else changes. */
  lemma GravityLocks(st: State, shape: Shape, form: Form)
    requires Wf(st) && st.status == Playing && !Legal(st.field, st.shape, st.form, st.row + 1, st.col)
    ensures var t, u := Gravity(st, shape, form), Settled(st);
      && t.field == u.field && t.lines == u.lines && t.overlaps == u.overlaps
      && t.score == u.score && t.scoreShown == u.scoreShown && t.smeared == st.smeared
      && (t.status == Over <==> !BlankRow(t.field[1]))
      && (if t.status == Over then t.row == st.row && t.clash == st.clash
          else t.row == SPAWN_ROW && (!t.clash ==> !st.clash && PieceFree(t)))
  {
  }

  lemma LockKeepsInv(st: State, shape: Shape, form: Form)
    requires Inv(st) && st.status == Playing && !Legal(st.field, st.shape, st.form, st.row + 1, st.col)
    ensures Inv(Gravity(st, shape, form))
    ensures Gravity(st, shape, form).lines == st.lines + [LockCleared(st).lines]
  {
    LockKeepsBoard(st);
    LockKeepsAccounts(st);
    GravityLocks(st, shape, form);
    if !st.smeared {
      LockPicture(st, shape, form);
    }
    if !st.clash {
      FreeLockOverlapsNothing(st);
    }
  }

  lemma RedrawKeepsInv(st: State)
    requires Inv(st)
    ensures Inv(PressKey(st, Redraw))
  {
    assert Picture(PressKey(st, Redraw)) == Picture(st);
  }

  /** Four of the keys try one move each, none of them upwards. */
  lemma KeyMoves(st: State, key: Key) returns (f: Form, row: int, col: int)
    requires Wf(st) && key in {Down, Left, Right, Rotate}
    ensures row >= st.row && PressKey(st, key) == Move(st, f, row, col)
  {
    f := if key == Rotate then (st.form + 1) % 4 else st.form;
    row := if key == Down || key == Rotate then st.row + 1 else st.row;
    col := if key == Left then st.col - 1 else if key == Right then st.col + 1 else st.col;
  }

  lemma KeyKeepsInv(st: State, key: Key)
    requires Inv(st) && st.status == Playing
    ensures Inv(PressKey(st, key))
  {
    if key == Redraw {
      RedrawKeepsInv(st);
    } else if key != Other {
      var f, row, col := KeyMoves(st, key);
      MoveKeepsInv(st, f, row, col);
    }
  }

  lemma GravityFalls(st: State, shape: Shape, form: Form)
    requires Wf(st) && Legal(st.field, st.shape, st.form, st.row + 1, st.col)
    ensures Gravity(st, shape, form) == Move(st, st.form, st.row + 1, st.col)
  {
  }

  lemma GravityKeepsInv(st: State, shape: Shape, form: Form)
    requires Inv(st) && st.status == Playing
    ensures Inv(Gravity(st, shape, form))
  {
    if Legal(st.field, st.shape, st.form, st.row + 1, st.col) {
      GravityFalls(st, shape, form);
      MoveKeepsInv(st, st.form, st.row + 1, st.col);
    } else {
      LockKeepsInv(st, shape, form);
    }
  }

  lemma StepKeepsInv(st: State, e: Event)
    requires Inv(st)
    ensures Inv(Step(st, e))
  {
    if st.status == Playing {
      match e
      case Press(key) => KeyKeepsInv(st, key);
      case Tick(shape, form) => GravityKeepsInv(st, shape, form);
    }
  }

  lemma StartInv(shape: Shape, form: Form, nextShape: Shape, nextForm: Form)
    ensures Inv(Start(shape, form, nextShape, nextForm))
  {
    var st := Start(shape, form, nextShape, nextForm);
    forall r, c | 0 <= r < SCREEN_ROWS && 0 <= c < SCREEN_COLS
      ensures st.screen[r][c] == Picture(st)[r][c]
    {
      PictureAt(st, r, c);
      if CoversCell(shape, form, SPAWN_ROW, SPAWN_COL, r, c) {
        PieceInside(shape, form, SPAWN_ROW, SPAWN_COL, r, c);
      }
    }
    PictureByCell(st.screen, st);
    forall r | 0 <= r < ROWS
      ensures !FullRow(st.field[r])
    {
      assert st.field[r][0].Vacant?;
    }
    VacantTotal(ROWS);
  }

  lemma {:induction false} VacantTotal(n: nat)
    ensures Total(VacantRows(n)) == 0
  {
    if n > 0 {
      VacantTotal(n - 1);
      assert VacantRows(n)[..n - 1] == VacantRows(n - 1);
      RowCountMeaning(VacantRow());
    }
  }

  /** Every run of keys and ticks from the start of a game stays inside the invariant. */
  lemma {:induction false} RunKeepsInv(st: State, es: seq<Event>)
    requires Inv(st)
    ensures Inv(Run(st, es))
  {
    if es != [] {
      RunKeepsInv(st, es[..|es| - 1]);
      StepKeepsInv(Run(st, es[..|es| - 1]), es[|es| - 1]);
    }
  }
}
