/** What keys and ticks do to the cells of the piece, on the board and without reference to
    how the state machine computes it. */
module Moves {
  import opened Blocks
  import opened Board
  import opened Clearing
  import opened Engine
  import opened Reachable

  /** The moving piece covers cell (r, c) of the board. */
  predicate PieceAt(st: State, r: int, c: int) { CoversCell(st.shape, st.form, st.row, st.col, r, c) }

  predicate FreeCell(g: Field, r: int, c: int)
    requires IsField(g)
  {
    0 <= r <= 22 && 1 <= c <= 18 && g[r][c - 1].Vacant?
  }

  /** Every cell of the piece, moved by dr rows and dc columns, is inside and free. */
  ghost predicate CanShift(st: State, dr: int, dc: int)
    requires Wf(st)
  {
    forall r, c :: PieceAt(st, r, c) ==> FreeCell(st.field, r + dr, c + dc)
  }

  /** Row and column, in the piece's grid turned clockwise and one row lower, from which the
      cell at (r, c) comes. */
  function TurnedRow(st: State, c: int): int { st.row - 1 + (st.col + 2 - c) }
  function TurnedCol(st: State, r: int): int { st.col - 1 + (r - st.row) }

  /** Every cell of the piece, turned clockwise in its grid and one row lower, is inside and free. */
  ghost predicate CanTurn(st: State)
    requires Wf(st)
  {
    forall r, c :: PieceAt(st, TurnedRow(st, c), TurnedCol(st, r)) ==> FreeCell(st.field, r, c)
  }

  /** Nothing but the piece's place and form, and what the terminal shows, differs. */
  predicate OnlyPieceMoved(st: State, t: State) {
    && t.field == st.field && t.shape == st.shape && t.nextShape == st.nextShape && t.nextForm == st.nextForm
    && t.score == st.score && t.scoreShown == st.scoreShown && t.line == st.line && t.status == st.status
    && t.lines == st.lines && t.overlaps == st.overlaps && t.clash == st.clash
  }

  lemma LegalShift(st: State, dr: int, dc: int)
    requires Wf(st)
    ensures Legal(st.field, st.shape, st.form, st.row + dr, st.col + dc) <==> CanShift(st, dr, dc)
  {
    if CanShift(st, dr, dc) {
      forall i: Index, j: Index | Solid(st.shape, st.form, i, j)
        ensures FreeCell(st.field, st.row + dr + i - 1, st.col + dc + j - 1)
      {
        assert PieceAt(st, st.row + i - 1, st.col + j - 1);
      }
    } else {
      var r, c :| PieceAt(st, r, c) && !FreeCell(st.field, r + dr, c + dc);
      var i: Index, j: Index := r - st.row + 1, c - st.col + 1;
      assert Solid(st.shape, st.form, i, j);
    }
  }

  /** The piece has moved by dr rows and dc columns, cell by cell. */
  ghost predicate Shifted(st: State, t: State, dr: int, dc: int) {
    OnlyPieceMoved(st, t) && forall r, c :: PieceAt(t, r, c) <==> PieceAt(st, r - dr, c - dc)
  }

  predicate Placed(st: State, t: State, dr: int, dc: int) {
    OnlyPieceMoved(st, t) && t.form == st.form && t.row == st.row + dr && t.col == st.col + dc
  }

  lemma PlacedIsShifted(st: State, t: State, dr: int, dc: int)
    requires Placed(st, t, dr, dc)
    ensures Shifted(st, t, dr, dc)
  {
  }

  lemma MovePlaces(st: State, dr: int, dc: int)
    requires Wf(st)
    ensures var t := Move(st, st.form, st.row + dr, st.col + dc);
      if Legal(st.field, st.shape, st.form, st.row + dr, st.col + dc) then Placed(st, t, dr, dc) else t == st
  {
  }

  lemma LeftShifts(st: State)
    requires Wf(st) && st.status == Playing
    ensures var t := Step(st, Press(Left)); if CanShift(st, 0, -1) then Shifted(st, t, 0, -1) else t == st
  {
    var t := Step(st, Press(Left));
    LegalShift(st, 0, -1);
    MovePlaces(st, 0, -1);
    if CanShift(st, 0, -1) { PlacedIsShifted(st, t, 0, -1); }
  }

  lemma RightShifts(st: State)
    requires Wf(st) && st.status == Playing
    ensures var t := Step(st, Press(Right)); if CanShift(st, 0, 1) then Shifted(st, t, 0, 1) else t == st
  {
    var t := Step(st, Press(Right));
    LegalShift(st, 0, 1);
    MovePlaces(st, 0, 1);
    if CanShift(st, 0, 1) { PlacedIsShifted(st, t, 0, 1); }
  }

  lemma DownShifts(st: State)
    requires Wf(st) && st.status == Playing
    ensures var t := Step(st, Press(Down)); if CanShift(st, 1, 0) then Shifted(st, t, 1, 0) else t == st
  {
    var t := Step(st, Press(Down));
    LegalShift(st, 1, 0);
    MovePlaces(st, 1, 0);
    if CanShift(st, 1, 0) { PlacedIsShifted(st, t, 1, 0); }
  }

  /** A tick does what "down" does while the piece can fall. */
  lemma TickFalls(st: State, shape: Shape, form: Form)
    requires Wf(st) && st.status == Playing && CanShift(st, 1, 0)
    ensures Shifted(st, Step(st, Tick(shape, form)), 1, 0)
  {
    LegalShift(st, 1, 0);
    MovePlaces(st, 1, 0);
    PlacedIsShifted(st, Step(st, Tick(shape, form)), 1, 0);
  }

  /** The next form is this one turned clockwise, also from the last to the first. */
  lemma NextFormIsTurned(s: Shape, f: Form, i: Index, j: Index)
    ensures Solid(s, (f + 1) % 4, i, j) == Solid(s, f, 3 - j, i)
  {
    if f == 3 {
      FourTurns(s, i, j);
    }
  }

  lemma TurnedCell(st: State, r: int, c: int)
    requires Wf(st)
    ensures CoversCell(st.shape, (st.form + 1) % 4, st.row + 1, st.col, r, c)
       <==> PieceAt(st, TurnedRow(st, c), TurnedCol(st, r))
  {
    var i, j := r - st.row, c - st.col + 1;
    if 0 <= i < 4 && 0 <= j < 4 {
      NextFormIsTurned(st.shape, st.form, i, j);
    }
  }

  lemma TurnIsLegal(st: State)
    requires Wf(st) && CanTurn(st)
    ensures Legal(st.field, st.shape, (st.form + 1) % 4, st.row + 1, st.col)
  {
    var f: Form := (st.form + 1) % 4;
    forall i: Index, j: Index | Solid(st.shape, f, i, j)
      ensures FreeCell(st.field, st.row + 1 + i - 1, st.col + j - 1)
    {
      var r, c := st.row + i, st.col + j - 1;
      assert CoversCell(st.shape, f, st.row + 1, st.col, r, c);
      TurnedCell(st, r, c);
    }
  }

  lemma LegalTurn(st: State)
    requires Wf(st)
    ensures Legal(st.field, st.shape, (st.form + 1) % 4, st.row + 1, st.col) <==> CanTurn(st)
  {
    if CanTurn(st) {
      TurnIsLegal(st);
    } else {
      var r, c :| PieceAt(st, TurnedRow(st, c), TurnedCol(st, r)) && !FreeCell(st.field, r, c);
      TurnedCell(st, r, c);
      var i: Index, j: Index := r - st.row, c - st.col + 1;
      assert Solid(st.shape, (st.form + 1) % 4, i, j);
    }
  }

  /** The rotation key turns the piece clockwise in its grid, one row lower, when that fits. */
  lemma RotateTurns(st: State)
    requires Wf(st) && st.status == Playing
    ensures var t := Step(st, Press(Rotate));
      if CanTurn(st)
      then && OnlyPieceMoved(st, t)
           && forall r, c :: PieceAt(t, r, c) <==> PieceAt(st, TurnedRow(st, c), TurnedCol(st, r))
      else t == st
  {
    LegalTurn(st);
    if CanTurn(st) {
      var t := Step(st, Press(Rotate));
      forall r, c
        ensures PieceAt(t, r, c) <==> PieceAt(st, TurnedRow(st, c), TurnedCol(st, r))
      {
        TurnedCell(st, r, c);
      }
    }
  }

  /** The repaint key moves nothing and brings the terminal up to date; other keys, and any
      event once the game is over, do nothing at all. */
  lemma OtherEvents(st: State, e: Event)
    requires Inv(st)
    ensures st.status == Playing ==> Placed(st, Step(st, Press(Redraw)), 0, 0)
                                     && Step(st, Press(Redraw)).screen == Picture(Step(st, Press(Redraw)))
    ensures Step(st, Press(Other)) == st
    ensures st.status == Over ==> Step(st, e) == st
  {
    if st.status == Playing {
      assert Picture(Step(st, Press(Redraw))) == Picture(st);
    }
  }

  /** A piece that cannot fall is locked where it is, in its colour. */
  lemma TickLocks(st: State, r: nat, c: nat)
    requires Wf(st) && r < ROWS && 1 <= c <= COLS
    ensures LockedField(st)[r][c - 1] == if PieceAt(st, r, c) then Locked(st.shape) else st.field[r][c - 1]
  {
    LockedAt(st, r, c - 1);
  }

  /** After a lock that does not end the game the piece that was previewed appears, at the top
      and in the middle, and the one drawn now is previewed. */
  lemma PreviewAppears(st: State, shape: Shape, form: Form)
    requires Wf(st) && st.status == Playing && !CanShift(st, 1, 0)
    requires Step(st, Tick(shape, form)).status == Playing
    ensures var t := Step(st, Tick(shape, form));
      && t.nextShape == shape && t.nextForm == form && t.lines == st.lines + [t.line]
      && forall r, c :: PieceAt(t, r, c) <==> CoversCell(st.nextShape, st.nextForm, 1, 9, r, c)
  {
    LegalShift(st, 1, 0);
  }

  /** A game begins with an empty playfield and a piece at the top and in the middle. */
  lemma FirstPiece(shape: Shape, form: Form, nextShape: Shape, nextForm: Form, r: int, c: int)
    ensures var st := Start(shape, form, nextShape, nextForm);
      && (PieceAt(st, r, c) <==> CoversCell(shape, form, 1, 9, r, c))
      && (0 <= r <= 22 && 1 <= c <= 18 ==> st.field[r][c - 1].Vacant?)
      && st.score == 0 && st.status == Playing
  {
    if 0 <= r <= 22 && 1 <= c <= 18 {
      assert BlankRow(VacantField()[r]);
    }
  }

  /** What the repaint shows, cell by cell: the next piece in the panel, the piece, walls,
      floor and separator in white, and the locked cells. */
  lemma RepaintShows(st: State, r: nat, c: nat)
    requires Wf(st) && r < 24 && c < 30
    ensures var p := Picture(st)[r][c];
      if CoversCell(st.nextShape, st.nextForm, 3, 23, r, c) then p == Block(Color(st.nextShape))
      else if PieceAt(st, r, c) then p == Block(Color(st.shape))
      else if c == 0 || c == 19 || c == 29 || r == 23 || (r == 11 && c >= 20) then p == Block(37)
      else if 1 <= c <= 18 then
        match st.field[r][c - 1]
        case Vacant => p == Blank
        case Locked(s) => p == Block(Color(s))
      else p == Blank
  {
    PictureAt(st, r, c);
  }

  /** What clearing n rows is worth. */
  lemma PointsInNumbers()
    ensures Points(0) == 0 && Points(1) == 10 && Points(2) == 30 && Points(3) == 40 && Points(4) == 50
  {
  }

  /** A lock adds exactly these points, for the rows counted in `line`. */
  lemma LockScores(st: State, shape: Shape, form: Form)
    requires Wf(st) && st.status == Playing && !CanShift(st, 1, 0)
    ensures var t := Step(st, Tick(shape, form));
      && t.scoreShown == t.score && t.lines == st.lines + [t.line]
      && (t.line == 0 ==> t.score == st.score) && (t.line == 1 ==> t.score == st.score + 10)
      && (t.line == 2 ==> t.score == st.score + 30) && (t.line == 3 ==> t.score == st.score + 40)
      && (t.line == 4 ==> t.score == st.score + 50)
  {
    LegalShift(st, 1, 0);
    GravityLocks(st, shape, form);
  }
}
