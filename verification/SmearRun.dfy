/** A game in which the terminal goes wrong: five vertical I pieces pile up in column 9, the
    sixth is spawned on top of the pile, and moving it off blanks a locked cell. */
module SmearRun {
  import opened Blocks
  import opened Board
  import opened Clearing
  import opened Engine
  import opened Reachable

  /** n vertical I pieces stacked in column 9. */
  function Pile(n: nat): (g: Field)
    ensures IsField(g)
  {
    seq(ROWS, r requires 0 <= r < ROWS =>
      seq(COLS, c requires 0 <= c < COLS =>
        if c == SPAWN_COL - 1 && r >= ROWS - 4 * n then Locked(SHAPE_I) else Vacant))
  }

  /** The next I piece is on its way down onto the pile, and the terminal is right. */
  predicate OnItsWay(st: State, n: nat, row: int) {
    && Inv(st) && st.status == Playing && !st.smeared && st.field == Pile(n)
    && st.shape == SHAPE_I && st.form == 0 && st.row == row && st.col == SPAWN_COL
    && st.nextShape == SHAPE_I && st.nextForm == 0
  }

  /** A tick that draws a vertical I piece whenever it has to draw. */
  const DROP := Tick(SHAPE_I, 0)

  function Drops(k: nat): seq<Event> { seq(k, _ => DROP) }

  function Begin(): State { Start(SHAPE_I, 0, SHAPE_I, 0) }

  lemma Upright(i: Index, j: Index)
    ensures Solid(SHAPE_I, 0, i, j) <==> j == 1
  {
  }

  /** Where the vertical I piece may be: beside the pile, or above it. */
  lemma RoomForPiece(n: nat, row: int, col: int)
    requires 1 <= row <= ROWS - 3 && 1 <= col <= COLS
    ensures Legal(Pile(n), SHAPE_I, 0, row, col) <==> col != SPAWN_COL || row + 2 < ROWS - 4 * n
  {
    forall i: Index, j: Index | Solid(SHAPE_I, 0, i, j)
      ensures j == 1
    {
      Upright(i, j);
    }
    if col == SPAWN_COL && row + 2 >= ROWS - 4 * n {
      Upright(3, 1);
      assert Pile(n)[row + 3 - 1][col + 1 - 2].Locked?;
    }
  }

  lemma Fall(st: State, n: nat, row: int)
    requires OnItsWay(st, n, row) && 1 <= row && row + 3 < ROWS - 4 * n
    ensures OnItsWay(Step(st, DROP), n, row + 1)
  {
    StepKeepsInv(st, DROP);
    RoomForPiece(n, row, SPAWN_COL);
    RoomForPiece(n, row + 1, SPAWN_COL);
  }

  lemma Blocked(n: nat)
    requires n <= 4
    ensures !Legal(Pile(n), SHAPE_I, 0, ROWS - 2 - 4 * n, SPAWN_COL)
  {
    Upright(3, 1);
    assert n == 0 || Pile(n)[ROWS - 4 * n][SPAWN_COL - 1].Locked?;
  }

  lemma LockedPile(st: State, n: nat)
    requires OnItsWay(st, n, ROWS - 3 - 4 * n) && n <= 4
    ensures LockedField(st) == Pile(n + 1)
  {
    forall r, c | 0 <= r < ROWS && 0 <= c < COLS
      ensures LockedField(st)[r][c] == Pile(n + 1)[r][c]
    {
      LockedAt(st, r, c);
      if 0 <= r - st.row + 1 < 4 && 0 <= c + 1 - st.col + 1 < 4 {
        Upright(r - st.row + 1, c + 1 - st.col + 1);
      }
    }
    forall r | 0 <= r < ROWS
      ensures LockedField(st)[r] == Pile(n + 1)[r]
    {
    }
  }

  lemma PileClearsNothing(n: nat, p: Screen)
    requires IsScreen(p)
    ensures ClearLoop(View(Pile(n), p)) == Cleared(View(Pile(n), p), 0)
  {
    forall r | LAST_UNSCANNED < r < ROWS
      ensures !FullRow(Pile(n)[r])
    {
      assert Pile(n)[r][0].Vacant?;
    }
    ScanNothing(View(Pile(n), p), ROWS - 1);
  }

  lemma Land(st: State, n: nat)
    requires n <= 4 && OnItsWay(st, n, ROWS - 3 - 4 * n)
    ensures OnItsWay(Step(st, DROP), n + 1, SPAWN_ROW)
    ensures Step(st, DROP).clash <==> st.clash || !Legal(Pile(n + 1), SHAPE_I, 0, SPAWN_ROW, SPAWN_COL)
  {
    StepKeepsInv(st, DROP);
    Blocked(n);
    LockedPile(st, n);
    PileClearsNothing(n + 1, st.screen);
    assert BlankRow(Pile(n + 1)[1]);
  }

  /** k ticks into that game the next piece is in the given row above a pile of n. */
  predicate Reaches(k: nat, n: nat, row: int) { OnItsWay(Run(Begin(), Drops(k)), n, row) }

  lemma OneMoreEvent(st: State, es: seq<Event>, e: Event)
    requires Wf(st)
    ensures Run(st, es + [e]) == Step(Run(st, es), e)
  {
    assert (es + [e])[..|es|] == es;
  }

  lemma OneMoreDrop(k: nat)
    ensures Run(Begin(), Drops(k + 1)) == Step(Run(Begin(), Drops(k)), DROP)
  {
    assert Drops(k + 1) == Drops(k) + [DROP];
    OneMoreEvent(Begin(), Drops(k), DROP);
  }

  lemma FallsOnce(k: nat, n: nat, row: int)
    requires Reaches(k, n, row) && 1 <= row && row + 3 < ROWS - 4 * n
    ensures Reaches(k + 1, n, row + 1)
  {
    OneMoreDrop(k);
    Fall(Run(Begin(), Drops(k)), n, row);
  }

  lemma LandsOnce(k: nat, n: nat)
    requires n <= 4 && Reaches(k, n, ROWS - 3 - 4 * n)
    ensures Reaches(k + 1, n + 1, SPAWN_ROW)
    ensures n == 4 ==> Run(Begin(), Drops(k + 1)).clash
  {
    OneMoreDrop(k);
    Land(Run(Begin(), Drops(k)), n);
    RoomForPiece(n + 1, SPAWN_ROW, SPAWN_COL);
  }

  lemma NoPieceYet()
    ensures Reaches(0, 0, SPAWN_ROW)
  {
    StartInv(SHAPE_I, 0, SHAPE_I, 0);
    forall r | 0 <= r < ROWS
      ensures VacantField()[r] == Pile(0)[r]
    {
      assert BlankRow(VacantField()[r]);
    }
  }

  /** The pieces land after 20, 36, 48, 56 and 60 ticks. */
  function PileAt(k: nat): nat {
    if k < 20 then 0 else if k < 36 then 1 else if k < 48 then 2 else if k < 56 then 3 else if k < 60 then 4 else 5
  }

  function RowAt(k: nat): int {
    SPAWN_ROW + k - if k < 20 then 0 else if k < 36 then 20 else if k < 48 then 36
                    else if k < 56 then 48 else if k < 60 then 56 else 60
  }

  lemma Where(k: nat)
    requires k < 60
    ensures 1 <= RowAt(k) && PileAt(k) <= 4
    ensures if RowAt(k) + 3 < ROWS - 4 * PileAt(k) then PileAt(k + 1) == PileAt(k) && RowAt(k + 1) == RowAt(k) + 1
            else PileAt(k + 1) == PileAt(k) + 1 && RowAt(k + 1) == SPAWN_ROW && RowAt(k) == ROWS - 3 - 4 * PileAt(k)
    ensures k == 59 ==> PileAt(k) == 4
  {
  }

  lemma NextDrop(k: nat, n: nat, row: int)
    requires n <= 4 && 1 <= row && Reaches(k, n, row) && row <= ROWS - 3 - 4 * n
    ensures if row + 3 < ROWS - 4 * n then Reaches(k + 1, n, row + 1) else Reaches(k + 1, n + 1, SPAWN_ROW)
    ensures n == 4 && row + 3 == ROWS - 4 * n ==> Run(Begin(), Drops(k + 1)).clash
  {
    if row + 3 < ROWS - 4 * n {
      FallsOnce(k, n, row);
    } else {
      LandsOnce(k, n);
    }
  }

  lemma {:induction false} PilesUp(k: nat)
    requires k <= 60
    ensures Reaches(k, PileAt(k), RowAt(k))
    ensures k == 60 ==> Run(Begin(), Drops(k)).clash
  {
    if k == 0 {
      NoPieceYet();
    } else {
      PilesUp(k - 1);
      Where(k - 1);
      NextDrop(k - 1, PileAt(k - 1), RowAt(k - 1));
    }
  }

  /** With a piece on the pile of five, "left" is executed and blanks the top of the pile. */
  lemma LeftBlanksPile(st: State)
    requires OnItsWay(st, 5, SPAWN_ROW)
    ensures !PieceFree(st) && st.screen == Picture(st)
    ensures var t := Step(st, Press(Left)); t.col == st.col - 1 && t.screen != Picture(t)
  {
    RoomForPiece(5, SPAWN_ROW, SPAWN_COL);
    RoomForPiece(5, SPAWN_ROW, SPAWN_COL - 1);
    MovePicture(st, 0, SPAWN_ROW, SPAWN_COL - 1);
  }

  /** After 60 ticks of that game a piece lies on locked cells, the terminal still right;
      the key "left" then leaves a terminal that is not what the repaint would draw. */
  lemma KeyLeftSmears()
    ensures var st := Run(Begin(), Drops(60));
      && st.status == Playing && st.clash && !PieceFree(st) && st.screen == Picture(st)
      && var t := Step(st, Press(Left));
         t == Run(Begin(), Drops(60) + [Press(Left)]) && t.col == st.col - 1 && t.screen != Picture(t)
  {
    PilesUp(60);
    LeftBlanksPile(Run(Begin(), Drops(60)));
    OneMoreEvent(Begin(), Drops(60), Press(Left));
  }
}
