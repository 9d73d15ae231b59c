/** Statements about whole games: any sequence of keys and gravity ticks from a start. */
module GameRuns {
  import opened Blocks
  import opened Board
  import opened Clearing
  import opened Engine
  import opened Reachable

  /** As long as no piece has moved off locked cells since the last repaint, and in
      particular in every game without an overlapping spawn, the incrementally drawn
      terminal is cell for cell what the full repaint would draw. */
  lemma ScreenIsPicture(shape: Shape, form: Form, nextShape: Shape, nextForm: Form, es: seq<Event>)
    ensures var st := Run(Start(shape, form, nextShape, nextForm), es);
      && (!st.smeared || !st.clash ==> st.screen == Picture(st))
      && st.scoreShown == st.score
  {
    StartInv(shape, form, nextShape, nextForm);
    RunKeepsInv(Start(shape, form, nextShape, nextForm), es);
  }

  /** No blank row under an occupied one, no full row left in rows 5..22, and the game is
      over exactly when row 1 is occupied. */
  lemma StackIsSolid(shape: Shape, form: Form, nextShape: Shape, nextForm: Form, es: seq<Event>)
    ensures var st := Run(Start(shape, form, nextShape, nextForm), es);
      && (forall a, b :: 0 <= a < b < ROWS && BlankRow(st.field[b]) ==> BlankRow(st.field[a]))
      && (forall r :: 5 <= r <= 22 ==> !FullRow(st.field[r]))
      && (st.status == Over <==> exists c :: 0 <= c < COLS && st.field[1][c].Locked?)
  {
    StartInv(shape, form, nextShape, nextForm);
    RunKeepsInv(Start(shape, form, nextShape, nextForm), es);
  }

  /** Cells and points over a whole game. */
  lemma Accounts(shape: Shape, form: Form, nextShape: Shape, nextForm: Form, es: seq<Event>)
    ensures var st := Run(Start(shape, form, nextShape, nextForm), es);
      && Total(st.field) + st.overlaps == 4 * |st.lines| - 18 * Sum(st.lines)
      && (!st.clash ==> Total(st.field) == 4 * |st.lines| - 18 * Sum(st.lines))
      && st.score == SumPoints(st.lines)
  {
    StartInv(shape, form, nextShape, nextForm);
    RunKeepsInv(Start(shape, form, nextShape, nextForm), es);
  }

  /** A lock clears at most four rows more than were full before it; starting without a
      full row it scores 0, 10, 30, 40 or 50 points. */
  lemma LockClearsAtMostFour(st: State)
    requires Inv(st) && st.status == Playing && !Legal(st.field, st.shape, st.form, st.row + 1, st.col)
    ensures LockCleared(st).lines <= FullRows(st.field) + 4
    ensures FullRows(st.field) == 0 ==> Settled(st).score - st.score in {0, 10, 30, 40, 50}
  {
    LockOutcome(st);
    SettleLines(LockedField(st), []);
    forall r | 0 <= r < ROWS && !(st.row - 1 <= r < st.row + 3)
      ensures st.field[r] == LockedField(st)[r]
    {
      LockedRows(st, r);
    }
    FullRowsBand(st.field, LockedField(st), st.row - 1);
  }

  /** The lock that ends the game clears no row and scores no point. */
  lemma LosingLockClearsNothing(st: State, shape: Shape, form: Form)
    requires Inv(st) && st.status == Playing && Gravity(st, shape, form).status == Over
    ensures var t := Gravity(st, shape, form);
      t.field == LockedField(st) && t.line == 0 && t.score == st.score
  {
    assert !Legal(st.field, st.shape, st.form, st.row + 1, st.col);
    LockOutcome(st);
  }

  // ---------------------------------------------------------------------- every piece locks

  function Ticks(es: seq<Event>): nat {
    if es == [] then 0 else Ticks(es[..|es| - 1]) + if es[|es| - 1].Tick? then 1 else 0
  }

  lemma StepCountsLocks(st: State, e: Event)
    requires Wf(st)
    ensures |st.lines| <= |Step(st, e).lines|
    ensures st.status == Playing && |Step(st, e).lines| == |st.lines| ==>
              && Step(st, e).status == Playing
              && st.row + (if e.Tick? then 1 else 0) <= Step(st, e).row
  {
    if st.status == Playing {
      match e
      case Press(key) =>
        if key in {Down, Left, Right, Rotate} {
          var f, row, col := KeyMoves(st, key);
        }
      case Tick(shape, form) =>
        if Legal(st.field, st.shape, st.form, st.row + 1, st.col) {
          GravityFalls(st, shape, form);
        } else {
          GravityLocks(st, shape, form);
        }
    }
  }

  /** Without a lock every tick lowers the piece, whatever keys come between. */
  lemma {:induction false} TicksLower(st: State, es: seq<Event>)
    requires Inv(st)
    ensures |st.lines| <= |Run(st, es).lines|
    ensures st.status == Playing && |Run(st, es).lines| == |st.lines| ==>
              Run(st, es).status == Playing && st.row + Ticks(es) <= Run(st, es).row
  {
    if es != [] {
      var fore := es[..|es| - 1];
      TicksLower(st, fore);
      RunKeepsInv(st, fore);
      StepCountsLocks(Run(st, fore), es[|es| - 1]);
    }
  }

  /** A piece locks within 22 gravity ticks. */
  lemma LocksWithin22Ticks(st: State, es: seq<Event>)
    requires Inv(st) && st.status == Playing && Ticks(es) >= 22
    ensures |Run(st, es).lines| > |st.lines|
  {
    TicksLower(st, es);
    RunKeepsInv(st, es);
  }
}
