/** One player's game as a state machine: gravity ticks and keys, the playfield, the moving
    piece, the score and the incrementally drawn terminal picture. */
module Engine {
  import opened Blocks
  import opened Board
  import opened Clearing

  datatype Status = Playing | Over
  datatype Key = Down | Left | Right | Rotate | Redraw | Other
  /** A tick carries the two random draws it may need for the next piece. */
  datatype Event = Press(key: Key) | Tick(shape: Shape, form: Form)

  const SPAWN_ROW := 1
  const SPAWN_COL := 9
  const PREVIEW_ROW := 3
  const PREVIEW_COL := 23

  /** `row` and `col` are the terminal coordinates of the 4x4 grid of the piece: its cell
      (i, j) is cell (row + i - 1, col + j - 1) of the board. The last four components record
      the history of the game: the rows cleared by each lock, how many cells were locked
      twice over, whether a piece that overlapped locked cells has moved since the last full
      repaint, and whether any piece was spawned on locked cells. */
  datatype State = State(
    field: Field, screen: Screen, scoreShown: nat,
    shape: Shape, form: Form, row: int, col: int, nextShape: Shape, nextForm: Form,
    score: nat, line: nat, status: Status,
    lines: seq<nat>, overlaps: nat, smeared: bool, clash: bool)

  // ------------------------------------------------------------------------- drawing

  predicate InBox(s: Shape, f: Form, row: int, col: int) { Fits(ROWS, COLS, s, f, row - 1, col - 2) }
  predicate OnScreen(s: Shape, f: Form, row: int, col: int) { Fits(SCREEN_ROWS, SCREEN_COLS, s, f, row - 1, col - 1) }

  function DrawBlock(p: Screen, s: Shape, f: Form, row: int, col: int): (q: Screen)
    requires IsScreen(p) && OnScreen(s, f, row, col)
    ensures IsScreen(q)
  {
    Stamp(p, SCREEN_ROWS, SCREEN_COLS, s, f, row - 1, col - 1, Block(Color(s)), 16)
  }

  function DrawSpace(p: Screen, s: Shape, f: Form, row: int, col: int): (q: Screen)
    requires IsScreen(p) && OnScreen(s, f, row, col)
    ensures IsScreen(q)
  {
    Stamp(p, SCREEN_ROWS, SCREEN_COLS, s, f, row - 1, col - 1, Blank, 16)
  }

  predicate IsFrame(r: int, c: int) { c in {0, 19, 29} || r == ROWS || (r == 11 && 20 <= c) }

  function BackgroundGlyph(g: Field, r: nat, c: nat): Glyph
    requires IsField(g) && r < SCREEN_ROWS && c < SCREEN_COLS
  {
    if IsFrame(r, c) then Block(WHITE)
    else if 1 <= c <= COLS then CellGlyph(g[r][c - 1])
    else Blank
  }

  function Background(g: Field): (p: Screen)
    requires IsField(g)
    ensures IsScreen(p)
  {
    seq(SCREEN_ROWS, r requires 0 <= r < SCREEN_ROWS =>
      seq(SCREEN_COLS, c requires 0 <= c < SCREEN_COLS => BackgroundGlyph(g, r, c)))
  }

  function RedrawWalls(p: Screen): (q: Screen)
    requires IsScreen(p)
    ensures IsScreen(q)
  {
    seq(SCREEN_ROWS, r requires 0 <= r < SCREEN_ROWS =>
      seq(SCREEN_COLS, c requires 0 <= c < SCREEN_COLS => if c in {0, 19, 29} then Block(WHITE) else p[r][c]))
  }

  /** What the whole-screen repaint draws from the game state. */
  function Picture(st: State): (p: Screen)
    requires IsField(st.field) && InBox(st.shape, st.form, st.row, st.col)
    ensures IsScreen(p)
  {
    DrawBlock(DrawBlock(Background(st.field), st.shape, st.form, st.row, st.col),
              st.nextShape, st.nextForm, PREVIEW_ROW, PREVIEW_COL)
  }

  // --------------------------------------------------------------------------- rules

  predicate Legal(g: Field, s: Shape, f: Form, row: int, col: int)
    requires IsField(g)
  {
    forall i: Index, j: Index :: Solid(s, f, i, j) ==>
      0 <= row + i - 1 < ROWS && 1 <= col + j - 1 <= COLS && g[row + i - 1][col + j - 2].Vacant?
  }

  lemma LegalInBox(g: Field, s: Shape, f: Form, row: int, col: int)
    requires IsField(g) && Legal(g, s, f, row, col)
    ensures InBox(s, f, row, col) && row <= ROWS - 1
  {
    FormFacts(s, f);
    var i: Index := if RowUsed(s, f, 1) then 1 else 2;
    var j: Index :| Solid(s, f, i, j);
  }

  function Points(n: nat): nat { if 2 <= n then (n + 1) * 10 else n * 10 }

  predicate Wf(st: State) {
    && IsField(st.field) && IsScreen(st.screen)
    && InBox(st.shape, st.form, st.row, st.col)
  }

  /** No cell of the moving piece lies on a locked cell. */
  predicate PieceFree(st: State)
    requires Wf(st)
  {
    Legal(st.field, st.shape, st.form, st.row, st.col)
  }

  function Move(st: State, f: Form, row: int, col: int): (t: State)
    requires Wf(st)
    ensures Wf(t)
  {
    if Legal(st.field, st.shape, f, row, col) then
      st.(form := f, row := row, col := col,
          screen := DrawBlock(DrawSpace(st.screen, st.shape, st.form, st.row, st.col), st.shape, f, row, col),
          smeared := st.smeared || !PieceFree(st))
    else st
  }

  function LockedField(st: State): (g: Field)
    requires Wf(st)
    ensures IsField(g)
  {
    Stamp(st.field, ROWS, COLS, st.shape, st.form, st.row - 1, st.col - 2, Locked(st.shape), 16)
  }

  function LockCleared(st: State): (c: Cleared)
    requires Wf(st)
    ensures IsView(c.view)
  {
    ClearLoop(View(LockedField(st), st.screen))
  }

  /** The state after locking, clearing and scoring, before the next piece appears. */
  function Settled(st: State): (t: State)
    requires Wf(st)
    ensures Wf(t)
  {
    var c := LockCleared(st);
    st.(field := c.view.field, screen := RedrawWalls(c.view.screen), line := c.lines,
        score := st.score + Points(c.lines), scoreShown := st.score + Points(c.lines),
        lines := st.lines + [c.lines],
        overlaps := st.overlaps + OverlapTo(st.field, st.shape, st.form, st.row - 1, st.col - 2, 16))
  }

  function Spawn(st: State, shape: Shape, form: Form): (t: State)
    requires Wf(st)
    ensures Wf(t)
  {
    var p := DrawSpace(st.screen, st.nextShape, st.nextForm, PREVIEW_ROW, PREVIEW_COL);
    var q := DrawBlock(p, shape, form, PREVIEW_ROW, PREVIEW_COL);
    st.(shape := st.nextShape, form := st.nextForm, nextShape := shape, nextForm := form,
        row := SPAWN_ROW, col := SPAWN_COL,
        screen := DrawBlock(q, st.nextShape, st.nextForm, SPAWN_ROW, SPAWN_COL),
        clash := st.clash || !Legal(st.field, st.nextShape, st.nextForm, SPAWN_ROW, SPAWN_COL))
  }

  /** One gravity tick: fall by one row, or lock. */
  function Gravity(st: State, shape: Shape, form: Form): (t: State)
    requires Wf(st)
    ensures Wf(t)
  {
    if Legal(st.field, st.shape, st.form, st.row + 1, st.col) then Move(st, st.form, st.row + 1, st.col)
    else
      var t := Settled(st);
      if BlankRow(t.field[1]) then Spawn(t, shape, form) else t.(status := Over)
  }

  function PressKey(st: State, key: Key): (t: State)
    requires Wf(st)
    ensures Wf(t)
  {
    match key
    case Down => Move(st, st.form, st.row + 1, st.col)
    case Left => Move(st, st.form, st.row, st.col - 1)
    case Right => Move(st, st.form, st.row, st.col + 1)
    case Rotate => Move(st, (st.form + 1) % 4, st.row + 1, st.col)
    case Redraw => st.(screen := Picture(st), scoreShown := st.score, smeared := false)
    case Other => st
  }

  /** Only a playing game reacts. */
  function Step(st: State, e: Event): (t: State)
    requires Wf(st)
    ensures Wf(t)
  {
    if st.status != Playing then st
    else match e
      case Press(key) => PressKey(st, key)
      case Tick(shape, form) => Gravity(st, shape, form)
  }

  function Run(st: State, es: seq<Event>): (t: State)
    requires Wf(st)
    ensures Wf(t)
  {
    if es == [] then st else Step(Run(st, es[..|es| - 1]), es[|es| - 1])
  }

  function VacantField(): (g: Field)
    ensures IsField(g) && forall r :: 0 <= r < ROWS ==> BlankRow(g[r])
  {
    VacantRows(ROWS)
  }

  function Start(shape: Shape, form: Form, nextShape: Shape, nextForm: Form): (st: State)
    ensures Wf(st)
  {
    var p := DrawBlock(Background(VacantField()), nextShape, nextForm, PREVIEW_ROW, PREVIEW_COL);
    State(VacantField(), DrawBlock(p, shape, form, SPAWN_ROW, SPAWN_COL), 0,
          shape, form, SPAWN_ROW, SPAWN_COL, nextShape, nextForm, 0, 0, Playing, [], 0, false, false)
  }

  // ------------------------------------------------------------------------- history

  function Sum(ns: seq<nat>): nat { if ns == [] then 0 else Sum(ns[..|ns| - 1]) + ns[|ns| - 1] }
  function SumPoints(ns: seq<nat>): nat { if ns == [] then 0 else SumPoints(ns[..|ns| - 1]) + Points(ns[|ns| - 1]) }

  /** Everything that holds in every reachable state of a game. */
  predicate Inv(st: State) {
    && Wf(st)
    && 1 <= st.row <= ROWS - 1
    && NoGap(st.field)
    && NoFullScannedRow(st.field)
    && (st.status == Over <==> !BlankRow(st.field[1]))
    && (!st.smeared ==> st.screen == Picture(st))
    && st.scoreShown == st.score == SumPoints(st.lines)
    && Total(st.field) + COLS * Sum(st.lines) + st.overlaps == 4 * |st.lines|
    && (!st.clash ==> !st.smeared && st.overlaps == 0 && (st.status == Playing ==> PieceFree(st)))
  }
}
