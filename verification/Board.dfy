/** The playfield, the picture of it on the terminal, and what clearing full rows does to
    both. Rows count from 0 at the top. The playfield is rows 0..22 of columns 1..18 of the
    24 x 30 board; a playfield row is a sequence of its 18 cells. */
module Board {
  import opened Blocks

  const ROWS := 23
  const COLS := 18
  const SCREEN_ROWS := 24
  const SCREEN_COLS := 30
  /** Rows 0..4 are never looked at for fullness. */
  const LAST_UNSCANNED := 4

  datatype Cell = Vacant | Locked(color: Shape)
  type Row = seq<Cell>
  type Field = seq<Row>

  datatype Glyph = Blank | Block(code: int)
  type Screen = seq<seq<Glyph>>

  const WHITE := 37

  function Color(c: int): int {
    match c
    case 0 => 35
    case 1 => 31
    case 2 => 31
    case 3 => 36
    case 4 => 36
    case 5 => 33
    case 6 => 34
    case _ => WHITE
  }

  /** No shape is white; L and J share a colour, Z and S share one, and no others do. */
  lemma ColoursOfShapes(s: Shape, t: Shape)
    ensures Color(s) != WHITE
    ensures Color(s) == Color(t) <==> s == t || {s, t} == {SHAPE_L, SHAPE_J} || {s, t} == {SHAPE_Z, SHAPE_S}
  {
    assert {1, 2} == {2, 1} && {3, 4} == {4, 3};
    if Color(s) == Color(t) && s != t {
      assert (s == 1 && t == 2) || (s == 2 && t == 1) || (s == 3 && t == 4) || (s == 4 && t == 3);
    }
  }

  function CellGlyph(c: Cell): Glyph {
    if c.Vacant? then Blank else Block(Color(c.color))
  }

  predicate Sized<T>(g: seq<seq<T>>, rows: nat, cols: nat) {
    |g| == rows && forall r :: 0 <= r < rows ==> |g[r]| == cols
  }

  predicate IsField(f: Field) { Sized(f, ROWS, COLS) }
  predicate IsScreen(p: Screen) { Sized(p, SCREEN_ROWS, SCREEN_COLS) }

  // ---------------------------------------------------------------- stamping a piece

  /** The piece with its 4x4 grid at (top, left) covers cell (r, c) with one of its
      first k grid positions. */
  predicate CoversBefore(s: Shape, f: Form, top: int, left: int, r: int, c: int, k: nat) {
    0 <= r - top < 4 && 0 <= c - left < 4 && Solid(s, f, r - top, c - left) && 4 * (r - top) + (c - left) < k
  }

  lemma CoversStep(s: Shape, f: Form, top: int, left: int, k: nat)
    requires 1 <= k <= 16
    ensures forall r, c ::
              CoversBefore(s, f, top, left, r, c, k) <==>
                CoversBefore(s, f, top, left, r, c, k - 1)
                || (Solid(s, f, RowOf(k - 1), ColOf(k - 1)) && r == top + RowOf(k - 1) && c == left + ColOf(k - 1))
  {
  }

  predicate Covers(s: Shape, f: Form, top: int, left: int, r: int, c: int) {
    0 <= r - top < 4 && 0 <= c - left < 4 && Solid(s, f, r - top, c - left)
  }

  predicate Fits(rows: nat, cols: nat, s: Shape, f: Form, top: int, left: int) {
    forall i: Index, j: Index :: Solid(s, f, i, j) ==> 0 <= top + i < rows && 0 <= left + j < cols
  }

  function Put<T>(g: seq<seq<T>>, r: nat, c: nat, v: T): seq<seq<T>>
    requires r < |g| && c < |g[r]|
  {
    g[r := g[r][c := v]]
  }

  /** The grid after the first k of the 16 positions of a piece are written with v. */
  function Stamp<T>(g: seq<seq<T>>, rows: nat, cols: nat, s: Shape, f: Form, top: int, left: int, v: T, k: nat)
    : (h: seq<seq<T>>)
    requires Sized(g, rows, cols) && Fits(rows, cols, s, f, top, left) && k <= 16
    ensures Sized(h, rows, cols)
    ensures forall r, c :: 0 <= r < rows && 0 <= c < cols ==>
              h[r][c] == if CoversBefore(s, f, top, left, r, c, k) then v else g[r][c]
  {
    if k == 0 then g
    else
      var h := Stamp(g, rows, cols, s, f, top, left, v, k - 1);
      var i: Index, j: Index := RowOf(k - 1), ColOf(k - 1);
      CoversStep(s, f, top, left, k);
      if Solid(s, f, i, j) then Put(h, top + i, left + j, v) else h
  }

  lemma StampNext<T>(g: seq<seq<T>>, rows: nat, cols: nat, s: Shape, f: Form, top: int, left: int, v: T,
                     k: nat, i: Index, j: Index)
    requires Sized(g, rows, cols) && Fits(rows, cols, s, f, top, left) && k < 16 && RowOf(k) == i && ColOf(k) == j
    ensures Stamp(g, rows, cols, s, f, top, left, v, k + 1)
         == var h := Stamp(g, rows, cols, s, f, top, left, v, k);
            if Solid(s, f, i, j) then Put(h, top + i, left + j, v) else h
  {
  }

  lemma Position(i: Index, j: Index)
    ensures 4 * i + j < 16 && RowOf(4 * i + j) == i && ColOf(4 * i + j) == j
  {
  }

  lemma StampStep<T>(g: seq<seq<T>>, rows: nat, cols: nat, s: Shape, f: Form, top: int, left: int, v: T,
                     i: Index, j: Index)
    requires Sized(g, rows, cols) && Fits(rows, cols, s, f, top, left)
    ensures var h := Stamp(g, rows, cols, s, f, top, left, v, 4 * i + j);
            Stamp(g, rows, cols, s, f, top, left, v, 4 * i + j + 1)
              == if Solid(s, f, i, j) then Put(h, top + i, left + j, v) else h
  {
    Position(i, j);
    StampNext(g, rows, cols, s, f, top, left, v, 4 * i + j, i, j);
  }

  // ------------------------------------------------------------------- counting cells

  function CountTo(r: Row, n: nat): nat
    requires n <= |r|
  {
    if n == 0 then 0 else CountTo(r, n - 1) + if r[n - 1].Vacant? then 0 else 1
  }

  predicate BlankRow(r: Row) { forall c :: 0 <= c < |r| ==> r[c].Vacant? }
  predicate FullRow(r: Row) { forall c :: 0 <= c < |r| ==> r[c].Locked? }

  /** The cell sum of a row is 0 exactly on blank rows and maximal exactly on full ones. */
  lemma {:induction false} CountMeaning(r: Row, n: nat)
    requires n <= |r|
    ensures 0 <= CountTo(r, n) <= n
    ensures CountTo(r, n) == 0 <==> BlankRow(r[..n])
    ensures CountTo(r, n) == n <==> FullRow(r[..n])
  {
    if n == 0 {
    } else {
      CountMeaning(r, n - 1);
      assert r[..n] == r[..n - 1] + [r[n - 1]];
      if BlankRow(r[..n]) {
        assert forall c :: 0 <= c < n - 1 ==> r[..n - 1][c] == r[..n][c];
      }
      if FullRow(r[..n]) {
        assert forall c :: 0 <= c < n - 1 ==> r[..n - 1][c] == r[..n][c];
      }
      assert r[..n][n - 1] == r[n - 1];
    }
  }

  lemma RowCountMeaning(r: Row)
    ensures CountTo(r, |r|) <= |r|
    ensures CountTo(r, |r|) == 0 <==> BlankRow(r)
    ensures CountTo(r, |r|) == |r| <==> FullRow(r)
  {
    CountMeaning(r, |r|);
    assert r[..|r|] == r;
  }

  function Total(f: Field): nat {
    if f == [] then 0 else Total(f[..|f| - 1]) + CountTo(f[|f| - 1], |f[|f| - 1]|)
  }

  lemma {:induction false} TotalAppend(f: Field, g: Field)
    ensures Total(f + g) == Total(f) + Total(g)
  {
    if g == [] {
      assert f + g == f;
    } else {
      var n := |g| - 1;
      assert (f + g)[..|f + g| - 1] == f + g[..n];
      TotalAppend(f, g[..n]);
    }
  }

  lemma TotalUpdate(f: Field, m: nat, r: Row)
    requires m < |f|
    ensures Total(f[m := r]) == Total(f) - CountTo(f[m], |f[m]|) + CountTo(r, |r|)
  {
    assert f == f[..m] + ([f[m]] + f[m + 1..]);
    assert f[m := r] == f[..m] + ([r] + f[m + 1..]);
    TotalAppend(f[..m], [f[m]] + f[m + 1..]);
    TotalAppend(f[..m], [r] + f[m + 1..]);
    TotalAppend([f[m]], f[m + 1..]);
    TotalAppend([r], f[m + 1..]);
    assert [f[m]][..0] == [] && [r][..0] == [];
  }

  lemma {:induction false} CountUpdate(r: Row, c: nat, v: Cell, n: nat)
    requires c < |r| && n <= |r|
    ensures CountTo(r[c := v], n) ==
              CountTo(r, n) + if c < n then (if v.Vacant? then 0 else 1) - (if r[c].Vacant? then 0 else 1) else 0
  {
    if n > 0 {
      CountUpdate(r, c, v, n - 1);
    }
  }

  /** How many of the first k positions of a piece lie on cells that are already locked. */
  function OverlapTo(g: Field, s: Shape, f: Form, top: int, left: int, k: nat): nat
    requires IsField(g) && Fits(ROWS, COLS, s, f, top, left) && k <= 16
  {
    if k == 0 then 0
    else
      var i: Index, j: Index := RowOf(k - 1), ColOf(k - 1);
      OverlapTo(g, s, f, top, left, k - 1)
      + if Solid(s, f, i, j) && g[top + i][left + j].Locked? then 1 else 0
  }

  lemma {:induction false} StampTotal(g: Field, s: Shape, f: Form, top: int, left: int, v: Cell, k: nat)
    requires IsField(g) && Fits(ROWS, COLS, s, f, top, left) && k <= 16 && v.Locked?
    ensures Total(Stamp(g, ROWS, COLS, s, f, top, left, v, k)) + OverlapTo(g, s, f, top, left, k)
         == Total(g) + SolidCount(s, f, k)
  {
    if k == 0 {
    } else {
      StampTotal(g, s, f, top, left, v, k - 1);
      var h := Stamp(g, ROWS, COLS, s, f, top, left, v, k - 1);
      var i: Index, j: Index := RowOf(k - 1), ColOf(k - 1);
      if Solid(s, f, i, j) {
        var r, c := top + i, left + j;
        assert !CoversBefore(s, f, top, left, r, c, k - 1);
        assert h[r][c] == g[r][c];
        CountUpdate(h[r], c, v, COLS);
        TotalUpdate(h, r, h[r][c := v]);
      }
    }
  }

  lemma {:induction false} NoOverlap(g: Field, s: Shape, f: Form, top: int, left: int, k: nat)
    requires IsField(g) && Fits(ROWS, COLS, s, f, top, left) && k <= 16
    requires forall r, c :: 0 <= r < ROWS && 0 <= c < COLS && Covers(s, f, top, left, r, c) ==> g[r][c].Vacant?
    ensures OverlapTo(g, s, f, top, left, k) == 0
  {
    if k > 0 {
      NoOverlap(g, s, f, top, left, k - 1);
      var i: Index, j: Index := RowOf(k - 1), ColOf(k - 1);
      assert Solid(s, f, i, j) ==> Covers(s, f, top, left, top + i, left + j);
    }
  }
}
