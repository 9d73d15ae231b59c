/** The table of the 28 forms (7 shapes x 4 forms, each a 4x4 grid) and the routine
    that builds it in place by repeated clockwise rotation. */
module Blocks {

  type Shape = s: nat | s < 7
  type Form = f: nat | f < 4
  type Index = i: nat | i < 4

  const SHAPE_T: Shape := 0
  const SHAPE_L: Shape := 1
  const SHAPE_J: Shape := 2
  const SHAPE_Z: Shape := 3
  const SHAPE_S: Shape := 4
  const SHAPE_O: Shape := 5
  const SHAPE_I: Shape := 6

  /** The cells drawn by hand for form 0 of each shape. */
  predicate BaseSolid(s: Shape, i: Index, j: Index) {
    match s
    case 0 => (i == 1 && j <= 2) || (i == 2 && j == 1)
    case 1 => (1 <= i && j == 1) || (i == 3 && j == 2)
    case 2 => (1 <= i && j == 2) || (i == 3 && j == 1)
    case 3 => (i == 1 && j <= 1) || (i == 2 && 1 <= j <= 2)
    case 4 => (i == 1 && 1 <= j <= 2) || (i == 2 && j <= 1)
    case 5 => 1 <= i <= 2 && 1 <= j <= 2
    case _ => j == 1
  }

  /** The same, drawn: T, L, J, Z, S, O, I. */
  const DRAWN: seq<seq<string>> := [
    ["....", "###.", ".#..", "...."],
    ["....", ".#..", ".#..", ".##."],
    ["....", "..#.", "..#.", ".##."],
    ["....", "##..", ".##.", "...."],
    ["....", ".##.", "##..", "...."],
    ["....", ".##.", ".##.", "...."],
    [".#..", ".#..", ".#..", ".#.."]]

  lemma BaseFormsAsDrawn(s: Shape, i: Index, j: Index)
    ensures |DRAWN| == 7 && |DRAWN[s]| == 4 && |DRAWN[s][i]| == 4
    ensures BaseSolid(s, i, j) <==> DRAWN[s][i][j] == '#'
  {
  }

  /** Whether cell (i, j) of a form is a block: form f + 1 is form f turned clockwise. */
  predicate Solid(s: Shape, f: Form, i: Index, j: Index)
    decreases f
  {
    if f == 0 then BaseSolid(s, i, j) else Solid(s, f - 1, 3 - j, i)
  }

  predicate RowUsed(s: Shape, f: Form, i: Index) {
    Solid(s, f, i, 0) || Solid(s, f, i, 1) || Solid(s, f, i, 2) || Solid(s, f, i, 3)
  }

  /** The 16 positions of a form, taken row by row. */
  function RowOf(k: nat): Index
    requires k < 16
  {
    if k < 4 then 0 else if k < 8 then 1 else if k < 12 then 2 else 3
  }

  function ColOf(k: nat): Index
    requires k < 16
  {
    k - 4 * RowOf(k)
  }

  /** The number of solid cells among the first k of the 16, row by row. */
  function SolidCount(s: Shape, f: Form, k: nat): nat
    requires k <= 16
  {
    if k == 0 then 0
    else SolidCount(s, f, k - 1) + if Solid(s, f, RowOf(k - 1), ColOf(k - 1)) then 1 else 0
  }

  function RowCount(s: Shape, f: Form, i: Index): nat {
    (if Solid(s, f, i, 0) then 1 else 0) + (if Solid(s, f, i, 1) then 1 else 0)
    + (if Solid(s, f, i, 2) then 1 else 0) + (if Solid(s, f, i, 3) then 1 else 0)
  }

  lemma SolidCountRow(s: Shape, f: Form, i: Index)
    ensures SolidCount(s, f, 4 * i + 4) == SolidCount(s, f, 4 * i) + RowCount(s, f, i)
  {
    var k := 4 * i;
    assert RowOf(k) == RowOf(k + 1) == RowOf(k + 2) == RowOf(k + 3) == i;
    assert SolidCount(s, f, k + 1) == SolidCount(s, f, k) + if Solid(s, f, i, 0) then 1 else 0;
    assert SolidCount(s, f, k + 2) == SolidCount(s, f, k + 1) + if Solid(s, f, i, 1) then 1 else 0;
    assert SolidCount(s, f, k + 3) == SolidCount(s, f, k + 2) + if Solid(s, f, i, 2) then 1 else 0;
    assert SolidCount(s, f, k + 4) == SolidCount(s, f, k + 3) + if Solid(s, f, i, 3) then 1 else 0;
  }

  lemma FormRows(s: Shape, f: Form)
    ensures RowCount(s, f, 0) + RowCount(s, f, 1) + RowCount(s, f, 2) + RowCount(s, f, 3) == 4
    ensures forall a: Index, b: Index, c: Index ::
              a < b < c && RowUsed(s, f, a) && RowUsed(s, f, c) ==> RowUsed(s, f, b)
    ensures RowUsed(s, f, 1) || RowUsed(s, f, 2)
  {
    if f == 0 {
    } else if f == 1 {
      assert forall i: Index, j: Index :: Solid(s, 1, i, j) == BaseSolid(s, 3 - j, i);
    } else if f == 2 {
      assert forall i: Index, j: Index :: Solid(s, 1, i, j) == BaseSolid(s, 3 - j, i);
      assert forall i: Index, j: Index :: Solid(s, 2, i, j) == BaseSolid(s, 3 - i, 3 - j);
    } else {
      assert forall i: Index, j: Index :: Solid(s, 1, i, j) == BaseSolid(s, 3 - j, i);
      assert forall i: Index, j: Index :: Solid(s, 2, i, j) == BaseSolid(s, 3 - i, 3 - j);
      assert forall i: Index, j: Index :: Solid(s, 3, i, j) == BaseSolid(s, j, 3 - i);
    }
  }

  /** Every form has exactly four cells, in consecutive rows, never only in the top row. */
  lemma FormFacts(s: Shape, f: Form)
    ensures SolidCount(s, f, 16) == 4
    ensures forall a: Index, b: Index, c: Index ::
              a < b < c && RowUsed(s, f, a) && RowUsed(s, f, c) ==> RowUsed(s, f, b)
    ensures RowUsed(s, f, 1) || RowUsed(s, f, 2)
  {
    SolidCountRow(s, f, 0);
    SolidCountRow(s, f, 1);
    SolidCountRow(s, f, 2);
    SolidCountRow(s, f, 3);
    FormRows(s, f);
  }

  /** Turning a form four times gives it back, so the four forms are a whole cycle. */
  lemma FourTurns(s: Shape, i: Index, j: Index)
    ensures Solid(s, 3, 3 - j, i) == Solid(s, 0, i, j)
  {
    assert Solid(s, 3, 3 - j, i) == Solid(s, 2, 3 - i, 3 - j);
    assert Solid(s, 2, 3 - i, 3 - j) == Solid(s, 1, j, 3 - i);
  }

  predicate TableShape(t: array4<int>) {
    t.Length0 == 7 && t.Length1 == 4 && t.Length2 == 4 && t.Length3 == 4
  }

  /** The table holds exactly the 28 forms. */
  ghost predicate TableReady(t: array4<int>)
    requires TableShape(t)
    reads t
  {
    forall s: Shape, f: Form, i: Index, j: Index :: t[s, f, i, j] == if Solid(s, f, i, j) then 1 else 0
  }

  /** Before the build no base form may hold a stray cell: true of the zeroed static
      table, and of a table that is already built. */
  ghost predicate TableBuildable(t: array4<int>)
    requires TableShape(t)
    reads t
  {
    forall s: Shape, i: Index, j: Index :: !BaseSolid(s, i, j) ==> t[s, 0, i, j] == 0
  }

  /** The hand-written part of the build: form 0 of each shape. */
  method DrawBaseForms(t: array4<int>)
    requires TableShape(t)
    modifies t
    ensures forall s: Shape, i: Index, j: Index ::
              t[s, 0, i, j] == if BaseSolid(s, i, j) then 1 else old(t[s, 0, i, j])
  {
    for i := 0 to 3
      invariant forall s: Shape, p: Index, q: Index ::
                  t[s, 0, p, q] == if s == SHAPE_T && p == 1 && q < i then 1 else old(t[s, 0, p, q])
    {
      t[SHAPE_T, 0, 1, i] := 1;
    }
    t[SHAPE_T, 0, 2, 1] := 1;
    for i := 1 to 4
      invariant forall s: Shape, p: Index, q: Index ::
                  t[s, 0, p, q] == if (s == SHAPE_T && BaseSolid(s, p, q))
                                      || (s == SHAPE_L && 1 <= p < i && q == 1) then 1 else old(t[s, 0, p, q])
    {
      t[SHAPE_L, 0, i, 1] := 1;
    }
    t[SHAPE_L, 0, 3, 2] := 1;
    for i := 1 to 4
      invariant forall s: Shape, p: Index, q: Index ::
                  t[s, 0, p, q] == if (s <= SHAPE_L && BaseSolid(s, p, q))
                                      || (s == SHAPE_J && 1 <= p < i && q == 2) then 1 else old(t[s, 0, p, q])
    {
      t[SHAPE_J, 0, i, 2] := 1;
    }
    t[SHAPE_J, 0, 3, 1] := 1;
    DrawSquareForms(t);
    for i := 0 to 4
      invariant forall s: Shape, p: Index, q: Index ::
                  t[s, 0, p, q] == if (s <= SHAPE_O && BaseSolid(s, p, q))
                                      || (s == SHAPE_I && p < i && q == 1) then 1 else old(t[s, 0, p, q])
    {
      t[SHAPE_I, 0, i, 1] := 1;
    }
  }

  method DrawSquareForms(t: array4<int>)
    requires TableShape(t)
    modifies t
    ensures forall s: Shape, i: Index, j: Index ::
              t[s, 0, i, j] == if SHAPE_Z <= s <= SHAPE_O && BaseSolid(s, i, j) then 1 else old(t[s, 0, i, j])
  {
    for i := 0 to 2
      invariant forall s: Shape, p: Index, q: Index ::
                  t[s, 0, p, q] ==
                    if (s == SHAPE_Z && ((p == 1 && q < i) || (p == 2 && 1 <= q < i + 1)))
                       || (s == SHAPE_S && ((p == 1 && 1 <= q < i + 1) || (p == 2 && q < i)))
                       || (s == SHAPE_O && 1 <= p <= 2 && 1 <= q < i + 1)
                    then 1 else old(t[s, 0, p, q])
    {
      t[SHAPE_Z, 0, 1, i] := 1;
      t[SHAPE_Z, 0, 2, i + 1] := 1;
      t[SHAPE_S, 0, 1, i + 1] := 1;
      t[SHAPE_S, 0, 2, i] := 1;
      t[SHAPE_O, 0, 1, i + 1] := 1;
      t[SHAPE_O, 0, 2, i + 1] := 1;
    }
  }

  /** Writes form g = f + 1 of a shape as form f turned clockwise, through a copy of form f. */
  method Turn(t: array4<int>, s: Shape, f: Form, g: Form)
    requires TableShape(t) && g == f + 1
    modifies t
    ensures forall i: Index, j: Index :: t[s, g, i, j] == old(t[s, f, 3 - j, i])
    ensures forall s': Shape, f': Form, i: Index, j: Index ::
              (s', f') != (s, g) ==> t[s', f', i, j] == old(t[s', f', i, j])
  {
    var temp := new int[4, 4];
    for i := 0 to 4
      invariant unchanged(t)
      invariant forall p: Index, q: Index :: p < i ==> temp[p, q] == t[s, f, p, q]
    {
      for j := 0 to 4
        invariant unchanged(t)
        invariant forall p: Index, q: Index :: p < i || (p == i && q < j) ==> temp[p, q] == t[s, f, p, q]
      {
        temp[i, j] := t[s, f, i, j];
      }
    }
    for i := 0 to 4
      invariant forall p: Index, q: Index :: temp[p, q] == old(t[s, f, p, q])
      invariant forall p: Index, q: Index :: p < i ==> t[s, g, p, q] == temp[3 - q, p]
      invariant forall s': Shape, f': Form, p: Index, q: Index ::
                  (s', f') != (s, g) ==> t[s', f', p, q] == old(t[s', f', p, q])
    {
      for j := 0 to 4
        invariant forall p: Index, q: Index :: temp[p, q] == old(t[s, f, p, q])
        invariant forall p: Index, q: Index ::
                    p < i || (p == i && q < j) ==> t[s, g, p, q] == temp[3 - q, p]
        invariant forall s': Shape, f': Form, p: Index, q: Index ::
                    (s', f') != (s, g) ==> t[s', f', p, q] == old(t[s', f', p, q])
      {
        t[s, g, i, j] := temp[3 - j, i];
      }
    }
  }

  /** The whole build. It runs again at every game start on the one table that all
      players share; rebuilding a finished table leaves it as it is. */
  method InitBlockInfo(t: array4<int>)
    requires TableShape(t)
    modifies t
    ensures old(TableBuildable(t)) ==> TableReady(t)
    ensures old(TableReady(t)) ==>
              forall s: Shape, f: Form, i: Index, j: Index :: t[s, f, i, j] == old(t[s, f, i, j])
  {
    DrawBaseForms(t);
    for s := 0 to 7
      invariant forall s': Shape, i: Index, j: Index ::
                  t[s', 0, i, j] == if BaseSolid(s', i, j) then 1 else old(t[s', 0, i, j])
      invariant old(TableBuildable(t)) ==>
                  forall s': Shape, f: Form, i: Index, j: Index ::
                    s' < s ==> t[s', f, i, j] == if Solid(s', f, i, j) then 1 else 0
    {
      for f := 0 to 3
        invariant forall s': Shape, i: Index, j: Index ::
                    t[s', 0, i, j] == if BaseSolid(s', i, j) then 1 else old(t[s', 0, i, j])
        invariant old(TableBuildable(t)) ==>
                    forall s': Shape, f': Form, i: Index, j: Index ::
                      s' < s || (s' == s && f' <= f) ==>
                        t[s', f', i, j] == if Solid(s', f', i, j) then 1 else 0
      {
        Turn(t, s, f, f + 1);
      }
    }
  }

  /** A finished table is buildable again, hence the second promise of InitBlockInfo. */
  lemma ReadyIsBuildable(t: array4<int>)
    requires TableShape(t) && TableReady(t)
    ensures TableBuildable(t)
  {
    forall s: Shape, i: Index, j: Index | !BaseSolid(s, i, j)
      ensures t[s, 0, i, j] == 0
    {
      assert !Solid(s, 0, i, j);
    }
  }
}
