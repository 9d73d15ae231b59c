/** Clearing full rows: the repeated in-place passes of the game, the one bottom-up fold
    they stand for, and exactly when the two agree. */
module Clearing {
  import opened Blocks
  import opened Board

  datatype View = View(field: Field, screen: Screen)
  datatype Shifted = Shifted(view: View, stopped: bool)
  datatype Scanned = Scanned(view: View, lines: nat, again: bool)
  datatype Cleared = Cleared(view: View, lines: nat)

  function VacantRow(): (r: Row)
    ensures |r| == COLS && BlankRow(r)
  {
    seq(COLS, _ => Vacant)
  }

  predicate IsView(v: View) { IsField(v.field) && IsScreen(v.screen) }

  function PaintedRow(line: seq<Glyph>, row: Row): (r: seq<Glyph>)
    requires |line| == SCREEN_COLS && |row| == COLS
    ensures |r| == SCREEN_COLS
  {
    seq(SCREEN_COLS, c requires 0 <= c < SCREEN_COLS => if 1 <= c <= COLS then CellGlyph(row[c - 1]) else line[c])
  }

  /** Row m of field and screen become row `row`. */
  function SetRow(v: View, m: nat, row: Row): (w: View)
    requires IsView(v) && m < ROWS && |row| == COLS
    ensures IsView(w)
  {
    View(v.field[m := row], v.screen[m := PaintedRow(v.screen[m], row)])
  }

  /** Moving the rows above m down by one, from row m upwards, until a blank row has been
      moved or row 1 has. Row 1 itself is never written. */
  function Shift(v: View, m: nat): (s: Shifted)
    requires IsView(v) && m < ROWS
    ensures IsView(s.view)
    decreases m
  {
    if m <= 1 then Shifted(v, false)
    else
      var w := SetRow(v, m, v.field[m - 1]);
      if BlankRow(v.field[m - 1]) then Shifted(w, true) else Shift(w, m - 1)
  }

  /** One pass, upwards from row i. It ends at a blank row, at row 4, or after a removal
      whose shift met a blank row; only in the last case another pass is asked for. */
  function Scan(v: View, i: nat): (s: Scanned)
    requires IsView(v) && i < ROWS
    ensures IsView(s.view)
    decreases i
  {
    if i <= LAST_UNSCANNED || BlankRow(v.field[i]) then Scanned(v, 0, false)
    else if FullRow(v.field[i]) then
      var moved := Shift(SetRow(v, i, VacantRow()), i);
      if moved.stopped then Scanned(moved.view, 1, true)
      else var rest := Scan(moved.view, i - 1); Scanned(rest.view, rest.lines + 1, rest.again)
    else Scan(v, i - 1)
  }

  /** Passes until none asks for another. */
  function ClearLoop(v: View): (c: Cleared)
    requires IsView(v)
    ensures IsView(c.view)
    decreases Total(v.field)
  {
    var p := Scan(v, ROWS - 1);
    if p.again then
      RepeatRemovesOneRow(v);
      var rest := ClearLoop(p.view);
      Cleared(rest.view, p.lines + rest.lines)
    else Cleared(p.view, p.lines)
  }

  // -------------------------------------------------------------- the loop terminates

  lemma {:induction false} ShiftTotal(v: View, m: nat)
    requires IsView(v) && m < ROWS
    ensures Shift(v, m).stopped ==> Total(Shift(v, m).view.field) == Total(v.field) - CountTo(v.field[m], COLS)
    ensures Shift(v, m).stopped <==> exists k :: 1 <= k < m && BlankRow(v.field[k])
    ensures forall r :: (r <= 1 || m < r < ROWS) && 0 <= r ==> Shift(v, m).view.field[r] == v.field[r]
    ensures !Shift(v, m).stopped ==>
              forall r :: 2 <= r <= m ==> Shift(v, m).view.field[r] == v.field[r - 1]
    decreases m
  {
    if m > 1 {
      var w := SetRow(v, m, v.field[m - 1]);
      TotalUpdate(v.field, m, v.field[m - 1]);
      RowCountMeaning(v.field[m - 1]);
      if BlankRow(v.field[m - 1]) {
      } else {
        ShiftTotal(w, m - 1);
        if k :| 1 <= k < m && BlankRow(v.field[k]) {
          assert w.field[k] == v.field[k];
        }
        if k :| 1 <= k < m - 1 && BlankRow(w.field[k]) {
          assert w.field[k] == v.field[k];
        }
      }
    }
  }

  lemma {:induction false} SolidStackAsksNoMore(v: View, i: nat)
    requires IsView(v) && i < ROWS
    requires forall k :: 1 <= k <= i ==> !BlankRow(v.field[k])
    ensures !Scan(v, i).again
    decreases i
  {
    if i <= LAST_UNSCANNED {
    } else if FullRow(v.field[i]) {
      var e := SetRow(v, i, VacantRow());
      ShiftTotal(e, i);
      SolidStackAsksNoMore(Shift(e, i).view, i - 1);
    } else {
      SolidStackAsksNoMore(v, i - 1);
    }
  }

  lemma {:induction false} AgainRemovesOneRow(v: View, i: nat)
    requires IsView(v) && i < ROWS && Scan(v, i).again
    ensures Scan(v, i).lines == 1
    ensures Total(Scan(v, i).view.field) == Total(v.field) - COLS
    decreases i
  {
    if FullRow(v.field[i]) {
      var e := SetRow(v, i, VacantRow());
      ShiftTotal(e, i);
      if !Shift(e, i).stopped {
        SolidStackAsksNoMore(Shift(e, i).view, i - 1);
      }
      TotalUpdate(v.field, i, VacantRow());
      RowCountMeaning(v.field[i]);
      RowCountMeaning(VacantRow());
    } else {
      AgainRemovesOneRow(v, i - 1);
    }
  }

  /** On any field, a pass that asks for another has removed one row, 18 cells. */
  lemma RepeatRemovesOneRow(v: View)
    requires IsView(v) && Scan(v, ROWS - 1).again
    ensures Scan(v, ROWS - 1).lines == 1
    ensures Total(Scan(v, ROWS - 1).view.field) == Total(v.field) - COLS
  {
    AgainRemovesOneRow(v, ROWS - 1);
  }

  // ------------------------------------------------------------------------- the fold

  /** No blank row lies below a row that is not blank. */
  predicate NoGap(f: Field)
    requires |f| == ROWS
  {
    forall a, b :: 0 <= a < b < ROWS && BlankRow(f[b]) ==> BlankRow(f[a])
  }

  predicate NoFullScannedRow(f: Field)
    requires |f| == ROWS
  {
    forall r :: LAST_UNSCANNED < r < ROWS ==> !FullRow(f[r])
  }

  function VacantRows(n: nat): Field { seq(n, _ => VacantRow()) }

  datatype Fold = Fold(field: Field, lines: nat)

  /** The rows `above` come down one after the other, the lowest first, onto the rows
      `landed`. A full row that would come to rest in row 5 or lower is dropped. */
  function Settle(above: Field, landed: Field): Fold
    requires |above| + |landed| <= ROWS
  {
    if above == [] then Fold(VacantRows(ROWS - |landed|) + landed, 0)
    else
      var n := |above| - 1;
      if FullRow(above[n]) && ROWS - 1 - |landed| > LAST_UNSCANNED
      then var rest := Settle(above[..n], landed); Fold(rest.field, rest.lines + 1)
      else Settle(above[..n], [above[n]] + landed)
  }

  function Removed(f: Field, i: nat): Field
    requires i < |f|
  {
    [VacantRow()] + f[..i] + f[i + 1..]
  }

  lemma BlankIsVacant(r: Row)
    requires |r| == COLS && BlankRow(r)
    ensures r == VacantRow()
  {
  }

  lemma {:induction false} ShiftRemoves(v: View, m: nat)
    requires IsView(v) && 2 <= m < ROWS && BlankRow(v.field[1])
    requires forall a, b :: 0 <= a < b < m && BlankRow(v.field[b]) ==> BlankRow(v.field[a])
    ensures Shift(v, m).stopped && Shift(v, m).view.field == Removed(v.field, m)
    decreases m
  {
    var f, w := v.field, SetRow(v, m, v.field[m - 1]);
    if BlankRow(f[m - 1]) {
      forall r | 0 <= r < ROWS
        ensures w.field[r] == Removed(f, m)[r]
      {
        if r < m { BlankIsVacant(f[r]); if 0 < r { BlankIsVacant(f[r - 1]); } }
      }
    } else {
      ShiftRemoves(w, m - 1);
      assert Removed(w.field, m - 1) == Removed(f, m);
    }
  }

  /** Leading vacant rows make no difference to the fold. */
  lemma {:induction false} SettlePad(above: Field, landed: Field)
    requires 1 + |above| + |landed| <= ROWS
    ensures Settle([VacantRow()] + above, landed) == Settle(above, landed)
  {
    var n := |above|;
    var up := [VacantRow()] + above;
    if n == 0 {
      assert !FullRow(VacantRow()) by { assert VacantRow()[0].Vacant?; }
      assert up[..0] == [];
      assert Settle(up, landed) == Settle(up[..0], [VacantRow()] + landed);
      assert VacantRows(ROWS - |landed| - 1) + ([VacantRow()] + landed) == VacantRows(ROWS - |landed|) + landed;
    } else {
      assert up[n] == above[n - 1] && up[..n] == [VacantRow()] + above[..n - 1];
      if FullRow(above[n - 1]) && ROWS - 1 - |landed| > LAST_UNSCANNED {
        SettlePad(above[..n - 1], landed);
      } else {
        SettlePad(above[..n - 1], [above[n - 1]] + landed);
      }
    }
  }

  /** Rows without anything to drop stay where they are. */
  lemma {:induction false} SettleKeeps(f: Field, i: nat)
    requires i < |f| == ROWS
    requires forall r :: LAST_UNSCANNED < r < ROWS && i < r ==> !FullRow(f[r])
    ensures Settle(f, []) == Settle(f[..i + 1], f[i + 1..])
    decreases ROWS - i
  {
    if i == ROWS - 1 {
      assert f[..ROWS] == f && f[ROWS..] == [];
    } else {
      SettleKeeps(f, i + 1);
      assert f[..i + 2][..i + 1] == f[..i + 1];
      assert [f[i + 1]] + f[i + 2..] == f[i + 1..];
    }
  }

  lemma {:induction false} SettleUpper(f: Field, i: nat)
    requires |f| == ROWS && i <= LAST_UNSCANNED + 1
    ensures Settle(f[..i], f[i..]) == Fold(f, 0)
  {
    if i == 0 {
      assert f[0..] == f && VacantRows(0) + f == f;
    } else {
      assert f[..i][..i - 1] == f[..i - 1];
      assert [f[i - 1]] + f[i..] == f[i - 1..];
      SettleUpper(f, i - 1);
    }
  }

  lemma SettleNothing(f: Field)
    requires |f| == ROWS && NoFullScannedRow(f)
    ensures Settle(f, []) == Fold(f, 0)
  {
    SettleKeeps(f, LAST_UNSCANNED);
    SettleUpper(f, LAST_UNSCANNED + 1);
  }

  lemma SettleRemoved(f: Field, i: nat)
    requires LAST_UNSCANNED < i < |f| == ROWS && FullRow(f[i])
    requires forall r :: i < r < ROWS ==> !FullRow(f[r])
    ensures Settle(f, []) == Fold(Settle(Removed(f, i), []).field, Settle(Removed(f, i), []).lines + 1)
  {
    var g := Removed(f, i);
    SettleKeeps(f, i);
    assert f[..i + 1][..i] == f[..i];
    assert Settle(f, []) == Fold(Settle(f[..i], f[i + 1..]).field, Settle(f[..i], f[i + 1..]).lines + 1);
    SettlePad(f[..i], f[i + 1..]);
    assert g[..i + 1] == [VacantRow()] + f[..i] && g[i + 1..] == f[i + 1..];
    forall r | LAST_UNSCANNED < r < ROWS && i < r
      ensures !FullRow(g[r])
    {
      assert g[r] == f[r];
    }
    SettleKeeps(g, i);
  }

  // ------------------------------------------------- the passes against the fold

  /** What one pass does to a stack without gaps whose row 1 is blank. */
  lemma {:induction false} ScanRemovesLowest(v: View, i: nat)
    requires IsView(v) && i < ROWS && NoGap(v.field) && BlankRow(v.field[1])
    requires forall r :: i < r < ROWS ==> !FullRow(v.field[r])
    ensures var p := Scan(v, i);
            if p.again
            then exists k :: && LAST_UNSCANNED < k <= i && FullRow(v.field[k])
                             && (forall r :: k < r < ROWS ==> !FullRow(v.field[r]))
                             && p.view.field == Removed(v.field, k) && p.lines == 1
            else p == Scanned(v, 0, false) && NoFullScannedRow(v.field)
    decreases i
  {
    var f := v.field;
    if i <= LAST_UNSCANNED {
    } else if BlankRow(f[i]) {
      forall r | LAST_UNSCANNED < r < ROWS
        ensures !FullRow(f[r])
      {
        if r <= i {
          assert BlankRow(f[r]);
          assert f[r][0].Vacant?;
        }
      }
    } else if FullRow(f[i]) {
      var e := SetRow(v, i, VacantRow());
      ShiftRemoves(e, i);
      assert Removed(e.field, i) == Removed(f, i);
    } else {
      ScanRemovesLowest(v, i - 1);
    }
  }

  lemma RemovedKeepsShape(f: Field, k: nat)
    requires IsField(f) && NoGap(f) && BlankRow(f[1]) && LAST_UNSCANNED < k < ROWS
    ensures IsField(Removed(f, k)) && NoGap(Removed(f, k)) && BlankRow(Removed(f, k)[1])
  {
    var g := Removed(f, k);
    assert forall r :: 0 <= r < ROWS ==> g[r] == if r == 0 then VacantRow() else if r <= k then f[r - 1] else f[r];
    assert BlankRow(f[0]);
    forall a, b | 0 <= a < b < ROWS && BlankRow(g[b])
      ensures BlankRow(g[a])
    {
      if a > 0 {
        var a', b' := if a <= k then a - 1 else a, if b <= k then b - 1 else b;
        assert g[a] == f[a'] && g[b] == f[b'] && a' < b';
      }
    }
  }

  lemma ClearGoesOn(v: View)
    requires IsView(v)
    ensures var p := Scan(v, ROWS - 1);
            if p.again then p.lines == 1 && ClearLoop(v) == Cleared(ClearLoop(p.view).view, 1 + ClearLoop(p.view).lines)
            else ClearLoop(v) == Cleared(p.view, p.lines)
  {
    if Scan(v, ROWS - 1).again { RepeatRemovesOneRow(v); }
  }

  lemma {:induction false} ClearIsSettle(v: View)
    requires IsView(v) && NoGap(v.field) && BlankRow(v.field[1])
    ensures var c := ClearLoop(v);
            && Fold(c.view.field, c.lines) == Settle(v.field, [])
            && NoGap(c.view.field) && BlankRow(c.view.field[1]) && NoFullScannedRow(c.view.field)
    decreases Total(v.field)
  {
    var p := Scan(v, ROWS - 1);
    ScanRemovesLowest(v, ROWS - 1);
    ClearGoesOn(v);
    if p.again {
      var k :| LAST_UNSCANNED < k < ROWS && FullRow(v.field[k])
               && (forall r :: k < r < ROWS ==> !FullRow(v.field[r])) && p.view.field == Removed(v.field, k);
      RemovedKeepsShape(v.field, k);
      RepeatRemovesOneRow(v);
      ClearIsSettle(p.view);
      SettleRemoved(v.field, k);
    } else {
      SettleNothing(v.field);
    }
  }

  lemma {:induction false} ScanNothing(v: View, i: nat)
    requires IsView(v) && i < ROWS && NoFullScannedRow(v.field)
    ensures Scan(v, i) == Scanned(v, 0, false)
    decreases i
  {
    if LAST_UNSCANNED < i {
      ScanNothing(v, i - 1);
    }
  }

  /** Rows 0 and 1 are out of reach of the passes. */
  lemma {:induction false} ScanKeepsTop(v: View, i: nat)
    requires IsView(v) && i < ROWS
    ensures Scan(v, i).view.field[0] == v.field[0] && Scan(v, i).view.field[1] == v.field[1]
    decreases i
  {
    if i <= LAST_UNSCANNED || BlankRow(v.field[i]) {
    } else if FullRow(v.field[i]) {
      var e := SetRow(v, i, VacantRow());
      ShiftTotal(e, i);
      if !Shift(e, i).stopped {
        ScanKeepsTop(Shift(e, i).view, i - 1);
      }
    } else {
      ScanKeepsTop(v, i - 1);
    }
  }

  lemma {:induction false} ClearKeepsTop(v: View)
    requires IsView(v)
    ensures ClearLoop(v).view.field[0] == v.field[0] && ClearLoop(v).view.field[1] == v.field[1]
    decreases Total(v.field)
  {
    ScanKeepsTop(v, ROWS - 1);
    if Scan(v, ROWS - 1).again {
      RepeatRemovesOneRow(v);
      ClearKeepsTop(Scan(v, ROWS - 1).view);
    }
  }

  /** Once anything is dropped the fold has a vacant row 0, and row 1 is vacant or was row 0. */
  lemma {:induction false} SettleTop(above: Field, landed: Field)
    requires 1 <= |above| + |landed| <= ROWS
    ensures var s := Settle(above, landed);
            |s.field| == ROWS
            && (|above| + |landed| < ROWS + s.lines ==>
                  s.field[0] == VacantRow() && s.field[1] in {VacantRow(), (above + landed)[0]})
  {
    if above != [] {
      var n := |above| - 1;
      if FullRow(above[n]) && ROWS - 1 - |landed| > LAST_UNSCANNED {
        if n == 0 {
          assert above[..0] == [];
        } else {
          SettleTop(above[..n], landed);
        }
      } else {
        SettleTop(above[..n], [above[n]] + landed);
      }
    }
  }

  /** The passes mean the fold exactly when row 1 is blank or nothing is there to clear. */
  lemma ClearMeaning(v: View)
    requires IsView(v) && NoGap(v.field)
    ensures ClearLoop(v).view.field == Settle(v.field, []).field
        <==> BlankRow(v.field[1]) || NoFullScannedRow(v.field)
    ensures BlankRow(v.field[1]) || NoFullScannedRow(v.field) ==> ClearLoop(v).lines == Settle(v.field, []).lines
    ensures !BlankRow(v.field[1]) && NoFullScannedRow(v.field) ==> ClearLoop(v) == Cleared(v, 0)
  {
    var f := v.field;
    if BlankRow(f[1]) {
      ClearIsSettle(v);
    } else if NoFullScannedRow(f) {
      ScanNothing(v, ROWS - 1);
      SettleNothing(f);
    } else {
      var i := LowestFull(f, ROWS - 1);
      SettleRemoved(f, i);
      SettleTop(f, []);
      ClearKeepsTop(v);
      assert f + [] == f;
    }
  }

  lemma {:induction false} LowestFull(f: Field, i: nat) returns (k: nat)
    requires i < |f| == ROWS
    requires exists r :: LAST_UNSCANNED < r <= i && FullRow(f[r])
    ensures LAST_UNSCANNED < k <= i && FullRow(f[k])
    ensures forall r :: k < r <= i ==> !FullRow(f[r])
  {
    if FullRow(f[i]) { k := i; } else { k := LowestFull(f, i - 1); }
  }

  lemma {:induction false} ScanKeepsBelow(v: View, i: nat, r: nat)
    requires IsView(v) && i < r < ROWS
    ensures Scan(v, i).view.field[r] == v.field[r]
    decreases i
  {
    if i <= LAST_UNSCANNED || BlankRow(v.field[i]) {
    } else if FullRow(v.field[i]) {
      var e := SetRow(v, i, VacantRow());
      ShiftTotal(e, i);
      if !Shift(e, i).stopped {
        ScanKeepsBelow(Shift(e, i).view, i - 1, r);
      }
    } else {
      ScanKeepsBelow(v, i - 1, r);
    }
  }

  /** A stack that reaches row 0, with rows 21 and 22 full. */
  function TallStack(): (f: Field)
    ensures IsField(f) && NoGap(f) && !BlankRow(f[1]) && FullRow(f[21]) && FullRow(f[22])
  {
    var f: Field := seq(ROWS, r requires 0 <= r < ROWS =>
      seq(COLS, c requires 0 <= c < COLS => if 21 <= r || c == 0 then Locked(SHAPE_I) else Vacant));
    assert forall r :: 0 <= r < ROWS ==> f[r][0].Locked?;
    assert f[1][0].Locked?;
    f
  }

  /** With row 1 occupied the passes can leave a full row behind: the row that falls into
      the place of a removed one is not looked at again. */
  lemma TallStackKeepsFullRow(p: Screen)
    requires IsScreen(p)
    ensures var c := ClearLoop(View(TallStack(), p));
            c.lines >= 1 && FullRow(c.view.field[22])
  {
    var v := View(TallStack(), p);
    var e := SetRow(v, 22, VacantRow());
    ShiftTotal(e, 22);
    forall k | 1 <= k <= 22
      ensures !BlankRow(v.field[k])
    {
    }
    SolidStackAsksNoMore(v, 22);
    ScanKeepsBelow(Shift(e, 22).view, 21, 22);
  }

  // --------------------------------------------------------------- counting full rows

  function FullRows(f: Field): nat {
    if f == [] then 0 else FullRows(f[..|f| - 1]) + if FullRow(f[|f| - 1]) then 1 else 0
  }

  lemma {:induction false} SettleLines(above: Field, landed: Field)
    requires |above| + |landed| <= ROWS
    ensures Settle(above, landed).lines <= FullRows(above)
  {
    if above != [] {
      var n := |above| - 1;
      var drops := FullRow(above[n]) && ROWS - 1 - |landed| > LAST_UNSCANNED;
      SettleLines(above[..n], if drops then landed else [above[n]] + landed);
    }
  }

  /** Changing rows inside a band of four makes at most four more rows full. */
  lemma {:induction false} FullRowsBand(f: Field, g: Field, top: int)
    requires |f| == |g|
    requires forall r :: 0 <= r < |f| && !(top <= r < top + 4) ==> f[r] == g[r]
    ensures FullRows(g) <= FullRows(f) + (if |f| <= top then 0 else if |f| < top + 4 then |f| - top else 4)
  {
    if f != [] {
      FullRowsBand(f[..|f| - 1], g[..|g| - 1], top);
    }
  }

  // ---------------------------------------------------------------- the picture follows

  /** The terminal shows the playfield, apart from cells where something else is drawn. */
  predicate Shows(v: View)
    requires IsView(v)
  {
    forall r, c :: 0 <= r < ROWS && 1 <= c <= COLS ==> v.screen[r][c] == CellGlyph(v.field[r][c - 1])
  }

  predicate OutsideField(r: int, c: int) { r == ROWS || c < 1 || COLS < c }

  predicate SameOutside(p: Screen, q: Screen)
    requires IsScreen(p) && IsScreen(q)
  {
    forall r, c :: 0 <= r < SCREEN_ROWS && 0 <= c < SCREEN_COLS && OutsideField(r, c) ==> p[r][c] == q[r][c]
  }

  lemma {:induction false} ShiftShows(v: View, m: nat)
    requires IsView(v) && m < ROWS
    ensures Shows(v) ==> Shows(Shift(v, m).view)
    ensures SameOutside(v.screen, Shift(v, m).view.screen)
    decreases m
  {
    if 1 < m {
      ShiftShows(SetRow(v, m, v.field[m - 1]), m - 1);
    }
  }

  lemma {:induction false} ScanShows(v: View, i: nat)
    requires IsView(v) && i < ROWS
    ensures Shows(v) ==> Shows(Scan(v, i).view)
    ensures SameOutside(v.screen, Scan(v, i).view.screen)
    decreases i
  {
    if i <= LAST_UNSCANNED || BlankRow(v.field[i]) {
    } else if FullRow(v.field[i]) {
      var e := SetRow(v, i, VacantRow());
      ShiftShows(e, i);
      if !Shift(e, i).stopped {
        ScanShows(Shift(e, i).view, i - 1);
      }
    } else {
      ScanShows(v, i - 1);
    }
  }

  /** The redraws made while clearing keep the picture of the playfield right, cell for
      cell, and touch nothing else. */
  lemma {:induction false} ClearShows(v: View)
    requires IsView(v)
    ensures Shows(v) ==> Shows(ClearLoop(v).view)
    ensures SameOutside(v.screen, ClearLoop(v).view.screen)
    decreases Total(v.field)
  {
    ScanShows(v, ROWS - 1);
    if Scan(v, ROWS - 1).again {
      RepeatRemovesOneRow(v);
      ClearShows(Scan(v, ROWS - 1).view);
    }
  }
}
