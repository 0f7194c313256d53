/** The 9x9 number grid shared by the puzzle generator and the game session.
    A cell holds 0 (empty) or a digit 1..9; a unit is a row, a column or a
    3x3 box, and no unit may hold the same digit twice. */
module Sudoku {

  type Grid = seq<seq<int>>

  /** No two positions of the sequence hold the same element. */
  predicate Distinct<T(==)>(a: seq<T>) {
    forall i, j :: 0 <= i < |a| && 0 <= j < |a| && i != j ==> a[i] != a[j]
  }

  predicate IsGrid(g: Grid) {
    |g| == 9 && forall r :: 0 <= r < 9 ==> |g[r]| == 9
  }

  predicate InRange(r: int, c: int) {
    0 <= r < 9 && 0 <= c < 9
  }

  function EmptyGrid(): (g: Grid)
    ensures IsGrid(g)
    ensures forall r, c :: InRange(r, c) ==> g[r][c] == 0
  {
    seq(9, _ => seq(9, _ => 0))
  }

  /** The grid with cell (r, c) replaced by v. */
  function Set(g: Grid, r: int, c: int, v: int): (h: Grid)
    requires IsGrid(g) && InRange(r, c)
    ensures IsGrid(h)
    ensures forall i, j :: InRange(i, j) ==> h[i][j] == if i == r && j == c then v else g[i][j]
  {
    g[r := g[r][c := v]]
  }

  /** Two grids with the same cells are equal. */
  lemma GridExt(g: Grid, h: Grid)
    requires IsGrid(g) && IsGrid(h) && forall r, c :: InRange(r, c) ==> g[r][c] == h[r][c]
    ensures g == h
  {
    forall r | 0 <= r < 9
      ensures g[r] == h[r]
    {
      assert forall c :: 0 <= c < 9 ==> g[r][c] == h[r][c];
    }
  }

  /** Writing back the old value of a cell undoes a write to it. */
  lemma SetRestore(g: Grid, r: int, c: int, v: int)
    requires IsGrid(g) && InRange(r, c)
    ensures Set(Set(g, r, c, v), r, c, g[r][c]) == g
    ensures Set(g, r, c, g[r][c]) == g
  {
    var h := Set(Set(g, r, c, v), r, c, g[r][c]);
    forall i | 0 <= i < 9
      ensures h[i] == g[i]
    {
      assert |h[i]| == |g[i]| && forall j :: 0 <= j < 9 ==> h[i][j] == g[i][j];
    }
    var h' := Set(g, r, c, g[r][c]);
    forall i | 0 <= i < 9
      ensures h'[i] == g[i]
    {
      assert |h'[i]| == |g[i]| && forall j :: 0 <= j < 9 ==> h'[i][j] == g[i][j];
    }
  }

  /** First row (or column) of the box holding row (or column) i: floor(i/3)*3. */
  function BoxStart(i: int): int
    requires 0 <= i < 9
  {
    i / 3 * 3
  }

  predicate SameBox(r1: int, c1: int, r2: int, c2: int)
    requires InRange(r1, c1) && InRange(r2, c2)
  {
    r1 / 3 == r2 / 3 && c1 / 3 == c2 / 3
  }

  /** (r2, c2) shares a row, a column or a box with (r1, c1). */
  predicate InUnit(r1: int, c1: int, r2: int, c2: int)
    requires InRange(r1, c1) && InRange(r2, c2)
  {
    r1 == r2 || c1 == c2 || SameBox(r1, c1, r2, c2)
  }

  predicate RowFree(g: Grid, row: int, num: int)
    requires IsGrid(g) && 0 <= row < 9
  {
    forall c :: 0 <= c < 9 ==> g[row][c] != num
  }

  predicate ColFree(g: Grid, col: int, num: int)
    requires IsGrid(g) && 0 <= col < 9
  {
    forall r :: 0 <= r < 9 ==> g[r][col] != num
  }

  predicate BoxFree(g: Grid, row: int, col: int, num: int)
    requires IsGrid(g) && InRange(row, col)
  {
    forall r, c :: BoxStart(row) <= r < BoxStart(row) + 3 && BoxStart(col) <= c < BoxStart(col) + 3 ==> g[r][c] != num
  }

  /** num may be placed at (row, col): it occurs nowhere in the row, the
      column or the box (the cell itself included). */
  predicate Legal(g: Grid, row: int, col: int, num: int)
    requires IsGrid(g) && InRange(row, col)
  {
    RowFree(g, row, num) && ColFree(g, col, num) && BoxFree(g, row, col, num)
  }

  /** No unit holds a non-zero value twice. */
  ghost predicate NoConflict(g: Grid)
    requires IsGrid(g)
  {
    forall r1, c1, r2, c2 ::
      (InRange(r1, c1) && InRange(r2, c2) && (r1 != r2 || c1 != c2) &&
       InUnit(r1, c1, r2, c2) && g[r1][c1] != 0) ==> g[r1][c1] != g[r2][c2]
  }

  ghost predicate Digits(g: Grid)
    requires IsGrid(g)
  {
    forall r, c :: InRange(r, c) ==> 0 <= g[r][c] <= 9
  }

  /** A well-formed partial grid: cells in 0..9 and no unit conflict. */
  ghost predicate Consistent(g: Grid) {
    IsGrid(g) && Digits(g) && NoConflict(g)
  }

  ghost predicate Full(g: Grid)
    requires IsGrid(g)
  {
    forall r, c :: InRange(r, c) ==> g[r][c] != 0
  }

  /** A completed Sudoku. */
  ghost predicate IsSolved(g: Grid) {
    Consistent(g) && Full(g)
  }

  /** s agrees with every non-zero cell of t. */
  ghost predicate Extends(s: Grid, t: Grid) {
    IsGrid(s) && IsGrid(t) && forall r, c :: InRange(r, c) && t[r][c] != 0 ==> s[r][c] == t[r][c]
  }

  lemma ExtendsTrans(a: Grid, b: Grid, c: Grid)
    requires Extends(a, b) && Extends(b, c)
    ensures Extends(a, c)
  {
  }

  ghost predicate HasCompletion(t: Grid) {
    exists s :: IsSolved(s) && Extends(s, t)
  }

  /** isValid / isValidInGrid: the row scan, the column scan and the box scan,
      each stopping at the first occurrence of num. */
  method IsValidInGrid(g: Grid, row: int, col: int, num: int) returns (b: bool)
    requires IsGrid(g) && InRange(row, col)
    ensures b == Legal(g, row, col, num)
  {
    for c := 0 to 9
      invariant forall j :: 0 <= j < c ==> g[row][j] != num
    {
      if g[row][c] == num { return false; }
    }
    for r := 0 to 9
      invariant forall i :: 0 <= i < r ==> g[i][col] != num
    {
      if g[r][col] == num { return false; }
    }
    var boxRow := row / 3 * 3;
    var boxCol := col / 3 * 3;
    for r := boxRow to boxRow + 3
      invariant forall i, j :: boxRow <= i < r && boxCol <= j < boxCol + 3 ==> g[i][j] != num
    {
      for c := boxCol to boxCol + 3
        invariant forall j :: boxCol <= j < c ==> g[r][j] != num
      {
        if g[r][c] == num { return false; }
      }
    }
    return true;
  }

  /** The three scans together say exactly that num is absent from every
      cell sharing a unit with (row, col). */
  lemma LegalIffUnitFree(g: Grid, row: int, col: int, num: int)
    requires IsGrid(g) && InRange(row, col)
    ensures Legal(g, row, col, num) <==>
      forall r, c :: InRange(r, c) && InUnit(row, col, r, c) ==> g[r][c] != num
  {
    if Legal(g, row, col, num) {
      forall r, c | InRange(r, c) && InUnit(row, col, r, c)
        ensures g[r][c] != num
      {
        if r != row && c != col {
          assert BoxStart(row) <= r < BoxStart(row) + 3 && BoxStart(col) <= c < BoxStart(col) + 3;
        }
      }
    }
    if forall r, c :: InRange(r, c) && InUnit(row, col, r, c) ==> g[r][c] != num {
      forall r, c | BoxStart(row) <= r < BoxStart(row) + 3 && BoxStart(col) <= c < BoxStart(col) + 3
        ensures g[r][c] != num
      {
        assert InRange(r, c) && InUnit(row, col, r, c);
      }
    }
  }

  /** Placing a legal digit into an empty cell keeps the grid consistent. */
  lemma PlaceKeepsConsistent(g: Grid, row: int, col: int, num: int)
    requires Consistent(g) && InRange(row, col) && g[row][col] == 0
    requires 1 <= num <= 9 && Legal(g, row, col, num)
    ensures Consistent(Set(g, row, col, num))
  {
    LegalIffUnitFree(g, row, col, num);
    var h := Set(g, row, col, num);
    forall r1, c1, r2, c2 |
      InRange(r1, c1) && InRange(r2, c2) && (r1 != r2 || c1 != c2) &&
      InUnit(r1, c1, r2, c2) && h[r1][c1] != 0
      ensures h[r1][c1] != h[r2][c2]
    {
      if r2 == row && c2 == col {
        assert InUnit(row, col, r1, c1);
      }
    }
  }

  /** A completion of t necessarily puts a legal digit into each empty cell
      of t, and still completes t with that digit placed. */
  lemma CompletionValueLegal(t: Grid, s: Grid, r: int, c: int)
    requires IsSolved(s) && Extends(s, t) && InRange(r, c) && t[r][c] == 0
    ensures 1 <= s[r][c] <= 9
    ensures Legal(t, r, c, s[r][c])
    ensures Extends(s, Set(t, r, c, s[r][c]))
  {
    var v := s[r][c];
    forall i, j | InRange(i, j) && InUnit(r, c, i, j)
      ensures t[i][j] != v
    {
      if t[i][j] != 0 {
        assert i != r || j != c;
      }
    }
    LegalIffUnitFree(t, r, c, v);
  }

  /** An illegal digit can never lead to a completion of a consistent grid. */
  lemma IllegalHasNoCompletion(t: Grid, r: int, c: int, n: int)
    requires Consistent(t) && InRange(r, c) && t[r][c] == 0
    requires n != 0 && !Legal(t, r, c, n)
    ensures !HasCompletion(Set(t, r, c, n))
  {
    if HasCompletion(Set(t, r, c, n)) {
      var s :| IsSolved(s) && Extends(s, Set(t, r, c, n));
      assert Extends(s, t) && s[r][c] == n;
      CompletionValueLegal(t, s, r, c);
    }
  }

  /** A completion of t fills the empty cell (r, c) with some digit. */
  lemma CompletionPicksDigit(t: Grid, r: int, c: int)
    requires IsGrid(t) && InRange(r, c) && t[r][c] == 0 && HasCompletion(t)
    ensures exists n :: 1 <= n <= 9 && HasCompletion(Set(t, r, c, n))
  {
    var s :| IsSolved(s) && Extends(s, t);
    CompletionValueLegal(t, s, r, c);
  }

  /** Blanking cells of a consistent grid keeps it consistent. */
  lemma SubgridConsistent(s: Grid, t: Grid)
    requires Consistent(s) && Extends(s, t) && Digits(t)
    ensures Consistent(t)
  {
  }

  // ----- counting empty cells -----

  function RowZeros(row: seq<int>): nat {
    if row == [] then 0 else RowZeros(row[..|row| - 1]) + (if row[|row| - 1] == 0 then 1 else 0)
  }

  /** The number of empty cells. */
  function Zeros(g: Grid): nat {
    if g == [] then 0 else Zeros(g[..|g| - 1]) + RowZeros(g[|g| - 1])
  }

  lemma {:induction false} RowZerosUpdate(row: seq<int>, c: int, v: int)
    requires 0 <= c < |row|
    ensures RowZeros(row[c := v]) ==
      RowZeros(row) - (if row[c] == 0 then 1 else 0) + (if v == 0 then 1 else 0)
  {
    var n := |row| - 1;
    if c < n {
      assert row[c := v][..n] == row[..n][c := v];
      RowZerosUpdate(row[..n], c, v);
    } else {
      assert row[c := v][..n] == row[..n];
    }
  }

  lemma {:induction false} ZerosUpdate(g: Grid, r: int, c: int, v: int)
    requires 0 <= r < |g| && 0 <= c < |g[r]|
    ensures Zeros(g[r := g[r][c := v]]) ==
      Zeros(g) - (if g[r][c] == 0 then 1 else 0) + (if v == 0 then 1 else 0)
  {
    var n := |g| - 1;
    var h := g[r := g[r][c := v]];
    if r < n {
      assert h[..n] == g[..n][r := g[r][c := v]];
      ZerosUpdate(g[..n], r, c, v);
    } else {
      assert h[..n] == g[..n];
      RowZerosUpdate(g[r], c, v);
    }
  }

  /** Setting an empty cell to a digit removes exactly one empty cell. */
  lemma ZerosSet(g: Grid, r: int, c: int, v: int)
    requires IsGrid(g) && InRange(r, c)
    ensures Zeros(Set(g, r, c, v)) ==
      Zeros(g) - (if g[r][c] == 0 then 1 else 0) + (if v == 0 then 1 else 0)
  {
    ZerosUpdate(g, r, c, v);
  }

  lemma {:induction false} RowZerosNone(row: seq<int>)
    requires forall c :: 0 <= c < |row| ==> row[c] != 0
    ensures RowZeros(row) == 0
  {
    if row != [] { RowZerosNone(row[..|row| - 1]); }
  }

  lemma {:induction false} ZerosNoneRows(g: Grid, n: nat)
    requires IsGrid(g) && Full(g) && n <= 9
    ensures Zeros(g[..n]) == 0
  {
    if n > 0 {
      assert g[..n][..n - 1] == g[..n - 1];
      ZerosNoneRows(g, n - 1);
      RowZerosNone(g[n - 1]);
    }
  }

  /** A full grid has no empty cell. */
  lemma FullHasNoZeros(g: Grid)
    requires IsGrid(g) && Full(g)
    ensures Zeros(g) == 0
  {
    ZerosNoneRows(g, 9);
    assert g[..9] == g;
  }

  // ----- counting digits -----

  /** How often v occurs in a row, a column or a box. */
  function Occurrences(u: seq<int>, v: int): nat {
    if u == [] then 0 else Occurrences(u[..|u| - 1], v) + (if u[|u| - 1] == v then 1 else 0)
  }

  /** How often v occurs in the grid. */
  function Count(g: Grid, v: int): nat {
    if g == [] then 0 else Count(g[..|g| - 1], v) + Occurrences(g[|g| - 1], v)
  }

  function Column(g: Grid, c: int): (u: seq<int>)
    requires IsGrid(g) && 0 <= c < 9
    ensures |u| == 9 && forall r :: 0 <= r < 9 ==> u[r] == g[r][c]
  {
    seq(9, r requires 0 <= r < 9 => g[r][c])
  }

  /** Box b (0..8, row-major), its cells listed row-major. */
  function Box(g: Grid, b: int): (u: seq<int>)
    requires IsGrid(g) && 0 <= b < 9
    ensures |u| == 9 && forall k :: 0 <= k < 9 ==> u[k] == g[b / 3 * 3 + k / 3][b % 3 * 3 + k % 3]
  {
    seq(9, k requires 0 <= k < 9 => g[b / 3 * 3 + k / 3][b % 3 * 3 + k % 3])
  }

  lemma {:induction false} OccurrencesAbsent(u: seq<int>, v: int)
    requires v !in u
    ensures Occurrences(u, v) == 0
  {
    if u != [] {
      assert forall i :: 0 <= i < |u| - 1 ==> u[..|u| - 1][i] == u[i];
      OccurrencesAbsent(u[..|u| - 1], v);
    }
  }

  lemma {:induction false} OccurrencesAtMostOne(u: seq<int>, v: int)
    requires Distinct(u)
    ensures Occurrences(u, v) <= 1
  {
    if u != [] {
      var p := u[..|u| - 1];
      assert Distinct(p);
      OccurrencesAtMostOne(p, v);
      if u[|u| - 1] == v {
        assert v !in p;
        OccurrencesAbsent(p, v);
      }
    }
  }

  /** Occurrences of the digits 1..k together. */
  function DigitTotal(u: seq<int>, k: nat): nat {
    if k == 0 then 0 else DigitTotal(u, k - 1) + Occurrences(u, k)
  }

  lemma {:induction false} DigitTotalStep(u: seq<int>, k: nat)
    requires u != []
    ensures DigitTotal(u, k) == DigitTotal(u[..|u| - 1], k) + (if 1 <= u[|u| - 1] <= k then 1 else 0)
  {
    if k > 0 { DigitTotalStep(u, k - 1); }
  }

  lemma {:induction false} DigitTotalEmpty(k: nat)
    ensures DigitTotal([], k) == 0
  {
    if k > 0 { DigitTotalEmpty(k - 1); }
  }

  lemma {:induction false} DigitTotalAll(u: seq<int>)
    requires forall i :: 0 <= i < |u| ==> 1 <= u[i] <= 9
    ensures DigitTotal(u, 9) == |u|
  {
    if u != [] {
      assert forall i :: 0 <= i < |u| - 1 ==> u[..|u| - 1][i] == u[i];
      DigitTotalAll(u[..|u| - 1]);
      DigitTotalStep(u, 9);
    } else {
      DigitTotalEmpty(9);
    }
  }

  lemma {:induction false} DigitTotalMissing(u: seq<int>, k: nat, v: int)
    requires 1 <= v <= k && Occurrences(u, v) == 0
    requires forall w :: 1 <= w <= k ==> Occurrences(u, w) <= 1
    ensures DigitTotal(u, k) < k
  {
    if v < k {
      DigitTotalMissing(u, k - 1, v);
    } else {
      DigitTotalAtMost(u, k - 1);
    }
  }

  lemma {:induction false} DigitTotalAtMost(u: seq<int>, k: nat)
    requires forall w :: 1 <= w <= k ==> Occurrences(u, w) <= 1
    ensures DigitTotal(u, k) <= k
  {
    if k > 0 { DigitTotalAtMost(u, k - 1); }
  }

  /** Nine distinct digits hold each of 1..9 exactly once. */
  lemma UnitHasEveryDigitOnce(u: seq<int>, v: int)
    requires |u| == 9 && Distinct(u) && forall i :: 0 <= i < 9 ==> 1 <= u[i] <= 9
    requires 1 <= v <= 9
    ensures Occurrences(u, v) == 1
  {
    forall w | 1 <= w <= 9
      ensures Occurrences(u, w) <= 1
    {
      OccurrencesAtMostOne(u, w);
    }
    DigitTotalAll(u);
    if Occurrences(u, v) == 0 {
      DigitTotalMissing(u, 9, v);
    }
  }

  /** Two different cells of one unit of a completed Sudoku differ. */
  lemma SolvedCellsDiffer(g: Grid, r1: int, c1: int, r2: int, c2: int)
    requires IsSolved(g) && InRange(r1, c1) && InRange(r2, c2)
    requires (r1 != r2 || c1 != c2) && InUnit(r1, c1, r2, c2)
    ensures g[r1][c1] != g[r2][c2]
  {
  }

  /** In a completed Sudoku every row, every column and every box holds each
      of the digits 1..9 exactly once. */
  lemma SolvedRow(g: Grid, i: int, v: int)
    requires IsSolved(g) && 0 <= i < 9 && 1 <= v <= 9
    ensures Occurrences(g[i], v) == 1
  {
    forall a, b | 0 <= a < b < 9
      ensures g[i][a] != g[i][b]
    {
      SolvedCellsDiffer(g, i, a, i, b);
    }
    UnitHasEveryDigitOnce(g[i], v);
  }

  lemma SolvedColumn(g: Grid, i: int, v: int)
    requires IsSolved(g) && 0 <= i < 9 && 1 <= v <= 9
    ensures Occurrences(Column(g, i), v) == 1
  {
    var col := Column(g, i);
    forall a, b | 0 <= a < b < 9
      ensures col[a] != col[b]
    {
      SolvedCellsDiffer(g, a, i, b, i);
    }
    UnitHasEveryDigitOnce(col, v);
  }

  lemma SolvedBox(g: Grid, i: int, v: int)
    requires IsSolved(g) && 0 <= i < 9 && 1 <= v <= 9
    ensures Occurrences(Box(g, i), v) == 1
  {
    var box := Box(g, i);
    forall a, b | 0 <= a < b < 9
      ensures box[a] != box[b]
    {
      BoxCell(i, a);
      BoxCell(i, b);
      SolvedCellsDiffer(g, i / 3 * 3 + a / 3, i % 3 * 3 + a % 3, i / 3 * 3 + b / 3, i % 3 * 3 + b % 3);
    }
    UnitHasEveryDigitOnce(box, v);
  }

  /** Cell k of box i lies in the grid and in box i. */
  lemma BoxCell(i: int, k: int)
    requires 0 <= i < 9 && 0 <= k < 9
    ensures InRange(i / 3 * 3 + k / 3, i % 3 * 3 + k % 3)
    ensures (i / 3 * 3 + k / 3) / 3 == i / 3 && (i % 3 * 3 + k % 3) / 3 == i % 3
  {
  }

  lemma {:induction false} SolvedCountRows(g: Grid, n: nat, v: int)
    requires IsSolved(g) && n <= 9 && 1 <= v <= 9
    ensures Count(g[..n], v) == n
  {
    if n > 0 {
      assert g[..n][..n - 1] == g[..n - 1];
      SolvedCountRows(g, n - 1, v);
      SolvedRow(g, n - 1, v);
    }
  }

  /** A completed Sudoku holds every digit exactly nine times. */
  lemma SolvedCount(g: Grid, v: int)
    requires IsSolved(g) && 1 <= v <= 9
    ensures Count(g, v) == 9
  {
    SolvedCountRows(g, 9, v);
    assert g[..9] == g;
  }
}
