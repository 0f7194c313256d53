/** The puzzle generator: a randomized row-major backtracking fill builds a
    complete grid, then shuffled cells are blanked one at a time, each blank
    kept only if a backtracking check approves it. Every method is tied to a
    functional specification of the same computation, so the result is a
    function of the seed. */
module Generator {
  import opened Sudoku
  import opened Random
  import opened Storage

  /** Blank cells requested per difficulty. */
  function CellsToRemove(d: Difficulty): nat {
    match d
    case Easy => 35
    case Medium => 45
    case Hard => 55
    case Daily => 45
  }

  const Candidates: seq<int> := [1, 2, 3, 4, 5, 6, 7, 8, 9]

  function NextRow(row: int, col: int): int { if col == 8 then row + 1 else row }
  function NextCol(col: int): int { if col == 8 then 0 else col + 1 }

  /** A legal fill position: a cell, or the end (9, 0). */
  predicate FillPos(row: int, col: int) {
    0 <= row <= 9 && 0 <= col < 9 && (row == 9 ==> col == 0)
  }

  datatype FillResult = FillResult(ok: bool, grid: Grid, seed: nat)

  /** fillGrid(row, col) on grid g with generator state s: the success flag,
      the grid afterwards and the generator state afterwards. */
  function Fill(g: Grid, row: int, col: int, s: nat): (r: FillResult)
    requires IsGrid(g) && FillPos(row, col)
    ensures IsGrid(r.grid)
    decreases 81 - (9 * row + col), 1, 0, 0
  {
    if row == 9 then FillResult(true, g, s)
    else
      var shuffled := Shuffled(Candidates, s);
      TryDigits(g, row, col, shuffled.0, 0, shuffled.1)
  }

  /** The loop of fillGrid over the shuffled candidates, from index k on. */
  function TryDigits(g: Grid, row: int, col: int, numbers: seq<int>, k: nat, s: nat): (r: FillResult)
    requires IsGrid(g) && InRange(row, col) && k <= |numbers|
    ensures IsGrid(r.grid)
    decreases 81 - (9 * row + col), 0, |numbers| - k, 0
  {
    if k == |numbers| then FillResult(false, g, s)
    else if Legal(g, row, col, numbers[k]) then
      var r := Fill(Set(g, row, col, numbers[k]), NextRow(row, col), NextCol(col), s);
      if r.ok then r else TryDigits(Set(r.grid, row, col, 0), row, col, numbers, k + 1, r.seed)
    else
      TryDigits(g, row, col, numbers, k + 1, s)
  }

  /** Cells before row-major position pos are filled, the others empty. */
  ghost predicate FilledBefore(g: Grid, pos: int)
    requires IsGrid(g)
  {
    forall r, c :: InRange(r, c) ==> (g[r][c] != 0 <==> 9 * r + c < pos)
  }

  /** If the fill succeeds, the grid is a completed Sudoku agreeing with the
      cells already placed; if it fails, every cell it set is reset. */
  lemma {:induction false} FillSound(g: Grid, row: int, col: int, s: nat)
    requires IsGrid(g) && FillPos(row, col)
    requires Consistent(g) && FilledBefore(g, 9 * row + col)
    ensures Fill(g, row, col, s).ok ==> IsSolved(Fill(g, row, col, s).grid) && Extends(Fill(g, row, col, s).grid, g)
    ensures !Fill(g, row, col, s).ok ==> Fill(g, row, col, s).grid == g
    decreases 81 - (9 * row + col), 1, 0, 0
  {
    if row < 9 {
      var shuffled := Shuffled(Candidates, s);
      ShuffleMembers(Candidates, s);
      TryDigitsSound(g, row, col, shuffled.0, 0, shuffled.1);
    } else {
      assert Full(g);
      assert Extends(g, g);
    }
  }

  lemma {:induction false} TryDigitsSound(g: Grid, row: int, col: int, numbers: seq<int>, k: nat, s: nat)
    requires IsGrid(g) && InRange(row, col) && k <= |numbers|
    requires Consistent(g) && FilledBefore(g, 9 * row + col)
    requires forall x :: x in numbers ==> 1 <= x <= 9
    ensures TryDigits(g, row, col, numbers, k, s).ok ==>
      IsSolved(TryDigits(g, row, col, numbers, k, s).grid) && Extends(TryDigits(g, row, col, numbers, k, s).grid, g)
    ensures !TryDigits(g, row, col, numbers, k, s).ok ==> TryDigits(g, row, col, numbers, k, s).grid == g
    decreases 81 - (9 * row + col), 0, |numbers| - k, 1
  {
    if k < |numbers| {
      assert numbers[k] in numbers;
      if Legal(g, row, col, numbers[k]) {
        TryLegalSound(g, row, col, numbers, k, s);
      } else {
        TryDigitsSound(g, row, col, numbers, k + 1, s);
      }
    }
  }

  /** The step of the candidate loop that places a legal digit. */
  lemma {:induction false} TryLegalSound(g: Grid, row: int, col: int, numbers: seq<int>, k: nat, s: nat)
    requires IsGrid(g) && InRange(row, col) && k < |numbers|
    requires Consistent(g) && FilledBefore(g, 9 * row + col)
    requires forall x :: x in numbers ==> 1 <= x <= 9
    requires Legal(g, row, col, numbers[k])
    ensures TryDigits(g, row, col, numbers, k, s).ok ==>
      IsSolved(TryDigits(g, row, col, numbers, k, s).grid) && Extends(TryDigits(g, row, col, numbers, k, s).grid, g)
    ensures !TryDigits(g, row, col, numbers, k, s).ok ==> TryDigits(g, row, col, numbers, k, s).grid == g
    decreases 81 - (9 * row + col), 0, |numbers| - k, 0
  {
    var num := numbers[k];
    assert num in numbers;
    var h := Set(g, row, col, num);
    PlaceKeepsConsistent(g, row, col, num);
    assert FilledBefore(h, 9 * row + col + 1);
    FillSound(h, NextRow(row, col), NextCol(col), s);
    var r := Fill(h, NextRow(row, col), NextCol(col), s);
    if r.ok {
      ExtendsTrans(r.grid, h, g);
    } else {
      SetRestore(g, row, col, num);
      TryDigitsSound(g, row, col, numbers, k + 1, r.seed);
    }
  }

  /** generateSolution from generator state s: either a completed Sudoku or,
      should the search ever fail, the all-zero grid it started from. */
  lemma SolutionIsSolvedOrEmpty(s: nat)
    ensures var r := Fill(EmptyGrid(), 0, 0, s);
      (r.ok ==> IsSolved(r.grid)) && (!r.ok ==> r.grid == EmptyGrid())
  {
    FillSound(EmptyGrid(), 0, 0, s);
  }

  /** The 81 cells in row-major order. */
  function AllPositions(): (ps: seq<(int, int)>)
    ensures |ps| == 81
  {
    seq(81, i => (i / 9, i % 9))
  }

  ghost predicate AllInRange(ps: seq<(int, int)>) {
    forall p :: p in ps ==> InRange(p.0, p.1)
  }

  lemma AllPositionsFacts()
    ensures AllInRange(AllPositions()) && Distinct(AllPositions())
    ensures forall r, c :: InRange(r, c) ==> (r, c) in AllPositions()
  {
    var ps := AllPositions();
    forall r, c | InRange(r, c)
      ensures (r, c) in ps
    {
      assert ps[9 * r + c] == (r, c);
    }
  }

  /** The positions of the shuffled order that the generator tries. */
  lemma ShuffledPositionsFacts(s: nat)
    ensures |Shuffled(AllPositions(), s).0| == 81
    ensures AllInRange(Shuffled(AllPositions(), s).0) && Distinct(Shuffled(AllPositions(), s).0)
  {
    AllPositionsFacts();
    ShuffleMembers(AllPositions(), s);
    ShuffleDistinct(AllPositions(), s);
  }

  /** g with every listed cell set to 0, in order. */
  function BlankAll(g: Grid, ps: seq<(int, int)>): (h: Grid)
    requires IsGrid(g) && AllInRange(ps)
    ensures IsGrid(h)
  {
    if ps == [] then g
    else
      var p := ps[|ps| - 1];
      Set(BlankAll(g, ps[..|ps| - 1]), p.0, p.1, 0)
  }

  lemma {:induction false} BlankAllAt(g: Grid, ps: seq<(int, int)>)
    requires IsGrid(g) && AllInRange(ps)
    ensures forall r, c :: InRange(r, c) ==> BlankAll(g, ps)[r][c] == if (r, c) in ps then 0 else g[r][c]
  {
    if ps != [] {
      var init := ps[..|ps| - 1];
      assert forall p :: p in ps <==> p in init || p == ps[|ps| - 1];
      BlankAllAt(g, init);
    }
  }

  /** Blanking distinct filled cells adds exactly one empty cell each. */
  lemma {:induction false} BlankAllZeros(g: Grid, ps: seq<(int, int)>)
    requires IsGrid(g) && Full(g) && AllInRange(ps) && Distinct(ps)
    ensures Zeros(BlankAll(g, ps)) == |ps|
  {
    if ps == [] {
      FullHasNoZeros(g);
    } else {
      var init := ps[..|ps| - 1];
      var p := ps[|ps| - 1];
      BlankAllZeros(g, init);
      BlankAllAt(g, init);
      assert p !in init;
      ZerosSet(BlankAll(g, init), p.0, p.1, 0);
    }
  }

  /** One more blank keeps the puzzle a consistent sub-grid of the completed
      solution, so the check is bound to approve it. */
  lemma BlankStep(s: nat, solution: Grid, positions: seq<(int, int)>, k: nat)
    requires Fill(EmptyGrid(), 0, 0, s).ok && solution == Fill(EmptyGrid(), 0, 0, s).grid
    requires AllInRange(positions) && k < |positions|
    ensures var p := positions[k];
      var next := Set(BlankAll(solution, positions[..k]), p.0, p.1, 0);
      next == BlankAll(solution, positions[..k + 1]) && Consistent(next) && HasCompletion(next)
  {
    SolutionIsSolvedOrEmpty(s);
    var p := positions[k];
    assert positions[..k + 1][..k] == positions[..k];
    assert positions[..k + 1][k] == p;
    var next := BlankAll(solution, positions[..k + 1]);
    BlankAllAt(solution, positions[..k + 1]);
    assert Extends(solution, next);
    SubgridConsistent(solution, next);
  }

  datatype Generated = Generated(puzzle: Grid, solution: Grid)

  /** generatePuzzle(d) on a generator whose state is s. Every tentative blank
      is kept (the check approves any sub-grid of a completed Sudoku), so the
      puzzle is the solution with the first CellsToRemove(d) shuffled
      positions blanked. If the fill failed, solution and puzzle are both the
      all-zero grid. */
  ghost function GeneratePuzzleSpec(d: Difficulty, s: nat): Generated {
    var f := Fill(EmptyGrid(), 0, 0, s);
    var positions := Shuffled(AllPositions(), f.seed).0;
    ShuffledPositionsFacts(f.seed);
    if f.ok then Generated(BlankAll(f.grid, positions[..CellsToRemove(d)]), f.grid)
    else Generated(f.grid, f.grid)
  }

  /** The generator state after generatePuzzle. */
  function SeedAfterPuzzle(s: nat): nat {
    Shuffled(AllPositions(), Fill(EmptyGrid(), 0, 0, s).seed).1
  }

  /** What generatePuzzle promises: every clue equals the solution; the
      solution is a completed Sudoku, or else both grids are all zeros; with a
      completed solution exactly CellsToRemove(d) cells are blank and the
      puzzle can be completed. */
  lemma GeneratePuzzleCorrect(d: Difficulty, s: nat)
    ensures var g := GeneratePuzzleSpec(d, s);
      IsGrid(g.puzzle) && IsGrid(g.solution) && Extends(g.solution, g.puzzle)
    ensures var g := GeneratePuzzleSpec(d, s);
      IsSolved(g.solution) || (g.solution == EmptyGrid() && g.puzzle == EmptyGrid())
    ensures var g := GeneratePuzzleSpec(d, s);
      IsSolved(g.solution) ==> Zeros(g.puzzle) == CellsToRemove(d) && HasCompletion(g.puzzle)
  {
    var f := Fill(EmptyGrid(), 0, 0, s);
    SolutionIsSolvedOrEmpty(s);
    var positions := Shuffled(AllPositions(), f.seed).0;
    ShuffledPositionsFacts(f.seed);
    if f.ok {
      var ps := positions[..CellsToRemove(d)];
      assert AllInRange(ps) && Distinct(ps);
      BlankAllAt(f.grid, ps);
      BlankAllZeros(f.grid, ps);
    } else {
      assert Extends(f.grid, f.grid);
    }
  }

  /** SudokuGenerator: the working grid of the fill and the seeded random
      source it draws from. */
  class SudokuGenerator {
    var grid: Grid
    const rng: SeededRandom

    constructor (seed: nat)
      ensures grid == EmptyGrid() && fresh(rng) && rng.s == seed
    {
      grid := EmptyGrid();
      rng := new SeededRandom(seed);
    }

    /** Copies the input and swaps in a descending loop. */
    method Shuffle<T>(a: seq<T>) returns (r: seq<T>)
      modifies rng
      ensures (r, rng.s) == Shuffled(a, old(rng.s))
    {
      var arr := new T[|a|](k requires 0 <= k < |a| => a[k]);
      assert arr[..] == a;
      var i := |a| - 1;
      while i > 0
        invariant i < arr.Length == |a|
        invariant ShuffleFrom(arr[..], i, rng.s) == Shuffled(a, old(rng.s))
        decreases i
      {
        var x := rng.Next();
        var j := SwapIndex(x, i);
        ghost var before := arr[..];
        arr[i], arr[j] := arr[j], arr[i];
        assert arr[..] == Swap(before, i, j);
        i := i - 1;
      }
      r := arr[..];
    }

    method IsValid(row: int, col: int, num: int) returns (b: bool)
      requires IsGrid(grid) && InRange(row, col)
      ensures b == Legal(grid, row, col, num)
    {
      b := IsValidInGrid(grid, row, col, num);
    }

    method FillGrid(row: int, col: int) returns (ok: bool)
      requires IsGrid(grid) && FillPos(row, col)
      modifies this, rng
      ensures FillResult(ok, grid, rng.s) == Fill(old(grid), row, col, old(rng.s))
      decreases 81 - (9 * row + col)
    {
      if row == 9 { return true; }
      var nextRow := if col == 8 then row + 1 else row;
      var nextCol := if col == 8 then 0 else col + 1;
      var numbers := Shuffle(Candidates);
      ghost var goal := Fill(old(grid), row, col, old(rng.s));
      for k := 0 to |numbers|
        invariant IsGrid(grid)
        invariant TryDigits(grid, row, col, numbers, k, rng.s) == goal
      {
        var num := numbers[k];
        var valid := IsValid(row, col, num);
        if valid {
          grid := Set(grid, row, col, num);
          var done := FillGrid(nextRow, nextCol);
          if done { return true; }
          grid := Set(grid, row, col, 0);
        }
      }
      return false;
    }

    method GenerateSolution() returns (solution: Grid)
      modifies this, rng
      ensures var r := Fill(EmptyGrid(), 0, 0, old(rng.s));
        solution == r.grid && grid == r.grid && rng.s == r.seed
      ensures IsSolved(solution) || solution == EmptyGrid()
    {
      grid := EmptyGrid();
      var _ := FillGrid(0, 0);
      SolutionIsSolvedOrEmpty(old(rng.s));
      solution := grid;
    }

    method GeneratePuzzle(difficulty: Difficulty) returns (puzzle: Grid, solution: Grid)
      modifies this, rng
      ensures Generated(puzzle, solution) == GeneratePuzzleSpec(difficulty, old(rng.s))
      ensures grid == solution && rng.s == SeedAfterPuzzle(old(rng.s))
    {
      solution := GenerateSolution();
      ghost var ok := Fill(EmptyGrid(), 0, 0, old(rng.s)).ok;
      SolutionIsSolvedOrEmpty(old(rng.s));
      puzzle := solution;
      var cellsToRemove := CellsToRemove(difficulty);
      ghost var seed := rng.s;
      var positions := Shuffle(AllPositions());
      ShuffledPositionsFacts(seed);
      var removed := 0;
      for k := 0 to |positions|
        invariant IsGrid(puzzle) && removed <= cellsToRemove
        invariant ok ==> removed == k && puzzle == BlankAll(solution, positions[..removed])
        invariant !ok ==> puzzle == solution == EmptyGrid()
        invariant grid == solution && rng.s == Shuffled(AllPositions(), seed).1
      {
        if removed >= cellsToRemove { break; }
        var (row, col) := positions[k];
        assert positions[k] in positions;
        var backup := puzzle[row][col];
        ghost var before := puzzle;
        puzzle := Set(puzzle, row, col, 0);
        if ok {
          BlankStep(old(rng.s), solution, positions, k);
        } else {
          SetRestore(before, row, col, 0);
        }
        var unique := HasUniqueSolution(puzzle);
        if unique {
          removed := removed + 1;
        } else {
          puzzle := Set(puzzle, row, col, backup);
          SetRestore(before, row, col, 0);
        }
      }
    }

    /** Despite its name this tests solvability: the search stops at the
        first completion it finds, so the counter never passes 1. */
    method HasUniqueSolution(g: Grid) returns (b: bool)
      requires IsGrid(g)
      ensures Consistent(g) ==> (b <==> HasCompletion(g))
    {
      var solver := new Solver(g);
      var found := solver.Solve();
      b := solver.count == 1;
    }
  }

  /** The state captured by the search closure of hasUniqueSolution: its
      private copy of the grid and the number of completions reached. */
  class Solver {
    var temp: Grid
    var count: nat

    constructor (g: Grid)
      ensures temp == g && count == 0
    {
      temp := g;
      count := 0;
    }

    /** Fills the first empty cell with each legal digit in turn and
        recurses; at a full grid it counts a completion and reports success,
        which unwinds the whole search with that grid in place. Entered only
        while no completion has been counted. */
    method Solve() returns (found: bool)
      requires IsGrid(temp) && count == 0
      modifies this
      ensures IsGrid(temp)
      ensures count == if found then 1 else 0
      ensures found ==> Full(temp) && Extends(temp, old(temp))
      ensures found && Consistent(old(temp)) ==> Consistent(temp)
      ensures !found ==> temp == old(temp)
      ensures !found && Consistent(old(temp)) ==> !HasCompletion(old(temp))
      decreases Zeros(temp)
    {
      if count > 1 { return false; }
      for r := 0 to 9
        invariant temp == old(temp) && count == 0
        invariant forall i, j :: 0 <= i < r && 0 <= j < 9 ==> temp[i][j] != 0
      {
        for c := 0 to 9
          invariant temp == old(temp) && count == 0
          invariant forall i, j :: 0 <= i < r && 0 <= j < 9 ==> temp[i][j] != 0
          invariant forall j :: 0 <= j < c ==> temp[r][j] != 0
        {
          if temp[r][c] == 0 {
            for num := 1 to 10
              invariant temp == old(temp) && count == 0
              invariant Consistent(old(temp)) ==>
                forall n :: 1 <= n < num ==> !HasCompletion(Set(old(temp), r, c, n))
            {
              var valid := IsValidInGrid(temp, r, c, num);
              if valid {
                temp := Set(temp, r, c, num);
                ZerosSet(old(temp), r, c, num);
                if Consistent(old(temp)) {
                  PlaceKeepsConsistent(old(temp), r, c, num);
                }
                var done := Solve();
                if done { return true; }
                temp := Set(temp, r, c, 0);
                SetRestore(old(temp), r, c, num);
              } else if Consistent(old(temp)) {
                IllegalHasNoCompletion(old(temp), r, c, num);
              }
            }
            if Consistent(old(temp)) && HasCompletion(old(temp)) {
              CompletionPicksDigit(old(temp), r, c);
            }
            return false;
          }
        }
      }
      count := count + 1;
      return count <= 1;
    }
  }
}
