/** The game session: the board of cells the player edits, the undo stack,
    the hint and error counters, and the completion check that records a
    win. The selected cell is passed to each handler as (row, col). */
module Game {
  import opened Sudoku
  import opened Storage
  import opened Generator

  const MaxHints: int := 3
  const MaxErrors: int := 5

  datatype Cell = Cell(value: int, isFixed: bool, notes: seq<int>, isError: bool)

  type Board = seq<seq<Cell>>

  predicate IsBoard(b: Board) {
    |b| == 9 && forall r :: 0 <= r < 9 ==> |b[r]| == 9
  }

  /** The board with cell (r, c) replaced; every other cell is kept. */
  function SetCell(b: Board, r: int, c: int, cell: Cell): (b': Board)
    requires IsBoard(b) && InRange(r, c)
    ensures IsBoard(b')
    ensures forall i, j :: InRange(i, j) ==> b'[i][j] == if i == r && j == c then cell else b[i][j]
  {
    b[r := b[r][c := cell]]
  }

  /** The digits on the board. */
  function Values(b: Board): (g: Grid)
    requires IsBoard(b)
    ensures IsGrid(g) && forall r, c :: InRange(r, c) ==> g[r][c] == b[r][c].value
  {
    seq(9, r requires 0 <= r < 9 => seq(9, c requires 0 <= c < 9 => b[r][c].value))
  }

  // ---------------------------------------------------------------------
  // Pencil notes
  // ---------------------------------------------------------------------

  predicate Sorted(s: seq<int>) {
    forall i, j :: 0 <= i < j < |s| ==> s[i] <= s[j]
  }

  predicate Strict(s: seq<int>) {
    forall i, j :: 0 <= i < j < |s| ==> s[i] < s[j]
  }

  /** The notes of a cell: increasing digits 1..9. */
  predicate NotesOk(s: seq<int>) {
    Strict(s) && forall i :: 0 <= i < |s| ==> 1 <= s[i] <= 9
  }

  function Insert(s: seq<int>, x: int): (r: seq<int>)
    ensures multiset(r) == multiset(s) + multiset{x}
  {
    if |s| == 0 then [x]
    else if x <= s[0] then [x] + s
    else
      assert s == [s[0]] + s[1..];
      [s[0]] + Insert(s[1..], x)
  }

  /** Insertion into a sorted list keeps it sorted. */
  lemma {:induction false} InsertSorted(s: seq<int>, x: int)
    requires Sorted(s)
    ensures Sorted(Insert(s, x))
  {
    if |s| > 0 && x > s[0] {
      var rest := Insert(s[1..], x);
      InsertSorted(s[1..], x);
      InsertAbove(s[1..], x, s[0]);
      var r := [s[0]] + rest;
      assert r == Insert(s, x);
      forall i, j | 0 <= i < j < |r|
        ensures r[i] <= r[j]
      {
        if i == 0 {
          assert r[j] == rest[j - 1];
        } else {
          assert r[i] == rest[i - 1] && r[j] == rest[j - 1];
        }
      }
    }
  }

  /** A lower bound of the list and of the new element bounds the result. */
  lemma {:induction false} InsertAbove(s: seq<int>, x: int, lo: int)
    requires forall i :: 0 <= i < |s| ==> lo <= s[i]
    requires lo <= x
    ensures forall i :: 0 <= i < |Insert(s, x)| ==> lo <= Insert(s, x)[i]
  {
    if |s| > 0 && x > s[0] {
      InsertAbove(s[1..], x, lo);
      assert Insert(s, x) == [s[0]] + Insert(s[1..], x);
    }
  }

  /** Array.prototype.sort on notes. The default sort compares the decimal
      strings, which orders the digits 1..9 as numbers do. */
  function Sort(s: seq<int>): (r: seq<int>)
    ensures multiset(r) == multiset(s)
    ensures Sorted(r)
  {
    if |s| == 0 then []
    else
      assert s == s[..|s| - 1] + [s[|s| - 1]];
      InsertSorted(Sort(s[..|s| - 1]), s[|s| - 1]);
      Insert(Sort(s[..|s| - 1]), s[|s| - 1])
  }

  /** notes.filter(n => n !== x). */
  function Remove(s: seq<int>, x: int): (r: seq<int>)
    ensures multiset(r) == multiset(s)[x := 0]
  {
    if |s| == 0 then []
    else
      assert s == [s[0]] + s[1..];
      var rest := Remove(s[1..], x);
      if s[0] == x then rest else [s[0]] + rest
  }

  /** Filtering keeps the order. */
  lemma {:induction false} RemoveStrict(s: seq<int>, x: int)
    requires Strict(s)
    ensures Strict(Remove(s, x))
  {
    if |s| > 0 {
      RemoveStrict(s[1..], x);
      var rest := Remove(s[1..], x);
      forall y | y in rest
        ensures s[0] < y
      {
        assert y in multiset(rest);
        assert y in multiset(s[1..]);
        var k :| 0 <= k < |s[1..]| && s[1..][k] == y;
        assert s[k + 1] == y;
      }
      var r := Remove(s, x);
      if s[0] != x {
        assert r == [s[0]] + rest;
        forall i, j | 0 <= i < j < |r|
          ensures r[i] < r[j]
        {
          assert r[j] == rest[j - 1] && rest[j - 1] in rest;
          if i > 0 {
            assert r[i] == rest[i - 1];
          }
        }
      }
    }
  }

  /** Toggling a note: present digits are filtered out, absent ones added
      and the list re-sorted. Only membership of num changes. */
  function ToggleNote(notes: seq<int>, num: int): (r: seq<int>)
    ensures num in r <==> num !in notes
    ensures forall x :: x != num ==> (x in r <==> x in notes)
    ensures NotesOk(notes) && 1 <= num <= 9 ==> NotesOk(r)
  {
    if num in notes then
      var r := Remove(notes, num);
      assert forall y :: y in r <==> y in multiset(r);
      if NotesOk(notes) then RemovedNotesOk(notes, num); r else r
    else
      var r := Sort(notes + [num]);
      assert forall y :: y in r <==> y in multiset(notes + [num]);
      if NotesOk(notes) && 1 <= num <= 9 then InsertedNotesOk(notes, num); r else r
  }

  lemma RemovedNotesOk(notes: seq<int>, num: int)
    requires NotesOk(notes)
    ensures NotesOk(Remove(notes, num))
  {
    var r := Remove(notes, num);
    RemoveStrict(notes, num);
    forall i | 0 <= i < |r|
      ensures 1 <= r[i] <= 9
    {
      assert r[i] in multiset(r);
      assert r[i] in multiset(notes);
      var k :| 0 <= k < |notes| && notes[k] == r[i];
    }
  }

  lemma InsertedNotesOk(notes: seq<int>, num: int)
    requires NotesOk(notes) && 1 <= num <= 9 && num !in notes
    ensures NotesOk(Sort(notes + [num]))
  {
    var r := Sort(notes + [num]);
    AppendCountsOne(notes, num);
    SortedFewStrict(r);
    forall i | 0 <= i < |r|
      ensures 1 <= r[i] <= 9
    {
      assert r[i] in multiset(r);
      assert r[i] in multiset(notes + [num]);
      var k :| 0 <= k < |notes + [num]| && (notes + [num])[k] == r[i];
    }
  }

  lemma AppendCountsOne(notes: seq<int>, num: int)
    requires Strict(notes) && num !in notes
    ensures forall y :: multiset(notes + [num])[y] <= 1
  {
    StrictCountsOne(notes);
    assert multiset(notes + [num]) == multiset(notes) + multiset{num};
    assert multiset(notes)[num] == 0;
  }

  lemma {:induction false} StrictCountsOne(s: seq<int>)
    requires Strict(s)
    ensures forall y :: multiset(s)[y] <= 1
  {
    if |s| > 0 {
      assert s == [s[0]] + s[1..];
      assert s[0] !in s[1..];
      StrictCountsOne(s[1..]);
    }
  }

  lemma SortedFewStrict(s: seq<int>)
    requires Sorted(s) && forall y :: multiset(s)[y] <= 1
    ensures Strict(s)
  {
    forall i, j | 0 <= i < j < |s|
      ensures s[i] < s[j]
    {
      if s[i] == s[j] {
        RepeatCountsTwice(s, i, j);
      }
    }
  }

  lemma RepeatCountsTwice(s: seq<int>, i: int, j: int)
    requires 0 <= i < j < |s| && s[i] == s[j]
    ensures multiset(s)[s[i]] >= 2
  {
    assert s == s[..j] + s[j..];
    assert s[..j][i] == s[i];
    assert s[j..][0] == s[j];
    assert multiset(s) == multiset(s[..j]) + multiset(s[j..]);
  }

  lemma HeadTail(a: seq<int>)
    requires |a| > 0
    ensures multiset(a[1..]) == multiset(a) - multiset{a[0]}
  {
    assert a == [a[0]] + a[1..];
  }

  lemma SortedHeadIsLeast(a: seq<int>, y: int)
    requires Sorted(a) && y in multiset(a)
    ensures |a| > 0 && a[0] <= y
  {
    var k :| 0 <= k < |a| && a[k] == y;
  }

  lemma SortedHeads(a: seq<int>, b: seq<int>)
    requires Sorted(a) && Sorted(b) && multiset(a) == multiset(b) && |a| > 0
    ensures |b| > 0 && a[0] == b[0]
    ensures multiset(a[1..]) == multiset(b[1..]) && Sorted(a[1..]) && Sorted(b[1..])
  {
    assert a[0] in multiset(a);
    SortedHeadIsLeast(b, a[0]);
    SortedHeadIsLeast(a, b[0]);
    HeadTail(a);
    HeadTail(b);
  }

  /** A sorted arrangement of a multiset is unique. */
  lemma {:induction false} SortedUnique(a: seq<int>, b: seq<int>)
    requires Sorted(a) && Sorted(b) && multiset(a) == multiset(b)
    ensures a == b
  {
    if |a| == 0 {
      assert |multiset(b)| == 0;
    } else {
      SortedHeads(a, b);
      SortedUnique(a[1..], b[1..]);
      assert a == [a[0]] + a[1..] && b == [b[0]] + b[1..];
    }
  }

  /** Toggling the same digit twice gives back the original notes. */
  lemma ToggleTwice(notes: seq<int>, num: int)
    requires NotesOk(notes) && 1 <= num <= 9
    ensures ToggleNote(ToggleNote(notes, num), num) == notes
  {
    var twice := ToggleNote(ToggleNote(notes, num), num);
    if num in notes {
      ToggleTwicePresent(notes, num);
    } else {
      ToggleTwiceAbsent(notes, num);
    }
    SortedUnique(twice, notes);
  }

  lemma ToggleTwicePresent(notes: seq<int>, num: int)
    requires NotesOk(notes) && 1 <= num <= 9 && num in notes
    ensures multiset(ToggleNote(ToggleNote(notes, num), num)) == multiset(notes)
    ensures Sorted(ToggleNote(ToggleNote(notes, num), num))
  {
    StrictCountsOne(notes);
    var once := ToggleNote(notes, num);
    assert once == Remove(notes, num);
    assert num !in once;
    var twice := ToggleNote(once, num);
    assert twice == Sort(once + [num]);
    assert multiset(notes)[num] == 1 by {
      assert num in multiset(notes);
    }
    assert multiset(twice) == multiset(notes)[num := 0] + multiset{num};
  }

  lemma ToggleTwiceAbsent(notes: seq<int>, num: int)
    requires NotesOk(notes) && 1 <= num <= 9 && num !in notes
    ensures multiset(ToggleNote(ToggleNote(notes, num), num)) == multiset(notes)
    ensures Sorted(ToggleNote(ToggleNote(notes, num), num))
  {
    var once := ToggleNote(notes, num);
    assert once == Sort(notes + [num]);
    assert num in once;
    var twice := ToggleNote(once, num);
    assert twice == Remove(once, num);
    assert multiset(notes)[num] == 0;
    assert multiset(twice) == (multiset(notes) + multiset{num})[num := 0];
  }

  // ---------------------------------------------------------------------
  // Cell edits
  // ---------------------------------------------------------------------

  /** Note mode: toggle num among the notes; value and error flag stay. */
  function NoteInput(cell: Cell, num: int): Cell {
    cell.(notes := ToggleNote(cell.notes, num))
  }

  /** Value mode: write num, clear the notes, flag it when it differs from
      the solution. */
  function ValueInput(cell: Cell, num: int, answer: int): Cell {
    cell.(value := num, notes := [], isError := num != answer)
  }

  function Erased(cell: Cell): Cell {
    cell.(value := 0, notes := [], isError := false)
  }

  /** A hint writes the solution's digit and clears the notes. */
  function Hinted(cell: Cell, answer: int): Cell {
    cell.(value := answer, notes := [])
  }

  /** A cell marked as an error holds a digit other than the solution's. */
  predicate CellSound(cell: Cell, answer: int) {
    (cell.isError ==> cell.value != 0 && cell.value != answer) && NotesOk(cell.notes)
  }

  ghost predicate BoardSound(b: Board, solution: Grid)
    requires IsBoard(b) && IsGrid(solution)
  {
    forall r, c :: InRange(r, c) ==> CellSound(b[r][c], solution[r][c])
  }

  /** Every edit of a non-fixed cell keeps it sound: an error is always a
      wrong digit, so a hinted or erased cell is never an error. */
  lemma EditsKeepCellSound(cell: Cell, num: int, answer: int)
    requires CellSound(cell, answer) && 1 <= num <= 9
    ensures CellSound(NoteInput(cell, num), answer)
    ensures CellSound(ValueInput(cell, num, answer), answer)
    ensures CellSound(Erased(cell), answer) && !Erased(cell).isError
    ensures cell.value == 0 ==> CellSound(Hinted(cell, answer), answer) && !Hinted(cell, answer).isError
    ensures ValueInput(cell, num, answer).isError <==> num != answer
  {
  }

  /** Both boards fix the same cells, and the fixed cells hold the same
      digits. */
  ghost predicate SameFixed(b1: Board, b2: Board)
    requires IsBoard(b1) && IsBoard(b2)
  {
    forall r, c :: InRange(r, c) ==>
      b1[r][c].isFixed == b2[r][c].isFixed && (b1[r][c].isFixed ==> b1[r][c].value == b2[r][c].value)
  }

  /** Every undo snapshot is a sound board with the same fixed cells as b. */
  ghost predicate HistoryOk(history: seq<Board>, b: Board, solution: Grid)
    requires IsBoard(b) && IsGrid(solution)
  {
    forall i :: 0 <= i < |history| ==>
      IsBoard(history[i]) && BoardSound(history[i], solution) && SameFixed(history[i], b)
  }

  lemma SameFixedTrans(a: Board, b: Board, c: Board)
    requires IsBoard(a) && IsBoard(b) && IsBoard(c) && SameFixed(a, b)
    ensures SameFixed(b, c) ==> SameFixed(a, c)
    ensures SameFixed(a, c) ==> SameFixed(b, c)
  {
  }

  /** Writing a sound cell over a non-fixed one keeps the board sound and
      its fixed cells, and the undo stack with the old board pushed stays
      consistent with the new board. */
  lemma EditKeepsHistory(history: seq<Board>, b: Board, solution: Grid, r: int, c: int, cell: Cell)
    requires IsBoard(b) && IsGrid(solution) && InRange(r, c)
    requires BoardSound(b, solution) && HistoryOk(history, b, solution)
    requires !b[r][c].isFixed && !cell.isFixed && CellSound(cell, solution[r][c])
    ensures var b' := SetCell(b, r, c, cell);
      BoardSound(b', solution) && SameFixed(b, b') && HistoryOk(history + [b], b', solution)
  {
    var b' := SetCell(b, r, c, cell);
    assert SameFixed(b, b');
    forall i | 0 <= i < |history|
      ensures SameFixed(history[i], b')
    {
      SameFixedTrans(history[i], b, b');
    }
  }

  /** Popping the last snapshot leaves a sound board with the same fixed
      cells and a consistent rest of the stack. */
  lemma UndoKeepsHistory(history: seq<Board>, b: Board, solution: Grid)
    requires IsBoard(b) && IsGrid(solution) && HistoryOk(history, b, solution) && |history| > 0
    ensures var last := history[|history| - 1];
      IsBoard(last) && BoardSound(last, solution) && SameFixed(b, last)
      && HistoryOk(history[..|history| - 1], last, solution)
  {
    var last := history[|history| - 1];
    forall i | 0 <= i < |history| - 1
      ensures SameFixed(history[i], last)
    {
      SameFixedTrans(history[i], b, last);
    }
  }

  // ---------------------------------------------------------------------
  // New and restored boards
  // ---------------------------------------------------------------------

  /** The board of a new game: the clues are fixed, the blanks are not, and
      no cell has notes or an error. */
  function InitialBoard(puzzle: Grid): (b: Board)
    requires IsGrid(puzzle)
    ensures IsBoard(b) && Values(b) == puzzle
    ensures forall r, c :: InRange(r, c) ==>
      (b[r][c].isFixed <==> b[r][c].value != 0) && b[r][c].notes == [] && !b[r][c].isError
  {
    var b := seq(9, r requires 0 <= r < 9 => seq(9, c requires 0 <= c < 9 => Cell(puzzle[r][c], puzzle[r][c] != 0, [], false)));
    GridExt(Values(b), puzzle);
    b
  }

  /** A fresh board holds no notes and no errors, so it is sound against
      any solution. */
  lemma InitialBoardSound(puzzle: Grid, solution: Grid)
    requires IsGrid(puzzle) && IsGrid(solution)
    ensures BoardSound(InitialBoard(puzzle), solution)
  {
  }

  /** The tactics the generator is run with: the daily challenge uses
      medium's table. */
  function PlayDifficulty(d: Difficulty): Difficulty {
    if d == Daily then Medium else d
  }

  /** A saved game in the shape the session writes. */
  ghost predicate SavedShape(s: GameState) {
    IsGrid(s.grid) && IsGrid(s.solution)
    && |s.fixedCells| == 9 && (forall r :: 0 <= r < 9 ==> |s.fixedCells[r]| == 9)
    && |s.notes| == 9 && (forall r :: 0 <= r < 9 ==> |s.notes[r]| == 9)
    && (forall r, c :: InRange(r, c) ==> NotesOk(s.notes[r][c]))
  }

  /** The board rebuilt from a saved game: saved digits, fixed flags and
      notes, and no cell marked as an error. */
  function RestoreBoard(s: GameState): (b: Board)
    requires SavedShape(s)
    ensures IsBoard(b) && Values(b) == s.grid
    ensures forall r, c :: InRange(r, c) ==>
      b[r][c].isFixed == s.fixedCells[r][c] && b[r][c].notes == s.notes[r][c] && !b[r][c].isError
  {
    var b := seq(9, r requires 0 <= r < 9 => seq(9, c requires 0 <= c < 9 =>
      Cell(s.grid[r][c], s.fixedCells[r][c], s.notes[r][c], false)));
    GridExt(Values(b), s.grid);
    b
  }

  /** The record saveCurrentGame writes (the score field is always 0). */
  function SavedGame(b: Board, solution: Grid, d: Difficulty, time: int, hints: int, errors: int, now: string): GameState
    requires IsBoard(b)
  {
    GameState(
      Values(b), solution,
      seq(9, r requires 0 <= r < 9 => seq(9, c requires 0 <= c < 9 => b[r][c].isFixed)),
      seq(9, r requires 0 <= r < 9 => seq(9, c requires 0 <= c < 9 => b[r][c].notes)),
      d, time, hints, errors, 0, now)
  }

  function ClearErrors(b: Board): (b': Board)
    requires IsBoard(b)
    ensures IsBoard(b')
  {
    seq(9, r requires 0 <= r < 9 => seq(9, c requires 0 <= c < 9 => b[r][c].(isError := false)))
  }

  /** Saving a session and restoring it gives back the board with the error
      marks cleared, and the same solution, time and counters. */
  lemma SaveRestoreRoundTrip(b: Board, solution: Grid, d: Difficulty, time: int, hints: int, errors: int, now: string)
    requires IsBoard(b) && IsGrid(solution) && BoardSound(b, solution)
    ensures var s := SavedGame(b, solution, d, time, hints, errors, now);
      SavedShape(s) && RestoreBoard(s) == ClearErrors(b) && s.solution == solution
      && s.difficulty == d && s.gameTime == time && s.hintCount == hints && s.errorCount == errors
  {
    var s := SavedGame(b, solution, d, time, hints, errors, now);
    assert SavedShape(s);
    var b1, b2 := RestoreBoard(s), ClearErrors(b);
    forall r | 0 <= r < 9
      ensures b1[r] == b2[r]
    {
      assert forall c :: 0 <= c < 9 ==> b1[r][c] == b2[r][c];
    }
  }

  predicate Restores(stored: Slot<GameState>, d: Difficulty) {
    stored.Present? && stored.value.difficulty == d
  }

  // ---------------------------------------------------------------------
  // Win bookkeeping
  // ---------------------------------------------------------------------

  /** The statistics after a win. A best time is replaced when there is
      none, when it is 0 (JavaScript treats 0 as missing) or when the new
      time is lower; daily games keep no best time. */
  function RecordWin(s: GameStats, d: Difficulty, time: int, score: int): GameStats {
    var streak := s.currentStreak + 1;
    var times :=
      if d != Daily && (d !in s.bestTimes || s.bestTimes[d] == 0 || time < s.bestTimes[d])
      then s.bestTimes[d := time] else s.bestTimes;
    GameStats(s.totalGames + 1, s.totalWins + 1, s.totalLosses, streak, Max(s.bestStreak, streak),
              s.totalPlayTime + time, times, s.totalScore + score)
  }

  /** A win counts one more game, win and streak step; the best streak
      becomes the larger of the old best and the new streak; the play time
      and score grow by the game's; losses stay; the difficulty's best time
      is replaced exactly when it is missing, 0 or beaten, and no other best
      time changes; a non-zero best time never gets worse; and, unless a
      hard best time of 0 is on record, a win never makes an achievement
      condition false. */
  lemma RecordWinProgress(s: GameStats, d: Difficulty, time: int, score: int)
    requires score >= 0
    ensures var s' := RecordWin(s, d, time, score);
      s'.totalGames == s.totalGames + 1 && s'.totalWins == s.totalWins + 1
      && s'.currentStreak == s.currentStreak + 1 && s'.bestStreak >= s.bestStreak
      && s'.bestStreak >= s'.currentStreak
    ensures var s' := RecordWin(s, d, time, score);
      s'.bestStreak == Max(s.bestStreak, s.currentStreak + 1) && s'.totalLosses == s.totalLosses
      && s'.totalPlayTime == s.totalPlayTime + time && s'.totalScore == s.totalScore + score
    ensures d != Daily && (d !in s.bestTimes || s.bestTimes[d] == 0 || time < s.bestTimes[d]) ==>
      RecordWin(s, d, time, score).bestTimes == s.bestTimes[d := time]
    ensures !(d != Daily && (d !in s.bestTimes || s.bestTimes[d] == 0 || time < s.bestTimes[d])) ==>
      RecordWin(s, d, time, score).bestTimes == s.bestTimes
    ensures var s' := RecordWin(s, d, time, score);
      d != Daily ==> d in s'.bestTimes && (s'.bestTimes[d] == time || 0 != s'.bestTimes[d] <= time)
    ensures var s' := RecordWin(s, d, time, score);
      forall e :: e in s.bestTimes && s.bestTimes[e] != 0 ==> e in s'.bestTimes && s'.bestTimes[e] <= s.bestTimes[e]
    ensures d == Daily ==> RecordWin(s, d, time, score).bestTimes == s.bestTimes
    ensures (Hard in s.bestTimes ==> s.bestTimes[Hard] != 0) ==>
      forall i :: 0 <= i < |AchievementTable| && Holds(AchievementTable[i].condition, s) ==>
        Holds(AchievementTable[i].condition, RecordWin(s, d, time, score))
  {
  }

  /** loadAchievements followed by checkAchievements on the store. */
  method CheckStoredAchievements(store: Store, stats: GameStats, now: string)
    modifies store`achievements
    ensures store.achievements == AchievementsAfterWin(old(store.achievements), stats, now)
  {
    var achievements := LoadAchievements(store.achievements);
    var _ := store.CheckAchievements(stats, achievements, now);
  }

  /** The statistics stored after a win: the loaded ones with the win and
      its score recorded. */
  function WinStats(stored: Slot<GameStats>, d: Difficulty, time: int, hints: int, errors: int): GameStats {
    RecordWin(LoadStats(stored), d, time, CalculateScore(d, time, hints, errors))
  }

  /** The field-by-field update of the loaded statistics after a win. */
  method AddWin(s: GameStats, d: Difficulty, time: int, score: int) returns (stats: GameStats)
    ensures stats == RecordWin(s, d, time, score)
  {
    stats := s;
    stats := stats.(totalGames := stats.totalGames + 1);
    stats := stats.(totalWins := stats.totalWins + 1);
    stats := stats.(currentStreak := stats.currentStreak + 1);
    if stats.currentStreak > stats.bestStreak {
      stats := stats.(bestStreak := stats.currentStreak);
    }
    stats := stats.(totalScore := stats.totalScore + score);
    stats := stats.(totalPlayTime := stats.totalPlayTime + time);
    if d != Daily {
      var currentBest := if d in stats.bestTimes then stats.bestTimes[d] else 0;
      if currentBest == 0 || time < currentBest {
        stats := stats.(bestTimes := stats.bestTimes[d := time]);
      }
    }
  }

  /** The achievements slot after a win with the new statistics. */
  function AchievementsAfterWin(stored: Slot<map<string, Option<string>>>, stats: GameStats, now: string): Slot<map<string, Option<string>>> {
    var current := LoadAchievements(stored);
    if AnyNewUnlock(stats, current) then Present(AchievementData(CheckAll(stats, current, now))) else stored
  }

  /** Every cell holds a digit. */
  predicate IsFull(b: Board)
    requires IsBoard(b)
  {
    forall r, c | 0 <= r < 9 && 0 <= c < 9 :: b[r][c].value != 0
  }

  /** Every cell holds the solution's digit. */
  predicate IsCorrect(b: Board, solution: Grid)
    requires IsBoard(b) && IsGrid(solution)
  {
    forall r, c | 0 <= r < 9 && 0 <= c < 9 :: b[r][c].value == solution[r][c]
  }

  // ---------------------------------------------------------------------
  // Clock text
  // ---------------------------------------------------------------------

  function DigitChar(d: int): char
    requires 0 <= d < 10
  {
    "0123456789"[d]
  }

  function DigitValue(ch: char): int {
    ch as int - '0' as int
  }

  /** Number.prototype.toString for a non-negative integer. */
  function NatToString(n: nat): (s: string)
    ensures 1 <= |s| && (n < 10 ==> |s| == 1) && (n < 100 ==> |s| <= 2)
    ensures forall i :: 0 <= i < |s| ==> '0' <= s[i] <= '9'
  {
    if n < 10 then [DigitChar(n)] else NatToString(n / 10) + [DigitChar(n % 10)]
  }

  /** padStart(2, '0'): the text preceded by just enough '0's. */
  function PadStart2(s: string): (r: string)
    ensures |r| == if |s| >= 2 then |s| else 2
  {
    if |s| >= 2 then s else if |s| == 1 then "0" + s else "00"
  }

  /** The padded text ends with the original text, and everything before
      it is '0'. */
  lemma PadStart2Pads(s: string)
    ensures var r := PadStart2(s);
      r[|r| - |s|..] == s && forall i :: 0 <= i < |r| - |s| ==> r[i] == '0'
  {
  }

  /** formatTime: whole minutes and remaining seconds, each at least two
      digits, joined by ':' ("mm:ss" below 100 minutes). */
  function FormatTime(seconds: nat): (t: string)
    ensures |t| >= 5 && t[|t| - 3] == ':'
    ensures seconds < 6000 ==> |t| == 5
  {
    var m, sec := PadStart2(NatToString(seconds / 60)), PadStart2(NatToString(seconds % 60));
    ClockLengths(seconds);
    m + ":" + sec
  }

  /** Every character of the clock text but the ':' is a decimal digit. */
  lemma FormatTimeDigits(seconds: nat)
    ensures var t := FormatTime(seconds); forall i :: 0 <= i < |t| && i != |t| - 3 ==> '0' <= t[i] <= '9'
  {
    var m, sec := PadStart2(NatToString(seconds / 60)), PadStart2(NatToString(seconds % 60));
    PadDigits(NatToString(seconds / 60));
    PadDigits(NatToString(seconds % 60));
    ClockLengths(seconds);
    ClockText(m, sec);
    FormatTimeIsJoin(seconds);
  }

  lemma ClockLengths(seconds: nat)
    ensures |PadStart2(NatToString(seconds % 60))| == 2
    ensures |PadStart2(NatToString(seconds / 60))| >= 2
    ensures seconds < 6000 ==> |PadStart2(NatToString(seconds / 60))| == 2
  {
    assert seconds % 60 < 100;
    assert seconds < 6000 ==> seconds / 60 < 100;
  }

  lemma PadDigits(s: string)
    requires forall i :: 0 <= i < |s| ==> '0' <= s[i] <= '9'
    ensures var r := PadStart2(s); forall i :: 0 <= i < |r| ==> '0' <= r[i] <= '9'
  {
    var r := PadStart2(s);
    PadStart2Pads(s);
    forall i | 0 <= i < |r|
      ensures '0' <= r[i] <= '9'
    {
      if i >= |r| - |s| {
        assert r[i] == r[|r| - |s|..][i - (|r| - |s|)];
      }
    }
  }

  /** Two digit fields joined by ':', the seconds field two long: only
      the ':' is not a digit. */
  lemma ClockText(m: string, sec: string)
    requires |sec| == 2
    requires forall i :: 0 <= i < |m| ==> '0' <= m[i] <= '9'
    requires forall i :: 0 <= i < |sec| ==> '0' <= sec[i] <= '9'
    ensures var t := m + ":" + sec; forall i :: 0 <= i < |t| && i != |t| - 3 ==> '0' <= t[i] <= '9'
  {
  }

  function ParseNat(s: string): int {
    if |s| == 0 then 0 else 10 * ParseNat(s[..|s| - 1]) + DigitValue(s[|s| - 1])
  }

  /** Reads the clock text back: minutes before the ':', seconds after. */
  function ParseTime(t: string): int
    requires |t| >= 3
  {
    60 * ParseNat(t[..|t| - 3]) + ParseNat(t[|t| - 2..])
  }

  lemma {:induction false} ParseNatToString(n: nat)
    ensures ParseNat(NatToString(n)) == n
  {
    var s := NatToString(n);
    if n < 10 {
      DigitRoundTrip(n);
      assert s[..0] == [];
    } else {
      var prefix := NatToString(n / 10);
      assert s == prefix + [DigitChar(n % 10)];
      assert s[..|s| - 1] == prefix;
      ParseNatToString(n / 10);
      DigitRoundTrip(n % 10);
      assert ParseNat(s) == 10 * (n / 10) + n % 10;
    }
  }

  /** toString writes no leading zero: only 0 itself starts with '0'. */
  lemma {:induction false} NatToStringNoLeadingZero(n: nat)
    ensures NatToString(n)[0] == '0' <==> n == 0
  {
    if n >= 10 {
      NatToStringNoLeadingZero(n / 10);
      assert NatToString(n)[0] == NatToString(n / 10)[0];
    }
  }

  lemma DigitRoundTrip(d: int)
    requires 0 <= d < 10
    ensures DigitValue(DigitChar(d)) == d
  {
  }

  lemma {:induction false} ParseNatLeadingZero(s: string)
    ensures ParseNat("0" + s) == ParseNat(s)
  {
    if |s| > 0 {
      assert ("0" + s)[..|s|] == "0" + s[..|s| - 1];
      ParseNatLeadingZero(s[..|s| - 1]);
    } else {
      assert ("0" + s)[..0] == [];
    }
  }

  lemma ParsePadded(n: nat)
    ensures ParseNat(PadStart2(NatToString(n))) == n
  {
    var s := NatToString(n);
    ParseNatToString(n);
    if |s| < 2 {
      assert PadStart2(s) == "0" + s;
      ParseNatLeadingZero(s);
    }
  }

  /** The clock text determines the time it shows: the field before the
      ':' reads as the whole minutes, the two digits after it as the
      remaining seconds. */
  lemma FormatTimeRoundTrip(seconds: nat)
    ensures var t := FormatTime(seconds);
      ParseNat(t[..|t| - 3]) == seconds / 60 && ParseNat(t[|t| - 2..]) == seconds % 60
    ensures ParseTime(FormatTime(seconds)) == seconds
  {
    FormatTimeParts(seconds);
  }

  /** The clock text's two fields read as the minutes and the seconds. */
  lemma FormatTimeParts(seconds: nat)
    ensures var t := FormatTime(seconds);
      ParseNat(t[..|t| - 3]) == seconds / 60 && ParseNat(t[|t| - 2..]) == seconds % 60
  {
    var m, sec := PadStart2(NatToString(seconds / 60)), PadStart2(NatToString(seconds % 60));
    FormatTimeIsJoin(seconds);
    ParsePadded(seconds / 60);
    ParsePadded(seconds % 60);
    ClockFields(FormatTime(seconds), m, sec, seconds / 60, seconds % 60);
  }

  /** The clock text is the two padded fields joined by ':'. */
  lemma FormatTimeIsJoin(seconds: nat)
    ensures var sec := PadStart2(NatToString(seconds % 60));
      FormatTime(seconds) == PadStart2(NatToString(seconds / 60)) + ":" + sec && |sec| == 2
  {
    ClockLengths(seconds);
  }

  /** Cutting "m:ss" at its ':' and reading each side gives back what
      the fields read as. */
  lemma ClockFields(t: string, m: string, sec: string, minutes: int, rest: int)
    requires t == m + ":" + sec && |sec| == 2 && ParseNat(m) == minutes && ParseNat(sec) == rest
    ensures ParseNat(t[..|t| - 3]) == minutes && ParseNat(t[|t| - 2..]) == rest
  {
    assert t[..|t| - 3] == m;
    assert t[|t| - 2..] == sec;
  }

  // ---------------------------------------------------------------------
  // The session
  // ---------------------------------------------------------------------

  class GameSession {
    var grid: Board
    var solution: Grid
    var history: seq<Board>
    var hintCount: int
    var errorCount: int
    var isComplete: bool
    var isFailed: bool
    var isGameActive: bool
    var gameTime: int
    const difficulty: Difficulty
    const seed: Option<nat>
    const store: Store

    /** The board and every undo snapshot have the session's shape, only
        sound cells, and one common set of fixed cells. */
    ghost predicate Valid()
      reads this
    {
      IsBoard(grid) && IsGrid(solution) && BoardSound(grid, solution) && HistoryOk(history, grid, solution)
    }

    /** The seed initGame generates with: the session's own seed when it
        has one, otherwise the draw that stands in for an unseeded generator. */
    function SeedFor(draw: nat): nat {
      if seed.Some? then seed.value else draw
    }

    /** The state initGame leaves when it generates with seed `s`. */
    ghost predicate Started(s: nat)
      reads this
    {
      var g := GeneratePuzzleSpec(PlayDifficulty(difficulty), s);
      GeneratePuzzleCorrect(PlayDifficulty(difficulty), s);
      grid == InitialBoard(g.puzzle) && solution == g.solution
      && gameTime == 0 && isGameActive && history == [] && !isComplete
      && hintCount == 0 && errorCount == 0 && !isFailed
    }

    /** The state the restore branch leaves. */
    ghost predicate Resumed(s: GameState)
      requires SavedShape(s)
      reads this
    {
      grid == RestoreBoard(s) && solution == s.solution && gameTime == s.gameTime
      && hintCount == s.hintCount && errorCount == s.errorCount
      && isGameActive && !isComplete && !isFailed && history == []
    }

    /** Mounting the component: restore the saved game when it was saved
        at this difficulty, otherwise start a new one. */
    constructor (difficulty: Difficulty, seed: Option<nat>, store: Store, draw: nat)
      requires store.gameState.Present? ==> SavedShape(store.gameState.value)
      ensures Valid() && this.difficulty == difficulty && this.seed == seed && this.store == store
      ensures Restores(store.gameState, difficulty) ==> Resumed(store.gameState.value)
      ensures !Restores(store.gameState, difficulty) ==> Started(SeedFor(draw))
    {
      this.difficulty := difficulty;
      this.seed := seed;
      this.store := store;
      grid := [];
      solution := [];
      history := [];
      hintCount := 0;
      errorCount := 0;
      isComplete := false;
      isFailed := false;
      isGameActive := false;
      gameTime := 0;
      new;
      var saved := LoadGameState(store.gameState);
      if saved.Some? && saved.value.difficulty == difficulty {
        grid := RestoreBoard(saved.value);
        solution := saved.value.solution;
        gameTime := saved.value.gameTime;
        hintCount := saved.value.hintCount;
        errorCount := saved.value.errorCount;
        isGameActive := true;
        isComplete := false;
      } else {
        InitGame(draw);
      }
    }

    /** initGame: generate with the session's seed (or, without one, with
        `draw`) and reset every counter. */
    method InitGame(draw: nat)
      modifies this
      ensures Valid() && Started(SeedFor(draw))
    {
      var s := SeedFor(draw);
      var generator := new SudokuGenerator(s);
      var diff := PlayDifficulty(difficulty);
      var puzzle, sol := generator.GeneratePuzzle(diff);
      GeneratePuzzleCorrect(diff, s);
      InitialBoardSound(puzzle, sol);
      grid := InitialBoard(puzzle);
      solution := sol;
      gameTime := 0;
      isGameActive := true;
      history := [];
      isComplete := false;
      hintCount := 0;
      errorCount := 0;
      isFailed := false;
    }

    /** The new-game button: drop the saved game and start afresh. */
    method NewGame(draw: nat)
      modifies this, store`gameState
      ensures Valid() && Started(SeedFor(draw)) && store.gameState == Absent
    {
      store.ClearGameState();
      InitGame(draw);
    }

    /** One second of the timer while the game runs. On a tick that finds
        a positive multiple of 30 seconds on the clock, the game is saved
        first, with the time as it was before the tick. */
    method Tick(now: string)
      requires Valid()
      modifies this`gameTime, store`gameState
      ensures var running := old(isGameActive) && !old(isComplete);
        gameTime == (if running then old(gameTime) + 1 else old(gameTime))
        && (running && old(gameTime) > 0 && old(gameTime) % 30 == 0 ==>
              store.gameState == Present(SavedGame(grid, solution, difficulty, old(gameTime), hintCount, errorCount, now)))
        && (!(running && old(gameTime) > 0 && old(gameTime) % 30 == 0) ==> store.gameState == old(store.gameState))
    {
      if !isGameActive || isComplete {
        return;
      }
      if gameTime > 0 && gameTime % 30 == 0 {
        SaveCurrentGame(now);
      }
      gameTime := gameTime + 1;
    }

    /** saveCurrentGame: only a running, unfinished game is saved. */
    method SaveCurrentGame(now: string)
      requires Valid()
      modifies store`gameState
      ensures isGameActive && !isComplete ==>
        store.gameState == Present(SavedGame(grid, solution, difficulty, gameTime, hintCount, errorCount, now))
      ensures !(isGameActive && !isComplete) ==> store.gameState == old(store.gameState)
    {
      if !isGameActive || isComplete {
        return;
      }
      store.SaveGameState(SavedGame(grid, solution, difficulty, gameTime, hintCount, errorCount, now));
    }

    /** handleNumberInput on cell (row, col). A fixed cell is left alone;
        otherwise the board is pushed on the undo stack and only that cell
        changes: in note mode its notes toggle num; in value mode it takes
        num, and a wrong digit is flagged, counted, and fails the game from
        the fifth error on. */
    method HandleNumberInput(row: int, col: int, num: int, noteMode: bool)
      requires Valid() && InRange(row, col) && 1 <= num <= 9
      modifies this`grid, this`history, this`errorCount, this`isFailed, this`isGameActive
      ensures Valid() && SameFixed(old(grid), grid)
      ensures old(grid)[row][col].isFixed ==>
        grid == old(grid) && history == old(history) && errorCount == old(errorCount)
        && isFailed == old(isFailed) && isGameActive == old(isGameActive)
      ensures !old(grid)[row][col].isFixed ==> history == old(history) + [old(grid)]
      ensures !old(grid)[row][col].isFixed && noteMode ==>
        grid == SetCell(old(grid), row, col, NoteInput(old(grid)[row][col], num))
        && errorCount == old(errorCount) && isFailed == old(isFailed) && isGameActive == old(isGameActive)
      ensures !old(grid)[row][col].isFixed && !noteMode ==>
        var wrong := num != solution[row][col];
        grid == SetCell(old(grid), row, col, ValueInput(old(grid)[row][col], num, solution[row][col]))
        && errorCount == old(errorCount) + (if wrong then 1 else 0)
        && isFailed == (old(isFailed) || (wrong && errorCount >= MaxErrors))
        && isGameActive == (old(isGameActive) && !(wrong && errorCount >= MaxErrors))
    {
      if grid[row][col].isFixed {
        return;
      }
      ghost var before := history;
      history := history + [grid];
      var cell := grid[row][col];
      EditsKeepCellSound(cell, num, solution[row][col]);
      if noteMode {
        cell := cell.(notes := ToggleNote(cell.notes, num));
      } else {
        cell := cell.(value := num, notes := []);
        if num != solution[row][col] {
          cell := cell.(isError := true);
          var newErrorCount := errorCount + 1;
          errorCount := newErrorCount;
          if newErrorCount >= MaxErrors {
            isFailed := true;
            isGameActive := false;
          }
        } else {
          cell := cell.(isError := false);
        }
      }
      EditKeepsHistory(before, grid, solution, row, col, cell);
      grid := SetCell(grid, row, col, cell);
    }

    /** handleErase: on a non-fixed cell, push the board and clear the cell's
        digit, notes and error flag. */
    method HandleErase(row: int, col: int)
      requires Valid() && InRange(row, col)
      modifies this`grid, this`history
      ensures Valid() && SameFixed(old(grid), grid)
      ensures old(grid)[row][col].isFixed ==> grid == old(grid) && history == old(history)
      ensures !old(grid)[row][col].isFixed ==>
        history == old(history) + [old(grid)] && grid == SetCell(old(grid), row, col, Erased(old(grid)[row][col]))
    {
      if grid[row][col].isFixed {
        return;
      }
      var cell := grid[row][col];
      EditsKeepCellSound(cell, 1, solution[row][col]);
      cell := cell.(value := 0, notes := [], isError := false);
      EditKeepsHistory(history, grid, solution, row, col, cell);
      history := history + [grid];
      grid := SetCell(grid, row, col, cell);
    }

    /** handleHint: with hints left, on an empty non-fixed cell, count the
        hint, push the board and write the solution's digit. At most three
        hints are ever given. */
    method HandleHint(row: int, col: int)
      requires Valid() && InRange(row, col)
      modifies this`grid, this`history, this`hintCount
      ensures Valid() && SameFixed(old(grid), grid)
      ensures var applies := old(hintCount) < MaxHints && !old(grid)[row][col].isFixed && old(grid)[row][col].value == 0;
        (applies ==> hintCount == old(hintCount) + 1 && history == old(history) + [old(grid)]
                     && grid == SetCell(old(grid), row, col, Hinted(old(grid)[row][col], solution[row][col])))
        && (!applies ==> hintCount == old(hintCount) && history == old(history) && grid == old(grid))
      ensures old(hintCount) <= MaxHints ==> hintCount <= MaxHints
    {
      if hintCount >= MaxHints {
        return;
      }
      if grid[row][col].isFixed || grid[row][col].value != 0 {
        return;
      }
      hintCount := hintCount + 1;
      var correctValue := solution[row][col];
      var cell := grid[row][col];
      EditsKeepCellSound(cell, 1, correctValue);
      cell := cell.(value := correctValue, notes := []);
      EditKeepsHistory(history, grid, solution, row, col, cell);
      history := history + [grid];
      grid := SetCell(grid, row, col, cell);
    }

    /** handleUndo: back to the last snapshot; the counters stay. */
    method HandleUndo()
      requires Valid()
      modifies this`grid, this`history
      ensures Valid() && SameFixed(old(grid), grid)
      ensures |old(history)| == 0 ==> grid == old(grid) && history == old(history)
      ensures |old(history)| > 0 ==>
        grid == old(history)[|old(history)| - 1] && history == old(history)[..|old(history)| - 1]
    {
      if |history| == 0 {
        return;
      }
      UndoKeepsHistory(history, grid, solution);
      grid := history[|history| - 1];
      history := history[..|history| - 1];
    }

    /** The completion check: the first time the board is full and equals
        the solution, the game is marked complete and stopped and the win is
        recorded (see RecordVictory). Otherwise nothing changes. */
    method CheckCompletion(now: string)
      requires Valid()
      modifies this`isComplete, this`isGameActive, store
      ensures Valid()
      ensures var wins := IsFull(grid) && IsCorrect(grid, solution) && !old(isComplete);
        (!wins ==> isComplete == old(isComplete) && isGameActive == old(isGameActive) && unchanged(store))
        && (wins ==> isComplete && !isGameActive
                     && store.stats == Present(WinStats(old(store.stats), difficulty, gameTime, hintCount, errorCount))
                     && store.achievements == AchievementsAfterWin(old(store.achievements), store.stats.value, now)
                     && store.gameState == Absent
                     && store.daily == old(store.daily) && store.consecutiveDays == old(store.consecutiveDays))
    {
      var isFull := IsFull(grid);
      if !isFull {
        return;
      }
      var isCorrect := IsCorrect(grid, solution);
      if !isCorrect || isComplete {
        return;
      }
      isComplete := true;
      isGameActive := false;
      RecordVictory(now);
    }

    /** The bookkeeping of a win: score, statistics, achievements, and
        clearing the saved game. */
    method RecordVictory(now: string)
      modifies store
      ensures store.stats == Present(WinStats(old(store.stats), difficulty, gameTime, hintCount, errorCount))
      ensures store.achievements == AchievementsAfterWin(old(store.achievements), store.stats.value, now)
      ensures store.gameState == Absent
      ensures store.daily == old(store.daily) && store.consecutiveDays == old(store.consecutiveDays)
    {
      var score := CalculateScore(difficulty, gameTime, hintCount, errorCount);
      var stats := LoadStats(store.stats);
      stats := AddWin(stats, difficulty, gameTime, score);
      store.SaveStats(stats);
      CheckStoredAchievements(store, stats, now);
      store.ClearGameState();
    }

    /** getNumberCounts: how often each digit 1..9 is on the board. */
    method GetNumberCounts() returns (counts: map<int, int>)
      requires IsBoard(grid)
      ensures forall v :: v in counts <==> 1 <= v <= 9
      ensures forall v :: 1 <= v <= 9 ==> counts[v] == Count(Values(grid), v)
    {
      counts := map[1 := 0, 2 := 0, 3 := 0, 4 := 0, 5 := 0, 6 := 0, 7 := 0, 8 := 0, 9 := 0];
      ghost var g := Values(grid);
      for row := 0 to 9
        invariant forall v :: v in counts <==> 1 <= v <= 9
        invariant forall v :: 1 <= v <= 9 ==> counts[v] == Count(g[..row], v)
      {
        for col := 0 to 9
          invariant forall v :: v in counts <==> 1 <= v <= 9
          invariant forall v :: 1 <= v <= 9 ==> counts[v] == Count(g[..row], v) + Occurrences(g[row][..col], v)
        {
          var value := grid[row][col].value;
          assert g[row][..col + 1][..col] == g[row][..col];
          if value >= 1 && value <= 9 {
            counts := counts[value := counts[value] + 1];
          }
        }
        assert g[..row + 1][..row] == g[..row];
        assert g[row][..9] == g[row];
      }
      assert g[..9] == g;
    }
  }

  /** A correctly completed board shows every digit nine times, so every
      key of the number pad reads as complete. */
  lemma SolvedBoardCounts(b: Board, solution: Grid, v: int)
    requires IsBoard(b) && IsSolved(solution) && IsCorrect(b, solution) && 1 <= v <= 9
    ensures Count(Values(b), v) == 9
  {
    assert Values(b) == solution by {
      var g := Values(b);
      forall r | 0 <= r < 9
        ensures g[r] == solution[r]
      {
        assert forall c :: 0 <= c < 9 ==> g[r][c] == solution[r][c];
      }
    }
    SolvedCount(solution, v);
  }
}
