# Sudoku puzzle engine and game session

This project is a Dafny model of the core of a single-player Sudoku game. The core has three parts.

- **The puzzle generator** (`SudokuGenerator`):
  - A seeded linear congruential generator (LCG) drives a Fisher-Yates shuffle.
  - A randomised, row-major backtracking fill builds a complete grid.
  - Shuffled cells are then blanked one at a time. Each blank is kept only if a backtracking search approves it.
- **The game session** (the `SudokuGame` component): the board of cells with values, fixed flags, pencil notes and error marks, plus:
  - the undo stack;
  - the hint and error limits (3 and 5);
  - the number, erase, hint and undo handlers;
  - the clock text;
  - the digit counts of the number pad;
  - the completion check that records a win.
- **Persistence and scoring** (`storage.ts`):
  - the score formula;
  - statistics and the achievement table;
  - the date-hash seed of the daily challenge;
  - the daily challenge record;
  - the consecutive-days counter;
  - the saved game.

The Dafny modules follow that structure:

- `Sudoku` (grid.dfy): the grid, legality of a digit, consistent and completed grids, and counting cells and digits.
- `Random` (random.dfy): the LCG and the shuffle, as functions. `SeededRandom` is the closure's mutable state.
- `Generator` (generator.dfy):
  - the classes `SudokuGenerator` and `Solver` (the search closure and its counter);
  - functional specifications `Fill`, `TryDigits` and `GeneratePuzzleSpec`.

  `Shuffle`, `IsValid`, `FillGrid`, `GenerateSolution` and `GeneratePuzzle` are each proved equal to a specification function. `Solver.Solve` is specified by what it finds: a full extension of the grid when it succeeds, and no completion when it fails. `HasUniqueSolution` is therefore determined only on consistent grids. Those are the only grids `GeneratePuzzle` passes to it, so the generated puzzle is still a function of the seed, and what the generator promises is proved about that function.
- `Storage` (storage.dfy): localStorage is the class `Store`, with one slot per key. A slot is `Absent`, `Corrupt` (text that does not parse) or `Present(value)`. Every load function reads a slot.
- `Game` (game.dfy): the class `GameSession`. Its handlers update the board, the history and the counters in place. Each handler is specified by pure cell-edit functions. Each keeps the session invariant `Valid()`:
  - error marks only ever sit on wrong digits;
  - notes are strictly increasing digits;
  - every undo snapshot has the same fixed cells as the board.

Two behaviours of the code that its names do not suggest, which the model follows:

- `hasUniqueSolution` stops at the first completion it finds. It therefore tests whether a completion exists, not whether there is exactly one. The model proves that it answers "this grid can be completed" (`Generator.SudokuGenerator.HasUniqueSolution`). The consequence is proved in `Generator.GeneratePuzzleCorrect`: every tentative blank is kept, so whenever the solution search succeeds the puzzle has exactly the requested number of blanks.
- The daily challenge is generated with medium's table (45 blanks) after `difficulty === 'daily'` is mapped to `'medium'`.

## Model

| member | source | states |
|---|---|---|
| Sudoku.EmptyGrid | src/SudokuGenerator.ts:26 | the fresh working grid is 9x9 with every cell 0 |
| Sudoku.IsValidInGrid | src/SudokuGenerator.ts:144-155 | the row, column and box scans return true exactly when `Legal` holds |
| Sudoku.LegalIffUnitFree | src/SudokuGenerator.ts:144-155 | the three scans together mean: num is absent from every cell sharing a row, column or box with the target cell |
| Sudoku.PlaceKeepsConsistent | src/SudokuGenerator.ts:40-41 | writing a legal digit into an empty cell of a consistent grid keeps it consistent |
| Sudoku.CompletionValueLegal | src/SudokuGenerator.ts:124-131 | any completion puts a digit into an empty cell that the scans accept, and it still completes the grid with that digit placed |
| Sudoku.IllegalHasNoCompletion | src/SudokuGenerator.ts:125-131 | a digit the scans reject never leads to a completion, so skipping it loses nothing |
| Sudoku.CompletionPicksDigit | src/SudokuGenerator.ts:124-132 | a completable grid stays completable for some digit 1..9 in its first empty cell, so trying all nine is exhaustive |
| Sudoku.SubgridConsistent | src/SudokuGenerator.ts:100-104 | blanking cells of a consistent grid keeps it consistent |
| Sudoku.ZerosSet | src/SudokuGenerator.ts:100-101 | setting a cell changes the count of empty cells by exactly the cell's change between empty and filled |
| Sudoku.FullHasNoZeros | src/SudokuGenerator.ts:32 | a full grid has no empty cells |
| Sudoku.UnitHasEveryDigitOnce | src/SudokuGenerator.ts:49-67 | nine pairwise distinct digits hold each digit 1..9 exactly once |
| Sudoku.SolvedRow | src/SudokuGenerator.ts:51-53 | every row of a completed Sudoku holds each digit exactly once |
| Sudoku.SolvedColumn | src/SudokuGenerator.ts:55-57 | every column of a completed Sudoku holds each digit exactly once |
| Sudoku.SolvedBox | src/SudokuGenerator.ts:59-65 | every 3x3 box of a completed Sudoku holds each digit exactly once |
| Sudoku.SolvedCount | src/SudokuGame.tsx:297-310 | a completed Sudoku holds every digit exactly nine times |
| Random.Step | src/SudokuGenerator.ts:19 | the next state is (s * 9301 + 49297) mod 233280 and below the modulus |
| Random.SwapIndex | src/SudokuGenerator.ts:72 | floor(rng() * (i + 1)), computed exactly in integers, lies in [0, i] |
| Random.SeededRandom.constructor | src/SudokuGenerator.ts:16-17 | the captured state starts at the seed |
| Random.SeededRandom.Next | src/SudokuGenerator.ts:18-21 | each draw advances the state by one LCG step and returns it |
| Random.ShufflePermutes | src/SudokuGenerator.ts:69-76 | the shuffle is a permutation of its input (same multiset) |
| Random.ShuffleDraws | src/SudokuGenerator.ts:69-76 | the shuffle consumes exactly length - 1 draws |
| Random.ShuffleDistinct | src/SudokuGenerator.ts:69-76 | shuffling pairwise distinct elements keeps them pairwise distinct |
| Random.ShuffleMembers | src/SudokuGenerator.ts:69-76 | every element of the shuffle comes from the input |
| Generator.FillSound | src/SudokuGenerator.ts:31-47 | if fillGrid succeeds, the grid is a completed Sudoku that keeps every cell already placed; if it fails, the grid is exactly as before |
| Generator.TryDigitsSound | src/SudokuGenerator.ts:39-46 | the candidate loop has the same success and failure guarantees as fillGrid |
| Generator.TryLegalSound | src/SudokuGenerator.ts:40-43 | placing a legal candidate, recursing and resetting on failure keeps those guarantees |
| Generator.SolutionIsSolvedOrEmpty | src/SudokuGenerator.ts:25-29 | generateSolution yields a completed Sudoku, or the all-zero grid should the search fail |
| Generator.AllPositionsFacts | src/SudokuGenerator.ts:91-94 | the 81 positions are distinct, in range, and cover every cell |
| Generator.BlankAllAt | src/SudokuGenerator.ts:97-109 | after blanking a list of positions, a cell is 0 exactly when it is listed, and otherwise keeps the solution's digit |
| Generator.BlankAllZeros | src/SudokuGenerator.ts:96-109 | blanking k distinct cells of a full grid leaves exactly k empty cells |
| Generator.BlankStep | src/SudokuGenerator.ts:100-105 | each tentative blank leaves a consistent grid that can still be completed, so the check approves it |
| Generator.GeneratePuzzleCorrect | src/SudokuGenerator.ts:79-112 | every clue equals the solution; the solution is a completed Sudoku, or both grids are all zeros; with a completed solution exactly 35, 45 or 55 cells are blank and the puzzle can be completed |
| Generator.SudokuGenerator.constructor | src/SudokuGenerator.ts:6-13 | a generator starts from the all-zero grid with its random state at the seed |
| Generator.SudokuGenerator.Shuffle | src/SudokuGenerator.ts:69-76 | the in-place descending swap loop on a copy gives the specified shuffle and the state after its draws |
| Generator.SudokuGenerator.IsValid | src/SudokuGenerator.ts:49-67 | isValid on the working grid is `Legal` |
| Generator.SudokuGenerator.FillGrid | src/SudokuGenerator.ts:31-47 | the recursive fill returns the flag, grid and random state of the `Fill` specification |
| Generator.SudokuGenerator.GenerateSolution | src/SudokuGenerator.ts:25-29 | the solution equals the specified fill from the current state, and is a completed Sudoku or all zeros |
| Generator.SudokuGenerator.GeneratePuzzle | src/SudokuGenerator.ts:79-112 | puzzle and solution equal `GeneratePuzzleSpec` for the current random state; the state ends at `SeedAfterPuzzle` |
| Generator.SudokuGenerator.HasUniqueSolution | src/SudokuGenerator.ts:114-142 | on a consistent grid the answer is true exactly when the grid has a completion |
| Generator.Solver.constructor | src/SudokuGenerator.ts:116-117 | the search starts on a private copy of the grid with a count of 0 |
| Generator.Solver.Solve | src/SudokuGenerator.ts:119-138 | on success the count is 1 and the copy is a full extension of the grid; on failure the copy is restored, the count stays 0, and a consistent grid had no completion |
| Storage.CalculateScore | src/storage.ts:333-345 | the score (base + half a point per second under 600 − 20 per hint − 10 per error, floored) is never negative |
| Storage.ScoreClosedForm | src/storage.ts:339-344 | the real-valued score equals max(0, (2·base + max(0, 600 − time) − 40·hints − 20·errors) div 2) |
| Storage.ScoreAntitone | src/storage.ts:340-344 | more time, hints or errors never raise the score |
| Storage.ScoreBounds | src/storage.ts:339-344 | no time bonus from 600 seconds on; at most base + 300; with no hints or errors at least base |
| Storage.HoldsMonotone | src/storage.ts:57-128 | every achievement condition stays true as wins, best streak and score grow and the hard best time shrinks |
| Storage.AchievementIdsDistinct | src/storage.ts:57-128 | the ten achievement ids are pairwise distinct |
| Storage.LoadStats | src/storage.ts:145-153 | the stored statistics when the key holds a readable record; a missing or unparsable key gives all-zero counters and no best times |
| Storage.StoredUnlock | src/storage.ts:172 | the lookup of an id, with a missing, null or empty entry read as null: it gives a time exactly when a non-empty one is stored under that id, and then that time |
| Storage.LoadAchievements | src/storage.ts:162-177 | the table in order, each entry unlocked exactly when storage holds a non-empty time under its id, and then with that time; all locked when nothing readable is stored |
| Storage.AchievementData | src/storage.ts:180-187 | the saved record has exactly the ids of the list as keys |
| Storage.AchievementDataAt | src/storage.ts:183-185 | an entry whose id does not recur later is saved with its own unlock time |
| Storage.SaveLoadRoundTrip | src/storage.ts:162-187 | loading what was saved gives back the same achievement list |
| Storage.CheckAll | src/storage.ts:190-199 | ids and order kept, unlocked entries unchanged, and an entry ends unlocked exactly when it was unlocked or its condition holds; a newly unlocked entry is stamped with the current time |
| Storage.CheckIdempotent | src/storage.ts:190-205 | checking again with the same statistics changes nothing and unlocks nothing new |
| Storage.CheckMonotone | src/storage.ts:190-199 | with more progress, every entry unlocked before is still unlocked |
| Storage.ToInt32 | src/storage.ts:218 | `hash & hash` wraps into the signed 32-bit range |
| Storage.HashStepIs31 | src/storage.ts:217-218 | the shift-subtract-add step equals multiplication by 31 plus the code, wrapped to 32 bits |
| Storage.HashIsPoly | src/storage.ts:215-219 | the loop's hash is the base-31 polynomial of the date string, wrapped to 32 bits |
| Storage.DailySeedOf | src/storage.ts:220 | the seed is in [0, 2^31] |
| Storage.GetDailySeed | src/storage.ts:213-221 | the loop returns the absolute value of the wrapped 31-polynomial of today's date |
| Storage.LoadDailyChallenge | src/storage.ts:224-256 | always today's challenge: the stored one when dated today, else an uncompleted daily one seeded from the date, with no time, score or completion stamp |
| Storage.LoadDailyStable | src/storage.ts:236-243 | storing the loaded challenge and loading again gives the same challenge |
| Storage.CompletedDaily | src/storage.ts:265-274 | afterwards today's challenge is completed; an already completed one is not rewritten; otherwise time, score and completion stamp are recorded and the seed kept |
| Storage.CompleteDailyIdempotent | src/storage.ts:265-274 | a second completion on the same day keeps the first record |
| Storage.ConsecutiveDays | src/storage.ts:306-330 | unreadable data gives 0 and writes nothing; a record dated today gives its count and is left alone; one dated yesterday gives its count plus one, stored dated today; anything else, including no record, restarts at 1 dated today |
| Storage.ConsecutiveDaysSameDay | src/storage.ts:317-318 | asking twice on one day gives the same count and writes nothing the second time |
| Storage.ConsecutiveDaysNextDay | src/storage.ts:319-322 | asking on the next day extends the count by one |
| Storage.Store.constructor | src/storage.ts:48-54 | every key starts empty |
| Storage.Store.SaveStats | src/storage.ts:156-159 | the statistics key holds the given statistics |
| Storage.Store.SaveAchievements | src/storage.ts:180-187 | the loop builds the id-to-time record `AchievementData` and stores it |
| Storage.Store.CheckAchievements | src/storage.ts:190-205 | returns `CheckAll`; writes it back exactly when some entry was newly unlocked, otherwise leaves the key alone |
| Storage.Store.CompleteDailyChallenge | src/storage.ts:265-274 | the daily key becomes `CompletedDaily` of its old content |
| Storage.Store.GetConsecutiveDays | src/storage.ts:306-330 | count and key afterwards are `ConsecutiveDays` of the old key |
| Storage.Store.SaveGameState | src/storage.ts:277-280 | the saved-game key holds the given state |
| Storage.LoadGameState | src/storage.ts:283-291 | the saved game exactly when the key holds a readable one; null when it is missing or does not parse |
| Storage.Store.ClearGameState | src/storage.ts:294-297 | the saved-game key is removed |
| Game.SetCell | src/SudokuGame.tsx:209-210 | the copied board differs from the old one in the edited cell only |
| Game.Values | src/SudokuGame.tsx:48 | the grid of digits read off the board |
| Game.Insert | src/SudokuGame.tsx:218 | inserting adds exactly the one element (multiset) |
| Game.InsertSorted | src/SudokuGame.tsx:218 | inserting into a sorted list keeps it sorted |
| Game.Sort | src/SudokuGame.tsx:218 | the sorted notes are a sorted permutation of the input |
| Game.Remove | src/SudokuGame.tsx:216 | filtering drops exactly every copy of the digit (multiset) |
| Game.RemoveStrict | src/SudokuGame.tsx:216 | filtering keeps strictly increasing notes strictly increasing |
| Game.ToggleNote | src/SudokuGame.tsx:214-219 | the digit's membership flips, all other membership is kept, and valid notes stay valid |
| Game.SortedUnique | src/SudokuGame.tsx:218 | two sorted arrangements of one multiset are equal |
| Game.ToggleTwice | src/SudokuGame.tsx:214-219 | toggling the same digit twice gives back the original notes |
| Game.EditsKeepCellSound | src/SudokuGame.tsx:201-287 | note input, value input, erase and hint keep a cell's error mark on wrong digits only; a value is marked exactly when it differs from the solution |
| Game.EditKeepsHistory | src/SudokuGame.tsx:207-241 | an edit of a non-fixed cell keeps the board sound, its fixed cells, and the undo stack consistent with the old board pushed |
| Game.UndoKeepsHistory | src/SudokuGame.tsx:245-249 | popping a snapshot gives a sound board with the same fixed cells and a consistent rest of the stack |
| Game.InitialBoard | src/SudokuGame.tsx:70-77 | the new board shows the puzzle; exactly its clues are fixed; no notes and no error marks |
| Game.InitialBoardSound | src/SudokuGame.tsx:70-77 | a fresh board is sound against any solution |
| Game.RestoreBoard | src/SudokuGame.tsx:97-104 | the restored board shows the saved digits, fixed flags and notes, with no error marks |
| Game.SaveRestoreRoundTrip | src/SudokuGame.tsx:46-104 | saving a session and restoring it gives back the board with error marks cleared, and the same solution, time and counters |
| Game.RecordWinProgress | src/SudokuGame.tsx:169-185 | a win adds one game, one win and one streak step; the best streak becomes the larger of the old best and the new streak; losses stay, play time grows by the game's time and score by its score; a non-daily win records its time exactly when the difficulty's best time is missing, 0 or beaten, and no other best time changes; a non-zero best time never gets worse; with no hard best time of 0 on record, no achievement condition turns false |
| Game.AddWin | src/SudokuGame.tsx:169-185 | the field-by-field update gives `RecordWin`, whose bookkeeping `Game.RecordWinProgress` states |
| Game.CheckStoredAchievements | src/SudokuGame.tsx:188-189 | loading and checking leaves the achievements key as `AchievementsAfterWin` |
| Game.NatToString | src/SudokuGame.tsx:293 | decimal text of at least one digit character, one digit below 10 and at most two below 100 |
| Game.NatToStringNoLeadingZero | src/SudokuGame.tsx:293 | the decimal text starts with '0' exactly for 0, so no leading zero is written |
| Game.PadStart2 | src/SudokuGame.tsx:293 | the padded text is the original length, or two characters when shorter |
| Game.PadStart2Pads | src/SudokuGame.tsx:293 | the padded text ends with the original text, and every character before it is '0' |
| Game.FormatTime | src/SudokuGame.tsx:290-294 | the clock text has a ':' three from the end and is at least five characters, exactly five ("mm:ss") below 100 minutes |
| Game.FormatTimeDigits | src/SudokuGame.tsx:290-294 | every character of the clock text except the ':' is a decimal digit |
| Game.ParseNatToString | src/SudokuGame.tsx:293 | the decimal text reads back as the number |
| Game.ParsePadded | src/SudokuGame.tsx:293 | padding with a leading zero does not change the number read |
| Game.FormatTimeRoundTrip | src/SudokuGame.tsx:290-294 | the field before the ':' reads as the whole minutes, the two after it as the seconds modulo 60, and together they give the elapsed seconds |
| Game.FormatTimeParts | src/SudokuGame.tsx:290-294 | the field before the ':' reads as `seconds / 60` and the two digits after it as `seconds % 60` |
| Game.GameSession.constructor | src/SudokuGame.tsx:92-115 | a game saved at this difficulty is resumed as saved; otherwise a new game starts with the session's seed, or the draw when there is none; the session is valid either way |
| Game.GameSession.InitGame | src/SudokuGame.tsx:65-89 | the board is the generated puzzle for the session's seed, or the draw when there is none (medium's table for the daily), with its solution, clock 0, empty history, zero counters, running |
| Game.GameSession.NewGame | src/SudokuGame.tsx:352 | the saved game is removed and a fresh game starts from the session's seed, or from the new draw when there is none |
| Game.GameSession.Tick | src/SudokuGame.tsx:118-128 | a running game's clock advances by one; at a positive multiple of 30 seconds the game is saved first, with the time before the tick |
| Game.GameSession.SaveCurrentGame | src/SudokuGame.tsx:43-62 | a running, unfinished game is saved as digits, solution, fixed flags, notes and counters; otherwise the key is untouched |
| Game.GameSession.HandleNumberInput | src/SudokuGame.tsx:201-242 | a fixed cell is left alone; otherwise the board is pushed and only that cell changes: notes toggle, or the digit is written and flagged and counted when wrong; the game fails on the fifth error; the session stays valid |
| Game.GameSession.HandleErase | src/SudokuGame.tsx:252-265 | on a non-fixed cell the board is pushed and the cell's digit, notes and error mark are cleared |
| Game.GameSession.HandleHint | src/SudokuGame.tsx:268-287 | with hints left, on an empty non-fixed cell, the hint is counted, the board pushed and the solution's digit written; otherwise nothing changes; never more than 3 hints |
| Game.GameSession.HandleUndo | src/SudokuGame.tsx:245-249 | the board returns to the last snapshot, which is popped; the counters stay |
| Game.GameSession.CheckCompletion | src/SudokuGame.tsx:152-193 | the first time the board is full and equals the solution, the game is complete and stopped and the win recorded; otherwise nothing changes |
| Game.GameSession.RecordVictory | src/SudokuGame.tsx:162-190 | the statistics get the win and its score, achievements are checked against them, the saved game is removed, the other keys are kept |
| Game.GameSession.GetNumberCounts | src/SudokuGame.tsx:297-310 | the map has keys 1..9, and each holds how often that digit is on the board |
| Game.SolvedBoardCounts | src/SudokuGame.tsx:297-310 | a correctly completed board shows every digit nine times |

## Left out

- Rendering is not modelled: JSX, CSS classes, cell highlighting, modals and language polling are presentation only. The handlers take the selected cell as (row, col), so the "no selected cell" early return is not modelled.
- Timers are not modelled: the one-second interval, the `beforeunload` handler and the back button are the callers of `Tick` and `SaveCurrentGame`.
- Game.GameSession.CheckCompletion: in the source it is an effect that React runs after every change of the board. The model leaves it to the caller to invoke after each handler; no handler calls it.
- `Math.random` is not modelled. A game session without a `seed` prop generates with a natural number `draw` that its caller supplies, so a new game can differ from the last one as in the source. The model runs the seeded generator on that draw, while the source's unseeded generator calls `Math.random` directly; the puzzle's correctness holds for every draw either way.
- Random.SwapIndex: the source computes `Math.floor((s / 233280) * (i + 1))` in floating point. The model uses the exact integer quotient `s * (i + 1) div 233280`. The two agree except when floating-point rounding lands exactly on an integer boundary, which the model does not capture.
- Dates and time stamps (`new Date()`, `getTodayString`, yesterday's date) are parameters (`today`, `yesterday`, `now`). `recordLastPlayed` is a single store of today's date and is not modelled.
- Storage.GetDailySeed: `charCodeAt` yields UTF-16 code units. The model uses the character's code point, which is the same for the ASCII date strings the game hashes.
- JSON is not modelled: merging a partial stored record into the defaults (`{...defaults, ...parsed}`) and the shape of stored records are not modelled. A `Present` slot holds a well-formed value, and `Corrupt` stands for text that fails to parse.
- The `typeof window === 'undefined'` branches are not modelled; the store is always there. `saveDailyChallenge` is modelled only inside `Store.CompleteDailyChallenge`.
- Storage.AchievementDef: the achievement names, descriptions and icons are display text and are not modelled. Each condition is a `Condition` value rather than a closure.
- Game.GameSession.constructor: restoring requires a saved game of the shape the session writes: 9x9 grids and valid notes, which `Game.SaveRestoreRoundTrip` shows the session always writes. A hand-edited record of another shape is not modelled.
- The `grid.length === 0` guards of the completion check, `saveCurrentGame` and `getNumberCounts` are not modelled: a session's board is always 9x9 once the constructor returns.
- Game.Sort: `Array.prototype.sort` without a comparator compares decimal strings. For the digits 1..9 this is numeric order, which is what the model uses.
- Game.RecordWinProgress: a stored hard best time of exactly 0 passes the `?? 9999` test, yet the next hard win replaces it (`!currentBest`), which can turn "speed_demon"'s condition false. The preservation clause therefore excludes that case.
- Generator.SudokuGenerator.HasUniqueSolution: the name promises uniqueness, but the code tests solvability. The model proves what the code does. A counting check that stops at a second solution is not part of this model.
