/** Persistent state of the game and the score formula: statistics,
    achievements, the daily challenge, the saved game and the
    consecutive-days counter. The browser's localStorage is a Store object
    with one slot per key; what the browser supplies (today's date, the
    current time) comes in as parameters. */
module Storage {
  import opened Sudoku

  datatype Option<T> = None | Some(value: T)

  datatype Difficulty = Easy | Medium | Hard | Daily

  /** What a storage key holds: nothing (or an empty string), text that does
      not parse, or a parsed value. */
  datatype Slot<T> = Absent | Corrupt | Present(value: T)

  function Max(a: int, b: int): int {
    if a >= b then a else b
  }

  // ---------------------------------------------------------------------
  // Score
  // ---------------------------------------------------------------------

  function BaseScore(d: Difficulty): nat {
    match d
    case Easy => 100
    case Medium => 200
    case Hard => 400
    case Daily => 300
  }

  /** calculateScore, in the source's own (real) arithmetic: the base score
      of the difficulty, plus half a point per second under ten minutes,
      minus 20 per hint and 10 per error, rounded down and never negative. */
  function CalculateScore(d: Difficulty, time: int, hints: int, errors: int): (score: int)
    ensures score >= 0
  {
    var timeBonus := Max(0, 600 - time) as real * 0.5;
    Max(0, (BaseScore(d) as real + timeBonus - (hints * 20) as real - (errors * 10) as real).Floor)
  }

  /** The same score in integers only: halving the doubled sum rounds down
      exactly as Math.floor does. */
  lemma ScoreClosedForm(d: Difficulty, time: int, hints: int, errors: int)
    ensures CalculateScore(d, time, hints, errors)
         == Max(0, (2 * BaseScore(d) + Max(0, 600 - time) - 40 * hints - 20 * errors) / 2)
  {
    var n := 2 * BaseScore(d) + Max(0, 600 - time) - 40 * hints - 20 * errors;
    var x := BaseScore(d) as real + Max(0, 600 - time) as real * 0.5 - (hints * 20) as real - (errors * 10) as real;
    assert x == n as real / 2.0;
    var q := n / 2;
    assert n == 2 * q + n % 2;
    assert q as real <= x < (q + 1) as real;
  }

  /** Each hint, each error and each second can only lower the score. */
  lemma ScoreAntitone(d: Difficulty, t1: int, h1: int, e1: int, t2: int, h2: int, e2: int)
    requires t1 <= t2 && h1 <= h2 && e1 <= e2
    ensures CalculateScore(d, t2, h2, e2) <= CalculateScore(d, t1, h1, e1)
  {
    ScoreClosedForm(d, t1, h1, e1);
    ScoreClosedForm(d, t2, h2, e2);
  }

  /** From ten minutes on there is no time bonus, and a game without hints
      or errors earns at most the base score plus 300. */
  lemma ScoreBounds(d: Difficulty, time: int, hints: int, errors: int)
    requires time >= 0 && hints >= 0 && errors >= 0
    ensures time >= 600 ==> CalculateScore(d, time, hints, errors) == Max(0, BaseScore(d) - 20 * hints - 10 * errors)
    ensures CalculateScore(d, time, hints, errors) <= BaseScore(d) + 300
    ensures CalculateScore(d, time, 0, 0) >= BaseScore(d)
  {
    ScoreClosedForm(d, time, hints, errors);
    ScoreClosedForm(d, time, 0, 0);
  }

  // ---------------------------------------------------------------------
  // Statistics and achievements
  // ---------------------------------------------------------------------

  /** bestTimes holds a key only for a difficulty with a recorded time. */
  datatype GameStats = GameStats(
    totalGames: int,
    totalWins: int,
    totalLosses: int,
    currentStreak: int,
    bestStreak: int,
    totalPlayTime: int,
    bestTimes: map<Difficulty, int>,
    totalScore: int)

  function DefaultStats(): GameStats {
    GameStats(0, 0, 0, 0, 0, 0, map[], 0)
  }

  /** loadStats: the stored statistics, or the all-zero defaults when the
      key is missing or does not parse. */
  function LoadStats(stored: Slot<GameStats>): (r: GameStats)
    ensures stored.Present? ==> r == stored.value
    ensures !stored.Present? ==>
      r.totalGames == 0 && r.totalWins == 0 && r.totalLosses == 0 && r.currentStreak == 0
      && r.bestStreak == 0 && r.totalPlayTime == 0 && r.bestTimes == map[] && r.totalScore == 0
  {
    if stored.Present? then stored.value else DefaultStats()
  }

  /** The unlock conditions of the achievement table. */
  datatype Condition =
    | WinsAtLeast(wins: int)
    | BestStreakAtLeast(streak: int)
    | HardTimeUnder(seconds: int)
    | ScoreAtLeast(points: int)
    | Never

  /** A missing hard best time counts as 9999 seconds. */
  function HardBest(s: GameStats): int {
    if Hard in s.bestTimes then s.bestTimes[Hard] else 9999
  }

  predicate Holds(c: Condition, s: GameStats) {
    match c
    case WinsAtLeast(n) => s.totalWins >= n
    case BestStreakAtLeast(n) => s.bestStreak >= n
    case HardTimeUnder(t) => HardBest(s) < t
    case ScoreAtLeast(n) => s.totalScore >= n
    case Never => false
  }

  datatype AchievementDef = AchievementDef(id: string, condition: Condition)

  const AchievementTable: seq<AchievementDef> := [
    AchievementDef("first_win", WinsAtLeast(1)),
    AchievementDef("win_10", WinsAtLeast(10)),
    AchievementDef("win_50", WinsAtLeast(50)),
    AchievementDef("win_100", WinsAtLeast(100)),
    AchievementDef("streak_3", BestStreakAtLeast(3)),
    AchievementDef("streak_7", BestStreakAtLeast(7)),
    AchievementDef("speed_demon", HardTimeUnder(300)),
    AchievementDef("perfect_game", Never),
    AchievementDef("daily_streak_7", Never),
    AchievementDef("score_10000", ScoreAtLeast(10000))
  ]

  /** s2 is at least as far along as s1 in everything a condition reads. */
  predicate Dominates(s2: GameStats, s1: GameStats) {
    s2.totalWins >= s1.totalWins && s2.bestStreak >= s1.bestStreak
    && s2.totalScore >= s1.totalScore && HardBest(s2) <= HardBest(s1)
  }

  /** Every condition is monotone: progress never makes one false. */
  lemma HoldsMonotone(c: Condition, s1: GameStats, s2: GameStats)
    requires Dominates(s2, s1) && Holds(c, s1)
    ensures Holds(c, s2)
  {
  }

  /** The table's ids are pairwise distinct. */
  lemma AchievementIdsDistinct()
    ensures forall i, j :: 0 <= i < j < |AchievementTable| ==> AchievementTable[i].id != AchievementTable[j].id
  {
    forall i, j | 0 <= i < j < |AchievementTable|
      ensures AchievementTable[i].id != AchievementTable[j].id
    {
      var a, b := AchievementTable[i].id, AchievementTable[j].id;
      assert |a| != |b| || a[0] != b[0] || a[|a| - 1] != b[|b| - 1] || a[4] != b[4];
    }
  }

  datatype Achievement = Achievement(id: string, condition: Condition, unlockedAt: Option<string>)

  /** JavaScript truthiness of unlockedAt: null and "" both mean locked. */
  predicate IsUnlocked(a: Achievement) {
    a.unlockedAt.Some? && a.unlockedAt.value != ""
  }

  /** `parsed[id] || null`: a missing key, null and "" all read as null. */
  function StoredUnlock(stored: Slot<map<string, Option<string>>>, id: string): (u: Option<string>)
    ensures u.Some? ==> u.value != "" && stored.Present? && id in stored.value && stored.value[id] == u
    ensures stored.Present? && id in stored.value && stored.value[id].Some? && stored.value[id].value != "" ==>
      u == stored.value[id]
  {
    if stored.Present? && id in stored.value && stored.value[id].Some? && stored.value[id].value != ""
    then stored.value[id] else None
  }

  /** A list of achievements in the table's order, none of them holding the
      empty string as its unlock time. */
  predicate Conforms(list: seq<Achievement>) {
    |list| == |AchievementTable|
    && (forall i :: 0 <= i < |list| ==> list[i].id == AchievementTable[i].id && list[i].condition == AchievementTable[i].condition)
    && (forall i :: 0 <= i < |list| ==> list[i].unlockedAt != Some(""))
  }

  /** loadAchievements: the table in order, each entry unlocked exactly when
      storage holds a non-empty time under its id; with nothing usable
      stored, every entry is locked. */
  function LoadAchievements(stored: Slot<map<string, Option<string>>>): (r: seq<Achievement>)
    ensures Conforms(r)
    ensures forall i :: 0 <= i < |r| ==> (IsUnlocked(r[i]) <==> r[i].unlockedAt.Some?)
    ensures forall i :: 0 <= i < |r| && r[i].unlockedAt.Some? ==>
      stored.Present? && r[i].id in stored.value && stored.value[r[i].id] == r[i].unlockedAt
    ensures forall i :: 0 <= i < |r| ==>
      (stored.Present? && r[i].id in stored.value && stored.value[r[i].id].Some? && stored.value[r[i].id].value != ""
       ==> r[i].unlockedAt == stored.value[r[i].id])
    ensures !stored.Present? ==> forall i :: 0 <= i < |r| ==> !IsUnlocked(r[i])
  {
    seq(|AchievementTable|, i requires 0 <= i < |AchievementTable| =>
      Achievement(AchievementTable[i].id, AchievementTable[i].condition, StoredUnlock(stored, AchievementTable[i].id)))
  }

  /** The record saveAchievements writes: id to unlock time, a later entry
      overwriting an earlier one with the same id. */
  function AchievementData(list: seq<Achievement>): (m: map<string, Option<string>>)
    ensures forall i :: 0 <= i < |list| ==> list[i].id in m
    ensures forall id :: id in m ==> exists i :: 0 <= i < |list| && list[i].id == id
  {
    if |list| == 0 then map[]
    else
      var m' := AchievementData(list[..|list| - 1]);
      assert forall i :: 0 <= i < |list| - 1 ==> list[..|list| - 1][i] == list[i];
      m'[list[|list| - 1].id := list[|list| - 1].unlockedAt]
  }

  /** An entry whose id does not recur later is stored as it is. */
  lemma {:induction false} AchievementDataAt(list: seq<Achievement>, i: int)
    requires 0 <= i < |list|
    requires forall j :: i < j < |list| ==> list[j].id != list[i].id
    ensures AchievementData(list)[list[i].id] == list[i].unlockedAt
  {
    if i < |list| - 1 {
      var p := list[..|list| - 1];
      assert p[i] == list[i];
      assert forall j :: i < j < |p| ==> p[j] == list[j];
      AchievementDataAt(p, i);
    }
  }

  /** Saving and loading again gives back the same achievements. */
  lemma SaveLoadRoundTrip(list: seq<Achievement>)
    requires Conforms(list)
    ensures LoadAchievements(Present(AchievementData(list))) == list
  {
    AchievementIdsDistinct();
    var r := LoadAchievements(Present(AchievementData(list)));
    forall i | 0 <= i < |list|
      ensures r[i] == list[i]
    {
      AchievementDataAt(list, i);
    }
  }

  /** One entry of checkAchievements: a locked entry whose condition holds
      is unlocked at `now`; every other entry is kept. */
  function Unlock(s: GameStats, a: Achievement, now: string): Achievement {
    if !IsUnlocked(a) && Holds(a.condition, s) then a.(unlockedAt := Some(now)) else a
  }

  /** checkAchievements' result: the list, entry by entry, after Unlock.
      Ids and order are kept, unlocked entries keep their time, and (for a
      non-empty time stamp) an entry ends unlocked exactly when it was
      unlocked or its condition holds. */
  function CheckAll(s: GameStats, list: seq<Achievement>, now: string): (r: seq<Achievement>)
    ensures |r| == |list|
    ensures forall i :: 0 <= i < |list| ==> r[i].id == list[i].id && r[i].condition == list[i].condition
    ensures forall i :: 0 <= i < |list| && IsUnlocked(list[i]) ==> r[i] == list[i]
    ensures now != "" ==> forall i :: 0 <= i < |list| ==> (IsUnlocked(r[i]) <==> IsUnlocked(list[i]) || Holds(list[i].condition, s))
    ensures now != "" && Conforms(list) ==> Conforms(r)
    ensures forall i :: 0 <= i < |list| && !IsUnlocked(list[i]) && Holds(list[i].condition, s) ==>
      r[i].unlockedAt == Some(now)
  {
    seq(|list|, i requires 0 <= i < |list| => Unlock(s, list[i], now))
  }

  predicate AnyNewUnlock(s: GameStats, list: seq<Achievement>) {
    exists i :: 0 <= i < |list| && !IsUnlocked(list[i]) && Holds(list[i].condition, s)
  }

  /** Checking again with the same statistics changes nothing and unlocks
      nothing new. */
  lemma CheckIdempotent(s: GameStats, list: seq<Achievement>, now: string, later: string)
    requires now != ""
    ensures CheckAll(s, CheckAll(s, list, now), later) == CheckAll(s, list, now)
    ensures !AnyNewUnlock(s, CheckAll(s, list, now))
  {
    var r := CheckAll(s, list, now);
    assert forall i :: 0 <= i < |r| ==> IsUnlocked(r[i]) || !Holds(r[i].condition, s);
  }

  /** More progress unlocks at least as much. */
  lemma CheckMonotone(s1: GameStats, s2: GameStats, list: seq<Achievement>, now: string, i: int)
    requires now != "" && Dominates(s2, s1) && 0 <= i < |list|
    requires IsUnlocked(CheckAll(s1, list, now)[i])
    ensures IsUnlocked(CheckAll(s2, list, now)[i])
  {
    if !IsUnlocked(list[i]) {
      HoldsMonotone(list[i].condition, s1, s2);
    }
  }

  // ---------------------------------------------------------------------
  // Daily challenge
  // ---------------------------------------------------------------------

  const TwoTo31: int := 0x8000_0000
  const TwoTo32: int := 0x1_0000_0000

  /** ECMAScript ToInt32: reduce modulo 2^32 into [-2^31, 2^31). */
  function ToInt32(x: int): (y: int)
    ensures -TwoTo31 <= y < TwoTo31
  {
    (x + TwoTo31) % TwoTo32 - TwoTo31
  }

  /** ToInt32 ignores multiples of 2^32. */
  lemma Int32Congruent(x: int, k: int)
    ensures ToInt32(x + k * TwoTo32) == ToInt32(x)
  {
    var a := x + TwoTo31;
    var q, r := a / TwoTo32, a % TwoTo32;
    assert a + k * TwoTo32 == (q + k) * TwoTo32 + r;
  }

  lemma Int32Offset(x: int) returns (k: int)
    ensures ToInt32(x) == x + k * TwoTo32
  {
    k := -((x + TwoTo31) / TwoTo32);
  }

  /** One round of the loop: hash = ((hash << 5) - hash) + code, then
      hash & hash. */
  function HashStep(h: int, code: int): (h': int)
    ensures -TwoTo31 <= h' < TwoTo31
  {
    ToInt32(ToInt32(h * 32) - h + code)
  }

  /** The hash of a string: the loop's value after every character. */
  function Hash(s: string): (h: int)
    ensures -TwoTo31 <= h < TwoTo31
  {
    if |s| == 0 then 0 else HashStep(Hash(s[..|s| - 1]), s[|s| - 1] as int)
  }

  /** The polynomial 31-hash computed without overflow. */
  function Poly(s: string): int {
    if |s| == 0 then 0 else 31 * Poly(s[..|s| - 1]) + s[|s| - 1] as int
  }

  /** The shift-and-subtract step is multiplication by 31 modulo 2^32. */
  lemma HashStepIs31(h: int, code: int)
    ensures HashStep(h, code) == ToInt32(31 * h + code)
  {
    var k := Int32Offset(h * 32);
    Int32Congruent(31 * h + code, k);
  }

  /** The daily hash is the 31-polynomial of the date wrapped to 32 bits. */
  lemma {:induction false} HashIsPoly(s: string)
    ensures Hash(s) == ToInt32(Poly(s))
  {
    if |s| > 0 {
      var p := s[..|s| - 1];
      var c := s[|s| - 1] as int;
      HashIsPoly(p);
      HashStepIs31(Hash(p), c);
      var k := Int32Offset(Poly(p));
      assert 31 * Hash(p) + c == 31 * Poly(p) + c + (31 * k) * TwoTo32;
      Int32Congruent(31 * Poly(p) + c, 31 * k);
    }
  }

  function Abs(x: int): int {
    if x < 0 then -x else x
  }

  /** The seed of a date's challenge: |hash|, which lies in [0, 2^31]. */
  function DailySeedOf(date: string): (seed: int)
    ensures 0 <= seed <= TwoTo31
  {
    Abs(Hash(date))
  }

  /** getDailySeed over today's date string. */
  method GetDailySeed(today: string) returns (seed: int)
    ensures seed == DailySeedOf(today) == Abs(ToInt32(Poly(today)))
    ensures 0 <= seed <= TwoTo31
  {
    var hash := 0;
    for i := 0 to |today|
      invariant hash == Hash(today[..i])
    {
      assert today[..i + 1][..i] == today[..i];
      hash := ToInt32(ToInt32(hash * 32) - hash + today[i] as int);
    }
    assert today[..|today|] == today;
    HashIsPoly(today);
    seed := if hash < 0 then -hash else hash;
  }

  datatype DailyChallenge = DailyChallenge(
    date: string,
    seed: int,
    difficulty: Difficulty,
    completed: bool,
    completedAt: Option<string>,
    time: Option<int>,
    score: Option<int>)

  function NewDaily(today: string): DailyChallenge {
    DailyChallenge(today, DailySeedOf(today), Daily, false, None, None, None)
  }

  predicate StoredToday(stored: Slot<DailyChallenge>, today: string) {
    stored.Present? && stored.value.date == today
  }

  /** loadDailyChallenge: always today's challenge; the stored one when it
      is today's, otherwise a fresh, uncompleted one seeded from the date. */
  function LoadDailyChallenge(stored: Slot<DailyChallenge>, today: string): (c: DailyChallenge)
    ensures c.date == today
    ensures StoredToday(stored, today) ==> c == stored.value
    ensures !StoredToday(stored, today) ==>
      !c.completed && c.seed == DailySeedOf(today) && c.difficulty == Daily
      && c.completedAt.None? && c.time.None? && c.score.None?
  {
    if StoredToday(stored, today) then stored.value else NewDaily(today)
  }

  /** Storing what was loaded and loading again gives the same challenge. */
  lemma LoadDailyStable(stored: Slot<DailyChallenge>, today: string)
    ensures LoadDailyChallenge(Present(LoadDailyChallenge(stored, today)), today) == LoadDailyChallenge(stored, today)
  {
  }

  /** The daily slot after completeDailyChallenge: today's challenge is
      completed with the given time and score unless it already was, in
      which case nothing is written. */
  function CompletedDaily(stored: Slot<DailyChallenge>, today: string, now: string, time: int, score: int): (r: Slot<DailyChallenge>)
    ensures LoadDailyChallenge(r, today).completed
    ensures LoadDailyChallenge(stored, today).completed ==> r == stored
    ensures !LoadDailyChallenge(stored, today).completed ==>
      r.Present? && r.value.date == today && r.value.time == Some(time) && r.value.score == Some(score)
      && r.value.completedAt == Some(now) && r.value.seed == LoadDailyChallenge(stored, today).seed
  {
    var c := LoadDailyChallenge(stored, today);
    if c.completed then stored
    else Present(c.(completed := true, completedAt := Some(now), time := Some(time), score := Some(score)))
  }

  /** A second completion on the same day keeps the first one's record. */
  lemma CompleteDailyIdempotent(stored: Slot<DailyChallenge>, today: string, now1: string, time1: int, score1: int,
                                now2: string, time2: int, score2: int)
    ensures var once := CompletedDaily(stored, today, now1, time1, score1);
      CompletedDaily(once, today, now2, time2, score2) == once
  {
  }

  // ---------------------------------------------------------------------
  // Consecutive days
  // ---------------------------------------------------------------------

  datatype DayCount = DayCount(count: int, lastDate: string)

  /** getConsecutiveDays: the count and the slot afterwards. Unreadable data
      gives 0 and writes nothing; today's record is returned as it is; a
      record from yesterday is extended by one day; anything else restarts
      the count at 1. */
  function ConsecutiveDays(stored: Slot<DayCount>, today: string, yesterday: string): (r: (int, Slot<DayCount>))
    ensures stored.Corrupt? ==> r == (0, stored)
    ensures r.1 == stored || r.1 == Present(DayCount(r.0, today))
    ensures !stored.Corrupt? && today != "" ==> r.1.Present? && r.1.value.lastDate == today
    ensures var data := if stored.Present? then stored.value else DayCount(0, "");
      !stored.Corrupt? && data.lastDate == today ==> r == (data.count, stored)
    ensures var data := if stored.Present? then stored.value else DayCount(0, "");
      !stored.Corrupt? && data.lastDate != today && data.lastDate == yesterday ==>
        r == (data.count + 1, Present(DayCount(data.count + 1, today)))
    ensures var data := if stored.Present? then stored.value else DayCount(0, "");
      !stored.Corrupt? && data.lastDate != today && data.lastDate != yesterday ==>
        r == (1, Present(DayCount(1, today)))
  {
    if stored.Corrupt? then (0, stored)
    else
      var data := if stored.Present? then stored.value else DayCount(0, "");
      if data.lastDate == today then (data.count, stored)
      else if data.lastDate == yesterday then (data.count + 1, Present(DayCount(data.count + 1, today)))
      else (1, Present(DayCount(1, today)))
  }

  /** Asking twice on the same day gives the same count and writes nothing
      the second time. */
  lemma ConsecutiveDaysSameDay(stored: Slot<DayCount>, today: string, yesterday: string, yesterday2: string)
    ensures var first := ConsecutiveDays(stored, today, yesterday);
      ConsecutiveDays(first.1, today, yesterday2) == (first.0, first.1)
  {
  }

  /** Asking on the next day extends the count by one. */
  lemma ConsecutiveDaysNextDay(stored: Slot<DayCount>, day1: string, before1: string, day2: string)
    requires !stored.Corrupt? && day2 != day1
    ensures var first := ConsecutiveDays(stored, day1, before1);
      ConsecutiveDays(first.1, day2, day1).0 == first.0 + 1
  {
  }

  // ---------------------------------------------------------------------
  // The saved game
  // ---------------------------------------------------------------------

  datatype GameState = GameState(
    grid: Grid,
    solution: Grid,
    fixedCells: seq<seq<bool>>,
    notes: seq<seq<seq<int>>>,
    difficulty: Difficulty,
    gameTime: int,
    hintCount: int,
    errorCount: int,
    score: int,
    startedAt: string)

  /** loadGameState: the saved game, or none when the key is missing or
      does not parse. */
  function LoadGameState(stored: Slot<GameState>): (r: Option<GameState>)
    ensures r.Some? <==> stored.Present?
    ensures r.Some? ==> r.value == stored.value
  {
    if stored.Present? then Some(stored.value) else None
  }

  /** localStorage: one slot per key the game uses. */
  class Store {
    var stats: Slot<GameStats>
    var achievements: Slot<map<string, Option<string>>>
    var daily: Slot<DailyChallenge>
    var gameState: Slot<GameState>
    var consecutiveDays: Slot<DayCount>

    constructor ()
      ensures stats == Absent && achievements == Absent && daily == Absent
      ensures gameState == Absent && consecutiveDays == Absent
    {
      stats := Absent;
      achievements := Absent;
      daily := Absent;
      gameState := Absent;
      consecutiveDays := Absent;
    }

    method SaveStats(s: GameStats)
      modifies this`stats
      ensures stats == Present(s)
    {
      stats := Present(s);
    }

    /** saveAchievements: builds the id-to-time record entry by entry and
        writes it. */
    method SaveAchievements(list: seq<Achievement>)
      modifies this`achievements
      ensures achievements == Present(AchievementData(list))
    {
      var data: map<string, Option<string>> := map[];
      for i := 0 to |list|
        invariant data == AchievementData(list[..i])
      {
        assert list[..i + 1][..i] == list[..i];
        data := data[list[i].id := list[i].unlockedAt];
      }
      assert list[..|list|] == list;
      achievements := Present(data);
    }

    /** checkAchievements: unlocks what the statistics now meet and writes
        the list back only when something was newly unlocked. */
    method CheckAchievements(s: GameStats, current: seq<Achievement>, now: string) returns (updated: seq<Achievement>)
      modifies this`achievements
      ensures updated == CheckAll(s, current, now)
      ensures AnyNewUnlock(s, current) ==> achievements == Present(AchievementData(updated))
      ensures !AnyNewUnlock(s, current) ==> achievements == old(achievements)
    {
      var newAchievements: seq<Achievement> := [];
      updated := [];
      for i := 0 to |current|
        invariant updated == CheckAll(s, current[..i], now)
        invariant |newAchievements| > 0 <==> AnyNewUnlock(s, current[..i])
      {
        var a := current[i];
        assert forall j :: 0 <= j < i ==> current[..i + 1][j] == current[..i][j];
        if !IsUnlocked(a) && Holds(a.condition, s) {
          var unlocked := a.(unlockedAt := Some(now));
          newAchievements := newAchievements + [unlocked];
          updated := updated + [unlocked];
        } else {
          updated := updated + [a];
        }
      }
      assert current[..|current|] == current;
      if |newAchievements| > 0 {
        SaveAchievements(updated);
      }
    }

    /** completeDailyChallenge on date `today` at time stamp `now`. */
    method CompleteDailyChallenge(today: string, now: string, time: int, score: int)
      modifies this`daily
      ensures daily == CompletedDaily(old(daily), today, now, time, score)
    {
      var challenge := LoadDailyChallenge(daily, today);
      if !challenge.completed {
        challenge := challenge.(completed := true, completedAt := Some(now), time := Some(time), score := Some(score));
        daily := Present(challenge);
      }
    }

    method GetConsecutiveDays(today: string, yesterday: string) returns (n: int)
      modifies this`consecutiveDays
      ensures (n, consecutiveDays) == ConsecutiveDays(old(consecutiveDays), today, yesterday)
    {
      if consecutiveDays.Corrupt? {
        return 0;
      }
      var data := if consecutiveDays.Present? then consecutiveDays.value else DayCount(0, "");
      if data.lastDate == today {
        n := data.count;
      } else if data.lastDate == yesterday {
        n := data.count + 1;
        consecutiveDays := Present(DayCount(n, today));
      } else {
        n := 1;
        consecutiveDays := Present(DayCount(1, today));
      }
    }

    method SaveGameState(s: GameState)
      modifies this`gameState
      ensures gameState == Present(s)
    {
      gameState := Present(s);
    }

    method ClearGameState()
      modifies this`gameState
      ensures gameState == Absent
    {
      gameState := Absent;
    }
  }
}
