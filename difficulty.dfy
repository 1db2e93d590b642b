/**
  The difficulty ladder of one theme: which level is current, how one puzzle
  attempt is recorded, and how a reported session turns into ten attempts.
 */
module Difficulty {
  import opened Model

  /**
    Accuracy of a level is at least the threshold. With nothing solved the
    accuracy is 0. `correct / solved * 100 >= 80` is stated by cross-multiplying.
   */
  predicate Accurate(p: Progress) {
    if p.solved > 0 then p.correct * 100 >= AccuracyThreshold * p.solved
    else 0 >= AccuracyThreshold
  }

  /** A level is passed once it has enough puzzles solved and enough accuracy. */
  predicate Passed(p: Progress) {
    p.solved >= PuzzlesPerLevel && Accurate(p)
  }

  /**
    The integer test is the source's accuracy test in exact arithmetic: the
    accuracy, 0 with nothing solved and otherwise correct / solved * 100,
    reaches the threshold.
   */
  lemma AccuracyIsRatio(p: Progress)
    ensures Accurate(p) <==> p.solved > 0 && (p.correct as real) / (p.solved as real) * 100.0 >= AccuracyThreshold as real
  {
    if p.solved > 0 {
      var c, n := p.correct as real, p.solved as real;
      assert c / n * n == c;
      assert c / n * 100.0 >= 80.0 <==> c / n * 100.0 * n >= 80.0 * n;
      assert c / n * 100.0 * n == c * 100.0;
    }
  }

  /** A level is passed with at least 50 solved and a ratio of at least 0.8, so at least 40 correct. */
  lemma PassedIsVolumeAndRatio(p: Progress)
    ensures Passed(p) <==> p.solved >= PuzzlesPerLevel && (p.correct as real) / (p.solved as real) >= 0.8
    ensures Passed(p) ==> p.correct >= 40
  {
    AccuracyIsRatio(p);
    if p.solved >= PuzzlesPerLevel {
      var c, n := p.correct as real, p.solved as real;
      assert c / n * 100.0 >= 80.0 <==> c / n >= 0.8;
    }
  }

  /**
    The current level: the first level, in ladder order, that is not passed;
    None once every level is passed.
   */
  function CurrentLevel(p: seq<Progress>): (r: Option<nat>)
    ensures r.None? <==> forall j :: 0 <= j < |p| ==> Passed(p[j])
    ensures r.Some? ==> r.value < |p| && !Passed(p[r.value])
    ensures r.Some? ==> forall j :: 0 <= j < r.value ==> Passed(p[j])
  {
    if p == [] then None
    else if !Passed(p[0]) then Some(0)
    else
      match CurrentLevel(p[1..])
      case None => None
      case Some(k) => Some(k + 1)
  }

  /** Where a theme stands on the ladder: its current level, or |p| when all are passed. */
  function Rank(p: seq<Progress>): nat {
    match CurrentLevel(p)
    case None => |p|
    case Some(k) => k
  }

  /** The level's name, for a level the ladder has. */
  function LevelName(r: Option<nat>): Option<Level> {
    match r
    case Some(k) => if k < |Levels| then Some(Levels[k]) else None
    case None => None
  }

  /**
    The current level, found as the source finds it: a scan of the levels in
    order that stops at the first one short of the volume or the accuracy.
   */
  method GetThemeDifficulty(p: seq<Progress>) returns (r: Option<nat>)
    ensures r == CurrentLevel(p)
  {
    var i := 0;
    while i < |p|
      invariant 0 <= i <= |p|
      invariant forall j :: 0 <= j < i ==> Passed(p[j])
    {
      var level := p[i];
      if level.solved < PuzzlesPerLevel || !Accurate(level) {
        return Some(i);
      }
      i := i + 1;
    }
    return None;
  }

  /**
    One puzzle attempt: the current level's solved counter goes up by one and
    its correct counter by one when the attempt was correct. With every level
    passed nothing changes.
   */
  function Recorded(p: seq<Progress>, correct: bool): (r: seq<Progress>)
    ensures |r| == |p|
  {
    match CurrentLevel(p)
    case None => p
    case Some(k) =>
      var level := p[k];
      p[k := Progress(level.solved + 1, if correct then level.correct + 1 else level.correct)]
  }

  /**
    The source's update of one theme's ladder: find the current level with the
    scan, then bump its counters. `completed` reports that every level was
    already passed, and then the ladder is returned unchanged.
   */
  method UpdateProgress(p: seq<Progress>, correct: bool) returns (q: seq<Progress>, completed: bool)
    ensures completed <==> CurrentLevel(p).None?
    ensures q == Recorded(p, correct)
  {
    var current := GetThemeDifficulty(p);
    if current.None? {
      return p, true;
    }
    var k := current.value;
    var level := p[k];
    level := level.(solved := level.solved + 1);
    if correct {
      level := level.(correct := level.correct + 1);
    }
    return p[k := level], false;
  }

  /** Sum of the solved counters over all levels. */
  function TotalSolved(p: seq<Progress>): nat {
    if p == [] then 0 else TotalSolved(p[..|p| - 1]) + p[|p| - 1].solved
  }

  /** Sum of the correct counters over all levels. */
  function TotalCorrect(p: seq<Progress>): nat {
    if p == [] then 0 else TotalCorrect(p[..|p| - 1]) + p[|p| - 1].correct
  }

  lemma {:induction false} TotalsAfterUpdate(p: seq<Progress>, k: nat, x: Progress)
    requires k < |p|
    ensures TotalSolved(p[k := x]) + p[k].solved == TotalSolved(p) + x.solved
    ensures TotalCorrect(p[k := x]) + p[k].correct == TotalCorrect(p) + x.correct
  {
    var n := |p| - 1;
    if k < n {
      assert p[k := x][..n] == p[..n][k := x];
      TotalsAfterUpdate(p[..n], k, x);
    } else {
      assert p[k := x][..n] == p[..n];
    }
  }

  /** Recording touches the current level only, and only its two counters as described. */
  lemma RecordedChangesOnlyCurrent(p: seq<Progress>, correct: bool)
    ensures CurrentLevel(p).None? ==> Recorded(p, correct) == p
    ensures CurrentLevel(p).Some? ==>
      var k := CurrentLevel(p).value;
      && Recorded(p, correct)[k].solved == p[k].solved + 1
      && Recorded(p, correct)[k].correct == p[k].correct + (if correct then 1 else 0)
      && forall j :: 0 <= j < |p| && j != k ==> Recorded(p, correct)[j] == p[j]
  {
  }

  /** An attempt adds one solved puzzle, and one correct answer when correct, unless the ladder is complete. */
  lemma RecordedTotals(p: seq<Progress>, correct: bool)
    ensures CurrentLevel(p).None? ==> TotalSolved(Recorded(p, correct)) == TotalSolved(p)
    ensures CurrentLevel(p).Some? ==> TotalSolved(Recorded(p, correct)) == TotalSolved(p) + 1
    ensures CurrentLevel(p).Some? ==>
      TotalCorrect(Recorded(p, correct)) == TotalCorrect(p) + (if correct then 1 else 0)
  {
    match CurrentLevel(p)
    case None =>
    case Some(k) =>
      var level := p[k];
      TotalsAfterUpdate(p, k, Progress(level.solved + 1, if correct then level.correct + 1 else level.correct));
  }

  /** Recording keeps every level's correct count at or below its solved count. */
  lemma RecordedSound(p: seq<Progress>, correct: bool)
    requires SoundProgress(p)
    ensures SoundProgress(Recorded(p, correct))
  {
  }

  /** Recording never moves a theme back to an earlier level. */
  lemma RecordedNeverRegresses(p: seq<Progress>, correct: bool)
    ensures Rank(Recorded(p, correct)) >= Rank(p)
  {
  }

  /**
    The outcomes of a reported session: attempt i (from 0) is correct exactly
    when the score still left after i decrements is positive, that is, when i < score.
   */
  function SessionOutcomes(score: int): (o: seq<bool>)
    ensures |o| == SessionLength
    ensures forall i :: 0 <= i < |o| ==> (o[i] <==> i < score)
  {
    seq(SessionLength, i => score - i > 0)
  }

  /** How many outcomes are correct. */
  function CountCorrect(o: seq<bool>): nat {
    if o == [] then 0 else CountCorrect(o[..|o| - 1]) + (if o[|o| - 1] then 1 else 0)
  }

  /** `score` forced into 0..n. */
  function Clamp(score: int, n: nat): nat {
    if score < 0 then 0 else if score > n then n else score
  }

  lemma {:induction false} CountCorrectPrefix(score: int, i: nat)
    requires i <= SessionLength
    ensures CountCorrect(SessionOutcomes(score)[..i]) == Clamp(score, i)
  {
    if i > 0 {
      var o := SessionOutcomes(score);
      assert o[..i][..i - 1] == o[..i - 1];
      CountCorrectPrefix(score, i - 1);
    }
  }

  /** Of the ten attempts of a session, min(max(score, 0), 10) are correct. */
  lemma SessionCorrectCount(score: int)
    ensures CountCorrect(SessionOutcomes(score)) == Clamp(score, SessionLength)
  {
    var o := SessionOutcomes(score);
    assert o[..SessionLength] == o;
    CountCorrectPrefix(score, SessionLength);
  }

  /** The outcomes recorded one after the other, in order. */
  function RecordAll(p: seq<Progress>, o: seq<bool>): (r: seq<Progress>)
    ensures |r| == |p|
  {
    if o == [] then p else Recorded(RecordAll(p, o[..|o| - 1]), o[|o| - 1])
  }

  lemma RecordAllStep(p: seq<Progress>, o: seq<bool>, i: nat)
    requires i < |o|
    ensures RecordAll(p, o[..i + 1]) == Recorded(RecordAll(p, o[..i]), o[i])
  {
    assert o[..i + 1][..i] == o[..i];
  }

  /** A run of attempts keeps every level's correct count at or below its solved count. */
  lemma {:induction false} RecordAllSound(p: seq<Progress>, o: seq<bool>)
    requires SoundProgress(p)
    ensures SoundProgress(RecordAll(p, o))
  {
    if o != [] {
      RecordAllSound(p, o[..|o| - 1]);
      RecordedSound(RecordAll(p, o[..|o| - 1]), o[|o| - 1]);
    }
  }

  /** A run of attempts never moves a theme back to an earlier level. */
  lemma {:induction false} RecordAllNeverRegresses(p: seq<Progress>, o: seq<bool>)
    ensures Rank(RecordAll(p, o)) >= Rank(p)
  {
    if o != [] {
      RecordAllNeverRegresses(p, o[..|o| - 1]);
      RecordedNeverRegresses(RecordAll(p, o[..|o| - 1]), o[|o| - 1]);
    }
  }

  /**
    A run of attempts adds at most one solved puzzle per attempt; when the
    ladder is still incomplete afterwards, none was dropped: exactly |o|
    solved and exactly the correct outcomes' count correct were added.
   */
  lemma {:induction false} RecordAllTotals(p: seq<Progress>, o: seq<bool>)
    ensures TotalSolved(RecordAll(p, o)) <= TotalSolved(p) + |o|
    ensures CurrentLevel(RecordAll(p, o)).Some? ==>
      && TotalSolved(RecordAll(p, o)) == TotalSolved(p) + |o|
      && TotalCorrect(RecordAll(p, o)) == TotalCorrect(p) + CountCorrect(o)
  {
    if o != [] {
      var before := RecordAll(p, o[..|o| - 1]);
      RecordAllTotals(p, o[..|o| - 1]);
      RecordedTotals(before, o[|o| - 1]);
    }
  }

  /**
    A session of score `score` on a theme whose ladder is still incomplete
    afterwards adds exactly ten solved puzzles and min(max(score, 0), 10)
    correct ones, spread over whichever levels were current at each attempt.
   */
  lemma SessionTotals(p: seq<Progress>, score: int)
    ensures TotalSolved(RecordAll(p, SessionOutcomes(score))) <= TotalSolved(p) + SessionLength
    ensures CurrentLevel(RecordAll(p, SessionOutcomes(score))).Some? ==>
      && TotalSolved(RecordAll(p, SessionOutcomes(score))) == TotalSolved(p) + SessionLength
      && TotalCorrect(RecordAll(p, SessionOutcomes(score))) == TotalCorrect(p) + Clamp(score, SessionLength)
  {
    RecordAllTotals(p, SessionOutcomes(score));
    SessionCorrectCount(score);
  }

  /** A freshly initialised theme starts at the easiest level. */
  lemma FreshStartsAtEasiest()
    ensures LevelName(CurrentLevel(Fresh.progress)) == Some(Easiest)
  {
  }

  /** 50 solved with 40 correct (exactly 80%) passes the easiest level. */
  lemma ExactlyEightyPercentPasses()
    ensures LevelName(CurrentLevel(Fresh.progress[0 := Progress(50, 40)])) == Some(Easier)
  {
  }

  /** 50 solved with 39 correct (78%) keeps the theme at the easiest level. */
  lemma BelowEightyPercentStays()
    ensures LevelName(CurrentLevel(Fresh.progress[0 := Progress(50, 39)])) == Some(Easiest)
  {
  }

  /** With every level at 50 of 50 the ladder is complete and an attempt changes nothing. */
  lemma CompletedLadderIsFixed(correct: bool)
    ensures CurrentLevel(seq(LevelCount, _ => Progress(50, 50))).None?
    ensures Recorded(seq(LevelCount, _ => Progress(50, 50)), correct) == seq(LevelCount, _ => Progress(50, 50))
  {
  }

  /** One correct then one incorrect attempt on a fresh theme leave the easiest level at 2 solved, 1 correct. */
  lemma CorrectThenIncorrect()
    ensures Recorded(Fresh.progress, true)[0] == Progress(1, 1)
    ensures Recorded(Recorded(Fresh.progress, true), false)[0] == Progress(2, 1)
  {
  }

  /** A perfect session five puzzles short of passing the easiest level spills five attempts into the next one. */
  lemma SessionSpillsIntoNextLevel()
    ensures RecordAll(Fresh.progress[0 := Progress(45, 45)], SessionOutcomes(10))
         == [Progress(50, 50), Progress(5, 5), Progress(0, 0), Progress(0, 0), Progress(0, 0)]
  {
    assert Fresh.progress[0 := Progress(45, 45)] == Filled(45);
    PerfectRun(45, SessionOutcomes(10));
  }

  /**
    A run of correct attempts from `a` solved at the easiest level (nothing
    above it) fills the easiest level up to the volume threshold and then
    continues on the next level.
   */
  lemma {:induction false} PerfectRun(a: nat, o: seq<bool>)
    requires a <= PuzzlesPerLevel && a + |o| < 2 * PuzzlesPerLevel
    requires forall i :: 0 <= i < |o| ==> o[i]
    ensures RecordAll(Filled(a), o) == Filled(a + |o|)
  {
    if o != [] {
      var init := o[..|o| - 1];
      calc {
        RecordAll(Filled(a), o);
        Recorded(RecordAll(Filled(a), init), o[|o| - 1]);
        { PerfectRun(a, init); assert o[|o| - 1]; }
        Recorded(Filled(a + |init|), true);
        { PerfectAttempt(a + |init|); }
        Filled(a + |o|);
      }
    }
  }

  /** A ladder whose two lowest levels hold a and b puzzles, all correct. */
  function Ladder(a: nat, b: nat): seq<Progress> {
    [Progress(a, a), Progress(b, b), Progress(0, 0), Progress(0, 0), Progress(0, 0)]
  }

  /** The ladder after m correct attempts from nothing: the easiest level fills up first. */
  function Filled(m: nat): seq<Progress> {
    if m <= PuzzlesPerLevel then Ladder(m, 0) else Ladder(PuzzlesPerLevel, m - PuzzlesPerLevel)
  }

  /** A correct attempt fills the easiest level up to the threshold, then the next one. */
  lemma PerfectAttempt(m: nat)
    requires m < 2 * PuzzlesPerLevel - 1
    ensures Recorded(Filled(m), true) == Filled(m + 1)
  {
    if m < PuzzlesPerLevel {
      assert CurrentLevel(Ladder(m, 0)) == Some(0);
    } else {
      assert Passed(Ladder(PuzzlesPerLevel, m - PuzzlesPerLevel)[0]);
      assert CurrentLevel(Ladder(PuzzlesPerLevel, m - PuzzlesPerLevel)) == Some(1);
    }
  }
}
