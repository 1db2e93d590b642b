/**
  The data the tactics tracker keeps per training theme, and the fixed
  constants that drive both the theme selector and the difficulty ladder.
  Dates are day ordinals (days since an arbitrary epoch); the current day
  is always passed in, never read from a clock.
 */
module Model {

  datatype Option<T> = None | Some(value: T)

  /** Review intervals, in days. */
  const ShortInterval := 7
  const MediumInterval := 30
  const LongInterval := 90

  /** A success rate (out of 10) at or above this counts as mastered. */
  const MasteryScore := 8

  /** Volume and accuracy (in percent) a level needs before the next one opens. */
  const PuzzlesPerLevel := 50
  const AccuracyThreshold := 80

  /** A reported session always stands for this many puzzles. */
  const SessionLength := 10

  datatype Level = Easiest | Easier | Normal | Harder | Hardest

  /** The difficulty ladder, in the order it is climbed. */
  const Levels: seq<Level> := [Easiest, Easier, Normal, Harder, Hardest]
  const LevelCount := 5

  /** Counters of one difficulty level of one theme. */
  datatype Progress = Progress(solved: nat, correct: nat)

  /**
    One theme's record: the day it was last practised (None: never), the score
    of its latest session (None: never scored) and one counter pair per level,
    `progress[i]` belonging to `Levels[i]`.
   */
  datatype ThemeStats = ThemeStats(last: Option<int>, rate: Option<int>, progress: seq<Progress>)

  /** A group of themes in the fixed enumeration used for numbering. */
  datatype Category = Category(name: string, themes: seq<string>)

  /** Days since the last attempt; never attempted counts as infinitely long ago. */
  datatype Elapsed = Never | Ago(days: int)

  function DaysSince(last: Option<int>, today: int): (e: Elapsed)
    ensures e.Never? <==> last.None?
    ensures last.Some? ==> e.days + last.value == today
  {
    match last
    case None => Never
    case Some(d) => Ago(today - d)
  }

  /** `e >= k`, with Never above every number. */
  predicate AtLeast(e: Elapsed, k: int) {
    e.Never? || e.days >= k
  }

  /** `a > b`, with Never above every number and equal to itself. */
  predicate Longer(a: Elapsed, b: Elapsed) {
    match a
    case Never => b.Ago?
    case Ago(x) => b.Ago? && x > b.days
  }

  /** The record a theme starts with: never attempted, never scored, all counters zero. */
  const Fresh := ThemeStats(None, None, seq(LevelCount, _ => Progress(0, 0)))

  /** Every counter pair has no more correct answers than puzzles solved. */
  predicate SoundProgress(p: seq<Progress>) {
    forall j :: 0 <= j < |p| ==> p[j].correct <= p[j].solved
  }

  predicate Distinct(s: seq<string>) {
    forall i, j :: 0 <= i < j < |s| ==> s[i] != s[j]
  }

  /** The themes of all categories, category by category, in enumeration order. */
  function ThemeList(cs: seq<Category>): seq<string> {
    if cs == [] then []
    else ThemeList(cs[..|cs| - 1]) + cs[|cs| - 1].themes
  }

  /** A name is enumerated exactly when some category lists it. */
  lemma {:induction false} ThemeListMembers(cs: seq<Category>)
    ensures forall t :: t in ThemeList(cs) <==> exists i :: 0 <= i < |cs| && t in cs[i].themes
  {
    if cs != [] {
      var init := cs[..|cs| - 1];
      ThemeListMembers(init);
      assert forall i :: 0 <= i < |init| ==> init[i] == cs[i];
    }
  }

  /** The first occurrence of each name, in order: the key order a dict gets from these insertions. */
  function Dedup(s: seq<string>): seq<string> {
    if s == [] then []
    else
      var rest := Dedup(s[..|s| - 1]);
      if s[|s| - 1] in rest then rest else rest + [s[|s| - 1]]
  }

  /** The key order lists each inserted name exactly once, and nothing else. */
  lemma {:induction false} DedupMembers(s: seq<string>)
    ensures Distinct(Dedup(s))
    ensures forall t :: t in Dedup(s) <==> t in s
  {
    if s != [] {
      DedupMembers(s[..|s| - 1]);
      assert forall t :: t in s <==> t in s[..|s| - 1] || t == s[|s| - 1];
    }
  }

  /** Names inserted without repeats keep their insertion order. */
  lemma {:induction false} DedupOfDistinct(s: seq<string>)
    requires Distinct(s)
    ensures Dedup(s) == s
  {
    if s != [] {
      DedupOfDistinct(s[..|s| - 1]);
    }
  }

  /** Inserting one more name of a list: a new name goes to the end, a known one keeps its place. */
  lemma DedupStep(seen: seq<string>, names: seq<string>, k: nat)
    requires k < |names|
    ensures Dedup(seen + names[..k + 1]) ==
      if names[k] in Dedup(seen + names[..k]) then Dedup(seen + names[..k])
      else Dedup(seen + names[..k]) + [names[k]]
  {
    var before := seen + names[..k];
    assert (before + [names[k]])[..|before|] == before;
    assert seen + names[..k + 1] == before + [names[k]];
  }
}
