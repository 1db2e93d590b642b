# Tactics manager: a verified model

This project models the core of a personal spaced-repetition tracker for chess
tactics training themes. It covers three things:

- **The selector.** It picks the theme to study next. Each theme falls into one
  of four buckets: unmastered, long recall, medium recall or short recall. The
  most urgent non-empty bucket wins. Within that bucket the theme left alone
  longest wins, and on a tie the earliest theme in key order wins.
- **The difficulty ladder.** Each theme has five levels, from Easiest to
  Hardest. A level is passed at 50 puzzles solved with at least 80% correct.
  The current level is the first level not yet passed. Recording an attempt
  adds to the current level's counters.
- **The progress store.** This covers initialising it from the category
  enumeration, and the update after a reported session. A session sets the
  date and the score, then records ten attempts, the first `score` of them
  correct.

Modules:

- `Model` (`model.dfy`): the per-theme record (`ThemeStats`, `Progress`), the
  constants (intervals 7/30/90, mastery score 8, 50 puzzles, 80%, 5 levels,
  10 puzzles per session), days since the last attempt (`Elapsed`, where
  `Never` is above every number) and the category enumeration.
- `Selector` (`selector.dfy`): the classification of a theme into a bucket.
  It holds the source's pass over the themes as a method with loop invariants
  (`CollectBuckets`), and the choice among its four lists
  (`DetermineNextTheme`). It also holds a reference definition (`Best`,
  `NextIndex`), the lemma linking the two, and the selector's properties.
- `Difficulty` (`difficulty.dfy`): the current level (function `CurrentLevel`
  and the source's scan, `GetThemeDifficulty`), one attempt (`Recorded`), a
  run of attempts (`RecordAll`), the session's outcomes, and their invariants.
- `Manager` (`manager.dfy`): the class `Store`. It holds the theme map and its
  key order, and its methods update the map in place: initialisation, one
  attempt, and a reported session.

Dates are day numbers. The current day is always a parameter, so "days since"
is `today - date`, as the source computes it against the current time. A theme
never attempted has `Never` as its elapsed time.

## Notes on the source's behaviour

- The selector breaks ties by the iteration order of the theme map
  (`data["themes"]`), not by the category enumeration. The two orders agree
  for a freshly initialised store whenever no name is enumerated twice
  (`Store` constructor). A loaded store may hold extra keys, as the
  tests do with "Pins" and "Skewers".
- The success rate is any integer the user typed. The code does not limit it
  to 0..10. A score above 10 makes all ten attempts correct, and a score
  below 1 makes none correct.
- Days can be negative for a date in the future. The code then puts a
  mastered theme in no bucket, and the model does the same.

## Model

| member | source | states |
|---|---|---|
| Model.DaysSince | tactics_manager.py:117-121 | no date gives `Never` (infinitely long ago); otherwise the elapsed days plus the date give today |
| Model.ThemeListMembers | tactics_manager.py:234 | the flattened enumeration holds a name exactly when some category lists it |
| Model.DedupMembers | tactics_manager.py:92-98 | the key order produced by inserting names into a dict lists each inserted name exactly once, and nothing else |
| Model.DedupOfDistinct | tactics_manager.py:92-98 | names inserted without repeats keep exactly their insertion order |
| Model.DedupStep | tactics_manager.py:94 | inserting one more name appends it to the key order when it is new and leaves the order alone when it is already a key |
| Selector.Classify | tactics_manager.py:138-150 | unmastered exactly when the rate is absent or below 8; for a mastered theme: long recall at 90 days or more (never attempted included), medium for 30..89, short for 7..29, not due below 7 |
| Selector.BucketedMembers | tactics_manager.py:130-150 | the list built for a bucket holds every theme of that bucket with its days, and nothing of another bucket |
| Selector.SortedDescHead | tactics_manager.py:127-128 | the head of a stable sort by days, longest first, is a candidate with the most days, and every candidate before it has strictly fewer days |
| Selector.Best | tactics_manager.py:152-166 | reference definition: None exactly when no theme is in the bucket; otherwise a theme of the bucket with the most days, every earlier theme of the bucket having fewer days |
| Selector.NextIndex | tactics_manager.py:125-168 | None exactly when every theme is not due; otherwise the chosen theme is due, no theme is in a more urgent bucket, it has the most days in its bucket, and it is the first such theme in key order |
| Selector.NextTheme | tactics_manager.py:125-168 | no theme exactly when every theme is not due; otherwise a due theme whose bucket is the most urgent one present |
| Selector.BucketedHead | tactics_manager.py:135-154 | the list the selector builds for a bucket is empty exactly when the reference finds no theme, and its sorted head is the reference's theme with its days |
| Selector.CollectBuckets | tactics_manager.py:131-150 | the source's single pass over the themes fills each of the four lists with exactly the themes of that bucket, in key order, each with its days |
| Selector.DetermineNextTheme | tactics_manager.py:125-168 | the source's single pass into four lists, then the head of the first non-empty list by precedence, returns the theme `NextIndex` characterises |
| Selector.ChoiceIsUnique | tactics_manager.py:152-168 | at most one theme satisfies the selection's characterisation, so it fixes the result |
| Selector.UnmasteredComesFirst | tactics_manager.py:139-154 | while any theme is unmastered, an unmastered theme is selected, whatever the recency of mastered themes |
| Selector.NeverAttemptedWinsItsBucket | tactics_manager.py:117-128 | if a never-attempted theme shares the winning bucket, the winner was never attempted either |
| Selector.FirstFreshUnmasteredWins | tactics_manager.py:139-154 | the first never-attempted unmastered theme in key order, when no earlier theme is both, is the one selected |
| Selector.FirstUnmasteredInKeyOrderWins | test_tactics_manager.py:21-76 | for any data whose key order starts with Fork (mastered, attempted), "Discovered attack" and "Pin" (both never attempted nor scored), as the test's data does, "Discovered attack" is selected, and after it is scored 8, "Pin" is |
| Difficulty.AccuracyIsRatio | tactics_manager.py:175-176 | the integer accuracy test holds exactly when something is solved and correct / solved * 100 reaches 80 in exact arithmetic |
| Difficulty.PassedIsVolumeAndRatio | tactics_manager.py:175-176 | a level is passed exactly when at least 50 are solved with a ratio of at least 0.8, so with at least 40 correct |
| Difficulty.CurrentLevel | tactics_manager.py:172-178 | None exactly when every level is passed; otherwise the level is not passed and every level before it is |
| Difficulty.GetThemeDifficulty | tactics_manager.py:172-178 | the source's in-order scan with early return yields the first level short of 50 solved or of 80% accuracy |
| Difficulty.UpdateProgress | tactics_manager.py:182-193 | the source's update of one ladder reports completion exactly when every level is passed, and produces the ladder `Recorded` defines |
| Difficulty.Recorded | tactics_manager.py:182-193 | one attempt keeps the number of levels; what it changes is stated by the lemmas below |
| Difficulty.RecordedChangesOnlyCurrent | tactics_manager.py:182-193 | with every level passed an attempt changes nothing; otherwise only the current level changes, solved by one and correct by one exactly when the attempt was correct |
| Difficulty.RecordedTotals | tactics_manager.py:191-193 | an attempt adds one solved puzzle, plus one correct answer when correct, unless the ladder is complete |
| Difficulty.TotalsAfterUpdate | tactics_manager.py:191-193 | replacing one level's counters changes the totals by exactly the difference |
| Difficulty.RecordedSound | tactics_manager.py:191-193 | an attempt keeps correct <= solved at every level |
| Difficulty.RecordedNeverRegresses | tactics_manager.py:183-193 | an attempt never moves a theme to an earlier level |
| Difficulty.SessionOutcomes | tactics_manager.py:242-244 | the session's ten outcomes: attempt i is correct exactly when i < score |
| Difficulty.CountCorrectPrefix | tactics_manager.py:242-244 | the first i outcomes hold min(max(score, 0), i) correct ones |
| Difficulty.SessionCorrectCount | tactics_manager.py:242-244 | a session holds min(max(score, 0), 10) correct attempts |
| Difficulty.RecordAll | tactics_manager.py:242-244 | a run of attempts, recorded one after the other, keeps the number of levels; its effect is stated by the lemmas below |
| Difficulty.RecordAllSound | tactics_manager.py:241-244 | a run of attempts keeps correct <= solved at every level |
| Difficulty.RecordAllNeverRegresses | tactics_manager.py:241-244 | a run of attempts never moves a theme to an earlier level |
| Difficulty.RecordAllTotals | tactics_manager.py:241-244 | a run adds at most one solved puzzle per attempt; if a level is still current afterwards, it added exactly one per attempt and exactly one correct answer per correct outcome |
| Difficulty.SessionTotals | tactics_manager.py:237-244 | a session adds at most 10 solved puzzles; if the ladder is still incomplete afterwards, exactly 10 solved and min(max(score, 0), 10) correct |
| Difficulty.PerfectAttempt | tactics_manager.py:183-193 | on a perfect ladder with m correct attempts so far (the easiest level filled up to 50, the rest on the next level), one more correct attempt gives the ladder for m + 1 |
| Difficulty.PerfectRun | tactics_manager.py:241-244 | a run of correct attempts from such a perfect ladder gives the perfect ladder for the total count: the easiest level fills up to 50 and the rest goes to the next level |
| Difficulty.SessionSpillsIntoNextLevel | tactics_manager.py:241-244 | a perfect session from 45 of 45 at the easiest level leaves it at 50 of 50 and the next level at 5 of 5 |
| Difficulty.FreshStartsAtEasiest | test_tactics_manager.py:79-82 | a freshly initialised theme is at Easiest |
| Difficulty.ExactlyEightyPercentPasses | test_tactics_manager.py:84-89 | Easiest at 50 solved and 40 correct (exactly 80%) is passed, so the theme is at Easier |
| Difficulty.BelowEightyPercentStays | tactics_manager.py:175-177 | Easiest at 50 solved and 39 correct (78%) stays current |
| Difficulty.CompletedLadderIsFixed | test_tactics_manager.py:111-121 | all levels at 50 of 50 gives no current level, and an attempt then changes nothing |
| Difficulty.CorrectThenIncorrect | test_tactics_manager.py:92-108 | one correct attempt, then one incorrect one, on a fresh theme leave Easiest at 1/1 and then 2/1 |
| Manager.SessionEffect | tactics_manager.py:238-244 | after a session the theme carries today and the score; its level does not move back, soundness is kept, at most 10 puzzles are added, and exactly 10 with the clamped score correct while the ladder stays incomplete |
| Manager.Assign | tactics_manager.py:94 | assigning a key of a dict: the new map is the old one with that key set, and the key order gains the key at its end exactly when it was not yet a key |
| Manager.AddFresh | tactics_manager.py:93-98 | inserting one category's names gives every name a fresh record and extends the key order by the names not yet present, in order |
| Manager.Store.constructor | tactics_manager.py:87-98 | a new store gives every enumerated theme a fresh record (no date, no rate, zero counters), keyed in first-insertion order, which is the enumeration order when no name repeats; it is well formed and sound |
| Manager.Store.RecordAttempt | tactics_manager.py:182-193 | the theme's ladder becomes `Recorded` of the old one; no other theme changes; completion is reported exactly when every level was passed; soundness is kept and the level does not move back |
| Manager.Store.Practise | tactics_manager.py:238-244 | the theme is stamped with today and the score, its ladder becomes the ten outcomes recorded in order, and nothing else changes |
| Manager.Store.RecordAttempts | tactics_manager.py:241-244 | the counted-down loop of ten attempts turns the theme's ladder into `RecordAll` of the session's outcomes, keeps the store well formed and sound, and changes no other theme |
| Manager.Store.RecordSession | tactics_manager.py:233-251 | a non-numeric number or score and an out-of-range number change nothing, each reported as such; a number in 1..count selects that theme of the enumeration and applies the session to it alone |

## Left out

- File storage is not modelled. This covers checking whether the file exists, JSON reading and writing, and `load_data`/`save_data`. A loaded store is any `Store` satisfying `Valid()`, and the constructor is the case where no file exists yet.
- The clock and date parsing are not modelled. Dates are day numbers, and the current day is a parameter. An empty date string, which the source also treats as never attempted, is modelled as `None`.
- Console input and output are not modelled: prompts, printed messages, the numbered theme listing, and the y/n question before a session. Text that is not an integer is modelled as `None` and leads to no change.
- The "Invalid difficulty level" branch is not modelled. It cannot be reached when every theme has all five levels, which `Store.Valid()` requires.
- The lookup of the current level for the selected theme before a session is not modelled. When no theme is due, the source passes None as the theme and the lookup fails with a missing key. The model's operations require a theme that is present.
- Accuracy is computed with floating point in the source. The model compares `correct * 100 >= 80 * solved` instead, which is the exact comparison (`Difficulty.AccuracyIsRatio`). The two agree for every count the program can reach, far beyond any number of puzzles a person solves: a ratio exactly at 80% gives exactly 80.0, and any other ratio is at least 1/(5 * solved) away from it. They can disagree at counts near 5 * 10^16 solved puzzles, where rounding can carry a ratio just below 0.8 up to exactly 80.0.
- The 48 literal theme names of the enumeration are not modelled. The model works for any enumeration of categories.
- The link-checking test is not modelled. It makes network requests and parses HTML.
- Selector.SortedDescHead: models only the first element of the sorted list, which is all the source uses. The full sort is a library call.
