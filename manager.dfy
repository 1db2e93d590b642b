/**
  The progress store of the tracker: every theme's record, keyed by name in
  insertion order, together with the fixed category enumeration used to
  number the themes when a session is reported.
 */
module Manager {
  import opened Model
  import opened Difficulty

  /** What a session report ends in. */
  datatype SessionResult =
    | Updated(theme: string)  // the theme's record and ladder were updated
    | InvalidThemeNumber      // the number is outside 1..number of themes
    | NotANumber              // the number or the score is not an integer

  /**
    A theme's record after a session scored `score` on day `today`: last
    attempt today, success rate the score, and the session's ten outcomes
    recorded on the ladder in order.
   */
  function AfterSession(s: ThemeStats, score: int, today: int): ThemeStats {
    s.(last := Some(today), rate := Some(score), progress := RecordAll(s.progress, SessionOutcomes(score)))
  }

  /**
    What a session does to a theme: it carries today and the score, its level
    does not move back, soundness is kept, at most ten puzzles are added, and
    exactly ten with the clamped score correct while the ladder stays incomplete.
   */
  lemma SessionEffect(s: ThemeStats, score: int, today: int)
    ensures var r := AfterSession(s, score, today);
      && r.last == Some(today) && r.rate == Some(score)
      && |r.progress| == |s.progress|
      && Rank(r.progress) >= Rank(s.progress)
      && (SoundProgress(s.progress) ==> SoundProgress(r.progress))
      && TotalSolved(r.progress) <= TotalSolved(s.progress) + SessionLength
      && (CurrentLevel(r.progress).Some? ==>
            && TotalSolved(r.progress) == TotalSolved(s.progress) + SessionLength
            && TotalCorrect(r.progress) == TotalCorrect(s.progress) + Clamp(score, SessionLength))
  {
    var outcomes := SessionOutcomes(score);
    RecordAllNeverRegresses(s.progress, outcomes);
    SessionTotals(s.progress, score);
    if SoundProgress(s.progress) {
      RecordAllSound(s.progress, outcomes);
    }
  }

  /** The ladder after the first `i` attempts of a session. */
  ghost function Midway(p: seq<Progress>, score: int, i: nat): seq<Progress>
    requires i <= SessionLength
  {
    RecordAll(p, SessionOutcomes(score)[..i])
  }

  lemma MidwayStart(p: seq<Progress>, score: int)
    ensures Midway(p, score, 0) == p
  {
    assert SessionOutcomes(score)[..0] == [];
  }

  /** Attempt `i` of a session, correct while the counted-down score is positive, moves the ladder one step on. */
  lemma MidwayStep(m: map<string, ThemeStats>, theme: string, s: ThemeStats, score: int, i: nat)
    requires i < SessionLength
    ensures m[theme := s.(progress := Midway(s.progress, score, i))]
             [theme := s.(progress := Recorded(Midway(s.progress, score, i), score - i > 0))]
        == m[theme := s.(progress := Midway(s.progress, score, i + 1))]
  {
    var o := SessionOutcomes(score);
    RecordAllStep(s.progress, o, i);
    UpdateTwice(m, theme, s.(progress := Midway(s.progress, score, i)),
                s.(progress := Recorded(Midway(s.progress, score, i), o[i])));
  }

  lemma MidwayEnd(p: seq<Progress>, score: int)
    ensures Midway(p, score, SessionLength) == RecordAll(p, SessionOutcomes(score))
  {
    assert SessionOutcomes(score)[..SessionLength] == SessionOutcomes(score);
  }

  lemma UpdateTwice<K, V>(m: map<K, V>, k: K, a: V, b: V)
    ensures m[k := a][k := b] == m[k := b]
  {
  }

  /**
    `m[key] = value` on a dict whose key order is `o`: a new key goes to the
    end of the key order, and re-assigning a key keeps its place.
   */
  method Assign(o: seq<string>, m: map<string, ThemeStats>, key: string, value: ThemeStats)
    returns (o': seq<string>, m': map<string, ThemeStats>)
    requires forall t :: t in m <==> t in o
    ensures o' == if key in o then o else o + [key]
    ensures m' == m[key := value]
    ensures forall t :: t in m' <==> t in o'
  {
    o' := o;
    if key !in m {
      o' := o' + [key];
    }
    m' := m[key := value];
  }

  /**
    One category's pass of the initialisation: each name in turn gets a fresh
    record. `o` is the key order of `m`, the order the names `seen` so far
    were first inserted in.
   */
  method AddFresh(o: seq<string>, m: map<string, ThemeStats>, names: seq<string>, ghost seen: seq<string>)
    returns (o': seq<string>, m': map<string, ThemeStats>)
    requires o == Dedup(seen)
    requires forall t :: t in m <==> t in o
    requires forall t :: t in m ==> m[t] == Fresh
    ensures o' == Dedup(seen + names)
    ensures forall t :: t in m' <==> t in o'
    ensures forall t :: t in m' ==> m'[t] == Fresh
  {
    o', m' := o, m;
    var k := 0;
    assert seen + names[..k] == seen;
    while k < |names|
      invariant 0 <= k <= |names|
      invariant o' == Dedup(seen + names[..k])
      invariant forall t :: t in m' <==> t in o'
      invariant forall t :: t in m' ==> m'[t] == Fresh
    {
      DedupStep(seen, names, k);
      o', m' := Assign(o', m', names[k], Fresh);
      k := k + 1;
    }
    assert names[..|names|] == names;
  }

  class Store {
    /** The fixed category enumeration: display order and session numbering. */
    const catalog: seq<Category>
    /** The key order of the theme map, which is also the selector's iteration order. */
    var order: seq<string>
    var themes: map<string, ThemeStats>

    /** Well-formed store: keys listed once each, five levels per theme, every enumerated theme present. */
    ghost predicate Valid()
      reads this
    {
      && Distinct(order)
      && (forall t :: t in themes <==> t in order)
      && (forall t :: t in themes ==> |themes[t].progress| == LevelCount)
      && (forall t :: t in ThemeList(catalog) ==> t in themes)
    }

    /** No level of any theme has more correct answers than puzzles solved. */
    ghost predicate Sound()
      reads this
    {
      forall t :: t in themes ==> SoundProgress(themes[t].progress)
    }

    /**
      A new store: one fresh record per enumerated theme, category by
      category; a name enumerated twice keeps its first position.
     */
    constructor (catalog: seq<Category>)
      ensures this.catalog == catalog
      ensures Valid() && Sound()
      ensures order == Dedup(ThemeList(catalog))
      ensures Distinct(ThemeList(catalog)) ==> order == ThemeList(catalog)
      ensures forall t :: t in themes ==> themes[t] == Fresh
    {
      this.catalog := catalog;
      var o: seq<string> := [];
      var m: map<string, ThemeStats> := map[];
      var c := 0;
      while c < |catalog|
        invariant 0 <= c <= |catalog|
        invariant o == Dedup(ThemeList(catalog[..c]))
        invariant forall t :: t in m <==> t in o
        invariant forall t :: t in m ==> m[t] == Fresh
      {
        o, m := AddFresh(o, m, catalog[c].themes, ThemeList(catalog[..c]));
        assert catalog[..c + 1][..c] == catalog[..c];
        c := c + 1;
      }
      assert catalog[..|catalog|] == catalog;
      DedupMembers(ThemeList(catalog));
      if Distinct(ThemeList(catalog)) {
        DedupOfDistinct(ThemeList(catalog));
      }
      order := o;
      themes := m;
    }

    /**
      One puzzle attempt on `theme`: the current level's counters move as
      `Recorded` says. `completed` reports that every level was already
      passed, in which case nothing changes.
     */
    method RecordAttempt(theme: string, correct: bool) returns (completed: bool)
      requires Valid() && theme in themes
      modifies this
      ensures Valid() && order == old(order)
      ensures completed <==> CurrentLevel(old(themes)[theme].progress).None?
      ensures themes == old(themes)[theme := old(themes)[theme].(progress := Recorded(old(themes)[theme].progress, correct))]
      ensures old(Sound()) ==> Sound()
      ensures Rank(themes[theme].progress) >= Rank(old(themes)[theme].progress)
    {
      var stats := themes[theme];
      RecordedNeverRegresses(stats.progress, correct);
      if Sound() {
        RecordedSound(stats.progress, correct);
      }
      var progress;
      progress, completed := UpdateProgress(stats.progress, correct);
      if completed {
        assert themes[theme := stats.(progress := progress)] == themes;
        return;
      }
      themes := themes[theme := stats.(progress := progress)];
    }

    /**
      The effect of a valid session report on `theme`: stamp it with today and
      the score, then record the session's ten attempts.
     */
    method Practise(theme: string, score: int, today: int)
      requires Valid() && theme in themes
      modifies this
      ensures Valid() && order == old(order)
      ensures themes == old(themes)[theme := AfterSession(old(themes)[theme], score, today)]
      ensures old(Sound()) ==> Sound()
    {
      var stamped := themes[theme].(last := Some(today), rate := Some(score));
      UpdateTwice(themes, theme, stamped, AfterSession(themes[theme], score, today));
      themes := themes[theme := stamped];
      RecordAttempts(theme, score);
    }

    /**
      Ten attempts on `theme`, each correct while the score counted down from
      the entered one is still positive.
     */
    method RecordAttempts(theme: string, score: int)
      requires Valid() && theme in themes
      modifies this
      ensures Valid() && order == old(order)
      ensures themes == old(themes)[theme := old(themes)[theme].(progress := RecordAll(old(themes)[theme].progress, SessionOutcomes(score)))]
      ensures old(Sound()) ==> Sound()
    {
      ghost var start := themes[theme];
      MidwayStart(start.progress, score);
      var rate := score;
      var i := 0;
      while i < SessionLength
        invariant 0 <= i <= SessionLength
        invariant rate == score - i
        invariant Valid() && order == old(order)
        invariant themes == old(themes)[theme := start.(progress := Midway(start.progress, score, i))]
        invariant old(Sound()) ==> Sound()
      {
        MidwayStep(old(themes), theme, start, score, i);
        var _ := RecordAttempt(theme, rate > 0);
        rate := rate - 1;
        i := i + 1;
      }
      MidwayEnd(start.progress, score);
    }

    /**
      A reported session: `index` is the 1-based number of the theme in the
      enumeration, `score` the result out of 10, each None when what was
      typed is not an integer. A valid report stamps the theme with today and
      the score and records ten attempts, the first `score` of them correct;
      any other report changes nothing.
     */
    method RecordSession(index: Option<int>, score: Option<int>, today: int) returns (result: SessionResult)
      requires Valid()
      modifies this
      ensures Valid() && order == old(order)
      ensures index.None? ==> result == NotANumber
      ensures index.Some? && !(1 <= index.value <= |ThemeList(catalog)|) ==> result == InvalidThemeNumber
      ensures index.Some? && 1 <= index.value <= |ThemeList(catalog)| ==>
        result == if score.None? then NotANumber else Updated(ThemeList(catalog)[index.value - 1])
      ensures result.Updated? ==>
        themes == old(themes)[result.theme := AfterSession(old(themes)[result.theme], score.value, today)]
      ensures !result.Updated? ==> themes == old(themes)
      ensures old(Sound()) ==> Sound()
    {
      if index.None? {
        return NotANumber;
      }
      var list := ThemeList(catalog);
      var n := index.value;
      if !(1 <= n <= |list|) {
        return InvalidThemeNumber;
      }
      var theme := list[n - 1];
      if score.None? {
        return NotANumber;
      }
      Practise(theme, score.value, today);
      return Updated(theme);
    }
  }
}
