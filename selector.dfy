/**
  The theme selector: every theme falls into one of four due buckets (or into
  none), the most urgent non-empty bucket wins, and within it the theme left
  alone longest wins, the earliest in key order on a tie.
 */
module Selector {
  import opened Model

  datatype Bucket = Unmastered | LongRecall | MediumRecall | ShortRecall | NotDue

  /** Bucket precedence: the bucket with the smaller number is served first. */
  function Precedence(b: Bucket): nat {
    match b
    case Unmastered => 0
    case LongRecall => 1
    case MediumRecall => 2
    case ShortRecall => 3
    case NotDue => 4
  }

  predicate Mastered(rate: Option<int>) {
    rate.Some? && rate.value >= MasteryScore
  }

  /**
    The bucket of a theme with success rate `rate` last practised `e` ago:
    unmastered whatever the recency; otherwise long recall from 90 days on
    (never practised included), medium from 30 up to 89, short from 7 up to
    29, and not due under 7.
   */
  function Classify(rate: Option<int>, e: Elapsed): (b: Bucket)
    ensures b == Unmastered <==> !Mastered(rate)
    ensures b == LongRecall <==> Mastered(rate) && (e.Never? || e.days >= 90)
    ensures b == MediumRecall <==> Mastered(rate) && e.Ago? && 30 <= e.days < 90
    ensures b == ShortRecall <==> Mastered(rate) && e.Ago? && 7 <= e.days < 30
    ensures b == NotDue <==> Mastered(rate) && e.Ago? && e.days < 7
  {
    if rate.None? || rate.value < MasteryScore then Unmastered
    else if AtLeast(e, LongInterval) then LongRecall
    else if AtLeast(e, MediumInterval) && !AtLeast(e, LongInterval) then MediumRecall
    else if AtLeast(e, ShortInterval) then ShortRecall
    else NotDue
  }

  /** Every theme of the key order has a record. */
  predicate Covers(order: seq<string>, stats: map<string, ThemeStats>) {
    forall i :: 0 <= i < |order| ==> order[i] in stats
  }

  function ElapsedOf(stats: map<string, ThemeStats>, today: int, t: string): Elapsed
    requires t in stats
  {
    DaysSince(stats[t].last, today)
  }

  function BucketOf(stats: map<string, ThemeStats>, today: int, t: string): Bucket
    requires t in stats
  {
    Classify(stats[t].rate, ElapsedOf(stats, today, t))
  }

  /** A theme with its days since the last attempt, as the selector collects them. */
  datatype Candidate = Candidate(theme: string, days: Elapsed)

  /** The candidates of bucket `b`, in key order: the list the selector builds for `b`. */
  function Bucketed(order: seq<string>, stats: map<string, ThemeStats>, today: int, b: Bucket): seq<Candidate>
    requires Covers(order, stats)
  {
    if order == [] then []
    else
      var n := |order| - 1;
      var rest := Bucketed(order[..n], stats, today, b);
      if BucketOf(stats, today, order[n]) == b
      then rest + [Candidate(order[n], ElapsedOf(stats, today, order[n]))]
      else rest
  }

  /**
    The list of bucket `b` holds exactly the themes of that bucket, each with
    its days, and no more entries than there are keys.
   */
  lemma {:induction false} BucketedMembers(order: seq<string>, stats: map<string, ThemeStats>, today: int, b: Bucket)
    requires Covers(order, stats)
    ensures |Bucketed(order, stats, today, b)| <= |order|
    ensures forall c :: c in Bucketed(order, stats, today, b) ==>
      && c.theme in order && c.theme in stats
      && BucketOf(stats, today, c.theme) == b
      && c.days == ElapsedOf(stats, today, c.theme)
    ensures forall j :: 0 <= j < |order| && BucketOf(stats, today, order[j]) == b ==>
      Candidate(order[j], ElapsedOf(stats, today, order[j])) in Bucketed(order, stats, today, b)
  {
    if order != [] {
      var n := |order| - 1;
      BucketedMembers(order[..n], stats, today, b);
      assert forall j :: 0 <= j < n ==> order[..n][j] == order[j];
    }
  }

  /**
    The position of the element a stable sort by days, longest first, puts
    at the front: a candidate with the most days, the earliest of those.
   */
  function SortedDescHead(l: seq<Candidate>): (k: nat)
    requires |l| > 0
    ensures k < |l|
    ensures forall q :: 0 <= q < |l| ==> !Longer(l[q].days, l[k].days)
    ensures forall q :: 0 <= q < k ==> Longer(l[k].days, l[q].days)
  {
    if |l| == 1 then 0
    else
      var k := SortedDescHead(l[..|l| - 1]);
      if Longer(l[|l| - 1].days, l[k].days) then |l| - 1 else k
  }

  /**
    Reference definition, on positions: the first theme of bucket `b` in key
    order whose days are not exceeded by any other theme of `b`.
   */
  function Best(order: seq<string>, stats: map<string, ThemeStats>, today: int, b: Bucket): (r: Option<nat>)
    requires Covers(order, stats)
    ensures r.None? <==> forall j :: 0 <= j < |order| ==> BucketOf(stats, today, order[j]) != b
    ensures r.Some? ==> r.value < |order| && BucketOf(stats, today, order[r.value]) == b
    ensures r.Some? ==>
      forall j :: 0 <= j < |order| && BucketOf(stats, today, order[j]) == b ==>
        !Longer(ElapsedOf(stats, today, order[j]), ElapsedOf(stats, today, order[r.value]))
    ensures r.Some? ==>
      forall j :: 0 <= j < r.value && BucketOf(stats, today, order[j]) == b ==>
        Longer(ElapsedOf(stats, today, order[r.value]), ElapsedOf(stats, today, order[j]))
  {
    if order == [] then None
    else
      var n := |order| - 1;
      var r := Best(order[..n], stats, today, b);
      if BucketOf(stats, today, order[n]) != b then r
      else if r.None? || Longer(ElapsedOf(stats, today, order[n]), ElapsedOf(stats, today, order[r.value])) then Some(n)
      else r
  }

  /**
    Position k holds the theme to study next: it is due, no theme is in a
    more urgent bucket, no theme of its bucket has more days, and every
    earlier theme of its bucket has fewer days.
   */
  ghost predicate IsChoice(order: seq<string>, stats: map<string, ThemeStats>, today: int, k: nat)
    requires Covers(order, stats)
  {
    && k < |order|
    && BucketOf(stats, today, order[k]) != NotDue
    && (forall j :: 0 <= j < |order| ==>
          Precedence(BucketOf(stats, today, order[k])) <= Precedence(BucketOf(stats, today, order[j])))
    && (forall j :: 0 <= j < |order| && BucketOf(stats, today, order[j]) == BucketOf(stats, today, order[k]) ==>
          !Longer(ElapsedOf(stats, today, order[j]), ElapsedOf(stats, today, order[k])))
    && (forall j :: 0 <= j < k && BucketOf(stats, today, order[j]) == BucketOf(stats, today, order[k]) ==>
          Longer(ElapsedOf(stats, today, order[k]), ElapsedOf(stats, today, order[j])))
  }

  /** The position of the theme to study next, None when no theme is due. */
  function NextIndex(order: seq<string>, stats: map<string, ThemeStats>, today: int): (r: Option<nat>)
    requires Covers(order, stats)
    ensures r.None? <==> forall j :: 0 <= j < |order| ==> BucketOf(stats, today, order[j]) == NotDue
    ensures r.Some? ==> IsChoice(order, stats, today, r.value)
  {
    var u := Best(order, stats, today, Unmastered);
    if u.Some? then u
    else
      var l := Best(order, stats, today, LongRecall);
      if l.Some? then l
      else
        var m := Best(order, stats, today, MediumRecall);
        if m.Some? then m
        else Best(order, stats, today, ShortRecall)
  }

  /** The name of the theme to study next, None when every theme is up to date. */
  function NextTheme(order: seq<string>, stats: map<string, ThemeStats>, today: int): (r: Option<string>)
    requires Covers(order, stats)
    ensures r.None? <==> forall j :: 0 <= j < |order| ==> BucketOf(stats, today, order[j]) == NotDue
    ensures r.Some? ==> r.value in order && r.value in stats && BucketOf(stats, today, r.value) != NotDue
    ensures r.Some? ==> forall j :: 0 <= j < |order| ==>
      Precedence(BucketOf(stats, today, r.value)) <= Precedence(BucketOf(stats, today, order[j]))
  {
    match NextIndex(order, stats, today)
    case None => None
    case Some(k) => Some(order[k])
  }

  /** The head of the sorted list of bucket `b` is the theme at the reference position. */
  lemma {:induction false} BucketedHead(order: seq<string>, stats: map<string, ThemeStats>, today: int, b: Bucket)
    requires Covers(order, stats)
    ensures Bucketed(order, stats, today, b) == [] <==> Best(order, stats, today, b).None?
    ensures Best(order, stats, today, b).Some? ==>
      var l, k := Bucketed(order, stats, today, b), Best(order, stats, today, b).value;
      |l| > 0 && l[SortedDescHead(l)] == Candidate(order[k], ElapsedOf(stats, today, order[k]))
  {
    if order != [] {
      var n := |order| - 1;
      BucketedHead(order[..n], stats, today, b);
      var l := Bucketed(order[..n], stats, today, b);
      if BucketOf(stats, today, order[n]) == b {
        var c := Candidate(order[n], ElapsedOf(stats, today, order[n]));
        assert (l + [c])[..|l|] == l;
      }
    }
  }

  /**
    The source's pass over the themes in key order, appending each theme with
    its days to the list of its bucket; a theme not due goes nowhere.
   */
  method CollectBuckets(order: seq<string>, stats: map<string, ThemeStats>, today: int)
    returns (unmastered: seq<Candidate>, long: seq<Candidate>, medium: seq<Candidate>, short: seq<Candidate>)
    requires Covers(order, stats)
    ensures unmastered == Bucketed(order, stats, today, Unmastered)
    ensures long == Bucketed(order, stats, today, LongRecall)
    ensures medium == Bucketed(order, stats, today, MediumRecall)
    ensures short == Bucketed(order, stats, today, ShortRecall)
  {
    unmastered, long, medium, short := [], [], [], [];
    var i := 0;
    while i < |order|
      invariant 0 <= i <= |order|
      invariant unmastered == Bucketed(order[..i], stats, today, Unmastered)
      invariant long == Bucketed(order[..i], stats, today, LongRecall)
      invariant medium == Bucketed(order[..i], stats, today, MediumRecall)
      invariant short == Bucketed(order[..i], stats, today, ShortRecall)
    {
      var theme := order[i];
      var days := DaysSince(stats[theme].last, today);
      var rate := stats[theme].rate;
      if rate.None? || rate.value < MasteryScore {
        unmastered := unmastered + [Candidate(theme, days)];
      } else if AtLeast(days, LongInterval) {
        long := long + [Candidate(theme, days)];
      } else if AtLeast(days, MediumInterval) && !AtLeast(days, LongInterval) {
        medium := medium + [Candidate(theme, days)];
      } else if AtLeast(days, ShortInterval) {
        short := short + [Candidate(theme, days)];
      }
      assert order[..i + 1][..i] == order[..i];
      i := i + 1;
    }
    assert order[..|order|] == order;
  }

  /**
    The selection as the source performs it: the four bucket lists, then the
    head of the first non-empty one, by bucket precedence, sorted by days.
   */
  method DetermineNextTheme(order: seq<string>, stats: map<string, ThemeStats>, today: int)
    returns (next: Option<string>)
    requires Covers(order, stats)
    ensures next == NextTheme(order, stats, today)
  {
    var unmastered, long, medium, short := CollectBuckets(order, stats, today);
    BucketedHead(order, stats, today, Unmastered);
    BucketedHead(order, stats, today, LongRecall);
    BucketedHead(order, stats, today, MediumRecall);
    BucketedHead(order, stats, today, ShortRecall);
    if unmastered != [] {
      return Some(unmastered[SortedDescHead(unmastered)].theme);
    }
    if long != [] {
      return Some(long[SortedDescHead(long)].theme);
    }
    if medium != [] {
      return Some(medium[SortedDescHead(medium)].theme);
    }
    if short != [] {
      return Some(short[SortedDescHead(short)].theme);
    }
    return None;
  }

  /** The choice is determined: at most one position satisfies it. */
  lemma ChoiceIsUnique(order: seq<string>, stats: map<string, ThemeStats>, today: int, k1: nat, k2: nat)
    requires Covers(order, stats)
    requires IsChoice(order, stats, today, k1) && IsChoice(order, stats, today, k2)
    ensures k1 == k2
  {
  }

  /** While any theme is unmastered, the selector picks an unmastered theme, whatever the recency of the others. */
  lemma UnmasteredComesFirst(order: seq<string>, stats: map<string, ThemeStats>, today: int, i: nat)
    requires Covers(order, stats)
    requires i < |order| && !Mastered(stats[order[i]].rate)
    ensures NextIndex(order, stats, today).Some?
    ensures !Mastered(stats[order[NextIndex(order, stats, today).value]].rate)
  {
  }

  /** Among themes of the same bucket, one never attempted beats one attempted any number of days ago. */
  lemma NeverAttemptedWinsItsBucket(order: seq<string>, stats: map<string, ThemeStats>, today: int, i: nat, j: nat)
    requires Covers(order, stats)
    requires i < |order| && j < |order|
    requires NextIndex(order, stats, today) == Some(j)
    requires BucketOf(stats, today, order[i]) == BucketOf(stats, today, order[j])
    requires stats[order[i]].last.None?
    ensures stats[order[j]].last.None?
  {
  }

  /**
    A never-attempted unmastered theme with no such theme before it in key
    order is the one selected: nothing beats its bucket, nothing beats its
    days, and it is first among the themes that tie with it.
   */
  lemma FirstFreshUnmasteredWins(order: seq<string>, stats: map<string, ThemeStats>, today: int, k: nat)
    requires Covers(order, stats)
    requires k < |order| && stats[order[k]].last.None? && !Mastered(stats[order[k]].rate)
    requires forall j :: 0 <= j < k ==> stats[order[j]].last.Some? || Mastered(stats[order[j]].rate)
    ensures NextIndex(order, stats, today) == Some(k)
    ensures NextTheme(order, stats, today) == Some(order[k])
  {
    assert IsChoice(order, stats, today, k);
    ChoiceIsUnique(order, stats, today, k, NextIndex(order, stats, today).value);
  }

  /**
    The data of the selection test: the key order starts with the
    enumeration's first three themes, Fork mastered and attempted, the next
    two never attempted nor scored; the other keys are arbitrary. "Discovered
    attack" is selected, and once it is scored 8, "Pin" is.
   */
  lemma FirstUnmasteredInKeyOrderWins(order: seq<string>, stats: map<string, ThemeStats>, today: int)
    requires Covers(order, stats) && |order| >= 3
    requires order[0] == "Fork" && order[1] == "Discovered attack" && order[2] == "Pin"
    requires stats["Fork"].last.Some? && stats["Fork"].rate == Some(8)
    requires stats["Discovered attack"].last.None? && stats["Discovered attack"].rate.None?
    requires stats["Pin"].last.None? && stats["Pin"].rate.None?
    ensures NextTheme(order, stats, today) == Some("Discovered attack")
    ensures var scored := stats["Discovered attack" := stats["Discovered attack"].(rate := Some(8))];
      NextTheme(order, scored, today) == Some("Pin")
  {
    FirstFreshUnmasteredWins(order, stats, today, 1);
    var scored := stats["Discovered attack" := stats["Discovered attack"].(rate := Some(8))];
    FirstFreshUnmasteredWins(order, scored, today, 2);
  }
}
