/**
 * After the scan: the optional air-date sort, the tallies and the list of
 * missing episodes the report prints.
 */
module Report {
  import opened Strings
  import opened Episodes
  import opened Flags
  import opened Reconciler

  // ------------------------------------------------------------------ tallies

  function HaveCount(eps: seq<Episode>): (n: nat)
    ensures n <= |eps|
    ensures n == 0 <==> forall k | 0 <= k < |eps| :: !eps[k].have
  {
    if eps == [] then 0 else HaveCount(eps[..|eps| - 1]) + (if eps[|eps| - 1].have then 1 else 0)
  }

  function MissingCount(eps: seq<Episode>): (n: nat)
    ensures n <= |eps|
    ensures n == 0 <==> forall k | 0 <= k < |eps| :: eps[k].have
  {
    if eps == [] then 0 else MissingCount(eps[..|eps| - 1]) + (if eps[|eps| - 1].have then 0 else 1)
  }

  /** Every episode is counted once, as present or as missing. */
  lemma {:induction false} HaveMissingTotal(eps: seq<Episode>)
    ensures HaveCount(eps) + MissingCount(eps) == |eps|
  {
    if eps != [] {
      HaveMissingTotal(eps[..|eps| - 1]);
    }
  }

  /** Reordering the episodes does not change how many are present. */
  lemma {:induction false} HaveCountPermutation(a: seq<Episode>, b: seq<Episode>)
    requires multiset(a) == multiset(b)
    ensures HaveCount(a) == HaveCount(b)
    decreases |a|
  {
    if a != [] {
      var x := a[|a| - 1];
      var a' := a[..|a| - 1];
      assert a == a' + [x];
      assert x in multiset(b);
      var k :| 0 <= k < |b| && b[k] == x;
      var b' := b[..k] + b[k + 1..];
      assert b == b[..k] + [x] + b[k + 1..];
      assert multiset(a') == multiset(a) - multiset{x};
      assert multiset(b') == multiset(b) - multiset{x};
      HaveCountPermutation(a', b');
      HaveCountSplit(b[..k], x, b[k + 1..]);
    }
  }

  lemma {:induction false} HaveCountSplit(l: seq<Episode>, x: Episode, r: seq<Episode>)
    ensures HaveCount(l + [x] + r) == HaveCount(l + r) + (if x.have then 1 else 0)
    decreases |r|
  {
    if r == [] {
      assert l + [x] + r == l + [x];
      assert l + r == l;
      assert (l + [x])[..|l + [x]| - 1] == l;
    } else {
      var r' := r[..|r| - 1];
      var y := r[|r| - 1];
      assert (l + [x] + r)[..|l + [x] + r| - 1] == l + [x] + r';
      assert (l + r)[..|l + r| - 1] == l + r';
      HaveCountSplit(l, x, r');
    }
  }

  /** `countHaves`: the number of episodes, of those present and of those missing. */
  method CountHaves(eps: seq<Episode>) returns (total: int, haves: int, missing: int)
    ensures total == |eps|
    ensures haves == HaveCount(eps) && missing == MissingCount(eps)
    ensures haves + missing == total
  {
    haves := 0;
    total := 0;
    missing := 0;
    for i := 0 to |eps|
      invariant total == i
      invariant haves == HaveCount(eps[..i]) && missing == MissingCount(eps[..i])
    {
      assert eps[..i + 1][..i] == eps[..i];
      if eps[i].have {
        haves := haves + 1;
      } else {
        missing := missing + 1;
      }
      total := total + 1;
    }
    assert eps[..|eps|] == eps;
    HaveMissingTotal(eps);
  }

  // ------------------------------------------------------------------ filter

  /**
   * The clock and the date parser together: for each air date that parses as
   * a `YYYY-MM-DD` date, the number of whole days (rounded half up) since it,
   * negative for a date still to come. Dates missing from the map do not parse.
   */
  type DayCounts = map<string, int>

  /** `timeSince`: -1 for an empty or unparseable date. */
  function TimeSince(days: DayCounts, d: string): (n: int)
    ensures d == [] || d !in days ==> n == -1
    ensures d != [] && d in days ==> n == days[d]
  {
    if d == [] then -1 else if d in days then days[d] else -1
  }

  /** `timeUntil`, the inverse of `timeSince`. */
  function TimeUntil(days: DayCounts, d: string): (n: int)
    ensures n + TimeSince(days, d) == 0
  {
    -TimeSince(days, d)
  }

  /** The report prints `e`: missing, and kept by each of the five filters. */
  predicate Shown(e: Episode, cfg: Config, days: DayCounts): (shown: bool)
    ensures shown ==> !e.have
    ensures shown ==> (cfg.seasonZero || e.season != 0) && (cfg.episodeZero || e.episode != 0)
    ensures shown ==> cfg.tba || e.airDate != TBA
    ensures shown && cfg.past >= 0 ==> TimeSince(days, e.airDate) <= cfg.past
    ensures shown && cfg.future >= 0 ==> -cfg.future <= TimeSince(days, e.airDate)
  {
    && !e.have
    && !(e.season == 0 && !cfg.seasonZero)
    && !(e.episode == 0 && !cfg.episodeZero)
    && !(!cfg.tba && e.airDate == TBA)
    && !(TimeSince(days, e.airDate) > cfg.past && cfg.past > -1)
    && !(TimeUntil(days, e.airDate) > cfg.future && cfg.future > -1)
  }

  /** The episodes the report prints, in order. */
  function Filter(eps: seq<Episode>, cfg: Config, days: DayCounts): (r: seq<Episode>)
    ensures |r| <= |eps|
    ensures forall k | 0 <= k < |r| :: Shown(r[k], cfg, days)
    decreases |eps|
  {
    if eps == [] then []
    else
      var last := eps[|eps| - 1];
      Filter(eps[..|eps| - 1], cfg, days) + (if Shown(last, cfg, days) then [last] else [])
  }

  /** The report prints exactly the episodes that pass the filters, and never a present one. */
  lemma {:induction false} FilterExactly(eps: seq<Episode>, cfg: Config, days: DayCounts)
    ensures forall e :: e in Filter(eps, cfg, days) <==> e in eps && Shown(e, cfg, days)
    ensures forall e | e in Filter(eps, cfg, days) :: !e.have
    ensures |Filter(eps, cfg, days)| <= MissingCount(eps)
    decreases |eps|
  {
    if eps != [] {
      var init := eps[..|eps| - 1];
      FilterExactly(init, cfg, days);
      assert eps == init + [eps[|eps| - 1]];
    }
  }

  /**
   * With every toggle off and both windows unlimited, the report lists
   * exactly the missing episodes outside season 0 and episode 0 whose air
   * date is known.
   */
  lemma DefaultFilter(eps: seq<Episode>, cfg: Config, days: DayCounts)
    requires !cfg.seasonZero && !cfg.episodeZero && !cfg.tba
    requires cfg.past < 0 && cfg.future < 0
    ensures forall e :: e in Filter(eps, cfg, days)
                        <==> e in eps && !e.have && e.season != 0 && e.episode != 0 && e.airDate != TBA
  {
    FilterExactly(eps, cfg, days);
  }

  /**
   * An air date that is empty or does not parse counts as one day in the
   * future: `timeSince` gives -1, as for a date still to come, and
   * `timeUntil` gives +1. So the past window never drops it, a future window
   * of 0 days always does, and a future window of 1 day or more keeps it.
   */
  lemma UnparseableDates(e: Episode, cfg: Config, days: DayCounts)
    requires e.airDate == [] || e.airDate !in days
    ensures !(TimeSince(days, e.airDate) > cfg.past && cfg.past > -1)
    ensures cfg.future == 0 ==> !Shown(e, cfg, days)
    ensures cfg.future >= 1 ==> !(TimeUntil(days, e.airDate) > cfg.future && cfg.future > -1)
  {
  }

  /** The report prints each copy of an episode that passes the filters, and no other. */
  lemma {:induction false} FilterMultiset(eps: seq<Episode>, cfg: Config, days: DayCounts)
    ensures forall e :: multiset(Filter(eps, cfg, days))[e] == if Shown(e, cfg, days) then multiset(eps)[e] else 0
    decreases |eps|
  {
    if eps != [] {
      var init := eps[..|eps| - 1];
      var last := eps[|eps| - 1];
      FilterMultiset(init, cfg, days);
      assert eps == init + [last];
      assert multiset(eps) == multiset(init) + multiset{last};
    }
  }

  /** Filtering a reordering of the episodes prints the same episodes, as often. */
  lemma FilterPermutation(a: seq<Episode>, b: seq<Episode>, cfg: Config, days: DayCounts)
    requires multiset(a) == multiset(b)
    ensures multiset(Filter(a, cfg, days)) == multiset(Filter(b, cfg, days))
  {
    FilterMultiset(a, cfg, days);
    FilterMultiset(b, cfg, days);
    assert forall e :: multiset(Filter(a, cfg, days))[e] == multiset(Filter(b, cfg, days))[e];
  }

  datatype Report =
    | NoEpisodes
    | Summary(total: int, haves: int, missing: int, lines: seq<Episode>)

  /**
   * `printReport`: "No episodes found." for an empty collection; otherwise
   * the three tallies and the episodes the filters keep, in order.
   */
  method PrintReport(eps: seq<Episode>, cfg: Config, days: DayCounts) returns (r: Report)
    ensures r.NoEpisodes? <==> eps == []
    ensures r.Summary? ==> r.total == |eps| && r.haves == HaveCount(eps) && r.missing == MissingCount(eps)
    ensures r.Summary? ==> r.lines == Filter(eps, cfg, days)
  {
    if |eps| == 0 {
      return NoEpisodes;
    }
    var t, h, m := CountHaves(eps);
    var lines := [];
    for i := 0 to |eps|
      invariant lines == Filter(eps[..i], cfg, days)
    {
      assert eps[..i + 1][..i] == eps[..i];
      var v := eps[i];
      if !v.have {
        if v.season == 0 && !cfg.seasonZero {
          continue;
        }
        if v.episode == 0 && !cfg.episodeZero {
          continue;
        }
        if !cfg.tba && v.airDate == TBA {
          continue;
        }
        if TimeSince(days, v.airDate) > cfg.past && cfg.past > -1 {
          continue;
        }
        if TimeUntil(days, v.airDate) > cfg.future && cfg.future > -1 {
          continue;
        }
        lines := lines + [v];
      }
    }
    assert eps[..|eps|] == eps;
    r := Summary(t, h, m, lines);
  }

  // ------------------------------------------------------------------ sorting

  /** `a` goes strictly before `b`: by `Less`, or by its reverse for the newest-first sort. */
  predicate Before(a: Episode, b: Episode, newestFirst: bool) {
    if newestFirst then AirDateLess(b, a) else AirDateLess(a, b)
  }

  /** No later episode goes strictly before an earlier one. */
  ghost predicate SortedByAirDate(s: seq<Episode>, newestFirst: bool) {
    forall i, j | 0 <= i < j < |s| :: !Before(s[j], s[i], newestFirst)
  }

  /** `!Before(b, a)` is total and transitive: a total preorder. */
  lemma NotBeforePreorder(a: Episode, b: Episode, c: Episode, newestFirst: bool)
    ensures !Before(a, b, newestFirst) || !Before(b, a, newestFirst)
    ensures !Before(b, a, newestFirst) && !Before(c, b, newestFirst) ==> !Before(c, a, newestFirst)
  {
    if StrLess(a.airDate, b.airDate) {
      StrLessAsymmetric(a.airDate, b.airDate);
    }
    StrLessTotal(a.airDate, b.airDate);
    StrLessTotal(b.airDate, c.airDate);
    if !newestFirst && StrLess(c.airDate, a.airDate) && StrLess(a.airDate, b.airDate) {
      StrLessTransitive(c.airDate, a.airDate, b.airDate);
    }
    if newestFirst && StrLess(a.airDate, c.airDate) && StrLess(c.airDate, b.airDate) {
      StrLessTransitive(a.airDate, c.airDate, b.airDate);
    }
  }

  function Insert(x: Episode, s: seq<Episode>, newestFirst: bool): (r: seq<Episode>)
    ensures |r| == |s| + 1
    ensures multiset(r) == multiset(s) + multiset{x}
    decreases |s|
  {
    if s == [] then [x]
    else if Before(s[0], x, newestFirst) then
      assert s == [s[0]] + s[1..];
      [s[0]] + Insert(x, s[1..], newestFirst)
    else [x] + s
  }

  /**
   * The order `sort.Sort` leaves the episodes in (ties are not resolved the
   * same way: the library sort is not stable).
   */
  function SortByAirDate(s: seq<Episode>, newestFirst: bool): (r: seq<Episode>)
    ensures |r| == |s|
    ensures multiset(r) == multiset(s)
    decreases |s|
  {
    if s == [] then []
    else
      assert s == [s[0]] + s[1..];
      Insert(s[0], SortByAirDate(s[1..], newestFirst), newestFirst)
  }

  /** An episode that goes after none of a sorted sequence can lead it. */
  lemma SortedCons(y: Episode, t: seq<Episode>, newestFirst: bool)
    requires SortedByAirDate(t, newestFirst)
    requires forall j | 0 <= j < |t| :: !Before(t[j], y, newestFirst)
    ensures SortedByAirDate([y] + t, newestFirst)
  {
    var r := [y] + t;
    forall i, j | 0 <= i < j < |r|
      ensures !Before(r[j], r[i], newestFirst)
    {
      assert r[j] == t[j - 1];
      if i > 0 {
        assert r[i] == t[i - 1];
      }
    }
  }

  lemma {:induction false} InsertCorrect(x: Episode, s: seq<Episode>, newestFirst: bool)
    requires SortedByAirDate(s, newestFirst)
    ensures multiset(Insert(x, s, newestFirst)) == multiset(s) + multiset{x}
    ensures SortedByAirDate(Insert(x, s, newestFirst), newestFirst)
    decreases |s|
  {
    if s == [] {
    } else if Before(s[0], x, newestFirst) {
      var t := s[1..];
      assert s == [s[0]] + t;
      assert SortedByAirDate(t, newestFirst);
      InsertCorrect(x, t, newestFirst);
      var rt := Insert(x, t, newestFirst);
      forall j | 0 <= j < |rt|
        ensures !Before(rt[j], s[0], newestFirst)
      {
        assert rt[j] in multiset(rt);
        if rt[j] == x {
          NotBeforePreorder(s[0], x, x, newestFirst);
        } else {
          assert rt[j] in t;
        }
      }
      SortedCons(s[0], rt, newestFirst);
    } else {
      forall j | 0 <= j < |s|
        ensures !Before(s[j], x, newestFirst)
      {
        if j > 0 {
          NotBeforePreorder(x, s[0], s[j], newestFirst);
        }
      }
      SortedCons(x, s, newestFirst);
    }
  }

  /** The sort returns a permutation of its input, ordered by air date. */
  lemma {:induction false} SortByAirDateCorrect(s: seq<Episode>, newestFirst: bool)
    ensures multiset(SortByAirDate(s, newestFirst)) == multiset(s)
    ensures SortedByAirDate(SortByAirDate(s, newestFirst), newestFirst)
    decreases |s|
  {
    if s != [] {
      SortByAirDateCorrect(s[1..], newestFirst);
      InsertCorrect(s[0], SortByAirDate(s[1..], newestFirst), newestFirst);
    }
  }

  /** Filtering keeps the order: the printed lines of a sorted collection are sorted. */
  lemma {:induction false} FilterSorted(eps: seq<Episode>, cfg: Config, days: DayCounts, newestFirst: bool)
    requires SortedByAirDate(eps, newestFirst)
    ensures SortedByAirDate(Filter(eps, cfg, days), newestFirst)
    decreases |eps|
  {
    if eps != [] {
      var init := eps[..|eps| - 1];
      var last := eps[|eps| - 1];
      assert SortedByAirDate(init, newestFirst);
      FilterSorted(init, cfg, days, newestFirst);
      FilterExactly(init, cfg, days);
      var f := Filter(init, cfg, days);
      var out := Filter(eps, cfg, days);
      if Shown(last, cfg, days) {
        assert out == f + [last];
        forall i, j | 0 <= i < j < |out|
          ensures !Before(out[j], out[i], newestFirst)
        {
          assert out[i] == f[i];
          if j == |f| {
            assert out[i] in f;
            var k :| 0 <= k < |init| && init[k] == out[i];
            assert eps[k] == out[i];
          } else {
            assert out[j] == f[j];
          }
        }
      }
    }
  }

  /**
   * `main`'s optional sorts: oldest first when asked, then newest first when
   * asked (so newest first wins when both are); otherwise the walk's order.
   */
  method SortForReport(eps: seq<Episode>, cfg: Config) returns (sorted: seq<Episode>)
    ensures multiset(sorted) == multiset(eps)
    ensures !cfg.sortAirDate && !cfg.sortAirDateReverse ==> sorted == eps
    ensures cfg.sortAirDateReverse ==> SortedByAirDate(sorted, true)
    ensures cfg.sortAirDate && !cfg.sortAirDateReverse ==> SortedByAirDate(sorted, false)
  {
    sorted := eps;
    if cfg.sortAirDate {
      SortByAirDateCorrect(sorted, false);
      sorted := SortByAirDate(sorted, false);
    }
    if cfg.sortAirDateReverse {
      SortByAirDateCorrect(sorted, true);
      sorted := SortByAirDate(sorted, true);
    }
  }

  // ---------------------------------------------------------------- pipeline

  /**
   * The run after flag parsing: walk the root folder, sort as asked and build
   * the report. The tallies are the walk's; the printed lines are the walk's
   * filtered episodes, each as often as the walk produced it, in the walk's
   * order or sorted by air date.
   */
  method FindMissing(fs: Lister, cfg: Config, cat: Catalog, days: DayCounts) returns (r: Report)
    ensures var found := WalkShows([], ListDir(fs, cfg.dir), fs, cfg, cat);
            && (r.NoEpisodes? <==> found == [])
            && (r.Summary? ==> r.total == |found| && r.haves == HaveCount(found) && r.missing == MissingCount(found))
            && (r.Summary? ==> multiset(r.lines) == multiset(Filter(found, cfg, days)))
            && (r.Summary? ==> forall e :: e in r.lines <==> e in found && Shown(e, cfg, days))
            && (r.Summary? && !cfg.sortAirDate && !cfg.sortAirDateReverse ==> r.lines == Filter(found, cfg, days))
            && (r.Summary? && cfg.sortAirDateReverse ==> SortedByAirDate(r.lines, true))
            && (r.Summary? && cfg.sortAirDate && !cfg.sortAirDateReverse ==> SortedByAirDate(r.lines, false))
  {
    var lib := new EpisodeSlice();
    var files := ListDir(fs, cfg.dir);
    FolderWalk(lib, files, fs, cfg, cat);
    var found := lib.Contents();
    var eps := SortForReport(found, cfg);
    assert |eps| == |found| by {
      assert |multiset(eps)| == |multiset(found)|;
    }
    assert forall e :: e in eps <==> e in found by {
      forall e
        ensures e in eps <==> e in found
      {
        assert e in eps <==> e in multiset(eps);
      }
    }
    HaveCountPermutation(eps, found);
    HaveMissingTotal(eps);
    HaveMissingTotal(found);
    FilterExactly(eps, cfg, days);
    FilterPermutation(eps, found, cfg, days);
    if cfg.sortAirDateReverse {
      FilterSorted(eps, cfg, days, true);
    } else if cfg.sortAirDate {
      FilterSorted(eps, cfg, days, false);
    }
    r := PrintReport(eps, cfg, days);
  }
}
