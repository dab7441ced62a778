/**
 * Catalog episodes and the growing collection the scan fills: the episodes of
 * every show it resolves, appended as they are fetched, with `have` set in
 * place as matching files turn up.
 */
module Episodes {
  import opened Normalizer
  import opened Strings

  /** One catalog episode (the `episode` struct). */
  datatype Episode = Episode(
    name: string,
    normalizedName: string,
    title: string,
    season: int,
    episode: int,
    airDate: string,
    airTime: string,
    have: bool)

  /** The fields the catalog gives for one episode, already read out of its response. */
  datatype Record = Record(season: int, episode: int, title: string, firstAired: string)

  /** A show's catalog listing: its series-level air time and its episode records in order. */
  datatype Listing = Listing(airTime: string, records: seq<Record>)

  /** The identity used for matching: normalised show name, season, episode. */
  datatype Key = Key(show: string, season: int, episode: int)

  function KeyOf(e: Episode): Key {
    Key(e.normalizedName, e.season, e.episode)
  }

  const TBA := "TBA"

  /**
   * The episode built for one record: a blank title or first-aired date
   * becomes "TBA", the key carries the normalised series name, and the
   * episode starts out missing.
   */
  function FromRecord(seriesname: string, airTime: string, r: Record): (e: Episode)
    ensures !e.have
    ensures KeyOf(e) == Key(Normalize(seriesname), r.season, r.episode)
    ensures e.name == seriesname && e.airTime == airTime
    ensures e.title != [] && e.airDate != []
    ensures r.title != [] ==> e.title == r.title
    ensures r.firstAired != [] ==> e.airDate == r.firstAired
    ensures e.title == TBA <==> (r.title == [] || r.title == TBA)
    ensures e.airDate == TBA <==> (r.firstAired == [] || r.firstAired == TBA)
  {
    Episode(
      name := seriesname,
      normalizedName := Normalize(seriesname),
      title := if r.title == [] then TBA else r.title,
      season := r.season,
      episode := r.episode,
      airDate := if r.firstAired == [] then TBA else r.firstAired,
      airTime := airTime,
      have := false)
  }

  /** The episodes of a whole listing, one per record, in listing order. */
  function FromListing(seriesname: string, l: Listing): (eps: seq<Episode>)
    ensures |eps| == |l.records|
    ensures forall k | 0 <= k < |eps| :: eps[k] == FromRecord(seriesname, l.airTime, l.records[k])
  {
    seq(|l.records|, k requires 0 <= k < |l.records| => FromRecord(seriesname, l.airTime, l.records[k]))
  }

  /** Every episode of a fresh listing is missing and carries the series' key. */
  lemma FromListingFresh(seriesname: string, l: Listing)
    ensures forall e | e in FromListing(seriesname, l) ::
              !e.have && e.normalizedName == Normalize(seriesname) && e.name == seriesname
  {
  }

  // ------------------------------------------------------------------ marking

  /** `b` is `a` with entries possibly appended and `have` possibly set, never cleared. */
  ghost predicate Grows(a: seq<Episode>, b: seq<Episode>) {
    && |a| <= |b|
    && (forall i | 0 <= i < |a| :: b[i] == a[i].(have := b[i].have))
    && (forall i | 0 <= i < |a| :: a[i].have ==> b[i].have)
  }

  lemma GrowsTransitive(a: seq<Episode>, b: seq<Episode>, c: seq<Episode>)
    requires Grows(a, b) && Grows(b, c)
    ensures Grows(a, c)
  {
    forall i | 0 <= i < |a|
      ensures c[i] == a[i].(have := c[i].have)
    {
      assert b[i] == a[i].(have := b[i].have);
      assert c[i] == b[i].(have := c[i].have);
    }
  }

  /** `markHave`'s effect: every entry whose key is `k` is marked as present. */
  function MarkAll(s: seq<Episode>, k: Key): (r: seq<Episode>)
    ensures |r| == |s|
    ensures forall i | 0 <= i < |s| :: r[i].have == (s[i].have || KeyOf(s[i]) == k)
    ensures forall i | 0 <= i < |s| :: r[i] == s[i].(have := r[i].have)
  {
    seq(|s|, i requires 0 <= i < |s| => if KeyOf(s[i]) == k then s[i].(have := true) else s[i])
  }

  lemma MarkAllIdempotent(s: seq<Episode>, k: Key)
    ensures MarkAll(MarkAll(s, k), k) == MarkAll(s, k)
  {
  }

  /** Marks the key `(show, season, e)` for each `e` of `targets`, in order. */
  function MarkEach(s: seq<Episode>, show: string, season: int, targets: seq<int>): (r: seq<Episode>)
    ensures |r| == |s|
    ensures forall i | 0 <= i < |s| :: s[i].have ==> r[i].have
    ensures forall i | 0 <= i < |s| :: r[i] == s[i].(have := r[i].have)
    ensures forall i | 0 <= i < |s| && !s[i].have && r[i].have :: KeyOf(s[i]).show == show && KeyOf(s[i]).season == season
    decreases |targets|
  {
    if targets == [] then s
    else MarkAll(MarkEach(s, show, season, targets[..|targets| - 1]), Key(show, season, targets[|targets| - 1]))
  }

  /**
   * After marking a list of episode numbers, an entry is present exactly when
   * it already was or its key is one of the marked ones; nothing else changes.
   */
  lemma {:induction false} MarkEachExactly(s: seq<Episode>, show: string, season: int, targets: seq<int>)
    ensures |MarkEach(s, show, season, targets)| == |s|
    ensures forall i | 0 <= i < |s| ::
              MarkEach(s, show, season, targets)[i].have
              == (s[i].have || (s[i].normalizedName == show && s[i].season == season && s[i].episode in targets))
    ensures forall i | 0 <= i < |s| ::
              MarkEach(s, show, season, targets)[i] == s[i].(have := MarkEach(s, show, season, targets)[i].have)
    decreases |targets|
  {
    if targets != [] {
      var init := targets[..|targets| - 1];
      MarkEachExactly(s, show, season, init);
      assert forall e :: e in targets <==> e in init || e == targets[|targets| - 1] by {
        assert targets == init + [targets[|targets| - 1]];
      }
    }
  }

  lemma MarkEachGrows(s: seq<Episode>, show: string, season: int, targets: seq<int>)
    ensures Grows(s, MarkEach(s, show, season, targets))
  {
    MarkEachExactly(s, show, season, targets);
  }

  /** Marking again with the same numbers changes nothing. */
  lemma MarkEachIdempotent(s: seq<Episode>, show: string, season: int, targets: seq<int>)
    ensures MarkEach(MarkEach(s, show, season, targets), show, season, targets)
            == MarkEach(s, show, season, targets)
  {
    var once := MarkEach(s, show, season, targets);
    MarkEachExactly(s, show, season, targets);
    MarkEachExactly(once, show, season, targets);
  }

  // ---------------------------------------------------------------- ordering

  /** `episodes.Less`: ordering by the raw air-date string ("TBA" is not special). */
  predicate AirDateLess(a: Episode, b: Episode): (less: bool)
    ensures less ==> a.airDate != b.airDate
    ensures less <==> !(a.airDate == b.airDate || StrLess(b.airDate, a.airDate))
  {
    StrLessTotal(a.airDate, b.airDate);
    assert StrLess(a.airDate, b.airDate) ==> !StrLess(b.airDate, a.airDate) by {
      if StrLess(a.airDate, b.airDate) {
        StrLessAsymmetric(a.airDate, b.airDate);
      }
    }
    StrLess(a.airDate, b.airDate)
  }

  /**
   * `Less` is a strict weak ordering, which is what `sort.Sort` needs: it is
   * irreflexive and transitive, and episodes it does not order share their
   * air date.
   */
  lemma AirDateLessStrictWeakOrder(a: Episode, b: Episode, c: Episode)
    ensures !AirDateLess(a, a)
    ensures AirDateLess(a, b) && AirDateLess(b, c) ==> AirDateLess(a, c)
    ensures !AirDateLess(a, b) && !AirDateLess(b, a) ==> a.airDate == b.airDate
  {
    StrLessIrreflexive(a.airDate);
    if AirDateLess(a, b) && AirDateLess(b, c) {
      StrLessTransitive(a.airDate, b.airDate, c.airDate);
    }
    StrLessTotal(a.airDate, b.airDate);
  }

  // ------------------------------------------------------------ the collection

  /**
   * The `[]episode` slice the scan threads through: a backing array of which
   * the first `size` entries are in use. Appending past the capacity moves
   * the entries to a larger array, as Go's `append` does.
   */
  class EpisodeSlice {
    var data: array<Episode>
    var size: nat

    ghost predicate Valid()
      reads this
    {
      size <= data.Length
    }

    /** The episodes held, in order. */
    function Contents(): seq<Episode>
      reads this, data
      requires Valid()
    {
      data[..size]
    }

    constructor ()
      ensures Valid() && Contents() == []
      ensures fresh(data)
    {
      data := new Episode[0];
      size := 0;
    }

    /** `append(episodes, e)`. */
    method Append(e: Episode)
      requires Valid()
      modifies this, data
      ensures Valid() && Contents() == old(Contents()) + [e]
      ensures data == old(data) || fresh(data)
    {
      if size == data.Length {
        var bigger := new Episode[2 * data.Length + 1];
        forall i | 0 <= i < size {
          bigger[i] := data[i];
        }
        data := bigger;
      }
      data[size] := e;
      size := size + 1;
    }

    /** The loop of `getSeriesInfo` that appends one episode per catalog record. */
    method AppendSeries(seriesname: string, l: Listing)
      requires Valid()
      modifies this, data
      ensures Valid() && Contents() == old(Contents()) + FromListing(seriesname, l)
      ensures data == old(data) || fresh(data)
    {
      ghost var added := FromListing(seriesname, l);
      for k := 0 to |l.records|
        invariant Valid()
        invariant data == old(data) || fresh(data)
        invariant Contents() == old(Contents()) + added[..k]
      {
        var r := l.records[k];
        var t := r.title;
        if t == [] {
          t := TBA;
        }
        var a := r.firstAired;
        if a == [] {
          a := TBA;
        }
        var nname := Normalize(seriesname);
        var e := Episode(seriesname, nname, t, r.season, r.episode, a, l.airTime, false);
        Append(e);
        assert added[..k + 1] == added[..k] + [e];
      }
      assert added[..|l.records|] == added;
    }

    /** `markHave`: sets `have` on every entry in use whose key is `(show, season, episode)`. */
    method MarkHave(show: string, season: int, episode: int)
      requires Valid()
      modifies data
      ensures Valid()
      ensures Contents() == MarkAll(old(Contents()), Key(show, season, episode))
    {
      ghost var before := Contents();
      ghost var after := MarkAll(before, Key(show, season, episode));
      for i := 0 to size
        invariant forall k | 0 <= k < i :: data[k] == after[k]
        invariant forall k | i <= k < size :: data[k] == before[k]
      {
        var v := data[i];
        if v.normalizedName == show {
          if v.season == season {
            if v.episode == episode {
              data[i] := v.(have := true);
            }
          }
        }
      }
      assert data[..size] == after;
    }
  }
}
