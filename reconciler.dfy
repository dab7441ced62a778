/**
 * The scan: walk `Show/Season ##/file` under the root, resolve each show
 * against the catalog, and mark the catalog episodes that have a file.
 */
module Reconciler {
  import opened Strings
  import opened Normalizer
  import opened FilenameParser
  import opened Episodes
  import opened Flags

  /** A directory entry as the file lister reports it. */
  datatype FileInfo = FileInfo(name: string, size: int)

  /**
   * The file lister: the entries of every readable directory, by path. A path
   * that is not in the map cannot be listed, which the scan treats as empty.
   */
  type Lister = map<string, seq<FileInfo>>

  function ListDir(fs: Lister, path: string): seq<FileInfo> {
    if path in fs then fs[path] else []
  }

  /** Paths are joined with a backslash. */
  function Join(dir: string, name: string): string {
    dir + "\\" + name
  }

  /**
   * The catalog service for the configured mirror and language: the series id
   * a show-name search returns, and the listing an id fetches.
   */
  datatype Catalog = Catalog(ids: map<string, string>, listings: map<string, Listing>)

  /** The id `getSeries` reports when the search found no series. */
  const NotFound := "nil"

  /** `getSeries`. */
  function GetSeries(cat: Catalog, name: string): (id: string)
    ensures id == NotFound <==> name !in cat.ids || cat.ids[name] == NotFound
    ensures id != NotFound ==> name in cat.ids && cat.ids[name] == id
  {
    if name in cat.ids then cat.ids[name] else NotFound
  }

  /** The listing `getSeriesInfo` reads for an id; an unknown id lists nothing. */
  function SeriesListing(cat: Catalog, id: string): Listing {
    if id in cat.listings then cat.listings[id] else Listing("", [])
  }

  // ------------------------------------------------------------- ignore list

  /** `ignoreShow`: the normalised name occurs somewhere in the ignore list. */
  function IgnoreShow(ignored: string, showname: string): (b: bool)
    ensures b <==> exists i :: OccursAt(ignored, Normalize(showname), i)
  {
    var key := Normalize(showname);
    var found := Contains(ignored, key);
    assert found ==> exists i :: OccursAt(ignored, Normalize(showname), i) by {
      if found {
        var i :| OccursAt(ignored, key, i);
        assert OccursAt(ignored, Normalize(showname), i);
      }
    }
    assert (exists i :: OccursAt(ignored, Normalize(showname), i)) ==> found by {
      if i :| OccursAt(ignored, Normalize(showname), i) {
        assert OccursAt(ignored, key, i);
      }
    }
    found
  }

  /** A name that normalises to nothing is always ignored: the empty string occurs everywhere. */
  lemma IgnoreBlankName(ignored: string, showname: string)
    requires Normalize(showname) == []
    ensures IgnoreShow(ignored, showname)
  {
    assert OccursAt(ignored, [], 0);
  }

  /** With an empty ignore list, exactly the names that normalise to nothing are ignored. */
  lemma IgnoreEmptyList(showname: string)
    ensures IgnoreShow("", showname) <==> Normalize(showname) == []
  {
    if Normalize(showname) == [] {
      IgnoreBlankName("", showname);
    }
  }

  /**
   * Every show written into the ignore list is ignored, whatever surrounds it
   * (other names, separators); so is any show whose key is a piece of it.
   */
  lemma IgnoreListedShow(before: string, showname: string, after: string)
    ensures IgnoreShow(Normalize(before + showname + after), showname)
  {
    NormalizeAppend(before + showname, after);
    NormalizeAppend(before, showname);
    var list := Normalize(before + showname + after);
    var i := |Normalize(before)|;
    assert list[i..i + |Normalize(showname)|] == Normalize(showname);
    assert OccursAt(list, Normalize(showname), i);
  }

  // ------------------------------------------------------------- one file

  /**
   * The episode numbers the marker loop hands to `markHave`: each marker's
   * value in order, or -1 alone when the name has no marker.
   */
  function Targets(fname: string): (t: seq<int>)
    ensures |t| >= 1
  {
    var found := EpisodeMarkers(fname);
    if found == [] then [-1] else found
  }

  /** The state the file loop of one show folder carries. */
  datatype WalkState = WalkState(eps: seq<Episode>, series: string)

  /** A file that is large enough and whose show is not ignored. */
  predicate Eligible(f: FileInfo, cfg: Config) {
    f.size >= cfg.min && !IgnoreShow(cfg.ignore, Normalize(GetName(f.name)))
  }

  /**
   * An eligible file whose show is either the one fetched last in this folder
   * or one the catalog can resolve: its markers are applied.
   */
  predicate Processed(st: WalkState, f: FileInfo, cfg: Config, cat: Catalog) {
    var name := GetName(f.name);
    Eligible(f, cfg) && (st.series == Normalize(name) || GetSeries(cat, name) != NotFound)
  }

  /** `e`'s key is one the file names. */
  predicate FileNamesKey(f: FileInfo, k: Key) {
    && k.show == Normalize(GetName(f.name))
    && k.season == GetSeason(f.name)
    && k.episode in Targets(f.name)
  }

  /** The collection once show `name` is current: its listing is appended unless it already was the current show. */
  function Fetched(st: WalkState, name: string, cat: Catalog): seq<Episode> {
    if st.series != Normalize(name) then st.eps + FromListing(name, SeriesListing(cat, GetSeries(cat, name)))
    else st.eps
  }

  /** What the file loop does with one file. */
  function FileEffect(st: WalkState, f: FileInfo, cfg: Config, cat: Catalog): (out: WalkState)
    ensures |st.eps| <= |out.eps|
    ensures out == st || out.series == Normalize(GetName(f.name))
    ensures f.size < cfg.min ==> out == st
  {
    if f.size < cfg.min then st
    else
      var name := GetName(f.name);
      var key := Normalize(name);
      if IgnoreShow(cfg.ignore, key) then st
      else if st.series != key && GetSeries(cat, name) == NotFound then st
      else
        MarkEachExactly(Fetched(st, name, cat), key, GetSeason(f.name), Targets(f.name));
        WalkState(MarkEach(Fetched(st, name, cat), key, GetSeason(f.name), Targets(f.name)), key)
  }

  /**
   * Making a show current and marking some of its episodes: entries are only
   * appended, and an entry is present exactly when it already was or it is
   * one of the marked episodes of that show.
   */
  lemma FetchThenMark(st: WalkState, name: string, cat: Catalog, season: int, targets: seq<int>)
    ensures var out := MarkEach(Fetched(st, name, cat), Normalize(name), season, targets);
            && |st.eps| <= |out|
            && (forall i | 0 <= i < |out| ::
                  out[i].have <==> (i < |st.eps| && st.eps[i].have)
                                   || (out[i].normalizedName == Normalize(name) && out[i].season == season
                                       && out[i].episode in targets))
            && Grows(st.eps, out)
  {
    var added := FromListing(name, SeriesListing(cat, GetSeries(cat, name)));
    var fetched := Fetched(st, name, cat);
    var out := MarkEach(fetched, Normalize(name), season, targets);
    MarkEachExactly(fetched, Normalize(name), season, targets);
    FromListingFresh(name, SeriesListing(cat, GetSeries(cat, name)));
    forall i | |st.eps| <= i < |fetched|
      ensures !fetched[i].have && fetched[i].normalizedName == Normalize(name)
    {
      assert fetched[i] == added[i - |st.eps|];
      assert fetched[i] in added;
    }
    forall i | 0 <= i < |st.eps|
      ensures fetched[i] == st.eps[i]
    {
    }
  }

  /**
   * One file's effect, exactly: a file that is not processed changes nothing;
   * a processed one makes an entry present exactly when it already was or
   * its key is one the file names, and entries only ever get appended.
   */
  lemma FileEffectExact(st: WalkState, f: FileInfo, cfg: Config, cat: Catalog)
    ensures var out := FileEffect(st, f, cfg, cat);
            !Processed(st, f, cfg, cat) ==> out == st
    ensures var out := FileEffect(st, f, cfg, cat);
            Processed(st, f, cfg, cat) ==>
              && out.series == Normalize(GetName(f.name))
              && |st.eps| <= |out.eps|
              && forall i | 0 <= i < |out.eps| ::
                   out.eps[i].have <==> (i < |st.eps| && st.eps[i].have) || FileNamesKey(f, KeyOf(out.eps[i]))
    ensures Grows(st.eps, FileEffect(st, f, cfg, cat).eps)
  {
    if Processed(st, f, cfg, cat) {
      ProcessedFileEffect(st, f, cfg, cat);
    }
  }

  /** The processed case of `FileEffectExact`. */
  lemma ProcessedFileEffect(st: WalkState, f: FileInfo, cfg: Config, cat: Catalog)
    requires Processed(st, f, cfg, cat)
    ensures var out := FileEffect(st, f, cfg, cat);
            && out.series == Normalize(GetName(f.name))
            && |st.eps| <= |out.eps|
            && (forall i | 0 <= i < |out.eps| ::
                  out.eps[i].have <==> (i < |st.eps| && st.eps[i].have) || FileNamesKey(f, KeyOf(out.eps[i])))
            && Grows(st.eps, out.eps)
  {
    var name := GetName(f.name);
    ProcessedShape(st, f, cfg, cat);
    FetchThenMark(st, name, cat, GetSeason(f.name), Targets(f.name));
  }

  /** A file below the size minimum, or one whose name yields no key, changes nothing. */
  lemma SkippedFiles(st: WalkState, f: FileInfo, cfg: Config, cat: Catalog)
    requires f.size < cfg.min || Normalize(GetName(f.name)) == []
    ensures FileEffect(st, f, cfg, cat) == st
  {
    if Normalize(GetName(f.name)) == [] {
      NormalizeIdempotent(GetName(f.name));
      IgnoreBlankName(cfg.ignore, Normalize(GetName(f.name)));
    }
  }

  /**
   * Whenever the show differs from the last one fetched in the folder, its
   * whole listing is appended again, even if an earlier file of the same
   * folder already brought it in; of the appended episodes, exactly those the
   * file names are present.
   */
  lemma RefetchAppends(st: WalkState, f: FileInfo, cfg: Config, cat: Catalog)
    requires Processed(st, f, cfg, cat)
    requires st.series != Normalize(GetName(f.name))
    ensures var added := FromListing(GetName(f.name), SeriesListing(cat, GetSeries(cat, GetName(f.name))));
            var out := FileEffect(st, f, cfg, cat).eps;
            && |out| == |st.eps| + |added|
            && forall k | 0 <= k < |added| ::
                 out[|st.eps| + k] == added[k].(have := FileNamesKey(f, KeyOf(added[k])))
  {
    var name := GetName(f.name);
    var added := FromListing(name, SeriesListing(cat, GetSeries(cat, name)));
    var season, targets := GetSeason(f.name), Targets(f.name);
    ProcessedShape(st, f, cfg, cat);
    assert Fetched(st, name, cat) == st.eps + added;
    var out := MarkEach(st.eps + added, Normalize(name), season, targets);
    assert FileEffect(st, f, cfg, cat).eps == out;
    FromListingFresh(name, SeriesListing(cat, GetSeries(cat, name)));
    MarkAppended(st.eps, added, Normalize(name), season, targets);
    forall k | 0 <= k < |added|
      ensures out[|st.eps| + k] == added[k].(have := FileNamesKey(f, KeyOf(added[k])))
    {
      assert FileNamesKey(f, KeyOf(added[k]))
             == (added[k].normalizedName == Normalize(name) && added[k].season == season && added[k].episode in targets);
    }
  }

  /** A processed file makes its show current and marks the keys it names in the fetched collection. */
  lemma ProcessedShape(st: WalkState, f: FileInfo, cfg: Config, cat: Catalog)
    requires Processed(st, f, cfg, cat)
    ensures var name := GetName(f.name);
            FileEffect(st, f, cfg, cat)
            == WalkState(MarkEach(Fetched(st, name, cat), Normalize(name), GetSeason(f.name), Targets(f.name)),
                         Normalize(name))
  {
  }

  /** Marking after an append: each appended entry, missing before, ends present exactly when it is marked. */
  lemma MarkAppended(prefix: seq<Episode>, added: seq<Episode>, show: string, season: int, targets: seq<int>)
    requires forall e | e in added :: !e.have
    ensures var out := MarkEach(prefix + added, show, season, targets);
            && |out| == |prefix| + |added|
            && forall k | 0 <= k < |added| ::
                 out[|prefix| + k]
                 == added[k].(have := added[k].normalizedName == show && added[k].season == season
                                      && added[k].episode in targets)
  {
    var all := prefix + added;
    MarkEachExactly(all, show, season, targets);
    forall k | 0 <= k < |added|
      ensures all[|prefix| + k] == added[k] && !added[k].have
    {
      assert added[k] in added;
    }
  }

  /**
   * A file of the show fetched last in the folder consults no catalog and
   * appends nothing: it only marks its episodes among the entries already there.
   */
  lemma CurrentShowAppendsNothing(st: WalkState, f: FileInfo, cfg: Config, cat: Catalog)
    requires Processed(st, f, cfg, cat)
    requires st.series == Normalize(GetName(f.name))
    ensures FileEffect(st, f, cfg, cat).eps == MarkEach(st.eps, st.series, GetSeason(f.name), Targets(f.name))
    ensures |FileEffect(st, f, cfg, cat).eps| == |st.eps|
  {
    MarkEachExactly(st.eps, st.series, GetSeason(f.name), Targets(f.name));
  }

  // ----------------------------------------------------------- the walk, as folds

  /** The file loop over the files of one show folder. */
  function WalkFiles(st: WalkState, files: seq<FileInfo>, cfg: Config, cat: Catalog): (out: WalkState)
    ensures |st.eps| <= |out.eps|
    decreases |files|
  {
    if files == [] then st
    else FileEffect(WalkFiles(st, files[..|files| - 1], cfg, cat), files[|files| - 1], cfg, cat)
  }

  lemma {:induction false} WalkFilesAppend(st: WalkState, a: seq<FileInfo>, b: seq<FileInfo>, cfg: Config, cat: Catalog)
    ensures WalkFiles(st, a + b, cfg, cat) == WalkFiles(WalkFiles(st, a, cfg, cat), b, cfg, cat)
    decreases |b|
  {
    if b == [] {
      assert a + b == a;
    } else {
      var b' := b[..|b| - 1];
      assert (a + b)[..|a + b| - 1] == a + b';
      WalkFilesAppend(st, a, b', cfg, cat);
    }
  }

  /** A subdirectory the show loop descends into: size 0 and named `season…` or `Season…`. */
  predicate IsSeasonFolder(f: FileInfo): (b: bool)
    ensures b ==> f.size <= 0 && 6 <= |f.name| && (f.name[0] == 's' || f.name[0] == 'S')
    ensures b ==> f.name[1] == 'e' && f.name[2] == 'a' && f.name[3] == 's' && f.name[4] == 'o' && f.name[5] == 'n'
  {
    f.size <= 0 && (HasPrefix(f.name, "season") || HasPrefix(f.name, "Season"))
  }

  /** The files of a show folder, season folder by season folder. */
  function SeasonFiles(fs: Lister, showdir: string, seasons: seq<FileInfo>): seq<FileInfo>
    decreases |seasons|
  {
    if seasons == [] then []
    else
      var last := seasons[|seasons| - 1];
      SeasonFiles(fs, showdir, seasons[..|seasons| - 1])
      + (if IsSeasonFolder(last) then ListDir(fs, Join(showdir, last.name)) else [])
  }

  function ShowFiles(fs: Lister, dir: string, showname: string): seq<FileInfo> {
    var showdir := Join(dir, showname);
    SeasonFiles(fs, showdir, ListDir(fs, showdir))
  }

  /** The show loop: each show folder that is not ignored starts with no current series. */
  function WalkShows(eps: seq<Episode>, shows: seq<FileInfo>, fs: Lister, cfg: Config, cat: Catalog): (out: seq<Episode>)
    ensures |eps| <= |out|
    ensures (forall k | 0 <= k < |shows| :: IgnoreShow(cfg.ignore, shows[k].name)) ==> out == eps
    decreases |shows|
  {
    if shows == [] then eps
    else
      var prev := WalkShows(eps, shows[..|shows| - 1], fs, cfg, cat);
      var show := shows[|shows| - 1];
      if IgnoreShow(cfg.ignore, show.name) then prev
      else WalkFiles(WalkState(prev, ""), ShowFiles(fs, cfg.dir, show.name), cfg, cat).eps
  }

  /** Every file the walk looks at, show folder by show folder. */
  function ScannedFiles(shows: seq<FileInfo>, fs: Lister, cfg: Config): seq<FileInfo>
    decreases |shows|
  {
    if shows == [] then []
    else
      var show := shows[|shows| - 1];
      ScannedFiles(shows[..|shows| - 1], fs, cfg)
      + (if IgnoreShow(cfg.ignore, show.name) then [] else ShowFiles(fs, cfg.dir, show.name))
  }

  /** An entry present now but not before. */
  ghost predicate NewlyPresent(before: seq<Episode>, after: seq<Episode>, i: int) {
    0 <= i < |after| && after[i].have && !(i < |before| && before[i].have)
  }

  /** An eligible file among `files` names key `k`. */
  ghost predicate SomeFileNames(files: seq<FileInfo>, cfg: Config, k: Key) {
    exists f | f in files :: Eligible(f, cfg) && FileNamesKey(f, k)
  }

  /**
   * The file loop only appends and sets `have`, and every entry it marks has
   * the key of some eligible file of the loop.
   */
  lemma {:induction false} WalkFilesSound(st: WalkState, files: seq<FileInfo>, cfg: Config, cat: Catalog)
    ensures Grows(st.eps, WalkFiles(st, files, cfg, cat).eps)
    ensures forall i | NewlyPresent(st.eps, WalkFiles(st, files, cfg, cat).eps, i) ::
              SomeFileNames(files, cfg, KeyOf(WalkFiles(st, files, cfg, cat).eps[i]))
    decreases |files|
  {
    if files != [] {
      var init := files[..|files| - 1];
      var last := files[|files| - 1];
      var mid := WalkFiles(st, init, cfg, cat);
      var out := FileEffect(mid, last, cfg, cat);
      WalkFilesSound(st, init, cfg, cat);
      FileEffectExact(mid, last, cfg, cat);
      GrowsTransitive(st.eps, mid.eps, out.eps);
      forall i | NewlyPresent(st.eps, out.eps, i)
        ensures SomeFileNames(files, cfg, KeyOf(out.eps[i]))
      {
        if NewlyPresent(mid.eps, out.eps, i) {
          assert Processed(mid, last, cfg, cat);
          assert last in files;
        } else {
          assert NewlyPresent(st.eps, mid.eps, i);
          assert KeyOf(out.eps[i]) == KeyOf(mid.eps[i]);
          assert SomeFileNames(init, cfg, KeyOf(mid.eps[i]));
          var f :| f in init && Eligible(f, cfg) && FileNamesKey(f, KeyOf(mid.eps[i]));
          assert f in files;
        }
      }
    }
  }

  /**
   * The whole walk only appends and sets `have`, and every entry it marks has
   * the key of an eligible file it scanned: a show with no such file on disk
   * never has an episode marked.
   */
  lemma {:induction false} WalkShowsSound(eps: seq<Episode>, shows: seq<FileInfo>, fs: Lister, cfg: Config, cat: Catalog)
    ensures Grows(eps, WalkShows(eps, shows, fs, cfg, cat))
    ensures forall i | NewlyPresent(eps, WalkShows(eps, shows, fs, cfg, cat), i) ::
              SomeFileNames(ScannedFiles(shows, fs, cfg), cfg, KeyOf(WalkShows(eps, shows, fs, cfg, cat)[i]))
    decreases |shows|
  {
    if shows != [] {
      var init := shows[..|shows| - 1];
      var show := shows[|shows| - 1];
      var prev := WalkShows(eps, init, fs, cfg, cat);
      var out := WalkShows(eps, shows, fs, cfg, cat);
      var scanned := ScannedFiles(shows, fs, cfg);
      WalkShowsSound(eps, init, fs, cfg, cat);
      if !IgnoreShow(cfg.ignore, show.name) {
        var files := ShowFiles(fs, cfg.dir, show.name);
        WalkFilesSound(WalkState(prev, ""), files, cfg, cat);
        GrowsTransitive(eps, prev, out);
        forall i | NewlyPresent(eps, out, i)
          ensures SomeFileNames(scanned, cfg, KeyOf(out[i]))
        {
          if NewlyPresent(prev, out, i) {
            var f :| f in files && Eligible(f, cfg) && FileNamesKey(f, KeyOf(out[i]));
            assert f in scanned;
          } else {
            assert KeyOf(out[i]) == KeyOf(prev[i]);
            assert SomeFileNames(ScannedFiles(init, fs, cfg), cfg, KeyOf(prev[i]));
            var f :| f in ScannedFiles(init, fs, cfg) && Eligible(f, cfg) && FileNamesKey(f, KeyOf(prev[i]));
            assert f in scanned;
          }
        }
      } else {
        forall i | NewlyPresent(eps, out, i)
          ensures SomeFileNames(scanned, cfg, KeyOf(out[i]))
        {
          assert SomeFileNames(ScannedFiles(init, fs, cfg), cfg, KeyOf(prev[i]));
          var f :| f in ScannedFiles(init, fs, cfg) && Eligible(f, cfg) && FileNamesKey(f, KeyOf(prev[i]));
          assert f in scanned;
        }
      }
    }
  }

  // ---------------------------------------------------------------- the methods

  /**
   * The marker loop of `folderWalk`: asks `getEpisode` for marker 0, 1, …
   * and hands each value to `markHave`, stopping after the last marker, or
   * after the single -1 of a name without markers.
   */
  method MarkFileEpisodes(lib: EpisodeSlice, show: string, season: int, fname: string)
    returns (ghost calls: seq<int>)
    requires lib.Valid()
    modifies lib.data
    ensures lib.Valid()
    ensures calls == Targets(fname)
    ensures |calls| == if EpisodeMarkers(fname) == [] then 1 else |EpisodeMarkers(fname)|
    ensures lib.Contents() == MarkEach(old(lib.Contents()), show, season, calls)
  {
    ghost var before := lib.Contents();
    ghost var targets := Targets(fname);
    calls := [];
    var index := 0;
    var loop := true;
    while loop
      invariant lib.Valid()
      invariant 0 <= index <= |targets|
      invariant loop <==> index < |targets|
      invariant calls == targets[..index]
      invariant lib.Contents() == MarkEach(before, show, season, calls)
      decreases |targets| - index
    {
      var r := GetEpisode(fname, index);
      var episodenum, matches := r.0, r.1;
      if episodenum == -1 || matches - 1 == index {
        loop := false;
      }
      lib.MarkHave(show, season, episodenum);
      calls := calls + [episodenum];
      assert targets[..index + 1] == targets[..index] + [targets[index]];
      index := index + 1;
    }
    assert targets[..|targets|] == targets;
  }

  /**
   * The body of `folderWalk`'s file loop for one file: skip it when too small
   * or ignored, fetch the catalog when its show differs from the last one
   * fetched in the folder (skipping it when the show is not found), then
   * mark its episodes. Returns the series name the loop carries on with.
   */
  method ScanFile(lib: EpisodeSlice, seriesname: string, episode: FileInfo, cfg: Config, cat: Catalog)
    returns (series: string)
    requires lib.Valid()
    modifies lib, lib.data
    ensures lib.Valid()
    ensures lib.data == old(lib.data) || fresh(lib.data)
    ensures WalkState(lib.Contents(), series)
            == FileEffect(WalkState(old(lib.Contents()), seriesname), episode, cfg, cat)
  {
    series := seriesname;
    if episode.size < cfg.min {
      return;
    }
    var name := GetName(episode.name);
    if IgnoreShow(cfg.ignore, Normalize(name)) {
      return;
    }
    if series != Normalize(name) {
      var seriesid := GetSeries(cat, name);
      if seriesid == NotFound {
        return;
      }
      series := Normalize(name);
      lib.AppendSeries(name, SeriesListing(cat, seriesid));
    }
    var seasonnum := GetSeason(episode.name);
    ghost var calls := MarkFileEpisodes(lib, Normalize(name), seasonnum, episode.name);
  }

  /** `folderWalk`'s file loop over the files of one season folder. */
  method ScanSeasonFolder(lib: EpisodeSlice, seriesname: string, epis: seq<FileInfo>, cfg: Config, cat: Catalog)
    returns (series: string)
    requires lib.Valid()
    modifies lib, lib.data
    ensures lib.Valid()
    ensures lib.data == old(lib.data) || fresh(lib.data)
    ensures WalkState(lib.Contents(), series)
            == WalkFiles(WalkState(old(lib.Contents()), seriesname), epis, cfg, cat)
  {
    ghost var start := WalkState(lib.Contents(), seriesname);
    series := seriesname;
    for k := 0 to |epis|
      invariant lib.Valid()
      invariant lib.data == old(lib.data) || fresh(lib.data)
      invariant WalkState(lib.Contents(), series) == WalkFiles(start, epis[..k], cfg, cat)
    {
      assert epis[..k + 1][..k] == epis[..k];
      series := ScanFile(lib, series, epis[k], cfg, cat);
    }
    assert epis[..|epis|] == epis;
  }

  /**
   * `folderWalk`'s loop over the entries of one show folder: entries of
   * non-zero size and entries not named `season…` or `Season…` are passed
   * over; the series name starts out empty for the folder.
   */
  method ScanShowFolder(lib: EpisodeSlice, fs: Lister, showdir: string, cfg: Config, cat: Catalog)
    requires lib.Valid()
    modifies lib, lib.data
    ensures lib.Valid()
    ensures lib.data == old(lib.data) || fresh(lib.data)
    ensures lib.Contents()
            == WalkFiles(WalkState(old(lib.Contents()), ""), SeasonFiles(fs, showdir, ListDir(fs, showdir)), cfg, cat).eps
  {
    var seasons := ListDir(fs, showdir);
    var seriesname := "";
    ghost var start := WalkState(lib.Contents(), "");
    for j := 0 to |seasons|
      invariant lib.Valid()
      invariant lib.data == old(lib.data) || fresh(lib.data)
      invariant WalkState(lib.Contents(), seriesname)
                == WalkFiles(start, SeasonFiles(fs, showdir, seasons[..j]), cfg, cat)
    {
      assert seasons[..j + 1][..j] == seasons[..j];
      ghost var done := SeasonFiles(fs, showdir, seasons[..j]);
      var season := seasons[j];
      assert !IsSeasonFolder(season) ==> SeasonFiles(fs, showdir, seasons[..j + 1]) == done + [];
      assert done + [] == done;
      if season.size > 0 {
        continue;
      }
      if !(HasPrefix(season.name, "season") || HasPrefix(season.name, "Season")) {
        continue;
      }
      var seasondir := Join(showdir, season.name);
      var epis := ListDir(fs, seasondir);
      seriesname := ScanSeasonFolder(lib, seriesname, epis, cfg, cat);
      WalkFilesAppend(start, done, epis, cfg, cat);
    }
    assert seasons[..|seasons|] == seasons;
  }

  /**
   * `folderWalk`: every show folder under the root whose name is not ignored
   * is scanned in turn.
   */
  method FolderWalk(lib: EpisodeSlice, shows: seq<FileInfo>, fs: Lister, cfg: Config, cat: Catalog)
    requires lib.Valid()
    modifies lib, lib.data
    ensures lib.Valid()
    ensures lib.Contents() == WalkShows(old(lib.Contents()), shows, fs, cfg, cat)
  {
    ghost var eps0 := lib.Contents();
    for i := 0 to |shows|
      invariant lib.Valid()
      invariant lib.data == old(lib.data) || fresh(lib.data)
      invariant lib.Contents() == WalkShows(eps0, shows[..i], fs, cfg, cat)
    {
      assert shows[..i + 1][..i] == shows[..i];
      var showname := shows[i].name;
      if IgnoreShow(cfg.ignore, showname) {
        continue;
      }
      var showdir := Join(cfg.dir, showname);
      ScanShowFolder(lib, fs, showdir, cfg, cat);
    }
    assert shows[..|shows|] == shows;
  }
}
