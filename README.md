# epi — finding missing TV episodes, modelled in Dafny

epi scans a library folder laid out as `Show Name/Season ##/Show Name - S##E## - Title.ext`.
It looks each show up in an online episode catalog and reports the catalog
episodes that have no file. This project models the reconciliation core of
`epi.go`:

- name normalisation (`normalize`);
- the file-name parsers (`getName`, `getSeason`, `getEpisode`);
- the ignore-list test (`ignoreShow`);
- how a catalog listing becomes episodes (the record loop of `getSeriesInfo`);
- the in-place marking (`markHave`) and the walk that drives it (`folderWalk`);
- the tallies (`countHaves`), the report filter (`printReport`) and the air-date ordering (`Less` and the two `sort.Sort` calls in `main`).

Modules:

- `Strings`: substring search, space trimming and the byte-wise string order.
- `Normalizer`: `normalize`.
- `FilenameParser`: show name, season and episode markers of a file name.
- `Episodes`: the `episode` record, its construction from a catalog record, and the
  `EpisodeSlice` class. That class models the growing `[]episode` slice as an array
  plus a length, with `Append` and the in-place `MarkHave`.
- `Flags`: the settings the scan and the report read.
- `Reconciler`: the environment and the walk.
  - The file lister is a map from path to directory entries.
  - The catalog is a map from show name to series id and from id to listing.
  - `folderWalk` is written as methods with loops, proved equal to a fold (`WalkShows`) whose properties are lemmas.
- `Report`: the tallies, the filter, the sort and the whole run (`FindMissing`).
  The clock and date parser appear as `DayCounts`, a map from each parseable air date to its rounded day count.

Behaviour of the code worth knowing:

- The season marker is an uppercase `S` plus two digits. A lowercase `s01e02` has season 0.
- An episode marker is `E` or `e` followed by one or two digits, not exactly two.
- A season folder is an entry of size 0 whose name starts with `season` or `Season`.
- The catalog is consulted whenever a file's show differs from the last one resolved in the same show folder.
  The last resolved show changes only after a successful lookup. So a show the catalog does not know is looked up again for every one of its files, and each of those files changes nothing (`FileEffectExact`).
  A successful lookup appends the whole listing again, so the collection can hold duplicates (`RefetchAppends`). A failed lookup appends nothing.
- An episode whose air date does not parse, `TBA` included, counts as one day in the future in both tests.
  `timeSince` gives -1 for such a date, as for a date still to come, and `timeUntil` gives +1.
  A future window of exactly 0 days therefore drops it; a window of 1 day or more (the default is 365) and the past window keep it (`UnparseableDates`).
- A name that normalises to the empty string is always ignored, since the empty string occurs in every ignore list.
- Directory listings come back sorted by name, and which files trigger a refetch depends on that order.
  The model's file lister allows any order, and every property proved holds for every order.

## Model

| member | source | states |
|---|---|---|
| Strings.Contains | epi.go:575 | the result is true exactly when the pattern occurs at some position of the text |
| Strings.TrimSpaces | epi.go:245 | the result is the input with its leading and trailing spaces removed, and nothing else: a slice bounded by spaces, starting and ending in a non-space, and using only the input's characters |
| Strings.StrLessIrreflexive | epi.go:469-471 | no string precedes itself in the string order |
| Strings.StrLessTransitive | epi.go:469-471 | the string order is transitive |
| Strings.StrLessTotal | epi.go:469-471 | any two strings are equal or ordered one way |
| Strings.StrLessAsymmetric | epi.go:469-471 | two strings are never ordered both ways |
| Strings.StrLess | epi.go:470 | Go's `<` on strings: a proper prefix comes first, a first differing character decides, and no string comes before itself |
| Strings.HasPrefix | epi.go:191 | `strings.HasPrefix`: true exactly when the prefix occurs at position 0 |
| Normalizer.ToLower | epi.go:493 | the lowered character is never an uppercase ASCII letter |
| Normalizer.Normalize | epi.go:492-499 | the key is no longer than the name and contains no uppercase ASCII letter, space, `'`, `"` or `.` |
| Normalizer.NormalizeAppend | epi.go:492-499 | normalisation works character by character: the key of a concatenation is the concatenation of the keys |
| Normalizer.NormalizeFixpoint | epi.go:492-499 | a string is its own key exactly when it has no uppercase letter and no removed character |
| Normalizer.NormalizeIdempotent | epi.go:492-499 | normalising a key again changes nothing |
| Normalizer.NormalizeIgnoresStripped | epi.go:494-497 | inserting a space, quote, double quote or period anywhere does not change the key |
| Normalizer.NormalizeIgnoresCase | epi.go:493 | names that agree up to ASCII case have the same key |
| FilenameParser.NamePrefixLength | epi.go:242-243 | the match of `^[a-zA-Z0-9'.&() ]*` is the longest prefix of allowed characters: all characters in it are allowed and the next one is not |
| FilenameParser.GetName | epi.go:241-249 | the show name is that longest allowed prefix with the spaces around it removed; it has only allowed characters, no edge spaces, and is empty when the first character is not allowed |
| FilenameParser.SeasonValue | epi.go:256 | the two digits after `S` give a season in 0..99 |
| FilenameParser.FirstSeasonMarker | epi.go:253-254 | the search finds the leftmost `S##` at or after a position, or reports that there is none |
| FilenameParser.GetSeason | epi.go:252-263 | the season is in 0..99, equals the value of the leftmost `S##`, and is 0 when there is no such marker |
| FilenameParser.MarkerLength | epi.go:267 | a marker takes two characters, and exactly three when a second digit follows (greedy repetition) |
| FilenameParser.MarkerValue | epi.go:274 | a marker's episode number is in 0..99 |
| FilenameParser.MarkersFrom | epi.go:267-268 | every reported value is in 0..99 and each marker takes at least two characters of the scanned text |
| FilenameParser.MarkersSkip | epi.go:268 | positions that start no marker do not affect the scan |
| FilenameParser.MarkersEmptyIff | epi.go:268-270 | the scan finds no marker exactly when no position starts one |
| FilenameParser.MarkersFirst | epi.go:268 | the first value reported is the leftmost marker's, and scanning resumes right after that marker |
| FilenameParser.EpisodeMarkers | epi.go:267-268 | the values `FindAllString` reports for the whole name are in 0..99, and there are none exactly when no position starts a marker |
| FilenameParser.GetEpisode | epi.go:266-281 | returns the marker count; for an index below the count, that marker's value (0..99), otherwise -1, including when there are no markers |
| FilenameParser.ParseExampleName | epi.go:241-249 | `Show - S01E02 - Title.mkv` has show name `Show` |
| FilenameParser.ParseExampleSingle | epi.go:266-281 | `Show - S01E02 - Title.mkv` has the single marker 2; the `e` in `Title` is not followed by a digit |
| FilenameParser.ParseExampleDouble | epi.go:266-281 | `Show - S01E02E03.mkv` has markers 2 and 3, in that order |
| FilenameParser.ParseExampleSeason | epi.go:252-263 | `Show - S01E02E03.mkv` has season 1 |
| FilenameParser.ParseExampleNone | epi.go:241-281 | `Show.mkv` has season 0 and no markers, and its show name keeps the extension |
| FilenameParser.ParseExampleLowerCase | epi.go:252-268 | `show s01e02.mkv` has season 0 but episode marker 2 |
| Episodes.FromRecord | epi.go:386-410 | the new episode is missing, carries the normalised series name and the record's season and episode, and keeps the record's title and date when present; title and air date are `TBA` exactly when the record's field is empty or `TBA` |
| Episodes.FromListing | epi.go:383-412 | one episode per catalog record, in listing order, each built as above |
| Episodes.FromListingFresh | epi.go:399-409 | every episode of a fresh listing is missing and keyed by the normalised series name |
| Episodes.MarkAll | epi.go:435-449 | same length; an entry is present afterwards exactly when it was before or its key matches; no other field changes |
| Episodes.MarkAllIdempotent | epi.go:435-449 | marking the same key twice is the same as marking it once |
| Episodes.MarkEach | epi.go:223-232 | the successive `markHave` calls of one file keep the length, never clear `Have`, change nothing but `Have`, and mark only entries of the file's show and season |
| Episodes.MarkEachExactly | epi.go:223-232 | after marking a sequence of episode numbers, an entry is present exactly when it was before or its key is one of them; length and other fields are kept |
| Episodes.MarkEachGrows | epi.go:223-232 | marking never clears `Have` and never changes anything but `Have` |
| Episodes.MarkEachIdempotent | epi.go:223-232 | marking the same numbers again changes nothing |
| Episodes.AirDateLessStrictWeakOrder | epi.go:469-471 | `Less` is irreflexive and transitive, and episodes it does not order have the same air date |
| Episodes.AirDateLess | epi.go:469-471 | `Less` compares air dates as strings: it holds exactly when the dates differ and the second does not come first |
| Episodes.EpisodeSlice.constructor | epi.go:104 | the collection starts empty |
| Episodes.EpisodeSlice.Append | epi.go:411 | appends one episode; the backing array is reused or replaced by a fresh one |
| Episodes.EpisodeSlice.AppendSeries | epi.go:383-412 | appends the listing's episodes, in order, with the `TBA` defaults |
| Episodes.EpisodeSlice.MarkHave | epi.go:435-449 | the entries in use become `MarkAll` of their previous contents: in place, exactly the matching entries gain `Have` |
| Reconciler.IgnoreShow | epi.go:572-580 | a show is ignored exactly when its normalised name occurs somewhere in the ignore list |
| Reconciler.IgnoreBlankName | epi.go:572-580 | a name that normalises to nothing is always ignored |
| Reconciler.IgnoreEmptyList | epi.go:572-580 | with an empty list, exactly the names that normalise to nothing are ignored |
| Reconciler.IgnoreListedShow | epi.go:572-580 | a show named anywhere in the raw ignore flag, whatever surrounds it, is ignored after the flag is normalised |
| Reconciler.GetSeries | epi.go:342-360 | the search returns the sentinel `nil` exactly when the catalog knows no series id for the name; otherwise the id it knows |
| Reconciler.IsSeasonFolder | epi.go:188-193 | an entry the show loop descends into has no positive size and a name starting with `season` or `Season` |
| Reconciler.FileEffect | epi.go:198-233 | one file either changes nothing or makes its show current; the collection never shrinks; a file below the size minimum changes nothing |
| Reconciler.Targets | epi.go:223-232 | the marker loop always makes at least one `markHave` call |
| Reconciler.FileEffectExact | epi.go:198-233 | an unprocessed file changes nothing. For a processed file: the series becomes its show; entries are only appended; an entry is present exactly when it already was or its key is one the file names; nothing but `Have` changes and no `Have` is cleared |
| Reconciler.FetchThenMark | epi.go:207-232 | making a show current and marking its episodes only appends entries; an entry is present exactly when it already was or it is one of the marked episodes of that show; no `Have` is cleared |
| Reconciler.ProcessedShape | epi.go:207-232 | a processed file makes its show current, appends the listing unless the show already was current, then applies its marks |
| Reconciler.MarkAppended | epi.go:223-232 | an appended entry, missing when fetched, ends present exactly when the file's marks name it |
| Reconciler.ProcessedFileEffect | epi.go:198-233 | for a processed file: the series becomes its show, entries are only appended, and an entry is present exactly when it already was or the file names its key |
| Reconciler.SkippedFiles | epi.go:199-206 | a file below the size minimum, or one whose name yields an empty key, changes nothing |
| Reconciler.RefetchAppends | epi.go:207-218 | when the show differs from the last one resolved, its whole catalog listing is appended again after the existing entries; of the appended episodes, exactly those the file names are present, and nothing else about them changes |
| Reconciler.CurrentShowAppendsNothing | epi.go:207-218 | a file of the show that is already current consults no catalog and appends nothing: the collection keeps its length and only gains marks |
| Reconciler.WalkFiles | epi.go:198-233 | the file loop of one season folder, as a fold of `FileEffect` over its files, never shrinks the collection |
| Reconciler.WalkFilesSound | epi.go:198-233 | the file loop only appends and sets `Have`; every entry it marks has the key of an eligible file of the loop |
| Reconciler.WalkShowsSound | epi.go:175-238 | the same for the whole walk: an episode becomes present only when some scanned, eligible file names its show, season and episode |
| Reconciler.WalkShows | epi.go:175-238 | the walk never shrinks the collection, and a root whose every folder is ignored leaves it unchanged |
| Reconciler.MarkFileEpisodes | epi.go:223-232 | the sentinel loop calls `markHave` once per marker in order, or once with -1, so max(1, matches) times, and the collection ends as that sequence of marks |
| Reconciler.ScanFile | epi.go:198-232 | one pass of the file loop has exactly the effect `FileEffect` describes, and returns the series name the loop carries on with |
| Reconciler.ScanSeasonFolder | epi.go:196-233 | the file loop over one season folder is the fold of `FileEffect` over its files |
| Reconciler.ScanShowFolder | epi.go:185-234 | one show folder: only season folders are descended into, in order, and the series name starts empty |
| Reconciler.FolderWalk | epi.go:175-238 | the collection ends as `WalkShows` of its old contents over the root's entries |
| Report.HaveCount | epi.go:501-515 | the present counter of `countHaves` is at most the number of episodes, and 0 exactly when no episode is present |
| Report.MissingCount | epi.go:501-515 | the missing counter of `countHaves` is at most the number of episodes, and 0 exactly when every episode is present |
| Report.HaveMissingTotal | epi.go:501-515 | present plus missing is the number of episodes |
| Report.HaveCountPermutation | epi.go:113-120 | reordering the episodes, as the sort does, leaves the present count unchanged |
| Report.CountHaves | epi.go:501-515 | total is the number of episodes; the other two count present and missing entries and add up to the total |
| Report.Filter | epi.go:529-557 | the episodes `printReport` lists, in collection order: no more than the collection holds, and each one passes all filters |
| Report.FilterExactly | epi.go:529-557 | an episode is printed exactly when it is in the collection and passes all filters; no present episode is printed; at most the missing ones are |
| Report.DefaultFilter | epi.go:529-545 | with every toggle off and no window, the printed episodes are exactly the missing ones outside season 0 and episode 0 whose air date is not `TBA` |
| Report.TimeSince | epi.go:599-611 | an empty or unparseable date gives -1; a parseable one gives its day count |
| Report.TimeUntil | epi.go:613-615 | the inverse of `timeSince`: the two always sum to 0 |
| Report.Shown | epi.go:529-555 | a printed episode is missing, respects the season-0, episode-0 and `TBA` toggles, aired at most `past` days ago when that window is set, and airs at most `future` days ahead when that window is set |
| Report.FilterMultiset | epi.go:529-557 | each copy of an episode that passes the filters is printed, and nothing else: counted with repetitions |
| Report.FilterPermutation | epi.go:529-557 | filtering a reordering of the collection prints the same episodes, each as often |
| Report.UnparseableDates | epi.go:548-555 | the past window never drops an empty or unparseable date; a future window of 0 always drops it; a future window of 1 day or more never does |
| Report.PrintReport | epi.go:517-558 | an empty collection yields only "No episodes found."; otherwise the three tallies and exactly the filtered episodes, in order |
| Report.NotBeforePreorder | epi.go:113-120 | "not after" under `Less`, or under its reverse, is total and transitive |
| Report.Insert | epi.go:113-120 | one insertion step of the sort: the result is the sequence plus exactly one copy of the new episode |
| Report.SortByAirDate | epi.go:113-120 | the result of `sort.Sort`: the same episodes, each as often, with the same length |
| Report.InsertCorrect | epi.go:113-120 | inserting into a sorted sequence keeps it sorted and adds exactly the new episode |
| Report.SortByAirDateCorrect | epi.go:113-120 | the sort returns a permutation of its input, ordered by air date (oldest first or newest first) |
| Report.SortedCons | epi.go:113-120 | an episode that goes after none of a sorted sequence can be put at its head |
| Report.FilterSorted | epi.go:529-557 | filtering keeps the order: the printed lines of a sorted collection are sorted |
| Report.SortForReport | epi.go:112-120 | the optional sorts return a reordering of the walk's episodes: unchanged when neither is asked for, newest first when the reverse sort is asked for (it runs last), oldest first when only that one is |
| Report.FindMissing | epi.go:103-126 | "No episodes found." exactly when the walk found none. Otherwise all three tallies are the walk's, and the printed lines are the walk's filtered episodes, each as often as the walk produced it. They are in the walk's order when no sort is asked for, and sorted by air date when one is |

## Left out

- Network access: the mirror lookup, the HTTP half of `getURLorCache` and the series search (`getMirrors`, `getURLorCache`, `getSeries`; epi.go:283-360). The catalog is a map given as input. A show the search does not find maps to the sentinel id `nil`; an unknown id has an empty listing.
- The on-disk catalog cache (epi.go:302-340). The search cache is keyed by the normalised show name (epi.go:344), so the answer for one spelling serves every spelling with the same key, in this run and later ones. The model's catalog is keyed by the raw name, which is more general: the cached behaviour is the case where names with equal keys map to the same id. The model does not capture the cache outliving a run.
- XML parsing with `xmlpath` (epi.go:351-388, 416-432). A catalog record holds the fields already read out, after zero-width spaces are removed and white space is trimmed (epi.go:419-420). The model assumes `EpisodeName`, `FirstAired`, `SeasonNumber` and `EpisodeNumber` are present and the two numbers are integers. Otherwise the program panics (epi.go:422, 429-430), and the model has no panic path. Only `Airs_Time` may be missing; it then reads as empty (epi.go:376-379).
- Filesystem access (`folderFiles`, `isDirectory`, `exists`): the file lister is a map from path to entries, and a path that cannot be listed has no entries, as the code's ignored errors give.
- The clock and the date parser in `timeSince` (epi.go:599-611), including the floating-point rounding. Each parseable date's day count is an input. `timeUntil` is kept as the negation of `timeSince`.
- `main`'s flag parsing, the `cwd` directory default, the logo, debug output and the report's line formatting (epi.go:42-156, 561-591). A report is its tallies and the list of printed episodes.
- The message "Error: Unable to find …" that the walk prints for a show the catalog does not know (epi.go:210). The skip itself is modelled; the output line is not.
- Normalizer.ToLower: lowers ASCII letters only; `strings.ToLower` also folds non-ASCII letters.
- Strings.StrLess: compares characters, where Go compares the UTF-8 bytes of the strings; the two orders agree on valid text.
- Report.SortByAirDateCorrect: the library sort is not stable. The model sorts by insertion and claims only what any correct sort gives, a permutation in air-date order; equal air dates may end up in a different order than `sort.Sort` leaves them in.
- Reconciler.WalkShowsSound: only soundness is claimed for the whole walk, not that every file's episode ends up present. A later refetch appends fresh, missing copies of a show's episodes, so an earlier mark can be shadowed by a duplicate. `FileEffectExact` states the exact effect of each file.
- `episodesByName` (epi.go:479-489) is declared but never used, so it is not modelled.
- Integer widths: the model uses unbounded integers. Season and episode numbers parsed from file names are at most 99, and counts are collection sizes, so neither can overflow. Catalog season and episode numbers come from `Atoi` (epi.go:386-387) and may be any 64-bit value; they are only compared for equality, so their width does not matter.
