/**
 * Identity read out of a file name laid out as
 * `Show Name - S##E## - Episode Title.ext`: the show name, the season number
 * and the episode markers.
 */
module FilenameParser {
  import opened Strings

  datatype Option<T> = None | Some(value: T)

  // ---------------------------------------------------------------- show name

  /** The character class `[a-zA-Z0-9'.&() ]` of the show-name pattern. */
  predicate IsNameChar(c: char) {
    || 'a' <= c <= 'z'
    || 'A' <= c <= 'Z'
    || IsDigit(c)
    || c == '\'' || c == '.' || c == '&' || c == '(' || c == ')' || c == ' '
  }

  /** Length of the longest prefix of `s` made of name characters (the greedy `^[...]*`). */
  function NamePrefixLength(s: string): (n: nat)
    ensures n <= |s|
    ensures forall k | 0 <= k < n :: IsNameChar(s[k])
    ensures n < |s| ==> !IsNameChar(s[n])
  {
    if s != [] && IsNameChar(s[0]) then 1 + NamePrefixLength(s[1..]) else 0
  }

  /**
   * `getName`: the longest leading run of name characters with its surrounding
   * spaces trimmed. The pattern can always match the empty prefix, so there is
   * no failure case: a name that starts with any other character is empty.
   */
  function GetName(s: string): (name: string)
    ensures exists i, j ::
              && 0 <= i <= j <= NamePrefixLength(s) && name == s[..NamePrefixLength(s)][i..j]
              && (forall k | 0 <= k < i :: s[k] == ' ')
              && (forall k | j <= k < NamePrefixLength(s) :: s[k] == ' ')
    ensures forall k | 0 <= k < |name| :: IsNameChar(name[k])
    ensures name == [] || (name[0] != ' ' && name[|name| - 1] != ' ')
    ensures s != [] && !IsNameChar(s[0]) ==> name == []
  {
    var p := s[..NamePrefixLength(s)];
    assert forall c | c in p :: IsNameChar(c);
    var i := LeadingSpaces(p);
    var j := TrailingStart(p, i);
    assert TrimSpaces(p) == p[i..j];
    assert forall k | 0 <= k < i :: s[k] == ' ';
    assert forall k | j <= k < |p| :: s[k] == ' ';
    TrimSpaces(p)
  }

  // ------------------------------------------------------------------ season

  /** `S` followed by two digits starts at `i` (the pattern is case-sensitive). */
  predicate IsSeasonMarker(s: string, i: int) {
    0 <= i && i + 2 < |s| && s[i] == 'S' && IsDigit(s[i + 1]) && IsDigit(s[i + 2])
  }

  function SeasonValue(s: string, i: int): (v: int)
    requires IsSeasonMarker(s, i)
    ensures 0 <= v <= 99
  {
    10 * DigitValue(s[i + 1]) + DigitValue(s[i + 2])
  }

  /** The leftmost season marker at or after `from`. */
  function FirstSeasonMarker(s: string, from: nat): (r: Option<nat>)
    ensures r.Some? ==> from <= r.value && IsSeasonMarker(s, r.value)
    ensures r.Some? ==> forall j | from <= j < r.value :: !IsSeasonMarker(s, j)
    ensures r.None? ==> forall j | from <= j < |s| :: !IsSeasonMarker(s, j)
    decreases |s| - from
  {
    if from >= |s| then None
    else if IsSeasonMarker(s, from) then Some(from)
    else FirstSeasonMarker(s, from + 1)
  }

  /** `getSeason`: the two digits of the leftmost `S##`, or 0 when there is none. */
  function GetSeason(s: string): (season: int)
    ensures 0 <= season <= 99
    ensures (forall i | 0 <= i < |s| :: !IsSeasonMarker(s, i)) ==> season == 0
    ensures forall i | IsSeasonMarker(s, i) && (forall j | 0 <= j < i :: !IsSeasonMarker(s, j)) ::
              season == SeasonValue(s, i)
  {
    match FirstSeasonMarker(s, 0)
    case None => 0
    case Some(i) => SeasonValue(s, i)
  }

  // ---------------------------------------------------------------- episodes

  /** `E` or `e` followed by a digit starts at `i`: the pattern `(?i)E\d{1,2}`. */
  predicate IsEpisodeMarker(s: string, i: int) {
    0 <= i && i + 1 < |s| && (s[i] == 'E' || s[i] == 'e') && IsDigit(s[i + 1])
  }

  /** Characters the marker at `i` spans: the repetition is greedy, so a second digit is taken. */
  function MarkerLength(s: string, i: int): (n: nat)
    requires IsEpisodeMarker(s, i)
    ensures 2 <= n <= 3 && i + n <= |s|
    ensures n == 3 <==> i + 2 < |s| && IsDigit(s[i + 2])
  {
    if i + 2 < |s| && IsDigit(s[i + 2]) then 3 else 2
  }

  function MarkerValue(s: string, i: int): (v: int)
    requires IsEpisodeMarker(s, i)
    ensures 0 <= v <= 99
  {
    if MarkerLength(s, i) == 3 then 10 * DigitValue(s[i + 1]) + DigitValue(s[i + 2])
    else DigitValue(s[i + 1])
  }

  /**
   * Values of the non-overlapping markers found scanning left to right from
   * `from`, as `FindAllString` reports them: after a match the scan resumes
   * just past it.
   */
  function MarkersFrom(s: string, from: nat): (values: seq<int>)
    ensures forall k | 0 <= k < |values| :: 0 <= values[k] <= 99
    ensures values == [] || 2 * |values| <= |s| - from
    decreases |s| - from
  {
    if from >= |s| then []
    else if IsEpisodeMarker(s, from) then [MarkerValue(s, from)] + MarkersFrom(s, from + MarkerLength(s, from))
    else MarkersFrom(s, from + 1)
  }

  /** The markers `FindAllString` reports for the whole name. */
  function EpisodeMarkers(s: string): (values: seq<int>)
    ensures forall k | 0 <= k < |values| :: 0 <= values[k] <= 99
    ensures values == [] <==> forall j | 0 <= j < |s| :: !IsEpisodeMarker(s, j)
  {
    MarkersEmptyIff(s, 0);
    MarkersFrom(s, 0)
  }

  /** Positions that start no marker are skipped without effect on the result. */
  lemma {:induction false} MarkersSkip(s: string, from: nat, j: nat)
    requires from <= j <= |s|
    requires forall k | from <= k < j :: !IsEpisodeMarker(s, k)
    ensures MarkersFrom(s, from) == MarkersFrom(s, j)
    decreases j - from
  {
    if from < j {
      MarkersSkip(s, from + 1, j);
    }
  }

  /** The scan finds no marker exactly when no position starts one. */
  lemma {:induction false} MarkersEmptyIff(s: string, from: nat)
    ensures MarkersFrom(s, from) == [] <==> forall j | from <= j < |s| :: !IsEpisodeMarker(s, j)
    decreases |s| - from
  {
    if from < |s| && !IsEpisodeMarker(s, from) {
      MarkersEmptyIff(s, from + 1);
    }
  }

  /**
   * The first value reported is that of the leftmost marker, and the rest of
   * the scan starts right after it.
   */
  lemma MarkersFirst(s: string, from: nat, j: nat)
    requires from <= j && IsEpisodeMarker(s, j)
    requires forall k | from <= k < j :: !IsEpisodeMarker(s, k)
    ensures MarkersFrom(s, from) == [MarkerValue(s, j)] + MarkersFrom(s, j + MarkerLength(s, j))
  {
    MarkersSkip(s, from, j);
  }

  /**
   * `getEpisode(s, index)`: the number of markers, and the value of marker
   * `index` when there is one, -1 otherwise (also when there are no markers).
   */
  function GetEpisode(s: string, index: nat): (r: (int, nat))
    ensures r.1 == |EpisodeMarkers(s)|
    ensures index < r.1 ==> 0 <= r.0 <= 99 && r.0 == EpisodeMarkers(s)[index]
    ensures index >= r.1 ==> r.0 == -1
  {
    var found := EpisodeMarkers(s);
    var matches := |found|;
    if matches != 0 then
      if index > matches - 1 then (-1, matches) else (found[index], matches)
    else
      (-1, matches)
  }

  // ---------------------------------------------------------------- examples
  // Worked file names, each given as the parameter `s` fixed by `requires`.

  /** The show name stops at the first character outside the class, here `-`. */
  lemma ParseExampleName(s: string)
    requires s == "Show - S01E02 - Title.mkv"
    ensures GetName(s) == "Show"
  {
    assert forall k | 0 <= k < 5 :: IsNameChar(s[k]);
    assert !IsNameChar(s[5]);
    assert NamePrefixLength(s) == 5;
    var p := s[..5];
    assert p == "Show ";
    assert LeadingSpaces(p) == 0;
    assert TrailingStart(p, 0) == 4;
    assert p[0..4] == "Show";
  }

  /** A single-episode file reports one marker; the `e` of the title starts none. */
  lemma ParseExampleSingle(s: string)
    requires s == "Show - S01E02 - Title.mkv"
    ensures EpisodeMarkers(s) == [2]
  {
    assert forall k | 0 <= k < 10 :: !IsEpisodeMarker(s, k);
    MarkersFirst(s, 0, 10);
    assert forall k | 13 <= k < |s| :: !IsEpisodeMarker(s, k);
    MarkersEmptyIff(s, 13);
  }

  /** A two-episode file: both markers are reported, in order. */
  lemma ParseExampleDouble(s: string)
    requires s == "Show - S01E02E03.mkv"
    ensures EpisodeMarkers(s) == [2, 3]
  {
    assert forall k | 0 <= k < 10 :: !IsEpisodeMarker(s, k);
    assert MarkerLength(s, 10) == 3 && MarkerValue(s, 10) == 2;
    MarkersFirst(s, 0, 10);
    assert MarkerLength(s, 13) == 3 && MarkerValue(s, 13) == 3;
    MarkersFirst(s, 13, 13);
    assert forall k | 16 <= k < |s| :: !IsEpisodeMarker(s, k);
    MarkersEmptyIff(s, 16);
  }

  /** The season comes from the leftmost `S##`. */
  lemma ParseExampleSeason(s: string)
    requires s == "Show - S01E02E03.mkv"
    ensures GetSeason(s) == 1
  {
    assert IsSeasonMarker(s, 7) && SeasonValue(s, 7) == 1;
    assert forall k | 0 <= k < 7 :: !IsSeasonMarker(s, k);
  }

  /**
   * A file without markers: season 0, no episodes, and, since `.` is a name
   * character, the whole file name (extension included) as the show name.
   */
  lemma ParseExampleNone(s: string)
    requires s == "Show.mkv"
    ensures GetName(s) == "Show.mkv" && GetSeason(s) == 0 && EpisodeMarkers(s) == []
  {
    assert forall k | 0 <= k < |s| :: IsNameChar(s[k]);
    assert NamePrefixLength(s) == |s| && s[..|s|] == s;
    assert LeadingSpaces(s) == 0 && TrailingStart(s, 0) == |s|;
    assert forall k | 0 <= k < |s| :: !IsSeasonMarker(s, k);
    assert forall k | 0 <= k < |s| :: !IsEpisodeMarker(s, k);
    MarkersEmptyIff(s, 0);
  }

  /** The season pattern is case-sensitive while the episode pattern is not. */
  lemma ParseExampleLowerCase(s: string)
    requires s == "show s01e02.mkv"
    ensures GetSeason(s) == 0 && EpisodeMarkers(s) == [2]
  {
    assert forall k | 0 <= k < |s| :: !IsSeasonMarker(s, k);
    assert forall k | 0 <= k < 8 :: !IsEpisodeMarker(s, k);
    MarkersFirst(s, 0, 8);
    assert forall k | 11 <= k < |s| :: !IsEpisodeMarker(s, k);
    MarkersEmptyIff(s, 11);
  }
}
