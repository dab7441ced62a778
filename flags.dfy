/** The run's settings (the part of `epiFlags` the scan and the report read). */
module Flags {

  datatype Config = Config(
    /** root directory to scan */
    dir: string,
    /** files smaller than this many bytes are skipped */
    min: int,
    /** the ignore list, already normalised as a whole */
    ignore: string,
    /** report season 0 */
    seasonZero: bool,
    /** report episode 0 */
    episodeZero: bool,
    /** report episodes whose air date is "TBA" */
    tba: bool,
    /** days into the future to report; any value below 0 means no limit */
    future: int,
    /** days into the past to report; any value below 0 means no limit */
    past: int,
    /** sort by air date, oldest first */
    sortAirDate: bool,
    /** sort by air date, newest first */
    sortAirDateReverse: bool)
}
