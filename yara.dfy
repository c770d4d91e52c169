/** The YARA plugin (detection/malscan-plugin-yara/main.go). The rules are
    loaded and the file scanned by the go-yara library, whose outcomes are
    inputs here. The record has no error field. */
module Yara {
  import opened GoValues

  /** A matched rule, as go-yara reports it; only its name is read. */
  datatype Match = Match(rule: string, namespace: string, tags: seq<string>)

  /** What `rules.ScanFile` did: an error, or the list of matches. */
  datatype ScanOutcome = ScanFailed(err: string) | Scanned(matches: seq<Match>)

  /** The `analysis` record. */
  datatype ResultsData = ResultsData(infected: bool, result: string, matches: seq<Match>)

  /** The record scan starts from, and returns on any failure. */
  const Clean := ResultsData(false, "", [])

  /** scan: a failure to load the rules or to scan the file returns the
      clean-looking default record (fail open); otherwise the matches are
      kept, and the first one names the result. The scan outcome is not
      consulted when the rules did not load. */
  function Scan(loadErr: Error, outcome: ScanOutcome): (r: ResultsData)
    ensures loadErr.Some? || outcome.ScanFailed? ==> r == Clean
    ensures loadErr.None? && outcome.Scanned? ==> r.matches == outcome.matches
    ensures r.infected <==> loadErr.None? && outcome.Scanned? && |outcome.matches| != 0
    ensures r.infected ==> r.result == outcome.matches[0].rule
    ensures !r.infected ==> r.result == ""
  {
    if loadErr.Some? then Clean
    else match outcome
      case ScanFailed(_) => Clean
      case Scanned(matches) =>
        if |matches| != 0 then ResultsData(true, matches[0].rule, matches)
        else ResultsData(false, "", matches)
  }

  /** A failed load or scan cannot be told apart from a scan that matched
      nothing. */
  lemma FailureLooksClean(loadErr: Error, outcome: ScanOutcome)
    requires loadErr.Some? || outcome.ScanFailed?
    ensures Scan(loadErr, outcome) == Scan(None, Scanned([]))
  {
  }

  /** Only the first match decides the result: matches after it change the
      list but not the verdict. */
  lemma FirstMatchNames(m: Match, later: seq<Match>, other: seq<Match>)
    ensures Scan(None, Scanned([m] + later)).result == m.rule
    ensures Scan(None, Scanned([m] + later)).infected == Scan(None, Scanned([m] + other)).infected
    ensures Scan(None, Scanned([m] + later)).result == Scan(None, Scanned([m] + other)).result
  {
    assert ([m] + later)[0] == m && ([m] + other)[0] == m;
  }
}
