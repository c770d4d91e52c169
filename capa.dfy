/** The capa enrichment plugin (enrichment/malscan-plugin-capa/main.go). It
    runs `capa -q -j` and lists every matched rule as
    `<rule name> - <namespace>`. Its parse function keeps the name
    `parseFlossOutput` of the plugin it was copied from. */
module Capa {
  import opened GoValues
  import opened GoStrings

  const TimeoutText := "timeout"
  const FailedLead := "cmd failed: /opt/capa"
  const RulesKey := "rules"
  const MetaKey := "meta"
  const NamespaceKey := "namespace"
  const Dash := " - "

  /** The report decoded into `map[string]map[string]map[string]map[string]string`:
      top-level key, rule name, rule section, field. */
  type Report = map<string, map<string, map<string, map<string, string>>>>

  /** The `analysis` record. `rules` is None while the Go slice is nil, and
      is then omitted from the JSON; `error` is never set by the parse. */
  datatype ResultsData = ResultsData(rules: Option<seq<string>>, error: string)

  /** What json.Unmarshal leaves in the map: the decoded report, or a nil
      map when the text was not valid JSON (the error is only logged). */
  function Decoded(report: Option<Report>): Report
  {
    if report.Some? then report.value else map[]
  }

  /** `rules["rules"]`: the matched rules by name. */
  function RuleMap(report: Option<Report>): map<string, map<string, map<string, string>>>
  {
    Get(Decoded(report), RulesKey, map[])
  }

  /** `rules["rules"][key]["meta"]["namespace"]`, with Go's zero values for
      every missing level. */
  function Namespace(report: Option<Report>, key: string): string
  {
    Get(Get(Get(RuleMap(report), key, map[]), MetaKey, map[]), NamespaceKey, "")
  }

  /** `fmt.Sprintf("%s - %s", key, namespace)`. */
  function Entry(report: Option<Report>, key: string): string
  {
    key + Dash + Namespace(report, key)
  }

  /** The entries of a parse, nil read as empty. */
  function Listed(r: ResultsData): seq<string>
  {
    if r.rules.Some? then r.rules.value else []
  }

  /** What parseFlossOutput promises, whatever order the map is iterated
      in: one entry per matched rule (the list is nil exactly when there is
      none), every matched rule listed with its namespace, nothing else
      listed, and an empty error. */
  ghost predicate Projects(r: ResultsData, report: Option<Report>)
  {
    var rules := RuleMap(report);
    r.error == "" &&
    (r.rules.None? <==> |rules| == 0) &&
    |Listed(r)| == |rules| &&
    (forall key :: key in rules ==> Entry(report, key) in Listed(r)) &&
    (forall i :: 0 <= i < |Listed(r)| ==> exists key :: key in rules && Listed(r)[i] == Entry(report, key)) &&
    (exists order :: InOrder(report, Listed(r), order))
  }

  /** `listed` holds the entries of the rules in `order`, one per position,
      and `order` visits every matched rule exactly once: each rule
      contributes one entry even when two entries read the same. */
  predicate InOrder(report: Option<Report>, listed: seq<string>, order: seq<string>)
  {
    |order| == |RuleMap(report)| == |listed| &&
    (forall i, j :: 0 <= i < j < |order| ==> order[i] != order[j]) &&
    (forall i :: 0 <= i < |order| ==> order[i] in RuleMap(report) && listed[i] == Entry(report, order[i]))
  }

  /** parseFlossOutput: append an entry for each key of `rules["rules"]`,
      in the map's iteration order (any order: the key is picked freely). */
  method ParseFlossOutput(report: Option<Report>, all: bool) returns (results: ResultsData)
    ensures Projects(results, report)
  {
    results := ResultsData(None, "");
    var rules := RuleMap(report);
    var remaining := rules.Keys;
    ghost var done: seq<string> := [];
    while remaining != {}
      invariant remaining <= rules.Keys
      invariant results.error == ""
      invariant results.rules.None? <==> done == []
      invariant |done| + |remaining| == |rules|
      invariant Visited(report, Listed(results), done, remaining)
      decreases remaining
    {
      var key :| key in remaining;
      var entry := key + Dash + Get(Get(Get(rules, key, map[]), MetaKey, map[]), NamespaceKey, "");
      VisitNext(report, Listed(results), done, remaining, key, entry);
      results := results.(rules := Some(Listed(results) + [entry]));
      done := done + [key];
      remaining := remaining - {key};
    }
    VisitedAll(report, Listed(results), done);
  }

  /** The loop's invariant: `done` lists the keys taken so far, each once,
      and `listed` holds their entries in the same order. */
  ghost predicate Visited(report: Option<Report>, listed: seq<string>, done: seq<string>, remaining: set<string>)
  {
    var rules := RuleMap(report);
    |listed| == |done| &&
    (forall i :: 0 <= i < |done| ==> done[i] in rules && done[i] !in remaining) &&
    (forall i, j :: 0 <= i < j < |done| ==> done[i] != done[j]) &&
    (forall i :: 0 <= i < |done| ==> listed[i] == Entry(report, done[i])) &&
    (forall key :: key in rules && key !in remaining ==> key in done)
  }

  lemma VisitNext(report: Option<Report>, listed: seq<string>, done: seq<string>, remaining: set<string>,
                  key: string, entry: string)
    requires remaining <= RuleMap(report).Keys && key in remaining
    requires Visited(report, listed, done, remaining)
    requires entry == key + Dash + Get(Get(Get(RuleMap(report), key, map[]), MetaKey, map[]), NamespaceKey, "")
    ensures Visited(report, listed + [entry], done + [key], remaining - {key})
  {
    assert entry == Entry(report, key);
    var listed', done' := listed + [entry], done + [key];
    assert forall i :: 0 <= i < |done| ==> listed'[i] == listed[i] && done'[i] == done[i];
  }

  lemma VisitedAll(report: Option<Report>, listed: seq<string>, done: seq<string>)
    requires Visited(report, listed, done, {}) && |done| == |RuleMap(report)|
    ensures InOrder(report, listed, done)
    ensures forall key :: key in RuleMap(report) ==> Entry(report, key) in listed
    ensures forall i :: 0 <= i < |listed| ==> exists key :: key in RuleMap(report) && listed[i] == Entry(report, key)
  {
    var rules := RuleMap(report);
    forall key | key in rules ensures Entry(report, key) in listed {
      var i :| 0 <= i < |done| && done[i] == key;
      assert listed[i] == Entry(report, key);
    }
    forall i | 0 <= i < |listed|
      ensures exists key :: key in RuleMap(report) && listed[i] == Entry(report, key)
    {
      var key := done[i];
      assert key in RuleMap(report) && listed[i] == Entry(report, key);
    }
  }

  /** scanFile: a deadline that passed wins over the command's own error;
      only a run that finished in time and succeeded is parsed. */
  method ScanFile(deadlineExceeded: bool, err: Error, report: Option<Report>, all: bool, path: string)
    returns (r: ResultsData)
    ensures deadlineExceeded ==> r == ResultsData(None, TimeoutText)
    ensures !deadlineExceeded && err.Some? ==> r == ResultsData(None, FailedLead + path)
    ensures !deadlineExceeded && err.None? ==> Projects(r, report)
  {
    if deadlineExceeded {
      return ResultsData(None, TimeoutText);
    }
    if err.Some? {
      return ResultsData(None, FailedLead + path);
    }
    r := ParseFlossOutput(report, all);
  }

  // ---------------------------------------------------------------------
  // Properties

  /** A report that does not decode fails open: no rules and an empty
      error, the same record as a report that matched nothing. */
  lemma UndecodableFailsOpen(r: ResultsData)
    requires Projects(r, None)
    ensures r == ResultsData(None, "")
  {
    assert RuleMap(None) == map[];
  }

  /** A rule without a namespace is listed with an empty one, so its
      entry ends in " - ". */
  lemma MissingNamespace(report: Option<Report>, key: string)
    requires MetaKey !in Get(RuleMap(report), key, map[]) ||
             NamespaceKey !in Get(RuleMap(report), key, map[])[MetaKey]
    ensures Entry(report, key) == key + Dash
  {
  }

  /** The failure message glues the path straight onto "/opt/capa". */
  lemma FailureNamesPath(path: string)
    ensures HasPrefix(FailedLead + path, FailedLead)
    ensures HasSuffix(FailedLead + path, path)
  {
    assert (FailedLead + path)[|FailedLead|..] == path;
    assert (FailedLead + path)[..|FailedLead|] == FailedLead;
  }
}
