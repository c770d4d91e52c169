/** The FLOSS enrichment plugin (enrichment/malscan-plugin-floss/main.go).
    It runs `floss` for static strings only and reports the non-blank
    output lines that are not FLOSS's own banners, de-duplicated. */
module Floss {
  import opened GoValues
  import opened GoStrings
  import opened LineScan

  const TimeoutText := "timeout"
  /** The failure message names `--minimum-length=6`, although the command
      it reports runs with `--minimum-length=8`. */
  const FailedLead := "cmd failed: "
  const CmdFailed := FailedLead + "/opt/floss--no-decoded-strings --no-stack-strings --minimum-length=6 -g "
  const Banner := "FLOSS"
  const Newline := "\n"

  /** The `analysis` record. `strings` is None while the Go slice is nil.
      The JSON tag `omitempty` drops the key both for a nil slice and for an
      empty one (see StringsKeyOmittedIff). */
  datatype ResultsData = ResultsData(strings: Option<seq<string>>, error: string)

  // ---------------------------------------------------------------------
  // Specification

  /** A line that is not one of FLOSS's own headings. */
  predicate NoBanner(s: string)
  {
    !Contains(s, Banner)
  }

  /** A line as the first loop of parseFlossOutput keeps it: trimmed, or
      not at all when nothing is left. */
  function Kept(line: string): seq<string>
  {
    var t := TrimSpace(line);
    if |t| != 0 then [t] else []
  }

  /** Every line is empty once trimmed. */
  predicate AllBlank(lines: seq<string>)
  {
    forall k :: 0 <= k < |lines| ==> TrimSpace(lines[k]) == []
  }

  /** The lines the first loop keeps, in their order. */
  function KeepLines(lines: seq<string>): seq<string>
  {
    if lines == [] then [] else Kept(lines[0]) + KeepLines(lines[1..])
  }

  /** What parseFlossOutput returns: the de-duplicated non-banner lines,
      or no strings at all when every line is blank; the error is always
      "nil". */
  function FlossResults(out: string, dedupe: seq<string> -> seq<string>): ResultsData
  {
    var keep := KeepLines(Split(out, Newline));
    ResultsData(if |keep| == 0 then None else Some(dedupe(Filter(keep, NoBanner))), "nil")
  }

  /** The lines of a concatenation are kept as the two parts are. */
  lemma {:induction false} KeepAppend(xs: seq<string>, ys: seq<string>)
    ensures KeepLines(xs + ys) == KeepLines(xs) + KeepLines(ys)
    decreases |xs|
  {
    if xs == [] {
      assert xs + ys == ys;
    } else {
      KeepAppend(xs[1..], ys);
      assert (xs + ys)[0] == xs[0];
      assert (xs + ys)[1..] == xs[1..] + ys;
      assert KeepLines(xs + ys) == Kept(xs[0]) + KeepLines(xs[1..] + ys);
      ConcatAssoc(Kept(xs[0]), KeepLines(xs[1..]), KeepLines(ys));
    }
  }

  lemma KeepLinesNext(lines: seq<string>, i: nat)
    requires i < |lines|
    ensures KeepLines(lines[..i + 1]) == KeepLines(lines[..i]) + Kept(lines[i])
  {
    assert lines[..i + 1] == lines[..i] + [lines[i]];
    KeepAppend(lines[..i], [lines[i]]);
    assert [lines[i]][1..] == [];
  }

  lemma FilterNext<T>(xs: seq<T>, p: T -> bool, i: nat)
    requires i < |xs|
    ensures Filter(xs[..i + 1], p) == Filter(xs[..i], p) + if p(xs[i]) then [xs[i]] else []
  {
    assert xs[..i + 1][..i] == xs[..i];
  }

  // ---------------------------------------------------------------------
  // The plugin's loops

  /** getStrings: append every line that does not mention FLOSS. */
  method GetStrings(strArray: seq<string>) returns (asciiStrings: seq<string>)
    ensures asciiStrings == Filter(strArray, NoBanner)
  {
    asciiStrings := [];
    var i := 0;
    while i < |strArray|
      invariant 0 <= i <= |strArray|
      invariant asciiStrings == Filter(strArray[..i], NoBanner)
    {
      FilterNext(strArray, NoBanner, i);
      if !Contains(strArray[i], Banner) {
        asciiStrings := asciiStrings + [strArray[i]];
      }
      i := i + 1;
    }
    assert strArray[..i] == strArray;
  }

  /** The first loop of parseFlossOutput: append each non-blank line,
      trimmed. */
  method KeepNonBlank(lines: seq<string>) returns (keepLines: seq<string>)
    ensures keepLines == KeepLines(lines)
  {
    keepLines := [];
    var i := 0;
    while i < |lines|
      invariant 0 <= i <= |lines|
      invariant keepLines == KeepLines(lines[..i])
    {
      KeepLinesNext(lines, i);
      var line := TrimSpace(lines[i]);
      if |line| != 0 {
        keepLines := keepLines + [line];
      }
      i := i + 1;
    }
    assert lines[..i] == lines;
  }

  /** parseFlossOutput: keep the trimmed non-blank lines, then set Strings
      once per kept line (to the same value each time). `all` is not read. */
  method ParseFlossOutput(flossOutput: string, all: bool, dedupe: seq<string> -> seq<string>)
    returns (results: ResultsData)
    ensures results == FlossResults(flossOutput, dedupe)
  {
    results := ResultsData(None, "nil");
    var keepLines := KeepNonBlank(Split(flossOutput, Newline));
    var j := 0;
    while j < |keepLines|
      invariant 0 <= j <= |keepLines|
      invariant results.error == "nil"
      invariant results.strings == if j == 0 then None else Some(dedupe(Filter(keepLines, NoBanner)))
    {
      var strs := GetStrings(keepLines);
      results := results.(strings := Some(dedupe(strs)));
      j := j + 1;
    }
  }

  /** scanFile: a deadline that passed wins over the command's own error;
      only a run that finished in time and succeeded is parsed. */
  method ScanFile(deadlineExceeded: bool, output: string, err: Error, all: bool, path: string,
                  dedupe: seq<string> -> seq<string>)
    returns (r: ResultsData)
    ensures deadlineExceeded ==> r == ResultsData(None, TimeoutText)
    ensures !deadlineExceeded && err.Some? ==> r == ResultsData(None, CmdFailed + path)
    ensures !deadlineExceeded && err.None? ==> r == FlossResults(output, dedupe)
  {
    if deadlineExceeded {
      return ResultsData(None, TimeoutText);
    }
    if err.Some? {
      return ResultsData(None, CmdFailed + path);
    }
    r := ParseFlossOutput(output, all, dedupe);
  }

  // ---------------------------------------------------------------------
  // Properties

  /** The kept lines are exactly the trimmed non-blank lines: each is
      non-empty and already trimmed, and no non-blank line is lost. */
  lemma {:induction false} KeptLines(lines: seq<string>)
    ensures forall s :: s in KeepLines(lines) ==> s != [] && TrimSpace(s) == s
    ensures forall k :: 0 <= k < |lines| && TrimSpace(lines[k]) != [] ==> TrimSpace(lines[k]) in KeepLines(lines)
    decreases |lines|
  {
    if lines != [] {
      KeptLines(lines[1..]);
      assert forall k :: 1 <= k < |lines| ==> lines[1..][k - 1] == lines[k];
      TrimSpaceIdempotent(lines[0]);
    }
  }

  /** Nothing is kept exactly when every line is blank. */
  lemma {:induction false} NothingKeptIff(lines: seq<string>)
    ensures |KeepLines(lines)| == 0 <==> AllBlank(lines)
    decreases |lines|
  {
    if lines != [] {
      NothingKeptIff(lines[1..]);
      assert forall k :: 1 <= k < |lines| ==> lines[1..][k - 1] == lines[k];
    }
  }

  /** Strings stays a nil slice exactly when every output line is blank. */
  lemma StringsOmittedIff(out: string, dedupe: seq<string> -> seq<string>)
    ensures FlossResults(out, dedupe).strings.None? <==> AllBlank(Split(out, Newline))
  {
    NothingKeptIff(Split(out, Newline));
  }

  /** The `strings` key is missing from the JSON when the slice is nil or
      empty. If the de-duplication returns an empty list exactly for an
      empty input, that happens exactly when every kept line mentions
      "FLOSS" (vacuously so when nothing was kept). */
  lemma StringsKeyOmittedIff(out: string, dedupe: seq<string> -> seq<string>)
    requires forall xs: seq<string> :: |dedupe(xs)| == 0 <==> |xs| == 0
    ensures var strs := FlossResults(out, dedupe).strings;
      (strs.None? || strs.value == []) <==>
      forall s :: s in KeepLines(Split(out, Newline)) ==> Contains(s, Banner)
  {
    var keep := KeepLines(Split(out, Newline));
    var kept := Filter(keep, NoBanner);
    if forall s :: s in keep ==> Contains(s, Banner) {
      FilterNone(keep, NoBanner);
    } else {
      var s :| s in keep && !Contains(s, Banner);
      var k :| 0 <= k < |keep| && keep[k] == s;
      assert NoBanner(keep[k]);
      assert s in kept;
    }
  }

  /** The error field is "nil" after any parse, and the `all` flag does not
      change the outcome. */
  lemma ParseNeverFails(out: string, dedupe: seq<string> -> seq<string>)
    ensures FlossResults(out, dedupe).error == "nil"
    ensures FlossResults(out, dedupe).strings.Some? ==>
      FlossResults(out, dedupe).strings.value == dedupe(Filter(KeepLines(Split(out, Newline)), NoBanner))
  {
  }

  /** A failure message starts with "cmd failed: " and ends with the
      scanned path. */
  lemma FailureNamesPath(path: string)
    ensures HasPrefix(CmdFailed + path, FailedLead)
    ensures HasSuffix(CmdFailed + path, path)
  {
    assert (CmdFailed + path)[|CmdFailed|..] == path;
    assert (CmdFailed + path)[..|FailedLead|] == FailedLead;
  }
}
