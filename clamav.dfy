/** The ClamAV plugin (detection/malscan-plugin-clamav/main.go). `clamscan
    --stdout` prints `<path>: <status>` on its first line, followed by a
    `key: value` scan summary, and exits with status 1 when it found
    something. */
module ClamAV {
  import opened GoValues
  import opened GoStrings
  import opened LineScan
  import opened Exec
  import opened UpdateLog

  const Clamscan := "/usr/bin/clamscan"
  const Freshclam := "freshclam"
  const FoundExit := "exit status 1"
  const OkTag := "OK"
  const FoundCutset := "FOUND"
  const KnownTag := "Known viruses"
  const EngineTag := "Engine version"
  const UpdatedMarker := "Database updated"
  const UpToDateMarker := "daily.cld is up to date"
  const UpdatedError := "updated error"

  /** The `analysis` record; `error` is the text "nil" when there was none. */
  datatype ResultsData = ResultsData(
    infected: bool, result: string, engine: string,
    known: string, updated: string, error: string)

  // ---------------------------------------------------------------------
  // The first line: the verdict

  datatype Verdict = Verdict(infected: bool, result: string)

  /** The status after the first colon of a `<path>: <status>` line. */
  function Status(line: string): string
    requires Contains(line, ":")
  {
    Split(line, ":")[1]
  }

  /** The verdict the first output line gives. An empty line is clean; a
      non-empty one without a colon makes `pathAndResult[1]` panic; any
      status without "OK" is a detection whose name is the status with
      trailing F, O, U, N, D characters cut off and then trimmed. */
  function FirstLineVerdict(line: string): Exit<Verdict>
  {
    if |line| == 0 then Returns(Verdict(false, ""))
    else if !Contains(line, ":") then Panics
    else if Contains(Status(line), OkTag) then Returns(Verdict(false, ""))
    else Returns(Verdict(true, TrimSpace(TrimRight(Status(line), FoundCutset))))
  }

  // ---------------------------------------------------------------------
  // The remaining lines: the scan summary

  datatype Summary = Summary(known: string, engine: string)

  /** A summary line whose first `:` field names the known viruses. */
  predicate IsKnownLine(line: string)
  {
    |line| != 0 && Contains(Split(line, ":")[0], KnownTag)
  }

  /** A line that mentions the engine version and is not a known-viruses
      line, which the switch tests first. */
  predicate IsEngineLine(line: string)
  {
    |line| != 0 && !IsKnownLine(line) && Contains(line, EngineTag)
  }

  /** A line the switch selects but that has no colon: `keyvalue[1]` is out
      of range and the plugin panics. */
  predicate Broken(line: string)
  {
    (IsKnownLine(line) || IsEngineLine(line)) && !Contains(line, ":")
  }

  /** One iteration of the summary loop. */
  function ReadSummary(s: Summary, line: string): Exit<Summary>
  {
    if |line| == 0 then Returns(s)
    else if Contains(Split(line, ":")[0], KnownTag) then
      if Contains(line, ":") then Returns(s.(known := FieldValue(line))) else Panics
    else if Contains(line, EngineTag) then
      if Contains(line, ":") then Returns(s.(engine := FieldValue(line))) else Panics
    else Returns(s)
  }

  /** The summary loop as a left fold over `lines[1:]`. */
  function Summaries(lines: seq<string>): Exit<Summary>
  {
    if lines == [] then Returns(Summary("", ""))
    else
      match Summaries(lines[..|lines| - 1])
      case Panics => Panics
      case Returns(s) => ReadSummary(s, lines[|lines| - 1])
  }

  lemma SummariesNext(lines: seq<string>, i: nat)
    requires i < |lines|
    ensures Summaries(lines[..i + 1]) ==
      match Summaries(lines[..i])
      case Panics => Panics
      case Returns(s) => ReadSummary(s, lines[i])
  {
    assert lines[..i + 1][..i] == lines[..i];
  }

  /** Once the loop has panicked, no later line brings it back. */
  lemma {:induction false} PanicPersists(lines: seq<string>, i: nat)
    requires i <= |lines| && Summaries(lines[..i]).Panics?
    ensures Summaries(lines).Panics?
    decreases |lines| - i
  {
    if i < |lines| {
      SummariesNext(lines, i);
      PanicPersists(lines, i + 1);
    } else {
      assert lines[..i] == lines;
    }
  }

  /** The summary loop panics exactly when some selected line has no colon. */
  lemma {:induction false} SummaryPanicsIff(lines: seq<string>)
    ensures Summaries(lines).Panics? <==> LastWhere(lines, Broken).Some?
    decreases |lines|
  {
    if lines != [] {
      SummaryPanicsIff(lines[..|lines| - 1]);
    }
  }

  /** The declarative summary: each field is the value of the last line
      that sets it. */
  function LastSummary(lines: seq<string>): Summary
  {
    Summary(LastMapped(lines, IsKnownLine, FieldValue, ""), LastMapped(lines, IsEngineLine, FieldValue, ""))
  }

  /** When no line panics, the loop leaves the declarative summary: later
      lines override earlier ones. */
  lemma {:induction false} SummariesAreLast(lines: seq<string>)
    requires forall k :: 0 <= k < |lines| ==> !Broken(lines[k])
    ensures Summaries(lines) == Returns(LastSummary(lines))
    decreases |lines|
  {
    if lines != [] {
      var n := |lines| - 1;
      var init := lines[..n];
      assert forall k :: 0 <= k < n ==> init[k] == lines[k];
      SummariesAreLast(init);
      assert lines[..n + 1] == lines;
      LastMappedStep(lines, IsKnownLine, FieldValue, "", n);
      LastMappedStep(lines, IsEngineLine, FieldValue, "", n);
      assert !Broken(lines[n]);
    }
  }

  // ---------------------------------------------------------------------
  // Parsing a scan

  /** getUpdatedDate: "" before the first update, "updated error" when the
      log cannot be read, its contents otherwise. */
  function UpdatedDate(file: LogFile): (r: string)
    ensures file.Absent? ==> r == ""
    ensures file.Unreadable? ==> r == UpdatedError
    ensures file.Present? ==> r == file.contents
  {
    match file
    case Absent => ""
    case Unreadable => UpdatedError
    case Present(contents) => contents
  }

  /** What ParseClamAvOutput returns: an error record for any error other
      than exit status 1; otherwise the verdict of the first line and the
      summary of the others (or the panic of either). */
  function Analysis(out: string, err: Error, file: LogFile): Exit<ResultsData>
  {
    if err.Some? && err.value != FoundExit then
      Returns(ResultsData(false, "", "", "", UpdatedDate(file), err.value))
    else
      var lines := Split(out, "\n");
      match FirstLineVerdict(lines[0])
      case Panics => Panics
      case Returns(v) =>
        match Summaries(lines[1..])
        case Panics => Panics
        case Returns(s) => Returns(ResultsData(v.infected, v.result, s.engine, s.known, UpdatedDate(file), "nil"))
  }

  /** ParseClamAvOutput: the verdict from the first line, then the summary
      loop over the rest. */
  method ParseClamAvOutput(clamout: string, err: Error, file: LogFile) returns (r: Exit<ResultsData>)
    ensures r == Analysis(clamout, err, file)
  {
    var clamavResults := ResultsData(false, "", "", "", UpdatedDate(file), "nil");
    if err.Some? && err.value != FoundExit {
      clamavResults := clamavResults.(error := err.value);
      return Returns(clamavResults);
    }
    var lines := Split(clamout, "\n");
    var result := lines[0];
    if |result| != 0 {
      if !Contains(result, ":") {
        return Panics;
      }
      var pathAndResult := Split(result, ":");
      if Contains(pathAndResult[1], OkTag) {
        clamavResults := clamavResults.(infected := false);
      } else {
        clamavResults := clamavResults.(infected := true);
        clamavResults := clamavResults.(result := TrimSpace(TrimRight(pathAndResult[1], FoundCutset)));
      }
    }
    var s := ScanSummary(lines[1..]);
    match s
    case Panics =>
      r := Panics;
    case Returns(summary) =>
      clamavResults := clamavResults.(known := summary.known, engine := summary.engine);
      r := Returns(clamavResults);
  }

  /** The summary loop of ParseClamAvOutput: a known-viruses line sets
      Known, otherwise an engine-version line sets Engine. */
  method ScanSummary(lines: seq<string>) returns (r: Exit<Summary>)
    ensures r == Summaries(lines)
  {
    var known, engine := "", "";
    var i := 0;
    while i < |lines|
      invariant 0 <= i <= |lines|
      invariant Summaries(lines[..i]) == Returns(Summary(known, engine))
    {
      var line := lines[i];
      ghost var next := ReadSummary(Summary(known, engine), line);
      SummariesNext(lines, i);
      if |line| != 0 {
        var keyvalue := Split(line, ":");
        if Contains(keyvalue[0], KnownTag) {
          if |keyvalue| < 2 {
            assert next == Panics;
            PanicPersists(lines, i + 1);
            return Panics;
          }
          known := TrimSpace(keyvalue[1]);
        } else if Contains(line, EngineTag) {
          if |keyvalue| < 2 {
            assert next == Panics;
            PanicPersists(lines, i + 1);
            return Panics;
          }
          engine := TrimSpace(keyvalue[1]);
        }
      }
      assert next == Returns(Summary(known, engine));
      i := i + 1;
    }
    assert lines[..i] == lines;
    r := Returns(Summary(known, engine));
  }

  /** AvScan: a single run, parsed whatever its outcome. */
  method AvScan(ctx: Context, run: Run, file: LogFile) returns (r: Exit<ResultsData>)
    ensures var ran := RunCommand(ctx, Clamscan, run);
      r == Analysis(ran.output, ran.err, file)
  {
    var results, err := RunCommand(ctx, Clamscan, run).output, RunCommand(ctx, Clamscan, run).err;
    r := ParseClamAvOutput(results, err, file);
  }

  // ---------------------------------------------------------------------
  // Properties of the parse

  /** An error other than exit status 1 is reported as is, with every
      scan field left empty. */
  lemma ErrorWithholdsVerdict(out: string, msg: string, file: LogFile)
    requires msg != FoundExit
    ensures Analysis(out, Some(msg), file).Returns?
    ensures var r := Analysis(out, Some(msg), file).value;
      r.error == msg && !r.infected && r.result == "" && r.engine == "" && r.known == ""
  {
  }

  /** Exit status 1 is a completed scan: the output is parsed exactly as
      for a clean exit and the error reads "nil". */
  lemma FoundExitIsCompleted(out: string, file: LogFile)
    ensures Analysis(out, Some(FoundExit), file) == Analysis(out, None, file)
    ensures Analysis(out, None, file).Returns? ==> Analysis(out, None, file).value.error == "nil"
  {
  }

  /** A timed-out scan is never reported clean: it carries the timeout
      message and no verdict. */
  lemma TimeoutWithholdsVerdict(ctx: Context, run: Run, file: LogFile)
    requires Expired(ctx) && run.err.None?
    ensures var timed := RunCommand(ctx, Clamscan, run);
      var r := Analysis(timed.output, timed.err, file);
      r.Returns? && !r.value.infected && r.value.error == TimedOut(Clamscan)
  {
    var timed := RunCommand(ctx, Clamscan, run);
    assert TimedOut(Clamscan)[0] == 'c' && FoundExit[0] == 'e';
    ErrorWithholdsVerdict(timed.output, TimedOut(Clamscan), file);
  }

  /** The verdict of a completed scan depends on the first line only: it
      panics when the line is non-empty without a colon, and otherwise the
      file is infected exactly when the line is non-empty and its status
      lacks "OK". */
  lemma CompletedVerdict(out: string, file: LogFile)
    ensures var first := Split(out, "\n")[0];
      (|first| != 0 && !Contains(first, ":")) ==> Analysis(out, None, file).Panics?
    ensures var first := Split(out, "\n")[0];
      var r := Analysis(out, None, file);
      r.Returns? ==>
        (r.value.infected <==> |first| != 0 && !Contains(Status(first), OkTag)) &&
        (!r.value.infected ==> r.value.result == "")
  {
  }

  /** The summary of a completed scan: it panics exactly when a selected
      line of the rest has no colon, and otherwise Known and Engine are the
      values of the last lines that set them. */
  lemma CompletedSummary(out: string, file: LogFile)
    requires FirstLineVerdict(Split(out, "\n")[0]).Returns?
    ensures var rest := Split(out, "\n")[1..];
      Analysis(out, None, file).Panics? <==> exists k :: 0 <= k < |rest| && Broken(rest[k])
    ensures var rest := Split(out, "\n")[1..];
      var r := Analysis(out, None, file);
      r.Returns? ==>
        r.value.known == LastMapped(rest, IsKnownLine, FieldValue, "") &&
        r.value.engine == LastMapped(rest, IsEngineLine, FieldValue, "")
  {
    var rest := Split(out, "\n")[1..];
    SummaryPanicsIff(rest);
    if exists k :: 0 <= k < |rest| && Broken(rest[k]) {
      var k :| 0 <= k < |rest| && Broken(rest[k]);
      assert LastWhere(rest, Broken).Some?;
    } else {
      SummariesAreLast(rest);
    }
  }

  /** TrimRight strips a cutset: the trailing " FOUND" goes, and so would
      any other trailing run of those letters, up to the space. */
  lemma FoundStatus(name: string)
    requires name != [] && !IsSpace(name[0]) && !IsSpace(name[|name| - 1])
    requires name[|name| - 1] !in FoundCutset
    ensures TrimSpace(TrimRight(" " + name + " " + FoundCutset, FoundCutset)) == name
  {
    var p := (c: char) => c in FoundCutset;
    assert forall i :: 0 <= i < |FoundCutset| ==> p(FoundCutset[i]);
    assert !p(' ');
    assert " " + name + " " + FoundCutset == (" " + name + " ") + FoundCutset;
    TrimRightSkips(" " + name + " ", FoundCutset, p);
    assert IsSpace(' ');
    TrimSpaceExact(" ", name, " ");
  }

  /** A detection line `<path>: <name> FOUND` reports `<name>`. */
  lemma FoundLine(path: string, name: string)
    requires ':' !in path && ':' !in name
    requires name != [] && !IsSpace(name[0]) && !IsSpace(name[|name| - 1])
    requires name[|name| - 1] !in FoundCutset
    requires !Contains(" " + name + " " + FoundCutset, OkTag)
    ensures FirstLineVerdict(path + ": " + name + " " + FoundCutset) == Returns(Verdict(true, name))
  {
    var status := " " + name + " " + FoundCutset;
    assert ':' !in FoundCutset;
    assert ':' !in status;
    assert path + ": " + name + " " + FoundCutset == path + ":" + status;
    SplitOnce(path, ":", status, ':');
    FoundStatus(name);
  }

  /** The ClamAV test signature: `f: Eicar-Signature FOUND` reports
      `Eicar-Signature`. */
  lemma EicarLine(path: string, name: string)
    requires path == "f" && name == "Eicar-Signature"
    ensures FirstLineVerdict(path + ": " + name + " " + FoundCutset) == Returns(Verdict(true, name))
  {
    assert name[0] == 'E' && name[|name| - 1] == 'e';
    assert 'K' !in " " + name + " " + FoundCutset;
    NotContainsByChar(" " + name + " " + FoundCutset, OkTag, 'K');
    FoundLine(path, name);
  }

  // ---------------------------------------------------------------------
  // Updating

  /** The status line updateAV prints: 0 only when freshclam succeeded and
      reported an update or an up-to-date database. */
  function UpdateStatus(r: Run): (status: int)
    ensures status == 0 || status == 1
    ensures status == 0 <==> r.err.None? && (Contains(r.output, UpdatedMarker) || Contains(r.output, UpToDateMarker))
  {
    if r.err.Some? then 1
    else if Contains(r.output, UpdatedMarker) || Contains(r.output, UpToDateMarker) then 0
    else 1
  }

  /** updateAV: a failed command prints 1 and leaves the log alone; any
      command that succeeded overwrites the log with today's date, whether
      or not the output held a marker. */
  method UpdateAV(log: UpdatedLog, ctx: Context, run: Run, today: string) returns (status: int, err: Error)
    modifies log
    ensures var r := RunCommand(ctx, Freshclam, run);
      status == UpdateStatus(r) && err == r.err &&
      log.file == (if r.err.Some? then old(log.file) else Present(today))
  {
    var out, runErr := RunCommand(ctx, Freshclam, run).output, RunCommand(ctx, Freshclam, run).err;
    if runErr.Some? {
      status := 1;
      err := runErr;
      return;
    }
    if Contains(out, UpdatedMarker) || Contains(out, UpToDateMarker) {
      status := 0;
    } else {
      status := 1;
    }
    log.Write(today);
    err := None;
  }
}
