/** The Sophos plugin (detection/malscan-plugin-sophos/main.go). `savscan`
    reports a detection on a line `>>> Virus '<name>' found in file <path>`
    and exits with status 3 when it found something. */
module Sophos {
  import opened GoValues
  import opened GoStrings
  import opened LineScan
  import opened Exec
  import opened UpdateLog

  const Savscan := "/opt/sophos/bin/savscan"
  const Savupdate := "/opt/sophos/update/savupdate.sh"
  const FoundExit := "exit status 3"
  const VirusTag := ">>> Virus"
  const FoundTag := "found in file"
  const Quote := "'"
  const ProductTag := "Product version"
  const DataTag := "Virus data version"
  const VersionError := "version error"
  const UpdatedError := "updated error"
  const SourceMarker := "SOPHOS source"

  /** The `analysis` record; `error` is the text "nil" when there was none. */
  datatype ResultsData = ResultsData(
    infected: bool, result: string, engine: string,
    database: string, updated: string, error: string)

  // ---------------------------------------------------------------------
  // Reading the scan output

  /** A line announcing a detection. */
  predicate IsVirusLine(line: string)
  {
    Contains(line, VirusTag) && Contains(line, FoundTag)
  }

  /** A detection line without a quote: `strings.Split(line, "'")[1]` is
      out of range and the plugin panics. */
  predicate Unquoted(line: string)
  {
    IsVirusLine(line) && !Contains(line, Quote)
  }

  /** The detection name: the text between the first and second quote. */
  function QuotedName(line: string): string
    requires Contains(line, Quote)
  {
    TrimSpace(Split(line, Quote)[1])
  }

  /** What the scan loop has collected so far. */
  datatype Verdict = Verdict(infected: bool, result: string)

  /** One iteration of the scan loop of ParseSophosOutput. */
  function ReadLine(v: Verdict, line: string): Exit<Verdict>
  {
    if !IsVirusLine(line) then Returns(v)
    else if Contains(line, Quote) then Returns(Verdict(true, QuotedName(line)))
    else Panics
  }

  /** The scan loop as a left fold over the output lines. */
  function Verdicts(lines: seq<string>): Exit<Verdict>
  {
    if lines == [] then Returns(Verdict(false, ""))
    else
      match Verdicts(lines[..|lines| - 1])
      case Panics => Panics
      case Returns(v) => ReadLine(v, lines[|lines| - 1])
  }

  lemma VerdictsNext(lines: seq<string>, i: nat)
    requires i < |lines|
    ensures Verdicts(lines[..i + 1]) ==
      match Verdicts(lines[..i])
      case Panics => Panics
      case Returns(v) => ReadLine(v, lines[i])
  {
    assert lines[..i + 1][..i] == lines[..i];
  }

  /** Once the loop has panicked, no later line brings it back. */
  lemma {:induction false} PanicPersists(lines: seq<string>, i: nat)
    requires i <= |lines| && Verdicts(lines[..i]).Panics?
    ensures Verdicts(lines).Panics?
    decreases |lines| - i
  {
    if i < |lines| {
      VerdictsNext(lines, i);
      PanicPersists(lines, i + 1);
    } else {
      assert lines[..i] == lines;
    }
  }

  /** The parse panics exactly when some detection line lacks a quote. */
  lemma {:induction false} PanicsIff(lines: seq<string>)
    ensures Verdicts(lines).Panics? <==> LastWhere(lines, Unquoted).Some?
    decreases |lines|
  {
    if lines != [] {
      PanicsIff(lines[..|lines| - 1]);
    }
  }

  /** The name a detection line reports, or "" for a line that would panic. */
  function VirusName(line: string): string
  {
    if Contains(line, Quote) then QuotedName(line) else ""
  }

  /** The declarative verdict: infected when some line announces a virus,
      and then the name on the last such line. */
  function LastVerdict(lines: seq<string>): Verdict
  {
    Verdict(LastWhere(lines, IsVirusLine).Some?, LastMapped(lines, IsVirusLine, VirusName, ""))
  }

  /** When no line panics, the loop leaves exactly the declarative verdict:
      each detection line overwrites the result, so the last one wins. */
  lemma {:induction false} VerdictsAreLast(lines: seq<string>)
    requires forall k :: 0 <= k < |lines| ==> !Unquoted(lines[k])
    ensures Verdicts(lines) == Returns(LastVerdict(lines))
    decreases |lines|
  {
    if lines != [] {
      var n := |lines| - 1;
      var init := lines[..n];
      assert forall k :: 0 <= k < n ==> init[k] == lines[k];
      VerdictsAreLast(init);
      assert lines[..n + 1] == lines;
      LastWhereStep(lines, IsVirusLine, n);
      LastMappedStep(lines, IsVirusLine, VirusName, "", n);
      assert !Unquoted(lines[n]);
    }
  }

  // ---------------------------------------------------------------------
  // Version and database

  /** A "Product version" line with exactly one colon. */
  predicate IsProductLine(line: string)
  {
    Contains(line, ProductTag) && |Split(line, ":")| == 2
  }

  /** A "Virus data version" line with exactly one colon: it ends the scan. */
  predicate IsDataLine(line: string)
  {
    Contains(line, DataTag) && |Split(line, ":")| == 2
  }

  /** The version after the scan: the last product line up to and including
      the first data line. */
  function ScannedVersion(lines: seq<string>): string
  {
    LastMapped(UpTo(lines, IsDataLine), IsProductLine, FieldValue, "")
  }

  /** The database after the scan: the value of the first data line, or "". */
  function ScannedDatabase(lines: seq<string>): string
  {
    var stop := FirstWhere(lines, IsDataLine);
    if stop < |lines| then FieldValue(lines[stop]) else ""
  }

  lemma VersionAtStop(lines: seq<string>, i: nat)
    requires i < |lines| && IsDataLine(lines[i])
    requires i <= FirstWhere(lines, IsDataLine)
    ensures ScannedVersion(lines) == LastMapped(lines[..i + 1], IsProductLine, FieldValue, "")
    ensures ScannedDatabase(lines) == FieldValue(lines[i])
  {
    UpToAt(lines, IsDataLine, i);
  }

  /** The fields when the scan reads every line. */
  lemma VersionWithoutStop(lines: seq<string>)
    requires FirstWhere(lines, IsDataLine) == |lines|
    ensures ScannedVersion(lines) == LastMapped(lines, IsProductLine, FieldValue, "")
    ensures ScannedDatabase(lines) == ""
  {
  }

  /** parseSophosVersion: split the output into lines and scan them. */
  method ParseSophosVersion(versionOut: string) returns (version: string, database: string)
    ensures version == ScannedVersion(Split(versionOut, "\n"))
    ensures database == ScannedDatabase(Split(versionOut, "\n"))
  {
    var lines := Split(versionOut, "\n");
    version, database := ScanVersionLines(lines);
  }

  /** The loop of parseSophosVersion: every product line overwrites the
      version, and the first data line sets the database and ends the scan. */
  method ScanVersionLines(lines: seq<string>) returns (version: string, database: string)
    ensures version == ScannedVersion(lines)
    ensures database == ScannedDatabase(lines)
  {
    version, database := "", "";
    var i := 0;
    while i < |lines|
      invariant 0 <= i <= |lines|
      invariant i <= FirstWhere(lines, IsDataLine)
      invariant version == LastMapped(lines[..i], IsProductLine, FieldValue, "") && database == ""
    {
      var line := lines[i];
      if Contains(line, ProductTag) {
        var parts := Split(line, ":");
        if |parts| == 2 {
          version := TrimSpace(parts[1]);
        }
      }
      LastMappedStep(lines, IsProductLine, FieldValue, "", i);
      assert version == LastMapped(lines[..i + 1], IsProductLine, FieldValue, "");
      if Contains(line, DataTag) {
        var parts := Split(line, ":");
        if |parts| == 2 {
          database := TrimSpace(parts[1]);
          VersionAtStop(lines, i);
          return;
        }
      }
      FirstWhereNext(lines, IsDataLine, i);
      ghost var next := LastMapped(lines[..i + 1], IsProductLine, FieldValue, "");
      assert version == next;
      i := i + 1;
      assert next == LastMapped(lines[..i], IsProductLine, FieldValue, "");
    }
    assert lines[..i] == lines;
    VersionWithoutStop(lines);
  }

  /** The text parsed for the version: what `savscan --version` printed, or
      "version error" when it failed. */
  function VersionText(versionRun: Run): string
  {
    if versionRun.err.Some? then VersionError else versionRun.output
  }

  /** getSophosVersion: the version command runs without a context, so only
      its own failure replaces the output. */
  method GetSophosVersion(versionRun: Run) returns (version: string, database: string)
    ensures version == ScannedVersion(Split(VersionText(versionRun), "\n"))
    ensures database == ScannedDatabase(Split(VersionText(versionRun), "\n"))
  {
    var versionOut, err := RunCommand(NilContext, Savscan, versionRun).output, RunCommand(NilContext, Savscan, versionRun).err;
    NilContextNeverTimesOut(Savscan, versionRun);
    if err.Some? {
      versionOut := VersionError;
    }
    version, database := ParseSophosVersion(versionOut);
  }

  /** The fallback text holds neither key, so a failed version command
      leaves both fields empty. */
  lemma VersionErrorIsEmpty(text: string)
    requires text == VersionError
    ensures ScannedVersion(Split(text, "\n")) == ""
    ensures ScannedDatabase(Split(text, "\n")) == ""
  {
    assert '\n' !in text && 'P' !in text && 'V' !in text;
    assert ProductTag[0] == 'P' && DataTag[0] == 'V';
    NotContainsByChar(text, "\n", '\n');
    NotContainsByChar(text, ProductTag, 'P');
    NotContainsByChar(text, DataTag, 'V');
    OneLineScan(text);
  }

  lemma OneLineScan(line: string)
    requires !Contains(line, "\n") && !Contains(line, ProductTag) && !Contains(line, DataTag)
    ensures ScannedVersion(Split(line, "\n")) == "" && ScannedDatabase(Split(line, "\n")) == ""
  {
    var lines := Split(line, "\n");
    assert lines == [line];
    assert !IsDataLine(lines[0]) && !IsProductLine(lines[0]);
    assert FirstWhere(lines, IsDataLine) == 1;
    assert UpTo(lines, IsDataLine) == lines;
    LastWhereStep(lines, IsProductLine, 0);
    assert lines[..1] == lines;
  }

  /** getUpdatedDate: "" before the first update, "updated error" when the
      log cannot be read, its contents otherwise. */
  function UpdatedDate(file: LogFile): (r: string)
    ensures file.Absent? ==> r == ""
    ensures file.Unreadable? ==> r == UpdatedError
    ensures file.Present? ==> r == file.contents
  {
    match file
    case Absent => ""
    case Unreadable => UpdatedError
    case Present(contents) => contents
  }

  // ---------------------------------------------------------------------
  // Parsing a scan

  /** What ParseSophosOutput returns: an error record for any error other
      than exit status 3, otherwise the verdict of the scan loop (or the
      panic of an unquoted detection line). */
  function Analysis(out: string, err: Error, versionRun: Run, file: LogFile): Exit<ResultsData>
  {
    var text := VersionText(versionRun);
    var engine, database := ScannedVersion(Split(text, "\n")), ScannedDatabase(Split(text, "\n"));
    if err.Some? && err.value != FoundExit then
      Returns(ResultsData(false, "", engine, database, UpdatedDate(file), err.value))
    else
      match Verdicts(Split(out, "\n"))
      case Panics => Panics
      case Returns(v) => Returns(ResultsData(v.infected, v.result, engine, database, UpdatedDate(file), "nil"))
  }

  /** ParseSophosOutput: an error other than exit status 3 is reported
      with no verdict; otherwise the scan loop decides it. */
  method ParseSophosOutput(sophosout: string, err: Error, versionRun: Run, file: LogFile)
    returns (r: Exit<ResultsData>)
    ensures r == Analysis(sophosout, err, versionRun, file)
  {
    var version, database := GetSophosVersion(versionRun);
    var sophosResults := ResultsData(false, "", version, database, UpdatedDate(file), "nil");
    if err.Some? && err.value != FoundExit {
      sophosResults := sophosResults.(error := err.value);
      return Returns(sophosResults);
    }
    var v := ScanLines(Split(sophosout, "\n"));
    match v
    case Panics =>
      r := Panics;
    case Returns(verdict) =>
      sophosResults := sophosResults.(infected := verdict.infected, result := verdict.result);
      r := Returns(sophosResults);
  }

  /** The loop of ParseSophosOutput: each detection line sets the result
      to its quoted name; one without a quote panics. */
  method ScanLines(lines: seq<string>) returns (r: Exit<Verdict>)
    ensures r == Verdicts(lines)
  {
    var infected, result := false, "";
    var i := 0;
    while i < |lines|
      invariant 0 <= i <= |lines|
      invariant Verdicts(lines[..i]) == Returns(Verdict(infected, result))
    {
      var line := lines[i];
      VerdictsNext(lines, i);
      if Contains(line, VirusTag) && Contains(line, FoundTag) {
        if !Contains(line, Quote) {
          PanicPersists(lines, i + 1);
          return Panics;
        }
        var parts := Split(line, Quote);
        result := TrimSpace(parts[1]);
        infected := true;
      }
      i := i + 1;
    }
    assert lines[..i] == lines;
    r := Returns(Verdict(infected, result));
  }

  /** AvScan retries a failure once unless it is exit status 3. */
  predicate Retries(err: Error)
  {
    err.Some? && err.value != FoundExit
  }

  /** AvScan: the second run, under the same context, replaces the first
      when the first failed for any reason but exit status 3; the error is
      passed on as is. */
  method AvScan(ctx1: Context, first: Run, ctx2: Context, second: Run, versionRun: Run, file: LogFile)
    returns (r: Exit<ResultsData>, launches: nat)
    requires SameDeadline(ctx1, ctx2)
    ensures var run1 := RunCommand(ctx1, Savscan, first);
      launches == (if Retries(run1.err) then 2 else 1)
    ensures var run1 := RunCommand(ctx1, Savscan, first);
      var last := if Retries(run1.err) then RunCommand(ctx2, Savscan, second) else run1;
      r == Analysis(last.output, last.err, versionRun, file)
    ensures Expired(ctx1) && first.err.None? && second.err.None? ==>
      launches == 2 && r.Returns? && r.value.error == TimedOut(Savscan) && !r.value.infected
  {
    var output, err := RunCommand(ctx1, Savscan, first).output, RunCommand(ctx1, Savscan, first).err;
    launches := 1;
    if err.Some? && err.value != FoundExit {
      output, err := RunCommand(ctx2, Savscan, second).output, RunCommand(ctx2, Savscan, second).err;
      launches := 2;
    }
    r := ParseSophosOutput(output, err, versionRun, file);
  }

  // ---------------------------------------------------------------------
  // Properties of the parse

  /** An error other than exit status 3 is reported as is, with no verdict. */
  lemma ErrorWithholdsVerdict(out: string, msg: string, versionRun: Run, file: LogFile)
    requires msg != FoundExit
    ensures Analysis(out, Some(msg), versionRun, file).Returns?
    ensures var r := Analysis(out, Some(msg), versionRun, file).value;
      r.error == msg && !r.infected && r.result == ""
  {
  }

  /** Exit status 3 is a completed scan: the output is parsed exactly as for
      a clean exit and the error reads "nil". */
  lemma FoundExitIsCompleted(out: string, versionRun: Run, file: LogFile)
    ensures Analysis(out, Some(FoundExit), versionRun, file) == Analysis(out, None, versionRun, file)
    ensures Analysis(out, None, versionRun, file).Returns? ==> Analysis(out, None, versionRun, file).value.error == "nil"
  {
  }

  /** A timed-out scan is never reported clean: it carries the timeout
      message and no verdict. */
  lemma TimeoutWithholdsVerdict(ctx: Context, run: Run, versionRun: Run, file: LogFile)
    requires Expired(ctx) && run.err.None?
    ensures var timed := RunCommand(ctx, Savscan, run);
      var r := Analysis(timed.output, timed.err, versionRun, file);
      r.Returns? && !r.value.infected && r.value.error == TimedOut(Savscan)
  {
    var timed := RunCommand(ctx, Savscan, run);
    assert TimedOut(Savscan)[0] == 'c' && FoundExit[0] == 'e';
    ErrorWithholdsVerdict(timed.output, TimedOut(Savscan), versionRun, file);
  }

  /** The verdict part of a completed scan is the scan loop's. */
  lemma CompletedIsScan(out: string, versionRun: Run, file: LogFile)
    ensures Analysis(out, None, versionRun, file).Panics? <==> Verdicts(Split(out, "\n")).Panics?
    ensures Analysis(out, None, versionRun, file).Returns? ==>
      var v := Verdicts(Split(out, "\n")).value;
      var r := Analysis(out, None, versionRun, file).value;
      r.infected == v.infected && r.result == v.result && r.error == "nil"
  {
  }

  /** A completed scan panics exactly when a detection line has no quote. */
  lemma CompletedScanPanics(out: string, versionRun: Run, file: LogFile)
    ensures var lines := Split(out, "\n");
      Analysis(out, None, versionRun, file).Panics? <==> exists k :: 0 <= k < |lines| && Unquoted(lines[k])
  {
    var lines := Split(out, "\n");
    CompletedIsScan(out, versionRun, file);
    PanicsIff(lines);
    if exists k :: 0 <= k < |lines| && Unquoted(lines[k]) {
      var k :| 0 <= k < |lines| && Unquoted(lines[k]);
      assert LastWhere(lines, Unquoted).Some?;
    }
  }

  /** Otherwise it is infected exactly when some line announces a virus,
      and the result is the name on the last such line. */
  lemma CompletedScanVerdict(out: string, versionRun: Run, file: LogFile)
    requires Analysis(out, None, versionRun, file).Returns?
    ensures var lines := Split(out, "\n");
      var r := Analysis(out, None, versionRun, file).value;
      (r.infected <==> exists k :: 0 <= k < |lines| && IsVirusLine(lines[k])) &&
      r.result == LastMapped(lines, IsVirusLine, VirusName, "")
  {
    var lines := Split(out, "\n");
    CompletedIsScan(out, versionRun, file);
    PanicsIff(lines);
    VerdictsAreLast(lines);
    match LastWhere(lines, IsVirusLine)
    case None =>
    case Some(k) =>
      assert IsVirusLine(lines[k]);
  }

  // ---------------------------------------------------------------------
  // Updating

  /** The status line updateAV prints: 0 only when the update command
      succeeded and mentioned "SOPHOS source". */
  function UpdateStatus(r: Run): (status: int)
    ensures status == 0 || status == 1
    ensures status == 0 <==> r.err.None? && Contains(r.output, SourceMarker)
  {
    if r.err.Some? then 1
    else if Contains(r.output, SourceMarker) then 0
    else 1
  }

  /** updateAV: a failed command prints 1 and leaves the log alone; any
      command that succeeded overwrites the log with today's date, whether
      or not the output held the marker. */
  method UpdateAV(log: UpdatedLog, ctx: Context, run: Run, today: string) returns (status: int, err: Error)
    modifies log
    ensures var r := RunCommand(ctx, Savupdate, run);
      status == UpdateStatus(r) && err == r.err &&
      log.file == (if r.err.Some? then old(log.file) else Present(today))
  {
    var output, runErr := RunCommand(ctx, Savupdate, run).output, RunCommand(ctx, Savupdate, run).err;
    if runErr.Some? {
      status := 1;
      err := runErr;
      return;
    }
    if Contains(output, SourceMarker) {
      status := 0;
    } else {
      status := 1;
    }
    log.Write(today);
    err := None;
  }
}
