/** The F-Secure plugin (detection/malscan-plugin-fsecure/main.go). One `fsav`
    run reports two engines, FSE and Aquarius, each on lines of the form
    `<file>: Infected: <name> [<engine>]`; fsav exits with status 3 when it
    found something, which is not a failure. */
module FSecure {
  import opened GoValues
  import opened GoStrings
  import opened LineScan
  import opened Exec
  import opened UpdateLog

  const Fsav := "/opt/f-secure/fsav/bin/fsav"
  const FoundExit := "exit status 3"
  const InfectedTag := "Infected:"
  const FseTag := "[FSE]"
  const AquariusTag := "[Aquarius]"
  const VersionTag := "F-Secure Linux Security version"
  const DatabaseTag := "Database version:"
  const DoneMarker := "All done."

  /** The `analysis` record; `error` is the text "nil" when there was none. */
  datatype ResultsData = ResultsData(
    infected: bool, result: string, engine: string,
    database: string, updated: string, error: string)

  /** The per-engine labels collected while scanning the output. */
  datatype ScanEngines = ScanEngines(fse: string, aquarius: string)

  // ---------------------------------------------------------------------
  // Reading the scan output

  /** A line reporting an FSE detection. */
  predicate IsFseLine(line: string)
  {
    Contains(line, InfectedTag) && Contains(line, FseTag)
  }

  /** A line reporting an Aquarius detection; a line carrying both tags is
      taken by the FSE branch, which then skips the rest of the iteration. */
  predicate IsAquariusLine(line: string)
  {
    Contains(line, InfectedTag) && Contains(line, AquariusTag) && !Contains(line, FseTag)
  }

  /** The detection name on a verdict line: what follows the first
      "Infected:" (up to a second one), without the trailing engine tag. */
  function Label(line: string, tag: string): string
    requires Contains(line, InfectedTag)
  {
    TrimSpace(TrimSuffix(Split(line, InfectedTag)[1], tag))
  }

  /** The FSE label after scanning `lines`: the last FSE line wins. */
  function FseLabel(lines: seq<string>): string
  {
    match LastWhere(lines, IsFseLine)
    case None => ""
    case Some(k) => Label(lines[k], FseTag)
  }

  /** The Aquarius label after scanning `lines`: the last Aquarius line wins. */
  function AquariusLabel(lines: seq<string>): string
  {
    match LastWhere(lines, IsAquariusLine)
    case None => ""
    case Some(k) => Label(lines[k], AquariusTag)
  }

  /** Whether either branch of the scan loop fired on some line. */
  predicate Flagged(lines: seq<string>)
  {
    LastWhere(lines, IsFseLine).Some? || LastWhere(lines, IsAquariusLine).Some?
  }

  /** One loop step: how reading line `i` changes the collected state. */
  lemma ScanStep(lines: seq<string>, i: nat)
    requires i < |lines|
    ensures Flagged(lines[..i + 1]) == (Flagged(lines[..i]) || IsFseLine(lines[i]) || IsAquariusLine(lines[i]))
    ensures FseLabel(lines[..i + 1]) == if IsFseLine(lines[i]) then Label(lines[i], FseTag) else FseLabel(lines[..i])
    ensures AquariusLabel(lines[..i + 1]) == if IsAquariusLine(lines[i]) then Label(lines[i], AquariusTag) else AquariusLabel(lines[..i])
  {
    LastWhereStep(lines, IsFseLine, i);
    LastWhereStep(lines, IsAquariusLine, i);
    assert lines[..i + 1][i] == lines[i];
    if !IsFseLine(lines[i]) {
      match LastWhere(lines[..i], IsFseLine)
      case None =>
      case Some(k) => assert lines[..i + 1][k] == lines[..i][k];
    }
    if !IsAquariusLine(lines[i]) {
      match LastWhere(lines[..i], IsAquariusLine)
      case None =>
      case Some(k) => assert lines[..i + 1][k] == lines[..i][k];
    }
  }

  /** The combined verdict text `Aquarius:<a> FSE:<f>`, trimmed. */
  function Verdict(aquarius: string, fse: string): string
  {
    TrimSpace("Aquarius:" + aquarius + " FSE:" + fse)
  }

  /** The final TrimSpace never cuts into the text when the FSE label does
      not end in white space. */
  lemma VerdictUntrimmed(aquarius: string, fse: string)
    requires fse == [] || !IsSpace(fse[|fse| - 1])
    ensures Verdict(aquarius, fse) == "Aquarius:" + aquarius + " FSE:" + fse
  {
    var text := "Aquarius:" + aquarius + " FSE:" + fse;
    assert text[0] == 'A';
    if fse == [] {
      assert text[|text| - 1] == ':';
    } else {
      assert text[|text| - 1] == fse[|fse| - 1];
    }
    TrimSpaceKeeps(text);
  }

  /** Since both labels are already trimmed, the verdict is always the plain
      concatenation. */
  lemma VerdictIsConcatenation(lines: seq<string>)
    ensures Verdict(AquariusLabel(lines), FseLabel(lines)) ==
      "Aquarius:" + AquariusLabel(lines) + " FSE:" + FseLabel(lines)
  {
    VerdictUntrimmed(AquariusLabel(lines), FseLabel(lines));
  }

  // ---------------------------------------------------------------------
  // Version and database

  predicate IsVersionLine(line: string)
  {
    Contains(line, VersionTag)
  }

  /** A "Database version:" line that splits into exactly two parts on ':';
      other such lines are logged and skipped. */
  predicate IsDatabaseLine(line: string)
  {
    Contains(line, DatabaseTag) && |Split(line, ":")| == 2
  }

  /** The version a version line carries. */
  function VersionOf(line: string): string
  {
    TrimSpace(TrimPrefix(line, VersionTag))
  }

  /** The version after scanning `lines`: the last version line wins. */
  function LastVersion(lines: seq<string>): string
  {
    LastMapped(lines, IsVersionLine, VersionOf, "")
  }

  /** The version parseFSecureVersion reports for `lines`. */
  function ScannedVersion(lines: seq<string>): string
  {
    LastVersion(UpTo(lines, IsDatabaseLine))
  }

  /** The database version parseFSecureVersion reports for `lines`: the
      second field of the first complete database line, or "". */
  function ScannedDatabase(lines: seq<string>): string
  {
    var stop := FirstWhere(lines, IsDatabaseLine);
    if stop < |lines| then TrimSpace(Split(lines[stop], ":")[1]) else ""
  }

  /** The fields when the scan breaks at the database line `lines[i]`. */
  lemma VersionAtStop(lines: seq<string>, i: nat)
    requires i < |lines| && IsDatabaseLine(lines[i])
    requires i <= FirstWhere(lines, IsDatabaseLine)
    ensures ScannedVersion(lines) == LastVersion(lines[..i + 1])
    ensures ScannedDatabase(lines) == TrimSpace(Split(lines[i], ":")[1])
  {
    UpToAt(lines, IsDatabaseLine, i);
  }

  /** The fields when the scan reads every line. */
  lemma VersionWithoutStop(lines: seq<string>)
    requires FirstWhere(lines, IsDatabaseLine) == |lines|
    ensures ScannedVersion(lines) == LastVersion(lines)
    ensures ScannedDatabase(lines) == ""
  {
  }

  function EngineVersion(versionOut: string): string
  {
    ScannedVersion(Split(versionOut, "\n"))
  }

  function DatabaseVersion(versionOut: string): string
  {
    ScannedDatabase(Split(versionOut, "\n"))
  }

  /** parseFSecureVersion: split the output into lines and scan them. */
  method ParseFSecureVersion(versionOut: string) returns (version: string, database: string)
    ensures version == EngineVersion(versionOut)
    ensures database == DatabaseVersion(versionOut)
  {
    var lines := Split(versionOut, "\n");
    version, database := ScanVersionLines(lines);
  }

  /** The loop of parseFSecureVersion: every version line overwrites the
      version, and the first complete database line ends the scan. */
  method ScanVersionLines(lines: seq<string>) returns (version: string, database: string)
    ensures version == ScannedVersion(lines)
    ensures database == ScannedDatabase(lines)
  {
    version, database := "", "";
    var i := 0;
    while i < |lines|
      invariant 0 <= i <= |lines|
      invariant i <= FirstWhere(lines, IsDatabaseLine)
      invariant version == LastVersion(lines[..i]) && database == ""
    {
      var line := lines[i];
      if Contains(line, VersionTag) {
        version := TrimSpace(TrimPrefix(line, VersionTag));
      }
      LastMappedStep(lines, IsVersionLine, VersionOf, "", i);
      assert version == LastVersion(lines[..i + 1]);
      if Contains(line, DatabaseTag) {
        var parts := Split(line, ":");
        if |parts| == 2 {
          database := TrimSpace(parts[1]);
          VersionAtStop(lines, i);
          return;
        }
      }
      FirstWhereNext(lines, IsDatabaseLine, i);
      ghost var next := LastVersion(lines[..i + 1]);
      assert version == next;
      i := i + 1;
      assert next == LastVersion(lines[..i]);
    }
    assert lines[..i] == lines;
    VersionWithoutStop(lines);
  }

  /** getFSecureVersion: the version command runs without a context and its
      error is discarded, so whatever it printed is parsed. */
  method GetFSecureVersion(versionRun: Run) returns (version: string, database: string)
    ensures version == EngineVersion(versionRun.output)
    ensures database == DatabaseVersion(versionRun.output)
  {
    var out := RunCommand(NilContext, Fsav, versionRun);
    NilContextNeverTimesOut(Fsav, versionRun);
    version, database := ParseFSecureVersion(out.output);
  }

  /** getUpdatedDate: an absent log reads as "", and a read error is ignored,
      which also yields "". */
  function UpdatedDate(file: LogFile): (r: string)
    ensures file.Present? ==> r == file.contents
    ensures !file.Present? ==> r == ""
  {
    match file
    case Absent => ""
    case Unreadable => ""
    case Present(contents) => contents
  }

  // ---------------------------------------------------------------------
  // Parsing a scan

  /** What ParseFSecureOutput returns for scan output `out` and error `err`,
      given the version command's output and the update log. */
  function Analysis(out: string, err: Error, versionOut: string, file: LogFile): ResultsData
  {
    if err.Some? then
      ResultsData(false, "", EngineVersion(versionOut), DatabaseVersion(versionOut), UpdatedDate(file), err.value)
    else
      var lines := Split(out, "\n");
      ResultsData(Flagged(lines), Verdict(AquariusLabel(lines), FseLabel(lines)),
                  EngineVersion(versionOut), DatabaseVersion(versionOut), UpdatedDate(file), "nil")
  }

  /** ParseFSecureOutput: one pass over the output lines, the FSE branch
      `continue`s, and the verdict text is assembled after the loop. */
  method ParseFSecureOutput(fsecureout: string, err: Error, versionRun: Run, file: LogFile)
    returns (fsecure: ResultsData)
    ensures fsecure == Analysis(fsecureout, err, versionRun.output, file)
  {
    var version, database := GetFSecureVersion(versionRun);
    fsecure := ResultsData(false, "", version, database, UpdatedDate(file), "nil");
    if err.Some? {
      fsecure := fsecure.(error := err.value);
      return;
    }
    var lines := Split(fsecureout, "\n");
    var infected, scanEng := ScanLines(lines);
    fsecure := fsecure.(infected := infected);
    fsecure := fsecure.(result := TrimSpace("Aquarius:" + scanEng.aquarius + " FSE:" + scanEng.fse));
    CleanAnalysis(fsecureout, versionRun.output, file);
  }

  /** The `for _, line := range lines` loop of ParseFSecureOutput: the FSE
      branch `continue`s, so a line with both tags never reaches the
      Aquarius branch. */
  method ScanLines(lines: seq<string>) returns (infected: bool, scanEng: ScanEngines)
    ensures infected == Flagged(lines)
    ensures scanEng == ScanEngines(FseLabel(lines), AquariusLabel(lines))
  {
    infected := false;
    scanEng := ScanEngines("", "");
    var i := 0;
    while i < |lines|
      invariant 0 <= i <= |lines|
      invariant (infected, scanEng) == Scan(lines[..i])
    {
      var line := lines[i];
      ghost var next := ScanLine((infected, scanEng), line);
      ScanNext(lines, i);
      if Contains(line, InfectedTag) && Contains(line, FseTag) {
        infected := true;
        scanEng := scanEng.(fse := Label(line, FseTag));
        assert (infected, scanEng) == next;
        i := i + 1;
        continue;
      }
      if Contains(line, InfectedTag) && Contains(line, AquariusTag) {
        infected := true;
        scanEng := scanEng.(aquarius := Label(line, AquariusTag));
      }
      assert (infected, scanEng) == next;
      i := i + 1;
    }
    assert lines[..i] == lines;
    ScanIsLastMatch(lines);
  }

  /** The scan loop as a left fold: the state after reading `lines`. */
  function Scan(lines: seq<string>): (bool, ScanEngines)
  {
    if lines == [] then (false, ScanEngines("", ""))
    else ScanLine(Scan(lines[..|lines| - 1]), lines[|lines| - 1])
  }

  /** One iteration of the scan loop. */
  function ScanLine(st: (bool, ScanEngines), line: string): (bool, ScanEngines)
  {
    if IsFseLine(line) then (true, st.1.(fse := Label(line, FseTag)))
    else if IsAquariusLine(line) then (true, st.1.(aquarius := Label(line, AquariusTag)))
    else st
  }

  lemma ScanNext(lines: seq<string>, i: nat)
    requires i < |lines|
    ensures Scan(lines[..i + 1]) == ScanLine(Scan(lines[..i]), lines[i])
  {
    assert lines[..i + 1][..i] == lines[..i];
  }

  /** The fold agrees with the declarative description: flagged iff some
      line matched, and each label is the one of the last matching line. */
  lemma {:induction false} ScanIsLastMatch(lines: seq<string>)
    ensures Scan(lines) == (Flagged(lines), ScanEngines(FseLabel(lines), AquariusLabel(lines)))
    decreases |lines|
  {
    if lines != [] {
      var n := |lines| - 1;
      ScanIsLastMatch(lines[..n]);
      ScanStep(lines, n);
      assert lines[..n + 1] == lines;
    }
  }

  lemma CleanAnalysis(out: string, versionOut: string, file: LogFile)
    ensures var lines := Split(out, "\n");
      Analysis(out, None, versionOut, file) ==
      ResultsData(Flagged(lines), Verdict(AquariusLabel(lines), FseLabel(lines)),
                  EngineVersion(versionOut), DatabaseVersion(versionOut), UpdatedDate(file), "nil")
  {
  }

  /** AvScan: a failure other than exit status 3 earns one retry under the
      same context; exit status 3 from the final run is then cleared. */
  predicate Retries(err: Error)
  {
    err.Some? && err.value != FoundExit
  }

  function ClearFound(err: Error): (r: Error)
    ensures r.None? <==> err.None? || err.value == FoundExit
    ensures r.Some? ==> r == err
  {
    if err.Some? && err.value == FoundExit then None else err
  }

  method AvScan(ctx1: Context, first: Run, ctx2: Context, second: Run, versionRun: Run, file: LogFile)
    returns (r: ResultsData, launches: nat)
    requires SameDeadline(ctx1, ctx2)
    ensures var run1 := RunCommand(ctx1, Fsav, first);
      launches == (if Retries(run1.err) then 2 else 1)
    ensures var run1 := RunCommand(ctx1, Fsav, first);
      var last := if Retries(run1.err) then RunCommand(ctx2, Fsav, second) else run1;
      r == Analysis(last.output, ClearFound(last.err), versionRun.output, file)
    ensures r.error != FoundExit
    ensures Expired(ctx1) && first.err.None? && second.err.None? ==>
      launches == 2 && r.error == TimedOut(Fsav) && !r.infected
  {
    var results := RunCommand(ctx1, Fsav, first);
    launches := 1;
    if results.err.Some? && results.err.value != FoundExit {
      results := RunCommand(ctx2, Fsav, second);
      launches := 2;
    }
    var err := results.err;
    if err.Some? && err.value == FoundExit {
      err := None;
    }
    r := ParseFSecureOutput(results.output, err, versionRun, file);
  }

  // ---------------------------------------------------------------------
  // Properties of the parse

  /** A line carrying "Infected:" together with one of the two engine tags. */
  predicate Reports(line: string)
  {
    Contains(line, InfectedTag) && (Contains(line, FseTag) || Contains(line, AquariusTag))
  }

  /** The scan is reported infected exactly when some output line carries
      "Infected:" together with one of the two engine tags. */
  lemma InfectedIff(lines: seq<string>)
    ensures Flagged(lines) <==> exists k :: 0 <= k < |lines| && Reports(lines[k])
  {
    if exists k :: 0 <= k < |lines| && Reports(lines[k]) {
      var k :| 0 <= k < |lines| && Reports(lines[k]);
      if IsFseLine(lines[k]) {
        assert LastWhere(lines, IsFseLine).Some?;
      } else {
        assert IsAquariusLine(lines[k]);
        assert LastWhere(lines, IsAquariusLine).Some?;
      }
    }
    if LastWhere(lines, IsFseLine).Some? {
      var k := LastWhere(lines, IsFseLine).value;
      assert Reports(lines[k]);
    } else if LastWhere(lines, IsAquariusLine).Some? {
      var k := LastWhere(lines, IsAquariusLine).value;
      assert Reports(lines[k]);
    }
  }

  /** An error from the scan is reported as is, with no verdict. */
  lemma ErrorWithholdsVerdict(out: string, msg: string, versionOut: string, file: LogFile)
    ensures var r := Analysis(out, Some(msg), versionOut, file);
      r.error == msg && !r.infected && r.result == "" &&
      r.engine == EngineVersion(versionOut) && r.database == DatabaseVersion(versionOut) && r.updated == UpdatedDate(file)
  {
  }

  /** Without a reporting line both labels stay empty. */
  lemma NoReportsNoLabels(lines: seq<string>)
    requires forall k :: 0 <= k < |lines| ==> !Reports(lines[k])
    ensures !Flagged(lines) && FseLabel(lines) == "" && AquariusLabel(lines) == ""
  {
    InfectedIff(lines);
  }

  /** With both labels empty the verdict text is still not empty. */
  lemma EmptyVerdict(aquarius: string, fse: string)
    requires aquarius == "" && fse == ""
    ensures Verdict(aquarius, fse) == "Aquarius: FSE:"
  {
    VerdictUntrimmed(aquarius, fse);
    assert "Aquarius:" + aquarius + " FSE:" + fse == "Aquarius: FSE:";
  }

  /** A clean scan still reports the two empty engine labels. */
  lemma CleanVerdict(out: string, versionOut: string, file: LogFile)
    requires forall line :: line in Split(out, "\n") ==> !Reports(line)
    ensures var r := Analysis(out, None, versionOut, file);
      !r.infected && r.result == "Aquarius: FSE:" && r.error == "nil"
  {
    var lines := Split(out, "\n");
    forall k | 0 <= k < |lines| ensures !Reports(lines[k]) {
      assert lines[k] in lines;
    }
    NoReportsNoLabels(lines);
    EmptyVerdict(AquariusLabel(lines), FseLabel(lines));
    CleanAnalysis(out, versionOut, file);
  }

  /** A verdict line carrying both tags counts for FSE only. */
  lemma BothTagsCountForFse(line: string)
    requires Contains(line, InfectedTag) && Contains(line, FseTag) && Contains(line, AquariusTag)
    ensures FseLabel([line]) == Label(line, FseTag)
    ensures AquariusLabel([line]) == ""
  {
    LastWhereIs([line], IsFseLine, 0);
    assert !IsAquariusLine([line][0]);
  }

  /** Of several FSE lines, the last one names the FSE detection. */
  lemma LastFseLineWins(lines: seq<string>, k: nat)
    requires k < |lines| && IsFseLine(lines[k])
    requires forall j :: k < j < |lines| ==> !IsFseLine(lines[j])
    ensures FseLabel(lines) == Label(lines[k], FseTag)
  {
    LastWhereIs(lines, IsFseLine, k);
  }

  /** A "Database version:" line is used exactly when it has a single colon. */
  lemma DatabaseLineIff(line: string)
    ensures IsDatabaseLine(line) <==> Contains(line, DatabaseTag) && multiset(line)[':'] == 1
  {
    SplitCharCount(line, ':');
  }

  /** Nothing after the first complete database line affects the result. */
  lemma VersionStopsAtDatabase(pre: seq<string>, d: string, post: seq<string>)
    requires forall j :: 0 <= j < |pre| ==> !IsDatabaseLine(pre[j])
    requires IsDatabaseLine(d)
    ensures ScannedVersion(pre + [d] + post) == ScannedVersion(pre + [d])
    ensures ScannedDatabase(pre + [d] + post) == TrimSpace(Split(d, ":")[1])
  {
    FirstWhereAfter(pre, d, post, IsDatabaseLine);
    FirstWhereAfter(pre, d, [], IsDatabaseLine);
    assert pre + [d] + [] == pre + [d];
  }

  // ---------------------------------------------------------------------
  // Updating

  /** One launch of the update script: the lines its stdout reader saw, and
      whether Start and Wait both succeeded. */
  datatype UpdateAttempt = UpdateAttempt(lines: seq<string>, ok: bool)

  /** fmt.Sprintln("\n", text): the operands joined by a space, then a newline. */
  function Echo(text: string): string
  {
    "\n" + " " + text + "\n"
  }

  /** The `out` buffer after the reader has echoed `lines`. */
  function Captured(lines: seq<string>): string
  {
    if lines == [] then "" else Captured(lines[..|lines| - 1]) + Echo(lines[|lines| - 1])
  }

  /** The lines of every launch that ran: the second only after a failed first. */
  function Transcript(first: UpdateAttempt, second: UpdateAttempt): seq<string>
  {
    first.lines + (if first.ok then [] else second.lines)
  }

  lemma {:induction false} CapturedAppend(xs: seq<string>, ys: seq<string>)
    ensures Captured(xs + ys) == Captured(xs) + Captured(ys)
    decreases |ys|
  {
    if ys == [] {
      assert xs + ys == xs;
    } else {
      var init, last := ys[..|ys| - 1], ys[|ys| - 1];
      CapturedAppend(xs, init);
      CapturedLast(xs + ys, xs + init, last);
      CapturedLast(ys, init, last);
      ConcatAssoc(Captured(xs), Captured(init), Echo(last));
    }
  }

  lemma CapturedLast(zs: seq<string>, init: seq<string>, last: string)
    requires zs == init + [last]
    ensures Captured(zs) == Captured(init) + Echo(last)
  {
    assert zs[..|zs| - 1] == init;
  }

  /** updateAV: at most two launches, a status line that is 0 exactly when
      "All done." was echoed, and a fresh date in the log in every case. */
  method UpdateAV(log: UpdatedLog, first: UpdateAttempt, second: UpdateAttempt, today: string)
    returns (status: int, launches: nat)
    modifies log
    ensures launches == (if first.ok then 1 else 2)
    ensures status == (if Contains(Captured(Transcript(first, second)), DoneMarker) then 0 else 1)
    ensures log.file == Present(today)
  {
    var out := "";
    ghost var seen: seq<string> := [];
    var attempts := [first, second];
    launches := 0;
    var i := 1;
    while i != 3
      invariant 1 <= i <= 3
      invariant out == Captured(seen)
      invariant i == 1 ==> seen == [] && launches == 0
      invariant i == 2 ==> !first.ok && seen == first.lines && launches == 1
      invariant i == 3 ==> !first.ok && seen == Transcript(first, second) && launches == 2
      decreases 3 - i
    {
      var attempt := attempts[i - 1];
      launches := launches + 1;
      CapturedAppend(seen, attempt.lines);
      out := out + Captured(attempt.lines);
      seen := seen + attempt.lines;
      if !attempt.ok {
        i := i + 1;
        continue;
      }
      assert seen == Transcript(first, second);
      break;
    }
    assert seen == Transcript(first, second);
    if Contains(out, DoneMarker) {
      status := 0;
    } else {
      status := 1;
    }
    log.Write(today);
  }

  /** Echoing one more line adds an occurrence of the marker exactly when
      that line holds one: the marker has no newline and does not start
      with the space the echo puts in front. */
  lemma EchoContains(before: string, text: string)
    ensures Contains(before + Echo(text), DoneMarker) <==>
      Contains(before, DoneMarker) || Contains(text, DoneMarker)
  {
    var tail := [' '] + text + ['\n'];
    assert before + Echo(text) == before + ['\n'] + tail;
    ContainsAcross(before, '\n', tail, DoneMarker);
    assert tail == ([' '] + text) + ['\n'] + [];
    ContainsAcross([' '] + text, '\n', [], DoneMarker);
    assert !Contains([], DoneMarker);
    ContainsAfterChar(' ', text, DoneMarker);
  }

  /** The status is 0 exactly when some echoed line contains "All done.":
      the separators the echo adds never create or split the marker. */
  lemma {:induction false} CapturedContains(lines: seq<string>)
    ensures Contains(Captured(lines), DoneMarker) <==>
      exists k :: 0 <= k < |lines| && Contains(lines[k], DoneMarker)
    decreases |lines|
  {
    if lines == [] {
      assert !Contains("", DoneMarker);
    } else {
      var init := lines[..|lines| - 1];
      var last := lines[|lines| - 1];
      CapturedContains(init);
      EchoContains(Captured(init), last);
      if exists k :: 0 <= k < |lines| && Contains(lines[k], DoneMarker) {
        var k :| 0 <= k < |lines| && Contains(lines[k], DoneMarker);
        if k < |init| {
          assert init[k] == lines[k];
        }
      }
      if exists k :: 0 <= k < |init| && Contains(init[k], DoneMarker) {
        var k :| 0 <= k < |init| && Contains(init[k], DoneMarker);
        assert lines[k] == init[k];
      }
    }
  }

  // ---------------------------------------------------------------------
  // The sample in ParseFSecureOutput's comment

  /** A verdict line as fsav prints it: `<file>Infected: <name> <tag>`. */
  function VerdictLine(file: string, name: string, tag: string): string
  {
    file + InfectedTag + " " + name + " " + tag
  }

  /** The label read back from a verdict line is the detection name. */
  lemma VerdictLineLabel(file: string, name: string, tag: string)
    requires 'I' !in file && ':' !in name && ':' !in tag && tag != []
    requires name != [] && !IsSpace(name[0]) && !IsSpace(name[|name| - 1])
    ensures Contains(VerdictLine(file, name, tag), InfectedTag)
    ensures Contains(VerdictLine(file, name, tag), tag)
    ensures Label(VerdictLine(file, name, tag), tag) == name
  {
    var tail := " " + name + " " + tag;
    assert VerdictLine(file, name, tag) == file + InfectedTag + tail;
    assert InfectedTag[0] == 'I' && InfectedTag[8] == ':';
    SplitOnce(file, InfectedTag, tail, ':');
    EndsWith(file + InfectedTag + " " + name + " ", tag);
    TrimSuffixOf(" " + name + " ", tag);
    TrimSpaceExact(" ", name, " ");
  }

  /** A string contains its own suffix. */
  lemma EndsWith(head: string, tag: string)
    ensures Contains(head + tag, tag)
  {
    assert (head + tag)[|head|..|head| + |tag|] == tag;
    ContainsAt(head + tag, tag, |head|);
  }

  /** A character that occurs in none of its pieces is not in a verdict line. */
  lemma NotInVerdictLine(c: char, file: string, name: string, tag: string)
    requires c !in file && c !in InfectedTag && c != ' ' && c !in name && c !in tag
    ensures c !in VerdictLine(file, name, tag)
  {
  }

  /** Two verdict lines, one per engine, make the whole scan output. */
  lemma TwoLineOutput(first: string, second: string)
    requires '\n' !in first && '\n' !in second
    ensures Split(first + "\n" + second, "\n") == [first, second]
  {
    SplitOnce(first, "\n", second, '\n');
  }

  /** An Aquarius verdict line lacking the letter S cannot hold the FSE tag,
      so it reaches the Aquarius branch. */
  lemma AquariusVerdictLine(file: string, name: string)
    requires 'I' !in file && ':' !in name && 'S' !in file && 'S' !in name
    requires name != [] && !IsSpace(name[0]) && !IsSpace(name[|name| - 1])
    ensures IsAquariusLine(VerdictLine(file, name, AquariusTag))
    ensures Label(VerdictLine(file, name, AquariusTag), AquariusTag) == name
  {
    assert 'S' !in InfectedTag && 'S' !in AquariusTag;
    NotInVerdictLine('S', file, name, AquariusTag);
    assert FseTag[2] == 'S';
    NotContainsByChar(VerdictLine(file, name, AquariusTag), FseTag, 'S');
    VerdictLineLabel(file, name, AquariusTag);
  }

  /** An FSE line followed by an Aquarius line: both are flagged, each
      engine gets its own label. */
  lemma TwoVerdictLines(file: string, fseName: string, aquariusName: string)
    requires 'I' !in file && ':' !in fseName && ':' !in aquariusName
    requires 'S' !in file && 'S' !in aquariusName
    requires fseName != [] && !IsSpace(fseName[0]) && !IsSpace(fseName[|fseName| - 1])
    requires aquariusName != [] && !IsSpace(aquariusName[0]) && !IsSpace(aquariusName[|aquariusName| - 1])
    ensures var lines := [VerdictLine(file, fseName, FseTag), VerdictLine(file, aquariusName, AquariusTag)];
      Flagged(lines) && FseLabel(lines) == fseName && AquariusLabel(lines) == aquariusName
  {
    VerdictLineLabel(file, fseName, FseTag);
    AquariusVerdictLine(file, aquariusName);
    FseThenAquarius([VerdictLine(file, fseName, FseTag), VerdictLine(file, aquariusName, AquariusTag)]);
  }

  lemma FseThenAquarius(lines: seq<string>)
    requires |lines| == 2 && IsFseLine(lines[0]) && IsAquariusLine(lines[1])
    ensures Flagged(lines)
    ensures FseLabel(lines) == Label(lines[0], FseTag)
    ensures AquariusLabel(lines) == Label(lines[1], AquariusTag)
  {
    LastWhereIs(lines, IsFseLine, 0);
    LastWhereIs(lines, IsAquariusLine, 1);
  }

  /** Scan output made of an FSE verdict line and an Aquarius verdict line
      gives an infected result naming both detections, Aquarius first. */
  lemma TwoLineVerdict(file: string, fseName: string, aquariusName: string, versionOut: string, log: LogFile)
    requires 'I' !in file && ':' !in fseName && ':' !in aquariusName
    requires 'S' !in file && 'S' !in aquariusName
    requires '\n' !in file && '\n' !in fseName && '\n' !in aquariusName
    requires fseName != [] && !IsSpace(fseName[0]) && !IsSpace(fseName[|fseName| - 1])
    requires aquariusName != [] && !IsSpace(aquariusName[0]) && !IsSpace(aquariusName[|aquariusName| - 1])
    ensures var r := Analysis(VerdictLine(file, fseName, FseTag) + "\n" + VerdictLine(file, aquariusName, AquariusTag),
                              None, versionOut, log);
      r.infected && r.error == "nil" && r.result == "Aquarius:" + aquariusName + " FSE:" + fseName
  {
    var fse := VerdictLine(file, fseName, FseTag);
    var aquarius := VerdictLine(file, aquariusName, AquariusTag);
    assert '\n' !in InfectedTag && '\n' !in FseTag && '\n' !in AquariusTag;
    NotInVerdictLine('\n', file, fseName, FseTag);
    NotInVerdictLine('\n', file, aquariusName, AquariusTag);
    TwoLineOutput(fse, aquarius);
    TwoVerdictLines(file, fseName, aquariusName);
    VerdictUntrimmed(aquariusName, fseName);
    CleanAnalysis(fse + "\n" + aquarius, versionOut, log);
  }

  /** The run quoted in ParseFSecureOutput's comment. */
  lemma SampleVerdict(file: string, fseName: string, aquariusName: string, versionOut: string, log: LogFile)
    requires file == "eicar.com.txt: "
    requires fseName == "EICAR_Test_File" && aquariusName == "EICAR-Test-File (not a virus)"
    ensures var r := Analysis(VerdictLine(file, fseName, FseTag) + "\n" + VerdictLine(file, aquariusName, AquariusTag),
                              None, versionOut, log);
      r.infected && r.result == "Aquarius:" + aquariusName + " FSE:" + fseName
  {
    SampleFile(file);
    SampleName(fseName);
    SampleName(aquariusName);
    TwoLineVerdict(file, fseName, aquariusName, versionOut, log);
  }

  lemma SampleFile(file: string)
    requires file == "eicar.com.txt: "
    ensures 'I' !in file && 'S' !in file && '\n' !in file
  {
  }

  lemma SampleName(name: string)
    requires name == "EICAR_Test_File" || name == "EICAR-Test-File (not a virus)"
    ensures ':' !in name && 'S' !in name && '\n' !in name
    ensures name != [] && !IsSpace(name[0]) && !IsSpace(name[|name| - 1])
  {
    if name == "EICAR_Test_File" {
      SampleFseName(name);
    } else {
      SampleAquariusName(name);
    }
  }

  lemma SampleFseName(name: string)
    requires name == "EICAR_Test_File"
    ensures ':' !in name && 'S' !in name && '\n' !in name
    ensures name != [] && name[0] == 'E' && name[|name| - 1] == 'e'
  {
  }

  lemma SampleAquariusName(name: string)
    requires name == "EICAR-Test-File (not a virus)"
    ensures ':' !in name && 'S' !in name && '\n' !in name
    ensures name != [] && name[0] == 'E' && name[|name| - 1] == ')'
  {
    SampleLacks(name, ':');
    SampleLacks(name, 'S');
    SampleLacks(name, '\n');
  }

  lemma SampleLacks(name: string, c: char)
    requires name == "EICAR-Test-File (not a virus)"
    requires c == ':' || c == 'S' || c == '\n'
    ensures c !in name
  {
    forall k | 0 <= k < |name| ensures name[k] != c {
    }
  }
}
