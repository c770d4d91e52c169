/** The Comodo plugin (detection/malscan-plugin-comodo/main.go). `cmdscan -v`
    reports the scanned file on the second output line, as
    `<path> ---> Found Virus, Malware Name is <name>` when it found something.
    Every non-nil error is a failure: no exit status means "found". */
module Comodo {
  import opened GoValues
  import opened GoStrings
  import opened LineScan
  import opened Exec
  import opened UpdateLog

  const Cmdscan := "/opt/COMODO/cmdscan"
  const FoundTag := "Found Virus"
  const NameSep := "is"
  const OpenTag := "<ProductVersion>"
  const CloseTag := "</ProductVersion>"
  const VersionError := "version error"
  const UpdatedError := "updated error"

  /** The `analysis` record; `error` is the text "nil" when there was none. */
  datatype ResultsData = ResultsData(
    infected: bool, result: string, engine: string, updated: string, error: string)

  // ---------------------------------------------------------------------
  // Engine version, from the lines of COMODO.xml

  /** A line holding the product version element. */
  predicate IsVersionLine(line: string)
  {
    Contains(line, OpenTag)
  }

  /** The line with the first opening and the first closing tag removed,
      trimmed. */
  function TagValue(line: string): string
  {
    TrimSpace(ReplaceFirst(ReplaceFirst(line, OpenTag, ""), CloseTag, ""))
  }

  /** The version getComodoVersion reports: the value of the first version
      line, or "version error" when no line holds the element (which is
      also the case when the file cannot be opened: it then has no lines). */
  function ComodoVersion(xml: seq<string>): (v: string)
    ensures (forall k :: 0 <= k < |xml| ==> !IsVersionLine(xml[k])) ==> v == VersionError
  {
    var i := FirstWhere(xml, IsVersionLine);
    if i < |xml| then TagValue(xml[i]) else VersionError
  }

  /** getComodoVersion: scan the lines and return at the first version line. */
  method GetComodoVersion(xml: seq<string>) returns (version: string)
    ensures version == ComodoVersion(xml)
  {
    var i := 0;
    while i < |xml|
      invariant 0 <= i <= |xml|
      invariant i <= FirstWhere(xml, IsVersionLine)
    {
      var line := xml[i];
      if Contains(line, OpenTag) {
        UpToAt(xml, IsVersionLine, i);
        return TrimSpace(ReplaceFirst(ReplaceFirst(line, OpenTag, ""), CloseTag, ""));
      }
      FirstWhereNext(xml, IsVersionLine, i);
      i := i + 1;
    }
    return VersionError;
  }

  /** The first version line wins, whatever follows it. */
  lemma FirstVersionLineWins(pre: seq<string>, line: string, post: seq<string>)
    requires forall k :: 0 <= k < |pre| ==> !IsVersionLine(pre[k])
    requires IsVersionLine(line)
    ensures ComodoVersion(pre + [line] + post) == TagValue(line)
  {
    FirstWhereAfter(pre, line, post, IsVersionLine);
    assert (pre + [line] + post)[|pre|] == line;
  }

  /** An indented `<ProductVersion>v</ProductVersion>` element gives `v`. */
  lemma VersionElement(indent: string, v: string)
    requires forall k :: 0 <= k < |indent| ==> IsSpace(indent[k])
    requires '<' !in indent && '<' !in v
    requires v != [] && !IsSpace(v[0]) && !IsSpace(v[|v| - 1])
    ensures TagValue(indent + OpenTag + v + CloseTag) == v
  {
    assert OpenTag[0] == '<' && CloseTag[0] == '<';
    TagsRemoved(indent, v, OpenTag, CloseTag);
    TrimSpaceExact(indent, v, "");
    assert indent + v + "" == indent + v;
  }

  /** Removing the first opening and then the first closing tag, both
      starting with a character that occurs neither in the indentation nor
      in the value. */
  lemma TagsRemoved(indent: string, v: string, open: string, close: string)
    requires open != [] && close != [] && open[0] !in indent
    requires close[0] !in indent && close[0] !in v
    ensures ReplaceFirst(ReplaceFirst(indent + open + v + close, open, ""), close, "") == indent + v
  {
    assert indent + open + v + close == indent + open + (v + close);
    ReplaceFirstAfterPrefix(indent, open, v + close, "");
    assert indent + "" + (v + close) == (indent + v) + close + "";
    ReplaceFirstAfterPrefix(indent + v, close, "", "");
    assert (indent + v) + "" + "" == indent + v;
  }

  // ---------------------------------------------------------------------
  // Parsing a scan

  /** extractVirusName: the trimmed second piece of the line split at
      "is"; a line without "is" makes `keyvalue[1]` panic. */
  function ExtractVirusName(line: string): (r: Exit<string>)
    ensures r.Panics? <==> !Contains(line, NameSep)
    ensures r.Returns? ==> r.value == TrimSpace(Between(line, NameSep))
  {
    if Contains(line, NameSep) then
      SplitSecond(line, NameSep);
      Returns(TrimSpace(Split(line, NameSep)[1]))
    else Panics
  }

  /** The name is the text between the first and the second "is" anywhere
      in the line (or the end of the line), trimmed. */
  lemma VirusNameBetween(line: string)
    ensures ExtractVirusName(line).Panics? <==> !Contains(line, NameSep)
    ensures Contains(line, NameSep) ==> ExtractVirusName(line) == Returns(TrimSpace(Between(line, NameSep)))
  {
  }

  /** ParseComodoOutput: any error is reported as is; otherwise only the
      second output line is examined, and it must exist. */
  function ParseComodoOutput(comodoout: string, err: Error, xml: seq<string>): (r: Exit<ResultsData>)
    ensures err.Some? ==> r == Returns(ResultsData(false, "", ComodoVersion(xml), "", err.value))
    ensures r.Returns? ==> r.value.engine == ComodoVersion(xml) && r.value.updated == ""
    ensures r.Returns? && err.None? ==> r.value.error == "nil"
    ensures r.Returns? && !r.value.infected ==> r.value.result == ""
    ensures r.Returns? && r.value.infected ==>
      err.None? && |Split(comodoout, "\n")| >= 2 &&
      Contains(Split(comodoout, "\n")[1], FoundTag) &&
      ExtractVirusName(Split(comodoout, "\n")[1]) == Returns(r.value.result)
  {
    var comodo := ResultsData(false, "", ComodoVersion(xml), "", "nil");
    if err.Some? then Returns(comodo.(error := err.value))
    else
      var lines := Split(comodoout, "\n");
      if |lines| < 2 then Panics
      else if |lines[1]| != 0 && Contains(lines[1], FoundTag) then
        match ExtractVirusName(lines[1])
        case Panics => Panics
        case Returns(name) => Returns(comodo.(result := name, infected := true))
      else Returns(comodo)
  }

  /** The second output line, when there is one. */
  function SecondLine(out: string): string
    requires Contains(out, "\n")
  {
    Split(out, "\n")[1]
  }

  /** Any error, whatever its text, is reported as is and withholds the
      verdict. */
  lemma ErrorWithholdsVerdict(out: string, msg: string, xml: seq<string>)
    ensures ParseComodoOutput(out, Some(msg), xml).Returns?
    ensures var r := ParseComodoOutput(out, Some(msg), xml).value;
      r.error == msg && !r.infected && r.result == "" && r.engine == ComodoVersion(xml)
  {
  }

  /** Without an error: the parse panics when there is no second line, or
      when that line reports a virus without an "is"; otherwise the file is
      infected exactly when the second line contains "Found Virus", the
      error reads "nil" and Updated is never filled in. */
  lemma CompletedScan(out: string, xml: seq<string>)
    ensures !Contains(out, "\n") ==> ParseComodoOutput(out, None, xml).Panics?
    ensures Contains(out, "\n") ==>
      (ParseComodoOutput(out, None, xml).Panics? <==>
        Contains(SecondLine(out), FoundTag) && !Contains(SecondLine(out), NameSep))
    ensures var r := ParseComodoOutput(out, None, xml);
      r.Returns? ==>
        (r.value.infected <==> Contains(SecondLine(out), FoundTag)) &&
        r.value.error == "nil" && r.value.updated == ""
  {
    if Contains(out, "\n") {
      var line := SecondLine(out);
      if Contains(line, FoundTag) {
        ContainsNonEmpty(line, FoundTag);
      }
    }
  }

  lemma ContainsNonEmpty(s: string, sub: string)
    requires sub != [] && Contains(s, sub)
    ensures |s| != 0
  {
    ContainsIff(s, sub);
  }

  /** AvScan: a single run, parsed whatever its outcome. */
  method AvScan(ctx: Context, run: Run, xml: seq<string>) returns (r: Exit<ResultsData>)
    ensures var ran := RunCommand(ctx, Cmdscan, run);
      r == ParseComodoOutput(ran.output, ran.err, xml)
  {
    var output, err := RunCommand(ctx, Cmdscan, run).output, RunCommand(ctx, Cmdscan, run).err;
    r := ParseComodoOutput(output, err, xml);
  }

  /** A timed-out scan is never reported clean. */
  lemma TimeoutWithholdsVerdict(ctx: Context, run: Run, xml: seq<string>)
    requires Expired(ctx) && run.err.None?
    ensures var timed := RunCommand(ctx, Cmdscan, run);
      var r := ParseComodoOutput(timed.output, timed.err, xml);
      r.Returns? && !r.value.infected && r.value.error == TimedOut(Cmdscan)
  {
    var timed := RunCommand(ctx, Cmdscan, run);
    ErrorWithholdsVerdict(timed.output, TimedOut(Cmdscan), xml);
  }

  // ---------------------------------------------------------------------
  // Updating

  /** getUpdatedDate (which the parse never calls): "nil" before the first
      update, "updated error" when the log cannot be read, its contents
      otherwise. */
  function UpdatedDate(file: LogFile): (r: string)
    ensures file.Absent? ==> r == "nil"
    ensures file.Unreadable? ==> r == UpdatedError
    ensures file.Present? ==> r == file.contents
  {
    match file
    case Absent => "nil"
    case Unreadable => UpdatedError
    case Present(contents) => contents
  }

  /** The outcome of the signature download: the request fails, or it
      returns a response with its OK flag and the outcome of saving it. */
  datatype Download = FetchFailed(err: string) | Fetched(ok: bool, saved: Error)

  /** Every step of the download succeeded. */
  predicate Succeeds(d: Download)
  {
    d.Fetched? && d.ok && d.saved.None?
  }

  /** What updateAV prints on stdout: 1 on a failed request or a non-OK
      response, nothing when saving fails (that 1 goes to the log), and 0
      after a complete download. */
  function Printed(d: Download): (p: Option<int>)
    ensures p == Some(0) <==> Succeeds(d)
    ensures p.None? <==> d.Fetched? && d.ok && d.saved.Some?
  {
    match d
    case FetchFailed(_) => Some(1)
    case Fetched(ok, saved) =>
      if !ok then Some(1)
      else if saved.Some? then None
      else Some(0)
  }

  /** What updateAV returns: the request or save error; a non-OK response
      returns the (nil) request error. */
  function Returned(d: Download): (e: Error)
    ensures e.Some? <==> d.FetchFailed? || (d.Fetched? && d.ok && d.saved.Some?)
    ensures d.Fetched? && !d.ok ==> e.None?
  {
    match d
    case FetchFailed(msg) => Some(msg)
    case Fetched(ok, saved) => if ok then saved else None
  }

  /** updateAV: an early-return chain; only a complete download prints 0
      and overwrites the log with today's date. */
  method UpdateAV(log: UpdatedLog, d: Download, today: string) returns (printed: Option<int>, err: Error)
    modifies log
    ensures printed == Printed(d) && err == Returned(d)
    ensures log.file == if Succeeds(d) then Present(today) else old(log.file)
  {
    if d.FetchFailed? {
      return Some(1), Some(d.err);
    }
    if !d.ok {
      return Some(1), None;
    }
    if d.saved.Some? {
      return None, d.saved;
    }
    printed := Some(0);
    log.Write(today);
    err := None;
  }
}
