# Malscan plugins — a Dafny model of the result parsers

Malscan runs one plugin per malware engine. Every plugin launches its
engine on one file and prints an `{"analysis": …}` record. This project
models the parts of the plugins that decide what goes into that record:

- **Output parsers.** F-Secure, Sophos, ClamAV and Comodo turn the scanner's
  text output into a verdict. F-Secure and Sophos also parse an engine
  version and a database version from a version command. ClamAV reads the
  engine version and the known-virus count from the scan summary. Comodo
  takes its engine version from `COMODO.xml` and has no database field.
  FLOSS keeps the non-blank, non-banner lines of its output. capa and
  Manalyze project already-decoded JSON maps into the record.
- **Outcome classification.** `utils.RunCommand` turns an exec error or an
  expired deadline into the returned error. The F-Secure and Sophos `AvScan`
  retry a failed run once, and treat `exit status 3` as "found". The
  FLOSS and capa `scanFile` check the deadline before the exec error.
  yara's `scan` fails open.
- **Freshness and updates.** `getUpdatedDate` reads the update log.
  `updateAV` prints the status digit and decides whether the log gets a
  fresh date.

Each plugin is one module (`FSecure`, `Sophos`, `ClamAV`, `Comodo`, `Floss`,
`Capa`, `Manalyze`, `Yara`). They share five modules:

- `GoValues`: Go's nil error as `Option`, a runtime panic as `Exit.Panics`, and
  a map lookup with a zero default.
- `GoStrings`: `strings.Index`, `Contains`, `Split`, `Join`, `TrimSpace`,
  `TrimLeftFunc`/`TrimRightFunc`, `TrimRight` (a cutset, not a suffix),
  `TrimPrefix`/`TrimSuffix` and `Replace(…, 1)` over `seq<char>`, with their
  lemmas.
- `LineScan`: first and last matching line, and filter.
- `Exec`: `RunCommand`.
- `UpdateLog`: the `updated.log` file as a class whose field `updateAV`
  overwrites.

The line loops of the parsers are methods. Each one is proved equal to a
function of the lines that specifies it. For the verdict and summary loops
of F-Secure, Sophos and ClamAV, that function is a left fold, which is then
proved equal to a declarative description, for example "the last matching
line wins" or "it panics exactly when some detection line has no quote".
The FLOSS line filter is specified by a fold from the head, `KeepLines`.
The version loops, which stop early, are specified through `FirstWhere`,
`UpTo` and `LastMapped`: the first line that stops the scan, the lines up
to it, and the value of the last matching line among them. Map iterations pick keys
in an arbitrary order, so the properties proved about them hold for every
iteration order.

## Model

| member | source | states |
|---|---|---|
| Exec.RunCommand | detection/malscan-plugin-fsecure/utils/utils.go:9-32 | an exec error is returned unchanged with its output; after a successful exec an expired deadline gives `""` and `command <cmd> timed out`; otherwise the output comes back with a nil error |
| Exec.NilContextNeverTimesOut | detection/malscan-plugin-fsecure/utils/utils.go:13-17 | without a context the exec result is returned as is, so no timeout is ever reported |
| Exec.ExpiredStaysExpired | detection/malscan-plugin-fsecure/utils/utils.go:24-29 | under one deadline, a clean run after a timed-out one also reports `command <cmd> timed out` with no output |
| FSecure.ScanLines | detection/malscan-plugin-fsecure/main.go:126-138 | the loop leaves `Infected` = some line matched, and each engine label = that of the last line matching that engine |
| FSecure.ScanIsLastMatch | detection/malscan-plugin-fsecure/main.go:126-138 | the left fold of the loop equals the declarative "flagged iff some line matched, last match wins" state |
| FSecure.ScanStep | detection/malscan-plugin-fsecure/main.go:127-137 | one more line sets the FSE label if it is an FSE line, otherwise the Aquarius label if it is an Aquarius line, otherwise changes nothing |
| FSecure.ScanNext | detection/malscan-plugin-fsecure/main.go:126-138 | one more line is one more step of the loop's fold |
| FSecure.ParseFSecureOutput | detection/malscan-plugin-fsecure/main.go:107-141 | the record equals `Analysis`: the error record when `err` is set, otherwise the scanned verdict with `Error` "nil" |
| FSecure.ErrorWithholdsVerdict | detection/malscan-plugin-fsecure/main.go:107-122 | an error is reported as its text with `Infected` false and `Result` empty, while Engine, Database and Updated are still filled in |
| FSecure.InfectedIff | detection/malscan-plugin-fsecure/main.go:127-137 | infected exactly when some line holds "Infected:" together with "[FSE]" or "[Aquarius]" |
| FSecure.NoReportsNoLabels | detection/malscan-plugin-fsecure/main.go:126-138 | without a reporting line nothing is flagged and both labels stay empty |
| FSecure.EmptyVerdict | detection/malscan-plugin-fsecure/main.go:139 | with both labels empty the verdict text is `Aquarius: FSE:` |
| FSecure.CleanVerdict | detection/malscan-plugin-fsecure/main.go:124-141 | clean output gives `Infected` false, `Result` "Aquarius: FSE:" and `Error` "nil" |
| FSecure.VerdictUntrimmed | detection/malscan-plugin-fsecure/main.go:139 | the final TrimSpace leaves the text whole when the FSE label does not end in white space |
| FSecure.VerdictIsConcatenation | detection/malscan-plugin-fsecure/main.go:130-139 | since both labels are trimmed, `Result` is exactly `Aquarius:<a> FSE:<f>` |
| FSecure.BothTagsCountForFse | detection/malscan-plugin-fsecure/main.go:127-132 | a line carrying both tags sets the FSE label only, because of the `continue` |
| FSecure.LastFseLineWins | detection/malscan-plugin-fsecure/main.go:126-132 | of several FSE lines, the last one names the FSE detection |
| FSecure.VerdictLineLabel | detection/malscan-plugin-fsecure/main.go:129-130 | on a line `<file>Infected: <name> <tag>` the label read back is `<name>` |
| FSecure.AquariusVerdictLine | detection/malscan-plugin-fsecure/main.go:133-136 | an Aquarius verdict line reaches the Aquarius branch and yields its name |
| FSecure.TwoLineOutput | detection/malscan-plugin-fsecure/main.go:124 | two verdict lines joined by a newline split back into those two lines |
| FSecure.TwoVerdictLines | detection/malscan-plugin-fsecure/main.go:126-139 | an FSE line followed by an Aquarius line gives both labels |
| FSecure.FseThenAquarius | detection/malscan-plugin-fsecure/main.go:126-139 | an FSE line followed by an Aquarius line gives the combined verdict text |
| FSecure.TwoLineVerdict | detection/malscan-plugin-fsecure/main.go:107-141 | a two-line verdict output is parsed as infected with `Aquarius:<a> FSE:<f>` |
| FSecure.SampleVerdict | detection/malscan-plugin-fsecure/main.go:91-105 | the sample in the parser's comment gives `Aquarius:EICAR-Test-File (not a virus) FSE:EICAR_Test_File` |
| FSecure.ScanVersionLines | detection/malscan-plugin-fsecure/main.go:157-173 | the loop leaves the last version line's value up to the first two-field "Database version:" line, and that line's second field as the database |
| FSecure.ParseFSecureVersion | detection/malscan-plugin-fsecure/main.go:153-176 | version and database are the scanned values of the output's lines |
| FSecure.VersionAtStop | detection/malscan-plugin-fsecure/main.go:163-167 | when the scan breaks at a database line, the fields are the last version up to it and its second field |
| FSecure.VersionWithoutStop | detection/malscan-plugin-fsecure/main.go:157-175 | without a complete database line the version is the last version line's and the database is empty |
| FSecure.DatabaseLineIff | detection/malscan-plugin-fsecure/main.go:163-170 | a "Database version:" line is used exactly when it holds a single colon |
| FSecure.VersionStopsAtDatabase | detection/malscan-plugin-fsecure/main.go:163-167 | nothing after the first complete database line changes the version or the database |
| FSecure.GetFSecureVersion | detection/malscan-plugin-fsecure/main.go:145-151 | the version command runs without a context and its output is parsed whatever its error |
| FSecure.UpdatedDate | detection/malscan-plugin-fsecure/main.go:184-190 | an absent log gives "", a read failure also gives "", otherwise the contents |
| FSecure.ClearFound | detection/malscan-plugin-fsecure/main.go:78-83 | "exit status 3" becomes nil and every other error is kept |
| FSecure.AvScan | detection/malscan-plugin-fsecure/main.go:52-86 | one retry exactly when the first error is set and is not "exit status 3"; the last run is parsed with exit status 3 cleared, so `Error` is never "exit status 3"; both runs share one deadline, so a timed-out first run is retried and reports the timeout, not infected |
| FSecure.CapturedAppend | detection/malscan-plugin-fsecure/main.go:201-205 | echoing two batches of lines gives the two echoes concatenated |
| FSecure.EchoContains | detection/malscan-plugin-fsecure/main.go:203 | echoing a line adds "All done." exactly when the line holds it |
| FSecure.CapturedContains | detection/malscan-plugin-fsecure/main.go:196-221 | the captured text holds "All done." exactly when some echoed line does |
| FSecure.UpdateAV | detection/malscan-plugin-fsecure/main.go:192-231 | at most two launches; status 0 exactly when "All done." was echoed, 1 otherwise; the log gets today's date in every case |
| Sophos.ScanLines | detection/malscan-plugin-sophos/main.go:84-92 | the loop equals the left fold `Verdicts` of the lines |
| Sophos.VerdictsNext | detection/malscan-plugin-sophos/main.go:84-92 | one more line is one more step of the fold |
| Sophos.PanicPersists | detection/malscan-plugin-sophos/main.go:88-89 | once a detection line without a quote has panicked, no later line matters |
| Sophos.PanicsIff | detection/malscan-plugin-sophos/main.go:86-89 | the loop panics exactly when some detection line lacks a quote |
| Sophos.VerdictsAreLast | detection/malscan-plugin-sophos/main.go:84-92 | without a panic, infected iff some line announces a virus, with the name of the last such line |
| Sophos.ParseSophosOutput | detection/malscan-plugin-sophos/main.go:67-95 | the record equals `Analysis`: an error record for errors other than exit status 3, otherwise the scanned verdict |
| Sophos.ErrorWithholdsVerdict | detection/malscan-plugin-sophos/main.go:79-82 | an error other than exit status 3 is reported as its text, not infected, with an empty result |
| Sophos.FoundExitIsCompleted | detection/malscan-plugin-sophos/main.go:79-94 | exit status 3 is parsed exactly like a clean exit, and `Error` reads "nil" |
| Sophos.TimeoutWithholdsVerdict | detection/malscan-plugin-sophos/main.go:79-82 | a timed-out scan carries the timeout message and no verdict |
| Sophos.CompletedIsScan | detection/malscan-plugin-sophos/main.go:84-94 | a completed scan panics when the loop does, and otherwise carries the loop's verdict and "nil" |
| Sophos.CompletedScanPanics | detection/malscan-plugin-sophos/main.go:86-89 | a completed scan panics exactly when some line has ">>> Virus" and "found in file" but no quote |
| Sophos.CompletedScanVerdict | detection/malscan-plugin-sophos/main.go:84-92 | otherwise infected exactly when some line announces a virus, and the result is the quoted name on the last such line |
| Sophos.AvScan | detection/malscan-plugin-sophos/main.go:45-64 | one retry exactly when the first error is set and is not "exit status 3"; the last run's error is passed on unchanged; both runs share one deadline, so a timed-out first run is retried and reports the timeout, not infected |
| Sophos.ScanVersionLines | detection/malscan-plugin-sophos/main.go:110-126 | the loop leaves the last one-colon "Product version" value up to the first one-colon "Virus data version" line, and that line's value as the database |
| Sophos.ParseSophosVersion | detection/malscan-plugin-sophos/main.go:108-129 | version and database are the scanned values of the output's lines |
| Sophos.VersionAtStop | detection/malscan-plugin-sophos/main.go:118-123 | when the scan stops at a data line, the fields are the last product value up to it and its value |
| Sophos.VersionWithoutStop | detection/malscan-plugin-sophos/main.go:110-126 | without a data line the version is the last product value and the database is empty |
| Sophos.GetSophosVersion | detection/malscan-plugin-sophos/main.go:98-106 | a failed version command is parsed as the text "version error" |
| Sophos.VersionErrorIsEmpty | detection/malscan-plugin-sophos/main.go:100-105 | the fallback text "version error" leaves both fields empty |
| Sophos.OneLineScan | detection/malscan-plugin-sophos/main.go:110-126 | a single line holding neither key leaves both fields empty |
| Sophos.UpdatedDate | detection/malscan-plugin-sophos/main.go:140-150 | "" when the log is absent, "updated error" when it cannot be read, its contents otherwise |
| Sophos.UpdateStatus | detection/malscan-plugin-sophos/main.go:154-173 | status 0 exactly when the command succeeded and its output holds "SOPHOS source", 1 otherwise |
| Sophos.UpdateAV | detection/malscan-plugin-sophos/main.go:152-174 | a failed command prints 1 and leaves the log alone; otherwise the status follows the marker and the log gets today's date |
| ClamAV.ScanSummary | detection/malscan-plugin-clamav/main.go:87-99 | the loop over the lines after the first equals the left fold `Summaries` |
| ClamAV.SummariesNext | detection/malscan-plugin-clamav/main.go:87-99 | one more line is one more step of the fold |
| ClamAV.PanicPersists | detection/malscan-plugin-clamav/main.go:90-93 | once a line without a colon has panicked, no later line matters |
| ClamAV.SummaryPanicsIff | detection/malscan-plugin-clamav/main.go:88-93 | the loop panics exactly when some line it selects (a "Known viruses" or "Engine version" line) lacks a colon |
| ClamAV.SummariesAreLast | detection/malscan-plugin-clamav/main.go:87-99 | without a panic, Known and Engine are the values of the last "Known viruses" and "Engine version" lines |
| ClamAV.ParseClamAvOutput | detection/malscan-plugin-clamav/main.go:61-102 | the record equals `Analysis`: an error record for errors other than exit status 1, otherwise the first-line verdict and the summary |
| ClamAV.ErrorWithholdsVerdict | detection/malscan-plugin-clamav/main.go:63-72 | an error other than exit status 1 is reported as its text, with no verdict, engine or known count |
| ClamAV.FoundExitIsCompleted | detection/malscan-plugin-clamav/main.go:69-85 | exit status 1 is parsed exactly like a clean exit, and `Error` reads "nil" |
| ClamAV.TimeoutWithholdsVerdict | detection/malscan-plugin-clamav/main.go:63-72 | a timed-out scan carries the timeout message and no verdict |
| ClamAV.CompletedVerdict | detection/malscan-plugin-clamav/main.go:76-84 | a non-empty first line without a colon panics; otherwise infected exactly when the first line is non-empty and its status after the first colon lacks "OK"; a clean verdict has an empty result |
| ClamAV.CompletedSummary | detection/malscan-plugin-clamav/main.go:87-99 | after a good first line, the record panics exactly when the summary loop does, and otherwise carries its Known and Engine |
| ClamAV.FoundStatus | detection/malscan-plugin-clamav/main.go:83 | `TrimRight` with the cutset "FOUND" strips the trailing marker and leaves the name |
| ClamAV.FoundLine | detection/malscan-plugin-clamav/main.go:76-84 | a line `<path>: <name> FOUND` is infected with result `<name>` |
| ClamAV.EicarLine | detection/malscan-plugin-clamav/main.go:83 | `f: Eicar-Signature FOUND` gives infected with "Eicar-Signature" |
| ClamAV.AvScan | detection/malscan-plugin-clamav/main.go:46-58 | a single run, parsed whatever its outcome |
| ClamAV.UpdatedDate | detection/malscan-plugin-clamav/main.go:125-138 | "" when the log is absent, "updated error" when it cannot be read, its contents otherwise |
| ClamAV.UpdateStatus | detection/malscan-plugin-clamav/main.go:105-121 | status 0 exactly when the command succeeded and its output holds "Database updated" or "daily.cld is up to date" |
| ClamAV.UpdateAV | detection/malscan-plugin-clamav/main.go:105-122 | a failed command prints 1 and leaves the log alone; otherwise the status follows the markers and the log gets today's date |
| Comodo.ComodoVersion | detection/malscan-plugin-comodo/main.go:134-142 | without a `<ProductVersion>` line the version is "version error" |
| Comodo.GetComodoVersion | detection/malscan-plugin-comodo/main.go:129-143 | the scan returns the tag value of the first line holding `<ProductVersion>`, or "version error" |
| Comodo.FirstVersionLineWins | detection/malscan-plugin-comodo/main.go:135-140 | the first version line decides, whatever follows it |
| Comodo.VersionElement | detection/malscan-plugin-comodo/main.go:137-138 | an indented `<ProductVersion>v</ProductVersion>` line gives `v` |
| Comodo.ExtractVirusName | detection/malscan-plugin-comodo/main.go:92-95 | it panics exactly when the line has no "is"; otherwise the name is the trimmed text between the first "is" and the next one (or the end of the line) |
| Comodo.VirusNameBetween | detection/malscan-plugin-comodo/main.go:92-95 | the name is the trimmed text between the first and the second "is" of the line (or its end), and the parse panics exactly when the line has no "is" |
| Comodo.ParseComodoOutput | detection/malscan-plugin-comodo/main.go:63-89 | any error gives the record with that text, not infected and an empty result; every returned record carries the `COMODO.xml` version and an empty `Updated`; a clean record has an empty result; an infected one comes from a clean exit whose second line holds "Found Virus", with the name `extractVirusName` reads from it |
| Comodo.ErrorWithholdsVerdict | detection/malscan-plugin-comodo/main.go:65-74 | any error, exit status or not, is reported as its text with no verdict |
| Comodo.CompletedScan | detection/malscan-plugin-comodo/main.go:76-88 | without a second line the parse panics; otherwise it panics exactly when that line contains "Found Virus" but no "is", and else is infected exactly when that line contains "Found Virus", with `Error` "nil" and `Updated` empty |
| Comodo.AvScan | detection/malscan-plugin-comodo/main.go:46-60 | a single run, parsed whatever its outcome |
| Comodo.TimeoutWithholdsVerdict | detection/malscan-plugin-comodo/main.go:51-74 | a timed-out scan is reported with the timeout message and not infected |
| Comodo.UpdatedDate | detection/malscan-plugin-comodo/main.go:145-155 | "nil" when the log is absent, "updated error" when it cannot be read, its contents otherwise |
| Comodo.Printed | detection/malscan-plugin-comodo/main.go:99-126 | 0 is printed exactly after a complete download; nothing is printed exactly when only the save failed |
| Comodo.Returned | detection/malscan-plugin-comodo/main.go:99-126 | an error is returned exactly when the request or the save failed; a non-OK response returns nil |
| Comodo.UpdateAV | detection/malscan-plugin-comodo/main.go:97-127 | prints and returns as above, and writes today's date only after a complete download |
| Floss.KeepNonBlank | enrichment/malscan-plugin-floss/main.go:73-79 | the loop leaves exactly `KeepLines` of the lines |
| Floss.KeepAppend | enrichment/malscan-plugin-floss/main.go:73-79 | the lines kept from a concatenation are the two parts' kept lines, in order |
| Floss.KeptLines | enrichment/malscan-plugin-floss/main.go:73-79 | every kept line is non-empty and trimmed, and every non-blank line is kept trimmed |
| Floss.NothingKeptIff | enrichment/malscan-plugin-floss/main.go:73-79 | nothing is kept exactly when every line is blank |
| Floss.GetStrings | enrichment/malscan-plugin-floss/main.go:93-102 | the result is the input filtered to the lines without "FLOSS", in order |
| Floss.ParseFlossOutput | enrichment/malscan-plugin-floss/main.go:62-91 | the record equals `FlossResults`: the de-duplicated non-banner lines, or no strings when nothing was kept; the error is "nil" |
| Floss.StringsOmittedIff | enrichment/malscan-plugin-floss/main.go:82-86 | Strings stays a nil slice exactly when every output line is blank |
| Floss.StringsKeyOmittedIff | enrichment/malscan-plugin-floss/main.go:30 | `omitempty` drops the `strings` key (nil or empty slice) exactly when every kept line mentions "FLOSS", given a de-duplication that empties only the empty list |
| Floss.ParseNeverFails | enrichment/malscan-plugin-floss/main.go:62-91 | the error is always "nil", and Strings is the de-duplicated filtered lines whenever it is set |
| Floss.ScanFile | enrichment/malscan-plugin-floss/main.go:45-60 | an expired deadline gives exactly `timeout`; otherwise an exec error gives the failure message with the path and no strings; otherwise the parse |
| Floss.FailureNamesPath | enrichment/malscan-plugin-floss/main.go:53-55 | the failure message starts with "cmd failed: " and ends with the path |
| Capa.ParseFlossOutput | enrichment/malscan-plugin-capa/main.go:58-72 | in any iteration order: the list is the entries `<rule> - <namespace>` of the matched rules, taken in some order that visits every rule exactly once (so two rules whose entries read the same appear twice), nothing else, nil when there is no rule, and an empty error |
| Capa.VisitNext | enrichment/malscan-plugin-capa/main.go:67-69 | appending the entry of a new key keeps the loop invariant |
| Capa.VisitedAll | enrichment/malscan-plugin-capa/main.go:67-69 | once every key is visited, every rule is listed and every entry is some rule's |
| Capa.ScanFile | enrichment/malscan-plugin-capa/main.go:41-56 | an expired deadline gives `timeout`; otherwise an exec error gives "cmd failed: /opt/capa" + path; otherwise the same projection as the parse, one entry per rule |
| Capa.UndecodableFailsOpen | enrichment/malscan-plugin-capa/main.go:60-65 | a report that does not decode gives no rules and an empty error, like a clean report |
| Capa.MissingNamespace | enrichment/malscan-plugin-capa/main.go:68 | a rule without meta or namespace is listed as `<rule> - ` |
| Capa.FailureNamesPath | enrichment/malscan-plugin-capa/main.go:49-51 | the failure message is "cmd failed: /opt/capa" followed directly by the path |
| Manalyze.ParseOutput | enrichment/malscan-plugin-manalyze/main.go:63-112 | an exec error is the only field set; otherwise the nine summary fields, every section name once, at most one import library, and `Error` "nil" |
| Manalyze.AppendSections | enrichment/malscan-plugin-manalyze/main.go:99-102 | in any iteration order, every section name once and nothing else, nil when there is none |
| Manalyze.KeepImports | enrichment/malscan-plugin-manalyze/main.go:104-109 | Imports ends as a one-entry map of some imported library, nil when there is none |
| Manalyze.ImportsDropLibraries | enrichment/malscan-plugin-manalyze/main.go:104-109 | with two or more libraries, Imports holds one and loses the others |
| Manalyze.MissingPathEmptyFields | enrichment/malscan-plugin-manalyze/main.go:89-97 | a report without the path, or one that did not decode, leaves every summary field empty |
| Manalyze.AvScan | enrichment/malscan-plugin-manalyze/main.go:48-60 | an exec error gives the error-only record; otherwise the nine summary fields, every section name once, one import library and `Error` "nil"; a clean run past its deadline yields only the timeout message |
| Yara.Scan | detection/malscan-plugin-yara/main.go:42-76 | a load or scan failure gives the clean-looking record; otherwise Matches is the scan's list, infected iff it is non-empty, result the first rule's name |
| Yara.FailureLooksClean | detection/malscan-plugin-yara/main.go:44-65 | a failure cannot be told apart from a clean scan with no match |
| Yara.FirstMatchNames | detection/malscan-plugin-yara/main.go:69-72 | only the first match decides the result; later matches never change it |
| UpdateLog.UpdatedLog.Write | detection/malscan-plugin-sophos/main.go:168-169 | writing replaces the whole log with the date |

## Left out

- Process execution, the context timers and the `fsavd` daemon launch are not modelled. A run is a value `Run(output, err)`, and a context is `NilContext` or `Deadline(exceeded)`.
- `RunCommand` is shown only for F-Secure (`utils/utils.go`). The Sophos, ClamAV, Comodo and Manalyze plugins are modelled with the same behaviour. Their own `utils` packages are not part of this model.
- The goroutine that drains stdout in F-Secure `updateAV` runs concurrently with `Wait`. It is modelled as the lines each launch printed, echoed in order and in full.
- Comodo's HTTP download is a `Download` value: a failed request, or a response with its OK flag and the outcome of saving it.
- Reading `updated.log` is a `LogFile` value (absent, unreadable, or present with contents). Writing it is assumed to succeed. Reading `COMODO.xml` is a sequence of lines; a file that cannot be opened has no lines.
- JSON decoding is not modelled. capa takes `Option<Report>`, with `None` for text that does not decode. Manalyze takes the three decoded maps directly. Manalyze's section values are not read by the plugin, so only their keys are kept.
- `time.Now().Format` is replaced by a `today` parameter. `parseUpdatedDate` is unused and is not modelled.
- `utils.RemoveDuplicates` in FLOSS is not part of this model. It is the function parameter `dedupe`. Its result is taken to be a non-nil slice, so a parse that kept a line always sets `Strings`; nothing else is assumed about it, except by Floss.StringsKeyOmittedIff, which requires that it returns an empty list exactly for an empty input.
- The internals of go-yara's `LoadRules` and `ScanFile` are not modelled. They are the load error and a `ScanOutcome`.
- `main()`, the command-line flags, the `MALSCAN_TIMEOUT` override, logging and the JSON output envelope are not modelled.
- Map iteration in capa and Manalyze picks keys freely. The properties hold for every order, and no particular order is chosen.
- Floss.FailureNamesPath: the failure message in `scanFile` names `--minimum-length=6`, while the command it reports runs with `--minimum-length=8`. The model keeps both texts as the code has them.
- Go strings are byte strings; the model works on `seq<char>`, so output that is not valid UTF-8 is outside the model, and no property speaks about bytes that do not form characters.
- Capa.ParseFlossOutput: a JSON error is only logged. The model follows the code, which fails open, rather than a description of the plugin that would report the error.
