/** The Manalyze enrichment plugin (enrichment/malscan-plugin-manalyze/main.go).
    Manalyze prints one JSON report keyed by the scanned path; the plugin
    decodes it three times, as summary, sections and imports, and copies
    parts of each into its record. */
module Manalyze {
  import opened GoValues
  import opened Exec

  const ManalyzeBin := "/opt/Manalyze/bin/manalyze"
  const SummaryKey := "Summary"
  const SectionsKey := "Sections"
  const ImportsKey := "Imports"

  /** The report as `map[string]map[string]map[string]string`. */
  type SummaryReport = map<string, map<string, map<string, string>>>
  /** The report as `map[string]map[string]map[string]interface{}`; only the
      keys of the innermost objects are read, so only they are kept. */
  type SectionsReport = map<string, map<string, set<string>>>
  /** The report as `map[string]map[string]map[string][]string`. */
  type ImportsReport = map<string, map<string, map<string, seq<string>>>>

  /** The `analysis` record. `sections` and `imports` are None while the Go
      slice or map is nil; `error` is the text "nil" when there was none. */
  datatype ResultsData = ResultsData(
    architecture: string, compilationDate: string, detectedLanguages: string,
    fileVersion: string, internalName: string, originalFilename: string,
    productName: string, productVersion: string, subsystem: string,
    sections: Option<seq<string>>, imports: Option<map<string, seq<string>>>,
    error: string)

  /** `summary[path]["Summary"][key]`, "" when any level is missing (also
      when the report did not decode, which leaves the map nil). */
  function SummaryField(summary: SummaryReport, path: string, key: string): string
  {
    Get(Get(Get(summary, path, map[]), SummaryKey, map[]), key, "")
  }

  /** The keys of `sections[path]["Sections"]`. */
  function SectionNames(sections: SectionsReport, path: string): set<string>
  {
    Get(Get(sections, path, map[]), SectionsKey, {})
  }

  /** `imports[path]["Imports"]`: imported functions by library. */
  function ImportMap(imports: ImportsReport, path: string): map<string, seq<string>>
  {
    Get(Get(imports, path, map[]), ImportsKey, map[])
  }

  /** Sections lists every section name exactly once, in some order, and
      is nil when there is none. */
  predicate ListsSections(listed: Option<seq<string>>, names: set<string>)
  {
    var l := if listed.Some? then listed.value else [];
    (listed.None? <==> names == {}) &&
    |l| == |names| &&
    (forall name :: name in names ==> name in l) &&
    (forall i :: 0 <= i < |l| ==> l[i] in names)
  }

  /** Imports keeps a single library of the import map, with its functions
      (the one the last iteration visited), and is nil when there is none. */
  predicate KeepsOneImport(kept: Option<map<string, seq<string>>>, m: map<string, seq<string>>)
  {
    (kept.None? <==> |m| == 0) &&
    (kept.Some? ==> exists lib :: lib in m && kept.value == map[lib := m[lib]])
  }

  /** What a parse without an exec error yields: the nine summary fields
      copied from the report, every section name listed once, one import
      library kept, and the error text "nil". */
  predicate Parsed(r: ResultsData, summary: SummaryReport, sections: SectionsReport,
                   imports: ImportsReport, path: string)
  {
    r.error == "nil" &&
    r.architecture == SummaryField(summary, path, "Architecture") &&
    r.compilationDate == SummaryField(summary, path, "Compilation Date") &&
    r.detectedLanguages == SummaryField(summary, path, "Detected languages") &&
    r.fileVersion == SummaryField(summary, path, "FileVersion") &&
    r.internalName == SummaryField(summary, path, "InternalName") &&
    r.originalFilename == SummaryField(summary, path, "OriginalFilename") &&
    r.productName == SummaryField(summary, path, "ProductName") &&
    r.productVersion == SummaryField(summary, path, "ProductVersion") &&
    r.subsystem == SummaryField(summary, path, "Subsystem") &&
    ListsSections(r.sections, SectionNames(sections, path)) &&
    KeepsOneImport(r.imports, ImportMap(imports, path))
  }

  /** A record with every field empty but `error`. */
  function ErrorRecord(error: string): ResultsData
  {
    ResultsData("", "", "", "", "", "", "", "", "", None, None, error)
  }

  /** ParseOutput: an exec error is all the record carries; otherwise the
      nine summary fields are copied, the section names appended one by
      one, and Imports replaced by a one-entry map on every iteration. */
  method ParseOutput(err: Error, summary: SummaryReport, sections: SectionsReport,
                     imports: ImportsReport, path: string)
    returns (r: ResultsData)
    ensures err.Some? ==> r == ErrorRecord(err.value)
    ensures err.None? ==> Parsed(r, summary, sections, imports, path)
  {
    r := ErrorRecord("nil");
    if err.Some? {
      r := r.(error := err.value);
      return;
    }
    var s := Get(Get(summary, path, map[]), SummaryKey, map[]);
    r := r.(architecture := Get(s, "Architecture", ""));
    r := r.(compilationDate := Get(s, "Compilation Date", ""));
    r := r.(detectedLanguages := Get(s, "Detected languages", ""));
    r := r.(fileVersion := Get(s, "FileVersion", ""));
    r := r.(internalName := Get(s, "InternalName", ""));
    r := r.(originalFilename := Get(s, "OriginalFilename", ""));
    r := r.(productName := Get(s, "ProductName", ""));
    r := r.(productVersion := Get(s, "ProductVersion", ""));
    r := r.(subsystem := Get(s, "Subsystem", ""));
    var listed := AppendSections(SectionNames(sections, path));
    r := r.(sections := listed);
    var kept := KeepImports(ImportMap(imports, path));
    r := r.(imports := kept);
  }

  /** The sections loop: append each key, in the map's iteration order
      (any order: the key is picked freely). */
  method AppendSections(names: set<string>) returns (listed: Option<seq<string>>)
    ensures ListsSections(listed, names)
  {
    listed := None;
    var remaining := names;
    ghost var done: seq<string> := [];
    while remaining != {}
      invariant remaining <= names
      invariant listed.None? <==> done == []
      invariant listed.Some? ==> listed.value == done
      invariant |done| + |remaining| == |names|
      invariant forall i :: 0 <= i < |done| ==> done[i] in names && done[i] !in remaining
      invariant forall name :: name in names && name !in remaining ==> name in done
      decreases remaining
    {
      var k :| k in remaining;
      var l := if listed.Some? then listed.value else [];
      listed := Some(l + [k]);
      done := done + [k];
      remaining := remaining - {k};
    }
  }

  /** The imports loop: every iteration replaces Imports with a fresh map
      holding only the library it visits. */
  method KeepImports(m: map<string, seq<string>>) returns (kept: Option<map<string, seq<string>>>)
    ensures KeepsOneImport(kept, m)
  {
    kept := None;
    var remaining := m.Keys;
    while remaining != {}
      invariant remaining <= m.Keys
      invariant kept.None? <==> remaining == m.Keys
      invariant KeepsOneImport(kept, m) || kept.None?
      decreases remaining
    {
      var k :| k in remaining;
      kept := Some(map[k := m[k]]);
      remaining := remaining - {k};
    }
    if kept.None? {
      assert m.Keys == {};
      assert m == map[];
    }
  }

  /** AvScan: a single run; the decoded views of its output are parsed. */
  method AvScan(ctx: Context, run: Run, summary: SummaryReport, sections: SectionsReport,
                imports: ImportsReport, path: string)
    returns (r: ResultsData)
    ensures var ran := RunCommand(ctx, ManalyzeBin, run);
      ran.err.Some? ==> r == ErrorRecord(ran.err.value)
    ensures var ran := RunCommand(ctx, ManalyzeBin, run);
      ran.err.None? ==> Parsed(r, summary, sections, imports, path)
    ensures Expired(ctx) && run.err.None? ==> r == ErrorRecord(TimedOut(ManalyzeBin))
  {
    var err := RunCommand(ctx, ManalyzeBin, run).err;
    r := ParseOutput(err, summary, sections, imports, path);
  }

  // ---------------------------------------------------------------------
  // Properties

  /** A report that did not decode, or that has no entry for the path,
      leaves every summary field empty while the error stays "nil". */
  lemma MissingPathEmptyFields(summary: SummaryReport, path: string, key: string)
    requires path !in summary
    ensures SummaryField(summary, path, key) == ""
  {
  }

  /** With two or more imported libraries, all but one are lost. */
  lemma ImportsDropLibraries(kept: Option<map<string, seq<string>>>, m: map<string, seq<string>>)
    requires KeepsOneImport(kept, m) && |m| >= 2
    ensures kept.Some? && |kept.value| == 1
    ensures exists lib :: lib in m && lib !in kept.value
  {
    var only :| only in m && kept.value == map[only := m[only]];
    assert kept.value.Keys == {only};
    var rest := m.Keys - {only};
    assert |rest| >= 1;
    var lib :| lib in rest;
  }
}
