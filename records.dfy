/** The dist-info directory of an installed package: what `install_metadata`
    and `poopmark` write (poopip.py:314-316, 344-369), and how
    `uninstall_impl` (poopip.py:423-428) and `install_wheel`
    (poopip.py:302-309) read `entry_points.txt` and `top_level.txt` back. */
module Records {
  import opened Base
  import opened Strings
  import opened Names
  import opened Files
  import opened Launchers
  import opened Project
  import opened SiteIndex

  /** `site/{distinfo_name}-{version}.dist-info`. */
  function DistInfoPath(site: Path, distinfoName: string, version: string): Path {
    site + [distinfoName + "-" + version + ".dist-info"]
  }

  const InstallerFile := "INSTALLER"
  const MetadataFile := "METADATA"
  const TopLevelFile := "top_level.txt"
  const EntryPointsFile := "entry_points.txt"
  const ScriptsHeader := "[console_scripts]"
  const Separator := " = "

  /** The header lines METADATA is written with, each name with the text
      after its colon: `Name: {name}` leaves a blank before the name. */
  function MetadataFields(name: string, version: string): seq<(string, string)> {
    [("Metadata-Version", " 2.1"), ("Name", " " + name), ("Version", " " + version)]
  }

  /** The version the index reads back from the METADATA written for
      `version`: the header parser drops its leading blanks. */
  function RecordedVersion(version: string): string {
    HeaderValue(" " + version)
  }

  /** The recorded version is the version without its leading spaces and
      tabs: a version with none reads back unchanged. */
  lemma {:induction false} RecordedVersionStripped(version: string)
    ensures RecordedVersion(version) == HeaderValue(version)
    ensures version == [] || !IsBlank(version[0]) ==> RecordedVersion(version) == version
  {
    HeaderValueBlank(' ', version);
  }

  /** The version " " reads back empty, and " 1.0" as "1.0". */
  lemma {:induction false} RecordedVersionExamples()
    ensures RecordedVersion(" ") == ""
    ensures RecordedVersion(" 1.0") == "1.0"
  {
    RecordedVersionStripped(" ");
    HeaderValueBlank(' ', "");
    RecordedVersionStripped(" 1.0");
    HeaderValueBlank(' ', "1.0");
    RecordedVersionStripped("1.0");
  }

  /** Read back, METADATA gives the name as written and the recorded
      version; a valid name has no leading blank to lose. */
  lemma {:induction false} MetadataReadBack(name: string, version: string)
    requires ValidName(name)
    ensures Field(MetadataFields(name, version), "Name") == name
    ensures Field(MetadataFields(name, version), "Version") == RecordedVersion(version)
  {
    var h := MetadataFields(name, version);
    FieldSkip(h, "Name");
    FieldSkip(h, "Version");
    FieldSkip(h[1..], "Version");
    HeaderValueBlank(' ', name);
  }

  /** One `name = module:func` line of `entry_points.txt`. */
  function EntryLine(name: string, spec: string): string {
    name + Separator + spec
  }

  function EntryLines(scripts: Scripts): seq<string> {
    seq(|scripts|, i requires 0 <= i < |scripts| => EntryLine(scripts[i].0, scripts[i].1))
  }

  /** The text of `entry_points.txt`: the section header, then one line per script. */
  function EntryPointsText(scripts: Scripts): string {
    JoinLines([ScriptsHeader] + EntryLines(scripts))
  }

  /** `poopmark(dist_info)`: records poopip as the installer. It succeeds
      exactly in an existing directory where INSTALLER is not a directory,
      and then adds or replaces that one file, which reads back as
      `poopip` and a newline. */
  function Poopmark(fs: FileSystem, distInfo: Path, newMode: bv16): (r: Result<FileSystem>)
    ensures r.Ok? <==> IsDir(fs, distInfo) && !IsDir(fs, distInfo + [InstallerFile])
    ensures r.Ok? ==> ReadText(r.value, distInfo + [InstallerFile]) == Ok("poopip\n")
    ensures r.Ok? ==> r.value.Keys == fs.Keys + {distInfo + [InstallerFile]}
    ensures r.Ok? ==> forall q :: q in fs && q != distInfo + [InstallerFile] ==> r.value[q] == fs[q]
  {
    assert Parent(distInfo + [InstallerFile]) == distInfo;
    Write(fs, distInfo + [InstallerFile], Text("poopip\n"), newMode)
  }

  /** `install_metadata`: create the dist-info directory, then write
      INSTALLER, METADATA, top_level.txt and entry_points.txt, stopping at
      the first call that raises. */
  function InstallMetadataSpec(fs: FileSystem, site: Path, p: PyProject, newMode: bv16): Run {
    var d := DistInfoPath(site, p.distinfoName, p.version);
    match MakeDir(fs, d)
    case Err(e) => Run(fs, Some(e))
    case Ok(fs1) =>
      match Poopmark(fs1, d, newMode)
      case Err(e) => Run(fs1, Some(e))
      case Ok(fs2) =>
        match Write(fs2, d + [MetadataFile], Headers(MetadataFields(p.name, p.version)), newMode)
        case Err(e) => Run(fs2, Some(e))
        case Ok(fs3) =>
          match Write(fs3, d + [TopLevelFile], Text(p.moduleName + "\n"), newMode)
          case Err(e) => Run(fs3, Some(e))
          case Ok(fs4) =>
            match Write(fs4, d + [EntryPointsFile], Text(EntryPointsText(p.scripts)), newMode)
            case Err(e) => Run(fs4, Some(e))
            case Ok(fs5) => Run(fs5, None)
  }

  // Reading the records back.

  /** `[line.split(" = ", 1)[0] for line in f if " = " in line]`. Lines are
      taken without their terminator, which lies after any separator. */
  function ScriptNames(lines: seq<string>): seq<string> {
    if lines == [] then []
    else (if Contains(lines[0], Separator) then [SplitFirst(lines[0], Separator).0] else [])
         + ScriptNames(lines[1..])
  }

  /** `[line.strip() for line in f if line.strip()]`. */
  function TopLevelNames(lines: seq<string>): seq<string> {
    if lines == [] then []
    else (if Strip(lines[0]) != "" then [Strip(lines[0])] else []) + TopLevelNames(lines[1..])
  }

  function ScriptKeys(scripts: Scripts): seq<string> {
    seq(|scripts|, i requires 0 <= i < |scripts| => scripts[i].0)
  }

  /** `scripts[name] = spec` on a dict kept in insertion order: an existing
      key keeps its place and takes the new value, a new key goes last. */
  function Assign(scripts: Scripts, name: string, spec: string): (r: Scripts)
    ensures name in ScriptKeys(scripts) ==>
      (|r| == |scripts| && forall i :: 0 <= i < |r| ==> r[i] == if scripts[i].0 == name then (name, spec) else scripts[i])
    ensures name !in ScriptKeys(scripts) ==> r == scripts + [(name, spec)]
    ensures ScriptKeys(r) == if name in ScriptKeys(scripts) then ScriptKeys(scripts) else ScriptKeys(scripts) + [name]
  {
    if name in ScriptKeys(scripts) then
      seq(|scripts|, i requires 0 <= i < |scripts| => if scripts[i].0 == name then (name, spec) else scripts[i])
    else scripts + [(name, spec)]
  }

  /** One turn of the loop of `install_wheel` over `entry_points.txt`. */
  function HarvestLine(scripts: Scripts, line: string): Scripts {
    if Contains(line, Separator) then
      var (name, spec) := SplitFirst(line, Separator);
      Assign(scripts, Strip(name), Strip(spec))
    else scripts
  }

  /** The script table the loop of `install_wheel` ends with when it starts
      from `scripts` and reads `lines`. */
  function HarvestFrom(scripts: Scripts, lines: seq<string>): Scripts
    decreases |lines|
  {
    if lines == [] then scripts else HarvestFrom(HarvestLine(scripts, lines[0]), lines[1..])
  }

  /** `line` holds the separator and its part before it, stripped, is `name`. */
  predicate NamesScript(line: string, name: string) {
    Contains(line, Separator) && Strip(SplitFirst(line, Separator).0) == name
  }

  /** The script table `install_wheel` collects from the lines of
      `entry_points.txt`: its names are distinct, and each is named by some
      line that holds the separator. */
  function Harvest(lines: seq<string>): (r: Scripts)
    ensures DistinctNames(r)
    ensures forall name :: name in ScriptKeys(r) ==> exists j :: 0 <= j < |lines| && NamesScript(lines[j], name)
  {
    HarvestDistinct([], lines);
    HarvestSources([], lines);
    HarvestFrom([], lines)
  }

  /** Assigning a name adds no other name. */
  lemma AssignSources(scripts: Scripts, n: string, spec: string, name: string)
    requires name in ScriptKeys(Assign(scripts, n, spec))
    ensures name in ScriptKeys(scripts) || name == n
  {
  }

  /** One turn of the loop adds at most the name its line names. */
  lemma HarvestLineSources(scripts: Scripts, line: string, name: string)
    requires name in ScriptKeys(HarvestLine(scripts, line))
    ensures name in ScriptKeys(scripts) || NamesScript(line, name)
  {
    if Contains(line, Separator) {
      var parts := SplitFirst(line, Separator);
      assert HarvestLine(scripts, line) == Assign(scripts, Strip(parts.0), Strip(parts.1));
      AssignSources(scripts, Strip(parts.0), Strip(parts.1), name);
    }
  }

  /** Each name the loop ends with was there from the start or is named by one of the lines read. */
  lemma {:induction false} HarvestSources(scripts: Scripts, lines: seq<string>)
    ensures forall name :: name in ScriptKeys(HarvestFrom(scripts, lines)) ==>
      name in ScriptKeys(scripts) || exists j :: 0 <= j < |lines| && NamesScript(lines[j], name)
    decreases |lines|
  {
    if lines != [] {
      var next := HarvestLine(scripts, lines[0]);
      var rest := lines[1..];
      HarvestSources(next, rest);
      assert HarvestFrom(scripts, lines) == HarvestFrom(next, rest);
      assert forall j :: 0 <= j < |rest| ==> rest[j] == lines[j + 1];
      forall name | name in ScriptKeys(next)
        ensures name in ScriptKeys(scripts) || NamesScript(lines[0], name)
      {
        HarvestLineSources(scripts, lines[0], name);
      }
    }
  }

  /** A script name that an entry line splits back off exactly: it holds no
      separator, and it does not end in ` =` (which would let the separator
      start one character early). */
  predicate SplitsCleanly(name: string) {
    !Contains(name, Separator) && !EndsWith(name, " =")
  }

  /** A script table `install_metadata` can write so that it reads back. */
  predicate Writable(scripts: Scripts) {
    forall i :: 0 <= i < |scripts| ==> WritableEntry(scripts[i])
  }

  predicate WritableEntry(entry: (string, string)) {
    SplitsCleanly(entry.0) && NoLineBreak(entry.0) && NoLineBreak(entry.1)
  }

  /** No whitespace at either end, so that `strip` leaves the text alone. */
  predicate Bare(s: string) {
    s != [] ==> !IsSpace(s[0]) && !IsSpace(s[|s| - 1])
  }

  lemma NoSpaceNoSeparator(s: string)
    requires ' ' !in s
    ensures !Contains(s, Separator)
  {
    forall j | 0 <= j && j + |Separator| <= |s|
      ensures !OccursAt(s, Separator, j)
    {
      assert s[j] in s;
      assert s[j + 0] != Separator[0];
    }
  }

  /** An entry line splits at its own separator. */
  lemma EntryLineSplit(name: string, spec: string)
    requires SplitsCleanly(name)
    ensures Contains(EntryLine(name, spec), Separator)
    ensures SplitFirst(EntryLine(name, spec), Separator) == (name, spec)
  {
    var s := EntryLine(name, spec);
    var n := |name|;
    assert OccursAt(s, Separator, n);
    assert forall j :: !OccursAt(name, Separator, j);
    forall j | 0 <= j < n
      ensures !OccursAt(s, Separator, j)
    {
      if j + 3 <= n {
        assert s[..n] == name;
        assert OccursAt(s, Separator, j) ==> OccursAt(name, Separator, j);
      } else if j == n - 2 {
        assert s[n - 2] == name[n - 2] && s[n - 1] == name[n - 1];
        assert name[n - 2..] == [name[n - 2], name[n - 1]];
        assert s[j + 0] != Separator[0] || s[j + 1] != Separator[1];
      } else {
        assert s[j + 1] == ' ' != Separator[1];
      }
    }
    var r := SplitFirst(s, Separator);
    assert |r.0| == n;
    assert r.0 == s[..n] == name;
    assert r.1 == s[n + 3..] == spec;
  }

  lemma EntryLinesNoBreak(scripts: Scripts)
    requires Writable(scripts)
    ensures forall i :: 0 <= i < |[ScriptsHeader] + EntryLines(scripts)| ==> NoLineBreak(([ScriptsHeader] + EntryLines(scripts))[i])
  {
    var lines := [ScriptsHeader] + EntryLines(scripts);
    forall i | 0 <= i < |lines|
      ensures NoLineBreak(lines[i])
    {
      if i > 0 {
        var (k, v) := scripts[i - 1];
        assert lines[i] == k + Separator + v;
        assert forall j :: 0 <= j < |lines[i]| ==> lines[i][j] == if j < |k| then k[j] else if j < |k| + 3 then Separator[j - |k|] else v[j - |k| - 3];
      }
    }
  }

  /** The lines of `entry_points.txt` are the header and the entry lines. */
  lemma EntryPointsLines(scripts: Scripts)
    requires Writable(scripts)
    ensures Lines(EntryPointsText(scripts)) == [ScriptsHeader] + EntryLines(scripts)
  {
    EntryLinesNoBreak(scripts);
    LinesOfJoinLines([ScriptsHeader] + EntryLines(scripts));
  }

  lemma {:induction false} ScriptNamesOfEntries(scripts: Scripts)
    requires Writable(scripts)
    ensures ScriptNames(EntryLines(scripts)) == ScriptKeys(scripts)
    decreases |scripts|
  {
    if scripts != [] {
      var lines := EntryLines(scripts);
      assert lines[1..] == EntryLines(scripts[1..]);
      assert ScriptKeys(scripts) == [scripts[0].0] + ScriptKeys(scripts[1..]);
      EntryLineSplit(scripts[0].0, scripts[0].1);
      ScriptNamesOfEntries(scripts[1..]);
    }
  }

  /** Uninstalling reads back the names of exactly the scripts that were installed, in order. */
  lemma ScriptNamesRoundTrip(scripts: Scripts)
    requires Writable(scripts)
    ensures ScriptNames(Lines(EntryPointsText(scripts))) == ScriptKeys(scripts)
  {
    EntryPointsLines(scripts);
    var lines := [ScriptsHeader] + EntryLines(scripts);
    assert ' ' !in ScriptsHeader;
    NoSpaceNoSeparator(ScriptsHeader);
    assert lines[1..] == EntryLines(scripts);
    ScriptNamesOfEntries(scripts);
  }

  /** The top level read back from `top_level.txt` is the one module written. */
  lemma TopLevelRoundTrip(moduleName: string)
    requires moduleName != [] && NoLineBreak(moduleName)
    requires !IsSpace(moduleName[0]) && !IsSpace(moduleName[|moduleName| - 1])
    ensures TopLevelNames(Lines(moduleName + "\n")) == [moduleName]
  {
    assert JoinLines([moduleName]) == moduleName + "\n" + JoinLines([]);
    assert moduleName + "\n" + [] == moduleName + "\n";
    LinesOfJoinLines([moduleName]);
    StripNothing(moduleName);
    assert TopLevelNames([moduleName]) == [Strip(moduleName)] + TopLevelNames([]);
  }

  /** A module name of a parsed project reads back from `top_level.txt`. */
  lemma ModuleNameRoundTrip(fs: FileSystem, location: Path, table: Option<ProjectTable>)
    requires ParsePyProject(fs, location, table).Ok?
    ensures var m := ParsePyProject(fs, location, table).value.moduleName;
      TopLevelNames(Lines(m + "\n")) == [m]
  {
    var m := ParsePyProject(fs, location, table).value.moduleName;
    ModuleNameShape(fs, location, table);
    ValidNameRoundTrip(m);
  }

  /** A valid name reads back from a file holding it on one line. */
  lemma {:induction false} ValidNameRoundTrip(m: string)
    requires ValidName(m)
    ensures TopLevelNames(Lines(m + "\n")) == [m]
  {
    assert IsAlnum(m[0]) && IsAlnum(m[|m| - 1]);
    forall i | 0 <= i < |m|
      ensures !IsLineBreak(m[i])
    {
      assert IsNameChar(m[i]);
    }
    TopLevelRoundTrip(m);
  }

  /** Assigning keeps the keys of a dict distinct. */
  lemma AssignDistinct(scripts: Scripts, name: string, spec: string)
    requires DistinctNames(scripts)
    ensures DistinctNames(Assign(scripts, name, spec))
  {
    var r := Assign(scripts, name, spec);
    assert forall i :: 0 <= i < |scripts| ==> scripts[i].0 == ScriptKeys(scripts)[i];
    assert forall i :: 0 <= i < |r| ==> r[i].0 == ScriptKeys(r)[i];
  }

  /** The keys of a collected table are distinct, as the keys of a dict are. */
  lemma {:induction false} HarvestDistinct(scripts: Scripts, lines: seq<string>)
    requires DistinctNames(scripts)
    ensures DistinctNames(HarvestFrom(scripts, lines))
    decreases |lines|
  {
    if lines != [] {
      var line := lines[0];
      if Contains(line, Separator) {
        var (name, spec) := SplitFirst(line, Separator);
        AssignDistinct(scripts, Strip(name), Strip(spec));
      }
      HarvestDistinct(HarvestLine(scripts, line), lines[1..]);
    }
  }

  /** An entry line of a new script appends it to the table. */
  lemma HarvestNewEntry(scripts: Scripts, name: string, spec: string)
    requires SplitsCleanly(name) && Bare(name) && Bare(spec)
    requires name !in ScriptKeys(scripts)
    ensures HarvestLine(scripts, EntryLine(name, spec)) == scripts + [(name, spec)]
  {
    EntryLineSplit(name, spec);
    StripNothing(name);
    StripNothing(spec);
  }

  predicate Stripped(scripts: Scripts) {
    forall i :: 0 <= i < |scripts| ==> Bare(scripts[i].0) && Bare(scripts[i].1)
  }

  /** `more` can be appended to `scripts` one entry line at a time: each
      script in turn is writable, bare and new to the table so far. */
  predicate Appendable(scripts: Scripts, more: Scripts)
    decreases |more|
  {
    more != [] ==>
      && WritableEntry(more[0]) && Bare(more[0].0) && Bare(more[0].1)
      && more[0].0 !in ScriptKeys(scripts)
      && Appendable(scripts + [more[0]], more[1..])
  }

  /** A writable, stripped table with distinct names is appendable to a table holding none of its names. */
  lemma {:induction false} TableAppendable(scripts: Scripts, more: Scripts)
    requires Writable(more) && DistinctNames(more) && Stripped(more)
    requires forall i :: 0 <= i < |more| ==> more[i].0 !in ScriptKeys(scripts)
    ensures Appendable(scripts, more)
    decreases |more|
  {
    if more != [] {
      var next := scripts + [more[0]];
      var rest := more[1..];
      assert forall i :: 0 <= i < |rest| ==> rest[i] == more[i + 1];
      assert ScriptKeys(next) == ScriptKeys(scripts) + [more[0].0];
      forall i | 0 <= i < |rest|
        ensures rest[i].0 !in ScriptKeys(next)
      {
        assert more[i + 1].0 != more[0].0;
      }
      assert Writable(rest) && DistinctNames(rest) && Stripped(rest);
      TableAppendable(next, rest);
    }
  }

  lemma AppendFirst<T>(a: seq<T>, b: seq<T>)
    requires |b| > 0
    ensures a + [b[0]] + b[1..] == a + b
  {
    assert b == [b[0]] + b[1..];
  }

  /** One step of the loop over entry lines: a first line that appends its
      script, followed by lines that append the rest, appends them all. */
  lemma HarvestEntriesStep(scripts: Scripts, more: Scripts)
    requires |more| > 0
    requires HarvestLine(scripts, EntryLine(more[0].0, more[0].1)) == scripts + [more[0]]
    requires HarvestFrom(scripts + [more[0]], EntryLines(more[1..])) == scripts + more
    ensures HarvestFrom(scripts, EntryLines(more)) == scripts + more
  {
    EntryLinesCons(more);
    HarvestFromCons(scripts, EntryLine(more[0].0, more[0].1), EntryLines(more[1..]));
  }

  /** The entry lines of a table: the first script's line, then the rest's. */
  lemma EntryLinesCons(more: Scripts)
    requires |more| > 0
    ensures EntryLines(more) == [EntryLine(more[0].0, more[0].1)] + EntryLines(more[1..])
  {
  }

  /** The loop over lines takes the first line, then the rest. */
  lemma HarvestFromCons(scripts: Scripts, line: string, rest: seq<string>)
    ensures HarvestFrom(scripts, [line] + rest) == HarvestFrom(HarvestLine(scripts, line), rest)
  {
    assert ([line] + rest)[1..] == rest;
  }

  /** Collecting entry lines of new scripts appends them in order. */
  lemma {:induction false} HarvestEntries(scripts: Scripts, more: Scripts)
    requires Appendable(scripts, more)
    ensures HarvestFrom(scripts, EntryLines(more)) == scripts + more
    decreases |more|
  {
    if more == [] {
      assert scripts + more == scripts;
    } else {
      HarvestNewEntry(scripts, more[0].0, more[0].1);
      HarvestEntries(scripts + [more[0]], more[1..]);
      AppendFirst(scripts, more);
      HarvestEntriesStep(scripts, more);
    }
  }

  /** The section header contributes no script. */
  lemma HarvestHeader()
    ensures HarvestLine([], ScriptsHeader) == []
  {
    assert ' ' !in ScriptsHeader;
    NoSpaceNoSeparator(ScriptsHeader);
  }

  /** Collecting the lines of an `entry_points.txt` that `install_metadata`
      wrote gives back the script table, provided its names and specs carry
      no surrounding whitespace (which the loop strips). */
  lemma HarvestRoundTrip(scripts: Scripts)
    requires Writable(scripts) && DistinctNames(scripts) && Stripped(scripts)
    ensures Harvest(Lines(EntryPointsText(scripts))) == scripts
  {
    EntryPointsLines(scripts);
    var lines := [ScriptsHeader] + EntryLines(scripts);
    assert lines[0] == ScriptsHeader && lines[1..] == EntryLines(scripts);
    HarvestHeader();
    TableAppendable([], scripts);
    HarvestEntries([], scripts);
    assert [] + scripts == scripts;
  }

  // What install_metadata leaves behind.

  /** The dist-info directory with its four files, all new and with mode `newMode`. */
  function WithRecords(fs: FileSystem, d: Path, p: PyProject, newMode: bv16): FileSystem {
    fs[d := Dir]
      [d + [InstallerFile] := File(Text("poopip\n"), newMode)]
      [d + [MetadataFile] := File(Headers(MetadataFields(p.name, p.version)), newMode)]
      [d + [TopLevelFile] := File(Text(p.moduleName + "\n"), newMode)]
      [d + [EntryPointsFile] := File(Text(EntryPointsText(p.scripts)), newMode)]
  }

  /** Records written into a new directory of an existing one keep the
      filesystem well formed. */
  lemma WithRecordsWF(fs: FileSystem, d: Path, p: PyProject, newMode: bv16)
    requires WF(fs) && d != [] && d !in fs && IsDir(fs, Parent(d))
    ensures WF(WithRecords(fs, d, p, newMode))
  {
    NewDirWF(fs, d, InstallerFile, MetadataFile, TopLevelFile, EntryPointsFile,
             Text("poopip\n"), Headers(MetadataFields(p.name, p.version)),
             Text(p.moduleName + "\n"), Text(EntryPointsText(p.scripts)), newMode);
  }

  /** Four different new files written into a directory just created. */
  lemma {:induction false} FreshChildren(fs: FileSystem, d: Path, a: string, b: string, c: string, e: string,
                                         ca: Content, cb: Content, cc: Content, ce: Content, mode: bv16)
    requires d != [] && d !in fs && IsDir(fs, Parent(d))
    requires d + [a] !in fs && d + [b] !in fs && d + [c] !in fs && d + [e] !in fs
    requires a != b && a != c && a != e && b != c && b != e && c != e
    ensures var fs1 := fs[d := Dir];
      && Write(fs1, d + [a], ca, mode) == Ok(fs1[d + [a] := File(ca, mode)])
      && var fs2 := fs1[d + [a] := File(ca, mode)];
      && Write(fs2, d + [b], cb, mode) == Ok(fs2[d + [b] := File(cb, mode)])
      && var fs3 := fs2[d + [b] := File(cb, mode)];
      && Write(fs3, d + [c], cc, mode) == Ok(fs3[d + [c] := File(cc, mode)])
      && var fs4 := fs3[d + [c] := File(cc, mode)];
      && Write(fs4, d + [e], ce, mode) == Ok(fs4[d + [e] := File(ce, mode)])
  {
    DistinctChildren(d, a, b);
    DistinctChildren(d, a, c);
    DistinctChildren(d, a, e);
    DistinctChildren(d, b, c);
    DistinctChildren(d, b, e);
    DistinctChildren(d, c, e);
    assert Parent(d + [a]) == d && Parent(d + [b]) == d && Parent(d + [c]) == d && Parent(d + [e]) == d;
    assert d + [a] != d && d + [b] != d && d + [c] != d && d + [e] != d;
    var fs1 := fs[d := Dir];
    WriteAbsent(fs1, d + [a], ca, mode);
    var fs2 := fs1[d + [a] := File(ca, mode)];
    WriteAbsent(fs2, d + [b], cb, mode);
    var fs3 := fs2[d + [b] := File(cb, mode)];
    WriteAbsent(fs3, d + [c], cc, mode);
    var fs4 := fs3[d + [c] := File(cc, mode)];
    WriteAbsent(fs4, d + [e], ce, mode);
  }

  /** `install_metadata` into a new dist-info directory writes its four records. */
  lemma InstallMetadataFresh(fs: FileSystem, site: Path, p: PyProject, newMode: bv16)
    requires var d := DistInfoPath(site, p.distinfoName, p.version);
      && d !in fs && IsDir(fs, site)
      && d + [InstallerFile] !in fs && d + [MetadataFile] !in fs
      && d + [TopLevelFile] !in fs && d + [EntryPointsFile] !in fs
    ensures var d := DistInfoPath(site, p.distinfoName, p.version);
      InstallMetadataSpec(fs, site, p, newMode) == Run(WithRecords(fs, d, p, newMode), None)
  {
    var d := DistInfoPath(site, p.distinfoName, p.version);
    assert Parent(d) == site;
    assert |InstallerFile| == 9 && |MetadataFile| == 8 && |TopLevelFile| == 13 && |EntryPointsFile| == 16;
    FreshChildren(fs, d, InstallerFile, MetadataFile, TopLevelFile, EntryPointsFile,
                  Text("poopip\n"), Headers(MetadataFields(p.name, p.version)),
                  Text(p.moduleName + "\n"), Text(EntryPointsText(p.scripts)), newMode);
  }

  /** On a well-formed filesystem `install_metadata` fails only when the
      dist-info directory cannot be created, and then changes nothing;
      otherwise it adds the directory and its four files and nothing else. */
  lemma InstallMetadataEffect(fs: FileSystem, site: Path, p: PyProject, newMode: bv16)
    requires WF(fs)
    ensures var d := DistInfoPath(site, p.distinfoName, p.version);
      var r := InstallMetadataSpec(fs, site, p, newMode);
      && (r.error.None? <==> d !in fs && IsDir(fs, site))
      && (r.error.Some? ==> r.fs == fs && (d in fs ==> r.error.value == OsError(d, FileExists)))
      && (r.error.None? ==> r.fs == WithRecords(fs, d, p, newMode))
  {
    var d := DistInfoPath(site, p.distinfoName, p.version);
    assert Parent(d) == site;
    if d !in fs && IsDir(fs, site) {
      NoChildOfAbsent(fs, d, InstallerFile);
      NoChildOfAbsent(fs, d, MetadataFile);
      NoChildOfAbsent(fs, d, TopLevelFile);
      NoChildOfAbsent(fs, d, EntryPointsFile);
      InstallMetadataFresh(fs, site, p, newMode);
    }
  }

  /** What the index makes of a dist-info directory holding these records. */
  function RecordsReading(p: PyProject, d: Path): Reading {
    if RecordedVersion(p.version) == "" then Unregistered
    else Registered(IndexKey(p.distinfoName), Entry(p.name, RecordedVersion(p.version), d))
  }

  /** A dist-info directory with these records is a candidate of the site;
      the index reads it as the project, under its lower-case normalised
      name, with its display name and recorded version, when that version
      is not empty, and passes over it otherwise. */
  lemma RecordsRead(fs: FileSystem, site: Path, p: PyProject, newMode: bv16)
    requires NormalizeName(p.name) == Ok(p.distinfoName)
    ensures var d := DistInfoPath(site, p.distinfoName, p.version);
      var fs' := WithRecords(fs, d, p, newMode);
      IsCandidate(fs', site, d) && Read(fs', d) == RecordsReading(p, d)
  {
    var d := DistInfoPath(site, p.distinfoName, p.version);
    var fs' := WithRecords(fs, d, p, newMode);
    var n := p.distinfoName + "-" + p.version + ".dist-info";
    assert EndsWith(n, ".dist-info") by {
      assert n[|n| - 10..] == ".dist-info";
    }
    assert d[..|site|] == site && d[|site|] == n;
    assert |MetadataFile| == 8 && |TopLevelFile| == 13 && |EntryPointsFile| == 16;
    DistinctChildren(d, MetadataFile, TopLevelFile);
    DistinctChildren(d, MetadataFile, EntryPointsFile);
    assert MetaPath(d) == d + [MetadataFile];
    assert fs'[MetaPath(d)] == File(Headers(MetadataFields(p.name, p.version)), newMode);
    MetadataReadBack(p.name, p.version);
  }

  /** The records read back as written: the index finds the project as
      RecordsRead says, and the module and entry-point records hold the
      text written. */
  lemma RecordsRegister(fs: FileSystem, site: Path, p: PyProject, newMode: bv16)
    requires NormalizeName(p.name) == Ok(p.distinfoName) && NoLineBreak(p.version)
    ensures var d := DistInfoPath(site, p.distinfoName, p.version);
      var fs' := WithRecords(fs, d, p, newMode);
      && IsCandidate(fs', site, d)
      && Read(fs', d) == RecordsReading(p, d)
      && ReadText(fs', d + [TopLevelFile]) == Ok(p.moduleName + "\n")
      && ReadText(fs', d + [EntryPointsFile]) == Ok(EntryPointsText(p.scripts))
  {
    var d := DistInfoPath(site, p.distinfoName, p.version);
    RecordsRead(fs, site, p, newMode);
    assert |TopLevelFile| == 13 && |EntryPointsFile| == 16;
    DistinctChildren(d, TopLevelFile, EntryPointsFile);
  }

  /** After `install_metadata` succeeds on a well-formed filesystem the index
      finds the project in the new dist-info directory. */
  lemma InstallMetadataRegisters(fs: FileSystem, site: Path, p: PyProject, newMode: bv16)
    requires WF(fs)
    requires InstallMetadataSpec(fs, site, p, newMode).error.None?
    requires NormalizeName(p.name) == Ok(p.distinfoName) && NoLineBreak(p.version)
    ensures var d := DistInfoPath(site, p.distinfoName, p.version);
      var fs' := InstallMetadataSpec(fs, site, p, newMode).fs;
      && IsCandidate(fs', site, d)
      && Read(fs', d) == RecordsReading(p, d)
      && ReadText(fs', d + [TopLevelFile]) == Ok(p.moduleName + "\n")
      && ReadText(fs', d + [EntryPointsFile]) == Ok(EntryPointsText(p.scripts))
  {
    InstallMetadataEffect(fs, site, p, newMode);
    RecordsRegister(fs, site, p, newMode);
  }
}
