/** The project description poopip installs from (`PyProject`,
    `parse_pyproject` and `get_top_level`, poopip.py:188-248): the
    `[project]` table of `pyproject.toml`, already decoded, and the
    top-level module or package it names. */
module Project {
  import opened Base
  import opened Strings
  import opened Names
  import opened Files
  import opened Launchers

  /** The `[project]` table as TOML decoding leaves it: `name` and `version`
      when present, the `scripts` table (absent reads as empty), and the set
      of keys whose value is truthy. */
  datatype ProjectTable = ProjectTable(
    name: Option<string>, version: Option<string>, scripts: Scripts, truthy: set<string>)

  /** The record `parse_pyproject` returns. */
  datatype PyProject = PyProject(
    name: string,           // the display name, as written
    distinfoName: string,   // the normalised name, used for the dist-info directory
    moduleName: string,     // the normalised name in lower case
    version: string,
    location: Path,         // the project directory
    source: Path,           // the top-level module file or package directory
    scripts: Scripts)

  const ManifestName := "pyproject.toml"
  const DefaultVersion := "0.0.0"

  /** The keys whose sections poopip refuses to handle, in the order they are checked. */
  const UnsupportedKeys: seq<string> := ["gui-scripts", "entry-points", "dynamic"]

  /** The first of `keys` whose value is truthy. */
  function FirstUnsupported(truthy: set<string>, keys: seq<string>): (r: Option<string>)
    ensures r.None? <==> forall i :: 0 <= i < |keys| ==> keys[i] !in truthy
    ensures r.Some? ==> exists i :: (0 <= i < |keys| && keys[i] == r.value && r.value in truthy
                                     && forall j :: 0 <= j < i ==> keys[j] !in truthy)
    decreases |keys|
  {
    if keys == [] then None
    else if keys[0] in truthy then Some(keys[0])
    else
      var r := FirstUnsupported(truthy, keys[1..]);
      assert forall i :: 1 <= i < |keys| ==> keys[i] == keys[1..][i - 1];
      r
  }

  /** The places `get_top_level` tries, in order, each with whether a file
      (a module) or a directory (a package) is wanted there. */
  function TopLevelCandidates(location: Path, package: string): seq<(Path, bool)> {
    [ (location + [package + ".py"], true),
      (location + ["src", package + ".py"], true),
      (location + [package], false),
      (location + ["src", package], false) ]
  }

  predicate Fits(fs: FileSystem, candidate: (Path, bool)) {
    if candidate.1 then IsFile(fs, candidate.0) else IsDir(fs, candidate.0)
  }

  /** The first candidate that exists with the wanted kind. */
  function FirstFit(fs: FileSystem, candidates: seq<(Path, bool)>): (r: Option<Path>)
    ensures r.None? <==> forall i :: 0 <= i < |candidates| ==> !Fits(fs, candidates[i])
    ensures r.Some? ==> exists i :: (0 <= i < |candidates| && candidates[i].0 == r.value && Fits(fs, candidates[i])
                                     && forall j :: 0 <= j < i ==> !Fits(fs, candidates[j]))
    decreases |candidates|
  {
    if candidates == [] then None
    else if Fits(fs, candidates[0]) then Some(candidates[0].0)
    else
      var r := FirstFit(fs, candidates[1..]);
      assert forall i :: 1 <= i < |candidates| ==> candidates[i] == candidates[1..][i - 1];
      r
  }

  /** `get_top_level(location, package)`: a module `package.py` or a package
      directory `package`, directly in the project or under `src`, modules
      before packages and the project directory before `src`. */
  function GetTopLevel(fs: FileSystem, location: Path, package: string): (r: Result<Path>)
    ensures r.Err? <==> forall i :: 0 <= i < 4 ==> !Fits(fs, TopLevelCandidates(location, package)[i])
    ensures r.Err? ==> r.error == UnresolvableLayout(location)
    ensures r.Ok? ==>
      && (Parent(r.value) == location || Parent(r.value) == location + ["src"])
      && ((IsFile(fs, r.value) && Basename(r.value) == package + ".py")
          || (IsDir(fs, r.value) && Basename(r.value) == package))
    ensures r.Ok? && IsDir(fs, r.value) ==>
      !IsFile(fs, location + [package + ".py"]) && !IsFile(fs, location + ["src", package + ".py"])
  {
    var candidates := TopLevelCandidates(location, package);
    match FirstFit(fs, candidates)
    case None => Err(UnresolvableLayout(location))
    case Some(p) =>
      assert Parent(candidates[1].0) == location + ["src"];
      assert Parent(candidates[3].0) == location + ["src"];
      Ok(p)
  }

  /** `parse_pyproject(location)`: open the manifest, read `name` (required)
      and `version` (defaulting to 0.0.0), refuse unsupported sections, take
      `scripts`, normalise the name and find the top level. */
  function ParsePyProject(fs: FileSystem, location: Path, table: Option<ProjectTable>): Result<PyProject> {
    match ReadText(fs, location + [ManifestName])
    case Err(e) => Err(e)
    case Ok(_) =>
      if table.None? then Err(MissingKey("project"))
      else if table.value.name.None? then Err(MissingKey("name"))
      else
        var t := table.value;
        var name := t.name.value;
        var version := if t.version.Some? then t.version.value else DefaultVersion;
        match FirstUnsupported(t.truthy, UnsupportedKeys)
        case Some(key) => Err(UnsupportedSection(key))
        case None =>
          match NormalizeName(name)
          case Err(e) => Err(e)
          case Ok(distinfoName) =>
            var moduleName := Lower(distinfoName);
            match GetTopLevel(fs, location, moduleName)
            case Err(e) => Err(e)
            case Ok(source) => Ok(PyProject(name, distinfoName, moduleName, version, location, source, t.scripts))
  }

  /** Which projects parse, and what the record then holds. */
  lemma ParsePyProjectSucceeds(fs: FileSystem, location: Path, table: Option<ProjectTable>)
    ensures var r := ParsePyProject(fs, location, table);
      && (r.Ok? <==>
           && IsFile(fs, location + [ManifestName])
           && table.Some? && table.value.name.Some?
           && (forall i :: 0 <= i < |UnsupportedKeys| ==> UnsupportedKeys[i] !in table.value.truthy)
           && ValidName(table.value.name.value)
           && GetTopLevel(fs, location, Lower(Collapse(table.value.name.value))).Ok?)
      && (r.Ok? ==>
           && r.value.name == table.value.name.value
           && r.value.distinfoName == NormalizeName(r.value.name).value
           && r.value.moduleName == Lower(r.value.distinfoName)
           && r.value.version == (if table.value.version.Some? then table.value.version.value else "0.0.0")
           && r.value.location == location
           && r.value.source == GetTopLevel(fs, location, r.value.moduleName).value
           && r.value.scripts == table.value.scripts)
  {
  }

  /** The names of a parsed project: the dist-info name is the normalised
      display name and the module name its lower-case form. */
  lemma ParsedName(fs: FileSystem, location: Path, table: Option<ProjectTable>)
    requires ParsePyProject(fs, location, table).Ok?
    ensures var p := ParsePyProject(fs, location, table).value;
      NormalizeName(p.name) == Ok(p.distinfoName) && p.moduleName == Lower(p.distinfoName)
  {
  }

  /** The sections are refused in the order gui-scripts, entry-points, dynamic. */
  lemma ParsePyProjectUnsupported(fs: FileSystem, location: Path, t: ProjectTable)
    requires IsFile(fs, location + [ManifestName]) && t.name.Some?
    ensures "gui-scripts" in t.truthy ==>
      ParsePyProject(fs, location, Some(t)) == Err(UnsupportedSection("gui-scripts"))
    ensures "gui-scripts" !in t.truthy && "entry-points" in t.truthy ==>
      ParsePyProject(fs, location, Some(t)) == Err(UnsupportedSection("entry-points"))
    ensures "gui-scripts" !in t.truthy && "entry-points" !in t.truthy && "dynamic" in t.truthy ==>
      ParsePyProject(fs, location, Some(t)) == Err(UnsupportedSection("dynamic"))
  {
    assert UnsupportedKeys[1..][1..] == ["dynamic"];
  }

  /** The module name of a parsed project is a valid name in lower case
      whose only separator is `_`. */
  lemma ModuleNameShape(fs: FileSystem, location: Path, table: Option<ProjectTable>)
    requires ParsePyProject(fs, location, table).Ok?
    ensures var m := ParsePyProject(fs, location, table).value.moduleName;
      && ValidName(m)
      && '-' !in m && '.' !in m
      && forall i :: 0 <= i < |m| ==> !('A' <= m[i] <= 'Z')
  {
    var p := ParsePyProject(fs, location, table).value;
    ParsedName(fs, location, table);
    CollapseValid(p.name);
    CollapseOnlyUnderscores(p.name);
    LowerValid(p.distinfoName);
  }
}
