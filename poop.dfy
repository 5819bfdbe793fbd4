/** The older installer of poop.py: `_get_top_level` (lines 125-145),
    `_install_impl` (42-64), `_install_scripts` (67-87), the `_IGNORE`
    filter (13) and the defaults of `_parse_pyproject` (90-93, 122). It
    places a project in the site directory under the name of its source,
    refuses to overwrite anything there, and writes the launchers into the
    interpreter's directory. */
module Poop {
  import opened Base
  import opened Strings
  import opened Files
  import opened Launchers
  import opened Project

  /** What `_parse_pyproject` returns: the version and the script table. */
  datatype Manifest = Manifest(version: string, scripts: Scripts)

  /** `_parse_pyproject(source_dir)`: without a `pyproject.toml` the version
      is 0.0.0 and there are no scripts. With one, `table` is the decoded
      `[project]` table (None when absent, on which `.get` raises), and its
      `version` (by default 0.0.0) and `scripts` are taken. */
  function ParseManifest(fs: FileSystem, sourceDir: Path, table: Option<ProjectTable>): (r: Result<Manifest>)
    ensures sourceDir + [ManifestName] !in fs ==> r == Ok(Manifest(DefaultVersion, []))
    ensures sourceDir + [ManifestName] in fs && r.Ok? ==>
      table.Some? && r.value.scripts == table.value.scripts
      && r.value.version == (if table.value.version.Some? then table.value.version.value else DefaultVersion)
  {
    var manifest := sourceDir + [ManifestName];
    if manifest !in fs then Ok(Manifest(DefaultVersion, []))
    else match ReadText(fs, manifest)
      case Err(e) => Err(e)
      case Ok(_) =>
        if table.None? then Err(MissingKey("project"))
        else
          var t := table.value;
          Ok(Manifest(if t.version.Some? then t.version.value else DefaultVersion, t.scripts))
  }

  /** `_get_top_level(source_dir)`: the module named after the directory,
      else the package named after it, else that package under `src`. */
  function GetTopLevelLegacy(fs: FileSystem, sourceDir: Path): (r: Result<Path>)
    ensures var name := Basename(sourceDir);
      var moduleFile := sourceDir + [name + ".py"];
      var package := sourceDir + [name];
      var nested := sourceDir + ["src", name];
      && (IsFile(fs, moduleFile) ==> r == Ok(moduleFile))
      && (!IsFile(fs, moduleFile) && IsDir(fs, package) ==> r == Ok(package))
      && (!IsFile(fs, moduleFile) && !IsDir(fs, package) && IsDir(fs, nested) ==> r == Ok(nested))
      && (!IsFile(fs, moduleFile) && !IsDir(fs, package) && !IsDir(fs, nested) ==>
            r == Err(UnresolvableLayout(sourceDir)))
    ensures r.Ok? ==> IsPrefix(sourceDir, r.value) && |r.value| > |sourceDir|
  {
    var name := Basename(sourceDir);
    if IsFile(fs, sourceDir + [name + ".py"]) then Ok(sourceDir + [name + ".py"])
    else if IsDir(fs, sourceDir + [name]) then Ok(sourceDir + [name])
    else if IsDir(fs, sourceDir + ["src", name]) then Ok(sourceDir + ["src", name])
    else Err(UnresolvableLayout(sourceDir))
  }

  /** Where `_install_impl` places the project: a `.pth` file named after the
      project directory when editable, otherwise the source's own name. */
  function Destination(site: Path, sourceDir: Path, source: Path, editable: bool): (target: Path)
    ensures Parent(target) == site
    ensures Basename(target) == if editable then Basename(sourceDir) + ".pth" else Basename(source)
  {
    if editable then site + [Basename(sourceDir) + ".pth"] else site + [Basename(source)]
  }

  /** The line of an editable placement: the directory holding the source. */
  function LegacyPthLine(source: Path): string {
    RenderPath(Parent(source)) + "\n"
  }

  /** Writing the placement once the target is known to be free. */
  function PlaceLegacy(fs: FileSystem, source: Path, target: Path, editable: bool, newMode: bv16): Result<FileSystem>
    requires |target| > 0
  {
    if editable then Write(fs, target, Text(LegacyPthLine(source)), newMode)
    else if IsFile(fs, source) then CopyFile(fs, source, target)
    else CopyTree(fs, source, target)
  }

  /** `_install_impl(source_dir, site, editable)`: read the manifest, find
      the source, refuse an occupied destination, place, and then write the
      launchers into `exe` (the interpreter's directory, which it does not
      create). */
  function InstallImplSpec(fs: FileSystem, site: Path, exe: Path, newMode: bv16,
                           sourceDir: Path, table: Option<ProjectTable>, editable: bool): Run
  {
    match ParseManifest(fs, sourceDir, table)
    case Err(e) => Run(fs, Some(e))
    case Ok(manifest) =>
      match GetTopLevelLegacy(fs, sourceDir)
      case Err(e) => Run(fs, Some(e))
      case Ok(source) =>
        var target := Destination(site, sourceDir, source, editable);
        if target in fs then Run(fs, Some(PlacementConflict(target)))
        else
          match PlaceLegacy(fs, source, target, editable, newMode)
          case Err(e) => Run(fs, Some(e))
          case Ok(fs1) => WriteLaunchers(fs1, exe, manifest.scripts, newMode)
  }

  /** The placement a successful run made, and what it holds. */
  predicate Placed(fs: FileSystem, fs': FileSystem, source: Path, target: Path, editable: bool) {
    if editable then IsFile(fs', target) && fs'[target].content == Text(LegacyPthLine(source))
    else if IsFile(fs, source) then target in fs' && fs'[target] == fs[source]
    else IsDir(fs', target)
  }

  /** The stage at which `_install_impl` stops, and what it leaves. An
      occupied destination and anything before the launchers leave the
      filesystem as it was. */
  lemma InstallImplStages(fs: FileSystem, site: Path, exe: Path, newMode: bv16,
                          sourceDir: Path, table: Option<ProjectTable>, editable: bool)
    requires ParseManifest(fs, sourceDir, table).Ok? && GetTopLevelLegacy(fs, sourceDir).Ok?
    ensures var source := GetTopLevelLegacy(fs, sourceDir).value;
      var target := Destination(site, sourceDir, source, editable);
      var r := InstallImplSpec(fs, site, exe, newMode, sourceDir, table, editable);
      && (target in fs ==> r == Run(fs, Some(PlacementConflict(target))))
      && (target !in fs && PlaceLegacy(fs, source, target, editable, newMode).Err? ==> r.fs == fs && r.error.Some?)
      && (target !in fs && PlaceLegacy(fs, source, target, editable, newMode).Ok? ==>
            r == WriteLaunchers(PlaceLegacy(fs, source, target, editable, newMode).value,
                                exe, ParseManifest(fs, sourceDir, table).value.scripts, newMode))
  {
  }

  /** The placement writes only at the free destination and below it, so
      everything that was there before keeps its node. */
  lemma PlaceLegacyKeeps(fs: FileSystem, source: Path, target: Path, editable: bool, newMode: bv16)
    requires WF(fs) && |target| > 0 && target !in fs
    requires PlaceLegacy(fs, source, target, editable, newMode).Ok?
    ensures var fs1 := PlaceLegacy(fs, source, target, editable, newMode).value;
      forall q :: q in fs ==> q in fs1 && fs1[q] == fs[q]
  {
    var fs1 := PlaceLegacy(fs, source, target, editable, newMode).value;
    if !editable && !IsFile(fs, source) {
      var copies := Copies(fs, source, target);
      forall q | q in fs
        ensures q in fs1 && fs1[q] == fs[q]
      {
        NothingBelowAbsent(fs, target, q);
        assert q !in copies;
      }
    } else if !editable {
      assert CopyTarget(fs, source, target) == target;
    }
  }

  /** A successful run overwrites nothing: every entry that was there before
      is still there with the same node, except the launchers it writes. */
  lemma InstallImplKeeps(fs: FileSystem, site: Path, exe: Path, newMode: bv16,
                         sourceDir: Path, table: Option<ProjectTable>, editable: bool)
    requires WF(fs)
    requires InstallImplSpec(fs, site, exe, newMode, sourceDir, table, editable).error.None?
    requires ParseManifest(fs, sourceDir, table).Ok?
    requires DistinctNames(ParseManifest(fs, sourceDir, table).value.scripts)
    ensures var scripts := ParseManifest(fs, sourceDir, table).value.scripts;
      var fs' := InstallImplSpec(fs, site, exe, newMode, sourceDir, table, editable).fs;
      forall q :: q in fs && !IsTarget(exe, scripts, q) ==> q in fs' && fs'[q] == fs[q]
  {
    var scripts := ParseManifest(fs, sourceDir, table).value.scripts;
    var source := GetTopLevelLegacy(fs, sourceDir).value;
    var target := Destination(site, sourceDir, source, editable);
    PlaceLegacyKeeps(fs, source, target, editable, newMode);
    var fs1 := PlaceLegacy(fs, source, target, editable, newMode).value;
    WriteLaunchersEffect(fs1, exe, scripts, newMode);
  }

  /** A free destination is placed whenever its directory exists: the `.pth`
      file or the copied module holds what it should, and a copied package
      becomes a directory. */
  lemma PlaceLegacyEffect(fs: FileSystem, source: Path, target: Path, editable: bool, newMode: bv16)
    requires |target| > 0 && target !in fs && IsDir(fs, Parent(target))
    requires !editable ==> IsFile(fs, source) || IsDir(fs, source)
    ensures PlaceLegacy(fs, source, target, editable, newMode).Ok?
    ensures Placed(fs, PlaceLegacy(fs, source, target, editable, newMode).value, source, target, editable)
  {
    if !editable && IsFile(fs, source) {
      assert CopyTarget(fs, source, target) == target;
    }
  }

  /** The `.pth` file holds exactly one line, the directory of the source. */
  lemma PthSingleLine(source: Path)
    requires forall i :: 0 <= i < |source| ==> NoLineBreak(source[i])
    ensures Lines(LegacyPthLine(source)) == [RenderPath(Parent(source))]
  {
    var line := RenderPath(Parent(source));
    RenderNoLineBreak(Parent(source));
    assert JoinLines([line]) == line + "\n" + JoinLines([]);
    assert line + "\n" + [] == LegacyPthLine(source);
    LinesOfJoinLines([line]);
  }

  lemma {:induction false} RenderNoLineBreak(p: Path)
    requires forall i :: 0 <= i < |p| ==> NoLineBreak(p[i])
    ensures NoLineBreak(RenderPath(p))
  {
    if p != [] {
      RenderComponentsNoLineBreak(p);
    }
  }

  lemma {:induction false} RenderComponentsNoLineBreak(p: Path)
    requires forall i :: 0 <= i < |p| ==> NoLineBreak(p[i])
    ensures NoLineBreak(RenderComponents(p))
    decreases |p|
  {
    if p != [] {
      RenderComponentsNoLineBreak(p[1..]);
      var head := "/" + p[0];
      assert NoLineBreak(head) by {
        assert forall j :: 1 <= j < |head| ==> head[j] == p[0][j - 1];
      }
      NoLineBreakConcat(head, RenderComponents(p[1..]));
    }
  }

  lemma NoLineBreakConcat(a: string, b: string)
    requires NoLineBreak(a) && NoLineBreak(b)
    ensures NoLineBreak(a + b)
  {
    assert forall j :: |a| <= j < |a + b| ==> (a + b)[j] == b[j - |a|];
  }

  /** A copied package keeps every entry that no skipped name leads to, with
      its content, and leaves out every entry under `tests` or a `test_*.py`. */
  lemma CopiedPackage(fs: FileSystem, site: Path, exe: Path, newMode: bv16,
                      sourceDir: Path, table: Option<ProjectTable>, rel: Path)
    requires WF(fs)
    requires ParseManifest(fs, sourceDir, table).Ok? && GetTopLevelLegacy(fs, sourceDir).Ok?
    requires var source := GetTopLevelLegacy(fs, sourceDir).value;
      && IsDir(fs, source) && |rel| > 0 && source + rel in fs
    requires var source := GetTopLevelLegacy(fs, sourceDir).value;
      Destination(site, sourceDir, source, false) !in fs
    ensures var source := GetTopLevelLegacy(fs, sourceDir).value;
      var target := Destination(site, sourceDir, source, false);
      var placed := PlaceLegacy(fs, source, target, false, newMode);
      placed.Ok? ==>
        && (Kept(rel) ==> target + rel in placed.value && placed.value[target + rel] == fs[source + rel])
        && (!Kept(rel) ==> target + rel !in placed.value)
  {
    var source := GetTopLevelLegacy(fs, sourceDir).value;
    var target := Destination(site, sourceDir, source, false);
    forall t | t in fs
      ensures !IsPrefix(target, t)
    {
      NothingBelowAbsent(fs, target, t);
    }
    if PlaceLegacy(fs, source, target, false, newMode).Ok? {
      CopyTreeFilter(fs, source, target, rel);
    }
  }

  /** After a successful run every script has its executable launcher in
      `exe`, the placement holds what it should, and nothing else changed. */
  lemma InstallImplLaunchers(fs: FileSystem, site: Path, exe: Path, newMode: bv16,
                             sourceDir: Path, table: Option<ProjectTable>, editable: bool)
    requires var r := InstallImplSpec(fs, site, exe, newMode, sourceDir, table, editable); r.error.None?
    requires ParseManifest(fs, sourceDir, table).Ok?
    requires DistinctNames(ParseManifest(fs, sourceDir, table).value.scripts)
    ensures var scripts := ParseManifest(fs, sourceDir, table).value.scripts;
      var fs' := InstallImplSpec(fs, site, exe, newMode, sourceDir, table, editable).fs;
      forall i :: 0 <= i < |scripts| ==> IsLauncherFor(fs', exe + [scripts[i].0], scripts[i].1)
  {
    var scripts := ParseManifest(fs, sourceDir, table).value.scripts;
    var source := GetTopLevelLegacy(fs, sourceDir).value;
    var target := Destination(site, sourceDir, source, editable);
    var fs1 := PlaceLegacy(fs, source, target, editable, newMode).value;
    WriteLaunchersEffect(fs1, exe, scripts, newMode);
  }

  /** One run of poop.py: the filesystem it works on. */
  class LegacyInstaller {
    var fs: FileSystem
    const site: Path
    const exe: Path
    const newMode: bv16

    constructor (fs0: FileSystem, site0: Path, exe0: Path, newMode0: bv16)
      ensures fs == fs0 && site == site0 && exe == exe0 && newMode == newMode0
    {
      fs := fs0;
      site := site0;
      exe := exe0;
      newMode := newMode0;
    }

    /** `_install_scripts`: one launcher per script, stopping at the first failure. */
    method InstallScripts(scripts: Scripts) returns (r: Option<Error>)
      modifies this`fs
      ensures Run(fs, r) == WriteLaunchers(old(fs), exe, scripts, newMode)
    {
      var i := 0;
      while i < |scripts|
        invariant 0 <= i <= |scripts|
        invariant WriteLaunchers(old(fs), exe, scripts, newMode) == WriteLaunchers(fs, exe, scripts[i..], newMode)
      {
        assert scripts[i..][0] == scripts[i] && scripts[i..][1..] == scripts[i + 1..];
        var (name, spec) := scripts[i];
        var parts := SplitSpec(spec);
        if parts.Err? {
          return Some(parts.error);
        }
        var script := exe + [name];
        assert Parent(script) == exe;
        ghost var before := fs;
        var written := Write(fs, script, Launcher(parts.value.0, parts.value.1), newMode);
        if written.Err? {
          return Some(written.error);
        }
        fs := written.value;
        fs := fs[script := File(fs[script].content, fs[script].mode | ExecBits)];
        assert fs == WriteLauncher(before, exe, name, spec, newMode).value;
        i := i + 1;
      }
      return None;
    }

    /** `_install_impl`. */
    method InstallImpl(sourceDir: Path, table: Option<ProjectTable>, editable: bool) returns (r: Option<Error>)
      modifies this`fs
      ensures Run(fs, r) == InstallImplSpec(old(fs), site, exe, newMode, sourceDir, table, editable)
    {
      var manifest := ParseManifest(fs, sourceDir, table);
      if manifest.Err? {
        return Some(manifest.error);
      }
      var source := GetTopLevelLegacy(fs, sourceDir);
      if source.Err? {
        return Some(source.error);
      }
      var target := Destination(site, sourceDir, source.value, editable);
      if target in fs {
        return Some(PlacementConflict(target));
      }
      var placed: Result<FileSystem>;
      if editable {
        placed := Write(fs, target, Text(LegacyPthLine(source.value)), newMode);
      } else if IsFile(fs, source.value) {
        placed := CopyFile(fs, source.value, target);
      } else {
        placed := CopyTree(fs, source.value, target);
      }
      if placed.Err? {
        return Some(placed.error);
      }
      fs := placed.value;
      r := InstallScripts(manifest.value.scripts);
    }
  }
}
