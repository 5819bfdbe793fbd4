/** The install and uninstall transactions of poopip.py: `install`
    (lines 41-66), `install_local` (255-282), `install_wheel` (285-311),
    `install_scripts` (385-407), `uninstall_local` (410-414) and
    `uninstall_impl` (417-452). Each is first given as a function from the
    filesystem and the `_SITE_INDEX` cache before the call to the outcome
    after it; the class `Installer` then carries out the same steps on its
    fields, loop by loop, and is proved to reach exactly that outcome. */
module Poopip {
  import opened Base
  import opened Strings
  import opened Names
  import opened Wheels
  import opened Files
  import opened Launchers
  import opened Project
  import opened SiteIndex
  import opened Records

  /** What the environment supplies: the site directory (`get_site_dir`),
      the directory launchers are written to (`get_bin_dir`), the directory
      `uninstall_impl` removes them from (`Path(sys.executable).parent`),
      and the permission bits a newly created file receives. */
  datatype Env = Env(site: Path, bin: Path, exe: Path, newMode: bv16)

  /** The filesystem and the `_SITE_INDEX` cache after a call, and what the
      call returned or raised. */
  datatype Outcome<T> = Outcome(fs: FileSystem, cache: Index, result: Result<T>)

  /** A run of filesystem calls seen as a call that returns nothing or raises. */
  function Status(run: Run): Result<()> {
    if run.error.Some? then Err(run.error.value) else Ok(())
  }

  // uninstall_impl

  /** The script names listed in `entry_points.txt`, none when it does not exist. */
  function ListedScripts(fs: FileSystem, distInfo: Path): Result<seq<string>> {
    var ep := distInfo + [EntryPointsFile];
    if ep !in fs then Ok([])
    else match ReadText(fs, ep)
      case Err(e) => Err(e)
      case Ok(text) => Ok(ScriptNames(Lines(text)))
  }

  /** The top-level names listed in `top_level.txt`, none when it does not exist. */
  function ListedTopLevel(fs: FileSystem, distInfo: Path): Result<seq<string>> {
    var tl := distInfo + [TopLevelFile];
    if tl !in fs then Ok([])
    else match ReadText(fs, tl)
      case Err(e) => Err(e)
      case Ok(text) => Ok(TopLevelNames(Lines(text)))
  }

  /** The loop `candidate.unlink(missing_ok=True)` over the scripts. */
  function UnlinkScripts(fs: FileSystem, dir: Path, names: seq<string>): Run
    decreases |names|
  {
    if names == [] then Run(fs, None)
    else match Unlink(fs, dir + [names[0]], true)
      case Err(e) => Run(fs, Some(e))
      case Ok(fs1) => UnlinkScripts(fs1, dir, names[1..])
  }

  /** The placements a top-level name may have left, in the order they are tried. */
  function PthFile(site: Path, top: string): Path { site + [top + ".pth"] }
  function ModuleFile(site: Path, top: string): Path { site + [top + ".py"] }
  function PackageDir(site: Path, top: string): Path { site + [top] }

  /** One turn of the loop over the top-level names: the `.pth` file if it
      exists, otherwise the module file, otherwise the package directory. */
  function RemoveTop(fs: FileSystem, site: Path, top: string): Result<FileSystem> {
    if PthFile(site, top) in fs then Unlink(fs, PthFile(site, top), false)
    else if ModuleFile(site, top) in fs then Unlink(fs, ModuleFile(site, top), false)
    else if PackageDir(site, top) in fs then RemoveTree(fs, PackageDir(site, top))
    else Ok(fs)
  }

  function RemoveTops(fs: FileSystem, site: Path, tops: seq<string>): Run
    decreases |tops|
  {
    if tops == [] then Run(fs, None)
    else match RemoveTop(fs, site, tops[0])
      case Err(e) => Run(fs, Some(e))
      case Ok(fs1) => RemoveTops(fs1, site, tops[1..])
  }

  /** `uninstall_impl(package, site)`: look the package up; when it is
      installed, read its scripts and top-level names, remove its dist-info
      directory, then its launchers, then its placements, and return True. */
  function UninstallImplSpec(fs: FileSystem, cache: Index, env: Env, listing: seq<Path>, package: string)
    : Outcome<bool>
  {
    var (cache1, found) := SiteIndex.FindInstalled(fs, cache, listing, package);
    match found
    case Err(e) => Outcome(fs, cache1, Err(e))
    case Ok(None) => Outcome(fs, cache1, Ok(false))
    case Ok(Some((_, distInfo))) =>
      match ListedScripts(fs, distInfo)
      case Err(e) => Outcome(fs, cache1, Err(e))
      case Ok(scripts) =>
        match ListedTopLevel(fs, distInfo)
        case Err(e) => Outcome(fs, cache1, Err(e))
        case Ok(tops) =>
          match RemoveTree(fs, distInfo)
          case Err(e) => Outcome(fs, cache1, Err(e))
          case Ok(fs1) =>
            var unlinked := UnlinkScripts(fs1, env.exe, scripts);
            if unlinked.error.Some? then Outcome(unlinked.fs, cache1, Err(unlinked.error.value))
            else
              var removed := RemoveTops(unlinked.fs, env.site, tops);
              Outcome(removed.fs, cache1, if removed.error.Some? then Err(removed.error.value) else Ok(true))
  }

  /** `uninstall_local`: a package that is not installed is an error. */
  function UninstallLocalSpec(fs: FileSystem, cache: Index, env: Env, listing: seq<Path>, package: string)
    : Outcome<()>
  {
    var u := UninstallImplSpec(fs, cache, env, listing, package);
    Outcome(u.fs, u.cache,
      match u.result
      case Err(e) => Err(e)
      case Ok(true) => Ok(())
      case Ok(false) => Err(NotInstalled(package)))
  }

  // install_scripts

  /** `install_scripts`: create the bin directory if needed, then one launcher per script. */
  function InstallScriptsSpec(fs: FileSystem, env: Env, scripts: Scripts): Run {
    match MakeDirExistOk(fs, env.bin)
    case Err(e) => Run(fs, Some(e))
    case Ok(fs1) => WriteLaunchers(fs1, env.bin, scripts, env.newMode)
  }

  // install_local

  /** The line an editable install writes to the `.pth` file: the directory holding the top level. */
  function PthLine(p: PyProject): string {
    RenderPath(Parent(p.source)) + "\n"
  }

  /** Placing the source in the site directory: a `.pth` file pointing at
      it when editable, otherwise a copy of the module file or of the
      package tree (without its tests). */
  function PlaceSpec(fs: FileSystem, env: Env, p: PyProject, editable: bool): Result<FileSystem> {
    if editable then Write(fs, PthFile(env.site, p.moduleName), Text(PthLine(p)), env.newMode)
    else if IsFile(fs, p.source) then CopyFile(fs, p.source, ModuleFile(env.site, p.moduleName))
    else CopyTree(fs, p.source, PackageDir(env.site, p.moduleName))
  }

  /** The part of `install_local` after any uninstall: place the source,
      write the launchers, then the records. */
  function PlaceAndRecordSpec(fs: FileSystem, cache: Index, env: Env, p: PyProject, editable: bool): Outcome<()> {
    match PlaceSpec(fs, env, p, editable)
    case Err(e) => Outcome(fs, cache, Err(e))
    case Ok(fs1) =>
      var scripts := InstallScriptsSpec(fs1, env, p.scripts);
      if scripts.error.Some? then Outcome(scripts.fs, cache, Err(scripts.error.value))
      else
        var records := InstallMetadataSpec(scripts.fs, env.site, p, env.newMode);
        Outcome(records.fs, cache, Status(records))
  }

  /** `install_local(location, editable)`: parse the project; the same
      version already installed is left alone, another version is
      uninstalled first; then place, write the launchers and the records.
      `table` is what TOML decoding makes of the manifest's `[project]`. */
  function InstallLocalSpec(fs: FileSystem, cache: Index, env: Env, listing: seq<Path>,
                            location: Path, table: Option<ProjectTable>, editable: bool): Outcome<()>
  {
    match ParsePyProject(fs, location, table)
    case Err(e) => Outcome(fs, cache, Err(e))
    case Ok(p) =>
      var (cache1, found) := SiteIndex.FindInstalled(fs, cache, listing, p.name);
      match found
      case Err(e) => Outcome(fs, cache1, Err(e))
      case Ok(None) => PlaceAndRecordSpec(fs, cache1, env, p, editable)
      case Ok(Some((version, _))) =>
        if version == p.version then Outcome(fs, cache1, Ok(()))
        else
          var u := UninstallImplSpec(fs, cache1, env, listing, p.name);
          if u.result.Err? then Outcome(u.fs, u.cache, Err(u.result.error))
          else PlaceAndRecordSpec(u.fs, u.cache, env, p, editable)
  }

  // install_wheel

  /** The script table `install_wheel` collects from `entry_points.txt`, empty when there is none. */
  function WheelScripts(fs: FileSystem, distInfo: Path): Result<Scripts> {
    var ep := distInfo + [EntryPointsFile];
    if ep !in fs then Ok([])
    else match ReadText(fs, ep)
      case Err(e) => Err(e)
      case Ok(text) => Ok(Harvest(Lines(text)))
  }

  /** The part of `install_wheel` after any uninstall: open the archive and
      extract it into the site directory, mark the dist-info directory,
      collect the scripts and write their launchers. `archive` is what the
      wheel holds, keyed by the path inside it. */
  function UnpackWheelSpec(fs: FileSystem, cache: Index, env: Env, location: Path, archive: map<Path, Node>,
                       name: string, version: string): Outcome<()>
  {
    if !IsFile(fs, location) then
      Outcome(fs, cache, Err(OsError(location, if location in fs then IsADirectory else MissingKind(fs, location))))
    else
      var fs1 := Extract(fs, env.site, archive);
      var distInfo := DistInfoPath(env.site, name, version);
      match Poopmark(fs1, distInfo, env.newMode)
      case Err(e) => Outcome(fs1, cache, Err(e))
      case Ok(fs2) =>
        match WheelScripts(fs2, distInfo)
        case Err(e) => Outcome(fs2, cache, Err(e))
        case Ok(scripts) =>
          var written := InstallScriptsSpec(fs2, env, scripts);
          Outcome(written.fs, cache, Status(written))
  }

  /** `install_wheel` as written: `find_installed` returns a pair (version,
      dist-info directory), which line 291 compares with the version string,
      so the comparison never holds and an installed package is always
      uninstalled first, whatever its version. */
  function InstallWheelAsWritten(fs: FileSystem, cache: Index, env: Env, listing: seq<Path>,
                                 location: Path, archive: map<Path, Node>): (r: Outcome<()>)
    ensures ParseWheelName(Basename(location)).Err? ==> r.fs == fs && r.result.Err?
    ensures ParseWheelName(Basename(location)).Ok? &&
            SiteIndex.FindInstalled(fs, cache, listing, ParseWheelName(Basename(location)).value.0).1.Err? ==>
              r.fs == fs && r.result.Err?
  {
    match ParseWheelName(Basename(location))
    case Err(e) => Outcome(fs, cache, Err(e))
    case Ok((name, version)) =>
      var (cache1, found) := SiteIndex.FindInstalled(fs, cache, listing, name);
      match found
      case Err(e) => Outcome(fs, cache1, Err(e))
      case Ok(None) => UnpackWheelSpec(fs, cache1, env, location, archive, name, version)
      case Ok(Some(_)) =>
        var u := UninstallImplSpec(fs, cache1, env, listing, name);
        if u.result.Err? then Outcome(u.fs, u.cache, Err(u.result.error))
        else UnpackWheelSpec(u.fs, u.cache, env, location, archive, name, version)
  }

  /** `install_wheel` as evidently intended: like `install_local`, the same
      version already installed is left alone. */
  function InstallWheelSpec(fs: FileSystem, cache: Index, env: Env, listing: seq<Path>,
                            location: Path, archive: map<Path, Node>): Outcome<()>
  {
    match ParseWheelName(Basename(location))
    case Err(e) => Outcome(fs, cache, Err(e))
    case Ok((name, version)) =>
      var (cache1, found) := SiteIndex.FindInstalled(fs, cache, listing, name);
      match found
      case Err(e) => Outcome(fs, cache1, Err(e))
      case Ok(None) => UnpackWheelSpec(fs, cache1, env, location, archive, name, version)
      case Ok(Some((installed, _))) =>
        if installed == version then Outcome(fs, cache1, Ok(()))
        else
          var u := UninstallImplSpec(fs, cache1, env, listing, name);
          if u.result.Err? then Outcome(u.fs, u.cache, Err(u.result.error))
          else UnpackWheelSpec(u.fs, u.cache, env, location, archive, name, version)
  }

  // install

  /** `install(package, editable)` for the resolved `location`: it must
      exist; a wheel is installed from its archive and never in editable
      mode; anything else is a project directory. */
  function InstallSpec(fs: FileSystem, cache: Index, env: Env, listing: seq<Path>, location: Path,
                       editable: bool, table: Option<ProjectTable>, archive: map<Path, Node>): Outcome<()>
  {
    if location !in fs then Outcome(fs, cache, Err(SourceNotFound(location)))
    else if EndsWith(Basename(location), ".whl") then
      if editable then Outcome(fs, cache, Err(EditableWheel(location)))
      else InstallWheelAsWritten(fs, cache, env, listing, location, archive)
    else InstallLocalSpec(fs, cache, env, listing, location, table, editable)
  }

  /** One run of poopip: the filesystem it works on and the `_SITE_INDEX`
      cache of the process, which starts empty. The glob order of the site
      directory is given to each call that may scan it. */
  class Installer {
    var fs: FileSystem
    var cache: Index
    const env: Env

    constructor (fs0: FileSystem, env0: Env)
      ensures fs == fs0 && cache == map[] && env == env0
    {
      fs := fs0;
      cache := map[];
      env := env0;
    }

    /** `package_index`: the cache when it holds anything, otherwise a scan
        that fills it candidate by candidate. */
    method PackageIndex(listing: seq<Path>) returns (r: Result<Index>)
      modifies this`cache
      ensures (cache, r) == SiteIndex.PackageIndex(fs, old(cache), listing)
    {
      if |cache| > 0 {
        return Ok(cache);
      }
      var i := 0;
      while i < |listing|
        invariant 0 <= i <= |listing|
        invariant Scan(fs, listing, map[]) == Scan(fs, listing[i..], cache)
      {
        assert listing[i..][0] == listing[i] && listing[i..][1..] == listing[i + 1..];
        var reading := Read(fs, listing[i]);
        if reading.Unreadable? {
          return Err(reading.error);
        }
        if reading.Registered? {
          cache := cache[reading.key := reading.entry];
        }
        i := i + 1;
      }
      return Ok(cache);
    }

    /** `find_installed`: the version and dist-info directory of `package`, if indexed. */
    method FindInstalled(package: string, listing: seq<Path>) returns (r: Result<Option<(string, Path)>>)
      modifies this`cache
      ensures (cache, r) == SiteIndex.FindInstalled(fs, old(cache), listing, package)
    {
      var normalized := NormalizeName(package);
      if normalized.Err? {
        return Err(normalized.error);
      }
      var key := IndexKey(normalized.value);
      var index := PackageIndex(listing);
      if index.Err? {
        return Err(index.error);
      }
      if key in index.value {
        return Ok(Some((index.value[key].version, index.value[key].distInfo)));
      }
      return Ok(None);
    }

    /** `uninstall_impl`. */
    method UninstallImpl(package: string, listing: seq<Path>) returns (r: Result<bool>)
      modifies this`fs, this`cache
      ensures Outcome(fs, cache, r) == UninstallImplSpec(old(fs), old(cache), env, listing, package)
    {
      var installed := FindInstalled(package, listing);
      if installed.Err? {
        return Err(installed.error);
      }
      if installed.value.None? {
        return Ok(false);
      }
      var distInfo := installed.value.value.1;
      var scripts := ListedScripts(fs, distInfo);
      if scripts.Err? {
        return Err(scripts.error);
      }
      var tops := ListedTopLevel(fs, distInfo);
      if tops.Err? {
        return Err(tops.error);
      }
      var removed := RemoveTree(fs, distInfo);
      if removed.Err? {
        return Err(removed.error);
      }
      fs := removed.value;
      var unlinked := RemoveScripts(scripts.value);
      if unlinked.Err? {
        return Err(unlinked.error);
      }
      var cleared := RemoveTopLevel(tops.value);
      if cleared.Err? {
        return Err(cleared.error);
      }
      return Ok(true);
    }

    /** The loop of `uninstall_impl` over the scripts, in the directory of the interpreter. */
    method RemoveScripts(names: seq<string>) returns (r: Result<()>)
      modifies this`fs
      ensures fs == UnlinkScripts(old(fs), env.exe, names).fs
      ensures r == Status(UnlinkScripts(old(fs), env.exe, names))
    {
      var i := 0;
      while i < |names|
        invariant 0 <= i <= |names|
        invariant UnlinkScripts(old(fs), env.exe, names) == UnlinkScripts(fs, env.exe, names[i..])
      {
        assert names[i..][0] == names[i] && names[i..][1..] == names[i + 1..];
        var unlinked := Unlink(fs, env.exe + [names[i]], true);
        if unlinked.Err? {
          return Err(unlinked.error);
        }
        fs := unlinked.value;
        i := i + 1;
      }
      return Ok(());
    }

    /** The loop of `uninstall_impl` over the top-level names. */
    method RemoveTopLevel(tops: seq<string>) returns (r: Result<()>)
      modifies this`fs
      ensures fs == RemoveTops(old(fs), env.site, tops).fs
      ensures r == Status(RemoveTops(old(fs), env.site, tops))
    {
      var j := 0;
      while j < |tops|
        invariant 0 <= j <= |tops|
        invariant RemoveTops(old(fs), env.site, tops) == RemoveTops(fs, env.site, tops[j..])
      {
        var top := tops[j];
        assert tops[j..][0] == top && tops[j..][1..] == tops[j + 1..];
        var candidate := PthFile(env.site, top);
        var result: Result<FileSystem>;
        if candidate in fs {
          result := Unlink(fs, candidate, false);
        } else {
          candidate := ModuleFile(env.site, top);
          if candidate in fs {
            result := Unlink(fs, candidate, false);
          } else {
            candidate := PackageDir(env.site, top);
            result := if candidate in fs then RemoveTree(fs, candidate) else Ok(fs);
          }
        }
        if result.Err? {
          return Err(result.error);
        }
        fs := result.value;
        j := j + 1;
      }
      return Ok(());
    }

    /** `uninstall_local`. */
    method UninstallLocal(package: string, listing: seq<Path>) returns (r: Result<()>)
      modifies this`fs, this`cache
      ensures Outcome(fs, cache, r) == UninstallLocalSpec(old(fs), old(cache), env, listing, package)
    {
      var removed := UninstallImpl(package, listing);
      if removed.Err? {
        return Err(removed.error);
      }
      if !removed.value {
        return Err(NotInstalled(package));
      }
      return Ok(());
    }

    /** `install_scripts`: the bin directory, then the launchers. */
    method InstallScripts(scripts: Scripts) returns (r: Result<()>)
      modifies this`fs
      ensures fs == InstallScriptsSpec(old(fs), env, scripts).fs
      ensures r == Status(InstallScriptsSpec(old(fs), env, scripts))
    {
      var made := MakeDirExistOk(fs, env.bin);
      if made.Err? {
        return Err(made.error);
      }
      fs := made.value;
      var failed := WriteAllLaunchers(scripts);
      if failed.Some? {
        return Err(failed.value);
      }
      return Ok(());
    }

    /** The loop of `install_scripts`: one launcher per script in turn,
        stopping at the first failure. */
    method WriteAllLaunchers(scripts: Scripts) returns (r: Option<Error>)
      modifies this`fs
      ensures Run(fs, r) == WriteLaunchers(old(fs), env.bin, scripts, env.newMode)
    {
      var i := 0;
      while i < |scripts|
        invariant 0 <= i <= |scripts|
        invariant WriteLaunchers(old(fs), env.bin, scripts, env.newMode) == WriteLaunchers(fs, env.bin, scripts[i..], env.newMode)
      {
        assert scripts[i..][0] == scripts[i] && scripts[i..][1..] == scripts[i + 1..];
        var (name, spec) := scripts[i];
        var parts := SplitSpec(spec);
        if parts.Err? {
          return Some(parts.error);
        }
        var script := env.bin + [name];
        assert Parent(script) == env.bin;
        ghost var before := fs;
        var written := Write(fs, script, Launcher(parts.value.0, parts.value.1), env.newMode);
        if written.Err? {
          return Some(written.error);
        }
        fs := written.value;
        fs := fs[script := File(fs[script].content, fs[script].mode | ExecBits)];
        assert fs == WriteLauncher(before, env.bin, name, spec, env.newMode).value;
        i := i + 1;
      }
      return None;
    }

    /** `install_metadata`, up to the licence files. */
    method InstallMetadata(p: PyProject) returns (r: Result<()>)
      modifies this`fs
      ensures fs == InstallMetadataSpec(old(fs), env.site, p, env.newMode).fs
      ensures r == Status(InstallMetadataSpec(old(fs), env.site, p, env.newMode))
    {
      var distInfo := DistInfoPath(env.site, p.distinfoName, p.version);
      var made := MakeDir(fs, distInfo);
      if made.Err? {
        return Err(made.error);
      }
      fs := made.value;
      var written := Poopmark(fs, distInfo, env.newMode);
      if written.Err? {
        return Err(written.error);
      }
      fs := written.value;
      written := Write(fs, distInfo + [MetadataFile], Headers(MetadataFields(p.name, p.version)), env.newMode);
      if written.Err? {
        return Err(written.error);
      }
      fs := written.value;
      written := Write(fs, distInfo + [TopLevelFile], Text(p.moduleName + "\n"), env.newMode);
      if written.Err? {
        return Err(written.error);
      }
      fs := written.value;
      written := Write(fs, distInfo + [EntryPointsFile], Text(EntryPointsText(p.scripts)), env.newMode);
      if written.Err? {
        return Err(written.error);
      }
      fs := written.value;
      return Ok(());
    }

    /** Placing the source in the site directory. */
    method Place(p: PyProject, editable: bool) returns (r: Result<()>)
      modifies this`fs
      ensures var placed := PlaceSpec(old(fs), env, p, editable);
        && (r.Ok? <==> placed.Ok?)
        && (r.Ok? ==> fs == placed.value)
        && (r.Err? ==> fs == old(fs) && r.error == placed.error)
    {
      var placed: Result<FileSystem>;
      if editable {
        placed := Write(fs, PthFile(env.site, p.moduleName), Text(PthLine(p)), env.newMode);
      } else if IsFile(fs, p.source) {
        placed := CopyFile(fs, p.source, ModuleFile(env.site, p.moduleName));
      } else {
        placed := CopyTree(fs, p.source, PackageDir(env.site, p.moduleName));
      }
      if placed.Err? {
        return Err(placed.error);
      }
      fs := placed.value;
      return Ok(());
    }

    /** Placing the source, then the launchers and the records. */
    method PlaceAndRecord(p: PyProject, editable: bool) returns (r: Result<()>)
      modifies this`fs
      ensures Outcome(fs, cache, r) == PlaceAndRecordSpec(old(fs), cache, env, p, editable)
    {
      r := Place(p, editable);
      if r.Err? {
        return;
      }
      r := InstallScripts(p.scripts);
      if r.Err? {
        return;
      }
      r := InstallMetadata(p);
    }

    /** `install_local`. */
    method InstallLocal(location: Path, table: Option<ProjectTable>, editable: bool, listing: seq<Path>)
      returns (r: Result<()>)
      modifies this`fs, this`cache
      ensures Outcome(fs, cache, r) == InstallLocalSpec(old(fs), old(cache), env, listing, location, table, editable)
    {
      var parsed := ParsePyProject(fs, location, table);
      if parsed.Err? {
        return Err(parsed.error);
      }
      var p := parsed.value;
      var installed := FindInstalled(p.name, listing);
      if installed.Err? {
        return Err(installed.error);
      }
      if installed.value.Some? {
        if installed.value.value.0 == p.version {
          return Ok(());
        }
        var removed := UninstallImpl(p.name, listing);
        if removed.Err? {
          return Err(removed.error);
        }
      }
      r := PlaceAndRecord(p, editable);
    }

    /** The part of `install_wheel` from opening the archive on. */
    method UnpackWheel(location: Path, archive: map<Path, Node>, name: string, version: string)
      returns (r: Result<()>)
      modifies this`fs
      ensures Outcome(fs, cache, r) == UnpackWheelSpec(old(fs), cache, env, location, archive, name, version)
    {
      if !IsFile(fs, location) {
        return Err(OsError(location, if location in fs then IsADirectory else MissingKind(fs, location)));
      }
      fs := Extract(fs, env.site, archive);
      var distInfo := DistInfoPath(env.site, name, version);
      var marked := Poopmark(fs, distInfo, env.newMode);
      if marked.Err? {
        return Err(marked.error);
      }
      fs := marked.value;
      var scripts := CollectScripts(distInfo);
      if scripts.Err? {
        return Err(scripts.error);
      }
      r := InstallScripts(scripts.value);
    }

    /** The loop of `install_wheel` over the lines of `entry_points.txt`,
        when the file exists: the last spec given for a name wins. */
    method CollectScripts(distInfo: Path) returns (r: Result<Scripts>)
      ensures r == WheelScripts(fs, distInfo)
    {
      var entryPoints := distInfo + [EntryPointsFile];
      if entryPoints !in fs {
        return Ok([]);
      }
      var text := ReadText(fs, entryPoints);
      if text.Err? {
        return Err(text.error);
      }
      var lines := Lines(text.value);
      var scripts: Scripts := [];
      var i := 0;
      while i < |lines|
        invariant 0 <= i <= |lines|
        invariant Harvest(lines) == HarvestFrom(scripts, lines[i..])
      {
        assert lines[i..][0] == lines[i] && lines[i..][1..] == lines[i + 1..];
        var line := lines[i];
        if Contains(line, Separator) {
          var (name, entryPoint) := SplitFirst(line, Separator);
          scripts := Assign(scripts, Strip(name), Strip(entryPoint));
        }
        i := i + 1;
      }
      return Ok(scripts);
    }

    /** `install_wheel` as written: a package found installed is always
        uninstalled first, since the pair `find_installed` gives never
        equals the version string. */
    method InstallWheel(location: Path, archive: map<Path, Node>, listing: seq<Path>) returns (r: Result<()>)
      modifies this`fs, this`cache
      ensures Outcome(fs, cache, r) == InstallWheelAsWritten(old(fs), old(cache), env, listing, location, archive)
    {
      var parsed := ParseWheelName(Basename(location));
      if parsed.Err? {
        return Err(parsed.error);
      }
      var (name, version) := parsed.value;
      var installed := FindInstalled(name, listing);
      if installed.Err? {
        return Err(installed.error);
      }
      if installed.value.Some? {
        var removed := UninstallImpl(name, listing);
        if removed.Err? {
          return Err(removed.error);
        }
      }
      r := UnpackWheel(location, archive, name, version);
    }

    /** `install`. */
    method Install(location: Path, editable: bool, table: Option<ProjectTable>, archive: map<Path, Node>,
                   listing: seq<Path>) returns (r: Result<()>)
      modifies this`fs, this`cache
      ensures Outcome(fs, cache, r) == InstallSpec(old(fs), old(cache), env, listing, location, editable, table, archive)
    {
      if location !in fs {
        return Err(SourceNotFound(location));
      }
      if EndsWith(Basename(location), ".whl") {
        if editable {
          return Err(EditableWheel(location));
        }
        r := InstallWheel(location, archive, listing);
      } else {
        r := InstallLocal(location, table, editable, listing);
      }
    }
  }
}
