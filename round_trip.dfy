/** Uninstalling undoes installing: `install_local` of a project that is
    not installed, followed in a new process by `uninstall_local` of the
    same name, leaves the filesystem exactly as it was, provided the bin
    directory is the interpreter's directory, it already exists, and none of
    the paths the install writes existed before. The install adds the
    placement, the launchers and the dist-info directory; the uninstall
    finds the dist-info directory, reads back the script names and the
    module name, and removes exactly those. */
module InstallRoundTrip {
  import opened Base
  import opened Strings
  import opened Names
  import opened Files
  import opened Launchers
  import opened Project
  import opened SiteIndex
  import opened Records
  import opened Poopip
  import opened PoopipProperties

  /** `fs'` keeps every entry of `fs` as it was. */
  ghost predicate Grows(fs: FileSystem, fs': FileSystem) {
    forall q :: q in fs ==> q in fs' && fs'[q] == fs[q]
  }

  /** Where `install_local` places the source: the `.pth` file, the module
      file, or the package directory (a tree). */
  function Placement(fs: FileSystem, env: Env, p: PyProject, editable: bool): Path {
    if editable then PthFile(env.site, p.moduleName)
    else if IsFile(fs, p.source) then ModuleFile(env.site, p.moduleName)
    else PackageDir(env.site, p.moduleName)
  }

  predicate IsTree(fs: FileSystem, p: PyProject, editable: bool) {
    !editable && !IsFile(fs, p.source)
  }

  /** `q` belongs to the placement at `pl`. */
  predicate InPlacement(pl: Path, tree: bool, q: Path) {
    if tree then IsPrefix(pl, q) else q == pl
  }

  /** What the install adds: the placement, a launcher, the dist-info directory. */
  predicate Added(pl: Path, tree: bool, bin: Path, scripts: Scripts, d: Path, q: Path) {
    InPlacement(pl, tree, q) || IsTarget(bin, scripts, q) || IsPrefix(d, q)
  }

  // What each step of the install adds.

  lemma PlaceFootprint(fs: FileSystem, env: Env, p: PyProject, editable: bool)
    requires WF(fs) && PlaceSpec(fs, env, p, editable).Ok?
    requires PthFile(env.site, p.moduleName) !in fs && ModuleFile(env.site, p.moduleName) !in fs
    requires PackageDir(env.site, p.moduleName) !in fs
    ensures var fs1 := PlaceSpec(fs, env, p, editable).value;
      var pl := Placement(fs, env, p, editable);
      && Grows(fs, fs1)
      && (forall q :: q in fs1 && q !in fs ==> InPlacement(pl, IsTree(fs, p, editable), q))
      && (if IsTree(fs, p, editable) then IsDir(fs1, pl) else IsFile(fs1, pl))
  {
    var fs1 := PlaceSpec(fs, env, p, editable).value;
    var pl := Placement(fs, env, p, editable);
    if IsTree(fs, p, editable) {
      var copies := Copies(fs, p.source, pl);
      forall q | q in fs
        ensures q in fs1 && fs1[q] == fs[q]
      {
        NothingBelowAbsent(fs, pl, q);
        assert q !in copies;
      }
      assert pl !in copies;
    } else if !editable {
      assert CopyTarget(fs, p.source, pl) == pl;
    }
  }

  lemma ScriptsFootprint(fs: FileSystem, env: Env, scripts: Scripts)
    requires IsDir(fs, env.bin) && DistinctNames(scripts)
    requires InstallScriptsSpec(fs, env, scripts).error.None?
    requires forall i :: 0 <= i < |scripts| ==> env.bin + [scripts[i].0] !in fs
    ensures var fs2 := InstallScriptsSpec(fs, env, scripts).fs;
      && Grows(fs, fs2)
      && (forall q :: q in fs2 && q !in fs ==> IsTarget(env.bin, scripts, q))
      && (forall i :: 0 <= i < |scripts| ==> IsFile(fs2, env.bin + [scripts[i].0]))
  {
    assert MakeDirExistOk(fs, env.bin) == Ok(fs);
    WriteLaunchersEffect(fs, env.bin, scripts, env.newMode);
  }

  lemma RecordsFootprint(fs: FileSystem, d: Path, p: PyProject, mode: bv16)
    requires d !in fs && d + [InstallerFile] !in fs && d + [MetadataFile] !in fs
    requires d + [TopLevelFile] !in fs && d + [EntryPointsFile] !in fs
    ensures var fs' := WithRecords(fs, d, p, mode);
      && Grows(fs, fs')
      && (forall q :: q in fs' && q !in fs ==> IsPrefix(d, q))
      && IsDir(fs', d)
  {
    assert IsPrefix(d, d);
    assert IsPrefix(d, d + [InstallerFile]) && IsPrefix(d, d + [MetadataFile]);
    assert IsPrefix(d, d + [TopLevelFile]) && IsPrefix(d, d + [EntryPointsFile]);
    assert |InstallerFile| == 9 && |MetadataFile| == 8 && |TopLevelFile| == 13 && |EntryPointsFile| == 16;
    DistinctChildren(d, InstallerFile, MetadataFile);
    assert d + [InstallerFile] != d && d + [MetadataFile] != d;
    assert d + [TopLevelFile] != d && d + [EntryPointsFile] != d;
  }

  /** A launcher path lies outside the site directory. */
  lemma TargetOutsideSite(site: Path, bin: Path, x: string, n: string)
    requires !IsPrefix(site, bin)
    ensures !IsPrefix(site + [x], bin + [n]) && bin + [n] != site + [x]
  {
    if |site| <= |bin| {
      assert (bin + [n])[..|site|] == bin[..|site|];
    }
  }

  /** The paths the install writes after the placement were absent before it. */
  lemma LaunchersAbsentAfterPlace(fs: FileSystem, fs1: FileSystem, env: Env, pl: Path, tree: bool, scripts: Scripts)
    requires !IsPrefix(env.site, env.bin) && Parent(pl) == env.site && |pl| > 0
    requires forall q :: q in fs1 && q !in fs ==> InPlacement(pl, tree, q)
    requires forall i :: 0 <= i < |scripts| ==> env.bin + [scripts[i].0] !in fs
    ensures forall i :: 0 <= i < |scripts| ==> env.bin + [scripts[i].0] !in fs1
  {
    forall i | 0 <= i < |scripts|
      ensures env.bin + [scripts[i].0] !in fs1
    {
      assert pl == env.site + [pl[|pl| - 1]];
      TargetOutsideSite(env.site, env.bin, pl[|pl| - 1], scripts[i].0);
    }
  }

  /** The three steps of a placement and a record into a site holding none of their paths. */
  lemma PlaceAndRecordFootprint(fs: FileSystem, cache: Index, env: Env, p: PyProject, editable: bool)
    requires WF(fs) && !IsPrefix(env.site, env.bin) && IsDir(fs, env.bin)
    requires PthFile(env.site, p.moduleName) !in fs && ModuleFile(env.site, p.moduleName) !in fs
    requires PackageDir(env.site, p.moduleName) !in fs
    requires forall i :: 0 <= i < |p.scripts| ==> env.bin + [p.scripts[i].0] !in fs
    requires DistinctNames(p.scripts)
    requires PlaceAndRecordSpec(fs, cache, env, p, editable).result.Ok?
    ensures var fs' := PlaceAndRecordSpec(fs, cache, env, p, editable).fs;
      var pl := Placement(fs, env, p, editable);
      var tree := IsTree(fs, p, editable);
      var d := DistInfoPath(env.site, p.distinfoName, p.version);
      && Grows(fs, fs')
      && (forall q :: q in fs' && q !in fs ==> Added(pl, tree, env.bin, p.scripts, d, q))
      && (if tree then IsDir(fs', pl) else IsFile(fs', pl))
      && (forall i :: 0 <= i < |p.scripts| ==> IsFile(fs', env.bin + [p.scripts[i].0]))
      && d !in fs && IsDir(fs', d)
      && ReadText(fs', d + [EntryPointsFile]) == Ok(EntryPointsText(p.scripts))
      && ReadText(fs', d + [TopLevelFile]) == Ok(p.moduleName + "\n")
  {
    var d := DistInfoPath(env.site, p.distinfoName, p.version);
    PlaceAndScriptsFootprint(fs, env, p, editable);
    var fs2 := InstallScriptsSpec(PlaceSpec(fs, env, p, editable).value, env, p.scripts).fs;
    InstallMetadataEffect(fs2, env.site, p, env.newMode);
    NoChildOfAbsent(fs2, d, InstallerFile);
    NoChildOfAbsent(fs2, d, MetadataFile);
    NoChildOfAbsent(fs2, d, TopLevelFile);
    NoChildOfAbsent(fs2, d, EntryPointsFile);
    RecordsFootprint(fs2, d, p, env.newMode);
    ReadRecords(fs2, d, p, env.newMode);
  }

  /** The placement and the launchers into a site holding none of their paths. */
  lemma PlaceAndScriptsFootprint(fs: FileSystem, env: Env, p: PyProject, editable: bool)
    requires WF(fs) && !IsPrefix(env.site, env.bin) && IsDir(fs, env.bin)
    requires PthFile(env.site, p.moduleName) !in fs && ModuleFile(env.site, p.moduleName) !in fs
    requires PackageDir(env.site, p.moduleName) !in fs
    requires forall i :: 0 <= i < |p.scripts| ==> env.bin + [p.scripts[i].0] !in fs
    requires DistinctNames(p.scripts)
    requires PlaceSpec(fs, env, p, editable).Ok?
    requires InstallScriptsSpec(PlaceSpec(fs, env, p, editable).value, env, p.scripts).error.None?
    ensures var fs2 := InstallScriptsSpec(PlaceSpec(fs, env, p, editable).value, env, p.scripts).fs;
      var pl := Placement(fs, env, p, editable);
      var tree := IsTree(fs, p, editable);
      && WF(fs2) && Grows(fs, fs2)
      && (forall q :: q in fs2 && q !in fs ==> InPlacement(pl, tree, q) || IsTarget(env.bin, p.scripts, q))
      && (if tree then IsDir(fs2, pl) else IsFile(fs2, pl))
      && (forall i :: 0 <= i < |p.scripts| ==> IsFile(fs2, env.bin + [p.scripts[i].0]))
  {
    var pl := Placement(fs, env, p, editable);
    var tree := IsTree(fs, p, editable);
    var fs1 := PlaceSpec(fs, env, p, editable).value;
    PlaceFootprint(fs, env, p, editable);
    PlaceWF(fs, env, p, editable);
    LaunchersAbsentAfterPlace(fs, fs1, env, pl, tree, p.scripts);
    ScriptsFootprint(fs1, env, p.scripts);
    InstallScriptsKeepsRecords(fs1, env, p.scripts);
  }

  /** The two records uninstall reads, as written. */
  lemma ReadRecords(fs: FileSystem, d: Path, p: PyProject, mode: bv16)
    ensures var fs' := WithRecords(fs, d, p, mode);
      && ReadText(fs', d + [EntryPointsFile]) == Ok(EntryPointsText(p.scripts))
      && ReadText(fs', d + [TopLevelFile]) == Ok(p.moduleName + "\n")
  {
    assert |TopLevelFile| == 13 && |EntryPointsFile| == 16;
    DistinctChildren(d, TopLevelFile, EntryPointsFile);
  }

  // What each step of the uninstall removes.

  /** The launchers a table lists are the paths its script names list. */
  lemma TargetsListed(bin: Path, scripts: Scripts, q: Path)
    ensures IsTarget(bin, scripts, q) <==> IsListed(bin, ScriptKeys(scripts), q)
  {
    if IsListed(bin, ScriptKeys(scripts), q) {
      var i :| 0 <= i < |scripts| && q == bin + [ScriptKeys(scripts)[i]];
      assert q == bin + [scripts[i].0];
    }
    if IsTarget(bin, scripts, q) {
      var i :| 0 <= i < |scripts| && q == bin + [scripts[i].0];
      assert q == bin + [ScriptKeys(scripts)[i]];
    }
  }

  /** On a site where the package's records read back its scripts and its
      module, `uninstall_impl` removes the dist-info directory, unlinks the
      launchers and then tries the placements of the module. */
  lemma UninstallSteps(fs: FileSystem, env: Env, listing: seq<Path>, package: string,
                       scripts: Scripts, m: string, d: Path)
    requires IsListing(fs, env.site, listing) && Clean(fs, env.site) && UniqueKeys(fs, env.site)
    requires NormalizeName(package).Ok?
    requires IsCandidate(fs, env.site, d) && Registers(fs, d, IndexKey(NormalizeName(package).value))
    requires IsDir(fs, d) && Writable(scripts) && TopLevelNames(Lines(m + "\n")) == [m]
    requires ReadText(fs, d + [EntryPointsFile]) == Ok(EntryPointsText(scripts))
    requires ReadText(fs, d + [TopLevelFile]) == Ok(m + "\n")
    ensures var u := UninstallImplSpec(fs, map[], env, listing, package);
      var unlinked := UnlinkScripts(Prune(fs, d), env.exe, ScriptKeys(scripts));
      var removed := RemoveTops(unlinked.fs, env.site, [m]);
      unlinked.error.None? && removed.error.None? ==> u.fs == removed.fs && u.result == Ok(true)
  {
    FindOnly(fs, env.site, listing, package, d);
    ScriptNamesRoundTrip(scripts);
  }

  lemma UnlinkLaunchers(fs: FileSystem, bin: Path, scripts: Scripts, d: Path)
    requires WF(fs)
    requires forall i :: 0 <= i < |scripts| ==> IsFile(fs, bin + [scripts[i].0]) && !IsPrefix(d, bin + [scripts[i].0])
    ensures var unlinked := UnlinkScripts(Prune(fs, d), bin, ScriptKeys(scripts));
      && unlinked.error.None?
      && (forall q :: q in unlinked.fs <==> q in fs && !IsPrefix(d, q) && !IsTarget(bin, scripts, q))
      && (forall q :: q in unlinked.fs ==> unlinked.fs[q] == fs[q])
  {
    var fs1 := Prune(fs, d);
    var names := ScriptKeys(scripts);
    PruneWF(fs, d);
    forall i | 0 <= i < |names|
      ensures !IsDir(fs1, bin + [names[i]]) && !BelowFile(fs1, bin + [names[i]])
    {
      assert names[i] == scripts[i].0;
      PresentNotBelowFile(fs1, bin + [names[i]]);
    }
    UnlinkScriptsEffect(fs1, bin, names);
    forall q
      ensures IsTarget(bin, scripts, q) <==> IsListed(bin, names, q)
    {
      TargetsListed(bin, scripts, q);
    }
  }

  /** The loop over the single top-level name removes its placement and
      nothing else, when the placements tried before it are absent. */
  lemma RemovePlacement(fs: FileSystem, site: Path, m: string, pl: Path, tree: bool)
    requires pl == PthFile(site, m) || pl == ModuleFile(site, m) || pl == PackageDir(site, m)
    requires tree <==> pl == PackageDir(site, m)
    requires pl != PthFile(site, m) ==> PthFile(site, m) !in fs
    requires pl == PackageDir(site, m) ==> ModuleFile(site, m) !in fs
    requires if tree then IsDir(fs, pl) else IsFile(fs, pl)
    ensures var removed := RemoveTops(fs, site, [m]);
      && removed.error.None?
      && (forall q :: q in removed.fs <==> q in fs && !InPlacement(pl, tree, q))
      && (forall q :: q in removed.fs ==> removed.fs[q] == fs[q])
  {
    LongerNames(m);
    DistinctChildren(site, m + ".pth", m + ".py");
    DistinctChildren(site, m + ".pth", m);
    DistinctChildren(site, m + ".py", m);
    var r := RemoveTop(fs, site, m);
    if pl == PthFile(site, m) {
      assert r == Unlink(fs, pl, false);
    } else if pl == ModuleFile(site, m) {
      assert r == Unlink(fs, pl, false);
    } else {
      assert r == RemoveTree(fs, pl);
    }
    assert RemoveTops(fs, site, [m]) == RemoveTops(r.value, site, []);
  }

  /** The three placements of a name are different paths. */
  lemma LongerNames(m: string)
    ensures m + ".pth" != m + ".py" && m + ".pth" != m && m + ".py" != m
  {
    assert |m + ".pth"| == |m| + 4 && |m + ".py"| == |m| + 3;
  }

  /** Two children of one directory: neither lies below the other unless they are the same. */
  lemma SiblingsApart(site: Path, a: string, b: string)
    requires a != b
    ensures !IsPrefix(site + [a], site + [b])
  {
    assert (site + [a])[|site|] == a && (site + [b])[|site|] == b;
    assert |site + [a]| == |site + [b]|;
  }

  /** What is installed is exactly the placement, the launchers and the
      dist-info directory, and the uninstall finds them all: the paths
      before the placement in the order uninstall tries them are absent,
      the placement and the launchers survive the removal of the dist-info
      directory. */
  lemma InstalledLayout(fs: FileSystem, fs': FileSystem, env: Env, m: string, pl: Path, tree: bool,
                        scripts: Scripts, d: Path)
    requires !IsPrefix(env.site, env.bin) && '.' !in m
    requires pl == PthFile(env.site, m) || pl == ModuleFile(env.site, m) || pl == PackageDir(env.site, m)
    requires tree <==> pl == PackageDir(env.site, m)
    requires PthFile(env.site, m) !in fs && ModuleFile(env.site, m) !in fs
    requires |d| == |env.site| + 1 && d[..|env.site|] == env.site && IsDistInfoName(d[|env.site|])
    requires forall q :: q in fs' && q !in fs ==> Added(pl, tree, env.bin, scripts, d, q)
    ensures pl != PthFile(env.site, m) ==> PthFile(env.site, m) !in fs'
    ensures pl == PackageDir(env.site, m) ==> ModuleFile(env.site, m) !in fs'
    ensures !IsPrefix(d, pl) && !IsTarget(env.bin, scripts, pl)
    ensures forall i :: 0 <= i < |scripts| ==> !IsPrefix(d, env.bin + [scripts[i].0])
  {
    var site := env.site;
    var pth := PthFile(site, m);
    var py := ModuleFile(site, m);
    var dn := d[|site|];
    assert d == site + [dn];
    PlacementNames(m);
    LongerNames(m);
    SiblingsApart(site, dn, m + ".pth");
    SiblingsApart(site, dn, m + ".py");
    SiblingsApart(site, dn, m);
    SiblingsApart(site, m, m + ".pth");
    SiblingsApart(site, m, m + ".py");
    forall i | 0 <= i < |scripts|
      ensures !IsPrefix(d, env.bin + [scripts[i].0])
    {
      TargetOutsideSite(site, env.bin, dn, scripts[i].0);
    }
    NotTarget(site, env.bin, scripts, m + ".pth");
    NotTarget(site, env.bin, scripts, m + ".py");
    NotTarget(site, env.bin, scripts, m);
  }

  lemma NotTarget(site: Path, bin: Path, scripts: Scripts, x: string)
    requires !IsPrefix(site, bin)
    ensures !IsTarget(bin, scripts, site + [x])
  {
    if IsTarget(bin, scripts, site + [x]) {
      var i :| 0 <= i < |scripts| && site + [x] == bin + [scripts[i].0];
      TargetOutsideSite(site, bin, x, scripts[i].0);
    }
  }

  /** Installing a project that is not installed and then uninstalling it
      in a new process restores the filesystem exactly. */
  lemma InstallThenUninstall(fs: FileSystem, env: Env, listing: seq<Path>, listing': seq<Path>,
                             location: Path, table: Option<ProjectTable>, editable: bool)
    requires WF(fs) && IsListing(fs, env.site, listing) && Clean(fs, env.site) && UniqueKeys(fs, env.site)
    requires !IsPrefix(env.site, env.bin) && env.exe == env.bin && IsDir(fs, env.bin)
    requires ParsePyProject(fs, location, table).Ok?
    requires var p := ParsePyProject(fs, location, table).value;
      && RecordedVersion(p.version) != "" && NoLineBreak(p.version)
      && (forall c :: IsCandidate(fs, env.site, c) ==> !Registers(fs, c, IndexKey(p.distinfoName)))
      && PthFile(env.site, p.moduleName) !in fs && ModuleFile(env.site, p.moduleName) !in fs
      && PackageDir(env.site, p.moduleName) !in fs
      && (forall i :: 0 <= i < |p.scripts| ==> env.bin + [p.scripts[i].0] !in fs)
      && DistinctNames(p.scripts) && Writable(p.scripts)
    requires InstallLocalSpec(fs, map[], env, listing, location, table, editable).result.Ok?
    requires IsListing(InstallLocalSpec(fs, map[], env, listing, location, table, editable).fs, env.site, listing')
    ensures var p := ParsePyProject(fs, location, table).value;
      var installed := InstallLocalSpec(fs, map[], env, listing, location, table, editable).fs;
      var u := UninstallLocalSpec(installed, map[], env, listing', p.name);
      u.result == Ok(()) && u.fs == fs
  {
    var p := ParsePyProject(fs, location, table).value;
    ParsedName(fs, location, table);
    ModuleNameShape(fs, location, table);
    ModuleNameRoundTrip(fs, location, table);
    FindFresh(fs, env.site, listing, p.name);
    var cache1 := SiteIndex.FindInstalled(fs, map[], listing, p.name).0;
    assert InstallLocalSpec(fs, map[], env, listing, location, table, editable)
      == PlaceAndRecordSpec(fs, cache1, env, p, editable);
    PlaceThenUninstall(fs, cache1, env, listing', p, editable);
  }

  /** Placing and recording a project that is not installed and then
      uninstalling it in a new process restores the filesystem exactly. */
  lemma PlaceThenUninstall(fs: FileSystem, cache: Index, env: Env, listing': seq<Path>, p: PyProject, editable: bool)
    requires WF(fs) && Clean(fs, env.site) && UniqueKeys(fs, env.site)
    requires !IsPrefix(env.site, env.bin) && env.exe == env.bin && IsDir(fs, env.bin)
    requires NormalizeName(p.name) == Ok(p.distinfoName) && RecordedVersion(p.version) != "" && NoLineBreak(p.version)
    requires '.' !in p.moduleName && TopLevelNames(Lines(p.moduleName + "\n")) == [p.moduleName]
    requires forall c :: IsCandidate(fs, env.site, c) ==> !Registers(fs, c, IndexKey(p.distinfoName))
    requires PthFile(env.site, p.moduleName) !in fs && ModuleFile(env.site, p.moduleName) !in fs
    requires PackageDir(env.site, p.moduleName) !in fs
    requires forall i :: 0 <= i < |p.scripts| ==> env.bin + [p.scripts[i].0] !in fs
    requires DistinctNames(p.scripts) && Writable(p.scripts)
    requires PlaceAndRecordSpec(fs, cache, env, p, editable).result.Ok?
    requires IsListing(PlaceAndRecordSpec(fs, cache, env, p, editable).fs, env.site, listing')
    ensures var u := UninstallLocalSpec(PlaceAndRecordSpec(fs, cache, env, p, editable).fs, map[], env, listing', p.name);
      u.result == Ok(()) && u.fs == fs
  {
    var site := env.site;
    var m := p.moduleName;
    PlaceAndRecordFootprint(fs, cache, env, p, editable);
    PlaceAndRecordIndexed(fs, cache, env, p, editable);
    PlaceAndRecordWF(fs, cache, env, p, editable);
    var b := PlaceAndRecordSpec(fs, cache, env, p, editable).fs;
    var pl := Placement(fs, env, p, editable);
    var tree := IsTree(fs, p, editable);
    var d := DistInfoPath(site, p.distinfoName, p.version);
    InstalledLayout(fs, b, env, m, pl, tree, p.scripts, d);
    UninstallSteps(b, env, listing', p.name, p.scripts, m, d);
    UnlinkLaunchers(b, env.bin, p.scripts, d);
    var c2 := UnlinkScripts(Prune(b, d), env.exe, ScriptKeys(p.scripts)).fs;
    RemovePlacement(c2, site, m, pl, tree);
    var c3 := RemoveTops(c2, site, [m]).fs;
    RestoredExactly(fs, b, c3, pl, tree, env.bin, p.scripts, d);
  }

  /** The uninstall removes what the install added and nothing it found. */
  lemma RestoredExactly(fs: FileSystem, b: FileSystem, c: FileSystem, pl: Path, tree: bool,
                        bin: Path, scripts: Scripts, d: Path)
    requires WF(fs) && pl !in fs && d !in fs
    requires forall i :: 0 <= i < |scripts| ==> bin + [scripts[i].0] !in fs
    requires Grows(fs, b)
    requires forall q :: q in b && q !in fs ==> Added(pl, tree, bin, scripts, d, q)
    requires forall q :: q in c <==> q in b && !Added(pl, tree, bin, scripts, d, q)
    requires forall q :: q in c ==> c[q] == b[q]
    ensures c == fs
  {
    forall q | q in fs
      ensures !Added(pl, tree, bin, scripts, d, q)
    {
      NothingBelowAbsent(fs, pl, q);
      NothingBelowAbsent(fs, d, q);
    }
  }
}
