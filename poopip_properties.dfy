/** What the transactions of poopip.py promise across calls: an uninstall
    leaves nothing the index can find, a fresh install is found by the next
    process, the same version is never installed twice, and an install
    followed by an uninstall leaves the site as it was. A property that
    spans two commands starts each from a new process, whose `_SITE_INDEX`
    cache is empty. */
module PoopipProperties {
  import opened Base
  import opened Strings
  import opened Names
  import opened Wheels
  import opened Files
  import opened Launchers
  import opened Project
  import opened SiteIndex
  import opened Records
  import opened Poopip

  /** `fs'` only removed entries of `fs`. */
  ghost predicate Shrinks(fs: FileSystem, fs': FileSystem) {
    forall q :: q in fs' ==> q in fs && fs'[q] == fs[q]
  }

  // Uninstalling.

  /** Removing the launchers only removes entries and keeps the filesystem well formed. */
  lemma {:induction false} UnlinkScriptsShrinks(fs: FileSystem, dir: Path, names: seq<string>)
    requires WF(fs)
    ensures Shrinks(fs, UnlinkScripts(fs, dir, names).fs) && WF(UnlinkScripts(fs, dir, names).fs)
    decreases |names|
  {
    if names != [] {
      var p := dir + [names[0]];
      if Unlink(fs, p, true).Ok? {
        UnlinkWF(fs, p, true);
        UnlinkScriptsShrinks(Unlink(fs, p, true).value, dir, names[1..]);
      }
    }
  }

  lemma RemoveTopShrinks(fs: FileSystem, site: Path, top: string)
    requires WF(fs) && RemoveTop(fs, site, top).Ok?
    ensures Shrinks(fs, RemoveTop(fs, site, top).value) && WF(RemoveTop(fs, site, top).value)
  {
    if PthFile(site, top) in fs {
      UnlinkWF(fs, PthFile(site, top), false);
    } else if ModuleFile(site, top) in fs {
      UnlinkWF(fs, ModuleFile(site, top), false);
    } else if PackageDir(site, top) in fs {
      RemoveTreeWF(fs, PackageDir(site, top));
    }
  }

  lemma {:induction false} RemoveTopsShrinks(fs: FileSystem, site: Path, tops: seq<string>)
    requires WF(fs)
    ensures Shrinks(fs, RemoveTops(fs, site, tops).fs) && WF(RemoveTops(fs, site, tops).fs)
    decreases |tops|
  {
    if tops != [] && RemoveTop(fs, site, tops[0]).Ok? {
      RemoveTopShrinks(fs, site, tops[0]);
      RemoveTopsShrinks(RemoveTop(fs, site, tops[0]).value, site, tops[1..]);
    }
  }

  /** `uninstall_impl` only ever removes entries, whether it succeeds or stops half way. */
  lemma UninstallShrinks(fs: FileSystem, cache: Index, env: Env, listing: seq<Path>, package: string)
    requires WF(fs)
    ensures var u := UninstallImplSpec(fs, cache, env, listing, package);
      Shrinks(fs, u.fs) && WF(u.fs)
  {
    var (cache1, found) := SiteIndex.FindInstalled(fs, cache, listing, package);
    if found.Ok? && found.value.Some? {
      var distInfo := found.value.value.1;
      if ListedScripts(fs, distInfo).Ok? && ListedTopLevel(fs, distInfo).Ok? && RemoveTree(fs, distInfo).Ok? {
        var fs1 := RemoveTree(fs, distInfo).value;
        RemoveTreeWF(fs, distInfo);
        UnlinkScriptsShrinks(fs1, env.exe, ListedScripts(fs, distInfo).value);
        var unlinked := UnlinkScripts(fs1, env.exe, ListedScripts(fs, distInfo).value);
        RemoveTopsShrinks(unlinked.fs, env.site, ListedTopLevel(fs, distInfo).value);
      }
    }
  }

  /** Since the dist-info directory goes first, any change `uninstall_impl`
      makes, even one that stops half way, includes removing that directory
      with everything in it. */
  lemma UninstallRemovesDistInfo(fs: FileSystem, cache: Index, env: Env, listing: seq<Path>, package: string)
    requires WF(fs)
    ensures var found := SiteIndex.FindInstalled(fs, cache, listing, package).1;
      var u := UninstallImplSpec(fs, cache, env, listing, package);
      (u.fs != fs || u.result == Ok(true)) ==>
        && found.Ok? && found.value.Some?
        && forall t :: IsPrefix(found.value.value.1, t) ==> t !in u.fs
  {
    var (cache1, found) := SiteIndex.FindInstalled(fs, cache, listing, package);
    if found.Ok? && found.value.Some? {
      var distInfo := found.value.value.1;
      if ListedScripts(fs, distInfo).Ok? && ListedTopLevel(fs, distInfo).Ok? && RemoveTree(fs, distInfo).Ok? {
        var fs1 := RemoveTree(fs, distInfo).value;
        RemoveTreeWF(fs, distInfo);
        UnlinkScriptsShrinks(fs1, env.exe, ListedScripts(fs, distInfo).value);
        var unlinked := UnlinkScripts(fs1, env.exe, ListedScripts(fs, distInfo).value);
        RemoveTopsShrinks(unlinked.fs, env.site, ListedTopLevel(fs, distInfo).value);
      }
    }
  }

  /** The dist-info directory a successful uninstall found is gone afterwards. */
  lemma UninstallDropsDistInfo(fs: FileSystem, cache: Index, env: Env, listing: seq<Path>, package: string)
    requires WF(fs)
    requires UninstallImplSpec(fs, cache, env, listing, package).result == Ok(true)
    ensures var found := SiteIndex.FindInstalled(fs, cache, listing, package).1;
      && found.Ok? && found.value.Some?
      && found.value.value.1 !in UninstallImplSpec(fs, cache, env, listing, package).fs
  {
    UninstallRemovesDistInfo(fs, cache, env, listing, package);
    var d := SiteIndex.FindInstalled(fs, cache, listing, package).1.value.value.1;
    assert IsPrefix(d, d);
  }

  /** On a well-formed filesystem the loop over the listed scripts fails
      exactly when one of them is a directory or lies below a file;
      otherwise it removes those paths and nothing else. */
  lemma {:induction false} UnlinkScriptsEffect(fs: FileSystem, dir: Path, names: seq<string>)
    requires WF(fs)
    ensures var r := UnlinkScripts(fs, dir, names);
      && (r.error.None? <==> forall i :: 0 <= i < |names| ==>
            !IsDir(fs, dir + [names[i]]) && !BelowFile(fs, dir + [names[i]]))
      && (r.error.None? ==> forall q :: q in r.fs <==> q in fs && !IsListed(dir, names, q))
      && (forall q :: q in r.fs ==> q in fs && r.fs[q] == fs[q])
    decreases |names|
  {
    if names != [] {
      var p := dir + [names[0]];
      var rest := names[1..];
      assert forall i :: 1 <= i < |names| ==> names[i] == rest[i - 1];
      if p in fs {
        PresentNotBelowFile(fs, p);
      }
      if Unlink(fs, p, true).Ok? {
        var fs1 := Unlink(fs, p, true).value;
        UnlinkWF(fs, p, true);
        UnlinkScriptsEffect(fs1, dir, rest);
        forall i | 0 <= i < |rest|
          ensures IsDir(fs1, dir + [rest[i]]) == IsDir(fs, dir + [rest[i]])
          ensures BelowFile(fs1, dir + [rest[i]]) == BelowFile(fs, dir + [rest[i]])
        {
          UnlinkSibling(fs, p, dir + [rest[i]]);
        }
        forall q
          ensures IsListed(dir, names, q) <==> q == p || IsListed(dir, rest, q)
        {
          if IsListed(dir, rest, q) {
            var i :| 0 <= i < |rest| && q == dir + [rest[i]];
            assert q == dir + [names[i + 1]];
          }
          if q == p {
            assert q == dir + [names[0]];
          }
        }
      }
    }
  }

  /** Unlinking a path changes neither which paths of the same length are
      directories nor which of them lie below a file. */
  lemma UnlinkSibling(fs: FileSystem, p: Path, q: Path)
    requires Unlink(fs, p, true).Ok? && |q| == |p|
    ensures IsDir(Unlink(fs, p, true).value, q) == IsDir(fs, q)
    ensures BelowFile(Unlink(fs, p, true).value, q) == BelowFile(fs, q)
  {
    var fs1 := Unlink(fs, p, true).value;
    forall k | 0 < k < |q|
      ensures IsFile(fs1, q[..k]) == IsFile(fs, q[..k])
    {
      assert q[..k] != p;
    }
  }

  predicate IsListed(dir: Path, names: seq<string>, q: Path) {
    exists i :: 0 <= i < |names| && q == dir + [names[i]]
  }

  /** Of the placements of a top-level name only the first present is
      removed: the `.pth` file before the module file before the package
      directory; the later ones stay. */
  lemma RemoveTopFirstOnly(fs: FileSystem, site: Path, top: string)
    requires RemoveTop(fs, site, top).Ok?
    ensures var r := RemoveTop(fs, site, top).value;
      var pth := PthFile(site, top);
      var py := ModuleFile(site, top);
      var pkg := PackageDir(site, top);
      && (pth !in r)
      && (pth !in fs ==> py !in r)
      && (pth !in fs && py !in fs ==> pkg !in r)
      && (pth in fs ==> (py in r <==> py in fs) && (pkg in r <==> pkg in fs))
      && (pth !in fs && py in fs ==> (pkg in r <==> pkg in fs))
  {
    var pth := PthFile(site, top);
    var py := ModuleFile(site, top);
    var pkg := PackageDir(site, top);
    DistinctChildren(site, top + ".pth", top + ".py");
    assert (top + ".pth")[|top| + 1] == 'p' && (top + ".py")[|top| + 1] == 'p';
    assert |top + ".pth"| != |top + ".py"|;
    assert top + ".pth" != top && top + ".py" != top;
    DistinctChildren(site, top + ".pth", top);
    DistinctChildren(site, top + ".py", top);
    assert IsPrefix(pkg, pkg);
  }

  /** A second lookup with the cache the first one left answers the same,
      once the first found the package. */
  lemma FindInstalledAgain(fs: FileSystem, cache: Index, listing: seq<Path>, package: string)
    requires var found := SiteIndex.FindInstalled(fs, cache, listing, package).1;
      found.Ok? && found.value.Some?
    ensures var (cache1, found) := SiteIndex.FindInstalled(fs, cache, listing, package);
      SiteIndex.FindInstalled(fs, cache1, listing, package) == (cache1, found)
  {
    var key := IndexKey(NormalizeName(package).value);
    var cache1 := SiteIndex.FindInstalled(fs, cache, listing, package).0;
    assert key in cache1;
  }

  /** Uninstalling a package that no dist-info directory registers reports
      False and leaves the filesystem alone; `uninstall_local` then fails
      with "not installed". */
  lemma UninstallAbsent(fs: FileSystem, env: Env, listing: seq<Path>, package: string)
    requires IsListing(fs, env.site, listing) && Clean(fs, env.site) && UniqueKeys(fs, env.site)
    requires NormalizeName(package).Ok?
    requires forall c :: IsCandidate(fs, env.site, c) ==> !Registers(fs, c, IndexKey(NormalizeName(package).value))
    ensures var u := UninstallImplSpec(fs, map[], env, listing, package);
      u.result == Ok(false) && u.fs == fs
    ensures var u := UninstallLocalSpec(fs, map[], env, listing, package);
      u.result == Err(NotInstalled(package)) && u.fs == fs
  {
    FindFresh(fs, env.site, listing, package);
  }

  /** Once the only directory registering `key` is gone, and nothing was
      added, no directory registers it. */
  lemma ForgottenKey(fs: FileSystem, fs': FileSystem, site: Path, d: Path, key: string)
    requires KeepsRecords(fs, fs', site) && UniqueKeys(fs, site)
    requires IsCandidate(fs, site, d) && Registers(fs, d, key) && d !in fs'
    ensures forall c :: IsCandidate(fs', site, c) ==> !Registers(fs', c, key)
  {
    forall c | IsCandidate(fs', site, c)
      ensures !Registers(fs', c, key)
    {
      KeepsRecordsRead(fs, fs', site, c);
    }
  }

  /** After a successful uninstall no dist-info directory of the site
      registers the package any more, and the site stays readable with
      unique keys. */
  lemma UninstallForgets(fs: FileSystem, cache: Index, env: Env, listing: seq<Path>, package: string)
    requires WF(fs) && IsListing(fs, env.site, listing) && Clean(fs, env.site) && UniqueKeys(fs, env.site)
    requires NormalizeName(package).Ok?
    requires SiteIndex.FindInstalled(fs, cache, listing, package).1 == SiteIndex.FindInstalled(fs, map[], listing, package).1
    requires UninstallImplSpec(fs, cache, env, listing, package).result == Ok(true)
    ensures var fs' := UninstallImplSpec(fs, cache, env, listing, package).fs;
      var key := IndexKey(NormalizeName(package).value);
      && WF(fs') && Clean(fs', env.site) && UniqueKeys(fs', env.site)
      && forall c :: IsCandidate(fs', env.site, c) ==> !Registers(fs', c, key)
  {
    var fs' := UninstallImplSpec(fs, cache, env, listing, package).fs;
    var key := IndexKey(NormalizeName(package).value);
    UninstallShrinks(fs, cache, env, listing, package);
    FindFresh(fs, env.site, listing, package);
    UninstallDropsDistInfo(fs, cache, env, listing, package);
    var d := SiteIndex.FindInstalled(fs, cache, listing, package).1.value.value.1;
    RemovalKeepsRecords(fs, fs', env.site);
    KeepsRecordsClean(fs, fs', env.site);
    KeepsRecordsUnique(fs, fs', env.site);
    ForgottenKey(fs, fs', env.site, d, key);
  }

  /** The next process no longer finds an uninstalled package, whatever
      order the glob yields the site in. */
  lemma UninstallThenNotFound(fs: FileSystem, env: Env, listing: seq<Path>, listing': seq<Path>, package: string)
    requires WF(fs) && IsListing(fs, env.site, listing) && Clean(fs, env.site) && UniqueKeys(fs, env.site)
    requires UninstallLocalSpec(fs, map[], env, listing, package).result.Ok?
    requires IsListing(UninstallLocalSpec(fs, map[], env, listing, package).fs, env.site, listing')
    ensures var fs' := UninstallLocalSpec(fs, map[], env, listing, package).fs;
      SiteIndex.FindInstalled(fs', map[], listing', package).1 == Ok(None)
  {
    var fs' := UninstallLocalSpec(fs, map[], env, listing, package).fs;
    assert NormalizeName(package).Ok?;
    UninstallForgets(fs, map[], env, listing, package);
    FindFresh(fs', env.site, listing', package);
  }

  // Installing.

  /** Nothing at or below a name that is no `*.dist-info` name is read by the index. */
  lemma NotRelevantBelow(site: Path, top: string, t: Path)
    requires !IsDistInfoName(top) && IsPrefix(site + [top], t)
    ensures !IndexRelevant(site, t)
  {
    assert t[|site|] == (site + [top])[|site|] == top;
  }

  /** The names a placement takes in the site are no dist-info names. */
  lemma PlacementNames(m: string)
    requires '.' !in m
    ensures !IsDistInfoName(m + ".pth") && !IsDistInfoName(m + ".py") && !IsDistInfoName(m)
  {
    var a := m + ".pth";
    assert !EndsWith(a, ".dist-info") by {
      if |a| >= 10 {
        assert a[|a| - 10..][9] == a[|a| - 1] == 'h';
      }
    }
    var b := m + ".py";
    assert !EndsWith(b, ".dist-info") by {
      if |b| >= 10 {
        assert b[|b| - 10..][9] == b[|b| - 1] == 'y';
      }
    }
    assert !EndsWith(m, ".dist-info") by {
      if |m| >= 10 {
        assert m[|m| - 10..][0] == m[|m| - 10] != '.';
      }
    }
  }

  /** Placing the source keeps the filesystem well formed. */
  lemma PlaceWF(fs: FileSystem, env: Env, p: PyProject, editable: bool)
    requires WF(fs) && PlaceSpec(fs, env, p, editable).Ok?
    ensures WF(PlaceSpec(fs, env, p, editable).value)
  {
    if editable {
      WriteWF(fs, PthFile(env.site, p.moduleName), Text(PthLine(p)), env.newMode);
    } else if IsFile(fs, p.source) {
      CopyFileWF(fs, p.source, ModuleFile(env.site, p.moduleName));
    } else {
      CopyTreeWF(fs, p.source, PackageDir(env.site, p.moduleName));
    }
  }

  /** Placing the source leaves the records alone: it writes only at and
      below the `.pth` file, the module file or the package directory. */
  lemma PlaceKeepsRecords(fs: FileSystem, env: Env, p: PyProject, editable: bool)
    requires '.' !in p.moduleName && PlaceSpec(fs, env, p, editable).Ok?
    ensures KeepsRecords(fs, PlaceSpec(fs, env, p, editable).value, env.site)
  {
    var m := p.moduleName;
    var fs1 := PlaceSpec(fs, env, p, editable).value;
    PlacementNames(m);
    if editable {
      NotRelevantBelow(env.site, m + ".pth", PthFile(env.site, m));
    } else if IsFile(fs, p.source) {
      var dst := ModuleFile(env.site, m);
      var target := CopyTarget(fs, p.source, dst);
      assert IsPrefix(dst, target);
      NotRelevantBelow(env.site, m + ".py", target);
    } else {
      var dst := PackageDir(env.site, m);
      forall t | t in fs1 && IndexRelevant(env.site, t)
        ensures t in fs && fs1[t] == fs[t]
      {
        if IsPrefix(dst, t) {
          NotRelevantBelow(env.site, m, t);
        }
      }
    }
  }

  /** The launchers add or change entries directly in `dir` only. */
  lemma {:induction false} WriteLaunchersFrame(fs: FileSystem, dir: Path, scripts: Scripts, mode: bv16)
    ensures var r := WriteLaunchers(fs, dir, scripts, mode).fs;
      && (forall q :: q in fs ==> q in r)
      && (forall q :: q in r && (q == [] || Parent(q) != dir) ==> q in fs && r[q] == fs[q])
    decreases |scripts|
  {
    if scripts != [] && WriteLauncher(fs, dir, scripts[0].0, scripts[0].1, mode).Ok? {
      WriteLauncherEffect(fs, dir, scripts[0].0, scripts[0].1, mode);
      assert Parent(dir + [scripts[0].0]) == dir;
      WriteLaunchersFrame(WriteLauncher(fs, dir, scripts[0].0, scripts[0].1, mode).value, dir, scripts[1..], mode);
    }
  }

  lemma {:induction false} WriteLaunchersWF(fs: FileSystem, dir: Path, scripts: Scripts, mode: bv16)
    requires WF(fs)
    ensures WF(WriteLaunchers(fs, dir, scripts, mode).fs)
    decreases |scripts|
  {
    if scripts != [] && WriteLauncher(fs, dir, scripts[0].0, scripts[0].1, mode).Ok? {
      assert Parent(dir + [scripts[0].0]) == dir;
      WriteLaunchersWF(WriteLauncher(fs, dir, scripts[0].0, scripts[0].1, mode).value, dir, scripts[1..], mode);
    }
  }

  /** `install_scripts` adds or changes nothing outside the bin directory,
      whether it succeeds or stops half way. */
  lemma InstallScriptsFrame(fs: FileSystem, env: Env, scripts: Scripts)
    ensures var r := InstallScriptsSpec(fs, env, scripts).fs;
      && (forall q :: q in fs ==> q in r)
      && (forall q :: q in r && q != env.bin && (q == [] || Parent(q) != env.bin) ==> q in fs && r[q] == fs[q])
  {
    if MakeDirExistOk(fs, env.bin).Ok? {
      WriteLaunchersFrame(MakeDirExistOk(fs, env.bin).value, env.bin, scripts, env.newMode);
    }
  }

  /** Outside the site directory the index reads nothing: neither the bin
      directory nor anything directly in it. */
  lemma BinNotRelevant(site: Path, bin: Path, q: Path)
    requires !IsPrefix(site, bin) && (q == bin || (q != [] && Parent(q) == bin))
    ensures !IndexRelevant(site, q)
  {
    if q != bin && |q| >= |site| + 1 {
      assert q[..|site|] == bin[..|site|];
    }
  }

  /** `install_scripts` keeps the filesystem well formed and the records
      alone, whether it succeeds or stops half way. */
  lemma InstallScriptsKeepsRecords(fs: FileSystem, env: Env, scripts: Scripts)
    requires WF(fs) && !IsPrefix(env.site, env.bin)
    ensures var r := InstallScriptsSpec(fs, env, scripts).fs;
      WF(r) && KeepsRecords(fs, r, env.site)
  {
    InstallScriptsFrame(fs, env, scripts);
    if MakeDirExistOk(fs, env.bin).Ok? {
      MakeDirWF(fs, env.bin);
      WriteLaunchersWF(MakeDirExistOk(fs, env.bin).value, env.bin, scripts, env.newMode);
      var r := InstallScriptsSpec(fs, env, scripts).fs;
      forall q | q in r && IndexRelevant(env.site, q)
        ensures q in fs && r[q] == fs[q]
      {
        if q == env.bin || (q != [] && Parent(q) == env.bin) {
          BinNotRelevant(env.site, env.bin, q);
        }
      }
    }
  }

  /** The records of a new dist-info directory change how no other candidate reads. */
  lemma WithRecordsOthers(fs: FileSystem, d: Path, p: PyProject, mode: bv16, c: Path)
    requires |c| == |d| && c != d
    ensures var fs' := WithRecords(fs, d, p, mode);
      (c in fs' <==> c in fs) && Read(fs', c) == Read(fs, c)
  {
    var meta := MetaPath(c);
    assert meta[..|d|] == c;
    assert (d + [InstallerFile])[..|d|] == d && (d + [MetadataFile])[..|d|] == d;
    assert (d + [TopLevelFile])[..|d|] == d && (d + [EntryPointsFile])[..|d|] == d;
  }

  /** Adding the records of a package keeps a clean site clean. */
  lemma RecordsAddedClean(fs: FileSystem, site: Path, p: PyProject, mode: bv16)
    requires Clean(fs, site)
    requires NormalizeName(p.name) == Ok(p.distinfoName)
    ensures Clean(WithRecords(fs, DistInfoPath(site, p.distinfoName, p.version), p, mode), site)
  {
    var d := DistInfoPath(site, p.distinfoName, p.version);
    var fs' := WithRecords(fs, d, p, mode);
    RecordsRead(fs, site, p, mode);
    forall c | IsCandidate(fs', site, c)
      ensures !Read(fs', c).Unreadable?
    {
      if c != d {
        WithRecordsOthers(fs, d, p, mode, c);
        assert IsCandidate(fs, site, c);
      }
    }
  }

  /** Adding the records of a package no other candidate registers keeps
      the keys of the site unique. */
  lemma RecordsAddedUnique(fs: FileSystem, site: Path, p: PyProject, mode: bv16)
    requires UniqueKeys(fs, site)
    requires NormalizeName(p.name) == Ok(p.distinfoName)
    requires forall c :: IsCandidate(fs, site, c) ==> !Registers(fs, c, IndexKey(p.distinfoName))
    ensures UniqueKeys(WithRecords(fs, DistInfoPath(site, p.distinfoName, p.version), p, mode), site)
  {
    var d := DistInfoPath(site, p.distinfoName, p.version);
    var fs' := WithRecords(fs, d, p, mode);
    RecordsRead(fs, site, p, mode);
    forall c1, c2, k | IsCandidate(fs', site, c1) && IsCandidate(fs', site, c2)
      && Registers(fs', c1, k) && Registers(fs', c2, k)
      ensures c1 == c2
    {
      if c1 != d {
        WithRecordsOthers(fs, d, p, mode, c1);
        assert IsCandidate(fs, site, c1) && Registers(fs, c1, k);
      }
      if c2 != d {
        WithRecordsOthers(fs, d, p, mode, c2);
        assert IsCandidate(fs, site, c2) && Registers(fs, c2, k);
      }
    }
  }

  /** Placing and recording keeps the filesystem well formed, whether or not it succeeds. */
  lemma PlaceAndRecordWF(fs: FileSystem, cache: Index, env: Env, p: PyProject, editable: bool)
    requires WF(fs) && !IsPrefix(env.site, env.bin)
    ensures WF(PlaceAndRecordSpec(fs, cache, env, p, editable).fs)
  {
    if PlaceSpec(fs, env, p, editable).Ok? {
      var fs1 := PlaceSpec(fs, env, p, editable).value;
      PlaceWF(fs, env, p, editable);
      InstallScriptsKeepsRecords(fs1, env, p.scripts);
      var fs2 := InstallScriptsSpec(fs1, env, p.scripts).fs;
      InstallMetadataEffect(fs2, env.site, p, env.newMode);
      var d := DistInfoPath(env.site, p.distinfoName, p.version);
      if d !in fs2 && IsDir(fs2, env.site) {
        assert Parent(d) == env.site;
        WithRecordsWF(fs2, d, p, env.newMode);
      }
    }
  }

  /** After placing, writing the launchers and the records, the site is
      still clean with unique keys, and the new dist-info directory registers
      the project under its key with its version. */
  lemma PlaceAndRecordIndexed(fs: FileSystem, cache: Index, env: Env, p: PyProject, editable: bool)
    requires WF(fs) && Clean(fs, env.site) && UniqueKeys(fs, env.site) && !IsPrefix(env.site, env.bin)
    requires NormalizeName(p.name) == Ok(p.distinfoName) && NoLineBreak(p.version) && '.' !in p.moduleName
    requires forall c :: IsCandidate(fs, env.site, c) ==> !Registers(fs, c, IndexKey(p.distinfoName))
    requires PlaceAndRecordSpec(fs, cache, env, p, editable).result.Ok?
    ensures var fs' := PlaceAndRecordSpec(fs, cache, env, p, editable).fs;
      var d := DistInfoPath(env.site, p.distinfoName, p.version);
      && Clean(fs', env.site) && UniqueKeys(fs', env.site)
      && IsCandidate(fs', env.site, d)
      && Read(fs', d) == RecordsReading(p, d)
  {
    var fs1 := PlaceSpec(fs, env, p, editable).value;
    PlaceWF(fs, env, p, editable);
    PlaceKeepsRecords(fs, env, p, editable);
    InstallScriptsKeepsRecords(fs1, env, p.scripts);
    var fs3 := InstallScriptsSpec(fs1, env, p.scripts).fs;
    KeepsRecordsTrans(fs, fs1, fs3, env.site);
    KeepsRecordsClean(fs, fs3, env.site);
    KeepsRecordsUnique(fs, fs3, env.site);
    KeepsRecordsAbsent(fs, fs3, env.site, IndexKey(p.distinfoName));
    InstallMetadataEffect(fs3, env.site, p, env.newMode);
    RecordsRead(fs3, env.site, p, env.newMode);
    RecordsAddedClean(fs3, env.site, p, env.newMode);
    RecordsAddedUnique(fs3, env.site, p, env.newMode);
  }

  /** A fresh process that finds the version a project declares already
      installed does nothing and succeeds, editable or not. */
  lemma InstallLocalSameVersion(fs: FileSystem, env: Env, listing: seq<Path>, location: Path,
                                table: Option<ProjectTable>, editable: bool, c: Path)
    requires IsListing(fs, env.site, listing) && Clean(fs, env.site) && UniqueKeys(fs, env.site)
    requires ParsePyProject(fs, location, table).Ok?
    requires var p := ParsePyProject(fs, location, table).value;
      && IsCandidate(fs, env.site, c) && Registers(fs, c, IndexKey(p.distinfoName))
      && Read(fs, c).entry.version == p.version
    ensures var out := InstallLocalSpec(fs, map[], env, listing, location, table, editable);
      out.fs == fs && out.result == Ok(())
  {
    var p := ParsePyProject(fs, location, table).value;
    ParsedName(fs, location, table);
    FindFresh(fs, env.site, listing, p.name);
  }

  /** What a fresh lookup of a package finds when exactly one candidate, `d`, registers it. */
  lemma FindOnly(fs: FileSystem, site: Path, listing: seq<Path>, package: string, d: Path)
    requires IsListing(fs, site, listing) && Clean(fs, site) && UniqueKeys(fs, site)
    requires NormalizeName(package).Ok?
    requires IsCandidate(fs, site, d) && Registers(fs, d, IndexKey(NormalizeName(package).value))
    ensures SiteIndex.FindInstalled(fs, map[], listing, package).1 == Ok(Some((Read(fs, d).entry.version, d)))
  {
    FindFresh(fs, site, listing, package);
  }

  /** A project that was not installed is found by the next process after
      a successful `install_local`, in its new dist-info directory and with
      its version. */
  lemma InstallLocalFresh(fs: FileSystem, env: Env, listing: seq<Path>, listing': seq<Path>, location: Path,
                          table: Option<ProjectTable>, editable: bool)
    requires WF(fs) && IsListing(fs, env.site, listing) && Clean(fs, env.site) && UniqueKeys(fs, env.site)
    requires !IsPrefix(env.site, env.bin)
    requires ParsePyProject(fs, location, table).Ok?
    requires var p := ParsePyProject(fs, location, table).value;
      && RecordedVersion(p.version) != "" && NoLineBreak(p.version)
      && forall c :: IsCandidate(fs, env.site, c) ==> !Registers(fs, c, IndexKey(p.distinfoName))
    requires InstallLocalSpec(fs, map[], env, listing, location, table, editable).result.Ok?
    requires IsListing(InstallLocalSpec(fs, map[], env, listing, location, table, editable).fs, env.site, listing')
    ensures var p := ParsePyProject(fs, location, table).value;
      var fs' := InstallLocalSpec(fs, map[], env, listing, location, table, editable).fs;
      SiteIndex.FindInstalled(fs', map[], listing', p.name).1
        == Ok(Some((RecordedVersion(p.version), DistInfoPath(env.site, p.distinfoName, p.version))))
  {
    var p := ParsePyProject(fs, location, table).value;
    ParsedName(fs, location, table);
    ModuleNameShape(fs, location, table);
    FindFresh(fs, env.site, listing, p.name);
    var cache1 := SiteIndex.FindInstalled(fs, map[], listing, p.name).0;
    PlaceAndRecordIndexed(fs, cache1, env, p, editable);
    var fs' := PlaceAndRecordSpec(fs, cache1, env, p, editable).fs;
    FindOnly(fs', env.site, listing', p.name, DistInfoPath(env.site, p.distinfoName, p.version));
  }

  /** An uninstall that finds the package never reports False. */
  lemma UninstallFound(fs: FileSystem, cache: Index, env: Env, listing: seq<Path>, package: string)
    requires var found := SiteIndex.FindInstalled(fs, cache, listing, package).1;
      found.Ok? && found.value.Some?
    ensures UninstallImplSpec(fs, cache, env, listing, package).result != Ok(false)
  {
  }

  /** `install_local` with another version found: when the uninstall does
      not fail, the outcome is that of placing and recording after it. */
  lemma InstallLocalOtherVersion(fs: FileSystem, cache: Index, env: Env, listing: seq<Path>, location: Path,
                                 table: Option<ProjectTable>, editable: bool)
    requires ParsePyProject(fs, location, table).Ok?
    requires var p := ParsePyProject(fs, location, table).value;
      var found := SiteIndex.FindInstalled(fs, cache, listing, p.name).1;
      found.Ok? && found.value.Some? && found.value.value.0 != p.version
    ensures var p := ParsePyProject(fs, location, table).value;
      var cache1 := SiteIndex.FindInstalled(fs, cache, listing, p.name).0;
      var u := UninstallImplSpec(fs, cache1, env, listing, p.name);
      var r := InstallLocalSpec(fs, cache, env, listing, location, table, editable);
      && (u.result.Err? ==> r == Outcome(u.fs, u.cache, Err(u.result.error)))
      && (u.result.Ok? ==> r == PlaceAndRecordSpec(u.fs, u.cache, env, p, editable))
  {
  }

  /** The steps `install_local` takes when another version is installed:
      the uninstall first, which succeeds with True, then the placement. */
  lemma InstallLocalUpgradeSteps(fs: FileSystem, env: Env, listing: seq<Path>, location: Path,
                                 table: Option<ProjectTable>, editable: bool, c: Path)
    requires IsListing(fs, env.site, listing) && Clean(fs, env.site) && UniqueKeys(fs, env.site)
    requires ParsePyProject(fs, location, table).Ok?
    requires var p := ParsePyProject(fs, location, table).value;
      && IsCandidate(fs, env.site, c) && Registers(fs, c, IndexKey(p.distinfoName))
      && Read(fs, c).entry.version != p.version
    requires InstallLocalSpec(fs, map[], env, listing, location, table, editable).result.Ok?
    ensures var p := ParsePyProject(fs, location, table).value;
      var cache1 := SiteIndex.FindInstalled(fs, map[], listing, p.name).0;
      var u := UninstallImplSpec(fs, cache1, env, listing, p.name);
      && SiteIndex.FindInstalled(fs, cache1, listing, p.name).1 == SiteIndex.FindInstalled(fs, map[], listing, p.name).1
      && u.result == Ok(true)
      && InstallLocalSpec(fs, map[], env, listing, location, table, editable)
         == PlaceAndRecordSpec(u.fs, u.cache, env, p, editable)
  {
    var p := ParsePyProject(fs, location, table).value;
    ParsedName(fs, location, table);
    FindOnly(fs, env.site, listing, p.name, c);
    FindInstalledAgain(fs, map[], listing, p.name);
    var cache1 := SiteIndex.FindInstalled(fs, map[], listing, p.name).0;
    UninstallFound(fs, cache1, env, listing, p.name);
    InstallLocalOtherVersion(fs, map[], env, listing, location, table, editable);
  }

  /** Replacing another installed version: after a successful
      `install_local` the next process finds the version the project
      declares, in its new dist-info directory. */
  lemma InstallLocalUpgrade(fs: FileSystem, env: Env, listing: seq<Path>, listing': seq<Path>, location: Path,
                            table: Option<ProjectTable>, editable: bool, c: Path)
    requires WF(fs) && IsListing(fs, env.site, listing) && Clean(fs, env.site) && UniqueKeys(fs, env.site)
    requires !IsPrefix(env.site, env.bin)
    requires ParsePyProject(fs, location, table).Ok?
    requires var p := ParsePyProject(fs, location, table).value;
      && RecordedVersion(p.version) != "" && NoLineBreak(p.version)
      && IsCandidate(fs, env.site, c) && Registers(fs, c, IndexKey(p.distinfoName))
      && Read(fs, c).entry.version != p.version
    requires InstallLocalSpec(fs, map[], env, listing, location, table, editable).result.Ok?
    requires IsListing(InstallLocalSpec(fs, map[], env, listing, location, table, editable).fs, env.site, listing')
    ensures var p := ParsePyProject(fs, location, table).value;
      var fs' := InstallLocalSpec(fs, map[], env, listing, location, table, editable).fs;
      SiteIndex.FindInstalled(fs', map[], listing', p.name).1
        == Ok(Some((RecordedVersion(p.version), DistInfoPath(env.site, p.distinfoName, p.version))))
  {
    var p := ParsePyProject(fs, location, table).value;
    ParsedName(fs, location, table);
    ModuleNameShape(fs, location, table);
    InstallLocalUpgradeSteps(fs, env, listing, location, table, editable, c);
    var cache1 := SiteIndex.FindInstalled(fs, map[], listing, p.name).0;
    var u := UninstallImplSpec(fs, cache1, env, listing, p.name);
    UninstallForgets(fs, cache1, env, listing, p.name);
    PlaceAndRecordIndexed(u.fs, u.cache, env, p, editable);
    var fs' := PlaceAndRecordSpec(u.fs, u.cache, env, p, editable).fs;
    FindOnly(fs', env.site, listing', p.name, DistInfoPath(env.site, p.distinfoName, p.version));
  }

  /** Because the records are written last, an `install_local` placement
      that fails at any step leaves the records alone: a package that was
      not indexed is still not indexed. */
  lemma PlaceAndRecordFailed(fs: FileSystem, cache: Index, env: Env, p: PyProject, editable: bool)
    requires WF(fs) && '.' !in p.moduleName && !IsPrefix(env.site, env.bin)
    requires PlaceAndRecordSpec(fs, cache, env, p, editable).result.Err?
    ensures var fs' := PlaceAndRecordSpec(fs, cache, env, p, editable).fs;
      var key := IndexKey(p.distinfoName);
      && KeepsRecords(fs, fs', env.site)
      && ((forall c :: IsCandidate(fs, env.site, c) ==> !Registers(fs, c, key)) ==>
          (forall c :: IsCandidate(fs', env.site, c) ==> !Registers(fs', c, key)))
  {
    var fs' := PlaceAndRecordSpec(fs, cache, env, p, editable).fs;
    if PlaceSpec(fs, env, p, editable).Ok? {
      var fs1 := PlaceSpec(fs, env, p, editable).value;
      PlaceWF(fs, env, p, editable);
      PlaceKeepsRecords(fs, env, p, editable);
      InstallScriptsKeepsRecords(fs1, env, p.scripts);
      var fs3 := InstallScriptsSpec(fs1, env, p.scripts).fs;
      KeepsRecordsTrans(fs, fs1, fs3, env.site);
      InstallMetadataEffect(fs3, env.site, p, env.newMode);
    }
    var key := IndexKey(p.distinfoName);
    if forall c :: IsCandidate(fs, env.site, c) ==> !Registers(fs, c, key) {
      KeepsRecordsAbsent(fs, fs', env.site, key);
    }
  }

  // Installing wheels.

  /** Unpacking adds nothing that is neither extracted from the archive,
      nor the INSTALLER record, nor the bin directory or a launcher in it. */
  lemma UnpackWheelFrame(fs: FileSystem, cache: Index, env: Env, location: Path, archive: map<Path, Node>,
                         name: string, version: string, q: Path)
    requires q !in fs && !Extracted(env.site, archive, q)
    requires q != DistInfoPath(env.site, name, version) + [InstallerFile]
    requires q != env.bin && (q == [] || Parent(q) != env.bin)
    ensures q !in UnpackWheelSpec(fs, cache, env, location, archive, name, version).fs
  {
    if IsFile(fs, location) {
      var fs1 := Extract(fs, env.site, archive);
      var distInfo := DistInfoPath(env.site, name, version);
      if Poopmark(fs1, distInfo, env.newMode).Ok? {
        var fs2 := Poopmark(fs1, distInfo, env.newMode).value;
        if WheelScripts(fs2, distInfo).Ok? {
          InstallScriptsFrame(fs2, env, WheelScripts(fs2, distInfo).value);
        }
      }
    }
  }

  /** `install_wheel` as written with the package found: the uninstall
      always runs, and when it does not fail the archive is unpacked after it. */
  lemma InstallWheelAsWrittenFound(fs: FileSystem, cache: Index, env: Env, listing: seq<Path>,
                                   location: Path, archive: map<Path, Node>)
    requires ParseWheelName(Basename(location)).Ok?
    requires var name := ParseWheelName(Basename(location)).value.0;
      var found := SiteIndex.FindInstalled(fs, cache, listing, name).1;
      found.Ok? && found.value.Some?
    ensures var (name, version) := ParseWheelName(Basename(location)).value;
      var cache1 := SiteIndex.FindInstalled(fs, cache, listing, name).0;
      var u := UninstallImplSpec(fs, cache1, env, listing, name);
      var r := InstallWheelAsWritten(fs, cache, env, listing, location, archive);
      && (u.result.Err? ==> r == Outcome(u.fs, u.cache, Err(u.result.error)))
      && (u.result.Ok? ==> r == UnpackWheelSpec(u.fs, u.cache, env, location, archive, name, version))
  {
  }

  /** An uninstall that does not fail, after a lookup that found the
      package, leaves nothing of its dist-info directory. */
  lemma UninstallClears(fs: FileSystem, cache: Index, env: Env, listing: seq<Path>, package: string, q: Path)
    requires WF(fs)
    requires var found := SiteIndex.FindInstalled(fs, cache, listing, package).1;
      found.Ok? && found.value.Some? && IsPrefix(found.value.value.1, q)
    requires var cache1 := SiteIndex.FindInstalled(fs, cache, listing, package).0;
      UninstallImplSpec(fs, cache1, env, listing, package).result.Ok?
    ensures var cache1 := SiteIndex.FindInstalled(fs, cache, listing, package).0;
      q !in UninstallImplSpec(fs, cache1, env, listing, package).fs
  {
    var cache1 := SiteIndex.FindInstalled(fs, cache, listing, package).0;
    FindInstalledAgain(fs, cache, listing, package);
    UninstallFound(fs, cache1, env, listing, package);
    UninstallRemovesDistInfo(fs, cache1, env, listing, package);
  }

  /** `install_wheel` as written reinstalls a wheel whose version is
      already installed: whatever the installed dist-info directory held
      beyond what the archive brings back (a `REQUESTED` or `RECORD` file
      another installer wrote, say) is gone after a successful run. */
  lemma InstallWheelAsWrittenReinstalls(fs: FileSystem, cache: Index, env: Env, listing: seq<Path>,
                                        location: Path, archive: map<Path, Node>, q: Path)
    requires WF(fs) && ParseWheelName(Basename(location)).Ok?
    requires var (name, version) := ParseWheelName(Basename(location)).value;
      var found := SiteIndex.FindInstalled(fs, cache, listing, name).1;
      && found.Ok? && found.value.Some? && found.value.value.0 == version
      && q in fs && IsPrefix(found.value.value.1, q) && !Extracted(env.site, archive, q)
      && q != DistInfoPath(env.site, name, version) + [InstallerFile]
      && q != env.bin && (q == [] || Parent(q) != env.bin)
    requires InstallWheelAsWritten(fs, cache, env, listing, location, archive).result.Ok?
    ensures q !in InstallWheelAsWritten(fs, cache, env, listing, location, archive).fs
  {
    var (name, version) := ParseWheelName(Basename(location)).value;
    var cache1 := SiteIndex.FindInstalled(fs, cache, listing, name).0;
    var u := UninstallImplSpec(fs, cache1, env, listing, name);
    InstallWheelAsWrittenFound(fs, cache, env, listing, location, archive);
    UninstallClears(fs, cache, env, listing, name, q);
    UnpackWheelFrame(u.fs, u.cache, env, location, archive, name, version, q);
  }

  /** `install_wheel` as intended leaves a wheel whose version is already
      installed alone, as `install_local` does. */
  lemma InstallWheelSameVersionKept(fs: FileSystem, cache: Index, env: Env, listing: seq<Path>,
                                    location: Path, archive: map<Path, Node>)
    requires ParseWheelName(Basename(location)).Ok?
    requires var (name, version) := ParseWheelName(Basename(location)).value;
      var found := SiteIndex.FindInstalled(fs, cache, listing, name).1;
      found.Ok? && found.value.Some? && found.value.value.0 == version
    ensures var name := ParseWheelName(Basename(location)).value.0;
      InstallWheelSpec(fs, cache, env, listing, location, archive)
        == Outcome(fs, SiteIndex.FindInstalled(fs, cache, listing, name).0, Ok(()))
  {
  }

  /** `install` refuses a missing location and an editable wheel before
      touching anything. */
  lemma InstallRejects(fs: FileSystem, cache: Index, env: Env, listing: seq<Path>, location: Path,
                       editable: bool, table: Option<ProjectTable>, archive: map<Path, Node>)
    ensures var out := InstallSpec(fs, cache, env, listing, location, editable, table, archive);
      && (location !in fs ==> out == Outcome(fs, cache, Err(SourceNotFound(location))))
      && (location in fs && EndsWith(Basename(location), ".whl") && editable ==>
            out == Outcome(fs, cache, Err(EditableWheel(location))))
      && (out.result.Ok? && EndsWith(Basename(location), ".whl") ==> !editable)
  {
  }
}
