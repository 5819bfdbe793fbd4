/** Console-script launchers (`install_scripts`, poopip.py:385-407, and
    `_install_scripts`, poop.py:67-87): for each `name = "module:func"`
    entry a stub file `dir/name` that imports `module` and calls `func`,
    made executable for owner, group and others. */
module Launchers {
  import opened Base
  import opened Strings
  import opened Files

  /** A script table in its iteration order: name and `module:func` spec. */
  type Scripts = seq<(string, string)>

  /** `module, func = spec.split(":")`: the unpacking fails unless there are exactly two parts. */
  function SplitSpec(spec: string): (r: Result<(string, string)>)
    ensures r.Ok? <==> Count(spec, ':') == 1
    ensures r.Ok? ==> r.value.0 + ":" + r.value.1 == spec && ':' !in r.value.0 && ':' !in r.value.1
    ensures r.Err? ==> r.error == BadScriptSpec(spec)
  {
    var parts := Split(spec, ':');
    if |parts| == 2 then
      JoinSplit(spec, ':');
      assert Join(parts, ':') == parts[0] + [':'] + Join(parts[1..], ':');
      Ok((parts[0], parts[1]))
    else Err(BadScriptSpec(spec))
  }

  /** `chmod(st_mode | S_IXUSR | S_IXGRP | S_IXOTH)` after the write: the
      mode the file was written with, plus the execute bits. */
  function ExecMode(fs: FileSystem, p: Path, newMode: bv16): bv16 {
    (if p in fs && fs[p].File? then fs[p].mode else newMode) | ExecBits
  }

  /** The stub for one script: open and write `dir/name`, then add the execute bits. */
  function WriteLauncher(fs: FileSystem, dir: Path, name: string, spec: string, newMode: bv16): (r: Result<FileSystem>)
    ensures r.Ok? <==> SplitSpec(spec).Ok? && !IsDir(fs, dir + [name]) && IsDir(fs, dir)
    ensures r.Ok? ==> r.value == fs[dir + [name] := File(Launcher(SplitSpec(spec).value.0, SplitSpec(spec).value.1),
                                                      ExecMode(fs, dir + [name], newMode))]
  {
    var p := dir + [name];
    assert Parent(p) == dir;
    match SplitSpec(spec)
    case Err(e) => Err(e)
    case Ok((m, f)) =>
      match Write(fs, p, Launcher(m, f), newMode)
      case Err(e) => Err(e)
      case Ok(fs1) => Ok(fs1[p := File(fs1[p].content, ExecMode(fs, p, newMode))])
  }

  /** The loop over the script table: one stub after the other, stopping at the first failure. */
  function WriteLaunchers(fs: FileSystem, dir: Path, scripts: Scripts, newMode: bv16): Run
    decreases |scripts|
  {
    if scripts == [] then Run(fs, None)
    else match WriteLauncher(fs, dir, scripts[0].0, scripts[0].1, newMode)
      case Err(e) => Run(fs, Some(e))
      case Ok(fs1) => WriteLaunchers(fs1, dir, scripts[1..], newMode)
  }

  /** `p` holds the stub for `spec`, executable by everyone. */
  predicate IsLauncherFor(fs: FileSystem, p: Path, spec: string) {
    && IsFile(fs, p)
    && SplitSpec(spec).Ok?
    && fs[p].content == Launcher(SplitSpec(spec).value.0, SplitSpec(spec).value.1)
    && fs[p].mode & ExecBits == ExecBits
  }

  /** `q` is the stub path of one of the scripts. */
  predicate IsTarget(dir: Path, scripts: Scripts, q: Path) {
    exists i :: 0 <= i < |scripts| && q == dir + [scripts[i].0]
  }

  predicate DistinctNames(scripts: Scripts) {
    forall i, j :: 0 <= i < j < |scripts| ==> scripts[i].0 != scripts[j].0
  }

  /** Running two tables one after the other is running their concatenation. */
  lemma {:induction false} WriteLaunchersAppend(fs: FileSystem, dir: Path, s1: Scripts, s2: Scripts, mode: bv16)
    ensures WriteLaunchers(fs, dir, s1 + s2, mode) ==
      var r1 := WriteLaunchers(fs, dir, s1, mode);
      if r1.error.None? then WriteLaunchers(r1.fs, dir, s2, mode) else r1
    decreases |s1|
  {
    if s1 == [] {
      assert s1 + s2 == s2;
    } else {
      assert (s1 + s2)[0] == s1[0];
      assert (s1 + s2)[1..] == s1[1..] + s2;
      match WriteLauncher(fs, dir, s1[0].0, s1[0].1, mode)
      case Err(_) =>
      case Ok(fs1) => WriteLaunchersAppend(fs1, dir, s1[1..], s2, mode);
    }
  }

  /** The stubs are all written exactly when every spec is `module:func`, no
      stub path is a directory, and the directory exists (when there is
      anything to write). */
  lemma {:induction false} WriteLaunchersSucceeds(fs: FileSystem, dir: Path, scripts: Scripts, mode: bv16)
    ensures WriteLaunchers(fs, dir, scripts, mode).error.None? <==>
      (scripts == [] || IsDir(fs, dir))
      && forall i :: 0 <= i < |scripts| ==> SplitSpec(scripts[i].1).Ok? && !IsDir(fs, dir + [scripts[i].0])
    decreases |scripts|
  {
    if scripts != [] {
      var rest := scripts[1..];
      assert forall i :: 1 <= i < |scripts| ==> scripts[i] == rest[i - 1];
      match WriteLauncher(fs, dir, scripts[0].0, scripts[0].1, mode)
      case Err(_) =>
      case Ok(fs1) =>
        WriteLaunchersSucceeds(fs1, dir, rest, mode);
        var p := dir + [scripts[0].0];
        assert IsDir(fs1, dir) == IsDir(fs, dir) by {
          assert p != dir;
        }
        assert forall n :: IsDir(fs1, dir + [n]) <==> IsDir(fs, dir + [n]) && dir + [n] != p;
    }
  }

  /** After a successful write `dir/name` holds the stub for `spec` and nothing else changed. */
  lemma WriteLauncherEffect(fs: FileSystem, dir: Path, name: string, spec: string, mode: bv16)
    requires WriteLauncher(fs, dir, name, spec, mode).Ok?
    ensures var fs' := WriteLauncher(fs, dir, name, spec, mode).value;
      && IsLauncherFor(fs', dir + [name], spec)
      && (forall q :: q != dir + [name] ==> (q in fs' <==> q in fs) && (q in fs ==> fs'[q] == fs[q]))
  {
  }

  /** After a successful run every script has its stub and nothing else changed. */
  lemma {:induction false} WriteLaunchersEffect(fs: FileSystem, dir: Path, scripts: Scripts, mode: bv16)
    requires DistinctNames(scripts)
    requires WriteLaunchers(fs, dir, scripts, mode).error.None?
    ensures var fs' := WriteLaunchers(fs, dir, scripts, mode).fs;
      && (forall i :: 0 <= i < |scripts| ==> IsLauncherFor(fs', dir + [scripts[i].0], scripts[i].1))
      && (forall q :: !IsTarget(dir, scripts, q) ==> (q in fs' <==> q in fs) && (q in fs ==> fs'[q] == fs[q]))
    decreases |scripts|
  {
    if scripts != [] {
      var fs1 := WriteLauncher(fs, dir, scripts[0].0, scripts[0].1, mode).value;
      WriteLauncherEffect(fs, dir, scripts[0].0, scripts[0].1, mode);
      WriteLaunchersEffect(fs1, dir, scripts[1..], mode);
      EffectCompose(fs, fs1, WriteLaunchers(fs1, dir, scripts[1..], mode).fs, dir, scripts);
    }
  }

  /** One stub followed by the stubs of the rest of the table. */
  lemma EffectCompose(fs: FileSystem, fs1: FileSystem, fs': FileSystem, dir: Path, scripts: Scripts)
    requires |scripts| > 0 && DistinctNames(scripts)
    requires IsLauncherFor(fs1, dir + [scripts[0].0], scripts[0].1)
    requires forall q :: q != dir + [scripts[0].0] ==> (q in fs1 <==> q in fs) && (q in fs ==> fs1[q] == fs[q])
    requires forall i :: 0 <= i < |scripts[1..]| ==> IsLauncherFor(fs', dir + [scripts[1..][i].0], scripts[1..][i].1)
    requires forall q :: !IsTarget(dir, scripts[1..], q) ==> (q in fs' <==> q in fs1) && (q in fs1 ==> fs'[q] == fs1[q])
    ensures forall i :: 0 <= i < |scripts| ==> IsLauncherFor(fs', dir + [scripts[i].0], scripts[i].1)
    ensures forall q :: !IsTarget(dir, scripts, q) ==> (q in fs' <==> q in fs) && (q in fs ==> fs'[q] == fs[q])
  {
    var rest := scripts[1..];
    var p := dir + [scripts[0].0];
    assert forall i :: 1 <= i < |scripts| ==> scripts[i] == rest[i - 1];
    forall i | 0 <= i < |rest|
      ensures p != dir + [rest[i].0]
    {
      assert (dir + [rest[i].0])[|dir|] == rest[i].0 == scripts[i + 1].0;
    }
    forall q, i | !IsTarget(dir, scripts, q) && 0 <= i < |rest|
      ensures q != dir + [rest[i].0]
    {
      assert rest[i] == scripts[i + 1];
    }
  }
}
