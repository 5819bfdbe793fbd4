/** The filesystem as the installer sees it: a map from absolute paths to
    files and directories, and the `os`, `pathlib` and `shutil` calls of
    poopip.py and poop.py as total functions that either give the new
    filesystem or the error the call raises. */
module Files {
  import opened Base
  import opened Strings

  /** What a file holds. Text files are plain strings; a METADATA file is
      kept as the header lines it parses to, in file order, each name with
      the raw text after its colon; a launcher stub is opaque apart from the
      entry point it calls. */
  datatype Content =
    | Text(text: string)
    | Headers(fields: seq<(string, string)>)
    | Launcher(moduleName: string, funcName: string)

  /** A file carries its permission bits; a directory carries nothing. */
  datatype Node = File(content: Content, mode: bv16) | Dir

  type FileSystem = map<Path, Node>

  /** A sequence of filesystem calls run until the first one raises: the
      filesystem it leaves and the error, if one was raised. */
  datatype Run = Run(fs: FileSystem, error: Option<Error>)

  /** The owner, group and other execute bits (`S_IXUSR | S_IXGRP | S_IXOTH`, octal 111). */
  const ExecBits: bv16 := 0x49

  /** `Path.parent`: the root is its own parent. */
  function Parent(p: Path): Path {
    if p == [] then [] else p[..|p| - 1]
  }

  /** `Path.name`: the last component, empty for the root. */
  function Basename(p: Path): string {
    if p == [] then "" else p[|p| - 1]
  }

  predicate IsPrefix(a: Path, b: Path) {
    |a| <= |b| && b[..|a|] == a
  }

  predicate IsDir(fs: FileSystem, p: Path) {
    p in fs && fs[p].Dir?
  }

  predicate IsFile(fs: FileSystem, p: Path) {
    p in fs && fs[p].File?
  }

  /** Every path other than the root sits in a directory. */
  predicate WF(fs: FileSystem) {
    forall p :: p in fs && |p| > 0 ==> IsDir(fs, Parent(p))
  }

  /** `str(path)` for an absolute path. */
  function RenderPath(p: Path): string {
    if p == [] then "/" else RenderComponents(p)
  }

  function RenderComponents(p: Path): string {
    if p == [] then "" else "/" + p[0] + RenderComponents(p[1..])
  }

  /** Some directory on the way to `p`, the parent included, is a file. */
  predicate BelowFile(fs: FileSystem, p: Path) {
    exists k :: 0 < k < |p| && IsFile(fs, p[..k])
  }

  /** What Linux reports for a path that cannot be reached: ENOTDIR
      (`NotADirectoryError`) when a file stands on the way to it, ENOENT
      (`FileNotFoundError`) otherwise. */
  function MissingKind(fs: FileSystem, p: Path): OsErrorKind {
    if BelowFile(fs, p) then NotADirectory else FileNotFound
  }

  /** The error `open`, `mkdir` and their kin raise when the directory that
      should hold `p` is missing or is a file. */
  function ParentError(fs: FileSystem, p: Path): Error {
    OsError(p, MissingKind(fs, p))
  }

  /** `open(p, "w")` followed by a write: replaces the content; a new file
      gets `newMode`, an existing one keeps its permission bits. */
  function Write(fs: FileSystem, p: Path, c: Content, newMode: bv16): (r: Result<FileSystem>)
    ensures r.Ok? <==> p != [] && !IsDir(fs, p) && IsDir(fs, Parent(p))
    ensures r.Ok? ==> r.value.Keys == fs.Keys + {p}
    ensures r.Ok? ==> IsFile(r.value, p) && r.value[p].content == c
    ensures r.Ok? ==> r.value[p].mode == if p in fs then fs[p].mode else newMode
    ensures r.Ok? ==> forall q :: q in fs && q != p ==> r.value[q] == fs[q]
  {
    if p == [] || IsDir(fs, p) then Err(OsError(p, IsADirectory))
    else if !IsDir(fs, Parent(p)) then Err(ParentError(fs, p))
    else Ok(fs[p := File(c, if p in fs then fs[p].mode else newMode)])
  }

  /** `Path.mkdir()`: fails when anything is already at `p` or the parent is no directory. */
  function MakeDir(fs: FileSystem, p: Path): (r: Result<FileSystem>)
    ensures r.Ok? <==> p != [] && p !in fs && IsDir(fs, Parent(p))
    ensures r.Ok? ==> r.value == fs[p := Dir]
    ensures r.Err? && p in fs ==> r.error == OsError(p, FileExists)
  {
    if p == [] || p in fs then Err(OsError(p, FileExists))
    else if !IsDir(fs, Parent(p)) then Err(ParentError(fs, p))
    else Ok(fs[p := Dir])
  }

  /** `Path.mkdir(exist_ok=True)`: an existing directory (the root among
      them) is fine, an existing file is not. */
  function MakeDirExistOk(fs: FileSystem, p: Path): (r: Result<FileSystem>)
    ensures r.Ok? <==> p == [] || IsDir(fs, p) || (p !in fs && IsDir(fs, Parent(p)))
    ensures r.Ok? && p != [] ==> r.value == fs[p := Dir]
    ensures r.Ok? && p == [] ==> r.value == fs
  {
    if p == [] || IsDir(fs, p) then Ok(fs) else MakeDir(fs, p)
  }

  /** `Path.unlink(missing_ok)`: removes a file; a directory is refused.
      `missing_ok` only excuses `FileNotFoundError`, so a missing path below
      a file is still an error. */
  function Unlink(fs: FileSystem, p: Path, missingOk: bool): (r: Result<FileSystem>)
    ensures r.Ok? <==> IsFile(fs, p) || (p !in fs && missingOk && !BelowFile(fs, p))
    ensures r.Ok? ==> r.value == fs - {p}
  {
    if p !in fs then (if missingOk && !BelowFile(fs, p) then Ok(fs) else Err(OsError(p, MissingKind(fs, p))))
    else if fs[p].Dir? then Err(OsError(p, IsADirectory))
    else Ok(fs - {p})
  }

  /** Everything except `p` and what lies below it. */
  function Prune(fs: FileSystem, p: Path): (r: FileSystem)
    ensures forall q :: q in r <==> q in fs && !IsPrefix(p, q)
    ensures forall q :: q in r ==> r[q] == fs[q]
  {
    map q | q in fs && !IsPrefix(p, q) :: fs[q]
  }

  /** `shutil.rmtree(p)`: removes a directory and everything below it. */
  function RemoveTree(fs: FileSystem, p: Path): (r: Result<FileSystem>)
    ensures r.Ok? <==> IsDir(fs, p)
    ensures r.Ok? ==> r.value == Prune(fs, p)
  {
    if p !in fs then Err(OsError(p, MissingKind(fs, p)))
    else if fs[p].File? then Err(OsError(p, NotADirectory))
    else Ok(Prune(fs, p))
  }

  /** `shutil.copy2(src, dst)` and `shutil.copy(src, dst)` for a file
      `src`: into `dst` itself, or into `dst/<name of src>` when `dst` is a
      directory; content and permission bits are copied. A target that is
      the source itself raises `shutil.SameFileError` before anything is
      opened. */
  function CopyFile(fs: FileSystem, src: Path, dst: Path): (r: Result<FileSystem>)
    requires IsFile(fs, src) && |dst| > 0
    ensures var target := CopyTarget(fs, src, dst);
      && (r.Ok? <==> target != src && !IsDir(fs, target) && IsDir(fs, Parent(target)))
      && (target == src ==> r == Err(OsError(target, SameFile)))
      && (r.Ok? ==> r.value == fs[target := fs[src]])
  {
    var target := CopyTarget(fs, src, dst);
    if target == src then Err(OsError(target, SameFile))
    else if IsDir(fs, target) then Err(OsError(target, IsADirectory))
    else if !IsDir(fs, Parent(target)) then Err(ParentError(fs, target))
    else Ok(fs[target := fs[src]])
  }

  function CopyTarget(fs: FileSystem, src: Path, dst: Path): (target: Path)
    requires |dst| > 0
    ensures |target| > 0
  {
    if IsDir(fs, dst) then dst + [Basename(src)] else dst
  }

  /** `shutil.ignore_patterns("tests", "test_*.py")`: the names copytree skips. */
  predicate Ignored(name: string) {
    name == "tests" || (|name| >= 8 && StartsWith(name, "test_") && EndsWith(name, ".py"))
  }

  /** A relative path copytree reaches: it descends only into directories it
      does not skip, so no component on the way may be ignored. */
  predicate Kept(rel: Path) {
    forall i :: 0 <= i < |rel| ==> !Ignored(rel[i])
  }

  /** An entry strictly below `src` that copytree copies. */
  predicate CopiedFrom(fs: FileSystem, src: Path, q: Path) {
    q in fs && IsPrefix(src, q) && |q| > |src| && Kept(q[|src|..])
  }

  /** Where copytree puts the copy of `q`. */
  function CopyPath(src: Path, dst: Path, q: Path): Path
    requires IsPrefix(src, q)
  {
    dst + q[|src|..]
  }

  /** The entry below `src` that `t` below `dst` is a copy of. */
  function SourceOf(src: Path, dst: Path, t: Path): Path
    requires IsPrefix(dst, t)
  {
    src + t[|dst|..]
  }

  /** `t` is where copytree puts the copy of a kept entry. */
  predicate IsCopy(fs: FileSystem, src: Path, dst: Path, t: Path) {
    IsPrefix(dst, t) && |t| > |dst| && CopiedFrom(fs, src, SourceOf(src, dst, t))
  }

  /** The copies of the kept entries strictly below `src`, placed below `dst`. */
  function Copies(fs: FileSystem, src: Path, dst: Path): (r: FileSystem)
    ensures forall t :: t in r <==> IsCopy(fs, src, dst, t)
    ensures forall t :: t in r ==> IsCopy(fs, src, dst, t) && r[t] == fs[SourceOf(src, dst, t)]
  {
    var targets := set q | q in fs && CopiedFrom(fs, src, q) :: CopyPath(src, dst, q);
    forall t | t in targets
      ensures IsCopy(fs, src, dst, t)
    {
      var q :| q in fs && CopiedFrom(fs, src, q) && t == CopyPath(src, dst, q);
      assert IsPrefix(src, q);
      assert t[|dst|..] == q[|src|..];
      assert src + q[|src|..] == q;
    }
    forall t | IsCopy(fs, src, dst, t)
      ensures t in targets
    {
      var q := SourceOf(src, dst, t);
      assert q[|src|..] == t[|dst|..];
      assert CopyPath(src, dst, q) == t;
    }
    map t | t in targets :: fs[SourceOf(src, dst, t)]
  }

  /** Every kept entry below `src` is copied with its node. */
  lemma CopyOf(fs: FileSystem, src: Path, dst: Path, q: Path)
    requires CopiedFrom(fs, src, q)
    ensures CopyPath(src, dst, q) in Copies(fs, src, dst)
    ensures Copies(fs, src, dst)[CopyPath(src, dst, q)] == fs[q]
  {
    var t := CopyPath(src, dst, q);
    assert t[|dst|..] == q[|src|..];
    assert src + q[|src|..] == q;
  }

  /** `shutil.copytree(src, dst, ignore=_IGNORE)`:
      `src` is listed first, then `dst` is created: it must not exist yet,
      and it becomes a directory holding copies of everything below `src`
      that the filter keeps. */
  function CopyTree(fs: FileSystem, src: Path, dst: Path): (r: Result<FileSystem>)
    requires |dst| > 0
    ensures r.Ok? <==> IsDir(fs, src) && dst !in fs && IsDir(fs, Parent(dst))
    ensures r.Ok? ==> r.value == fs[dst := Dir] + Copies(fs, src, dst)
    ensures r.Err? && IsDir(fs, src) && dst in fs ==> r.error == OsError(dst, FileExists)
  {
    if !IsDir(fs, src) then Err(OsError(src, if src in fs then NotADirectory else MissingKind(fs, src)))
    else if dst in fs then Err(OsError(dst, FileExists))
    else if !IsDir(fs, Parent(dst)) then Err(ParentError(fs, dst))
    else Ok(fs[dst := Dir] + Copies(fs, src, dst))
  }

  /** Where an archive entry lands when extracted into `dir`. */
  predicate Extracted(dir: Path, archive: map<Path, Node>, t: Path) {
    IsPrefix(dir, t) && t[|dir|..] in archive
  }

  /** `ZipFile.extractall(dir)`, taken as an opaque merge: every archive
      entry, keyed by its path inside the archive, replaces what is at the
      same place below `dir`. */
  function Extract(fs: FileSystem, dir: Path, archive: map<Path, Node>): (r: FileSystem)
    ensures forall t :: t in r <==> t in fs || Extracted(dir, archive, t)
    ensures forall t :: t in r ==> r[t] == if Extracted(dir, archive, t) then archive[t[|dir|..]] else fs[t]
  {
    var targets := set rel | rel in archive :: dir + rel;
    forall t | t in targets
      ensures Extracted(dir, archive, t)
    {
      var rel :| rel in archive && t == dir + rel;
      assert t[|dir|..] == rel;
    }
    forall t | Extracted(dir, archive, t)
      ensures t in targets
    {
      assert t == dir + t[|dir|..];
    }
    fs + map t | t in targets :: archive[t[|dir|..]]
  }

  /** Reading a text file: the text of a text file; other files have no text
      the model tracks and read as empty. */
  function ReadText(fs: FileSystem, p: Path): (r: Result<string>)
    ensures r.Ok? <==> IsFile(fs, p)
    ensures r.Ok? && fs[p].content.Text? ==> r.value == fs[p].content.text
  {
    if p !in fs then Err(OsError(p, MissingKind(fs, p)))
    else match fs[p]
      case Dir => Err(OsError(p, IsADirectory))
      case File(c, _) => Ok(if c.Text? then c.text else "")
  }

  // Well-formedness is kept by every operation.

  lemma WriteWF(fs: FileSystem, p: Path, c: Content, m: bv16)
    requires WF(fs) && Write(fs, p, c, m).Ok?
    ensures WF(Write(fs, p, c, m).value)
  {
  }

  lemma MakeDirWF(fs: FileSystem, p: Path)
    requires WF(fs) && MakeDirExistOk(fs, p).Ok?
    ensures WF(MakeDirExistOk(fs, p).value)
  {
  }

  lemma UnlinkWF(fs: FileSystem, p: Path, missingOk: bool)
    requires WF(fs) && Unlink(fs, p, missingOk).Ok?
    ensures WF(Unlink(fs, p, missingOk).value)
  {
    var r := Unlink(fs, p, missingOk).value;
    forall q | q in r && |q| > 0
      ensures IsDir(r, Parent(q))
    {
      assert IsDir(fs, Parent(q));
    }
  }

  /** Writing a new file into an existing directory adds exactly that file, with mode `newMode`. */
  lemma WriteAbsent(fs: FileSystem, p: Path, c: Content, newMode: bv16)
    requires p != [] && p !in fs && IsDir(fs, Parent(p))
    ensures Write(fs, p, c, newMode) == Ok(fs[p := File(c, newMode)])
  {
  }

  /** Two different names in one directory are two different paths. */
  lemma DistinctChildren(d: Path, a: string, b: string)
    requires a != b
    ensures d + [a] != d + [b]
  {
    assert (d + [a])[|d|] == a && (d + [b])[|d|] == b;
  }

  /** A new entry inside a directory keeps the filesystem well formed. */
  lemma AddWF(fs: FileSystem, q: Path, n: Node)
    requires WF(fs) && |q| > 0 && q !in fs && IsDir(fs, Parent(q))
    ensures WF(fs[q := n])
  {
  }

  /** So does writing a file where there is nothing or a file. */
  lemma AddFileWF(fs: FileSystem, q: Path, c: Content, m: bv16)
    requires WF(fs) && |q| > 0 && IsDir(fs, Parent(q)) && (q in fs ==> fs[q].File?)
    ensures WF(fs[q := File(c, m)])
  {
  }

  /** A new directory holding four files keeps the filesystem well formed. */
  lemma NewDirWF(fs: FileSystem, d: Path, a: string, b: string, c: string, e: string,
                 ca: Content, cb: Content, cc: Content, ce: Content, m: bv16)
    requires WF(fs) && d != [] && d !in fs && IsDir(fs, Parent(d))
    ensures WF(fs[d := Dir][d + [a] := File(ca, m)][d + [b] := File(cb, m)]
                 [d + [c] := File(cc, m)][d + [e] := File(ce, m)])
  {
    var fs1 := fs[d := Dir];
    AddWF(fs, d, Dir);
    NewChildWF(fs, fs1, d, a, ca, m);
    var fs2 := fs1[d + [a] := File(ca, m)];
    NewChildWF(fs, fs2, d, b, cb, m);
    var fs3 := fs2[d + [b] := File(cb, m)];
    NewChildWF(fs, fs3, d, c, cc, m);
    var fs4 := fs3[d + [c] := File(cc, m)];
    NewChildWF(fs, fs4, d, e, ce, m);
  }

  /** One file more in the directory `d`, which `fs` did not have. */
  lemma NewChildWF(fs: FileSystem, g: FileSystem, d: Path, n: string, c: Content, m: bv16)
    requires WF(fs) && d !in fs && WF(g) && IsDir(g, d)
    requires forall q :: q in g ==> q in fs || q == d || (|q| > 0 && Parent(q) == d && g[q].File?)
    ensures WF(g[d + [n] := File(c, m)])
    ensures forall q :: q in g[d + [n] := File(c, m)] ==>
      q in fs || q == d || (|q| > 0 && Parent(q) == d && g[d + [n] := File(c, m)][q].File?)
  {
    var q := d + [n];
    assert Parent(q) == d;
    NoChildOfAbsent(fs, d, n);
    AddFileWF(g, q, c, m);
  }

  /** In a well-formed filesystem a path whose directory is absent is absent too. */
  lemma NoChildOfAbsent(fs: FileSystem, p: Path, name: string)
    requires WF(fs) && p !in fs
    ensures p + [name] !in fs
  {
    assert Parent(p + [name]) == p;
  }

  /** In a well-formed filesystem nothing lies below a path that is absent. */
  lemma {:induction false} NothingBelowAbsent(fs: FileSystem, p: Path, t: Path)
    requires WF(fs) && p !in fs && t in fs
    ensures !IsPrefix(p, t)
    decreases |t|
  {
    if IsPrefix(p, t) && t != p {
      assert |t| > |p|;
      assert Parent(t)[..|p|] == t[..|p|];
      NothingBelowAbsent(fs, p, Parent(t));
    }
  }

  /** If `p` is a prefix of the parent of `q`, it is a prefix of `q`. */
  lemma PrefixOfParent(p: Path, q: Path)
    requires |q| > 0 && IsPrefix(p, Parent(q))
    ensures IsPrefix(p, q)
  {
    assert q[..|p|] == Parent(q)[..|p|];
  }

  lemma RemoveTreeWF(fs: FileSystem, p: Path)
    requires WF(fs) && RemoveTree(fs, p).Ok?
    ensures WF(RemoveTree(fs, p).value)
  {
    var r := RemoveTree(fs, p).value;
    forall q | q in r && |q| > 0
      ensures IsDir(r, Parent(q))
    {
      if IsPrefix(p, Parent(q)) {
        PrefixOfParent(p, q);
      }
    }
  }

  /** Pruning any path keeps the filesystem well formed. */
  lemma PruneWF(fs: FileSystem, p: Path)
    requires WF(fs)
    ensures WF(Prune(fs, p))
  {
    var r := Prune(fs, p);
    forall q | q in r && |q| > 0
      ensures IsDir(r, Parent(q))
    {
      if IsPrefix(p, Parent(q)) {
        PrefixOfParent(p, q);
      }
    }
  }

  /** In a well-formed filesystem no file stands on the way to an entry. */
  lemma {:induction false} PresentNotBelowFile(fs: FileSystem, q: Path)
    requires WF(fs) && q in fs
    ensures !BelowFile(fs, q)
    decreases |q|
  {
    if |q| > 0 {
      var r := Parent(q);
      PresentNotBelowFile(fs, r);
      forall k | 0 < k < |q|
        ensures !IsFile(fs, q[..k])
      {
        if k < |r| {
          assert q[..k] == r[..k];
        } else {
          assert q[..k] == r;
        }
      }
    }
  }

  lemma CopyFileWF(fs: FileSystem, src: Path, dst: Path)
    requires WF(fs) && IsFile(fs, src) && |dst| > 0 && CopyFile(fs, src, dst).Ok?
    ensures WF(CopyFile(fs, src, dst).value)
  {
  }

  lemma KeptInit(rel: Path)
    requires Kept(rel) && |rel| > 0
    ensures Kept(rel[..|rel| - 1])
  {
    var prel := rel[..|rel| - 1];
    forall i | 0 <= i < |prel|
      ensures !Ignored(prel[i])
    {
      assert prel[i] == rel[i];
    }
  }

  /** The directory holding a copy is itself `dst` or a copied directory. */
  lemma CopyParent(fs: FileSystem, src: Path, dst: Path, t: Path)
    requires t in Copies(fs, src, dst)
    requires IsDir(fs, Parent(SourceOf(src, dst, t)))
    ensures Parent(t) == dst || (Parent(t) in Copies(fs, src, dst) && Copies(fs, src, dst)[Parent(t)].Dir?)
  {
    var rel := t[|dst|..];
    var q := src + rel;
    assert q[|src|..] == rel;
    if |rel| > 1 {
      var prel := rel[..|rel| - 1];
      var pq := src + prel;
      assert Parent(q) == pq;
      assert pq[|src|..] == prel;
      KeptInit(rel);
      assert t == dst + prel + [t[|t| - 1]];
      CopyOfParent(fs, src, dst, t, prel);
    } else {
      assert Parent(t) == dst;
    }
  }

  lemma CopyOfParent(fs: FileSystem, src: Path, dst: Path, t: Path, prel: Path)
    requires CopiedFrom(fs, src, src + prel) && |t| > 0 && t == dst + prel + [t[|t| - 1]]
    ensures Parent(t) in Copies(fs, src, dst) && Copies(fs, src, dst)[Parent(t)] == fs[src + prel]
  {
    CopyOf(fs, src, dst, src + prel);
    assert (src + prel)[|src|..] == prel;
    assert CopyPath(src, dst, src + prel) == Parent(t);
  }

  lemma CopyTreeWF(fs: FileSystem, src: Path, dst: Path)
    requires WF(fs) && |dst| > 0 && CopyTree(fs, src, dst).Ok?
    ensures WF(CopyTree(fs, src, dst).value)
  {
    var copies := Copies(fs, src, dst);
    var r := CopyTree(fs, src, dst).value;
    forall t | t in r && |t| > 0
      ensures IsDir(r, Parent(t))
    {
      if t in copies {
        assert SourceOf(src, dst, t) in fs;
        CopyParent(fs, src, dst, t);
      } else if t != dst {
        NothingBelowAbsent(fs, dst, Parent(t));
      }
    }
  }

  /** What copytree leaves out: an entry with a skipped name on its path is
      not copied, one without is copied with its content. */
  lemma CopyTreeFilter(fs: FileSystem, src: Path, dst: Path, rel: Path)
    requires |dst| > 0 && CopyTree(fs, src, dst).Ok?
    requires |rel| > 0 && src + rel in fs
    requires forall t :: t in fs ==> !IsPrefix(dst, t)
    ensures Kept(rel) ==>
      (dst + rel in CopyTree(fs, src, dst).value && CopyTree(fs, src, dst).value[dst + rel] == fs[src + rel])
    ensures !Kept(rel) ==> dst + rel !in CopyTree(fs, src, dst).value
  {
    var q := src + rel;
    assert q[|src|..] == rel;
    assert IsPrefix(src, q);
    var r := CopyTree(fs, src, dst).value;
    if !Kept(rel) && dst + rel in r {
      assert IsPrefix(dst, dst + rel);
      assert (dst + rel)[|dst|..] == rel;
    }
  }
}
