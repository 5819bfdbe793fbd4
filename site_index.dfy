/** The index of installed packages (`package_index`, `find_installed`,
    poopip.py:141-170): every `*.dist-info` entry of the site directory
    whose METADATA names a package and a version, filed under the lower-case
    normalised name. */
module SiteIndex {
  import opened Base
  import opened Strings
  import opened Names
  import opened Files

  /** What the index remembers of a package: the `Name` and `Version` of its
      METADATA and the dist-info directory it was read from. */
  datatype Entry = Entry(name: string, version: string, distInfo: Path)

  /** Index key (lower-case normalised name) to entry; the type of `_SITE_INDEX`. */
  type Index = map<string, Entry>

  /** A name the pattern `*.dist-info` matches; pathlib's glob matches
      hidden names too. */
  predicate IsDistInfoName(n: string) {
    EndsWith(n, ".dist-info")
  }

  /** A path that `site.glob("*.dist-info")` yields. */
  predicate IsCandidate(fs: FileSystem, site: Path, c: Path) {
    c in fs && |c| == |site| + 1 && c[..|site|] == site && IsDistInfoName(c[|site|])
  }

  /** The glob yields exactly the entries directly in the site whose name
      ends in `.dist-info`, hidden names such as `.x.dist-info` included. */
  lemma CandidateChild(fs: FileSystem, site: Path, n: string)
    ensures IsCandidate(fs, site, site + [n]) <==> site + [n] in fs && EndsWith(n, ".dist-info")
    ensures forall c :: IsCandidate(fs, site, c) ==> c == site + [c[|site|]]
    ensures site + [".x.dist-info"] in fs ==> IsCandidate(fs, site, site + [".x.dist-info"])
  {
    assert (site + [n])[..|site|] == site;
    assert (site + [".x.dist-info"])[..|site|] == site;
    assert ".x.dist-info"[2..] == ".dist-info";
    forall c | IsCandidate(fs, site, c)
      ensures c == site + [c[|site|]]
    {
      assert c == c[..|site|] + [c[|site|]];
    }
  }

  /** `listing` is an order in which the glob may yield the candidates:
      each of them exactly once and nothing else. */
  ghost predicate IsListing(fs: FileSystem, site: Path, listing: seq<Path>) {
    && (forall i :: 0 <= i < |listing| ==> IsCandidate(fs, site, listing[i]))
    && (forall c :: IsCandidate(fs, site, c) ==> c in listing)
    && (forall i, j :: 0 <= i < j < |listing| ==> listing[i] != listing[j])
  }

  function MetaPath(c: Path): Path {
    c + ["METADATA"]
  }

  /** The characters compat32 strips from the start of a header value. */
  predicate IsBlank(ch: char) {
    ch == ' ' || ch == '\t'
  }

  /** The value compat32 gives a header: the raw text after the colon
      without its leading spaces and tabs (see HeaderValueStrips). */
  function HeaderValue(raw: string): string {
    if raw != [] && IsBlank(raw[0]) then HeaderValue(raw[1..]) else raw
  }

  /** A header value is a suffix of the raw text; what it drops is all
      blanks, and it does not start with one. */
  lemma {:induction false} HeaderValueStrips(raw: string)
    ensures |HeaderValue(raw)| <= |raw|
    ensures HeaderValue(raw) == raw[|raw| - |HeaderValue(raw)|..]
    ensures forall i :: 0 <= i < |raw| - |HeaderValue(raw)| ==> IsBlank(raw[i])
    ensures HeaderValue(raw) != [] ==> !IsBlank(HeaderValue(raw)[0])
  {
    if raw != [] && IsBlank(raw[0]) {
      var rest := raw[1..];
      HeaderValueStrips(rest);
      var r := HeaderValue(rest);
      assert HeaderValue(raw) == r;
      assert rest[|rest| - |r|..] == raw[|raw| - |r|..];
      forall i | 0 <= i < |raw| - |r|
        ensures IsBlank(raw[i])
      {
        if i > 0 {
          assert raw[i] == rest[i - 1];
        }
      }
    }
  }

  /** `a.lower() == b.lower()` for ASCII header names. */
  predicate SameName(a: string, b: string) {
    |a| == |b| && forall i :: 0 <= i < |a| ==> LowerChar(a[i]) == LowerChar(b[i])
  }

  /** SameName is equality of the lowered names. */
  lemma SameNameLower(a: string, b: string)
    ensures SameName(a, b) <==> Lower(a) == Lower(b)
  {
    if Lower(a) == Lower(b) {
      assert forall i :: 0 <= i < |a| ==> Lower(a)[i] == Lower(b)[i];
    }
  }

  /** `parsed.get(key, "")`: the value of the first header whose name is
      `key` whatever its case (see FieldFirstMatch). */
  function Field(headers: seq<(string, string)>, key: string): string {
    if headers == [] then ""
    else if SameName(headers[0].0, key) then HeaderValue(headers[0].1)
    else Field(headers[1..], key)
  }

  /** A field is the value of the first header named like the key, and ""
      when no header is. */
  lemma {:induction false} FieldFirstMatch(headers: seq<(string, string)>, key: string)
    ensures (forall i :: 0 <= i < |headers| ==> !SameName(headers[i].0, key)) ==> Field(headers, key) == ""
    ensures forall i :: 0 <= i < |headers| && SameName(headers[i].0, key) &&
                        (forall j :: 0 <= j < i ==> !SameName(headers[j].0, key)) ==>
                          Field(headers, key) == HeaderValue(headers[i].1)
  {
    if headers != [] && !SameName(headers[0].0, key) {
      assert forall i :: 1 <= i < |headers| ==> headers[i] == headers[1..][i - 1];
      FieldFirstMatch(headers[1..], key);
    }
  }

  /** One leading blank is dropped from a header value. */
  lemma {:induction false} HeaderValueBlank(ch: char, s: string)
    requires IsBlank(ch)
    ensures HeaderValue([ch] + s) == HeaderValue(s)
  {
    assert ([ch] + s)[1..] == s;
  }

  /** A header whose name differs in length from the key is passed over. */
  lemma {:induction false} FieldSkip(headers: seq<(string, string)>, key: string)
    requires headers != [] && |headers[0].0| != |key|
    ensures Field(headers, key) == Field(headers[1..], key)
  {
  }

  /** What the loop of `package_index` makes of one candidate. */
  datatype Reading =
    | Unregistered                              // no METADATA, or no Name or Version in it
    | Registered(key: string, entry: Entry)     // filed under `key`
    | Unreadable(error: Error)                  // METADATA is a directory, or Name is invalid

  function Read(fs: FileSystem, c: Path): (r: Reading)
    ensures r.Registered? ==> r.entry.distInfo == c && r.entry.name != "" && r.entry.version != ""
  {
    var meta := MetaPath(c);
    if meta !in fs then Unregistered
    else match fs[meta]
      case Dir => Unreadable(OsError(meta, IsADirectory))
      case File(content, _) =>
        var fields := if content.Headers? then content.fields else [];
        var name := Field(fields, "Name");
        var version := Field(fields, "Version");
        if name == "" || version == "" then Unregistered
        else match NormalizeName(name)
          case Err(e) => Unreadable(e)
          case Ok(n) => Registered(IndexKey(n), Entry(name, version, c))
  }

  predicate Registers(fs: FileSystem, c: Path, key: string) {
    Read(fs, c).Registered? && Read(fs, c).key == key
  }

  /** The scan loop from the candidate `listing[0]` on, with `idx` filled so
      far: the index it ends with, and the error that stopped it, if any. */
  function Scan(fs: FileSystem, listing: seq<Path>, idx: Index): (Index, Option<Error>)
    decreases |listing|
  {
    if listing == [] then (idx, None)
    else match Read(fs, listing[0])
      case Unregistered => Scan(fs, listing[1..], idx)
      case Registered(k, e) => Scan(fs, listing[1..], idx[k := e])
      case Unreadable(err) => (idx, Some(err))
  }

  /** `package_index(site)` with the cache `cache`: gives the cache afterwards and the result. */
  function PackageIndex(fs: FileSystem, cache: Index, listing: seq<Path>): (Index, Result<Index>) {
    if |cache| > 0 then (cache, Ok(cache))
    else
      var (idx, err) := Scan(fs, listing, map[]);
      (idx, if err.Some? then Err(err.value) else Ok(idx))
  }

  /** `find_installed(package, site)`: the installed version and dist-info
      directory of the package, or None; also gives the cache afterwards. */
  function FindInstalled(fs: FileSystem, cache: Index, listing: seq<Path>, package: string)
    : (Index, Result<Option<(string, Path)>>)
  {
    match NormalizeName(package)
    case Err(e) => (cache, Err(e))
    case Ok(n) =>
      var (cache', r) := PackageIndex(fs, cache, listing);
      match r
      case Err(e) => (cache', Err(e))
      case Ok(idx) =>
        var key := IndexKey(n);
        (cache', Ok(if key in idx then Some((idx[key].version, idx[key].distInfo)) else None))
  }

  // What a scan finds.

  /** The keys a clean scan ends with: those it started with and those some candidate registers. */
  lemma {:induction false} ScanKeys(fs: FileSystem, listing: seq<Path>, idx: Index)
    ensures Scan(fs, listing, idx).1.None? ==>
      forall k :: k in Scan(fs, listing, idx).0 <==>
        (k in idx || exists i :: 0 <= i < |listing| && Registers(fs, listing[i], k))
    decreases |listing|
  {
    if listing != [] {
      var rest := listing[1..];
      assert forall i :: 1 <= i < |listing| ==> listing[i] == rest[i - 1];
      match Read(fs, listing[0])
      case Unregistered =>
        ScanKeys(fs, rest, idx);
      case Registered(k, e) =>
        ScanKeys(fs, rest, idx[k := e]);
      case Unreadable(_) =>
    }
  }

  /** Each entry of a clean scan was there from the start or is the reading of a candidate. */
  lemma {:induction false} ScanEntries(fs: FileSystem, listing: seq<Path>, idx: Index)
    ensures Scan(fs, listing, idx).1.None? ==>
      var r := Scan(fs, listing, idx).0;
      forall k :: k in r ==>
        ((k in idx && r[k] == idx[k]) || exists i :: 0 <= i < |listing| && Read(fs, listing[i]) == Registered(k, r[k]))
    decreases |listing|
  {
    if listing != [] {
      var rest := listing[1..];
      assert forall i :: 1 <= i < |listing| ==> listing[i] == rest[i - 1];
      match Read(fs, listing[0])
      case Unregistered =>
        ScanEntries(fs, rest, idx);
      case Registered(k, e) =>
        ScanEntries(fs, rest, idx[k := e]);
      case Unreadable(_) =>
    }
  }

  /** A scan stops exactly at the first candidate it cannot read, with that candidate's error. */
  lemma {:induction false} ScanErrors(fs: FileSystem, listing: seq<Path>, idx: Index)
    ensures Scan(fs, listing, idx).1.None? <==> forall i :: 0 <= i < |listing| ==> !Read(fs, listing[i]).Unreadable?
    ensures Scan(fs, listing, idx).1.Some? ==>
      exists i :: 0 <= i < |listing| && Read(fs, listing[i]) == Unreadable(Scan(fs, listing, idx).1.value)
        && forall j :: 0 <= j < i ==> !Read(fs, listing[j]).Unreadable?
    decreases |listing|
  {
    if listing != [] {
      var rest := listing[1..];
      assert forall i :: 1 <= i < |listing| ==> listing[i] == rest[i - 1];
      match Read(fs, listing[0])
      case Unregistered =>
        ScanErrors(fs, rest, idx);
        if Scan(fs, listing, idx).1.Some? {
          var i :| 0 <= i < |rest| && Read(fs, rest[i]) == Unreadable(Scan(fs, listing, idx).1.value)
            && forall j :: 0 <= j < i ==> !Read(fs, rest[j]).Unreadable?;
          assert Read(fs, listing[i + 1]) == Read(fs, rest[i]);
        }
      case Registered(k, e) =>
        ScanErrors(fs, rest, idx[k := e]);
        if Scan(fs, listing, idx).1.Some? {
          var i :| 0 <= i < |rest| && Read(fs, rest[i]) == Unreadable(Scan(fs, listing, idx).1.value)
            && forall j :: 0 <= j < i ==> !Read(fs, rest[j]).Unreadable?;
          assert Read(fs, listing[i + 1]) == Read(fs, rest[i]);
        }
      case Unreadable(_) =>
    }
  }

  /** No candidate of the site is unreadable. */
  ghost predicate Clean(fs: FileSystem, site: Path) {
    forall c :: IsCandidate(fs, site, c) ==> !Read(fs, c).Unreadable?
  }

  /** No two candidates of the site register the same key. */
  ghost predicate UniqueKeys(fs: FileSystem, site: Path) {
    forall c1, c2, k ::
      (IsCandidate(fs, site, c1) && IsCandidate(fs, site, c2) && Registers(fs, c1, k) && Registers(fs, c2, k)) ==> c1 == c2
  }

  /** A fresh process's `find_installed` on a clean site with unique keys
      finds the package exactly when one of its candidates registers it,
      and then gives that candidate and its version, whatever the order of the glob. */
  lemma FindFresh(fs: FileSystem, site: Path, listing: seq<Path>, package: string)
    requires IsListing(fs, site, listing) && Clean(fs, site) && UniqueKeys(fs, site)
    requires NormalizeName(package).Ok?
    ensures var key := IndexKey(NormalizeName(package).value);
      var r := FindInstalled(fs, map[], listing, package).1;
      && r.Ok?
      && (r.value.None? <==> forall c :: IsCandidate(fs, site, c) ==> !Registers(fs, c, key))
      && (r.value.Some? ==>
           && IsCandidate(fs, site, r.value.value.1)
           && Registers(fs, r.value.value.1, key)
           && Read(fs, r.value.value.1).entry.version == r.value.value.0)
  {
    var key := IndexKey(NormalizeName(package).value);
    ScanErrors(fs, listing, map[]);
    ScanKeys(fs, listing, map[]);
    ScanEntries(fs, listing, map[]);
    var idx := Scan(fs, listing, map[]).0;
    if key in idx {
      var i :| 0 <= i < |listing| && Read(fs, listing[i]) == Registered(key, idx[key]);
      assert Registers(fs, listing[i], key);
    } else {
      forall c | IsCandidate(fs, site, c)
        ensures !Registers(fs, c, key)
      {
        var i :| 0 <= i < |listing| && listing[i] == c;
      }
    }
  }

  /** Once the cache holds something it is the answer, whatever the filesystem now holds. */
  lemma CachedIndexIsFinal(fs1: FileSystem, fs2: FileSystem, cache: Index, l1: seq<Path>, l2: seq<Path>)
    requires |cache| > 0
    ensures PackageIndex(fs1, cache, l1) == PackageIndex(fs2, cache, l2) == (cache, Ok(cache))
  {
  }

  // Filesystem changes that leave the records alone.

  /** A path whose node the index reads: a candidate, or the METADATA inside one. */
  predicate IndexRelevant(site: Path, p: Path) {
    && (|p| == |site| + 1 || (|p| == |site| + 2 && p[|site| + 1] == "METADATA"))
    && p[..|site|] == site
    && IsDistInfoName(p[|site|])
  }

  /** `fs'` adds or changes no path the index reads: it may only remove such paths. */
  ghost predicate KeepsRecords(fs: FileSystem, fs': FileSystem, site: Path) {
    forall p :: p in fs' && IndexRelevant(site, p) ==> p in fs && fs'[p] == fs[p]
  }

  lemma KeepsRecordsTrans(fs1: FileSystem, fs2: FileSystem, fs3: FileSystem, site: Path)
    requires KeepsRecords(fs1, fs2, site) && KeepsRecords(fs2, fs3, site)
    ensures KeepsRecords(fs1, fs3, site)
  {
  }

  /** Under such a change a candidate was a candidate before, and reads as
      it did or as unregistered (when its METADATA went away). */
  lemma KeepsRecordsRead(fs: FileSystem, fs': FileSystem, site: Path, c: Path)
    requires KeepsRecords(fs, fs', site) && IsCandidate(fs', site, c)
    ensures IsCandidate(fs, site, c)
    ensures Read(fs', c) == Read(fs, c) || Read(fs', c) == Unregistered
  {
    assert IndexRelevant(site, c);
    var meta := MetaPath(c);
    assert meta[..|site|] == site && meta[|site|] == c[|site|] && meta[|site| + 1] == "METADATA";
    assert IndexRelevant(site, meta);
  }

  lemma KeepsRecordsClean(fs: FileSystem, fs': FileSystem, site: Path)
    requires KeepsRecords(fs, fs', site) && Clean(fs, site)
    ensures Clean(fs', site)
  {
    forall c | IsCandidate(fs', site, c)
      ensures !Read(fs', c).Unreadable?
    {
      KeepsRecordsRead(fs, fs', site, c);
    }
  }

  lemma KeepsRecordsUnique(fs: FileSystem, fs': FileSystem, site: Path)
    requires KeepsRecords(fs, fs', site) && UniqueKeys(fs, site)
    ensures UniqueKeys(fs', site)
  {
    forall c1, c2, k | IsCandidate(fs', site, c1) && IsCandidate(fs', site, c2)
      && Registers(fs', c1, k) && Registers(fs', c2, k)
      ensures c1 == c2
    {
      KeepsRecordsRead(fs, fs', site, c1);
      KeepsRecordsRead(fs, fs', site, c2);
      assert Registers(fs, c1, k) && Registers(fs, c2, k);
    }
  }

  /** A key no candidate registers stays unregistered. */
  lemma KeepsRecordsAbsent(fs: FileSystem, fs': FileSystem, site: Path, key: string)
    requires KeepsRecords(fs, fs', site)
    requires forall c :: IsCandidate(fs, site, c) ==> !Registers(fs, c, key)
    ensures forall c :: IsCandidate(fs', site, c) ==> !Registers(fs', c, key)
  {
    forall c | IsCandidate(fs', site, c)
      ensures !Registers(fs', c, key)
    {
      KeepsRecordsRead(fs, fs', site, c);
    }
  }

  /** Removing entries never adds a record. */
  lemma RemovalKeepsRecords(fs: FileSystem, fs': FileSystem, site: Path)
    requires forall p :: p in fs' ==> p in fs && fs'[p] == fs[p]
    ensures KeepsRecords(fs, fs', site)
  {
  }
}
