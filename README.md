# poopip, modelled in Dafny

poopip installs pure-Python projects into a site-packages directory without
building anything. It reads `pyproject.toml`, then places the project in one
of three ways:

- a `.pth` file that points at the source, for an editable install;
- a copy of the module file;
- a copy of the package tree, without its tests.

It writes a console-script launcher into the bin directory for each script
the project declares. It records the install in a
`{name}-{version}.dist-info` directory holding INSTALLER, METADATA,
`top_level.txt` and `entry_points.txt`. It finds installed packages by
scanning the `*.dist-info` directories of the site, caching the result for
the rest of the process. Uninstalling reads the records back and removes
the dist-info directory, the launchers and the placement. A wheel is
installed by extracting its archive into the site. poop.py is the older
single-purpose installer.

The project models the core of `poopip.py`: name normalisation, wheel-name
parsing, the package index, `install`, `install_local`, `install_wheel`,
`install_scripts`, `install_metadata`, `poopmark`, `uninstall_impl` and
`uninstall_local`. It models the install path of `poop.py`:
`_install_impl`, `_install_scripts`, `_get_top_level`, the copy filter, and
`_parse_pyproject` when no `pyproject.toml` exists.

How the model represents the program:

- **Filesystem.** A map from paths (sequences of components) to nodes. A
  node is a directory, or a file with content and permission bits. Every
  operating-system call the code makes becomes a function on that map that
  either gives the new map or raises an `OsError`. These calls are `open`
  and write, `mkdir`, `unlink`, `rmtree`, `copy2`, `copytree` with its
  ignore filter, `extractall` and reading a text file. `WF` states that the
  parent of every entry is a directory.
- **Errors.** `printerr` and exit, and the exceptions the code lets escape,
  become `Err` values of one `Error` type. At an error the filesystem is as
  it was when the error was raised: writes made before it stay. The spec
  functions return that state with the error, as `Run` or `Outcome` values.
  A path that cannot be reached fails as Linux reports it (`MissingKind`):
  `NotADirectoryError` when a file stands on the way to it,
  `FileNotFoundError` otherwise.
- **The cache.** `_SITE_INDEX` is the `cache` field of the class
  `Poopip.Installer`. A new process is a new `Installer` with an empty
  cache.
- **Environment.** The order in which `glob("*.dist-info")` yields
  candidates is the `listing` parameter. `IsListing` states that it yields
  each candidate once and nothing else. The site directory (`get_site_dir`),
  the launcher directory (`get_bin_dir`), the interpreter's directory
  (`Path(sys.executable).parent`) and the mode of new files are fields of
  `Env`.
- **Methods and specs.** Each loop that fills the cache or a dict, or
  writes or removes files, is a method of `Installer` or
  `Poop.LegacyInstaller` with a `while` loop. Each method is proved equal
  to a spec function. The searches over a fixed list of candidates
  (`Project.FirstUnsupported`, `Project.FirstFit`) and the list
  comprehensions (`Records.ScriptNames`, `Records.TopLevelNames`,
  `Records.EntryPointsText`) are functions. The properties are
  lemmas about these functions.

Where the code and a reading of the program's intent differ, the model
follows the code:

- `uninstall_impl` removes the dist-info directory before the launchers and
  the placement. A crash part-way therefore leaves files that no index entry
  points to any more.
- Launchers are written to `get_bin_dir` but removed from the
  interpreter's directory. These two differ for a `--user` install.
- `install_wheel` compares the pair that `find_installed` returns with a
  version string. That comparison never holds, so `Installer.InstallWheel`
  uninstalls an installed package whatever its version, as the code does.
  The evidently intended behaviour is modelled beside it (see Findings).
- METADATA is read back as `HeaderParser` reads it: header names match
  whatever their case, the first match wins, and a value loses its leading
  spaces and tabs. A version written with leading blanks is therefore
  recorded without them, and a version of blanks only is not recorded.

## Model

| member | source | states |
|---|---|---|
| Names.NormalizeRejects | poopip.py:181-184 | `normalize_name` fails, with `InvalidName` of the name, exactly for the empty name, a name holding a character outside `[A-Za-z0-9._-]`, and a name that starts or ends with a separator |
| Names.CollapseRun | poopip.py:184 | a run of separators of any length and mix becomes one `_` |
| Names.CollapseAround | poopip.py:184 | a character that is not a separator splits the substitution into independent halves |
| Names.CollapseHead | poopip.py:184 | the first character of the result is `_` for a leading separator and unchanged otherwise |
| Names.CollapseAlphabet | poopip.py:184 | the substitution introduces no character outside the name alphabet |
| Names.CollapseIsCollapsed | poopip.py:184 | in the result every separator is `_` and no two separators are adjacent |
| Names.CollapsedFixed | poopip.py:184 | a string already in collapsed form is left unchanged |
| Names.CollapseRunBefore | poopip.py:184 | a leading run of separators before a word without separators becomes one `_` |
| Names.CollapseJoin | poopip.py:184 | two words without separators joined by any run of separators become the words joined by one `_` |
| Names.CollapseIdempotent | poopip.py:184 | substituting twice gives the same as substituting once |
| Names.CollapseValid | poopip.py:181-184 | the normalised form of a valid name is again a valid name |
| Names.NormalizeIdempotent | poopip.py:173-184 | normalising a normalised name succeeds and changes nothing |
| Names.CollapseOnlyUnderscores | poopip.py:184 | a normalised name (and so a module name) holds no `-` and no `.` |
| Names.IndexKeySeparators | poopip.py:164 | the index key of a normalised name holds no `-` and no `.` |
| Names.LowerValid | poopip.py:214 | lower-casing a valid name without `-` or `.` gives a valid name without `-`, `.` or upper-case letters |
| Names.CollapseDoubleDash | tests/test_pyproject.py:17 | `friendly--bard` collapses to `friendly_bard` |
| Names.CollapseMixedRun | tests/test_pyproject.py:18 | `FrIeNdLy-._.-bArD` collapses to `FrIeNdLy_bArD`, keeping case |
| Names.NormalizeExampleDoubleDash | tests/test_pyproject.py:17-21 | `normalize_name("friendly--bard") == "friendly_bard"` |
| Names.NormalizeExampleMixedRun | tests/test_pyproject.py:18-21 | `normalize_name("FrIeNdLy-._.-bArD") == "FrIeNdLy_bArD"` |
| Names.NormalizeExampleDigits | tests/test_pyproject.py:33 | a name made of digits and letters is its own normal form |
| Names.NormalizeExampleEmpty | tests/test_pyproject.py:26-31 | the empty name is refused |
| Names.NormalizeExampleBadEnds | tests/test_pyproject.py:24-31 | names with spaces, special characters, a leading dash or a trailing underscore are refused |
| Strings.IndexOf | poopip.py:307 | gives the first position where the pattern occurs, and none exactly when it does not occur |
| Strings.SplitFirst | poopip.py:308 | `split(" = ", 1)`: the two parts rebuild the line around the first occurrence, and the first part holds no occurrence |
| Strings.Split | poopip.py:390 | `str.split(c)` gives one part more than there are occurrences of `c`, and no part holds `c` |
| Strings.JoinSplit | poopip.py:390 | joining the split parts with the separator gives the string back |
| Strings.SplitJoin | poopip.py:326 | splitting a join of parts free of the separator gives the parts back |
| Strings.SplitPiece | poopip.py:326 | splitting a piece free of the separator followed by the rest extends the rest's first part |
| Strings.StripLeft | poopip.py:309 | removes exactly the leading whitespace, as `str.isspace()` defines it (ASCII controls and space, and the Unicode spaces such as U+00A0 and U+3000) |
| Strings.StripRight | poopip.py:309 | removes exactly the trailing whitespace, as `str.isspace()` defines it |
| Strings.StripNothing | poopip.py:309 | text with no `str.isspace()` character at either end is left unchanged |
| Strings.StripNoBreakSpace | poopip.py:309 | a trailing no-break space (U+00A0) is stripped |
| Strings.StripIdeographicSpace | poopip.py:309 | a leading ideographic space (U+3000) is stripped |
| Strings.StripKeepsZeroWidthSpace | poopip.py:309 | the zero-width space U+200B, which `str.isspace()` rejects, is kept |
| Strings.Lower | poopip.py:164 | lower-cases character by character and keeps the length |
| Strings.LinesAfterLine | poopip.py:306 | reading a file line by line splits off a first line at its terminator |
| Strings.LinesOfJoinLines | poopip.py:423-428 | lines written each with a terminator are read back as the same lines |
| Wheels.BeforeLast | poopip.py:326 | `rsplit(".", 1)[0]`: the text before the last dot, or all of it when there is none |
| Wheels.WheelStem | poopip.py:323-326 | for a name ending in `.whl`, what is left before the last dot is the name without the extension |
| Wheels.ParseWheelNameCases | poopip.py:319-341 | a name without `.whl` is refused; otherwise a stem of 4 or 5 dashes gives its first two components and any other count is refused |
| Wheels.ParsedHasNoDash | poopip.py:326-341 | the parsed distribution and version contain no dash |
| Wheels.ParseWheelFileName | poopip.py:326-341 | the file name of a wheel, with or without a build tag, parses back to its distribution and version |
| Wheels.ParseWheelJoin | poopip.py:326-341 | five or six dash-free components joined by dashes, with `.whl`, parse back to the first two |
| Wheels.ParseWheelWrongCount | poopip.py:338-339 | a `.whl` name of any other number of components is refused as malformed |
| Wheels.ParseWheelExampleZip | poopip.py:323-324 | `not-a-wheel.zip` is refused before it is split |
| Files.Write | poopip.py:314-316 | opening for writing fails on a directory or a missing parent (ENOTDIR when a file stands on the way, ENOENT otherwise); otherwise adds or replaces exactly that file, keeping an existing file's mode |
| Files.MakeDir | poopip.py:350 | `mkdir` fails when the path exists or its parent is not a directory; otherwise adds exactly that directory |
| Files.MakeDirExistOk | poopip.py:387 | `mkdir(exist_ok=True)` leaves an existing directory alone and otherwise behaves as `mkdir` |
| Files.Unlink | poopip.py:433-435 | `unlink` succeeds exactly on a file, or on a missing path when `missing_ok` and no file stands on the way to it (`missing_ok` excuses ENOENT, not ENOTDIR), and removes only that path |
| Files.Prune | poopip.py:430 | keeps exactly the entries not at or below the path, unchanged |
| Files.RemoveTree | poopip.py:430 | `rmtree` succeeds exactly on a directory and removes it with everything below it |
| Files.CopyTarget | poopip.py:276 | `copy2` into an existing directory copies into a child with the source's name |
| Files.CopyFile | poopip.py:274-276 | `copy2` succeeds exactly when the target is not the source itself, is not a directory, and its parent is a directory; a target that is the source raises `SameFileError`; on success the target holds the source's node |
| Files.Copies | poopip.py:278-279 | the copies below the destination correspond one to one to the entries below the source that the filter keeps, with their nodes |
| Files.CopyOf | poopip.py:278-279 | every kept entry below the source is copied with its node |
| Files.CopyTree | poopip.py:278-279 | `copytree` fails unless the source is a directory and the destination is absent under an existing directory; otherwise adds the destination and the kept copies |
| Files.CopyTreeFilter | poopip.py:278-279 | an entry whose path holds `tests` or a `test_*.py` name is not copied; every other one is, with its node |
| Files.Extract | poopip.py:296-297 | every archive entry lands below the site directory, replacing what was there; everything else is kept |
| Files.ReadText | poopip.py:423-428 | reading succeeds exactly on a file and gives its text |
| Files.WriteWF | poopip.py:270 | writing keeps the filesystem well formed |
| Files.MakeDirWF | poopip.py:387 | creating a directory keeps the filesystem well formed |
| Files.UnlinkWF | poopip.py:433-435 | unlinking keeps the filesystem well formed |
| Files.PresentNotBelowFile | poopip.py:433-435 | in a well-formed filesystem no file stands on the way to an existing entry, so unlinking one never meets ENOTDIR |
| Files.RemoveTreeWF | poopip.py:430 | `rmtree` keeps the filesystem well formed |
| Files.PruneWF | poopip.py:430 | removing a path with everything below it keeps the filesystem well formed, whatever the path |
| Files.NewDirWF | poopip.py:347-369 | a new directory in an existing one, holding four new files, keeps the filesystem well formed |
| Files.CopyFileWF | poopip.py:276 | `copy2` keeps the filesystem well formed |
| Files.CopyTreeWF | poopip.py:279 | `copytree` keeps the filesystem well formed: every copy sits in a copied directory |
| Files.CopyParent | poopip.py:279 | the directory holding a copy is the destination or itself a copied directory |
| Files.WriteAbsent | poopip.py:353-369 | a new file in an existing directory gets exactly the new mode |
| Files.NoChildOfAbsent | poopip.py:347-350 | in a well-formed filesystem nothing sits inside an absent directory |
| Files.NothingBelowAbsent | poopip.py:347-350 | in a well-formed filesystem nothing lies below an absent path |
| Launchers.SplitSpec | poopip.py:390 | `module, func = spec.split(":")` succeeds exactly when the spec holds one colon, and the parts rebuild it |
| Launchers.WriteLauncher | poopip.py:389-407 | one launcher is written at `bin/name` with the stub for its spec and the execute bits added to its mode; a bad spec or an unwritable path is an error |
| Launchers.WriteLauncherEffect | poopip.py:392-407 | after writing one launcher its path holds the executable stub for the spec and every other path is unchanged |
| Launchers.WriteLaunchersAppend | poopip.py:389 | the loop over two tables in turn is the loop over their concatenation |
| Launchers.WriteLaunchersSucceeds | poopip.py:389-407 | the loop writes every launcher exactly when every spec is `module:func` and no target is a directory, in a directory that exists |
| Launchers.WriteLaunchersEffect | poopip.py:389-407 | after a successful loop every script has its executable launcher and nothing else changed |
| Project.FirstUnsupported | poopip.py:205-210 | finds the first unsupported section declared, in the order gui-scripts, entry-points, dynamic |
| Project.FirstFit | poopip.py:235-244 | gives the first candidate that exists with the wanted kind, and none exactly when none does |
| Project.GetTopLevel | poopip.py:230-248 | the top level is `name.py` or `src/name.py` (a file) or `name` or `src/name` (a directory), modules first; none found is `UnresolvableLayout` |
| Project.ParsePyProjectSucceeds | poopip.py:198-227 | which projects parse (manifest readable, name present and valid, no unsupported section, top level found) and what the record holds |
| Project.ParsePyProjectUnsupported | poopip.py:205-210 | each unsupported section is refused by name, in order |
| Project.ModuleNameShape | poopip.py:213-214 | a module name is a valid name in lower case with no `-` or `.` |
| Project.ParsedName | poopip.py:213-214 | a parsed project's dist-info name is the normal form of its name and its module name is that in lower case |
| SiteIndex.Read | poopip.py:149-157 | a registered candidate's entry carries its own path and a non-empty name and version |
| SiteIndex.CandidateChild | poopip.py:148 | the glob yields exactly the entries directly in the site whose name ends in `.dist-info`, hidden names included |
| SiteIndex.HeaderValueStrips | poopip.py:151 | a header value is the raw text after the colon without its leading spaces and tabs, and does not start with one |
| SiteIndex.SameNameLower | poopip.py:153-154 | header names match when their lower-case forms are equal |
| SiteIndex.FieldFirstMatch | poopip.py:153-154 | `parsed.get(key, "")` is the value of the first header named like the key, whatever its case, and "" when there is none |
| SiteIndex.ScanKeys | poopip.py:148-157 | an uninterrupted scan indexes exactly the keys some candidate registers |
| SiteIndex.ScanEntries | poopip.py:148-157 | every indexed entry is the reading of a candidate |
| SiteIndex.ScanErrors | poopip.py:148-157 | a scan stops exactly at the first candidate it cannot read, with that error |
| SiteIndex.FindFresh | poopip.py:141-170 | in a new process on a site with readable records and unique keys, `find_installed` finds a package exactly when a candidate registers it, with its version and dist-info directory, whatever the glob order |
| SiteIndex.CachedIndexIsFinal | poopip.py:143-144 | once the cache holds anything it is returned, whatever the filesystem holds |
| SiteIndex.KeepsRecordsTrans | poopip.py:141-159 | two changes that leave the records alone leave them alone together |
| SiteIndex.KeepsRecordsRead | poopip.py:148-157 | under such a change a candidate reads as before or as unregistered |
| SiteIndex.KeepsRecordsClean | poopip.py:148-157 | such a change keeps every record readable |
| SiteIndex.KeepsRecordsUnique | poopip.py:157 | such a change keeps index keys unique |
| SiteIndex.KeepsRecordsAbsent | poopip.py:157 | such a change keeps an unregistered key unregistered |
| SiteIndex.RemovalKeepsRecords | poopip.py:430-448 | removing entries adds no record |
| Records.Assign | poopip.py:309 | `scripts[name] = spec`: an existing key keeps its place and takes the new value, a new one goes last |
| Records.NoSpaceNoSeparator | poopip.py:425 | text without spaces holds no ` = ` |
| Records.EntryLineSplit | poopip.py:425 | an entry line written for a name splits back into that name and spec |
| Records.EntryLinesNoBreak | poopip.py:368-369 | the lines written to `entry_points.txt` hold no line break |
| Records.EntryPointsLines | poopip.py:367-369 | `entry_points.txt` reads back as the header followed by one line per script |
| Records.ScriptNamesOfEntries | poopip.py:425 | the entry lines read back as the script names |
| Records.ScriptNamesRoundTrip | poopip.py:367-369 | the script names `install_metadata` writes are read back by `uninstall_impl` (poopip.py:423-425) exactly, in order |
| Records.TopLevelRoundTrip | poopip.py:426-428 | a module name without surrounding whitespace reads back from `top_level.txt` |
| Records.ModuleNameRoundTrip | poopip.py:426-428 | the module name of every parsed project reads back as the single top-level name |
| Records.ValidNameRoundTrip | poopip.py:426-428 | a valid name written as one line of `top_level.txt` reads back as exactly that one name |
| Records.AssignDistinct | poopip.py:309 | assigning keeps the keys distinct |
| Records.HarvestDistinct | poopip.py:302-309 | the collected table has distinct names |
| Records.Harvest | poopip.py:302-309 | the table collected from `entry_points.txt` has distinct names, each named by a line holding ` = ` |
| Records.AssignSources | poopip.py:309 | assigning a script adds no name but its own |
| Records.HarvestLineSources | poopip.py:307-309 | one turn of the collecting loop adds at most the name its line names |
| Records.HarvestSources | poopip.py:306-309 | every name the loop ends with was there before or is named by a line it read |
| Records.HarvestNewEntry | poopip.py:307-309 | an entry line for a new script appends it |
| Records.TableAppendable | poopip.py:302-309 | a writable, stripped table with distinct names can be collected one line at a time |
| Records.HarvestEntriesStep | poopip.py:306-309 | one turn of the collecting loop |
| Records.HarvestEntries | poopip.py:306-309 | collecting entry lines of new scripts appends them in order |
| Records.HarvestHeader | poopip.py:307 | the section header contributes no script |
| Records.HarvestRoundTrip | poopip.py:302-309 | collecting an `entry_points.txt` written by `install_metadata` (poopip.py:367-369) gives back the script table |
| Records.Poopmark | poopip.py:313-316 | `poopmark` succeeds exactly in an existing directory whose INSTALLER is not a directory, and then writes only that file, which reads back as `poopip` and a newline |
| Records.RecordedVersionStripped | poopip.py:151-154 | the version read back from `Version: {version}` is the version without its leading blanks, so one without any reads back unchanged |
| Records.RecordedVersionExamples | poopip.py:151-154 | the version " " reads back empty and " 1.0" reads back as "1.0" |
| Records.MetadataReadBack | poopip.py:353-362 | the METADATA written for a valid name reads back with that name and the recorded version |
| Records.FreshChildren | poopip.py:350-369 | the four writes into a new directory each add their file |
| Records.InstallMetadataFresh | poopip.py:344-369 | into a new dist-info directory `install_metadata` writes exactly the four records |
| Records.InstallMetadataEffect | poopip.py:344-369 | `install_metadata` fails only when the dist-info directory cannot be created (`FileExists` when present) and then changes nothing; otherwise it adds the directory and its four records and nothing else |
| Records.WithRecordsWF | poopip.py:344-369 | the dist-info directory with its four records keeps the filesystem well formed |
| Records.RecordsRead | poopip.py:344-362 | the new dist-info directory is a candidate; the index reads it as the project under its key, with its name and recorded version, and passes over it when that version is empty |
| Records.RecordsRegister | poopip.py:344-369 | the index reads the new records as `RecordsRead` states; `top_level.txt` and `entry_points.txt` read back as written |
| Records.InstallMetadataRegisters | poopip.py:344-369 | after a successful `install_metadata` the index (poopip.py:141-159) reads the new dist-info directory as `RecordsRead` states |
| Poopip.Installer.constructor | poopip.py:27 | a new process starts with an empty `_SITE_INDEX` |
| Poopip.Installer.PackageIndex | poopip.py:141-159 | the scan loop's result and the cache it leaves equal the index spec |
| Poopip.Installer.FindInstalled | poopip.py:162-170 | the lookup and the cache it leaves equal the spec |
| Poopip.Installer.UninstallImpl | poopip.py:417-452 | the new filesystem, cache and result equal `UninstallImplSpec` |
| Poopip.Installer.RemoveScripts | poopip.py:432-435 | the unlink loop's state and status equal `UnlinkScripts` |
| Poopip.Installer.RemoveTopLevel | poopip.py:437-448 | the loop over top-level names tries `.pth`, then `.py`, then the package directory, as `RemoveTops` states |
| Poopip.Installer.UninstallLocal | poopip.py:410-414 | equals `UninstallLocalSpec`: a package that is not installed is `NotInstalled` |
| Poopip.Installer.InstallScripts | poopip.py:385-407 | the launcher loop's state and status equal `InstallScriptsSpec` |
| Poopip.Installer.WriteAllLaunchers | poopip.py:389-407 | the loop over the script table leaves the state and the first failure that `WriteLaunchers` gives |
| Poopip.Installer.InstallMetadata | poopip.py:344-369 | the state and status equal `InstallMetadataSpec` |
| Poopip.Installer.Place | poopip.py:268-279 | the placement equals `PlaceSpec` and on error leaves the filesystem alone |
| Poopip.Installer.PlaceAndRecord | poopip.py:268-282 | placement, launchers and records equal `PlaceAndRecordSpec` |
| Poopip.Installer.InstallLocal | poopip.py:255-282 | the new state and result equal `InstallLocalSpec` |
| Poopip.Installer.UnpackWheel | poopip.py:296-311 | extraction, mark, script collection loop and launchers equal `UnpackWheelSpec` |
| Poopip.Installer.CollectScripts | poopip.py:302-309 | the loop over the lines of `entry_points.txt` gives no scripts when the file is absent, the read error when it cannot be read, and otherwise `Harvest` of its lines (distinct names, the last spec given for a name winning) |
| Poopip.InstallWheelAsWritten | poopip.py:285-311 | a wheel name that does not parse, or an index that cannot be read, stops `install_wheel` with an error before anything is written |
| Poopip.Installer.InstallWheel | poopip.py:285-311 | equals `InstallWheelAsWritten`: a package found installed is uninstalled first, whatever its version (see Findings) |
| Poopip.Installer.Install | poopip.py:41-60 | equals `InstallSpec`: missing location, editable wheel, wheel as written, or project |
| PoopipProperties.UnlinkScriptsShrinks | poopip.py:433-435 | the unlink loop only removes entries, and keeps the filesystem well formed |
| PoopipProperties.RemoveTopShrinks | poopip.py:437-448 | removing one top-level name only removes entries, and keeps the filesystem well formed |
| PoopipProperties.RemoveTopsShrinks | poopip.py:437-448 | the loop over top-level names only removes entries |
| PoopipProperties.UninstallShrinks | poopip.py:417-452 | `uninstall_impl` never adds or changes an entry, even when it stops part-way |
| PoopipProperties.UninstallRemovesDistInfo | poopip.py:421-430 | once `uninstall_impl` changes anything or returns True, the package was found and nothing is left of its dist-info directory |
| PoopipProperties.UninstallClears | poopip.py:421-430 | a successful uninstall of a found package leaves no path inside its dist-info directory |
| PoopipProperties.UninstallDropsDistInfo | poopip.py:430 | after True the dist-info directory is gone |
| PoopipProperties.UnlinkScriptsEffect | poopip.py:432-435 | on a well-formed filesystem the unlink loop fails exactly when a listed path is a directory or lies below a file; otherwise it removes exactly the listed paths |
| PoopipProperties.RemoveTopFirstOnly | poopip.py:437-448 | of the `.pth` file, the module and the package of one name only the first present is removed |
| PoopipProperties.FindInstalledAgain | poopip.py:141-170 | a second lookup with the cache the first one left gives the same answer |
| PoopipProperties.UninstallAbsent | poopip.py:410-421 | a package that is not installed: `uninstall_impl` returns False and changes nothing, and `uninstall_local` is `NotInstalled` |
| PoopipProperties.ForgottenKey | poopip.py:148-157 | with the package's dist-info directory gone, no candidate registers its key |
| PoopipProperties.UninstallForgets | poopip.py:417-452 | after a successful uninstall the records stay readable and unique and no candidate registers the package |
| PoopipProperties.UninstallThenNotFound | poopip.py:417-452 | the next process no longer finds an uninstalled package |
| PoopipProperties.NotRelevantBelow | poopip.py:148-149 | nothing below a placement is a path the index reads |
| PoopipProperties.PlacementNames | poopip.py:268-278 | a `.pth`, module or package placement is never taken for a dist-info directory |
| PoopipProperties.PlaceWF | poopip.py:268-279 | placing keeps the filesystem well formed |
| PoopipProperties.PlaceAndRecordWF | poopip.py:268-282 | placing, the launchers and the records keep the filesystem well formed, whether or not they succeed |
| PoopipProperties.PlaceKeepsRecords | poopip.py:268-279 | placing never adds or changes a record |
| PoopipProperties.WriteLaunchersFrame | poopip.py:389-407 | the launcher loop only adds entries, directly inside the bin directory |
| PoopipProperties.WriteLaunchersWF | poopip.py:389-407 | the launcher loop keeps the filesystem well formed |
| PoopipProperties.InstallScriptsFrame | poopip.py:385-407 | `install_scripts` changes only the bin directory and its children |
| PoopipProperties.BinNotRelevant | poopip.py:148-149 | with the bin directory outside the site, a launcher is never a path the index reads |
| PoopipProperties.InstallScriptsKeepsRecords | poopip.py:385-407 | `install_scripts` keeps the filesystem well formed and the records unchanged |
| PoopipProperties.WithRecordsOthers | poopip.py:347-369 | writing the records changes only the new dist-info directory and its files |
| PoopipProperties.RecordsAddedClean | poopip.py:344-369 | adding the records keeps every record readable |
| PoopipProperties.RecordsAddedUnique | poopip.py:344-369 | adding the records of an unregistered package keeps keys unique |
| PoopipProperties.PlaceAndRecordIndexed | poopip.py:268-282 | after placement, launchers and records, the records are readable and unique and the new directory reads as `RecordsRead` states |
| PoopipProperties.InstallLocalSameVersion | poopip.py:261-264 | with the same version installed, `install_local` changes nothing and succeeds |
| PoopipProperties.FindOnly | poopip.py:162-170 | a new process finds the one candidate registering the package, with its version |
| PoopipProperties.InstallLocalFresh | poopip.py:255-282 | after installing a project that was not installed, the next process finds it with its recorded version in its new dist-info directory |
| PoopipProperties.UninstallFound | poopip.py:421-452 | an uninstall that finds the package never returns False |
| PoopipProperties.InstallLocalUpgradeSteps | poopip.py:261-266 | with another version installed, `install_local` uninstalls it first and then places the new one |
| PoopipProperties.InstallLocalOtherVersion | poopip.py:261-266 | with another version found, `install_local` is the uninstall, stopping at its error, followed by the placement and records |
| PoopipProperties.InstallLocalUpgrade | poopip.py:255-282 | after an upgrade the next process finds the new recorded version in its new dist-info directory |
| PoopipProperties.PlaceAndRecordFailed | poopip.py:268-282 | a failed placement, launcher or record step registers nothing new |
| PoopipProperties.UnpackWheelFrame | poopip.py:296-311 | unpacking a wheel changes only extracted paths, the new INSTALLER, the bin directory and launchers |
| PoopipProperties.InstallWheelAsWrittenReinstalls | poopip.py:290-294 | as written, installing a wheel of the installed version removes an installed file that the archive does not bring back |
| PoopipProperties.InstallWheelAsWrittenFound | poopip.py:290-294 | as written, with the package found, `install_wheel` always uninstalls it, stopping at its error, and then unpacks the archive |
| PoopipProperties.InstallWheelSameVersionKept | poopip.py:290-294 | as intended, installing a wheel of the installed version changes nothing and succeeds |
| PoopipProperties.InstallRejects | poopip.py:47-58 | a missing location is `SourceNotFound`, an editable wheel is `EditableWheel`, both changing nothing; a wheel installed is never editable |
| InstallRoundTrip.PlaceFootprint | poopip.py:268-279 | placing into a site lacking all three placements adds only the placement: one file, or the package tree |
| InstallRoundTrip.ScriptsFootprint | poopip.py:385-407 | into an existing bin directory without the launchers, `install_scripts` adds exactly the launchers, as files |
| InstallRoundTrip.RecordsFootprint | poopip.py:347-369 | the records add only the dist-info directory and what lies below it |
| InstallRoundTrip.LaunchersAbsentAfterPlace | poopip.py:268-281 | placing does not create a launcher path |
| InstallRoundTrip.PlaceAndRecordFootprint | poopip.py:268-282 | a fresh install keeps every entry and adds only the placement, the launchers and the dist-info directory, whose records read back |
| InstallRoundTrip.PlaceAndScriptsFootprint | poopip.py:268-281 | placing the source and writing the launchers keeps every entry and adds only the placement and the launchers |
| InstallRoundTrip.ReadRecords | poopip.py:364-369 | the records uninstall reads hold what install wrote |
| InstallRoundTrip.UninstallSteps | poopip.py:417-450 | on records that read back, `uninstall_impl` prunes the dist-info directory, unlinks the scripts, removes the placements and returns True |
| InstallRoundTrip.UnlinkLaunchers | poopip.py:430-435 | after `rmtree` of the dist-info directory the unlink loop removes exactly the launchers |
| InstallRoundTrip.RemovePlacement | poopip.py:437-448 | the loop over the single top-level name removes exactly its placement |
| InstallRoundTrip.InstalledLayout | poopip.py:268-279 | after a fresh install the placements uninstall tries before the right one are absent, and no placement or launcher is inside the dist-info directory |
| InstallRoundTrip.InstallThenUninstall | poopip.py:255-282 | installing a project that is not installed and uninstalling it with `uninstall_local` (poopip.py:410-452) in the next process restores the filesystem exactly |
| InstallRoundTrip.PlaceThenUninstall | poopip.py:268-282 | placing and recording a project whose paths are all absent and then uninstalling it with `uninstall_local` (poopip.py:410-452) in the next process restores the filesystem exactly |
| InstallRoundTrip.RestoredExactly | poopip.py:430-448 | removing exactly what was added gives back the original filesystem |
| Poop.ParseManifest | poop.py:90-122 | without a `pyproject.toml` the version is 0.0.0 and there are no scripts; with one, the `[project]` table's version, default 0.0.0, and scripts |
| Poop.GetTopLevelLegacy | poop.py:125-145 | the top level is `dir/dir.py` (a file), else `dir/dir`, else `dir/src/dir` (directories); none of these is `UnresolvableLayout` |
| Poop.Destination | poop.py:45-48 | the destination is in the site directory, named `<dir>.pth` when editable and after the source otherwise |
| Poop.InstallImplStages | poop.py:42-64 | an existing destination stops the run unchanged with `PlacementConflict`; a failed placement changes nothing; a placement is followed by the launchers |
| Poop.PlaceLegacyKeeps | poop.py:56-62 | placing at a free destination keeps every entry |
| Poop.InstallImplKeeps | poop.py:42-64 | a successful run overwrites no entry except launchers |
| Poop.PlaceLegacyEffect | poop.py:56-62 | a free destination in an existing directory is placed: the `.pth` line, the file copy or the filtered tree |
| Poop.PthSingleLine | poop.py:57-58 | the `.pth` file holds one line, the directory holding the source |
| Poop.RenderNoLineBreak | poop.py:58 | a path of components without line breaks renders without one |
| Poop.CopiedPackage | poop.py:62 | a copied package holds every entry not behind a skipped name and none of the others |
| Poop.InstallImplLaunchers | poop.py:64-87 | after a successful run every script has its executable launcher in the interpreter's directory |
| Poop.LegacyInstaller.constructor | poop.py:24-35 | a run starts on the given filesystem, site and interpreter |
| Poop.LegacyInstaller.InstallScripts | poop.py:67-87 | the launcher loop's state and status equal `WriteLaunchers` in the interpreter's directory |
| Poop.LegacyInstaller.InstallImpl | poop.py:42-64 | the new state and status equal `InstallImplSpec` |

## Left out

- TOML decoding: `pyproject.toml` is taken as already decoded into its `[project]` table (`ProjectTable`), because the decoder is a library.
- `email.parser.HeaderParser`: METADATA is held as the header lines it parses to, each name with its raw value, because the parser is a library. `SiteIndex.Field` does the lookup `Message.get` makes on them.
- SiteIndex.Read: METADATA held as plain text, as another installer writes it, reads as having no headers. A header value with a line break, and headers after a malformed line, are not modelled. Header names are compared in ASCII lower case only.
- Records.MetadataFields: a version holding a line break is kept whole as the value of `Version`. `HeaderParser` reads such a version only up to the break, or takes the next line as a continuation or as the end of the headers.
- Records.RecordsRegister: requires a version without line breaks, for that reason.
- Records.InstallMetadataRegisters: requires a version without line breaks, for that reason.
- PoopipProperties.PlaceAndRecordIndexed: requires a version without line breaks, for that reason.
- PoopipProperties.InstallLocalUpgrade: requires a version without line breaks, for that reason, and one whose recorded version is not empty.
- InstallRoundTrip.PlaceThenUninstall: requires a version without line breaks, for that reason, and one whose recorded version is not empty.
- Files.ReadText: a file whose content is not text reads as the empty string. The model holds METADATA as header lines and a launcher as its entry point, not as their text, and no modelled path reads those files as text.
- Launchers.WriteLauncher: a script name is taken as one path component. A name that pathlib would resolve otherwise is not modelled: the empty name, which makes the path the bin directory itself, `.`, `..`, or a name holding `/`.
- Records.DistInfoPath: `{name}-{version}.dist-info` is taken as one path component. A version holding `/`, which makes `mkdir` fail or reach another directory, is not modelled.
- Poopip.RemoveTop: a top-level name read from `top_level.txt` is taken as one path component. The empty name, `.`, `..` and names holding `/` would make pathlib reach other paths, and are not modelled. The same holds for the module name in `Poopip.PthFile`, `Poopip.ModuleFile` and `Poopip.PackageDir`.
- `print_packages`, `main`, the argument parsers and the messages of `printerr`: these are output only. Each exit becomes an `Error` value.
- `get_site_dir`, `get_bin_dir`, `sys.executable` and `Path.resolve`: these read the environment. They are the fields of `Env`, and locations are taken as resolved.
- `PermissionError`: the model has no permissions, so its handlers in `install` and `uninstall` are not modelled.
- Concurrency, symbolic links and os.linesep: not modelled. The line terminator is `\n`.
- Unicode: `re.IGNORECASE` and `str.lower` are modelled on ASCII letters only.
- Launcher text: the stub's text is represented by its module and function only.
- Records.InstallMetadataSpec: does not copy LICENSE or AUTHORS into the dist-info directory (poopip.py:371-382).
- Files.CopyTree: does not create missing ancestors of the destination as `copytree` does. It refuses them with the parent error instead. In `install_local` the destination's directory is the site directory, which exists.
- Files.Extract: the zip format and a failing or partial extraction are not modelled. Extraction is an opaque merge of the archive's entries.
- Poop.ParseManifest: the regex fallback for interpreters without `tomllib` (poop.py:103-120) is not modelled. That branch is also broken as written: `re.match` is called without a subject.
- `install` and `main` of poop.py: only their output and argument handling differ from what is modelled.
- PoopipProperties.InstallLocalFresh: requires a version whose recorded version is not empty. `package_index` skips a dist-info directory whose version reads back empty, so a project declaring `version = ""` or `version = " "` is installed but never found again. It also requires a version without line breaks, as for `Records.RecordsRegister`.
- InstallRoundTrip.InstallThenUninstall: requires a version without line breaks whose recorded version is not empty, as for `PoopipProperties.InstallLocalFresh`. It also requires that script names hold no ` = `, do not end in ` =`, and contain no line breaks. Without these, `uninstall_impl` reads back different names. It also requires that launchers go to the interpreter's directory.
- The tests themselves are not modelled. A few of their cases are stated as lemmas.

## Findings

| source | as written | input that shows it | evidently intended | confidence | as-written member | corrected member |
|---|---|---|---|---|---|---|
| poopip.py:290-294 | `installed_version` is the pair (version, dist-info path) that `find_installed` returns, and it is compared with the version string, so the comparison is never true | a wheel `pkg-1.0-py3-none-any.whl` installed again while `pkg` 1.0 is installed: the installed package is uninstalled and reinstalled, and files it had that the archive does not bring back are lost | compare the installed version with the wheel's version and return when they are equal, as `install_local` does at poopip.py:261-264 | not executed | PoopipProperties.InstallWheelAsWrittenReinstalls | PoopipProperties.InstallWheelSameVersionKept |
