/** Values shared by every part of the installer model: optional values,
    results, and the error conditions under which poopip and poop stop. */
module Base {

  datatype Option<+T> = None | Some(value: T)

  /** A path is the sequence of its components: `/usr/lib` is ["usr", "lib"]. */
  type Path = seq<string>

  /** Why an operating-system call raised instead of returning. */
  datatype OsErrorKind = FileNotFound | FileExists | IsADirectory | NotADirectory | SameFile

  /** Every way an operation of the model stops early. The ones the source
      reports through `printerr` (and `exit`) and the exceptions it lets
      escape both end the transaction at the point where they arise. */
  datatype Error =
    | InvalidName(name: string)             // normalize_name rejects a package name
    | NotAWheel(file: string)               // parse_wheel_name: no `.whl` suffix
    | MalformedWheelName(file: string)      // parse_wheel_name: not 5 or 6 components
    | SourceNotFound(location: Path)        // install: the location does not exist
    | EditableWheel(location: Path)         // install: `-e` given for a wheel
    | MissingKey(key: string)               // a required key of pyproject.toml is absent (KeyError)
    | UnsupportedSection(key: string)       // gui-scripts, entry-points or dynamic declared
    | UnresolvableLayout(location: Path)    // no top-level module or package found
    | PlacementConflict(target: Path)       // poop.py: destination already exists (exit code 5)
    | BadScriptSpec(spec: string)           // a script spec is not exactly `module:function`
    | NotInstalled(name: string)            // uninstall of a package that is not indexed
    | OsError(path: Path, kind: OsErrorKind)

  datatype Result<+T> = Ok(value: T) | Err(error: Error)
}
