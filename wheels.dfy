/** Wheel file names (`parse_wheel_name`, poopip.py:319-341): the binary
    distribution format of PEP 427 names an archive
    `{distribution}-{version}(-{build tag})?-{python tag}-{abi tag}-{platform tag}.whl`. */
module Wheels {
  import opened Base
  import opened Strings

  /** `s.rsplit(c, 1)[0]`: the text before the last `c`, or all of `s` when there is none. */
  function BeforeLast(s: string, c: char): (r: string)
    ensures |r| <= |s| && r == s[..|r|]
    ensures c !in s ==> r == s
    ensures c in s ==> |r| < |s| && s[|r|] == c && c !in s[|r| + 1..]
  {
    if c !in s then s
    else if s[|s| - 1] == c then s[..|s| - 1]
    else
      var init := s[..|s| - 1];
      assert s == init + [s[|s| - 1]];
      var r := BeforeLast(init, c);
      assert s[|r| + 1..] == init[|r| + 1..] + [s[|s| - 1]];
      r
  }

  /** The name without its `.whl` extension, split into its dash-separated components. */
  function WheelComponents(wheelName: string): seq<string> {
    Split(BeforeLast(wheelName, '.'), '-')
  }

  /** `parse_wheel_name`: a `.whl` name of five or six components gives its
      distribution and version, anything else is refused. */
  function ParseWheelName(wheelName: string): Result<(string, string)> {
    if !EndsWith(wheelName, ".whl") then Err(NotAWheel(wheelName))
    else
      var components := WheelComponents(wheelName);
      if |components| == 6 || |components| == 5 then Ok((components[0], components[1]))
      else Err(MalformedWheelName(wheelName))
  }

  /** For a name ending in `.whl` the last dot is the one of the extension. */
  lemma WheelStem(wheelName: string)
    requires EndsWith(wheelName, ".whl")
    ensures BeforeLast(wheelName, '.') == wheelName[..|wheelName| - 4]
  {
    var n := |wheelName|;
    var r := BeforeLast(wheelName, '.');
    assert wheelName[n - 4] == '.';
    assert '.' in wheelName;
    assert wheelName[n - 3..] == "whl";
    assert |r| == n - 4 by {
      assert wheelName[n - 4..][0] == '.';
      assert forall k :: n - 3 <= k < n ==> wheelName[k] == "whl"[k - (n - 3)];
    }
  }

  /** The outcome of `parse_wheel_name` in full: which names are refused with
      which error, and what the accepted ones give. */
  lemma ParseWheelNameCases(wheelName: string)
    ensures !EndsWith(wheelName, ".whl") ==> ParseWheelName(wheelName) == Err(NotAWheel(wheelName))
    ensures EndsWith(wheelName, ".whl") ==>
      var stem := wheelName[..|wheelName| - 4];
      ParseWheelName(wheelName) ==
        if Count(stem, '-') == 4 || Count(stem, '-') == 5 then Ok((Split(stem, '-')[0], Split(stem, '-')[1]))
        else Err(MalformedWheelName(wheelName))
  {
    if EndsWith(wheelName, ".whl") {
      WheelStem(wheelName);
    }
  }

  /** A parsed distribution and version never hold a dash. */
  lemma ParsedHasNoDash(wheelName: string)
    requires ParseWheelName(wheelName).Ok?
    ensures '-' !in ParseWheelName(wheelName).value.0
    ensures '-' !in ParseWheelName(wheelName).value.1
  {
  }

  /** The file name a wheel with these tags is published under. */
  function WheelFileName(distribution: string, version: string, build: Option<string>,
                         python: string, abi: string, platform: string): string
  {
    var tags := [python, abi, platform];
    var parts := [distribution, version] + (if build.Some? then [build.value] else []) + tags;
    Join(parts, '-') + ".whl"
  }

  /** Parsing the name of a wheel gives back its distribution and version,
      whether or not it carries a build tag. */
  lemma {:induction false} ParseWheelFileName(distribution: string, version: string, build: Option<string>,
                                           python: string, abi: string, platform: string)
    requires '-' !in distribution && '-' !in version && '-' !in python && '-' !in abi && '-' !in platform
    requires build.Some? ==> '-' !in build.value
    ensures ParseWheelName(WheelFileName(distribution, version, build, python, abi, platform))
         == Ok((distribution, version))
  {
    var parts := [distribution, version] + (if build.Some? then [build.value] else []) + [python, abi, platform];
    assert parts[0] == distribution && parts[1] == version;
    ParseWheelJoin(parts);
  }

  /** Five or six dash-free components joined by dashes, with `.whl`, parse
      back to the first two. */
  lemma {:induction false} ParseWheelJoin(parts: seq<string>)
    requires |parts| == 5 || |parts| == 6
    requires forall i :: 0 <= i < |parts| ==> '-' !in parts[i]
    ensures ParseWheelName(Join(parts, '-') + ".whl") == Ok((parts[0], parts[1]))
  {
    var stem := Join(parts, '-');
    var name := stem + ".whl";
    assert name[|name| - 4..] == ".whl";
    WheelStem(name);
    assert name[..|name| - 4] == stem;
    SplitJoin(parts, '-');
  }

  /** A `.whl` name of any other number of components is refused. */
  lemma {:induction false} ParseWheelWrongCount(parts: seq<string>)
    requires |parts| > 0 && |parts| != 5 && |parts| != 6
    requires forall i :: 0 <= i < |parts| ==> '-' !in parts[i]
    ensures var name := Join(parts, '-') + ".whl";
      ParseWheelName(name) == Err(MalformedWheelName(name))
  {
    var stem := Join(parts, '-');
    var name := stem + ".whl";
    assert name[|name| - 4..] == ".whl";
    WheelStem(name);
    assert name[..|name| - 4] == stem;
    SplitJoin(parts, '-');
  }

  /** A name without the `.whl` extension is refused before it is split. */
  lemma ParseWheelExampleZip(s: string)
    requires s == "not-a-wheel.zip"
    ensures ParseWheelName(s) == Err(NotAWheel(s))
  {
    assert s[|s| - 4..] == ".zip";
  }
}
