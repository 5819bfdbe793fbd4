/** The string operations of Python that the installer relies on, over
    `seq<char>`: `endswith`, `in`, `split`, `split(sep, 1)`, `strip`,
    `lower` and iteration over the lines of a text file. */
module Strings {
  import opened Base

  predicate StartsWith(s: string, prefix: string) {
    |prefix| <= |s| && s[..|prefix|] == prefix
  }

  predicate EndsWith(s: string, suffix: string) {
    |suffix| <= |s| && s[|s| - |suffix|..] == suffix
  }

  /** `pat` occurs in `s` starting at position `j`. */
  predicate OccursAt(s: string, pat: string, j: int) {
    0 <= j && j + |pat| <= |s| && s[j..j + |pat|] == pat
  }

  /** The position of the first occurrence of `pat` in `s` (`str.find`). */
  function IndexOf(s: string, pat: string): (r: Option<nat>)
    ensures r.Some? ==> OccursAt(s, pat, r.value)
    ensures r.Some? ==> forall j :: 0 <= j < r.value ==> !OccursAt(s, pat, j)
    ensures r.None? ==> forall j :: !OccursAt(s, pat, j)
    decreases |s|
  {
    if |s| < |pat| then None
    else if OccursAt(s, pat, 0) then Some(0)
    else
      assert forall j :: 1 <= j ==> (OccursAt(s, pat, j) <==> OccursAt(s[1..], pat, j - 1));
      match IndexOf(s[1..], pat)
      case None => None
      case Some(i) => Some(i + 1)
  }

  /** Python's `pat in s`. */
  predicate Contains(s: string, pat: string) {
    IndexOf(s, pat).Some?
  }

  /** Python's `s.split(pat, 1)` when `pat` occurs in `s`: the text before
      and after the first occurrence. */
  function SplitFirst(s: string, pat: string): (r: (string, string))
    requires Contains(s, pat)
    ensures r.0 + pat + r.1 == s
    ensures |r.0| == IndexOf(s, pat).value
    ensures |pat| > 0 ==> !Contains(r.0, pat)
  {
    var i := IndexOf(s, pat).value;
    var before := s[..i];
    assert forall j :: OccursAt(before, pat, j) ==> OccursAt(s, pat, j);
    assert s[i..i + |pat|] == pat;
    assert s == before + s[i..i + |pat|] + s[i + |pat|..];
    (before, s[i + |pat|..])
  }

  /** Number of occurrences of the character `c` in `s`. */
  function Count(s: string, c: char): nat {
    if s == [] then 0 else (if s[0] == c then 1 else 0) + Count(s[1..], c)
  }

  /** Python's `s.split(c)` for a one-character separator: the maximal
      pieces between occurrences of `c`, empty pieces included. */
  function Split(s: string, c: char): (parts: seq<string>)
    ensures |parts| == Count(s, c) + 1
    ensures forall i :: 0 <= i < |parts| ==> c !in parts[i]
  {
    if s == [] then [[]]
    else
      var rest := Split(s[1..], c);
      if s[0] == c then [[]] + rest
      else [[s[0]] + rest[0]] + rest[1..]
  }

  /** Python's `c.join(parts)`. */
  function Join(parts: seq<string>, c: char): string
    requires |parts| > 0
  {
    if |parts| == 1 then parts[0] else parts[0] + [c] + Join(parts[1..], c)
  }

  lemma {:induction false} JoinSplit(s: string, c: char)
    ensures Join(Split(s, c), c) == s
  {
    if s != [] {
      JoinSplit(s[1..], c);
      var rest := Split(s[1..], c);
      if s[0] != c && |rest| > 1 {
        assert Join(rest, c) == rest[0] + [c] + Join(rest[1..], c);
        assert Join(Split(s, c), c) == [s[0]] + rest[0] + [c] + Join(rest[1..], c);
      }
    }
  }

  /** Splitting a joined sequence of separator-free pieces gives the pieces back. */
  lemma {:induction false} SplitJoin(parts: seq<string>, c: char)
    requires |parts| > 0
    requires forall i :: 0 <= i < |parts| ==> c !in parts[i]
    ensures Split(Join(parts, c), c) == parts
  {
    if |parts| == 1 {
      SplitPiece(parts[0], [], c);
      assert parts[0] + [] == parts[0];
      assert Split([], c) == [[]];
    } else {
      SplitJoin(parts[1..], c);
      var rest := [c] + Join(parts[1..], c);
      SplitPiece(parts[0], rest, c);
      assert Join(parts, c) == parts[0] + rest;
      assert rest[1..] == Join(parts[1..], c);
      assert Split(rest, c) == [[]] + parts[1..];
      assert parts[0] + [] == parts[0];
    }
  }

  /** A separator-free piece in front of `rest` extends the first part of `Split(rest)`. */
  lemma {:induction false} SplitPiece(piece: string, rest: string, c: char)
    requires c !in piece
    ensures Split(piece + rest, c) == [piece + Split(rest, c)[0]] + Split(rest, c)[1..]
  {
    var tail := Split(rest, c);
    if piece == [] {
      assert piece + rest == rest;
      assert piece + tail[0] == tail[0];
      assert tail == [tail[0]] + tail[1..];
    } else {
      SplitPiece(piece[1..], rest, c);
      assert (piece + rest)[1..] == piece[1..] + rest;
      assert (piece + rest)[0] == piece[0] != c;
      var r := Split(piece[1..] + rest, c);
      assert r == [piece[1..] + tail[0]] + tail[1..];
      assert [piece[0]] + (piece[1..] + tail[0]) == piece + tail[0];
    }
  }

  /** The characters `str.isspace()` accepts, which `str.strip()` removes:
      the ASCII controls and space, NEL, no-break space, the Ogham space
      mark, the spaces U+2000 to U+200A, the line and paragraph separators,
      the narrow no-break space, the medium mathematical space and the
      ideographic space. */
  predicate IsSpace(ch: char) {
    ch == ' ' || ch == '\t' || ch == '\n' || ch == '\r' || ch == '\U{B}' || ch == '\U{C}'
    || ('\U{1C}' <= ch <= '\U{1F}')
    || ch == '\U{85}' || ch == '\U{A0}' || ch == '\U{1680}'
    || ('\U{2000}' <= ch <= '\U{200A}')
    || ch == '\U{2028}' || ch == '\U{2029}' || ch == '\U{202F}' || ch == '\U{205F}' || ch == '\U{3000}'
  }

  function StripLeft(s: string): (r: string)
    ensures |r| <= |s| && r == s[|s| - |r|..]
    ensures forall i :: 0 <= i < |s| - |r| ==> IsSpace(s[i])
    ensures r != [] ==> !IsSpace(r[0])
  {
    if s != [] && IsSpace(s[0]) then StripLeft(s[1..]) else s
  }

  function StripRight(s: string): (r: string)
    ensures |r| <= |s| && r == s[..|r|]
    ensures forall i :: |r| <= i < |s| ==> IsSpace(s[i])
    ensures r != [] ==> !IsSpace(r[|r| - 1])
  {
    if s != [] && IsSpace(s[|s| - 1]) then StripRight(s[..|s| - 1]) else s
  }

  /** Python's `s.strip()`. */
  function Strip(s: string): string {
    StripRight(StripLeft(s))
  }

  lemma StripNothing(s: string)
    requires s != [] ==> !IsSpace(s[0]) && !IsSpace(s[|s| - 1])
    ensures Strip(s) == s
  {
  }

  /** A trailing no-break space is stripped. */
  lemma StripNoBreakSpace()
    ensures Strip("x\U{A0}") == "x"
  {
    assert "x\U{A0}"[..1] == "x";
  }

  /** A leading ideographic space is stripped. */
  lemma StripIdeographicSpace()
    ensures Strip("\U{3000}x") == "x"
  {
    assert "\U{3000}x"[1..] == "x";
  }

  /** The zero-width space is not whitespace to `str.isspace()` and is kept. */
  lemma StripKeepsZeroWidthSpace()
    ensures Strip("\U{200B}") == "\U{200B}"
  {
    assert !IsSpace('\U{200B}');
  }

  function LowerChar(ch: char): char {
    if 'A' <= ch <= 'Z' then (ch as int + 32) as char else ch
  }

  /** Python's `s.lower()` on ASCII text. */
  function Lower(s: string): (r: string)
    ensures |r| == |s|
    ensures forall i :: 0 <= i < |s| ==> r[i] == LowerChar(s[i])
  {
    if s == [] then [] else [LowerChar(s[0])] + Lower(s[1..])
  }

  predicate IsLineBreak(ch: char) {
    ch == '\n' || ch == '\r'
  }

  predicate NoLineBreak(s: string) {
    forall i :: 0 <= i < |s| ==> !IsLineBreak(s[i])
  }

  /** The lines `for line in f` yields for a file opened in text mode, with
      their terminators removed: `\n`, `\r` and `\r\n` all end a line
      (universal newlines), and a last line without terminator still counts. */
  function Lines(text: string): seq<string> {
    LinesAfter(text, [])
  }

  /** The lines of `text` when `current` has already been read on the line in progress. */
  function LinesAfter(text: string, current: string): seq<string>
    decreases |text|
  {
    if text == [] then (if current == [] then [] else [current])
    else if text[0] == '\n' then [current] + LinesAfter(text[1..], [])
    else if text[0] == '\r' then
      [current] + LinesAfter(if |text| > 1 && text[1] == '\n' then text[2..] else text[1..], [])
    else LinesAfter(text[1..], current + [text[0]])
  }

  /** The text written by putting each of `lines` on its own line (`os.linesep`
      is `\n` on the platforms the installer targets). */
  function JoinLines(lines: seq<string>): string {
    if lines == [] then [] else lines[0] + "\n" + JoinLines(lines[1..])
  }

  lemma {:induction false} LinesAfterLine(line: string, rest: string, current: string)
    requires NoLineBreak(line)
    ensures LinesAfter(line + "\n" + rest, current) == [current + line] + LinesAfter(rest, [])
    decreases |line|
  {
    if line == [] {
      assert line + "\n" + rest == "\n" + rest;
      assert ("\n" + rest)[1..] == rest;
      assert current + line == current;
    } else {
      assert (line + "\n" + rest)[1..] == line[1..] + "\n" + rest;
      LinesAfterLine(line[1..], rest, current + [line[0]]);
      assert current + [line[0]] + line[1..] == current + line;
    }
  }

  /** Reading back what `JoinLines` wrote gives the same lines. */
  lemma {:induction false} LinesOfJoinLines(lines: seq<string>)
    requires forall i :: 0 <= i < |lines| ==> NoLineBreak(lines[i])
    ensures Lines(JoinLines(lines)) == lines
  {
    if lines != [] {
      LinesAfterLine(lines[0], JoinLines(lines[1..]), []);
      LinesOfJoinLines(lines[1..]);
      assert [] + lines[0] == lines[0];
      assert lines == [lines[0]] + lines[1..];
    }
  }
}
