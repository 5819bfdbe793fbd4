/** Package-name validation and normalisation (`normalize_name`,
    poopip.py:173-184, with the patterns of poopip.py:24-25). */
module Names {
  import opened Base
  import opened Strings

  predicate IsAlnum(ch: char) {
    'A' <= ch <= 'Z' || 'a' <= ch <= 'z' || '0' <= ch <= '9'
  }

  /** The characters `[-._]` whose runs normalisation collapses. */
  predicate IsSep(ch: char) {
    ch == '-' || ch == '.' || ch == '_'
  }

  predicate IsNameChar(ch: char) {
    IsAlnum(ch) || IsSep(ch)
  }

  /** A full match of `^([A-Z0-9]|[A-Z0-9][A-Z0-9._-]*[A-Z0-9])$` ignoring
      case: a non-empty word of letters, digits and separators that starts
      and ends with a letter or digit. */
  predicate ValidName(s: string) {
    && |s| > 0
    && IsAlnum(s[0])
    && IsAlnum(s[|s| - 1])
    && forall i :: 0 <= i < |s| ==> IsNameChar(s[i])
  }

  /** `re.sub("[-._]+", "_", s)`: the last separator of each run becomes `_`,
      the others of the run are dropped, everything else is kept. */
  function Collapse(s: string): string {
    if s == [] then []
    else if IsSep(s[0]) then
      (if |s| > 1 && IsSep(s[1]) then Collapse(s[1..]) else "_" + Collapse(s[1..]))
    else [s[0]] + Collapse(s[1..])
  }

  /** `normalize_name`: reject an invalid name, otherwise collapse its separator runs. */
  function NormalizeName(name: string): Result<string> {
    if ValidName(name) then Ok(Collapse(name)) else Err(InvalidName(name))
  }

  /** The name under which the index files a package: the normalised name in lower case. */
  function IndexKey(normalized: string): string {
    Lower(normalized)
  }

  /** `normalize_name` fails exactly for the empty name, a name holding a
      character outside `[A-Za-z0-9._-]`, and a name starting or ending
      with a separator. */
  lemma NormalizeRejects(name: string)
    ensures NormalizeName(name).Err? <==>
      (|| name == []
       || (exists i :: 0 <= i < |name| && !IsNameChar(name[i]))
       || IsSep(name[0])
       || IsSep(name[|name| - 1]))
    ensures NormalizeName(name).Err? ==> NormalizeName(name).error == InvalidName(name)
  {
    if name != [] && !IsAlnum(name[0]) && !IsSep(name[0]) {
      assert !IsNameChar(name[0]);
    }
    if name != [] && !IsAlnum(name[|name| - 1]) && !IsSep(name[|name| - 1]) {
      assert !IsNameChar(name[|name| - 1]);
    }
  }

  /** Splitting at a character that is not a separator commutes with collapsing. */
  lemma {:induction false} CollapseAround(x: string, ch: char, y: string)
    requires !IsSep(ch)
    ensures Collapse(x + [ch] + y) == Collapse(x) + [ch] + Collapse(y)
  {
    var s := x + [ch] + y;
    if x == [] {
      assert s == [ch] + y;
      assert s[1..] == y;
    } else {
      assert s[0] == x[0];
      assert s[1..] == x[1..] + [ch] + y;
      CollapseAround(x[1..], ch, y);
      if IsSep(x[0]) && |x| == 1 {
        assert s[1] == ch;
        assert Collapse(x) == "_" + Collapse([]);
      } else if IsSep(x[0]) {
        assert s[1] == x[1];
      }
    }
  }

  /** A non-empty run of separators collapses to a single `_`. */
  lemma {:induction false} CollapseRun(run: string)
    requires |run| > 0
    requires forall i :: 0 <= i < |run| ==> IsSep(run[i])
    ensures Collapse(run) == "_"
  {
    if |run| > 1 {
      CollapseRun(run[1..]);
    }
  }

  /** The first character of the result: `_` for a leading run, otherwise unchanged. */
  lemma {:induction false} CollapseHead(s: string)
    requires |s| > 0
    ensures |Collapse(s)| > 0
    ensures Collapse(s)[0] == if IsSep(s[0]) then '_' else s[0]
  {
    if IsSep(s[0]) && |s| > 1 && IsSep(s[1]) {
      CollapseHead(s[1..]);
    }
  }

  /** No character outside the name alphabet appears, and no new one is produced. */
  lemma {:induction false} CollapseAlphabet(s: string)
    requires forall i :: 0 <= i < |s| ==> IsNameChar(s[i])
    ensures forall i :: 0 <= i < |Collapse(s)| ==> IsNameChar(Collapse(s)[i])
  {
    if s != [] {
      CollapseAlphabet(s[1..]);
    }
  }

  /** A string in collapsed form: every separator is `_` and none follows another. */
  predicate Collapsed(t: string) {
    forall i :: 0 <= i < |t| && IsSep(t[i]) ==> t[i] == '_' && (i + 1 < |t| ==> !IsSep(t[i + 1]))
  }

  lemma {:induction false} CollapseIsCollapsed(s: string)
    ensures Collapsed(Collapse(s))
  {
    if s != [] {
      CollapseIsCollapsed(s[1..]);
      var rest := Collapse(s[1..]);
      if IsSep(s[0]) && !(|s| > 1 && IsSep(s[1])) && |s| > 1 {
        CollapseHead(s[1..]);
        assert Collapse(s) == "_" + rest;
      } else if !IsSep(s[0]) {
        assert Collapse(s) == [s[0]] + rest;
      }
    }
  }

  /** A collapsed string is left alone. */
  lemma {:induction false} CollapsedFixed(t: string)
    requires Collapsed(t)
    ensures Collapse(t) == t
  {
    if t != [] {
      assert Collapsed(t[1..]) by {
        forall i | 0 <= i < |t[1..]| && IsSep(t[1..][i])
          ensures t[1..][i] == '_' && (i + 1 < |t[1..]| ==> !IsSep(t[1..][i + 1]))
        {
          assert t[1..][i] == t[i + 1];
        }
      }
      CollapsedFixed(t[1..]);
      if IsSep(t[0]) {
        assert t[0] == '_';
        assert t == "_" + t[1..];
      } else {
        assert t == [t[0]] + t[1..];
      }
    }
  }

  /** Collapsing twice is collapsing once. */
  lemma CollapseIdempotent(s: string)
    ensures Collapse(Collapse(s)) == Collapse(s)
  {
    CollapseIsCollapsed(s);
    CollapsedFixed(Collapse(s));
  }

  /** The normalised form of a valid name is itself a valid name. */
  lemma CollapseValid(s: string)
    requires ValidName(s)
    ensures ValidName(Collapse(s))
  {
    CollapseHead(s);
    CollapseAlphabet(s);
    var last := s[|s| - 1];
    var init := s[..|s| - 1];
    assert s == init + [last] + [];
    CollapseAround(init, last, []);
    assert Collapse(s) == Collapse(init) + [last];
  }

  /** Normalising a normalised name succeeds and changes nothing. */
  lemma NormalizeIdempotent(name: string)
    requires NormalizeName(name).Ok?
    ensures NormalizeName(NormalizeName(name).value) == NormalizeName(name)
  {
    CollapseValid(name);
    CollapseIdempotent(name);
  }

  /** A normalised name has no `-` or `.` left, so neither does its index key. */
  lemma CollapseOnlyUnderscores(s: string)
    ensures '-' !in Collapse(s) && '.' !in Collapse(s)
  {
    CollapseIsCollapsed(s);
  }

  /** Lower-casing one name character gives a name character of the same
      kind and no upper-case letter. */
  lemma LowerNameChar(ch: char)
    requires IsNameChar(ch)
    ensures IsNameChar(LowerChar(ch)) && (IsAlnum(ch) ==> IsAlnum(LowerChar(ch)))
    ensures (LowerChar(ch) == '-' <==> ch == '-') && (LowerChar(ch) == '.' <==> ch == '.')
    ensures !('A' <= LowerChar(ch) <= 'Z')
  {
  }

  /** Lower-casing a valid name without `-` or `.` keeps it so, and leaves
      no upper-case letter. */
  lemma LowerValid(d: string)
    requires ValidName(d) && '-' !in d && '.' !in d
    ensures var m := Lower(d);
      && ValidName(m)
      && '-' !in m && '.' !in m
      && forall i :: 0 <= i < |m| ==> !('A' <= m[i] <= 'Z')
  {
    var m := Lower(d);
    forall i | 0 <= i < |m|
      ensures IsNameChar(m[i]) && m[i] != '-' && m[i] != '.' && !('A' <= m[i] <= 'Z')
      ensures (i == 0 || i == |m| - 1) ==> IsAlnum(m[i])
    {
      LowerNameChar(d[i]);
    }
  }

  lemma IndexKeySeparators(s: string)
    ensures '-' !in IndexKey(Collapse(s)) && '.' !in IndexKey(Collapse(s))
  {
    CollapseOnlyUnderscores(s);
  }

  predicate NoSep(t: string) {
    forall i :: 0 <= i < |t| ==> !IsSep(t[i])
  }

  /** A run of separators before a word without separators becomes a single `_`. */
  lemma {:induction false} CollapseRunBefore(run: string, y: string)
    requires |y| > 0 && NoSep(y)
    requires |run| > 0 && forall i :: 0 <= i < |run| ==> IsSep(run[i])
    ensures Collapse(run + y) == "_" + y
  {
    assert run + y == run + [y[0]] + y[1..];
    CollapseAround(run, y[0], y[1..]);
    CollapseRun(run);
    CollapsedFixed(y[1..]);
    assert "_" + [y[0]] + y[1..] == "_" + y;
  }

  /** A run of separators between two words without separators becomes a
      single `_`, and the words are kept as they are. */
  lemma {:induction false} CollapseJoin(x: string, run: string, y: string)
    requires |x| > 0 && NoSep(x) && |y| > 0 && NoSep(y)
    requires |run| > 0 && forall i :: 0 <= i < |run| ==> IsSep(run[i])
    ensures Collapse(x + run + y) == x + "_" + y
  {
    var x', c := x[..|x| - 1], x[|x| - 1];
    assert x + run + y == x' + [c] + (run + y);
    CollapseAround(x', c, run + y);
    CollapseRunBefore(run, y);
    CollapsedFixed(x');
    assert x' + [c] + ("_" + y) == x + "_" + y;
  }

  lemma {:induction false} CollapseDoubleDash(s: string)
    requires s == "friendly--bard"
    ensures Collapse(s) == "friendly_bard"
  {
    var x, run, y := s[..8], s[8..10], s[10..];
    assert s == x + run + y;
    CollapseJoin(x, run, y);
    assert x + "_" + y == "friendly_bard";
  }

  lemma {:induction false} CollapseMixedRun(s: string)
    requires s == "FrIeNdLy-._.-bArD"
    ensures Collapse(s) == "FrIeNdLy_bArD"
  {
    var x, run, y := s[..8], s[8..13], s[13..];
    assert s == x + run + y;
    CollapseJoin(x, run, y);
    assert x + "_" + y == "FrIeNdLy_bArD";
  }

  /** Cases of the name tests: separators of any mix collapse, case is kept. */
  lemma {:induction false} NormalizeExampleDoubleDash(s: string)
    requires s == "friendly--bard"
    ensures NormalizeName(s) == Ok("friendly_bard")
  {
    CollapseDoubleDash(s);
    assert ValidName(s);
  }

  lemma {:induction false} NormalizeExampleMixedRun(s: string)
    requires s == "FrIeNdLy-._.-bArD"
    ensures NormalizeName(s) == Ok("FrIeNdLy_bArD")
  {
    CollapseMixedRun(s);
    assert ValidName(s);
  }

  lemma {:induction false} NormalizeExampleDigits(s: string)
    requires s == "0weird0"
    ensures NormalizeName(s) == Ok(s)
  {
    assert ValidName(s) && NoSep(s);
    CollapsedFixed(s);
  }

  lemma {:induction false} NormalizeExampleEmpty()
    ensures NormalizeName("") == Err(InvalidName(""))
  {
  }

  lemma {:induction false} NormalizeExampleBadEnds(s: string, t: string, u: string, v: string)
    requires s == "-no bad starts" && t == "no bad ends_" && u == "no spaces"
    requires v == "no'rm -rf *; special characters"
    ensures NormalizeName(s).Err? && NormalizeName(t).Err? && NormalizeName(u).Err? && NormalizeName(v).Err?
  {
    assert IsSep(s[0]);
    assert IsSep(t[|t| - 1]);
    assert !IsNameChar(u[2]);
    assert !IsNameChar(v[2]);
  }
}
