/** Version headers written line by line, and what the version extraction of setup.py
    (lines 17-24) makes of them: every `#define NB_VERSION_<FIELD> <value>` line is collected,
    in order, and nothing else is. */
module VersionHeaders {
  import opened Wrappers
  import opened VersionExtraction

  /** One line of a header: a version define, or any other line. */
  datatype Line = Define(field: string, value: string) | Other(text: string)

  function LineText(l: Line): string
  {
    match l
    case Define(f, v) => "#" + "define" + " " + "NB_VERSION_" + f + " " + v
    case Other(t) => t
  }

  /** The header text: each line followed by a newline. */
  function Render(lines: seq<Line>): string
  {
    if lines == [] then [] else LineText(lines[0]) + "\n" + Render(lines[1..])
  }

  /** The (field, value) pair a line defines, if any. */
  function LineDefines(l: Line): seq<(string, string)>
  {
    if l.Define? then [(l.field, l.value)] else []
  }

  /** The (field, value) pairs of the define lines, in order. */
  function Defines(lines: seq<Line>): seq<(string, string)>
  {
    if lines == [] then [] else LineDefines(lines[0]) + Defines(lines[1..])
  }

  /** A line that is not a version define and that the pattern cannot start on: it begins with
      a character other than whitespace, and if that is `#`, the directive name right after it
      is not `define` (`#pragma once`, `#include <...>`, `// comment` are such lines).
      Blank or indented lines are not covered: the pattern's leading whitespace runs across
      line breaks, so a match may start on them. */
  predicate OtherLine(t: string)
  {
    && t != [] && '\n' !in t && !IsSpace(t[0])
    && (t[0] == '#' ==> |t| >= 2 && !IsSpace(t[1]) && !(|t| >= 7 && t[1..7] == "define"))
  }

  /** A define line whose field is a run of capitals and whose value is the non-empty rest of
      the line, not starting with whitespace; or another line as above. */
  predicate WellFormed(l: Line)
  {
    match l
    case Define(f, v) => IsFieldName(f) && v != [] && !IsSpace(v[0]) && '\n' !in v
    case Other(t) => OtherLine(t)
  }

  predicate WellFormedHeader(lines: seq<Line>)
  {
    forall i :: 0 <= i < |lines| ==> WellFormed(lines[i])
  }

  // ---------------------------------------------------------------------------
  // findall over a rendered header
  // ---------------------------------------------------------------------------

  /** findall over a header collects exactly the define lines, in order. */
  lemma {:induction false} FindAllRendered(s: string, q: nat, lines: seq<Line>)
    requires q <= |s| && AtLineStart(s, q) && s[q..] == Render(lines)
    requires WellFormedHeader(lines)
    ensures FindAll(s, q) == Defines(lines)
    decreases |lines|
  {
    if lines == [] {
      MatchAtEmpty(s, q);
    } else {
      var next := FindAllLine(s, q, lines[0], lines[1..]);
      assert WellFormedHeader(lines[1..]) by {
        forall i | 0 <= i < |lines[1..]| ensures WellFormed(lines[1..][i]) {
          assert lines[1..][i] == lines[i + 1];
        }
      }
      FindAllRendered(s, next, lines[1..]);
    }
  }

  /** findall over one line of a header: the line's define, if any, then the rest. */
  lemma {:induction false} FindAllLine(s: string, q: nat, l: Line, rest: seq<Line>) returns (next: nat)
    requires q <= |s| && AtLineStart(s, q) && s[q..] == LineText(l) + "\n" + Render(rest)
    requires WellFormed(l)
    ensures next <= |s| && AtLineStart(s, next) && s[next..] == Render(rest)
    ensures FindAll(s, q) == LineDefines(l) + FindAll(s, next)
  {
    var t := LineText(l);
    var e := q + |t|;
    Unappend(s, q, |s|, t + "\n", Render(rest));
    Unappend(s, q, e + 1, t, "\n");
    assert s[e] == s[e..e + 1][0] == '\n';
    next := e + 1;
    if l.Define? {
      FindAllDefine(s, q, l);
    } else {
      FindAllOther(s, q, l);
    }
  }

  lemma {:induction false} FindAllDefine(s: string, q: nat, l: Line)
    requires l.Define? && WellFormed(l)
    requires q + |LineText(l)| < |s| && AtLineStart(s, q)
    requires s[q..q + |LineText(l)|] == LineText(l) && s[q + |LineText(l)|] == '\n'
    ensures FindAll(s, q) == LineDefines(l) + FindAll(s, q + |LineText(l)| + 1)
  {
    DefineLineMatches(s, q, l.field, l.value);
    LineTextNoNewline(l);
    LineInterior(s, q, LineText(l));
    ScanMatched(s, q, Match(l.field, l.value, q + |LineText(l)|));
  }

  lemma {:induction false} FindAllOther(s: string, q: nat, l: Line)
    requires l.Other? && WellFormed(l)
    requires q + |LineText(l)| < |s|
    requires s[q..q + |LineText(l)|] == LineText(l) && s[q + |LineText(l)|] == '\n'
    ensures FindAll(s, q) == LineDefines(l) + FindAll(s, q + |LineText(l)| + 1)
  {
    OtherLineNoMatch(s, q, l.text);
    LineInterior(s, q, l.text);
    ScanUnmatched(s, q, q + |l.text| + 1);
    assert LineDefines(l) + FindAll(s, q + |l.text| + 1) == FindAll(s, q + |l.text| + 1);
  }

  /** A well-formed line holds no line break. */
  lemma {:induction false} LineTextNoNewline(l: Line)
    requires WellFormed(l)
    ensures '\n' !in LineText(l)
  {
    if l.Define? {
      var t := LineText(l);
      var head := "#" + "define" + " " + "NB_VERSION_";
      assert t == head + l.field + " " + l.value;
      forall k | 0 <= k < |t| ensures t[k] != '\n' {
        if k < |head| {
          assert t[k] == head[k];
        } else if k < |head| + |l.field| {
          assert t[k] == l.field[k - |head|];
          assert IsUpper(l.field[k - |head|]);
        } else if k == |head| + |l.field| {
          assert t[k] == ' ';
        } else {
          assert t[k] == l.value[k - |head| - |l.field| - 1];
        }
      }
    }
  }

  /** No position inside a line, or just after its last character, starts a line. */
  lemma {:induction false} LineInterior(s: string, q: nat, t: string)
    requires q + |t| <= |s| && s[q..q + |t|] == t && '\n' !in t
    ensures forall k :: q < k <= q + |t| ==> !AtLineStart(s, k)
  {
    forall k | q < k <= q + |t| ensures !AtLineStart(s, k) {
      assert s[k - 1] == s[q..q + |t|][k - 1 - q] == t[k - 1 - q];
    }
  }

  /** The scan takes a match at a line start and skips to the next line start. */
  lemma {:induction false} ScanMatched(s: string, q: nat, m: Match)
    requires q <= |s| && AtLineStart(s, q) && MatchAt(s, q) == Some(m) && m.end < |s|
    requires forall k :: q < k <= m.end ==> !AtLineStart(s, k)
    ensures FindAll(s, q) == [(m.field, m.value)] + FindAll(s, m.end + 1)
  {
    MatchAtSound(s, q);
    FindAllMatched(s, q, m);
    FindAllSkip(s, m.end, m.end + 1);
  }

  /** The scan passes over a line on which the pattern does not match. */
  lemma {:induction false} ScanUnmatched(s: string, q: nat, next: nat)
    requires q < next <= |s| && MatchAt(s, q) == None
    requires forall k :: q < k < next ==> !AtLineStart(s, k)
    ensures FindAll(s, q) == FindAll(s, next)
  {
    if m :| RegexMatch(s, q, m) {
      MatchAtComplete(s, q, m);
    }
    FindAllUnmatched(s, q);
    FindAllSkip(s, q + 1, next);
  }

  /** At the end of the text there is nothing to match. */
  lemma {:induction false} MatchAtEmpty(s: string, q: nat)
    requires q == |s|
    ensures MatchAt(s, q) == None
  {
    assert SkipSpace(s, q) == q;
    assert MatchAt(s, q) == MatchFrom(s, q, BeforeHash);
  }

  /** Positions that are not line starts contribute nothing to findall. */
  lemma {:induction false} FindAllSkip(s: string, i: nat, j: nat)
    requires i <= j <= |s|
    requires forall k :: i <= k < j ==> !AtLineStart(s, k)
    ensures FindAll(s, i) == FindAll(s, j)
    decreases j - i
  {
    if i < j {
      FindAllUnmatched(s, i);
      FindAllSkip(s, i + 1, j);
    }
  }

  /** A define line, followed by a newline, is matched as a whole. */
  lemma {:induction false} DefineLineMatches(s: string, q: nat, f: string, v: string)
    requires WellFormed(Define(f, v))
    requires q + |LineText(Define(f, v))| < |s|
    requires s[q..q + |LineText(Define(f, v))|] == LineText(Define(f, v))
    requires s[q + |LineText(Define(f, v))|] == '\n'
    ensures MatchAt(s, q) == Some(Match(f, v, q + |LineText(Define(f, v))|))
  {
    var e := q + |LineText(Define(f, v))|;
    assert AllSpace(" ") by {
      assert " "[0] == ' ';
    }
    assert SpelledAs(s[q..e], f, v, "", "", " ", " ");
    MatchAtComplete(s, q, Match(f, v, e));
  }

  /** The pattern cannot start on another line. */
  lemma {:induction false} OtherLineNoMatch(s: string, q: nat, t: string)
    requires OtherLine(t)
    requires q + |t| < |s| && s[q..q + |t|] == t && s[q + |t|] == '\n'
    ensures MatchAt(s, q) == None
  {
    OtherLineStart(s, q, t);
    NoDirectiveNoMatch(s, q);
  }

  /** The first characters of another line, as the pattern sees them. */
  lemma {:induction false} OtherLineStart(s: string, q: nat, t: string)
    requires OtherLine(t)
    requires q + |t| < |s| && s[q..q + |t|] == t && s[q + |t|] == '\n'
    ensures s[q] == t[0]
    ensures t[0] == '#' ==> q + 1 < |s| && s[q + 1] == t[1] && !HasAt(s, q + 1, "define")
  {
    assert s[q] == s[q..q + |t|][0];
    if t[0] == '#' {
      assert s[q + 1] == s[q..q + |t|][1];
      if HasAt(s, q + 1, "define") {
        if |t| >= 7 {
          SubSlice(s, q, t, 1, 7);
        } else {
          HasAtChar(s, q + 1, "define", q + |t|);
        }
      }
    }
  }

  /** A line starting with neither whitespace nor a `#` followed by `define` does not match. */
  lemma {:induction false} NoDirectiveNoMatch(s: string, q: nat)
    requires q < |s| && !IsSpace(s[q])
    requires s[q] == '#' ==> q + 1 < |s| && !IsSpace(s[q + 1]) && !HasAt(s, q + 1, "define")
    ensures MatchAt(s, q) == None
  {
    SkipSpaceAt(s, q, q);
    assert MatchAt(s, q) == MatchFrom(s, q, BeforeHash);
    if s[q] == '#' {
      SkipSpaceAt(s, q + 1, q + 1);
      assert MatchFrom(s, q, BeforeHash) == MatchFrom(s, q + 1, AfterHash);
    }
  }

  lemma {:induction false} SubSlice(s: string, a: nat, t: string, i: nat, j: nat)
    requires a + |t| <= |s| && s[a..a + |t|] == t && i <= j <= |t|
    ensures s[a + i..a + j] == t[i..j]
  {
    forall k | 0 <= k < j - i
      ensures s[a + i..a + j][k] == t[i..j][k]
    {
      assert s[a + i + k] == s[a..a + |t|][i + k];
    }
  }

  lemma {:induction false} HasAtChar(s: string, i: nat, lit: string, j: nat)
    requires HasAt(s, i, lit) && i <= j < i + |lit|
    ensures s[j] == lit[j - i]
  {
    assert s[j] == s[i..i + |lit|][j - i];
  }

  // ---------------------------------------------------------------------------
  // The version of a rendered header
  // ---------------------------------------------------------------------------

  /** The version of a header depends on its define lines only. */
  lemma {:induction false} HeaderVersion(lines: seq<Line>)
    requires WellFormedHeader(lines)
    ensures ExtractVersion(Render(lines)) == FormatVersion(ToDict(Defines(lines)))
  {
    FindAllRendered(Render(lines), 0, lines);
  }

  lemma {:induction false} DefinesAppend(a: seq<Line>, b: seq<Line>)
    ensures Defines(a + b) == Defines(a) + Defines(b)
    decreases |a|
  {
    if a == [] {
      assert a + b == b;
    } else {
      assert (a + b)[0] == a[0] && (a + b)[1..] == a[1..] + b;
      DefinesAppend(a[1..], b);
    }
  }

  /** A field defined by some pair of `Defines(lines)` is the field of some define line. */
  lemma {:induction false} DefinesFields(lines: seq<Line>, i: nat)
    requires i < |Defines(lines)|
    ensures exists j :: 0 <= j < |lines| && lines[j].Define? && lines[j].field == Defines(lines)[i].0
    decreases |lines|
  {
    var n := |LineDefines(lines[0])|;
    if i < n {
      assert lines[0].Define?;
    } else {
      DefinesFields(lines[1..], i - n);
      var j :| 0 <= j < |lines[1..]| && lines[1..][j].Define? && lines[1..][j].field == Defines(lines[1..])[i - n].0;
      assert lines[j + 1] == lines[1..][j];
    }
  }

  /** The version is the last MAJOR, MINOR and PATCH values of the define lines, verbatim
      (trailing text on the line included), joined with dots. */
  lemma {:induction false} HeaderVersionOk(lines: seq<Line>, major: string, minor: string, patch: string)
    requires WellFormedHeader(lines)
    requires IsLastDefinition(Defines(lines), "MAJOR", major)
    requires IsLastDefinition(Defines(lines), "MINOR", minor)
    requires IsLastDefinition(Defines(lines), "PATCH", patch)
    ensures ExtractVersion(Render(lines)) == Ok(major + "." + minor + "." + patch)
  {
    FindAllRendered(Render(lines), 0, lines);
    ExtractVersionOk(Render(lines), major, minor, patch);
  }

  /** A header with no define line for one of MAJOR, MINOR, PATCH yields KeyError. */
  lemma {:induction false} HeaderMissingField(lines: seq<Line>, field: string)
    requires WellFormedHeader(lines) && field in Fields
    requires forall j :: 0 <= j < |lines| ==> !(lines[j].Define? && lines[j].field == field)
    ensures ExtractVersion(Render(lines)).Err?
    ensures ExtractVersion(Render(lines)).error.key in Fields
  {
    var ps := FindAll(Render(lines), 0);
    FindAllRendered(Render(lines), 0, lines);
    forall i | 0 <= i < |ps| ensures ps[i].0 != field {
      DefinesFields(lines, i);
    }
    ExtractVersionMissing(Render(lines), field);
  }

  /** Three define lines of MAJOR, MINOR and PATCH, in any order among other lines, give
      the version "MAJOR.MINOR.PATCH". */
  lemma {:induction false} HeaderAnyOrder(lines: seq<Line>, major: string, minor: string, patch: string)
    requires WellFormedHeader(lines)
    requires multiset(Defines(lines)) == multiset{("MAJOR", major), ("MINOR", minor), ("PATCH", patch)}
    ensures ExtractVersion(Render(lines)) == Ok(major + "." + minor + "." + patch)
  {
    var ps := Defines(lines);
    OnlyDefinition(ps, "MAJOR", major);
    OnlyDefinition(ps, "MINOR", minor);
    OnlyDefinition(ps, "PATCH", patch);
    HeaderVersionOk(lines, major, minor, patch);
  }

  /** A pair that occurs once, with no other pair of the same key, is the last definition of
      its key. */
  lemma {:induction false} OnlyDefinition(ps: seq<(string, string)>, k: string, v: string)
    requires multiset(ps)[(k, v)] == 1
    requires forall p | p in multiset(ps) :: p.0 == k ==> p == (k, v)
    ensures IsLastDefinition(ps, k, v)
  {
    assert (k, v) in ps;
    var i :| 0 <= i < |ps| && ps[i] == (k, v);
    forall j | i < j < |ps| ensures ps[j].0 != k {
      if ps[j].0 == k {
        assert ps[j] in multiset(ps);
        TwoOccurrences(ps, i, j);
      }
    }
    assert IsLastDefinitionAt(ps, i, k, v);
  }

  lemma {:induction false} TwoOccurrences<T>(ps: seq<T>, i: nat, j: nat)
    requires i < j < |ps| && ps[i] == ps[j]
    ensures multiset(ps)[ps[i]] >= 2
  {
    assert ps == ps[..j] + ps[j..];
    assert ps[..j][i] == ps[i] && ps[j..][0] == ps[j];
    assert multiset(ps) == multiset(ps[..j]) + multiset(ps[j..]);
  }

  /** The pairs of a header with line `x` between `a` and `b`. */
  lemma {:induction false} DefinesAround(a: seq<Line>, x: Line, b: seq<Line>)
    ensures Defines(a + [x] + b) == Defines(a) + LineDefines(x) + Defines(b)
  {
    DefinesAppend(a + [x], b);
    DefinesAppend(a, [x]);
    assert [x][1..] == [];
  }

  /** Swapping two adjacent lines does not change the version, unless both define the same
      field. */
  lemma {:induction false} HeaderSwap(a: seq<Line>, x: Line, y: Line, b: seq<Line>)
    requires WellFormedHeader(a + [x, y] + b)
    requires !(x.Define? && y.Define? && x.field == y.field)
    ensures ExtractVersion(Render(a + [x, y] + b)) == ExtractVersion(Render(a + [y, x] + b))
  {
    var xy, yx := a + [x, y] + b, a + [y, x] + b;
    assert WellFormedHeader(yx) by {
      forall i | 0 <= i < |yx| ensures WellFormed(yx[i]) {
        if i == |a| {
          assert yx[i] == xy[i + 1];
        } else if i == |a| + 1 {
          assert yx[i] == xy[i - 1];
        } else {
          assert yx[i] == xy[i];
        }
      }
    }
    HeaderVersion(xy);
    HeaderVersion(yx);
    DefinesSwap(a, x, y, b);
  }

  lemma {:induction false} DefinesSwap(a: seq<Line>, x: Line, y: Line, b: seq<Line>)
    requires !(x.Define? && y.Define? && x.field == y.field)
    ensures ToDict(Defines(a + [x, y] + b)) == ToDict(Defines(a + [y, x] + b))
  {
    DefinesPair(a, x, y, b);
    DefinesPair(a, y, x, b);
    PairsSwap(Defines(a), LineDefines(x), LineDefines(y), Defines(b));
  }

  /** Two adjacent runs of at most one pair each, not defining the same key, commute. */
  lemma {:induction false} PairsSwap(da: seq<(string, string)>, lx: seq<(string, string)>, ly: seq<(string, string)>, db: seq<(string, string)>)
    requires |lx| <= 1 && |ly| <= 1
    requires lx != [] && ly != [] ==> lx[0].0 != ly[0].0
    ensures ToDict(da + lx + ly + db) == ToDict(da + ly + lx + db)
  {
    if lx != [] && ly != [] {
      ToDictSwap(da, lx[0], ly[0], db);
      assert da + lx + ly + db == da + [lx[0], ly[0]] + db;
      assert da + ly + lx + db == da + [ly[0], lx[0]] + db;
    } else {
      assert da + lx + ly + db == da + ly + lx + db;
    }
  }

  lemma {:induction false} DefinesPair(a: seq<Line>, x: Line, y: Line, b: seq<Line>)
    ensures Defines(a + [x, y] + b) == Defines(a) + LineDefines(x) + LineDefines(y) + Defines(b)
  {
    DefinesAround(a, x, [y] + b);
    assert a + [x, y] + b == a + [x] + ([y] + b);
    assert ([y] + b)[0] == y && ([y] + b)[1..] == b;
  }

  /** A line that is not a define of MAJOR, MINOR or PATCH (another line, or a define of
      NB_VERSION_DEV, say) does not change the version, wherever it stands. */
  lemma {:induction false} HeaderExtraLine(a: seq<Line>, x: Line, b: seq<Line>)
    requires WellFormedHeader(a + [x] + b)
    requires x.Define? ==> x.field !in Fields
    ensures ExtractVersion(Render(a + [x] + b)) == ExtractVersion(Render(a + b))
  {
    var with, without := a + [x] + b, a + b;
    assert WellFormedHeader(without) by {
      forall i | 0 <= i < |without| ensures WellFormed(without[i]) {
        if i < |a| {
          assert without[i] == with[i];
        } else {
          assert without[i] == with[i + 1];
        }
      }
    }
    HeaderVersion(with);
    HeaderVersion(without);
    DefinesExtra(a, x, b);
  }

  lemma {:induction false} DefinesExtra(a: seq<Line>, x: Line, b: seq<Line>)
    requires x.Define? ==> x.field !in Fields
    ensures FormatVersion(ToDict(Defines(a + [x] + b))) == FormatVersion(ToDict(Defines(a + b)))
  {
    DefinesAround(a, x, b);
    DefinesAppend(a, b);
    if x.Define? {
      ExtraFieldIgnored(Defines(a), (x.field, x.value), Defines(b));
    } else {
      assert Defines(a + [x] + b) == Defines(a + b);
    }
  }
}

module VersionExamples {
  import opened Wrappers
  import opened VersionExtraction
  import opened VersionHeaders

  /** A header with an include guard, the defines out of order and an extra DEV field. */
  const ExampleLines: seq<Line> :=
    [Other("#pragma once"), Define("PATCH", "3"), Define("MAJOR", "1"), Define("DEV", "0"),
     Define("MINOR", "2")]

  lemma {:induction false} ExampleHeader()
    ensures ExtractVersion(Render(ExampleLines)) == Ok("1.2.3")
  {
    ExampleWellFormed();
    var ps := ExampleDefines();
    assert IsLastDefinitionAt(ps, 1, "MAJOR", "1");
    assert IsLastDefinitionAt(ps, 3, "MINOR", "2");
    assert IsLastDefinitionAt(ps, 0, "PATCH", "3");
    HeaderVersionOk(ExampleLines, "1", "2", "3");
    assert "1" + "." + "2" + "." + "3" == "1.2.3";
  }

  lemma {:induction false} ExampleWellFormed()
    ensures WellFormedHeader(ExampleLines)
  {
    assert OtherLine("#pragma once") by {
      assert "#pragma once"[1..7] == "pragma";
    }
    DigitDefineWellFormed("PATCH", "3");
    DigitDefineWellFormed("MAJOR", "1");
    DigitDefineWellFormed("DEV", "0");
    DigitDefineWellFormed("MINOR", "2");
  }

  lemma {:induction false} DigitDefineWellFormed(f: string, v: string)
    requires IsFieldName(f) && |v| == 1 && '0' <= v[0] <= '9'
    ensures WellFormed(Define(f, v))
  {
    assert v == [v[0]];
  }

  lemma {:induction false} ExampleDefines() returns (ps: seq<(string, string)>)
    ensures ps == Defines(ExampleLines)
    ensures ps == [("PATCH", "3"), ("MAJOR", "1"), ("DEV", "0"), ("MINOR", "2")]
  {
    ps := Defines(ExampleLines);
  }

  /** The field name must be followed by whitespace: a line defining
      `NB_VERSION_MAJOR_X`, say, is not a definition of MAJOR. */
  lemma {:induction false} SuffixedFieldNoMatch(s: string, f: string, rest: string)
    requires IsFieldName(f)
    requires s == "#" + "define" + " " + "NB_VERSION_" + f + "_" + rest
    ensures MatchAt(s, 0) == None
  {
    SuffixedFieldLayout(s, f, rest);
    FieldEndNotSpaceNoMatch(s, 19 + |f|);
  }

  lemma {:induction false} SuffixedFieldLayout(s: string, f: string, rest: string)
    requires IsFieldName(f)
    requires s == "#" + "define" + " " + "NB_VERSION_" + f + "_" + rest
    ensures 19 + |f| < |s| && s[0] == '#' && HasAt(s, 1, "define") && s[7] == ' '
    ensures HasAt(s, 8, "NB_VERSION_")
    ensures forall k :: 19 <= k < 19 + |f| ==> IsUpper(s[k])
    ensures s[19 + |f|] == '_'
  {
    var fieldEnd := 19 + |f|;
    var head := "#" + "define" + " " + "NB_VERSION_";
    assert s == head + (f + "_" + rest);
    Unappend(s, 0, |s|, head, f + "_" + rest);
    Unappend(s, 19, |s|, f, "_" + rest);
    Unappend(s, 0, 19, "#" + "define" + " ", "NB_VERSION_");
    Unappend(s, 0, 8, "#" + "define", " ");
    Unappend(s, 0, 7, "#", "define");
    assert s[0] == s[0..1][0];
    assert s[7] == s[7..8][0];
    assert s[fieldEnd] == s[fieldEnd..|s|][0];
    UpperOfSlice(s, 19, fieldEnd);
  }

  /** `#define NB_VERSION_` at the start of `s`, then capitals up to `fieldEnd`, where a
      character that is neither a capital nor whitespace stops the match. */
  lemma {:induction false} FieldEndNotSpaceNoMatch(s: string, fieldEnd: nat)
    requires 19 < fieldEnd < |s| && s[0] == '#' && HasAt(s, 1, "define") && s[7] == ' '
    requires HasAt(s, 8, "NB_VERSION_")
    requires forall k :: 19 <= k < fieldEnd ==> IsUpper(s[k])
    requires !IsUpper(s[fieldEnd]) && !IsSpace(s[fieldEnd])
    ensures MatchAt(s, 0) == None
  {
    assert AllSpace(s[0..0]) && AllSpace(s[1..1]) && AllSpace(s[8..8]);
    MatchAtHash(s, 0, 0);
    AfterHashAt(s, 1, 1);
    AfterDefineAt(s, 8, 8);
    SkipUpperAt(s, 19, fieldEnd);
    assert MatchFrom(s, 19, AfterPrefix) == None;
  }

  /** A define with no value on its line: the whitespace before the value runs over the line
      break, and the next line becomes the value. */
  lemma {:induction false} ValueOnNextLine(s: string, f: string, v: string)
    requires WellFormed(Define(f, v))
    requires s == "#" + "define" + " " + "NB_VERSION_" + f + "\n" + v
    ensures MatchAt(s, 0) == Some(Match(f, v, |s|))
  {
    assert AllSpace(" ") && AllSpace("\n");
    assert SpelledAs(s[0..|s|], f, v, "", "", " ", "\n");
    MatchAtComplete(s, 0, Match(f, v, |s|));
  }
}
