/** The version string that setup.py computes when it is loaded (setup.py lines 17-24).
    The header text is searched, line by line, for directives of the form

        <spaces> # <spaces> define <spaces> NB_VERSION_<FIELD> <spaces> <value>

    where FIELD is a run of ASCII capitals and the value is the rest of the line; every
    (FIELD, value) pair found is put into a dictionary, a later pair overriding an earlier one
    with the same FIELD, and the version is MAJOR "." MINOR "." PATCH taken from it. */
module VersionExtraction {
  import opened Wrappers

  // ---------------------------------------------------------------------------
  // Character classes of the pattern
  // ---------------------------------------------------------------------------

  /** Python's `\s` in a str pattern: exactly the characters for which str.isspace() holds,
      newlines included. */
  predicate IsSpace(c: char)
  {
    || c == ' '
    || '\t' <= c <= '\r'                 // \t \n \v \f \r
    || '\U{1C}' <= c <= '\U{1F}'
    || c == '\U{85}' || c == '\U{A0}' || c == '\U{1680}'
    || '\U{2000}' <= c <= '\U{200A}'
    || c == '\U{2028}' || c == '\U{2029}' || c == '\U{202F}' || c == '\U{205F}' || c == '\U{3000}'
  }

  /** `[A-Z]`: ASCII capitals only (the pattern is compiled without IGNORECASE). */
  predicate IsUpper(c: char)
  {
    'A' <= c <= 'Z'
  }

  /** What the group `([A-Z]+)` can capture. */
  predicate IsFieldName(f: string)
  {
    f != [] && forall k :: 0 <= k < |f| ==> IsUpper(f[k])
  }

  ghost predicate AllSpace(w: string)
  {
    forall k :: 0 <= k < |w| ==> IsSpace(w[k])
  }

  /** The literal `lit` occurs in `s` at position `i`. */
  predicate HasAt(s: string, i: nat, lit: string)
  {
    i + |lit| <= |s| && s[i..i + |lit|] == lit
  }

  /** `^` under re.MULTILINE: the start of the text or just after a newline. */
  predicate AtLineStart(s: string, p: nat)
  {
    p == 0 || (p <= |s| && s[p - 1] == '\n')
  }

  // ---------------------------------------------------------------------------
  // Greedy runs: the position where `\s*`, `[A-Z]*` and `.*` stop
  // ---------------------------------------------------------------------------

  /** Where a greedy `\s*` started at `i` stops. */
  function SkipSpace(s: string, i: nat): (j: nat)
    requires i <= |s|
    ensures i <= j <= |s|
    ensures j == |s| || !IsSpace(s[j])
    decreases |s| - i
  {
    if i == |s| || !IsSpace(s[i]) then i else SkipSpace(s, i + 1)
  }

  /** Where a greedy `[A-Z]*` started at `i` stops. */
  function SkipUpper(s: string, i: nat): (j: nat)
    requires i <= |s|
    ensures i <= j <= |s|
    ensures j == |s| || !IsUpper(s[j])
    decreases |s| - i
  {
    if i == |s| || !IsUpper(s[i]) then i else SkipUpper(s, i + 1)
  }

  /** Where a greedy `.*` started at `i` stops: `.` matches everything but a newline. */
  function LineEnd(s: string, i: nat): (j: nat)
    requires i <= |s|
    ensures i <= j <= |s|
    ensures j == |s| || s[j] == '\n'
    decreases |s| - i
  {
    if i == |s| || s[i] == '\n' then i else LineEnd(s, i + 1)
  }

  /** What each run passes over: whitespace, capitals, anything but a newline. */
  lemma {:induction false} SkipSpaceRun(s: string, i: nat)
    requires i <= |s|
    ensures forall k :: i <= k < SkipSpace(s, i) ==> IsSpace(s[k])
    decreases |s| - i
  {
    if i < |s| && IsSpace(s[i]) {
      SkipSpaceRun(s, i + 1);
    }
  }

  lemma {:induction false} SkipUpperRun(s: string, i: nat)
    requires i <= |s|
    ensures forall k :: i <= k < SkipUpper(s, i) ==> IsUpper(s[k])
    decreases |s| - i
  {
    if i < |s| && IsUpper(s[i]) {
      SkipUpperRun(s, i + 1);
    }
  }

  lemma {:induction false} LineEndRun(s: string, i: nat)
    requires i <= |s|
    ensures forall k :: i <= k < LineEnd(s, i) ==> s[k] != '\n'
    decreases |s| - i
  {
    if i < |s| && s[i] != '\n' {
      LineEndRun(s, i + 1);
    }
  }

  /** The three runs stop at the one place where their run ends. */
  lemma {:induction false} SkipSpaceAt(s: string, i: nat, j: nat)
    requires i <= j <= |s|
    requires forall k :: i <= k < j ==> IsSpace(s[k])
    requires j == |s| || !IsSpace(s[j])
    ensures SkipSpace(s, i) == j
  {
    SkipSpaceRun(s, i);
  }

  lemma {:induction false} SkipUpperAt(s: string, i: nat, j: nat)
    requires i <= j <= |s|
    requires forall k :: i <= k < j ==> IsUpper(s[k])
    requires j == |s| || !IsUpper(s[j])
    ensures SkipUpper(s, i) == j
  {
    SkipUpperRun(s, i);
  }

  lemma {:induction false} LineEndAt(s: string, i: nat, j: nat)
    requires i <= j <= |s|
    requires forall k :: i <= k < j ==> s[k] != '\n'
    requires j == |s| || s[j] == '\n'
    ensures LineEnd(s, i) == j
  {
    LineEndRun(s, i);
  }

  // ---------------------------------------------------------------------------
  // One match of the pattern
  // ---------------------------------------------------------------------------

  /** A match: group 1, group 2, and the position where the match ends. */
  datatype Match = Match(field: string, value: string, end: nat)

  /** `t` is spelled `w1 # w2 define w3 NB_VERSION_ field w4 value`, each `w` a whitespace run,
      `w3` and `w4` non-empty: the pattern `\s*#\s*define\s+NB_VERSION_<field>\s+<value>`. */
  ghost predicate SpelledAs(t: string, field: string, value: string, w1: string, w2: string, w3: string, w4: string)
  {
    && AllSpace(w1) && AllSpace(w2)
    && AllSpace(w3) && w3 != []
    && AllSpace(w4) && w4 != []
    && t == w1 + "#" + w2 + "define" + w3 + "NB_VERSION_" + field + w4 + value
  }

  ghost predicate DefineShape(t: string, field: string, value: string)
  {
    exists w1, w2, w3, w4 :: SpelledAs(t, field, value, w1, w2, w3, w4)
  }

  /** The pattern matches `s` at `p` with groups `m.field` and `m.value`, ending at `m.end`,
      and the choices are the ones a greedy regex engine makes: `[A-Z]+` is maximal (it is
      followed by whitespace), the second `\s+` swallows all whitespace, line breaks included,
      and `(.*)$` runs to the end of its line. */
  ghost predicate RegexMatch(s: string, p: nat, m: Match)
  {
    && p < m.end <= |s|
    && IsFieldName(m.field)
    && DefineShape(s[p..m.end], m.field, m.value)
    && '\n' !in m.value
    && (m.end == |s| || s[m.end] == '\n')
    && (if m.value == [] then m.end == |s| else !IsSpace(m.value[0]))
  }

  /** Try the pattern at position `p` of `s` (the `^` is checked by the caller). */
  function MatchAt(s: string, p: nat): (r: Option<Match>)
    requires p <= |s|
    ensures r.Some? ==> p < r.value.end <= |s|
  {
    MatchFrom(s, p, BeforeHash)
  }

  /** Where the matcher stands in the pattern: before the `#`, after it, after `define`,
      or after `NB_VERSION_`. */
  datatype Stage = BeforeHash | AfterHash | AfterDefine | AfterPrefix

  function StagesLeft(stage: Stage): nat
  {
    match stage
    case BeforeHash => 3
    case AfterHash => 2
    case AfterDefine => 1
    case AfterPrefix => 0
  }

  /** The rest of the pattern from `stage`, tried at position `i`. Each step is deterministic:
      a greedy run followed by a character it cannot consume leaves the regex engine nothing
      to backtrack to. */
  function MatchFrom(s: string, i: nat, stage: Stage): (r: Option<Match>)
    requires i <= |s|
    ensures r.Some? ==> i < r.value.end <= |s|
    decreases |s| - i
  {
    match stage
    case BeforeHash =>
      var hash := SkipSpace(s, i);                                 // ^\s*
      if hash == |s| || s[hash] != '#' then None                   // #
      else MatchFrom(s, hash + 1, AfterHash)
    case AfterHash =>
      var kw := SkipSpace(s, i);                                   // \s*
      if !HasAt(s, kw, "define") then None                         // define
      else if kw + 6 == |s| || !IsSpace(s[kw + 6]) then None       // \s+
      else MatchFrom(s, kw + 6, AfterDefine)
    case AfterDefine =>
      var name := SkipSpace(s, i);
      if !HasAt(s, name, "NB_VERSION_") then None                  // NB_VERSION_
      else MatchFrom(s, name + 11, AfterPrefix)
    case AfterPrefix =>
      var fieldEnd := SkipUpper(s, i);                             // ([A-Z]+)
      if fieldEnd == i || fieldEnd == |s| || !IsSpace(s[fieldEnd]) then None
      else
        var valueStart := SkipSpace(s, fieldEnd);                  // \s+
        var valueEnd := LineEnd(s, valueStart);                    // (.*)$
        Some(Match(s[i..fieldEnd], s[valueStart..valueEnd], valueEnd))
  }

  /** Where the pieces of a match starting at `p` lie in `s`: the `#` at `hash`, `define` at
      `kw`, `NB_VERSION_` at `name`, the field up to `fieldEnd`, the value from `valueStart`
      to `valueEnd`, whitespace in between, and each greedy run stopping where the next
      piece begins. */
  ghost predicate Layout(s: string, p: nat, hash: nat, kw: nat, name: nat, fieldEnd: nat, valueStart: nat, valueEnd: nat)
  {
    && p <= hash && hash + 1 <= kw && kw + 6 < name && name + 11 < fieldEnd < valueStart <= valueEnd <= |s|
    && s[hash] == '#' && HasAt(s, kw, "define") && HasAt(s, name, "NB_VERSION_")
    && AllSpace(s[p..hash]) && AllSpace(s[hash + 1..kw]) && AllSpace(s[kw + 6..name])
    && IsFieldName(s[name + 11..fieldEnd])
    && AllSpace(s[fieldEnd..valueStart]) && (valueStart == |s| || !IsSpace(s[valueStart]))
    && '\n' !in s[valueStart..valueEnd] && (valueEnd == |s| || s[valueEnd] == '\n')
  }

  /** Soundness: whatever MatchAt returns is a match of the pattern, as a greedy engine makes it. */
  lemma {:induction false} MatchAtSound(s: string, p: nat)
    requires p <= |s|
    ensures MatchAt(s, p).Some? ==> RegexMatch(s, p, MatchAt(s, p).value)
  {
    if MatchAt(s, p).Some? {
      MatchFromSound(s, p);
      RegexOfStages(s, p, MatchAt(s, p).value);
    }
  }

  /** The rest of the pattern from `stage` matches `s` from `i` as `m` says: the pieces of
      each stage in turn, each whitespace run as long as a greedy engine makes it. */
  ghost predicate MatchesFrom(s: string, i: nat, stage: Stage, m: Match)
    decreases StagesLeft(stage)
  {
    match stage
    case BeforeHash =>
      exists hash: nat :: i <= hash < |s| && s[hash] == '#' && AllSpace(s[i..hash]) && MatchesFrom(s, hash + 1, AfterHash, m)
    case AfterHash =>
      exists kw: nat :: i <= kw && kw + 6 < |s| && HasAt(s, kw, "define") && AllSpace(s[i..kw]) && IsSpace(s[kw + 6])
        && MatchesFrom(s, kw + 6, AfterDefine, m)
    case AfterDefine =>
      exists name: nat :: i <= name && HasAt(s, name, "NB_VERSION_") && AllSpace(s[i..name]) && MatchesFrom(s, name + 11, AfterPrefix, m)
    case AfterPrefix =>
      var fieldEnd := i + |m.field|;
      var valueStart := m.end - |m.value|;
      && fieldEnd < valueStart <= m.end <= |s|
      && m.field == s[i..fieldEnd] && IsFieldName(m.field)
      && AllSpace(s[fieldEnd..valueStart]) && (valueStart == |s| || !IsSpace(s[valueStart]))
      && m.value == s[valueStart..m.end] && '\n' !in m.value && (m.end == |s| || s[m.end] == '\n')
  }

  // Each stage of MatchFrom keeps to MatchesFrom.

  lemma {:induction false} MatchFromSound(s: string, i: nat)
    requires i <= |s| && MatchFrom(s, i, BeforeHash).Some?
    ensures MatchesFrom(s, i, BeforeHash, MatchFrom(s, i, BeforeHash).value)
  {
    var r := MatchFrom(s, i, BeforeHash);
    var hash := SkipSpace(s, i);
    assert hash < |s| && s[hash] == '#' && r == MatchFrom(s, hash + 1, AfterHash);
    SkipSpaceRun(s, i);
    SliceAllSpace(s, i, hash);
    AfterHashSound(s, hash + 1);
  }

  lemma {:induction false} AfterHashSound(s: string, i: nat)
    requires i <= |s| && MatchFrom(s, i, AfterHash).Some?
    ensures MatchesFrom(s, i, AfterHash, MatchFrom(s, i, AfterHash).value)
  {
    var r := MatchFrom(s, i, AfterHash);
    var kw := SkipSpace(s, i);
    assert HasAt(s, kw, "define") && kw + 6 < |s| && IsSpace(s[kw + 6]) && r == MatchFrom(s, kw + 6, AfterDefine);
    SkipSpaceRun(s, i);
    SliceAllSpace(s, i, kw);
    AfterDefineSound(s, kw + 6);
  }

  lemma {:induction false} AfterDefineSound(s: string, i: nat)
    requires i <= |s| && MatchFrom(s, i, AfterDefine).Some?
    ensures MatchesFrom(s, i, AfterDefine, MatchFrom(s, i, AfterDefine).value)
  {
    var r := MatchFrom(s, i, AfterDefine);
    var name := SkipSpace(s, i);
    assert HasAt(s, name, "NB_VERSION_") && r == MatchFrom(s, name + 11, AfterPrefix);
    SkipSpaceRun(s, i);
    SliceAllSpace(s, i, name);
    AfterPrefixSound(s, name + 11);
  }

  lemma {:induction false} AfterPrefixSound(s: string, i: nat)
    requires i <= |s| && MatchFrom(s, i, AfterPrefix).Some?
    ensures MatchesFrom(s, i, AfterPrefix, MatchFrom(s, i, AfterPrefix).value)
  {
    var fieldEnd := SkipUpper(s, i);
    var valueStart := SkipSpace(s, fieldEnd);
    var valueEnd := LineEnd(s, valueStart);
    assert i < fieldEnd < |s| && IsSpace(s[fieldEnd])
      && MatchFrom(s, i, AfterPrefix) == Some(Match(s[i..fieldEnd], s[valueStart..valueEnd], valueEnd));
    SkipUpperRun(s, i);
    SliceUpper(s, i, fieldEnd);
    SkipSpaceRun(s, fieldEnd);
    SliceAllSpace(s, fieldEnd, valueStart);
    LineEndRun(s, valueStart);
    SliceNoNewline(s, valueStart, valueEnd);
  }

  /** A match stage by stage is a match of the whole pattern. */
  lemma {:induction false} RegexOfStages(s: string, p: nat, m: Match)
    requires MatchesFrom(s, p, BeforeHash, m)
    ensures RegexMatch(s, p, m)
  {
    var hash: nat :| p <= hash < |s| && s[hash] == '#' && AllSpace(s[p..hash]) && MatchesFrom(s, hash + 1, AfterHash, m);
    var kw: nat :| hash + 1 <= kw && kw + 6 < |s| && HasAt(s, kw, "define") && AllSpace(s[hash + 1..kw]) && IsSpace(s[kw + 6])
      && MatchesFrom(s, kw + 6, AfterDefine, m);
    var name: nat :| kw + 6 <= name && HasAt(s, name, "NB_VERSION_") && AllSpace(s[kw + 6..name]) && MatchesFrom(s, name + 11, AfterPrefix, m);
    RegexOfPieces(s, p, hash, kw, name, m);
  }

  lemma {:induction false} RegexOfPieces(s: string, p: nat, hash: nat, kw: nat, name: nat, m: Match)
    requires p <= hash < |s| && s[hash] == '#' && AllSpace(s[p..hash])
    requires hash + 1 <= kw && kw + 6 < |s| && HasAt(s, kw, "define") && AllSpace(s[hash + 1..kw]) && IsSpace(s[kw + 6])
    requires kw + 6 <= name && HasAt(s, name, "NB_VERSION_") && AllSpace(s[kw + 6..name])
    requires MatchesFrom(s, name + 11, AfterPrefix, m)
    ensures RegexMatch(s, p, m)
  {
    var fieldEnd := name + 11 + |m.field|;
    var valueStart := m.end - |m.value|;
    assert s[name] == s[name..name + 11][0] == 'N';
    assert Layout(s, p, hash, kw, name, fieldEnd, valueStart, m.end);
    ShapeOfMatch(s, p, hash, kw, name, fieldEnd, valueStart, m.end);
  }

  /** Completeness: wherever the pattern matches, MatchAt finds that very match. With
      MatchAtSound this makes MatchAt(s, p) == Some(m) equivalent to RegexMatch(s, p, m). */
  lemma {:induction false} MatchAtComplete(s: string, p: nat, m: Match)
    requires RegexMatch(s, p, m)
    ensures MatchAt(s, p) == Some(m)
  {
    var hash, kw, name, fieldEnd, valueStart := LayoutOfMatch(s, p, m);
    MatchAtOfLayout(s, p, hash, kw, name, fieldEnd, valueStart, m.end);
  }

  /** The positions of the pieces of a match. */
  lemma {:induction false} LayoutOfMatch(s: string, p: nat, m: Match)
    returns (hash: nat, kw: nat, name: nat, fieldEnd: nat, valueStart: nat)
    requires RegexMatch(s, p, m)
    ensures Layout(s, p, hash, kw, name, fieldEnd, valueStart, m.end)
    ensures m == Match(s[name + 11..fieldEnd], s[valueStart..m.end], m.end)
  {
    var f, v, e := m.field, m.value, m.end;
    var w1, w2, w3, w4 :| SpelledAs(s[p..e], f, v, w1, w2, w3, w4);
    hash, kw, name, fieldEnd, valueStart := SpellingPositions(s, p, e, f, v, w1, w2, w3, w4);
    LayoutOfPieces(s, p, hash, kw, name, fieldEnd, valueStart, e, w1, w2, w3, w4, f, v);
  }

  lemma {:induction false} LayoutOfPieces(s: string, p: nat, hash: nat, kw: nat, name: nat, fieldEnd: nat, valueStart: nat, e: nat,
                                          w1: string, w2: string, w3: string, w4: string, f: string, v: string)
    requires p <= hash && hash + 1 <= kw && kw + 6 <= name && name + 11 <= fieldEnd <= valueStart <= e <= |s|
    requires s[p..hash] == w1 && s[hash] == '#' && s[hash + 1..kw] == w2 && s[kw..kw + 6] == "define"
    requires s[kw + 6..name] == w3 && s[name..name + 11] == "NB_VERSION_" && s[name + 11..fieldEnd] == f
    requires s[fieldEnd..valueStart] == w4 && s[valueStart..e] == v
    requires AllSpace(w1) && AllSpace(w2) && AllSpace(w3) && AllSpace(w4) && w3 != [] && w4 != []
    requires IsFieldName(f) && '\n' !in v && (e == |s| || s[e] == '\n')
    requires if v == [] then e == |s| else !IsSpace(v[0])
    ensures Layout(s, p, hash, kw, name, fieldEnd, valueStart, e)
  {
    if v != [] {
      assert s[valueStart] == s[valueStart..e][0];
    }
  }



  /** The positions of a layout spell out the pattern. */
  lemma {:induction false} ShapeOfMatch(s: string, p: nat, hash: nat, kw: nat, name: nat, fieldEnd: nat, valueStart: nat, valueEnd: nat)
    requires Layout(s, p, hash, kw, name, fieldEnd, valueStart, valueEnd)
    ensures RegexMatch(s, p, Match(s[name + 11..fieldEnd], s[valueStart..valueEnd], valueEnd))
  {
    var w1, w2, w3, w4 := s[p..hash], s[hash + 1..kw], s[kw + 6..name], s[fieldEnd..valueStart];
    var field, value := s[name + 11..fieldEnd], s[valueStart..valueEnd];
    SpellLayout(s, p, hash, kw, name, fieldEnd, valueStart, valueEnd);
    assert SpelledAs(s[p..valueEnd], field, value, w1, w2, w3, w4);
    if value != [] {
      assert value[0] == s[valueStart];
    }
  }

  /** A layout is what MatchAt matches. */
  lemma {:induction false} MatchAtOfLayout(s: string, p: nat, hash: nat, kw: nat, name: nat, fieldEnd: nat, valueStart: nat, valueEnd: nat)
    requires Layout(s, p, hash, kw, name, fieldEnd, valueStart, valueEnd)
    ensures MatchAt(s, p) == Some(Match(s[name + 11..fieldEnd], s[valueStart..valueEnd], valueEnd))
  {
    var m := Match(s[name + 11..fieldEnd], s[valueStart..valueEnd], valueEnd);
    AfterPrefixAt(s, name + 11, fieldEnd, valueStart, valueEnd);
    AfterDefineAt(s, kw + 6, name);
    assert s[kw + 6] == s[kw + 6..name][0];
    AfterHashAt(s, hash + 1, kw);
    MatchAtHash(s, p, hash);
    assert MatchAt(s, p) == Some(m);
  }

  // One lemma per stage of MatchAt: where the stage's greedy run stops, the next stage takes over.

  lemma {:induction false} MatchAtHash(s: string, p: nat, hash: nat)
    requires p <= hash < |s| && s[hash] == '#' && AllSpace(s[p..hash])
    ensures MatchAt(s, p) == MatchFrom(s, hash + 1, AfterHash)
  {
    SpaceOfSlice(s, p, hash);
    SkipSpaceAt(s, p, hash);
    assert MatchAt(s, p) == (var h := SkipSpace(s, p); if h == |s| || s[h] != '#' then None else MatchFrom(s, h + 1, AfterHash));
  }

  lemma {:induction false} AfterHashAt(s: string, i: nat, kw: nat)
    requires i <= kw && HasAt(s, kw, "define") && kw + 6 < |s| && IsSpace(s[kw + 6])
    requires AllSpace(s[i..kw])
    ensures MatchFrom(s, i, AfterHash) == MatchFrom(s, kw + 6, AfterDefine)
  {
    assert s[kw] == s[kw..kw + 6][0] == 'd';
    SpaceOfSlice(s, i, kw);
    SkipSpaceAt(s, i, kw);
    assert MatchFrom(s, i, AfterHash) == (var k := SkipSpace(s, i);
      if !HasAt(s, k, "define") then None else if k + 6 == |s| || !IsSpace(s[k + 6]) then None else MatchFrom(s, k + 6, AfterDefine));
  }

  lemma {:induction false} AfterDefineAt(s: string, i: nat, name: nat)
    requires i <= name && HasAt(s, name, "NB_VERSION_")
    requires AllSpace(s[i..name])
    ensures MatchFrom(s, i, AfterDefine) == MatchFrom(s, name + 11, AfterPrefix)
  {
    assert s[name] == s[name..name + 11][0] == 'N';
    SpaceOfSlice(s, i, name);
    SkipSpaceAt(s, i, name);
    assert MatchFrom(s, i, AfterDefine) == (var n := SkipSpace(s, i); if !HasAt(s, n, "NB_VERSION_") then None else MatchFrom(s, n + 11, AfterPrefix));
  }

  lemma {:induction false} AfterPrefixAt(s: string, i: nat, fieldEnd: nat, valueStart: nat, valueEnd: nat)
    requires i < fieldEnd < valueStart <= valueEnd <= |s|
    requires IsFieldName(s[i..fieldEnd])
    requires AllSpace(s[fieldEnd..valueStart])
    requires valueStart == |s| || !IsSpace(s[valueStart])
    requires '\n' !in s[valueStart..valueEnd]
    requires valueEnd == |s| || s[valueEnd] == '\n'
    ensures MatchFrom(s, i, AfterPrefix) == Some(Match(s[i..fieldEnd], s[valueStart..valueEnd], valueEnd))
  {
    UpperOfSlice(s, i, fieldEnd);
    SkipUpperAt(s, i, fieldEnd);
    SpaceOfSlice(s, fieldEnd, valueStart);
    SkipSpaceAt(s, fieldEnd, valueStart);
    NoNewlineOfSlice(s, valueStart, valueEnd);
    LineEndAt(s, valueStart, valueEnd);
  }

  // Slices and concatenations

  lemma {:induction false} SliceSplit(s: string, a: nat, b: nat, c: nat)
    requires a <= b <= c <= |s|
    ensures s[a..c] == s[a..b] + s[b..c]
  {
  }

  /** `s[a..b] == x + y` splits into two adjacent slices. */
  lemma {:induction false} Unappend(s: string, a: nat, b: nat, x: string, y: string)
    requires a <= b <= |s| && s[a..b] == x + y
    ensures a + |x| <= b
    ensures s[a..a + |x|] == x && s[a + |x|..b] == y
  {
    assert s[a..a + |x|] == (x + y)[..|x|];
    assert s[a + |x|..b] == (x + y)[|x|..];
  }

  lemma {:induction false} SliceAllSpace(s: string, i: nat, j: nat)
    requires i <= j <= |s|
    requires forall k :: i <= k < j ==> IsSpace(s[k])
    ensures AllSpace(s[i..j])
  {
    forall k | 0 <= k < j - i ensures IsSpace(s[i..j][k]) {
      assert s[i..j][k] == s[i + k];
    }
  }

  lemma {:induction false} SpaceOfSlice(s: string, i: nat, j: nat)
    requires i <= j <= |s|
    requires AllSpace(s[i..j])
    ensures forall k :: i <= k < j ==> IsSpace(s[k])
  {
    forall k | i <= k < j ensures IsSpace(s[k]) {
      assert s[k] == s[i..j][k - i];
    }
  }

  lemma {:induction false} SliceUpper(s: string, i: nat, j: nat)
    requires i < j <= |s|
    requires forall k :: i <= k < j ==> IsUpper(s[k])
    ensures IsFieldName(s[i..j])
  {
    forall k | 0 <= k < j - i ensures IsUpper(s[i..j][k]) {
      assert s[i..j][k] == s[i + k];
    }
  }

  lemma {:induction false} UpperOfSlice(s: string, i: nat, j: nat)
    requires i <= j <= |s|
    requires IsFieldName(s[i..j])
    ensures forall k :: i <= k < j ==> IsUpper(s[k])
  {
    forall k | i <= k < j ensures IsUpper(s[k]) {
      assert s[k] == s[i..j][k - i];
    }
  }

  lemma {:induction false} SliceNoNewline(s: string, i: nat, j: nat)
    requires i <= j <= |s|
    requires forall k :: i <= k < j ==> s[k] != '\n'
    ensures '\n' !in s[i..j]
  {
    forall k | 0 <= k < j - i ensures s[i..j][k] != '\n' {
      assert s[i..j][k] == s[i + k];
    }
  }

  lemma {:induction false} NoNewlineOfSlice(s: string, i: nat, j: nat)
    requires i <= j <= |s|
    requires '\n' !in s[i..j]
    ensures forall k :: i <= k < j ==> s[k] != '\n'
  {
    forall k | i <= k < j ensures s[k] != '\n' {
      assert s[k] == s[i..j][k - i];
    }
  }

  /** The slices of a layout concatenate back to the matched text. */
  lemma {:induction false} SpellLayout(s: string, p: nat, hash: nat, kw: nat, name: nat, fieldEnd: nat, valueStart: nat, valueEnd: nat)
    requires p <= hash && hash + 1 <= kw && kw + 6 <= name && name + 11 <= fieldEnd <= valueStart <= valueEnd <= |s|
    requires s[hash] == '#' && HasAt(s, kw, "define") && HasAt(s, name, "NB_VERSION_")
    ensures s[p..valueEnd] == s[p..hash] + "#" + s[hash + 1..kw] + "define" + s[kw + 6..name] + "NB_VERSION_"
                              + s[name + 11..fieldEnd] + s[fieldEnd..valueStart] + s[valueStart..valueEnd]
  {
    assert s[hash..hash + 1] == "#";
    SliceSplit(s, p, hash, hash + 1);
    SliceSplit(s, p, hash + 1, kw);
    SliceSplit(s, p, kw, kw + 6);
    SliceSplit(s, p, kw + 6, name);
    SliceSplit(s, p, name, name + 11);
    SliceSplit(s, p, name + 11, fieldEnd);
    SliceSplit(s, p, fieldEnd, valueStart);
    SliceSplit(s, p, valueStart, valueEnd);
  }

  /** The head of a spelling: `w1 # w2 define`. */
  lemma {:induction false} SpellingHead(s: string, p: nat, sep: nat, w1: string, w2: string)
    requires p <= sep <= |s| && s[p..sep] == w1 + "#" + w2 + "define"
    ensures sep == p + |w1| + 1 + |w2| + 6
    ensures s[p..p + |w1|] == w1 && s[p + |w1|] == '#'
    ensures s[p + |w1| + 1..p + |w1| + 1 + |w2|] == w2
    ensures s[p + |w1| + 1 + |w2|..sep] == "define"
  {
    Unappend(s, p, sep, w1 + "#" + w2, "define");
    Unappend(s, p, sep - 6, w1 + "#", w2);
    Unappend(s, p, p + |w1| + 1, w1, "#");
    assert s[p + |w1|] == s[p + |w1|..p + |w1| + 1][0];
  }

  /** Where each piece of a spelling `w1 # w2 define w3 NB_VERSION_ f w4 v` lies in `s`. */
  lemma {:induction false} SpellingPositions(s: string, p: nat, e: nat, f: string, v: string, w1: string, w2: string, w3: string, w4: string)
    returns (hash: nat, kw: nat, name: nat, fieldEnd: nat, valueStart: nat)
    requires p <= e <= |s| && s[p..e] == w1 + "#" + w2 + "define" + w3 + "NB_VERSION_" + f + w4 + v
    ensures p <= hash && hash + 1 <= kw && kw + 6 <= name && name + 11 <= fieldEnd <= valueStart <= e
    ensures s[p..hash] == w1 && s[hash] == '#' && s[hash + 1..kw] == w2 && s[kw..kw + 6] == "define"
    ensures s[kw + 6..name] == w3 && s[name..name + 11] == "NB_VERSION_" && s[name + 11..fieldEnd] == f
    ensures s[fieldEnd..valueStart] == w4 && s[valueStart..e] == v
  {
    var head := w1 + "#" + w2 + "define";
    var tail := w3 + ("NB_VERSION_" + (f + (w4 + v)));
    assert s[p..e] == head + tail;
    Unappend(s, p, e, head, tail);
    SpellingHead(s, p, p + |head|, w1, w2);
    hash := p + |w1|;
    kw := hash + 1 + |w2|;
    name, fieldEnd, valueStart := SpellingTail(s, kw + 6, e, f, v, w3, w4);
  }

  /** Where the pieces after `define` lie in `s`. */
  lemma {:induction false} SpellingTail(s: string, q: nat, e: nat, f: string, v: string, w3: string, w4: string)
    returns (name: nat, fieldEnd: nat, valueStart: nat)
    requires q <= e <= |s| && s[q..e] == w3 + ("NB_VERSION_" + (f + (w4 + v)))
    ensures q <= name && name + 11 <= fieldEnd <= valueStart <= e
    ensures s[q..name] == w3 && s[name..name + 11] == "NB_VERSION_" && s[name + 11..fieldEnd] == f
    ensures s[fieldEnd..valueStart] == w4 && s[valueStart..e] == v
  {
    name := q + |w3|;
    Unappend(s, q, e, w3, "NB_VERSION_" + (f + (w4 + v)));
    Unappend(s, name, e, "NB_VERSION_", f + (w4 + v));
    fieldEnd := name + 11 + |f|;
    Unappend(s, name + 11, e, f, w4 + v);
    valueStart := fieldEnd + |w4|;
    Unappend(s, fieldEnd, e, w4, v);
  }



  // ---------------------------------------------------------------------------
  // findall, dict, format
  // ---------------------------------------------------------------------------

  /** All matches of the version pattern in `s` from `p` on, scanning as Python's regex engine
      does: the pattern is tried at every position from `p` on; after a match the scan resumes
      where the match ended, after a failure at the next position. */
  function FindAll(s: string, p: nat): (r: seq<(string, string)>)
    requires p <= |s|
    ensures forall i :: 0 <= i < |r| ==> IsFieldName(r[i].0) && '\n' !in r[i].1
    decreases |s| - p
  {
    if AtLineStart(s, p) && MatchAt(s, p).Some? then
      var m := MatchAt(s, p).value;
      MatchAtSound(s, p);
      [(m.field, m.value)] + FindAll(s, m.end)
    else if p == |s| then []
    else FindAll(s, p + 1)
  }

  /** Where the pattern matches at a line start, the scan yields that match's groups and
      resumes where the match ended. */
  lemma {:induction false} FindAllMatched(s: string, p: nat, m: Match)
    requires p <= |s| && AtLineStart(s, p) && RegexMatch(s, p, m)
    ensures FindAll(s, p) == [(m.field, m.value)] + FindAll(s, m.end)
  {
    MatchAtComplete(s, p, m);
  }

  /** Where the pattern has no match at a line start, the scan moves on by one character. */
  lemma {:induction false} FindAllUnmatched(s: string, p: nat)
    requires p < |s| && !(AtLineStart(s, p) && exists m :: RegexMatch(s, p, m))
    ensures FindAll(s, p) == FindAll(s, p + 1)
  {
    if AtLineStart(s, p) && MatchAt(s, p).Some? {
      MatchAtSound(s, p);
    }
  }

  /** Every pair the scan collects is the two groups of a match of the pattern at a line
      start at or after `p`. */
  lemma {:induction false} FindAllSound(s: string, p: nat, i: nat)
    requires p <= |s| && i < |FindAll(s, p)|
    ensures exists q: nat, m :: p <= q && AtLineStart(s, q) && RegexMatch(s, q, m)
                                && FindAll(s, p)[i] == (m.field, m.value)
    decreases |s| - p
  {
    if AtLineStart(s, p) && MatchAt(s, p).Some? {
      var m := MatchAt(s, p).value;
      assert FindAll(s, p) == [(m.field, m.value)] + FindAll(s, m.end);
      if i == 0 {
        MatchAtSound(s, p);
        assert RegexMatch(s, p, m);
      } else {
        FindAllSound(s, m.end, i - 1);
        assert FindAll(s, p)[i] == FindAll(s, m.end)[i - 1];
      }
    } else if p < |s| {
      FindAllSound(s, p + 1, i);
    }
  }

  /** `dict(pairs)`: the pairs are inserted in order, so a later pair overwrites an earlier
      one with the same key. */
  function ToDict(ps: seq<(string, string)>): map<string, string>
  {
    if ps == [] then map[]
    else
      var last := ps[|ps| - 1];
      ToDict(ps[..|ps| - 1])[last.0 := last.1]
  }

  /** The pair at index `i` defines key `k` as `v`, and no later pair defines `k` again. */
  ghost predicate IsLastDefinitionAt(ps: seq<(string, string)>, i: int, k: string, v: string)
  {
    0 <= i < |ps| && ps[i] == (k, v) && forall j :: i < j < |ps| ==> ps[j].0 != k
  }

  ghost predicate IsLastDefinition(ps: seq<(string, string)>, k: string, v: string)
  {
    exists i :: IsLastDefinitionAt(ps, i, k, v)
  }

  /** The dict's keys are the keys of the pairs. */
  lemma {:induction false} ToDictKeys(ps: seq<(string, string)>, k: string)
    ensures k in ToDict(ps) <==> exists i :: 0 <= i < |ps| && ps[i].0 == k
    decreases |ps|
  {
    if ps != [] {
      var n := |ps| - 1;
      ToDictKeys(ps[..n], k);
      if k in ToDict(ps[..n]) {
        var i :| 0 <= i < n && ps[..n][i].0 == k;
        assert ps[i].0 == k;
      }
      if exists i :: 0 <= i < |ps| && ps[i].0 == k {
        var i :| 0 <= i < |ps| && ps[i].0 == k;
        if i < n {
          assert ps[..n][i].0 == k;
        }
      }
    }
  }

  /** The dict maps each key to the value of its last definition, and to nothing else. */
  lemma {:induction false} ToDictLastWins(ps: seq<(string, string)>, k: string, v: string)
    ensures (k in ToDict(ps) && ToDict(ps)[k] == v) <==> IsLastDefinition(ps, k, v)
    decreases |ps|
  {
    if ps != [] {
      var n := |ps| - 1;
      var init := ps[..n];
      ToDictLastWins(init, k, v);
      if ps[n].0 == k {
        if ps[n].1 == v {
          assert IsLastDefinitionAt(ps, n, k, v);
        } else {
          forall i | IsLastDefinitionAt(ps, i, k, v) ensures false {
          }
        }
      } else {
        if IsLastDefinition(init, k, v) {
          var i :| IsLastDefinitionAt(init, i, k, v);
          assert IsLastDefinitionAt(ps, i, k, v);
        }
        if IsLastDefinition(ps, k, v) {
          var i :| IsLastDefinitionAt(ps, i, k, v);
          assert IsLastDefinitionAt(init, i, k, v);
        }
      }
    }
  }

  /** The error formatting raises when a field is missing: KeyError naming that field. */
  datatype VersionError = KeyError(key: string)

  /** The replacement fields of "{MAJOR}.{MINOR}.{PATCH}", in the order format reads them. */
  const Fields: seq<string> := ["MAJOR", "MINOR", "PATCH"]

  /** The version template MAJOR.MINOR.PATCH filled in from `d`: plain textual substitution, with no default
      for a missing key; the first missing field, left to right, is the one reported. */
  function FormatVersion(d: map<string, string>): (r: Result<string, VersionError>)
    ensures r.Ok? <==> forall i :: 0 <= i < |Fields| ==> Fields[i] in d
    ensures r.Ok? ==> r.value == d[Fields[0]] + "." + d[Fields[1]] + "." + d[Fields[2]]
    ensures r.Err? ==> exists i :: 0 <= i < |Fields| && r.error == KeyError(Fields[i])
                                    && Fields[i] !in d
                                    && forall j :: 0 <= j < i ==> Fields[j] in d
  {
    assert Fields[0] == "MAJOR" && Fields[1] == "MINOR" && Fields[2] == "PATCH";
    if "MAJOR" !in d then Err(KeyError("MAJOR"))
    else if "MINOR" !in d then Err(KeyError("MINOR"))
    else if "PATCH" !in d then Err(KeyError("PATCH"))
    else Ok(d["MAJOR"] + "." + d["MINOR"] + "." + d["PATCH"])
  }

  /** `nanobind_version` computed from the header text (setup.py lines 22-24). */
  function ExtractVersion(header: string): Result<string, VersionError>
  {
    FormatVersion(ToDict(FindAll(header, 0)))
  }

  // ---------------------------------------------------------------------------
  // What the version string is
  // ---------------------------------------------------------------------------

  /** Extraction succeeds exactly when each of MAJOR, MINOR and PATCH is captured by some match;
      the version is then the last captured MAJOR, MINOR and PATCH values, verbatim,
      joined with dots. */
  lemma {:induction false} ExtractVersionOk(header: string, major: string, minor: string, patch: string)
    requires IsLastDefinition(FindAll(header, 0), "MAJOR", major)
    requires IsLastDefinition(FindAll(header, 0), "MINOR", minor)
    requires IsLastDefinition(FindAll(header, 0), "PATCH", patch)
    ensures ExtractVersion(header) == Ok(major + "." + minor + "." + patch)
  {
    var ps := FindAll(header, 0);
    ToDictLastWins(ps, "MAJOR", major);
    ToDictLastWins(ps, "MINOR", minor);
    ToDictLastWins(ps, "PATCH", patch);
  }

  /** A field that no match captures makes extraction fail; no version string is produced. */
  lemma {:induction false} ExtractVersionMissing(header: string, field: string)
    requires field in Fields
    requires forall i :: 0 <= i < |FindAll(header, 0)| ==> FindAll(header, 0)[i].0 != field
    ensures ExtractVersion(header).Err?
    ensures ExtractVersion(header).error.key in Fields
    ensures ExtractVersion(header).error.key !in ToDict(FindAll(header, 0))
  {
    ToDictKeys(FindAll(header, 0), field);
  }

  /** Swapping two adjacent definitions of different fields does not change the dict:
      the order of the define lines matters only between definitions of the same field. */
  lemma {:induction false} ToDictSwap(a: seq<(string, string)>, x: (string, string), y: (string, string), b: seq<(string, string)>)
    requires x.0 != y.0
    ensures ToDict(a + [x, y] + b) == ToDict(a + [y, x] + b)
    decreases |b|
  {
    if b == [] {
      assert (a + [x, y] + b)[..|a| + 1] == a + [x];
      assert (a + [y, x] + b)[..|a| + 1] == a + [y];
      assert (a + [x] )[..|a|] == a;
      assert (a + [y] )[..|a|] == a;
      assert ToDict(a + [x, y] + b) == ToDict(a)[x.0 := x.1][y.0 := y.1];
      assert ToDict(a + [y, x] + b) == ToDict(a)[y.0 := y.1][x.0 := x.1];
    } else {
      var n := |b| - 1;
      ToDictSwap(a, x, y, b[..n]);
      assert (a + [x, y] + b)[..|a| + 2 + n] == a + [x, y] + b[..n];
      assert (a + [y, x] + b)[..|a| + 2 + n] == a + [y, x] + b[..n];
    }
  }

  /** A definition of a field other than `k` (NB_VERSION_DEV, say) leaves what the dict
      says about `k` as it is, wherever it stands. */
  lemma {:induction false} ToDictIgnoresOtherKey(a: seq<(string, string)>, x: (string, string), b: seq<(string, string)>, k: string)
    requires x.0 != k
    ensures k in ToDict(a + [x] + b) <==> k in ToDict(a + b)
    ensures k in ToDict(a + b) ==> ToDict(a + [x] + b)[k] == ToDict(a + b)[k]
    decreases |b|
  {
    if b == [] {
      assert (a + [x] + b)[..|a|] == a;
      assert a + b == a;
    } else {
      var n := |b| - 1;
      ToDictIgnoresOtherKey(a, x, b[..n], k);
      assert (a + [x] + b)[..|a| + 1 + n] == a + [x] + b[..n];
      assert (a + b)[..|a| + n] == a + b[..n];
    }
  }

  /** Extra fields are collected but do not affect the version string. */
  lemma {:induction false} ExtraFieldIgnored(a: seq<(string, string)>, x: (string, string), b: seq<(string, string)>)
    requires x.0 !in Fields
    ensures FormatVersion(ToDict(a + [x] + b)) == FormatVersion(ToDict(a + b))
  {
    ToDictIgnoresOtherKey(a, x, b, "MAJOR");
    ToDictIgnoresOtherKey(a, x, b, "MINOR");
    ToDictIgnoresOtherKey(a, x, b, "PATCH");
  }
}
