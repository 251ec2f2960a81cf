/** The regular expressions of the FGD parser, each written out as a recogniser
    for exactly the shape the pattern accepts under Python's leftmost, greedy,
    backtracking matching, returning the groups the parser goes on to use.
    `\s` is `IsSpace`, `\d` and `\w` are their ASCII readings, and IGNORECASE
    folds ASCII letters. */
module FgdPatterns {
  import opened Wrappers
  import opened Text
  import opened FgdModel

  // ---------------------------------------------------------------- character runs

  /** The end of the longest run of `p`-characters starting at `i`. */
  function RunEnd(s: string, i: nat, p: char -> bool): (j: nat)
    requires i <= |s|
    ensures i <= j <= |s|
    ensures j < |s| ==> !p(s[j])
    decreases |s| - i
  {
    if i < |s| && p(s[i]) then RunEnd(s, i + 1, p) else i
  }

  /** Every character `RunEnd` passes over satisfies `p`. */
  lemma {:induction false} RunEndChars(s: string, i: nat, p: char -> bool)
    requires i <= |s|
    ensures forall k :: i <= k < RunEnd(s, i, p) ==> p(s[k])
    decreases |s| - i
  {
    if i < |s| && p(s[i]) {
      RunEndChars(s, i + 1, p);
    }
  }

  /** A run of `p`-characters from `i` to `j`, stopped at `j`, is the run `RunEnd` finds. */
  lemma {:induction false} RunEndAt(s: string, i: nat, p: char -> bool, j: nat)
    requires i <= j <= |s|
    requires forall k :: i <= k < j ==> p(s[k])
    requires j < |s| ==> !p(s[j])
    ensures RunEnd(s, i, p) == j
  {
    RunEndChars(s, i, p);
  }

  /** `\s*` from `i`. */
  function SkipSpace(s: string, i: nat): nat
    requires i <= |s|
  {
    RunEnd(s, i, IsSpace)
  }

  predicate NotQuote(c: char) { c != '"' }

  predicate NotSpace(c: char) { !IsSpace(c) }

  predicate NotCloseParen(c: char) { c != ')' }

  /** `[^\s(]`, the characters of an input or output name. */
  predicate IsIoNameChar(c: char) { !IsSpace(c) && c != '(' }

  /** `[\w."]`, the characters of a property name. */
  predicate IsPropNameChar(c: char) { IsWordChar(c) || c == '.' || c == '"' }

  /** The pattern text `p` (lower case) at `i`, letters compared case-insensitively. */
  predicate CiAt(s: string, i: nat, p: string) {
    i + |p| <= |s| && Lower(s[i..i + |p|]) == p
  }

  /** `s.lower().startswith(p)` for a lower-case ASCII `p`. */
  predicate CiStartsWith(s: string, p: string) {
    StartsWith(Lower(s), p)
  }

  // ---------------------------------------------------------------- searching

  /** `re.search`: the match at the leftmost position from `i` where `at` matches
      (`SearchFromNone`, `SearchFromMatch` and `SearchFromLeftmost` state it). */
  function SearchFrom<T>(s: string, i: nat, at: (string, nat) -> Option<T>): (r: Option<T>)
    requires i <= |s|
    ensures r.Some? ==> at(s, i).Some? || i < |s|
    decreases |s| - i
  {
    if at(s, i).Some? then at(s, i)
    else if i == |s| then None
    else SearchFrom(s, i + 1, at)
  }

  /** The search fails exactly when no position from `i` on matches. */
  lemma {:induction false} SearchFromNone<T>(s: string, i: nat, at: (string, nat) -> Option<T>)
    requires i <= |s|
    ensures SearchFrom(s, i, at).None? <==> forall j :: i <= j <= |s| ==> at(s, j).None?
    decreases |s| - i
  {
    if at(s, i).None? && i < |s| {
      SearchFromNone(s, i + 1, at);
    }
  }

  /** A successful search returns the match at some position, with none before it. */
  lemma {:induction false} SearchFromMatch<T>(s: string, i: nat, at: (string, nat) -> Option<T>)
    requires i <= |s| && SearchFrom(s, i, at).Some?
    ensures exists j :: i <= j <= |s| && SearchFrom(s, i, at) == at(s, j) && forall k :: i <= k < j ==> at(s, k).None?
    decreases |s| - i
  {
    if at(s, i).None? {
      SearchFromMatch(s, i + 1, at);
      var j :| i + 1 <= j <= |s| && SearchFrom(s, i + 1, at) == at(s, j) && forall k :: i + 1 <= k < j ==> at(s, k).None?;
      assert forall k :: i <= k < j ==> at(s, k).None?;
    }
  }

  /** The first matching position decides the search. */
  lemma {:induction false} SearchFromLeftmost<T>(s: string, i: nat, at: (string, nat) -> Option<T>, j: nat)
    requires i <= j <= |s| && at(s, j).Some?
    requires forall k :: i <= k < j ==> at(s, k).None?
    ensures SearchFrom(s, i, at) == at(s, j)
    decreases j - i
  {
    if i < j {
      SearchFromLeftmost(s, i + 1, at, j);
    }
  }

  // ---------------------------------------------------------------- pre-processing

  /** The end of a match of `"\s*\+\s*\n\s*"` at `i`: a closing quote, a `+`,
      whitespace holding at least one newline, and an opening quote. */
  function ContinuationAt(s: string, i: nat): (r: Option<nat>)
    requires i <= |s|
    ensures r.Some? ==> i + 3 <= r.value <= |s| && s[i] == '"' && s[r.value - 1] == '"'
  {
    if i < |s| && s[i] == '"' then
      var j := SkipSpace(s, i + 1);
      if j < |s| && s[j] == '+' then
        var k := SkipSpace(s, j + 1);
        if k < |s| && s[k] == '"' && Contains(s[j + 1..k], '\n') then Some(k + 1) else None
      else None
    else None
  }

  /** `re.sub(r'"\s*\+\s*\n\s*"', '', s[i..])`: each `"…" +` line continuation
      is joined into one string. */
  function MergeContinuations(s: string, i: nat): (r: string)
    requires i <= |s|
    ensures |r| <= |s| - i
    decreases |s| - i
  {
    if i == |s| then []
    else match ContinuationAt(s, i)
      case Some(e) => MergeContinuations(s, e)
      case None => [s[i]] + MergeContinuations(s, i + 1)
  }

  /** Text without a quote has no continuation to merge. */
  lemma {:induction false} MergeWithoutQuotes(s: string, i: nat)
    requires i <= |s|
    requires forall k :: i <= k < |s| ==> s[k] != '"'
    ensures MergeContinuations(s, i) == s[i..]
    decreases |s| - i
  {
    if i < |s| {
      MergeWithoutQuotes(s, i + 1);
      assert s[i..] == [s[i]] + s[i + 1..];
    }
  }

  /** `s.replace(']]', ']\n]')`, leftmost pair first. */
  function SplitStackedBrackets(s: string): (r: string)
    ensures |r| >= |s|
  {
    if |s| >= 2 && s[0] == ']' && s[1] == ']' then "]\n]" + SplitStackedBrackets(s[2..])
    else if s == [] then []
    else [s[0]] + SplitStackedBrackets(s[1..])
  }

  /** Text without `]]` is left alone. */
  lemma {:induction false} SplitStackedBracketsNoPair(s: string)
    requires forall j, k | 0 <= j && k == j + 1 < |s| :: !(s[j] == ']' && s[k] == ']')
    ensures SplitStackedBrackets(s) == s
    decreases |s|
  {
    if s != [] {
      assert !(|s| >= 2 && s[0] == ']' && s[1] == ']');
      var t := s[1..];
      assert forall j, k | 0 <= j && k == j + 1 < |t| :: !(t[j] == ']' && t[k] == ']') by {
        forall j, k | 0 <= j && k == j + 1 < |t| ensures !(t[j] == ']' && t[k] == ']') {
          assert t[j] == s[j + 1] && t[k] == s[k + 1];
        }
      }
      SplitStackedBracketsNoPair(t);
    }
  }

  /** The lines `parse_fgd_file` works on, from the file's content. */
  function Preprocess(content: string): (lines: seq<string>)
    ensures forall i :: 0 <= i < |lines| ==> forall j :: 0 <= j < |lines[i]| ==> !IsLineBreak(lines[i][j])
  {
    SplitLines(SplitStackedBrackets(MergeContinuations(content, 0)))
  }

  // ---------------------------------------------------------------- meaningful lines

  /** A line the cursor stops at: not blank and not a `//` comment. */
  predicate Meaningful(line: string) {
    var t := Strip(line);
    t != [] && !StartsWith(t, "//")
  }

  /** The index of the first meaningful line at or after `i`, or `|lines|`. */
  function NextMeaningful(lines: seq<string>, i: nat): (k: nat)
    requires i <= |lines|
    ensures i <= k <= |lines|
    ensures forall j :: i <= j < k ==> !Meaningful(lines[j])
    ensures k < |lines| ==> Meaningful(lines[k])
    decreases |lines| - i
  {
    if i == |lines| || Meaningful(lines[i]) then i else NextMeaningful(lines, i + 1)
  }

  /** What `_peek_next_meaningful_line` returns with the cursor at `i`:
      the stripped next meaningful line, or `None`. */
  function PeekAt(lines: seq<string>, i: nat): (r: Option<string>)
    requires i <= |lines|
    ensures r.Some? ==> r.value != [] && !StartsWith(r.value, "//")
  {
    var k := NextMeaningful(lines, i);
    if k < |lines| then Some(Strip(lines[k])) else None
  }

  /** Where `_get_next_meaningful_line` leaves a cursor that was at `i`. */
  function AfterGet(lines: seq<string>, i: nat): (r: nat)
    requires i <= |lines|
    ensures i <= r <= |lines|
    ensures PeekAt(lines, i).Some? ==> i < r
    ensures PeekAt(lines, i).None? ==> r == |lines|
  {
    var k := NextMeaningful(lines, i);
    if k < |lines| then k + 1 else |lines|
  }

  // ---------------------------------------------------------------- directives

  datatype Directive =
    | IncludeDirective
    | MapSizeDirective
    | VersionDirective
    | MaterialExclusionDirective
    | AutoVisGroupDirective
    | EntityDirective
    | UnknownDirective

  /** The entity-class prefixes `_parse_directive` accepts. */
  const EntityPrefixes: seq<string> :=
    ["@pointclass", "@solidclass", "@baseclass", "@npcclass", "@keyframeclass", "@moveclass", "@filterclass", "@extendclass"]

  /** `_parse_directive`'s routing on the lower-cased line, in its order. */
  function DirectiveOf(line: string): Directive {
    if CiStartsWith(line, "@include") then IncludeDirective
    else if CiStartsWith(line, "@mapsize") then MapSizeDirective
    else if CiStartsWith(line, "@version") then VersionDirective
    else if CiStartsWith(line, "@materialexclusion") then MaterialExclusionDirective
    else if CiStartsWith(line, "@autovisgroup") then AutoVisGroupDirective
    else if exists p :: p in EntityPrefixes && CiStartsWith(line, p) then EntityDirective
    else UnknownDirective
  }

  /** Routing ignores letter case. */
  lemma {:induction false} DirectiveIgnoresCase(a: string, b: string)
    requires Lower(a) == Lower(b)
    ensures DirectiveOf(a) == DirectiveOf(b)
  {
  }

  /** A line routed anywhere but "unknown" starts with `@`. */
  lemma {:induction false} DirectiveStartsWithAt(line: string)
    requires DirectiveOf(line) != UnknownDirective
    ensures line != [] && line[0] == '@'
  {
    if CiStartsWith(line, "@include") {
      AtPrefix(line, "@include");
    } else if CiStartsWith(line, "@mapsize") {
      AtPrefix(line, "@mapsize");
    } else if CiStartsWith(line, "@version") {
      AtPrefix(line, "@version");
    } else if CiStartsWith(line, "@materialexclusion") {
      AtPrefix(line, "@materialexclusion");
    } else if CiStartsWith(line, "@autovisgroup") {
      AtPrefix(line, "@autovisgroup");
    } else {
      var p :| p in EntityPrefixes && CiStartsWith(line, p);
      assert p != [] && p[0] == '@';
      AtPrefix(line, p);
    }
  }

  lemma {:induction false} AtPrefix(line: string, p: string)
    requires p != [] && p[0] == '@' && CiStartsWith(line, p)
    ensures line != [] && line[0] == '@'
  {
    assert Lower(line)[0] == Lower(line)[..|p|][0] == '@';
  }

  // ---------------------------------------------------------------- quoted strings

  /** The first `"` at or after `i`, or `|s|`. */
  function QuoteAfter(s: string, i: nat): (e: nat)
    requires i <= |s|
    ensures i <= e <= |s|
    ensures forall k :: i <= k < e ==> s[k] != '"'
    ensures e < |s| ==> s[e] == '"'
  {
    RunEndChars(s, i, NotQuote);
    RunEnd(s, i, NotQuote)
  }

  /** `"([^"]+)"` at `i`: the non-empty quote-free text between two quotes. */
  function QuotedAt(s: string, i: nat): (r: Option<string>)
    ensures r.Some? ==> r.value != [] && !Contains(r.value, '"')
    ensures r.Some? ==> i + |r.value| + 2 <= |s|
  {
    if i < |s| && s[i] == '"' then
      var e := QuoteAfter(s, i + 1);
      if i + 1 < e < |s| then Some(s[i + 1..e]) else None
    else None
  }

  /** `re.search(r'"([^"]+)"', s)`. */
  function FirstQuoted(s: string): Option<string> {
    SearchFrom(s, 0, QuotedAt)
  }

  /** A string with a non-empty quote-free part in quotes is found. */
  lemma {:induction false} QuotedFound(a: string, q: string, b: string)
    requires !Contains(a, '"') && q != [] && !Contains(q, '"')
    ensures FirstQuoted(a + "\"" + q + "\"" + b) == Some(q)
  {
    var s := a + "\"" + q + "\"" + b;
    forall k | 0 <= k < |a| ensures QuotedAt(s, k).None? {
      assert s[k] == a[k];
    }
    assert s[|a|] == '"';
    assert s[|a| + 1..|a| + 1 + |q|] == q;
    assert s[|a| + 1 + |q|] == '"';
    assert QuoteAfter(s, |a| + 1) == |a| + 1 + |q| by {
      forall k | |a| + 1 <= k < |a| + 1 + |q| ensures s[k] != '"' {
        assert s[k] == q[k - |a| - 1];
      }
    }
    assert QuotedAt(s, |a|) == Some(q);
    SearchFromLeftmost(s, 0, QuotedAt, |a|);
  }

  // ---------------------------------------------------------------- small directives

  /** `re.match(r'@include\s+"([^"]+)"', line, re.IGNORECASE)`. */
  function IncludePath(line: string): (r: Option<string>)
    ensures r.Some? ==> r.value != [] && !Contains(r.value, '"')
  {
    if CiAt(line, 0, "@include") then
      var j := SkipSpace(line, 8);
      if j > 8 then QuotedAt(line, j) else None
    else None
  }

  /** `-?\d+` at `i`: its value and where it ends. */
  function SignedIntAt(s: string, i: nat): (r: Option<(int, nat)>)
    requires i <= |s|
    ensures r.Some? ==> i < r.value.1 <= |s|
  {
    var d := if i < |s| && s[i] == '-' then i + 1 else i;
    var e := RunEnd(s, d, IsDigit);
    if e == d then None
    else
      var v: int := DigitsValue(s[d..e]);
      Some((if d > i then -v else v, e))
  }

  /** `@mapsize\s*\(\s*(-?\d+)\s*,\s*(-?\d+)\s*\)` at `i`, case-insensitive. */
  function MapSizeAt(s: string, i: nat): Option<(int, int)> {
    if CiAt(s, i, "@mapsize") then
      var j := SkipSpace(s, i + 8);
      if j < |s| && s[j] == '(' then
        match SignedIntAt(s, SkipSpace(s, j + 1))
        case None => None
        case Some((lo, e1)) =>
          var k := SkipSpace(s, e1);
          if k < |s| && s[k] == ',' then
            match SignedIntAt(s, SkipSpace(s, k + 1))
            case None => None
            case Some((hi, e2)) =>
              var m := SkipSpace(s, e2);
              if m < |s| && s[m] == ')' then Some((lo, hi)) else None
          else None
      else None
    else None
  }

  /** `re.search(r'@mapsize\s*\(\s*(-?\d+)\s*,\s*(-?\d+)\s*\)', line, re.IGNORECASE)`. */
  function MapSizeOf(line: string): Option<(int, int)> {
    SearchFrom(line, 0, MapSizeAt)
  }

  /** `@version\s*\((\d+)\)` at `i`, case-insensitive. */
  function VersionAt(s: string, i: nat): Option<int> {
    if CiAt(s, i, "@version") then
      var j := SkipSpace(s, i + 8);
      if j < |s| && s[j] == '(' then
        var e := RunEnd(s, j + 1, IsDigit);
        if e > j + 1 && e < |s| && s[e] == ')' then
          Some(DigitsValue(s[j + 1..e]) as int)
        else None
      else None
    else None
  }

  /** `re.search(r'@version\s*\((\d+)\)', line, re.IGNORECASE)`. */
  function VersionOf(line: string): (r: Option<int>)
    ensures r.Some? ==> r.value >= 0
  {
    var r := SearchFrom(line, 0, VersionAt);
    assert r.Some? ==> r.value >= 0 by {
      if r.Some? {
        SearchFromMatch(line, 0, VersionAt);
        var j :| 0 <= j <= |line| && r == VersionAt(line, j) && forall k :: 0 <= k < j ==> VersionAt(line, k).None?;
      }
    }
    r
  }

  /** `@autovisgroup\s*=\s*"([^"]+)"` at `i`, case-insensitive. */
  function AutoVisGroupAt(s: string, i: nat): Option<string> {
    if CiAt(s, i, "@autovisgroup") then
      var j := SkipSpace(s, i + 13);
      if j < |s| && s[j] == '=' then QuotedAt(s, SkipSpace(s, j + 1)) else None
    else None
  }

  /** `re.search(r'@autovisgroup\s*=\s*"([^"]+)"', line, re.IGNORECASE)`: the parent name. */
  function AutoVisGroupName(line: string): Option<string> {
    SearchFrom(line, 0, AutoVisGroupAt)
  }

  // ---------------------------------------------------------------- entity header

  /** Paren and brace depth after `s[..n]`, as the `=` scan of `_parse_entity_class`
      counts them: either may go negative. */
  function Depth(s: string, n: nat): (int, int)
    requires n <= |s|
  {
    if n == 0 then (0, 0)
    else
      var d := Depth(s, n - 1);
      var c := s[n - 1];
      if c == '(' then (d.0 + 1, d.1)
      else if c == ')' then (d.0 - 1, d.1)
      else if c == '{' then (d.0, d.1 + 1)
      else if c == '}' then (d.0, d.1 - 1)
      else d
  }

  /** An `=` outside every paren and brace: a candidate header separator. */
  predicate TopLevelEqualsAt(s: string, i: nat) {
    i < |s| && s[i] == '=' && Depth(s, i) == (0, 0)
  }

  /** `re.search(r'^\s*([a-zA-Z0-9_]+)\s*(?::\s*"((?:.|\n)*)")?\s*$', t.strip(), re.DOTALL)`:
      the class name, then either nothing or `: "…"` running to the last
      character; the description is stripped and unescaped. */
  function NameAndDescription(afterEquals: string): (r: Option<(string, string)>)
    ensures r.Some? ==> r.value.0 != [] && forall k :: 0 <= k < |r.value.0| ==> IsWordChar(r.value.0[k])
  {
    var t := Strip(afterEquals);
    var e := RunEnd(t, 0, IsWordChar);
    RunEndChars(t, 0, IsWordChar);
    if e == 0 then None
    else
      var j := SkipSpace(t, e);
      if j == |t| then Some((t[..e], ""))
      else if t[j] == ':' then
        var k := SkipSpace(t, j + 1);
        if k + 1 < |t| && t[k] == '"' && t[|t| - 1] == '"' then
          Some((t[..e], Unescape(Strip(t[k + 1..|t| - 1]))))
        else None
      else None
  }

  /** `re.match(r'@(\w+)\s*(.*)', t.strip(), re.DOTALL)`: the raw class type and the helper text. */
  function ClassTypeAndHelpers(beforeEquals: string): Option<(string, string)> {
    var t := Strip(beforeEquals);
    if t != [] && t[0] == '@' then
      var e := RunEnd(t, 1, IsWordChar);
      if e > 1 then Some((t[1..e], t[SkipSpace(t, e)..])) else None
    else None
  }

  /** The class-type normalisation of `_parse_entity_class`: a trailing
      `class` in any case is dropped, the rest capitalised, and `Class` appended. */
  function NormalizeClassType(raw: string): (r: string)
    ensures EndsWith(r, "Class")
  {
    var stem := if EndsWith(Lower(raw), "class") then raw[..|raw| - 5] else raw;
    Capitalize(stem) + "Class"
  }

  lemma {:induction false} LowerOfCapitalize(s: string)
    ensures s != [] ==> Lower(Capitalize(s)) == [LowerChar(UpperChar(s[0]))] + Lower(s[1..])
  {
  }

  /** The stem `NormalizeClassType` keeps of an already normalised type. */
  lemma {:induction false} NormalizedStem(stem: string)
    ensures var r := Capitalize(stem) + "Class";
            && EndsWith(Lower(r), "class")
            && r[..|r| - 5] == Capitalize(stem)
  {
    var c := Capitalize(stem);
    var r := c + "Class";
    assert r[..|r| - 5] == c;
    assert r[|r| - 5..] == "Class";
    LowerDrop(r, |r| - 5);
    assert Lower("Class") == "class";
  }

  /** Lower-casing commutes with dropping a prefix. */
  lemma {:induction false} LowerDrop(s: string, n: nat)
    requires n <= |s|
    ensures Lower(s)[n..] == Lower(s[n..])
  {
    forall i | 0 <= i < |s| - n ensures Lower(s)[n..][i] == Lower(s[n..])[i] {
      assert Lower(s)[n..][i] == Lower(s)[n + i];
    }
  }

  /** Normalising twice changes nothing. */
  lemma {:induction false} NormalizeIdempotent(raw: string)
    ensures NormalizeClassType(NormalizeClassType(raw)) == NormalizeClassType(raw)
  {
    var stem := if EndsWith(Lower(raw), "class") then raw[..|raw| - 5] else raw;
    NormalizedStem(stem);
    CapitalizeIdempotent(stem);
  }

  /** Lower-casing commutes with taking a prefix. */
  lemma {:induction false} LowerPrefix(s: string, n: nat)
    requires n <= |s|
    ensures Lower(s[..n]) == Lower(s)[..n]
  {
  }

  /** Capitalising only looks at letter case-folded input. */
  lemma {:induction false} CapitalizeIgnoresCase(a: string, b: string)
    requires Lower(a) == Lower(b)
    ensures Capitalize(a) == Capitalize(b)
  {
    if a != [] {
      assert LowerChar(a[0]) == LowerChar(b[0]);
      assert UpperChar(a[0]) == UpperChar(b[0]);
      assert Lower(a[1..]) == Lower(a)[1..] && Lower(b[1..]) == Lower(b)[1..];
    }
  }

  /** `@pointclass` and `@PointClass` normalise alike: the letter case of the raw type does not matter. */
  lemma {:induction false} NormalizeIgnoresCase(a: string, b: string)
    requires Lower(a) == Lower(b)
    ensures NormalizeClassType(a) == NormalizeClassType(b)
  {
    assert |a| == |b|;
    if EndsWith(Lower(a), "class") {
      LowerPrefix(a, |a| - 5);
      LowerPrefix(b, |b| - 5);
      CapitalizeIgnoresCase(a[..|a| - 5], b[..|b| - 5]);
    } else {
      CapitalizeIgnoresCase(a, b);
    }
  }

  /** A raw type ending in any spelling of `class` keeps the stem before it. */
  lemma {:induction false} NormalizeWithSuffix(stem: string, suffix: string)
    requires |suffix| == 5 && Lower(suffix) == "class"
    ensures NormalizeClassType(stem + suffix) == Capitalize(stem) + "Class"
  {
    var raw := stem + suffix;
    assert raw[..|stem|] == stem && raw[|stem|..] == suffix;
    LowerDrop(raw, |stem|);
    assert EndsWith(Lower(raw), "class");
  }

  lemma {:induction false} NormalizePointClass()
    ensures NormalizeClassType("pointclass") == "PointClass"
  {
    calc {
      NormalizeClassType("pointclass");
      { assert "point" + "class" == "pointclass"; }
      NormalizeClassType("point" + "class");
      { assert Lower("class") == "class"; NormalizeWithSuffix("point", "class"); }
      Capitalize("point") + "Class";
      { assert Capitalize("point") == "Point" by { assert Lower("oint") == "oint"; } }
      "Point" + "Class";
    }
  }

  lemma {:induction false} NormalizeNpcClass()
    ensures NormalizeClassType("NPCClass") == "NpcClass"
  {
    calc {
      NormalizeClassType("NPCClass");
      { assert "NPC" + "Class" == "NPCClass"; }
      NormalizeClassType("NPC" + "Class");
      { assert Lower("Class") == "class"; NormalizeWithSuffix("NPC", "Class"); }
      Capitalize("NPC") + "Class";
      { assert Capitalize("NPC") == "Npc" by { assert Lower("PC") == "pc"; } }
      "Npc" + "Class";
    }
  }

  lemma {:induction false} NormalizeBaseClass()
    ensures NormalizeClassType("BaseClass") == BaseClassType
  {
    calc {
      NormalizeClassType("BaseClass");
      { assert "Base" + "Class" == "BaseClass"; }
      NormalizeClassType("Base" + "Class");
      { assert Lower("Class") == "class"; NormalizeWithSuffix("Base", "Class"); }
      Capitalize("Base") + "Class";
      { assert Capitalize("Base") == "Base" by { assert Lower("ase") == "ase"; } }
      "Base" + "Class";
    }
  }

  // ---------------------------------------------------------------- helpers and bases

  /** `\b([a-zA-Z0-9_]+)\s*\(` at `i` of `s[cursor..]` (the word boundary is
      taken within that substring): the word and where the text after `(` starts. */
  function HelperCallAt(s: string, cursor: nat, i: nat): (r: Option<(string, nat)>)
    requires cursor <= i <= |s|
    ensures r.Some? ==> i < r.value.1 <= |s| && r.value.0 != []
  {
    if i < |s| && IsWordChar(s[i]) && (i == cursor || !IsWordChar(s[i - 1])) then
      var e := RunEnd(s, i, IsWordChar);
      var j := SkipSpace(s, e);
      if j < |s| && s[j] == '(' then Some((s[i..e], j + 1)) else None
    else None
  }

  /** The leftmost helper call in `s[cursor..]` at or after `i`. */
  function FindHelperCall(s: string, cursor: nat, i: nat): (r: Option<(string, nat)>)
    requires cursor <= i <= |s|
    ensures r.Some? ==> cursor < r.value.1 <= |s|
    decreases |s| - i
  {
    if i == |s| then None
    else match HelperCallAt(s, cursor, i)
      case Some(m) => Some(m)
      case None => FindHelperCall(s, cursor, i + 1)
  }

  function StepDepth(d: (int, int), c: char): (int, int) {
    if c == '(' then (d.0 + 1, d.1)
    else if c == ')' then (d.0 - 1, d.1)
    else if c == '{' then (d.0, d.1 + 1)
    else if c == '}' then (d.0, d.1 - 1)
    else d
  }

  /** The inner scan of `_parse_helpers_and_bases`: from `k` with depths `d`, the
      first index whose character brings both depths to zero. */
  function ClosingFrom(s: string, k: nat, d: (int, int)): (r: Option<nat>)
    requires k <= |s|
    ensures r.Some? ==> k <= r.value < |s|
    decreases |s| - k
  {
    if k == |s| then None
    else
      var d' := StepDepth(d, s[k]);
      if d' == (0, 0) then Some(k) else ClosingFrom(s, k + 1, d')
  }

  /** `[b.strip() for b in parts if b.strip()]`. */
  function NonEmptyStripped(parts: seq<string>): (r: seq<string>)
    ensures AllNames(r)
  {
    if parts == [] then []
    else
      var b := Strip(parts[0]);
      var rest := NonEmptyStripped(parts[1..]);
      StripEnds(parts[0]);
      if b != [] then NamesCons(b, rest); [b] + rest else rest
  }

  /** Every entry is a non-empty name without surrounding whitespace. */
  predicate AllNames(r: seq<string>) {
    forall i :: 0 <= i < |r| ==> r[i] != [] && IsStripped(r[i])
  }

  lemma {:induction false} NamesCons(b: string, rest: seq<string>)
    requires b != [] && IsStripped(b) && AllNames(rest)
    ensures AllNames([b] + rest)
  {
    forall i | 0 <= i < |[b] + rest| ensures ([b] + rest)[i] != [] && IsStripped(([b] + rest)[i]) {
      if i > 0 {
        assert ([b] + rest)[i] == rest[i - 1];
      }
    }
  }

  /** The base-class list in `base(…)` arguments, and in the editor's base-class field. */
  function BaseList(args: string): (r: seq<string>)
    ensures forall i :: 0 <= i < |r| ==> r[i] != [] && IsStripped(r[i]) && !Contains(r[i], ',')
  {
    var parts := Split(args, ',');
    var r := NonEmptyStripped(parts);
    assert NoneContain(r, ',') by {
      NonEmptyStrippedFrom(parts, ',');
    }
    r
  }

  /** No entry holds `c`. */
  predicate NoneContain(parts: seq<string>, c: char) {
    forall i :: 0 <= i < |parts| ==> !Contains(parts[i], c)
  }

  lemma {:induction false} NonEmptyStrippedFrom(parts: seq<string>, c: char)
    requires NoneContain(parts, c)
    ensures NoneContain(NonEmptyStripped(parts), c)
    decreases |parts|
  {
    if parts != [] {
      var rest := parts[1..];
      assert NoneContain(rest, c) by {
        forall i | 0 <= i < |rest| ensures !Contains(rest[i], c) {
          assert rest[i] == parts[i + 1];
        }
      }
      NonEmptyStrippedFrom(rest, c);
      var b := Strip(parts[0]);
      var tail := NonEmptyStripped(rest);
      if b != [] {
        StripKeepsOut(parts[0], c);
        forall i | 0 <= i < |[b] + tail| ensures !Contains(([b] + tail)[i], c) {
          if i > 0 {
            assert ([b] + tail)[i] == tail[i - 1];
          }
        }
      }
    }
  }

  /** Base names that need no stripping and hold no comma come back from their `", "` join. */
  lemma {:induction false} BaseListOfJoin(bases: seq<string>)
    requires forall i :: 0 <= i < |bases| ==> bases[i] != [] && IsStripped(bases[i]) && !Contains(bases[i], ',')
    ensures BaseList(Join(bases, ", ")) == bases
    decreases |bases|
  {
    if bases == [] {
      assert Split([], ',') == [[]];
    } else {
      SplitJoinSpaced(bases);
      NonEmptyStrippedSpaced(bases);
    }
  }

  /** Splitting a `", "` join at commas gives the names, each after the first with a leading space. */
  function Spaced(bases: seq<string>): seq<string>
    requires bases != []
  {
    [bases[0]] + SpacedTail(bases[1..])
  }

  function SpacedTail(t: seq<string>): (r: seq<string>)
    ensures |r| == |t|
  {
    if t == [] then [] else [" " + t[0]] + SpacedTail(t[1..])
  }

  lemma {:induction false} SpacedTailNoComma(t: seq<string>)
    requires forall i :: 0 <= i < |t| ==> !Contains(t[i], ',')
    ensures forall i :: 0 <= i < |t| ==> !Contains(SpacedTail(t)[i], ',')
  {
    if t != [] {
      SpacedTailNoComma(t[1..]);
      var x := " " + t[0];
      forall k | 0 <= k < |x| ensures x[k] != ',' {
        if k > 0 { assert x[k] == t[0][k - 1]; }
      }
      assert !Contains(x, ',');
      var r := SpacedTail(t);
      assert r == [x] + SpacedTail(t[1..]);
      forall i | 0 <= i < |t| ensures !Contains(r[i], ',') {
        if i > 0 { assert r[i] == SpacedTail(t[1..])[i - 1]; }
      }
    }
  }

  lemma {:induction false} SplitJoinSpaced(bases: seq<string>)
    requires bases != []
    requires forall i :: 0 <= i < |bases| ==> !Contains(bases[i], ',')
    ensures Split(Join(bases, ", "), ',') == Spaced(bases)
  {
    var sp := Spaced(bases);
    SpacedTailNoComma(bases[1..]);
    assert forall i :: 0 <= i < |sp| ==> !Contains(sp[i], ',') by {
      forall i | 0 <= i < |sp| ensures !Contains(sp[i], ',') {
        if i > 0 { assert sp[i] == SpacedTail(bases[1..])[i - 1]; }
      }
    }
    JoinSpaced(bases);
    SplitJoin(sp, ',');
  }

  lemma {:induction false} JoinSpaced(bases: seq<string>)
    requires bases != []
    ensures Join(bases, ", ") == Join(Spaced(bases), ",")
    decreases |bases|
  {
    if |bases| > 1 {
      JoinSpaced(bases[1..]);
      var tail := SpacedTail(bases[2..]);
      assert bases[1..][1..] == bases[2..];
      assert Spaced(bases[1..]) == [bases[1]] + tail;
      assert SpacedTail(bases[1..]) == [" " + bases[1]] + tail;
      JoinHeadPrefix([bases[1]] + tail, " ", ",");
      assert ([bases[1]] + tail)[1..] == tail;
      var sp := Spaced(bases);
      assert sp == [bases[0]] + ([" " + bases[1]] + tail);
      assert sp[1..] == [" " + bases[1]] + tail;
    }
  }

  /** Putting `pre` in front of the first part puts it in front of the join. */
  lemma {:induction false} JoinHeadPrefix(parts: seq<string>, pre: string, sep: string)
    requires parts != []
    ensures Join([pre + parts[0]] + parts[1..], sep) == pre + Join(parts, sep)
  {
    var q := [pre + parts[0]] + parts[1..];
    assert q[1..] == parts[1..];
  }

  lemma {:induction false} NonEmptyStrippedTail(t: seq<string>)
    requires forall i :: 0 <= i < |t| ==> t[i] != [] && IsStripped(t[i])
    ensures NonEmptyStripped(SpacedTail(t)) == t
  {
    if t != [] {
      NonEmptyStrippedTail(t[1..]);
      StripSpacePrefix(t[0]);
      var r := SpacedTail(t);
      assert r[0] == " " + t[0];
      assert r[1..] == SpacedTail(t[1..]);
    }
  }

  lemma {:induction false} NonEmptyStrippedSpaced(bases: seq<string>)
    requires bases != []
    requires forall i :: 0 <= i < |bases| ==> bases[i] != [] && IsStripped(bases[i])
    ensures NonEmptyStripped(Spaced(bases)) == bases
  {
    var sp := Spaced(bases);
    StripOfStripped(bases[0]);
    NonEmptyStrippedTail(bases[1..]);
    assert sp[0] == bases[0];
    assert sp[1..] == SpacedTail(bases[1..]);
  }

  lemma {:induction false} StripSpacePrefix(b: string)
    requires b != [] && IsStripped(b)
    ensures Strip(" " + b) == b
  {
    var s := " " + b;
    assert s[1..] == b;
    assert LStrip(s) == LStrip(b);
    StripOfStripped(b);
  }

  /** A dictionary assignment `helpers[key] = value` on an insertion-ordered dictionary. */
  function Upsert(h: seq<(string, string)>, key: string, value: string): (r: seq<(string, string)>)
    ensures |r| == |h| || |r| == |h| + 1
  {
    if h == [] then [(key, value)]
    else if h[0].0 == key then [(key, value)] + h[1..]
    else [h[0]] + Upsert(h[1..], key, value)
  }

  /** Looking a key up in an insertion-ordered dictionary. */
  function Lookup(h: seq<(string, string)>, key: string): Option<string> {
    if h == [] then None else if h[0].0 == key then Some(h[0].1) else Lookup(h[1..], key)
  }

  /** After `helpers[key] = value` the key reads `value` and every other key reads as before. */
  lemma {:induction false} UpsertLookup(h: seq<(string, string)>, key: string, value: string, other: string)
    ensures Lookup(Upsert(h, key, value), key) == Some(value)
    ensures other != key ==> Lookup(Upsert(h, key, value), other) == Lookup(h, other)
  {
    if h != [] && h[0].0 != key {
      UpsertLookup(h[1..], key, value, other);
    }
  }

  /** An existing key keeps its position; a new one goes at the end. */
  lemma {:induction false} UpsertOrder(h: seq<(string, string)>, key: string, value: string)
    ensures Lookup(h, key).None? ==> Upsert(h, key, value) == h + [(key, value)]
    ensures Lookup(h, key).Some? ==> (|Upsert(h, key, value)| == |h|
                                      && forall i :: 0 <= i < |h| ==> Upsert(h, key, value)[i].0 == h[i].0)
  {
    if h != [] && h[0].0 != key {
      UpsertOrder(h[1..], key, value);
    }
  }

  /** One round of the `_parse_helpers_and_bases` loop at `cursor`: no helper call
      left, a call whose parentheses never close, or a call `key(args)` after
      which the scan goes on at `next`. */
  datatype HelperStep = NoCall | Unclosed | Call(key: string, args: string, next: nat)

  function HelperStepAt(s: string, cursor: nat): (r: HelperStep)
    requires cursor < |s|
    ensures r.Call? ==> cursor < r.next <= |s|
  {
    match FindHelperCall(s, cursor, cursor)
    case None => NoCall
    case Some((word, start)) =>
      match ClosingFrom(s, start, (1, 0))
      case Some(end) => Call(Lower(word), Strip(s[start..end]), end + 1)
      case None => Unclosed
  }

  /** What `_parse_helpers_and_bases` computes from `cursor` on, given the
      dictionary and base list collected so far. */
  function HelperScan(s: string, cursor: nat, helpers: seq<(string, string)>, bases: seq<string>)
    : (seq<(string, string)>, seq<string>)
    decreases |s| - cursor
  {
    if cursor >= |s| then (helpers, bases)
    else match HelperStepAt(s, cursor)
      case NoCall => (helpers, bases)
      case Unclosed => HelperScan(s, cursor + 1, helpers, bases)
      case Call(key, args, next) =>
        if key == "base" then HelperScan(s, next, helpers, bases + BaseList(args))
        else HelperScan(s, next, Upsert(helpers, key, args), bases)
  }

  // ---------------------------------------------------------------- entity body lines

  /** The description in ` : "…"` from `i`: `\s*:\s*"((?:[^"]|\\")*)"` matches up to
      the first quote, so the text is quote-free. */
  function TrailingDescription(s: string, i: nat): (r: Option<string>)
    requires i <= |s|
    ensures r.Some? ==> !Contains(r.value, '"')
  {
    var j := SkipSpace(s, i);
    if j < |s| && s[j] == ':' then
      var k := SkipSpace(s, j + 1);
      if k < |s| && s[k] == '"' then
        var e := QuoteAfter(s, k + 1);
        if e < |s| then Some(s[k + 1..e]) else None
      else None
    else None
  }

  /** The output of `TrailingDescription` where it is absent: `""`. */
  function DescriptionOrEmpty(d: Option<string>): string {
    match d case Some(t) => Unescape(t) case None => ""
  }

  /** `re.match(r'^\s*(input|output)\s+([^\s(]+)\s*\(([^)]*)\)\s*(?::\s*"((?:[^"]|\\")*)")?', s, re.I)`
      on the stripped line: type (lower-cased), name, argument type and description. */
  function IoLine(line: string): (r: Option<IO>)
    ensures r.Some? ==> r.value.name != [] && (r.value.ioType == "input" || r.value.ioType == "output")
  {
    var s := Strip(line);
    var kw := IoKeyword(s);
    if kw == 0 then None
    else
      match IoFields(s, kw)
      case None => None
      case Some((name, argType, p)) =>
        Some(IO(Lower(s[..kw]), name, argType, DescriptionOrEmpty(TrailingDescription(s, p + 1))))
  }

  /** The length of the `input` or `output` keyword that starts `s`, or zero. */
  function IoKeyword(s: string): (r: nat)
    ensures r == 0 || (r <= |s| && (Lower(s[..r]) == "input" || Lower(s[..r]) == "output"))
  {
    if CiAt(s, 0, "input") then 5 else if CiAt(s, 0, "output") then 6 else 0
  }

  /** The name and the argument type after a keyword of length `kw`, and where
      the `)` closing the argument type is. */
  function IoFields(s: string, kw: nat): (r: Option<(string, string, nat)>)
    requires kw <= |s|
    ensures r.Some? ==> r.value.0 != [] && r.value.2 < |s|
  {
    var j := SkipSpace(s, kw);
    var e := RunEnd(s, j, IsIoNameChar);
    var k := SkipSpace(s, e);
    if j > kw && e > j && k < |s| && s[k] == '(' then
      var p := RunEnd(s, k + 1, NotCloseParen);
      if p < |s| then Some((s[j..e], s[k + 1..p], p)) else None
    else None
  }

  /** The groups of the property pattern. */
  datatype PropHeader = PropHeader(name: string, rawType: string, readonly: bool, report: bool, rest: string)

  /** `re.match(r'^\s*([\w."]+)\s*\(([^)]+)\)\s*(readonly)?\s*(report)?\s*(.*)', s, re.I)`
      on the stripped line. */
  function PropLine(line: string): (r: Option<PropHeader>)
    ensures r.Some? ==> r.value.name != [] && r.value.rawType != []
  {
    PropLineIn(Strip(line))
  }

  /** The property pattern on a line already stripped. */
  function PropLineIn(s: string): (r: Option<PropHeader>)
    ensures r.Some? ==> r.value.name != [] && r.value.rawType != []
  {
    var e := RunEnd(s, 0, IsPropNameChar);
    var j := SkipSpace(s, e);
    if e > 0 && j < |s| && s[j] == '(' then
      var p := RunEnd(s, j + 1, NotCloseParen);
      if j + 1 < p < |s| then
        var kw := PropKeywords(s, p + 1);
        Some(PropHeader(s[..e], s[j + 1..p], kw.0, kw.1, s[kw.2..]))
      else None
    else None
  }

  /** `\s*(readonly)?\s*(report)?\s*` from `i`: whether each keyword is there, and
      where the rest of the line starts. */
  function PropKeywords(s: string, i: nat): (r: (bool, bool, nat))
    requires i <= |s|
    ensures r.2 <= |s|
  {
    var k := SkipSpace(s, i);
    var k2 := AfterWord(s, k, "readonly");
    (CiAt(s, k, "readonly"), CiAt(s, k2, "report"), AfterWord(s, k2, "report"))
  }

  /** `(w)?\s*` from `k`: past the keyword `w` if it is there, then past whitespace. */
  function AfterWord(s: string, k: nat, w: string): (r: nat)
    requires k <= |s|
    ensures k <= r <= |s|
  {
    RunEnd(s, if CiAt(s, k, w) then k + |w| else k, IsSpace)
  }

  datatype PropertyKind = KeyvalueKind | ChoicesKind | FlagsKind

  /** `prop_type_raw.split(',')[0].strip().lower()` compared with `choices` and `flags`. */
  function PropertyKindOf(rawType: string): (k: PropertyKind)
    ensures k == ChoicesKind <==> Lower(Strip(Split(rawType, ',')[0])) == "choices"
    ensures k == FlagsKind <==> Lower(Strip(Split(rawType, ',')[0])) == "flags"
  {
    var base := Lower(Strip(Split(rawType, ',')[0]));
    if base == "choices" then ChoicesKind else if base == "flags" then FlagsKind else KeyvalueKind
  }

  // ---------------------------------------------------------------- property details

  /** Scanning the body of `"(?:\\.|[^"\\])*"` from `j`: where the closing quote
      ends the token, if it is closed. A backslash takes the next character
      with it, except a newline. */
  function QuotedTokenEnd(s: string, j: nat): (r: Option<nat>)
    ensures r.Some? ==> j < r.value <= |s| && s[r.value - 1] == '"'
    decreases |s| - j
  {
    if j >= |s| then None
    else if s[j] == '"' then Some(j + 1)
    else if s[j] == '\\' then (if j + 1 < |s| && s[j + 1] != '\n' then QuotedTokenEnd(s, j + 2) else None)
    else QuotedTokenEnd(s, j + 1)
  }

  /** `re.findall(r'"(?:\\.|[^"\\])*"|\S+', s[i..])`: quoted tokens where they
      close, otherwise runs of non-whitespace. */
  function TokensFrom(s: string, i: nat): (r: seq<string>)
    ensures forall k :: 0 <= k < |r| ==> r[k] != []
    decreases |s| - i
  {
    if i >= |s| then []
    else if IsSpace(s[i]) then TokensFrom(s, i + 1)
    else if s[i] == '"' && QuotedTokenEnd(s, i + 1).Some? then
      var e := QuotedTokenEnd(s, i + 1).value;
      [s[i..e]] + TokensFrom(s, e)
    else
      var e := RunEnd(s, i, NotSpace);
      [s[i..e]] + TokensFrom(s, e)
  }

  /** `part[1:-1]`. */
  function Inner(p: string): string {
    if |p| >= 2 then p[1..|p| - 1] else []
  }

  /** One step of the cleaning loop of `_extract_prop_details`: a lone `:` is
      dropped, a quoted token loses its quotes and has `\"` unescaped. */
  function CleanPart(part: string): Option<string> {
    var p := Strip(part);
    if p == ":" then None
    else if (StartsWith(p, "\"") && EndsWith(p, "\"")) || (StartsWith(p, "'") && EndsWith(p, "'")) then
      Some(Unescape(Inner(p)))
    else Some(p)
  }

  /** The value an `Option` holds, as a list of zero or one elements. */
  function Kept<T>(o: Option<T>): seq<T> {
    match o
    case Some(v) => [v]
    case None => []
  }

  /** The list of the values `f` keeps, in order. */
  function FilterMap<T, U>(f: T -> Option<U>, xs: seq<T>): seq<U> {
    if xs == [] then [] else Kept(f(xs[0])) + FilterMap(f, xs[1..])
  }

  /** Keeping values element by element: one more input adds its own kept value at the end. */
  lemma {:induction false} FilterMapSnoc<T, U>(f: T -> Option<U>, xs: seq<T>, x: T)
    ensures FilterMap(f, xs + [x]) == FilterMap(f, xs) + Kept(f(x))
    decreases |xs|
  {
    if xs == [] {
      assert [x][1..] == [];
    } else {
      assert (xs + [x])[1..] == xs[1..] + [x];
      FilterMapSnoc(f, xs[1..], x);
    }
  }

  /** The `cleaned_parts` list built from `parts`. */
  function CleanParts(parts: seq<string>): seq<string> {
    FilterMap(CleanPart, parts)
  }

  /** `(cleaned_parts + ["", "", ""])[:3]`. */
  function FirstThree(cleaned: seq<string>): (r: seq<string>)
    ensures |r| == 3
    ensures forall i :: 0 <= i < 3 ==> r[i] == (if i < |cleaned| then cleaned[i] else "")
  {
    (cleaned + ["", "", ""])[..3]
  }

  /** The text `_extract_prop_details` tokenises: stripped, without a trailing `=`. */
  function DetailsText(rest: string): string {
    var s := Strip(rest);
    if EndsWith(s, "=") then Strip(s[..|s| - 1]) else s
  }

  /** What `_extract_prop_details` returns for the rest of a property line. */
  function PropDetails(rest: string): (r: seq<string>)
    ensures |r| == 3
  {
    FirstThree(CleanParts(TokensFrom(DetailsText(rest), 0)))
  }

  // ---------------------------------------------------------------- choice and flag items

  /** `\s*:\s*"([^"]+)"` from `i`: a display name and where the text after its closing quote starts. */
  function DisplayAfterColon(s: string, i: nat): (r: Option<(string, nat)>)
    requires i <= |s|
    ensures r.Some? ==> r.value.0 != [] && !Contains(r.value.0, '"') && r.value.1 <= |s|
  {
    var j := SkipSpace(s, i);
    if j < |s| && s[j] == ':' then
      var k := SkipSpace(s, j + 1);
      match QuotedAt(s, k)
      case Some(d) => Some((d, k + |d| + 2))
      case None => None
    else None
  }

  /** A slice of a quote-free run is quote-free. */
  lemma {:induction false} QuoteFreeSlice(s: string, a: nat, e: nat)
    requires a <= e <= |s|
    requires forall k :: a <= k < e ==> s[k] != '"'
    ensures !Contains(s[a..e], '"')
  {
    forall k | 0 <= k < e - a ensures s[a..e][k] != '"' { assert s[a..e][k] == s[a + k]; }
  }

  /** `re.match(r'^\s*("?[^"]+"?)\s*:\s*"([^"]+)"(?:\s*:\s*"((?:[^"]|\\")*)")?', s)` on the
      stripped line, and the item `_parse_choice_item` builds from its groups.
      The value group either runs through a closing quote (so the value is the
      quoted text), or, failing that, backtracks to the last `:` of the unquoted
      run that only whitespace follows: then the value is the text before that
      `:`, whitespace included. */
  function ChoiceItemOf(line: string): (r: Option<ChoiceItem>)
    ensures r.Some? ==> r.value.value != [] && !Contains(r.value.value, '"')
    ensures r.Some? ==> r.value.displayName != [] && !Contains(r.value.displayName, '"')
  {
    ChoiceItemIn(Strip(line))
  }

  /** The choice pattern on an already stripped line `s`. */
  function ChoiceItemIn(s: string): (r: Option<ChoiceItem>)
    ensures r.Some? ==> r.value.value != [] && !Contains(r.value.value, '"')
    ensures r.Some? ==> r.value.displayName != [] && !Contains(r.value.displayName, '"')
  {
    var a := if s != [] && s[0] == '"' then 1 else 0;
    var e := QuoteAfter(s, a);
    if e == a then None
    else
      var quoted := if e < |s| then DisplayAfterColon(s, e + 1) else None;
      match quoted
      case Some((display, p)) =>
        QuoteFreeSlice(s, a, e);
        Some(ChoiceItem(s[a..e], display, DescriptionOrEmpty(TrailingDescription(s, p))))
      case None => BacktrackedChoice(s, a, e)
  }

  /** The second way the choice pattern can match: the value group gives back
      the trailing `:` (and the whitespace around it) of the unquoted run `s[a..e]`,
      and the display name is the quoted text that starts at `e`. */
  function BacktrackedChoice(s: string, a: nat, e: nat): (r: Option<ChoiceItem>)
    requires a < e <= |s|
    requires forall k :: a <= k < e ==> s[k] != '"'
    ensures r.Some? ==> r.value.value != [] && !Contains(r.value.value, '"')
    ensures r.Some? ==> r.value.displayName != [] && !Contains(r.value.displayName, '"')
  {
    var run := s[a..e];
    var c := |RStrip(run)| - 1;
    if c >= 1 && run[c] == ':' then
      match QuotedAt(s, e)
      case Some(display) =>
        QuoteFreeSlice(s, a, a + c);
        assert run[..c] == s[a..a + c];
        Some(ChoiceItem(run[..c], display, DescriptionOrEmpty(TrailingDescription(s, e + |display| + 2))))
      case None => None
    else None
  }

  /** `(?:\s*:\s*(\d))?` from `p`: the ticked digit (any non-zero digit ticks) and where it ends. */
  function TickAt(s: string, p: nat): (r: Option<(bool, nat)>)
    requires p <= |s|
    ensures r.Some? ==> r.value.1 <= |s|
  {
    var j := SkipSpace(s, p);
    if j < |s| && s[j] == ':' then
      var k := SkipSpace(s, j + 1);
      if k < |s| && IsDigit(s[k]) then Some((s[k] != '0', k + 1)) else None
    else None
  }

  /** `re.match(r'^\s*(-?\d+)\s*:\s*"([^"]+)"(?:\s*:\s*(\d))?(?:\s*:\s*"((?:[^"]|\\")*)")?', s)`
      on the stripped line, and the item `_parse_flag_item` builds: the value as
      an integer, `ticked` false unless a digit follows, and the description. */
  function FlagItemOf(line: string): (r: Option<FlagItem>)
    ensures r.Some? ==> r.value.displayName != [] && !Contains(r.value.displayName, '"')
    ensures r.Some? ==> !Contains(r.value.description, '"')
  {
    var s := Strip(line);
    match SignedIntAt(s, 0)
    case None => None
    case Some((value, e)) =>
      match DisplayAfterColon(s, e)
      case None => None
      case Some((display, p)) =>
        var tick := TickAt(s, p);
        var q := if tick.Some? then tick.value.1 else p;
        var desc := TrailingDescription(s, q);
        assert desc.Some? ==> Unescape(desc.value) == desc.value by {
          if desc.Some? { UnescapeNoQuote(desc.value); }
        }
        Some(FlagItem(value, display, DescriptionOrEmpty(desc), tick.Some? && tick.value.0))
  }

  /** Base lists from repeated `base(…)` calls accumulate: the bases collected
      so far stay, in order, at the front. */
  lemma {:induction false} HelperScanKeepsBases(s: string, cursor: nat, helpers: seq<(string, string)>, bases: seq<string>)
    ensures var r := HelperScan(s, cursor, helpers, bases);
            |bases| <= |r.1| && r.1[..|bases|] == bases
    decreases |s| - cursor
  {
    if cursor < |s| {
      match HelperStepAt(s, cursor)
      case NoCall =>
      case Unclosed =>
        HelperScanKeepsBases(s, cursor + 1, helpers, bases);
      case Call(key, args, next) =>
        if key == "base" {
          var more := bases + BaseList(args);
          HelperScanKeepsBases(s, next, helpers, more);
          var r := HelperScan(s, next, helpers, more);
          assert r.1[..|bases|] == r.1[..|more|][..|bases|];
        } else {
          HelperScanKeepsBases(s, next, Upsert(helpers, key, args), bases);
        }
    }
  }
}
