/** The handful of Python string primitives the FGD code relies on
    (`strip`, `lower`, `capitalize`, `split`, `splitlines`, `replace`, `int`, `str`),
    written out over `seq<char>`. Case mapping and digit classes are ASCII only. */
module Text {
  import opened Wrappers

  // ---------------------------------------------------------------- characters

  /** Python's `str.isspace()`, which is also what `\s` and `str.strip()` use. */
  predicate IsSpace(c: char) {
    var n := c as int;
    n == 0x20 || (0x09 <= n <= 0x0d) || (0x1c <= n <= 0x1f) || n == 0x85 || n == 0xa0
    || n == 0x1680 || (0x2000 <= n <= 0x200a) || n == 0x2028 || n == 0x2029
    || n == 0x202f || n == 0x205f || n == 0x3000
  }

  /** The characters at which `str.splitlines()` breaks a string. */
  predicate IsLineBreak(c: char) {
    var n := c as int;
    (0x0a <= n <= 0x0d) || (0x1c <= n <= 0x1e) || n == 0x85 || n == 0x2028 || n == 0x2029
  }

  predicate IsDigit(c: char) { '0' <= c <= '9' }

  predicate IsAsciiLetter(c: char) { ('a' <= c <= 'z') || ('A' <= c <= 'Z') }

  /** `[a-zA-Z0-9_]`, the model's reading of `\w`. */
  predicate IsWordChar(c: char) { IsAsciiLetter(c) || IsDigit(c) || c == '_' }

  function LowerChar(c: char): (r: char)
    ensures !('A' <= r <= 'Z')
  {
    if 'A' <= c <= 'Z' then (c as int + 32) as char else c
  }

  function UpperChar(c: char): (r: char)
    ensures !('a' <= r <= 'z')
  {
    if 'a' <= c <= 'z' then (c as int - 32) as char else c
  }

  // ---------------------------------------------------------------- case

  /** `s.lower()`. */
  function Lower(s: string): (r: string)
    ensures |r| == |s|
    ensures forall i :: 0 <= i < |s| ==> r[i] == LowerChar(s[i])
  {
    seq(|s|, i requires 0 <= i < |s| => LowerChar(s[i]))
  }

  /** `s.capitalize()`: first character upper-cased, the rest lower-cased. */
  function Capitalize(s: string): (r: string)
    ensures |r| == |s|
    ensures s != [] ==> r[0] == UpperChar(s[0]) && r[1..] == Lower(s[1..])
  {
    if s == [] then [] else [UpperChar(s[0])] + Lower(s[1..])
  }

  lemma {:induction false} LowerIdempotent(s: string)
    ensures Lower(Lower(s)) == Lower(s)
  {
  }

  lemma {:induction false} CapitalizeIdempotent(s: string)
    ensures Capitalize(Capitalize(s)) == Capitalize(s)
  {
    if s != [] {
      LowerIdempotent(s[1..]);
      assert Capitalize(s)[1..] == Lower(s[1..]);
    }
  }

  // ---------------------------------------------------------------- prefixes

  predicate StartsWith(s: string, p: string) { |p| <= |s| && s[..|p|] == p }

  predicate EndsWith(s: string, p: string) { |p| <= |s| && s[|s| - |p|..] == p }

  lemma {:induction false} ConcatStartsWith(a: string, b: string)
    ensures StartsWith(a + b, a)
  {
    assert (a + b)[..|a|] == a;
  }

  lemma {:induction false} ConcatEndsWith(a: string, b: string)
    ensures EndsWith(a + b, b)
  {
    assert (a + b)[|a|..] == b;
  }

  /** `c in s`. */
  predicate Contains(s: string, c: char) { exists i :: 0 <= i < |s| && s[i] == c }

  /** `s.find(c)`, with `|s|` standing for "not found". */
  function IndexOf(s: string, c: char): (k: nat)
    ensures k <= |s|
    ensures forall i :: 0 <= i < k ==> s[i] != c
    ensures k < |s| ==> s[k] == c
  {
    if s == [] then 0 else if s[0] == c then 0 else 1 + IndexOf(s[1..], c)
  }

  lemma {:induction false} IndexOfAbsent(s: string, c: char)
    ensures IndexOf(s, c) == |s| <==> !Contains(s, c)
  {
  }

  // ---------------------------------------------------------------- strip

  /** `s.lstrip()` (`LStripSuffix` states what it removes). */
  function LStrip(s: string): (r: string)
    ensures |r| <= |s|
    ensures r == [] || !IsSpace(r[0])
  {
    if s != [] && IsSpace(s[0]) then LStrip(s[1..]) else s
  }

  /** `s.lstrip()` drops leading whitespace only. */
  lemma {:induction false} LStripSuffix(s: string)
    ensures var r := LStrip(s);
            && r == s[|s| - |r|..]
            && forall i :: 0 <= i < |s| - |r| ==> IsSpace(s[i])
    decreases |s|
  {
    if s != [] && IsSpace(s[0]) {
      LStripSuffix(s[1..]);
      var r := LStrip(s);
      assert r == s[1..][|s| - 1 - |r|..];
      forall i | 0 <= i < |s| - |r| ensures IsSpace(s[i]) {
        if i > 0 {
          assert s[i] == s[1..][i - 1];
        }
      }
    }
  }

  /** `s.rstrip()` (`RStripPrefix` states what it removes). */
  function RStrip(s: string): (r: string)
    ensures |r| <= |s|
    ensures r == [] || !IsSpace(r[|r| - 1])
  {
    if s != [] && IsSpace(s[|s| - 1]) then RStrip(s[..|s| - 1]) else s
  }

  /** `s.rstrip()` drops trailing whitespace only. */
  lemma {:induction false} RStripPrefix(s: string)
    ensures var r := RStrip(s);
            && r == s[..|r|]
            && forall i :: |r| <= i < |s| ==> IsSpace(s[i])
    decreases |s|
  {
    if s != [] && IsSpace(s[|s| - 1]) {
      var t := s[..|s| - 1];
      RStripPrefix(t);
      var r := RStrip(s);
      assert r == t[..|r|];
      forall i | |r| <= i < |s| ensures IsSpace(s[i]) {
        if i < |s| - 1 {
          assert s[i] == t[i];
        }
      }
    }
  }

  /** `s.strip()`: the longest infix that neither starts nor ends with whitespace
      (`StripInfix` states the infix). */
  function Strip(s: string): string {
    RStrip(LStrip(s))
  }

  /** Stripped text neither starts nor ends with whitespace. */
  lemma {:induction false} StripEnds(s: string)
    ensures var r := Strip(s); r == [] || (!IsSpace(r[0]) && !IsSpace(r[|r| - 1]))
  {
    RStripPrefix(LStrip(s));
  }

  /** What `Strip` removes is whitespace at both ends; the rest is an infix of `s`. */
  lemma {:induction false} StripInfix(s: string)
    ensures var r, a := Strip(s), |s| - |LStrip(s)|;
            && a + |r| <= |s| && r == s[a..a + |r|]
            && (forall i :: 0 <= i < a ==> IsSpace(s[i]))
            && (forall i :: a + |r| <= i < |s| ==> IsSpace(s[i]))
  {
    LStripSuffix(s);
    RStripPrefix(LStrip(s));
    StripParts(s, LStrip(s), Strip(s));
  }

  /** Stripping adds no character. */
  lemma {:induction false} StripKeepsOut(s: string, c: char)
    requires !Contains(s, c)
    ensures !Contains(Strip(s), c)
  {
    StripInfix(s);
    var r, a := Strip(s), |s| - |LStrip(s)|;
    forall i | 0 <= i < |r| ensures r[i] != c {
      assert r[i] == s[a + i];
    }
  }

  /** Stripping keeps every character that is not whitespace. */
  lemma {:induction false} StripKeepsIn(s: string, c: char)
    requires Contains(s, c) && !IsSpace(c)
    ensures Contains(Strip(s), c)
  {
    StripInfix(s);
    var r, a := Strip(s), |s| - |LStrip(s)|;
    var i :| 0 <= i < |s| && s[i] == c;
    assert r[i - a] == c;
  }

  /** Leading whitespace makes no difference to the left strip. */
  lemma {:induction false} LStripSpaces(w: string, s: string)
    requires forall i :: 0 <= i < |w| ==> IsSpace(w[i])
    ensures LStrip(w + s) == LStrip(s)
    decreases |w|
  {
    if w != [] {
      assert (w + s)[0] == w[0] && (w + s)[1..] == w[1..] + s;
      assert IsSpace(w[0]);
      LStripSpaces(w[1..], s);
    } else {
      assert w + s == s;
    }
  }

  /** The right strip of the left strip is an infix with whitespace on both sides. */
  lemma {:induction false} StripParts(s: string, l: string, r: string)
    requires |l| <= |s| && l == s[|s| - |l|..]
    requires |r| <= |l| && r == l[..|r|]
    requires forall i :: |r| <= i < |l| ==> IsSpace(l[i])
    ensures var a := |s| - |l|;
            && a + |r| <= |s| && r == s[a..a + |r|]
            && (forall i :: a + |r| <= i < |s| ==> IsSpace(s[i]))
  {
    var a := |s| - |l|;
    forall i | a + |r| <= i < |s| ensures IsSpace(s[i]) {
      assert s[i] == l[i - a];
    }
  }

  /** Nothing to strip: `s.strip() == s`. */
  predicate IsStripped(s: string) {
    s == [] || (!IsSpace(s[0]) && !IsSpace(s[|s| - 1]))
  }

  lemma {:induction false} StripOfStripped(s: string)
    requires IsStripped(s)
    ensures Strip(s) == s
  {
  }

  lemma {:induction false} StripIdempotent(s: string)
    ensures Strip(Strip(s)) == Strip(s)
  {
    StripEnds(s);
    StripOfStripped(Strip(s));
  }

  /** `s.strip('"')`. */
  function StripQuotes(s: string): (r: string)
    ensures r == [] || (r[0] != '"' && r[|r| - 1] != '"')
  {
    if s != [] && s[0] == '"' then StripQuotes(s[1..])
    else if s != [] && s[|s| - 1] == '"' then StripQuotes(s[..|s| - 1])
    else s
  }

  lemma {:induction false} StripQuotesNoQuote(s: string)
    requires !Contains(s, '"')
    ensures StripQuotes(s) == s
  {
  }

  // ---------------------------------------------------------------- split and join

  /** `s.split(sep)` for a one-character separator. */
  function Split(s: string, sep: char): (r: seq<string>)
    ensures |r| >= 1
    ensures forall i :: 0 <= i < |r| ==> !Contains(r[i], sep)
    decreases |s|
  {
    var k := IndexOf(s, sep);
    if k == |s| then [s] else [s[..k]] + Split(s[k + 1..], sep)
  }

  /** `sep.join(parts)`. */
  function Join(parts: seq<string>, sep: string): (r: string)
    decreases |parts|
  {
    if parts == [] then [] else if |parts| == 1 then parts[0]
    else parts[0] + sep + Join(parts[1..], sep)
  }

  /** The first part starts the join. */
  lemma {:induction false} JoinStartsWith(parts: seq<string>, sep: string)
    requires parts != []
    ensures StartsWith(Join(parts, sep), parts[0])
  {
    if |parts| > 1 {
      assert (parts[0] + sep + Join(parts[1..], sep))[..|parts[0]|] == parts[0];
    }
  }

  /** The last part ends the join. */
  lemma {:induction false} JoinEndsWith(parts: seq<string>, sep: string)
    requires parts != []
    ensures EndsWith(Join(parts, sep), parts[|parts| - 1])
    decreases |parts|
  {
    if |parts| > 1 {
      var last := parts[|parts| - 1];
      JoinEndsWith(parts[1..], sep);
      var j := Join(parts[1..], sep);
      var full := parts[0] + sep + j;
      assert full[|full| - |j|..] == j;
      assert full[|full| - |last|..] == j[|j| - |last|..];
    }
  }

  lemma {:induction false} SplitJoin(parts: seq<string>, sep: char)
    requires |parts| >= 1
    requires forall i :: 0 <= i < |parts| ==> !Contains(parts[i], sep)
    ensures Split(Join(parts, [sep]), sep) == parts
    decreases |parts|
  {
    var s := Join(parts, [sep]);
    if |parts| == 1 {
      IndexOfAbsent(parts[0], sep);
    } else {
      var rest := Join(parts[1..], [sep]);
      assert s == parts[0] + ([sep] + rest);
      IndexOfAbsent(parts[0], sep);
      IndexOfPast(parts[0], [sep] + rest, sep);
      assert s[..|parts[0]|] == parts[0];
      assert s[|parts[0]| + 1..] == rest;
      SplitJoin(parts[1..], sep);
    }
  }

  lemma {:induction false} IndexOfPast(a: string, b: string, c: char)
    requires !Contains(a, c) && b != [] && b[0] == c
    ensures IndexOf(a + b, c) == |a|
  {
    if a != [] {
      assert (a + b)[1..] == a[1..] + b;
      IndexOfPast(a[1..], b, c);
    }
  }

  /** A word: non-empty and free of whitespace. */
  predicate IsWord(p: string) {
    p != [] && forall j :: 0 <= j < |p| ==> !IsSpace(p[j])
  }

  /** `s.split()` with no argument: the maximal runs of non-whitespace. */
  function SplitWhitespace(s: string): seq<string> {
    Words(LStrip(s))
  }

  /** The runs of non-whitespace of a string that does not start with whitespace. */
  function Words(t: string): seq<string>
    requires t == [] || !IsSpace(t[0])
    decreases |t|
  {
    if t == [] then []
    else
      var k := SpaceIndex(t);
      WordBefore(t, k);
      [t[..k]] + Words(LStrip(t[k..]))
  }

  /** Every part of a split is a word. */
  lemma {:induction false} SplitWhitespaceWords(s: string)
    ensures forall i :: 0 <= i < |SplitWhitespace(s)| ==> IsWord(SplitWhitespace(s)[i])
  {
    WordsAreWords(LStrip(s));
  }

  lemma {:induction false} WordsAreWords(t: string)
    requires t == [] || !IsSpace(t[0])
    ensures forall i :: 0 <= i < |Words(t)| ==> IsWord(Words(t)[i])
    decreases |t|
  {
    if t != [] {
      var k := SpaceIndex(t);
      WordBefore(t, k);
      WordsAreWords(LStrip(t[k..]));
      ConsWords(t[..k], Words(LStrip(t[k..])));
    }
  }

  lemma {:induction false} ConsWords(w: string, rest: seq<string>)
    requires IsWord(w) && forall i :: 0 <= i < |rest| ==> IsWord(rest[i])
    ensures forall i :: 0 <= i < |[w] + rest| ==> IsWord(([w] + rest)[i])
  {
    forall i | 0 <= i < |[w] + rest| ensures IsWord(([w] + rest)[i]) {
      if i > 0 {
        assert ([w] + rest)[i] == rest[i - 1];
      }
    }
  }

  lemma {:induction false} WordBefore(t: string, k: nat)
    requires t != [] && !IsSpace(t[0]) && k <= |t|
    requires forall i :: 0 <= i < k ==> !IsSpace(t[i])
    requires k < |t| ==> IsSpace(t[k])
    ensures k > 0 && IsWord(t[..k])
  {
  }

  /** Index of the first whitespace character, or `|s|`. */
  function SpaceIndex(s: string): (k: nat)
    ensures k <= |s|
    ensures forall i :: 0 <= i < k ==> !IsSpace(s[i])
    ensures k < |s| ==> IsSpace(s[k])
  {
    if s == [] then 0 else if IsSpace(s[0]) then 0 else 1 + SpaceIndex(s[1..])
  }

  lemma {:induction false} SplitWhitespaceJoin(parts: seq<string>)
    requires forall i :: 0 <= i < |parts| ==> IsWord(parts[i])
    ensures SplitWhitespace(Join(parts, " ")) == parts
    decreases |parts|
  {
    if parts == [] {
      assert LStrip([]) == [];
    } else if |parts| == 1 {
      assert Join(parts, " ") == parts[0];
      SplitWhitespaceOne(parts[0]);
    } else {
      var tail := parts[1..];
      assert forall i :: 0 <= i < |tail| ==> IsWord(tail[i]) by {
        forall i | 0 <= i < |tail| ensures IsWord(tail[i]) {
          assert tail[i] == parts[i + 1];
        }
      }
      calc {
        SplitWhitespace(Join(parts, " "));
        { assert Join(parts, " ") == parts[0] + " " + Join(tail, " "); }
        SplitWhitespace(parts[0] + " " + Join(tail, " "));
        { SplitWhitespaceCons(parts[0], Join(tail, " ")); }
        [parts[0]] + SplitWhitespace(Join(tail, " "));
        { SplitWhitespaceJoin(tail); }
        [parts[0]] + tail;
        parts;
      }
    }
  }

  /** A word, a space, then a text: the word splits off and the space disappears. */
  lemma {:induction false} SplitWhitespaceCons(p: string, rest: string)
    requires IsWord(p)
    ensures SplitWhitespace(p + " " + rest) == [p] + SplitWhitespace(rest)
  {
    calc {
      SplitWhitespace(p + " " + rest);
      { assert p + " " + rest == p + (" " + rest); }
      SplitWhitespace(p + (" " + rest));
      { SplitWhitespaceWord(p, " " + rest); }
      [p] + SplitWhitespace(" " + rest);
      { SplitWhitespaceSpace(rest); }
      [p] + SplitWhitespace(rest);
    }
  }

  /** A single word splits into itself. */
  lemma {:induction false} SplitWhitespaceOne(p: string)
    requires IsWord(p)
    ensures SplitWhitespace(p) == [p]
  {
    assert p + [] == p;
    SplitWhitespaceWord(p, []);
    assert LStrip([]) == [];
  }

  /** A word followed by whitespace (or nothing) splits off as the first part. */
  lemma {:induction false} SplitWhitespaceWord(p: string, tail: string)
    requires IsWord(p) && (tail == [] || IsSpace(tail[0]))
    ensures SplitWhitespace(p + tail) == [p] + SplitWhitespace(tail)
  {
    var s := p + tail;
    assert LStrip(s) == s;
    if tail == [] {
      assert s == p;
      SpaceIndexNone(p);
    } else {
      SpaceIndexPast(p, tail);
    }
    assert s[..|p|] == p && s[|p|..] == tail;
  }

  /** Leading whitespace does not change the split. */
  lemma {:induction false} SplitWhitespaceSpace(rest: string)
    ensures SplitWhitespace(" " + rest) == SplitWhitespace(rest)
  {
    var t := LStrip(rest);
    assert LStrip(" " + rest) == t by {
      assert (" " + rest)[1..] == rest;
    }
  }

  lemma {:induction false} SpaceIndexNone(s: string)
    requires forall j :: 0 <= j < |s| ==> !IsSpace(s[j])
    ensures SpaceIndex(s) == |s|
  {
  }

  lemma {:induction false} SpaceIndexPast(a: string, b: string)
    requires forall j :: 0 <= j < |a| ==> !IsSpace(a[j])
    requires b != [] && IsSpace(b[0])
    ensures SpaceIndex(a + b) == |a|
    decreases |a|
  {
    if a == [] {
      assert a + b == b;
    } else {
      assert (a + b)[1..] == a[1..] + b;
      assert !IsSpace((a + b)[0]);
      assert forall j :: 0 <= j < |a[1..]| ==> !IsSpace(a[1..][j]) by {
        forall j | 0 <= j < |a[1..]| ensures !IsSpace(a[1..][j]) {
          assert a[1..][j] == a[j + 1];
        }
      }
      SpaceIndexPast(a[1..], b);
    }
  }


  /** `str.splitlines()`: breaks at every line-break character, `\r\n` counting
      once; a trailing break does not start an empty last line. */
  function SplitLines(s: string): (r: seq<string>)
    ensures forall i :: 0 <= i < |r| ==> forall j :: 0 <= j < |r[i]| ==> !IsLineBreak(r[i][j])
    decreases |s|
  {
    if s == [] then []
    else
      var k := LineBreakIndex(s);
      if k == |s| then [s]
      else
        var next := if s[k] == '\r' && k + 1 < |s| && s[k + 1] == '\n' then k + 2 else k + 1;
        [s[..k]] + SplitLines(s[next..])
  }

  function LineBreakIndex(s: string): (k: nat)
    ensures k <= |s|
    ensures forall i :: 0 <= i < k ==> !IsLineBreak(s[i])
    ensures k < |s| ==> IsLineBreak(s[k])
  {
    if s == [] then 0 else if IsLineBreak(s[0]) then 0 else 1 + LineBreakIndex(s[1..])
  }

  // ---------------------------------------------------------------- quote escaping

  /** `s.replace('"', '\\"')`: the serializer's escaping. */
  function Escape(s: string): (r: string)
    ensures |r| >= |s|
  {
    if s == [] then [] else (if s[0] == '"' then ['\\', '"'] else [s[0]]) + Escape(s[1..])
  }

  /** `s.replace('\\"', '"')`: the parser's unescaping, leftmost occurrence first. */
  function Unescape(s: string): (r: string)
    ensures |r| <= |s|
  {
    if |s| >= 2 && s[0] == '\\' && s[1] == '"' then ['"'] + Unescape(s[2..])
    else if s == [] then []
    else [s[0]] + Unescape(s[1..])
  }

  lemma {:induction false} EscapeHead(s: string)
    ensures Escape(s) == [] || Escape(s)[0] != '"'
  {
  }

  /** Unescaping undoes escaping, for every string. */
  lemma {:induction false} UnescapeEscape(s: string)
    ensures Unescape(Escape(s)) == s
  {
    if s != [] {
      UnescapeEscape(s[1..]);
      EscapeHead(s[1..]);
      if s[0] == '"' {
        assert Escape(s) == ['\\', '"'] + Escape(s[1..]);
        assert Escape(s)[2..] == Escape(s[1..]);
      } else {
        assert Escape(s) == [s[0]] + Escape(s[1..]);
        assert Escape(s)[1..] == Escape(s[1..]);
      }
    }
  }

  lemma {:induction false} EscapeNoQuote(s: string)
    requires !Contains(s, '"')
    ensures Escape(s) == s
  {
    if s != [] {
      assert !Contains(s[1..], '"') by {
        forall i | 0 <= i < |s[1..]| ensures s[1..][i] != '"' { assert s[1..][i] == s[i + 1]; }
      }
      EscapeNoQuote(s[1..]);
    }
  }

  /** A character absent from a non-empty string is absent from its head and its tail. */
  lemma {:induction false} NotContainsTail(s: string, c: char)
    requires s != [] && !Contains(s, c)
    ensures s[0] != c && !Contains(s[1..], c)
  {
    forall i | 0 <= i < |s[1..]|
      ensures s[1..][i] != c
    {
      assert s[1..][i] == s[i + 1];
    }
  }

  lemma {:induction false} UnescapeNoQuote(s: string)
    requires !Contains(s, '"')
    ensures Unescape(s) == s
  {
    if s != [] {
      assert !Contains(s[1..], '"') by {
        forall i | 0 <= i < |s[1..]| ensures s[1..][i] != '"' { assert s[1..][i] == s[i + 1]; }
      }
      UnescapeNoQuote(s[1..]);
    }
  }

  lemma {:induction false} EscapeNoSpaceChange(s: string)
    ensures (s == [] <==> Escape(s) == [])
    ensures s != [] ==> (IsSpace(s[0]) <==> IsSpace(Escape(s)[0]))
    ensures s != [] ==> (IsSpace(s[|s| - 1]) <==> IsSpace(Escape(s)[|Escape(s)| - 1]))
  {
    if s != [] {
      EscapeLast(s);
    }
  }

  lemma {:induction false} EscapeLast(s: string)
    requires s != []
    ensures Escape(s)[|Escape(s)| - 1] == s[|s| - 1]
  {
    if |s| > 1 {
      EscapeLast(s[1..]);
    }
  }

  lemma {:induction false} EscapeNoBracket(s: string, c: char)
    requires c != '\\' && c != '"' && !Contains(s, c)
    ensures !Contains(Escape(s), c)
  {
    if s != [] {
      assert !Contains(s[1..], c) by {
        forall i | 0 <= i < |s[1..]| ensures s[1..][i] != c { assert s[1..][i] == s[i + 1]; }
      }
      EscapeNoBracket(s[1..], c);
    }
  }

  // ---------------------------------------------------------------- integers

  /** `str(n)` for a natural number. */
  function NatToString(n: nat): (r: string)
    ensures r != [] && forall i :: 0 <= i < |r| ==> IsDigit(r[i])
  {
    var d := ['0' + (n % 10) as char];
    if n < 10 then d else NatToString(n / 10) + d
  }

  /** `str(n)`. */
  function IntToString(n: int): (r: string)
    ensures r != []
  {
    if n < 0 then "-" + NatToString(-n) else NatToString(n)
  }

  /** The value of a decimal digit (zero for any other character). */
  function DigitValue(c: char): (v: nat)
    ensures IsDigit(c) ==> v == c as int - '0' as int
  {
    if IsDigit(c) then c as int - '0' as int else 0
  }

  /** The value of a string of decimal digits. */
  function DigitsValue(s: string): (v: nat) {
    if s == [] then 0
    else DigitsValue(s[..|s| - 1]) * 10 + DigitValue(s[|s| - 1])
  }

  lemma {:induction false} DigitsOfNat(n: nat)
    ensures DigitsValue(NatToString(n)) == n
  {
    var d := ['0' + (n % 10) as char];
    if n >= 10 {
      var r := NatToString(n);
      DigitsOfNat(n / 10);
      assert r == NatToString(n / 10) + d;
      assert r[..|r| - 1] == NatToString(n / 10);
    }
  }

  /** The argument of Python's `int()` for base 10: digits, with single
      underscores allowed between them. */
  predicate IsUnderscoredDigits(b: string) {
    b != [] && IsDigit(b[0]) && DigitGroups(b[1..])
  }

  /** What may follow the first digit: digits, each optionally preceded by one underscore. */
  predicate DigitGroups(s: string)
    decreases |s|
  {
    if s == [] then true
    else if IsDigit(s[0]) then DigitGroups(s[1..])
    else |s| >= 2 && s[0] == '_' && IsDigit(s[1]) && DigitGroups(s[2..])
  }


  function RemoveUnderscores(b: string): (r: string)
    ensures |r| <= |b|
  {
    if b == [] then [] else (if b[0] == '_' then [] else [b[0]]) + RemoveUnderscores(b[1..])
  }

  lemma {:induction false} RemoveUnderscoresPlain(b: string)
    requires forall i :: 0 <= i < |b| ==> IsDigit(b[i])
    ensures RemoveUnderscores(b) == b
    decreases |b|
  {
    if b != [] {
      assert forall i :: 0 <= i < |b[1..]| ==> IsDigit(b[1..][i]) by {
        forall i | 0 <= i < |b[1..]| ensures IsDigit(b[1..][i]) {
          assert b[1..][i] == b[i + 1];
        }
      }
      RemoveUnderscoresPlain(b[1..]);
      assert b[0] != '_';
      assert [b[0]] + b[1..] == b;
    }
  }

  /** Python's `int(s)`: `None` where it raises `ValueError`. */
  function ParseInt(s0: string): (r: Option<int>)
  {
    var s := Strip(s0);
    if s != [] && (s[0] == '-' || s[0] == '+') then SignedValue(s[0] == '-', s[1..])
    else SignedValue(false, s)
  }

  /** The value of an optionally negated digit body, if it is well formed. */
  function SignedValue(neg: bool, body: string): (r: Option<int>)
  {
    if IsUnderscoredDigits(body) then
      var v: int := DigitsValue(RemoveUnderscores(body));
      Some(if neg then -v else v)
    else None
  }

  lemma {:induction false} SignedValueDigits(neg: bool, t: string)
    requires t != [] && forall i :: 0 <= i < |t| ==> IsDigit(t[i])
    ensures SignedValue(neg, t) == Some(if neg then -(DigitsValue(t) as int) else DigitsValue(t) as int)
  {
    var v: int := DigitsValue(t);
    calc {
      SignedValue(neg, t);
      { DigitsUnderscored(t); }
      Some(if neg then -(DigitsValue(RemoveUnderscores(t)) as int) else DigitsValue(RemoveUnderscores(t)) as int);
      { RemoveUnderscoresPlain(t); }
      Some(if neg then -v else v);
    }
  }

  /** Plain digits are a well-formed argument of `int()`. */
  lemma {:induction false} DigitsUnderscored(t: string)
    requires t != [] && forall i :: 0 <= i < |t| ==> IsDigit(t[i])
    ensures IsUnderscoredDigits(t)
  {
    DigitsGroups(t[1..]);
  }

  lemma {:induction false} DigitsGroups(s: string)
    requires forall i :: 0 <= i < |s| ==> IsDigit(s[i])
    ensures DigitGroups(s)
    decreases |s|
  {
    if s != [] {
      assert forall i :: 0 <= i < |s[1..]| ==> IsDigit(s[1..][i]) by {
        forall i | 0 <= i < |s[1..]| ensures IsDigit(s[1..][i]) {
          assert s[1..][i] == s[i + 1];
        }
      }
      DigitsGroups(s[1..]);
    }
  }

  lemma {:induction false} ParseDigits(t: string)
    requires t != [] && forall i :: 0 <= i < |t| ==> IsDigit(t[i])
    ensures ParseInt(t) == Some(DigitsValue(t) as int)
  {
    assert IsDigit(t[0]) && IsDigit(t[|t| - 1]);
    assert IsStripped(t);
    StripOfStripped(t);
    SignedValueDigits(false, t);
  }

  lemma {:induction false} ParseNatToString(n: nat)
    ensures ParseInt(NatToString(n)) == Some(n as int)
  {
    ParseDigits(NatToString(n));
    DigitsOfNat(n);
  }

  /** On text without surrounding spaces, `ParseInt` reads the sign directly. */
  lemma {:induction false} ParseIntStripped(s: string)
    requires IsStripped(s)
    ensures ParseInt(s) == (if s != [] && (s[0] == '-' || s[0] == '+') then SignedValue(s[0] == '-', s[1..]) else SignedValue(false, s))
  {
    StripOfStripped(s);
  }

  lemma {:induction false} ParseNegativeDigits(digits: string)
    requires digits != [] && forall i :: 0 <= i < |digits| ==> IsDigit(digits[i])
    ensures ParseInt("-" + digits) == Some(-(DigitsValue(digits) as int))
  {
    var t := "-" + digits;
    assert IsStripped(t) by {
      assert t[|t| - 1] == digits[|digits| - 1];
      assert IsDigit(t[|t| - 1]);
    }
    calc {
      ParseInt(t);
      { ParseIntStripped(t); }
      SignedValue(true, t[1..]);
      { assert t[1..] == digits; }
      SignedValue(true, digits);
      { SignedValueDigits(true, digits); }
      Some(-(DigitsValue(digits) as int));
    }
  }

  lemma {:induction false} ParseNegativeToString(n: int)
    requires n < 0
    ensures ParseInt(IntToString(n)) == Some(n)
  {
    var d := NatToString(-n);
    calc {
      ParseInt(IntToString(n));
      { assert IntToString(n) == "-" + d; }
      ParseInt("-" + d);
      { ParseNegativeDigits(d); }
      Some(-(DigitsValue(d) as int));
      { DigitsOfNat(-n); }
      Some(n);
    }
  }

  /** Reading back what `str` writes gives the number. */
  lemma {:induction false} ParseIntToString(n: int)
    ensures ParseInt(IntToString(n)) == Some(n)
  {
    if n < 0 {
      ParseNegativeToString(n);
    } else {
      assert IntToString(n) == NatToString(n);
      ParseNatToString(n);
    }
  }
}
