/** The parser's line patterns on hand-written lines of shapes the writer never
    emits: property keywords, a flag tick given as any digit or left out, helper
    calls in a class header, and a property line that ends with `=`. */
module FgdLineShapes {
  import opened Wrappers
  import opened Text
  import opened FgdModel
  import opened FgdPatterns
  import opened FgdSerializer
  import opened FgdReadBack

  // ---------------------------------------------------------------- property keywords

  /** `x` after one space, or nothing for an empty `x`. */
  function AfterSpace(x: string): string {
    if x == [] then [] else " " + x
  }

  /** What follows `)` on a property line: the `readonly` and `report`
      keywords where present, then the rest, one space before each. */
  function KeywordsThen(readonly: bool, report: bool, rest: string): string {
    var afterReadonly := if report then "report" + AfterSpace(rest) else rest;
    AfterSpace(if readonly then "readonly" + AfterSpace(afterReadonly) else afterReadonly)
  }

  /** The property line `name(type)` followed by keywords and the rest. */
  function PropKeywordLine(nm: string, ty: string, readonly: bool, report: bool, rest: string): string {
    nm + ("(" + (ty + (")" + KeywordsThen(readonly, report, rest))))
  }

  /** The property pattern sets `readonly` and `report` exactly when the keyword
      follows the type, each keyword only its own flag, and leaves the rest of
      the line. The rest must not itself start with a keyword the pattern is
      still looking for. */
  lemma {:induction false} PropLineKeywords(nm: string, ty: string, readonly: bool, report: bool, rest: string)
    requires nm != [] && forall i :: 0 <= i < |nm| ==> IsPropNameChar(nm[i])
    requires ty != [] && !Contains(ty, ')')
    requires IsStripped(rest)
    requires !report ==> !CiAt(rest, 0, "report")
    requires !readonly && !report ==> !CiAt(rest, 0, "readonly")
    ensures PropLine(PropKeywordLine(nm, ty, readonly, report, rest))
            == Some(PropHeader(nm, ty, readonly, report, rest))
  {
    var t := PropKeywordLine(nm, ty, readonly, report, rest);
    var q := |nm| + 1 + |ty|;
    var tail := KeywordsThen(readonly, report, rest);
    PropPiecesAt(t, nm, ty, tail, q);
    PropHeadAt(t, nm, ty, q);
    KeywordsSolid(readonly, report, rest);
    KeywordLineStripped(t, q, tail);
    StripOfStripped(t);
    KeywordSteps(t, q, readonly, report, rest);
    PropComposeKeywords(t, nm, ty, q, readonly, report, PropKeywords(t, q + 1).2, rest);
  }

  /** The keyword steps of the property pattern after the `)` at `q`. */
  lemma {:induction false} KeywordSteps(t: string, q: nat, readonly: bool, report: bool, rest: string)
    requires q < |t| && t[q + 1..] == KeywordsThen(readonly, report, rest)
    requires IsStripped(rest)
    requires !report ==> !CiAt(rest, 0, "report")
    requires !readonly && !report ==> !CiAt(rest, 0, "readonly")
    ensures PropKeywords(t, q + 1).0 == readonly && PropKeywords(t, q + 1).1 == report
    ensures t[PropKeywords(t, q + 1).2..] == rest
  {
    var x2 := if report then "report" + AfterSpace(rest) else rest;
    var x1 := if readonly then "readonly" + AfterSpace(x2) else x2;
    assert KeywordsThen(readonly, report, rest) == AfterSpace(x1);
    assert x1 == [] || !IsSpace(x1[0]);
    SkipOneSpace(t, q + 1, x1);
    var k := SkipSpace(t, q + 1);
    if report {
      ReportNotReadonly(AfterSpace(rest));
    }
    OptionalWord(t, k, "readonly", readonly, x2);
    OptionalWord(t, AfterWord(t, k, "readonly"), "report", report, rest);
  }

  /** The property pattern inside a stripped line, from the places its pieces end. */
  lemma {:induction false} PropComposeKeywords(t: string, nm: string, ty: string, q: nat,
                                               readonly: bool, report: bool, e: nat, rest: string)
    requires 0 < |nm| && |nm| + 1 < q < |t|
    requires RunEnd(t, 0, IsPropNameChar) == |nm| && SkipSpace(t, |nm|) == |nm| && t[|nm|] == '('
    requires RunEnd(t, |nm| + 1, NotCloseParen) == q
    requires PropKeywords(t, q + 1) == (readonly, report, e) && e <= |t|
    requires t[..|nm|] == nm && t[|nm| + 1..q] == ty && t[e..] == rest
    ensures PropLineIn(t) == Some(PropHeader(nm, ty, readonly, report, rest))
  {
  }

  /** `\s*` over the single space of `AfterSpace(x)`, for an `x` that starts with no whitespace. */
  lemma {:induction false} SkipOneSpace(t: string, i: nat, x: string)
    requires i <= |t| && t[i..] == AfterSpace(x)
    requires x == [] || !IsSpace(x[0])
    ensures SkipSpace(t, i) <= |t| && t[SkipSpace(t, i)..] == x
  {
    if x == [] {
      RunEndAt(t, i, IsSpace, i);
    } else {
      PeelChar(t, i, ' ', x);
      assert t[i + 1] == t[i + 1..][0];
      RunEndAt(t, i, IsSpace, i + 1);
    }
  }

  /** `(w)?\s*` at `k`, where the keyword `w` is written (then a space and `x`) or not (then `x`). */
  lemma {:induction false} OptionalWord(t: string, k: nat, w: string, present: bool, x: string)
    requires w == "readonly" || w == "report"
    requires k <= |t| && t[k..] == (if present then w + AfterSpace(x) else x)
    requires x == [] || !IsSpace(x[0])
    requires !present ==> !CiAt(x, 0, w)
    ensures CiAt(t, k, w) == present && t[AfterWord(t, k, w)..] == x
  {
    if present {
      KeywordsLower();
      Peel(t, k, k + |w|, w, AfterSpace(x));
      WordWritten(t, k, w, x);
    } else {
      WordAbsent(t, k, w, x);
    }
  }

  lemma {:induction false} KeywordsLower()
    ensures Lower("readonly") == "readonly" && Lower("report") == "report"
  {
  }

  /** The keyword `w` written at `k`, then a space and `x`. */
  lemma {:induction false} WordWritten(t: string, k: nat, w: string, x: string)
    requires Lower(w) == w
    requires k + |w| <= |t| && t[k..k + |w|] == w && t[k + |w|..] == AfterSpace(x)
    requires x == [] || !IsSpace(x[0])
    ensures CiAt(t, k, w) && t[AfterWord(t, k, w)..] == x
  {
    SkipOneSpace(t, k + |w|, x);
    WordAt(t, k, w, SkipSpace(t, k + |w|), x);
  }

  /** The keyword `w` at `k`, and then `x` where the whitespace after it ends. */
  lemma {:induction false} WordAt(t: string, k: nat, w: string, j: nat, x: string)
    requires Lower(w) == w && k + |w| <= |t| && t[k..k + |w|] == w
    requires SkipSpace(t, k + |w|) == j && j <= |t| && t[j..] == x
    ensures CiAt(t, k, w) && t[AfterWord(t, k, w)..] == x
  {
  }

  /** No keyword `w` at `k`, where the text `x` starts with no whitespace. */
  lemma {:induction false} WordAbsent(t: string, k: nat, w: string, x: string)
    requires k <= |t| && t[k..] == x
    requires x == [] || !IsSpace(x[0])
    requires !CiAt(x, 0, w)
    ensures !CiAt(t, k, w) && t[AfterWord(t, k, w)..] == x
  {
    if k + |w| <= |t| {
      assert t[k..k + |w|] == x[0..|w|];
    }
    if k < |t| {
      assert t[k] == x[0];
    }
    RunEndAt(t, k, IsSpace, k);
  }

  /** `readonly` does not match where `report` is written. */
  lemma {:induction false} ReportNotReadonly(y: string)
    ensures !CiAt("report" + y, 0, "readonly")
  {
    var s := "report" + y;
    if 8 <= |s| {
      assert Lower(s[0..8])[2] == LowerChar(s[2]) == 'p';
    }
  }

  /** A property line with keywords neither starts nor ends with whitespace. */
  lemma {:induction false} KeywordLineStripped(t: string, q: nat, tail: string)
    requires q < |t| && !IsSpace(t[0]) && t[q] == ')' && t[q + 1..] == tail && Solid(tail)
    ensures IsStripped(t)
  {
    if tail != [] {
      assert t[|t| - 1] == t[q + 1..][|tail| - 1];
    }
  }

  /** The keywords and a stripped rest end with no whitespace. */
  lemma {:induction false} KeywordsSolid(readonly: bool, report: bool, rest: string)
    requires IsStripped(rest)
    ensures Solid(KeywordsThen(readonly, report, rest))
  {
    var x2 := if report then "report" + AfterSpace(rest) else rest;
    SolidAfterSpace(rest);
    if report {
      SolidAppend("report", AfterSpace(rest));
    }
    SolidAfterSpace(x2);
    if readonly {
      SolidAppend("readonly", AfterSpace(x2));
    }
    var x1 := if readonly then "readonly" + AfterSpace(x2) else x2;
    SolidAfterSpace(x1);
  }

  /** Empty, or ending with a character that is not whitespace. */
  predicate Solid(x: string) {
    x == [] || !IsSpace(x[|x| - 1])
  }

  lemma {:induction false} SolidAppend(a: string, b: string)
    requires a != [] && !IsSpace(a[|a| - 1]) && Solid(b)
    ensures (a + b) != [] && !IsSpace((a + b)[|a + b| - 1])
  {
    if b != [] {
      assert (a + b)[|a + b| - 1] == b[|b| - 1];
    } else {
      assert a + b == a;
    }
  }

  lemma {:induction false} SolidAfterSpace(x: string)
    requires Solid(x)
    ensures Solid(AfterSpace(x))
  {
    if x != [] {
      assert (" " + x)[|x|] == x[|x| - 1];
    }
  }

  // ---------------------------------------------------------------- flag ticks

  /** A flag item whose tick is any digit: `ticked` is `bool(int(digit))`, true
      for every digit but `0`. */
  lemma {:induction false} FlagDigitTick(n: int, d: string, c: char)
    requires d != [] && !Contains(d, '"') && IsDigit(c)
    ensures FlagItemOf(IntToString(n) + (" : " + (Quote(d) + (" : " + [c]))))
            == Some(FlagItem(n, d, "", c != '0'))
  {
    var t := IntToString(n) + (" : " + (Quote(d) + (" : " + [c])));
    var e := |IntToString(n)|;
    var k := e + 3;
    var p := k + |d| + 2;
    FlagPiecesAt(t, IntToString(n), d, [c], e, k, p);
    SignedIntOfText(t, n, e);
    DisplayAt(t, e, k, p, d);
    TickOfDigit(t, p, c);
    TrailingNone(t);
    StripOfStripped(t);
    FlagCompose(t, t, FlagItem(n, d, "", c != '0'), e, p);
  }

  /** `(?:\s*:\s*(\d))?` before a digit that ends the text. */
  lemma {:induction false} TickOfDigit(t: string, p: nat, c: char)
    requires IsDigit(c)
    requires p + 3 <= |t| && t[p] == ' ' && t[p + 1] == ':' && t[p + 2] == ' ' && t[p + 3..] == [c]
    ensures TickAt(t, p) == Some((c != '0', |t|))
    ensures !IsSpace(t[|t| - 1])
  {
    assert t[p + 3] == t[p + 3..][0];
    RunEndAt(t, p, IsSpace, p + 1);
    RunEndAt(t, p + 2, IsSpace, p + 3);
  }

  /** A flag item without a tick: `ticked` is false. */
  lemma {:induction false} FlagNoTick(n: int, d: string)
    requires d != [] && !Contains(d, '"')
    ensures FlagItemOf(IntToString(n) + (" : " + Quote(d))) == Some(FlagItem(n, d, "", false))
  {
    var t := IntToString(n) + (" : " + Quote(d));
    var e := |IntToString(n)|;
    var k := e + 3;
    var p := k + |d| + 2;
    QuoteParts(d);
    PeelFront(t, IntToString(n), " : " + Quote(d));
    ColonSep(t, e, Quote(d));
    Peel(t, k, p, Quote(d), []);
    SignedIntOfText(t, n, e);
    DisplayAt(t, e, k, p, d);
    RunEndAt(t, p, IsSpace, p);
    TrailingNone(t);
    assert t[|t| - 1] == t[k..p][|d| + 1];
    StripOfStripped(t);
    FlagComposeNoTick(t, n, d, e, p);
  }

  /** The flag pattern on a stripped line with no tick after the display name. */
  lemma {:induction false} FlagComposeNoTick(t: string, n: int, d: string, e: nat, p: nat)
    requires Strip(t) == t && e <= |t| && p == |t|
    requires SignedIntAt(t, 0).Some? && SignedIntAt(t, 0).value.0 == n && SignedIntAt(t, 0).value.1 == e
    requires DisplayAfterColon(t, e).Some? && DisplayAfterColon(t, e).value.0 == d
    requires DisplayAfterColon(t, e).value.1 == p
    requires SkipSpace(t, p) == p
    requires TrailingDescription(t, |t|) == None
    ensures FlagItemOf(t) == Some(FlagItem(n, d, "", false))
  {
  }

  // ---------------------------------------------------------------- helper calls

  /** Characters that leave both depth counters of the helper scan alone. */
  predicate NotBracket(c: char) {
    c != '(' && c != ')' && c != '{' && c != '}'
  }

  function WordCall(word: string, args: string): string {
    word + ("(" + (args + ")"))
  }

  /** One round of the helper scan on `word(args)` at the cursor, for a word of
      `[a-zA-Z0-9_]` and arguments without brackets: the key is the word
      lower-cased, the arguments are stripped, and the scan goes on after `)`. */
  lemma {:induction false} HelperStepOfCall(s: string, cursor: nat, word: string, args: string, rest: string)
    requires cursor <= |s| && s[cursor..] == WordCall(word, args) + rest
    requires word != [] && forall i :: 0 <= i < |word| ==> IsWordChar(word[i])
    requires forall i :: 0 <= i < |args| ==> NotBracket(args[i])
    ensures cursor < |s|
    ensures HelperStepAt(s, cursor) == Call(Lower(word), Strip(args), cursor + |word| + |args| + 2)
  {
    var e := cursor + |word|;
    var end := e + 1 + |args|;
    CallPiecesAt(s, cursor, word, args, rest, e, end);
    SliceHolds(s, cursor, e, word, IsWordChar);
    SliceHolds(s, e + 1, end, args, NotBracket);
    CallFound(s, cursor, e);
    ClosingOverPlain(s, e + 1, end);
    CallStep(s, cursor, e, end, word, args);
  }

  /** The pieces of `word(args)` followed by `rest` at the cursor, by position. */
  lemma {:induction false} CallPiecesAt(s: string, cursor: nat, word: string, args: string, rest: string, e: nat, end: nat)
    requires cursor <= |s| && s[cursor..] == WordCall(word, args) + rest
    requires e == cursor + |word| && end == e + 1 + |args|
    ensures end < |s| && s[cursor..e] == word && s[e] == '(' && s[e + 1..end] == args && s[end] == ')'
  {
    assert s[cursor..] == word + ("(" + (args + (")" + rest)));
    Peel(s, cursor, e, word, "(" + (args + (")" + rest)));
    PeelChar(s, e, '(', args + (")" + rest));
    Peel(s, e + 1, end, args, ")" + rest);
    PeelChar(s, end, ')', rest);
  }

  /** `\b([a-zA-Z0-9_]+)\s*\(` matches at the cursor when a word run there ends at a `(`. */
  lemma {:induction false} CallFound(s: string, cursor: nat, e: nat)
    requires cursor < e < |s| && s[e] == '('
    requires forall q :: cursor <= q < e ==> IsWordChar(s[q])
    ensures FindHelperCall(s, cursor, cursor) == Some((s[cursor..e], e + 1))
  {
    RunEndAt(s, cursor, IsWordChar, e);
    RunEndAt(s, e, IsSpace, e);
  }

  /** The step the helper scan takes once the call and its closing `)` are found. */
  lemma {:induction false} CallStep(s: string, cursor: nat, e: nat, end: nat, word: string, args: string)
    requires cursor < e < end < |s| && s[cursor..e] == word && s[e + 1..end] == args
    requires FindHelperCall(s, cursor, cursor) == Some((s[cursor..e], e + 1))
    requires ClosingFrom(s, e + 1, (1, 0)) == Some(end)
    ensures HelperStepAt(s, cursor) == Call(Lower(word), Strip(args), end + 1)
  {
  }

  /** The depth scan from just inside `(` over characters without brackets closes at the next `)`. */
  lemma {:induction false} ClosingOverPlain(s: string, k: nat, end: nat)
    requires k <= end < |s| && s[end] == ')'
    requires forall q :: k <= q < end ==> NotBracket(s[q])
    ensures ClosingFrom(s, k, (1, 0)) == Some(end)
    decreases end - k
  {
    if k < end {
      assert StepDepth((1, 0), s[k]) == (1, 0);
      ClosingOverPlain(s, k + 1, end);
    }
  }

  /** One round of `_parse_helpers_and_bases` once the call `word(args)` at the
      cursor is found (`HelperStepOfCall`): a `base` call adds the comma-separated
      names, any other call sets the lower-cased key to the stripped arguments;
      the scan then goes on at `next`, after `)`. */
  lemma {:induction false} HelperScanStep(s: string, cursor: nat, word: string, args: string, next: nat,
                                          helpers: seq<(string, string)>, bases: seq<string>)
    requires cursor < |s| && HelperStepAt(s, cursor) == Call(Lower(word), Strip(args), next)
    ensures next <= |s|
    ensures Lower(word) == "base" ==>
              HelperScan(s, cursor, helpers, bases) == HelperScan(s, next, helpers, bases + BaseList(Strip(args)))
    ensures Lower(word) != "base" ==>
              HelperScan(s, cursor, helpers, bases) == HelperScan(s, next, Upsert(helpers, Lower(word), Strip(args)), bases)
  {
  }

  /** A header helper list of one non-`base` call gives one helper, keyed by
      the lower-cased word, holding the stripped arguments, and no bases. */
  lemma {:induction false} HelperScanOne(word: string, args: string)
    requires word != [] && forall i :: 0 <= i < |word| ==> IsWordChar(word[i])
    requires forall i :: 0 <= i < |args| ==> NotBracket(args[i])
    requires Lower(word) != "base"
    ensures HelperScan(WordCall(word, args), 0, [], []) == ([(Lower(word), Strip(args))], [])
  {
    var s := WordCall(word, args);
    assert s[0..] == s + [];
    HelperStepOfCall(s, 0, word, args, []);
    HelperScanStep(s, 0, word, args, |word| + |args| + 2, [], []);
  }

  // ---------------------------------------------------------------- a trailing `=`

  /** `_extract_prop_details` drops a trailing `=` (which only announces an item
      block) before tokenising, so it changes none of the three details. */
  lemma {:induction false} DetailsDropEquals(r: string)
    requires !EndsWith(Strip(r), "=")
    ensures PropDetails(r + " =") == PropDetails(r)
  {
    var l := LStrip(r + " ");
    assert r + " =" == (r + " ") + "=";
    LStripSolid(r + " ", "=");
    var s := l + "=";
    assert RStrip(s) == s;
    assert Strip(r + " =") == s;
    assert s[..|s| - 1] == l;
    assert s[|s| - 1..] == "=";
    LStripTwice(r + " ");
    StripSpaceAfter(r);
    assert DetailsText(r + " =") == Strip(r);
  }

  /** The details of a written property line, with ` =` after them, still read back. */
  lemma {:induction false} DetailsEqualsReadBack(p: Property)
    requires !Contains(p.displayName, '"') && !Contains(p.displayName, '\\')
    requires !Contains(p.defaultValue, '"') && !Contains(p.defaultValue, '\\')
    requires !Contains(p.description, '\\')
    ensures PropDetails(DetailsRest(Details(p)) + " =") == [p.displayName, p.defaultValue, p.description]
  {
    var rest := DetailsRest(Details(p));
    if Details(p) != [] {
      DetailsTail(p);
      StripOfStripped(rest);
      assert !EndsWith(rest, "=");
    }
    DetailsDropEquals(rest);
    DetailsReadBack(p);
  }

  /** The left strip of `r + x` for an `x` that starts with no whitespace. */
  lemma {:induction false} LStripSolid(r: string, x: string)
    requires x != [] && !IsSpace(x[0])
    ensures LStrip(r + x) == LStrip(r) + x
    decreases |r|
  {
    if r == [] {
      assert r + x == x;
    } else if IsSpace(r[0]) {
      assert (r + x)[1..] == r[1..] + x;
      LStripSolid(r[1..], x);
    }
  }

  lemma {:induction false} LStripTwice(r: string)
    ensures LStrip(LStrip(r)) == LStrip(r)
  {
  }

  /** A trailing space makes no difference to `strip()`. */
  lemma {:induction false} StripSpaceAfter(r: string)
    ensures Strip(r + " ") == Strip(r)
    decreases |r|
  {
    if r == [] {
      assert LStrip(" ") == LStrip(" "[1..]);
    } else if IsSpace(r[0]) {
      assert (r + " ")[1..] == r[1..] + " ";
      StripSpaceAfter(r[1..]);
    } else {
      assert (r + " ")[..|r|] == r;
    }
  }
}
