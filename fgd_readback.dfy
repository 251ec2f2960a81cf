/** Reading written body lines back: the parser's line patterns applied to the
    lines the writer emits for inputs and outputs, properties, choice items and
    flag items give back the values written, under conditions on the text that
    the patterns cannot carry (no quote where a pattern stops at the first one). */
module FgdReadBack {
  import opened Wrappers
  import opened Text
  import opened FgdModel
  import opened FgdPatterns
  import opened FgdSerializer

  // ---------------------------------------------------------------- inputs and outputs

  /** The parser strips an indented line back to its text. */
  lemma {:induction false} StripIndented(level: nat, t: string)
    requires t != [] && IsStripped(t)
    ensures Strip(Indent(level) + t) == t
  {
    LStripSpaces(Indent(level), t);
    StripOfStripped(t);
  }

  /** An IO line is read back by the IO pattern of `_parse_entity_line`, for an
      `input` or `output` whose name has no whitespace and no `(`, whose argument
      type has no `)` and whose description has no quote (the pattern's
      description group ends at the first quote). The name comes back with the
      quotes the serializer put around it. */
  lemma {:induction false} IoReadBack(io: IO, level: nat)
    requires io.ioType == "input" || io.ioType == "output"
    requires forall i :: 0 <= i < |io.name| ==> IsIoNameChar(io.name[i])
    requires !Contains(io.argType, ')') && !Contains(io.description, '"')
    ensures IoLine(SerializeIO(io, level)) == Some(io.(name := Quote(io.name)))
  {
    var t := IoText(io);
    var kw := |io.ioType|;
    var p := kw + 4 + |io.name| + |io.argType|;
    IoTextAt(io);
    IoDescriptionAt(io, p);
    StripIndented(level, t);
    IoCompose(SerializeIO(io, level), t, io, kw, p);
  }

  /** The IO pattern on a line that strips to `t`, from the positions of its pieces. */
  lemma {:induction false} IoCompose(x: string, t: string, io: IO, kw: nat, p: nat)
    requires Strip(x) == t && kw <= |t| && kw > 0 && IoKeyword(t) == kw
    requires Lower(t[..kw]) == io.ioType
    requires IoFields(t, kw).Some? && IoFields(t, kw).value.0 == Quote(io.name)
    requires IoFields(t, kw).value.1 == io.argType && IoFields(t, kw).value.2 == p
    requires DescriptionOrEmpty(TrailingDescription(t, p + 1)) == io.description
    ensures IoLine(x) == Some(io.(name := Quote(io.name)))
  {
  }

  /** The IO fields of a text whose name and argument type sit at known places. */
  lemma {:induction false} IoFieldsOfPieces(t: string, kw: nat, e: nat, p: nat, nm: string, g: string)
    requires forall i :: 0 <= i < |nm| ==> IsIoNameChar(nm[i])
    requires !Contains(g, ')')
    requires kw + 1 < e < p < |t| && t[kw] == ' ' && t[e] == '(' && t[p] == ')'
    requires t[kw + 1..e] == Quote(nm) && t[e + 1..p] == g
    ensures IoFields(t, kw) == Some((Quote(nm), g, p))
  {
    QuoteNameChars(nm);
    SliceChars(t, kw + 1, e, IsIoNameChar);
    SliceChars(t, e + 1, p, NotCloseParen);
    assert t[kw + 1] == t[kw + 1..e][0] == '"';
    IoFieldsAt(t, kw, e, p);
  }

  /** How the IO pattern's pieces read an IO line's text. */
  lemma {:induction false} IoTextAt(io: IO)
    requires io.ioType == "input" || io.ioType == "output"
    requires forall i :: 0 <= i < |io.name| ==> IsIoNameChar(io.name[i])
    requires !Contains(io.argType, ')')
    ensures |io.ioType| + 4 + |io.name| + |io.argType| < |IoText(io)|
    ensures IoText(io) != []
    ensures IsStripped(IoText(io))
    ensures IoKeyword(IoText(io)) == |io.ioType|
    ensures Lower(IoText(io)[..|io.ioType|]) == io.ioType
    ensures var f := IoFields(IoText(io), |io.ioType|);
            f.Some? && f.value.0 == Quote(io.name) && f.value.1 == io.argType
            && f.value.2 == |io.ioType| + 4 + |io.name| + |io.argType|
  {
    var t := IoText(io);
    var desc := Escape(io.description);
    var tail := if desc != [] then " : " + Quote(desc) else "";
    assert tail != [] ==> tail[|tail| - 1] == '"';
    IoTextFields(t, io.ioType, io.name, io.argType, tail);
  }

  /** The IO pattern's pieces on `w "nm"(g)` followed by `tail`. */
  lemma {:induction false} IoTextFields(t: string, w: string, nm: string, g: string, tail: string)
    requires w == "input" || w == "output"
    requires forall i :: 0 <= i < |nm| ==> IsIoNameChar(nm[i])
    requires !Contains(g, ')')
    requires t == w + (" " + (Quote(nm) + ("(" + (g + (")" + tail)))))
    requires tail == [] || tail[|tail| - 1] == '"'
    ensures var kw := |w|; var p := kw + 4 + |nm| + |g|;
            && p < |t| && t != [] && IsStripped(t) && IoKeyword(t) == kw && Lower(t[..kw]) == w
            && IoFields(t, kw).Some? && IoFields(t, kw).value.0 == Quote(nm)
            && IoFields(t, kw).value.1 == g && IoFields(t, kw).value.2 == p
  {
    var kw := |w|;
    var e := kw + 3 + |nm|;
    var p := e + 1 + |g|;
    IoPiecesAt(t, w, nm, g, tail);
    KeywordAt(t, w);
    LowerKeyword(w);
    EndsStripped(t, w, p, tail);
    IoFieldsOfPieces(t, kw, e, p, nm, g);
  }

  /** The pieces of `w name(g)` followed by `tail`, by position. */
  lemma {:induction false} IoPiecesAt(t: string, w: string, nm: string, g: string, tail: string)
    requires w == "input" || w == "output"
    requires t == w + (" " + (Quote(nm) + ("(" + (g + (")" + tail)))))
    ensures var kw := |w|; var e := kw + 3 + |nm|; var p := e + 1 + |g|;
            && p < |t| && t[..kw] == w && IoKeyword(t) == kw
            && t[kw] == ' ' && t[e] == '(' && t[p] == ')'
            && t[kw + 1..e] == Quote(nm) && t[e + 1..p] == g && t[p + 1..] == tail
  {
    var kw := |w|;
    var e := kw + 3 + |nm|;
    var p := e + 1 + |g|;
    var r1 := " " + (Quote(nm) + ("(" + (g + (")" + tail))));
    var r2 := Quote(nm) + ("(" + (g + (")" + tail)));
    var r3 := "(" + (g + (")" + tail));
    var r4 := g + (")" + tail);
    var r5 := ")" + tail;
    assert |Quote(nm)| == |nm| + 2;
    PeelFront(t, w, r1);
    PeelChar(t, kw, ' ', r2);
    Peel(t, kw + 1, e, Quote(nm), r3);
    PeelChar(t, e, '(', r4);
    Peel(t, e + 1, p, g, r5);
    PeelChar(t, p, ')', tail);
    KeywordAt(t, w);
  }

  /** The IO keyword of a text that starts with `w`. */
  lemma {:induction false} KeywordAt(t: string, w: string)
    requires w == "input" || w == "output"
    requires |w| <= |t| && t[..|w|] == w
    ensures IoKeyword(t) == |w|
  {
    LowerKeyword(w);
    if w == "output" {
      assert t[..5][0] == 'o';
      assert Lower(t[..5])[0] != 'i';
    }
  }

  /** The characters of a quoted IO name are name characters. */
  lemma {:induction false} QuoteNameChars(nm: string)
    requires forall i :: 0 <= i < |nm| ==> IsIoNameChar(nm[i])
    ensures forall i :: 0 <= i < |Quote(nm)| ==> IsIoNameChar(Quote(nm)[i])
  {
    forall i | 0 <= i < |Quote(nm)|
      ensures IsIoNameChar(Quote(nm)[i])
    {
      if 0 < i < |nm| + 1 {
        assert Quote(nm)[i] == nm[i - 1];
      }
    }
  }

  /** Every character of the slice `t[i..j]` satisfies `p`, by position in `t`. */
  lemma {:induction false} SliceChars(t: string, i: nat, j: nat, p: char -> bool)
    requires i <= j <= |t|
    requires forall k :: 0 <= k < j - i ==> p(t[i..j][k])
    ensures forall q :: i <= q < j ==> p(t[q])
  {
    forall q | i <= q < j
      ensures p(t[q])
    {
      assert t[q] == t[i..j][q - i];
    }
  }

  /** Every character of a text `x` found at `t[i..j]` satisfies `p`, by position in `t`. */
  lemma {:induction false} SliceHolds(t: string, i: nat, j: nat, x: string, p: char -> bool)
    requires i <= j <= |t| && x == t[i..j]
    requires forall k :: 0 <= k < |x| ==> p(x[k])
    ensures forall q :: i <= q < j ==> p(t[q])
  {
    forall q | i <= q < j
      ensures p(t[q])
    {
      assert t[q] == x[q - i];
    }
  }

  /** A text that starts with a keyword and ends with `)` or a quote has no outer whitespace. */
  lemma {:induction false} EndsStripped(t: string, w: string, p: nat, tail: string)
    requires w == "input" || w == "output"
    requires |w| <= p < |t| && t[..|w|] == w && t[p] == ')' && t[p + 1..] == tail
    requires tail == [] || tail[|tail| - 1] == '"'
    ensures IsStripped(t)
  {
    assert t[0] == t[..|w|][0];
    if tail != [] {
      assert t[|t| - 1] == t[p + 1..][|tail| - 1];
    }
  }

  /** The piece `x` at the front, then `rest`. */
  lemma {:induction false} PeelFront(t: string, x: string, rest: string)
    requires t == x + rest
    ensures |x| <= |t| && t[..|x|] == x && t[|x|..] == rest
  {
  }

  /** The piece `x` from `i` to `j`, then `rest`. */
  lemma {:induction false} Peel(t: string, i: nat, j: nat, x: string, rest: string)
    requires i <= |t| && t[i..] == x + rest && j == i + |x|
    ensures j <= |t| && t[i..j] == x && t[j..] == rest
  {
    assert t[i..j] == t[i..][..|x|];
    assert t[j..] == t[i..][|x|..];
  }

  /** The character `c` at `i`, then `rest`. */
  lemma {:induction false} PeelChar(t: string, i: nat, c: char, rest: string)
    requires i <= |t| && t[i..] == [c] + rest
    ensures i < |t| && t[i] == c && t[i + 1..] == rest
  {
    assert t[i] == t[i..][0];
    assert t[i + 1..] == t[i..][1..];
  }

  /** The description read from the end of an IO line's text. */
  lemma {:induction false} IoDescriptionAt(io: IO, p: nat)
    requires !Contains(io.description, '"') && p == |io.ioType| + 4 + |io.name| + |io.argType|
    ensures p < |IoText(io)| && DescriptionOrEmpty(TrailingDescription(IoText(io), p + 1)) == io.description
  {
    var head := io.ioType + " " + Quote(io.name) + "(" + io.argType + ")";
    TrailingOfText(IoText(io), head, io.description, p);
  }

  /** The description pattern after a text `head` ending at `p`. */
  lemma {:induction false} TrailingOfText(t: string, head: string, d: string, p: nat)
    requires !Contains(d, '"') && |head| == p + 1
    requires t == head + (if Escape(d) != [] then " : " + Quote(Escape(d)) else "")
    ensures p < |t| && DescriptionOrEmpty(TrailingDescription(t, p + 1)) == d
  {
    EscapeNoQuote(d);
    if d == [] {
      assert t == head;
      TrailingNone(t);
    } else {
      var tail := " : \"" + d + "\"";
      assert t == head + tail;
      assert t[p + 1..] == tail;
      TrailingAt(t, p + 1, d);
      UnescapeNoQuote(d);
    }
  }

  lemma {:induction false} LowerKeyword(w: string)
    requires w == "input" || w == "output"
    ensures Lower(w) == w
  {
  }

  /** No description pattern at the end of a line. */
  lemma {:induction false} TrailingNone(t: string)
    ensures TrailingDescription(t, |t|) == None
  {
    RunEndAt(t, |t|, IsSpace, |t|);
  }

  /** The IO pattern's steps after the keyword, over the characters alone. */
  lemma {:induction false} IoFieldsAt(t: string, kw: nat, e: nat, p: nat)
    requires kw + 1 < e < p < |t|
    requires t[kw] == ' ' && !IsSpace(t[kw + 1])
    requires forall q :: kw + 1 <= q < e ==> IsIoNameChar(t[q])
    requires t[e] == '(' && t[p] == ')'
    requires forall q :: e + 1 <= q < p ==> t[q] != ')'
    ensures IoFields(t, kw) == Some((t[kw + 1..e], t[e + 1..p], p))
  {
    RunEndAt(t, kw, IsSpace, kw + 1);
    RunEndAt(t, kw + 1, IsIoNameChar, e);
    RunEndAt(t, e, IsSpace, e);
    RunEndAt(t, e + 1, NotCloseParen, p);
  }

  /** The description pattern ` : "…"` from `p`, for a quote-free description. */
  lemma {:induction false} TrailingAt(t: string, p: nat, d: string)
    requires p <= |t| && t[p..] == " : \"" + d + "\"" && !Contains(d, '"')
    ensures TrailingDescription(t, p) == Some(d)
  {
    QuotedTailAt(t, p, d);
    RunEndAt(t, p, IsSpace, p + 1);
    RunEndAt(t, p + 2, IsSpace, p + 3);
    forall q | p + 4 <= q < |t| - 1 ensures t[q] != '"' {
      assert t[q] == t[p + 4..|t| - 1][q - p - 4];
    }
    RunEndAt(t, p + 4, NotQuote, |t| - 1);
  }

  // ---------------------------------------------------------------- properties

  /** What the property pattern leaves of a written property line after `name(type)`:
      the details joined by ` : `, after a leading `: `, or nothing. */
  function DetailsRest(details: seq<string>): string {
    if details != [] then ": " + Join(details, " : ") else ""
  }

  /** A property's first line is read back by the property pattern of
      `_parse_entity_line`, for a name of `[\w."]` characters and a non-empty
      type without `)`: name and type come back, `readonly` and `report` are
      unset (the writer never emits them), and the rest of the line holds the
      written details. */
  lemma {:induction false} PropertyReadBack(p: Property, level: nat)
    requires p.name != [] && forall i :: 0 <= i < |p.name| ==> IsPropNameChar(p.name[i])
    requires p.propType != [] && !Contains(p.propType, ')')
    ensures PropLine(PropertyHeader(p, level))
            == Some(PropHeader(p.name, p.propType, false, false, DetailsRest(Details(p))))
  {
    var t := Signature(p);
    var n := |p.name|;
    var q := n + 1 + |p.propType|;
    var rest := DetailsRest(Details(p));
    if Details(p) != [] {
      DetailsTail(p);
      PropTextAt(t, p.name, p.propType, " " + rest, rest, q, q + 2);
      StripIndented(level, t);
      PropCompose(PropertyHeader(p, level), t, p.name, p.propType, q, q + 2, rest);
    } else {
      PropTextAt(t, p.name, p.propType, "", rest, q, q + 1);
      StripIndented(level, t);
      PropCompose(PropertyHeader(p, level), t, p.name, p.propType, q, q + 1, rest);
    }
  }

  /** The property pattern on a line that strips to `t`, from the places its pieces end. */
  lemma {:induction false} PropCompose(x: string, t: string, nm: string, ty: string, q: nat, k: nat, rest: string)
    requires Strip(x) == t && 0 < |nm| && |nm| + 1 < q < |t| && q < k <= |t|
    requires RunEnd(t, 0, IsPropNameChar) == |nm| && SkipSpace(t, |nm|) == |nm| && t[|nm|] == '('
    requires RunEnd(t, |nm| + 1, NotCloseParen) == q
    requires SkipSpace(t, q + 1) == k && SkipSpace(t, k) == k
    requires !CiAt(t, k, "readonly") && !CiAt(t, k, "report")
    requires t[..|nm|] == nm && t[|nm| + 1..q] == ty && t[k..] == rest
    ensures PropLine(x) == Some(PropHeader(nm, ty, false, false, rest))
  {
  }

  /** With details, the text after `name(type)` in a signature is a space and then
      the details rest, which runs from `:` to a closing quote. */
  lemma {:induction false} DetailsTail(p: Property)
    requires Details(p) != []
    ensures var rest := DetailsRest(Details(p));
            && " : " + Join(Details(p), " : ") == " " + rest
            && rest != [] && rest[0] == ':' && rest[|rest| - 1] == '"'
  {
    DetailsLast(p);
    var j := Join(Details(p), " : ");
    var rest := DetailsRest(Details(p));
    SpaceColon(j);
    assert rest[|rest| - 1] == j[|j| - 1];
  }

  /** The written details end with a quote. */
  lemma {:induction false} DetailsLast(p: Property)
    requires Details(p) != []
    ensures var j := Join(Details(p), " : "); j != [] && j[|j| - 1] == '"'
  {
    DetailsJoin(p);
  }

  /** ` : ` before `j` is a space, a `:` and a space. */
  lemma {:induction false} SpaceColon(j: string)
    ensures " : " + j == " " + (": " + j) && (": " + j)[0] == ':' && |": " + j| == |j| + 2
  {
  }

  /** The written details of a property that has any. */
  lemma {:induction false} DetailsJoin(p: Property)
    requires Details(p) != []
    ensures var j := Join(Details(p), " : ");
            && j == Quote(p.displayName) + (" : " + (Quote(p.defaultValue) + (" : " + Quote(Escape(p.description)))))
            && j != [] && j[|j| - 1] == '"'
  {
    var ds := Details(p);
    var a, b, c := Quote(p.displayName), Quote(p.defaultValue), Quote(Escape(p.description));
    assert ds[1..] == [b, c];
    assert ds[1..][1..] == [c];
    assert Join(ds[1..][1..], " : ") == c;
    assert Join(ds[1..], " : ") == b + " : " + c;
    assert Join(ds, " : ") == a + " : " + (b + " : " + c);
    Regroup(a, " : ", b, " : ", c);
  }

  /** Five pieces joined as `(a + b) + ((c + d) + e)`, regrouped to the right. */
  lemma {:induction false} Regroup(a: string, b: string, c: string, d: string, e: string)
    ensures a + b + (c + d + e) == a + (b + (c + (d + e)))
  {
    assert c + d + e == c + (d + e);
    assert a + b + (c + (d + e)) == a + (b + (c + (d + e)));
  }

  /** The property pattern's places on `nm(ty)` followed by `tail`, where `tail` is
      empty or a space and then `rest`, a text from `:` to a closing quote. */
  lemma {:induction false} PropTextAt(t: string, nm: string, ty: string, tail: string, rest: string, q: nat, k: nat)
    requires nm != [] && forall i :: 0 <= i < |nm| ==> IsPropNameChar(nm[i])
    requires ty != [] && !Contains(ty, ')')
    requires t == nm + ("(" + (ty + (")" + tail)))
    requires q == |nm| + 1 + |ty|
    requires (tail == [] && rest == [] && k == q + 1)
             || (tail == " " + rest && rest != [] && rest[0] == ':' && rest[|rest| - 1] == '"' && k == q + 2)
    ensures var n := |nm|;
            && t != [] && IsStripped(t) && q < |t| && k <= |t|
            && RunEnd(t, 0, IsPropNameChar) == n && SkipSpace(t, n) == n && t[n] == '('
            && RunEnd(t, n + 1, NotCloseParen) == q
            && SkipSpace(t, q + 1) == k && SkipSpace(t, k) == k
            && !CiAt(t, k, "readonly") && !CiAt(t, k, "report")
            && t[..n] == nm && t[n + 1..q] == ty && t[k..] == rest
  {
    PropPiecesAt(t, nm, ty, tail, q);
    PropHeadAt(t, nm, ty, q);
    PropTailAt(t, q, tail, rest, k);
  }

  /** The name and type runs of the property pattern, from where the pieces sit. */
  lemma {:induction false} PropHeadAt(t: string, nm: string, ty: string, q: nat)
    requires nm != [] && forall i :: 0 <= i < |nm| ==> IsPropNameChar(nm[i])
    requires !Contains(ty, ')')
    requires q == |nm| + 1 + |ty| && q < |t|
    requires t[..|nm|] == nm && t[|nm|] == '(' && t[|nm| + 1..q] == ty && t[q] == ')'
    ensures var n := |nm|;
            && !IsSpace(t[0]) && RunEnd(t, 0, IsPropNameChar) == n && SkipSpace(t, n) == n
            && RunEnd(t, n + 1, NotCloseParen) == q
  {
    var n := |nm|;
    SliceChars(t, 0, n, IsPropNameChar);
    SliceChars(t, n + 1, q, NotCloseParen);
    RunEndAt(t, 0, IsPropNameChar, n);
    RunEndAt(t, n, IsSpace, n);
    RunEndAt(t, n + 1, NotCloseParen, q);
    assert t[0] == t[..n][0];
  }

  /** The optional-keyword steps of the property pattern after the `)` at `q`. */
  lemma {:induction false} PropTailAt(t: string, q: nat, tail: string, rest: string, k: nat)
    requires q < |t| && t[q] == ')' && t[q + 1..] == tail
    requires (tail == [] && rest == [] && k == q + 1)
             || (tail == " " + rest && rest != [] && rest[0] == ':' && rest[|rest| - 1] == '"' && k == q + 2)
    ensures k <= |t| && !IsSpace(t[|t| - 1]) && SkipSpace(t, q + 1) == k && SkipSpace(t, k) == k
    ensures !CiAt(t, k, "readonly") && !CiAt(t, k, "report") && t[k..] == rest
  {
    if tail == [] {
      RunEndAt(t, q + 1, IsSpace, q + 1);
    } else {
      PeelChar(t, q + 1, ' ', rest);
      assert t[q + 2] == t[q + 2..][0] == ':';
      RunEndAt(t, q + 1, IsSpace, q + 2);
      RunEndAt(t, q + 2, IsSpace, q + 2);
      assert t[|t| - 1] == t[q + 2..][|rest| - 1];
      NotKeywordAt(t, q + 2, "readonly");
      NotKeywordAt(t, q + 2, "report");
    }
  }

  /** A keyword pattern does not match at a `:`. */
  lemma {:induction false} NotKeywordAt(t: string, k: nat, w: string)
    requires k < |t| && t[k] == ':' && w != [] && w[0] != ':'
    ensures !CiAt(t, k, w)
  {
    if k + |w| <= |t| {
      assert t[k..k + |w|][0] == ':';
      assert Lower(t[k..k + |w|])[0] == ':';
    }
  }

  /** The pieces of `nm(ty)` followed by `tail`, by position. */
  lemma {:induction false} PropPiecesAt(t: string, nm: string, ty: string, tail: string, q: nat)
    requires t == nm + ("(" + (ty + (")" + tail))) && q == |nm| + 1 + |ty|
    ensures var n := |nm|;
            && q < |t| && t[..n] == nm && t[n] == '(' && t[n + 1..q] == ty && t[q] == ')'
            && t[q + 1..] == tail
  {
    var n := |nm|;
    PeelFront(t, nm, "(" + (ty + (")" + tail)));
    PeelChar(t, n, '(', ty + (")" + tail));
    Peel(t, n + 1, q, ty, ")" + tail);
    PeelChar(t, q, ')', tail);
  }

  // ---------------------------------------------------------------- property details

  /** The details of a written property line are read back by
      `_extract_prop_details`, for a display name and a default value with no
      quote and no backslash and a description with no backslash (the
      tokenizer treats a backslash as escaping the next character). */
  lemma {:induction false} DetailsReadBack(p: Property)
    requires !Contains(p.displayName, '"') && !Contains(p.displayName, '\\')
    requires !Contains(p.defaultValue, '"') && !Contains(p.defaultValue, '\\')
    requires !Contains(p.description, '\\')
    ensures PropDetails(DetailsRest(Details(p))) == [p.displayName, p.defaultValue, p.description]
  {
    var dn, dv, desc := p.displayName, p.defaultValue, p.description;
    if Details(p) == [] {
      assert DetailsText("") == "";
      assert TokensFrom("", 0) == [];
      assert FirstThree([]) == ["", "", ""];
    } else {
      var r := DetailsRest(Details(p));
      DetailsOfSome(p);
      CleanDetails(dn, dv, desc);
      DetailsCompose(r, [":", Quote(Escape(dn)), ":", Quote(Escape(dv)), ":", Quote(Escape(desc))], [dn, dv, desc]);
    }
  }

  /** The details read back from a rest that is its own text, from its tokens and their cleaning. */
  lemma {:induction false} DetailsCompose(r: string, tokens: seq<string>, cleaned: seq<string>)
    requires DetailsText(r) == r && TokensFrom(r, 0) == tokens && CleanParts(tokens) == cleaned
    requires |cleaned| == 3
    ensures PropDetails(r) == cleaned
  {
  }

  /** The text and tokens of the written details of a property that has any. */
  lemma {:induction false} DetailsOfSome(p: Property)
    requires !Contains(p.displayName, '"') && !Contains(p.displayName, '\\')
    requires !Contains(p.defaultValue, '"') && !Contains(p.defaultValue, '\\')
    requires !Contains(p.description, '\\')
    requires Details(p) != []
    ensures var r := DetailsRest(Details(p));
            && DetailsText(r) == r
            && TokensFrom(r, 0)
               == [":", Quote(Escape(p.displayName)), ":", Quote(Escape(p.defaultValue)), ":", Quote(Escape(p.description))]
  {
    var dn, dv, desc := p.displayName, p.defaultValue, p.description;
    var j1: nat := 4 + |Escape(dn)|;
    var j2: nat := j1 + 5 + |Escape(dv)|;
    var j3: nat := j2 + 5 + |Escape(desc)|;
    DetailsShape(p, j1, j2, j3);
    DetailsTextOf(DetailsRest(Details(p)), j3);
    DetailsTokens(DetailsRest(Details(p)), dn, dv, desc, j1, j2, j3);
  }

  /** Where the pieces of the written details of a property that has any sit. */
  lemma {:induction false} DetailsShape(p: Property, j1: nat, j2: nat, j3: nat)
    requires !Contains(p.displayName, '"') && !Contains(p.defaultValue, '"')
    requires Details(p) != []
    requires j1 == 4 + |Escape(p.displayName)| && j2 == j1 + 5 + |Escape(p.defaultValue)|
    requires j3 == j2 + 5 + |Escape(p.description)|
    ensures var r := DetailsRest(Details(p));
            && |r| == j3 && r[0] == ':' && r[1] == ' ' && r[2..j1] == Quote(Escape(p.displayName))
            && r[j1] == ' ' && r[j1 + 1] == ':' && r[j1 + 2] == ' ' && r[j1 + 3..j2] == Quote(Escape(p.defaultValue))
            && r[j2] == ' ' && r[j2 + 1] == ':' && r[j2 + 2] == ' ' && r[j2 + 3..j3] == Quote(Escape(p.description))
            && r[j3 - 1] == '"'
  {
    var dn, dv, desc := p.displayName, p.defaultValue, p.description;
    var r := DetailsRest(Details(p));
    var q1, q2, q3 := Quote(Escape(dn)), Quote(Escape(dv)), Quote(Escape(desc));
    QuoteParts(Escape(dn));
    QuoteParts(Escape(dv));
    QuoteParts(Escape(desc));
    DetailsWritten(p);
    DetailsLayout(r, q1, q2, q3, j1, j2, j3);
    assert r[j3 - 1] == r[j2 + 3..j3][|q3| - 1];
  }

  /** The written details of a property that has any, piece by piece. */
  lemma {:induction false} DetailsWritten(p: Property)
    requires !Contains(p.displayName, '"') && !Contains(p.defaultValue, '"')
    requires Details(p) != []
    ensures DetailsRest(Details(p))
            == ":" + (" " + (Quote(Escape(p.displayName)) + (" " + (":" + (" " + (Quote(Escape(p.defaultValue))
               + (" " + (":" + (" " + Quote(Escape(p.description)))))))))))
  {
    DetailsJoin(p);
    EscapeNoQuote(p.displayName);
    EscapeNoQuote(p.defaultValue);
    Spread(Quote(p.displayName), Quote(p.defaultValue), Quote(Escape(p.description)));
  }

  /** `: a : b : c` with every separator split into its characters. */
  lemma {:induction false} Spread(a: string, b: string, c: string)
    ensures ": " + (a + (" : " + (b + (" : " + c))))
            == ":" + (" " + (a + (" " + (":" + (" " + (b + (" " + (":" + (" " + c)))))))))
  {
    SpaceColon(c);
    SpaceColon(b + (" : " + c));
    assert ": " + c == ":" + (" " + c);
    assert ": " + (b + (" " + (":" + (" " + c)))) == ":" + (" " + (b + (" " + (":" + (" " + c)))));
    assert ": " + (a + (" : " + (b + (" : " + c)))) == ":" + (" " + (a + (" : " + (b + (" : " + c)))));
  }

  /** Where the pieces of `: "dn" : "dv" : "desc"` sit. */
  lemma {:induction false} DetailsLayout(r: string, q1: string, q2: string, q3: string, j1: nat, j2: nat, j3: nat)
    requires r == ":" + (" " + (q1 + (" " + (":" + (" " + (q2 + (" " + (":" + (" " + q3)))))))))
    requires j1 == 2 + |q1| && j2 == j1 + 3 + |q2| && j3 == j2 + 3 + |q3|
    ensures |r| == j3 && r[0] == ':' && r[1] == ' ' && r[2..j1] == q1
    ensures r[j1] == ' ' && r[j1 + 1] == ':' && r[j1 + 2] == ' ' && r[j1 + 3..j2] == q2
    ensures r[j2] == ' ' && r[j2 + 1] == ':' && r[j2 + 2] == ' ' && r[j2 + 3..j3] == q3
  {
    var r2 := ":" + (" " + q3);
    var r1 := ":" + (" " + (q2 + (" " + r2)));
    assert r[0..] == r;
    SegmentAt(r, 0, j1, q1, " " + r1);
    PeelChar(r, j1, ' ', r1);
    SegmentAt(r, j1 + 1, j2, q2, " " + r2);
    PeelChar(r, j2, ' ', r2);
    SegmentAt(r, j2 + 1, j3, q3, "");
  }

  /** A `:`, a space and `q` from `i` to `j`, then `rest`. */
  lemma {:induction false} SegmentAt(r: string, i: nat, j: nat, q: string, rest: string)
    requires i <= |r| && r[i..] == ":" + (" " + (q + rest)) && j == i + 2 + |q|
    ensures j <= |r| && r[i] == ':' && r[i + 1] == ' ' && r[i + 2..j] == q && r[j..] == rest
  {
    PeelChar(r, i, ':', " " + (q + rest));
    PeelChar(r, i + 1, ' ', q + rest);
    Peel(r, i + 2, j, q, rest);
  }

  /** The text `_extract_prop_details` tokenises, for a rest from `:` to a closing quote. */
  lemma {:induction false} DetailsTextOf(r: string, n: nat)
    requires |r| == n && n > 0 && r[0] == ':' && r[n - 1] == '"'
    ensures DetailsText(r) == r
  {
    StripOfStripped(r);
  }

  /** The tokens of `: "dn" : "dv" : "desc"`, the quoted ones escaped as written. */
  lemma {:induction false} DetailsTokens(r: string, dn: string, dv: string, desc: string, j1: nat, j2: nat, j3: nat)
    requires !Contains(dn, '\\') && !Contains(dv, '\\') && !Contains(desc, '\\')
    requires j1 == 4 + |Escape(dn)| && j2 == j1 + 5 + |Escape(dv)| && j3 == j2 + 5 + |Escape(desc)|
    requires |r| == j3 && r[0] == ':' && r[1] == ' ' && r[2..j1] == Quote(Escape(dn))
    requires r[j1] == ' ' && r[j1 + 1] == ':' && r[j1 + 2] == ' ' && r[j1 + 3..j2] == Quote(Escape(dv))
    requires r[j2] == ' ' && r[j2 + 1] == ':' && r[j2 + 2] == ' ' && r[j2 + 3..j3] == Quote(Escape(desc))
    ensures TokensFrom(r, 0) == [":", Quote(Escape(dn)), ":", Quote(Escape(dv)), ":", Quote(Escape(desc))]
  {
    TokensSegment(r, 0, j1, dn);
    TokensSpace(r, j1, j1 + 1);
    TokensSegment(r, j1 + 1, j2, dv);
    TokensSpace(r, j2, j2 + 1);
    TokensSegment(r, j2 + 1, j3, desc);
    assert TokensFrom(r, j3) == [];
    SixList(":", Quote(Escape(dn)), ":", Quote(Escape(dv)), ":", Quote(Escape(desc)),
            TokensFrom(r, 0), TokensFrom(r, j1), TokensFrom(r, j1 + 1), TokensFrom(r, j2),
            TokensFrom(r, j2 + 1), TokensFrom(r, j3));
  }

  /** A list that is two elements, then (after a step that changes nothing) two
      more, then two more and nothing, is the six-element list. */
  lemma {:induction false} SixList<T>(a: T, b: T, c: T, d: T, e: T, f: T,
                                      t0: seq<T>, t1: seq<T>, t2: seq<T>, t3: seq<T>, t4: seq<T>, t5: seq<T>)
    requires t0 == [a] + ([b] + t1) && t1 == t2 && t2 == [c] + ([d] + t3)
    requires t3 == t4 && t4 == [e] + ([f] + t5) && t5 == []
    ensures t0 == [a, b, c, d, e, f]
  {
  }

  /** A `:`, a space and a quoted token: the two tokens `:` and the quoted text. */
  lemma {:induction false} TokensSegment(s: string, i: nat, j: nat, x: string)
    requires !Contains(x, '\\')
    requires j == i + 4 + |Escape(x)| && j <= |s|
    requires s[i] == ':' && s[i + 1] == ' ' && s[i + 2..j] == Quote(Escape(x))
    ensures TokensFrom(s, i) == [":"] + ([Quote(Escape(x))] + TokensFrom(s, j))
  {
    TokensColon(s, i, i + 2);
    TokensQuoted(s, i + 2, j, x);
  }

  /** A `:` followed by a space is a token of its own. */
  lemma {:induction false} TokensColon(s: string, i: nat, j: nat)
    requires j == i + 2 && j <= |s| && s[i] == ':' && s[i + 1] == ' '
    ensures TokensFrom(s, i) == [":"] + TokensFrom(s, j)
  {
    RunEndAt(s, i, NotSpace, i + 1);
    assert s[i..i + 1] == [s[i]];
  }

  /** A space between tokens is skipped. */
  lemma {:induction false} TokensSpace(s: string, i: nat, j: nat)
    requires j == i + 1 && i < |s| && s[i] == ' '
    ensures TokensFrom(s, i) == TokensFrom(s, j)
  {
  }

  /** A quoted token written by escaping a backslash-free `x` closes where it was written. */
  lemma {:induction false} TokensQuoted(s: string, i: nat, j: nat, x: string)
    requires !Contains(x, '\\')
    requires j == i + |Escape(x)| + 2 && j <= |s| && s[i..j] == Quote(Escape(x))
    ensures TokensFrom(s, i) == [Quote(Escape(x))] + TokensFrom(s, j)
  {
    QuoteAt(s, i, j, Escape(x));
    EscapedTokenEnd(s, i + 1, j - 1, x);
  }

  /** A quoted `y` from `i` to `j`: its quotes and its inside. */
  lemma {:induction false} QuoteAt(s: string, i: nat, j: nat, y: string)
    requires j == i + |y| + 2 && j <= |s| && s[i..j] == Quote(y)
    ensures s[i] == '"' && s[j - 1] == '"' && s[i + 1..j - 1] == y
  {
    QuoteParts(y);
    assert s[i] == s[i..j][0];
    assert s[j - 1] == s[i..j][|y| + 1];
    forall k | 0 <= k < |y| ensures s[i + 1..j - 1][k] == y[k] {
      assert s[i + 1..j - 1][k] == s[i..j][k + 1] == Quote(y)[1..|y| + 1][k];
    }
  }

  /** The places of a quoted text. */
  lemma {:induction false} QuoteParts(y: string)
    ensures var q := Quote(y);
            |q| == |y| + 2 && q[0] == '"' && q[|y| + 1] == '"' && q[1..|y| + 1] == y
  {
    var q := Quote(y);
    assert q == "\"" + (y + "\"");
    assert q[1..|y| + 1] == (y + "\"")[..|y|];
  }

  /** The closing quote of a quoted token after an escaped backslash-free `x`. */
  lemma {:induction false} EscapedTokenEnd(s: string, j: nat, e: nat, x: string)
    requires !Contains(x, '\\')
    requires j <= e < |s| && s[j..e] == Escape(x) && s[e] == '"'
    ensures QuotedTokenEnd(s, j) == Some(e + 1)
    decreases |x|
  {
    if x != [] {
      NotContainsTail(x, '\\');
      var y := Escape(x);
      if x[0] == '"' {
        assert y == ['\\', '"'] + Escape(x[1..]);
        assert s[j] == y[0] && s[j + 1] == y[1];
        assert s[j + 2..e] == y[2..];
        EscapedTokenEnd(s, j + 2, e, x[1..]);
      } else {
        assert y == [x[0]] + Escape(x[1..]);
        assert s[j] == y[0];
        assert s[j + 1..e] == y[1..];
        EscapedTokenEnd(s, j + 1, e, x[1..]);
      }
    }
  }

  /** The cleaning loop drops the `:` tokens and unquotes the others. */
  lemma {:induction false} CleanDetails(dn: string, dv: string, desc: string)
    ensures CleanParts([":", Quote(Escape(dn)), ":", Quote(Escape(dv)), ":", Quote(Escape(desc))])
            == [dn, dv, desc]
  {
    CleanColon();
    CleanQuoted(dn);
    CleanQuoted(dv);
    CleanQuoted(desc);
    FilterMapDetails(CleanPart, ":", Quote(Escape(dn)), Quote(Escape(dv)), Quote(Escape(desc)), dn, dv, desc);
  }

  /** Keeping values from `c, a, c, b, c, d` where `c` is dropped. */
  lemma {:induction false} FilterMapDetails(f: string -> Option<string>, c: string, a: string, b: string, d: string, ua: string, ub: string, ud: string)
    requires f(c) == None && f(a) == Some(ua) && f(b) == Some(ub) && f(d) == Some(ud)
    ensures FilterMap(f, [c, a, c, b, c, d]) == [ua, ub, ud]
  {
    var s1 := [c];
    assert FilterMap(f, s1) == [] by {
      assert s1[1..] == [];
    }
    FilterMapSnoc(f, s1, a);
    var s2 := s1 + [a];
    FilterMapSnoc(f, s2, c);
    var s3 := s2 + [c];
    FilterMapSnoc(f, s3, b);
    var s4 := s3 + [b];
    FilterMapSnoc(f, s4, c);
    var s5 := s4 + [c];
    FilterMapSnoc(f, s5, d);
    assert s5 + [d] == [c, a, c, b, c, d];
  }

  lemma {:induction false} CleanColon()
    ensures CleanPart(":") == None
  {
    StripOfStripped(":");
  }

  /** A quoted token loses its quotes and has its escapes undone. */
  lemma {:induction false} CleanQuoted(x: string)
    ensures CleanPart(Quote(Escape(x))) == Some(x)
  {
    var q := Quote(Escape(x));
    assert q[0] == '"' && q[|q| - 1] == '"';
    StripOfStripped(q);
    assert q[..1] == "\"" && q[|q| - 1..] == "\"";
    assert Inner(q) == Escape(x);
    UnescapeEscape(x);
  }

  // ---------------------------------------------------------------- choice items

  /** A choice item line is read back by `_parse_choice_item`, for a value and
      a display name that are non-empty and quote-free and a quote-free
      description: the serializer always quotes the value, so the pattern's
      quoted branch applies and gives the item back as it was. */
  lemma {:induction false} ChoiceReadBack(c: ChoiceItem, level: nat)
    requires c.value != [] && !Contains(c.value, '"')
    requires c.displayName != [] && !Contains(c.displayName, '"')
    requires !Contains(c.description, '"')
    ensures ChoiceItemOf(SerializeChoiceItem(c, level)) == Some(c)
  {
    var t := ChoiceText(c);
    var e := 1 + |c.value|;
    var k := e + 4;
    var p := k + |c.displayName| + 2;
    var tail := if c.description != [] then " : " + Quote(Escape(c.description)) else "";
    ChoicePiecesAt(t, c.value, c.displayName, tail, e, k, p);
    DisplayAt(t, e + 1, k, p, c.displayName);
    NoQuoteChars(t, 1, e, c.value);
    RunEndAt(t, 1, NotQuote, e);
    DescriptionTail(t, p, c.description);
    TailLast(c.description);
    QuotedStripped(t, p, tail);
    StripIndented(level, t);
    ChoiceCompose(t, c, e, p);
  }

  /** The choice pattern on the stripped line `t`, from where its pieces end. */
  lemma {:induction false} ChoiceCompose(t: string, c: ChoiceItem, e: nat, p: nat)
    requires 1 < e < |t| && p <= |t| && t[0] == '"'
    requires QuoteAfter(t, 1) == e && t[1..e] == c.value
    requires DisplayAfterColon(t, e + 1).Some? && DisplayAfterColon(t, e + 1).value.0 == c.displayName
    requires DisplayAfterColon(t, e + 1).value.1 == p
    requires DescriptionOrEmpty(TrailingDescription(t, p)) == c.description
    ensures ChoiceItemIn(t) == Some(c)
  {
  }

  /** The pieces of `"value" : "display"` followed by `tail`, by position. */
  lemma {:induction false} ChoicePiecesAt(t: string, v: string, d: string, tail: string, e: nat, k: nat, p: nat)
    requires t == Quote(v) + (" : " + (Quote(d) + tail))
    requires e == 1 + |v| && k == e + 4 && p == k + |d| + 2
    ensures p <= |t| && t[0] == '"' && t[1..e] == v && t[e] == '"'
    ensures t[e + 1] == ' ' && t[e + 2] == ':' && t[e + 3] == ' ' && t[k..p] == Quote(d) && t[p..] == tail
  {
    QuoteParts(v);
    QuoteParts(d);
    PeelFront(t, Quote(v), " : " + (Quote(d) + tail));
    assert t[0] == t[..e + 1][0];
    assert t[e] == t[..e + 1][e];
    assert t[1..e] == t[..e + 1][1..e];
    ColonSep(t, e + 1, Quote(d) + tail);
    Peel(t, k, p, Quote(d), tail);
  }

  /** A ` : ` separator at `i`, then `rest`. */
  lemma {:induction false} ColonSep(t: string, i: nat, rest: string)
    requires i <= |t| && t[i..] == " : " + rest
    ensures i + 3 <= |t| && t[i] == ' ' && t[i + 1] == ':' && t[i + 2] == ' ' && t[i + 3..] == rest
  {
    assert t[i] == t[i..][0] && t[i + 1] == t[i..][1] && t[i + 2] == t[i..][2];
    assert t[i + 3..] == t[i..][3..];
  }

  /** The slice of `t` that is the quote-free `x` has no quote at any place. */
  lemma {:induction false} NoQuoteChars(t: string, i: nat, j: nat, x: string)
    requires i <= j <= |t| && t[i..j] == x && !Contains(x, '"')
    ensures forall q :: i <= q < j ==> t[q] != '"'
  {
    forall q | i <= q < j ensures t[q] != '"' {
      assert t[q] == x[q - i];
    }
  }

  /** `\s*:\s*"([^"]+)"` at a ` : ` separator followed by a quoted, quote-free display name. */
  lemma {:induction false} DisplayAt(t: string, i: nat, k: nat, p: nat, d: string)
    requires d != [] && !Contains(d, '"')
    requires k == i + 3 && p == k + |d| + 2 && p <= |t|
    requires t[i] == ' ' && t[i + 1] == ':' && t[i + 2] == ' ' && t[k..p] == Quote(d)
    ensures DisplayAfterColon(t, i).Some? && DisplayAfterColon(t, i).value.0 == d
    ensures DisplayAfterColon(t, i).value.1 == p
  {
    QuoteAt(t, k, p, d);
    RunEndAt(t, i, IsSpace, i + 1);
    RunEndAt(t, i + 2, IsSpace, k);
    NoQuoteChars(t, k + 1, p - 1, d);
    RunEndAt(t, k + 1, NotQuote, p - 1);
  }

  /** The description pattern at the end of a text that ends with the written description. */
  lemma {:induction false} DescriptionTail(t: string, p: nat, d: string)
    requires p <= |t| && !Contains(d, '"')
    requires t[p..] == (if d != [] then " : " + Quote(Escape(d)) else "")
    ensures DescriptionOrEmpty(TrailingDescription(t, p)) == d
  {
    EscapeNoQuote(d);
    if d == [] {
      assert |t[p..]| == 0;
      TrailingNone(t);
    } else {
      assert " : " + Quote(d) == " : \"" + d + "\"";
      TrailingAt(t, p, d);
      UnescapeNoQuote(d);
    }
  }

  /** The written description is empty or ends with a quote. */
  lemma {:induction false} TailLast(d: string)
    ensures var tail := if d != [] then " : " + Quote(Escape(d)) else "";
            tail == [] || tail[|tail| - 1] == '"'
  {
    if d != [] {
      var y := Escape(d);
      QuoteParts(y);
      assert (" : " + Quote(y))[|y| + 4] == Quote(y)[|y| + 1];
    }
  }

  /** A text from a quote to a quote, or to a tail that ends with one, is stripped. */
  lemma {:induction false} QuotedStripped(t: string, p: nat, tail: string)
    requires 0 < p <= |t| && t[0] == '"' && t[p - 1] == '"' && t[p..] == tail
    requires tail == [] || tail[|tail| - 1] == '"'
    ensures t != [] && IsStripped(t)
  {
    if tail != [] {
      assert t[|t| - 1] == tail[|tail| - 1];
    }
  }

  // ---------------------------------------------------------------- flag items

  /** A flag item line is read back by `_parse_flag_item`, for a non-empty,
      quote-free display name: value, display name and tick come back, and the
      description is empty (the serializer never writes it). */
  lemma {:induction false} FlagReadBack(f: FlagItem, level: nat)
    requires f.displayName != [] && !Contains(f.displayName, '"')
    ensures FlagItemOf(SerializeFlagItem(f, level)) == Some(f.(description := ""))
  {
    var t := FlagText(f);
    var e := |IntToString(f.value)|;
    var k := e + 3;
    var p := k + |f.displayName| + 2;
    FlagPiecesAt(t, IntToString(f.value), f.displayName, TickText(f.defaultTicked), e, k, p);
    SignedIntOfText(t, f.value, e);
    DisplayAt(t, e, k, p, f.displayName);
    TickOfText(t, p, f.defaultTicked);
    TrailingNone(t);
    StripIndented(level, t);
    FlagCompose(SerializeFlagItem(f, level), t, f, e, p);
  }

  /** The flag pattern on a line that strips to `t`, from where its pieces end. */
  lemma {:induction false} FlagCompose(x: string, t: string, f: FlagItem, e: nat, p: nat)
    requires Strip(x) == t && e <= |t| && p <= |t|
    requires SignedIntAt(t, 0).Some? && SignedIntAt(t, 0).value.0 == f.value && SignedIntAt(t, 0).value.1 == e
    requires DisplayAfterColon(t, e).Some? && DisplayAfterColon(t, e).value.0 == f.displayName
    requires DisplayAfterColon(t, e).value.1 == p
    requires TickAt(t, p).Some? && TickAt(t, p).value.0 == f.defaultTicked && TickAt(t, p).value.1 == |t|
    requires TrailingDescription(t, |t|) == None
    ensures FlagItemOf(x) == Some(f.(description := ""))
  {
  }

  /** The pieces of `value : "display" : tick`, by position. */
  lemma {:induction false} FlagPiecesAt(t: string, n: string, d: string, b: string, e: nat, k: nat, p: nat)
    requires t == n + (" : " + (Quote(d) + (" : " + b)))
    requires e == |n| && k == e + 3 && p == k + |d| + 2
    ensures p + 3 <= |t| && t[..e] == n && t[e] == ' ' && t[e + 1] == ':' && t[e + 2] == ' '
    ensures t[k..p] == Quote(d) && t[p] == ' ' && t[p + 1] == ':' && t[p + 2] == ' ' && t[p + 3..] == b
  {
    QuoteParts(d);
    PeelFront(t, n, " : " + (Quote(d) + (" : " + b)));
    ColonSep(t, e, Quote(d) + (" : " + b));
    Peel(t, k, p, Quote(d), " : " + b);
    ColonSep(t, p, b);
  }

  /** `-?\d+` at the start of a text that begins with `str(n)` and a non-digit. */
  lemma {:induction false} SignedIntOfText(t: string, n: int, e: nat)
    requires e == |IntToString(n)| && e < |t| && t[..e] == IntToString(n) && !IsDigit(t[e])
    ensures SignedIntAt(t, 0).Some? && SignedIntAt(t, 0).value.0 == n && SignedIntAt(t, 0).value.1 == e
    ensures !IsSpace(t[0])
  {
    var w := IntToString(n);
    if n < 0 {
      var digits := NatToString(-n);
      assert w == "-" + digits;
      assert t[0] == w[0] == '-';
      assert t[1..e] == w[1..];
      SliceChars(t, 1, e, IsDigit);
      RunEndAt(t, 1, IsDigit, e);
      DigitsOfNat(-n);
    } else {
      assert t[..e][0] == w[0];
      assert IsDigit(t[0]);
      SliceChars(t, 0, e, IsDigit);
      RunEndAt(t, 0, IsDigit, e);
      assert t[0..e] == t[..e];
      DigitsOfNat(n);
    }
  }

  /** `(?:\s*:\s*(\d))?` before the written tick, which ends the text. */
  lemma {:induction false} TickOfText(t: string, p: nat, b: bool)
    requires p + 3 <= |t| && t[p] == ' ' && t[p + 1] == ':' && t[p + 2] == ' ' && t[p + 3..] == TickText(b)
    ensures TickAt(t, p).Some? && TickAt(t, p).value.0 == b && TickAt(t, p).value.1 == |t|
    ensures !IsSpace(t[|t| - 1])
  {
    assert t[p + 3] == t[p + 3..][0];
    RunEndAt(t, p, IsSpace, p + 1);
    RunEndAt(t, p + 2, IsSpace, p + 3);
  }

  // ---------------------------------------------------------------- map size and version lines

  /** `-?\d+` at `i` in a text holding `str(n)` there, followed by a non-digit. */
  lemma {:induction false} SignedIntIn(s: string, i: nat, n: int, e: nat)
    requires e == |IntToString(n)| && i + e < |s| && s[i..i + e] == IntToString(n) && !IsDigit(s[i + e])
    ensures SignedIntAt(s, i).Some? && SignedIntAt(s, i).value.0 == n && SignedIntAt(s, i).value.1 == i + e
    ensures !IsSpace(s[i])
  {
    if n < 0 {
      var digits := NatToString(-n);
      SignSplit(s, i, e, digits);
      DigitsIn(s, i + 1, i + e, digits);
      DigitsOfNat(-n);
      SignedIntFrom(s, i, i + 1, i + e, -n);
    } else {
      var digits := NatToString(n);
      DigitsIn(s, i, i + e, digits);
      DigitsOfNat(n);
      SignedIntFrom(s, i, i, i + e, n);
    }
  }

  /** A text `'-' + digits` found at `s[i..i + e]`. */
  lemma {:induction false} SignSplit(s: string, i: nat, e: nat, digits: string)
    requires i + e <= |s| && s[i..i + e] == "-" + digits
    ensures e == |digits| + 1 && s[i] == '-' && s[i + 1..i + e] == digits
  {
    assert s[i] == s[i..i + e][0];
    assert s[i + 1..i + e] == s[i..i + e][1..];
  }

  /** A run of digits `x` found at `s[d..e]` and followed by a non-digit. */
  lemma {:induction false} DigitsIn(s: string, d: nat, e: nat, x: string)
    requires d <= e < |s| && s[d..e] == x && !IsDigit(s[e])
    requires x != [] && forall k :: 0 <= k < |x| ==> IsDigit(x[k])
    ensures d < e && RunEnd(s, d, IsDigit) == e && !IsSpace(s[d])
  {
    SliceHolds(s, d, e, x, IsDigit);
    RunEndAt(s, d, IsDigit, e);
  }

  /** `-?\d+` at `i`, given where its digits start and end and their value. */
  lemma {:induction false} SignedIntFrom(s: string, i: nat, d: nat, e: nat, v: nat)
    requires i <= d < e <= |s| && (d == i || d == i + 1)
    requires d == i + 1 <==> s[i] == '-'
    requires RunEnd(s, d, IsDigit) == e && DigitsValue(s[d..e]) == v
    ensures SignedIntAt(s, i).Some? && SignedIntAt(s, i).value.1 == e
    ensures SignedIntAt(s, i).value.0 == if d == i then v as int else -(v as int)
  {
  }

  /** The canonical map-size line `@mapsize(lo, hi)` is routed to `_parse_mapsize`
      and gives back both bounds. */
  lemma {:induction false} MapSizeReadBack(lo: int, hi: int)
    ensures var line := "@mapsize(" + (IntToString(lo) + (", " + (IntToString(hi) + ")")));
            DirectiveOf(line) == MapSizeDirective && MapSizeOf(line) == Some((lo, hi))
  {
    var a, b := IntToString(lo), IntToString(hi);
    var line := "@mapsize(" + (a + (", " + (b + ")")));
    var n, m := |a|, |b|;
    assert line[..8] == "@mapsize" && line[8] == '(';
    assert line[9..9 + n] == a;
    assert line[9 + n] == ',' && line[10 + n] == ' ';
    assert line[9 + n..] == ", " + (b + ")");
    assert line[11 + n..] == b + ")";
    assert line[11 + n..11 + n + m] == b;
    assert line[11 + n + m] == ')' && |line| == 12 + n + m;
    MapSizeRouted(line);
    MapSizeAtText(line, lo, hi, n, m);
  }

  /** The recogniser's steps on a map-size line, over its characters alone. */
  lemma {:induction false} MapSizeAtText(line: string, lo: int, hi: int, n: nat, m: nat)
    requires n == |IntToString(lo)| && m == |IntToString(hi)| && |line| == 12 + n + m
    requires line[..8] == "@mapsize" && line[8] == '('
    requires line[9..9 + n] == IntToString(lo) && line[9 + n] == ',' && line[10 + n] == ' '
    requires line[11 + n..11 + n + m] == IntToString(hi) && line[11 + n + m] == ')'
    ensures MapSizeOf(line) == Some((lo, hi))
  {
    MapSizeCiAt(line);
    MapSizeFirstBound(line, lo, n);
    MapSizeSecondBound(line, hi, 10 + n, 11 + n, m);
    MapSizeAtSteps(line, lo, hi, 9 + n, 10 + n, 11 + n, 11 + n + m);
  }

  /** A line starting `@mapsize(` is routed to `_parse_mapsize`. */
  lemma {:induction false} MapSizeRouted(line: string)
    requires 8 < |line| && line[..8] == "@mapsize"
    ensures DirectiveOf(line) == MapSizeDirective
  {
    assert Lower(line[0..8]) == "@mapsize";
    assert Lower(line)[..8] == "@mapsize";
    assert Lower(line)[1] == 'm';
  }

  /** The keyword and the parenthesis of a line starting `@mapsize(`. */
  lemma {:induction false} MapSizeCiAt(line: string)
    requires 8 < |line| && line[..8] == "@mapsize" && line[8] == '('
    ensures CiAt(line, 0, "@mapsize") && SkipSpace(line, 8) == 8
  {
    assert Lower(line[0..8]) == "@mapsize";
    RunEndAt(line, 8, IsSpace, 8);
  }

  /** The lower bound right after the opening parenthesis, up to the comma. */
  lemma {:induction false} MapSizeFirstBound(line: string, lo: int, n: nat)
    requires n == |IntToString(lo)| && 10 + n < |line|
    requires line[9..9 + n] == IntToString(lo) && line[9 + n] == ','
    ensures SkipSpace(line, 9) == 9
    ensures SignedIntAt(line, 9).Some? && SignedIntAt(line, 9).value.0 == lo && SignedIntAt(line, 9).value.1 == 9 + n
    ensures SkipSpace(line, 9 + n) == 9 + n
  {
    SignedIntIn(line, 9, lo, n);
    RunEndAt(line, 9, IsSpace, 9);
    RunEndAt(line, 9 + n, IsSpace, 9 + n);
  }

  /** The upper bound after the comma and its one space, up to the closing parenthesis. */
  lemma {:induction false} MapSizeSecondBound(line: string, hi: int, c: nat, p: nat, m: nat)
    requires p == c + 1 && m == |IntToString(hi)| && p + m < |line|
    requires line[c] == ' ' && line[p..p + m] == IntToString(hi) && line[p + m] == ')'
    ensures SkipSpace(line, c) == p
    ensures SignedIntAt(line, p).Some? && SignedIntAt(line, p).value.0 == hi && SignedIntAt(line, p).value.1 == p + m
    ensures SkipSpace(line, p + m) == p + m
  {
    SignedIntIn(line, p, hi, m);
    RunEndAt(line, c, IsSpace, p);
    RunEndAt(line, p + m, IsSpace, p + m);
  }

  /** `_parse_mapsize`'s pattern matched step by step at the start of `s`. */
  lemma {:induction false} MapSizeAtSteps(s: string, lo: int, hi: int, e1: nat, c: nat, q: nat, e2: nat)
    requires CiAt(s, 0, "@mapsize") && 8 < |s| && SkipSpace(s, 8) == 8 && s[8] == '('
    requires SkipSpace(s, 9) == 9 && SignedIntAt(s, 9).Some? && SignedIntAt(s, 9).value.0 == lo && SignedIntAt(s, 9).value.1 == e1
    requires e1 < |s| && SkipSpace(s, e1) == e1 && s[e1] == ',' && c == e1 + 1 && SkipSpace(s, c) == q
    requires SignedIntAt(s, q).Some? && SignedIntAt(s, q).value.0 == hi && SignedIntAt(s, q).value.1 == e2
    requires e2 < |s| && SkipSpace(s, e2) == e2 && s[e2] == ')'
    ensures MapSizeAt(s, 0) == Some((lo, hi))
  {
  }

  /** The canonical version line `@version(n)` is routed to `_parse_version` and
      gives back the number. */
  lemma {:induction false} VersionReadBack(v: nat)
    ensures var line := "@version(" + (NatToString(v) + ")");
            DirectiveOf(line) == VersionDirective && VersionOf(line) == Some(v as int)
  {
    var d := NatToString(v);
    var line := "@version(" + (d + ")");
    var n := |d|;
    assert line[..8] == "@version" && line[8] == '(';
    assert line[9..9 + n] == d;
    assert line[9 + n] == ')' && |line| == 10 + n;
    VersionAtText(line, v, n);
  }

  /** The recogniser's steps on a version line, over its characters alone. */
  lemma {:induction false} VersionAtText(line: string, v: nat, n: nat)
    requires n == |NatToString(v)| && |line| == 10 + n
    requires line[..8] == "@version" && line[8] == '('
    requires line[9..9 + n] == NatToString(v) && line[9 + n] == ')'
    ensures DirectiveOf(line) == VersionDirective && VersionOf(line) == Some(v as int)
  {
    assert Lower(line[0..8]) == "@version";
    assert Lower(line)[..8] == "@version";
    assert Lower(line)[1] == 'v';
    RunEndAt(line, 8, IsSpace, 8);
    SliceChars(line, 9, 9 + n, IsDigit);
    RunEndAt(line, 9, IsDigit, 9 + n);
    DigitsOfNat(v);
    assert VersionAt(line, 0) == Some(v as int);
  }
}
