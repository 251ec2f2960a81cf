/** The writer: the text `FGDSerializer` renders for a document. Includes and
    entity classes are written out, every other directive only leaves the blank
    entry that follows each element; an entity class is a header line, a `[`
    line, its inputs, outputs and properties indented by four spaces a level,
    and a `]` line. The functions read the entity classes they render and
    nothing else; the lemmas relate the text to the parser's recognisers. */
module FgdSerializer {
  import opened Wrappers
  import opened Text
  import opened FgdModel
  import opened FgdPatterns

  // ---------------------------------------------------------------- small pieces

  /** `"    " * level`. */
  function Indent(level: nat): (r: string)
    ensures |r| == 4 * level
    ensures forall i :: 0 <= i < |r| ==> r[i] == ' '
  {
    if level == 0 then [] else "    " + Indent(level - 1)
  }

  /** Text between double quotes, as the f-strings write it. */
  function Quote(s: string): string {
    "\"" + s + "\""
  }

  /** `_serialize_include_directive`. */
  function SerializeInclude(path: string): string {
    "@include " + Quote(path)
  }

  /** `_serialize_io`: type, quoted name, argument type, and the escaped
      description only when it is not empty. */
  function SerializeIO(io: IO, level: nat): string {
    Indent(level) + IoText(io)
  }

  function IoText(io: IO): string {
    var desc := Escape(io.description);
    io.ioType + (" " + (Quote(io.name) + ("(" + (io.argType + (")"
    + (if desc != [] then " : " + Quote(desc) else ""))))))
  }

  /** `_serialize_choice_item`: the value is always quoted. */
  function SerializeChoiceItem(c: ChoiceItem, level: nat): string {
    Indent(level) + ChoiceText(c)
  }

  function ChoiceText(c: ChoiceItem): string {
    Quote(c.value) + (" : " + (Quote(c.displayName)
    + (if c.description != [] then " : " + Quote(Escape(c.description)) else "")))
  }

  /** `int(flag.default_ticked)`. */
  function TickText(ticked: bool): string {
    if ticked then "1" else "0"
  }

  /** `_serialize_flag_item`: value, quoted display name and the tick; never the description. */
  function SerializeFlagItem(f: FlagItem, level: nat): string {
    Indent(level) + FlagText(f)
  }

  function FlagText(f: FlagItem): string {
    IntToString(f.value) + (" : " + (Quote(f.displayName) + (" : " + TickText(f.defaultTicked))))
  }

  // ---------------------------------------------------------------- properties

  /** The detail list of `_serialize_property`: all three quoted, or none. */
  function Details(p: Property): seq<string> {
    if p.displayName != [] || p.defaultValue != [] || p.description != [] then
      [Quote(p.displayName), Quote(p.defaultValue), Quote(Escape(p.description))]
    else []
  }

  /** The first line of a property: `name(type)`, then the details if any. */
  function PropertyHeader(p: Property, level: nat): string {
    Indent(level) + Signature(p)
  }

  function Signature(p: Property): string {
    var details := Details(p);
    p.name + ("(" + (p.propType + (")" + (if details != [] then " : " + Join(details, " : ") else ""))))
  }

  function ChoiceLines(items: seq<ChoiceItem>, level: nat): seq<string> {
    seq(|items|, i requires 0 <= i < |items| => SerializeChoiceItem(items[i], level))
  }


  function FlagLines(items: seq<FlagItem>, level: nat): seq<string> {
    seq(|items|, i requires 0 <= i < |items| => SerializeFlagItem(items[i], level))
  }


  /** Item lines between brackets at the property's own indent. */
  function Block(items: seq<string>, level: nat): seq<string> {
    [Indent(level) + "["] + items + [Indent(level) + "]"]
  }

  /** The choices or flags block, emitted only for a non-empty item list. */
  function ItemLines(p: Property, level: nat): seq<string> {
    match p.shape
    case Choices(cs) => if cs != [] then Block(ChoiceLines(cs, level + 1), level) else []
    case Flags(fs) => if fs != [] then Block(FlagLines(fs, level + 1), level) else []
    case Keyvalue => []
  }

  /** `_serialize_property`. */
  function SerializeProperty(p: Property, level: nat): seq<string> {
    [PropertyHeader(p, level)] + ItemLines(p, level)
  }

  /** The lines of several properties, one after the other. */
  function PropertyLines(ps: seq<Property>, level: nat): seq<string> {
    if ps == [] then [] else SerializeProperty(ps[0], level) + PropertyLines(ps[1..], level)
  }

  function IoLines(ios: seq<IO>, level: nat): seq<string> {
    seq(|ios|, i requires 0 <= i < |ios| => SerializeIO(ios[i], level))
  }


  // ---------------------------------------------------------------- entity classes

  /** `' '.join(map(str, c))`, also the `color(...)` text. */
  function CoordText(c: Coord): string {
    IntToString(c.0) + " " + IntToString(c.1) + " " + IntToString(c.2)
  }

  /** `color(...)`, `size(...)`, `studio("...")` and `sprite("...")`, each when set
      (an empty studio or sprite string is false and left out). */
  function AttributeParts(color: Option<Coord>, size: Option<(Coord, Coord)>,
                          studio: Option<string>, sprite: Option<string>): seq<string> {
    (match color case Some(c) => ["color(" + CoordText(c) + ")"] case None => [])
    + (match size case Some((lo, hi)) => ["size(" + CoordText(lo) + ", " + CoordText(hi) + ")"] case None => [])
    + (match studio case Some(s) => if s != [] then ["studio(" + Quote(s) + ")"] else [] case None => [])
    + (match sprite case Some(s) => if s != [] then ["sprite(" + Quote(s) + ")"] else [] case None => [])
  }

  /** `= name : "description"` with the description escaped. */
  function NamePart(name: string, description: string): string {
    "= " + name + " : " + Quote(Escape(description))
  }

  /** The parts of the header line, in order. */
  function HeaderParts(ec: EntityClass): seq<string>
    reads ec`classType, ec`name, ec`description, ec`baseClasses, ec`color, ec`size, ec`studio, ec`sprite
  {
    ["@" + ec.classType]
    + (if ec.baseClasses != [] then ["base(" + Join(ec.baseClasses, ", ") + ")"] else [])
    + AttributeParts(ec.color, ec.size, ec.studio, ec.sprite)
    + [NamePart(ec.name, ec.description)]
  }

  function SerializeHeader(ec: EntityClass): string
    reads ec`classType, ec`name, ec`description, ec`baseClasses, ec`color, ec`size, ec`studio, ec`sprite
  {
    Join(HeaderParts(ec), " ")
  }

  /** The lines of `_serialize_entity_class`. The helpers are not among the
      fields read: they are never written. */
  function ClassLines(ec: EntityClass): seq<string>
    reads ec`classType, ec`name, ec`description, ec`baseClasses, ec`color, ec`size, ec`studio, ec`sprite
    reads ec`inputs, ec`outputs, ec`properties
  {
    [SerializeHeader(ec), "["] + IoLines(ec.inputs, 1) + IoLines(ec.outputs, 1) + PropertyLines(ec.properties, 1) + ["]"]
  }

  /** `_serialize_entity_class`. */
  function SerializeEntityClass(ec: EntityClass): string
    reads ec`classType, ec`name, ec`description, ec`baseClasses, ec`color, ec`size, ec`studio, ec`sprite
    reads ec`inputs, ec`outputs, ec`properties
  {
    Join(ClassLines(ec), "\n")
  }

  // ---------------------------------------------------------------- the document

  /** What one element adds to the line list: its text, if it is an include or
      an entity class, then an empty entry. */
  function ElementLines(e: Element): seq<string>
    reads if e.Entity? then {e.ec} else {}
  {
    match e
    case Include(p) => [SerializeInclude(p), ""]
    case Entity(ec) => [SerializeEntityClass(ec), ""]
    case _ => [""]
  }

  /** The line list of `serialize_fgd`. */
  function DocumentLines(es: seq<Element>): seq<string>
    reads set e | e in es && e.Entity? :: e.ec
  {
    if es == [] then []
    else
      var front := es[..|es| - 1];
      assert forall e :: e in front ==> e in es;
      DocumentLines(front) + ElementLines(es[|es| - 1])
  }

  /** `serialize_fgd`. */
  function SerializeFgd(f: FGDFile): string
    reads f, set e | e in f.elements && e.Entity? :: e.ec
  {
    Join(DocumentLines(f.elements), "\n")
  }

  // ---------------------------------------------------------------- document order

  /** The line list follows the element order: the lines of two element lists
      one after the other are the lines of the first, then of the second. */
  lemma {:induction false} DocumentLinesAppend(a: seq<Element>, b: seq<Element>)
    ensures DocumentLines(a + b) == DocumentLines(a) + DocumentLines(b)
    decreases |b|
  {
    if b == [] {
      assert a + b == a;
    } else {
      var front := b[..|b| - 1];
      assert (a + b)[..|a + b| - 1] == a + front;
      assert (a + b)[|a + b| - 1] == b[|b| - 1];
      DocumentLinesAppend(a, front);
    }
  }

  // ---------------------------------------------------------------- includes

  /** An include line is read back by the parser: it is routed to `_parse_include`,
      needs no stripping, and gives the path it was written from, for a non-empty
      path without quotes. */
  lemma {:induction false} IncludeReadBack(path: string)
    requires path != [] && !Contains(path, '"')
    ensures var line := SerializeInclude(path);
            && IsStripped(line) && DirectiveOf(line) == IncludeDirective && IncludePath(line) == Some(path)
  {
    var line := SerializeInclude(path);
    var n := |path|;
    assert line[..8] == "@include";
    assert Lower(line)[..8] == "@include";
    assert line[8] == ' ' && line[9] == '"' && line[10 + n] == '"' && |line| == 11 + n;
    forall k | 10 <= k < 10 + n ensures line[k] != '"' {
      assert line[k] == path[k - 10];
    }
    IncludeAt(line, n);
    assert line[10..10 + n] == path;
  }

  /** The recogniser's steps on an include line, over its characters alone. */
  lemma {:induction false} IncludeAt(line: string, n: nat)
    requires |line| == 11 + n && n > 0 && Lower(line)[..8] == "@include"
    requires line[8] == ' ' && line[9] == '"' && line[10 + n] == '"'
    requires forall k :: 10 <= k < 10 + n ==> line[k] != '"'
    ensures IsStripped(line) && DirectiveOf(line) == IncludeDirective
    ensures IncludePath(line) == Some(line[10..10 + n])
  {
    assert CiStartsWith(line, "@include");
    assert Lower(line[0..8]) == Lower(line)[..8];
    RunEndAt(line, 8, IsSpace, 9);
    RunEndAt(line, 10, NotQuote, 10 + n);
  }


  // ---------------------------------------------------------------- inputs and outputs

  /** An IO line carries ` : "description"` exactly when the description is not
      empty; otherwise it ends with the `)` of the argument type. */
  lemma {:induction false} IoDescriptionShown(io: IO, level: nat)
    ensures io.description == [] <==> EndsWith(SerializeIO(io, level), ")")
    ensures io.description != [] ==> EndsWith(SerializeIO(io, level), " : " + Quote(Escape(io.description)))
  {
    var r := SerializeIO(io, level);
    EscapeNoSpaceChange(io.description);
    if io.description == [] {
      assert r[|r| - 1..] == ")";
    } else {
      var tail := " : " + Quote(Escape(io.description));
      assert r[|r| - |tail|..] == tail;
      assert r[|r| - 1] == '"';
    }
  }

  // ---------------------------------------------------------------- bracket nesting

  /** How a line moves the bracket depth: `+1` for a line that is `[` once
      stripped, `-1` for one that is `]`. */
  function BracketStep(line: string): int {
    var t := Strip(line);
    if t == "[" then 1 else if t == "]" then -1 else 0
  }

  /** The depth move of every line. */
  function Steps(lines: seq<string>): (r: seq<int>)
    ensures |r| == |lines|
  {
    seq(|lines|, i requires 0 <= i < |lines| => BracketStep(lines[i]))
  }

  /** The depth after the first `k` moves. */
  function DepthAt(ds: seq<int>, k: nat): int
    requires k <= |ds|
  {
    if k == 0 then 0 else DepthAt(ds, k - 1) + ds[k - 1]
  }

  /** The moves end at depth zero and never go below it. */
  predicate Closed(ds: seq<int>) {
    DepthAt(ds, |ds|) == 0 && forall k :: 0 <= k <= |ds| ==> DepthAt(ds, k) >= 0
  }

  /** The bracket depth after the first `k` lines. */
  function Nesting(lines: seq<string>, k: nat): int
    requires k <= |lines|
  {
    DepthAt(Steps(lines), k)
  }

  /** The lines close every bracket they open and never one they did not open. */
  predicate Balanced(lines: seq<string>) {
    Closed(Steps(lines))
  }

  /** No line is a bracket line. */
  predicate Plain(lines: seq<string>) {
    forall i :: 0 <= i < |lines| ==> BracketStep(lines[i]) == 0
  }

  /** Within the first moves the depth is theirs alone. */
  lemma {:induction false} DepthFront(a: seq<int>, b: seq<int>, k: nat)
    requires k <= |a|
    ensures DepthAt(a + b, k) == DepthAt(a, k)
  {
    if k > 0 {
      DepthFront(a, b, k - 1);
      assert (a + b)[k - 1] == a[k - 1];
    }
  }

  /** Past the first moves the depth is their final depth plus the second's. */
  lemma {:induction false} DepthBack(a: seq<int>, b: seq<int>, k: nat)
    requires k <= |b|
    ensures DepthAt(a + b, |a| + k) == DepthAt(a, |a|) + DepthAt(b, k)
  {
    if k == 0 {
      DepthFront(a, b, |a|);
    } else {
      DepthBack(a, b, k - 1);
      assert (a + b)[|a| + k - 1] == b[k - 1];
    }
  }

  lemma {:induction false} ClosedAppend(a: seq<int>, b: seq<int>)
    requires Closed(a) && Closed(b)
    ensures Closed(a + b)
  {
    DepthBack(a, b, |b|);
    forall k | 0 <= k <= |a + b| ensures DepthAt(a + b, k) >= 0 {
      if k <= |a| {
        DepthFront(a, b, k);
      } else {
        DepthBack(a, b, k - |a|);
      }
    }
  }

  lemma {:induction false} ZerosDepth(ds: seq<int>, k: nat)
    requires (forall i :: 0 <= i < |ds| ==> ds[i] == 0) && k <= |ds|
    ensures DepthAt(ds, k) == 0
  {
    if k > 0 {
      ZerosDepth(ds, k - 1);
    }
  }

  /** Moves opening one level, then closed moves, then a move closing it: the
      depth stays at least one until the last move. */
  lemma {:induction false} Enclosed(m: seq<int>)
    requires Closed(m)
    ensures var w := [1] + m + [-1];
            Closed(w) && forall k :: 1 <= k < |w| ==> DepthAt(w, k) >= 1
  {
    var w := [1] + m + [-1];
    forall k | 1 <= k < |w| ensures DepthAt(w, k) >= 1 {
      EnclosedAt(m, k);
    }
    EnclosedAt(m, |w|);
  }

  lemma {:induction false} EnclosedAt(m: seq<int>, k: nat)
    requires 1 <= k <= |m| + 2
    ensures DepthAt([1] + m + [-1], k)
            == 1 + (if k <= |m| + 1 then DepthAt(m, k - 1) else DepthAt(m, |m|) - 1)
  {
    assert [1] + m + [-1] == [1] + (m + [-1]);
    assert DepthAt([1], 1) == 1;
    DepthBack([1], m + [-1], k - 1);
    if k <= |m| + 1 {
      DepthFront(m, [-1], k - 1);
    } else {
      DepthBack(m, [-1], 1);
      assert DepthAt([-1], 1) == -1;
    }
  }

  /** A move that changes nothing, then enclosed moves. */
  lemma {:induction false} HeadEnclosed(m: seq<int>)
    requires Closed(m)
    ensures var w := [0] + ([1] + m + [-1]);
            Closed(w) && forall k :: 2 <= k < |w| ==> DepthAt(w, k) >= 1
  {
    var v := [1] + m + [-1];
    Enclosed(m);
    assert DepthAt([0], 1) == 0;
    assert Closed([0]);
    ClosedAppend([0], v);
    forall k | 2 <= k < 1 + |v| ensures DepthAt([0] + v, k) >= 1 {
      DepthBack([0], v, k - 1);
    }
  }

  lemma {:induction false} StepsAppend(a: seq<string>, b: seq<string>)
    ensures Steps(a + b) == Steps(a) + Steps(b)
  {
    forall i | 0 <= i < |a + b| ensures Steps(a + b)[i] == (Steps(a) + Steps(b))[i] {
      if i < |a| {
        assert (a + b)[i] == a[i];
      } else {
        assert (a + b)[i] == b[i - |a|];
      }
    }
  }

  lemma {:induction false} BalancedAppend(a: seq<string>, b: seq<string>)
    requires Balanced(a) && Balanced(b)
    ensures Balanced(a + b)
  {
    StepsAppend(a, b);
    ClosedAppend(Steps(a), Steps(b));
  }

  lemma {:induction false} PlainBalanced(lines: seq<string>)
    requires Plain(lines)
    ensures Balanced(lines)
  {
    var ds := Steps(lines);
    forall k | 0 <= k <= |ds| ensures DepthAt(ds, k) == 0 {
      ZerosDepth(ds, k);
    }
  }

  /** A line holding a quote or a parenthesis is not a bracket line. */
  lemma {:induction false} PlainLine(line: string, i: nat)
    requires i < |line| && (line[i] == '"' || line[i] == '(')
    ensures BracketStep(line) == 0
  {
    StripKeepsIn(line, line[i]);
  }

  /** Indented `[` and `]` lines open and close. */
  lemma {:induction false} BracketLines(level: nat)
    ensures BracketStep(Indent(level) + "[") == 1 && BracketStep(Indent(level) + "]") == -1
  {
    LStripSpaces(Indent(level), "[");
    LStripSpaces(Indent(level), "]");
  }

  /** The moves of a line, lines between, and a line. */
  lemma {:induction false} StepsAround(open: string, mid: seq<string>, close: string)
    ensures Steps([open] + mid + [close]) == [BracketStep(open)] + Steps(mid) + [BracketStep(close)]
  {
    StepsAppend([open], mid);
    StepsAppend([open] + mid, [close]);
  }

  lemma {:induction false} IoLinesPlain(ios: seq<IO>, level: nat)
    ensures Plain(IoLines(ios, level))
  {
    var r := IoLines(ios, level);
    forall i | 0 <= i < |r| ensures BracketStep(r[i]) == 0 {
      var io := ios[i];
      assert r[i][4 * level + |io.ioType| + 1] == '"';
      PlainLine(r[i], 4 * level + |io.ioType| + 1);
    }
  }

  /** A choices or flags property has a block to write. */
  predicate HasItems(shape: PropertyShape) {
    (shape.Choices? && shape.choices != []) || (shape.Flags? && shape.flags != [])
  }

  function ItemCount(shape: PropertyShape): nat {
    match shape
    case Choices(cs) => |cs|
    case Flags(fs) => |fs|
    case Keyvalue => 0
  }

  /** The item lines of a block, at `level`. */
  lemma {:induction false} ItemsPlain(shape: PropertyShape, level: nat)
    ensures shape.Choices? ==> Plain(ChoiceLines(shape.choices, level))
    ensures shape.Flags? ==> Plain(FlagLines(shape.flags, level))
  {
    if shape.Choices? {
      var r := ChoiceLines(shape.choices, level);
      forall i | 0 <= i < |r| ensures BracketStep(r[i]) == 0 {
        assert r[i][4 * level] == '"';
        PlainLine(r[i], 4 * level);
      }
    } else if shape.Flags? {
      var r := FlagLines(shape.flags, level);
      forall i | 0 <= i < |r| ensures BracketStep(r[i]) == 0 {
        var f := shape.flags[i];
        assert r[i][4 * level + |IntToString(f.value)| + 3] == '"';
        PlainLine(r[i], 4 * level + |IntToString(f.value)| + 3);
      }
    }
  }

  /** The block of a property: written exactly when there are items, a `[`
      line, one line per item one level deeper, and a `]` line, the brackets at
      the property's own indent. */
  lemma {:induction false} ItemBlockShown(p: Property, level: nat)
    ensures var b := ItemLines(p, level);
            && (b != [] <==> HasItems(p.shape))
            && (b != [] ==> |b| == ItemCount(p.shape) + 2
                            && b[0] == Indent(level) + "[" && b[|b| - 1] == Indent(level) + "]"
                            && forall i :: 0 < i < |b| - 1 ==> StartsWith(b[i], Indent(level + 1)))
  {
    var b := ItemLines(p, level);
    if HasItems(p.shape) {
      var items := ItemsOf(p.shape, level + 1);
      assert b == Block(items, level);
      ItemsIndented(p.shape, level + 1);
      forall i | 0 < i < |b| - 1 ensures StartsWith(b[i], Indent(level + 1)) {
        assert b[i] == items[i - 1];
      }
    }
  }

  /** The item lines of a non-empty block. */
  function ItemsOf(shape: PropertyShape, level: nat): (r: seq<string>)
    ensures |r| == ItemCount(shape)
  {
    match shape
    case Choices(cs) => ChoiceLines(cs, level)
    case Flags(fs) => FlagLines(fs, level)
    case Keyvalue => []
  }

  /** Every item line starts with its indent. */
  lemma {:induction false} ItemsIndented(shape: PropertyShape, level: nat)
    ensures var r := ItemsOf(shape, level);
            forall i :: 0 <= i < |r| ==> StartsWith(r[i], Indent(level))
  {
    var r := ItemsOf(shape, level);
    forall i | 0 <= i < |r| ensures StartsWith(r[i], Indent(level)) {
      if shape.Choices? {
        ConcatStartsWith(Indent(level), ChoiceText(shape.choices[i]));
      } else {
        ConcatStartsWith(Indent(level), FlagText(shape.flags[i]));
      }
    }
  }


  /** Every line of a property starts with the property's indent. */
  lemma {:induction false} PropertyIndented(p: Property, level: nat)
    ensures var r := SerializeProperty(p, level);
            forall i :: 0 <= i < |r| ==> StartsWith(r[i], Indent(level))
  {
    ItemBlockShown(p, level);
    HeaderIndented(p, level);
    IndentedLines(PropertyHeader(p, level), ItemLines(p, level), level);
  }

  lemma {:induction false} HeaderIndented(p: Property, level: nat)
    ensures StartsWith(PropertyHeader(p, level), Indent(level))
  {
    ConcatStartsWith(Indent(level), Signature(p));
  }

  /** A line at `level`, then nothing or a block at `level` whose items are one level deeper. */
  lemma {:induction false} IndentedLines(h: string, b: seq<string>, level: nat)
    requires StartsWith(h, Indent(level))
    requires b != [] ==> && |b| >= 2
                         && b[0] == Indent(level) + "[" && b[|b| - 1] == Indent(level) + "]"
                         && forall i :: 0 < i < |b| - 1 ==> StartsWith(b[i], Indent(level + 1))
    ensures forall i :: 0 <= i < |[h] + b| ==> StartsWith(([h] + b)[i], Indent(level))
  {
    var r := [h] + b;
    forall i | 0 <= i < |r| ensures StartsWith(r[i], Indent(level)) {
      if i == 0 {
        assert r[i] == h;
      } else {
        assert r[i] == b[i - 1];
        if 1 < i < |r| - 1 {
          IndentPrefix(r[i], level, level + 1);
        } else {
          assert r[i][..4 * level] == Indent(level);
        }
      }
    }
  }

  /** Every bracket a property opens it closes. */
  lemma {:induction false} PropertyBalanced(p: Property, level: nat)
    ensures Balanced(SerializeProperty(p, level))
  {
    var h := PropertyHeader(p, level);
    PropertyHeaderPlain(p, level);
    assert Plain([h]);
    PlainBalanced([h]);
    if HasItems(p.shape) {
      var items := ItemsOf(p.shape, level + 1);
      assert ItemLines(p, level) == Block(items, level);
      ItemsPlain(p.shape, level + 1);
      BlockBalanced(items, level);
      BalancedAppend([h], Block(items, level));
    } else {
      assert SerializeProperty(p, level) == [h];
    }
  }

  /** The header line of a property is no bracket line: it holds the `(` of the type. */
  lemma {:induction false} PropertyHeaderPlain(p: Property, level: nat)
    ensures BracketStep(PropertyHeader(p, level)) == 0
  {
    var h := PropertyHeader(p, level);
    assert h[4 * level + |p.name|] == '(';
    PlainLine(h, 4 * level + |p.name|);
  }

  lemma {:induction false} BlockBalanced(items: seq<string>, level: nat)
    requires Plain(items)
    ensures Balanced(Block(items, level))
  {
    PlainBalanced(items);
    BracketLines(level);
    StepsAround(Indent(level) + "[", items, Indent(level) + "]");
    Enclosed(Steps(items));
  }

  /** A line indented `n` levels is indented every smaller number of levels. */
  lemma {:induction false} IndentPrefix(x: string, m: nat, n: nat)
    requires m <= n && StartsWith(x, Indent(n))
    ensures StartsWith(x, Indent(m))
  {
    forall i | 0 <= i < 4 * m ensures x[..4 * m][i] == Indent(m)[i] {
      assert x[i] == x[..4 * n][i];
    }
  }

  lemma {:induction false} IndentSucc(level: nat)
    ensures Indent(level + 1) == Indent(level) + "    "
    decreases level
  {
    if level > 0 {
      IndentSucc(level - 1);
    }
  }

  lemma {:induction false} PropertyLinesBalanced(ps: seq<Property>, level: nat)
    ensures Balanced(PropertyLines(ps, level))
    decreases |ps|
  {
    if ps != [] {
      PropertyBalanced(ps[0], level);
      PropertyLinesBalanced(ps[1..], level);
      BalancedAppend(SerializeProperty(ps[0], level), PropertyLines(ps[1..], level));
    }
  }

  // ---------------------------------------------------------------- entity classes

  /** The header starts with `@` and the class type and ends with the name part;
      a `base(...)` part comes second exactly when there are base classes. */
  lemma {:induction false} HeaderLayout(ec: EntityClass)
    ensures StartsWith(SerializeHeader(ec), "@" + ec.classType)
    ensures EndsWith(SerializeHeader(ec), NamePart(ec.name, ec.description))
    ensures |HeaderParts(ec)| >= 2
    ensures ec.baseClasses != [] <==> StartsWith(HeaderParts(ec)[1], "base(")
    ensures ec.baseClasses != [] ==> HeaderParts(ec)[1] == "base(" + Join(ec.baseClasses, ", ") + ")"
  {
    var parts := HeaderParts(ec);
    JoinStartsWith(parts, " ");
    JoinEndsWith(parts, " ");
    AttributesNotBase(ec.color, ec.size, ec.studio, ec.sprite);
    SecondPart(ec.classType, ec.baseClasses, AttributeParts(ec.color, ec.size, ec.studio, ec.sprite),
               NamePart(ec.name, ec.description), parts);
  }

  /** The part after the class type: the `base(...)` part exactly when there are bases. */
  lemma {:induction false} SecondPart(classType: string, bases: seq<string>, attrs: seq<string>,
                                      np: string, parts: seq<string>)
    requires attrs != [] ==> attrs[0] != [] && attrs[0][0] != 'b'
    requires np != [] && np[0] == '='
    requires parts == ["@" + classType]
                      + (if bases != [] then ["base(" + Join(bases, ", ") + ")"] else [])
                      + attrs + [np]
    ensures |parts| >= 2
    ensures bases != [] <==> StartsWith(parts[1], "base(")
    ensures bases != [] ==> parts[1] == "base(" + Join(bases, ", ") + ")"
  {
    if bases == [] {
      assert parts == ["@" + classType] + (attrs + [np]);
      var second := (attrs + [np])[0];
      assert second[0] != 'b';
      NotPrefixAt(second, "base(", 0);
    } else {
      var bp := "base(" + Join(bases, ", ") + ")";
      assert parts == ["@" + classType] + ([bp] + attrs + [np]);
      assert bp == "base(" + (Join(bases, ", ") + ")");
      ConcatStartsWith("base(", Join(bases, ", ") + ")");
    }
  }

  /** No attribute part starts as a `base(...)` part does. */
  lemma {:induction false} AttributesNotBase(color: Option<Coord>, size: Option<(Coord, Coord)>,
                                             studio: Option<string>, sprite: Option<string>)
    ensures var attrs := AttributeParts(color, size, studio, sprite);
            attrs != [] ==> attrs[0] != [] && attrs[0][0] != 'b'
  {
  }

  /** A string that differs from a prefix at one position does not start with it. */
  lemma {:induction false} NotPrefixAt(s: string, p: string, i: nat)
    requires i < |s| && i < |p| && s[i] != p[i]
    ensures !StartsWith(s, p)
  {
    assert |p| <= |s| ==> s[..|p|][i] == s[i];
  }


  /** `_serialize_entity_class`: the header line, a `[` line, every input, then
      every output, then the properties, and a `]` line. */
  lemma {:induction false} ClassOrder(ec: EntityClass)
    ensures var lines, ni, no := ClassLines(ec), |ec.inputs|, |ec.outputs|;
            && |lines| >= 3 && lines[0] == SerializeHeader(ec) && lines[1] == "[" && lines[|lines| - 1] == "]"
            && (forall i :: 0 <= i < ni ==> lines[2 + i] == SerializeIO(ec.inputs[i], 1))
            && (forall i :: 0 <= i < no ==> lines[2 + ni + i] == SerializeIO(ec.outputs[i], 1))
            && 2 + ni + no <= |lines| - 1
            && lines[2 + ni + no..|lines| - 1] == PropertyLines(ec.properties, 1)
  {
    var ins, outs, props := IoLines(ec.inputs, 1), IoLines(ec.outputs, 1), PropertyLines(ec.properties, 1);
    var lines := ClassLines(ec);
    assert lines == [SerializeHeader(ec), "["] + ins + outs + props + ["]"];
    assert lines[2 + |ins| + |outs|..|lines| - 1] == props;
  }

  /** The `[` after the header is closed by the last line and by no line before
      it: every bracket of the body is closed inside the body. */
  lemma {:induction false} ClassBalanced(ec: EntityClass)
    ensures var lines := ClassLines(ec);
            && Balanced(lines)
            && forall k :: 2 <= k < |lines| ==> Nesting(lines, k) >= 1
  {
    var mid := IoLines(ec.inputs, 1) + IoLines(ec.outputs, 1) + PropertyLines(ec.properties, 1);
    assert ClassLines(ec) == [SerializeHeader(ec), "["] + mid + ["]"];
    HeaderPlain(ec);
    BodyBalanced(ec.inputs, ec.outputs, ec.properties);
    HeadWrapped(SerializeHeader(ec), mid);
  }

  /** The header line is no bracket line: it ends with a quote. */
  lemma {:induction false} HeaderPlain(ec: EntityClass)
    ensures BracketStep(SerializeHeader(ec)) == 0
  {
    var h := SerializeHeader(ec);
    HeaderLayout(ec);
    var np := NamePart(ec.name, ec.description);
    assert h[|h| - 1] == np[|np| - 1] == '"';
    PlainLine(h, |h| - 1);
  }

  /** The body of an entity class: inputs, outputs and properties. */
  lemma {:induction false} BodyBalanced(ins: seq<IO>, outs: seq<IO>, props: seq<Property>)
    ensures Balanced(IoLines(ins, 1) + IoLines(outs, 1) + PropertyLines(props, 1))
  {
    IoLinesPlain(ins, 1);
    IoLinesPlain(outs, 1);
    PlainBalanced(IoLines(ins, 1));
    PlainBalanced(IoLines(outs, 1));
    PropertyLinesBalanced(props, 1);
    BalancedAppend(IoLines(ins, 1), IoLines(outs, 1));
    BalancedAppend(IoLines(ins, 1) + IoLines(outs, 1), PropertyLines(props, 1));
  }

  /** A plain line, then balanced lines between a `[` line and a `]` line. */
  lemma {:induction false} HeadWrapped(h: string, mid: seq<string>)
    requires BracketStep(h) == 0 && Balanced(mid)
    ensures var lines := [h, "["] + mid + ["]"];
            && Balanced(lines)
            && forall k :: 2 <= k < |lines| ==> Nesting(lines, k) >= 1
  {
    var w := ["["] + mid + ["]"];
    BareBrackets();
    StepsAround("[", mid, "]");
    StepsCons(h, w);
    assert [h, "["] + mid + ["]"] == [h] + w;
    HeadEnclosed(Steps(mid));
  }

  lemma {:induction false} BareBrackets()
    ensures BracketStep("[") == 1 && BracketStep("]") == -1
  {
    BracketLines(0);
    assert Indent(0) + "[" == "[" && Indent(0) + "]" == "]";
  }

  lemma {:induction false} StepsCons(h: string, w: seq<string>)
    ensures Steps([h] + w) == [BracketStep(h)] + Steps(w)
  {
    StepsAppend([h], w);
    assert Steps([h]) == [BracketStep(h)];
  }


  /** The parser reads the name and the description back from the name part:
      its unescaping undoes the escaping, for a name of word characters and a
      description without whitespace at either end (the parser strips it). */
  lemma {:induction false} NamePartReadBack(name: string, desc: string)
    requires name != [] && forall i :: 0 <= i < |name| ==> IsWordChar(name[i])
    requires IsStripped(desc)
    ensures NameAndDescription(NamePart(name, desc)[1..]) == Some((name, desc))
  {
    var e := Escape(desc);
    var tail := " : \"" + e + "\"";
    var y := name + tail;
    var n := |name|;
    assert NamePart(name, desc)[1..] == " " + y;
    assert y[0] == name[0];
    assert y[|y| - 1] == '"';
    StripSpaceBefore(y);
    forall k | 0 <= k < n ensures IsWordChar(y[k]) {
      assert y[k] == name[k];
    }
    assert y[..n] == name && y[n..] == tail;
    QuotedTailAt(y, n, e);
    NameAndDescriptionAt(" " + y, y, n);
    UnescapeStrippedEscape(desc);
  }

  /** `NameAndDescription` on a text that strips to a word, ` : "`, and a last `"`. */
  lemma {:induction false} NameAndDescriptionAt(x: string, t: string, n: nat)
    requires Strip(x) == t && 0 < n && n + 5 <= |t|
    requires forall k :: 0 <= k < n ==> IsWordChar(t[k])
    requires t[n] == ' ' && t[n + 1] == ':' && t[n + 2] == ' ' && t[n + 3] == '"' && t[|t| - 1] == '"'
    ensures NameAndDescription(x) == Some((t[..n], Unescape(Strip(t[n + 4..|t| - 1]))))
  {
    RunEndAt(t, 0, IsWordChar, n);
    RunEndAt(t, n, IsSpace, n + 1);
    RunEndAt(t, n + 2, IsSpace, n + 3);
  }

  /** The characters of ` : "…"` at `n`. */
  lemma {:induction false} QuotedTailAt(t: string, n: nat, e: string)
    requires n <= |t| && t[n..] == " : \"" + e + "\""
    ensures n + 5 <= |t| && t[n] == ' ' && t[n + 1] == ':' && t[n + 2] == ' ' && t[n + 3] == '"' && t[|t| - 1] == '"'
    ensures t[n + 4..|t| - 1] == e
  {
    var tail := t[n..];
    assert t[n + 4..|t| - 1] == tail[4..|tail| - 1];
  }

  /** The parser strips a description and unescapes it: for a description
      without whitespace at either end this undoes the escaping. */
  lemma {:induction false} UnescapeStrippedEscape(desc: string)
    requires IsStripped(desc)
    ensures Unescape(Strip(Escape(desc))) == desc
  {
    EscapeNoSpaceChange(desc);
    StripOfStripped(Escape(desc));
    UnescapeEscape(desc);
  }

  /** One space before a stripped text is all the parser strips. */
  lemma {:induction false} StripSpaceBefore(y: string)
    requires y != [] && IsStripped(y)
    ensures Strip(" " + y) == y
  {
    LStripSpaces(" ", y);
    StripOfStripped(y);
  }
}
