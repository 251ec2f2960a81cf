/** The reader: a cursor over the preprocessed lines, the routing of `@`
    directives, and the entity-class reader. Each reading step is a method of
    `Parser` that moves the cursor and adds to the document, proved equal to a
    function that computes the same result from the line list and the cursor
    position alone; the lemmas at the end are stated about those functions. */
module FgdParser {
  import opened Wrappers
  import opened Text
  import opened FgdModel
  import opened FgdPatterns

  // ---------------------------------------------------------------- what the parser builds, as values

  /** The three lists an entity body fills. */
  datatype Body = Body(properties: seq<Property>, inputs: seq<IO>, outputs: seq<IO>)

  const EmptyBody := Body([], [], [])

  /** Everything the reader stores in a new entity class. */
  datatype ClassValue = ClassValue(classType: string, name: string, description: string,
                                   baseClasses: seq<string>, helpers: seq<(string, string)>, body: Body)

  /** One element of the document, with an entity class read as a value. */
  datatype Parsed = Directive(element: Element) | Class(value: ClassValue)

  function BodyOf(ec: EntityClass): Body
    reads ec
  {
    Body(ec.properties, ec.inputs, ec.outputs)
  }

  function ValueOf(ec: EntityClass): ClassValue
    reads ec
  {
    ClassValue(ec.classType, ec.name, ec.description, ec.baseClasses, ec.helpers, BodyOf(ec))
  }

  function ParsedOf(e: Element): Parsed
    reads if e.Entity? then {e.ec} else {}
  {
    match e
    case Entity(ec) => Class(ValueOf(ec))
    case _ => Directive(e)
  }

  /** The element list as values, in order. */
  ghost function Snapshot(es: seq<Element>): seq<Parsed>
    reads set e | e in es && e.Entity? :: e.ec
  {
    if es == [] then []
    else
      var front := es[..|es| - 1];
      assert forall e :: e in front ==> e in es;
      Snapshot(front) + [ParsedOf(es[|es| - 1])]
  }

  lemma {:induction false} SnapshotAppend(es: seq<Element>, e: Element)
    ensures Snapshot(es + [e]) == Snapshot(es) + [ParsedOf(e)]
  {
    assert (es + [e])[..|es|] == es;
  }

  /** A snapshot only depends on the classes it reads. */
  twostate lemma {:induction false} SnapshotStable(es: seq<Element>)
    requires forall e | e in es && e.Entity? :: unchanged(e.ec)
    ensures Snapshot(es) == old(Snapshot(es))
    decreases |es|
  {
    if es != [] {
      var front := es[..|es| - 1];
      assert forall e :: e in front ==> e in es;
      SnapshotStable(front);
    }
  }

  // ---------------------------------------------------------------- the reference reader: directives

  /** What `_parse_include` adds for this line. */
  function IncludeStep(line: string): seq<Parsed> {
    match IncludePath(line)
    case Some(p) => [Directive(Include(p))]
    case None => []
  }

  /** What `_parse_mapsize` adds for this line. */
  function MapSizeStep(line: string): seq<Parsed> {
    match MapSizeOf(line)
    case Some((lo, hi)) => [Directive(MapSize(lo, hi))]
    case None => []
  }

  /** What `_parse_version` adds for this line. */
  function VersionStep(line: string): seq<Parsed> {
    match VersionOf(line)
    case Some(n) => [Directive(Version(n))]
    case None => []
  }

  /** The path loop of `_parse_material_exclusion` from cursor `i`: every line up
      to a `]` line (or the end) adds its first quoted string, if it has one. */
  function MaterialPaths(lines: seq<string>, i: nat, paths: seq<string>): (r: (seq<string>, nat))
    requires i <= |lines|
    ensures i <= r.1 <= |lines|
    decreases |lines| - i
  {
    var j := AfterGet(lines, i);
    match PeekAt(lines, i)
    case None => (paths, j)
    case Some(l) =>
      if l == "]" then (paths, j)
      else MaterialPaths(lines, j, match FirstQuoted(l) case Some(p) => paths + [p] case None => paths)
  }

  /** `_parse_material_exclusion` from cursor `i`: without a `[` next, nothing is
      added and nothing is consumed. */
  function MaterialStep(lines: seq<string>, i: nat): (r: (seq<Parsed>, nat))
    requires i <= |lines|
    ensures i <= r.1 <= |lines|
  {
    if PeekAt(lines, i) == Some("[") then
      var (paths, j) := MaterialPaths(lines, AfterGet(lines, i), []);
      ([Directive(MaterialExclusion(paths))], j)
    else ([], i)
  }

  /** `_parse_autovisgroup_block` from cursor `i`: the children and the cursor after them. */
  function VisBlock(lines: seq<string>, i: nat): (r: (seq<VisChild>, nat))
    requires i <= |lines|
    ensures i <= r.1 <= |lines|
    decreases |lines| - i, 1
  {
    if PeekAt(lines, i) != Some("[") then ([], i)
    else VisItems(lines, AfterGet(lines, i), [])
  }

  /** The loop of `_parse_autovisgroup_block` from cursor `i`, with the children so far. */
  function VisItems(lines: seq<string>, i: nat, acc: seq<VisChild>): (r: (seq<VisChild>, nat))
    requires i <= |lines|
    ensures i <= r.1 <= |lines|
    decreases |lines| - i, 0
  {
    var j := AfterGet(lines, i);
    match PeekAt(lines, i)
    case None => (acc, j)
    case Some(l) =>
      if l == "]" then (acc, j)
      else
        match FirstQuoted(l)
        case None => VisItems(lines, j, acc)
        case Some(name) =>
          if PeekAt(lines, j) == Some("[") then
            var (kids, k) := VisBlock(lines, j);
            VisItems(lines, k, acc + [SubGroup(name, kids)])
          else VisItems(lines, j, acc + [EntityName(name)])
  }

  /** `_parse_autovisgroup` for this line with the cursor at `i`. */
  function AutoVisStep(lines: seq<string>, i: nat, line: string): (r: (seq<Parsed>, nat))
    requires i <= |lines|
    ensures i <= r.1 <= |lines|
  {
    match AutoVisGroupName(line)
    case Some(p) =>
      var (kids, j) := VisBlock(lines, i);
      ([Directive(AutoVisGroup(p, kids))], j)
    case None => ([], i)
  }

  // ---------------------------------------------------------------- the reference reader: entity bodies

  /** `add_io` on the body lists. */
  function AddIo(b: Body, io: IO): Body {
    if io.ioType == "input" then b.(inputs := b.inputs + [io])
    else if io.ioType == "output" then b.(outputs := b.outputs + [io])
    else b
  }

  /** The item list a new property of this kind starts with. */
  function EmptyShape(k: PropertyKind): PropertyShape {
    match k
    case ChoicesKind => Choices([])
    case FlagsKind => Flags([])
    case KeyvalueKind => Keyvalue
  }

  /** `_parse_choice_item` or `_parse_flag_item`: a recognised item is appended,
      any other line changes nothing. */
  function AddItem(shape: PropertyShape, line: string): PropertyShape {
    match shape
    case Choices(cs) => (match ChoiceItemOf(line) case Some(c) => Choices(cs + [c]) case None => shape)
    case Flags(fs) => (match FlagItemOf(line) case Some(f) => Flags(fs + [f]) case None => shape)
    case Keyvalue => shape
  }

  /** The item loop of `_parse_choices_or_flags_block` from cursor `i`: it stops,
      without consuming it, at a `]` line or at the end. */
  function ItemsFrom(lines: seq<string>, i: nat, shape: PropertyShape): (r: (PropertyShape, nat))
    requires i <= |lines|
    ensures i <= r.1 <= |lines|
    decreases |lines| - i
  {
    match PeekAt(lines, i)
    case None => (shape, i)
    case Some(l) => if l == "]" then (shape, i) else ItemsFrom(lines, AfterGet(lines, i), AddItem(shape, l))
  }

  /** `_parse_choices_or_flags_block` from cursor `i`. */
  function ItemBlock(lines: seq<string>, i: nat, shape: PropertyShape): (r: (PropertyShape, nat))
    requires i <= |lines|
    ensures i <= r.1 <= |lines|
  {
    if PeekAt(lines, i) != Some("[") then (shape, i)
    else
      var (filled, j) := ItemsFrom(lines, AfterGet(lines, i), shape);
      (filled, if PeekAt(lines, j) == Some("]") then AfterGet(lines, j) else j)
  }

  /** `_parse_entity_line` with the cursor at `i`: an input or output, a property
      (reading its item block when it has one), or nothing. */
  function EntityLine(lines: seq<string>, i: nat, line: string, b: Body): (r: (Body, nat))
    requires i <= |lines|
    ensures i <= r.1 <= |lines|
  {
    var t := Strip(line);
    if t == [] then (b, i) else StrippedLineAt(lines, i, t, b)
  }

  /** `_parse_entity_line` for the non-empty stripped line `t`. */
  function StrippedLineAt(lines: seq<string>, i: nat, t: string, b: Body): (r: (Body, nat))
    requires i <= |lines|
    ensures i <= r.1 <= |lines|
  {
    match IoLine(t)
    case Some(io) => (AddIo(b, io), i)
    case None => PropertyLineAt(lines, i, t, b)
  }

  /** The property branch of `_parse_entity_line` for the stripped line `t`:
      a line that is not a property declaration adds nothing. */
  function PropertyLineAt(lines: seq<string>, i: nat, t: string, b: Body): (r: (Body, nat))
    requires i <= |lines|
    ensures i <= r.1 <= |lines|
  {
    match PropLine(t)
    case None => (b, i)
    case Some(h) => WithPropertyAt(lines, i, h, b)
  }

  /** The body with the property of header `h` appended, and the cursor after its item block. */
  function WithPropertyAt(lines: seq<string>, i: nat, h: PropHeader, b: Body): (r: (Body, nat))
    requires i <= |lines|
    ensures i <= r.1 <= |lines|
    ensures r.0.inputs == b.inputs && r.0.outputs == b.outputs
    ensures |r.0.properties| == |b.properties| + 1 && r.0.properties[..|b.properties|] == b.properties
  {
    var (prop, j) := PropertyAt(lines, i, h);
    (b.(properties := b.properties + [prop]), j)
  }

  /** The property a property line describes, with the cursor at `i`: its item
      block is read when the line ends in `=` or a `[` line is next, and only for
      the choices and flags kinds. */
  function PropertyAt(lines: seq<string>, i: nat, h: PropHeader): (r: (Property, nat))
    requires i <= |lines|
    ensures i <= r.1 <= |lines|
  {
    var isBlock := EndsWith(Strip(h.rest), "=") || PeekAt(lines, i) == Some("[");
    var d := PropDetails(h.rest);
    var kind := PropertyKindOf(h.rawType);
    var (shape, j) := if kind != KeyvalueKind && isBlock then ItemBlock(lines, i, EmptyShape(kind))
                      else (EmptyShape(kind), i);
    (Property(h.name, h.rawType, d[0], d[1], d[2], h.readonly, h.report, shape), j)
  }

  /** The line loop of `_parse_entity_content` from cursor `i`. */
  function ContentLines(lines: seq<string>, i: nat, b: Body): (r: (Body, nat))
    requires i <= |lines|
    ensures i <= r.1 <= |lines|
    decreases |lines| - i
  {
    match PeekAt(lines, i)
    case None => (b, i)
    case Some(l) =>
      if l == "]" then (b, i)
      else
        var (b', j) := EntityLine(lines, AfterGet(lines, i), l, b);
        ContentLines(lines, j, b')
  }

  /** An optional `[`, the line loop, and an optional `]`. */
  function ContentBlock(lines: seq<string>, i: nat, b: Body): (r: (Body, nat))
    requires i <= |lines|
    ensures i <= r.1 <= |lines|
  {
    var (b2, i2) := ContentLines(lines, OpenAt(lines, i), b);
    (b2, CloseAt(lines, i2))
  }

  /** The cursor after a `[` that is the next meaningful line, if it is. */
  function OpenAt(lines: seq<string>, i: nat): (r: nat)
    requires i <= |lines|
    ensures i <= r <= |lines|
  {
    if PeekAt(lines, i) == Some("[") then AfterGet(lines, i) else i
  }

  /** `_parse_entity_content` with the text after the header's `[` (if any): text
      ending in `]` is a whole one-line body; other text is the first body line. */
  function EntityContent(lines: seq<string>, i: nat, remainder: Option<string>, b: Body): (r: (Body, nat))
    requires i <= |lines|
    ensures i <= r.1 <= |lines|
  {
    var rem := RemainderText(remainder);
    if rem != [] && EndsWith(rem, "]") then SameLineBody(lines, i, rem, b)
    else
      var (b1, i1) := LeadLine(lines, i, rem, b);
      ContentBlock(lines, i1, b1)
  }

  /** The header's text after its `[`, stripped; nothing when there was none. */
  function RemainderText(remainder: Option<string>): string {
    match remainder case Some(t) => Strip(t) case None => []
  }

  /** A body closed on the header's own line: what lies before the `]`, if anything. */
  function SameLineBody(lines: seq<string>, i: nat, rem: string, b: Body): (r: (Body, nat))
    requires i <= |lines| && rem != []
    ensures i <= r.1 <= |lines|
  {
    var onLine := Strip(rem[..|rem| - 1]);
    if onLine != [] then EntityLine(lines, i, onLine, b) else (b, i)
  }

  /** The header's remainder, when there is one, is the body's first line. */
  function LeadLine(lines: seq<string>, i: nat, rem: string, b: Body): (r: (Body, nat))
    requires i <= |lines|
    ensures i <= r.1 <= |lines|
  {
    if rem != [] then EntityLine(lines, i, rem, b) else (b, i)
  }

  // ---------------------------------------------------------------- the reference reader: entity headers

  /** The header loop of `_parse_entity_class` over raw lines from `i`: lines are
      taken up to one that starts with `[` once stripped (left in place) or one
      that holds a `[` (taken, and the body has started). */
  function HeaderFrom(lines: seq<string>, i: nat, taken: seq<string>): (r: (seq<string>, nat, bool))
    requires i <= |lines|
    ensures i <= r.1 <= |lines|
    decreases |lines| - i
  {
    if i == |lines| then (taken, i, false)
    else if StartsWith(Strip(lines[i]), "[") then (taken, i, false)
    else if '[' in lines[i] then (taken + [lines[i]], i + 1, true)
    else HeaderFrom(lines, i + 1, taken + [lines[i]])
  }

  /** The first `=` at paren and brace depth zero, at or after `i`. */
  function FirstTopLevelEquals(s: string, i: nat): (r: Option<nat>)
    requires i <= |s|
    ensures r.Some? ==> i <= r.value && TopLevelEqualsAt(s, r.value)
    ensures r.Some? ==> forall k :: i <= k < r.value ==> !TopLevelEqualsAt(s, k)
    ensures r.None? ==> forall k :: i <= k < |s| ==> !TopLevelEqualsAt(s, k)
    decreases |s| - i
  {
    if i == |s| then None
    else if TopLevelEqualsAt(s, i) then Some(i)
    else FirstTopLevelEquals(s, i + 1)
  }

  /** The header text before the first `[` and the stripped text after it. */
  function SplitHeader(full: string): (r: (string, Option<string>)) {
    var b := IndexOf(full, '[');
    (full[..b], if b < |full| then Some(Strip(full[b + 1..])) else None)
  }

  /** What `_parse_entity_class` does once the class is added, from cursor `j`:
      a remainder that is just `]` ends the class; otherwise the body is read
      when it has started or a `[` is next, and a stray `]` after it is consumed. */
  function EntityBodyAt(lines: seq<string>, j: nat, started: bool, remainder: Option<string>): (r: (Body, nat))
    requires j <= |lines|
    ensures j <= r.1 <= |lines|
  {
    if RemainderText(remainder) == "]" then (EmptyBody, j)
    else
      var (body, k) := BodyContentAt(lines, j, started, remainder);
      (body, CloseAt(lines, k))
  }

  /** The body of `_parse_entity_class`, read when it has started or a `[` is next. */
  function BodyContentAt(lines: seq<string>, j: nat, started: bool, remainder: Option<string>): (r: (Body, nat))
    requires j <= |lines|
    ensures j <= r.1 <= |lines|
  {
    if started || PeekAt(lines, j) == Some("[") then EntityContent(lines, j, remainder, EmptyBody)
    else (EmptyBody, j)
  }

  /** The cursor after a `]` that is the next meaningful line, if it is. */
  function CloseAt(lines: seq<string>, k: nat): (r: nat)
    requires k <= |lines|
    ensures k <= r <= |lines|
  {
    if PeekAt(lines, k) == Some("]") then AfterGet(lines, k) else k
  }

  /** The class the header text describes, without its body: `None` when there
      is no top-level `=`, no name after it, or no `@type` before it. */
  function HeaderClass(header: string): (r: Option<ClassValue>)
    ensures r.Some? ==> r.value.name != [] && EndsWith(r.value.classType, "Class")
  {
    match FirstTopLevelEquals(header, 0)
    case None => None
    case Some(q) => ClassAround(header, q)
  }

  /** The class of a header whose top-level `=` is at `q`. */
  function ClassAround(header: string, q: nat): (r: Option<ClassValue>)
    requires q < |header|
    ensures r.Some? ==> r.value.name != [] && EndsWith(r.value.classType, "Class")
  {
    match NameAndDescription(header[q + 1..])
    case None => None
    case Some((name, desc)) =>
      match ClassTypeAndHelpers(header[..q])
      case None => None
      case Some((raw, hs)) => Some(ClassFrom(raw, hs, name, desc))
  }

  /** The class built from the raw `@type`, the helper text and the name and description. */
  function ClassFrom(raw: string, hs: string, name: string, desc: string): (r: ClassValue)
    ensures r.name == name && r.description == desc && EndsWith(r.classType, "Class")
    ensures r.body == EmptyBody
  {
    var (helpers, bases) := HelperScan(hs, 0, [], []);
    ClassValue(NormalizeClassType(raw), name, desc, bases, helpers, EmptyBody)
  }

  /** The header lines of `_parse_entity_class`, the cursor after them, and
      whether a `[` was seen on one of them. */
  function HeaderLines(lines: seq<string>, i: nat, firstLine: string): (r: (seq<string>, nat, bool))
    requires i <= |lines|
    ensures i <= r.1 <= |lines|
  {
    if '[' in firstLine then ([firstLine], i, true) else HeaderFrom(lines, i, [firstLine])
  }

  /** The header part of `_parse_entity_class`: the class it describes, the
      cursor after the header, whether the body has started, and the text after `[`. */
  function ClassHeaderAt(lines: seq<string>, i: nat, firstLine: string): (r: (Option<ClassValue>, nat, bool, Option<string>))
    requires i <= |lines|
    ensures i <= r.1 <= |lines|
  {
    var (taken, j, started) := HeaderLines(lines, i, firstLine);
    var (header, remainder) := SplitHeader(Join(taken, "\n"));
    (HeaderClass(header), j, started, remainder)
  }

  /** `_parse_entity_class` for `firstLine` with the cursor at `i`: the class it
      adds, if any, and the cursor after it. Lines of a header that fails to
      parse stay consumed. */
  function EntityStep(lines: seq<string>, i: nat, firstLine: string): (r: (Option<ClassValue>, nat))
    requires i <= |lines|
    ensures i <= r.1 <= |lines|
  {
    var (c, j, started, remainder) := ClassHeaderAt(lines, i, firstLine);
    match c
    case None => (None, j)
    case Some(v) =>
      var (body, k) := EntityBodyAt(lines, j, started, remainder);
      (Some(v.(body := body)), k)
  }

  // ---------------------------------------------------------------- the reference reader: the document

  /** `_parse_directive` for a line with the cursor at `i` (just after the line). */
  function DirectiveStep(lines: seq<string>, i: nat, line: string): (r: (seq<Parsed>, nat))
    requires i <= |lines|
    ensures i <= r.1 <= |lines|
  {
    match DirectiveOf(line)
    case IncludeDirective => (IncludeStep(line), i)
    case MapSizeDirective => (MapSizeStep(line), i)
    case VersionDirective => (VersionStep(line), i)
    case MaterialExclusionDirective => MaterialStep(lines, i)
    case AutoVisGroupDirective => AutoVisStep(lines, i, line)
    case EntityDirective =>
      var (c, j) := EntityStep(lines, i, line);
      (match c case Some(v) => [Class(v)] case None => [], j)
    case UnknownDirective => ([], i)
  }

  /** The top-level loop of `parse_fgd_file` from cursor `i`, with the elements so far. */
  function DocFrom(lines: seq<string>, i: nat, acc: seq<Parsed>): seq<Parsed>
    requires i <= |lines|
    decreases |lines| - i
  {
    if i == |lines| then acc
    else
      match PeekAt(lines, i)
      case None => acc
      case Some(l) =>
        var (es, k) := TopLineStep(lines, AfterGet(lines, i), l);
        DocFrom(lines, k, acc + es)
  }

  /** One line of the top-level loop, with the cursor `j` just after it: a line
      starting with `@` is a directive, any other line is skipped. */
  function TopLineStep(lines: seq<string>, j: nat, l: string): (r: (seq<Parsed>, nat))
    requires j <= |lines|
    ensures j <= r.1 <= |lines|
  {
    if StartsWith(Lower(l), "@") then DirectiveStep(lines, j, l) else ([], j)
  }

  /** The document `parse_fgd_file` builds from a file's text. */
  function ParseText(content: string): seq<Parsed> {
    DocFrom(Preprocess(content), 0, [])
  }

  // ---------------------------------------------------------------- the parser object

  /** `FGDParser`: the document being built, the lines, and the cursor `current_line_idx`. */
  class Parser {
    var doc: FGDFile
    var lines: seq<string>
    var idx: nat

    /** The cursor is within the lines and the document's indexes are in step. */
    ghost predicate Valid()
      reads this, doc, (set e | e in doc.elements && e.Entity? :: e.ec)`name
      reads (set e | e in doc.elements && e.Entity? :: e.ec)`classType
    {
      idx <= |lines| && doc.Valid()
    }

    constructor ()
      ensures Valid() && fresh(doc) && doc.elements == [] && lines == [] && idx == 0
    {
      doc := new FGDFile();
      lines := [];
      idx := 0;
    }

    /** `parse_fgd_file` once the file's text has been read: a fresh document, the
        preprocessed lines, and the top-level loop, which hands every line that
        starts with `@` to `ParseDirective` and skips the others. */
    method ParseContent(content: string) returns (file: FGDFile)
      modifies this
      ensures Valid() && file == doc && fresh(doc)
      ensures lines == Preprocess(content)
      ensures Snapshot(doc.elements) == ParseText(content)
    {
      doc := new FGDFile();
      lines := Preprocess(content);
      idx := 0;
      assert Snapshot(doc.elements) == [];
      while idx < |lines|
        invariant Valid() && fresh(doc) && lines == Preprocess(content)
        invariant DocFrom(lines, idx, Snapshot(doc.elements)) == ParseText(content)
        decreases |lines| - idx
      {
        label step:
        var line := Get();
        doc.ValidStable@step();
        if line.None? {
          break;
        }
        ParseTopLine(line.value);
      }
      return doc;
    }

    /** One line of the top-level loop of `parse_fgd_file`. */
    method ParseTopLine(line: string)
      requires Valid()
      modifies this`idx, doc
      ensures Valid()
      ensures Snapshot(doc.elements) == old(Snapshot(doc.elements)) + TopLineStep(lines, old(idx), line).0
      ensures idx == TopLineStep(lines, old(idx), line).1
    {
      if StartsWith(Lower(line), "@") {
        ParseDirective(line);
      }
    }

    /** `_peek_next_meaningful_line`: the next line that is neither blank nor a
        `//` comment, stripped; the cursor does not move. */
    method Peek() returns (r: Option<string>)
      requires idx <= |lines|
      ensures r == PeekAt(lines, idx)
    {
      var i := idx;
      while i < |lines|
        invariant idx <= i <= |lines|
        invariant NextMeaningful(lines, idx) == NextMeaningful(lines, i)
        decreases |lines| - i
      {
        var line := Strip(lines[i]);
        if line != [] && !StartsWith(line, "//") {
          return Some(line);
        }
        i := i + 1;
      }
      return None;
    }

    /** `_get_next_meaningful_line`: the line `Peek` would return, with the cursor
        moved past it (to the end when there is none). */
    method Get() returns (r: Option<string>)
      requires idx <= |lines|
      modifies this`idx
      ensures r == PeekAt(lines, old(idx)) && idx == AfterGet(lines, old(idx))
    {
      while idx < |lines|
        invariant old(idx) <= idx <= |lines|
        invariant NextMeaningful(lines, old(idx)) == NextMeaningful(lines, idx)
        decreases |lines| - idx
      {
        var line := Strip(lines[idx]);
        idx := idx + 1;
        if line != [] && !StartsWith(line, "//") {
          return Some(line);
        }
      }
      return None;
    }

    /** `add_element`, with what it does to the element list stated as values. */
    method Add(e: Element)
      requires Valid()
      modifies doc
      ensures Valid()
      ensures Snapshot(doc.elements) == old(Snapshot(doc.elements)) + [ParsedOf(e)]
      ensures doc.elements == old(doc.elements) + [e]
    {
      ghost var es := doc.elements;
      ghost var before := Snapshot(es);
      label pre:
      doc.AddElement(e);
      doc.AppendValid@pre(e);
      assert doc.elements == es + [e];
      SnapshotStable(es);
      SnapshotAppend(es, e);
      assert Snapshot(doc.elements) == before + [ParsedOf(e)];
    }

    /** `_parse_directive`: routes the line by its lower-cased prefix. */
    method ParseDirective(line: string)
      requires Valid()
      modifies this`idx, doc
      ensures Valid()
      ensures Snapshot(doc.elements) == old(Snapshot(doc.elements)) + DirectiveStep(lines, old(idx), line).0
      ensures idx == DirectiveStep(lines, old(idx), line).1
    {
      match DirectiveOf(line)
      case IncludeDirective => ParseInclude(line);
      case MapSizeDirective => ParseMapSize(line);
      case VersionDirective => ParseVersion(line);
      case MaterialExclusionDirective => ParseMaterialExclusion();
      case AutoVisGroupDirective => ParseAutoVisGroup(line);
      case EntityDirective => ParseEntityClass(line);
      case UnknownDirective =>
    }

    /** `_parse_include`. */
    method ParseInclude(line: string)
      requires Valid()
      modifies doc
      ensures Valid()
      ensures Snapshot(doc.elements) == old(Snapshot(doc.elements)) + IncludeStep(line)
    {
      var path := IncludePath(line);
      if path.Some? {
        Add(Include(path.value));
      }
    }

    /** `_parse_mapsize`. */
    method ParseMapSize(line: string)
      requires Valid()
      modifies doc
      ensures Valid()
      ensures Snapshot(doc.elements) == old(Snapshot(doc.elements)) + MapSizeStep(line)
    {
      var bounds := MapSizeOf(line);
      if bounds.Some? {
        Add(MapSize(bounds.value.0, bounds.value.1));
      }
    }

    /** `_parse_version`. */
    method ParseVersion(line: string)
      requires Valid()
      modifies doc
      ensures Valid()
      ensures Snapshot(doc.elements) == old(Snapshot(doc.elements)) + VersionStep(line)
    {
      var n := VersionOf(line);
      if n.Some? {
        Add(Version(n.value));
      }
    }

    /** `_parse_material_exclusion`. */
    method ParseMaterialExclusion()
      requires Valid()
      modifies this`idx, doc
      ensures Valid()
      ensures Snapshot(doc.elements) == old(Snapshot(doc.elements)) + MaterialStep(lines, old(idx)).0
      ensures idx == MaterialStep(lines, old(idx)).1
    {
      label start:
      ghost var s0 := Snapshot(doc.elements);
      var next := Peek();
      if next == Some("[") {
        var open := Get();
        var paths := ReadMaterialPaths();
        doc.ValidStable@start();
        assert Snapshot(doc.elements) == s0;
        Add(MaterialExclusion(paths));
      }
    }

    /** The path loop of `_parse_material_exclusion`, after its `[`. */
    method ReadMaterialPaths() returns (paths: seq<string>)
      requires idx <= |lines|
      modifies this`idx
      ensures (paths, idx) == MaterialPaths(lines, old(idx), [])
    {
      paths := [];
      while true
        invariant old(idx) <= idx <= |lines|
        invariant MaterialPaths(lines, idx, paths) == MaterialPaths(lines, old(idx), [])
        decreases |lines| - idx
      {
        var line := Get();
        if line.None? || line.value == "]" {
          break;
        }
        var m := FirstQuoted(line.value);
        if m.Some? {
          paths := paths + [m.value];
        }
      }
    }

    /** `_parse_autovisgroup`. */
    method ParseAutoVisGroup(line: string)
      requires Valid()
      modifies this`idx, doc
      ensures Valid()
      ensures Snapshot(doc.elements) == old(Snapshot(doc.elements)) + AutoVisStep(lines, old(idx), line).0
      ensures idx == AutoVisStep(lines, old(idx), line).1
    {
      label start:
      ghost var s0 := Snapshot(doc.elements);
      var name := AutoVisGroupName(line);
      if name.Some? {
        var children := ParseVisBlock();
        doc.ValidStable@start();
        assert Snapshot(doc.elements) == s0;
        Add(AutoVisGroup(name.value, children));
      }
    }

    /** `_parse_autovisgroup_block`: a quoted name followed by a `[` line opens a
        nested group, read by a recursive call. */
    method ParseVisBlock() returns (content: seq<VisChild>)
      requires idx <= |lines|
      modifies this`idx
      ensures (content, idx) == VisBlock(lines, old(idx))
      decreases |lines| - idx
    {
      content := [];
      var next := Peek();
      if next != Some("[") {
        return;
      }
      var open := Get();
      ghost var start := idx;
      while true
        invariant old(idx) < start <= idx <= |lines|
        invariant VisItems(lines, idx, content) == VisItems(lines, start, [])
        decreases |lines| - idx
      {
        var p := Peek();
        if p == Some("]") {
          break;
        }
        var line := Get();
        if line.None? {
          break;
        }
        var m := FirstQuoted(line.value);
        if m.None? {
          continue;
        }
        var q := Peek();
        if q == Some("[") {
          var kids := ParseVisBlock();
          content := content + [SubGroup(m.value, kids)];
        } else {
          content := content + [EntityName(m.value)];
        }
      }
      var close := Get();
    }

    /** The header lines of `_parse_entity_class`: the first line alone when it
        holds a `[`, otherwise the raw lines the header loop takes. */
    method ReadHeader(firstLine: string) returns (taken: seq<string>, started: bool)
      requires idx <= |lines|
      modifies this`idx
      ensures (taken, idx, started) == HeaderLines(lines, old(idx), firstLine)
    {
      taken := [firstLine];
      started := '[' in firstLine;
      if started {
        return;
      }
      while idx < |lines|
        invariant old(idx) <= idx <= |lines|
        invariant HeaderFrom(lines, idx, taken) == HeaderFrom(lines, old(idx), [firstLine])
        decreases |lines| - idx
      {
        var next := lines[idx];
        if StartsWith(Strip(next), "[") {
          break;
        }
        taken := taken + [next];
        idx := idx + 1;
        if '[' in next {
          started := true;
          break;
        }
      }
    }

    /** `_parse_entity_class`: header, class, then body. */
    method ParseEntityClass(firstLine: string)
      requires Valid()
      modifies this`idx, doc
      ensures Valid()
      ensures Snapshot(doc.elements) == old(Snapshot(doc.elements))
                                        + (match EntityStep(lines, old(idx), firstLine).0
                                           case Some(v) => [Class(v)] case None => [])
      ensures idx == EntityStep(lines, old(idx), firstLine).1
    {
      ghost var s0 := Snapshot(doc.elements);
      var c, started, remainder := ReadClassHeader(firstLine);
      if c.Some? {
        assert Snapshot(doc.elements) == s0;
        AddEntityClass(c.value, started, remainder);
      }
    }

    /** Filling in the body of the last class keeps the indexes and changes only
        that class's value in the snapshot. */
    twostate lemma {:induction false} BodyFilled(entity: EntityClass)
      requires old(doc) == doc && old(doc.Valid()) && unchanged(doc)
      requires doc.elements != [] && doc.elements[|doc.elements| - 1] == Entity(entity)
      requires forall e | e in doc.elements[..|doc.elements| - 1] && e.Entity? :: unchanged(e.ec)
      requires unchanged(entity`name, entity`classType, entity`description, entity`baseClasses, entity`helpers)
      ensures doc.Valid()
      ensures Snapshot(doc.elements) == old(Snapshot(doc.elements[..|doc.elements| - 1]))
                                        + [Class(old(ValueOf(entity)).(body := BodyOf(entity)))]
    {
      var es := doc.elements[..|doc.elements| - 1];
      assert doc.elements == es + [Entity(entity)];
      doc.ValidStable();
      SnapshotStable(es);
      SnapshotAppend(es, Entity(entity));
      assert ValueOf(entity) == old(ValueOf(entity)).(body := BodyOf(entity));
    }

    /** The class `v` added to the document, then its body read into it. The
        class is in the document before its body is read. */
    method AddEntityClass(v: ClassValue, started: bool, remainder: Option<string>)
      requires Valid()
      requires v.name != []
      modifies this`idx, doc
      ensures Valid()
      ensures Snapshot(doc.elements) == old(Snapshot(doc.elements))
                                        + [Class(v.(body := EntityBodyAt(lines, old(idx), started, remainder).0))]
      ensures idx == EntityBodyAt(lines, old(idx), started, remainder).1
    {
      var entity := AddClass(v);
      FillBody(entity, started, remainder, old(doc.elements), old(Snapshot(doc.elements)));
    }

    /** The body of the class just added, read into it in place. */
    method FillBody(entity: EntityClass, started: bool, remainder: Option<string>, ghost es: seq<Element>, ghost front: seq<Parsed>)
      requires Valid()
      requires doc.elements == es + [Entity(entity)]
      requires forall e | e in es && e.Entity? :: e.ec != entity
      requires front == Snapshot(es)
      requires BodyOf(entity) == EmptyBody
      modifies this`idx, entity`properties, entity`inputs, entity`outputs
      ensures Valid()
      ensures Snapshot(doc.elements) == front + [Class(old(ValueOf(entity)).(body := EntityBodyAt(lines, old(idx), started, remainder).0))]
      ensures idx == EntityBodyAt(lines, old(idx), started, remainder).1
    {
      label start:
      assert doc.elements[..|doc.elements| - 1] == es;
      ParseEntityBody(entity, started, remainder);
      BodyFilled@start(entity);
    }

    /** A new class of value `v`, with an empty body, added to the document. */
    method AddClass(v: ClassValue) returns (entity: EntityClass)
      requires Valid()
      requires v.name != []
      modifies doc
      ensures Valid() && doc.elements == old(doc.elements) + [Entity(entity)]
      ensures fresh(entity) && ValueOf(entity) == v.(body := EmptyBody)
      ensures Snapshot(old(doc.elements)) == old(Snapshot(doc.elements))
      ensures forall e | e in old(doc.elements) && e.Entity? :: e.ec != entity
    {
      ghost var es := doc.elements;
      entity := new EntityClass(v.classType, v.name, v.description, v.baseClasses, [], [], [], v.helpers);
      assert forall e | e in es && e.Entity? :: e.ec != entity;
      Add(Entity(entity));
      SnapshotStable(es);
    }

    /** The header part of `_parse_entity_class`: its lines are read, split at
        the first `[`, and the text before it is checked. */
    method ReadClassHeader(firstLine: string) returns (c: Option<ClassValue>, started: bool, remainder: Option<string>)
      requires idx <= |lines|
      modifies this`idx
      ensures (c, idx, started, remainder) == ClassHeaderAt(lines, old(idx), firstLine)
      ensures idx <= |lines| && (c.Some? ==> c.value.name != [])
    {
      var taken;
      taken, started := ReadHeader(firstLine);
      var header;
      header, remainder := SplitHeader(Join(taken, "\n")).0, SplitHeader(Join(taken, "\n")).1;
      c := ParseHeader(header);
    }

    /** The rest of `_parse_entity_class` once the class is in the document: the
        body is read into it, and a stray `]` after it is consumed. */
    method ParseEntityBody(entity: EntityClass, started: bool, remainder: Option<string>)
      requires idx <= |lines|
      requires BodyOf(entity) == EmptyBody
      modifies this`idx, entity`properties, entity`inputs, entity`outputs
      ensures (BodyOf(entity), idx) == EntityBodyAt(lines, old(idx), started, remainder)
    {
      if RemainderText(remainder) == "]" {
        return;
      }
      ParseBodyContent(entity, started, remainder);
      SkipClose();
    }

    /** The body read into `entity` when it has started or a `[` is next. */
    method ParseBodyContent(entity: EntityClass, started: bool, remainder: Option<string>)
      requires idx <= |lines|
      requires BodyOf(entity) == EmptyBody
      modifies this`idx, entity`properties, entity`inputs, entity`outputs
      ensures (BodyOf(entity), idx) == BodyContentAt(lines, old(idx), started, remainder)
    {
      var next := Peek();
      if started || next == Some("[") {
        ParseEntityContent(entity, remainder);
      }
    }

    /** A `]` that is the next meaningful line is consumed. */
    method SkipClose()
      requires idx <= |lines|
      modifies this`idx
      ensures idx == CloseAt(lines, old(idx))
    {
      var after := Peek();
      if after == Some("]") {
        var close := Get();
      }
    }

    /** The header checks of `_parse_entity_class`: the top-level `=`, the name
        and description after it, the class type and helpers before it. */
    method ParseHeader(header: string) returns (c: Option<ClassValue>)
      ensures c == HeaderClass(header)
    {
      var q := TopLevelEqualsIndex(header);
      if q < 0 {
        return None;
      }
      c := ParseAround(header, q);
    }

    /** The checks on either side of the top-level `=` at `q`. */
    method ParseAround(header: string, q: nat) returns (c: Option<ClassValue>)
      requires q < |header|
      ensures c == ClassAround(header, q)
    {
      var nd := NameAndDescription(header[q + 1..]);
      if nd.None? {
        return None;
      }
      var ct := ClassTypeAndHelpers(header[..q]);
      if ct.None? {
        return None;
      }
      var v := BuildClass(ct.value.0, ct.value.1, nd.value.0, nd.value.1);
      return Some(v);
    }

    /** The class value `_parse_entity_class` constructs once the header matched. */
    method BuildClass(raw: string, hs: string, name: string, desc: string) returns (v: ClassValue)
      ensures v == ClassFrom(raw, hs, name, desc)
    {
      var helpers, bases := ParseHelpersAndBases(hs);
      v := ClassValue(NormalizeClassType(raw), name, desc, bases, helpers, EmptyBody);
    }

    /** `_parse_entity_content` into `entity`, with the text after the header's `[`. */
    method ParseEntityContent(entity: EntityClass, remainder: Option<string>)
      requires idx <= |lines|
      modifies this`idx, entity`properties, entity`inputs, entity`outputs
      ensures (BodyOf(entity), idx) == EntityContent(lines, old(idx), remainder, old(BodyOf(entity)))
    {
      ghost var i0, b0 := idx, BodyOf(entity);
      var rem := RemainderText(remainder);
      if rem != [] && EndsWith(rem, "]") {
        ParseSameLineBody(entity, rem);
      } else {
        ParseLeadLine(entity, rem);
        ghost var r1 := (BodyOf(entity), idx);
        assert r1 == LeadLine(lines, i0, rem, b0);
        ParseContentBlock(entity);
        assert (BodyOf(entity), idx) == ContentBlock(lines, r1.1, r1.0);
      }
    }

    /** The same-line branch of `_parse_entity_content`. */
    method ParseSameLineBody(entity: EntityClass, rem: string)
      requires idx <= |lines| && rem != []
      modifies this`idx, entity`properties, entity`inputs, entity`outputs
      ensures (BodyOf(entity), idx) == SameLineBody(lines, old(idx), rem, old(BodyOf(entity)))
    {
      var onLine := Strip(rem[..|rem| - 1]);
      if onLine != [] {
        ParseEntityLine(entity, onLine);
      }
    }

    /** The header's remainder goes to `_parse_entity_line` first. */
    method ParseLeadLine(entity: EntityClass, rem: string)
      requires idx <= |lines|
      modifies this`idx, entity`properties, entity`inputs, entity`outputs
      ensures (BodyOf(entity), idx) == LeadLine(lines, old(idx), rem, old(BodyOf(entity)))
    {
      if rem != [] {
        ParseEntityLine(entity, rem);
      }
    }

    /** An optional `[`, the body lines, and an optional `]`. */
    method ParseContentBlock(entity: EntityClass)
      requires idx <= |lines|
      modifies this`idx, entity`properties, entity`inputs, entity`outputs
      ensures (BodyOf(entity), idx) == ContentBlock(lines, old(idx), old(BodyOf(entity)))
    {
      SkipOpen();
      ParseContentLines(entity);
      SkipClose();
    }

    /** A `[` that is the next meaningful line is consumed. */
    method SkipOpen()
      requires idx <= |lines|
      modifies this`idx
      ensures idx == OpenAt(lines, old(idx))
    {
      var p := Peek();
      if p == Some("[") {
        var open := Get();
      }
    }

    /** The line loop of `_parse_entity_content`: every line up to a `]` or the
        end goes to `ParseEntityLine`. */
    method ParseContentLines(entity: EntityClass)
      requires idx <= |lines|
      modifies this`idx, entity`properties, entity`inputs, entity`outputs
      ensures (BodyOf(entity), idx) == ContentLines(lines, old(idx), old(BodyOf(entity)))
    {
      ghost var i0, b0 := idx, BodyOf(entity);
      while true
        invariant i0 <= idx <= |lines|
        invariant ContentLines(lines, idx, BodyOf(entity)) == ContentLines(lines, i0, b0)
        decreases |lines| - idx
      {
        var next := Peek();
        if next.None? || next.value == "]" {
          break;
        }
        var line := Get();
        ParseEntityLine(entity, line.value);
      }
    }

    /** `_parse_entity_line`: an input or output goes through `add_io`; a property
        is appended after its item block, if it has one, is read. */
    method ParseEntityLine(entity: EntityClass, line: string)
      requires idx <= |lines|
      modifies this`idx, entity`properties, entity`inputs, entity`outputs
      ensures (BodyOf(entity), idx) == EntityLine(lines, old(idx), line, old(BodyOf(entity)))
    {
      var t := Strip(line);
      if t != [] {
        ParseStrippedLine(entity, t);
      }
    }

    /** `_parse_entity_line` once the line is stripped and not empty. */
    method ParseStrippedLine(entity: EntityClass, t: string)
      requires idx <= |lines|
      modifies this`idx, entity`properties, entity`inputs, entity`outputs
      ensures (BodyOf(entity), idx) == StrippedLineAt(lines, old(idx), t, old(BodyOf(entity)))
    {
      var io := IoLine(t);
      if io.Some? {
        entity.AddIO(io.value);
      } else {
        ParsePropertyLine(entity, t);
      }
    }

    /** The property branch of `_parse_entity_line`: the property, when `t`
        declares one, is appended to the entity's properties. */
    method ParsePropertyLine(entity: EntityClass, t: string)
      requires idx <= |lines|
      modifies this`idx, entity`properties
      ensures (BodyOf(entity), idx) == PropertyLineAt(lines, old(idx), t, old(BodyOf(entity)))
    {
      var h := PropLine(t);
      if h.Some? {
        AppendProperty(entity, h.value);
      }
    }

    /** The property of header `h`, read with its item block, appended to the entity. */
    method AppendProperty(entity: EntityClass, h: PropHeader)
      requires idx <= |lines|
      modifies this`idx, entity`properties
      ensures (BodyOf(entity), idx) == WithPropertyAt(lines, old(idx), h, old(BodyOf(entity)))
    {
      var prop := ReadProperty(h);
      entity.properties := entity.properties + [prop];
    }

    /** The property branch of `_parse_entity_line`: the details, the class chosen
        by the type, and the item block when the line ends in `=` or a `[` is next. */
    method ReadProperty(hd: PropHeader) returns (prop: Property)
      requires idx <= |lines|
      modifies this`idx
      ensures (prop, idx) == PropertyAt(lines, old(idx), hd)
    {
      var next := Peek();
      var isBlock := EndsWith(Strip(hd.rest), "=") || next == Some("[");
      var details := ExtractPropDetails(hd.rest);
      var kind := PropertyKindOf(hd.rawType);
      var shape := EmptyShape(kind);
      if kind != KeyvalueKind && isBlock {
        shape := ParseItemBlock(shape);
      }
      prop := Property(hd.name, hd.rawType, details[0], details[1], details[2], hd.readonly, hd.report, shape);
    }

    /** `_parse_choices_or_flags_block`: without a `[` next nothing is consumed;
        otherwise every line up to a `]` line (consumed) or the end is offered
        to the item reader of the property's kind. */
    method ParseItemBlock(shape: PropertyShape) returns (filled: PropertyShape)
      requires idx <= |lines|
      modifies this`idx
      ensures (filled, idx) == ItemBlock(lines, old(idx), shape)
    {
      filled := shape;
      var p := Peek();
      if p != Some("[") {
        return;
      }
      var open := Get();
      ghost var start := idx;
      while true
        invariant start <= idx <= |lines|
        invariant ItemsFrom(lines, idx, filled) == ItemsFrom(lines, start, shape)
        decreases |lines| - idx
      {
        var next := Peek();
        if next.None? || next.value == "]" {
          break;
        }
        var line := Get();
        filled := AddItem(filled, line.value);
      }
      var close := Peek();
      if close == Some("]") {
        var c := Get();
      }
    }
  }

  // ---------------------------------------------------------------- scanning loops that change nothing

  /** The `=` scan of `_parse_entity_class`: the index of the first `=` at paren
      and brace depth zero, or -1. */
  method TopLevelEqualsIndex(s: string) returns (q: int)
    ensures q == (match FirstTopLevelEquals(s, 0) case Some(k) => k as int case None => -1)
  {
    var paren, brace := 0, 0;
    var i := 0;
    while i < |s|
      invariant 0 <= i <= |s|
      invariant (paren, brace) == Depth(s, i)
      invariant FirstTopLevelEquals(s, i) == FirstTopLevelEquals(s, 0)
      decreases |s| - i
    {
      var c := s[i];
      if c == '(' {
        paren := paren + 1;
      } else if c == ')' {
        paren := paren - 1;
      } else if c == '{' {
        brace := brace + 1;
      } else if c == '}' {
        brace := brace - 1;
      } else if c == '=' && paren == 0 && brace == 0 {
        return i;
      }
      i := i + 1;
    }
    return -1;
  }

  /** `_parse_helpers_and_bases`: every `key(args)` call whose parentheses close
      is recorded (a `base` call extends the base list), and the scan goes on
      after it; an unclosed call moves the cursor by one character. */
  method ParseHelpersAndBases(s: string) returns (helpers: seq<(string, string)>, bases: seq<string>)
    ensures (helpers, bases) == HelperScan(s, 0, [], [])
  {
    helpers, bases := [], [];
    var cursor := 0;
    while cursor < |s|
      invariant cursor <= |s|
      invariant HelperScan(s, cursor, helpers, bases) == HelperScan(s, 0, [], [])
      decreases |s| - cursor
    {
      var next, helpers', bases', found := ScanCall(s, cursor, helpers, bases);
      if !found {
        break;
      }
      cursor, helpers, bases := next, helpers', bases';
    }
  }

  /** One round of the `_parse_helpers_and_bases` loop at `cursor`: the next
      `key(args)` call is found and, when its parentheses close, recorded. */
  method ScanCall(s: string, cursor: nat, helpers: seq<(string, string)>, bases: seq<string>)
    returns (next: nat, helpers': seq<(string, string)>, bases': seq<string>, found: bool)
    requires cursor < |s|
    ensures var step := HelperStepAt(s, cursor);
            && (found <==> !step.NoCall?)
            && (step.Unclosed? ==> next == cursor + 1 && helpers' == helpers && bases' == bases)
            && (step.Call? && step.key == "base" ==> next == step.next && helpers' == helpers && bases' == bases + BaseList(step.args))
            && (step.Call? && step.key != "base" ==> next == step.next && helpers' == Upsert(helpers, step.key, step.args) && bases' == bases)
  {
    helpers', bases' := helpers, bases;
    var m := FindHelperCall(s, cursor, cursor);
    if m.None? {
      return cursor, helpers', bases', false;
    }
    var key := Lower(m.value.0);
    var start := m.value.1;
    var end, closed := ClosingParen(s, start);
    if closed {
      var args := Strip(s[start..end]);
      if key == "base" {
        bases' := bases + BaseList(args);
      } else {
        helpers' := Upsert(helpers, key, args);
      }
      next := end + 1;
    } else {
      next := cursor + 1;
    }
    found := true;
  }

  /** The depth scan of `_parse_helpers_and_bases` from just after a `(`: where
      paren and brace depth both come back to zero, if they do. */
  method ClosingParen(s: string, start: nat) returns (end: nat, closed: bool)
    requires start <= |s|
    ensures closed <==> ClosingFrom(s, start, (1, 0)).Some?
    ensures closed ==> ClosingFrom(s, start, (1, 0)) == Some(end)
  {
    var paren, brace := 1, 0;
    end := start;
    while end < |s|
      invariant start <= end <= |s|
      invariant (paren, brace) != (0, 0)
      invariant ClosingFrom(s, end, (paren, brace)) == ClosingFrom(s, start, (1, 0))
      decreases |s| - end
    {
      var c := s[end];
      if c == '(' {
        paren := paren + 1;
      } else if c == ')' {
        paren := paren - 1;
      } else if c == '{' {
        brace := brace + 1;
      } else if c == '}' {
        brace := brace - 1;
      }
      if paren == 0 && brace == 0 {
        break;
      }
      end := end + 1;
    }
    closed := paren == 0 && brace == 0;
  }

  /** One turn of the cleaning loop of `_extract_prop_details`: the token
      stripped, a lone `:` dropped, surrounding quotes removed and `\"` unescaped. */
  method CleanToken(token: string) returns (c: Option<string>)
    ensures c == CleanPart(token)
  {
    var part := Strip(token);
    if part == ":" {
      return None;
    }
    if (StartsWith(part, "\"") && EndsWith(part, "\"")) || (StartsWith(part, "'") && EndsWith(part, "'")) {
      c := Some(Unescape(Inner(part)));
    } else {
      c := Some(part);
    }
  }

  /** The cleaning loop of `_extract_prop_details` over the tokens `parts`. */
  method CleanTokens(parts: seq<string>) returns (cleaned: seq<string>)
    ensures cleaned == CleanParts(parts)
  {
    cleaned := [];
    for i := 0 to |parts|
      invariant cleaned == CleanParts(parts[..i])
    {
      assert parts[..i + 1] == parts[..i] + [parts[i]];
      FilterMapSnoc(CleanPart, parts[..i], parts[i]);
      var c := CleanToken(parts[i]);
      if c.Some? {
        cleaned := cleaned + [c.value];
      }
    }
    assert parts[..|parts|] == parts;
  }

  /** `_extract_prop_details`: display name, default value and description, in
      that order, from the tokens of the property line's tail. */
  method ExtractPropDetails(rest: string) returns (r: seq<string>)
    ensures r == PropDetails(rest)
  {
    var t := Strip(rest);
    if EndsWith(t, "=") {
      t := Strip(t[..|t| - 1]);
    }
    var parts := TokensFrom(t, 0);
    var cleaned := CleanTokens(parts);
    r := (cleaned + ["", "", ""])[..3];
  }

  // ---------------------------------------------------------------- facts about the reference reader

  /** A header yields a class only when it has an `=` outside all parentheses and braces. */
  lemma {:induction false} HeaderNeedsEquals(header: string)
    ensures HeaderClass(header).Some? ==> exists q :: 0 <= q < |header| && TopLevelEqualsAt(header, q)
  {
    if HeaderClass(header).Some? {
      var q := FirstTopLevelEquals(header, 0).value;
      assert TopLevelEqualsAt(header, q);
    }
  }

  /** Without a `[` line next, an `@AutoVisGroup` block is empty and consumes
      nothing; with one, it consumes at least that line. */
  lemma {:induction false} VisBlockOpen(lines: seq<string>, i: nat)
    requires i <= |lines|
    ensures PeekAt(lines, i) != Some("[") ==> VisBlock(lines, i) == ([], i)
    ensures PeekAt(lines, i) == Some("[") ==> i < VisBlock(lines, i).1
  {
  }

  /** Children are collected in order: those read so far stay at the front. */
  lemma {:induction false} VisItemsKeep(lines: seq<string>, i: nat, acc: seq<VisChild>)
    requires i <= |lines|
    ensures |acc| <= |VisItems(lines, i, acc).0| && VisItems(lines, i, acc).0[..|acc|] == acc
    decreases |lines| - i
  {
    var j := AfterGet(lines, i);
    match PeekAt(lines, i)
    case None =>
    case Some(l) =>
      if l != "]" {
        match FirstQuoted(l)
        case None =>
          VisItemsKeep(lines, j, acc);
        case Some(name) =>
          var c := if PeekAt(lines, j) == Some("[") then SubGroup(name, VisBlock(lines, j).0) else EntityName(name);
          var k := if PeekAt(lines, j) == Some("[") then VisBlock(lines, j).1 else j;
          var more := acc + [c];
          assert VisItems(lines, i, acc) == VisItems(lines, k, more);
          VisItemsKeep(lines, k, more);
          var r := VisItems(lines, k, more).0;
          assert r[..|acc|] == r[..|more|][..|acc|];
      }
  }

  /** A child name, and the name of every nested group at any depth, is the
      non-empty quote-free text of a quoted string. */
  predicate WellNamed(c: VisChild)
    decreases c
  {
    match c
    case EntityName(n) => n != [] && !Contains(n, '"')
    case SubGroup(p, kids) => p != [] && !Contains(p, '"') && forall k :: k in kids ==> WellNamed(k)
  }

  /** What `re.search(r'"([^"]+)"', …)` finds is non-empty and quote-free. */
  lemma {:induction false} FirstQuotedNamed(s: string)
    ensures FirstQuoted(s).Some? ==> FirstQuoted(s).value != [] && !Contains(FirstQuoted(s).value, '"')
  {
    if FirstQuoted(s).Some? {
      SearchFromMatch(s, 0, QuotedAt);
    }
  }

  /** Every child of an `@AutoVisGroup` block, at every depth, is well named. */
  lemma {:induction false} VisBlockNamed(lines: seq<string>, i: nat)
    requires i <= |lines|
    ensures forall c :: c in VisBlock(lines, i).0 ==> WellNamed(c)
    decreases |lines| - i, 1
  {
    if PeekAt(lines, i) == Some("[") {
      VisItemsNamed(lines, AfterGet(lines, i), []);
    }
  }

  lemma {:induction false} VisItemsNamed(lines: seq<string>, i: nat, acc: seq<VisChild>)
    requires i <= |lines|
    requires forall c :: c in acc ==> WellNamed(c)
    ensures forall c :: c in VisItems(lines, i, acc).0 ==> WellNamed(c)
    decreases |lines| - i, 0
  {
    var j := AfterGet(lines, i);
    match PeekAt(lines, i)
    case None =>
    case Some(l) =>
      if l != "]" {
        FirstQuotedNamed(l);
        match FirstQuoted(l)
        case None =>
          VisItemsNamed(lines, j, acc);
        case Some(name) =>
          if PeekAt(lines, j) == Some("[") {
            var (kids, k) := VisBlock(lines, j);
            VisBlockNamed(lines, j);
            VisItemsNamed(lines, k, acc + [SubGroup(name, kids)]);
          } else {
            VisItemsNamed(lines, j, acc + [EntityName(name)]);
          }
      }
  }
}
