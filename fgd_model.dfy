/** The FGD document model: one variant per directive and property kind, the
    entity class as a mutable object, and the document with its two name indexes
    (`classMap` and `baseClasses`) kept beside the ordered element list. */
module FgdModel {
  import opened Wrappers
  import opened Text

  /** The `ValueError` raised by an element constructor. */
  datatype ModelError = EmptyName

  /** The class type that puts an entity class into the base-class index. */
  const BaseClassType := "BaseClass"

  // ---------------------------------------------------------------- values

  /** An item of a `choices` block; its element name is its value. */
  datatype ChoiceItem = ChoiceItem(value: string, displayName: string, description: string)

  /** An item of a `flags` block; its element name is `str(value)`. */
  datatype FlagItem = FlagItem(value: int, displayName: string, description: string, defaultTicked: bool)

  /** What distinguishes the three property classes. */
  datatype PropertyShape =
    | Keyvalue
    | Choices(choices: seq<ChoiceItem>)
    | Flags(flags: seq<FlagItem>)

  datatype Property = Property(
    name: string,
    propType: string,
    displayName: string,
    defaultValue: string,
    description: string,
    readonly: bool,
    report: bool,
    shape: PropertyShape)

  /** An input or output; `ioType` is `"input"` or `"output"` when the parser builds it. */
  datatype IO = IO(ioType: string, name: string, argType: string, description: string)

  /** A child of an `@AutoVisGroup`: an entity name or a nested group. */
  datatype VisChild =
    | EntityName(name: string)
    | SubGroup(parentName: string, children: seq<VisChild>)

  type Coord = (int, int, int)

  /** A top-level element of a document. Entity classes are objects, shared
      between the element list and the two indexes. */
  datatype Element =
    | Include(filePath: string)
    | MapSize(minCoord: int, maxCoord: int)
    | Version(versionNumber: int)
    | MaterialExclusion(excludedPaths: seq<string>)
    | AutoVisGroup(parentName: string, children: seq<VisChild>)
    | Entity(ec: EntityClass)

  // ---------------------------------------------------------------- constructors

  /** `ChoiceItem(value, display_name, description)`: the value doubles as the element name. */
  function NewChoiceItem(value: string, displayName: string, description: string): (r: Result<ChoiceItem, ModelError>)
    ensures r.Err? <==> value == []
    ensures r.Ok? ==> r.value.value == value && r.value.displayName == displayName && r.value.description == description
  {
    if value == [] then Err(EmptyName) else Ok(ChoiceItem(value, displayName, description))
  }

  /** The element name `FlagItem` passes to the base constructor. */
  function FlagItemName(f: FlagItem): string {
    IntToString(f.value)
  }

  /** `FlagItem(value, display_name, description, default_ticked)`: never raises,
      because `str(value)` is never empty. */
  function NewFlagItem(value: int, displayName: string, description: string, defaultTicked: bool): (r: Result<FlagItem, ModelError>)
    ensures r.Ok? && r.value == FlagItem(value, displayName, description, defaultTicked)
  {
    if FlagItemName(FlagItem(value, displayName, description, defaultTicked)) == [] then Err(EmptyName)
    else Ok(FlagItem(value, displayName, description, defaultTicked))
  }

  /** `KeyvalueProperty`, `ChoicesProperty` and `FlagsProperty`: the shape picks the class. */
  function NewProperty(name: string, propType: string, displayName: string, defaultValue: string,
                       description: string, readonly: bool, report: bool, shape: PropertyShape): (r: Result<Property, ModelError>)
    ensures r.Err? <==> name == []
    ensures r.Ok? ==> r.value == Property(name, propType, displayName, defaultValue, description, readonly, report, shape)
  {
    if name == [] then Err(EmptyName)
    else Ok(Property(name, propType, displayName, defaultValue, description, readonly, report, shape))
  }

  /** `IO(io_type, name, arg_type, description)`. */
  function NewIO(ioType: string, name: string, argType: string, description: string): (r: Result<IO, ModelError>)
    ensures r.Err? <==> name == []
    ensures r.Ok? ==> r.value == IO(ioType, name, argType, description)
  {
    if name == [] then Err(EmptyName) else Ok(IO(ioType, name, argType, description))
  }

  // ---------------------------------------------------------------- entity class

  /** `@SolidClass`, `@PointClass`, `@BaseClass`, ...: updated in place by the
      parser (body), by `AddIO` and by the editor (name, type, bases, attributes). */
  class EntityClass {
    var classType: string
    var name: string
    var description: string
    var baseClasses: seq<string>
    var properties: seq<Property>
    var inputs: seq<IO>
    var outputs: seq<IO>
    /** The helper dictionary, in insertion order, one entry per key. */
    var helpers: seq<(string, string)>
    var color: Option<Coord>
    var size: Option<(Coord, Coord)>
    var studio: Option<string>
    var sprite: Option<string>

    /** The constructor after the base class's name check has passed. */
    constructor (classType: string, name: string, description: string, baseClasses: seq<string>,
                 properties: seq<Property>, inputs: seq<IO>, outputs: seq<IO>, helpers: seq<(string, string)>)
      requires name != []
      ensures this.classType == classType && this.name == name && this.description == description
      ensures this.baseClasses == baseClasses && this.properties == properties
      ensures this.inputs == inputs && this.outputs == outputs && this.helpers == helpers
      ensures color == None && size == None && studio == None && sprite == None
    {
      this.classType := classType;
      this.name := name;
      this.description := description;
      this.baseClasses := baseClasses;
      this.properties := properties;
      this.inputs := inputs;
      this.outputs := outputs;
      this.helpers := helpers;
      color, size, studio, sprite := None, None, None, None;
    }

    /** `element.name = n`; the entries of any element list then carry the new name. */
    method SetName(n: string, ghost es: seq<Element>)
      modifies this`name
      ensures name == n
      ensures EntriesOf(es) == Retag(old(EntriesOf(es)), this, n, classType)
    {
      label pre:
      name := n;
      RetaggedIn@pre(es);
    }

    /** `element.class_type = t`; the entries of any element list then carry the new type. */
    method SetClassType(t: string, ghost es: seq<Element>)
      modifies this`classType
      ensures classType == t
      ensures EntriesOf(es) == Retag(old(EntriesOf(es)), this, name, t)
    {
      label pre:
      classType := t;
      RetaggedIn@pre(es);
    }

    /** After this class alone was renamed or retyped, its entries carry the new name and type. */
    twostate lemma {:induction false} RetaggedIn(es: seq<Element>)
      requires forall e | e in es && e.Entity? && e.ec != this :: unchanged(e.ec`name, e.ec`classType)
      ensures EntriesOf(es) == Retag(old(EntriesOf(es)), this, name, classType)
      decreases |es|
    {
      if es != [] {
        var front := es[..|es| - 1];
        assert forall e :: e in front ==> e in es;
        RetaggedIn(front);
      }
    }

    /** `add_io`: an input goes to `inputs`, an output to `outputs`, anything else nowhere. */
    method AddIO(io: IO)
      modifies this`inputs, this`outputs
      ensures inputs == (if io.ioType == "input" then old(inputs) + [io] else old(inputs))
      ensures outputs == (if io.ioType == "output" then old(outputs) + [io] else old(outputs))
    {
      if io.ioType == "input" {
        inputs := inputs + [io];
      } else if io.ioType == "output" {
        outputs := outputs + [io];
      }
    }
  }

  /** `EntityClass(...)`: raises on an empty name, otherwise stores every argument;
      absent collections are passed as empty sequences. */
  method NewEntityClass(classType: string, name: string, description: string, baseClasses: seq<string>,
                        properties: seq<Property>, inputs: seq<IO>, outputs: seq<IO>, helpers: seq<(string, string)>)
    returns (r: Result<EntityClass, ModelError>)
    ensures r.Err? <==> name == []
    ensures r.Ok? ==> fresh(r.value)
    ensures r.Ok? ==> r.value.classType == classType && r.value.name == name && r.value.description == description
    ensures r.Ok? ==> r.value.baseClasses == baseClasses && r.value.properties == properties && r.value.helpers == helpers
    ensures r.Ok? ==> r.value.inputs == inputs && r.value.outputs == outputs
    ensures r.Ok? ==> r.value.color == None && r.value.size == None && r.value.studio == None && r.value.sprite == None
  {
    if name == [] {
      return Err(EmptyName);
    }
    var ec := new EntityClass(classType, name, description, baseClasses, properties, inputs, outputs, helpers);
    return Ok(ec);
  }

  // ---------------------------------------------------------------- the indexes

  /** What the indexes see of an entity class: its name and type at this moment. */
  datatype Entry = Entry(name: string, classType: string, ec: EntityClass)

  /** What the indexes see of one element: nothing, or its entity class. */
  function EntryList(e: Element): seq<Entry>
    reads (if e.Entity? then {e.ec} else {})`name, (if e.Entity? then {e.ec} else {})`classType
  {
    match e
    case Entity(ec) => [Entry(ec.name, ec.classType, ec)]
    case _ => []
  }

  /** The entity classes of an element list, in order, as the indexes see them. */
  ghost function EntriesOf(es: seq<Element>): seq<Entry>
    reads (set e | e in es && e.Entity? :: e.ec)`name, (set e | e in es && e.Entity? :: e.ec)`classType
  {
    if es == [] then []
    else
      var front := es[..|es| - 1];
      assert forall e :: e in front ==> e in es;
      EntriesOf(front) + EntryList(es[|es| - 1])
  }

  /** The entries with those of `ec` renamed to `n` and retyped to `t`. */
  function Retag(entries: seq<Entry>, ec: EntityClass, n: string, t: string): seq<Entry> {
    seq(|entries|, i requires 0 <= i < |entries| => if entries[i].ec == ec then Entry(n, t, ec) else entries[i])
  }

  lemma {:induction false} EntriesOfAppend(es: seq<Element>, e: Element)
    ensures EntriesOf(es + [e]) == EntriesOf(es) + EntryList(e)
  {
    assert (es + [e])[..|es|] == es;
  }

  /** The entries only depend on the classes' names and types. */
  twostate lemma {:induction false} EntriesStable(es: seq<Element>)
    requires forall e | e in es && e.Entity? :: unchanged(e.ec`name, e.ec`classType)
    ensures EntriesOf(es) == old(EntriesOf(es))
    decreases |es|
  {
    if es != [] {
      var front := es[..|es| - 1];
      assert forall e :: e in front ==> e in es;
      EntriesStable(front);
    }
  }

  /** `class_map` as a run of `add_element` calls over these entries builds it. */
  function ClassIndex(entries: seq<Entry>): map<string, EntityClass> {
    if entries == [] then map[]
    else
      var last := entries[|entries| - 1];
      ClassIndex(entries[..|entries| - 1])[last.name := last.ec]
  }

  /** `base_classes` as a run of `add_element` calls over these entries builds it. */
  function BaseIndex(entries: seq<Entry>): map<string, EntityClass> {
    if entries == [] then map[]
    else
      var last := entries[|entries| - 1];
      var m := BaseIndex(entries[..|entries| - 1]);
      if last.classType == BaseClassType then m[last.name := last.ec] else m
  }

  lemma {:induction false} IndexAppend(entries: seq<Entry>, x: Entry)
    ensures ClassIndex(entries + [x]) == ClassIndex(entries)[x.name := x.ec]
    ensures BaseIndex(entries + [x]) == if x.classType == BaseClassType then BaseIndex(entries)[x.name := x.ec] else BaseIndex(entries)
  {
    assert (entries + [x])[..|entries|] == entries;
  }

  predicate Matches(e: Entry, k: string, baseOnly: bool) {
    e.name == k && (!baseOnly || e.classType == BaseClassType)
  }

  /** The position of the last entry named `k` (and of type `BaseClass`, if `baseOnly`). */
  function LastMatch(entries: seq<Entry>, k: string, baseOnly: bool): (r: Option<nat>)
    ensures r.Some? ==> r.value < |entries| && Matches(entries[r.value], k, baseOnly)
    ensures r.Some? ==> forall j :: r.value < j < |entries| ==> !Matches(entries[j], k, baseOnly)
    ensures r.None? ==> forall j :: 0 <= j < |entries| ==> !Matches(entries[j], k, baseOnly)
  {
    if entries == [] then None
    else if Matches(entries[|entries| - 1], k, baseOnly) then Some(|entries| - 1)
    else LastMatch(entries[..|entries| - 1], k, baseOnly)
  }

  /** `class_map[k]` is the last entity class named `k`, and `base_classes[k]` the
      last `BaseClass` named `k`: a later class of the same name overwrites the
      entry while the element list keeps both. */
  lemma {:induction false} IndexIsLastMatch(entries: seq<Entry>, k: string, baseOnly: bool)
    ensures var m := if baseOnly then BaseIndex(entries) else ClassIndex(entries);
            && (k in m <==> LastMatch(entries, k, baseOnly).Some?)
            && (k in m ==> m[k] == entries[LastMatch(entries, k, baseOnly).value].ec)
    decreases |entries|
  {
    if entries != [] {
      IndexIsLastMatch(entries[..|entries| - 1], k, baseOnly);
    }
  }

  /** No two entity classes of the list share a name. */
  predicate UniqueNames(entries: seq<Entry>) {
    forall i, j :: 0 <= i < j < |entries| ==> entries[i].name != entries[j].name
  }

  /** With unique names, `class_map` maps every name to its class and
      `base_classes` holds exactly the base classes among them. */
  lemma {:induction false} UniqueIndex(entries: seq<Entry>)
    requires UniqueNames(entries)
    ensures forall k :: k in ClassIndex(entries) <==> exists i :: 0 <= i < |entries| && entries[i].name == k
    ensures forall i :: 0 <= i < |entries| ==> ClassIndex(entries)[entries[i].name] == entries[i].ec
    ensures forall k :: k in BaseIndex(entries) <==> k in ClassIndex(entries) && entries[LastMatch(entries, k, false).value].classType == BaseClassType
    ensures forall k :: k in BaseIndex(entries) ==> BaseIndex(entries)[k] == ClassIndex(entries)[k]
  {
    forall k ensures k in ClassIndex(entries) <==> exists i :: 0 <= i < |entries| && entries[i].name == k {
      IndexIsLastMatch(entries, k, false);
    }
    forall i | 0 <= i < |entries| ensures ClassIndex(entries)[entries[i].name] == entries[i].ec {
      IndexIsLastMatch(entries, entries[i].name, false);
    }
    forall k ensures k in BaseIndex(entries) <==> k in ClassIndex(entries) && entries[LastMatch(entries, k, false).value].classType == BaseClassType
                ensures k in BaseIndex(entries) ==> BaseIndex(entries)[k] == ClassIndex(entries)[k]
    {
      IndexIsLastMatch(entries, k, false);
      IndexIsLastMatch(entries, k, true);
    }
  }

  // ---------------------------------------------------------------- the document

  /** `FGDFile`: the ordered element list and the two indexes `add_element` keeps. */
  class FGDFile {
    var elements: seq<Element>
    var classMap: map<string, EntityClass>
    var baseClasses: map<string, EntityClass>

    /** The index invariant: both maps are what `add_element` would have built
        from the current list, given the classes' current names and types. */
    ghost predicate Valid()
      reads this, (set e | e in elements && e.Entity? :: e.ec)`name, (set e | e in elements && e.Entity? :: e.ec)`classType
    {
      && classMap == ClassIndex(EntriesOf(elements))
      && baseClasses == BaseIndex(EntriesOf(elements))
    }

    /** The stronger state the editor's index edits rely on: no duplicate class names. */
    ghost predicate Unique()
      reads this, (set e | e in elements && e.Entity? :: e.ec)`name, (set e | e in elements && e.Entity? :: e.ec)`classType
    {
      UniqueNames(EntriesOf(elements))
    }

    /** The indexes stay in step while no class in the list is renamed or retyped. */
    twostate lemma {:induction false} ValidStable()
      requires old(Valid()) && unchanged(this)
      requires forall e | e in elements && e.Entity? :: unchanged(e.ec`name, e.ec`classType)
      ensures Valid()
    {
      EntriesStable(elements);
    }

    constructor ()
      ensures elements == [] && classMap == map[] && baseClasses == map[]
      ensures Valid() && Unique()
    {
      elements, classMap, baseClasses := [], map[], map[];
    }

    /** The editor's direct writes to `class_map` and `base_classes`; the list and
        the entries it carries stay as they were. */
    method SetIndexes(m: map<string, EntityClass>, b: map<string, EntityClass>)
      modifies this`classMap, this`baseClasses
      ensures classMap == m && baseClasses == b
      ensures EntriesOf(elements) == old(EntriesOf(elements))
    {
      label pre:
      classMap, baseClasses := m, b;
      EntriesStable@pre(elements);
    }

    /** The editor's direct writes to the list and both indexes; the entries any
        list carries stay as they were. */
    method SetContents(es: seq<Element>, m: map<string, EntityClass>, b: map<string, EntityClass>)
      modifies this`elements, this`classMap, this`baseClasses
      ensures elements == es && classMap == m && baseClasses == b
      ensures EntriesOf(es) == old(EntriesOf(es))
    {
      label pre:
      elements, classMap, baseClasses := es, m, b;
      EntriesStable@pre(es);
    }

    /** `add_element`: appends to the list; an entity class then (over)writes its
        name in `classMap`, and in `baseClasses` when its type is `BaseClass`. */
    method AddElement(e: Element)
      modifies this
      ensures elements == old(elements) + [e]
      ensures classMap == (if e.Entity? then old(classMap)[e.ec.name := e.ec] else old(classMap))
      ensures baseClasses == (if e.Entity? && e.ec.classType == BaseClassType
                              then old(baseClasses)[e.ec.name := e.ec] else old(baseClasses))
    {
      var m: map<string, EntityClass>, b: map<string, EntityClass> := classMap, baseClasses;
      if e.Entity? {
        m := m[e.ec.name := e.ec];
        if e.ec.classType == BaseClassType {
          b := b[e.ec.name := e.ec];
        }
      }
      elements, classMap, baseClasses := elements + [e], m, b;
    }

    /** Appending `e` and writing its entry into both maps keeps the indexes in step. */
    twostate lemma {:induction false} AppendValid(e: Element)
      requires old(Valid())
      requires elements == old(elements) + [e]
      requires classMap == (if e.Entity? then old(classMap)[e.ec.name := e.ec] else old(classMap))
      requires baseClasses == (if e.Entity? && e.ec.classType == BaseClassType
                               then old(baseClasses)[e.ec.name := e.ec] else old(baseClasses))
      requires forall x | x in elements && x.Entity? :: unchanged(x.ec`name, x.ec`classType)
      ensures Valid()
    {
      var es := old(elements);
      assert forall x :: x in es ==> x in elements;
      EntriesStable(es);
      var before := EntriesOf(es);
      assert old(classMap) == ClassIndex(before) && old(baseClasses) == BaseIndex(before);
      EntriesOfAppend(es, e);
      if e.Entity? {
        var x := Entry(e.ec.name, e.ec.classType, e.ec);
        assert EntriesOf(elements) == before + [x] by {
          assert EntryList(e) == [x];
        }
        IndexAppend(before, x);
      } else {
        assert EntriesOf(elements) == before by {
          assert EntryList(e) == [];
          assert before + [] == before;
        }
      }
    }
  }
}
