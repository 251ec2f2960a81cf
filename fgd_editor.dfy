/** The editor's edits of a document that are not widget code: renaming a
    class, changing its type, deleting it and adding a new one (each edits the
    element list and the two indexes by hand), and the small text fields the
    editor turns into values (base-class list, colour, size, new property). */
module FgdEditor {
  import opened Wrappers
  import opened Text
  import opened FgdModel
  import opened FgdPatterns
  import opened FgdSerializer
  import opened FgdParser

  // ---------------------------------------------------------------- entries after an edit

  /** The entries of `ec` are exactly the entries named `o`. */
  predicate OwnsName(entries: seq<Entry>, ec: EntityClass, o: string) {
    forall i :: 0 <= i < |entries| ==> (entries[i].ec == ec <==> entries[i].name == o)
  }

  /** No entry is named `n`. */
  predicate NameAbsent(entries: seq<Entry>, n: string) {
    forall i :: 0 <= i < |entries| ==> entries[i].name != n
  }

  /** Every entry of `ec` has the type `t`. */
  predicate TypedAs(entries: seq<Entry>, ec: EntityClass, t: string) {
    forall i :: 0 <= i < |entries| ==> entries[i].ec == ec ==> entries[i].classType == t
  }

  /** A name is a key of `class_map` exactly when an entry carries it. */
  lemma {:induction false} ClassKeys(entries: seq<Entry>, k: string)
    ensures k in ClassIndex(entries) <==> exists i :: 0 <= i < |entries| && entries[i].name == k
  {
    IndexIsLastMatch(entries, k, false);
    if exists i :: 0 <= i < |entries| && entries[i].name == k {
      var i :| 0 <= i < |entries| && entries[i].name == k;
      assert Matches(entries[i], k, false);
    }
  }

  /** Every key of `base_classes` is a key of `class_map`. */
  lemma {:induction false} BaseKeys(entries: seq<Entry>)
    ensures BaseIndex(entries).Keys <= ClassIndex(entries).Keys
    decreases |entries|
  {
    if entries != [] {
      BaseKeys(entries[..|entries| - 1]);
    }
  }

  /** The entries split into their front and last one, and the retag of the whole as
      the retag of the front followed by the retagged last entry. */
  lemma {:induction false} RetagSplit(entries: seq<Entry>, ec: EntityClass, n: string, t: string)
    returns (front: seq<Entry>, x: Entry, y: Entry)
    requires entries != []
    ensures front == entries[..|entries| - 1] && x == entries[|entries| - 1]
    ensures entries == front + [x]
    ensures forall i | 0 <= i < |front| :: front[i] == entries[i]
    ensures y == if x.ec == ec then Entry(n, t, ec) else x
    ensures Retag(entries, ec, n, t) == Retag(front, ec, n, t) + [y]
  {
    front, x := entries[..|entries| - 1], entries[|entries| - 1];
    y := if x.ec == ec then Entry(n, t, ec) else x;
    assert entries == front + [x];
    assert Retag(entries, ec, n, t) == Retag(front, ec, n, t) + [y];
  }

  /** Renaming the class that alone carries `o` to the unused name `n`:
      `class_map` loses `o` and maps `n` to the class. */
  lemma {:induction false} RenameClassIndex(entries: seq<Entry>, ec: EntityClass, o: string, n: string, t: string)
    requires OwnsName(entries, ec, o) && NameAbsent(entries, n) && n != o
    ensures ClassIndex(Retag(entries, ec, n, t))
            == if o in ClassIndex(entries) then (ClassIndex(entries) - {o})[n := ec] else ClassIndex(entries)
    decreases |entries|
  {
    if entries != [] {
      var front, x, y := RetagSplit(entries, ec, n, t);
      assert OwnsName(front, ec, o) && NameAbsent(front, n);
      RenameClassIndex(front, ec, o, n, t);
      IndexAppend(front, x);
      IndexAppend(Retag(front, ec, n, t), y);
      var cf := ClassIndex(front);
      if x.ec == ec {
        assert x.name == o;
        PutDrop(cf, o, ec);
        if o !in cf {
          DropAbsent(cf, o);
        }
      } else {
        assert x.name != o && x.name != n;
        if o in cf {
          DropPut(cf, o, n, ec, x.name, x.ec);
        }
      }
    }
  }

  /** Renaming the class that alone carries `o` to the unused name `n`:
      `base_classes` loses `o`, and gains `n` when the class is a base class. */
  lemma {:induction false} RenameBaseIndex(entries: seq<Entry>, ec: EntityClass, o: string, n: string, t: string)
    requires OwnsName(entries, ec, o) && NameAbsent(entries, n) && n != o && TypedAs(entries, ec, t)
    ensures BaseIndex(Retag(entries, ec, n, t))
            == if o !in ClassIndex(entries) then BaseIndex(entries)
               else if t == BaseClassType then (BaseIndex(entries) - {o})[n := ec]
               else BaseIndex(entries) - {o}
    decreases |entries|
  {
    if entries != [] {
      var front, x, y := RetagSplit(entries, ec, n, t);
      assert OwnsName(front, ec, o) && NameAbsent(front, n) && TypedAs(front, ec, t);
      RenameBaseIndex(front, ec, o, n, t);
      IndexAppend(front, x);
      IndexAppend(Retag(front, ec, n, t), y);
      BaseKeys(front);
      var cf, bf := ClassIndex(front), BaseIndex(front);
      if x.ec == ec {
        assert x.name == o && x.classType == t;
        PutDrop(bf, o, ec);
        if o !in cf {
          DropAbsent(bf, o);
        }
      } else {
        assert x.name != o && x.name != n;
        if o in cf {
          DropPut(bf, o, n, ec, x.name, x.ec);
        }
      }
    }
  }

  /** Changing the type of the class that alone carries `o` leaves `class_map` as it was. */
  lemma {:induction false} RetypeClassIndex(entries: seq<Entry>, ec: EntityClass, o: string, t: string)
    requires OwnsName(entries, ec, o)
    ensures ClassIndex(Retag(entries, ec, o, t)) == ClassIndex(entries)
    decreases |entries|
  {
    if entries != [] {
      var front, x, y := RetagSplit(entries, ec, o, t);
      assert OwnsName(front, ec, o);
      RetypeClassIndex(front, ec, o, t);
      IndexAppend(front, x);
      IndexAppend(Retag(front, ec, o, t), y);
    }
  }

  /** Changing the type of the class that alone carries `o` to `t`: `base_classes`
      maps `o` to the class when `t` is `BaseClass`, and loses `o` otherwise. */
  lemma {:induction false} RetypeBaseIndex(entries: seq<Entry>, ec: EntityClass, o: string, t: string)
    requires OwnsName(entries, ec, o)
    ensures BaseIndex(Retag(entries, ec, o, t))
            == if o !in ClassIndex(entries) then BaseIndex(entries)
               else if t == BaseClassType then BaseIndex(entries)[o := ec]
               else BaseIndex(entries) - {o}
    decreases |entries|
  {
    if entries != [] {
      var front, x, y := RetagSplit(entries, ec, o, t);
      assert OwnsName(front, ec, o);
      RetypeBaseIndex(front, ec, o, t);
      IndexAppend(front, x);
      IndexAppend(Retag(front, ec, o, t), y);
      BaseKeys(front);
      var cf, bf := ClassIndex(front), BaseIndex(front);
      if x.ec == ec {
        assert x.name == o;
        PutDrop(bf, o, ec);
        if o !in cf {
          DropAbsent(bf, o);
        }
      } else {
        assert x.name != o;
        if o in cf {
          DropPut(bf, o, o, ec, x.name, x.ec);
        }
      }
    }
  }

  /** Renaming to an unused name, or retyping, keeps the names unique. */
  lemma {:induction false} RetagUnique(entries: seq<Entry>, ec: EntityClass, o: string, n: string, t: string)
    requires UniqueNames(entries) && OwnsName(entries, ec, o)
    requires n == o || NameAbsent(entries, n)
    ensures UniqueNames(Retag(entries, ec, n, t))
  {
    var r := Retag(entries, ec, n, t);
    forall i, j | 0 <= i < j < |r| ensures r[i].name != r[j].name {
      assert entries[i].name != entries[j].name;
    }
  }

  /** Leaving out the entry at `m`, under unique names: both indexes lose its name. */
  lemma {:induction false} DropIndex(entries: seq<Entry>, m: nat, r: seq<Entry>)
    requires UniqueNames(entries) && m < |entries| && r == entries[..m] + entries[m + 1..]
    ensures ClassIndex(r) == ClassIndex(entries) - {entries[m].name}
    ensures BaseIndex(r) == BaseIndex(entries) - {entries[m].name}
    decreases |entries|
  {
    var y := entries[m].name;
    var front, x := FrontUnique(entries);
    IndexAppend(front, x);
    BaseKeys(front);
    if m == |entries| - 1 {
      assert r == front;
      assert y !in ClassIndex(front) by {
        ClassKeys(front, y);
      }
      DropAbsent(ClassIndex(front), y);
      DropAbsent(BaseIndex(front), y);
      PutDrop(ClassIndex(front), y, x.ec);
      PutDrop(BaseIndex(front), y, x.ec);
    } else {
      var rf := DropBeforeLast(entries, m, r);
      DropIndex(front, m, rf);
      IndexAppend(rf, x);
      DropPut(ClassIndex(front), y, y, x.ec, x.name, x.ec);
      DropPut(BaseIndex(front), y, y, x.ec, x.name, x.ec);
    }
  }

  /** The entries split into their front and last one; the front keeps unique names. */
  lemma {:induction false} FrontUnique(entries: seq<Entry>) returns (front: seq<Entry>, x: Entry)
    requires UniqueNames(entries) && entries != []
    ensures front == entries[..|entries| - 1] && x == entries[|entries| - 1]
    ensures entries == front + [x] && UniqueNames(front)
    ensures forall i | 0 <= i < |front| :: front[i] == entries[i]
  {
    front, x := entries[..|entries| - 1], entries[|entries| - 1];
    assert entries == front + [x];
  }

  /** Leaving out a position before the last one: the front with that position left out,
      then the last entry, whose name differs from the one left out. */
  lemma {:induction false} DropBeforeLast(entries: seq<Entry>, m: nat, r: seq<Entry>) returns (rf: seq<Entry>)
    requires UniqueNames(entries) && m < |entries| - 1 && r == entries[..m] + entries[m + 1..]
    ensures var front := entries[..|entries| - 1];
            rf == front[..m] + front[m + 1..] && front[m] == entries[m]
    ensures r == rf + [entries[|entries| - 1]]
    ensures entries[|entries| - 1].name != entries[m].name
  {
    var front := entries[..|entries| - 1];
    rf := front[..m] + front[m + 1..];
    assert r == rf + [entries[|entries| - 1]];
  }

  /** Leaving out an entry keeps the names unique. */
  lemma {:induction false} DropUnique(entries: seq<Entry>, m: nat)
    requires UniqueNames(entries) && m < |entries|
    ensures UniqueNames(entries[..m] + entries[m + 1..])
  {
    var r := entries[..m] + entries[m + 1..];
    forall i, j | 0 <= i < j < |r| ensures r[i].name != r[j].name {
      var i0 := if i < m then i else i + 1;
      var j0 := if j < m then j else j + 1;
      assert r[i] == entries[i0] && r[j] == entries[j0];
    }
  }

  // ---------------------------------------------------------------- entries of an element list

  lemma {:induction false} EntriesOfConcat(a: seq<Element>, b: seq<Element>)
    ensures EntriesOf(a + b) == EntriesOf(a) + EntriesOf(b)
    decreases |b|
  {
    if b == [] {
      assert a + b == a;
    } else {
      var b0 := b[..|b| - 1];
      EntriesOfConcat(a, b0);
      assert (a + b)[..|a + b| - 1] == a + b0;
      assert (a + b)[|a + b| - 1] == b[|b| - 1];
    }
  }

  /** Every entry carries its class's current name and type, and its class is in the list. */
  lemma {:induction false} EntriesCurrent(es: seq<Element>)
    ensures forall i :: 0 <= i < |EntriesOf(es)| ==> EntriesOf(es)[i].name == EntriesOf(es)[i].ec.name
    ensures forall i :: 0 <= i < |EntriesOf(es)| ==> EntriesOf(es)[i].classType == EntriesOf(es)[i].ec.classType
    ensures forall i :: 0 <= i < |EntriesOf(es)| ==> Entity(EntriesOf(es)[i].ec) in es
    decreases |es|
  {
    if es != [] {
      var front, x := es[..|es| - 1], es[|es| - 1];
      EntriesCurrent(front);
      assert forall e :: e in front ==> e in es;
      var entries, before := EntriesOf(es), EntriesOf(front);
      assert entries == before + EntryList(x);
      forall i | 0 <= i < |entries|
        ensures entries[i].name == entries[i].ec.name && entries[i].classType == entries[i].ec.classType
        ensures Entity(entries[i].ec) in es
      {
        if i < |before| {
          assert entries[i] == before[i];
        } else {
          assert entries[i] == Entry(x.ec.name, x.ec.classType, x.ec);
        }
      }
    }
  }

  /** The entry of the entity class at position `i` of the list, and the entries
      of the list without that position. */
  lemma {:induction false} EntryAt(es: seq<Element>, i: nat) returns (m: nat)
    requires i < |es| && es[i].Entity?
    ensures m == |EntriesOf(es[..i])|
    ensures m < |EntriesOf(es)|
    ensures EntriesOf(es)[m] == Entry(es[i].ec.name, es[i].ec.classType, es[i].ec)
    ensures EntriesOf(es[..i] + es[i + 1..]) == EntriesOf(es)[..m] + EntriesOf(es)[m + 1..]
  {
    var ec := es[i].ec;
    var a, b := es[..i], es[i + 1..];
    assert es == a + ([es[i]] + b);
    EntriesOfConcat(a, [es[i]] + b);
    EntriesOfConcat([es[i]], b);
    EntriesOfConcat(a, b);
    assert EntriesOf([es[i]]) == [Entry(ec.name, ec.classType, ec)] by {
      assert [es[i]][..0] == [];
    }
    m := |EntriesOf(a)|;
    SplitAt(EntriesOf(es), EntriesOf(a), Entry(ec.name, ec.classType, ec), EntriesOf(b));
  }

  /** A sequence split around one element. */
  lemma SplitAt<T>(s: seq<T>, a: seq<T>, x: T, b: seq<T>)
    requires s == a + ([x] + b)
    ensures |a| < |s| && s[|a|] == x
    ensures a + b == s[..|a|] + s[|a| + 1..]
  {
    assert s[..|a|] == a;
    assert s[|a| + 1..] == b;
  }

  /** A class in the list with no namesake owns its name in the indexes. */
  lemma {:induction false} OwnName(es: seq<Element>, ec: EntityClass)
    requires UniqueNames(EntriesOf(es)) && Entity(ec) in es
    ensures var entries := EntriesOf(es);
            && OwnsName(entries, ec, ec.name) && TypedAs(entries, ec, ec.classType)
            && ec.name in ClassIndex(entries)
  {
    var entries := EntriesOf(es);
    EntriesCurrent(es);
    var i :| 0 <= i < |es| && es[i] == Entity(ec);
    var m := EntryAt(es, i);
    assert entries[m].ec == ec && entries[m].name == ec.name;
    forall j | 0 <= j < |entries| ensures entries[j].ec == ec <==> entries[j].name == ec.name {
      if j != m {
        assert entries[j].name != entries[m].name;
      }
    }
    ClassKeys(entries, ec.name);
  }

  /** A name that is not a key of `class_map` is carried by no entry. */
  lemma {:induction false} UnusedName(entries: seq<Entry>, n: string)
    requires n !in ClassIndex(entries)
    ensures NameAbsent(entries, n)
  {
    ClassKeys(entries, n);
  }

  /** Writing a key and then dropping it is dropping it. */
  lemma {:induction false} PutDrop<K, V>(m: map<K, V>, o: K, v: V)
    ensures m[o := v] - {o} == m - {o}
  {
  }

  lemma {:induction false} DropAbsent<K, V>(m: map<K, V>, o: K)
    requires o !in m
    ensures m - {o} == m
  {
  }

  /** Writing another key commutes with dropping `o` and writing `n`. */
  lemma {:induction false} DropPut<K, V>(m: map<K, V>, o: K, n: K, v: V, k: K, w: V)
    requires k != o && k != n
    ensures ((m - {o})[n := v])[k := w] == (m[k := w] - {o})[n := v]
    ensures (m - {o})[k := w] == m[k := w] - {o}
  {
  }

  /** The owner of `o` is in `base_classes` exactly when its type is `BaseClass`. */
  lemma {:induction false} BaseOwned(entries: seq<Entry>, ec: EntityClass, o: string, t: string)
    requires OwnsName(entries, ec, o) && TypedAs(entries, ec, t) && o in ClassIndex(entries)
    ensures o in BaseIndex(entries) <==> t == BaseClassType
  {
    ClassKeys(entries, o);
    IndexIsLastMatch(entries, o, true);
    IndexIsLastMatch(entries, o, false);
    var i := LastMatch(entries, o, false).value;
    assert entries[i].ec == ec;
    if t == BaseClassType {
      assert Matches(entries[i], o, true);
    }
  }

  /** A key of `class_map` names one of the listed classes, which carries that name. */
  lemma {:induction false} RecordedClass(es: seq<Element>, k: string)
    requires UniqueNames(EntriesOf(es)) && k in ClassIndex(EntriesOf(es))
    ensures Entity(ClassIndex(EntriesOf(es))[k]) in es && ClassIndex(EntriesOf(es))[k].name == k
  {
    var entries := EntriesOf(es);
    ClassKeys(entries, k);
    UniqueIndex(entries);
    EntriesCurrent(es);
    var i :| 0 <= i < |entries| && entries[i].name == k;
    assert ClassIndex(entries)[k] == entries[i].ec;
  }

  /** A new name keeps the names unique. */
  lemma {:induction false} AppendUnique(entries: seq<Entry>, x: Entry)
    requires UniqueNames(entries) && NameAbsent(entries, x.name)
    ensures UniqueNames(entries + [x])
  {
    var r := entries + [x];
    forall i, j | 0 <= i < j < |r| ensures r[i].name != r[j].name {
      if j < |entries| {
        assert r[i] == entries[i] && r[j] == entries[j];
      } else {
        assert r[i] == entries[i];
      }
    }
  }

  // ---------------------------------------------------------------- list.remove

  /** The position `list.remove(x)` takes out: the first one holding `x`. */
  function FirstIndex<T(==)>(s: seq<T>, x: T): (i: nat)
    requires x in s
    ensures i < |s| && s[i] == x
    ensures forall j :: 0 <= j < i ==> s[j] != x
  {
    if s[0] == x then 0 else 1 + FirstIndex(s[1..], x)
  }

  /** `list.remove(x)`: the list without its first `x`, the rest in order. */
  function RemoveFirst<T(==)>(s: seq<T>, x: T): (r: seq<T>)
    requires x in s
    ensures multiset(r) == multiset(s) - multiset{x}
    ensures |r| == |s| - 1
  {
    var i := FirstIndex(s, x);
    assert s == s[..i] + [x] + s[i + 1..];
    s[..i] + s[i + 1..]
  }

  /** `list.remove` keeps the other elements in their order: before the removed
      position nothing moves, after it every element moves up by one. */
  lemma {:induction false} RemoveFirstOrder<T>(s: seq<T>, x: T)
    requires x in s
    ensures forall j :: 0 <= j < FirstIndex(s, x) ==> RemoveFirst(s, x)[j] == s[j]
    ensures forall j :: FirstIndex(s, x) <= j < |s| - 1 ==> RemoveFirst(s, x)[j] == s[j + 1]
  {
  }

  // ---------------------------------------------------------------- the index edits

  /** What an edit did: nothing (the input was empty or the same), refused it
      (the editor shows an error), raised (a `KeyError` or `ValueError` from the
      index edit, before anything changed), or applied it. */
  datatype EditOutcome = Ignored | Refused | Raised | Applied

  /** The indexes and the uniqueness of the names once the listed class `ec` is renamed to the unused name `n`. */
  lemma {:induction false} RenameReady(es: seq<Element>, ec: EntityClass, n: string)
    requires UniqueNames(EntriesOf(es)) && Entity(ec) in es
    requires n !in ClassIndex(EntriesOf(es)) && n != ec.name
    ensures ClassIndex(Retag(EntriesOf(es), ec, n, ec.classType)) == (ClassIndex(EntriesOf(es)) - {ec.name})[n := ec]
    ensures BaseIndex(Retag(EntriesOf(es), ec, n, ec.classType))
            == if ec.classType == BaseClassType then (BaseIndex(EntriesOf(es)) - {ec.name})[n := ec]
               else BaseIndex(EntriesOf(es)) - {ec.name}
    ensures UniqueNames(Retag(EntriesOf(es), ec, n, ec.classType))
  {
    var entries, o, t := EntriesOf(es), ec.name, ec.classType;
    OwnName(es, ec);
    UnusedName(entries, n);
    RenameEntries(entries, ec, o, n, t);
  }

  /** The indexes and the uniqueness of the names once the owner `ec` of `o` is renamed to `n`. */
  lemma {:induction false} RenameEntries(entries: seq<Entry>, ec: EntityClass, o: string, n: string, t: string)
    requires UniqueNames(entries) && OwnsName(entries, ec, o) && TypedAs(entries, ec, t)
    requires o in ClassIndex(entries) && NameAbsent(entries, n) && n != o
    ensures var r := Retag(entries, ec, n, t);
            && ClassIndex(r) == (ClassIndex(entries) - {o})[n := ec]
            && BaseIndex(r) == (if t == BaseClassType then (BaseIndex(entries) - {o})[n := ec] else BaseIndex(entries) - {o})
            && UniqueNames(r)
  {
    RenameClassIndex(entries, ec, o, n, t);
    RenameBaseIndex(entries, ec, o, n, t);
    RetagUnique(entries, ec, o, n, t);
  }

  /** A listed class's name is a key of `class_map` while the indexes are in step. */
  lemma {:induction false} ListedName(es: seq<Element>, ec: EntityClass)
    requires Entity(ec) in es
    ensures ec.name in ClassIndex(EntriesOf(es))
  {
    var entries := EntriesOf(es);
    EntriesCurrent(es);
    var i :| 0 <= i < |es| && es[i] == Entity(ec);
    var m := EntryAt(es, i);
    ClassKeys(entries, ec.name);
  }

  /** `_update_element_name`: the indexes move from the old name to the new one as
      the editor writes them: the old name leaves both maps (whichever class it
      mapped to), the new name maps to `ec`, and to `base_classes` when `ec` is a
      `BaseClass`. The old name missing from `class_map` raises `KeyError`. */
  method RenameClass(doc: FGDFile, ec: EntityClass, newName: string) returns (outcome: EditOutcome)
    modifies doc`classMap, doc`baseClasses, ec`name
    ensures outcome == (if newName == [] || newName == old(ec.name) then Ignored
                        else if newName in old(doc.classMap) then Refused
                        else if old(ec.name) !in old(doc.classMap) then Raised else Applied)
    ensures outcome != Applied ==> ec.name == old(ec.name) && unchanged(doc)
    ensures outcome == Applied ==> ec.name == newName
    ensures outcome == Applied ==> doc.classMap == (old(doc.classMap) - {old(ec.name)})[newName := ec]
    ensures outcome == Applied ==> doc.baseClasses == if ec.classType == BaseClassType
                                                     then (old(doc.baseClasses) - {old(ec.name)})[newName := ec]
                                                     else old(doc.baseClasses) - {old(ec.name)}
    ensures old(doc.Valid()) && Entity(ec) in old(doc.elements) ==> outcome != Raised
    ensures old(doc.Valid() && doc.Unique()) && Entity(ec) in old(doc.elements) ==> doc.Valid() && doc.Unique()
  {
    if newName == [] || newName == ec.name {
      return Ignored;
    }
    if newName in doc.classMap {
      return Refused;
    }
    if Entity(ec) in doc.elements {
      ListedName(doc.elements, ec);
    }
    if ec.name !in doc.classMap {
      return Raised;
    }
    MoveName(doc, ec, newName);
    return Applied;
  }

  /** The applied half of `_update_element_name`. */
  method MoveName(doc: FGDFile, ec: EntityClass, newName: string)
    requires newName != ec.name && newName !in doc.classMap
    modifies doc`classMap, doc`baseClasses, ec`name
    ensures ec.name == newName
    ensures doc.classMap == (old(doc.classMap) - {old(ec.name)})[newName := ec]
    ensures doc.baseClasses == if ec.classType == BaseClassType
                               then (old(doc.baseClasses) - {old(ec.name)})[newName := ec]
                               else old(doc.baseClasses) - {old(ec.name)}
    ensures old(doc.Valid() && doc.Unique()) && Entity(ec) in old(doc.elements) ==> doc.Valid() && doc.Unique()
  {
    ghost var ready := doc.Valid() && doc.Unique() && Entity(ec) in doc.elements;
    var o, t := ec.name, ec.classType;
    if ready {
      RenameReady(doc.elements, ec, newName);
    }
    var b: map<string, EntityClass> := doc.baseClasses;
    if o in b {
      b := b - {o};
    } else {
      DropAbsent(b, o);
    }
    var m: map<string, EntityClass> := (doc.classMap - {o})[newName := ec];
    if t == BaseClassType {
      b := b[newName := ec];
    }
    doc.SetIndexes(m, b);
    ec.SetName(newName, doc.elements);
  }

  /** `_update_class_type`: `class_map` is untouched; when the class was a
      `BaseClass` its name leaves `base_classes`, and when it becomes one its name
      maps to it there. */
  method ChangeClassType(doc: FGDFile, ec: EntityClass, newType: string) returns (outcome: EditOutcome)
    modifies doc`classMap, doc`baseClasses, ec`classType
    ensures outcome == (if newType == old(ec.classType) then Ignored else Applied)
    ensures ec.classType == newType && doc.classMap == old(doc.classMap)
    ensures doc.baseClasses == if outcome == Ignored then old(doc.baseClasses)
                               else if newType == BaseClassType then old(doc.baseClasses)[ec.name := ec]
                               else if old(ec.classType) == BaseClassType then old(doc.baseClasses) - {ec.name}
                               else old(doc.baseClasses)
    ensures old(doc.Valid() && doc.Unique()) && Entity(ec) in old(doc.elements) ==> doc.Valid() && doc.Unique()
  {
    if newType == ec.classType {
      return Ignored;
    }
    ghost var ready := doc.Valid() && doc.Unique() && Entity(ec) in doc.elements;
    var o := ec.name;
    if ready {
      RetypeReady(doc.elements, ec, newType);
    }
    var b: map<string, EntityClass> := doc.baseClasses;
    if ec.classType == BaseClassType {
      if o in b {
        b := b - {o};
      } else {
        DropAbsent(b, o);
      }
    } else if ready && newType != BaseClassType {
      DropAbsent(b, o);
    }
    if newType == BaseClassType {
      b := b[o := ec];
    }
    doc.SetIndexes(doc.classMap, b);
    ec.SetClassType(newType, doc.elements);
    return Applied;
  }

  /** The indexes and the uniqueness of the names once the listed class `ec` takes the type `t`. */
  lemma {:induction false} RetypeReady(es: seq<Element>, ec: EntityClass, t: string)
    requires UniqueNames(EntriesOf(es)) && Entity(ec) in es
    ensures var entries, o := EntriesOf(es), ec.name;
            var r := Retag(entries, ec, o, t);
            && (o in BaseIndex(entries) <==> ec.classType == BaseClassType)
            && ClassIndex(r) == ClassIndex(entries)
            && BaseIndex(r) == (if t == BaseClassType then BaseIndex(entries)[o := ec] else BaseIndex(entries) - {o})
            && UniqueNames(r)
  {
    var entries, o := EntriesOf(es), ec.name;
    OwnName(es, ec);
    BaseOwned(entries, ec, o, ec.classType);
    RetypeClassIndex(entries, ec, o, t);
    RetypeBaseIndex(entries, ec, o, t);
    RetagUnique(entries, ec, o, o, t);
  }

  /** `_delete_selected_element`: the class `class_map` holds under `name` leaves
      the list (its first occurrence) and `class_map`, and leaves `base_classes`
      when it is a `BaseClass`. A class that is not in the list raises `ValueError`. */
  method DeleteClass(doc: FGDFile, name: string) returns (outcome: EditOutcome)
    modifies doc
    ensures outcome == (if name !in old(doc.classMap) then Ignored
                        else if Entity(old(doc.classMap)[name]) !in old(doc.elements) then Raised else Applied)
    ensures outcome != Applied ==> unchanged(doc)
    ensures outcome == Applied ==> doc.elements == RemoveFirst(old(doc.elements), Entity(old(doc.classMap)[name]))
    ensures outcome == Applied ==> doc.classMap == old(doc.classMap) - {name}
    ensures outcome == Applied ==> doc.baseClasses == if old(doc.classMap[name].classType) == BaseClassType
                                                     then old(doc.baseClasses) - {name} else old(doc.baseClasses)
    ensures old(doc.Valid()) ==> outcome != Raised
    ensures old(doc.Valid() && doc.Unique()) ==> doc.Valid() && doc.Unique()
  {
    if name !in doc.classMap {
      return Ignored;
    }
    var ec := doc.classMap[name];
    if doc.Valid() {
      RecordedEntry(doc.elements, name);
    }
    if Entity(ec) !in doc.elements {
      return Raised;
    }
    RemoveClass(doc, name);
    return Applied;
  }

  /** The applied half of `_delete_selected_element`. */
  method RemoveClass(doc: FGDFile, name: string)
    requires name in doc.classMap && Entity(doc.classMap[name]) in doc.elements
    modifies doc
    ensures doc.elements == RemoveFirst(old(doc.elements), Entity(old(doc.classMap)[name]))
    ensures doc.classMap == old(doc.classMap) - {name}
    ensures doc.baseClasses == if old(doc.classMap[name].classType) == BaseClassType
                               then old(doc.baseClasses) - {name} else old(doc.baseClasses)
    ensures old(doc.Valid() && doc.Unique()) ==> doc.Valid() && doc.Unique()
  {
    var ec := doc.classMap[name];
    ghost var ready := doc.Valid() && doc.Unique();
    if ready {
      DeleteReady(doc.elements, name);
    }
    var b: map<string, EntityClass> := doc.baseClasses;
    if ec.classType == BaseClassType {
      if name in b {
        b := b - {name};
      } else {
        DropAbsent(b, name);
      }
    } else if ready {
      DropAbsent(b, name);
    }
    doc.SetContents(RemoveFirst(doc.elements, Entity(ec)), doc.classMap - {name}, b);
  }

  /** A key of `class_map` maps to a listed class, duplicates or not. */
  lemma {:induction false} RecordedEntry(es: seq<Element>, k: string)
    requires k in ClassIndex(EntriesOf(es))
    ensures Entity(ClassIndex(EntriesOf(es))[k]) in es
  {
    var entries := EntriesOf(es);
    IndexIsLastMatch(entries, k, false);
    EntriesCurrent(es);
  }

  /** The indexes and the uniqueness of the names once the class under `k` is removed from the list. */
  lemma {:induction false} DeleteReady(es: seq<Element>, k: string)
    requires UniqueNames(EntriesOf(es)) && k in ClassIndex(EntriesOf(es))
    ensures var entries := EntriesOf(es);
            var ec := ClassIndex(entries)[k];
            && Entity(ec) in es
            && (k in BaseIndex(entries) <==> ec.classType == BaseClassType)
            && var r := EntriesOf(RemoveFirst(es, Entity(ec)));
               && ClassIndex(r) == ClassIndex(entries) - {k} && BaseIndex(r) == BaseIndex(entries) - {k}
               && UniqueNames(r)
  {
    var entries := EntriesOf(es);
    RecordedClass(es, k);
    var ec := ClassIndex(entries)[k];
    OwnName(es, ec);
    BaseOwned(entries, ec, k, ec.classType);
    var m := RemovedEntries(es, Entity(ec));
    DropReady(entries, m, k);
  }

  /** The entries of the list after `list.remove(x)` lack exactly the entry of `x`. */
  lemma {:induction false} RemovedEntries(es: seq<Element>, x: Element) returns (m: nat)
    requires x in es && x.Entity?
    ensures var entries := EntriesOf(es);
            && m < |entries| && entries[m] == Entry(x.ec.name, x.ec.classType, x.ec)
            && EntriesOf(RemoveFirst(es, x)) == entries[..m] + entries[m + 1..]
  {
    var i := FirstIndex(es, x);
    assert RemoveFirst(es, x) == es[..i] + es[i + 1..];
    m := EntryAt(es, i);
  }

  lemma {:induction false} DropReady(entries: seq<Entry>, m: nat, k: string)
    requires UniqueNames(entries) && m < |entries| && entries[m].name == k
    ensures var r := entries[..m] + entries[m + 1..];
            && ClassIndex(r) == ClassIndex(entries) - {k} && BaseIndex(r) == BaseIndex(entries) - {k}
            && UniqueNames(r)
  {
    DropIndex(entries, m, entries[..m] + entries[m + 1..]);
    DropUnique(entries, m);
  }

  /** `_add_new_element`: the new class is refused when the name is empty or taken,
      dropped when the type is empty, and otherwise appended and indexed. */
  method AddNewClass(doc: FGDFile, name: string, classType: string) returns (outcome: EditOutcome, added: Option<EntityClass>)
    modifies doc
    ensures outcome == (if name == [] then Ignored else if name in old(doc.classMap) then Refused
                        else if classType == [] then Ignored else Applied)
    ensures added.Some? <==> outcome == Applied
    ensures outcome != Applied ==> unchanged(doc)
    ensures added.Some? ==> var ec := added.value;
              && fresh(ec) && ec.name == name && ec.classType == classType && ec.description == NewClassDescription
              && ec.baseClasses == [] && ec.properties == [] && ec.inputs == [] && ec.outputs == [] && ec.helpers == []
              && doc.elements == old(doc.elements) + [Entity(ec)]
              && doc.classMap == old(doc.classMap)[name := ec]
              && doc.baseClasses == if classType == BaseClassType then old(doc.baseClasses)[name := ec] else old(doc.baseClasses)
    ensures old(doc.Valid()) ==> doc.Valid()
    ensures old(doc.Valid() && doc.Unique()) ==> doc.Unique()
  {
    if name == [] {
      return Ignored, None;
    }
    if name in doc.classMap {
      return Refused, None;
    }
    if classType == [] {
      return Ignored, None;
    }
    ghost var es := doc.elements;
    ghost var wasValid, wasUnique := doc.Valid(), doc.Valid() && doc.Unique();
    if wasValid {
      UnusedName(EntriesOf(es), name);
    }
    label pre:
    var ec := new EntityClass(classType, name, NewClassDescription, [], [], [], [], []);
    label made:
    doc.AddElement(Entity(ec));
    if wasValid {
      doc.AppendValid@made(Entity(ec));
    }
    EntriesStable@pre(es);
    EntriesOfAppend(es, Entity(ec));
    assert EntryList(Entity(ec)) == [Entry(name, classType, ec)];
    if wasUnique {
      AppendUnique(old@pre(EntriesOf(es)), Entry(name, classType, ec));
    }
    return Applied, Some(ec);
  }

  // ---------------------------------------------------------------- namesakes

  /* `add_element` accepts a second class of a taken name, and the parser adds
     every class it reads, so a document can list two classes of one name. The
     hand edits above then leave the indexes out of step with the list: */

  /** Renaming `ec` away from `o` while another listed class is also named `o`:
      the `class_map` the editor writes lacks `o`, but the list still has an `o`. */
  lemma {:induction false} RenameLeavesNamesake(entries: seq<Entry>, ec: EntityClass, o: string, n: string, t: string,
                                                 j: nat, m: map<string, EntityClass>)
    requires j < |entries| && entries[j].name == o && entries[j].ec != ec && n != o
    ensures (m - {o})[n := ec] != ClassIndex(Retag(entries, ec, n, t))
  {
    var r := Retag(entries, ec, n, t);
    assert r[j] == entries[j];
    ClassKeys(r, o);
  }

  /** Retyping the `BaseClass` `ec` named `o` while another listed `BaseClass` is
      also named `o`: the `base_classes` the editor writes lacks `o`, but the list
      still has a `BaseClass` named `o`. */
  lemma {:induction false} RetypeLeavesNamesake(entries: seq<Entry>, ec: EntityClass, o: string, t: string,
                                                 j: nat, b: map<string, EntityClass>)
    requires j < |entries| && entries[j].name == o && entries[j].classType == BaseClassType && entries[j].ec != ec
    requires t != BaseClassType
    ensures b - {o} != BaseIndex(Retag(entries, ec, o, t))
  {
    var r := Retag(entries, ec, o, t);
    assert r[j] == entries[j] && Matches(r[j], o, true);
    IndexIsLastMatch(r, o, true);
  }

  /** Deleting the class `class_map` holds under `k` while another listed class is
      also named `k`: the `class_map` the editor writes lacks `k`, but the list
      still has a `k`. */
  lemma {:induction false} DeleteLeavesNamesake(es: seq<Element>, k: string, other: EntityClass)
    requires k in ClassIndex(EntriesOf(es)) && Entity(other) in es && other.name == k
    requires other != ClassIndex(EntriesOf(es))[k]
    ensures Entity(ClassIndex(EntriesOf(es))[k]) in es
    ensures ClassIndex(EntriesOf(es)) - {k} != ClassIndex(EntriesOf(RemoveFirst(es, Entity(ClassIndex(EntriesOf(es))[k]))))
  {
    var ec := ClassIndex(EntriesOf(es))[k];
    RecordedEntry(es, k);
    var r := RemoveFirst(es, Entity(ec));
    assert Entity(other) in multiset(r);
    ListedName(r, other);
  }

  /** The description `_add_new_element` gives a new class. */
  const NewClassDescription := "A new entity class."

  // ---------------------------------------------------------------- text fields

  /** `_update_base_classes`: the comma-separated, stripped, non-empty pieces in order. */
  method UpdateBaseClasses(ec: EntityClass, text: string)
    modifies ec`baseClasses
    ensures ec.baseClasses == BaseList(text)
  {
    ec.baseClasses := BaseList(text);
  }

  /** `tuple(map(int, words))`: `None` where `int()` raises on some word. */
  function ParseInts(words: seq<string>): (r: Option<seq<int>>)
    ensures r.Some? <==> forall i :: 0 <= i < |words| ==> ParseInt(words[i]).Some?
    ensures r.Some? ==> |r.value| == |words| && forall i :: 0 <= i < |words| ==> ParseInt(words[i]) == Some(r.value[i])
    decreases |words|
  {
    if words == [] then Some([])
    else
      match (ParseInt(words[0]), ParseInts(words[1..]))
      case (Some(v), Some(vs)) => Some([v] + vs)
      case _ => None
  }

  /** The colour field, and either corner of the size field: exactly three
      whitespace-separated integers, otherwise `None`. */
  function ParseCoord(text: string): (r: Option<Coord>)
    ensures var w := SplitWhitespace(text);
            r.Some? <==> |w| == 3 && forall i :: 0 <= i < 3 ==> ParseInt(w[i]).Some?
    ensures var w := SplitWhitespace(text);
            r.Some? ==> ParseInt(w[0]) == Some(r.value.0) && ParseInt(w[1]) == Some(r.value.1) && ParseInt(w[2]) == Some(r.value.2)
  {
    match ParseInts(SplitWhitespace(text))
    case Some(v) => if |v| == 3 then Some((v[0], v[1], v[2])) else None
    case None => None
  }

  /** The size field: both corners parse, otherwise `None`. */
  function ParseSize(lo: string, hi: string): (r: Option<(Coord, Coord)>)
    ensures r.Some? <==> ParseCoord(lo).Some? && ParseCoord(hi).Some?
    ensures r.Some? ==> Some(r.value.0) == ParseCoord(lo) && Some(r.value.1) == ParseCoord(hi)
  {
    match (ParseCoord(lo), ParseCoord(hi))
    case (Some(a), Some(b)) => Some((a, b))
    case _ => None
  }

  /** `_update_inline_attribute_color`. */
  method UpdateColor(ec: EntityClass, text: string)
    modifies ec`color
    ensures ec.color == ParseCoord(text)
  {
    ec.color := ParseCoord(text);
  }

  /** `_update_inline_attribute_size`. */
  method UpdateSize(ec: EntityClass, lo: string, hi: string)
    modifies ec`size
    ensures ec.size == ParseSize(lo, hi)
  {
    ec.size := ParseSize(lo, hi);
  }

  /** An integer's decimal text is one word. */
  lemma {:induction false} IntWord(n: int)
    ensures IsWord(IntToString(n))
  {
    var s := IntToString(n);
    if n < 0 {
      assert s == "-" + NatToString(-n);
      forall j | 0 <= j < |s| ensures !IsSpace(s[j]) {
        if j > 0 {
          assert s[j] == NatToString(-n)[j - 1];
        }
      }
    }
  }

  /** Three words joined by single spaces. */
  lemma {:induction false} JoinThree(a: string, b: string, d: string)
    ensures Join([a, b, d], " ") == a + " " + b + " " + d
  {
    assert [a, b, d][1..] == [b, d] && [b, d][1..] == [d];
    assert Join([b, d], " ") == b + " " + d;
    assert a + " " + (b + " " + d) == a + " " + b + " " + d;
  }

  /** The colour the editor shows (`"r g b"`) reads back as the same colour. */
  lemma {:induction false} CoordTextReadBack(c: Coord)
    ensures ParseCoord(CoordText(c)) == Some(c)
  {
    CoordWords(c);
    ParseCoordWords(CoordText(c), c);
  }

  /** The colour text splits into the three numbers' texts. */
  lemma {:induction false} CoordWords(c: Coord)
    ensures SplitWhitespace(CoordText(c)) == [IntToString(c.0), IntToString(c.1), IntToString(c.2)]
  {
    var a, b, d := IntToString(c.0), IntToString(c.1), IntToString(c.2);
    JoinThree(a, b, d);
    IntWord(c.0);
    IntWord(c.1);
    IntWord(c.2);
    SplitWhitespaceJoin([a, b, d]);
  }

  /** Three words that are the numbers' texts parse back as the numbers. */
  lemma {:induction false} ParseCoordWords(text: string, c: Coord)
    requires SplitWhitespace(text) == [IntToString(c.0), IntToString(c.1), IntToString(c.2)]
    ensures ParseCoord(text) == Some(c)
  {
    var w := SplitWhitespace(text);
    ParseIntToString(c.0);
    ParseIntToString(c.1);
    ParseIntToString(c.2);
    assert ParseInt(w[0]) == Some(c.0) && ParseInt(w[1]) == Some(c.1) && ParseInt(w[2]) == Some(c.2);
    var v := ParseInts(w).value;
    assert v[0] == c.0 && v[1] == c.1 && v[2] == c.2;
  }

  /** The size the editor shows reads back as the same size. */
  lemma {:induction false} SizeTextReadBack(lo: Coord, hi: Coord)
    ensures ParseSize(CoordText(lo), CoordText(hi)) == Some((lo, hi))
  {
    CoordTextReadBack(lo);
    CoordTextReadBack(hi);
  }

  // ---------------------------------------------------------------- new property

  /** `_add_property_dialog`: with a name and a type, a property of the kind the
      parser would pick for that type, with empty details and no items, goes to
      the end of `properties`. */
  method AddProperty(ec: EntityClass, name: string, propType: string)
    modifies ec`properties
    ensures ec.properties == if name == [] || propType == [] then old(ec.properties)
                             else old(ec.properties) + [Property(name, propType, "", "", "", false, false, EmptyShape(PropertyKindOf(propType)))]
  {
    if name != [] && propType != [] {
      var r := NewProperty(name, propType, "", "", "", false, false, EmptyShape(PropertyKindOf(propType)));
      ec.properties := ec.properties + [r.value];
    }
  }
}
