/** Compatibility as a relation: when it is reflexive, transitive, and an equivalence in both directions. */
module CompatibilityOrder {
  import opened Wrappers
  import opened Documents
  import opened Schemas
  import opened Rules
  import opened Soundness

  // ---------- Transitivity ----------

  lemma AnyAccepted(s: Schema, t: Schema, rx: Matcher)
    requires IsAny(t)
    ensures Compatible(s, t, rx)
  {
  }

  lemma {:induction false} PropertyTransitive(a: Schema, b: Schema, c: Schema, k: nat, rx: Matcher)
    requires k < |Props(a)| && PropertyOk(a, b, k, rx)
    requires ObjectsOk(b, c, rx) && SafeStep(b, c) && !IsAny(c) && !Finite(b)
    requires b.typ == Some(TObject) && WellFormed(c)
    ensures PropertyOk(a, c, k, rx)
    decreases a, 0
  {
    hide Compatible;
    var name := Props(a)[k].name;
    if HasProp(b, name) {
      var j := PropIndex(Props(b), name);
      assert PropertyOk(b, c, j, rx);
      if HasProp(c, name) {
        var i := PropIndex(Props(c), name);
        assert Covered(Props(b)[j].schema, PropSchema(c, Props(b)[j].name));
        assert BoundsMet(Props(b)[j].schema, PropSchema(c, Props(b)[j].name));
        assert WellFormed(Props(c)[i].schema);
        Transitive(Props(a)[k].schema, PropSchema(b, name), PropSchema(c, name), rx);
      }
    } else if HasProp(c, name) {
      var i := PropIndex(Props(c), name);
      assert HasProp(b, Props(c)[i].name) || IsAny(Props(c)[i].schema);
      AnyAccepted(Props(a)[k].schema, PropSchema(c, name), rx);
    }
  }

  lemma {:induction false} ObjectTransitive(a: Schema, b: Schema, c: Schema, rx: Matcher)
    requires ObjectsOk(a, b, rx) && ObjectsOk(b, c, rx) && SafeStep(b, c) && !IsAny(c) && !Finite(b)
    requires b.typ == Some(TObject) && WellFormed(c)
    ensures ObjectsOk(a, c, rx)
    decreases a, 1
  {
    hide PropertyOk, SafeStep, WellFormed;
    forall i | 0 <= i < |Required(c)| ensures Required(c)[i] in Required(a) {
      var j :| 0 <= j < |Required(b)| && Required(b)[j] == Required(c)[i];
      assert Required(b)[j] in Required(a);
    }
    forall k | 0 <= k < |Props(a)| ensures PropertyOk(a, c, k, rx) {
      PropertyTransitive(a, b, c, k, rx);
    }
  }

  lemma {:induction false} ArrayTransitive(a: Schema, b: Schema, c: Schema, rx: Matcher)
    requires ArraysOk(a, b, rx) && ArraysOk(b, c, rx) && SafeStep(b, c) && !IsAny(c) && !Finite(b)
    requires WellFormed(c)
    ensures ArraysOk(a, c, rx)
    decreases a, 0
  {
    if c.items.Some? {
      Transitive(a.items.value, b.items.value, c.items.value, rx);
    }
  }

  lemma NumbersTransitive(a: NumberRules, b: NumberRules, c: NumberRules)
    requires NumbersOk(a, b) && NumbersOk(b, c)
    ensures NumbersOk(a, c)
  {
  }

  /** Two silent steps compose; only the second must be covered and meet the bounds its target hides. */
  lemma {:induction false} Transitive(a: Schema, b: Schema, c: Schema, rx: Matcher)
    requires Compatible(a, b, rx) && Compatible(b, c, rx)
    requires SafeStep(b, c) && WellFormed(c)
    ensures Compatible(a, c, rx)
    decreases a, 3
  {
    if IsAny(b) || IsAny(c) {
    } else if a.constant.Some? {
      Sound(b, c, a.constant.value, rx);
    } else if a.enumeration.Some? {
      forall i | 0 <= i < |a.enumeration.value| ensures Valid(c, a.enumeration.value[i], rx) {
        Sound(b, c, a.enumeration.value[i], rx);
      }
    } else if c.typ.Some? {
      TypedTransitive(a, b, c, rx);
    } else {
      assert TypedOk(a, c, rx);
    }
  }

  lemma {:induction false} TypedTransitive(a: Schema, b: Schema, c: Schema, rx: Matcher)
    requires Compatible(a, b, rx) && Compatible(b, c, rx)
    requires !IsAny(b) && !IsAny(c) && !Finite(a) && c.typ.Some?
    requires SafeStep(b, c) && WellFormed(c)
    ensures !Finite(c) && !TypeConflict(a, c) && TypedOk(a, c, rx)
    decreases a, 2
  {
    hide ObjectsOk, ArraysOk, Valid, WellFormed, NumbersOk;
    match c.typ.value
    case TObject => ObjectTransitive(a, b, c, rx);
    case TArray => ArrayTransitive(a, b, c, rx);
    case TInteger => NumbersTransitive(a.numbers, b.numbers, c.numbers);
    case TNumber => NumbersTransitive(a.numbers, b.numbers, c.numbers);
    case _ =>
  }

  // ---------- Reflexivity ----------

  /** Equal in all keywords that hold no schemas. */
  predicate SameKeywords(a: Schema, b: Schema) {
    && a.dialect == b.dialect && a.typ == b.typ
    && a.constant == b.constant && a.enumeration == b.enumeration
    && a.strings == b.strings && a.numbers == b.numbers
    && a.required == b.required && a.additional == b.additional
    && a.minItems == b.minItems && a.maxItems == b.maxItems
  }

  /** Equal up to the order in which properties are listed. */
  predicate Similar(a: Schema, b: Schema)
    decreases a
  {
    && SameKeywords(a, b)
    && a.items.Some? == b.items.Some?
    && (a.items.Some? ==> Similar(a.items.value, b.items.value))
    && a.properties.Declared? == b.properties.Declared?
    && (forall k | 0 <= k < |Props(a)| ::
          HasProp(b, Props(a)[k].name) && Similar(Props(a)[k].schema, PropSchema(b, Props(a)[k].name)))
    && (forall j | 0 <= j < |Props(b)| :: HasProp(a, Props(b)[j].name))
  }

  /** The values listed by a `const` or `enum` are accepted by the node that lists them. */
  predicate SelfConsistent(s: Schema, rx: Matcher)
    decreases s
  {
    if s.constant.Some? then Valid(s, s.constant.value, rx)
    else if s.enumeration.Some? then AcceptsAll(s, s.enumeration.value, rx)
    else
      && (s.items.Some? ==> SelfConsistent(s.items.value, rx))
      && (forall k | 0 <= k < |Props(s)| :: SelfConsistent(Props(s)[k].schema, rx))
  }

  lemma {:induction false} SimilarAccepts(a: Schema, b: Schema, v: Value, rx: Matcher)
    requires Similar(a, b) && WellFormed(a) && WellFormed(b)
    ensures Valid(a, v, rx) <==> Valid(b, v, rx)
    decreases a, 2
  {
    hide Similar, WellFormed, FieldsFit, ElementsFit, OwnFit, NamesFit, Valid;
    SimilarElements(a, b, v, rx);
    SimilarOwn(a, b, v, rx);
    if v.VObj? {
      SimilarFields(a, b, v, rx);
    }
    ValidSplit(a, v, rx);
    ValidSplit(b, v, rx);
  }

  /** The part of validity that looks at a node's own keywords. */
  predicate OwnFit(s: Schema, v: Value, rx: Matcher) {
    && (s.typ.Some? ==> HasType(v, s.typ.value))
    && (s.constant.Some? ==> v == s.constant.value)
    && (s.enumeration.Some? ==> v in s.enumeration.value)
    && (v.VStr? ==> FitsText(s.strings, v.text, rx))
    && (v.VNum? ==> InBounds(s.numbers, v.number))
    && (v.VArr? ==> InRange(|v.elems|, s.minItems, s.maxItems))
    && (v.VObj? ==> forall i | 0 <= i < |Required(s)| :: Required(s)[i] in v.fields)
  }

  predicate NamesFit(s: Schema, v: Value) {
    v.VObj? && !Open(s) ==> forall name | name in v.fields :: HasProp(s, name)
  }

  predicate ElementsFit(s: Schema, v: Value, rx: Matcher) {
    v.VArr? && s.items.Some? ==> forall i | 0 <= i < |v.elems| :: Valid(s.items.value, v.elems[i], rx)
  }

  lemma ValidSplit(s: Schema, v: Value, rx: Matcher)
    ensures Valid(s, v, rx) <==>
            OwnFit(s, v, rx) && NamesFit(s, v) && ElementsFit(s, v, rx) && (v.VObj? ==> FieldsFit(s, v, rx))
  {
  }

  lemma SimilarOwn(a: Schema, b: Schema, v: Value, rx: Matcher)
    requires Similar(a, b)
    ensures OwnFit(a, v, rx) <==> OwnFit(b, v, rx)
    ensures NamesFit(a, v) <==> NamesFit(b, v)
  {
    assert (a.enumeration.Some? ==> v in a.enumeration.value) <==> (b.enumeration.Some? ==> v in b.enumeration.value);
    assert Required(a) == Required(b);
    forall name ensures HasProp(a, name) <==> HasProp(b, name) {
      if HasProp(a, name) { assert HasProp(b, Props(a)[PropIndex(Props(a), name)].name); }
      if HasProp(b, name) { assert HasProp(a, Props(b)[PropIndex(Props(b), name)].name); }
    }
  }

  lemma {:induction false} SimilarElements(a: Schema, b: Schema, v: Value, rx: Matcher)
    requires Similar(a, b) && WellFormed(a) && WellFormed(b)
    ensures ElementsFit(a, v, rx) <==> ElementsFit(b, v, rx)
    decreases a, 0
  {
    hide Valid;
    if a.items.Some? && v.VArr? {
      forall i | 0 <= i < |v.elems|
        ensures Valid(a.items.value, v.elems[i], rx) <==> Valid(b.items.value, v.elems[i], rx)
      {
        SimilarAccepts(a.items.value, b.items.value, v.elems[i], rx);
      }
    }
  }

  predicate FieldsFit(s: Schema, v: Value, rx: Matcher)
    requires v.VObj?
  {
    forall i | 0 <= i < |Props(s)| && Props(s)[i].name in v.fields ::
      Valid(Props(s)[i].schema, v.fields[Props(s)[i].name], rx)
  }

  lemma {:induction false} SimilarFields(a: Schema, b: Schema, v: Value, rx: Matcher)
    requires Similar(a, b) && WellFormed(a) && WellFormed(b) && v.VObj?
    ensures FieldsFit(a, v, rx) <==> FieldsFit(b, v, rx)
    decreases a, 0
  {
    hide Valid;
    forall k | 0 <= k < |Props(a)| && Props(a)[k].name in v.fields
      ensures Valid(Props(a)[k].schema, v.fields[Props(a)[k].name], rx) <==>
              Valid(PropSchema(b, Props(a)[k].name), v.fields[Props(a)[k].name], rx)
    {
      SimilarAccepts(Props(a)[k].schema, PropSchema(b, Props(a)[k].name), v.fields[Props(a)[k].name], rx);
    }
    if FieldsFit(a, v, rx) {
      forall j | 0 <= j < |Props(b)| && Props(b)[j].name in v.fields
        ensures Valid(Props(b)[j].schema, v.fields[Props(b)[j].name], rx)
      {
        UniqueIndex(b, j);
        var k := PropIndex(Props(a), Props(b)[j].name);
        assert Props(a)[k].name == Props(b)[j].name;
      }
    }
    if FieldsFit(b, v, rx) {
      forall k | 0 <= k < |Props(a)| && Props(a)[k].name in v.fields
        ensures Valid(Props(a)[k].schema, v.fields[Props(a)[k].name], rx)
      {
        var j := PropIndex(Props(b), Props(a)[k].name);
        assert Props(b)[j].name == Props(a)[k].name;
      }
    }
  }

  /** Two listings of one schema are compatible exactly when its finite nodes accept their own values. */
  lemma {:induction false} SimilarCompatible(a: Schema, b: Schema, rx: Matcher)
    requires Similar(a, b) && WellFormed(a) && WellFormed(b)
    ensures Compatible(a, b, rx) <==> SelfConsistent(a, rx)
    decreases a, 2
  {
    if IsAny(a) || IsAny(b) {
      assert Props(a) == [] && a.items.None?;
    } else if a.constant.Some? {
      SimilarAccepts(a, b, a.constant.value, rx);
    } else if a.enumeration.Some? {
      forall i | 0 <= i < |a.enumeration.value|
        ensures Valid(b, a.enumeration.value[i], rx) <==> Valid(a, a.enumeration.value[i], rx)
      {
        SimilarAccepts(a, b, a.enumeration.value[i], rx);
      }
    } else {
      SimilarTyped(a, b, rx);
    }
  }

  lemma {:induction false} SimilarObjects(a: Schema, b: Schema, rx: Matcher)
    requires Similar(a, b) && WellFormed(a) && WellFormed(b)
    ensures ObjectsOk(a, b, rx) <==> forall k | 0 <= k < |Props(a)| :: SelfConsistent(Props(a)[k].schema, rx)
    decreases a, 0
  {
    hide Compatible, SelfConsistent;
    forall k | 0 <= k < |Props(a)| ensures PropertyOk(a, b, k, rx) <==> SelfConsistent(Props(a)[k].schema, rx) {
      SimilarCompatible(Props(a)[k].schema, PropSchema(b, Props(a)[k].name), rx);
    }
    assert Required(a) == Required(b) && Open(a) == Open(b);
    assert forall i | 0 <= i < |Required(b)| :: Required(b)[i] in Required(a);
  }

  lemma {:induction false} SimilarArrays(a: Schema, b: Schema, rx: Matcher)
    requires Similar(a, b) && WellFormed(a) && WellFormed(b)
    ensures ArraysOk(a, b, rx) <==> (a.items.Some? ==> SelfConsistent(a.items.value, rx))
    decreases a, 0
  {
    hide Compatible, SelfConsistent;
    if a.items.Some? {
      SimilarCompatible(a.items.value, b.items.value, rx);
    }
  }

  lemma {:induction false} SimilarTyped(a: Schema, b: Schema, rx: Matcher)
    requires Similar(a, b) && WellFormed(a) && WellFormed(b) && !Finite(a)
    ensures TypedOk(a, b, rx) <==> SelfConsistent(a, rx)
    decreases a, 1
  {
    hide ObjectsOk, ArraysOk, Valid;
    SimilarObjects(a, b, rx);
    SimilarArrays(a, b, rx);
    assert a.typ != Some(TObject) ==> Props(a) == [];
  }

  // ---------- The order of properties ----------

  lemma SimilarAny(a: Schema, a': Schema)
    requires Similar(a, a')
    ensures IsAny(a) <==> IsAny(a')
  {
    if IsAny(a) || IsAny(a') {
      assert a.items.None? && a'.items.None? && a.properties.Absent? && a'.properties.Absent?;
    }
  }

  lemma SimilarNames(a: Schema, a': Schema, name: string)
    requires Similar(a, a') && WellFormed(a) && WellFormed(a')
    ensures HasProp(a, name) <==> HasProp(a', name)
    ensures HasProp(a, name) ==> Similar(PropSchema(a, name), PropSchema(a', name))
    ensures HasProp(a, name) ==> WellFormed(PropSchema(a, name)) && WellFormed(PropSchema(a', name))
  {
    hide Similar, WellFormed;
    SimilarLists(a, a');
    if HasProp(a, name) {
      assert Props(a)[PropIndex(Props(a), name)].name == name;
    }
    if HasProp(a', name) {
      assert Props(a')[PropIndex(Props(a'), name)].name == name;
    }
  }

  lemma SimilarLists(a: Schema, a': Schema)
    requires Similar(a, a') && WellFormed(a) && WellFormed(a')
    ensures forall k | 0 <= k < |Props(a)| ::
              HasProp(a', Props(a)[k].name) && Similar(Props(a)[k].schema, PropSchema(a', Props(a)[k].name))
    ensures forall j | 0 <= j < |Props(a')| :: HasProp(a, Props(a')[j].name)
    ensures forall k | 0 <= k < |Props(a)| :: WellFormed(Props(a)[k].schema)
    ensures forall j | 0 <= j < |Props(a')| :: WellFormed(Props(a')[j].schema)
  {
  }

  /** What the checker finds about a name, however the properties are listed. */
  predicate NameOk(a: Schema, b: Schema, name: string, rx: Matcher)
    requires HasProp(a, name)
  {
    if HasProp(b, name) then Compatible(PropSchema(a, name), PropSchema(b, name), rx) else Open(b)
  }

  ghost predicate EveryNameOk(a: Schema, b: Schema, rx: Matcher) {
    forall name | HasProp(a, name) :: NameOk(a, b, name, rx)
  }

  predicate ListOk(a: Schema, b: Schema, rx: Matcher) {
    forall k | 0 <= k < |Props(a)| :: PropertyOk(a, b, k, rx)
  }

  lemma NameAt(a: Schema, b: Schema, k: nat, rx: Matcher)
    requires WellFormed(a) && k < |Props(a)|
    ensures HasProp(a, Props(a)[k].name)
    ensures PropertyOk(a, b, k, rx) <==> NameOk(a, b, Props(a)[k].name, rx)
  {
    UniqueIndex(a, k);
    hide Compatible, WellFormed;
  }

  lemma ListedNames(a: Schema, b: Schema, rx: Matcher)
    requires WellFormed(a)
    ensures ListOk(a, b, rx) <==> EveryNameOk(a, b, rx)
  {
    hide Compatible, WellFormed, PropertyOk, NameOk;
    if ListOk(a, b, rx) {
      forall name | HasProp(a, name) ensures NameOk(a, b, name, rx) {
        NameAt(a, b, PropIndex(Props(a), name), rx);
      }
    }
    if EveryNameOk(a, b, rx) {
      forall k | 0 <= k < |Props(a)| ensures PropertyOk(a, b, k, rx) {
        NameAt(a, b, k, rx);
      }
    }
  }

  lemma {:induction false} NamesReordered(a: Schema, a': Schema, b: Schema, b': Schema, rx: Matcher)
    requires Similar(a, a') && WellFormed(a) && WellFormed(a')
    requires Similar(b, b') && WellFormed(b) && WellFormed(b') && Open(b) == Open(b')
    ensures EveryNameOk(a, b, rx) <==> EveryNameOk(a', b', rx)
    decreases a, 0
  {
    hide Compatible, Similar, WellFormed, PropSchema, HasProp, Open;
    forall name
      ensures HasProp(a, name) <==> HasProp(a', name)
      ensures HasProp(a, name) ==> (NameOk(a, b, name, rx) <==> NameOk(a', b', name, rx))
    {
      SimilarNames(a, a', name);
      SimilarNames(b, b', name);
      if HasProp(a, name) && HasProp(b, name) {
        Reordered(PropSchema(a, name), PropSchema(a', name), PropSchema(b, name), PropSchema(b', name), rx);
      }
    }
  }

  lemma {:induction false} ObjectsReordered(a: Schema, a': Schema, b: Schema, b': Schema, rx: Matcher)
    requires Similar(a, a') && WellFormed(a) && WellFormed(a')
    requires Similar(b, b') && WellFormed(b) && WellFormed(b')
    ensures ObjectsOk(a, b, rx) <==> ObjectsOk(a', b', rx)
    decreases a, 1
  {
    SimilarOwnKeywords(a, a');
    SimilarOwnKeywords(b, b');
    hide Similar, WellFormed, PropertyOk, EveryNameOk, Required, Open;
    ListedNames(a, b, rx);
    ListedNames(a', b', rx);
    NamesReordered(a, a', b, b', rx);
  }

  lemma SimilarOwnKeywords(a: Schema, a': Schema)
    requires Similar(a, a')
    ensures Required(a) == Required(a') && Open(a) == Open(a') && SameKeywords(a, a')
  {
  }

  lemma {:induction false} ArraysReordered(a: Schema, a': Schema, b: Schema, b': Schema, rx: Matcher)
    requires Similar(a, a') && WellFormed(a) && WellFormed(a')
    requires Similar(b, b') && WellFormed(b) && WellFormed(b')
    ensures ArraysOk(a, b, rx) <==> ArraysOk(a', b', rx)
    decreases a, 0
  {
    hide Compatible;
    if a.items.Some? && b.items.Some? {
      Reordered(a.items.value, a'.items.value, b.items.value, b'.items.value, rx);
    }
  }

  /** The checker's verdict does not depend on the order in which properties are listed. */
  lemma {:induction false} Reordered(a: Schema, a': Schema, b: Schema, b': Schema, rx: Matcher)
    requires Similar(a, a') && WellFormed(a) && WellFormed(a')
    requires Similar(b, b') && WellFormed(b) && WellFormed(b')
    ensures Compatible(a, b, rx) <==> Compatible(a', b', rx)
    decreases a, 2
  {
    hide ObjectsOk, ArraysOk, Valid, Similar, WellFormed;
    SimilarAny(a, a');
    SimilarAny(b, b');
    SimilarOwnKeywords(a, a');
    SimilarOwnKeywords(b, b');
    if a.constant.Some? {
      SimilarAccepts(b, b', a.constant.value, rx);
    } else if a.enumeration.Some? {
      forall i | 0 <= i < |a.enumeration.value|
        ensures Valid(b, a.enumeration.value[i], rx) <==> Valid(b', a.enumeration.value[i], rx)
      {
        SimilarAccepts(b, b', a.enumeration.value[i], rx);
      }
    } else {
      ObjectsReordered(a, a', b, b', rx);
      ArraysReordered(a, a', b, b', rx);
    }
  }

  /** Two listings of one schema are self-consistent together. */
  lemma {:induction false} SimilarConsistent(a: Schema, b: Schema, rx: Matcher)
    requires Similar(a, b) && WellFormed(a) && WellFormed(b)
    ensures SelfConsistent(a, rx) <==> SelfConsistent(b, rx)
    decreases a
  {
    if a.constant.Some? {
      SimilarAccepts(a, b, a.constant.value, rx);
    } else if a.enumeration.Some? {
      forall i | 0 <= i < |a.enumeration.value|
        ensures Valid(b, a.enumeration.value[i], rx) <==> Valid(a, a.enumeration.value[i], rx)
      {
        SimilarAccepts(a, b, a.enumeration.value[i], rx);
      }
    } else {
      hide Valid;
      if a.items.Some? {
        SimilarConsistent(a.items.value, b.items.value, rx);
      }
      forall k | 0 <= k < |Props(a)|
        ensures SelfConsistent(Props(a)[k].schema, rx) <==> SelfConsistent(PropSchema(b, Props(a)[k].name), rx)
      {
        SimilarConsistent(Props(a)[k].schema, PropSchema(b, Props(a)[k].name), rx);
      }
      SimilarTables(a, b, rx);
    }
  }

  lemma SimilarTables(a: Schema, b: Schema, rx: Matcher)
    requires Similar(a, b) && WellFormed(a) && WellFormed(b)
    requires forall k | 0 <= k < |Props(a)| ::
               SelfConsistent(Props(a)[k].schema, rx) <==> SelfConsistent(PropSchema(b, Props(a)[k].name), rx)
    ensures (forall k | 0 <= k < |Props(a)| :: SelfConsistent(Props(a)[k].schema, rx)) <==>
            (forall j | 0 <= j < |Props(b)| :: SelfConsistent(Props(b)[j].schema, rx))
  {
    hide SelfConsistent;
    if forall k | 0 <= k < |Props(a)| :: SelfConsistent(Props(a)[k].schema, rx) {
      forall j | 0 <= j < |Props(b)| ensures SelfConsistent(Props(b)[j].schema, rx) {
        UniqueIndex(b, j);
        var k := PropIndex(Props(a), Props(b)[j].name);
        assert Props(a)[k].name == Props(b)[j].name;
      }
    }
    if forall j | 0 <= j < |Props(b)| :: SelfConsistent(Props(b)[j].schema, rx) {
      forall k | 0 <= k < |Props(a)| ensures SelfConsistent(Props(a)[k].schema, rx) {
        assert PropSchema(b, Props(a)[k].name) == Props(b)[PropIndex(Props(b), Props(a)[k].name)].schema;
      }
    }
  }

  lemma {:induction false} SimilarReflexive(s: Schema)
    requires WellFormed(s)
    ensures Similar(s, s)
    decreases s
  {
    forall k | 0 <= k < |Props(s)|
      ensures HasProp(s, Props(s)[k].name) && Similar(Props(s)[k].schema, PropSchema(s, Props(s)[k].name))
    {
      UniqueIndex(s, k);
      SimilarReflexive(Props(s)[k].schema);
    }
    if s.items.Some? {
      SimilarReflexive(s.items.value);
    }
  }

  /** A schema can be republished unchanged exactly when its finite nodes accept their own values. */
  lemma ReflexiveIff(s: Schema, rx: Matcher)
    requires WellFormed(s)
    ensures Compatible(s, s, rx) <==> SelfConsistent(s, rx)
  {
    SimilarReflexive(s);
    SimilarCompatible(s, s, rx);
  }

  // ---------- Full compatibility ----------

  predicate FullyCompatible(a: Schema, b: Schema, rx: Matcher) {
    BuildReport(a, b, rx).full
  }

  /** Schemas that meet the conditions of soundness in every pair: closed, and hiding no bounds. */
  predicate Sealed(s: Schema) {
    WellFormed(s) && Closed(s) && Dominated(s)
  }

  lemma FullIsCompatible(a: Schema, b: Schema, rx: Matcher)
    ensures FullyCompatible(a, b, rx) <==> Compatible(a, b, rx) && Compatible(b, a, rx)
  {
    hide CheckSubset, Compatible;
    ReportIsCompatible(a, b, rx);
  }

  /** On sealed, self-consistent schemas full compatibility is an equivalence. */
  lemma FullEquivalence(a: Schema, b: Schema, c: Schema, rx: Matcher)
    requires Sealed(a) && Sealed(b) && Sealed(c) && SelfConsistent(a, rx)
    ensures FullyCompatible(a, a, rx)
    ensures FullyCompatible(a, b, rx) <==> FullyCompatible(b, a, rx)
    ensures FullyCompatible(a, b, rx) && FullyCompatible(b, c, rx) ==> FullyCompatible(a, c, rx)
  {
    hide FullyCompatible, Compatible, Closed, Dominated, Covered, BoundsMet, SelfConsistent, WellFormed;
    ReflexiveIff(a, rx);
    FullIsCompatible(a, a, rx);
    FullIsCompatible(a, b, rx);
    FullIsCompatible(b, a, rx);
    FullIsCompatible(b, c, rx);
    FullIsCompatible(a, c, rx);
    if FullyCompatible(a, b, rx) && FullyCompatible(b, c, rx) {
      ClosedIsCovered(b, c);
      ClosedIsCovered(b, a);
      DominatedIsMet(b, c);
      DominatedIsMet(b, a);
      Transitive(a, b, c, rx);
      Transitive(c, b, a, rx);
    }
  }

  /** Fully compatible sealed schemas accept the same values. */
  lemma FullSameValues(a: Schema, b: Schema, v: Value, rx: Matcher)
    requires Sealed(a) && Sealed(b) && FullyCompatible(a, b, rx)
    ensures Valid(a, v, rx) <==> Valid(b, v, rx)
  {
    hide FullyCompatible, Compatible, Closed, Dominated, Covered, BoundsMet, WellFormed, Valid;
    FullIsCompatible(a, b, rx);
    ClosedIsCovered(a, b);
    ClosedIsCovered(b, a);
    DominatedIsMet(a, b);
    DominatedIsMet(b, a);
    if Valid(a, v, rx) { Sound(a, b, v, rx); }
    if Valid(b, v, rx) { Sound(b, a, v, rx); }
  }
}
