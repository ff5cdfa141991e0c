/**
 * Why a step must be safe. A silent step that is not covered, or does not meet the bounds hidden in its target, loses
 * a value; and some schema reaches its source by a silent step that does not compose with it.
 */
module Necessity {
  import opened Wrappers
  import opened Documents
  import opened Schemas
  import opened Rules
  import opened Soundness
  import opened CompatibilityOrder
  import opened Exactness

  // ---------- Where a silent step is not safe ----------

  /** The property leads from the source to the target by a step that is not safe. */
  predicate Unsafe(s: Schema, t: Schema, k: nat)
    requires k < |Props(s)|
  {
    HasProp(t, Props(s)[k].name) && !SafeStep(Props(s)[k].schema, PropSchema(t, Props(s)[k].name))
  }

  /** Where a step between object nodes fails. */
  lemma ObjectGap(s: Schema, t: Schema)
    requires !SafeStep(s, t) && HiddenMet(s.numbers, t.numbers, IsIntegral(s)) && s.items.None?
    ensures
      || (s.typ == Some(TObject) && exists j | 0 <= j < |Props(t)| :: Uncovered(s, t, j))
      || (exists k | 0 <= k < |Props(s)| :: Unsafe(s, t, k))
  {
    if forall k | 0 <= k < |Props(s)| :: !Unsafe(s, t, k) {
      forall k | 0 <= k < |Props(s)| && HasProp(t, Props(s)[k].name)
        ensures Covered(Props(s)[k].schema, PropSchema(t, Props(s)[k].name))
        ensures BoundsMet(Props(s)[k].schema, PropSchema(t, Props(s)[k].name))
      {
        assert !Unsafe(s, t, k);
      }
      var j :| 0 <= j < |Props(t)| && !(HasProp(s, Props(t)[j].name) || IsAny(Props(t)[j].schema));
      assert Uncovered(s, t, j);
    }
  }

  /** A silent step that is not safe leads between typed nodes; it fails at their numbers, items or properties. */
  lemma StepGap(s: Schema, t: Schema, rx: Matcher)
    requires WellFormed(s) && WellFormed(t) && Compatible(s, t, rx) && !SafeStep(s, t)
    ensures !IsAny(s) && !IsAny(t) && !Finite(s) && !Finite(t)
    ensures
      if !HiddenMet(s.numbers, t.numbers, IsIntegral(s)) then
        IsNumeric(s) && NumbersOk(s.numbers, t.numbers)
      else if s.typ == Some(TArray) then
        && IsArray(t) && ArraysOk(s, t, rx)
        && s.items.Some? && t.items.Some? && !SafeStep(s.items.value, t.items.value)
      else
        IsObject(s) && IsObject(t) && ObjectsOk(s, t, rx) && s.items.None?
  {
    hide ObjectsOk, ArraysOk, HiddenMet, NumbersOk;
    if !HiddenMet(s.numbers, t.numbers, IsIntegral(s)) {
      NothingHidden(s.numbers, IsIntegral(s));
    } else if s.typ == Some(TArray) {
      assert Props(s) == [];
    } else {
      assert s.items.None?;
      assert Props(s) != [] || s.typ == Some(TObject);
    }
  }

  lemma NothingHidden(s: NumberRules, integral: bool)
    ensures HiddenMet(s, NO_NUMBER_RULES, integral)
  {
  }

  // ---------- Lost values ----------

  /** Every node of the source accepts something, and an array may have an element. */
  ghost predicate Populated(s: Schema, rx: Matcher)
    decreases s
  {
    Finite(s) ||
    (&& (exists v :: Valid(s, v, rx))
     && (s.maxItems.Some? ==> 1 <= s.maxItems.value)
     && (s.items.Some? ==> Populated(s.items.value, rx))
     && (forall k | 0 <= k < |Props(s)| :: Populated(Props(s)[k].schema, rx)))
  }

  /** No node consists of a dialect alone: such a node restricts nothing, and yet is not the unconstrained one. */
  predicate Restricting(t: Schema)
    decreases t
  {
    && (IsAny(t) || t.typ.Some? || Finite(t))
    && (t.items.Some? ==> Restricting(t.items.value))
    && (forall k | 0 <= k < |Props(t)| :: Restricting(Props(t)[k].schema))
  }

  function LongestText(values: seq<Value>): (n: nat)
    ensures forall i | 0 <= i < |values| && values[i].VStr? :: |values[i].text| <= n
  {
    if values == [] then 0
    else
      var rest := LongestText(values[1..]);
      assert forall i | 1 <= i < |values| :: values[i] == values[1..][i - 1];
      if values[0].VStr? && |values[0].text| > rest then |values[0].text| else rest
  }

  /** A value that the list does not have. */
  function Unlisted(values: seq<Value>): (v: Value)
    ensures v !in values
  {
    Letters(LongestText(values) + 1)
  }

  /** A value that a node rejects unless it accepts everything. */
  function Outside(t: Schema): Value {
    if t.constant.Some? then Unlisted([t.constant.value])
    else if t.enumeration.Some? then Unlisted(t.enumeration.value)
    else Reject(t)
  }

  lemma OutsideInvalid(t: Schema, rx: Matcher)
    requires t.typ.Some? || Finite(t)
    ensures !Valid(t, Outside(t), rx)
  {
    if t.constant.Some? {
      assert Outside(t) !in [t.constant.value];
      assert t.constant.value in [t.constant.value];
    }
  }

  lemma {:induction false} ItemLost(s: Schema, t: Schema, rx: Matcher) returns (v: Value)
    requires WellFormed(s) && WellFormed(t) && IsArray(s) && IsArray(t) && ArraysOk(s, t, rx)
    requires Populated(s, rx) && Restricting(t) && s.items.Some? && t.items.Some?
    requires !SafeStep(s.items.value, t.items.value)
    ensures Valid(s, v, rx) && !Valid(t, v, rx)
    decreases s, 0
  {
    var x := Lost(s.items.value, t.items.value, rx);
    var n := if Least(s.minItems) == 0 then 1 else Least(s.minItems);
    RepeatedValid(s, x, n, rx);
    v := Repeated(x, n);
    assert v.elems[0] == x;
  }

  lemma {:induction false} FieldLost(s: Schema, t: Schema, rx: Matcher) returns (v: Value)
    requires WellFormed(s) && WellFormed(t) && IsObject(s) && IsObject(t) && ObjectsOk(s, t, rx)
    requires Populated(s, rx) && Restricting(t)
    requires !SafeStep(s, t) && HiddenMet(s.numbers, t.numbers, IsIntegral(s)) && s.items.None?
    ensures Valid(s, v, rx) && !Valid(t, v, rx)
    decreases s, 0
  {
    ObjectGap(s, t);
    var o :| Valid(s, o, rx);
    assert o.VObj?;
    hide Valid, Compatible, SafeStep;
    if j :| 0 <= j < |Props(t)| && Uncovered(s, t, j) {
      var x := Outside(Props(t)[j].schema);
      OutsideInvalid(Props(t)[j].schema, rx);
      FieldSet(s, o, Props(t)[j].name, x, rx);
      v := VObj(o.fields[Props(t)[j].name := x]);
      BadField(t, v, j, rx);
    } else {
      var k :| 0 <= k < |Props(s)| && Unsafe(s, t, k);
      var name := Props(s)[k].name;
      UniqueIndex(s, k);
      DeclaredWellFormed(t, name);
      assert PropertyOk(s, t, k, rx);
      var x := Lost(Props(s)[k].schema, PropSchema(t, name), rx);
      FieldSet(s, o, name, x, rx);
      v := VObj(o.fields[name := x]);
      BadField(t, v, PropIndex(Props(t), name), rx);
    }
  }

  /** A value that a silent step loses because it is not safe. */
  lemma {:induction false} Lost(s: Schema, t: Schema, rx: Matcher) returns (v: Value)
    requires WellFormed(s) && WellFormed(t) && Compatible(s, t, rx)
    requires Populated(s, rx) && Restricting(t) && !SafeStep(s, t)
    ensures Valid(s, v, rx) && !Valid(t, v, rx)
    decreases s, 1
  {
    StepGap(s, t, rx);
    if !HiddenMet(s.numbers, t.numbers, IsIntegral(s)) {
      hide HiddenMet, NumbersOk;
      var x := HiddenRefuted(s.numbers, t.numbers, IsIntegral(s));
      v := VNum(x);
    } else if s.typ == Some(TArray) {
      v := ItemLost(s, t, rx);
    } else {
      v := FieldLost(s, t, rx);
    }
  }

  /** A silent step keeps all data exactly when it is safe. */
  lemma StepExact(s: Schema, t: Schema, rx: Matcher)
    requires WellFormed(s) && WellFormed(t) && Compatible(s, t, rx)
    requires Populated(s, rx) && Restricting(t)
    ensures SafeStep(s, t) <==> Included(s, t, rx)
  {
    hide WellFormed, Compatible, SafeStep, Populated, Restricting;
    if SafeStep(s, t) {
      SoundInclusion(s, t, rx);
    } else {
      var v := Lost(s, t, rx);
    }
  }

  lemma DeclaredWellFormed(s: Schema, name: string)
    requires WellFormed(s) && HasProp(s, name)
    ensures WellFormed(PropSchema(s, name))
  {
    assert WellFormed(Props(s)[PropIndex(Props(s), name)].schema);
  }

  // ---------- Composition ----------

  /** The step composes with every silent step before it. */
  ghost predicate Composes(b: Schema, c: Schema, rx: Matcher) {
    forall a | WellFormed(a) && Compatible(a, b, rx) :: Compatible(a, c, rx)
  }

  function WithProps(s: Schema, props: seq<Property>): Schema {
    s.(properties := Declared(props))
  }

  /** The object schema with one more property, about which nothing is said. */
  function Mentioning(b: Schema, name: string): Schema {
    WithProps(b, Props(b) + [Property(name, ANY)])
  }

  /** The object schema with the schema of one property replaced. */
  function Replacing(b: Schema, k: nat, s: Schema): Schema
    requires k < |Props(b)|
  {
    WithProps(b, Props(b)[k := Property(Props(b)[k].name, s)])
  }

  lemma AnyWellFormed()
    ensures WellFormed(ANY)
  {
  }

  lemma WithPropsWellFormed(b: Schema, props: seq<Property>)
    requires WellFormed(b) && b.typ == Some(TObject)
    requires forall i, j | 0 <= i < j < |props| :: props[i].name != props[j].name
    requires forall i | 0 <= i < |props| :: props[i].name != "" && WellFormed(props[i].schema)
    requires |Props(b)| <= |props| && forall i | 0 <= i < |Props(b)| :: props[i].name == Props(b)[i].name
    ensures WellFormed(WithProps(b, props))
  {
    var a := WithProps(b, props);
    forall i | 0 <= i < |Required(a)| ensures HasProp(a, Required(a)[i]) {
      var k := PropIndex(Props(b), Required(b)[i]);
      assert props[k].name == Required(a)[i];
    }
  }

  lemma SameProperty(a: Schema, b: Schema, k: nat, rx: Matcher)
    requires WellFormed(b) && SelfConsistent(b, rx) && !Finite(b)
    requires k < |Props(a)| && k < |Props(b)| && Props(a)[k] == Props(b)[k]
    ensures PropertyOk(a, b, k, rx)
  {
    hide Compatible;
    UniqueIndex(b, k);
    ReflexiveIff(Props(b)[k].schema, rx);
  }

  lemma MentioningWellFormed(b: Schema, name: string)
    requires WellFormed(b) && IsObject(b) && !HasProp(b, name) && name != ""
    ensures WellFormed(Mentioning(b, name))
  {
    assert forall i | 0 <= i < |Props(b)| :: Props(b)[i].name != name;
    AnyWellFormed();
    WithPropsWellFormed(b, Props(Mentioning(b, name)));
  }

  lemma ReplacingWellFormed(b: Schema, k: nat, s: Schema)
    requires WellFormed(b) && IsObject(b) && k < |Props(b)| && WellFormed(s)
    ensures WellFormed(Replacing(b, k, s))
  {
    WithPropsWellFormed(b, Props(Replacing(b, k, s)));
  }

  lemma MentioningWitness(b: Schema, c: Schema, j: nat, rx: Matcher)
    requires WellFormed(b) && WellFormed(c) && SelfConsistent(b, rx) && IsObject(b) && IsObject(c)
    requires j < |Props(c)| && Uncovered(b, c, j)
    ensures
      var a := Mentioning(b, Props(c)[j].name);
      WellFormed(a) && Compatible(a, b, rx) && !Compatible(a, c, rx)
  {
    hide Compatible, WellFormed, SelfConsistent;
    NamesUnique(c);
    var name := Props(c)[j].name;
    var a := Mentioning(b, name);
    MentioningWellFormed(b, name);
    forall k | 0 <= k < |Props(a)| ensures PropertyOk(a, b, k, rx) {
      if k < |Props(b)| {
        SameProperty(a, b, k, rx);
      }
    }
    ObjectPair(a, b, rx);
    ObjectPair(a, c, rx);
    UniqueIndex(c, j);
    AnyRestricted(Props(c)[j].schema, rx);
    assert !PropertyOk(a, c, |Props(b)|, rx);
  }

  lemma NamesUnique(s: Schema)
    requires WellFormed(s)
    ensures forall i, k | 0 <= i < k < |Props(s)| :: Props(s)[i].name != Props(s)[k].name
    ensures forall i | 0 <= i < |Props(s)| :: Props(s)[i].name != ""
  {
  }

  lemma AnyRestricted(t: Schema, rx: Matcher)
    requires !IsAny(t)
    ensures !Compatible(ANY, t, rx)
  {
  }

  lemma ReplacingWitness(b: Schema, c: Schema, k: nat, s: Schema, rx: Matcher)
    requires WellFormed(b) && SelfConsistent(b, rx) && IsObject(b) && IsObject(c)
    requires k < |Props(b)| && HasProp(c, Props(b)[k].name) && WellFormed(s)
    requires Compatible(s, Props(b)[k].schema, rx) && !Compatible(s, PropSchema(c, Props(b)[k].name), rx)
    ensures
      var a := Replacing(b, k, s);
      WellFormed(a) && Compatible(a, b, rx) && !Compatible(a, c, rx)
  {
    hide Compatible, WellFormed, SelfConsistent;
    var a := Replacing(b, k, s);
    ReplacingWellFormed(b, k, s);
    NamesUnique(b);
    forall i | 0 <= i < |Props(a)| ensures PropertyOk(a, b, i, rx) {
      if i == k {
        UniqueIndex(b, k);
      } else {
        SameProperty(a, b, i, rx);
      }
    }
    ObjectPair(a, b, rx);
    ObjectPair(a, c, rx);
    assert !PropertyOk(a, c, k, rx);
  }

  lemma {:induction false} ItemsWellFormed(b: Schema, s: Schema)
    requires WellFormed(b) && IsArray(b) && WellFormed(s)
    ensures WellFormed(b.(items := Some(s)))
  {
    assert Required(b) == [] && Props(b) == [];
  }

  lemma {:induction false} ItemsWitness(b: Schema, c: Schema, s: Schema, rx: Matcher)
    requires WellFormed(b) && IsArray(b) && IsArray(c)
    requires b.items.Some? && c.items.Some? && WellFormed(s)
    requires Compatible(s, b.items.value, rx) && !Compatible(s, c.items.value, rx)
    ensures
      var a := b.(items := Some(s));
      WellFormed(a) && Compatible(a, b, rx) && !Compatible(a, c, rx)
  {
    hide Compatible, WellFormed;
    var a := b.(items := Some(s));
    ItemsWellFormed(b, s);
    ArrayPair(a, b, rx);
    ArrayPair(a, c, rx);
  }

  lemma NumberWitness(b: Schema, c: Schema, rx: Matcher) returns (a: Schema)
    requires WellFormed(b) && WellFormed(c) && !Finite(b) && !Finite(c) && IsNumeric(b)
    requires !HiddenMet(b.numbers, c.numbers, IsIntegral(b))
    ensures WellFormed(a) && Compatible(a, b, rx) && !Compatible(a, c, rx)
  {
    NothingHidden(b.numbers, IsIntegral(b));
    hide HiddenMet;
    var x := HiddenRefuted(b.numbers, c.numbers, IsIntegral(b));
    a := ANY.(constant := Some(VNum(x)));
    AnyWellFormed();
  }

  lemma {:induction false} Witness(b: Schema, c: Schema, rx: Matcher) returns (a: Schema)
    requires WellFormed(b) && WellFormed(c) && SelfConsistent(b, rx) && Compatible(b, c, rx)
    requires !SafeStep(b, c)
    ensures WellFormed(a) && Compatible(a, b, rx) && !Compatible(a, c, rx)
    decreases b, 1
  {
    StepGap(b, c, rx);
    if !HiddenMet(b.numbers, c.numbers, IsIntegral(b)) {
      a := NumberWitness(b, c, rx);
    } else if b.typ == Some(TArray) {
      var s := Witness(b.items.value, c.items.value, rx);
      ItemsWitness(b, c, s, rx);
      a := b.(items := Some(s));
    } else {
      a := ObjectWitness(b, c, rx);
    }
  }

  lemma {:induction false} ObjectWitness(b: Schema, c: Schema, rx: Matcher) returns (a: Schema)
    requires WellFormed(b) && WellFormed(c) && SelfConsistent(b, rx) && ObjectsOk(b, c, rx)
    requires IsObject(b) && IsObject(c) && b.items.None?
    requires !SafeStep(b, c) && HiddenMet(b.numbers, c.numbers, IsIntegral(b))
    ensures WellFormed(a) && Compatible(a, b, rx) && !Compatible(a, c, rx)
    decreases b, 0
  {
    ObjectGap(b, c);
    hide SafeStep, HiddenMet;
    if j :| 0 <= j < |Props(c)| && Uncovered(b, c, j) {
      MentioningWitness(b, c, j, rx);
      a := Mentioning(b, Props(c)[j].name);
    } else {
      var k :| 0 <= k < |Props(b)| && Unsafe(b, c, k);
      var t := PropSchema(c, Props(b)[k].name);
      assert PropertyOk(b, c, k, rx);
      DeclaredWellFormed(c, Props(b)[k].name);
      var s := Witness(Props(b)[k].schema, t, rx);
      ReplacingWitness(b, c, k, s, rx);
      a := Replacing(b, k, s);
    }
  }

  /**
   * A silent step from a self-consistent schema composes with every silent step before it exactly when it is safe.
   */
  lemma TransitiveExact(b: Schema, c: Schema, rx: Matcher)
    requires WellFormed(b) && WellFormed(c) && SelfConsistent(b, rx) && Compatible(b, c, rx)
    ensures SafeStep(b, c) <==> Composes(b, c, rx)
  {
    hide WellFormed, Compatible, SafeStep, SelfConsistent;
    if SafeStep(b, c) {
      forall a | WellFormed(a) && Compatible(a, b, rx) ensures Compatible(a, c, rx) {
        Transitive(a, b, c, rx);
      }
    } else {
      var a := Witness(b, c, rx);
    }
  }
}
