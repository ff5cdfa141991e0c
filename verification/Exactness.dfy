/**
 * Where the checker is exact. Between plain schemas (sources without patterns that show the checker the ends of their
 * ranges, targets without patterns and listed values) a source is included in a target exactly when the checker is
 * silent and the step is safe: otherwise a value is constructed that the source accepts and the target rejects.
 */
module Exactness {
  import opened Wrappers
  import opened Documents
  import opened Schemas
  import opened Rules
  import opened Soundness
  import opened CompatibilityOrder

  // ---------- Number ranges ----------

  /** An integer strictly below the given number. */
  function IntegerBelow(x: real): (n: real)
    ensures n < x && n.Floor as real == n
  {
    var k := x.Floor - 1;
    k as real
  }

  function IntegerAbove(x: real): (n: real)
    ensures x < n && n.Floor as real == n
  {
    var k := x.Floor + 1;
    k as real
  }

  function Smaller(x: real, y: real): real {
    if x < y then x else y
  }

  /** A number of the source below a limit that its lower end does not reach. */
  lemma LowerRefuted(s: NumberRules, integral: bool, limit: Bound) returns (x: real)
    requires !Vacant(s, integral) && !LowerAtLeast(LowerEnd(s, integral), Some(limit))
    ensures Admits(s, integral, x) && !AtLeast(Some(limit), x)
  {
    var low, high := LowerEnd(s, integral), UpperEnd(s, integral);
    var most := if high.Some? then Smaller(high.value.value, limit.value) else limit.value;
    if low.None? {
      x := IntegerBelow(most);
    } else if low.value.exclusive {
      x := (low.value.value + most) / 2.0;
    } else {
      x := low.value.value;
    }
    hide LowerEnd, UpperEnd;
    EndsExact(s, integral, x);
  }

  lemma UpperRefuted(s: NumberRules, integral: bool, limit: Bound) returns (x: real)
    requires !Vacant(s, integral) && !UpperAtMost(UpperEnd(s, integral), Some(limit))
    ensures Admits(s, integral, x) && !AtMost(Some(limit), x)
  {
    var low, high := LowerEnd(s, integral), UpperEnd(s, integral);
    var least := if low.Some? then -Smaller(-low.value.value, -limit.value) else limit.value;
    if high.None? {
      x := IntegerAbove(least);
    } else if high.value.exclusive {
      x := (high.value.value + least) / 2.0;
    } else {
      x := high.value.value;
    }
    hide LowerEnd, UpperEnd;
    EndsExact(s, integral, x);
  }

  /** A number of the source that a bound hidden in the target excludes. */
  lemma HiddenRefuted(s: NumberRules, t: NumberRules, integral: bool) returns (x: real)
    requires !HiddenMet(s, t, integral)
    ensures Admits(s, integral, x) && !InBounds(t, x)
  {
    hide LowerEnd, UpperEnd, Vacant, LowerAtLeast, UpperAtMost;
    if HidesMinimum(t) && !LowerAtLeast(LowerEnd(s, integral), Some(Bound(t.minimum.value, false))) {
      x := LowerRefuted(s, integral, Bound(t.minimum.value, false));
    } else {
      x := UpperRefuted(s, integral, Bound(t.maximum.value, false));
    }
  }

  /** Behind silent bound tests, the hidden bounds are met exactly when the target admits the numbers of the source. */
  lemma HiddenExact(s: NumberRules, t: NumberRules, integral: bool)
    requires NumbersOk(s, t)
    ensures HiddenMet(s, t, integral) <==> forall x | Admits(s, integral, x) :: InBounds(t, x)
  {
    hide NumbersOk, HiddenMet;
    if HiddenMet(s, t, integral) {
      forall x | Admits(s, integral, x) ensures InBounds(t, x) {
        NumbersSound(s, t, integral, x);
      }
    } else {
      var x := HiddenRefuted(s, t, integral);
    }
  }

  /** The checker sees where the range really ends: no bound hides another, and integers end at integers. */
  predicate Apparent(rules: NumberRules, integral: bool) {
    LowerBoundOf(rules) == LowerEnd(rules, integral) && UpperBoundOf(rules) == UpperEnd(rules, integral)
  }

  lemma VisibleLimits(t: NumberRules, x: real)
    requires !AtLeast(LowerBoundOf(t), x) || !AtMost(UpperBoundOf(t), x)
    ensures !InBounds(t, x)
  {
  }

  /** A number admitted by the source bounds and excluded by the target bounds, hidden ones included. */
  lemma RangesRefuted(s: NumberRules, t: NumberRules, integral: bool) returns (x: real)
    requires Apparent(s, integral) && !Vacant(s, integral)
    requires !(NumbersOk(s, t) && HiddenMet(s, t, integral))
    ensures Admits(s, integral, x) && !InBounds(t, x)
  {
    hide LowerBoundOf, UpperBoundOf, LowerEnd, UpperEnd, Vacant, HiddenMet, LowerAtLeast, UpperAtMost, AtLeast, AtMost;
    if !LowerAtLeast(LowerBoundOf(s), LowerBoundOf(t)) {
      assert LowerBoundOf(t).Some? by { NoLowerLimit(s, t); }
      x := LowerRefuted(s, integral, LowerBoundOf(t).value);
      VisibleLimits(t, x);
    } else if !UpperAtMost(UpperBoundOf(s), UpperBoundOf(t)) {
      assert UpperBoundOf(t).Some? by { NoUpperLimit(s, t); }
      x := UpperRefuted(s, integral, UpperBoundOf(t).value);
      VisibleLimits(t, x);
    } else {
      x := HiddenRefuted(s, t, integral);
    }
  }

  lemma NoLowerLimit(s: NumberRules, t: NumberRules)
    ensures !LowerAtLeast(LowerBoundOf(s), LowerBoundOf(t)) ==> LowerBoundOf(t).Some?
  {
  }

  lemma NoUpperLimit(s: NumberRules, t: NumberRules)
    ensures !UpperAtMost(UpperBoundOf(s), UpperBoundOf(t)) ==> UpperBoundOf(t).Some?
  {
  }

  /**
   * On a non-empty source range whose ends the checker sees, over the reals or the integers, the bound tests and the
   * hidden bounds together decide inclusion, for every target.
   */
  lemma NumbersExact(s: NumberRules, t: NumberRules, integral: bool)
    requires Apparent(s, integral) && !Vacant(s, integral)
    ensures NumbersOk(s, t) && HiddenMet(s, t, integral) <==> forall x | Admits(s, integral, x) :: InBounds(t, x)
  {
    hide Apparent, Vacant, NumbersOk, HiddenMet;
    if NumbersOk(s, t) && HiddenMet(s, t, integral) {
      HiddenExact(s, t, integral);
    } else {
      var x := RangesRefuted(s, t, integral);
    }
  }

  /** Over the reals the checker sees the ends exactly when no exclusive bound hides a stricter inclusive one. */
  lemma ApparentIsDominated(rules: NumberRules)
    ensures Apparent(rules, false) <==> DominatedBounds(rules)
  {
  }

  /** The bounds the checker sees. */
  function Visible(rules: NumberRules): NumberRules {
    NumberRules(if rules.exclusiveMinimum.Some? then None else rules.minimum,
                if rules.exclusiveMaximum.Some? then None else rules.maximum,
                rules.exclusiveMinimum, rules.exclusiveMaximum)
  }

  lemma VisibleOk(t: NumberRules)
    ensures NumbersOk(Visible(t), t)
  {
  }

  /** A number the checker's view of the bounds allows and the bounds themselves do not. */
  lemma VisibleRefuted(t: NumberRules, x0: real) returns (x: real)
    requires InBounds(Visible(t), x0) && !DominatedBounds(t)
    ensures InBounds(Visible(t), x) && !InBounds(t, x)
  {
    if !InBounds(t, x0) {
      x := x0;
    } else if HidesMinimum(t) {
      x := (t.exclusiveMinimum.value + t.minimum.value) / 2.0;
    } else {
      x := (t.exclusiveMaximum.value + t.maximum.value) / 2.0;
    }
  }

  /** The bound tests are sound for a target, whatever the source, exactly when the target hides no bound. */
  lemma DominatedExact(t: NumberRules, x0: real)
    requires InBounds(Visible(t), x0)
    ensures DominatedBounds(t) <==> forall s, x | NumbersOk(s, t) && InBounds(s, x) :: InBounds(t, x)
  {
    if DominatedBounds(t) {
      forall s, x | NumbersOk(s, t) && InBounds(s, x) ensures InBounds(t, x) {
        assert Admits(s, false, x);
        NumbersSound(s, t, false, x);
      }
    } else {
      var x := VisibleRefuted(t, x0);
      VisibleOk(t);
    }
  }

  /** More than one number lies in the range. */
  predicate Wide(rules: NumberRules) {
    var low, high := LowerEnd(rules, false), UpperEnd(rules, false);
    low.Some? && high.Some? ==> low.value.value < high.value.value
  }

  /** A number strictly between two others that is not an integer. */
  function Between(low: real, high: real): (x: real)
    requires low < high
    ensures low < x < high && x.Floor as real != x
  {
    var middle := (low + high) / 2.0;
    var step := Smaller((high - middle) / 2.0, 0.5);
    if middle.Floor as real != middle then middle
    else
      assert (middle + step).Floor == middle.Floor;
      middle + step
  }

  /** A number in the range that is not an integer. */
  function Fraction(rules: NumberRules): (x: real)
    requires Wide(rules)
    ensures InBounds(rules, x) && x.Floor as real != x
  {
    var low, high := LowerEnd(rules, false), UpperEnd(rules, false);
    if low.None? && high.None? then 0.5
    else if high.None? then Between(low.value.value, low.value.value + 1.0)
    else if low.None? then Between(high.value.value - 1.0, high.value.value)
    else Between(low.value.value, high.value.value)
  }

  /** A number in the range. */
  function Point(rules: NumberRules, integral: bool): (x: real)
    requires !Vacant(rules, integral)
    ensures Admits(rules, integral, x)
  {
    var low, high := LowerEnd(rules, integral), UpperEnd(rules, integral);
    var x :=
      if low.None? && high.None? then 0.0
      else if low.None? then IntegerBelow(high.value.value)
      else if high.None? then IntegerAbove(low.value.value)
      else if !low.value.exclusive then low.value.value
      else if !high.value.exclusive then high.value.value
      else (low.value.value + high.value.value) / 2.0;
    EndsExact(rules, integral, x);
    x
  }

  // ---------- Plain schemas ----------

  predicate IsNumeric(s: Schema) {
    s.typ == Some(TInteger) || s.typ == Some(TNumber)
  }

  /**
   * Sources for which a value can be built that shows each failure: listing values they accept, or without a pattern.
   * A range has a number, and the checker sees its ends; an array may have an element.
   */
  predicate PlainSource(s: Schema, rx: Matcher)
    decreases s
  {
    if Finite(s) then SelfConsistent(s, rx)
    else
      && s.strings.pattern.None?
      && (IsNumeric(s) ==> Apparent(s.numbers, IsIntegral(s)) && !Vacant(s.numbers, IsIntegral(s)))
      && (s.maxItems.Some? ==> 1 <= s.maxItems.value)
      && (s.items.Some? ==> PlainSource(s.items.value, rx))
      && (forall k | 0 <= k < |Props(s)| :: PlainSource(Props(s)[k].schema, rx))
  }

  /** Targets whose nodes are unconstrained, or typed without listed values and patterns. */
  predicate PlainTarget(t: Schema)
    decreases t
  {
    IsAny(t) ||
    (&& !Finite(t) && t.typ.Some? && t.strings.pattern.None?
     && (t.items.Some? ==> PlainTarget(t.items.value))
     && (forall k | 0 <= k < |Props(t)| :: PlainTarget(Props(t)[k].schema)))
  }

  /**
   * The tests that compare keywords say no more than the keywords mean: the target adds no least size of zero, no
   * format and no unconstrained items, and a number range that meets an integer type has more than one number.
   */
  predicate Sharp(s: Schema, t: Schema)
    decreases s
  {
    IsAny(t) || Finite(s) ||
    (&& !NewZero(s.strings.minLength, t.strings.minLength) && !NewZero(s.minItems, t.minItems)
     && (t.strings.format.Some? ==> t.strings.format == s.strings.format)
     && (s.typ == Some(TNumber) && t.typ == Some(TInteger) ==> Wide(s.numbers))
     && (t.items.Some? && IsAny(t.items.value) ==> s.items.Some?)
     && (forall k | 0 <= k < |Props(s)| && HasProp(t, Props(s)[k].name) ::
           Sharp(Props(s)[k].schema, PropSchema(t, Props(s)[k].name)))
     && (s.items.Some? && t.items.Some? ==> Sharp(s.items.value, t.items.value)))
  }

  /** The target states a least size of zero that the source leaves out. */
  predicate NewZero(source: Option<int>, target: Option<int>) {
    target == Some(0) && source.None?
  }

  function Least(size: Option<int>): (n: nat) {
    if size.Some? && 0 <= size.value then size.value else 0
  }

  function Repeated(v: Value, n: nat): (r: Value) {
    VArr(seq(n, _ => v))
  }

  function Letters(n: nat): Value {
    VStr(seq(n, _ => 'a'))
  }

  /** A value accepted by a plain source; an object carries exactly its required properties. */
  function Sample(s: Schema): Value
    decreases s
  {
    if s.constant.Some? then s.constant.value
    else if s.enumeration.Some? then if s.enumeration.value == [] then VNull else s.enumeration.value[0]
    else
      match s.typ
      case Some(TObject) => VObj(map name | name in Required(s) && HasProp(s, name) :: Sample(PropSchema(s, name)))
      case Some(TArray) => Repeated(if s.items.Some? then Sample(s.items.value) else VNull, Least(s.minItems))
      case Some(TString) => Letters(Least(s.strings.minLength))
      case Some(TInteger) => VNum(if Vacant(s.numbers, true) then 0.0 else Point(s.numbers, true))
      case Some(TNumber) => VNum(if Vacant(s.numbers, false) then 0.0 else Point(s.numbers, false))
      case Some(TBoolean) => VBool(true)
      case _ => VNull
  }

  lemma {:induction false} SampleValid(s: Schema, rx: Matcher)
    requires WellFormed(s) && PlainSource(s, rx)
    ensures Valid(s, Sample(s), rx)
    decreases s
  {
    if Finite(s) {
    } else if s.typ == Some(TObject) {
      forall i | 0 <= i < |Props(s)| && Props(s)[i].name in Sample(s).fields
        ensures Valid(Props(s)[i].schema, Sample(s).fields[Props(s)[i].name], rx)
      {
        UniqueIndex(s, i);
        SampleValid(Props(s)[i].schema, rx);
      }
      forall i | 0 <= i < |Required(s)| ensures Required(s)[i] in Sample(s).fields {
        assert HasProp(s, Required(s)[i]);
      }
    } else if s.typ == Some(TArray) && s.items.Some? {
      SampleValid(s.items.value, rx);
    }
  }

  /** A value rejected by every plain target that restricts anything. */
  function Reject(t: Schema): Value {
    if t.typ == Some(TNull) then VBool(true) else VNull
  }

  lemma RejectInvalid(t: Schema, rx: Matcher)
    requires PlainTarget(t) && !IsAny(t)
    ensures !Valid(t, Reject(t), rx)
  {
  }

  // ---------- Objects ----------

  /** The sample object with one more field, or with one field replaced. */
  function With(s: Schema, name: string, v: Value): Value
    requires IsObject(s)
  {
    VObj(Sample(s).fields[name := v])
  }

  /** An object stays valid when one field is set to a value that the schema allows there. */
  lemma FieldSet(s: Schema, o: Value, name: string, v: Value, rx: Matcher)
    requires WellFormed(s) && IsObject(s) && o.VObj? && Valid(s, o, rx)
    requires if HasProp(s, name) then Valid(PropSchema(s, name), v, rx) else Open(s)
    ensures Valid(s, VObj(o.fields[name := v]), rx)
  {
    var o' := VObj(o.fields[name := v]);
    forall i | 0 <= i < |Props(s)| && Props(s)[i].name in o'.fields
      ensures Valid(Props(s)[i].schema, o'.fields[Props(s)[i].name], rx)
    {
      UniqueIndex(s, i);
    }
    if !Open(s) {
      forall key | key in o'.fields ensures HasProp(s, key) {
        assert key == name || key in o.fields;
      }
    }
  }

  lemma WithValid(s: Schema, name: string, v: Value, rx: Matcher)
    requires WellFormed(s) && PlainSource(s, rx) && IsObject(s)
    requires if HasProp(s, name) then Valid(PropSchema(s, name), v, rx) else Open(s)
    ensures Valid(s, With(s, name, v), rx)
  {
    hide Valid;
    SampleValid(s, rx);
    FieldSet(s, Sample(s), name, v, rx);
  }

  function Longest(props: seq<Property>): (n: nat)
    ensures forall i | 0 <= i < |props| :: |props[i].name| <= n
  {
    if props == [] then 0
    else
      var rest := Longest(props[1..]);
      assert forall i | 1 <= i < |props| :: props[i] == props[1..][i - 1];
      if |props[0].name| > rest then |props[0].name| else rest
  }

  /** A property name that neither schema declares. */
  function FreshName(s: Schema, t: Schema): (name: string)
    ensures !HasProp(s, name) && !HasProp(t, name)
  {
    var name := seq(Longest(Props(s)) + Longest(Props(t)) + 1, _ => 'x');
    assert |name| > Longest(Props(s)) && |name| > Longest(Props(t));
    name
  }

  /** Some property of the target that the open source does not declare is constrained. */
  predicate Uncovered(s: Schema, t: Schema, j: nat)
    requires j < |Props(t)|
  {
    Open(s) && !HasProp(s, Props(t)[j].name) && !IsAny(Props(t)[j].schema)
  }

  lemma MissingField(t: Schema, v: Value, i: nat, rx: Matcher)
    requires v.VObj? && i < |Required(t)| && Required(t)[i] !in v.fields
    ensures !Valid(t, v, rx)
  {
  }

  lemma UnknownField(t: Schema, v: Value, name: string, rx: Matcher)
    requires v.VObj? && name in v.fields && !HasProp(t, name) && !Open(t)
    ensures !Valid(t, v, rx)
  {
  }

  lemma BadField(t: Schema, v: Value, j: nat, rx: Matcher)
    requires v.VObj? && j < |Props(t)| && Props(t)[j].name in v.fields
    requires !Valid(Props(t)[j].schema, v.fields[Props(t)[j].name], rx)
    ensures !Valid(t, v, rx)
  {
  }

  /** The checker is silent about the pair, and the step is safe. */
  predicate Sure(s: Schema, t: Schema, rx: Matcher) {
    Compatible(s, t, rx) && SafeStep(s, t)
  }

  predicate NestedBad(s: Schema, t: Schema, k: nat, rx: Matcher)
    requires k < |Props(s)|
  {
    HasProp(t, Props(s)[k].name) && !Sure(Props(s)[k].schema, PropSchema(t, Props(s)[k].name), rx)
  }

  predicate Removed(s: Schema, t: Schema, k: nat)
    requires k < |Props(s)|
  {
    !HasProp(t, Props(s)[k].name) && !Open(t)
  }

  /** The ways in which two object nodes fail. */
  lemma ObjectFailure(s: Schema, t: Schema, rx: Matcher)
    requires s.typ == Some(TObject) && s.items.None?
    requires HiddenMet(s.numbers, t.numbers, IsIntegral(s))
    requires !(ObjectsOk(s, t, rx) && SafeStep(s, t))
    ensures
      || (exists i | 0 <= i < |Required(t)| :: Required(t)[i] !in Required(s))
      || (exists k | 0 <= k < |Props(s)| :: Removed(s, t, k))
      || (exists k | 0 <= k < |Props(s)| :: NestedBad(s, t, k, rx))
      || (Open(s) && !Open(t))
      || (exists j | 0 <= j < |Props(t)| :: Uncovered(s, t, j))
  {
    hide Compatible, HiddenMet;
    if && (forall k | 0 <= k < |Props(s)| :: !Removed(s, t, k) && !NestedBad(s, t, k, rx))
       && (forall j | 0 <= j < |Props(t)| :: !Uncovered(s, t, j)) {
      forall k | 0 <= k < |Props(s)|
        ensures PropertyOk(s, t, k, rx)
        ensures HasProp(t, Props(s)[k].name) ==>
                  && Covered(Props(s)[k].schema, PropSchema(t, Props(s)[k].name))
                  && BoundsMet(Props(s)[k].schema, PropSchema(t, Props(s)[k].name))
      {
        assert !Removed(s, t, k) && !NestedBad(s, t, k, rx);
      }
      forall j | 0 <= j < |Props(t)| && Open(s) ensures HasProp(s, Props(t)[j].name) || IsAny(Props(t)[j].schema) {
        assert !Uncovered(s, t, j);
      }
    }
  }

  lemma {:induction false} NestedRefuted(s: Schema, t: Schema, k: nat, rx: Matcher) returns (v: Value)
    requires WellFormed(s) && PlainSource(s, rx) && WellFormed(t) && PlainTarget(t) && Sharp(s, t)
    requires IsObject(s) && IsObject(t)
    requires k < |Props(s)| && NestedBad(s, t, k, rx)
    ensures Valid(s, v, rx) && !Valid(t, v, rx)
    decreases s, 0
  {
    hide Compatible, Covered, BoundsMet, Valid, Sample;
    var name := Props(s)[k].name;
    UniqueIndex(s, k);
    var x := Refuted(Props(s)[k].schema, PropSchema(t, name), rx);
    WithValid(s, name, x, rx);
    v := With(s, name, x);
    BadField(t, v, PropIndex(Props(t), name), rx);
  }

  lemma {:induction false} ObjectRefuted(s: Schema, t: Schema, rx: Matcher) returns (v: Value)
    requires WellFormed(s) && PlainSource(s, rx) && WellFormed(t) && PlainTarget(t) && Sharp(s, t)
    requires IsObject(s) && IsObject(t)
    requires !(ObjectsOk(s, t, rx) && SafeStep(s, t))
    ensures Valid(s, v, rx) && !Valid(t, v, rx)
    decreases s, 1
  {
    hide Compatible, ObjectsOk, Covered, BoundsMet, Valid, NestedBad;
    ObjectFailure(s, t, rx);
    if i :| 0 <= i < |Required(t)| && Required(t)[i] !in Required(s) {
      SampleValid(s, rx);
      v := Sample(s);
      MissingField(t, v, i, rx);
    } else if k :| 0 <= k < |Props(s)| && Removed(s, t, k) {
      UniqueIndex(s, k);
      SampleValid(Props(s)[k].schema, rx);
      WithValid(s, Props(s)[k].name, Sample(Props(s)[k].schema), rx);
      v := With(s, Props(s)[k].name, Sample(Props(s)[k].schema));
      UnknownField(t, v, Props(s)[k].name, rx);
    } else if k :| 0 <= k < |Props(s)| && NestedBad(s, t, k, rx) {
      v := NestedRefuted(s, t, k, rx);
    } else if Open(s) && !Open(t) {
      WithValid(s, FreshName(s, t), VNull, rx);
      v := With(s, FreshName(s, t), VNull);
      UnknownField(t, v, FreshName(s, t), rx);
    } else {
      var j :| 0 <= j < |Props(t)| && Uncovered(s, t, j);
      RejectInvalid(Props(t)[j].schema, rx);
      WithValid(s, Props(t)[j].name, Reject(Props(t)[j].schema), rx);
      v := With(s, Props(t)[j].name, Reject(Props(t)[j].schema));
      BadField(t, v, j, rx);
    }
  }

  // ---------- Arrays and strings ----------

  lemma RepeatedValid(s: Schema, v: Value, n: nat, rx: Matcher)
    requires WellFormed(s) && s.typ == Some(TArray) && !Finite(s)
    requires InRange(n, s.minItems, s.maxItems) && (s.items.Some? && n > 0 ==> Valid(s.items.value, v, rx))
    ensures Valid(s, Repeated(v, n), rx)
  {
  }

  /** A size the source range allows and the target range does not. */
  function SizeOutside(sLeast: Option<int>, sMost: Option<int>, tLeast: Option<int>, tMost: Option<int>): (n: nat)
    requires Ordered(sLeast, sMost) && NonNegative(sLeast) && NonNegative(sMost)
    requires NonNegative(tLeast) && NonNegative(tMost) && !NewZero(sLeast, tLeast)
    requires RaisesLeast(sLeast, tLeast) || LowersMost(sMost, tMost)
    ensures InRange(n, sLeast, sMost) && !InRange(n, tLeast, tMost)
  {
    if RaisesLeast(sLeast, tLeast) then Least(sLeast)
    else if sMost.Some? then sMost.value
    else tMost.value + 1 + Least(sLeast)
  }

  /** The size tests are silent exactly when the ranges are included and the target adds no least size of zero. */
  lemma SizesExact(sLeast: Option<int>, sMost: Option<int>, tLeast: Option<int>, tMost: Option<int>)
    requires Ordered(sLeast, sMost) && NonNegative(sLeast) && NonNegative(sMost)
    requires NonNegative(tLeast) && NonNegative(tMost)
    ensures !RaisesLeast(sLeast, tLeast) && !LowersMost(sMost, tMost) <==>
            !NewZero(sLeast, tLeast) && forall n: nat | InRange(n, sLeast, sMost) :: InRange(n, tLeast, tMost)
  {
    if !NewZero(sLeast, tLeast) && (RaisesLeast(sLeast, tLeast) || LowersMost(sMost, tMost)) {
      var n := SizeOutside(sLeast, sMost, tLeast, tMost);
    }
  }

  lemma {:induction false} ArrayRefuted(s: Schema, t: Schema, rx: Matcher) returns (v: Value)
    requires WellFormed(s) && PlainSource(s, rx) && WellFormed(t) && PlainTarget(t) && Sharp(s, t)
    requires s.typ == Some(TArray) && t.typ == Some(TArray) && !Finite(s) && !Finite(t)
    requires !(ArraysOk(s, t, rx) && SafeStep(s, t))
    ensures Valid(s, v, rx) && !Valid(t, v, rx)
    decreases s, 1
  {
    hide Compatible, Sample;
    if RaisesLeast(s.minItems, t.minItems) || LowersMost(s.maxItems, t.maxItems) {
      var n := SizeOutside(s.minItems, s.maxItems, t.minItems, t.maxItems);
      var x := if s.items.Some? then Sample(s.items.value) else VNull;
      if s.items.Some? {
        SampleValid(s.items.value, rx);
      }
      RepeatedValid(s, x, n, rx);
      v := Repeated(x, n);
    } else {
      var n := if Least(s.minItems) == 0 then 1 else Least(s.minItems);
      var x;
      if s.items.Some? {
        x := Refuted(s.items.value, t.items.value, rx);
      } else {
        RejectInvalid(t.items.value, rx);
        x := Reject(t.items.value);
      }
      RepeatedValid(s, x, n, rx);
      v := Repeated(x, n);
      assert v.elems[0] == x;
    }
  }

  lemma StringRefuted(s: Schema, t: Schema, rx: Matcher) returns (v: Value)
    requires WellFormed(s) && PlainSource(s, rx) && WellFormed(t) && PlainTarget(t) && Sharp(s, t)
    requires s.typ == Some(TString) && t.typ == Some(TString) && !Finite(s) && !Finite(t) && !StringsOk(s, t)
    ensures Valid(s, v, rx) && !Valid(t, v, rx)
  {
    v := Letters(SizeOutside(s.strings.minLength, s.strings.maxLength, t.strings.minLength, t.strings.maxLength));
  }

  lemma NumberRefuted(s: Schema, t: Schema, rx: Matcher) returns (v: Value)
    requires WellFormed(s) && PlainSource(s, rx) && WellFormed(t) && PlainTarget(t) && Sharp(s, t)
    requires !Finite(s) && (s.typ == Some(TInteger) || s.typ == Some(TNumber))
    requires t.typ.Some? && SameOrWider(s.typ.value, t.typ.value)
    requires !(NumbersOk(s.numbers, t.numbers) && HiddenMet(s.numbers, t.numbers, IsIntegral(s)))
    ensures Valid(s, v, rx) && !Valid(t, v, rx)
  {
    hide NumbersOk, HiddenMet, Apparent, Vacant;
    var x := RangesRefuted(s.numbers, t.numbers, IsIntegral(s));
    v := VNum(x);
  }

  // ---------- The decision theorem ----------

  /** A value that a source with listed values accepts and the target rejects. */
  lemma FiniteRefuted(s: Schema, t: Schema, rx: Matcher) returns (v: Value)
    requires Finite(s) && SelfConsistent(s, rx) && !Compatible(s, t, rx)
    ensures Valid(s, v, rx) && !Valid(t, v, rx)
  {
    if s.constant.Some? {
      v := s.constant.value;
    } else {
      var i :| 0 <= i < |s.enumeration.value| && !Valid(t, s.enumeration.value[i], rx);
      v := s.enumeration.value[i];
    }
  }

  /** For a source that lists its values the checker decides inclusion in any target. */
  lemma FiniteExact(s: Schema, t: Schema, rx: Matcher)
    requires Finite(s) && SelfConsistent(s, rx)
    ensures Compatible(s, t, rx) <==> Included(s, t, rx)
  {
    if Compatible(s, t, rx) {
      forall v | Valid(s, v, rx) ensures Valid(t, v, rx) {
        if s.constant.None? {
          var i :| 0 <= i < |s.enumeration.value| && s.enumeration.value[i] == v;
        }
      }
    } else {
      var v := FiniteRefuted(s, t, rx);
    }
  }

  lemma {:induction false} Refuted(s: Schema, t: Schema, rx: Matcher) returns (v: Value)
    requires WellFormed(s) && PlainSource(s, rx) && WellFormed(t) && PlainTarget(t) && Sharp(s, t)
    requires !Sure(s, t, rx)
    ensures Valid(s, v, rx) && !Valid(t, v, rx)
    decreases s, 3
  {
    SampleValid(s, rx);
    if Finite(s) {
      v := FiniteRefuted(s, t, rx);
    } else if s.typ.None? {
      v := Reject(t);
      UntypedAccepts(s, v, rx);
      RejectInvalid(t, rx);
    } else if TypeConflict(s, t) {
      v := if s.typ == Some(TNumber) && t.typ == Some(TInteger) then VNum(Fraction(s.numbers)) else Sample(s);
    } else {
      v := TypedRefuted(s, t, rx);
    }
  }

  lemma {:induction false} TypedRefuted(s: Schema, t: Schema, rx: Matcher) returns (v: Value)
    requires WellFormed(s) && PlainSource(s, rx) && WellFormed(t) && PlainTarget(t) && Sharp(s, t)
    requires s.typ.Some? && !Finite(s) && !IsAny(t) && !TypeConflict(s, t)
    requires !(TypedOk(s, t, rx) && SafeStep(s, t))
    ensures Valid(s, v, rx) && !Valid(t, v, rx)
    decreases s, 2
  {
    match s.typ.value
    case TObject => v := ObjectRefuted(s, t, rx);
    case TArray => v := ArrayRefuted(s, t, rx);
    case TString => v := StringRefuted(s, t, rx);
    case _ => v := NumberRefuted(s, t, rx);
  }

  /** From a plain source to a plain target, silence and a safe step together decide inclusion. */
  lemma Exact(s: Schema, t: Schema, rx: Matcher)
    requires WellFormed(s) && PlainSource(s, rx) && WellFormed(t) && PlainTarget(t) && Sharp(s, t)
    ensures Compatible(s, t, rx) && SafeStep(s, t) <==> Included(s, t, rx)
  {
    hide Compatible, Covered, BoundsMet, PlainSource, PlainTarget, Sharp, WellFormed;
    if Sure(s, t, rx) {
      SoundInclusion(s, t, rx);
    } else {
      var v := Refuted(s, t, rx);
    }
  }
}
