/** What an empty list of violations means: every value of the source is a value of the target. */
module Soundness {
  import opened Wrappers
  import opened Documents
  import opened Schemas
  import opened Rules

  /**
   * The checker compares the properties of the source. Where an open source object meets a target that declares
   * a further property, that property must be unconstrained.
   */
  predicate Covered(s: Schema, t: Schema)
    decreases s
  {
    IsAny(t) || Finite(s) ||
    (&& (s.typ == Some(TObject) && Open(s) ==>
           forall j | 0 <= j < |Props(t)| :: HasProp(s, Props(t)[j].name) || IsAny(Props(t)[j].schema))
     && (forall k | 0 <= k < |Props(s)| && HasProp(t, Props(s)[k].name) ::
           Covered(Props(s)[k].schema, PropSchema(t, Props(s)[k].name)))
     && (s.items.Some? && t.items.Some? ==> Covered(s.items.value, t.items.value)))
  }

  lemma {:induction false} ClosedIsCovered(s: Schema, t: Schema)
    requires Closed(s)
    ensures Covered(s, t)
    decreases s
  {
    if !Finite(s) {
      forall k | 0 <= k < |Props(s)| && HasProp(t, Props(s)[k].name)
        ensures Covered(Props(s)[k].schema, PropSchema(t, Props(s)[k].name))
      {
        ClosedIsCovered(Props(s)[k].schema, PropSchema(t, Props(s)[k].name));
      }
      if s.items.Some? && t.items.Some? {
        ClosedIsCovered(s.items.value, t.items.value);
      }
    }
  }

  // ---------- Ranges of numbers ----------

  function LeastInteger(low: Bound): (n: real)
    ensures n.Floor as real == n
  {
    if !low.exclusive && low.value.Floor as real == low.value then low.value else (low.value.Floor + 1) as real
  }

  function GreatestInteger(high: Bound): (n: real)
    ensures n.Floor as real == n
  {
    if high.exclusive && high.value.Floor as real == high.value then (high.value.Floor - 1) as real
    else high.value.Floor as real
  }

  /** A stricter inclusive bound stands beside the exclusive one. */
  predicate HidesMinimum(rules: NumberRules) {
    rules.minimum.Some? && rules.exclusiveMinimum.Some? && rules.exclusiveMinimum.value < rules.minimum.value
  }

  predicate HidesMaximum(rules: NumberRules) {
    rules.maximum.Some? && rules.exclusiveMaximum.Some? && rules.maximum.value < rules.exclusiveMaximum.value
  }

  /** Where the numbers begin that the bounds allow: at the stricter lower bound, or the least integer within it. */
  function LowerEnd(rules: NumberRules, integral: bool): Option<Bound> {
    var low := if HidesMinimum(rules) then Some(Bound(rules.minimum.value, false)) else LowerBoundOf(rules);
    if integral && low.Some? then Some(Bound(LeastInteger(low.value), false)) else low
  }

  function UpperEnd(rules: NumberRules, integral: bool): Option<Bound> {
    var high := if HidesMaximum(rules) then Some(Bound(rules.maximum.value, false)) else UpperBoundOf(rules);
    if integral && high.Some? then Some(Bound(GreatestInteger(high.value), false)) else high
  }

  /** The number, an integer where only integers count, lies within the bounds. */
  predicate Admits(rules: NumberRules, integral: bool, x: real) {
    InBounds(rules, x) && (integral ==> x.Floor as real == x)
  }

  predicate AtLeast(low: Option<Bound>, x: real) {
    low.Some? ==> low.value.value < x || (low.value.value == x && !low.value.exclusive)
  }

  predicate AtMost(high: Option<Bound>, x: real) {
    high.Some? ==> x < high.value.value || (high.value.value == x && !high.value.exclusive)
  }

  lemma LeastExact(low: Bound, x: real)
    requires x.Floor as real == x
    ensures LeastInteger(low) <= x <==> low.value < x || (low.value == x && !low.exclusive)
  {
    var k, n := low.value.Floor, x.Floor;
    assert k as real <= low.value < (k + 1) as real;
    assert n <= k ==> n as real <= k as real;
    assert k + 1 <= n ==> (k + 1) as real <= n as real;
  }

  lemma GreatestExact(high: Bound, x: real)
    requires x.Floor as real == x
    ensures x <= GreatestInteger(high) <==> x < high.value || (high.value == x && !high.exclusive)
  {
    var k, n := high.value.Floor, x.Floor;
    assert k as real <= high.value < (k + 1) as real;
    assert n <= k ==> n as real <= k as real;
    assert n <= k - 1 ==> n as real <= (k - 1) as real;
    assert k + 1 <= n ==> (k + 1) as real <= n as real;
  }

  /** The ends describe the range: a number is admitted exactly between them. */
  lemma EndsExact(rules: NumberRules, integral: bool, x: real)
    requires integral ==> x.Floor as real == x
    ensures InBounds(rules, x) <==> AtLeast(LowerEnd(rules, integral), x) && AtMost(UpperEnd(rules, integral), x)
  {
    hide LeastInteger, GreatestInteger;
    if integral {
      if LowerEnd(rules, false).Some? {
        LeastExact(LowerEnd(rules, false).value, x);
      }
      if UpperEnd(rules, false).Some? {
        GreatestExact(UpperEnd(rules, false).value, x);
      }
    }
  }

  /** No number lies between the ends. */
  predicate Vacant(rules: NumberRules, integral: bool) {
    var low, high := LowerEnd(rules, integral), UpperEnd(rules, integral);
    && low.Some? && high.Some?
    && (high.value.value < low.value.value
        || (low.value.value == high.value.value && (low.value.exclusive || high.value.exclusive)))
  }

  /**
   * An inclusive bound that the target states beside a weaker exclusive one is hidden from the checker. The numbers
   * of the source, if there are any, must keep to it all the same.
   */
  predicate HiddenMet(s: NumberRules, t: NumberRules, integral: bool) {
    Vacant(s, integral) ||
    (&& (HidesMinimum(t) ==> LowerAtLeast(LowerEnd(s, integral), Some(Bound(t.minimum.value, false))))
     && (HidesMaximum(t) ==> UpperAtMost(UpperEnd(s, integral), Some(Bound(t.maximum.value, false)))))
  }

  /** The bound tests are sound where the hidden bounds are met. */
  lemma NumbersSound(s: NumberRules, t: NumberRules, integral: bool, x: real)
    requires NumbersOk(s, t) && HiddenMet(s, t, integral) && Admits(s, integral, x)
    ensures InBounds(t, x)
  {
    hide LowerEnd, UpperEnd;
    EndsExact(s, integral, x);
  }

  predicate IsIntegral(s: Schema) {
    s.typ == Some(TInteger)
  }

  // ---------- The second condition ----------

  /** The hidden bounds are met at every pair of nodes the checker compares. */
  predicate BoundsMet(s: Schema, t: Schema)
    decreases s
  {
    IsAny(t) || Finite(s) ||
    (&& HiddenMet(s.numbers, t.numbers, IsIntegral(s))
     && (forall k | 0 <= k < |Props(s)| && HasProp(t, Props(s)[k].name) ::
           BoundsMet(Props(s)[k].schema, PropSchema(t, Props(s)[k].name)))
     && (s.items.Some? && t.items.Some? ==> BoundsMet(s.items.value, t.items.value)))
  }

  /** A target without hidden bounds is met by every source. */
  lemma {:induction false} DominatedIsMet(s: Schema, t: Schema)
    requires Dominated(t)
    ensures BoundsMet(s, t)
    decreases s
  {
    forall k | 0 <= k < |Props(s)| && HasProp(t, Props(s)[k].name)
      ensures BoundsMet(Props(s)[k].schema, PropSchema(t, Props(s)[k].name))
    {
      assert Dominated(Props(t)[PropIndex(Props(t), Props(s)[k].name)].schema);
      DominatedIsMet(Props(s)[k].schema, PropSchema(t, Props(s)[k].name));
    }
    if s.items.Some? && t.items.Some? {
      DominatedIsMet(s.items.value, t.items.value);
    }
  }

  /** What makes a silent step safe: coverage, and the hidden bounds met. */
  predicate SafeStep(s: Schema, t: Schema) {
    Covered(s, t) && BoundsMet(s, t)
  }

  lemma {:induction false} UniqueIndex(s: Schema, j: nat)
    requires j < |Props(s)|
    requires forall i, k | 0 <= i < k < |Props(s)| :: Props(s)[i].name != Props(s)[k].name
    ensures HasProp(s, Props(s)[j].name) && PropSchema(s, Props(s)[j].name) == Props(s)[j].schema
  {
    var i := PropIndex(Props(s), Props(s)[j].name);
    assert !(j < i);
    assert !(i < j);
  }

  /** A node without a type carries no restriction of its own, so it accepts everything unless it is finite. */
  lemma UntypedAccepts(t: Schema, v: Value, rx: Matcher)
    requires WellFormed(t) && t.typ.None? && !Finite(t)
    ensures Valid(t, v, rx)
  {
  }

  lemma {:induction false} ObjectSound(s: Schema, t: Schema, v: Value, rx: Matcher)
    requires ObjectsOk(s, t, rx) && SafeStep(s, t)
    requires !IsAny(t) && !Finite(s) && !Finite(t) && s.typ == Some(TObject) && t.typ == Some(TObject)
    requires WellFormed(t) && Valid(s, v, rx)
    ensures Valid(t, v, rx)
    decreases s, 0
  {
    forall j | 0 <= j < |Props(t)| && Props(t)[j].name in v.fields
      ensures Valid(Props(t)[j].schema, v.fields[Props(t)[j].name], rx)
    {
      var name := Props(t)[j].name;
      UniqueIndex(t, j);
      if HasProp(s, name) {
        var k := PropIndex(Props(s), name);
        assert PropertyOk(s, t, k, rx);
        Sound(Props(s)[k].schema, PropSchema(t, name), v.fields[name], rx);
      } else {
        assert IsAny(Props(t)[j].schema);
      }
    }
    forall i | 0 <= i < |Required(t)| ensures Required(t)[i] in v.fields {
      assert Required(t)[i] in Required(s);
    }
    if !Open(t) {
      forall name | name in v.fields ensures HasProp(t, name) {
        assert HasProp(s, name);
        assert PropertyOk(s, t, PropIndex(Props(s), name), rx);
      }
    }
  }

  lemma {:induction false} ArraySound(s: Schema, t: Schema, v: Value, rx: Matcher)
    requires ArraysOk(s, t, rx) && SafeStep(s, t)
    requires !IsAny(t) && !Finite(s) && !Finite(t) && s.typ == Some(TArray) && t.typ == Some(TArray)
    requires WellFormed(t) && Valid(s, v, rx)
    ensures Valid(t, v, rx)
    decreases s, 0
  {
    if t.items.Some? {
      forall i | 0 <= i < |v.elems| ensures Valid(t.items.value, v.elems[i], rx) {
        Sound(s.items.value, t.items.value, v.elems[i], rx);
      }
    }
  }

  /**
   * Soundness of the checker. The source may be any schema; the target is well formed, the properties it adds to
   * open source objects are unconstrained, and the source meets the bounds it hides.
   */
  lemma {:induction false} Sound(s: Schema, t: Schema, v: Value, rx: Matcher)
    requires Compatible(s, t, rx) && SafeStep(s, t) && WellFormed(t)
    requires Valid(s, v, rx)
    ensures Valid(t, v, rx)
    decreases s, 1
  {
    if IsAny(t) || s.constant.Some? {
    } else if s.enumeration.Some? {
      var i :| 0 <= i < |s.enumeration.value| && s.enumeration.value[i] == v;
    } else if t.typ.None? {
      UntypedAccepts(t, v, rx);
    } else if t.typ.value == TObject {
      ObjectSound(s, t, v, rx);
    } else if t.typ.value == TArray {
      ArraySound(s, t, v, rx);
    } else if t.typ.value == TInteger || t.typ.value == TNumber {
      NumbersSound(s.numbers, t.numbers, IsIntegral(s), v.number);
    } else {
    }
  }

  lemma SoundInclusion(s: Schema, t: Schema, rx: Matcher)
    requires Compatible(s, t, rx) && SafeStep(s, t) && WellFormed(t)
    ensures Included(s, t, rx)
  {
    forall v | Valid(s, v, rx) ensures Valid(t, v, rx) {
      Sound(s, t, v, rx);
    }
  }

  /** Every step from a well-formed schema to itself is safe. */
  lemma {:induction false} SelfSafe(s: Schema)
    requires WellFormed(s)
    ensures SafeStep(s, s)
    decreases s
  {
    forall k | 0 <= k < |Props(s)|
      ensures HasProp(s, Props(s)[k].name) && PropSchema(s, Props(s)[k].name) == Props(s)[k].schema
      ensures SafeStep(Props(s)[k].schema, Props(s)[k].schema)
    {
      UniqueIndex(s, k);
      SelfSafe(Props(s)[k].schema);
    }
    if s.items.Some? {
      SelfSafe(s.items.value);
    }
  }
}
