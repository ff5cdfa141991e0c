/** Concrete schemas that show why the conditions of the main results are there. */
module Limits {
  import opened Wrappers
  import opened Documents
  import opened Schemas
  import opened Rules
  import opened Soundness
  import opened CompatibilityOrder
  import opened Necessity

  function Typed(typ: JsonType): Schema {
    ANY.(typ := Some(typ))
  }

  function ObjectOf(props: seq<Property>, additional: Option<bool>): Schema {
    ANY.(typ := Some(TObject), properties := Declared(props), additional := additional)
  }

  /** An inclusive bound beside a weaker exclusive one is never compared. */
  lemma WeakExclusiveBoundIsNotSound(rx: Matcher) returns (s: Schema, t: Schema, v: Value)
    ensures WellFormed(s) && WellFormed(t) && Covered(s, t) && Compatible(s, t, rx)
    ensures !Dominated(t) && !BoundsMet(s, t) && Valid(s, v, rx) && !Valid(t, v, rx)
  {
    s := Typed(TNumber).(numbers := NO_NUMBER_RULES.(exclusiveMinimum := Some(0.0)));
    t := s.(numbers := NumberRules(Some(5.0), None, Some(0.0), None));
    v := VNum(1.0);
  }

  function OneProperty(s: Schema): Schema {
    ObjectOf([Property("a", s)], None)
  }

  lemma OnePropertyCompatible(s: Schema, t: Schema, rx: Matcher)
    ensures Compatible(OneProperty(s), OneProperty(t), rx) <==> Compatible(s, t, rx)
  {
    hide Compatible;
    assert PropSchema(OneProperty(t), "a") == t;
    assert PropertyOk(OneProperty(s), OneProperty(t), 0, rx) <==> Compatible(s, t, rx);
    assert ObjectsOk(OneProperty(s), OneProperty(t), rx) <==> Compatible(s, t, rx);
    ObjectPair(OneProperty(s), OneProperty(t), rx);
  }

  lemma SimpleWellFormed()
    ensures WellFormed(OneProperty(Typed(TString))) && WellFormed(OneProperty(Typed(TInteger)))
    ensures WellFormed(ObjectOf([], None))
    ensures Dominated(OneProperty(Typed(TInteger)))
  {
    assert WellFormed(Typed(TString)) && WellFormed(Typed(TInteger)) && Dominated(Typed(TInteger));
  }

  /** A target may constrain a property the open source never mentions, and the checker does not look at it. */
  lemma OpenSourceIsNotSound(rx: Matcher) returns (s: Schema, t: Schema, v: Value)
    ensures WellFormed(s) && WellFormed(t) && BoundsMet(s, t) && Compatible(s, t, rx)
    ensures !Covered(s, t) && Valid(s, v, rx) && !Valid(t, v, rx)
  {
    hide WellFormed, Dominated, Compatible;
    SimpleWellFormed();
    s := ObjectOf([], None);
    t := OneProperty(Typed(TInteger));
    v := VObj(map["a" := VNull]);
    ObjectPair(s, t, rx);
    DominatedIsMet(s, t);
    assert !HasProp(s, Props(t)[0].name);
    assert !Valid(Props(t)[0].schema, v.fields["a"], rx);
  }

  /** Through an open middle schema the checker accepts two steps whose composition it rejects. */
  lemma OpenMiddleIsNotTransitive(rx: Matcher) returns (a: Schema, b: Schema, c: Schema)
    ensures WellFormed(a) && WellFormed(b) && WellFormed(c) && BoundsMet(b, c)
    ensures Compatible(a, b, rx) && Compatible(b, c, rx) && !Covered(b, c) && !Compatible(a, c, rx)
  {
    a := OneProperty(Typed(TString));
    b := ObjectOf([], None);
    c := OneProperty(Typed(TInteger));
    hide WellFormed, Dominated, Compatible;
    SimpleWellFormed();
    assert !HasProp(b, "a") && !HasProp(b, Props(c)[0].name);
    assert PropertyOk(a, b, 0, rx);
    DominatedIsMet(b, c);
    ObjectPair(a, b, rx);
    ObjectPair(b, c, rx);
    OnePropertyCompatible(Typed(TString), Typed(TInteger), rx);
    assert !Compatible(Typed(TString), Typed(TInteger), rx) by {
      StringIsNotInteger(rx);
    }
  }

  lemma StringIsNotInteger(rx: Matcher)
    ensures !Compatible(Typed(TString), Typed(TInteger), rx)
  {
  }

  /** A constant outside its own type makes a well-formed schema incompatible with itself. */
  lemma InconsistentConstIsNotReflexive(rx: Matcher) returns (s: Schema)
    ensures WellFormed(s) && !SelfConsistent(s, rx) && !Compatible(s, s, rx)
  {
    s := Typed(TString).(constant := Some(VNum(5.0)));
  }

  /** A size bound that restricts nothing is still reported: outside plain schemas the checker is cautious. */
  lemma ZeroMinimumIsReported(rx: Matcher) returns (s: Schema, t: Schema)
    ensures WellFormed(s) && WellFormed(t) && Included(s, t, rx) && !Compatible(s, t, rx)
  {
    s := Typed(TString);
    t := s.(strings := NO_STRING_RULES.(minLength := Some(0)));
  }

  /** A list of all the values a type has restricts nothing, but every finite target of another source is reported. */
  lemma FiniteTargetIsReported(rx: Matcher) returns (s: Schema, t: Schema)
    ensures WellFormed(s) && WellFormed(t) && Included(s, t, rx) && !Compatible(s, t, rx)
  {
    s := Typed(TBoolean);
    t := s.(enumeration := Some([VBool(true), VBool(false)]));
    assert t.enumeration.value[0] == VBool(true) && t.enumeration.value[1] == VBool(false);
    forall v | Valid(s, v, rx) ensures Valid(t, v, rx) {
      assert v in t.enumeration.value;
    }
  }

  // ---------- Why exactness of steps asks what it asks ----------

  lemma OpenGap(c: Schema, rx: Matcher)
    requires !IsAny(c)
    ensures Compatible(ObjectOf([], None), OneProperty(c), rx) && !Covered(ObjectOf([], None), OneProperty(c))
  {
    hide Compatible;
    ObjectPair(ObjectOf([], None), OneProperty(c), rx);
    assert !HasProp(ObjectOf([], None), Props(OneProperty(c))[0].name);
  }

  lemma DialectAlone()
    ensures WellFormed(ANY.(dialect := true)) && WellFormed(OneProperty(ANY.(dialect := true)))
    ensures !Restricting(OneProperty(ANY.(dialect := true)))
  {
    AnyWellFormed();
    assert Props(OneProperty(ANY.(dialect := true)))[0].schema == ANY.(dialect := true);
  }

  /** A property whose schema states a dialect and nothing else is not covered, yet loses nothing. */
  lemma DialectAloneLosesNothing(rx: Matcher) returns (s: Schema, t: Schema)
    ensures WellFormed(s) && WellFormed(t) && Compatible(s, t, rx) && Included(s, t, rx)
    ensures !SafeStep(s, t) && !Restricting(t)
  {
    hide Compatible, Covered, WellFormed, Restricting;
    var free := ANY.(dialect := true);
    s, t := ObjectOf([], None), OneProperty(free);
    SimpleWellFormed();
    DialectAlone();
    OpenGap(free, rx);
    forall v | Valid(s, v, rx) ensures Valid(t, v, rx) {
      if "a" in v.fields {
        UntypedAccepts(free, v.fields["a"], rx);
      }
    }
  }

  function EmptyArray(items: Schema): Schema {
    Typed(TArray).(maxItems := Some(0), items := Some(items))
  }

  lemma EmptyArrayWellFormed(items: Schema)
    requires WellFormed(items)
    ensures WellFormed(EmptyArray(items))
  {
  }

  lemma EmptyArrayPair(s: Schema, t: Schema, rx: Matcher)
    requires Compatible(s, t, rx) && !Covered(s, t)
    ensures Compatible(EmptyArray(s), EmptyArray(t), rx) && !Covered(EmptyArray(s), EmptyArray(t))
    ensures Included(EmptyArray(s), EmptyArray(t), rx)
  {
    ArrayPair(EmptyArray(s), EmptyArray(t), rx);
    hide Compatible;
  }

  /** Items of arrays that must be empty need not be covered. */
  lemma EmptyArraysLoseNothing(rx: Matcher) returns (s: Schema, t: Schema)
    ensures WellFormed(s) && WellFormed(t) && Compatible(s, t, rx) && Included(s, t, rx)
    ensures !SafeStep(s, t) && !Populated(s, rx)
  {
    hide Compatible, Covered, WellFormed, Included;
    SimpleWellFormed();
    OpenGap(Typed(TInteger), rx);
    EmptyArrayPair(ObjectOf([], None), OneProperty(Typed(TInteger)), rx);
    EmptyArrayWellFormed(ObjectOf([], None));
    EmptyArrayWellFormed(OneProperty(Typed(TInteger)));
    s, t := EmptyArray(ObjectOf([], None)), EmptyArray(OneProperty(Typed(TInteger)));
  }
}
