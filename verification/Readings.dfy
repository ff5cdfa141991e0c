/** What each violation of a report says: the pair of nodes it is about, and the fault that its code names. */
module Readings {
  import opened Enums
  import opened Wrappers
  import opened Texts
  import opened Documents
  import opened Schemas
  import opened Rules
  import opened Soundness

  // ---------- Pairs of nodes ----------

  datatype Step = Field(name: string) | Items

  function Fragment(step: Step): string {
    match step
    case Field(name) => name
    case Items => "items"
  }

  /** The path that the steps and then a last fragment, if any, lead to. */
  function PathTo(base: string, steps: seq<Step>, last: Option<string>): string
    decreases |steps|
  {
    if steps == [] then if last.Some? then base + "." + last.value else base
    else PathTo(base + "." + Fragment(steps[0]), steps[1..], last)
  }

  /** Typed nodes that list no values, where the type of the source is the type of the target or narrower. */
  predicate SameKind(s: Schema, t: Schema) {
    && !IsAny(s) && !IsAny(t)
    && s.constant.None? && s.enumeration.None? && t.constant.None? && t.enumeration.None?
    && (t.typ.Some? ==> s.typ == t.typ || (s.typ == Some(TInteger) && t.typ == Some(TNumber)))
  }

  /** The pair that one step leads to: the two schemas of a property that both declare, or of the items of arrays. */
  function Next(s: Schema, t: Schema, step: Step): (r: Option<(Schema, Schema)>)
    ensures r.Some? ==> r.value.0 < s
  {
    if !SameKind(s, t) then None
    else
      match step
      case Field(name) =>
        if s.typ == Some(TObject) && HasProp(s, name) && HasProp(t, name) then
          Some((PropSchema(s, name), PropSchema(t, name)))
        else None
      case Items =>
        if s.typ == Some(TArray) && s.items.Some? && t.items.Some? then Some((s.items.value, t.items.value)) else None
  }

  function Reached(s: Schema, t: Schema, steps: seq<Step>): Option<(Schema, Schema)>
    decreases |steps|
  {
    if steps == [] then Some((s, t))
    else
      match Next(s, t, steps[0])
      case None => None
      case Some(pair) => Reached(pair.0, pair.1, steps[1..])
  }

  // ---------- Faults ----------

  /** The lower bound that is looked at: `minimum` counts where there is no `exclusiveMinimum`. */
  predicate FromBelow(rules: NumberRules, x: real) {
    && (rules.exclusiveMinimum.Some? ==> rules.exclusiveMinimum.value < x)
    && (rules.exclusiveMinimum.None? && rules.minimum.Some? ==> rules.minimum.value <= x)
  }

  predicate FromAbove(rules: NumberRules, x: real) {
    && (rules.exclusiveMaximum.Some? ==> x < rules.exclusiveMaximum.value)
    && (rules.exclusiveMaximum.None? && rules.maximum.Some? ==> x <= rules.maximum.value)
  }

  /** A new least size, or a larger one. */
  predicate LeastGrew(source: Option<int>, target: Option<int>) {
    target.Some? && (source.Some? ==> source.value < target.value)
  }

  /** A new greatest size, or a smaller one. */
  predicate MostShrank(source: Option<int>, target: Option<int>) {
    target.Some? && (source.Some? ==> target.value < source.value)
  }

  predicate Imposes<T(==)>(source: Option<T>, target: Option<T>) {
    target.Some? && source != target
  }

  /** The fault of a pair that a code names; some codes name a property, or the items, as the last fragment. */
  ghost predicate Fault(code: Code, last: Option<string>, s: Schema, t: Schema, rx: Matcher) {
    match code
    case AnyToRestricted => last.None? && IsAny(s) && !IsAny(t)
    case ConstRejected => last.None? && !IsAny(t) && s.constant.Some? && !Valid(t, s.constant.value, rx)
    case EnumRejected =>
      && last.None? && !IsAny(t) && s.constant.None? && s.enumeration.Some?
      && exists v | v in s.enumeration.value :: !Valid(t, v, rx)
    case FiniteTarget =>
      last.None? && !IsAny(s) && s.constant.None? && s.enumeration.None? && (t.constant.Some? || t.enumeration.Some?)
    case TypeChanged =>
      && last.None? && !IsAny(s)
      && s.constant.None? && s.enumeration.None? && t.constant.None? && t.enumeration.None?
      && t.typ.Some? && s.typ != t.typ && !(s.typ == Some(TInteger) && t.typ == Some(TNumber))
    case RequiredAdded =>
      SameKind(s, t) && s.typ == Some(TObject) && last.Some? && last.value in Required(t) && last.value !in Required(s)
    case PropertyRemoved =>
      && SameKind(s, t) && s.typ == Some(TObject) && last.Some?
      && HasProp(s, last.value) && !HasProp(t, last.value) && t.additional == Some(false)
    case AdditionalClosed =>
      && SameKind(s, t) && s.typ == Some(TObject) && last.None?
      && s.additional != Some(false) && t.additional == Some(false)
    case MinItems => SameKind(s, t) && s.typ == Some(TArray) && last.None? && LeastGrew(s.minItems, t.minItems)
    case MaxItems => SameKind(s, t) && s.typ == Some(TArray) && last.None? && MostShrank(s.maxItems, t.maxItems)
    case ItemsAdded =>
      SameKind(s, t) && s.typ == Some(TArray) && last == Some("items") && s.items.None? && t.items.Some?
    case MinLength =>
      SameKind(s, t) && s.typ == Some(TString) && last.None? && LeastGrew(s.strings.minLength, t.strings.minLength)
    case MaxLength =>
      SameKind(s, t) && s.typ == Some(TString) && last.None? && MostShrank(s.strings.maxLength, t.strings.maxLength)
    case Pattern =>
      SameKind(s, t) && s.typ == Some(TString) && last.None? && Imposes(s.strings.pattern, t.strings.pattern)
    case Format =>
      SameKind(s, t) && s.typ == Some(TString) && last.None? && Imposes(s.strings.format, t.strings.format)
    case LowerBound =>
      && SameKind(s, t) && (s.typ == Some(TInteger) || s.typ == Some(TNumber)) && last.None?
      && exists x :: FromBelow(s.numbers, x) && !FromBelow(t.numbers, x)
    case UpperBound =>
      && SameKind(s, t) && (s.typ == Some(TInteger) || s.typ == Some(TNumber)) && last.None?
      && exists x :: FromAbove(s.numbers, x) && !FromAbove(t.numbers, x)
  }

  /** The violation points at a pair of nodes that shows the fault its code names. */
  ghost predicate Shown(s: Schema, t: Schema, rx: Matcher, code: Code, base: string, path: string) {
    exists steps, last :: ShownAt(s, t, rx, code, steps, last) && path == PathTo(base, steps, last)
  }

  ghost predicate ShownAt(s: Schema, t: Schema, rx: Matcher, code: Code, steps: seq<Step>, last: Option<string>) {
    Reached(s, t, steps).Some? && Fault(code, last, Reached(s, t, steps).value.0, Reached(s, t, steps).value.1, rx)
  }

  lemma LowerFault(s: NumberRules, t: NumberRules)
    ensures (exists x :: FromBelow(s, x) && !FromBelow(t, x)) <==> !LowerAtLeast(LowerBoundOf(s), LowerBoundOf(t))
  {
    if !LowerAtLeast(LowerBoundOf(s), LowerBoundOf(t)) {
      var limit := LowerBoundOf(t).value.value;
      var x := if LowerBoundOf(s).None? then limit - 1.0
               else if LowerBoundOf(s).value.value == limit then limit
               else (LowerBoundOf(s).value.value + limit) / 2.0;
      assert FromBelow(s, x) && !FromBelow(t, x);
    }
  }

  lemma UpperFault(s: NumberRules, t: NumberRules)
    ensures (exists x :: FromAbove(s, x) && !FromAbove(t, x)) <==> !UpperAtMost(UpperBoundOf(s), UpperBoundOf(t))
  {
    if !UpperAtMost(UpperBoundOf(s), UpperBoundOf(t)) {
      var limit := UpperBoundOf(t).value.value;
      var x := if UpperBoundOf(s).None? then limit + 1.0
               else if UpperBoundOf(s).value.value == limit then limit
               else (UpperBoundOf(s).value.value + limit) / 2.0;
      assert FromAbove(s, x) && !FromAbove(t, x);
    }
  }

  // ---------- Faults of one pair ----------

  /** The violation names a fault that the pair shows itself. */
  ghost predicate Own(s: Schema, t: Schema, rx: Matcher, dir: Direction, base: string, v: Violation) {
    v.direction == dir && exists last :: Fault(v.code, last, s, t, rx) && v.path == PathTo(base, [], last)
  }

  lemma OwnWithoutLast(s: Schema, t: Schema, rx: Matcher, dir: Direction, base: string, v: Violation)
    requires v.code !in [RequiredAdded, PropertyRemoved, ItemsAdded]
    ensures Own(s, t, rx, dir, base, v) <==> v.direction == dir && v.path == base && Fault(v.code, None, s, t, rx)
  {
    hide Valid;
    if Fault(v.code, None, s, t, rx) && v.path == base {
      assert PathTo(base, [], None) == base;
    }
  }

  lemma OwnWithLast(s: Schema, t: Schema, rx: Matcher, dir: Direction, base: string, v: Violation)
    requires v.code in [RequiredAdded, PropertyRemoved, ItemsAdded]
    ensures Own(s, t, rx, dir, base, v) <==>
            v.direction == dir && exists name :: v.path == base + "." + name && Fault(v.code, Some(name), s, t, rx)
  {
    hide Valid;
    if Own(s, t, rx, dir, base, v) {
      var last :| Fault(v.code, last, s, t, rx) && v.path == PathTo(base, [], last);
      assert v.path == base + "." + last.value;
    }
    if name :| v.path == base + "." + name && Fault(v.code, Some(name), s, t, rx) {
      assert v.path == PathTo(base, [], Some(name));
    }
  }

  lemma Reported(bad: bool, code: Code, dir: Direction, base: string, v: Violation)
    ensures v in Report1(bad, code, dir, base) <==> bad && v == Violation(code, dir, base)
  {
  }

  lemma StringsMember(s: Schema, t: Schema, dir: Direction, base: string, v: Violation)
    ensures v in StringViolations(s, t, dir, base) <==>
            && v.direction == dir && v.path == base
            && match v.code
               case MinLength => RaisesLeast(s.strings.minLength, t.strings.minLength)
               case MaxLength => LowersMost(s.strings.maxLength, t.strings.maxLength)
               case Pattern => Narrows(s.strings.pattern, t.strings.pattern)
               case Format => Narrows(s.strings.format, t.strings.format)
               case _ => false
  {
    hide Report1, RaisesLeast, LowersMost, Narrows;
    Reported(RaisesLeast(s.strings.minLength, t.strings.minLength), MinLength, dir, base, v);
    Reported(LowersMost(s.strings.maxLength, t.strings.maxLength), MaxLength, dir, base, v);
    Reported(Narrows(s.strings.pattern, t.strings.pattern), Pattern, dir, base, v);
    Reported(Narrows(s.strings.format, t.strings.format), Format, dir, base, v);
  }

  lemma StringsRead(s: Schema, t: Schema, rx: Matcher, dir: Direction, base: string, v: Violation)
    requires SameKind(s, t) && s.typ == Some(TString)
    ensures v in StringViolations(s, t, dir, base) <==> Own(s, t, rx, dir, base, v)
  {
    hide Own, Valid, StringViolations;
    StringsMember(s, t, dir, base, v);
    if v.code in [RequiredAdded, PropertyRemoved, ItemsAdded] {
      OwnWithLast(s, t, rx, dir, base, v);
    } else {
      OwnWithoutLast(s, t, rx, dir, base, v);
    }
  }

  lemma NumbersRead(s: Schema, t: Schema, rx: Matcher, dir: Direction, base: string, v: Violation)
    requires SameKind(s, t) && (s.typ == Some(TInteger) || s.typ == Some(TNumber))
    ensures v in NumericViolations(s, t, dir, base) <==> Own(s, t, rx, dir, base, v)
  {
    hide Own, Valid, FromBelow, FromAbove, LowerAtLeast, UpperAtMost;
    if v.code in [RequiredAdded, PropertyRemoved, ItemsAdded] {
      OwnWithLast(s, t, rx, dir, base, v);
    } else {
      OwnWithoutLast(s, t, rx, dir, base, v);
    }
    LowerFault(s.numbers, t.numbers);
    UpperFault(s.numbers, t.numbers);
  }

  lemma UntypedRead(s: Schema, t: Schema, rx: Matcher, dir: Direction, base: string, v: Violation)
    requires SameKind(s, t)
    requires s.typ.None? || s.typ == Some(TBoolean) || s.typ == Some(TNull)
    ensures !Own(s, t, rx, dir, base, v)
  {
    hide Valid;
  }

  // ---------- The faults below one pair ----------

  /** The violation is one of the pair that one step leads to. */
  ghost predicate Below(s: Schema, t: Schema, rx: Matcher, dir: Direction, base: string, v: Violation) {
    exists step :: BelowAt(s, t, rx, dir, base, step, v)
  }

  ghost predicate BelowAt(s: Schema, t: Schema, rx: Matcher, dir: Direction, base: string, step: Step, v: Violation) {
    && Next(s, t, step).Some?
    && v in CheckSubset(Next(s, t, step).value.0, Next(s, t, step).value.1, rx, dir, base + "." + Fragment(step))
  }

  /** The violation is one of the first n properties. */
  ghost predicate OfFirst(s: Schema, t: Schema, n: nat, rx: Matcher, dir: Direction, base: string, v: Violation)
    requires n <= |Props(s)|
  {
    exists k: nat | k < n :: v in PropertyViolations(s, t, k, rx, dir, base)
  }

  lemma OfFirstStep(s: Schema, t: Schema, n: nat, rx: Matcher, dir: Direction, base: string, v: Violation)
    requires n < |Props(s)|
    ensures OfFirst(s, t, n + 1, rx, dir, base, v) <==>
            OfFirst(s, t, n, rx, dir, base, v) || v in PropertyViolations(s, t, n, rx, dir, base)
  {
    hide PropertyViolations;
    if OfFirst(s, t, n + 1, rx, dir, base, v) {
      var k: nat :| k < n + 1 && v in PropertyViolations(s, t, k, rx, dir, base);
      assert k < n || k == n;
    }
    if OfFirst(s, t, n, rx, dir, base, v) {
      var k: nat :| k < n && v in PropertyViolations(s, t, k, rx, dir, base);
      assert k < n + 1;
    }
  }

  lemma {:induction false} PrefixMember(s: Schema, t: Schema, n: nat, rx: Matcher, dir: Direction, base: string,
        v: Violation)
    requires n <= |Props(s)|
    ensures v in PrefixViolations(s, t, n, rx, dir, base) <==> OfFirst(s, t, n, rx, dir, base, v)
  {
    hide PropertyViolations;
    if n > 0 {
      PrefixMember(s, t, n - 1, rx, dir, base, v);
      hide OfFirst;
      OfFirstStep(s, t, n - 1, rx, dir, base, v);
    }
  }

  lemma RequiredRead(s: Schema, t: Schema, rx: Matcher, dir: Direction, base: string, v: Violation)
    requires SameKind(s, t) && s.typ == Some(TObject) && base != ""
    ensures v in RequiredViolations(SortedDifference(Required(t), Required(s)), dir, base) <==>
            v.code == RequiredAdded && Own(s, t, rx, dir, base, v)
  {
    var names := SortedDifference(Required(t), Required(s));
    var violations := RequiredViolations(names, dir, base);
    if v.code == RequiredAdded {
      OwnWithLast(s, t, rx, dir, base, v);
    }
    hide Own, Valid, Required, SortedDifference;
    if v in violations {
      var i :| 0 <= i < |violations| && violations[i] == v;
      assert names[i] in names && v.path == base + "." + names[i];
      assert Fault(v.code, Some(names[i]), s, t, rx);
    }
    if v.code == RequiredAdded && Own(s, t, rx, dir, base, v) {
      var name :| v.path == base + "." + name && Fault(v.code, Some(name), s, t, rx);
      assert name in names;
      var i :| 0 <= i < |names| && names[i] == name;
      assert violations[i] == v;
    }
  }

  lemma PropertyRead(s: Schema, t: Schema, k: nat, rx: Matcher, dir: Direction, base: string, v: Violation)
    requires WellFormed(s) && SameKind(s, t) && s.typ == Some(TObject) && base != "" && k < |Props(s)|
    ensures
      var name := Props(s)[k].name;
      v in PropertyViolations(s, t, k, rx, dir, base) <==>
        || BelowAt(s, t, rx, dir, base, Field(name), v)
        || (v == Violation(PropertyRemoved, dir, base + "." + name) && Fault(PropertyRemoved, Some(name), s, t, rx))
  {
    UniqueIndex(s, k);
    hide CheckSubset, WellFormed, Valid;
  }

  lemma PropertiesRead(s: Schema, t: Schema, rx: Matcher, dir: Direction, base: string, v: Violation)
    requires WellFormed(s) && SameKind(s, t) && s.typ == Some(TObject) && base != ""
    ensures v in PrefixViolations(s, t, |Props(s)|, rx, dir, base) <==>
            Below(s, t, rx, dir, base, v) || (v.code == PropertyRemoved && Own(s, t, rx, dir, base, v))
  {
    hide Own, WellFormed, PropertyViolations, PrefixViolations, CheckSubset, Valid;
    if v.code == PropertyRemoved {
      OwnWithLast(s, t, rx, dir, base, v);
    }
    PrefixMember(s, t, |Props(s)|, rx, dir, base, v);
    if v in PrefixViolations(s, t, |Props(s)|, rx, dir, base) {
      var k: nat :| k < |Props(s)| && v in PropertyViolations(s, t, k, rx, dir, base);
      PropertyRead(s, t, k, rx, dir, base, v);
    }
    if step :| BelowAt(s, t, rx, dir, base, step, v) {
      PropertyRead(s, t, PropIndex(Props(s), step.name), rx, dir, base, v);
    }
    if v.code == PropertyRemoved && Own(s, t, rx, dir, base, v) {
      var name :| v.path == base + "." + name && Fault(v.code, Some(name), s, t, rx);
      PropertyRead(s, t, PropIndex(Props(s), name), rx, dir, base, v);
    }
  }

  lemma ObjectsRead(s: Schema, t: Schema, rx: Matcher, dir: Direction, base: string, v: Violation)
    requires WellFormed(s) && SameKind(s, t) && s.typ == Some(TObject) && base != ""
    ensures v in ObjectViolations(s, t, rx, dir, base) <==> Own(s, t, rx, dir, base, v) || Below(s, t, rx, dir, base, v)
  {
    hide Own, Below, PrefixViolations, RequiredViolations, SortedDifference, WellFormed, Valid;
    RequiredRead(s, t, rx, dir, base, v);
    PropertiesRead(s, t, rx, dir, base, v);
    if v.code !in [RequiredAdded, PropertyRemoved, ItemsAdded] {
      OwnWithoutLast(s, t, rx, dir, base, v);
    } else {
      OwnWithLast(s, t, rx, dir, base, v);
    }
  }

  lemma ArraysMember(s: Schema, t: Schema, rx: Matcher, dir: Direction, base: string, v: Violation)
    requires base != ""
    ensures v in ArrayViolations(s, t, rx, dir, base) <==>
            || (RaisesLeast(s.minItems, t.minItems) && v == Violation(MinItems, dir, base))
            || (LowersMost(s.maxItems, t.maxItems) && v == Violation(MaxItems, dir, base))
            || (s.items.None? && t.items.Some? && v == Violation(ItemsAdded, dir, base + ".items"))
            || (s.items.Some? && t.items.Some? &&
                v in CheckSubset(s.items.value, t.items.value, rx, dir, base + ".items"))
  {
    hide Report1, RaisesLeast, LowersMost, CheckSubset;
    Reported(RaisesLeast(s.minItems, t.minItems), MinItems, dir, base, v);
    Reported(LowersMost(s.maxItems, t.maxItems), MaxItems, dir, base, v);
    assert Join(base, "items") == base + ".items";
  }

  lemma ArraysRead(s: Schema, t: Schema, rx: Matcher, dir: Direction, base: string, v: Violation)
    requires SameKind(s, t) && s.typ == Some(TArray) && base != ""
    ensures v in ArrayViolations(s, t, rx, dir, base) <==> Own(s, t, rx, dir, base, v) || Below(s, t, rx, dir, base, v)
  {
    hide Own, Below, CheckSubset, Valid, ArrayViolations;
    ArraysMember(s, t, rx, dir, base, v);
    ItemsBelow(s, t, rx, dir, base, v);
    if v.code !in [RequiredAdded, PropertyRemoved, ItemsAdded] {
      OwnWithoutLast(s, t, rx, dir, base, v);
    } else {
      OwnWithLast(s, t, rx, dir, base, v);
      assert base + "." + "items" == base + ".items";
    }
  }

  lemma ItemsBelow(s: Schema, t: Schema, rx: Matcher, dir: Direction, base: string, v: Violation)
    requires SameKind(s, t) && s.typ == Some(TArray)
    ensures Below(s, t, rx, dir, base, v) <==>
            && s.items.Some? && t.items.Some?
            && v in CheckSubset(s.items.value, t.items.value, rx, dir, base + ".items")
  {
    hide CheckSubset;
    assert Fragment(Items) == "items" && base + "." + "items" == base + ".items";
    if s.items.Some? && t.items.Some? && v in CheckSubset(s.items.value, t.items.value, rx, dir, base + ".items") {
      assert BelowAt(s, t, rx, dir, base, Items, v);
    }
  }

  /** What the checker reports at a pair: the faults it shows itself, and those of the pairs one step below. */
  lemma NodeRead(s: Schema, t: Schema, rx: Matcher, dir: Direction, base: string, v: Violation)
    requires WellFormed(s) && base != ""
    ensures v in CheckSubset(s, t, rx, dir, base) <==> Own(s, t, rx, dir, base, v) || Below(s, t, rx, dir, base, v)
  {
    if SameKind(s, t) {
      KindRead(s, t, rx, dir, base, v);
    } else {
      MismatchRead(s, t, rx, dir, base, v);
    }
  }

  lemma KindRead(s: Schema, t: Schema, rx: Matcher, dir: Direction, base: string, v: Violation)
    requires WellFormed(s) && SameKind(s, t) && base != ""
    ensures v in CheckSubset(s, t, rx, dir, base) <==> Own(s, t, rx, dir, base, v) || Below(s, t, rx, dir, base, v)
  {
    assert CheckSubset(s, t, rx, dir, base) == TypedViolations(s, t, rx, dir, base);
    hide CheckSubset, Own, WellFormed, Valid, ObjectViolations, ArrayViolations, StringViolations, NumericViolations;
    match s.typ
    case Some(TObject) => ObjectsRead(s, t, rx, dir, base, v);
    case Some(TArray) => ArraysRead(s, t, rx, dir, base, v);
    case Some(TString) => StringsRead(s, t, rx, dir, base, v);
    case Some(TInteger) => NumbersRead(s, t, rx, dir, base, v);
    case Some(TNumber) => NumbersRead(s, t, rx, dir, base, v);
    case _ => UntypedRead(s, t, rx, dir, base, v);
  }

  lemma MismatchRead(s: Schema, t: Schema, rx: Matcher, dir: Direction, base: string, v: Violation)
    requires !SameKind(s, t) && base != ""
    ensures v in CheckSubset(s, t, rx, dir, base) <==> Own(s, t, rx, dir, base, v)
    ensures !Below(s, t, rx, dir, base, v)
  {
    hide Own, Valid, TypedViolations;
    if v.code !in [RequiredAdded, PropertyRemoved, ItemsAdded] {
      OwnWithoutLast(s, t, rx, dir, base, v);
    } else {
      OwnWithLast(s, t, rx, dir, base, v);
    }
    assert s.enumeration.Some? ==>
      (!AcceptsAll(t, s.enumeration.value, rx) <==> exists v | v in s.enumeration.value :: !Valid(t, v, rx));
  }

  // ---------- The order of one pair's faults ----------

  /** Where the tests of a string or number node stand in their order. */
  function Position(code: Code): int {
    match code
    case MinLength => 0
    case MaxLength => 1
    case Pattern => 2
    case Format => 3
    case LowerBound => 4
    case UpperBound => 5
    case _ => 6
  }

  predicate InOrder(violations: seq<Violation>) {
    forall i, j | 0 <= i < j < |violations| :: Position(violations[i].code) < Position(violations[j].code)
  }

  lemma ScalarsInOrder(s: Schema, t: Schema, dir: Direction, base: string)
    ensures InOrder(StringViolations(s, t, dir, base)) && InOrder(NumericViolations(s, t, dir, base))
  {
    hide RaisesLeast, LowersMost, Narrows, LowerAtLeast, UpperAtMost;
  }

  // ---------- The whole report ----------

  lemma {:induction false} ReportedIsShown(s: Schema, t: Schema, rx: Matcher, dir: Direction, base: string,
        v: Violation) returns (steps: seq<Step>, last: Option<string>)
    requires WellFormed(s) && base != "" && v in CheckSubset(s, t, rx, dir, base)
    ensures v.direction == dir && ShownAt(s, t, rx, v.code, steps, last) && v.path == PathTo(base, steps, last)
    decreases s
  {
    hide CheckSubset, Fault;
    NodeRead(s, t, rx, dir, base, v);
    if Own(s, t, rx, dir, base, v) {
      steps := [];
      last :| Fault(v.code, last, s, t, rx) && v.path == PathTo(base, [], last);
    } else {
      var step :| BelowAt(s, t, rx, dir, base, step, v);
      var pair := Next(s, t, step).value;
      assert WellFormed(pair.0) by { NextWellFormed(s, t, step); }
      var rest, end := ReportedIsShown(pair.0, pair.1, rx, dir, base + "." + Fragment(step), v);
      steps, last := [step] + rest, end;
      assert steps[1..] == rest;
    }
  }

  lemma NextWellFormed(s: Schema, t: Schema, step: Step)
    requires WellFormed(s) && Next(s, t, step).Some?
    ensures WellFormed(Next(s, t, step).value.0)
  {
    if step.Field? {
      assert WellFormed(Props(s)[PropIndex(Props(s), step.name)].schema);
    }
  }

  lemma {:induction false} ShownIsReported(s: Schema, t: Schema, rx: Matcher, dir: Direction, base: string, code: Code,
        steps: seq<Step>, last: Option<string>)
    requires WellFormed(s) && base != "" && ShownAt(s, t, rx, code, steps, last)
    ensures Violation(code, dir, PathTo(base, steps, last)) in CheckSubset(s, t, rx, dir, base)
    decreases |steps|
  {
    hide CheckSubset, Fault;
    var v := Violation(code, dir, PathTo(base, steps, last));
    NodeRead(s, t, rx, dir, base, v);
    if steps != [] {
      var pair := Next(s, t, steps[0]).value;
      NextWellFormed(s, t, steps[0]);
      ShownIsReported(pair.0, pair.1, rx, dir, base + "." + Fragment(steps[0]), code, steps[1..], last);
      assert BelowAt(s, t, rx, dir, base, steps[0], v);
    }
  }

  /** A violation is reported exactly when the pair of nodes its path leads to shows the fault its code names. */
  lemma CheckReads(s: Schema, t: Schema, rx: Matcher, dir: Direction, v: Violation)
    requires WellFormed(s)
    ensures v in CheckSubset(s, t, rx, dir, "$") <==> v.direction == dir && Shown(s, t, rx, v.code, "$", v.path)
  {
    hide CheckSubset, ShownAt, PathTo;
    if v in CheckSubset(s, t, rx, dir, "$") {
      var steps, last := ReportedIsShown(s, t, rx, dir, "$", v);
    }
    if v.direction == dir && Shown(s, t, rx, v.code, "$", v.path) {
      var steps, last :| ShownAt(s, t, rx, v.code, steps, last) && v.path == PathTo("$", steps, last);
      ShownIsReported(s, t, rx, dir, "$", v.code, steps, last);
    }
  }

  /** The same for a report: backward from the base to the candidate, forward from the candidate to the base. */
  lemma ReportReads(base: Schema, candidate: Schema, rx: Matcher, v: Violation)
    requires WellFormed(base) && WellFormed(candidate)
    ensures v in BuildReport(base, candidate, rx).violations <==>
            if v.direction == Backward then Shown(base, candidate, rx, v.code, "$", v.path)
            else Shown(candidate, base, rx, v.code, "$", v.path)
  {
    hide CheckSubset, Shown;
    CheckReads(base, candidate, rx, Backward, v);
    CheckReads(candidate, base, rx, Forward, v);
  }
}
