/** The compatibility checker: a recursive test whether every value of a source schema is a value of a target. */
module Rules {
  import opened Enums
  import opened Wrappers
  import opened Texts
  import opened Documents
  import opened Schemas

  datatype Code =
    | AnyToRestricted | ConstRejected | EnumRejected | FiniteTarget | TypeChanged
    | RequiredAdded | PropertyRemoved | AdditionalClosed
    | MinItems | MaxItems | ItemsAdded
    | MinLength | MaxLength | Pattern | Format
    | LowerBound | UpperBound

  /** The severity of every violation is `fail`; message texts are not modelled. */
  datatype Violation = Violation(code: Code, direction: Direction, path: string)

  function Join(base: string, fragment: string): string {
    if base == "" then fragment else base + "." + fragment
  }

  function Here(path: string): string {
    if path == "" then "$" else path
  }

  function Report1(bad: bool, code: Code, dir: Direction, path: string): seq<Violation> {
    if bad then [Violation(code, dir, path)] else []
  }

  // ---------- Bounds ----------

  datatype Bound = Bound(value: real, exclusive: bool)

  function LowerBoundOf(rules: NumberRules): Option<Bound> {
    if rules.exclusiveMinimum.Some? then Some(Bound(rules.exclusiveMinimum.value, true))
    else if rules.minimum.Some? then Some(Bound(rules.minimum.value, false))
    else None
  }

  function UpperBoundOf(rules: NumberRules): Option<Bound> {
    if rules.exclusiveMaximum.Some? then Some(Bound(rules.exclusiveMaximum.value, true))
    else if rules.maximum.Some? then Some(Bound(rules.maximum.value, false))
    else None
  }

  predicate LowerAtLeast(source: Option<Bound>, target: Option<Bound>) {
    if target.None? then true
    else if source.None? then false
    else if source.value.value > target.value.value then true
    else if source.value.value < target.value.value then false
    else if source.value.exclusive && !target.value.exclusive then true
    else source.value.exclusive == target.value.exclusive
  }

  predicate UpperAtMost(source: Option<Bound>, target: Option<Bound>) {
    if target.None? then true
    else if source.None? then false
    else if source.value.value < target.value.value then true
    else if source.value.value > target.value.value then false
    else if source.value.exclusive && !target.value.exclusive then true
    else source.value.exclusive == target.value.exclusive
  }

  predicate RaisesLeast(source: Option<int>, target: Option<int>) {
    target.Some? && (source.None? || source.value < target.value)
  }

  predicate LowersMost(source: Option<int>, target: Option<int>) {
    target.Some? && (source.None? || source.value > target.value)
  }

  predicate Narrows(source: Option<string>, target: Option<string>) {
    target.Some? && source != target
  }

  predicate SameOrWider(source: JsonType, target: JsonType) {
    source == target || (source == TInteger && target == TNumber)
  }

  predicate TypeConflict(source: Schema, target: Schema) {
    target.typ.Some? && (source.typ.None? || !SameOrWider(source.typ.value, target.typ.value))
  }

  function EffectiveType(source: Schema, target: Schema): Option<JsonType> {
    if source.typ.Some? then source.typ else target.typ
  }

  // ---------- The violations, as a function of the two schemas ----------

  function StringViolations(source: Schema, target: Schema, dir: Direction, path: string): seq<Violation> {
    Report1(RaisesLeast(source.strings.minLength, target.strings.minLength), MinLength, dir, path) +
    Report1(LowersMost(source.strings.maxLength, target.strings.maxLength), MaxLength, dir, path) +
    Report1(Narrows(source.strings.pattern, target.strings.pattern), Pattern, dir, path) +
    Report1(Narrows(source.strings.format, target.strings.format), Format, dir, path)
  }

  function NumericViolations(source: Schema, target: Schema, dir: Direction, path: string): seq<Violation> {
    Report1(!LowerAtLeast(LowerBoundOf(source.numbers), LowerBoundOf(target.numbers)), LowerBound, dir, path) +
    Report1(!UpperAtMost(UpperBoundOf(source.numbers), UpperBoundOf(target.numbers)), UpperBound, dir, path)
  }

  function ArrayViolations(source: Schema, target: Schema, rx: Matcher, dir: Direction, path: string): seq<Violation>
    decreases source, 1
  {
    Report1(RaisesLeast(source.minItems, target.minItems), MinItems, dir, path) +
    Report1(LowersMost(source.maxItems, target.maxItems), MaxItems, dir, path) +
    if target.items.None? then []
    else if source.items.None? then [Violation(ItemsAdded, dir, Join(path, "items"))]
    else CheckSubset(source.items.value, target.items.value, rx, dir, Join(path, "items"))
  }

  function RequiredViolations(names: seq<string>, dir: Direction, path: string): seq<Violation> {
    seq(|names|, i requires 0 <= i < |names| => Violation(RequiredAdded, dir, Join(path, names[i])))
  }

  /** What the checker reports for the k-th property of the source. */
  function PropertyViolations(source: Schema, target: Schema, k: nat, rx: Matcher, dir: Direction,
        path: string): seq<Violation>
    requires k < |Props(source)|
    decreases source, 1
  {
    var p := Props(source)[k];
    if HasProp(target, p.name) then CheckSubset(p.schema, PropSchema(target, p.name), rx, dir, Join(path, p.name))
    else Report1(!Open(target), PropertyRemoved, dir, Join(path, p.name))
  }

  /** What the checker reports for the first n properties of the source. */
  function PrefixViolations(source: Schema, target: Schema, n: nat, rx: Matcher, dir: Direction,
        path: string): seq<Violation>
    requires n <= |Props(source)|
    decreases source, 2, n
  {
    if n == 0 then []
    else
      PrefixViolations(source, target, n - 1, rx, dir, path) +
      PropertyViolations(source, target, n - 1, rx, dir, path)
  }

  function ObjectViolations(source: Schema, target: Schema, rx: Matcher, dir: Direction, path: string): seq<Violation>
    decreases source, 3
  {
    RequiredViolations(SortedDifference(Required(target), Required(source)), dir, path) +
    PrefixViolations(source, target, |Props(source)|, rx, dir, path) +
    Report1(Open(source) && !Open(target), AdditionalClosed, dir, Here(path))
  }

  function TypedViolations(source: Schema, target: Schema, rx: Matcher, dir: Direction, path: string): seq<Violation>
    decreases source, 4
  {
    match EffectiveType(source, target)
    case Some(TObject) => ObjectViolations(source, target, rx, dir, path)
    case Some(TArray) => ArrayViolations(source, target, rx, dir, path)
    case Some(TString) => StringViolations(source, target, dir, path)
    case Some(TInteger) => NumericViolations(source, target, dir, path)
    case Some(TNumber) => NumericViolations(source, target, dir, path)
    case _ => []
  }

  /** Whether the target accepts all of the listed values. */
  predicate AcceptsAll(target: Schema, values: seq<Value>, rx: Matcher) {
    forall i | 0 <= i < |values| :: Valid(target, values[i], rx)
  }

  function CheckSubset(source: Schema, target: Schema, rx: Matcher, dir: Direction, path: string): seq<Violation>
    decreases source, 5
  {
    if IsAny(target) then []
    else if IsAny(source) then [Violation(AnyToRestricted, dir, Here(path))]
    else if source.constant.Some? then
      Report1(!Valid(target, source.constant.value, rx), ConstRejected, dir, Here(path))
    else if source.enumeration.Some? then
      Report1(!AcceptsAll(target, source.enumeration.value, rx), EnumRejected, dir, Here(path))
    else if Finite(target) then [Violation(FiniteTarget, dir, Here(path))]
    else if TypeConflict(source, target) then [Violation(TypeChanged, dir, Here(path))]
    else TypedViolations(source, target, rx, dir, path)
  }

  // ---------- The checker as it accumulates its violations ----------

  method CompareStrings(source: Schema, target: Schema, dir: Direction, path: string)
    returns (violations: seq<Violation>)
    ensures violations == StringViolations(source, target, dir, path)
  {
    violations := [];
    var least, most := source.strings.minLength, source.strings.maxLength;
    if target.strings.minLength.Some? && (least.None? || least.value < target.strings.minLength.value) {
      violations := violations + [Violation(MinLength, dir, path)];
    }
    if target.strings.maxLength.Some? && (most.None? || most.value > target.strings.maxLength.value) {
      violations := violations + [Violation(MaxLength, dir, path)];
    }
    if target.strings.pattern.Some? && source.strings.pattern != target.strings.pattern {
      violations := violations + [Violation(Pattern, dir, path)];
    }
    if target.strings.format.Some? && source.strings.format != target.strings.format {
      violations := violations + [Violation(Format, dir, path)];
    }
  }

  method CompareNumbers(source: Schema, target: Schema, dir: Direction, path: string)
    returns (violations: seq<Violation>)
    ensures violations == NumericViolations(source, target, dir, path)
  {
    violations := [];
    if !LowerAtLeast(LowerBoundOf(source.numbers), LowerBoundOf(target.numbers)) {
      violations := violations + [Violation(LowerBound, dir, path)];
    }
    if !UpperAtMost(UpperBoundOf(source.numbers), UpperBoundOf(target.numbers)) {
      violations := violations + [Violation(UpperBound, dir, path)];
    }
  }

  method CompareArrays(source: Schema, target: Schema, rx: Matcher, dir: Direction, path: string)
    returns (violations: seq<Violation>)
    ensures violations == ArrayViolations(source, target, rx, dir, path)
    decreases source, 1
  {
    hide CheckSubset;
    violations := [];
    if target.minItems.Some? && (source.minItems.None? || source.minItems.value < target.minItems.value) {
      violations := violations + [Violation(MinItems, dir, path)];
    }
    if target.maxItems.Some? && (source.maxItems.None? || source.maxItems.value > target.maxItems.value) {
      violations := violations + [Violation(MaxItems, dir, path)];
    }
    if target.items.Some? {
      if source.items.None? {
        violations := violations + [Violation(ItemsAdded, dir, Join(path, "items"))];
      } else {
        var nested := Check(source.items.value, target.items.value, rx, dir, Join(path, "items"));
        violations := violations + nested;
      }
    }
  }

  method CompareRequired(source: Schema, target: Schema, dir: Direction, path: string)
    returns (violations: seq<Violation>)
    ensures violations == RequiredViolations(SortedDifference(Required(target), Required(source)), dir, path)
  {
    violations := [];
    var names := SortedDifference(Required(target), Required(source));
    for i := 0 to |names|
      invariant violations == RequiredViolations(names, dir, path)[..i]
    {
      violations := violations + [Violation(RequiredAdded, dir, Join(path, names[i]))];
    }
  }

  method CompareProperties(source: Schema, target: Schema, rx: Matcher, dir: Direction, path: string)
    returns (violations: seq<Violation>)
    ensures violations == PrefixViolations(source, target, |Props(source)|, rx, dir, path)
    decreases source, 1
  {
    hide CheckSubset;
    violations := [];
    for i := 0 to |Props(source)|
      invariant violations == PrefixViolations(source, target, i, rx, dir, path)
    {
      var name, schema := Props(source)[i].name, Props(source)[i].schema;
      var nested := [];
      if HasProp(target, name) {
        nested := Check(schema, PropSchema(target, name), rx, dir, Join(path, name));
      } else if !Open(target) {
        nested := [Violation(PropertyRemoved, dir, Join(path, name))];
      }
      violations := violations + nested;
    }
  }

  method CompareObjects(source: Schema, target: Schema, rx: Matcher, dir: Direction, path: string)
    returns (violations: seq<Violation>)
    ensures violations == ObjectViolations(source, target, rx, dir, path)
    decreases source, 2
  {
    hide PrefixViolations, SortedDifference;
    var missing := CompareRequired(source, target, dir, path);
    var nested := CompareProperties(source, target, rx, dir, path);
    violations := missing + nested;
    if Open(source) && !Open(target) {
      violations := violations + [Violation(AdditionalClosed, dir, Here(path))];
    }
  }

  method InvalidValues(target: Schema, values: seq<Value>, rx: Matcher) returns (invalid: seq<Value>)
    ensures invalid == [] <==> AcceptsAll(target, values, rx)
  {
    hide Valid;
    invalid := [];
    for i := 0 to |values|
      invariant invalid == [] <==> forall k | 0 <= k < i :: Valid(target, values[k], rx)
    {
      if !Valid(target, values[i], rx) {
        invalid := invalid + [values[i]];
      }
    }
  }

  method Check(source: Schema, target: Schema, rx: Matcher, dir: Direction, path: string)
    returns (violations: seq<Violation>)
    ensures violations == CheckSubset(source, target, rx, dir, path)
    decreases source, 3
  {
    hide ObjectViolations, ArrayViolations, StringViolations, NumericViolations, Valid, AcceptsAll;
    violations := [];
    if IsAny(target) {
      return;
    }
    if IsAny(source) {
      violations := violations + [Violation(AnyToRestricted, dir, Here(path))];
      return;
    }
    if source.constant.Some? {
      if !Valid(target, source.constant.value, rx) {
        violations := violations + [Violation(ConstRejected, dir, Here(path))];
      }
      return;
    }
    if source.enumeration.Some? {
      var invalid := InvalidValues(target, source.enumeration.value, rx);
      if invalid != [] {
        violations := violations + [Violation(EnumRejected, dir, Here(path))];
      }
      return;
    }
    if target.constant.Some? || target.enumeration.Some? {
      violations := violations + [Violation(FiniteTarget, dir, Here(path))];
      return;
    }
    if target.typ.Some? && (source.typ.None? || !SameOrWider(source.typ.value, target.typ.value)) {
      violations := violations + [Violation(TypeChanged, dir, Here(path))];
      return;
    }
    var effective := if source.typ.Some? then source.typ else target.typ;
    var nested := [];
    if effective == Some(TObject) {
      nested := CompareObjects(source, target, rx, dir, path);
    } else if effective == Some(TArray) {
      nested := CompareArrays(source, target, rx, dir, path);
    } else if effective == Some(TString) {
      nested := CompareStrings(source, target, dir, path);
    } else if effective == Some(TInteger) || effective == Some(TNumber) {
      nested := CompareNumbers(source, target, dir, path);
    }
    violations := violations + nested;
  }

  // ---------- The report ----------

  datatype CompatibilityReport =
    CompatibilityReport(backward: bool, forward: bool, full: bool, violations: seq<Violation>)

  function BuildReport(base: Schema, candidate: Schema, rx: Matcher): CompatibilityReport {
    var backward := CheckSubset(base, candidate, rx, Backward, "$");
    var forward := CheckSubset(candidate, base, rx, Forward, "$");
    CompatibilityReport(backward == [], forward == [], backward == [] && forward == [], backward + forward)
  }

  method BuildCompatibilityReport(base: Schema, candidate: Schema, rx: Matcher) returns (report: CompatibilityReport)
    ensures report == BuildReport(base, candidate, rx)
  {
    var backward := Check(base, candidate, rx, Backward, "$");
    var forward := Check(candidate, base, rx, Forward, "$");
    report := CompatibilityReport(|backward| == 0, |forward| == 0, |backward| == 0 && |forward| == 0,
                                  backward + forward);
  }

  function VerdictForMode(report: CompatibilityReport, mode: Mode): Verdict {
    match mode
    case ModeNone => VerdictWarn
    case ModeBackward => if report.backward then VerdictOk else VerdictFail
    case ModeForward => if report.forward then VerdictOk else VerdictFail
    case ModeFull => if report.full then VerdictOk else VerdictFail
  }

  function RequiredMode(bump: Bump): Mode {
    match bump
    case Patch => ModeFull
    case Minor => ModeBackward
    case Major => ModeNone
  }

  function PolicyPassed(report: CompatibilityReport, bump: Bump): bool {
    match bump
    case Patch => report.full
    case Minor => report.backward
    case Major => true
  }

  /** The policy fails exactly when the verdict for the mode the bump requires is a failure. */
  lemma PolicyIsVerdict(report: CompatibilityReport, bump: Bump)
    ensures PolicyPassed(report, bump) <==> VerdictForMode(report, RequiredMode(bump)) != VerdictFail
  {
  }

  // ---------- The verdict without its reasons ----------

  predicate StringsOk(source: Schema, target: Schema) {
    && !RaisesLeast(source.strings.minLength, target.strings.minLength)
    && !LowersMost(source.strings.maxLength, target.strings.maxLength)
    && !Narrows(source.strings.pattern, target.strings.pattern)
    && !Narrows(source.strings.format, target.strings.format)
  }

  predicate NumbersOk(source: NumberRules, target: NumberRules) {
    && LowerAtLeast(LowerBoundOf(source), LowerBoundOf(target))
    && UpperAtMost(UpperBoundOf(source), UpperBoundOf(target))
  }

  predicate ArraysOk(source: Schema, target: Schema, rx: Matcher)
    decreases source, 0
  {
    && !RaisesLeast(source.minItems, target.minItems)
    && !LowersMost(source.maxItems, target.maxItems)
    && (target.items.Some? ==> source.items.Some? && Compatible(source.items.value, target.items.value, rx))
  }

  predicate PropertyOk(source: Schema, target: Schema, k: nat, rx: Matcher)
    requires k < |Props(source)|
    decreases source, 0
  {
    var p := Props(source)[k];
    if HasProp(target, p.name) then Compatible(p.schema, PropSchema(target, p.name), rx) else Open(target)
  }

  predicate ObjectsOk(source: Schema, target: Schema, rx: Matcher)
    decreases source, 1
  {
    && (forall i | 0 <= i < |Required(target)| :: Required(target)[i] in Required(source))
    && (forall k | 0 <= k < |Props(source)| :: PropertyOk(source, target, k, rx))
    && (Open(source) ==> Open(target))
  }

  predicate TypedOk(source: Schema, target: Schema, rx: Matcher)
    decreases source, 2
  {
    match EffectiveType(source, target)
    case Some(TObject) => ObjectsOk(source, target, rx)
    case Some(TArray) => ArraysOk(source, target, rx)
    case Some(TString) => StringsOk(source, target)
    case Some(TInteger) => NumbersOk(source.numbers, target.numbers)
    case Some(TNumber) => NumbersOk(source.numbers, target.numbers)
    case _ => true
  }

  /** The checker's verdict on a pair of schemas: no violation is found. */
  predicate Compatible(source: Schema, target: Schema, rx: Matcher)
    decreases source, 3
  {
    IsAny(target) ||
    (&& !IsAny(source)
     && if source.constant.Some? then Valid(target, source.constant.value, rx)
        else if source.enumeration.Some? then AcceptsAll(target, source.enumeration.value, rx)
        else !Finite(target) && !TypeConflict(source, target) && TypedOk(source, target, rx))
  }

  lemma ObjectPair(source: Schema, target: Schema, rx: Matcher)
    requires IsObject(source) && IsObject(target)
    ensures Compatible(source, target, rx) <==> ObjectsOk(source, target, rx)
  {
    hide ObjectsOk;
  }

  lemma ArrayPair(source: Schema, target: Schema, rx: Matcher)
    requires IsArray(source) && IsArray(target)
    ensures Compatible(source, target, rx) <==> ArraysOk(source, target, rx)
  {
    hide ArraysOk;
  }

  lemma ConcatEmpty<T>(xs: seq<T>, ys: seq<T>)
    ensures xs + ys == [] <==> xs == [] && ys == []
  {
    assert xs + ys == [] <==> |xs + ys| == 0;
  }

  lemma {:induction false} PropertySilent(source: Schema, target: Schema, k: nat, rx: Matcher, dir: Direction,
        path: string)
    requires k < |Props(source)|
    ensures PropertyViolations(source, target, k, rx, dir, path) == [] <==> PropertyOk(source, target, k, rx)
    decreases source, 0
  {
    hide CheckSubset, Compatible;
    var p := Props(source)[k];
    if HasProp(target, p.name) {
      CompatibleIffSilent(p.schema, PropSchema(target, p.name), rx, dir, Join(path, p.name));
    }
  }

  lemma {:induction false} PrefixSilent(source: Schema, target: Schema, n: nat, rx: Matcher, dir: Direction,
        path: string)
    requires n <= |Props(source)|
    ensures PrefixViolations(source, target, n, rx, dir, path) == [] <==>
            forall k | 0 <= k < n :: PropertyOk(source, target, k, rx)
    decreases source, 1, n
  {
    hide PropertyOk, PropertyViolations;
    if n > 0 {
      PrefixSilent(source, target, n - 1, rx, dir, path);
      PropertySilent(source, target, n - 1, rx, dir, path);
      ConcatEmpty(PrefixViolations(source, target, n - 1, rx, dir, path),
                  PropertyViolations(source, target, n - 1, rx, dir, path));
      assert (forall k | 0 <= k < n :: PropertyOk(source, target, k, rx)) <==>
             (forall k | 0 <= k < n - 1 :: PropertyOk(source, target, k, rx)) && PropertyOk(source, target, n - 1, rx);
    }
  }

  lemma NoneMissing(wanted: seq<string>, given: seq<string>)
    ensures SortedDifference(wanted, given) == [] <==> forall i | 0 <= i < |wanted| :: wanted[i] in given
  {
    var names := SortedDifference(wanted, given);
    if names != [] {
      assert names[0] in names;
    } else {
      forall i | 0 <= i < |wanted| ensures wanted[i] in given {
        assert wanted[i] !in names;
      }
    }
  }

  lemma {:induction false} ObjectSilent(source: Schema, target: Schema, rx: Matcher, dir: Direction, path: string)
    ensures ObjectViolations(source, target, rx, dir, path) == [] <==> ObjectsOk(source, target, rx)
    decreases source, 2
  {
    hide PrefixViolations, Compatible, SortedDifference;
    PrefixSilent(source, target, |Props(source)|, rx, dir, path);
    NoneMissing(Required(target), Required(source));
    var missing := RequiredViolations(SortedDifference(Required(target), Required(source)), dir, path);
    var nested := PrefixViolations(source, target, |Props(source)|, rx, dir, path);
    var extra := Report1(Open(source) && !Open(target), AdditionalClosed, dir, Here(path));
    ConcatEmpty(missing, nested);
    ConcatEmpty(missing + nested, extra);
    assert ObjectViolations(source, target, rx, dir, path) == missing + nested + extra;
    assert missing == [] <==> SortedDifference(Required(target), Required(source)) == [];
    assert ObjectViolations(source, target, rx, dir, path) == [] <==> missing == [] && nested == [] && extra == [];
    assert missing == [] <==> (forall i | 0 <= i < |Required(target)| :: Required(target)[i] in Required(source));
    assert nested == [] <==> (forall k | 0 <= k < |Props(source)| :: PropertyOk(source, target, k, rx));
    assert extra == [] <==> (Open(source) ==> Open(target));
  }

  lemma {:induction false} ArraySilent(source: Schema, target: Schema, rx: Matcher, dir: Direction, path: string)
    ensures ArrayViolations(source, target, rx, dir, path) == [] <==> ArraysOk(source, target, rx)
    decreases source, 2
  {
    if source.items.Some? && target.items.Some? {
      CompatibleIffSilent(source.items.value, target.items.value, rx, dir, Join(path, "items"));
    }
  }

  /** Where and in which direction the checker looks does not matter to its verdict. */
  lemma {:induction false} CompatibleIffSilent(source: Schema, target: Schema, rx: Matcher, dir: Direction,
        path: string)
    ensures CheckSubset(source, target, rx, dir, path) == [] <==> Compatible(source, target, rx)
    decreases source, 3
  {
    hide ObjectViolations, ObjectsOk, ArrayViolations, ArraysOk, Valid;
    ObjectSilent(source, target, rx, dir, path);
    ArraySilent(source, target, rx, dir, path);
    assert TypedViolations(source, target, rx, dir, path) == [] <==> TypedOk(source, target, rx);
  }

  lemma ReportIsCompatible(base: Schema, candidate: Schema, rx: Matcher)
    ensures BuildReport(base, candidate, rx).backward == Compatible(base, candidate, rx)
    ensures BuildReport(base, candidate, rx).forward == Compatible(candidate, base, rx)
  {
    hide CheckSubset, Compatible;
    CompatibleIffSilent(base, candidate, rx, Backward, "$");
    CompatibleIffSilent(candidate, base, rx, Forward, "$");
  }

  /** What a mode asks of a pair, in terms of the verdict in each direction. */
  predicate Satisfies(base: Schema, candidate: Schema, mode: Mode, rx: Matcher) {
    && (mode == ModeBackward || mode == ModeFull ==> Compatible(base, candidate, rx))
    && (mode == ModeForward || mode == ModeFull ==> Compatible(candidate, base, rx))
  }

  /** A verdict warns exactly in the mode that asks nothing, and otherwise says whether the mode is satisfied. */
  lemma VerdictMeaning(base: Schema, candidate: Schema, mode: Mode, rx: Matcher)
    ensures VerdictForMode(BuildReport(base, candidate, rx), mode) ==
            if mode == ModeNone then VerdictWarn
            else if Satisfies(base, candidate, mode, rx) then VerdictOk
            else VerdictFail
  {
    hide CheckSubset, Compatible;
    ReportIsCompatible(base, candidate, rx);
  }

  /** A patch asks for compatibility in both directions, a minor bump for the backward one, a major bump for none. */
  lemma PolicyMeaning(base: Schema, candidate: Schema, bump: Bump, rx: Matcher)
    ensures PolicyPassed(BuildReport(base, candidate, rx), bump) <==>
            && (bump == Patch || bump == Minor ==> Compatible(base, candidate, rx))
            && (bump == Patch ==> Compatible(candidate, base, rx))
    ensures RequiredMode(bump) == match bump case Patch => ModeFull case Minor => ModeBackward case Major => ModeNone
  {
    hide CheckSubset, Compatible;
    ReportIsCompatible(base, candidate, rx);
  }

  // ---------- Directions ----------

  function Relabelled(violations: seq<Violation>, dir: Direction): seq<Violation> {
    seq(|violations|, i requires 0 <= i < |violations| => violations[i].(direction := dir))
  }

  lemma RelabelledConcat(xs: seq<Violation>, ys: seq<Violation>, dir: Direction)
    ensures Relabelled(xs + ys, dir) == Relabelled(xs, dir) + Relabelled(ys, dir)
  {
  }

  lemma NumericRelabelled(source: Schema, target: Schema, dir: Direction, dir': Direction, path: string)
    ensures Relabelled(NumericViolations(source, target, dir, path), dir') ==
            NumericViolations(source, target, dir', path)
  {
  }

  lemma StringRelabelled(source: Schema, target: Schema, dir: Direction, dir': Direction, path: string)
    ensures Relabelled(StringViolations(source, target, dir, path), dir') ==
            StringViolations(source, target, dir', path)
  {
    hide RaisesLeast, LowersMost, Narrows;
    var a := Report1(RaisesLeast(source.strings.minLength, target.strings.minLength), MinLength, dir, path);
    var b := Report1(LowersMost(source.strings.maxLength, target.strings.maxLength), MaxLength, dir, path);
    var c := Report1(Narrows(source.strings.pattern, target.strings.pattern), Pattern, dir, path);
    var d := Report1(Narrows(source.strings.format, target.strings.format), Format, dir, path);
    RelabelledConcat(a, b, dir');
    RelabelledConcat(a + b, c, dir');
    RelabelledConcat(a + b + c, d, dir');
  }

  lemma {:induction false} PrefixRelabelled(source: Schema, target: Schema, n: nat, rx: Matcher, dir: Direction,
        dir': Direction, path: string)
    requires n <= |Props(source)|
    ensures Relabelled(PrefixViolations(source, target, n, rx, dir, path), dir') ==
            PrefixViolations(source, target, n, rx, dir', path)
    decreases source, 0, n
  {
    hide CheckSubset;
    if n > 0 {
      PrefixRelabelled(source, target, n - 1, rx, dir, dir', path);
      var p := Props(source)[n - 1];
      if HasProp(target, p.name) {
        CheckRelabelled(p.schema, PropSchema(target, p.name), rx, dir, dir', Join(path, p.name));
      }
      RelabelledConcat(PrefixViolations(source, target, n - 1, rx, dir, path),
                       PropertyViolations(source, target, n - 1, rx, dir, path), dir');
    }
  }

  lemma {:induction false} ObjectRelabelled(source: Schema, target: Schema, rx: Matcher, dir: Direction,
        dir': Direction, path: string)
    ensures Relabelled(ObjectViolations(source, target, rx, dir, path), dir') ==
            ObjectViolations(source, target, rx, dir', path)
    decreases source, 1
  {
    hide PrefixViolations, SortedDifference;
    PrefixRelabelled(source, target, |Props(source)|, rx, dir, dir', path);
    var missing := RequiredViolations(SortedDifference(Required(target), Required(source)), dir, path);
    var nested := PrefixViolations(source, target, |Props(source)|, rx, dir, path);
    RelabelledConcat(missing, nested, dir');
    RelabelledConcat(missing + nested, Report1(Open(source) && !Open(target), AdditionalClosed, dir, Here(path)), dir');
  }

  lemma {:induction false} ArrayRelabelled(source: Schema, target: Schema, rx: Matcher, dir: Direction,
        dir': Direction, path: string)
    ensures Relabelled(ArrayViolations(source, target, rx, dir, path), dir') ==
            ArrayViolations(source, target, rx, dir', path)
    decreases source, 1
  {
    hide CheckSubset;
    if source.items.Some? && target.items.Some? {
      CheckRelabelled(source.items.value, target.items.value, rx, dir, dir', Join(path, "items"));
    }
  }

  lemma {:induction false} CheckRelabelled(source: Schema, target: Schema, rx: Matcher, dir: Direction,
        dir': Direction, path: string)
    ensures Relabelled(CheckSubset(source, target, rx, dir, path), dir') == CheckSubset(source, target, rx, dir', path)
    decreases source, 2
  {
    hide ObjectViolations, ArrayViolations, StringViolations, NumericViolations, Valid;
    ObjectRelabelled(source, target, rx, dir, dir', path);
    ArrayRelabelled(source, target, rx, dir, dir', path);
    NumericRelabelled(source, target, dir, dir', path);
    StringRelabelled(source, target, dir, dir', path);
  }

  /** Swapping the arguments swaps the flags and the two groups of violations, with the directions relabelled. */
  lemma ReportSwap(a: Schema, b: Schema, rx: Matcher)
    ensures
      var r, r' := BuildReport(a, b, rx), BuildReport(b, a, rx);
      var n := |CheckSubset(a, b, rx, Backward, "$")|;
      && r'.backward == r.forward && r'.forward == r.backward && r'.full == r.full
      && n <= |r.violations|
      && r'.violations == Relabelled(r.violations[n..], Backward) + Relabelled(r.violations[..n], Forward)
  {
    hide CheckSubset, Compatible;
    CheckRelabelled(a, b, rx, Backward, Forward, "$");
    CheckRelabelled(b, a, rx, Forward, Backward, "$");
    CompatibleIffSilent(a, b, rx, Backward, "$");
    CompatibleIffSilent(a, b, rx, Forward, "$");
    CompatibleIffSilent(b, a, rx, Backward, "$");
    CompatibleIffSilent(b, a, rx, Forward, "$");
  }
}
