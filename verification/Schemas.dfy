/** The contract profile of JSON Schema: its keywords, what its schemas accept, and how they are read from documents. */
module Schemas {
  import opened Wrappers
  import opened Documents

  datatype JsonType = TObject | TArray | TString | TInteger | TNumber | TBoolean | TNull

  datatype StringRules = StringRules(minLength: Option<int>, maxLength: Option<int>,
                                     pattern: Option<string>, format: Option<string>)

  datatype NumberRules = NumberRules(minimum: Option<real>, maximum: Option<real>,
                                     exclusiveMinimum: Option<real>, exclusiveMaximum: Option<real>)

  datatype Property = Property(name: string, schema: Schema)

  datatype Table = Absent | Declared(entries: seq<Property>)

  /**
   * The keywords of one schema node. `title`, `description` and `default` are dropped: they restrict nothing
   * and the checker ignores them. Of `$schema` only the presence matters.
   */
  datatype Schema = Schema(
    dialect: bool,
    typ: Option<JsonType>,
    constant: Option<Value>,
    enumeration: Option<seq<Value>>,
    strings: StringRules,
    numbers: NumberRules,
    properties: Table,
    required: Option<seq<string>>,
    additional: Option<bool>,
    items: Option<Schema>,
    minItems: Option<int>,
    maxItems: Option<int>)

  const NO_STRING_RULES := StringRules(None, None, None, None)
  const NO_NUMBER_RULES := NumberRules(None, None, None, None)
  const ANY := Schema(false, None, None, None, NO_STRING_RULES, NO_NUMBER_RULES, Absent, None, None, None, None, None)

  /** Whether a text matches a pattern; every result below holds for every such relation. */
  type Matcher = (string, string) -> bool

  function Props(s: Schema): (r: seq<Property>)
    ensures forall i | 0 <= i < |r| :: r[i].schema < s
  {
    if s.properties.Declared? then s.properties.entries else []
  }

  function Required(s: Schema): (r: seq<string>) {
    s.required.GetOr([])
  }

  /** Whether undeclared properties are accepted. */
  predicate Open(s: Schema) {
    s.additional.GetOr(true)
  }

  /** The position of the named property, or the number of properties when there is none. */
  function PropIndex(props: seq<Property>, name: string): (r: nat)
    ensures r <= |props|
    ensures r < |props| ==> props[r].name == name
    ensures forall i | 0 <= i < r :: props[i].name != name
  {
    if props == [] || props[0].name == name then 0 else 1 + PropIndex(props[1..], name)
  }

  predicate HasProp(s: Schema, name: string) {
    PropIndex(Props(s), name) < |Props(s)|
  }

  function PropSchema(s: Schema, name: string): (r: Schema)
    requires HasProp(s, name)
    ensures r < s
  {
    Props(s)[PropIndex(Props(s), name)].schema
  }

  /** A node without any restricting keyword. */
  predicate IsAny(s: Schema) {
    s == ANY
  }

  /** A node whose values are listed. */
  predicate Finite(s: Schema) {
    s.constant.Some? || s.enumeration.Some?
  }

  predicate IsObject(s: Schema) {
    s.typ == Some(TObject) && !Finite(s)
  }

  predicate IsArray(s: Schema) {
    s.typ == Some(TArray) && !Finite(s)
  }

  // ---------- What a schema accepts (JSON Schema 2020-12) ----------

  /** Validation, section 6.1.1. */
  predicate HasType(v: Value, typ: JsonType) {
    match typ
    case TObject => v.VObj?
    case TArray => v.VArr?
    case TString => v.VStr?
    case TInteger => v.VNum? && v.number.Floor as real == v.number
    case TNumber => v.VNum?
    case TBoolean => v.VBool?
    case TNull => v.VNull?
  }

  predicate InRange(size: nat, least: Option<int>, most: Option<int>) {
    (least.Some? ==> least.value <= size) && (most.Some? ==> size <= most.value)
  }

  /** Validation, sections 6.2.2-6.2.5. */
  predicate InBounds(rules: NumberRules, x: real) {
    && (rules.minimum.Some? ==> rules.minimum.value <= x)
    && (rules.maximum.Some? ==> x <= rules.maximum.value)
    && (rules.exclusiveMinimum.Some? ==> rules.exclusiveMinimum.value < x)
    && (rules.exclusiveMaximum.Some? ==> x < rules.exclusiveMaximum.value)
  }

  /** Validation, sections 6.3.1-6.3.3; `format` is an annotation. */
  predicate FitsText(rules: StringRules, text: string, rx: Matcher) {
    && InRange(|text|, rules.minLength, rules.maxLength)
    && (rules.pattern.Some? ==> rx(rules.pattern.value, text))
  }

  /** Validation, section 6; Core, sections 10.3.1.2, 10.3.2.1 and 10.3.2.3. */
  predicate Valid(s: Schema, v: Value, rx: Matcher)
    decreases s
  {
    && (s.typ.Some? ==> HasType(v, s.typ.value))
    && (s.constant.Some? ==> v == s.constant.value)
    && (s.enumeration.Some? ==> v in s.enumeration.value)
    && (v.VStr? ==> FitsText(s.strings, v.text, rx))
    && (v.VNum? ==> InBounds(s.numbers, v.number))
    && (v.VArr? ==>
          && InRange(|v.elems|, s.minItems, s.maxItems)
          && (s.items.Some? ==> forall i | 0 <= i < |v.elems| :: Valid(s.items.value, v.elems[i], rx)))
    && (v.VObj? ==>
          && (forall i | 0 <= i < |Required(s)| :: Required(s)[i] in v.fields)
          && (forall i | 0 <= i < |Props(s)| && Props(s)[i].name in v.fields ::
                Valid(Props(s)[i].schema, v.fields[Props(s)[i].name], rx))
          && (s.additional == Some(false) ==> forall name | name in v.fields :: HasProp(s, name)))
  }

  /** Everything the first schema accepts, the second accepts. */
  ghost predicate Included(s: Schema, t: Schema, rx: Matcher) {
    forall v | Valid(s, v, rx) :: Valid(t, v, rx)
  }

  // ---------- Well-formed schemas ----------

  predicate Ordered(least: Option<int>, most: Option<int>) {
    least.Some? && most.Some? ==> least.value <= most.value
  }

  predicate NonNegative(size: Option<int>) {
    size.Some? ==> 0 <= size.value
  }

  predicate Distinct<T(==)>(xs: seq<T>) {
    forall i, j | 0 <= i < j < |xs| :: xs[i] != xs[j]
  }

  predicate WellFormedEnum(s: Schema) {
    s.enumeration.Some? ==>
      && s.enumeration.value != []
      && Distinct(s.enumeration.value)
      && (s.constant.Some? ==> LooselyIn(s.constant.value, s.enumeration.value))
  }

  predicate WellFormedScalars(s: Schema) {
    && (s.strings != NO_STRING_RULES ==> s.typ == Some(TString))
    && Ordered(s.strings.minLength, s.strings.maxLength)
    && NonNegative(s.strings.minLength) && NonNegative(s.strings.maxLength)
    && (s.numbers != NO_NUMBER_RULES ==> s.typ == Some(TInteger) || s.typ == Some(TNumber))
    && (s.numbers.minimum.Some? && s.numbers.maximum.Some? ==> s.numbers.minimum.value <= s.numbers.maximum.value)
  }

  predicate WellFormedSizes(s: Schema) {
    && (s.minItems.Some? || s.maxItems.Some? || s.items.Some? ==> s.typ == Some(TArray))
    && Ordered(s.minItems, s.maxItems) && NonNegative(s.minItems) && NonNegative(s.maxItems)
  }

  predicate WellFormedNames(s: Schema) {
    && (s.properties.Declared? || s.required.Some? || s.additional.Some? ==> s.typ == Some(TObject))
    && (forall i, j | 0 <= i < j < |Props(s)| :: Props(s)[i].name != Props(s)[j].name)
    && (forall i | 0 <= i < |Props(s)| :: Props(s)[i].name != "")
    && Distinct(Required(s))
    && (forall i | 0 <= i < |Required(s)| :: HasProp(s, Required(s)[i]))
  }

  /** Each keyword sits under the type it is for, ranges are not reversed, required names are declared. */
  predicate WellFormed(s: Schema)
    decreases s
  {
    && WellFormedEnum(s) && WellFormedScalars(s) && WellFormedSizes(s) && WellFormedNames(s)
    && (s.items.Some? ==> WellFormed(s.items.value))
    && (forall i | 0 <= i < |Props(s)| :: WellFormed(Props(s)[i].schema))
  }

  /** Every object node rejects undeclared properties. The nodes below a finite one play no part. */
  predicate Closed(s: Schema)
    decreases s
  {
    Finite(s) ||
    (&& (s.typ == Some(TObject) ==> !Open(s))
     && (s.items.Some? ==> Closed(s.items.value))
     && (forall i | 0 <= i < |Props(s)| :: Closed(Props(s)[i].schema)))
  }

  /** An exclusive bound is at least as strict as the inclusive bound beside it. */
  predicate DominatedBounds(rules: NumberRules) {
    && (rules.minimum.Some? && rules.exclusiveMinimum.Some? ==> rules.minimum.value <= rules.exclusiveMinimum.value)
    && (rules.maximum.Some? && rules.exclusiveMaximum.Some? ==> rules.exclusiveMaximum.value <= rules.maximum.value)
  }

  predicate Dominated(s: Schema)
    decreases s
  {
    && DominatedBounds(s.numbers)
    && (s.items.Some? ==> Dominated(s.items.value))
    && (forall i | 0 <= i < |Props(s)| :: Dominated(Props(s)[i].schema))
  }

  // ---------- Reading a document ----------

  function ReadType(d: Doc): Option<JsonType> {
    if d == Str("object") then Some(TObject)
    else if d == Str("array") then Some(TArray)
    else if d == Str("string") then Some(TString)
    else if d == Str("integer") then Some(TInteger)
    else if d == Str("number") then Some(TNumber)
    else if d == Str("boolean") then Some(TBoolean)
    else if d == Str("null") then Some(TNull)
    else None
  }

  function ReadNumber(d: Doc): Option<real> {
    if d.Num? then Some(d.number) else None
  }

  function ReadSize(d: Doc): Option<int> {
    if d.Num? then Some(d.number.Floor) else None
  }

  function ReadText(d: Doc): Option<string> {
    if d.Str? then Some(d.text) else None
  }

  function ReadFlag(d: Doc): Option<bool> {
    if d.Bool? then Some(d.flag) else None
  }

  function ReadValues(d: Doc): Option<seq<Value>> {
    if d.Arr? then Some(seq(|d.elems|, i requires 0 <= i < |d.elems| => Denote(d.elems[i]))) else None
  }

  function ReadNames(d: Doc): Option<seq<string>> {
    if d.Arr? then
      Some(seq(|d.elems|, i requires 0 <= i < |d.elems| => if d.elems[i].Str? then d.elems[i].text else ""))
    else None
  }

  /** The keywords of a document that passed the meta-schema; each keyword keeps its presence and its value. */
  function Decode(d: Doc): (s: Schema) {
    Schema(
      Has(d, "$schema"),
      ReadType(Get(d, "type")),
      if Has(d, "const") then Some(Denote(At(d, "const"))) else None,
      ReadValues(Get(d, "enum")),
      StringRules(ReadSize(Get(d, "minLength")), ReadSize(Get(d, "maxLength")),
                  ReadText(Get(d, "pattern")), ReadText(Get(d, "format"))),
      NumberRules(ReadNumber(Get(d, "minimum")), ReadNumber(Get(d, "maximum")),
                  ReadNumber(Get(d, "exclusiveMinimum")), ReadNumber(Get(d, "exclusiveMaximum"))),
      if Has(d, "properties") && At(d, "properties").Obj? then
        var entries := At(d, "properties").entries;
        Declared(seq(|entries|, i requires 0 <= i < |entries| => Property(entries[i].key, Decode(entries[i].value))))
      else Absent,
      ReadNames(Get(d, "required")),
      ReadFlag(Get(d, "additionalProperties")),
      if Has(d, "items") then Some(Decode(At(d, "items"))) else None,
      ReadSize(Get(d, "minItems")),
      ReadSize(Get(d, "maxItems")))
  }
}
