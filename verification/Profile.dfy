/** The profile validator: a recursive walk that appends its findings to a shared log. */
module Profile {
  import opened Wrappers
  import opened Texts
  import opened Documents
  import opened Schemas

  const SUPPORTED_TYPES := ["object", "array", "string", "integer", "number", "boolean", "null"]
  const PROFILE_KEYS := [
    "$schema", "type", "title", "description", "default", "enum", "const", "format",
    "minimum", "maximum", "exclusiveMinimum", "exclusiveMaximum", "minLength", "maxLength", "pattern",
    "properties", "required", "additionalProperties", "items", "minItems", "maxItems"]
  const EXTENSION_KEYS := ["x-businessKey", "x-primaryKey"]
  const STRING_KEYWORDS := ["format", "minLength", "maxLength", "pattern"]
  const NUMERIC_KEYWORDS := ["minimum", "maximum", "exclusiveMinimum", "exclusiveMaximum"]
  const ARRAY_KEYWORDS := ["items", "minItems", "maxItems"]

  datatype Finding =
    | DocumentInvalid | MetaSchemaInvalid | NodeInvalid | KeywordUnsupported | TypeInvalid | RootType
    | PropertiesMismatch | PropertiesInvalid | PropertyNameInvalid | PropertiesEmpty
    | RequiredMismatch | RequiredInvalid | RequiredDuplicate | RequiredUnknown
    | AdditionalMismatch | AdditionalInvalid | ItemsMismatch | ItemsInvalid
    | EnumInvalid | EnumDuplicate | ConstMismatch
    | StringKeyword | NumericKeyword | ArrayKeyword
    | LengthRange | NumericRange | ArrayRange
    | ExtensionInvalid | ExtensionDuplicate | ExtensionUnknown

  /** A finding with the path of keys that leads to it; message texts are not modelled. */
  datatype ProfileViolation = ProfileViolation(finding: Finding, path: seq<string>)

  predicate IsFinding(v: ProfileViolation, finding: Finding, path: seq<string>) {
    v.finding == finding && v.path == path
  }

  /** The list that the recursive calls share. */
  class ViolationLog {
    var entries: seq<ProfileViolation>

    constructor ()
      ensures entries == []
    {
      entries := [];
    }

    method Append(finding: Finding, path: seq<string>)
      modifies this
      ensures |entries| == |old(entries)| + 1 && old(entries) <= entries
      ensures entries[|old(entries)|] == ProfileViolation(finding, path)
      ensures forall v :: v in entries <==> v in old(entries) || IsFinding(v, finding, path)
    {
      entries := entries + [ProfileViolation(finding, path)];
    }
  }

  /** The log only grew, and it did not grow at all exactly when there was nothing to find. */
  predicate Recorded(before: seq<ProfileViolation>, after: seq<ProfileViolation>, clean: bool) {
    before <= after && (before == after <==> clean)
  }

  lemma RecordedTwice(a: seq<ProfileViolation>, b: seq<ProfileViolation>, c: seq<ProfileViolation>, p: bool, q: bool)
    requires Recorded(a, b, p) && Recorded(b, c, q)
    ensures Recorded(a, c, p && q)
  {
    assert a == c <==> |a| == |c|;
    assert a == b <==> |a| == |b|;
    assert b == c <==> |b| == |c|;
  }

  // ---------- What the validator demands ----------

  predicate Allowed(key: string, root: bool) {
    key in PROFILE_KEYS || (root && key in EXTENSION_KEYS)
  }

  predicate KeysOk(d: Doc, root: bool)
    requires d.Obj?
  {
    forall i | 0 <= i < |d.entries| :: Allowed(d.entries[i].key, root)
  }

  predicate TypeOk(d: Doc) {
    Get(d, "type") == Null || (Get(d, "type").Str? && Get(d, "type").text in SUPPORTED_TYPES)
  }

  predicate TypeIs(d: Doc, name: string) {
    Get(d, "type") == Str(name)
  }

  /** The property table, empty when there is none or it is not a dictionary. */
  function PropertyEntries(d: Doc): (entries: seq<Entry>)
    ensures forall i | 0 <= i < |entries| :: entries[i].value < d
  {
    if Has(d, "properties") && At(d, "properties").Obj? then At(d, "properties").entries else []
  }

  predicate IsDeclared(d: Doc, name: string) {
    IndexOf(PropertyEntries(d), name) < |PropertyEntries(d)|
  }

  function PropertyNames(d: Doc): (names: seq<string>)
    ensures |names| == |PropertyEntries(d)|
    ensures forall i | 0 <= i < |names| :: names[i] == PropertyEntries(d)[i].key
  {
    seq(|PropertyEntries(d)|, i requires 0 <= i < |PropertyEntries(d)| => PropertyEntries(d)[i].key)
  }

  lemma NameIsDeclared(d: Doc, name: string)
    ensures name in PropertyNames(d) <==> IsDeclared(d, name)
  {
    if name in PropertyNames(d) {
      var i :| 0 <= i < |PropertyNames(d)| && PropertyNames(d)[i] == name;
      assert PropertyEntries(d)[i].key == name;
    }
    if IsDeclared(d, name) {
      assert PropertyNames(d)[IndexOf(PropertyEntries(d), name)] == name;
    }
  }

  /** A list of non-empty strings. */
  predicate IsNameList(d: Doc) {
    d.Arr? && forall i | 0 <= i < |d.elems| :: d.elems[i].Str? && d.elems[i].text != ""
  }

  function NamesOf(d: Doc): seq<string>
    requires IsNameList(d)
  {
    seq(|d.elems|, i requires 0 <= i < |d.elems| => d.elems[i].text)
  }

  predicate NamesOk(d: Doc, names: Doc) {
    && IsNameList(names)
    && Distinct(NamesOf(names))
    && (forall i | 0 <= i < |NamesOf(names)| :: IsDeclared(d, NamesOf(names)[i]))
  }

  predicate PropertiesOk(d: Doc)
    decreases d, 0
  {
    Get(d, "properties") != Null ==>
      && TypeIs(d, "object") && Get(d, "properties").Obj?
      && (forall i | 0 <= i < |PropertyEntries(d)| ::
            PropertyEntries(d)[i].key != "" && ProfileOk(PropertyEntries(d)[i].value, false))
  }

  predicate RequiredOk(d: Doc) {
    Get(d, "required") != Null ==> TypeIs(d, "object") && NamesOk(d, Get(d, "required"))
  }

  predicate AdditionalOk(d: Doc) {
    Has(d, "additionalProperties") ==> TypeIs(d, "object") && At(d, "additionalProperties").Bool?
  }

  predicate ItemsOk(d: Doc)
    decreases d, 0
  {
    Has(d, "items") ==> TypeIs(d, "array") && At(d, "items").Obj? && ProfileOk(At(d, "items"), false)
  }

  /** The `enum` value as a list; only lists are looked at. */
  function EnumValues(d: Doc): seq<Value> {
    ReadValues(Get(d, "enum")).GetOr([])
  }

  predicate EnumOk(d: Doc) {
    Get(d, "enum") != Null ==> Get(d, "enum").Arr? && EnumValues(d) != [] && Distinct(EnumValues(d))
  }

  predicate Occurs(part: string, text: string) {
    part <= text || (text != "" && Occurs(part, text[1..]))
  }

  /** Python can test membership: of anything in a list, of a text in a text, of a hashable value among keys. */
  predicate Testable(v: Doc, container: Doc) {
    match container
    case Arr(_) => true
    case Str(_) => v.Str?
    case Obj(_) => !v.Arr? && !v.Obj?
    case _ => false
  }

  /** `v in container` */
  predicate IsIn(v: Doc, container: Doc)
    requires Testable(v, container)
  {
    match container
    case Arr(elems) => LooselyIn(Denote(v), ReadValues(container).value)
    case Str(text) => Occurs(v.text, text)
    case Obj(_) => v.Str? && Has(container, v.text)
  }

  predicate ConstOk(d: Doc) {
    Has(d, "const") && Get(d, "enum") != Null ==>
      Testable(At(d, "const"), Get(d, "enum")) && IsIn(At(d, "const"), Get(d, "enum"))
  }

  predicate Absence(d: Doc, keywords: seq<string>) {
    forall i | 0 <= i < |keywords| :: !Has(d, keywords[i])
  }

  predicate IsNumeric(d: Doc) {
    TypeIs(d, "integer") || TypeIs(d, "number")
  }

  predicate KeywordsOk(d: Doc) {
    && (TypeIs(d, "string") || Absence(d, STRING_KEYWORDS))
    && (IsNumeric(d) || Absence(d, NUMERIC_KEYWORDS))
    && (TypeIs(d, "array") || Absence(d, ARRAY_KEYWORDS))
  }

  /** `isinstance(d, int)`; booleans are integers in Python. */
  predicate IsInt(d: Doc) {
    d.Bool? || (d.Num? && d.number.Floor as real == d.number)
  }

  predicate IsIntOrFloat(d: Doc) {
    d.Bool? || d.Num?
  }

  function AsNumber(d: Doc): real {
    if d.Num? then d.number else if d == Bool(true) then 1.0 else 0.0
  }

  predicate IntRangeOk(d: Doc, least: string, most: string) {
    IsInt(Get(d, least)) && IsInt(Get(d, most)) ==> AsNumber(Get(d, least)) <= AsNumber(Get(d, most))
  }

  predicate RangesOk(d: Doc) {
    && IntRangeOk(d, "minLength", "maxLength")
    && (IsIntOrFloat(Get(d, "minimum")) && IsIntOrFloat(Get(d, "maximum")) ==>
          AsNumber(Get(d, "minimum")) <= AsNumber(Get(d, "maximum")))
    && IntRangeOk(d, "minItems", "maxItems")
  }

  predicate ExtensionOk(d: Doc, key: string) {
    Get(d, key) != Null ==> NamesOk(d, Get(d, key))
  }

  predicate RootOk(d: Doc) {
    && TypeIs(d, "object")
    && PropertyEntries(d) != []
    && ExtensionOk(d, "x-businessKey") && ExtensionOk(d, "x-primaryKey")
  }

  /** A node the validator has no finding about. */
  predicate ProfileOk(d: Doc, root: bool)
    decreases d, 1
  {
    && d.Obj?
    && KeysOk(d, root) && TypeOk(d) && PropertiesOk(d) && RequiredOk(d) && AdditionalOk(d) && ItemsOk(d)
    && EnumOk(d) && ConstOk(d) && KeywordsOk(d) && RangesOk(d)
    && (root ==> RootOk(d))
  }

  predicate ShapeOk(d: Doc, root: bool)
    requires d.Obj?
  {
    KeysOk(d, root) && TypesOk(d, root) && TableOk(d, root) && RequiredOk(d) && AdditionalOk(d)
  }

  predicate TypesOk(d: Doc, root: bool) {
    TypeOk(d) && (root ==> TypeIs(d, "object"))
  }

  predicate TableOk(d: Doc, root: bool) {
    PropertiesOk(d) && (root ==> PropertyEntries(d) != [])
  }

  predicate ContentOk(d: Doc) {
    ItemsOk(d) && ValuesOk(d) && KeywordsOk(d) && RangesOk(d)
  }

  predicate ValuesOk(d: Doc) {
    EnumOk(d) && ConstOk(d)
  }

  predicate ExtensionsOk(d: Doc, root: bool) {
    root ==> ExtensionOk(d, "x-businessKey") && ExtensionOk(d, "x-primaryKey")
  }

  lemma ProfileOkParts(d: Doc, root: bool)
    requires d.Obj?
    ensures ProfileOk(d, root) <==> ShapeOk(d, root) && ContentOk(d) && ExtensionsOk(d, root)
  {
    hide KeysOk, TypeOk, TypeIs, PropertyEntries, PropertiesOk, RequiredOk, AdditionalOk, ItemsOk, EnumOk, ConstOk,
          KeywordsOk, RangesOk, ExtensionOk;
  }

  /**
   * No Python TypeError: `type` is hashable where it is looked up among the numeric types, and membership of
   * `const` in `enum` can be tested where both are present.
   */
  predicate Survives(d: Doc)
    decreases d
  {
    d.Obj? ==>
      && (Get(d, "type").Arr? || Get(d, "type").Obj? ==> Absence(d, NUMERIC_KEYWORDS))
      && (Has(d, "const") && Get(d, "enum") != Null ==> Testable(At(d, "const"), Get(d, "enum")))
      && (forall i | 0 <= i < |PropertyEntries(d)| :: Survives(PropertyEntries(d)[i].value))
      && (Has(d, "items") ==> Survives(At(d, "items")))
  }

  // ---------- Which findings a node has ----------

  /** Keys that no node, or only the root, may have. */
  predicate KeyFinding(d: Doc, root: bool, path: seq<string>, n: nat, v: ProfileViolation)
    requires d.Obj? && n <= |d.entries|
  {
    exists i | 0 <= i < n :: KeyUnsupported(d, root, path, i, v)
  }

  predicate KeyUnsupported(d: Doc, root: bool, path: seq<string>, i: nat, v: ProfileViolation)
    requires d.Obj? && i < |d.entries|
  {
    !Allowed(d.entries[i].key, root) && IsFinding(v, KeywordUnsupported, path + [d.entries[i].key])
  }

  lemma KeyStep(d: Doc, root: bool, path: seq<string>, i: nat)
    requires d.Obj? && i < |d.entries|
    ensures forall v :: KeyFinding(d, root, path, i + 1, v) <==>
              KeyFinding(d, root, path, i, v) || KeyUnsupported(d, root, path, i, v)
  {
    hide KeyUnsupported, KeyFinding;
    forall v
      ensures KeyFinding(d, root, path, i + 1, v) <==>
              KeyFinding(d, root, path, i, v) || KeyUnsupported(d, root, path, i, v)
    {
      KeyOne(d, root, path, i, v);
    }
  }

  lemma KeyOne(d: Doc, root: bool, path: seq<string>, i: nat, v: ProfileViolation)
    requires d.Obj? && i < |d.entries|
    ensures KeyFinding(d, root, path, i + 1, v) <==>
            KeyFinding(d, root, path, i, v) || KeyUnsupported(d, root, path, i, v)
  {
    hide KeyUnsupported;
    if k :| 0 <= k < i + 1 && KeyUnsupported(d, root, path, k, v) {
      assert k < i || k == i;
    }
  }

  predicate TypeFinding(d: Doc, root: bool, path: seq<string>, v: ProfileViolation) {
    var typ := Get(d, "type");
    || (typ != Null && !(typ.Str? && typ.text in SUPPORTED_TYPES) && IsFinding(v, TypeInvalid, path + ["type"]))
    || (root && typ != Str("object") && IsFinding(v, RootType, path + ["type"]))
  }

  /** Findings about the property table as a whole. */
  predicate TableFinding(d: Doc, root: bool, path: seq<string>, v: ProfileViolation) {
    var raw := Get(d, "properties");
    || (raw != Null && Get(d, "type") != Str("object") && IsFinding(v, PropertiesMismatch, path + ["properties"]))
    || (raw != Null && !raw.Obj? && IsFinding(v, PropertiesInvalid, path + ["properties"]))
    || (root && PropertyEntries(d) == [] && IsFinding(v, PropertiesEmpty, path + ["properties"]))
  }

  /** Findings about the i-th property: an empty name, or else those of its schema. */
  predicate EntryFinding(d: Doc, path: seq<string>, i: nat, v: ProfileViolation)
    requires i < |PropertyEntries(d)|
    decreases d, 0
  {
    var entry := PropertyEntries(d)[i];
    if entry.key == "" then IsFinding(v, PropertyNameInvalid, path + ["properties"])
    else HasFinding(entry.value, false, path + ["properties", entry.key], v)
  }

  predicate EntriesFinding(d: Doc, path: seq<string>, n: nat, v: ProfileViolation)
    requires n <= |PropertyEntries(d)|
    decreases d, 1
  {
    exists i | 0 <= i < n :: EntryFinding(d, path, i, v)
  }

  lemma EntriesStep(d: Doc, path: seq<string>, i: nat)
    requires i < |PropertyEntries(d)|
    ensures forall v :: EntriesFinding(d, path, i + 1, v) <==>
              EntriesFinding(d, path, i, v) || EntryFinding(d, path, i, v)
  {
    hide EntryFinding;
    forall v
      ensures EntriesFinding(d, path, i + 1, v) <==> EntriesFinding(d, path, i, v) || EntryFinding(d, path, i, v)
    {
      if k :| 0 <= k < i + 1 && EntryFinding(d, path, k, v) {
        assert k < i || k == i;
      }
    }
  }

  predicate SomeUnknown(d: Doc, names: seq<string>, n: nat)
    requires n <= |names|
  {
    exists i | 0 <= i < n :: !IsDeclared(d, names[i])
  }

  lemma UnknownStep(d: Doc, names: seq<string>, i: nat)
    requires i < |names|
    ensures SomeUnknown(d, names, i + 1) <==> SomeUnknown(d, names, i) || !IsDeclared(d, names[i])
    ensures !SomeUnknown(d, names, 0)
  {
    hide IsDeclared;
  }

  lemma UnknownExact(d: Doc, names: seq<string>, n: nat)
    requires n <= |names|
    ensures SomeUnknown(d, names, n) <==> !forall k | 0 <= k < n :: IsDeclared(d, names[k])
  {
    hide IsDeclared;
  }

  predicate NameFinding(d: Doc, names: seq<string>, duplicate: Finding, unknown: Finding, path: seq<string>,
        v: ProfileViolation)
  {
    || (!Distinct(names) && IsFinding(v, duplicate, path))
    || (SomeUnknown(d, names, |names|) && IsFinding(v, unknown, path))
  }

  predicate RequiredFinding(d: Doc, path: seq<string>, v: ProfileViolation) {
    var raw := Get(d, "required");
    raw != Null &&
    if Get(d, "type") != Str("object") then IsFinding(v, RequiredMismatch, path + ["required"])
    else if !IsNameList(raw) then IsFinding(v, RequiredInvalid, path + ["required"])
    else NameFinding(d, NamesOf(raw), RequiredDuplicate, RequiredUnknown, path + ["required"], v)
  }

  predicate AdditionalFinding(d: Doc, path: seq<string>, v: ProfileViolation) {
    Has(d, "additionalProperties") &&
    if Get(d, "type") != Str("object") then IsFinding(v, AdditionalMismatch, path + ["additionalProperties"])
    else !At(d, "additionalProperties").Bool? && IsFinding(v, AdditionalInvalid, path + ["additionalProperties"])
  }

  predicate ItemsFinding(d: Doc, path: seq<string>, v: ProfileViolation)
    decreases d, 0
  {
    Has(d, "items") &&
    if Get(d, "type") != Str("array") then IsFinding(v, ItemsMismatch, path + ["items"])
    else if !At(d, "items").Obj? then IsFinding(v, ItemsInvalid, path + ["items"])
    else HasFinding(At(d, "items"), false, path + ["items"], v)
  }

  predicate ValueFinding(d: Doc, path: seq<string>, v: ProfileViolation) {
    var raw := Get(d, "enum");
    || (raw != Null && (!raw.Arr? || raw.elems == []) && IsFinding(v, EnumInvalid, path + ["enum"]))
    || (raw.Arr? && raw.elems != [] && !Distinct(EnumValues(d)) && IsFinding(v, EnumDuplicate, path + ["enum"]))
    || (Has(d, "const") && raw != Null && Testable(At(d, "const"), raw) && !IsIn(At(d, "const"), raw)
        && IsFinding(v, ConstMismatch, path + ["const"]))
  }

  /** A keyword of a group whose types do not include that of the node. */
  predicate GroupFinding(d: Doc, keywords: seq<string>, n: nat, finding: Finding, path: seq<string>,
        v: ProfileViolation)
    requires n <= |keywords|
  {
    exists i | 0 <= i < n :: KeyHad(d, keywords[i], finding, path, v)
  }

  predicate KeyHad(d: Doc, key: string, finding: Finding, path: seq<string>, v: ProfileViolation) {
    Has(d, key) && IsFinding(v, finding, path + [key])
  }

  lemma GroupStep(d: Doc, keywords: seq<string>, i: nat, finding: Finding, path: seq<string>)
    requires i < |keywords|
    ensures forall v :: GroupFinding(d, keywords, i + 1, finding, path, v) <==>
              GroupFinding(d, keywords, i, finding, path, v) || KeyHad(d, keywords[i], finding, path, v)
  {
    hide KeyHad, GroupFinding;
    forall v
      ensures GroupFinding(d, keywords, i + 1, finding, path, v) <==>
              GroupFinding(d, keywords, i, finding, path, v) || KeyHad(d, keywords[i], finding, path, v)
    {
      GroupOne(d, keywords, i, finding, path, v);
    }
  }

  lemma GroupOne(d: Doc, keywords: seq<string>, i: nat, finding: Finding, path: seq<string>, v: ProfileViolation)
    requires i < |keywords|
    ensures GroupFinding(d, keywords, i + 1, finding, path, v) <==>
            GroupFinding(d, keywords, i, finding, path, v) || KeyHad(d, keywords[i], finding, path, v)
  {
    hide KeyHad;
    if k :| 0 <= k < i + 1 && KeyHad(d, keywords[k], finding, path, v) {
      assert k < i || k == i;
    }
  }

  predicate KeywordFinding(d: Doc, path: seq<string>, v: ProfileViolation) {
    var typ := Get(d, "type");
    || (typ != Str("string") && GroupFinding(d, STRING_KEYWORDS, |STRING_KEYWORDS|, StringKeyword, path, v))
    || (typ != Str("integer") && typ != Str("number")
        && GroupFinding(d, NUMERIC_KEYWORDS, |NUMERIC_KEYWORDS|, NumericKeyword, path, v))
    || (typ != Str("array") && GroupFinding(d, ARRAY_KEYWORDS, |ARRAY_KEYWORDS|, ArrayKeyword, path, v))
  }

  predicate IntReversed(d: Doc, least: string, most: string) {
    IsInt(Get(d, least)) && IsInt(Get(d, most)) && AsNumber(Get(d, least)) > AsNumber(Get(d, most))
  }

  predicate RangeFinding(d: Doc, path: seq<string>, v: ProfileViolation) {
    || (IntReversed(d, "minLength", "maxLength") && IsFinding(v, LengthRange, path))
    || (IsIntOrFloat(Get(d, "minimum")) && IsIntOrFloat(Get(d, "maximum"))
        && AsNumber(Get(d, "minimum")) > AsNumber(Get(d, "maximum")) && IsFinding(v, NumericRange, path))
    || (IntReversed(d, "minItems", "maxItems") && IsFinding(v, ArrayRange, path))
  }

  predicate ExtensionFinding(d: Doc, key: string, v: ProfileViolation) {
    Get(d, key) != Null &&
    if !IsNameList(Get(d, key)) then IsFinding(v, ExtensionInvalid, [key])
    else NameFinding(d, NamesOf(Get(d, key)), ExtensionDuplicate, ExtensionUnknown, [key], v)
  }

  predicate ShapeFinding(d: Doc, root: bool, path: seq<string>, v: ProfileViolation)
    requires d.Obj?
    decreases d, 2
  {
    || KeyFinding(d, root, path, |d.entries|, v) || TypeFinding(d, root, path, v) || TableFinding(d, root, path, v)
    || EntriesFinding(d, path, |PropertyEntries(d)|, v)
    || RequiredFinding(d, path, v) || AdditionalFinding(d, path, v)
  }

  predicate ContentFinding(d: Doc, path: seq<string>, v: ProfileViolation)
    decreases d, 1
  {
    ItemsFinding(d, path, v) || ValueFinding(d, path, v) || KeywordFinding(d, path, v) || RangeFinding(d, path, v)
  }

  predicate RootFinding(d: Doc, root: bool, v: ProfileViolation) {
    root && (ExtensionFinding(d, "x-businessKey", v) || ExtensionFinding(d, "x-primaryKey", v))
  }

  /** The walk of a node, at the given path of keys, comes upon the finding. */
  predicate HasFinding(d: Doc, root: bool, path: seq<string>, v: ProfileViolation)
    decreases d, 3
  {
    if !d.Obj? then IsFinding(v, NodeInvalid, path)
    else ShapeFinding(d, root, path, v) || ContentFinding(d, path, v) || RootFinding(d, root, v)
  }

  // ---------- The walk ----------

  lemma NoKeys(d: Doc, root: bool, path: seq<string>)
    requires d.Obj?
    ensures forall v :: !KeyFinding(d, root, path, 0, v)
  {
  }

  method CheckKeys(d: Doc, root: bool, log: ViolationLog, path: seq<string>)
    requires d.Obj?
    modifies log
    ensures Recorded(old(log.entries), log.entries, KeysOk(d, root))
    ensures forall v :: v in log.entries <==> v in old(log.entries) || KeyFinding(d, root, path, |d.entries|, v)
  {
    hide KeyFinding, Allowed;
    assert forall v :: !KeyFinding(d, root, path, 0, v) by { NoKeys(d, root, path); }
    for i := 0 to |d.entries|
      invariant old(log.entries) <= log.entries
      invariant |log.entries| == |old(log.entries)| <==> forall k | 0 <= k < i :: Allowed(d.entries[k].key, root)
      invariant forall v :: v in log.entries <==> v in old(log.entries) || KeyFinding(d, root, path, i, v)
    {
      KeyStep(d, root, path, i);
      if !Allowed(d.entries[i].key, root) {
        log.Append(KeywordUnsupported, path + [d.entries[i].key]);
      }
    }
  }

  method CheckType(d: Doc, root: bool, log: ViolationLog, path: seq<string>)
    requires d.Obj?
    modifies log
    ensures Recorded(old(log.entries), log.entries, TypesOk(d, root))
    ensures forall v :: v in log.entries <==> v in old(log.entries) || TypeFinding(d, root, path, v)
  {
    var typ := Get(d, "type");
    if typ != Null && (!typ.Str? || typ.text !in SUPPORTED_TYPES) {
      log.Append(TypeInvalid, path + ["type"]);
    }
    if root && typ != Str("object") {
      log.Append(RootType, path + ["type"]);
    }
  }

  lemma NoEntries(d: Doc, path: seq<string>)
    ensures forall v :: !EntriesFinding(d, path, 0, v)
  {
  }

  method CheckProperties(d: Doc, root: bool, log: ViolationLog, path: seq<string>)
    requires d.Obj? && Survives(d)
    modifies log
    ensures Recorded(old(log.entries), log.entries, TableOk(d, root))
    ensures forall v :: v in log.entries <==>
              || v in old(log.entries) || TableFinding(d, root, path, v)
              || EntriesFinding(d, path, |PropertyEntries(d)|, v)
    decreases d, 0
  {
    hide ProfileOk, HasFinding, EntriesFinding;
    var raw := Get(d, "properties");
    if raw != Null {
      if Get(d, "type") != Str("object") {
        log.Append(PropertiesMismatch, path + ["properties"]);
      }
      if !raw.Obj? {
        log.Append(PropertiesInvalid, path + ["properties"]);
      }
    }
    var properties := PropertyEntries(d);
    assert forall v :: !EntriesFinding(d, path, 0, v) by { NoEntries(d, path); }
    label walked:
    for i := 0 to |properties|
      invariant old@walked(log.entries) <= log.entries
      invariant log.entries == old@walked(log.entries) <==>
                forall k | 0 <= k < i :: properties[k].key != "" && ProfileOk(properties[k].value, false)
      invariant forall v :: v in log.entries <==> v in old@walked(log.entries) || EntriesFinding(d, path, i, v)
    {
      EntriesStep(d, path, i);
      if properties[i].key == "" {
        log.Append(PropertyNameInvalid, path + ["properties"]);
      } else {
        CheckNode(properties[i].value, log, path + ["properties", properties[i].key], false);
      }
    }
    if root && properties == [] {
      log.Append(PropertiesEmpty, path + ["properties"]);
    }
  }

  method CheckDistinct(names: seq<string>, duplicate: Finding, log: ViolationLog, path: seq<string>)
    modifies log
    ensures Recorded(old(log.entries), log.entries, Distinct(names))
    ensures forall v :: v in log.entries <==>
              v in old(log.entries) || (!Distinct(names) && IsFinding(v, duplicate, path))
  {
    if !Distinct(names) {
      log.Append(duplicate, path);
    }
  }

  method CheckUnknown(d: Doc, names: seq<string>, unknown: Finding, log: ViolationLog, path: seq<string>)
    modifies log
    ensures Recorded(old(log.entries), log.entries, !SomeUnknown(d, names, |names|))
    ensures forall v :: v in log.entries <==>
              v in old(log.entries) || (SomeUnknown(d, names, |names|) && IsFinding(v, unknown, path))
  {
    hide IsDeclared, SomeUnknown, IsFinding;
    UnknownExact(d, names, 0);
    for i := 0 to |names|
      invariant old(log.entries) <= log.entries
      invariant |log.entries| == |old(log.entries)| <==> !SomeUnknown(d, names, i)
      invariant forall v :: v in log.entries <==>
                  v in old(log.entries) || (SomeUnknown(d, names, i) && IsFinding(v, unknown, path))
    {
      UnknownStep(d, names, i);
      if !IsDeclared(d, names[i]) {
        log.Append(unknown, path);
      }
    }
  }

  /** The names of a list: duplicates once, and each name that is not a declared property. */
  method CheckNames(d: Doc, names: seq<string>, duplicate: Finding, unknown: Finding, log: ViolationLog,
        path: seq<string>)
    modifies log
    ensures Recorded(old(log.entries), log.entries,
                     Distinct(names) && forall i | 0 <= i < |names| :: IsDeclared(d, names[i]))
    ensures forall v :: v in log.entries <==>
              v in old(log.entries) || NameFinding(d, names, duplicate, unknown, path, v)
  {
    ghost var start := log.entries;
    CheckDistinct(names, duplicate, log, path);
    ghost var middle := log.entries;
    CheckUnknown(d, names, unknown, log, path);
    hide *;
    NamesRecorded(d, names, start, middle, log.entries);
    NamesFound(d, names, duplicate, unknown, path, start, middle, log.entries);
  }

  lemma NamesRecorded(d: Doc, names: seq<string>, start: seq<ProfileViolation>, middle: seq<ProfileViolation>,
        end: seq<ProfileViolation>)
    requires Recorded(start, middle, Distinct(names)) && Recorded(middle, end, !SomeUnknown(d, names, |names|))
    ensures Recorded(start, end, Distinct(names) && forall i | 0 <= i < |names| :: IsDeclared(d, names[i]))
  {
    hide Distinct, IsDeclared, SomeUnknown, Recorded;
    UnknownExact(d, names, |names|);
    RecordedTwice(start, middle, end, Distinct(names), !SomeUnknown(d, names, |names|));
  }

  lemma NamesFound(d: Doc, names: seq<string>, duplicate: Finding, unknown: Finding, path: seq<string>,
        start: seq<ProfileViolation>, middle: seq<ProfileViolation>, end: seq<ProfileViolation>)
    requires forall v :: v in middle <==> v in start || (!Distinct(names) && IsFinding(v, duplicate, path))
    requires forall v :: v in end <==>
               v in middle || (SomeUnknown(d, names, |names|) && IsFinding(v, unknown, path))
    ensures forall v :: v in end <==> v in start || NameFinding(d, names, duplicate, unknown, path, v)
  {
    hide Distinct, SomeUnknown, IsFinding, NameFinding;
    forall v ensures v in end <==> v in start || NameFinding(d, names, duplicate, unknown, path, v) {
      NameFound(d, names, duplicate, unknown, path, v);
    }
  }

  lemma NameFound(d: Doc, names: seq<string>, duplicate: Finding, unknown: Finding, path: seq<string>,
        v: ProfileViolation)
    ensures NameFinding(d, names, duplicate, unknown, path, v) <==>
            || (!Distinct(names) && IsFinding(v, duplicate, path))
            || (SomeUnknown(d, names, |names|) && IsFinding(v, unknown, path))
  {
    hide Distinct, SomeUnknown, IsFinding;
  }

  /** Required names that are not declared are reported once each, in order. */
  method CheckRequired(d: Doc, log: ViolationLog, path: seq<string>)
    requires d.Obj?
    modifies log
    ensures Recorded(old(log.entries), log.entries, RequiredOk(d))
    ensures forall v :: v in log.entries <==> v in old(log.entries) || RequiredFinding(d, path, v)
  {
    var raw := Get(d, "required");
    if raw != Null {
      if Get(d, "type") != Str("object") {
        log.Append(RequiredMismatch, path + ["required"]);
      } else if !IsNameList(raw) {
        log.Append(RequiredInvalid, path + ["required"]);
      } else {
        if !Distinct(NamesOf(raw)) {
          log.Append(RequiredDuplicate, path + ["required"]);
        }
        var unknown := SortedDifference(NamesOf(raw), PropertyNames(d));
        UnknownNames(d, NamesOf(raw));
        label walked:
        for i := 0 to |unknown|
          invariant |log.entries| == |old@walked(log.entries)| + i && old@walked(log.entries) <= log.entries
          invariant forall v :: v in log.entries <==>
                      v in old@walked(log.entries) || (i > 0 && IsFinding(v, RequiredUnknown, path + ["required"]))
        {
          log.Append(RequiredUnknown, path + ["required"]);
        }
      }
    }
  }

  lemma UnknownNames(d: Doc, names: seq<string>)
    ensures SortedDifference(names, PropertyNames(d)) == [] <==> forall i | 0 <= i < |names| :: IsDeclared(d, names[i])
  {
    hide IsDeclared, PropertyNames;
    forall name ensures name in PropertyNames(d) <==> IsDeclared(d, name) {
      NameIsDeclared(d, name);
    }
    var unknown := SortedDifference(names, PropertyNames(d));
    if unknown == [] {
      forall i | 0 <= i < |names| ensures IsDeclared(d, names[i]) {
        assert names[i] !in unknown;
      }
    } else {
      assert unknown[0] in unknown;
    }
  }

  method CheckAdditional(d: Doc, log: ViolationLog, path: seq<string>)
    requires d.Obj?
    modifies log
    ensures Recorded(old(log.entries), log.entries, AdditionalOk(d))
    ensures forall v :: v in log.entries <==> v in old(log.entries) || AdditionalFinding(d, path, v)
  {
    if Has(d, "additionalProperties") {
      if Get(d, "type") != Str("object") {
        log.Append(AdditionalMismatch, path + ["additionalProperties"]);
      } else if !At(d, "additionalProperties").Bool? {
        log.Append(AdditionalInvalid, path + ["additionalProperties"]);
      }
    }
  }

  method CheckItems(d: Doc, log: ViolationLog, path: seq<string>)
    requires d.Obj? && Survives(d)
    modifies log
    ensures Recorded(old(log.entries), log.entries, ItemsOk(d))
    ensures forall v :: v in log.entries <==> v in old(log.entries) || ItemsFinding(d, path, v)
    decreases d, 0
  {
    hide ProfileOk;
    if Has(d, "items") {
      if Get(d, "type") != Str("array") {
        log.Append(ItemsMismatch, path + ["items"]);
      } else if !At(d, "items").Obj? {
        log.Append(ItemsInvalid, path + ["items"]);
      } else {
        CheckNode(At(d, "items"), log, path + ["items"], false);
      }
    }
  }

  method CheckValues(d: Doc, log: ViolationLog, path: seq<string>)
    requires d.Obj? && Survives(d)
    modifies log
    ensures Recorded(old(log.entries), log.entries, ValuesOk(d))
    ensures forall v :: v in log.entries <==> v in old(log.entries) || ValueFinding(d, path, v)
  {
    hide Loosened;
    var raw := Get(d, "enum");
    if raw != Null {
      if !raw.Arr? || raw.elems == [] {
        log.Append(EnumInvalid, path + ["enum"]);
      } else if !Distinct(EnumValues(d)) {
        log.Append(EnumDuplicate, path + ["enum"]);
      }
    }
    if Has(d, "const") && raw != Null && !IsIn(At(d, "const"), raw) {
      log.Append(ConstMismatch, path + ["const"]);
    }
  }

  lemma NoGroup(d: Doc, keywords: seq<string>, finding: Finding, path: seq<string>)
    ensures forall v :: !GroupFinding(d, keywords, 0, finding, path, v)
  {
  }

  method CheckKeywordGroup(d: Doc, keywords: seq<string>, applies: bool, finding: Finding, log: ViolationLog,
        path: seq<string>)
    requires d.Obj?
    modifies log
    ensures Recorded(old(log.entries), log.entries, applies || Absence(d, keywords))
    ensures forall v :: v in log.entries <==>
              v in old(log.entries) || (!applies && GroupFinding(d, keywords, |keywords|, finding, path, v))
  {
    hide GroupFinding, Has;
    assert forall v :: !GroupFinding(d, keywords, 0, finding, path, v) by { NoGroup(d, keywords, finding, path); }
    for i := 0 to |keywords|
      invariant old(log.entries) <= log.entries
      invariant log.entries == old(log.entries) <==> applies || forall k | 0 <= k < i :: !Has(d, keywords[k])
      invariant forall v :: v in log.entries <==>
                  v in old(log.entries) || (!applies && GroupFinding(d, keywords, i, finding, path, v))
    {
      GroupStep(d, keywords, i, finding, path);
      if Has(d, keywords[i]) && !applies {
        log.Append(finding, path + [keywords[i]]);
      }
    }
  }

  method CheckKeywords(d: Doc, log: ViolationLog, path: seq<string>)
    requires d.Obj?
    modifies log
    ensures Recorded(old(log.entries), log.entries, KeywordsOk(d))
    ensures forall v :: v in log.entries <==> v in old(log.entries) || KeywordFinding(d, path, v)
  {
    hide Absence;
    CheckKeywordGroup(d, STRING_KEYWORDS, Get(d, "type") == Str("string"), StringKeyword, log, path);
    CheckKeywordGroup(d, NUMERIC_KEYWORDS, Get(d, "type") == Str("integer") || Get(d, "type") == Str("number"),
                      NumericKeyword, log, path);
    CheckKeywordGroup(d, ARRAY_KEYWORDS, Get(d, "type") == Str("array"), ArrayKeyword, log, path);
  }

  method CheckRanges(d: Doc, log: ViolationLog, path: seq<string>)
    requires d.Obj?
    modifies log
    ensures Recorded(old(log.entries), log.entries, RangesOk(d))
    ensures forall v :: v in log.entries <==> v in old(log.entries) || RangeFinding(d, path, v)
  {
    var minLength, maxLength := Get(d, "minLength"), Get(d, "maxLength");
    if IsInt(minLength) && IsInt(maxLength) && AsNumber(minLength) > AsNumber(maxLength) {
      log.Append(LengthRange, path);
    }
    var minimum, maximum := Get(d, "minimum"), Get(d, "maximum");
    if IsIntOrFloat(minimum) && IsIntOrFloat(maximum) && AsNumber(minimum) > AsNumber(maximum) {
      log.Append(NumericRange, path);
    }
    var minItems, maxItems := Get(d, "minItems"), Get(d, "maxItems");
    if IsInt(minItems) && IsInt(maxItems) && AsNumber(minItems) > AsNumber(maxItems) {
      log.Append(ArrayRange, path);
    }
  }

  method CheckExtension(d: Doc, key: string, log: ViolationLog)
    requires d.Obj?
    modifies log
    ensures Recorded(old(log.entries), log.entries, ExtensionOk(d, key))
    ensures forall v :: v in log.entries <==> v in old(log.entries) || ExtensionFinding(d, key, v)
  {
    var raw := Get(d, key);
    if raw != Null {
      if !IsNameList(raw) {
        log.Append(ExtensionInvalid, [key]);
      } else {
        CheckNames(d, NamesOf(raw), ExtensionDuplicate, ExtensionUnknown, log, [key]);
      }
    }
  }

  method CheckExtensions(d: Doc, root: bool, log: ViolationLog)
    requires d.Obj?
    modifies log
    ensures Recorded(old(log.entries), log.entries, ExtensionsOk(d, root))
    ensures forall v :: v in log.entries <==> v in old(log.entries) || RootFinding(d, root, v)
  {
    if root {
      CheckExtension(d, "x-businessKey", log);
      CheckExtension(d, "x-primaryKey", log);
    }
  }

  method CheckShape(d: Doc, log: ViolationLog, path: seq<string>, root: bool)
    requires d.Obj? && Survives(d)
    modifies log
    ensures Recorded(old(log.entries), log.entries, ShapeOk(d, root))
    ensures forall v :: v in log.entries <==> v in old(log.entries) || ShapeFinding(d, root, path, v)
    decreases d, 1
  {
    ghost var start := log.entries;
    CheckKeys(d, root, log, path);
    ghost var keys := log.entries;
    CheckType(d, root, log, path);
    ghost var types := log.entries;
    CheckProperties(d, root, log, path);
    ghost var table := log.entries;
    CheckRequired(d, log, path);
    ghost var required := log.entries;
    CheckAdditional(d, log, path);
    hide Recorded, KeysOk, TypesOk, TableOk, RequiredOk, AdditionalOk;
    ghost var c1 := KeysOk(d, root) && TypesOk(d, root);
    ghost var c2 := c1 && TableOk(d, root);
    ghost var c3 := c2 && RequiredOk(d);
    RecordedTwice(start, keys, types, KeysOk(d, root), TypesOk(d, root));
    RecordedTwice(start, types, table, c1, TableOk(d, root));
    RecordedTwice(start, table, required, c2, RequiredOk(d));
    RecordedTwice(start, required, log.entries, c3, AdditionalOk(d));
  }

  method CheckContent(d: Doc, log: ViolationLog, path: seq<string>)
    requires d.Obj? && Survives(d)
    modifies log
    ensures Recorded(old(log.entries), log.entries, ContentOk(d))
    ensures forall v :: v in log.entries <==> v in old(log.entries) || ContentFinding(d, path, v)
    decreases d, 1
  {
    ghost var start := log.entries;
    CheckItems(d, log, path);
    ghost var items := log.entries;
    CheckValues(d, log, path);
    ghost var values := log.entries;
    CheckKeywords(d, log, path);
    ghost var keywords := log.entries;
    CheckRanges(d, log, path);
    hide Recorded, ItemsOk, ValuesOk, KeywordsOk, RangesOk;
    ghost var c1 := ItemsOk(d) && ValuesOk(d);
    ghost var c2 := c1 && KeywordsOk(d);
    RecordedTwice(start, items, values, ItemsOk(d), ValuesOk(d));
    RecordedTwice(start, values, keywords, c1, KeywordsOk(d));
    RecordedTwice(start, keywords, log.entries, c2, RangesOk(d));
  }

  /** The walk only appends, and appends nothing exactly to nodes that meet the profile. */
  method CheckNode(d: Doc, log: ViolationLog, path: seq<string>, root: bool)
    requires Survives(d)
    modifies log
    ensures Recorded(old(log.entries), log.entries, ProfileOk(d, root))
    ensures forall v :: v in log.entries <==> v in old(log.entries) || HasFinding(d, root, path, v)
    decreases d, 2
  {
    if !d.Obj? {
      log.Append(NodeInvalid, path);
      return;
    }
    ghost var start := log.entries;
    CheckShape(d, log, path, root);
    ghost var shape := log.entries;
    CheckContent(d, log, path);
    ghost var content := log.entries;
    CheckExtensions(d, root, log);
    hide Recorded, ShapeOk, ContentOk, ExtensionOk;
    ghost var clean := ShapeOk(d, root) && ContentOk(d);
    RecordedTwice(start, shape, content, ShapeOk(d, root), ContentOk(d));
    RecordedTwice(start, content, log.entries, clean, ExtensionsOk(d, root));
    ProfileOkParts(d, root);
  }
}
