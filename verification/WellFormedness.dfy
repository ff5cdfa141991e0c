/** What the validator's verdict means: the documents it accepts are exactly the well-formed schemas. */
module WellFormedness {
  import opened Wrappers
  import opened Texts
  import opened Documents
  import opened Schemas
  import opened Profile

  // ---------- The meta-schema ----------

  predicate SimpleType(d: Doc) {
    d.Str? && d.text in SUPPORTED_TYPES
  }

  predicate MetaType(d: Doc) {
    SimpleType(d) ||
    (d.Arr? && d.elems != [] && Distinct(d.elems) && forall i | 0 <= i < |d.elems| :: SimpleType(d.elems[i]))
  }

  predicate MetaSize(d: Doc) {
    d.Num? && 0.0 <= d.number && d.number.Floor as real == d.number
  }

  predicate MetaNames(d: Doc) {
    d.Arr? && Distinct(d.elems) && forall i | 0 <= i < |d.elems| :: d.elems[i].Str?
  }

  predicate MetaScalars(d: Doc) {
    && (Has(d, "type") ==> MetaType(At(d, "type")))
    && (Has(d, "$schema") ==> At(d, "$schema").Str?)
    && (Has(d, "title") ==> At(d, "title").Str?)
    && (Has(d, "description") ==> At(d, "description").Str?)
    && (Has(d, "format") ==> At(d, "format").Str?)
    && (Has(d, "pattern") ==> At(d, "pattern").Str?)
    && (Has(d, "enum") ==> At(d, "enum").Arr?)
    && (Has(d, "minimum") ==> At(d, "minimum").Num?)
    && (Has(d, "maximum") ==> At(d, "maximum").Num?)
    && (Has(d, "exclusiveMinimum") ==> At(d, "exclusiveMinimum").Num?)
    && (Has(d, "exclusiveMaximum") ==> At(d, "exclusiveMaximum").Num?)
    && (Has(d, "minLength") ==> MetaSize(At(d, "minLength")))
    && (Has(d, "maxLength") ==> MetaSize(At(d, "maxLength")))
    && (Has(d, "minItems") ==> MetaSize(At(d, "minItems")))
    && (Has(d, "maxItems") ==> MetaSize(At(d, "maxItems")))
    && (Has(d, "required") ==> MetaNames(At(d, "required")))
  }

  /** The typing that the JSON Schema 2020-12 meta-schema demands of the profile's keywords. */
  predicate MetaTyped(d: Doc)
    decreases d
  {
    d.Bool? ||
    (&& d.Obj? && MetaScalars(d)
     && (Has(d, "properties") ==> At(d, "properties").Obj?)
     && (forall i | 0 <= i < |PropertyEntries(d)| :: MetaTyped(PropertyEntries(d)[i].value))
     && (Has(d, "additionalProperties") ==> MetaTyped(At(d, "additionalProperties")))
     && (Has(d, "items") ==> MetaTyped(At(d, "items"))))
  }

  // ---------- The verdict ----------

  /** `len` is applied to the root's `properties` and `required`. */
  predicate Sized(d: Doc, key: string) {
    Has(d, key) ==> At(d, key).Arr? || At(d, key).Obj? || At(d, key).Str?
  }

  /** `$schema` can be looked up: it is a text, or null, false or zero, which read as the empty text. */
  predicate DialectReadable(d: Doc) {
    var dialect := Get(d, "$schema");
    dialect.Str? || dialect in [Null, Bool(false), Num(0.0)]
  }

  /** The validator reaches a verdict without a Python exception. */
  predicate Checkable(d: Doc) {
    Survives(d) && DialectReadable(d) && Sized(d, "properties") && Sized(d, "required")
  }

  predicate Accepted(d: Doc) {
    d.Obj? && MetaTyped(d) && ProfileOk(d, true)
  }

  method ValidateContractSchema(d: Doc) returns (ok: bool, violations: seq<ProfileViolation>)
    requires Checkable(d)
    ensures ok <==> Accepted(d)
    ensures ok <==> violations == []
    ensures forall v :: v in violations <==>
              if !d.Obj? then IsFinding(v, DocumentInvalid, [])
              else (!MetaTyped(d) && IsFinding(v, MetaSchemaInvalid, [])) || HasFinding(d, true, [], v)
  {
    hide MetaTyped, ProfileOk, Survives, HasFinding;
    var log := new ViolationLog();
    if !d.Obj? {
      log.Append(DocumentInvalid, []);
    } else {
      if !MetaTyped(d) {
        log.Append(MetaSchemaInvalid, []);
      }
      CheckNode(d, log, [], true);
    }
    violations := log.entries;
    ok := |violations| == 0;
  }

  // ---------- Accepted documents are well-formed schemas ----------

  /** The document says nothing that a schema of the profile cannot: known keys, one simple type, object nodes. */
  predicate Expressible(d: Doc, root: bool)
    decreases d
  {
    && d.Obj? && KeysOk(d, root) && TypeOk(d)
    && (Has(d, "additionalProperties") ==> At(d, "additionalProperties").Bool?)
    && (Has(d, "items") ==> Expressible(At(d, "items"), false))
    && (forall i | 0 <= i < |PropertyEntries(d)| :: Expressible(PropertyEntries(d)[i].value, false))
  }

  lemma EnumMeaning(d: Doc)
    requires Has(d, "enum") ==> At(d, "enum").Arr?
    ensures EnumOk(d) && ConstOk(d) <==> WellFormedEnum(Decode(d))
  {
    hide Decode, Loosened, Denote;
    DecodeEnum(d);
  }

  lemma DecodeEnum(d: Doc)
    ensures Decode(d).enumeration == ReadValues(Get(d, "enum"))
    ensures Decode(d).constant == if Has(d, "const") then Some(Denote(At(d, "const"))) else None
  {
  }

  lemma DecodeScalars(d: Doc)
    ensures
      var s := Decode(d);
      && s.typ == ReadType(Get(d, "type"))
      && s.strings == StringRules(ReadSize(Get(d, "minLength")), ReadSize(Get(d, "maxLength")),
                                  ReadText(Get(d, "pattern")), ReadText(Get(d, "format")))
      && s.numbers == NumberRules(ReadNumber(Get(d, "minimum")), ReadNumber(Get(d, "maximum")),
                                  ReadNumber(Get(d, "exclusiveMinimum")), ReadNumber(Get(d, "exclusiveMaximum")))
      && s.minItems == ReadSize(Get(d, "minItems")) && s.maxItems == ReadSize(Get(d, "maxItems"))
      && s.items.Some? == Has(d, "items")
  {
  }

  lemma AbsenceMeaning(d: Doc)
    requires MetaScalars(d)
    ensures Absence(d, STRING_KEYWORDS) <==> Decode(d).strings == NO_STRING_RULES
    ensures Absence(d, NUMERIC_KEYWORDS) <==> Decode(d).numbers == NO_NUMBER_RULES
    ensures Absence(d, ARRAY_KEYWORDS) <==>
            Decode(d).minItems.None? && Decode(d).maxItems.None? && Decode(d).items.None?
  {
    hide Decode, Has, At;
    DecodeScalars(d);
    assert STRING_KEYWORDS[0] == "format" && STRING_KEYWORDS[1] == "minLength";
    assert STRING_KEYWORDS[2] == "maxLength" && STRING_KEYWORDS[3] == "pattern";
    assert NUMERIC_KEYWORDS[0] == "minimum" && NUMERIC_KEYWORDS[1] == "maximum";
    assert NUMERIC_KEYWORDS[2] == "exclusiveMinimum" && NUMERIC_KEYWORDS[3] == "exclusiveMaximum";
    assert ARRAY_KEYWORDS[0] == "items" && ARRAY_KEYWORDS[1] == "minItems" && ARRAY_KEYWORDS[2] == "maxItems";
  }

  lemma SizeRange(d: Doc, least: string, most: string)
    requires Has(d, least) ==> MetaSize(At(d, least))
    requires Has(d, most) ==> MetaSize(At(d, most))
    ensures IntRangeOk(d, least, most) <==> Ordered(ReadSize(Get(d, least)), ReadSize(Get(d, most)))
    ensures NonNegative(ReadSize(Get(d, least))) && NonNegative(ReadSize(Get(d, most)))
  {
    hide Has, At;
  }

  predicate RangesOrdered(s: Schema) {
    && Ordered(s.strings.minLength, s.strings.maxLength) && Ordered(s.minItems, s.maxItems)
    && (s.numbers.minimum.Some? && s.numbers.maximum.Some? ==> s.numbers.minimum.value <= s.numbers.maximum.value)
  }

  predicate SizesNonNegative(s: Schema) {
    && NonNegative(s.strings.minLength) && NonNegative(s.strings.maxLength)
    && NonNegative(s.minItems) && NonNegative(s.maxItems)
  }

  lemma RangesMeaning(d: Doc)
    requires MetaScalars(d)
    ensures RangesOk(d) <==> RangesOrdered(Decode(d))
    ensures SizesNonNegative(Decode(d))
  {
    hide Decode, Has, At, IntRangeOk, Ordered, ReadSize, NonNegative, MetaSize;
    DecodeScalars(d);
    SizeRange(d, "minLength", "maxLength");
    SizeRange(d, "minItems", "maxItems");
  }

  lemma TypeMeaning(d: Doc)
    ensures
      var typ := Decode(d).typ;
      && (TypeIs(d, "object") <==> typ == Some(TObject))
      && (TypeIs(d, "array") <==> typ == Some(TArray))
      && (TypeIs(d, "string") <==> typ == Some(TString))
      && (TypeIs(d, "integer") <==> typ == Some(TInteger))
      && (TypeIs(d, "number") <==> typ == Some(TNumber))
  {
    hide Decode, Get;
    DecodeScalars(d);
  }

  lemma KeywordsMeaning(d: Doc)
    requires MetaScalars(d)
    ensures KeywordsOk(d) && RangesOk(d) <==> WellFormedScalars(Decode(d)) && WellFormedSizes(Decode(d))
  {
    hide Decode, Absence, RangesOk, MetaScalars, TypeIs, Ordered, NonNegative;
    hide Has, At;
    TypeMeaning(d);
    AbsenceMeaning(d);
    RangesMeaning(d);
  }

  lemma DecodeTable(d: Doc)
    ensures
      var props, entries := Props(Decode(d)), PropertyEntries(d);
      && |props| == |entries|
      && forall i | 0 <= i < |props| :: props[i] == Property(entries[i].key, Decode(entries[i].value))
    ensures Decode(d).properties.Declared? <==> Has(d, "properties") && At(d, "properties").Obj?
    ensures Decode(d).required == ReadNames(Get(d, "required"))
    ensures Decode(d).additional == ReadFlag(Get(d, "additionalProperties"))
    ensures Has(d, "items") ==> Decode(d).items == Some(Decode(At(d, "items")))
  {
  }

  lemma {:induction false} SameIndex(props: seq<Property>, entries: seq<Entry>, name: string)
    requires |props| == |entries| && forall i | 0 <= i < |props| :: props[i].name == entries[i].key
    ensures PropIndex(props, name) == IndexOf(entries, name)
  {
    var i, j := PropIndex(props, name), IndexOf(entries, name);
    assert !(i < j) && !(j < i);
  }

  lemma DeclaredMeaning(d: Doc, name: string)
    ensures IsDeclared(d, name) <==> HasProp(Decode(d), name)
  {
    hide Decode;
    DecodeTable(d);
    SameIndex(Props(Decode(d)), PropertyEntries(d), name);
  }

  lemma RequiredMeaning(d: Doc)
    requires Has(d, "required") && MetaNames(At(d, "required"))
    requires forall i | 0 <= i < |PropertyEntries(d)| :: PropertyEntries(d)[i].key != ""
    ensures
      var s := Decode(d);
      NamesOk(d, At(d, "required")) <==>
        Distinct(Required(s)) && forall i | 0 <= i < |Required(s)| :: HasProp(s, Required(s)[i])
  {
    hide Decode, IsDeclared;
    DecodeTable(d);
    var raw := At(d, "required");
    forall name ensures IsDeclared(d, name) <==> HasProp(Decode(d), name) {
      DeclaredMeaning(d, name);
    }
    forall name | IsDeclared(d, name) ensures name != "" {
      var i := IndexOf(PropertyEntries(d), name);
      assert PropertyEntries(d)[i].key == name;
    }
    assert Required(Decode(d)) ==
      seq(|raw.elems|, i requires 0 <= i < |raw.elems| => if raw.elems[i].Str? then raw.elems[i].text else "");
    if forall i | 0 <= i < |Required(Decode(d))| :: HasProp(Decode(d), Required(Decode(d))[i]) {
      forall i | 0 <= i < |raw.elems| ensures raw.elems[i].text != "" {
        assert HasProp(Decode(d), Required(Decode(d))[i]);
      }
    }
    if IsNameList(raw) {
      assert NamesOf(raw) == Required(Decode(d));
    }
  }

  predicate TableNamed(d: Doc) {
    forall i | 0 <= i < |PropertyEntries(d)| :: PropertyEntries(d)[i].key != ""
  }

  /** The rules about declared and required names, under the typing of the meta-schema. */
  predicate NamesRules(d: Doc) {
    (Has(d, "properties") ==> TypeIs(d, "object")) && TableNamed(d) && RequiredOk(d) && AdditionalOk(d)
  }

  lemma TableMeaning(d: Doc)
    requires Keyed(d)
    ensures
      var props := Props(Decode(d));
      && (forall i, j | 0 <= i < j < |props| :: props[i].name != props[j].name)
      && (TableNamed(d) <==> forall i | 0 <= i < |props| :: props[i].name != "")
  {
    hide Decode;
    DecodeTable(d);
    if Has(d, "properties") {
      assert Keyed(At(d, "properties"));
    }
  }

  lemma NamesMeaning(d: Doc)
    requires Keyed(d)
    requires Has(d, "properties") ==> At(d, "properties").Obj?
    requires Has(d, "required") ==> MetaNames(At(d, "required"))
    requires Has(d, "additionalProperties") ==> At(d, "additionalProperties").Bool?
    ensures NamesRules(d) <==> WellFormedNames(Decode(d))
  {
    hide Decode, NamesOk, TableNamed, TypeIs, Keyed;
    DecodeTable(d);
    TableMeaning(d);
    TypeMeaning(d);
    if TableNamed(d) && Has(d, "required") {
      RequiredMeaningNamed(d);
    }
  }

  lemma RequiredMeaningNamed(d: Doc)
    requires TableNamed(d) && Has(d, "required") && MetaNames(At(d, "required"))
    ensures
      var s := Decode(d);
      NamesOk(d, At(d, "required")) <==>
        Distinct(Required(s)) && forall i | 0 <= i < |Required(s)| :: HasProp(s, Required(s)[i])
  {
    hide Decode, NamesOk, MetaNames;
    RequiredMeaning(d);
  }

  /** The rules about a node's own keywords. */
  predicate OwnRules(d: Doc) {
    EnumOk(d) && ConstOk(d) && KeywordsOk(d) && RangesOk(d) && NamesRules(d)
  }

  predicate OwnWellFormed(s: Schema) {
    WellFormedEnum(s) && WellFormedScalars(s) && WellFormedSizes(s) && WellFormedNames(s)
  }

  lemma OwnMeaning(d: Doc)
    requires MetaTyped(d) && Keyed(d) && d.Obj?
    requires Has(d, "additionalProperties") ==> At(d, "additionalProperties").Bool?
    ensures OwnRules(d) <==> OwnWellFormed(Decode(d))
  {
    MetaFacts(d);
    hide MetaTyped, Keyed, Decode, MetaScalars, MetaNames, NamesRules, KeywordsOk, RangesOk, EnumOk, ConstOk;
    hide WellFormedEnum, WellFormedScalars, WellFormedSizes, WellFormedNames;
    EnumMeaning(d);
    KeywordsMeaning(d);
    NamesMeaning(d);
  }

  lemma MetaFacts(d: Doc)
    requires MetaTyped(d) && d.Obj?
    ensures MetaScalars(d)
    ensures Has(d, "enum") ==> At(d, "enum").Arr?
    ensures Has(d, "properties") ==> At(d, "properties").Obj?
    ensures Has(d, "required") ==> MetaNames(At(d, "required"))
  {
  }

  /** A node meets the profile when its own keywords do and its sub-schemas do. */
  lemma ProfileSplit(d: Doc, root: bool)
    requires d.Obj?
    requires Has(d, "properties") ==> At(d, "properties").Obj?
    ensures ProfileOk(d, root) <==>
              && KeysOk(d, root) && TypeOk(d) && OwnRules(d) && (root ==> RootOk(d))
              && (Has(d, "items") ==> TypeIs(d, "array") && At(d, "items").Obj? && ProfileOk(At(d, "items"), false))
              && (forall i | 0 <= i < |PropertyEntries(d)| :: ProfileOk(PropertyEntries(d)[i].value, false))
  {
    hide KeysOk, TypeOk, EnumOk, ConstOk, KeywordsOk, RangesOk, RequiredOk, AdditionalOk, RootOk, TypeIs;
    assert PropertiesOk(d) <==>
      && (Has(d, "properties") ==> TypeIs(d, "object")) && TableNamed(d)
      && (forall i | 0 <= i < |PropertyEntries(d)| :: ProfileOk(PropertyEntries(d)[i].value, false));
  }

  lemma WellFormedSplit(d: Doc)
    ensures WellFormed(Decode(d)) <==>
              && OwnWellFormed(Decode(d))
              && (Has(d, "items") ==> WellFormed(Decode(At(d, "items"))))
              && (forall i | 0 <= i < |PropertyEntries(d)| :: WellFormed(Decode(PropertyEntries(d)[i].value)))
  {
    hide Decode, WellFormedEnum, WellFormedScalars, WellFormedSizes, WellFormedNames;
    DecodeTable(d);
    DecodeScalars(d);
  }

  lemma ExpressibleSplit(d: Doc, root: bool)
    requires d.Obj?
    ensures Expressible(d, root) <==>
              && KeysOk(d, root) && TypeOk(d)
              && (Has(d, "additionalProperties") ==> At(d, "additionalProperties").Bool?)
              && (Has(d, "items") ==> Expressible(At(d, "items"), false))
              && (forall i | 0 <= i < |PropertyEntries(d)| :: Expressible(PropertyEntries(d)[i].value, false))
  {
    hide KeysOk, TypeOk, Has, At, PropertyEntries;
  }

  /** On documents that pass the meta-schema, the validator demands well-formedness and nothing more. */
  lemma {:induction false} ProfileMeaning(d: Doc, root: bool)
    requires MetaTyped(d) && Keyed(d)
    ensures ProfileOk(d, root) <==> Expressible(d, root) && WellFormed(Decode(d)) && (root ==> RootOk(d))
    decreases d
  {
    if d.Obj? {
      MetaFacts(d);
      hide Expressible, MetaTyped, Keyed, Decode, MetaScalars, MetaNames, ProfileOk, WellFormed, OwnWellFormed,
            OwnRules, KeysOk, TypeOk, RootOk, Has, At, PropertyEntries;
      ExpressibleSplit(d, root);
      ProfileSplit(d, root);
      WellFormedSplit(d);
      NodesMeaning(d);
      ItemsTyped(d);
      FlagTyped(d);
      if Has(d, "additionalProperties") ==> At(d, "additionalProperties").Bool? {
        OwnMeaning(d);
      }
    }
  }

  lemma FlagTyped(d: Doc)
    ensures OwnRules(d) && Has(d, "additionalProperties") ==> At(d, "additionalProperties").Bool?
  {
    hide EnumOk, ConstOk, RangesOk, KeywordsOk, RequiredOk;
  }

  lemma ItemsTyped(d: Doc)
    ensures OwnRules(d) && Has(d, "items") ==> TypeIs(d, "array")
    ensures Has(d, "items") && ProfileOk(At(d, "items"), false) ==> At(d, "items").Obj?
  {
    hide EnumOk, ConstOk, RangesOk, NamesRules, PropertiesOk, ItemsOk;
    assert ARRAY_KEYWORDS[0] == "items";
  }

  lemma SubKeyed(d: Doc)
    requires Keyed(d)
    ensures Has(d, "items") ==> Keyed(At(d, "items"))
    ensures forall i | 0 <= i < |PropertyEntries(d)| :: Keyed(PropertyEntries(d)[i].value)
    ensures forall i, j | 0 <= i < j < |PropertyEntries(d)| :: PropertyEntries(d)[i].key != PropertyEntries(d)[j].key
  {
    if Has(d, "properties") {
      assert Keyed(At(d, "properties"));
    }
  }

  lemma MetaNodes(d: Doc)
    requires MetaTyped(d) && d.Obj?
    ensures Has(d, "items") ==> MetaTyped(At(d, "items"))
    ensures forall i | 0 <= i < |PropertyEntries(d)| :: MetaTyped(PropertyEntries(d)[i].value)
  {
    hide MetaScalars, Has, At, PropertyEntries;
  }

  lemma {:induction false} NodesMeaning(d: Doc)
    requires MetaTyped(d) && Keyed(d) && d.Obj?
    ensures Has(d, "items") ==>
              (ProfileOk(At(d, "items"), false) <==>
               Expressible(At(d, "items"), false) && WellFormed(Decode(At(d, "items"))))
    ensures forall i | 0 <= i < |PropertyEntries(d)| ::
              ProfileOk(PropertyEntries(d)[i].value, false) <==>
              Expressible(PropertyEntries(d)[i].value, false) && WellFormed(Decode(PropertyEntries(d)[i].value))
    decreases d, 0
  {
    SubKeyed(d);
    MetaNodes(d);
    hide ProfileOk, Expressible, WellFormed, Decode, Keyed, MetaTyped, Has, At, PropertyEntries;
    if Has(d, "items") {
      ProfileMeaning(At(d, "items"), false);
    }
    forall i | 0 <= i < |PropertyEntries(d)|
      ensures ProfileOk(PropertyEntries(d)[i].value, false) <==>
              Expressible(PropertyEntries(d)[i].value, false) && WellFormed(Decode(PropertyEntries(d)[i].value))
    {
      ProfileMeaning(PropertyEntries(d)[i].value, false);
    }
  }

  lemma AcceptedIsWellFormed(d: Document)
    requires Accepted(d)
    ensures WellFormed(Decode(d)) && Decode(d).typ == Some(TObject) && Props(Decode(d)) != []
  {
    hide WellFormed, ProfileOk, Decode;
    ProfileMeaning(d, true);
    DecodeScalars(d);
    DecodeTable(d);
    RootFacts(d);
  }

  lemma RootFacts(d: Doc)
    requires ProfileOk(d, true)
    ensures TypeIs(d, "object") && PropertyEntries(d) != []
  {
  }

  // ---------- Exactly the accepted documents ----------

  /** The type is one that is read, or absent. */
  lemma TypesExact(d: Doc)
    ensures TypeOk(d) <==> Get(d, "type") == Null || ReadType(Get(d, "type")).Some?
  {
    hide Get;
    var typ := Get(d, "type");
    if typ.Str? {
      assert SUPPORTED_TYPES[0] == "object" && SUPPORTED_TYPES[1] == "array" && SUPPORTED_TYPES[2] == "string";
      assert SUPPORTED_TYPES[3] == "integer" && SUPPORTED_TYPES[4] == "number";
      assert SUPPORTED_TYPES[5] == "boolean" && SUPPORTED_TYPES[6] == "null";
    }
  }

  /** An extension key is absent, null, or lists distinct declared properties. */
  predicate ListsProperties(d: Doc, key: string) {
    var raw := Get(d, key);
    raw == Null ||
    (&& raw.Arr?
     && (forall i | 0 <= i < |raw.elems| ::
           raw.elems[i].Str? && raw.elems[i].text != "" && HasProp(Decode(d), raw.elems[i].text))
     && (forall i, j | 0 <= i < j < |raw.elems| :: raw.elems[i] != raw.elems[j]))
  }

  lemma ExtensionMeaning(d: Doc, key: string)
    ensures ExtensionOk(d, key) <==> ListsProperties(d, key)
  {
    hide Get, Decode, IsDeclared;
    var raw := Get(d, key);
    forall name ensures IsDeclared(d, name) <==> HasProp(Decode(d), name) {
      DeclaredMeaning(d, name);
    }
    if raw.Arr? && IsNameList(raw) {
      assert forall i | 0 <= i < |raw.elems| :: NamesOf(raw)[i] == raw.elems[i].text;
      if Distinct(NamesOf(raw)) {
        forall i, j | 0 <= i < j < |raw.elems| ensures raw.elems[i] != raw.elems[j] {
          assert NamesOf(raw)[i] != NamesOf(raw)[j];
        }
      }
    }
  }

  /**
   * The accepted documents: those that pass the meta-schema, say nothing that the profile cannot express, and read
   * as well-formed object schemas with a property, with extension keys that list distinct properties.
   */
  lemma AcceptedExact(d: Document)
    ensures Accepted(d) <==>
            && MetaTyped(d) && Expressible(d, true) && WellFormed(Decode(d))
            && Decode(d).typ == Some(TObject) && Props(Decode(d)) != []
            && ListsProperties(d, "x-businessKey") && ListsProperties(d, "x-primaryKey")
  {
    if MetaTyped(d) {
      ProfileMeaning(d, true);
    }
    ExtensionMeaning(d, "x-businessKey");
    ExtensionMeaning(d, "x-primaryKey");
    TypeMeaning(d);
    hide MetaTyped, ProfileOk, WellFormed, Decode, ExtensionOk, ListsProperties, TypeIs;
    DecodeTable(d);
    assert PropertyEntries(d) == [] <==> Props(Decode(d)) == [];
  }

  /** The validator reaches a verdict on every document that it would accept. */
  lemma AcceptedIsCheckable(d: Document)
    requires Accepted(d)
    ensures Checkable(d)
  {
    ProfileSurvives(d, true);
    hide MetaTyped, ProfileOk, Survives;
    RootSized(d);
  }

  lemma RootSized(d: Doc)
    requires d.Obj? && MetaTyped(d)
    ensures DialectReadable(d) && Sized(d, "properties") && Sized(d, "required")
  {
    hide Has, At;
  }

  lemma {:induction false} ProfileSurvives(d: Doc, root: bool)
    requires MetaTyped(d) && ProfileOk(d, root)
    ensures Survives(d)
    decreases d
  {
    if d.Obj? {
      MetaNodes(d);
      MetaFacts(d);
      NodeSurvives(d, root);
      hide MetaTyped, Has, At, PropertyEntries, KeysOk, TypeOk, RequiredOk, AdditionalOk, EnumOk, ConstOk, KeywordsOk,
           RangesOk, RootOk, MetaScalars;
      forall i | 0 <= i < |PropertyEntries(d)| ensures Survives(PropertyEntries(d)[i].value) {
        ProfileSurvives(PropertyEntries(d)[i].value, false);
      }
      if Has(d, "items") {
        ProfileSurvives(At(d, "items"), false);
      }
    }
  }

  lemma NodeSurvives(d: Doc, root: bool)
    requires ProfileOk(d, root) && MetaScalars(d)
    ensures Get(d, "type").Str? || Get(d, "type") == Null
    ensures Has(d, "const") && Get(d, "enum") != Null ==> Testable(At(d, "const"), Get(d, "enum"))
    ensures forall i | 0 <= i < |PropertyEntries(d)| :: ProfileOk(PropertyEntries(d)[i].value, false)
    ensures Has(d, "items") ==> ProfileOk(At(d, "items"), false)
  {
    hide Has, At, KeysOk, KeywordsOk, RangesOk;
    TableSurvives(d);
  }

  lemma TableSurvives(d: Doc)
    requires PropertiesOk(d)
    ensures forall i | 0 <= i < |PropertyEntries(d)| :: ProfileOk(PropertyEntries(d)[i].value, false)
  {
    hide ProfileOk;
  }

  // ---------- The unconstrained schema ----------

  /** The checker's test: no key besides the annotations. */
  predicate OnlyAnnotations(d: Doc)
    requires d.Obj?
  {
    forall i | 0 <= i < |d.entries| :: d.entries[i].key in ANNOTATIONS
  }

  lemma KeyIsHad(d: Doc, i: nat)
    requires d.Obj? && i < |d.entries|
    ensures Has(d, d.entries[i].key)
  {
    assert !(i < IndexOf(d.entries, d.entries[i].key));
  }

  const OTHER_KEYWORDS := ["$schema", "type", "const", "enum", "properties", "required", "additionalProperties"]
  const ANNOTATIONS := ["title", "description", "default"]

  lemma KeywordGroups(key: string)
    requires key in PROFILE_KEYS
    ensures key !in ANNOTATIONS <==>
            key in OTHER_KEYWORDS || key in STRING_KEYWORDS || key in NUMERIC_KEYWORDS || key in ARRAY_KEYWORDS
  {
  }

  lemma GroupsKnown(key: string)
    requires key in OTHER_KEYWORDS || key in STRING_KEYWORDS || key in NUMERIC_KEYWORDS || key in ARRAY_KEYWORDS
    ensures key in PROFILE_KEYS
  {
  }

  /** A node may have the annotations and the keywords that are read, and the root two extension keys. */
  lemma KeysExact(key: string, root: bool)
    ensures Allowed(key, root) <==>
            || key == "title" || key == "description" || key == "default"
            || key in OTHER_KEYWORDS || key in STRING_KEYWORDS || key in NUMERIC_KEYWORDS || key in ARRAY_KEYWORDS
            || (root && (key == "x-primaryKey" || key == "x-businessKey"))
  {
    if key in PROFILE_KEYS {
      KeywordGroups(key);
    }
    if key in OTHER_KEYWORDS || key in STRING_KEYWORDS || key in NUMERIC_KEYWORDS || key in ARRAY_KEYWORDS {
      GroupsKnown(key);
    }
    AnnotationsKnown();
    hide OTHER_KEYWORDS, STRING_KEYWORDS, NUMERIC_KEYWORDS, ARRAY_KEYWORDS, PROFILE_KEYS;
  }

  lemma AnnotationsKnown()
    ensures "title" in PROFILE_KEYS && "description" in PROFILE_KEYS && "default" in PROFILE_KEYS
  {
  }

  predicate NothingRead(d: Doc) {
    && Absence(d, OTHER_KEYWORDS) && Absence(d, STRING_KEYWORDS)
    && Absence(d, NUMERIC_KEYWORDS) && Absence(d, ARRAY_KEYWORDS)
  }

  lemma TypeKnown(d: Doc)
    requires TypeOk(d) && Has(d, "type") && At(d, "type") != Null
    ensures ReadType(Get(d, "type")).Some?
  {
    hide Has, At;
    assert At(d, "type").text in SUPPORTED_TYPES;
  }

  lemma OthersAbsent(d: Doc)
    requires MetaScalars(d) && TypeOk(d)
    requires Has(d, "properties") ==> At(d, "properties").Obj?
    requires Has(d, "additionalProperties") ==> At(d, "additionalProperties").Bool?
    ensures
      var s := Decode(d);
      Absence(d, OTHER_KEYWORDS) <==>
        && !s.dialect && s.typ.None? && s.constant.None? && s.enumeration.None?
        && s.properties.Absent? && s.required.None? && s.additional.None?
  {
    hide Decode, Has, At, TypeOk;
    if Has(d, "type") {
      TypeKnown(d);
    }
    DialectKept(d);
    DecodeScalars(d);
    DecodeTable(d);
    DecodeEnum(d);
    assert OTHER_KEYWORDS[0] == "$schema" && OTHER_KEYWORDS[1] == "type" && OTHER_KEYWORDS[2] == "const";
    assert OTHER_KEYWORDS[3] == "enum" && OTHER_KEYWORDS[4] == "properties";
    assert OTHER_KEYWORDS[5] == "required" && OTHER_KEYWORDS[6] == "additionalProperties";
  }

  lemma DialectKept(d: Doc)
    ensures Decode(d).dialect == Has(d, "$schema")
  {
  }

  lemma NothingReadIsAny(d: Doc)
    requires MetaScalars(d) && TypeOk(d)
    requires Has(d, "properties") ==> At(d, "properties").Obj?
    requires Has(d, "additionalProperties") ==> At(d, "additionalProperties").Bool?
    ensures IsAny(Decode(d)) <==> NothingRead(d)
  {
    hide Decode, Has, At, MetaScalars, TypeOk, Absence;
    OthersAbsent(d);
    AbsenceMeaning(d);
  }

  lemma AbsentKey(d: Doc, keywords: seq<string>, key: string)
    requires Absence(d, keywords) && key in keywords
    ensures !Has(d, key)
  {
  }

  lemma OnlyAnnotationsRead(d: Doc)
    requires d.Obj? && KeysOk(d, false)
    ensures OnlyAnnotations(d) <==> NothingRead(d)
  {
    if NothingRead(d) {
      hide Absence;
      forall i | 0 <= i < |d.entries| ensures d.entries[i].key in ANNOTATIONS {
        var key := d.entries[i].key;
        KeyIsHad(d, i);
        assert Allowed(key, false);
        KeywordGroups(key);
        if key in OTHER_KEYWORDS { AbsentKey(d, OTHER_KEYWORDS, key); }
        if key in STRING_KEYWORDS { AbsentKey(d, STRING_KEYWORDS, key); }
        if key in NUMERIC_KEYWORDS { AbsentKey(d, NUMERIC_KEYWORDS, key); }
        if key in ARRAY_KEYWORDS { AbsentKey(d, ARRAY_KEYWORDS, key); }
      }
    }
    if OnlyAnnotations(d) {
      hide OnlyAnnotations, Absence;
      GroupAbsent(d, OTHER_KEYWORDS);
      GroupAbsent(d, STRING_KEYWORDS);
      GroupAbsent(d, NUMERIC_KEYWORDS);
      GroupAbsent(d, ARRAY_KEYWORDS);
    }
  }

  lemma GroupAbsent(d: Doc, keywords: seq<string>)
    requires d.Obj? && OnlyAnnotations(d)
    requires keywords in [OTHER_KEYWORDS, STRING_KEYWORDS, NUMERIC_KEYWORDS, ARRAY_KEYWORDS]
    ensures Absence(d, keywords)
  {
    hide Has;
    forall j | 0 <= j < |keywords| ensures !Has(d, keywords[j]) {
      NotAnnotation(keywords, keywords[j]);
      NotHad(d, keywords[j]);
    }
  }

  lemma NotAnnotation(keywords: seq<string>, key: string)
    requires keywords in [OTHER_KEYWORDS, STRING_KEYWORDS, NUMERIC_KEYWORDS, ARRAY_KEYWORDS] && key in keywords
    ensures key !in ANNOTATIONS
  {
    GroupsKnown(key);
    KeywordGroups(key);
  }

  lemma NotHad(d: Doc, key: string)
    requires d.Obj? && OnlyAnnotations(d) && key !in ANNOTATIONS
    ensures !Has(d, key)
  {
  }

  /** A document reads as the unconstrained schema exactly when it passes the checker's test on its keys. */
  lemma AnyMeaning(d: Doc)
    requires MetaTyped(d) && Expressible(d, false)
    ensures IsAny(Decode(d)) <==> OnlyAnnotations(d)
  {
    MetaFacts(d);
    ExpressibleSplit(d, false);
    hide MetaTyped, Expressible, Decode, MetaScalars, KeysOk, TypeOk, NothingRead, OnlyAnnotations;
    NothingReadIsAny(d);
    OnlyAnnotationsRead(d);
  }
}
