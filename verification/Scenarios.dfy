/** Two runs of the registry: one that meets the conditions of its promises, and one that loses data without them. */
module Scenarios {
  import opened Enums
  import opened Wrappers
  import opened Documents
  import opened Schemas
  import opened Rules
  import opened Soundness
  import opened CompatibilityOrder
  import opened SemVers
  import Precedence
  import opened Profile
  import opened WellFormedness
  import opened Introspection
  import opened Registry
  import opened Lifecycle
  import opened History
  import Diff

  lemma RunFirst(call: Call, rx: Matcher)
    ensures Run([call], rx) == Apply([], call, rx)
  {
    hide Apply;
    RunStep([], call, rx);
    assert [] + [call] == [call];
  }

  lemma RunVersion(calls: seq<Call>, text: string, schema: Document, mode: Mode, rx: Matcher)
    ensures Run(calls + [CreateVersion(0, text, schema, mode)], rx) ==
            CreateVersionStep(Run(calls, rx), 0, text, schema, mode, rx).state
  {
    hide Run, CreateVersionStep, Keyed, Parse;
    RunStep(calls, CreateVersion(0, text, schema, mode), rx);
  }

  lemma PlainCore(major: nat, minor: nat, patch: nat)
    ensures Precedence.TextCore(Precedence.PlainText(major, minor, patch)) == (major, minor, patch)
  {
    hide Parse;
  }

  lemma AllowedRow(a: Version, b: Version, rx: Matcher)
    requires StepAllowed(a, b, rx)
    ensures AuditRow(a, b.text, b.schema, rx).Ok? && !AuditRow(a, b.text, b.schema, rx).value.Rejects()
    ensures Precedence.CompareTexts(b.text, a.text) > 0
  {
    hide Parse, Keyed, BuildReport, Decode, Precedence.DetectBump, PolicyPassed, Diff.DiffOf, Precedence.CompareTexts;
    BumpIsGreater(a.text, b.text);
  }

  lemma VersionAdded(c: Contract, text: Precedence.VersionText, schema: Document, mode: Mode, rx: Matcher)
    requires ContractOk(c, rx) && c.versions != []
    requires StepAllowed(c.versions[|c.versions| - 1], FreshVersion(text, schema, mode), rx)
    ensures AddVersion(c, text, schema, mode, rx).0.versions == c.versions + [FreshVersion(text, schema, mode)]
  {
    hide ContractOk, ChainOk, Parse, Keyed, Latest, HasVersion, StepAllowed, AuditRow, Precedence.CompareTexts;
    AllowedRow(c.versions[|c.versions| - 1], FreshVersion(text, schema, mode), rx);
    ChainOfContract(c, rx);
    LatestIsLast(c, rx);
    NotStored(c, text, rx);
  }

  /** A store with one contract, in the invariant, that is not archived. */
  predicate Single(st: State, rx: Matcher) {
    |st| == 1 && ContractOk(st[0], rx) && !st[0].deleted
  }

  lemma VersionStored(st: State, text: Precedence.VersionText, schema: Document, mode: Mode, rx: Matcher)
    requires Single(st, rx) && st[0].versions != [] && Checkable(schema) && Accepted(schema)
    requires StepAllowed(st[0].versions[|st[0].versions| - 1], FreshVersion(text, schema, mode), rx)
    ensures
      var st' := CreateVersionStep(st, 0, text, schema, mode, rx).state;
      Single(st', rx) && st'[0].versions == st[0].versions + [FreshVersion(text, schema, mode)]
  {
    hide ContractOk, Parse, Keyed, StepAllowed, AddVersion, Accepted, Checkable;
    VersionAdded(st[0], text, schema, mode, rx);
    NameKept(st[0], text, schema, mode, rx);
    AddVersionKeeps(st[0], text, schema, mode, rx);
  }

  // ---------- A table introspected and published again ----------

  function Republish(namespace: string, name: string, columns: seq<Column>, primaryKeys: seq<string>, origin: string,
        schema: Document): seq<Call> {
    [IntrospectTable(namespace, name, columns, primaryKeys, origin)] +
    [CreateVersion(0, Precedence.PlainText(0, 1, 1), schema, ModeBackward)]
  }

  lemma IntrospectedRun(namespace: string, name: string, columns: seq<Column>, primaryKeys: seq<string>,
        origin: string, rx: Matcher)
    requires Mappable(columns, primaryKeys)
    ensures TableDocument(columns, primaryKeys, origin).Ok?
    ensures
      var schema := TableDocument(columns, primaryKeys, origin).value;
      && Checkable(schema) && Accepted(schema) && Sealed(Decode(schema)) && SelfConsistent(Decode(schema), rx)
      && Run([IntrospectTable(namespace, name, columns, primaryKeys, origin)], rx) ==
           [IntrospectedContract(namespace, name, schema)]
  {
    hide Mappable, StructureOf, GeneratedSchema, Mirrors, Keyed, Parse, Accepted, Checkable, Sealed, SelfConsistent,
         Decode;
    GeneratedAccepted(columns, primaryKeys, origin, rx);
    RunFirst(IntrospectTable(namespace, name, columns, primaryKeys, origin), rx);
  }

  lemma SelfAllowed(v: Version, text: Precedence.VersionText, rx: Matcher)
    requires Precedence.DetectBump(v.text, text).Ok? && WellFormed(Decode(v.schema))
    requires SelfConsistent(Decode(v.schema), rx)
    ensures StepAllowed(v, FreshVersion(text, v.schema, ModeBackward), rx)
  {
    hide Parse, Keyed, Decode, BuildReport, Precedence.DetectBump, SelfConsistent, WellFormed, Compatible;
    FullMeansBoth(Decode(v.schema), Decode(v.schema), rx);
    ReflexiveIff(Decode(v.schema), rx);
  }

  /**
   * Every table the generator is meant for can be introspected and then published again as a patch. The contract has
   * two versions of one minor, both sealed: what the promises about histories ask for.
   */
  lemma RepublishedTable(namespace: string, name: string, columns: seq<Column>, primaryKeys: seq<string>,
        origin: string, rx: Matcher)
    requires Mappable(columns, primaryKeys)
    ensures
      TableDocument(columns, primaryKeys, origin).Ok? &&
      var schema := TableDocument(columns, primaryKeys, origin).value;
      var st := Run(Republish(namespace, name, columns, primaryKeys, origin, schema), rx);
      && |st| == 1 && Live(st, 0) && |st[0].versions| == 2 && SameMinor(st[0], 0, 1)
      && SchemaAt(st[0], 0) == SchemaAt(st[0], 1) == Decode(schema) && Sealed(Decode(schema))
  {
    hide Mappable, TableDocument, Keyed, Parse, Accepted, Checkable, Decode, Run, SelfConsistent, Sealed, SameMinor,
         Precedence.PlainText, CreateVersionStep;
    IntrospectedRun(namespace, name, columns, primaryKeys, origin, rx);
    var schema := TableDocument(columns, primaryKeys, origin).value;
    RunVersion([IntrospectTable(namespace, name, columns, primaryKeys, origin)], Precedence.PlainText(0, 1, 1), schema,
               ModeBackward, rx);
    RepublishedVersion(IntrospectedContract(namespace, name, schema), schema, rx);
  }

  lemma RepublishedVersion(c: Contract, schema: Document, rx: Matcher)
    requires c.versions == [FreshVersion(DEFAULT_VERSION, schema, ModeBackward)] && c.active.None? && !c.deleted
    requires Checkable(schema) && Accepted(schema) && SelfConsistent(Decode(schema), rx)
    ensures
      var st := CreateVersionStep([c], 0, Precedence.PlainText(0, 1, 1), schema, ModeBackward, rx).state;
      && |st| == 1 && !st[0].deleted && |st[0].versions| == 2 && SameMinor(st[0], 0, 1)
      && SchemaAt(st[0], 0) == SchemaAt(st[0], 1) == Decode(schema)
  {
    hide Keyed, Parse, Accepted, Checkable, Decode, Precedence.DetectBump, SelfConsistent, Precedence.PlainText,
         Precedence.TextCore, ContractOk, StepAllowed, CreateVersionStep;
    FreshOk(c, rx);
    PlainCore(0, 1, 0);
    PlainCore(0, 1, 1);
    Precedence.BumpExact(DEFAULT_VERSION, Precedence.PlainText(0, 1, 1));
    assert WellFormed(Decode(schema)) by { AcceptedIsWellFormed(schema); }
    SelfAllowed(c.versions[0], Precedence.PlainText(0, 1, 1), rx);
    VersionStored([c], Precedence.PlainText(0, 1, 1), schema, ModeBackward, rx);
  }

  /** There are such tables. */
  lemma SomeTable() returns (columns: seq<Column>)
    ensures Mappable(columns, [])
  {
    columns := [Column("id", "integer", "int4", "NO")];
    assert Lower("integer") == "integer";
    assert Strip("integer") == "integer";
  }

  // ---------- An open contract that gains a property ----------

  /** An object schema that says only which properties it has. */
  function OpenDoc(entries: seq<Entry>): Doc {
    Obj([Entry("type", Str("object")), Entry("properties", Obj(entries))])
  }

  predicate ColumnEntries(entries: seq<Entry>) {
    && entries != []
    && (forall i, j | 0 <= i < j < |entries| :: entries[i].key != entries[j].key)
    && (forall i | 0 <= i < |entries| :: entries[i].key != "" && ColumnDocOk(entries[i].value))
  }

  /** The keys of an open document are `type` and `properties`. */
  ghost predicate OpenKeys(d: Doc, entries: seq<Entry>) {
    && (forall key | Has(d, key) :: key == "type" || key == "properties")
    && Has(d, "type") && At(d, "type") == Str("object")
    && Has(d, "properties") && At(d, "properties") == Obj(entries)
  }

  lemma OpenDocKeys(entries: seq<Entry>)
    ensures OpenKeys(OpenDoc(entries), entries)
  {
    var d := OpenDoc(entries);
    KeyAt(d, 0);
    KeyAt(d, 1);
  }

  lemma OpenDocKeyed(entries: seq<Entry>)
    requires ColumnEntries(entries)
    ensures Keyed(OpenDoc(entries)) && KeysOk(OpenDoc(entries), true)
  {
    hide MetaTyped, ProfileOk, Simple, Survives;
    assert Keyed(Obj(entries)) by {
      forall i | 0 <= i < |entries| ensures Keyed(entries[i].value) {
        assert ColumnDocOk(entries[i].value);
      }
    }
  }

  lemma OpenAbsent(d: Doc, entries: seq<Entry>)
    requires OpenKeys(d, entries)
    ensures Absence(d, STRING_KEYWORDS) && Absence(d, NUMERIC_KEYWORDS) && Absence(d, ARRAY_KEYWORDS)
    ensures !Has(d, "$schema") && !Has(d, "const") && !Has(d, "enum") && !Has(d, "title") && !Has(d, "description")
    ensures !Has(d, "required") && !Has(d, "additionalProperties")
    ensures !Has(d, "x-primaryKey") && !Has(d, "x-businessKey")
    ensures PropertyEntries(d) == entries
  {
    hide Has, At;
  }

  lemma OpenMeta(d: Doc, entries: seq<Entry>)
    requires d.Obj? && OpenKeys(d, entries) && ColumnEntries(entries)
    ensures MetaTyped(d)
  {
    OpenAbsent(d, entries);
    GroupAbsences(d);
    hide Has, At, Absence, Keyed, ProfileOk, Simple, Survives;
    assert SimpleType(Str("object"));
    forall i | 0 <= i < |PropertyEntries(d)| ensures MetaTyped(PropertyEntries(d)[i].value) {
      assert ColumnDocOk(entries[i].value);
    }
  }

  lemma OpenProfile(d: Doc, entries: seq<Entry>)
    requires d.Obj? && OpenKeys(d, entries) && ColumnEntries(entries) && KeysOk(d, true)
    ensures ProfileOk(d, true)
  {
    OpenAbsent(d, entries);
    UnboundedRanges(d);
    hide Has, At, Absence, KeysOk, RangesOk, KeywordsOk, ItemsOk, Keyed, MetaTyped, Simple, Survives;
    assert PropertiesOk(d) by {
      forall i | 0 <= i < |PropertyEntries(d)|
        ensures PropertyEntries(d)[i].key != "" && ProfileOk(PropertyEntries(d)[i].value, false)
      {
        assert ColumnDocOk(entries[i].value);
      }
    }
  }

  lemma OpenSurvives(d: Doc, entries: seq<Entry>)
    requires d.Obj? && OpenKeys(d, entries) && ColumnEntries(entries)
    ensures Checkable(d)
  {
    OpenAbsent(d, entries);
    GroupAbsences(d);
    hide Has, At, Absence, Keyed, ProfileOk, Simple, MetaTyped;
    forall i | 0 <= i < |PropertyEntries(d)| ensures Survives(PropertyEntries(d)[i].value) {
      assert ColumnDocOk(entries[i].value);
    }
  }

  lemma OpenDocAccepted(entries: seq<Entry>)
    requires ColumnEntries(entries)
    ensures Keyed(OpenDoc(entries)) && Checkable(OpenDoc(entries)) && Accepted(OpenDoc(entries))
  {
    var d := OpenDoc(entries);
    assert d.Obj?;
    OpenDocKeys(entries);
    OpenDocKeyed(entries);
    hide OpenDoc, OpenKeys, ColumnEntries, Keyed, KeysOk, MetaTyped, ProfileOk, Checkable;
    OpenMeta(d, entries);
    OpenProfile(d, entries);
    OpenSurvives(d, entries);
  }

  lemma OpenDocRead(entries: seq<Entry>)
    ensures
      var s := Decode(OpenDoc(entries));
      && IsObject(s) && Open(s) && Required(s) == [] && |Props(s)| == |entries|
      && forall i | 0 <= i < |entries| :: Props(s)[i] == Property(entries[i].key, Decode(entries[i].value))
  {
    var d := OpenDoc(entries);
    OpenDocKeys(entries);
    OpenAbsent(d, entries);
    hide Has, At, Decode, Absence, OpenDoc;
    DecodeTable(d);
    DecodeScalars(d);
    DecodeEnum(d);
  }

  const BEFORE := [Entry("a", TypeDoc("string"))]
  const AFTER := [Entry("a", TypeDoc("string")), Entry("b", TypeDoc("integer"))]

  lemma TypeDocRead(name: string)
    requires name in SUPPORTED_TYPES && name != "object"
    ensures ColumnDocOk(TypeDoc(name)) && Decode(TypeDoc(name)).typ == ReadType(Str(name))
    ensures !Finite(Decode(TypeDoc(name)))
  {
    SmallDocOk(TypeDoc(name));
    OneKey(TypeDoc(name), "type");
    OneKey(TypeDoc(name), "const");
    OneKey(TypeDoc(name), "enum");
    hide ColumnDocOk, Has, At, Decode;
    DecodeScalars(TypeDoc(name));
    DecodeEnum(TypeDoc(name));
  }

  lemma BothAccepted()
    ensures ColumnEntries(BEFORE) && ColumnEntries(AFTER)
  {
    hide ColumnDocOk, Decode;
    TypeDocRead("string");
    TypeDocRead("integer");
  }

  lemma ColumnReflexive(d: Doc, rx: Matcher)
    requires ColumnDocOk(d)
    ensures Compatible(Decode(d), Decode(d), rx)
  {
    hide Decode, Compatible, MetaTyped, ProfileOk, Keyed, WellFormed, Expressible, Survives, Simple;
    ProfileMeaning(d, false);
    SimpleSealed(Decode(d), rx);
    ReflexiveIff(Decode(d), rx);
  }

  lemma OpenCompatible(rx: Matcher)
    ensures Compatible(Decode(OpenDoc(BEFORE)), Decode(OpenDoc(AFTER)), rx)
  {
    hide Decode, OpenDoc, TypeDoc, Compatible, ColumnDocOk;
    var s, t := Decode(OpenDoc(BEFORE)), Decode(OpenDoc(AFTER));
    OpenDocRead(BEFORE);
    OpenDocRead(AFTER);
    TypeDocRead("string");
    ColumnReflexive(TypeDoc("string"), rx);
    ObjectPair(s, t, rx);
    assert Props(t)[0].name == "a" && PropIndex(Props(t), "a") == 0;
    assert PropertyOk(s, t, 0, rx);
  }

  lemma ValueLost(rx: Matcher) returns (v: Value)
    ensures Valid(Decode(OpenDoc(BEFORE)), v, rx) && !Valid(Decode(OpenDoc(AFTER)), v, rx)
  {
    hide Decode, OpenDoc, TypeDoc, ColumnDocOk;
    var t := Decode(OpenDoc(AFTER));
    OpenDocRead(BEFORE);
    OpenDocRead(AFTER);
    TypeDocRead("integer");
    v := VObj(map["b" := VNull]);
    assert !Valid(Props(t)[1].schema, v.fields["b"], rx);
  }

  lemma OpenAllowed(rx: Matcher)
    requires Keyed(OpenDoc(BEFORE)) && Keyed(OpenDoc(AFTER))
    ensures StepAllowed(FreshVersion(Precedence.PlainText(1, 0, 0), OpenDoc(BEFORE), ModeBackward),
                        FreshVersion(Precedence.PlainText(1, 1, 0), OpenDoc(AFTER), ModeBackward), rx)
  {
    hide Parse, Keyed, Decode, OpenDoc, BuildReport, Compatible, Precedence.DetectBump, Precedence.TextCore,
         Precedence.PlainText;
    PlainCore(1, 0, 0);
    PlainCore(1, 1, 0);
    Precedence.BumpExact(Precedence.PlainText(1, 0, 0), Precedence.PlainText(1, 1, 0));
    OpenCompatible(rx);
    FullMeansBoth(Decode(OpenDoc(BEFORE)), Decode(OpenDoc(AFTER)), rx);
  }

  lemma FirstStored(st: State, text: Precedence.VersionText, schema: Document, mode: Mode, rx: Matcher)
    requires Single(st, rx) && st[0].versions == [] && Checkable(schema) && Accepted(schema)
    ensures
      var st' := CreateVersionStep(st, 0, text, schema, mode, rx).state;
      Single(st', rx) && st'[0].versions == [FreshVersion(text, schema, mode)]
  {
    hide Keyed, Parse, Accepted, Checkable, ContractOk;
    AddVersionKeeps(st[0], text, schema, mode, rx);
    assert VersionIndex([], text) == 0;
  }

  function OpenRun(before: Document, after: Document): seq<Call> {
    [CreateContract("orders", "order")] +
    [CreateVersion(0, Precedence.PlainText(1, 0, 0), before, ModeBackward)] +
    [CreateVersion(0, Precedence.PlainText(1, 1, 0), after, ModeBackward)]
  }

  lemma OpenRunSteps(before: Document, after: Document, rx: Matcher)
    ensures
      var st0 := [FreshContract("orders", "order")];
      var st1 := CreateVersionStep(st0, 0, Precedence.PlainText(1, 0, 0), before, ModeBackward, rx).state;
      Run(OpenRun(before, after), rx) ==
        CreateVersionStep(st1, 0, Precedence.PlainText(1, 1, 0), after, ModeBackward, rx).state
  {
    hide Run, CreateVersionStep, Keyed, Precedence.PlainText, Parse;
    var create := [CreateContract("orders", "order")];
    RunFirst(CreateContract("orders", "order"), rx);
    assert Apply([], create[0], rx) == [FreshContract("orders", "order")];
    RunVersion(create, Precedence.PlainText(1, 0, 0), before, ModeBackward, rx);
    RunVersion(create + [CreateVersion(0, Precedence.PlainText(1, 0, 0), before, ModeBackward)],
               Precedence.PlainText(1, 1, 0), after, ModeBackward, rx);
  }

  /**
   * Without the conditions the promise fails: a contract with open schemas gains a property in a minor version, and
   * data valid under the version before is no longer valid.
   */
  lemma OpenContractLosesData(rx: Matcher) returns (calls: seq<Call>, v: Value)
    ensures
      var st := Run(calls, rx);
      && |st| == 1 && |st[0].versions| == 2 && SameMajor(st[0], 0, 1)
      && !SafeChain(st[0], 0, 1)
      && Valid(SchemaAt(st[0], 0), v, rx) && !Valid(SchemaAt(st[0], 1), v, rx)
  {
    hide Run, Keyed, Decode, OpenDoc, SafeStep, Valid, Checkable, Accepted, ColumnEntries, StepAllowed, Parse,
         Precedence.PlainText;
    BothAccepted();
    OpenDocAccepted(BEFORE);
    OpenDocAccepted(AFTER);
    OpenAllowed(rx);
    v := ValueLost(rx);
    var before: Document, after: Document := OpenDoc(BEFORE), OpenDoc(AFTER);
    calls := OpenRun(before, after);
    OpenRunStored(before, after, rx);
    var c := Run(calls, rx)[0];
    if SafeChain(c, 0, 1) {
      DataStaysValid(calls, 0, 0, 1, v, rx);
    }
  }

  lemma OpenRunStored(before: Document, after: Document, rx: Matcher)
    requires Checkable(before) && Accepted(before) && Checkable(after) && Accepted(after)
    requires StepAllowed(FreshVersion(Precedence.PlainText(1, 0, 0), before, ModeBackward),
                         FreshVersion(Precedence.PlainText(1, 1, 0), after, ModeBackward), rx)
    ensures
      var st := Run(OpenRun(before, after), rx);
      && |st| == 1 && |st[0].versions| == 2 && SameMajor(st[0], 0, 1)
      && SchemaAt(st[0], 0) == Decode(before) && SchemaAt(st[0], 1) == Decode(after)
  {
    hide Run, Keyed, Decode, Checkable, Accepted, StepAllowed, CreateVersionStep, ContractOk, Precedence.PlainText,
         Precedence.TextCore, Parse;
    OpenRunSteps(before, after, rx);
    PlainCore(1, 0, 0);
    PlainCore(1, 1, 0);
    var st0 := [FreshContract("orders", "order")];
    FreshOk(st0[0], rx);
    FirstStored(st0, Precedence.PlainText(1, 0, 0), before, ModeBackward, rx);
    var st1 := CreateVersionStep(st0, 0, Precedence.PlainText(1, 0, 0), before, ModeBackward, rx).state;
    VersionStored(st1, Precedence.PlainText(1, 1, 0), after, ModeBackward, rx);
  }
}
