/** Contracts generated from PostgreSQL tables: the mapping of column types and the schema built from the columns. */
module Introspection {
  import opened Wrappers
  import opened Documents
  import opened Schemas
  import opened Rules
  import opened Profile
  import opened WellFormedness
  import opened CompatibilityOrder

  /** A row of the column catalogue. */
  datatype Column = Column(name: string, dataType: string, udtName: string, nullable: string)

  // ---------- Column types ----------

  function LowerChar(c: char): char {
    if 'A' <= c <= 'Z' then (c as int + 32) as char else c
  }

  function UpperChar(c: char): char {
    if 'a' <= c <= 'z' then (c as int - 32) as char else c
  }

  /** `s.lower()` on ASCII texts. */
  function Lower(s: string): string {
    seq(|s|, i requires 0 <= i < |s| => LowerChar(s[i]))
  }

  function Upper(s: string): string {
    seq(|s|, i requires 0 <= i < |s| => UpperChar(s[i]))
  }

  predicate IsSpace(c: char) {
    c == ' ' || 9 as char <= c <= 13 as char || 28 as char <= c <= 31 as char
  }

  /** `s.strip()` on ASCII texts. */
  function Strip(s: string): string {
    if s == "" then ""
    else if IsSpace(s[0]) then Strip(s[1..])
    else if IsSpace(s[|s| - 1]) then Strip(s[..|s| - 1])
    else s
  }

  function TypeDoc(name: string): Doc {
    Obj([Entry("type", Str(name))])
  }

  function FormatDoc(name: string, format: string): Doc {
    Obj([Entry("type", Str(name)), Entry("format", Str(format))])
  }

  function MapPostgresType(dataType: string, udtName: string): Option<Doc> {
    var data, udt := Strip(Lower(dataType)), Strip(Lower(udtName));
    if data in ["character varying", "character", "text"] || udt in ["varchar", "bpchar", "text"] then
      Some(TypeDoc("string"))
    else if data in ["integer", "bigint", "smallint"] || udt in ["int2", "int4", "int8"] then Some(TypeDoc("integer"))
    else if data in ["numeric", "decimal"] || udt == "numeric" then Some(TypeDoc("number"))
    else if data in ["real", "double precision"] || udt in ["float4", "float8"] then Some(TypeDoc("number"))
    else if data == "boolean" || udt == "bool" then Some(TypeDoc("boolean"))
    else if data == "date" || udt == "date" then Some(FormatDoc("string", "date"))
    else if data in ["timestamp without time zone", "timestamp with time zone"]
           || udt in ["timestamp", "timestamptz"] then
      Some(FormatDoc("string", "date-time"))
    else if data in ["json", "jsonb"] || udt in ["json", "jsonb"] then Some(Obj([]))
    else None
  }

  // ---------- The table structure ----------

  /** `d[key] = value`: an existing key keeps its place. */
  function Assign(entries: seq<Entry>, key: string, value: Doc): seq<Entry> {
    var i := IndexOf(entries, key);
    if i < |entries| then entries[i := Entry(key, value)] else entries + [Entry(key, value)]
  }

  datatype Structure = Structure(properties: seq<Entry>, required: seq<string>)

  function MapColumn(c: Column): Option<Doc> {
    MapPostgresType(c.dataType, c.udtName)
  }

  predicate IsRequired(c: Column) {
    Upper(c.nullable) != "YES"
  }

  /** Equal up to the case of ASCII letters. */
  predicate SameLetter(c: char, d: char) {
    || c == d
    || ('A' <= c <= 'Z' && d as int == c as int + 32)
    || ('a' <= c <= 'z' && d as int == c as int - 32)
  }

  predicate SameLetters(a: string, b: string) {
    |a| == |b| && forall i | 0 <= i < |a| :: SameLetter(a[i], b[i])
  }

  /** The catalogue does not say YES, in any letter case. */
  predicate NotNull(c: Column) {
    !SameLetters(c.nullable, "YES")
  }

  lemma UpperExact(s: string)
    ensures Upper(s) == "YES" <==> SameLetters(s, "YES")
  {
    if Upper(s) == "YES" {
      forall i | 0 <= i < |s| ensures SameLetter(s[i], "YES"[i]) {
        assert "YES"[i] == Upper(s)[i];
      }
    }
  }

  /** The structure of the first n columns, or the first column whose type has no mapping. */
  function StructureOf(columns: seq<Column>, n: nat): Result<Structure, Column>
    requires n <= |columns|
  {
    if n == 0 then Ok(Structure([], []))
    else
      match StructureOf(columns, n - 1)
      case Err(c) => Err(c)
      case Ok(s) =>
        var c := columns[n - 1];
        match MapColumn(c)
        case None => Err(c)
        case Some(doc) =>
          Ok(Structure(Assign(s.properties, c.name, doc), if IsRequired(c) then s.required + [c.name] else s.required))
  }

  lemma {:induction false} StructureStops(columns: seq<Column>, n: nat, m: nat)
    requires n <= m <= |columns| && StructureOf(columns, n).Err?
    ensures StructureOf(columns, m) == StructureOf(columns, n)
  {
    hide MapColumn, Assign, IsRequired;
    if n < m {
      StructureStops(columns, n, m - 1);
    }
  }

  predicate FirstUnmapped(columns: seq<Column>, i: nat)
    requires i < |columns|
  {
    MapColumn(columns[i]).None? && forall k | 0 <= k < i :: MapColumn(columns[k]).Some?
  }

  method LoadTableStructure(columns: seq<Column>) returns (r: Result<Structure, Column>)
    ensures r == StructureOf(columns, |columns|)
    ensures r.Ok? <==> forall i | 0 <= i < |columns| :: MapColumn(columns[i]).Some?
    ensures r.Err? ==> exists i | 0 <= i < |columns| :: r.error == columns[i] && FirstUnmapped(columns, i)
  {
    hide MapPostgresType, Upper, Assign;
    var properties: seq<Entry> := [];
    var required: seq<string> := [];
    for i := 0 to |columns|
      invariant StructureOf(columns, i) == Ok(Structure(properties, required))
      invariant forall k | 0 <= k < i :: MapColumn(columns[k]).Some?
    {
      var mapped := MapPostgresType(columns[i].dataType, columns[i].udtName);
      if mapped.None? {
        StructureStops(columns, i + 1, |columns|);
        assert FirstUnmapped(columns, i);
        return Err(columns[i]);
      }
      properties := Assign(properties, columns[i].name, mapped.value);
      if Upper(columns[i].nullable) != "YES" {
        required := required + [columns[i].name];
      }
    }
    return Ok(Structure(properties, required));
  }

  function NameDocs(names: seq<string>): Doc {
    Arr(seq(|names|, i requires 0 <= i < |names| => Str(names[i])))
  }

  function GeneratedSchema(s: Structure, primaryKeys: seq<string>, origin: string): Doc {
    Obj([
      Entry("$schema", Str("https://json-schema.org/draft/2020-12/schema")),
      Entry("type", Str("object")),
      Entry("properties", Obj(s.properties)),
      Entry("required", NameDocs(s.required)),
      Entry("additionalProperties", Bool(false)),
      Entry("description", Str("Generated from " + origin)),
      Entry("x-primaryKey", NameDocs(primaryKeys)),
      Entry("x-businessKey", Arr([]))])
  }

  // ---------- Generated schemas need no side conditions ----------

  /** Unconstrained, or a scalar or array type without items, number bounds and listed values; no objects. */
  predicate Simple(s: Schema) {
    IsAny(s) ||
    (&& s.typ.Some? && s.typ != Some(TObject) && s.items.None? && Props(s) == []
     && !Finite(s) && s.numbers == NO_NUMBER_RULES)
  }

  predicate ColumnDocOk(d: Doc) {
    Keyed(d) && MetaTyped(d) && ProfileOk(d, false) && Simple(Decode(d)) && Survives(d)
  }

  lemma OneKey(d: Doc, key: string)
    requires d.Obj? && |d.entries| <= 2
    requires |d.entries| >= 1 ==> d.entries[0].key == "type"
    requires |d.entries| == 2 ==> d.entries[1].key == "format"
    ensures Has(d, key) <==> (|d.entries| >= 1 && key == "type") || (|d.entries| == 2 && key == "format")
    ensures Has(d, "type") ==> At(d, "type") == d.entries[0].value
    ensures Has(d, "format") ==> At(d, "format") == d.entries[1].value
  {
  }

  lemma SmallDocOk(d: Doc)
    requires d.Obj? && |d.entries| <= 2
    requires |d.entries| >= 1 ==>
               d.entries[0].key == "type" && SimpleType(d.entries[0].value) && d.entries[0].value != Str("object")
    requires |d.entries| == 2 ==>
               d.entries[1].key == "format" && d.entries[1].value.Str? && d.entries[0].value == Str("string")
    ensures ColumnDocOk(d)
  {
    SmallKeyed(d);
    hide Has, At, Keyed, SimpleType;
    forall key
      ensures Has(d, key) <==> (|d.entries| >= 1 && key == "type") || (|d.entries| == 2 && key == "format")
    {
      OneKey(d, key);
    }
    OneKey(d, "type");
    assert KeysOk(d, false);
    assert TypeOk(d) by {
      if Has(d, "type") { TypeAllowed(d); }
    }
    hide TypeOk, KeysOk;
    SmallMeta(d);
    SmallProfile(d);
    MetaFacts(d);
    hide MetaScalars;
    SmallDecode(d);
    SmallSurvives(d);
  }

  lemma TypeAllowed(d: Doc)
    requires Has(d, "type") && SimpleType(At(d, "type"))
    ensures TypeOk(d)
  {
    hide Has, At;
  }

  lemma SmallKeyed(d: Doc)
    requires d.Obj? && |d.entries| <= 2
    requires |d.entries| >= 1 ==> d.entries[0].key == "type" && d.entries[0].value.Str?
    requires |d.entries| == 2 ==> d.entries[1].key == "format" && d.entries[1].value.Str?
    ensures Keyed(d)
  {
  }

  lemma SmallMeta(d: Doc)
    requires d.Obj?
    requires forall key | Has(d, key) :: key == "type" || key == "format"
    requires Has(d, "type") ==> SimpleType(At(d, "type"))
    requires Has(d, "format") ==> At(d, "format").Str?
    ensures MetaTyped(d)
  {
    hide Has, At, SimpleType;
  }

  lemma SmallProfile(d: Doc)
    requires d.Obj? && KeysOk(d, false) && TypeOk(d)
    requires forall key | Has(d, key) :: key == "type" || key == "format"
    requires Has(d, "format") ==> Has(d, "type") && At(d, "type") == Str("string")
    ensures ProfileOk(d, false)
  {
    hide Has, At, KeysOk, TypeOk;
    SmallKeywords(d);
  }

  lemma SmallSurvives(d: Doc)
    requires d.Obj?
    requires forall key | Has(d, key) :: key == "type" || key == "format"
    requires Has(d, "type") ==> At(d, "type").Str?
    ensures Survives(d)
  {
    hide Has, At;
  }

  lemma SmallKeywords(d: Doc)
    requires forall key | Has(d, key) :: key == "type" || key == "format"
    requires Has(d, "format") ==> Has(d, "type") && At(d, "type") == Str("string")
    ensures KeywordsOk(d)
  {
    hide Has, At;
  }

  lemma SmallAbsent(d: Doc)
    requires forall key | Has(d, key) :: key == "type" || key == "format"
    ensures Absence(d, NUMERIC_KEYWORDS) && Absence(d, ARRAY_KEYWORDS)
    ensures !Has(d, "$schema") && !Has(d, "const") && !Has(d, "enum")
    ensures !Has(d, "properties") && !Has(d, "required") && !Has(d, "additionalProperties")
    ensures !Has(d, "format") ==> Absence(d, STRING_KEYWORDS)
    ensures !Has(d, "type") ==> Absence(d, OTHER_KEYWORDS)
  {
    hide Has;
  }

  lemma SmallDecode(d: Doc)
    requires MetaScalars(d) && TypeOk(d)
    requires forall key | Has(d, key) :: key == "type" || key == "format"
    requires Has(d, "type") ==> At(d, "type") != Null && At(d, "type") != Str("object")
    requires Has(d, "format") ==> Has(d, "type")
    ensures Simple(Decode(d))
  {
    SmallAbsent(d);
    if Has(d, "type") {
      TypeKnown(d);
      TypeMeaning(d);
    }
    hide Has, At, Decode, Absence, MetaScalars, TypeOk, ReadType;
    AbsenceMeaning(d);
    DecodeScalars(d);
    DecodeTable(d);
    DecodeEnum(d);
    if !Has(d, "type") {
      NothingReadIsAny(d);
    }
  }

  lemma MappedOk(c: Column)
    requires MapColumn(c).Some?
    ensures ColumnDocOk(MapColumn(c).value)
  {
    var d := MapColumn(c).value;
    hide MapColumn, ColumnDocOk;
    MappedForm(c);
    SmallDocOk(d);
  }

  lemma MappedForm(c: Column)
    requires MapColumn(c).Some?
    ensures
      var d := MapColumn(c).value;
      || d == Obj([])
      || d == TypeDoc("string") || d == TypeDoc("integer") || d == TypeDoc("number") || d == TypeDoc("boolean")
      || d == FormatDoc("string", "date") || d == FormatDoc("string", "date-time")
  {
    hide Strip, Lower;
  }

  /** A table the generator is meant for: columns with distinct names and known types, keys among the columns. */
  predicate Mappable(columns: seq<Column>, primaryKeys: seq<string>) {
    && columns != []
    && (forall i, j | 0 <= i < j < |columns| :: columns[i].name != columns[j].name)
    && (forall i | 0 <= i < |columns| :: columns[i].name != "" && MapColumn(columns[i]).Some?)
    && Distinct(primaryKeys)
    && (forall k | 0 <= k < |primaryKeys| :: Named(columns, primaryKeys[k]))
  }

  predicate Named(columns: seq<Column>, name: string) {
    exists i | 0 <= i < |columns| :: columns[i].name == name
  }

  /** One property for each column, in order. */
  predicate PropertiesFrom(properties: seq<Entry>, columns: seq<Column>) {
    && |properties| == |columns|
    && forall i | 0 <= i < |columns| ::
         properties[i].key == columns[i].name && MapColumn(columns[i]) == Some(properties[i].value)
  }

  predicate RequiredColumn(columns: seq<Column>, name: string) {
    exists i | 0 <= i < |columns| :: columns[i].name == name && NotNull(columns[i])
  }

  /** The required names are those of the columns that are not nullable, once each. */
  predicate RequiredFrom(required: seq<string>, columns: seq<Column>) {
    && Distinct(required)
    && (forall k | 0 <= k < |required| :: RequiredColumn(columns, required[k]))
    && (forall i | 0 <= i < |columns| && NotNull(columns[i]) :: columns[i].name in required)
  }

  predicate Mirrors(s: Structure, columns: seq<Column>) {
    PropertiesFrom(s.properties, columns) && RequiredFrom(s.required, columns)
  }

  lemma {:induction false} StructureMirrors(columns: seq<Column>, n: nat)
    requires n <= |columns|
    requires forall i, j | 0 <= i < j < |columns| :: columns[i].name != columns[j].name
    requires forall i | 0 <= i < |columns| :: MapColumn(columns[i]).Some?
    ensures StructureOf(columns, n).Ok? && Mirrors(StructureOf(columns, n).value, columns[..n])
  {
    hide MapColumn, IsRequired;
    if n > 0 {
      StructureMirrors(columns, n - 1);
      MirrorsStep(columns, n, StructureOf(columns, n - 1).value);
    }
  }

  lemma MirrorsStep(columns: seq<Column>, n: nat, before: Structure)
    requires 0 < n <= |columns| && Mirrors(before, columns[..n - 1])
    requires forall i, j | 0 <= i < j < |columns| :: columns[i].name != columns[j].name
    requires MapColumn(columns[n - 1]).Some?
    ensures
      var c := columns[n - 1];
      Mirrors(Structure(Assign(before.properties, c.name, MapColumn(c).value),
                        if IsRequired(c) then before.required + [c.name] else before.required), columns[..n])
  {
    hide MapColumn, IsRequired, PropertiesFrom, RequiredFrom, Assign;
    var init, c := columns[..n - 1], columns[n - 1];
    assert columns[..n] == init + [c];
    forall i | 0 <= i < |init| ensures init[i].name != c.name {
      assert init[i] == columns[i];
    }
    PropertiesStep(init, c, before.properties);
    RequiredStep(init, c, before.required);
  }

  lemma PropertiesStep(init: seq<Column>, c: Column, properties: seq<Entry>)
    requires PropertiesFrom(properties, init) && MapColumn(c).Some?
    requires forall i | 0 <= i < |init| :: init[i].name != c.name
    ensures PropertiesFrom(Assign(properties, c.name, MapColumn(c).value), init + [c])
  {
    hide MapColumn;
    var i := IndexOf(properties, c.name);
    assert !(i < |properties|);
  }

  lemma RequiredStep(init: seq<Column>, c: Column, required: seq<string>)
    requires RequiredFrom(required, init)
    requires forall i | 0 <= i < |init| :: init[i].name != c.name
    ensures RequiredFrom(if IsRequired(c) then required + [c.name] else required, init + [c])
  {
    UpperExact(c.nullable);
    assert IsRequired(c) <==> NotNull(c);
    hide IsRequired, NotNull;
    var now, columns := if IsRequired(c) then required + [c.name] else required, init + [c];
    forall k | 0 <= k < |required| ensures required[k] != c.name && RequiredColumn(columns, required[k]) {
      assert RequiredColumn(init, required[k]);
      var i :| 0 <= i < |init| && init[i].name == required[k] && NotNull(init[i]);
      assert columns[i] == init[i];
    }
    if IsRequired(c) {
      assert columns[|init|] == c;
      assert RequiredColumn(columns, c.name);
    }
    forall i | 0 <= i < |columns| && NotNull(columns[i]) ensures columns[i].name in now {
      if i < |init| {
        assert init[i].name in required;
      }
    }
  }

  const GENERATED_KEYS := [
    "$schema", "type", "properties", "required", "additionalProperties", "description", "x-primaryKey", "x-businessKey"]

  ghost predicate Generated(d: Doc, s: Structure, primaryKeys: seq<string>) {
    && (forall key | Has(d, key) :: key in GENERATED_KEYS)
    && Has(d, "$schema") && At(d, "$schema").Str?
    && Has(d, "type") && At(d, "type") == Str("object")
    && Has(d, "properties") && At(d, "properties") == Obj(s.properties)
    && Has(d, "required") && At(d, "required") == NameDocs(s.required)
    && Has(d, "additionalProperties") && At(d, "additionalProperties") == Bool(false)
    && Has(d, "description") && At(d, "description").Str?
    && Has(d, "x-primaryKey") && At(d, "x-primaryKey") == NameDocs(primaryKeys)
    && Has(d, "x-businessKey") && At(d, "x-businessKey") == Arr([])
  }

  lemma KeyAt(d: Doc, i: nat)
    requires d.Obj? && i < |d.entries|
    requires forall j | 0 <= j < i :: d.entries[j].key != d.entries[i].key
    ensures Has(d, d.entries[i].key) && At(d, d.entries[i].key) == d.entries[i].value
  {
    assert !(i < IndexOf(d.entries, d.entries[i].key));
  }

  lemma GeneratedLookups(s: Structure, primaryKeys: seq<string>, origin: string)
    ensures Generated(GeneratedSchema(s, primaryKeys, origin), s, primaryKeys)
  {
    var d := GeneratedSchema(s, primaryKeys, origin);
    hide NameDocs, Has, At;
    GeneratedAt(s, primaryKeys, origin, 0);
    GeneratedAt(s, primaryKeys, origin, 1);
    GeneratedAt(s, primaryKeys, origin, 2);
    GeneratedAt(s, primaryKeys, origin, 3);
    GeneratedAt(s, primaryKeys, origin, 4);
    GeneratedAt(s, primaryKeys, origin, 5);
    GeneratedAt(s, primaryKeys, origin, 6);
    GeneratedAt(s, primaryKeys, origin, 7);
    forall key | Has(d, key) ensures key in GENERATED_KEYS {
      GeneratedOnly(s, primaryKeys, origin, key);
    }
  }

  lemma GeneratedAt(s: Structure, primaryKeys: seq<string>, origin: string, i: nat)
    requires i < 8
    ensures
      var d := GeneratedSchema(s, primaryKeys, origin);
      Has(d, GENERATED_KEYS[i]) && At(d, GENERATED_KEYS[i]) == d.entries[i].value
  {
    hide NameDocs, Has, At;
    var d := GeneratedSchema(s, primaryKeys, origin);
    assert forall j | 0 <= j < 8 :: d.entries[j].key == GENERATED_KEYS[j];
    KeysDistinct();
    KeyAt(d, i);
  }

  lemma KeysDistinct()
    ensures forall i, j | 0 <= i < j < 8 :: GENERATED_KEYS[i] != GENERATED_KEYS[j]
  {
  }

  lemma GeneratedOnly(s: Structure, primaryKeys: seq<string>, origin: string, key: string)
    requires Has(GeneratedSchema(s, primaryKeys, origin), key)
    ensures key in GENERATED_KEYS
  {
    hide NameDocs;
    var d := GeneratedSchema(s, primaryKeys, origin);
    assert forall j | 0 <= j < 8 :: d.entries[j].key == GENERATED_KEYS[j];
    assert d.entries[IndexOf(d.entries, key)].key == key;
  }

  lemma GeneratedKeyed(s: Structure, primaryKeys: seq<string>, origin: string)
    requires forall i, j | 0 <= i < j < |s.properties| :: s.properties[i].key != s.properties[j].key
    requires forall i | 0 <= i < |s.properties| :: Keyed(s.properties[i].value)
    ensures Keyed(GeneratedSchema(s, primaryKeys, origin))
  {
    var d := GeneratedSchema(s, primaryKeys, origin);
    assert Keyed(Obj(s.properties)) && Keyed(NameDocs(s.required)) && Keyed(NameDocs(primaryKeys)) && Keyed(Arr([]));
    forall i | 0 <= i < 8 ensures d.entries[i].key == GENERATED_KEYS[i] && Keyed(d.entries[i].value) {
    }
    assert forall i, j | 0 <= i < j < 8 :: GENERATED_KEYS[i] != GENERATED_KEYS[j];
  }

  /** The columns give the generated document what the validator asks of its parts. */
  predicate Shaped(s: Structure, primaryKeys: seq<string>) {
    && s.properties != []
    && (forall i | 0 <= i < |s.properties| :: s.properties[i].key != "" && ColumnDocOk(s.properties[i].value))
    && (forall i, j | 0 <= i < j < |s.properties| :: s.properties[i].key != s.properties[j].key)
    && NamesFrom(s, s.required) && NamesFrom(s, primaryKeys)
  }

  predicate NamesFrom(s: Structure, names: seq<string>) {
    Distinct(names) && forall k | 0 <= k < |names| :: names[k] != "" && IndexOf(s.properties, names[k]) < |s.properties|
  }

  lemma MirrorsShaped(s: Structure, columns: seq<Column>, primaryKeys: seq<string>)
    requires Mappable(columns, primaryKeys) && Mirrors(s, columns)
    ensures Shaped(s, primaryKeys)
  {
    hide MapColumn, ColumnDocOk, NotNull;
    forall i | 0 <= i < |s.properties| ensures s.properties[i].key != "" && ColumnDocOk(s.properties[i].value) {
      MappedOk(columns[i]);
    }
    forall i, j | 0 <= i < j < |s.properties| ensures s.properties[i].key != s.properties[j].key {
      assert columns[i].name != columns[j].name;
    }
    forall k | 0 <= k < |s.required|
      ensures s.required[k] != "" && IndexOf(s.properties, s.required[k]) < |s.properties|
    {
      assert RequiredColumn(columns, s.required[k]);
      var i :| 0 <= i < |columns| && columns[i].name == s.required[k] && NotNull(columns[i]);
      assert s.properties[i].key == s.required[k];
    }
    forall k | 0 <= k < |primaryKeys|
      ensures primaryKeys[k] != "" && IndexOf(s.properties, primaryKeys[k]) < |s.properties|
    {
      assert Named(columns, primaryKeys[k]);
      var i :| 0 <= i < |columns| && columns[i].name == primaryKeys[k];
      assert s.properties[i].key == primaryKeys[k];
    }
  }

  lemma GeneratedMeta(d: Doc, s: Structure, primaryKeys: seq<string>)
    requires d.Obj? && Generated(d, s, primaryKeys) && Shaped(s, primaryKeys)
    ensures MetaTyped(d)
  {
    NamesMeta(s.required);
    GeneratedScalars(d, s, primaryKeys);
    GeneratedAbsent(d, s, primaryKeys);
    GroupAbsences(d);
    hide Has, At, MetaScalars, Absence, NameDocs, Keyed, ProfileOk, Simple;
    assert PropertyEntries(d) == s.properties;
    forall i | 0 <= i < |PropertyEntries(d)| ensures MetaTyped(PropertyEntries(d)[i].value) {
      assert ColumnDocOk(s.properties[i].value);
    }
    assert MetaTyped(Bool(false));
  }

  lemma NamesMeta(names: seq<string>)
    requires Distinct(names)
    ensures MetaNames(NameDocs(names))
  {
    forall i, j | 0 <= i < j < |names| ensures NameDocs(names).elems[i] != NameDocs(names).elems[j] {
      assert NameDocs(names).elems[i] == Str(names[i]) && NameDocs(names).elems[j] == Str(names[j]);
    }
  }

  lemma NamesAccepted(d: Doc, s: Structure, names: seq<string>)
    requires Has(d, "properties") && At(d, "properties") == Obj(s.properties) && NamesFrom(s, names)
    ensures NamesOk(d, NameDocs(names))
  {
    hide Has, At;
    assert NamesOf(NameDocs(names)) == names;
    assert PropertyEntries(d) == s.properties;
  }

  lemma NotGenerated(key: string)
    requires key in GENERATED_KEYS
    ensures key !in STRING_KEYWORDS && key !in NUMERIC_KEYWORDS && key !in ARRAY_KEYWORDS
    ensures key != "const" && key != "enum" && key != "title"
  {
  }

  lemma GeneratedAbsent(d: Doc, s: Structure, primaryKeys: seq<string>)
    requires Generated(d, s, primaryKeys)
    ensures Absence(d, STRING_KEYWORDS) && Absence(d, NUMERIC_KEYWORDS) && Absence(d, ARRAY_KEYWORDS)
    ensures !Has(d, "const") && !Has(d, "enum") && !Has(d, "title")
  {
    hide Has, At, Generated, Absence;
    OnlyGenerated(d, s, primaryKeys);
    forall key | Has(d, key)
      ensures key !in STRING_KEYWORDS && key !in NUMERIC_KEYWORDS && key !in ARRAY_KEYWORDS
      ensures key != "const" && key != "enum" && key != "title"
    {
      NotGenerated(key);
    }
    AbsentGroup(d, STRING_KEYWORDS);
    AbsentGroup(d, NUMERIC_KEYWORDS);
    AbsentGroup(d, ARRAY_KEYWORDS);
  }

  lemma OnlyGenerated(d: Doc, s: Structure, primaryKeys: seq<string>)
    requires Generated(d, s, primaryKeys)
    ensures forall key | Has(d, key) :: key in GENERATED_KEYS
  {
    hide Has, At;
  }

  lemma AbsentGroup(d: Doc, keywords: seq<string>)
    requires forall key | Has(d, key) :: key !in keywords
    ensures Absence(d, keywords)
  {
    hide Has;
    forall i | 0 <= i < |keywords| ensures !Has(d, keywords[i]) {
      assert keywords[i] in keywords;
    }
  }

  lemma GeneratedScalars(d: Doc, s: Structure, primaryKeys: seq<string>)
    requires Generated(d, s, primaryKeys) && MetaNames(NameDocs(s.required))
    ensures MetaScalars(d)
  {
    GeneratedAbsent(d, s, primaryKeys);
    GroupAbsences(d);
    hide Has, At, MetaNames, MetaSize, NameDocs, Absence;
    assert SimpleType(Str("object"));
  }

  /** The keyword groups one by one. */
  lemma GroupAbsences(d: Doc)
    requires Absence(d, STRING_KEYWORDS) && Absence(d, NUMERIC_KEYWORDS) && Absence(d, ARRAY_KEYWORDS)
    ensures !Has(d, "format") && !Has(d, "minLength") && !Has(d, "maxLength") && !Has(d, "pattern")
    ensures !Has(d, "minimum") && !Has(d, "maximum") && !Has(d, "exclusiveMinimum") && !Has(d, "exclusiveMaximum")
    ensures !Has(d, "items") && !Has(d, "minItems") && !Has(d, "maxItems")
  {
    hide Has;
    AbsentKey(d, STRING_KEYWORDS, STRING_KEYWORDS[0]);
    AbsentKey(d, STRING_KEYWORDS, STRING_KEYWORDS[1]);
    AbsentKey(d, STRING_KEYWORDS, STRING_KEYWORDS[2]);
    AbsentKey(d, STRING_KEYWORDS, STRING_KEYWORDS[3]);
    AbsentKey(d, NUMERIC_KEYWORDS, NUMERIC_KEYWORDS[0]);
    AbsentKey(d, NUMERIC_KEYWORDS, NUMERIC_KEYWORDS[1]);
    AbsentKey(d, NUMERIC_KEYWORDS, NUMERIC_KEYWORDS[2]);
    AbsentKey(d, NUMERIC_KEYWORDS, NUMERIC_KEYWORDS[3]);
    AbsentKey(d, ARRAY_KEYWORDS, ARRAY_KEYWORDS[0]);
    AbsentKey(d, ARRAY_KEYWORDS, ARRAY_KEYWORDS[1]);
    AbsentKey(d, ARRAY_KEYWORDS, ARRAY_KEYWORDS[2]);
  }

  lemma UnboundedRanges(d: Doc)
    requires Absence(d, STRING_KEYWORDS) && Absence(d, NUMERIC_KEYWORDS) && Absence(d, ARRAY_KEYWORDS)
    ensures RangesOk(d) && KeywordsOk(d) && ItemsOk(d)
  {
    GroupAbsences(d);
    hide Has, At, Absence;
  }

  lemma GeneratedProfile(d: Doc, s: Structure, primaryKeys: seq<string>)
    requires d.Obj? && Generated(d, s, primaryKeys) && Shaped(s, primaryKeys) && KeysOk(d, true)
    ensures ProfileOk(d, true)
  {
    hide Has, At, KeysOk, Absence;
    GeneratedAbsent(d, s, primaryKeys);
    UnboundedRanges(d);
    NamesAccepted(d, s, s.required);
    NamesAccepted(d, s, primaryKeys);
    NamesAccepted(d, s, []);
    assert NameDocs([]) == Arr([]);
    assert PropertyEntries(d) == s.properties;
    hide RangesOk, KeywordsOk, ItemsOk, NamesOk;
    assert PropertiesOk(d) by {
      forall i | 0 <= i < |PropertyEntries(d)|
        ensures PropertyEntries(d)[i].key != "" && ProfileOk(PropertyEntries(d)[i].value, false)
      {
        assert ColumnDocOk(s.properties[i].value);
      }
    }
  }

  lemma GeneratedKeysOk(s: Structure, primaryKeys: seq<string>, origin: string)
    ensures KeysOk(GeneratedSchema(s, primaryKeys, origin), true)
  {
    hide NameDocs;
    assert forall i | 0 <= i < 8 :: Allowed(GENERATED_KEYS[i], true);
    assert forall i | 0 <= i < 8 :: GeneratedSchema(s, primaryKeys, origin).entries[i].key == GENERATED_KEYS[i];
  }

  lemma SimpleSealed(s: Schema, rx: Matcher)
    requires Simple(s)
    ensures Closed(s) && Dominated(s) && SelfConsistent(s, rx)
  {
  }

  lemma GeneratedSealed(d: Doc, s: Structure, primaryKeys: seq<string>, rx: Matcher)
    requires d.Obj? && Generated(d, s, primaryKeys) && Shaped(s, primaryKeys)
    ensures Closed(Decode(d)) && Dominated(Decode(d)) && SelfConsistent(Decode(d), rx)
  {
    GeneratedUnbounded(d, s, primaryKeys);
    GeneratedTable(d, s, primaryKeys);
    hide Has, At, Decode, Absence, Generated, MetaTyped, ProfileOk, Keyed, Survives, Simple, PropertyEntries;
    forall k | 0 <= k < |Props(Decode(d))|
      ensures Closed(Props(Decode(d))[k].schema) && Dominated(Props(Decode(d))[k].schema)
      ensures SelfConsistent(Props(Decode(d))[k].schema, rx)
    {
      assert ColumnDocOk(s.properties[k].value);
      SimpleSealed(Decode(s.properties[k].value), rx);
    }
  }

  lemma GeneratedTable(d: Doc, s: Structure, primaryKeys: seq<string>)
    requires Generated(d, s, primaryKeys)
    ensures
      var props := Props(Decode(d));
      && |props| == |s.properties|
      && forall k | 0 <= k < |props| :: props[k].schema == Decode(s.properties[k].value)
    ensures !Finite(Decode(d)) && !Open(Decode(d))
  {
    GeneratedAbsent(d, s, primaryKeys);
    hide Has, At, Decode, Absence;
    DecodeTable(d);
    DecodeEnum(d);
    assert PropertyEntries(d) == s.properties;
  }

  lemma GeneratedUnbounded(d: Doc, s: Structure, primaryKeys: seq<string>)
    requires Generated(d, s, primaryKeys)
    ensures Decode(d).items.None? && Decode(d).numbers == NO_NUMBER_RULES
  {
    GeneratedAbsent(d, s, primaryKeys);
    GroupAbsences(d);
    hide Has, At, Decode, Absence, Generated;
    DecodeScalars(d);
  }

  /**
   * Every table with mappable columns yields a schema the validator accepts, which meets every side condition of the
   * checker.
   */
  lemma GeneratedAccepted(columns: seq<Column>, primaryKeys: seq<string>, origin: string, rx: Matcher)
    requires Mappable(columns, primaryKeys)
    ensures
      StructureOf(columns, |columns|).Ok? &&
      var s := StructureOf(columns, |columns|).value;
      var d := GeneratedSchema(s, primaryKeys, origin);
      && Mirrors(s, columns) && Keyed(d) && Accepted(d)
      && Sealed(Decode(d)) && SelfConsistent(Decode(d), rx)
  {
    hide Mappable, MapColumn, Mirrors, Shaped, ProfileOk, MetaTyped, Closed, Dominated, SelfConsistent, WellFormed,
          Decode, Keyed, GeneratedSchema;
    MappableMirrored(columns, primaryKeys);
    var s := StructureOf(columns, |columns|).value;
    ShapedAccepted(s, primaryKeys, origin, rx);
    AcceptedIsWellFormed(GeneratedSchema(s, primaryKeys, origin));
  }

  lemma MappableMirrored(columns: seq<Column>, primaryKeys: seq<string>)
    requires Mappable(columns, primaryKeys)
    ensures
      && StructureOf(columns, |columns|).Ok?
      && Mirrors(StructureOf(columns, |columns|).value, columns)
      && Shaped(StructureOf(columns, |columns|).value, primaryKeys)
  {
    hide MapColumn, Mirrors, Shaped;
    StructureMirrors(columns, |columns|);
    assert columns[..|columns|] == columns;
    MirrorsShaped(StructureOf(columns, |columns|).value, columns, primaryKeys);
  }

  lemma ShapedAccepted(s: Structure, primaryKeys: seq<string>, origin: string, rx: Matcher)
    requires Shaped(s, primaryKeys)
    ensures
      var d := GeneratedSchema(s, primaryKeys, origin);
      && d.Obj? && Keyed(d) && MetaTyped(d) && ProfileOk(d, true)
      && Closed(Decode(d)) && Dominated(Decode(d)) && SelfConsistent(Decode(d), rx)
  {
    var d := GeneratedSchema(s, primaryKeys, origin);
    assert d.Obj?;
    ShapedParts(s, primaryKeys);
    hide Shaped, Generated, GeneratedSchema, ProfileOk, MetaTyped, Closed, Dominated, SelfConsistent, Decode, Keyed,
          KeysOk;
    GeneratedLookups(s, primaryKeys, origin);
    GeneratedKeyed(s, primaryKeys, origin);
    GeneratedKeysOk(s, primaryKeys, origin);
    GeneratedMeta(d, s, primaryKeys);
    GeneratedProfile(d, s, primaryKeys);
    GeneratedSealed(d, s, primaryKeys, rx);
  }

  lemma ShapedParts(s: Structure, primaryKeys: seq<string>)
    requires Shaped(s, primaryKeys)
    ensures forall i, j | 0 <= i < j < |s.properties| :: s.properties[i].key != s.properties[j].key
    ensures forall i | 0 <= i < |s.properties| :: Keyed(s.properties[i].value)
  {
    forall i | 0 <= i < |s.properties| ensures Keyed(s.properties[i].value) {
      assert ColumnDocOk(s.properties[i].value);
    }
  }

  // ---------- Generated documents ----------

  /** Whatever the columns are, their names are the keys of a dictionary and their types are column documents. */
  predicate Tabular(s: Structure) {
    && (forall i, j | 0 <= i < j < |s.properties| :: s.properties[i].key != s.properties[j].key)
    && (forall i | 0 <= i < |s.properties| :: ColumnDocOk(s.properties[i].value))
  }

  lemma {:induction false} StructureTabular(columns: seq<Column>, n: nat)
    requires n <= |columns| && StructureOf(columns, n).Ok?
    ensures Tabular(StructureOf(columns, n).value)
  {
    hide MapColumn, ColumnDocOk, IsRequired;
    if n > 0 {
      StructureTabular(columns, n - 1);
      MappedOk(columns[n - 1]);
    }
  }

  function GeneratedDocument(columns: seq<Column>, s: Structure, primaryKeys: seq<string>,
        origin: string): (d: Document)
    requires StructureOf(columns, |columns|) == Ok(s)
    ensures Checkable(d)
  {
    StructureTabular(columns, |columns|);
    GeneratedCheckable(s, primaryKeys, origin);
    GeneratedSchema(s, primaryKeys, origin)
  }

  lemma GeneratedCheckable(s: Structure, primaryKeys: seq<string>, origin: string)
    requires Tabular(s)
    ensures Keyed(GeneratedSchema(s, primaryKeys, origin)) && Checkable(GeneratedSchema(s, primaryKeys, origin))
  {
    var d := GeneratedSchema(s, primaryKeys, origin);
    assert d.Obj?;
    TabularParts(s);
    GeneratedKeyed(s, primaryKeys, origin);
    GeneratedLookups(s, primaryKeys, origin);
    hide GeneratedSchema, Keyed, Tabular;
    GeneratedSurvives(d, s, primaryKeys);
  }

  lemma TabularParts(s: Structure)
    requires Tabular(s)
    ensures forall i, j | 0 <= i < j < |s.properties| :: s.properties[i].key != s.properties[j].key
    ensures forall i | 0 <= i < |s.properties| :: Keyed(s.properties[i].value) && Survives(s.properties[i].value)
  {
    hide Keyed, Survives, MetaTyped, ProfileOk;
  }

  lemma GeneratedSurvives(d: Doc, s: Structure, primaryKeys: seq<string>)
    requires d.Obj? && Generated(d, s, primaryKeys)
    requires forall i | 0 <= i < |s.properties| :: Survives(s.properties[i].value)
    ensures Checkable(d)
  {
    GeneratedAbsent(d, s, primaryKeys);
    GroupAbsences(d);
    hide Has, At, Absence, NameDocs, PropertyEntries;
    GeneratedEntries(d, s, primaryKeys);
    SurvivesNode(d);
    assert NameDocs(s.required).Arr? by { NamesAreList(s.required); }
  }

  lemma NamesAreList(names: seq<string>)
    ensures NameDocs(names).Arr?
  {
  }

  lemma GeneratedEntries(d: Doc, s: Structure, primaryKeys: seq<string>)
    requires Generated(d, s, primaryKeys)
    ensures PropertyEntries(d) == s.properties
  {
    hide Has, At, NameDocs;
  }

  lemma SurvivesNode(d: Doc)
    requires Get(d, "type").Str? && !Has(d, "const") && !Has(d, "items")
    requires forall i | 0 <= i < |PropertyEntries(d)| :: Survives(PropertyEntries(d)[i].value)
    ensures Survives(d)
  {
    hide Has, At, PropertyEntries;
  }

  /** The document generated for a table, or the column whose type has no mapping. */
  function TableDocument(columns: seq<Column>, primaryKeys: seq<string>, origin: string): (r: Result<Document, Column>)
    ensures r.Ok? ==> Checkable(r.value)
  {
    match StructureOf(columns, |columns|)
    case Err(c) => Err(c)
    case Ok(s) => Ok(GeneratedDocument(columns, s, primaryKeys, origin))
  }
}
