/** What a generated schema means for the rows of its table. */
module TableRows {
  import opened Wrappers
  import opened Documents
  import opened Schemas
  import opened Soundness
  import opened Profile
  import opened WellFormedness
  import opened CompatibilityOrder
  import opened Introspection

  // ---------- Names in the catalogue ----------

  predicate IsBlank(c: char) {
    c as int in {9, 10, 11, 12, 13, 28, 29, 30, 31, 32}
  }

  predicate Blank(s: string) {
    forall i | 0 <= i < |s| :: IsBlank(s[i])
  }

  /** The name stands in the text, in any letter case and with nothing but blanks around it. */
  ghost predicate NameIs(text: string, name: string) {
    exists pre, core, post ::
      text == pre + core + post && Blank(pre) && Blank(post) && SameLetters(core, name)
  }

  /** A name in lower case that neither starts nor ends with a blank. */
  predicate IsPlainName(name: string) {
    && name != "" && !IsBlank(name[0]) && !IsBlank(name[|name| - 1])
    && forall i | 0 <= i < |name| :: !('A' <= name[i] <= 'Z')
  }

  lemma LowerExact(s: string, name: string)
    requires forall i | 0 <= i < |name| :: !('A' <= name[i] <= 'Z')
    ensures Lower(s) == name <==> SameLetters(s, name)
  {
    if Lower(s) == name {
      forall i | 0 <= i < |s| ensures SameLetter(s[i], name[i]) {
        assert name[i] == Lower(s)[i];
      }
    }
  }

  lemma {:induction false} StripFrames(s: string) returns (pre: string, post: string)
    ensures s == pre + Strip(s) + post && Blank(pre) && Blank(post)
    decreases |s|
  {
    if s == "" {
      pre, post := "", "";
    } else if IsSpace(s[0]) {
      pre, post := StripFrames(s[1..]);
      pre := [s[0]] + pre;
      assert s == [s[0]] + s[1..];
    } else if IsSpace(s[|s| - 1]) {
      pre, post := StripFrames(s[..|s| - 1]);
      post := post + [s[|s| - 1]];
      assert s == s[..|s| - 1] + [s[|s| - 1]];
    } else {
      pre, post := "", "";
    }
  }

  lemma {:induction false} FramedStrips(pre: string, name: string, post: string)
    requires Blank(pre) && Blank(post) && name != "" && !IsBlank(name[0]) && !IsBlank(name[|name| - 1])
    ensures Strip(pre + name + post) == name
    decreases |pre| + |post|
  {
    var s := pre + name + post;
    if pre != [] {
      FramedStrips(pre[1..], name, post);
      assert s[0] == pre[0] && s[1..] == pre[1..] + name + post;
    } else if post != [] {
      FramedStrips(pre, name, post[..|post| - 1]);
      assert s[|s| - 1] == post[|post| - 1] && s[..|s| - 1] == pre + name + post[..|post| - 1];
      assert s[0] == name[0];
    } else {
      assert s == name;
    }
  }

  lemma LowerParts(pre: string, core: string, post: string)
    ensures Lower(pre + core + post) == Lower(pre) + Lower(core) + Lower(post)
  {
  }

  lemma LowerBlank(s: string)
    ensures |Lower(s)| == |s| && (Blank(Lower(s)) <==> Blank(s))
  {
    assert forall k | 0 <= k < |s| :: IsBlank(Lower(s)[k]) <==> IsBlank(s[k]);
  }

  lemma Cut(text: string, pre: string, core: string, post: string) returns (p: string, c: string, q: string)
    requires |text| == |pre| + |core| + |post|
    ensures text == p + c + q && |p| == |pre| && |c| == |core| && |q| == |post|
  {
    p, c, q := text[..|pre|], text[|pre|..|pre| + |core|], text[|pre| + |core|..];
  }

  lemma SameParts(p: string, c: string, q: string, p': string, c': string, q': string)
    requires p + c + q == p' + c' + q' && |p| == |p'| && |c| == |c'|
    ensures p == p' && c == c' && q == q'
  {
    assert p == (p + c + q)[..|p|] && p' == (p' + c' + q')[..|p'|];
    assert c == (p + c + q)[|p|..|p| + |c|] && c' == (p' + c' + q')[|p'|..|p'| + |c'|];
    assert q == (p + c + q)[|p| + |c|..] && q' == (p' + c' + q')[|p'| + |c'|..];
  }

  /** Lowering and stripping a text gives a name exactly when the name stands in the text. */
  lemma NameExact(text: string, name: string)
    requires IsPlainName(name)
    ensures Strip(Lower(text)) == name <==> NameIs(text, name)
  {
    hide Lower, Strip, Blank, IsBlank, SameLetters;
    if Strip(Lower(text)) == name {
      var pre, post := StripFrames(Lower(text));
      LowerBlank(text);
      var p, c, q := Cut(text, pre, name, post);
      LowerParts(p, c, q);
      LowerBlank(p);
      LowerBlank(c);
      LowerBlank(q);
      SameParts(Lower(p), Lower(c), Lower(q), pre, name, post);
      LowerExact(c, name);
    }
    if NameIs(text, name) {
      var p, c, q :| text == p + c + q && Blank(p) && Blank(q) && SameLetters(c, name);
      LowerParts(p, c, q);
      LowerBlank(p);
      LowerBlank(q);
      LowerExact(c, name);
      FramedStrips(Lower(p), name, Lower(q));
    }
  }

  // ---------- Types in the catalogue ----------

  /** The kinds of JSON values that columns hold. */
  datatype Kind = Texts | Integers | Numbers | Flags | Anything

  predicate Fits(kind: Kind, v: Value) {
    match kind
    case Texts => v.VStr?
    case Integers => v.VNum? && v.number.Floor as real == v.number
    case Numbers => v.VNum?
    case Flags => v.VBool?
    case Anything => true
  }

  /** Type names that are mapped alike, the values of such columns, and the format that is noted for them. */
  datatype TypeRow = TypeRow(dataTypes: seq<string>, udtNames: seq<string>, kind: Kind, format: Option<string>)

  const CATALOGUE := [
    TypeRow(["character varying", "character", "text"], ["varchar", "bpchar", "text"], Texts, None),
    TypeRow(["integer", "bigint", "smallint"], ["int2", "int4", "int8"], Integers, None),
    TypeRow(["numeric", "decimal"], ["numeric"], Numbers, None),
    TypeRow(["real", "double precision"], ["float4", "float8"], Numbers, None),
    TypeRow(["boolean"], ["bool"], Flags, None),
    TypeRow(["date"], ["date"], Texts, Some("date")),
    TypeRow(["timestamp without time zone", "timestamp with time zone"], ["timestamp", "timestamptz"], Texts,
            Some("date-time")),
    TypeRow(["json", "jsonb"], ["json", "jsonb"], Anything, None)]

  ghost predicate AnyOf(text: string, names: seq<string>) {
    exists k | 0 <= k < |names| :: NameIs(text, names[k])
  }

  ghost predicate Matches(c: Column, row: TypeRow) {
    AnyOf(c.dataType, row.dataTypes) || AnyOf(c.udtName, row.udtNames)
  }

  /** The first row of the table that the column's type names match. */
  ghost predicate RowAt(c: Column, k: nat) {
    k < |CATALOGUE| && Matches(c, CATALOGUE[k]) && forall j | 0 <= j < k :: !Matches(c, CATALOGUE[j])
  }

  predicate ArePlainNames(names: seq<string>) {
    forall k | 0 <= k < |names| :: IsPlainName(names[k])
  }

  lemma AnyOfExact(text: string, names: seq<string>)
    requires ArePlainNames(names)
    ensures Strip(Lower(text)) in names <==> AnyOf(text, names)
  {
    hide Strip, Lower, NameIs, IsPlainName;
    forall k | 0 <= k < |names| ensures Strip(Lower(text)) == names[k] <==> NameIs(text, names[k]) {
      NameExact(text, names[k]);
    }
  }

  lemma TextNamesPlain()
    ensures ArePlainNames(["character varying", "character", "text"])
    ensures ArePlainNames(["varchar", "bpchar", "text"])
  {
  }

  lemma IntegerNamesPlain()
    ensures ArePlainNames(["integer", "bigint", "smallint"]) && ArePlainNames(["int2", "int4", "int8"])
  {
  }

  lemma NumberNamesPlain()
    ensures ArePlainNames(["numeric", "decimal"]) && ArePlainNames(["numeric"])
    ensures ArePlainNames(["real", "double precision"]) && ArePlainNames(["float4", "float8"])
  {
  }

  lemma DateNamesPlain()
    ensures ArePlainNames(["date"]) && ArePlainNames(["timestamp", "timestamptz"])
  {
  }

  lemma TimestampNamesPlain()
    ensures ArePlainNames(["timestamp without time zone", "timestamp with time zone"])
  {
  }

  lemma OtherNamesPlain()
    ensures ArePlainNames(["boolean"]) && ArePlainNames(["bool"]) && ArePlainNames(["json", "jsonb"])
  {
  }

  lemma CataloguePlain(k: nat)
    requires k < |CATALOGUE|
    ensures ArePlainNames(CATALOGUE[k].dataTypes) && ArePlainNames(CATALOGUE[k].udtNames)
  {
    hide ArePlainNames;
    TextNamesPlain();
    IntegerNamesPlain();
    NumberNamesPlain();
    DateNamesPlain();
    TimestampNamesPlain();
    OtherNamesPlain();
  }

  /** The test of the mapping for one row. */
  predicate Listed(c: Column, row: TypeRow) {
    Strip(Lower(c.dataType)) in row.dataTypes || Strip(Lower(c.udtName)) in row.udtNames
  }

  lemma MatchesExact(c: Column, k: nat)
    requires k < |CATALOGUE|
    ensures Matches(c, CATALOGUE[k]) <==> Listed(c, CATALOGUE[k])
  {
    CataloguePlain(k);
    var row := CATALOGUE[k];
    hide CATALOGUE, Strip, Lower, AnyOf, ArePlainNames;
    AnyOfExact(c.dataType, row.dataTypes);
    AnyOfExact(c.udtName, row.udtNames);
  }

  /** The document that a row of the table stands for. */
  function RowDoc(row: TypeRow): Doc {
    match row.kind
    case Texts => if row.format.Some? then FormatDoc("string", row.format.value) else TypeDoc("string")
    case Integers => TypeDoc("integer")
    case Numbers => TypeDoc("number")
    case Flags => TypeDoc("boolean")
    case Anything => Obj([])
  }

  /** The mapping goes through the rows from the k-th on. */
  function Lookup(c: Column, k: nat): Option<Doc>
    requires k <= |CATALOGUE|
    decreases |CATALOGUE| - k
  {
    if k == |CATALOGUE| then None
    else if Listed(c, CATALOGUE[k]) then Some(RowDoc(CATALOGUE[k]))
    else Lookup(c, k + 1)
  }

  lemma MappedLookup(c: Column)
    ensures MapColumn(c) == Lookup(c, 0)
  {
    hide Strip, Lower;
    assert Lookup(c, 8) == None;
    assert Lookup(c, 7) == if Listed(c, CATALOGUE[7]) then Some(RowDoc(CATALOGUE[7])) else None;
  }

  lemma {:induction false} LookupFirst(c: Column, k: nat, n: nat)
    requires k <= n < |CATALOGUE| && RowAt(c, n)
    ensures Lookup(c, k) == Some(RowDoc(CATALOGUE[n]))
    decreases n - k
  {
    hide CATALOGUE, Listed, Matches, RowDoc;
    MatchesExact(c, k);
    if k < n {
      LookupFirst(c, k + 1, n);
    }
  }

  lemma {:induction false} LookupNone(c: Column, k: nat)
    requires k <= |CATALOGUE|
    ensures Lookup(c, k).None? <==> forall n | k <= n < |CATALOGUE| :: !Matches(c, CATALOGUE[n])
    decreases |CATALOGUE| - k
  {
    hide CATALOGUE, Listed, Matches, RowDoc;
    if k < |CATALOGUE| {
      MatchesExact(c, k);
      LookupNone(c, k + 1);
    }
  }

  // ---------- What a mapped type accepts ----------

  /** A document with a type, and perhaps a format, reads as a schema with these keywords alone. */
  lemma SmallRead(d: Doc)
    requires d.Obj? && 1 <= |d.entries| <= 2
    requires d.entries[0].key == "type" && d.entries[0].value.Str?
    requires |d.entries| == 2 ==> d.entries[1].key == "format" && d.entries[1].value.Str?
    ensures Get(d, "format") == if |d.entries| == 2 then d.entries[1].value else Null
    ensures
      var format := if |d.entries| == 2 then Some(d.entries[1].value.text) else None;
      Decode(d) == ANY.(typ := ReadType(d.entries[0].value), strings := StringRules(None, None, None, format))
  {
    hide Get, Has, At, Decode, ReadType;
    DialectKept(d);
    DecodeScalars(d);
    DecodeTable(d);
    DecodeEnum(d);
    SmallGets(d, "type");
    SmallGets(d, "format");
    NothingElse(d);
  }

  lemma SmallGets(d: Doc, key: string)
    requires d.Obj? && 1 <= |d.entries| <= 2
    requires d.entries[0].key == "type" && (|d.entries| == 2 ==> d.entries[1].key == "format")
    ensures key == "type" ==> Get(d, key) == d.entries[0].value
    ensures key == "format" ==> Get(d, key) == if |d.entries| == 2 then d.entries[1].value else Null
    ensures key !in ["type", "format"] ==> Get(d, key) == Null && !Has(d, key)
  {
    OneKey(d, key);
  }

  lemma NothingElse(d: Doc)
    requires d.Obj? && 1 <= |d.entries| <= 2
    requires d.entries[0].key == "type" && (|d.entries| == 2 ==> d.entries[1].key == "format")
    ensures Get(d, "minLength") == Get(d, "maxLength") == Get(d, "pattern") == Null
    ensures Get(d, "minimum") == Get(d, "maximum") == Get(d, "exclusiveMinimum") == Get(d, "exclusiveMaximum") == Null
    ensures Get(d, "minItems") == Get(d, "maxItems") == Get(d, "required") == Get(d, "additionalProperties") == Null
    ensures Get(d, "enum") == Null && !Has(d, "const") && !Has(d, "$schema")
    ensures !Has(d, "items") && !Has(d, "properties")
  {
    hide Get, Has;
    SmallGets(d, "minLength");
    SmallGets(d, "maxLength");
    SmallGets(d, "pattern");
    SmallGets(d, "minimum");
    SmallGets(d, "maximum");
    SmallGets(d, "exclusiveMinimum");
    SmallGets(d, "exclusiveMaximum");
    SmallGets(d, "minItems");
    SmallGets(d, "maxItems");
    SmallGets(d, "required");
    SmallGets(d, "additionalProperties");
    SmallGets(d, "enum");
    SmallGets(d, "const");
    SmallGets(d, "$schema");
    SmallGets(d, "items");
    SmallGets(d, "properties");
  }

  lemma TypeDocReads(name: string, v: Value, rx: Matcher)
    requires name in ["string", "integer", "number", "boolean"]
    ensures Valid(Decode(TypeDoc(name)), v, rx) <==> HasType(v, ReadType(Str(name)).value)
    ensures Get(TypeDoc(name), "format") == Null
  {
    hide Decode, Get;
    SmallRead(TypeDoc(name));
  }

  lemma FormatDocReads(format: string, v: Value, rx: Matcher)
    ensures Valid(Decode(FormatDoc("string", format)), v, rx) <==> v.VStr?
    ensures Get(FormatDoc("string", format), "format") == Str(format)
  {
    hide Decode, Get;
    SmallRead(FormatDoc("string", format));
  }

  lemma EmptyDocReads(v: Value, rx: Matcher)
    ensures Valid(Decode(Obj([])), v, rx) && Get(Obj([]), "format") == Null
  {
  }

  lemma KindsFormatted(k: nat)
    requires k < |CATALOGUE|
    ensures CATALOGUE[k].kind != Texts ==> CATALOGUE[k].format.None?
  {
  }

  lemma RowDocReads(row: TypeRow, v: Value, rx: Matcher)
    requires row.kind != Texts ==> row.format.None?
    ensures Valid(Decode(RowDoc(row)), v, rx) <==> Fits(row.kind, v)
    ensures Get(RowDoc(row), "format") == if row.format.Some? then Str(row.format.value) else Null
  {
    hide Decode, Valid, Get, TypeDoc, FormatDoc;
    match row.kind
    case Texts =>
      if row.format.Some? {
        FormatDocReads(row.format.value, v, rx);
      } else {
        TypeDocReads("string", v, rx);
      }
    case Integers => TypeDocReads("integer", v, rx);
    case Numbers => TypeDocReads("number", v, rx);
    case Flags => TypeDocReads("boolean", v, rx);
    case Anything => EmptyDocReads(v, rx);
  }

  /** A value that a column may hold: its type names match a row of the table, and the value is of the row's kind. */
  ghost predicate Holds(c: Column, v: Value) {
    exists k | 0 <= k < |CATALOGUE| :: RowAt(c, k) && Fits(CATALOGUE[k].kind, v)
  }

  lemma RowUnique(c: Column, k: nat, n: nat)
    requires RowAt(c, k) && RowAt(c, n)
    ensures k == n
  {
    hide CATALOGUE, Matches;
  }

  lemma FirstRow(c: Column, n: nat)
    requires n < |CATALOGUE| && Matches(c, CATALOGUE[n])
    ensures exists k | 0 <= k < |CATALOGUE| :: RowAt(c, k)
    decreases n
  {
    hide CATALOGUE, Matches;
    if j :| 0 <= j < n && Matches(c, CATALOGUE[j]) {
      FirstRow(c, j);
    } else {
      assert RowAt(c, n);
    }
  }

  /**
   * The mapping of a column's type: it fails exactly when no row of the table matches, and otherwise the schema
   * accepts exactly the values of the first matching row's kind and notes its format.
   */
  lemma TypesRead(c: Column, v: Value, rx: Matcher)
    ensures MapColumn(c).None? <==> forall k | 0 <= k < |CATALOGUE| :: !Matches(c, CATALOGUE[k])
    ensures MapColumn(c).Some? ==> (Valid(Decode(MapColumn(c).value), v, rx) <==> Holds(c, v))
    ensures forall k | 0 <= k < |CATALOGUE| && RowAt(c, k) :: MapColumn(c).Some? &&
              Get(MapColumn(c).value, "format") ==
                if CATALOGUE[k].format.Some? then Str(CATALOGUE[k].format.value) else Null
  {
    hide CATALOGUE, MapColumn, Matches, Lookup, RowAt, Decode, Valid, RowDoc, Get, Fits;
    MappedLookup(c);
    LookupNone(c, 0);
    forall k | 0 <= k < |CATALOGUE| && RowAt(c, k)
      ensures MapColumn(c) == Some(RowDoc(CATALOGUE[k]))
      ensures Valid(Decode(RowDoc(CATALOGUE[k])), v, rx) <==> Fits(CATALOGUE[k].kind, v)
      ensures Get(RowDoc(CATALOGUE[k]), "format") ==
              if CATALOGUE[k].format.Some? then Str(CATALOGUE[k].format.value) else Null
    {
      LookupFirst(c, 0, k);
      KindsFormatted(k);
      RowDocReads(CATALOGUE[k], v, rx);
    }
    if MapColumn(c).Some? {
      var n :| 0 <= n < |CATALOGUE| && Matches(c, CATALOGUE[n]);
      FirstRow(c, n);
      var k :| 0 <= k < |CATALOGUE| && RowAt(c, k);
      forall j | 0 <= j < |CATALOGUE| && RowAt(c, j) ensures j == k {
        RowUnique(c, j, k);
      }
    }
  }

  // ---------- Rows ----------

  /** A row has a value in every column that is not nullable, and no values but those its columns may hold. */
  ghost predicate RowOk(columns: seq<Column>, fields: map<string, Value>) {
    && (forall i | 0 <= i < |columns| && NotNull(columns[i]) :: columns[i].name in fields)
    && (forall name | name in fields :: InColumn(columns, name, fields[name]))
  }

  ghost predicate InColumn(columns: seq<Column>, name: string, v: Value) {
    exists i | 0 <= i < |columns| :: columns[i].name == name && Holds(columns[i], v)
  }

  /** The generated schema asks of an object what its parts say: required names, properties, and nothing else. */
  lemma GeneratedObject(d: Doc, s: Structure, primaryKeys: seq<string>)
    requires Generated(d, s, primaryKeys)
    ensures
      var t := Decode(d);
      && t.typ == Some(TObject) && !Finite(t) && !Open(t) && Required(t) == s.required
      && |Props(t)| == |s.properties|
      && forall k | 0 <= k < |Props(t)| :: Props(t)[k] == Property(s.properties[k].key, Decode(s.properties[k].value))
  {
    GeneratedTable(d, s, primaryKeys);
    RequiredNamesRead(d, s, primaryKeys);
    hide Has, At, Decode, NameDocs;
    DecodeTable(d);
    DecodeScalars(d);
    assert PropertyEntries(d) == s.properties by { GeneratedEntries(d, s, primaryKeys); }
  }

  lemma RequiredNamesRead(d: Doc, s: Structure, primaryKeys: seq<string>)
    requires Generated(d, s, primaryKeys)
    ensures Required(Decode(d)) == s.required
  {
    hide Has, At, Decode;
    DecodeTable(d);
    assert ReadNames(NameDocs(s.required)).value == s.required;
  }

  lemma ObjectAccepts(t: Schema, fields: map<string, Value>, rx: Matcher)
    requires t.typ == Some(TObject) && !Finite(t) && !Open(t)
    ensures Valid(t, VObj(fields), rx) <==>
            (forall k | 0 <= k < |Required(t)| :: Required(t)[k] in fields) && FieldsAccepted(t, fields, rx)
  {
  }

  lemma RequiredMeansNotNull(s: Structure, columns: seq<Column>, fields: map<string, Value>)
    requires RequiredFrom(s.required, columns)
    ensures (forall k | 0 <= k < |s.required| :: s.required[k] in fields) <==>
            (forall i | 0 <= i < |columns| && NotNull(columns[i]) :: columns[i].name in fields)
  {
    hide NotNull;
    if forall k | 0 <= k < |s.required| :: s.required[k] in fields {
      forall i | 0 <= i < |columns| && NotNull(columns[i]) ensures columns[i].name in fields {
        assert columns[i].name in s.required;
      }
    }
    if forall i | 0 <= i < |columns| && NotNull(columns[i]) :: columns[i].name in fields {
      forall k | 0 <= k < |s.required| ensures s.required[k] in fields {
        assert RequiredColumn(columns, s.required[k]);
      }
    }
  }

  /** The properties of an object accept its fields, and it has no others. */
  predicate FieldsAccepted(t: Schema, fields: map<string, Value>, rx: Matcher) {
    && (forall k | 0 <= k < |Props(t)| && Props(t)[k].name in fields ::
          Valid(Props(t)[k].schema, fields[Props(t)[k].name], rx))
    && (forall name | name in fields :: HasProp(t, name))
  }

  lemma ColumnAccepts(t: Schema, s: Structure, columns: seq<Column>, k: nat, v: Value, rx: Matcher)
    requires PropertiesFrom(s.properties, columns) && |Props(t)| == |s.properties| && k < |columns|
    requires Props(t)[k] == Property(s.properties[k].key, Decode(s.properties[k].value))
    ensures Props(t)[k].name == columns[k].name && (Valid(Props(t)[k].schema, v, rx) <==> Holds(columns[k], v))
  {
    hide MapColumn, Holds, Decode, Valid;
    TypesRead(columns[k], v, rx);
  }

  lemma FieldsMeanColumns(t: Schema, columns: seq<Column>, fields: map<string, Value>, rx: Matcher)
    requires |Props(t)| == |columns|
    requires forall k | 0 <= k < |columns| :: Props(t)[k].name == columns[k].name
    requires forall k | 0 <= k < |columns| && columns[k].name in fields ::
               Valid(Props(t)[k].schema, fields[columns[k].name], rx) <==> Holds(columns[k], fields[columns[k].name])
    requires forall i, j | 0 <= i < j < |columns| :: columns[i].name != columns[j].name
    ensures FieldsAccepted(t, fields, rx) <==> forall name | name in fields :: InColumn(columns, name, fields[name])
  {
    hide Holds, Valid;
    if FieldsAccepted(t, fields, rx) {
      forall name | name in fields ensures InColumn(columns, name, fields[name]) {
        assert HasProp(t, name);
        var k := PropIndex(Props(t), name);
        assert columns[k].name == name && Holds(columns[k], fields[name]);
      }
    }
    if forall name | name in fields :: InColumn(columns, name, fields[name]) {
      forall name | name in fields ensures HasProp(t, name) {
        assert InColumn(columns, name, fields[name]);
        var i :| 0 <= i < |columns| && columns[i].name == name && Holds(columns[i], fields[name]);
        assert Props(t)[i].name == name;
      }
      forall k | 0 <= k < |Props(t)| && Props(t)[k].name in fields
        ensures Valid(Props(t)[k].schema, fields[Props(t)[k].name], rx)
      {
        assert InColumn(columns, columns[k].name, fields[columns[k].name]);
      }
    }
  }

  /** The generated schema accepts exactly the rows of the table. */
  lemma RowsExact(columns: seq<Column>, primaryKeys: seq<string>, origin: string, v: Value, rx: Matcher)
    requires Mappable(columns, primaryKeys)
    ensures
      TableDocument(columns, primaryKeys, origin).Ok? &&
      (Valid(Decode(TableDocument(columns, primaryKeys, origin).value), v, rx) <==> v.VObj? && RowOk(columns, v.fields))
  {
    hide MapColumn, GeneratedSchema, Mirrors, Keyed, Accepted, Sealed, SelfConsistent, Decode, Valid, RowOk, Generated;
    GeneratedAccepted(columns, primaryKeys, origin, rx);
    var s := StructureOf(columns, |columns|).value;
    var d := GeneratedSchema(s, primaryKeys, origin);
    assert TableDocument(columns, primaryKeys, origin) == Ok(d);
    GeneratedLookups(s, primaryKeys, origin);
    RowsOfStructure(d, s, columns, primaryKeys, v, rx);
  }

  lemma RowsOfStructure(d: Doc, s: Structure, columns: seq<Column>, primaryKeys: seq<string>, v: Value, rx: Matcher)
    requires Generated(d, s, primaryKeys) && Mirrors(s, columns)
    requires forall i, j | 0 <= i < j < |columns| :: columns[i].name != columns[j].name
    ensures Valid(Decode(d), v, rx) <==> v.VObj? && RowOk(columns, v.fields)
  {
    hide Decode, Generated, PropertiesFrom, RequiredFrom, MapColumn, InColumn, NotNull, FieldsAccepted, Holds, Valid;
    GeneratedObject(d, s, primaryKeys);
    assert |s.properties| == |columns| by { PropertyCount(s, columns); }
    if v.VObj? {
      ObjectAccepts(Decode(d), v.fields, rx);
      RequiredMeansNotNull(s, columns, v.fields);
      forall k | 0 <= k < |columns|
        ensures Props(Decode(d))[k].name == columns[k].name
        ensures columns[k].name in v.fields ==>
                  (Valid(Props(Decode(d))[k].schema, v.fields[columns[k].name], rx) <==>
                   Holds(columns[k], v.fields[columns[k].name]))
      {
        var x := if columns[k].name in v.fields then v.fields[columns[k].name] else VNull;
        ColumnAccepts(Decode(d), s, columns, k, x, rx);
      }
      FieldsMeanColumns(Decode(d), columns, v.fields, rx);
    } else {
      NotAnObject(Decode(d), v, rx);
    }
  }

  lemma PropertyCount(s: Structure, columns: seq<Column>)
    requires PropertiesFrom(s.properties, columns)
    ensures |s.properties| == |columns|
  {
    hide MapColumn;
  }

  lemma NotAnObject(t: Schema, v: Value, rx: Matcher)
    requires t.typ == Some(TObject) && !v.VObj?
    ensures !Valid(t, v, rx)
  {
  }

  /** A valid row stays valid without a column exactly when the column is nullable. */
  lemma ColumnOptional(columns: seq<Column>, primaryKeys: seq<string>, origin: string, fields: map<string, Value>,
        i: nat, rx: Matcher)
    requires Mappable(columns, primaryKeys) && i < |columns| && columns[i].name in fields
    requires
      TableDocument(columns, primaryKeys, origin).Ok? &&
      Valid(Decode(TableDocument(columns, primaryKeys, origin).value), VObj(fields), rx)
    ensures
      var s := Decode(TableDocument(columns, primaryKeys, origin).value);
      Valid(s, VObj(fields - {columns[i].name}), rx) <==> !NotNull(columns[i])
  {
    hide MapColumn, TableDocument, Decode, Valid, InColumn, NotNull;
    RowsExact(columns, primaryKeys, origin, VObj(fields), rx);
    RowsExact(columns, primaryKeys, origin, VObj(fields - {columns[i].name}), rx);
    forall j | 0 <= j < |columns| && j != i ensures columns[j].name != columns[i].name {
      assert j < i || i < j;
    }
  }
}
