/** The diff explains the report: every violation concerns something the diff lists. */
module DiffMeaning {
  import opened Enums
  import opened Wrappers
  import opened Texts
  import opened Documents
  import opened Schemas
  import opened Rules
  import opened Profile
  import opened CompatibilityOrder
  import opened WellFormedness
  import opened Diff

  // ---------- Documents with one value read as one schema ----------

  lemma SameScalars(a: Doc, b: Doc, key: string)
    requires Denote(a) == Denote(b)
    ensures ReadType(Get(a, key)) == ReadType(Get(b, key))
    ensures ReadNumber(Get(a, key)) == ReadNumber(Get(b, key))
    ensures ReadSize(Get(a, key)) == ReadSize(Get(b, key))
    ensures ReadText(Get(a, key)) == ReadText(Get(b, key))
    ensures ReadFlag(Get(a, key)) == ReadFlag(Get(b, key))
  {
    hide Get;
    SameValueLookup(a, b, key);
  }

  lemma SameLists(a: Doc, b: Doc, key: string)
    requires Denote(a) == Denote(b)
    ensures ReadValues(Get(a, key)) == ReadValues(Get(b, key))
    ensures ReadNames(Get(a, key)) == ReadNames(Get(b, key))
  {
    SameValueLookup(a, b, key);
    var x, y := Get(a, key), Get(b, key);
    if x.Arr? {
      assert |Denote(x).elems| == |x.elems| && |Denote(y).elems| == |y.elems|;
      assert forall i | 0 <= i < |x.elems| ::
        Denote(x.elems[i]) == Denote(x).elems[i] && Denote(y.elems[i]) == Denote(y).elems[i];
      assert ReadValues(x).value == ReadValues(y).value;
      assert ReadNames(x).value == ReadNames(y).value;
    }
  }

  lemma SameKeywordsRead(a: Doc, b: Doc)
    requires Denote(a) == Denote(b)
    ensures SameKeywords(Decode(a), Decode(b))
    ensures Has(a, "items") == Has(b, "items")
  {
    hide Decode, Denote, Get, Has, At, ReadType, ReadNumber, ReadSize, ReadText, ReadFlag, ReadValues, ReadNames;
    DecodeScalars(a);
    DecodeScalars(b);
    DecodeTable(a);
    DecodeTable(b);
    DecodeEnum(a);
    DecodeEnum(b);
    DialectKept(a);
    DialectKept(b);
    SameScalars(a, b, "type");
    SameScalars(a, b, "minLength");
    SameScalars(a, b, "maxLength");
    SameScalars(a, b, "pattern");
    SameScalars(a, b, "format");
    SameScalars(a, b, "minimum");
    SameScalars(a, b, "maximum");
    SameScalars(a, b, "exclusiveMinimum");
    SameScalars(a, b, "exclusiveMaximum");
    SameScalars(a, b, "minItems");
    SameScalars(a, b, "maxItems");
    SameScalars(a, b, "additionalProperties");
    SameLists(a, b, "enum");
    SameLists(a, b, "required");
    SameHad(a, b, "const");
    SameHad(a, b, "$schema");
    SameHad(a, b, "items");
  }

  lemma SameHad(a: Doc, b: Doc, key: string)
    requires Denote(a) == Denote(b)
    ensures Has(a, key) == Has(b, key)
    ensures Has(a, key) ==> Denote(At(a, key)) == Denote(At(b, key))
  {
    SameValueLookup(a, b, key);
  }

  lemma SameTable(a: Doc, b: Doc, name: string)
    requires Denote(a) == Denote(b)
    ensures (Has(a, "properties") && At(a, "properties").Obj?) == (Has(b, "properties") && At(b, "properties").Obj?)
    ensures IsDeclared(a, name) == IsDeclared(b, name)
    ensures IsDeclared(a, name) ==> Denote(PropertyAt(a, name)) == Denote(PropertyAt(b, name))
  {
    SameHad(a, b, "properties");
    if Has(a, "properties") && At(a, "properties").Obj? {
      DenoteLookup(At(a, "properties").entries, name);
      DenoteLookup(At(b, "properties").entries, name);
    }
  }

  /** Canonical JSON equality of two documents makes their schemas equal up to the order of properties. */
  lemma {:induction false} SameValueSimilar(a: Doc, b: Doc)
    requires Denote(a) == Denote(b) && Keyed(a) && Keyed(b)
    ensures Similar(Decode(a), Decode(b))
    decreases a
  {
    hide Decode, Denote, Similar, SameKeywords, Has, At, Keyed;
    SameKeywordsRead(a, b);
    SameHad(a, b, "items");
    SameTable(a, b, "");
    DecodeTable(a);
    DecodeTable(b);
    DecodeScalars(a);
    DecodeScalars(b);
    SubKeyed(a);
    SubKeyed(b);
    if Has(a, "items") {
      SameValueSimilar(At(a, "items"), At(b, "items"));
    }
    forall k | 0 <= k < |Props(Decode(a))|
      ensures HasProp(Decode(b), Props(Decode(a))[k].name)
      ensures Similar(Props(Decode(a))[k].schema, PropSchema(Decode(b), Props(Decode(a))[k].name))
    {
      SimilarProperty(a, b, k);
    }
    forall j | 0 <= j < |Props(Decode(b))| ensures HasProp(Decode(a), Props(Decode(b))[j].name) {
      SameName(a, b, j);
    }
    SimilarIntro(Decode(a), Decode(b));
  }

  lemma SimilarIntro(s: Schema, t: Schema)
    requires SameKeywords(s, t) && s.items.Some? == t.items.Some? && s.properties.Declared? == t.properties.Declared?
    requires s.items.Some? ==> Similar(s.items.value, t.items.value)
    requires forall k | 0 <= k < |Props(s)| ::
               HasProp(t, Props(s)[k].name) && Similar(Props(s)[k].schema, PropSchema(t, Props(s)[k].name))
    requires forall j | 0 <= j < |Props(t)| :: HasProp(s, Props(t)[j].name)
    ensures Similar(s, t)
  {
    hide SameKeywords;
  }

  lemma DeclaredAt(d: Doc, i: nat)
    requires Keyed(d) && i < |PropertyEntries(d)|
    ensures IsDeclared(d, PropertyEntries(d)[i].key)
    ensures PropertyAt(d, PropertyEntries(d)[i].key) == PropertyEntries(d)[i].value
  {
    SubKeyed(d);
    var k := IndexOf(PropertyEntries(d), PropertyEntries(d)[i].key);
    assert !(i < k) && !(k < i);
  }

  lemma PropertyRead(d: Doc, name: string)
    ensures IsDeclared(d, name) <==> HasProp(Decode(d), name)
    ensures IsDeclared(d, name) ==> PropSchema(Decode(d), name) == Decode(PropertyAt(d, name))
  {
    hide Decode;
    DecodeTable(d);
    SameIndex(Props(Decode(d)), PropertyEntries(d), name);
  }

  lemma SameName(a: Doc, b: Doc, j: nat)
    requires Denote(a) == Denote(b) && Keyed(b) && j < |Props(Decode(b))|
    ensures HasProp(Decode(a), Props(Decode(b))[j].name)
  {
    hide Decode, Denote, Keyed;
    DecodeTable(b);
    DeclaredAt(b, j);
    SameTable(a, b, PropertyEntries(b)[j].key);
    PropertyRead(a, PropertyEntries(b)[j].key);
  }

  lemma {:induction false} SimilarProperty(a: Doc, b: Doc, k: nat)
    requires Denote(a) == Denote(b) && Keyed(a) && Keyed(b) && k < |Props(Decode(a))|
    ensures
      var p := Props(Decode(a))[k];
      HasProp(Decode(b), p.name) && Similar(p.schema, PropSchema(Decode(b), p.name))
    decreases a, 0
  {
    hide Decode, Denote, Similar, Keyed;
    DecodeTable(a);
    DeclaredAt(a, k);
    var name := PropertyEntries(a)[k].key;
    SameTable(a, b, name);
    PropertyRead(b, name);
    SubKeyed(a);
    SubKeyed(b);
    SameValueSimilar(PropertyEntries(a)[k].value, PropertyAt(b, name));
  }

  // ---------- Where violations are ----------

  /** The path is the given one or lies below it. */
  predicate Under(base: string, path: string) {
    path == base || base + "." <= path
  }

  lemma UnderStep(base: string, name: string, path: string)
    requires base != "" && Under(Join(base, name), path)
    ensures Under(base, path)
  {
    assert Join(base, name) == base + "." + name;
    assert (base + ".") <= Join(base, name);
  }

  predicate AllUnder(violations: seq<Violation>, base: string) {
    forall i | 0 <= i < |violations| :: Under(base, violations[i].path)
  }

  lemma AllUnderStep(violations: seq<Violation>, base: string, name: string)
    requires base != "" && AllUnder(violations, Join(base, name))
    ensures AllUnder(violations, base)
  {
    forall i | 0 <= i < |violations| ensures Under(base, violations[i].path) {
      UnderStep(base, name, violations[i].path);
    }
  }

  lemma RequiredUnder(names: seq<string>, dir: Direction, base: string)
    requires base != ""
    ensures AllUnder(RequiredViolations(names, dir, base), base)
  {
    forall i | 0 <= i < |names| ensures Under(base, Join(base, names[i])) {
      UnderStep(base, names[i], Join(base, names[i]));
    }
  }

  lemma {:induction false} PropertyUnder(s: Schema, t: Schema, k: nat, rx: Matcher, dir: Direction, base: string)
    requires base != "" && k < |Props(s)|
    ensures AllUnder(PropertyViolations(s, t, k, rx, dir, base), Join(base, Props(s)[k].name))
    decreases s, 0
  {
    hide CheckSubset;
    var name := Props(s)[k].name;
    if HasProp(t, name) {
      CheckUnder(Props(s)[k].schema, PropSchema(t, name), rx, dir, Join(base, name));
    }
  }

  lemma {:induction false} PrefixUnder(s: Schema, t: Schema, n: nat, rx: Matcher, dir: Direction, base: string)
    requires base != "" && n <= |Props(s)|
    ensures AllUnder(PrefixViolations(s, t, n, rx, dir, base), base)
    decreases s, 1, n
  {
    hide PropertyViolations;
    if n > 0 {
      PrefixUnder(s, t, n - 1, rx, dir, base);
      PropertyUnder(s, t, n - 1, rx, dir, base);
      AllUnderStep(PropertyViolations(s, t, n - 1, rx, dir, base), base, Props(s)[n - 1].name);
    }
  }

  lemma {:induction false} CheckUnder(s: Schema, t: Schema, rx: Matcher, dir: Direction, base: string)
    requires base != ""
    ensures AllUnder(CheckSubset(s, t, rx, dir, base), base)
    decreases s, 3
  {
    hide ObjectViolations, ArrayViolations, StringViolations, NumericViolations, Valid;
    ObjectUnder(s, t, rx, dir, base);
    ArrayUnder(s, t, rx, dir, base);
    ScalarUnder(s, t, dir, base);
  }

  lemma ScalarUnder(s: Schema, t: Schema, dir: Direction, base: string)
    ensures AllUnder(StringViolations(s, t, dir, base), base)
    ensures AllUnder(NumericViolations(s, t, dir, base), base)
  {
    hide RaisesLeast, LowersMost, Narrows, LowerAtLeast, UpperAtMost;
  }

  lemma {:induction false} ObjectUnder(s: Schema, t: Schema, rx: Matcher, dir: Direction, base: string)
    requires base != ""
    ensures AllUnder(ObjectViolations(s, t, rx, dir, base), base)
    decreases s, 2
  {
    hide PrefixViolations, SortedDifference, RequiredViolations;
    PrefixUnder(s, t, |Props(s)|, rx, dir, base);
    RequiredUnder(SortedDifference(Required(t), Required(s)), dir, base);
  }

  lemma {:induction false} ArrayUnder(s: Schema, t: Schema, rx: Matcher, dir: Direction, base: string)
    requires base != ""
    ensures AllUnder(ArrayViolations(s, t, rx, dir, base), base)
    decreases s, 2
  {
    hide CheckSubset;
    var inner := Join(base, "items");
    UnderStep(base, "items", inner);
    if s.items.Some? && t.items.Some? {
      CheckUnder(s.items.value, t.items.value, rx, dir, inner);
      AllUnderStep(CheckSubset(s.items.value, t.items.value, rx, dir, inner), base, "items");
    }
  }

  // ---------- The report read off the diff ----------

  /** The change that the diff lists for a property. */
  ghost function ChangeOf(diff: SchemaDiff, name: string): (c: Change)
    requires ChangedIn(diff, name)
    ensures c in diff.changed && c.name == name
  {
    var i :| 0 <= i < |diff.changed| && diff.changed[i].name == name;
    diff.changed[i]
  }

  /**
   * What one direction of the report says about a property of the source, where the diff leads from the source to
   * the target: a removed property is reported when the target is closed, a changed one through its two schemas.
   */
  ghost function FromEntry(diff: SchemaDiff, name: string, closed: bool, rx: Matcher, dir: Direction): seq<Violation> {
    if name in diff.removed then Report1(closed, PropertyRemoved, dir, Join("$", name))
    else if ChangedIn(diff, name) then
      var c := ChangeOf(diff, name);
      CheckSubset(Decode(c.before), Decode(c.after), rx, dir, Join("$", name))
    else []
  }

  ghost function FromEntries(diff: SchemaDiff, names: seq<string>, n: nat, closed: bool, rx: Matcher,
        dir: Direction): seq<Violation>
    requires n <= |names|
  {
    if n == 0 then []
    else FromEntries(diff, names, n - 1, closed, rx, dir) + FromEntry(diff, names[n - 1], closed, rx, dir)
  }

  /** The diff lists that additional properties were accepted and no longer are. */
  predicate Closes(diff: SchemaDiff) {
    && diff.additionalChanged.Some?
    && diff.additionalChanged.value.before == Bool(true) && diff.additionalChanged.value.after == Bool(false)
  }

  /**
   * One direction of the report: the newly required names, the removed and changed properties in the order in which
   * the source declares them, and the closing of additional properties.
   */
  ghost function FromDiff(diff: SchemaDiff, names: seq<string>, closed: bool, rx: Matcher,
        dir: Direction): seq<Violation> {
    RequiredViolations(diff.requiredAdded, dir, "$") +
    FromEntries(diff, names, |names|, closed, rx, dir) +
    Report1(Closes(diff), AdditionalClosed, dir, "$")
  }

  /** An accepted root without listed values. */
  predicate Comparable(d: Doc) {
    Keyed(d) && Accepted(d) && !Finite(Decode(d))
  }

  /** The property schemas of the root accept the values they list. */
  predicate Consistent(d: Doc, rx: Matcher) {
    forall k | 0 <= k < |Props(Decode(d))| :: SelfConsistent(Props(Decode(d))[k].schema, rx)
  }

  lemma RequiredRead(d: Doc)
    ensures RequiredNames(d) == Required(Decode(d))
  {
    hide Decode;
    DecodeTable(d);
  }

  /** What the entries of the diff stand for. */
  lemma DiffEntries(base: Doc, candidate: Doc, name: string)
    ensures
      var diff := DiffOf(base, candidate);
      && (name in diff.added <==> IsDeclared(candidate, name) && !IsDeclared(base, name))
      && (name in diff.removed <==> IsDeclared(base, name) && !IsDeclared(candidate, name))
      && (ChangedIn(diff, name) <==> Differs(base, candidate, name))
      && (name in diff.requiredAdded <==> name in Required(Decode(candidate)) && name !in Required(Decode(base)))
      && (name in diff.requiredRemoved <==> name in Required(Decode(base)) && name !in Required(Decode(candidate)))
    ensures forall c | c in DiffOf(base, candidate).changed :: IsChange(base, candidate, c)
  {
    ChangedExactly(base, candidate, name);
    hide Decode, Denote, Changes, Common, IsDeclared, PropertyNames, RequiredNames, FlagOf, ExtensionsOf, ChangedIn,
          Differs, IsChange;
    RequiredRead(base);
    RequiredRead(candidate);
    NameIsDeclared(base, name);
    NameIsDeclared(candidate, name);
  }

  function SettingOf(d: Doc, key: string, default: Value): Value {
    if Has(d, key) then Denote(At(d, key)) else default
  }

  function ExtensionValue(d: Doc): Value {
    VObj(map["x-primaryKey" := SettingOf(d, "x-primaryKey", VArr([])),
             "x-businessKey" := SettingOf(d, "x-businessKey", VArr([]))])
  }

  /** An entry for a change is there exactly when the values differ, and leads from the one to the other. */
  predicate ShowsChange(c: Option<Change>, before: Value, after: Value) {
    if before == after then c.None? else c.Some? && Denote(c.value.before) == before && Denote(c.value.after) == after
  }

  /** Settings: additional properties, by default accepted, and the extension keys, by default empty. */
  lemma DiffSettings(base: Doc, candidate: Doc)
    ensures
      var diff := DiffOf(base, candidate);
      && ShowsChange(diff.additionalChanged, SettingOf(base, "additionalProperties", VBool(true)),
                     SettingOf(candidate, "additionalProperties", VBool(true)))
      && ShowsChange(diff.extensionsChanged, ExtensionValue(base), ExtensionValue(candidate))
  {
    FlagDenoted(base);
    FlagDenoted(candidate);
    ExtensionsDenoted(base);
    ExtensionsDenoted(candidate);
    hide Denote, FlagOf, ExtensionsOf, Changes, Common, PropertyNames, RequiredNames, SortedDifference, SettingOf;
  }

  lemma FlagDenoted(d: Doc)
    ensures Denote(FlagOf(d)) == SettingOf(d, "additionalProperties", VBool(true))
  {
  }

  lemma ExtensionsDenoted(d: Doc)
    ensures Denote(ExtensionsOf(d)) == ExtensionValue(d)
  {
    hide Has, At;
    assert Denote(Arr([])) == VArr([]);
    var entries := ExtensionsOf(d).entries;
    assert DenoteEntries(entries[1..][1..]) == map[];
    assert DenoteEntries(entries[1..]) == map["x-businessKey" := SettingOf(d, "x-businessKey", VArr([]))];
    assert DenoteEntries(entries) == ExtensionValue(d).fields;
  }

  lemma WellFormedProperty(d: Doc, name: string)
    requires Keyed(d) && Accepted(d) && IsDeclared(d, name)
    ensures WellFormed(Decode(PropertyAt(d, name)))
  {
    hide Accepted, Decode;
    AcceptedIsWellFormed(d);
    DecodeTable(d);
    var i := IndexOf(PropertyEntries(d), name);
    assert WellFormed(Props(Decode(d))[i].schema);
  }

  /** The schemas that two documents declare for a property that the diff does not list as changed. */
  lemma UnchangedSimilar(s: Doc, t: Doc, k: nat)
    requires Comparable(s) && Comparable(t) && k < |Props(Decode(s))|
    requires
      var name := Props(Decode(s))[k].name;
      IsDeclared(t, name) && !Differs(s, t, name)
    ensures
      var p := Props(Decode(s))[k];
      && HasProp(Decode(t), p.name) && Similar(p.schema, PropSchema(Decode(t), p.name))
      && WellFormed(p.schema) && WellFormed(PropSchema(Decode(t), p.name))
  {
    hide Decode, Denote, Similar, WellFormed, Accepted;
    var name := Props(Decode(s))[k].name;
    DecodeTable(s);
    DeclaredAt(s, k);
    PropertyRead(t, name);
    SubKeyed(s);
    SubKeyed(t);
    SameValueSimilar(PropertyEntries(s)[k].value, PropertyAt(t, name));
    WellFormedProperty(s, name);
    WellFormedProperty(t, name);
  }

  lemma UnchangedSilent(s: Doc, t: Doc, k: nat, rx: Matcher, dir: Direction)
    requires Comparable(s) && Comparable(t) && k < |Props(Decode(s))|
    requires
      var name := Props(Decode(s))[k].name;
      IsDeclared(t, name) && !Differs(s, t, name)
    ensures PropertyOk(Decode(s), Decode(t), k, rx) <==> SelfConsistent(Props(Decode(s))[k].schema, rx)
    ensures PropertyViolations(Decode(s), Decode(t), k, rx, dir, "$") == [] <==>
            SelfConsistent(Props(Decode(s))[k].schema, rx)
  {
    hide Decode, Denote, CheckSubset, Compatible, Similar, WellFormed, Comparable, SelfConsistent;
    UnchangedSimilar(s, t, k);
    SimilarCompatible(Props(Decode(s))[k].schema, PropSchema(Decode(t), Props(Decode(s))[k].name), rx);
    PropertySilent(Decode(s), Decode(t), k, rx, dir, "$");
  }

  /** The report of one property is what the diff says about it. */
  lemma PropertyFromEntry(s: Doc, t: Doc, k: nat, rx: Matcher, dir: Direction)
    requires Comparable(s) && Comparable(t) && Consistent(s, rx) && k < |Props(Decode(s))|
    ensures PropertyViolations(Decode(s), Decode(t), k, rx, dir, "$") ==
            FromEntry(DiffOf(s, t), PropertyEntries(s)[k].key, !Open(Decode(t)), rx, dir)
  {
    var name := PropertyEntries(s)[k].key;
    hide Decode, Denote, CheckSubset, Accepted, SelfConsistent, DiffOf, IsDeclared;
    DecodeTable(s);
    DeclaredAt(s, k);
    PropertyRead(t, name);
    DiffEntries(s, t, name);
    if IsDeclared(t, name) && !Differs(s, t, name) {
      UnchangedSilent(s, t, k, rx, dir);
    } else if IsDeclared(t, name) {
      assert IsChange(s, t, ChangeOf(DiffOf(s, t), name));
    }
  }

  lemma {:induction false} PrefixFromEntries(s: Doc, t: Doc, n: nat, rx: Matcher, dir: Direction)
    requires Comparable(s) && Comparable(t) && Consistent(s, rx) && n <= |PropertyNames(s)|
    ensures |Props(Decode(s))| == |PropertyNames(s)|
    ensures PrefixViolations(Decode(s), Decode(t), n, rx, dir, "$") ==
            FromEntries(DiffOf(s, t), PropertyNames(s), n, !Open(Decode(t)), rx, dir)
  {
    hide Decode, Comparable, Consistent, PropertyViolations, FromEntry, DiffOf;
    DecodeTable(s);
    if n > 0 {
      PrefixFromEntries(s, t, n - 1, rx, dir);
      PropertyFromEntry(s, t, n - 1, rx, dir);
    }
  }

  lemma FlagRead(d: Doc)
    requires Comparable(d)
    ensures FlagOf(d) == Bool(Open(Decode(d)))
  {
    hide MetaTyped, Decode, Keyed, WellFormed;
    ProfileMeaning(d, true);
    ExpressibleSplit(d, true);
    DecodeTable(d);
  }

  lemma ClosingListed(s: Doc, t: Doc)
    requires Comparable(s) && Comparable(t)
    ensures Closes(DiffOf(s, t)) <==> Open(Decode(s)) && !Open(Decode(t))
  {
    FlagRead(s);
    FlagRead(t);
    hide Decode, Comparable, FlagOf, Common, Changes, PropertyNames, RequiredNames, ExtensionsOf, SortedDifference;
  }

  lemma RootIsObject(d: Doc)
    requires Comparable(d)
    ensures IsObject(Decode(d))
  {
    hide Decode, Accepted, WellFormed;
    AcceptedIsWellFormed(d);
  }

  lemma RootViolations(a: Schema, b: Schema, rx: Matcher, dir: Direction)
    requires IsObject(a) && IsObject(b)
    ensures CheckSubset(a, b, rx, dir, "$") ==
            RequiredViolations(SortedDifference(Required(b), Required(a)), dir, "$") +
            PrefixViolations(a, b, |Props(a)|, rx, dir, "$") +
            Report1(Open(a) && !Open(b), AdditionalClosed, dir, "$")
  {
    hide PrefixViolations, RequiredViolations, SortedDifference;
    assert CheckSubset(a, b, rx, dir, "$") == ObjectViolations(a, b, rx, dir, "$");
    assert ObjectViolations(a, b, rx, dir, "$") ==
           RequiredViolations(SortedDifference(Required(b), Required(a)), dir, "$") +
           PrefixViolations(a, b, |Props(a)|, rx, dir, "$") +
           Report1(Open(a) && !Open(b), AdditionalClosed, dir, Here("$"));
  }

  lemma RequiredListed(s: Doc, t: Doc)
    ensures DiffOf(s, t).requiredAdded == SortedDifference(Required(Decode(t)), Required(Decode(s)))
  {
    hide Decode, Denote, Changes, Common, PropertyNames, RequiredNames, FlagOf, ExtensionsOf, SortedDifference;
    RequiredRead(s);
    RequiredRead(t);
  }

  lemma DirectionFromDiff(s: Doc, t: Doc, rx: Matcher, dir: Direction)
    requires Comparable(s) && Comparable(t) && Consistent(s, rx)
    ensures CheckSubset(Decode(s), Decode(t), rx, dir, "$") ==
            FromDiff(DiffOf(s, t), PropertyNames(s), !Open(Decode(t)), rx, dir)
  {
    hide Decode, Comparable, Consistent, PrefixViolations, FromEntries, CheckSubset, DiffOf, Closes;
    RootIsObject(s);
    RootIsObject(t);
    RootViolations(Decode(s), Decode(t), rx, dir);
    RequiredListed(s, t);
    PrefixFromEntries(s, t, |PropertyNames(s)|, rx, dir);
    ClosingListed(s, t);
  }

  /**
   * The diff determines the report. Read from the base to the candidate it gives the backward violations, read the
   * other way the forward ones: neither direction reports anything that the diff does not list, and each entry shows
   * in the direction it restricts.
   */
  lemma DiffExplainsReport(base: Doc, candidate: Doc, rx: Matcher)
    requires Comparable(base) && Comparable(candidate) && Consistent(base, rx) && Consistent(candidate, rx)
    ensures
      var diff := DiffOf(base, candidate);
      BuildReport(Decode(base), Decode(candidate), rx).violations ==
        FromDiff(diff, PropertyNames(base), !Open(Decode(candidate)), rx, Backward) +
        FromDiff(Reversed(diff), PropertyNames(candidate), !Open(Decode(base)), rx, Forward)
  {
    hide Comparable, Consistent, Decode, CheckSubset, FromDiff, DiffOf, Reversed;
    DiffSwap(base, candidate);
    DirectionFromDiff(base, candidate, rx, Backward);
    DirectionFromDiff(candidate, base, rx, Forward);
  }

  // ---------- Diffs without changes ----------

  /** The diff lists nothing, except perhaps a change of the extension keys. */
  predicate Unchanged(diff: SchemaDiff) {
    && diff.added == [] && diff.removed == [] && diff.changed == []
    && diff.requiredAdded == [] && diff.requiredRemoved == [] && diff.additionalChanged.None?
  }

  lemma UnchangedSwap(base: Doc, candidate: Doc)
    requires Unchanged(DiffOf(base, candidate))
    ensures Unchanged(DiffOf(candidate, base))
  {
    hide DiffOf;
    DiffSwap(base, candidate);
  }

  lemma UnchangedFlag(s: Doc, t: Doc)
    requires Comparable(s) && Comparable(t) && Unchanged(DiffOf(s, t))
    ensures Open(Decode(s)) == Open(Decode(t))
  {
    FlagRead(s);
    FlagRead(t);
    hide Decode, Comparable, FlagOf, Common, Changes, PropertyNames, RequiredNames, ExtensionsOf, SortedDifference;
  }

  lemma UnchangedObjects(s: Doc, t: Doc, rx: Matcher)
    requires Comparable(s) && Comparable(t) && Unchanged(DiffOf(s, t))
    ensures ObjectsOk(Decode(s), Decode(t), rx) <==> Consistent(s, rx)
  {
    var a, b := Decode(s), Decode(t);
    hide Decode, Comparable, DiffOf, Compatible, SelfConsistent, IsDeclared, Differs, PropertyEntries, PropertyOk;
    UnchangedFlag(s, t);
    RequiredListed(s, t);
    NoneMissing(Required(b), Required(a));
    forall k | 0 <= k < |Props(a)|
      ensures PropertyOk(a, b, k, rx) <==> SelfConsistent(Props(a)[k].schema, rx)
    {
      UnchangedEntry(s, t, k);
      UnchangedSilent(s, t, k, rx, Backward);
    }
  }

  lemma UnchangedEntry(s: Doc, t: Doc, k: nat)
    requires Comparable(s) && Unchanged(DiffOf(s, t)) && k < |Props(Decode(s))|
    ensures
      var name := Props(Decode(s))[k].name;
      IsDeclared(t, name) && !Differs(s, t, name)
  {
    hide Decode, Accepted, DiffOf, Denote;
    DecodeTable(s);
    DeclaredAt(s, k);
    DiffEntries(s, t, Props(Decode(s))[k].name);
  }

  lemma ConsistentTogether(s: Doc, t: Doc, rx: Matcher)
    requires Comparable(s) && Comparable(t) && Unchanged(DiffOf(s, t)) && Consistent(s, rx)
    ensures Consistent(t, rx)
  {
    hide Decode, Comparable, DiffOf, SelfConsistent, IsDeclared, Differs, PropertyEntries, Similar, WellFormed;
    UnchangedSwap(s, t);
    var a, b := Decode(s), Decode(t);
    forall j | 0 <= j < |Props(b)| ensures SelfConsistent(Props(b)[j].schema, rx) {
      UnchangedEntry(t, s, j);
      UnchangedSimilar(t, s, j);
      SimilarConsistent(Props(b)[j].schema, PropSchema(a, Props(b)[j].name), rx);
      assert PropSchema(a, Props(b)[j].name) == Props(a)[PropIndex(Props(a), Props(b)[j].name)].schema;
    }
  }

  /**
   * With nothing in the diff but the extension keys, a major bump passes its policy, and any other bump passes
   * exactly when the property schemas accept the values they list.
   */
  lemma EmptyDiffPasses(base: Doc, candidate: Doc, bump: Bump, rx: Matcher)
    requires Comparable(base) && Comparable(candidate) && Unchanged(DiffOf(base, candidate))
    ensures PolicyPassed(BuildReport(Decode(base), Decode(candidate), rx), bump) <==>
            bump == Major || Consistent(base, rx)
  {
    hide Comparable, Consistent, Decode, CheckSubset, Compatible, DiffOf, ObjectsOk, Unchanged;
    ReportIsCompatible(Decode(base), Decode(candidate), rx);
    RootIsObject(base);
    RootIsObject(candidate);
    ObjectPair(Decode(base), Decode(candidate), rx);
    ObjectPair(Decode(candidate), Decode(base), rx);
    UnchangedSwap(base, candidate);
    UnchangedObjects(base, candidate, rx);
    UnchangedObjects(candidate, base, rx);
    if Consistent(base, rx) {
      ConsistentTogether(base, candidate, rx);
    }
  }

  // ---------- The order of keys ----------

  /** Storing a schema may change the order of its keys; the verdicts, and so the policy, are the same. */
  lemma KeyOrderDoesNotMatter(base: Document, base': Document, candidate: Document, candidate': Document, bump: Bump,
        rx: Matcher)
    requires Accepted(base) && Accepted(base') && Denote(base) == Denote(base')
    requires Accepted(candidate) && Accepted(candidate') && Denote(candidate) == Denote(candidate')
    ensures
      var r, r' := BuildReport(Decode(base), Decode(candidate), rx), BuildReport(Decode(base'), Decode(candidate'), rx);
      && r.backward == r'.backward && r.forward == r'.forward && r.full == r'.full
      && PolicyPassed(r, bump) == PolicyPassed(r', bump)
  {
    hide Decode, Denote, Accepted, Keyed, CheckSubset, Compatible, WellFormed, Similar;
    AcceptedIsWellFormed(base);
    AcceptedIsWellFormed(base');
    AcceptedIsWellFormed(candidate);
    AcceptedIsWellFormed(candidate');
    SameValueSimilar(base, base');
    SameValueSimilar(candidate, candidate');
    Reordered(Decode(base), Decode(base'), Decode(candidate), Decode(candidate'), rx);
    Reordered(Decode(candidate), Decode(candidate'), Decode(base), Decode(base'), rx);
    ReportIsCompatible(Decode(base), Decode(candidate), rx);
    ReportIsCompatible(Decode(base'), Decode(candidate'), rx);
  }
}
