/** The schema diff shown beside a compatibility report. */
module Diff {
  import opened Wrappers
  import opened Texts
  import opened Documents
  import opened Schemas
  import opened Profile

  datatype Change = Change(name: string, before: Doc, after: Doc)

  datatype SchemaDiff = SchemaDiff(
    added: seq<string>,
    removed: seq<string>,
    changed: seq<Change>,
    requiredAdded: seq<string>,
    requiredRemoved: seq<string>,
    additionalChanged: Option<Change>,
    extensionsChanged: Option<Change>)

  function RequiredNames(d: Doc): seq<string> {
    ReadNames(Get(d, "required")).GetOr([])
  }

  /** `d.get(key, default)` */
  function GetOrElse(d: Doc, key: string, default: Doc): Doc {
    if Has(d, key) then At(d, key) else default
  }

  /** `sorted(set(a) & set(b))` */
  function Common(a: seq<string>, b: seq<string>): (r: seq<string>)
    ensures Ascending(r)
    ensures forall x :: x in r <==> x in a && x in b
  {
    SortedDifference(a, SortedDifference(a, b))
  }

  function PropertyAt(d: Doc, name: string): Doc
    requires IsDeclared(d, name)
  {
    PropertyEntries(d)[IndexOf(PropertyEntries(d), name)].value
  }

  /** Whether both documents declare the property, with different values. */
  predicate Differs(base: Doc, candidate: Doc, name: string) {
    && IsDeclared(base, name) && IsDeclared(candidate, name)
    && Denote(PropertyAt(base, name)) != Denote(PropertyAt(candidate, name))
  }

  /** The changed properties among the first n names. */
  function Changes(base: Doc, candidate: Doc, names: seq<string>, n: nat): seq<Change>
    requires n <= |names|
  {
    if n == 0 then []
    else
      var name := names[n - 1];
      Changes(base, candidate, names, n - 1) +
      if Differs(base, candidate, name) then [Change(name, PropertyAt(base, name), PropertyAt(candidate, name))] else []
  }

  function FlagOf(d: Doc): Doc {
    GetOrElse(d, "additionalProperties", Bool(true))
  }

  /** The lists of the extension keys, each empty when the key is absent. */
  function ExtensionsOf(d: Doc): Doc {
    Obj([Entry("x-primaryKey", GetOrElse(d, "x-primaryKey", Arr([]))),
         Entry("x-businessKey", GetOrElse(d, "x-businessKey", Arr([])))])
  }

  /** The change between two documents, if their values differ. */
  function ChangeBetween(name: string, before: Doc, after: Doc): Option<Change> {
    if Denote(before) != Denote(after) then Some(Change(name, before, after)) else None
  }

  function DiffOf(base: Doc, candidate: Doc): SchemaDiff {
    var common := Common(PropertyNames(base), PropertyNames(candidate));
    SchemaDiff(
      SortedDifference(PropertyNames(candidate), PropertyNames(base)),
      SortedDifference(PropertyNames(base), PropertyNames(candidate)),
      Changes(base, candidate, common, |common|),
      SortedDifference(RequiredNames(candidate), RequiredNames(base)),
      SortedDifference(RequiredNames(base), RequiredNames(candidate)),
      ChangeBetween("additionalProperties", FlagOf(base), FlagOf(candidate)),
      ChangeBetween("extensions", ExtensionsOf(base), ExtensionsOf(candidate)))
  }

  method BuildSchemaDiff(base: Doc, candidate: Doc) returns (diff: SchemaDiff)
    ensures diff == DiffOf(base, candidate)
  {
    hide SortedDifference, Common, Denote, PropertyEntries;
    var baseNames, candidateNames := PropertyNames(base), PropertyNames(candidate);
    var added := SortedDifference(candidateNames, baseNames);
    var removed := SortedDifference(baseNames, candidateNames);
    var changed := [];
    var common := Common(baseNames, candidateNames);
    for i := 0 to |common|
      invariant changed == Changes(base, candidate, common, i)
    {
      if Differs(base, candidate, common[i]) {
        changed := changed + [Change(common[i], PropertyAt(base, common[i]), PropertyAt(candidate, common[i]))];
      }
    }
    var baseRequired, candidateRequired := RequiredNames(base), RequiredNames(candidate);
    var additionalChanged := None;
    if Denote(FlagOf(base)) != Denote(FlagOf(candidate)) {
      additionalChanged := Some(Change("additionalProperties", FlagOf(base), FlagOf(candidate)));
    }
    var extensionsChanged := None;
    if Denote(ExtensionsOf(base)) != Denote(ExtensionsOf(candidate)) {
      extensionsChanged := Some(Change("extensions", ExtensionsOf(base), ExtensionsOf(candidate)));
    }
    diff := SchemaDiff(
      added, removed, changed,
      SortedDifference(candidateRequired, baseRequired),
      SortedDifference(baseRequired, candidateRequired),
      additionalChanged,
      extensionsChanged);
  }

  lemma {:induction false} ChangesNames(base: Doc, candidate: Doc, names: seq<string>, n: nat, name: string)
    requires n <= |names|
    ensures (exists c :: c in Changes(base, candidate, names, n) && c.name == name) <==>
            name in names[..n] && Differs(base, candidate, name)
    ensures forall c | c in Changes(base, candidate, names, n) :: IsChange(base, candidate, c)
  {
    hide Denote;
    if n > 0 {
      ChangesNames(base, candidate, names, n - 1, name);
      assert names[..n] == names[..n - 1] + [names[n - 1]];
      if Differs(base, candidate, names[n - 1]) {
        var last := Change(names[n - 1], PropertyAt(base, names[n - 1]), PropertyAt(candidate, names[n - 1]));
        assert Changes(base, candidate, names, n) == Changes(base, candidate, names, n - 1) + [last];
        assert last in Changes(base, candidate, names, n);
      }
    }
  }

  /** The change leads from the base's schema of a property to the candidate's different one. */
  predicate IsChange(base: Doc, candidate: Doc, c: Change) {
    Differs(base, candidate, c.name) && c.before == PropertyAt(base, c.name) && c.after == PropertyAt(candidate, c.name)
  }

  predicate ChangedIn(diff: SchemaDiff, name: string) {
    exists i | 0 <= i < |diff.changed| :: diff.changed[i].name == name
  }

  lemma ChangedExactly(base: Doc, candidate: Doc, name: string)
    ensures ChangedIn(DiffOf(base, candidate), name) <==> Differs(base, candidate, name)
    ensures forall c | c in DiffOf(base, candidate).changed :: IsChange(base, candidate, c)
  {
    hide Denote, PropertyNames, PropertyEntries, IsDeclared;
    var common := Common(PropertyNames(base), PropertyNames(candidate));
    ChangesNames(base, candidate, common, |common|, name);
    assert common[..|common|] == common;
    NameIsDeclared(base, name);
    NameIsDeclared(candidate, name);
    var changed := DiffOf(base, candidate).changed;
    assert changed == Changes(base, candidate, common, |common|);
    assert ChangedIn(DiffOf(base, candidate), name) <==> exists c :: c in changed && c.name == name;
  }

  // ---------- The diff the other way ----------

  function Back(c: Change): Change {
    Change(c.name, c.after, c.before)
  }

  function BackOption(c: Option<Change>): Option<Change> {
    if c.Some? then Some(Back(c.value)) else None
  }

  function BackAll(changes: seq<Change>): seq<Change> {
    seq(|changes|, i requires 0 <= i < |changes| => Back(changes[i]))
  }

  /** The same entries, read from the candidate to the base. */
  function Reversed(diff: SchemaDiff): SchemaDiff {
    SchemaDiff(diff.removed, diff.added, BackAll(diff.changed), diff.requiredRemoved, diff.requiredAdded,
               BackOption(diff.additionalChanged), BackOption(diff.extensionsChanged))
  }

  lemma DiffersBack(a: Doc, b: Doc, name: string)
    ensures Differs(a, b, name) <==> Differs(b, a, name)
  {
    hide Denote, IsDeclared;
  }

  lemma {:induction false} ChangesBack(base: Doc, candidate: Doc, names: seq<string>, n: nat)
    requires n <= |names|
    ensures Changes(candidate, base, names, n) == BackAll(Changes(base, candidate, names, n))
  {
    hide Denote, PropertyEntries;
    if n > 0 {
      ChangesBack(base, candidate, names, n - 1);
      DiffersBack(base, candidate, names[n - 1]);
    }
  }

  lemma CommonBack(a: seq<string>, b: seq<string>)
    ensures Common(a, b) == Common(b, a)
  {
    AscendingUnique(Common(a, b), Common(b, a));
  }

  /** Swapping the documents reverses the diff. */
  lemma DiffSwap(base: Doc, candidate: Doc)
    ensures DiffOf(candidate, base) == Reversed(DiffOf(base, candidate))
  {
    hide Denote, Common, SortedDifference, PropertyNames, RequiredNames, FlagOf, ExtensionsOf, Changes;
    var common := Common(PropertyNames(base), PropertyNames(candidate));
    CommonBack(PropertyNames(base), PropertyNames(candidate));
    ChangesBack(base, candidate, common, |common|);
  }
}
