/** The promises about histories: what data stays valid, what a check reports, what never changes. */
module History {
  import opened Enums
  import opened Wrappers
  import opened Texts
  import opened Documents
  import opened Schemas
  import opened Rules
  import opened Soundness
  import opened CompatibilityOrder
  import opened Necessity
  import opened SemVers
  import Precedence
  import opened WellFormedness
  import opened Registry
  import opened Lifecycle
  import Diff
  import Introspection

  // ---------- Data along a chain of versions ----------

  function SchemaAt(c: Contract, i: nat): Schema
    requires i < |c.versions|
  {
    Decode(c.versions[i].schema)
  }

  /** Every step between the two versions is safe. */
  predicate SafeChain(c: Contract, i: nat, j: nat)
    requires i <= j < |c.versions|
  {
    forall k | i <= k < j :: SafeStep(SchemaAt(c, k), SchemaAt(c, k + 1))
  }

  predicate SafeReturn(c: Contract, i: nat, j: nat)
    requires i <= j < |c.versions|
  {
    forall k | i <= k < j :: SafeStep(SchemaAt(c, k + 1), SchemaAt(c, k))
  }

  lemma SealedChainIsSafe(c: Contract, i: nat, j: nat)
    requires i <= j < |c.versions| && forall k | i <= k <= j :: Sealed(SchemaAt(c, k))
    ensures SafeChain(c, i, j) && SafeReturn(c, i, j)
  {
    hide Decode, Dominated, Closed, WellFormed, Covered, BoundsMet;
    forall k | i <= k < j
      ensures SafeStep(SchemaAt(c, k), SchemaAt(c, k + 1)) && SafeStep(SchemaAt(c, k + 1), SchemaAt(c, k))
    {
      assert Sealed(SchemaAt(c, k)) && Sealed(SchemaAt(c, k + 1));
      ClosedIsCovered(SchemaAt(c, k), SchemaAt(c, k + 1));
      ClosedIsCovered(SchemaAt(c, k + 1), SchemaAt(c, k));
      DominatedIsMet(SchemaAt(c, k), SchemaAt(c, k + 1));
      DominatedIsMet(SchemaAt(c, k + 1), SchemaAt(c, k));
    }
  }

  predicate SameMajor(c: Contract, i: nat, j: nat)
    requires i < |c.versions| && j < |c.versions|
  {
    CoreAt(c, i).0 == CoreAt(c, j).0
  }

  predicate SameMinor(c: Contract, i: nat, j: nat)
    requires i < |c.versions| && j < |c.versions|
  {
    SameMajor(c, i, j) && CoreAt(c, i).1 == CoreAt(c, j).1
  }

  /** The versions in between share the major, and the minor, that the two ends share. */
  lemma SharedBetween(c: Contract, i: nat, k: nat, j: nat, rx: Matcher)
    requires ChainOk(c, rx) && i <= k <= j < |c.versions| && SameMajor(c, i, j)
    ensures SameMajor(c, i, k) && SameMajor(c, k, j)
    ensures SameMinor(c, i, j) ==> SameMinor(c, i, k) && SameMinor(c, k, j)
  {
    hide ChainOk, Precedence.TextCore, SemVers.Parse, Keyed;
    if i < k { CoresIncrease(c, i, k, rx); }
    if k < j { CoresIncrease(c, k, j, rx); }
  }

  lemma StepCompatible(c: Contract, k: nat, rx: Matcher)
    requires ChainOk(c, rx) && k + 1 < |c.versions| && SameMajor(c, k, k + 1)
    ensures Compatible(SchemaAt(c, k), SchemaAt(c, k + 1), rx)
    ensures SameMinor(c, k, k + 1) ==> Compatible(SchemaAt(c, k + 1), SchemaAt(c, k), rx)
  {
    var a, b := c.versions[k], c.versions[k + 1];
    assert StepAllowed(a, b, rx);
    hide ChainOk, SemVers.Parse, Keyed, Decode, BuildReport, Compatible, Precedence.DetectBump, Precedence.TextCore;
    Precedence.BumpExact(a.text, b.text);
    FullMeansBoth(SchemaAt(c, k), SchemaAt(c, k + 1), rx);
  }

  lemma FullMeansBoth(a: Schema, b: Schema, rx: Matcher)
    ensures BuildReport(a, b, rx).backward <==> Compatible(a, b, rx)
    ensures BuildReport(a, b, rx).full <==> Compatible(a, b, rx) && Compatible(b, a, rx)
  {
    hide CheckSubset, Compatible;
    ReportIsCompatible(a, b, rx);
  }

  lemma SchemaWellFormed(c: Contract, i: nat, rx: Matcher)
    requires ContractOk(c, rx) && i < |c.versions|
    ensures WellFormed(SchemaAt(c, i))
  {
    hide ChainOk, ActiveOk, Accepted, Decode, Keyed, SemVers.Parse, WellFormed;
    assert VersionOk(c.versions[i]);
    AcceptedIsWellFormed(c.versions[i].schema);
  }

  lemma {:induction false} ChainForward(c: Contract, i: nat, j: nat, v: Value, rx: Matcher)
    requires ContractOk(c, rx) && i <= j < |c.versions| && SameMajor(c, i, j) && SafeChain(c, i, j)
    requires Valid(SchemaAt(c, i), v, rx)
    ensures Valid(SchemaAt(c, j), v, rx)
    decreases j - i
  {
    hide VersionOk, ChainOk, ActiveOk, SchemaAt, SameMajor, SameMinor, Valid, Compatible, WellFormed, BoundsMet,
          Covered;
    if i < j {
      SharedBetween(c, i, i + 1, j, rx);
      StepCompatible(c, i, rx);
      SchemaWellFormed(c, i + 1, rx);
      assert SafeStep(SchemaAt(c, i), SchemaAt(c, i + 1));
      Sound(SchemaAt(c, i), SchemaAt(c, i + 1), v, rx);
      ChainForward(c, i + 1, j, v, rx);
    }
  }

  lemma {:induction false} ChainBack(c: Contract, i: nat, j: nat, v: Value, rx: Matcher)
    requires ContractOk(c, rx) && i <= j < |c.versions| && SameMinor(c, i, j) && SafeReturn(c, i, j)
    requires Valid(SchemaAt(c, j), v, rx)
    ensures Valid(SchemaAt(c, i), v, rx)
    decreases j - i
  {
    hide VersionOk, ChainOk, ActiveOk, SchemaAt, Valid, Compatible, WellFormed, BoundsMet, Covered, CoreAt;
    if i < j {
      SharedBetween(c, i, i + 1, j, rx);
      StepCompatible(c, i, rx);
      SchemaWellFormed(c, i, rx);
      ChainBack(c, i + 1, j, v, rx);
      assert SafeStep(SchemaAt(c, i + 1), SchemaAt(c, i));
      Sound(SchemaAt(c, i + 1), SchemaAt(c, i), v, rx);
    }
  }

  /**
   * After every sequence of calls: data valid under a stored version is valid under every later version of the
   * same major, through safe steps; versions of the same major and minor accept the same data.
   */
  lemma DataStaysValid(calls: seq<Call>, id: nat, i: nat, j: nat, v: Value, rx: Matcher)
    requires id < |Run(calls, rx)|
    requires i <= j < |Run(calls, rx)[id].versions|
    requires SameMajor(Run(calls, rx)[id], i, j) && SafeChain(Run(calls, rx)[id], i, j)
    ensures
      var c := Run(calls, rx)[id];
      Valid(SchemaAt(c, i), v, rx) ==> Valid(SchemaAt(c, j), v, rx)
    ensures
      var c := Run(calls, rx)[id];
      SameMinor(c, i, j) && SafeReturn(c, i, j) ==> (Valid(SchemaAt(c, i), v, rx) <==> Valid(SchemaAt(c, j), v, rx))
  {
    hide Run, ContractOk, SameMajor, SameMinor, SafeChain, SafeReturn, SchemaAt, Valid, SemVers.Parse, Keyed;
    RunOk(calls, rx);
    var c := Run(calls, rx)[id];
    if Valid(SchemaAt(c, i), v, rx) {
      ChainForward(c, i, j, v, rx);
    }
    if SameMinor(c, i, j) && SafeReturn(c, i, j) && Valid(SchemaAt(c, j), v, rx) {
      ChainBack(c, i, j, v, rx);
    }
  }

  /** The same for a contract all of whose schemas are closed, with the exclusive bounds as the strict ones. */
  lemma SealedDataStaysValid(calls: seq<Call>, id: nat, i: nat, j: nat, v: Value, rx: Matcher)
    requires id < |Run(calls, rx)|
    requires i <= j < |Run(calls, rx)[id].versions| && SameMajor(Run(calls, rx)[id], i, j)
    requires forall k | i <= k <= j :: Sealed(SchemaAt(Run(calls, rx)[id], k))
    ensures
      var c := Run(calls, rx)[id];
      && (Valid(SchemaAt(c, i), v, rx) ==> Valid(SchemaAt(c, j), v, rx))
      && (SameMinor(c, i, j) ==> (Valid(SchemaAt(c, i), v, rx) <==> Valid(SchemaAt(c, j), v, rx)))
  {
    hide Run, Sealed, SameMajor, SameMinor, SafeChain, SafeReturn, SchemaAt, Valid, SemVers.Parse, Keyed;
    SealedChainIsSafe(Run(calls, rx)[id], i, j);
    DataStaysValid(calls, id, i, j, v, rx);
  }

  /** A step that the registry admitted within one major keeps all data if and only if it is safe. */
  lemma StepKeepsDataExactly(calls: seq<Call>, id: nat, i: nat, rx: Matcher)
    requires id < |Run(calls, rx)| && i + 1 < |Run(calls, rx)[id].versions| && SameMajor(Run(calls, rx)[id], i, i + 1)
    requires Populated(SchemaAt(Run(calls, rx)[id], i), rx) && Restricting(SchemaAt(Run(calls, rx)[id], i + 1))
    ensures
      var c := Run(calls, rx)[id];
      Included(SchemaAt(c, i), SchemaAt(c, i + 1), rx) <==> SafeStep(SchemaAt(c, i), SchemaAt(c, i + 1))
  {
    hide Run, VersionOk, ChainOk, ActiveOk, SchemaAt, SameMajor, SameMinor, SemVers.Parse, Keyed;
    hide Included, SafeStep, Compatible, Populated, Restricting, WellFormed;
    RunOk(calls, rx);
    var c := Run(calls, rx)[id];
    assert ContractOk(c, rx);
    SchemaWellFormed(c, i, rx);
    SchemaWellFormed(c, i + 1, rx);
    StepCompatible(c, i, rx);
    StepExact(SchemaAt(c, i), SchemaAt(c, i + 1), rx);
  }

  /** The schema of the last version can be published again as a patch exactly when it is self-consistent. */
  lemma RepublishIff(c: Contract, text: Precedence.VersionText, mode: Mode, rx: Matcher)
    requires ContractOk(c, rx) && c.versions != []
    requires Precedence.DetectBump(c.versions[|c.versions| - 1].text, text) == Ok(Patch)
    ensures AddVersion(c, text, c.versions[|c.versions| - 1].schema, mode, rx).1.Ok? <==>
            SelfConsistent(SchemaAt(c, |c.versions| - 1), rx)
  {
    var last := |c.versions| - 1;
    hide VersionOk, ChainOk, ActiveOk, SemVers.Parse, Keyed, Latest, VersionIndex, AuditRow, SelfConsistent, Decode,
          WellFormed, Precedence.CompareTexts;
    LatestIsLast(c, rx);
    SchemaWellFormed(c, last, rx);
    PatchAudit(c.versions[last], text, rx);
    BumpIsGreater(c.versions[last].text, text);
    NotStored(c, text, rx);
  }

  lemma BumpIsGreater(base: Precedence.VersionText, text: Precedence.VersionText)
    requires Precedence.DetectBump(base, text).Ok?
    ensures Precedence.CompareTexts(text, base) > 0
  {
    hide SemVers.Parse, Precedence.CompareTexts;
  }

  lemma NotStored(c: Contract, text: Precedence.VersionText, rx: Matcher)
    requires ChainOk(c, rx) && c.versions != []
    requires Precedence.CompareTexts(text, c.versions[|c.versions| - 1].text) > 0
    ensures !HasVersion(c, text)
  {
    hide ChainOk, SemVers.Parse, Keyed, Precedence.CompareTexts;
    var k := VersionIndex(c.versions, text);
    if k < |c.versions| {
      assert c.versions[k].text == text;
      if k < |c.versions| - 1 {
        LaterIsGreater(c, k, |c.versions| - 1, rx);
      } else {
        SelfEqual(text);
      }
    }
  }

  lemma PatchAudit(v: Version, text: Precedence.VersionText, rx: Matcher)
    requires Precedence.DetectBump(v.text, text) == Ok(Patch) && WellFormed(Decode(v.schema))
    ensures AuditRow(v, text, v.schema, rx).Ok?
    ensures AuditRow(v, text, v.schema, rx).value.Rejects() <==> !SelfConsistent(Decode(v.schema), rx)
  {
    hide SemVers.Parse, Keyed, Decode, Diff.DiffOf, BuildReport, Precedence.DetectBump, SelfConsistent, WellFormed,
          Compatible;
    FullMeansBoth(Decode(v.schema), Decode(v.schema), rx);
    ReflexiveIff(Decode(v.schema), rx);
  }

  // ---------- Checks along a chain ----------

  /** The checker itself is silent between non-adjacent versions of one major. */
  lemma {:induction false} ChainCompatible(c: Contract, i: nat, j: nat, rx: Matcher)
    requires ContractOk(c, rx) && i < j < |c.versions| && SameMajor(c, i, j) && SafeChain(c, i, j)
    ensures Compatible(SchemaAt(c, i), SchemaAt(c, j), rx)
    decreases j
  {
    hide VersionOk, ChainOk, ActiveOk, SchemaAt, SameMajor, SameMinor, Compatible, WellFormed, BoundsMet, Covered;
    SharedBetween(c, i, j - 1, j, rx);
    StepCompatible(c, j - 1, rx);
    if i < j - 1 {
      ChainCompatible(c, i, j - 1, rx);
      SchemaWellFormed(c, j, rx);
      assert SafeStep(SchemaAt(c, j - 1), SchemaAt(c, j - 1 + 1));
      CompatibilityOrder.Transitive(SchemaAt(c, i), SchemaAt(c, j - 1), SchemaAt(c, j), rx);
    }
  }

  lemma {:induction false} ChainCompatibleBack(c: Contract, i: nat, j: nat, rx: Matcher)
    requires ContractOk(c, rx) && i < j < |c.versions| && SameMinor(c, i, j) && SafeReturn(c, i, j)
    ensures Compatible(SchemaAt(c, j), SchemaAt(c, i), rx)
    decreases j - i
  {
    hide VersionOk, ChainOk, ActiveOk, SchemaAt, CoreAt, Compatible, WellFormed, BoundsMet, Covered;
    SharedBetween(c, i, i + 1, j, rx);
    StepCompatible(c, i, rx);
    if i + 1 < j {
      ChainCompatibleBack(c, i + 1, j, rx);
      SchemaWellFormed(c, i, rx);
      assert SafeStep(SchemaAt(c, i + 1), SchemaAt(c, i));
      CompatibilityOrder.Transitive(SchemaAt(c, j), SchemaAt(c, i + 1), SchemaAt(c, i), rx);
    }
  }

  /** What the policy of the bump between the two versions looks at is safe. */
  predicate SafeHistory(c: Contract, i: nat, j: nat)
    requires i <= j < |c.versions|
  {
    (SameMajor(c, i, j) ==> SafeChain(c, i, j)) && (SameMinor(c, i, j) ==> SafeReturn(c, i, j))
  }

  lemma ChainPolicy(c: Contract, i: nat, j: nat, rx: Matcher)
    requires ContractOk(c, rx) && i < j < |c.versions| && SafeHistory(c, i, j)
    ensures
      var bump := Precedence.DetectBump(c.versions[i].text, c.versions[j].text);
      bump.Ok? && PolicyPassed(BuildReport(SchemaAt(c, i), SchemaAt(c, j), rx), bump.value)
  {
    hide VersionOk, ChainOk, ActiveOk, SchemaAt, SafeChain, SafeReturn, SemVers.Parse, Keyed, Compatible, BuildReport,
          Precedence.DetectBump, Precedence.TextCore;
    CoresIncrease(c, i, j, rx);
    Precedence.BumpExact(c.versions[i].text, c.versions[j].text);
    FullMeansBoth(SchemaAt(c, i), SchemaAt(c, j), rx);
    if SameMajor(c, i, j) {
      ChainCompatible(c, i, j, rx);
    }
    if SameMinor(c, i, j) {
      ChainCompatibleBack(c, i, j, rx);
    }
  }

  lemma TextNotEmpty(text: Precedence.VersionText)
    ensures text != ""
  {
    assert Split("") == [""];
  }

  /** A check of a stored version against an earlier one, adjacent or not, passes the policy of their bump. */
  lemma HistoryConsistent(calls: seq<Call>, id: nat, i: nat, j: nat, mode: Option<Mode>, rx: Matcher)
    requires Live(Run(calls, rx), id)
    requires i < j < |Run(calls, rx)[id].versions|
    requires SafeHistory(Run(calls, rx)[id], i, j)
    ensures
      var c := Run(calls, rx)[id];
      var r := CheckStep(Run(calls, rx), id, c.versions[j].text, Some(c.versions[i].text), mode, rx).result;
      r.Ok? && r.value.Passes() && r.value.base == c.versions[i].text && r.value.candidate == c.versions[j].text
  {
    hide Run, VersionOk, ChainOk, ActiveOk, SafeHistory, SemVers.Parse, Keyed, CheckBetween, VersionIndex;
    RunOk(calls, rx);
    var c := Run(calls, rx)[id];
    assert ContractOk(c, rx);
    IndexOfVersion(c, i, rx);
    IndexOfVersion(c, j, rx);
    TextNotEmpty(c.versions[i].text);
    CheckPasses(c, i, j, mode, rx);
  }

  lemma CheckPasses(c: Contract, i: nat, j: nat, mode: Option<Mode>, rx: Matcher)
    requires ContractOk(c, rx) && i < j < |c.versions| && SafeHistory(c, i, j)
    ensures
      var r := CheckBetween(c.versions[i], c.versions[j], mode, rx);
      r.Ok? && r.value.Passes() && r.value.base == c.versions[i].text && r.value.candidate == c.versions[j].text
  {
    hide ContractOk, SafeHistory, SemVers.Parse, Keyed, BuildReport, Decode, Diff.DiffOf, Precedence.DetectBump,
          Precedence.CompareTexts, PolicyPassed;
    assert ChainOk(c, rx) by { ChainOfContract(c, rx); }
    hide ChainOk;
    LaterIsGreater(c, i, j, rx);
    ChainPolicy(c, i, j, rx);
  }

  lemma ChainOfContract(c: Contract, rx: Matcher)
    requires ContractOk(c, rx)
    ensures ChainOk(c, rx)
  {
    hide VersionOk, ActiveOk, ChainOk;
  }

  /** In a reachable state no check fails for the sake of its bump. */
  lemma CheckNeverRefusesBump(calls: seq<Call>, id: nat, text: string, requested: Option<string>, mode: Option<Mode>,
        rx: Matcher)
    ensures CheckStep(Run(calls, rx), id, text, requested, mode, rx).result != Err(VersionOrder)
    ensures CheckStep(Run(calls, rx), id, text, requested, mode, rx).result != Err(BumpUnsupported)
  {
    hide Run, VersionOk, ActiveOk, ChainOk, SemVers.Parse, Keyed, CheckBetween, BaseOf, VersionIndex;
    RunOk(calls, rx);
    var st := Run(calls, rx);
    if Live(st, id) && HasVersion(st[id], text) {
      var c := st[id];
      assert ContractOk(c, rx);
      var j := VersionIndex(c.versions, text);
      var base := BaseOf(c, c.versions[j], requested);
      if base.Some? && HasVersion(c, base.value) {
        BumpBetweenStored(c, VersionIndex(c.versions, base.value), j, mode, rx);
      }
    }
  }

  lemma BumpBetweenStored(c: Contract, i: nat, j: nat, mode: Option<Mode>, rx: Matcher)
    requires ChainOk(c, rx) && i < |c.versions| && j < |c.versions|
    ensures CheckBetween(c.versions[i], c.versions[j], mode, rx).Ok?
  {
    hide ChainOk, SemVers.Parse, Keyed, BuildReport, Decode, Diff.DiffOf, Precedence.Compare, Precedence.TextCore;
    if i < j {
      CoresIncrease(c, i, j, rx);
      Precedence.BumpExact(c.versions[i].text, c.versions[j].text);
    } else if j < i {
      LaterIsGreater(c, j, i, rx);
    } else {
      Precedence.Antisymmetric(Precedence.Parsed(c.versions[i].text), Precedence.Parsed(c.versions[i].text));
    }
  }

  // ---------- The previous version ----------

  lemma {:induction false} LowerExact(versions: seq<Version>, text: Precedence.VersionText, v: Version)
    ensures v in LowerVersions(versions, text) <==> v in versions && Precedence.CompareTexts(v.text, text) < 0
  {
    hide SemVers.Parse, Keyed, Precedence.CompareTexts;
    if versions != [] {
      var init, last := versions[..|versions| - 1], versions[|versions| - 1];
      assert versions == init + [last];
      LowerExact(init, text, v);
    }
  }

  /** A greatest stored version strictly below the given one, if there is any below it. */
  lemma PreviousExact(versions: seq<Version>, text: Precedence.VersionText)
    ensures Previous(versions, text).None? <==> forall v | v in versions :: Precedence.CompareTexts(v.text, text) >= 0
    ensures Previous(versions, text).Some? ==>
              var p := Previous(versions, text).value;
              && p in versions && Precedence.CompareTexts(p.text, text) < 0
              && forall v | v in versions && Precedence.CompareTexts(v.text, text) < 0 ::
                   Precedence.CompareTexts(v.text, p.text) <= 0
  {
    hide SemVers.Parse, Keyed, Precedence.CompareTexts, LowerVersions;
    var lower := LowerVersions(versions, text);
    forall v ensures v in lower <==> v in versions && Precedence.CompareTexts(v.text, text) < 0 {
      LowerExact(versions, text, v);
    }
    if lower != [] {
      var texts := VersionTexts(lower);
      var m := Precedence.MaxIndex(texts);
      Precedence.MaxIndexGreatest(texts);
      assert lower[m] in lower;
      forall v | v in lower ensures Precedence.CompareTexts(v.text, lower[m].text) <= 0 {
        var k :| 0 <= k < |lower| && lower[k] == v;
        assert Precedence.CompareTexts(texts[k], texts[m]) <= 0;
      }
    } else {
      forall v | v in versions ensures Precedence.CompareTexts(v.text, text) >= 0 {
        assert v !in lower;
      }
    }
  }

  /** On a reachable chain the previous version is the one created just before. */
  lemma PreviousOnChain(c: Contract, i: nat, rx: Matcher)
    requires ChainOk(c, rx) && i < |c.versions|
    ensures Previous(c.versions, c.versions[i].text) == if i == 0 then None else Some(c.versions[i - 1])
  {
    hide ChainOk, SemVers.Parse, Keyed, Precedence.CompareTexts, Previous;
    var p := Previous(c.versions, c.versions[i].text);
    PreviousExact(c.versions, c.versions[i].text);
    forall k | i <= k < |c.versions| ensures Precedence.CompareTexts(c.versions[k].text, c.versions[i].text) >= 0 {
      if i < k { LaterIsGreater(c, i, k, rx); } else { SelfEqual(c.versions[i].text); }
    }
    if i > 0 {
      LaterIsGreater(c, i - 1, i, rx);
      assert c.versions[i - 1] in c.versions;
      var k :| 0 <= k < |c.versions| && c.versions[k] == p.value;
      if k < i - 1 {
        LaterIsGreater(c, k, i - 1, rx);
      }
    }
  }

  lemma SelfEqual(text: Precedence.VersionText)
    ensures Precedence.CompareTexts(text, text) == 0
  {
    hide SemVers.Parse, Precedence.Compare;
    Precedence.Antisymmetric(Precedence.Parsed(text), Precedence.Parsed(text));
  }

  // ---------- What later calls leave alone ----------

  /** The version kept its text, schema and mode, and did not return to draft. */
  predicate VersionKept(v: Version, v': Version) {
    v'.text == v.text && v'.schema == v.schema && v'.mode == v.mode && (v'.status == Draft ==> v.status == Draft)
  }

  /** A contract keeps its name, its versions and its checks; after deletion it keeps everything. */
  predicate ContractKept(c: Contract, c': Contract) {
    && c'.namespace == c.namespace && c'.name == c.name
    && |c.versions| <= |c'.versions|
    && (forall i | 0 <= i < |c.versions| :: VersionKept(c.versions[i], c'.versions[i]))
    && c.checks <= c'.checks
    && (c.deleted ==> c' == c)
  }

  predicate Kept(st: State, st': State) {
    |st| <= |st'| && forall id | 0 <= id < |st| :: ContractKept(st[id], st'[id])
  }

  lemma KeptReplaced(st: State, id: nat, c: Contract)
    requires id < |st| && ContractKept(st[id], c)
    ensures Kept(st, st[id := c])
  {
    hide SemVers.Parse, Keyed;
  }

  lemma AddVersionKept(c: Contract, text: Precedence.VersionText, schema: Document, mode: Mode, rx: Matcher)
    requires !c.deleted
    ensures ContractKept(c, AddVersion(c, text, schema, mode, rx).0)
  {
    hide SemVers.Parse, Keyed, AuditRow, Latest, HasVersion, Precedence.CompareTexts;
  }

  lemma SetVersionKept(c: Contract, i: nat, v: Version)
    requires i < |c.versions| && Advanced(c.versions[i], v) && !c.deleted
    ensures ContractKept(c, SetVersion(c, i, v))
  {
    hide SemVers.Parse, Keyed;
  }

  lemma CreateVersionKept(st: State, id: nat, text: string, schema: Document, mode: Mode, rx: Matcher)
    ensures Kept(st, CreateVersionStep(st, id, text, schema, mode, rx).state)
  {
    hide AddVersion, Checkable, Accepted, Keyed, SemVers.Parse, ContractKept;
    KeptReflexive(st);
    if Parse(text).Some? && Live(st, id) {
      AddVersionKept(st[id], text, schema, mode, rx);
      KeptReplaced(st, id, AddVersion(st[id], text, schema, mode, rx).0);
    }
  }

  lemma KeptReflexive(st: State)
    ensures Kept(st, st)
  {
    hide SemVers.Parse, Keyed;
  }

  lemma StatusKept(st: State, id: nat, text: string)
    ensures Kept(st, PromoteStep(st, id, text).state)
    ensures Kept(st, DeprecateStep(st, id, text).state)
  {
    hide Keyed, SemVers.Parse, Kept, VersionIndex;
    KeptReflexive(st);
    if Live(st, id) && HasVersion(st[id], text) {
      var i := VersionIndex(st[id].versions, text);
      var v := st[id].versions[i].(status := Stable, locked := true);
      SetVersionKept(st[id], i, v);
      KeptReplaced(st, id, SetVersion(st[id], i, v).(active := Some(v.text), status := ContractActive));
      var u := st[id].versions[i].(status := Deprecated, locked := true);
      SetVersionKept(st[id], i, u);
      var c := SetVersion(st[id], i, u);
      KeptReplaced(st, id, if c.active == Some(u.text) then c.(active := None) else c);
    }
  }

  lemma CheckKept(st: State, id: nat, text: string, requested: Option<string>, mode: Option<Mode>, rx: Matcher)
    ensures Kept(st, CheckStep(st, id, text, requested, mode, rx).state)
  {
    hide Keyed, SemVers.Parse, Kept, VersionIndex, CheckBetween, BaseOf;
    KeptReflexive(st);
    var r := CheckStep(st, id, text, requested, mode, rx).result;
    if r.Ok? {
      KeptReplaced(st, id, st[id].(checks := st[id].checks + [r.value]));
    }
  }

  lemma ContractStatusKept(st: State, id: nat, status: Option<ContractStatus>)
    ensures Kept(st, UpdateContractStep(st, id, status).state)
    ensures Kept(st, ArchiveContractStep(st, id).state)
  {
    hide Keyed, SemVers.Parse, Kept;
    KeptReflexive(st);
    if Live(st, id) {
      if status.Some? {
        KeptReplaced(st, id, st[id].(status := status.value));
      }
      KeptReplaced(st, id, st[id].(status := ContractArchived, deleted := true));
    }
  }

  lemma AddedKept(st: State, c: Contract)
    ensures Kept(st, st + [c])
  {
    hide SemVers.Parse, Keyed;
  }

  lemma ApplyKept(st: State, call: Call, rx: Matcher)
    ensures Kept(st, Apply(st, call, rx))
  {
    KeptReflexive(st);
    hide Kept, SemVers.Parse, Keyed, UpdateContractStep, ArchiveContractStep, CreateVersionStep, PromoteStep,
          DeprecateStep, CheckStep, Introspection.TableDocument, Accepted;
    match call
    case CreateContract(namespace, name) => AddedKept(st, FreshContract(namespace, name));
    case UpdateContract(id, status) => ContractStatusKept(st, id, status);
    case ArchiveContract(id) => ContractStatusKept(st, id, None);
    case CreateVersion(id, text, schema, mode) => CreateVersionKept(st, id, text, schema, mode, rx);
    case PromoteVersion(id, text) => StatusKept(st, id, text);
    case DeprecateVersion(id, text) => StatusKept(st, id, text);
    case CheckCompatibility(id, text, requested, mode) => CheckKept(st, id, text, requested, mode, rx);
    case IntrospectTable(namespace, name, columns, primaryKeys, origin) =>
      if Introspection.TableDocument(columns, primaryKeys, origin).Ok? {
        var schema := Introspection.TableDocument(columns, primaryKeys, origin).value;
        AddedKept(st, IntrospectedContract(namespace, name, schema));
      }
  }

  lemma KeptTransitive(a: State, b: State, c: State)
    requires Kept(a, b) && Kept(b, c)
    ensures Kept(a, c)
  {
    hide SemVers.Parse, Keyed;
    forall id | 0 <= id < |a| ensures ContractKept(a[id], c[id]) {
      assert ContractKept(a[id], b[id]) && ContractKept(b[id], c[id]);
      forall i | 0 <= i < |a[id].versions| ensures VersionKept(a[id].versions[i], c[id].versions[i]) {
        assert VersionKept(b[id].versions[i], c[id].versions[i]);
      }
    }
  }

  /** Whatever is called later, stored versions keep their schemas and archived contracts keep everything. */
  lemma {:induction false} RunKept(calls: seq<Call>, more: seq<Call>, rx: Matcher)
    ensures Kept(Run(calls, rx), Run(calls + more, rx))
    decreases |more|
  {
    hide Kept, Apply;
    if more == [] {
      assert calls + more == calls;
      KeptReflexive(Run(calls, rx));
    } else {
      var init, last := more[..|more| - 1], more[|more| - 1];
      assert (calls + more)[..|calls + more| - 1] == calls + init;
      RunKept(calls, init, rx);
      ApplyKept(Run(calls + init, rx), last, rx);
      KeptTransitive(Run(calls, rx), Run(calls + init, rx), Run(calls + more, rx));
    }
  }

  // ---------- What one call records ----------

  /** A refused creation changes nothing, unless the policy refused it: then it leaves exactly one failing check. */
  lemma RefusedCreation(st: State, id: nat, text: string, schema: Document, mode: Mode, rx: Matcher)
    requires CreateVersionStep(st, id, text, schema, mode, rx).result.Err?
    ensures
      var o := CreateVersionStep(st, id, text, schema, mode, rx);
      if o.result == Err(PolicyViolated) then
        && Live(st, id) && |o.state| == |st| && |o.state[id].checks| == |st[id].checks| + 1
        && o.state == st[id := st[id].(checks := o.state[id].checks)]
        && st[id].checks <= o.state[id].checks
        && var row := o.state[id].checks[|st[id].checks|];
           row.Rejects() && row.verdict == VerdictFail && row.candidate == text
      else o.state == st
  {
    hide SemVers.Parse, Keyed, Checkable, Accepted, Latest, HasVersion, Precedence.CompareTexts, AuditRow;
    if Live(st, id) && Parse(text).Some? {
      assert st[id := st[id]] == st;
      var latest := Latest(st[id].versions);
      if latest.Some? {
        AuditVerdict(latest.value, text, schema, rx);
      }
    }
  }

  /** The verdict of an audit row fails exactly when it rejects. */
  lemma AuditVerdict(base: Version, text: Precedence.VersionText, schema: Doc, rx: Matcher)
    ensures AuditRow(base, text, schema, rx).Ok? ==>
              var row := AuditRow(base, text, schema, rx).value;
              && (row.Rejects() <==> row.verdict == VerdictFail)
              && (row.Rejects() <==> !row.Passes()) && row.candidate == text
  {
    hide SemVers.Parse, Keyed, BuildReport, Decode, Diff.DiffOf, Precedence.DetectBump;
  }

  /** The bump from one version to a later one, read off their cores. */
  function BumpBetween(c: Contract, i: nat, j: nat): Bump
    requires i < |c.versions| && j < |c.versions|
  {
    if !SameMajor(c, i, j) then Major else if !SameMinor(c, i, j) then Minor else Patch
  }

  /** Within a major the earlier schema is compatible with the later one, within a minor also the other way. */
  predicate PolicyHolds(c: Contract, i: nat, j: nat, rx: Matcher)
    requires i < |c.versions| && j < |c.versions|
  {
    && (SameMajor(c, i, j) ==> Compatible(SchemaAt(c, i), SchemaAt(c, j), rx))
    && (SameMinor(c, i, j) ==> Compatible(SchemaAt(c, j), SchemaAt(c, i), rx))
  }

  /** The row records the comparison of the j-th version with the i-th in the given mode. */
  predicate Compares(row: CheckRow, c: Contract, i: nat, j: nat, mode: Mode, rx: Matcher)
    requires i < |c.versions| && j < |c.versions|
  {
    && row.base == c.versions[i].text && row.candidate == c.versions[j].text
    && row.report == BuildReport(SchemaAt(c, i), SchemaAt(c, j), rx)
    && row.diff == Diff.DiffOf(c.versions[i].schema, c.versions[j].schema)
    && row.mode == mode
    && row.verdict == (if mode == ModeNone then VerdictWarn
                       else if Satisfies(SchemaAt(c, i), SchemaAt(c, j), mode, rx) then VerdictOk
                       else VerdictFail)
  }

  /** The bump and the policy that a row records; neither is looked at unless the candidate is the later version. */
  predicate Judges(row: CheckRow, c: Contract, i: nat, j: nat, rx: Matcher)
    requires i < |c.versions| && j < |c.versions|
  {
    && row.bump == (if i < j then Some(BumpBetween(c, i, j)) else None)
    && row.policyPassed == (if i < j then Some(PolicyHolds(c, i, j, rx)) else None)
  }

  /** The mode that the bump requires: full within a minor, backward within a major, none across majors. */
  function ModeBetween(c: Contract, i: nat, j: nat): Mode
    requires i < |c.versions| && j < |c.versions|
  {
    if !SameMajor(c, i, j) then ModeNone else if !SameMinor(c, i, j) then ModeBackward else ModeFull
  }

  /** The row records a passing comparison of the two versions, in the mode that their bump requires. */
  predicate Records(row: CheckRow, c: Contract, i: nat, j: nat, rx: Matcher)
    requires i < |c.versions| && j < |c.versions|
  {
    && Compares(row, c, i, j, ModeBetween(c, i, j), rx)
    && Judges(row, c, i, j, rx) && row.Passes() && row.verdict != VerdictFail
  }

  lemma BumpOfPair(c: Contract, i: nat, j: nat, rx: Matcher)
    requires ChainOk(c, rx) && i < j < |c.versions|
    ensures Precedence.DetectBump(c.versions[i].text, c.versions[j].text) == Ok(BumpBetween(c, i, j))
    ensures PolicyPassed(BuildReport(SchemaAt(c, i), SchemaAt(c, j), rx), BumpBetween(c, i, j)) <==>
            PolicyHolds(c, i, j, rx)
  {
    hide ChainOk, SemVers.Parse, Keyed, BuildReport, Decode, Precedence.DetectBump, Precedence.TextCore, Compatible,
         PolicyPassed;
    CoresIncrease(c, i, j, rx);
    Precedence.BumpExact(c.versions[i].text, c.versions[j].text);
    PolicyMeaning(SchemaAt(c, i), SchemaAt(c, j), BumpBetween(c, i, j), rx);
  }

  /** Every version after the first has its passing check against its predecessor on record. */
  lemma EveryVersionAudited(calls: seq<Call>, id: nat, i: nat, rx: Matcher)
    requires id < |Run(calls, rx)| && i + 1 < |Run(calls, rx)[id].versions|
    ensures
      var c := Run(calls, rx)[id];
      exists k | 0 <= k < |c.checks| :: Records(c.checks[k], c, i, i + 1, rx)
  {
    hide Run, VersionOk, ActiveOk, SemVers.Parse, Keyed, AuditRow, StepAllowed, Records;
    RunOk(calls, rx);
    var c := Run(calls, rx)[id];
    assert ContractOk(c, rx);
    var a, b := c.versions[i], c.versions[i + 1];
    assert Audited(c.checks, a, b, rx);
    var k :| 0 <= k < |c.checks| && AuditRow(a, b.text, b.schema, rx) == Ok(c.checks[k]) && c.checks[k].Passes();
    RowRecords(c, i, c.checks[k], rx);
  }

  lemma RowRecords(c: Contract, i: nat, row: CheckRow, rx: Matcher)
    requires ChainOk(c, rx) && i + 1 < |c.versions|
    requires AuditRow(c.versions[i], c.versions[i + 1].text, c.versions[i + 1].schema, rx) == Ok(row) && row.Passes()
    ensures Records(row, c, i, i + 1, rx)
  {
    hide ChainOk, SemVers.Parse, Keyed, BuildReport, Decode, Diff.DiffOf, Precedence.DetectBump, SameMajor, SameMinor,
         PolicyPassed, PolicyHolds, Satisfies, VerdictForMode, RequiredMode;
    AuditVerdict(c.versions[i], c.versions[i + 1].text, c.versions[i + 1].schema, rx);
    BumpOfPair(c, i, i + 1, rx);
    PolicyMeaning(SchemaAt(c, i), SchemaAt(c, i + 1), BumpBetween(c, i, i + 1), rx);
    VerdictMeaning(SchemaAt(c, i), SchemaAt(c, i + 1), row.mode, rx);
  }

  /**
   * What a check of two stored versions records, adjacent or not and in either order: the comparison as asked, and
   * against an earlier version the bump that the cores show and whether its policy holds.
   */
  lemma CheckRecorded(c: Contract, i: nat, j: nat, mode: Option<Mode>, rx: Matcher)
    requires ChainOk(c, rx) && i < |c.versions| && j < |c.versions|
    ensures
      var r := CheckBetween(c.versions[i], c.versions[j], mode, rx);
      r.Ok? && Compares(r.value, c, i, j, mode.GetOr(c.versions[j].mode), rx) && Judges(r.value, c, i, j, rx)
  {
    hide ChainOk, SemVers.Parse, Keyed, BuildReport, Decode, Diff.DiffOf, Precedence.DetectBump, SameMajor, SameMinor,
          Precedence.CompareTexts, PolicyPassed, PolicyHolds, Satisfies, VerdictForMode;
    VerdictMeaning(SchemaAt(c, i), SchemaAt(c, j), mode.GetOr(c.versions[j].mode), rx);
    if i < j {
      LaterIsGreater(c, i, j, rx);
      BumpOfPair(c, i, j, rx);
    } else if j < i {
      LaterIsGreater(c, j, i, rx);
    } else {
      SelfEqual(c.versions[i].text);
    }
  }

  /** The active version of a live contract is found, stable and locked. */
  lemma ActiveVersionFound(calls: seq<Call>, id: nat, rx: Matcher)
    requires Live(Run(calls, rx), id) && Run(calls, rx)[id].active.Some?
    ensures
      var st := Run(calls, rx);
      var r := ActiveVersion(st, st[id].namespace, st[id].name);
      && r.Ok? && r.value in st[id].versions && r.value.text == st[id].active.value
      && r.value.status == Stable && r.value.locked
  {
    hide Run, VersionOk, ChainOk, SemVers.Parse, Keyed, VersionIndex;
    RunOk(calls, rx);
    var st := Run(calls, rx);
    var c := st[id];
    assert ContractOk(c, rx);
    var i :| 0 <= i < |c.versions| && Published(c.versions[i], c.active.value);
    IndexOfVersion(c, i, rx);
    var k := LiveIndex(st, c.namespace, c.name);
    assert !(id < k);
  }

  // ---------- Calls that name a version ----------

  /** The base that a check without a requested one compares with. */
  lemma InferredBase(calls: seq<Call>, id: nat, i: nat, mode: Option<Mode>, rx: Matcher)
    requires Live(Run(calls, rx), id) && i < |Run(calls, rx)[id].versions|
    ensures
      var c := Run(calls, rx)[id];
      var r := CheckStep(Run(calls, rx), id, c.versions[i].text, None, mode, rx).result;
      if c.active.Some? then r.Ok? && r.value.base == c.active.value
      else if i > 0 then r.Ok? && r.value.base == c.versions[i - 1].text
      else r == Err(BaseVersionRequired)
  {
    hide Run, VersionOk, ChainOk, SemVers.Parse, Keyed, CheckBetween, VersionIndex, Previous;
    RunOk(calls, rx);
    var c := Run(calls, rx)[id];
    assert ContractOk(c, rx);
    IndexOfVersion(c, i, rx);
    PreviousOnChain(c, i, rx);
    if c.active.Some? {
      var k :| 0 <= k < |c.versions| && Published(c.versions[k], c.active.value);
      IndexOfVersion(c, k, rx);
      BumpBetweenStored(c, k, i, mode, rx);
      CheckedBase(c.versions[k], c.versions[i], mode, rx);
    } else if i > 0 {
      IndexOfVersion(c, i - 1, rx);
      BumpBetweenStored(c, i - 1, i, mode, rx);
      CheckedBase(c.versions[i - 1], c.versions[i], mode, rx);
    }
  }

  lemma CheckedBase(base: Version, candidate: Version, mode: Option<Mode>, rx: Matcher)
    ensures CheckBetween(base, candidate, mode, rx).Ok? ==>
              CheckBetween(base, candidate, mode, rx).value.base == base.text
  {
    hide SemVers.Parse, Keyed, BuildReport, Decode, Diff.DiffOf, Precedence.DetectBump, Precedence.CompareTexts;
  }

  lemma LiveIndexOf(st: State, id: nat, rx: Matcher)
    requires StateOk(st, rx) && Live(st, id)
    ensures LiveIndex(st, st[id].namespace, st[id].name) == id
  {
    hide ContractOk, SemVers.Parse, Keyed;
    var k := LiveIndex(st, st[id].namespace, st[id].name);
    assert !(id < k);
  }

  /** A promoted version is the one then published as active. */
  lemma PromotedIsActive(calls: seq<Call>, id: nat, text: string, rx: Matcher)
    requires PromoteStep(Run(calls, rx), id, text).result.Ok?
    ensures
      var st := Run(calls, rx);
      var o := PromoteStep(st, id, text);
      o.result.value.text == text && ActiveVersion(o.state, st[id].namespace, st[id].name) == o.result
  {
    hide Run, StateOk, VersionOk, ChainOk, ActiveOk, SemVers.Parse, Keyed, VersionIndex;
    RunOk(calls, rx);
    var st := Run(calls, rx);
    var o := PromoteStep(st, id, text);
    StatusKeeps(st, id, text, rx);
    LiveIndexOf(o.state, id, rx);
    var i := VersionIndex(st[id].versions, text);
    FoundText(st[id].versions, text);
    ContractAt(o.state, id, rx);
    IndexOfVersion(o.state[id], i, rx);
  }

  lemma FoundText(versions: seq<Version>, text: string)
    ensures VersionIndex(versions, text) < |versions| ==> versions[VersionIndex(versions, text)].text == text
  {
    hide SemVers.Parse, Keyed;
  }

  lemma ContractAt(st: State, id: nat, rx: Matcher)
    requires StateOk(st, rx) && id < |st|
    ensures ContractOk(st[id], rx)
  {
    hide ContractOk, SemVers.Parse, Keyed;
  }

  /** A deprecated version is not published as active. */
  lemma DeprecatedIsNotActive(calls: seq<Call>, id: nat, text: string, rx: Matcher)
    requires DeprecateStep(Run(calls, rx), id, text).result.Ok?
    ensures
      var st := Run(calls, rx);
      var o := DeprecateStep(st, id, text);
      && (st[id].active == Some(o.result.value.text) ==>
            ActiveVersion(o.state, st[id].namespace, st[id].name) == Err(ActiveVersionNotFound))
      && (st[id].active != Some(o.result.value.text) ==>
            ActiveVersion(o.state, st[id].namespace, st[id].name) == ActiveVersion(st, st[id].namespace, st[id].name))
  {
    hide Run, StateOk, VersionOk, ChainOk, ActiveOk, SemVers.Parse, Keyed, VersionIndex;
    RunOk(calls, rx);
    var st := Run(calls, rx);
    var o := DeprecateStep(st, id, text);
    StatusKeeps(st, id, text, rx);
    LiveIndexOf(o.state, id, rx);
    LiveIndexOf(st, id, rx);
    ContractAt(st, id, rx);
    ContractAt(o.state, id, rx);
    var i := VersionIndex(st[id].versions, text);
    if st[id].active.Some? && st[id].active.value != st[id].versions[i].text {
      ActiveIndex(st[id], rx);
      ActiveIndex(o.state[id], rx);
      var k := VersionIndex(st[id].versions, st[id].active.value);
      IndexOfVersion(o.state[id], k, rx);
    }
  }

  lemma ActiveIndex(c: Contract, rx: Matcher)
    requires ContractOk(c, rx) && c.active.Some?
    ensures HasVersion(c, c.active.value) && c.versions[VersionIndex(c.versions, c.active.value)].text == c.active.value
  {
    hide VersionOk, ChainOk, SemVers.Parse, Keyed, VersionIndex;
    var k :| 0 <= k < |c.versions| && Published(c.versions[k], c.active.value);
    IndexOfVersion(c, k, rx);
  }

  /** Neither archiving nor any later call frees the name of a contract. */
  lemma NameStaysTaken(calls: seq<Call>, more: seq<Call>, id: nat, rx: Matcher)
    requires id < |Run(calls, rx)|
    ensures
      var c := Run(calls, rx)[id];
      CreateContractStep(Run(calls + more, rx), c.namespace, c.name).result == Err(ContractExists)
  {
    hide Run, SemVers.Parse, Keyed;
    RunKept(calls, more, rx);
    assert ContractKept(Run(calls, rx)[id], Run(calls + more, rx)[id]);
  }
}
