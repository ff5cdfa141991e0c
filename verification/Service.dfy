/** The services over one mutable store; every call performs one step of the registry. */
module Service {
  import opened Enums
  import opened Wrappers
  import opened Documents
  import opened Schemas
  import opened Rules
  import opened SemVers
  import opened Precedence
  import opened Profile
  import opened WellFormedness
  import opened Diff
  import opened Introspection
  import opened Registry
  import opened Lifecycle

  method BuildCompatibilityCheck(base: Version, text: VersionText, schema: Doc, rx: Matcher)
    returns (r: Result<CheckRow, BumpError>)
    ensures r == AuditRow(base, text, schema, rx)
  {
    hide BuildReport, DiffOf, DetectBump, Decode;
    var bump := DetectBump(base.text, text);
    if bump.Err? {
      return Err(bump.error);
    }
    var report := BuildCompatibilityReport(Decode(base.schema), Decode(schema), rx);
    var mode := RequiredMode(bump.value);
    var verdict := VerdictForMode(report, mode);
    var policyPassed := PolicyPassed(report, bump.value);
    var diff := BuildSchemaDiff(base.schema, schema);
    return Ok(CheckRow(base.text, text, mode, verdict, Some(bump.value), report, Some(policyPassed), diff));
  }

  class RegistryService {
    var contracts: State
    const rx: Matcher

    constructor (rx: Matcher)
      ensures contracts == [] && this.rx == rx
    {
      contracts := [];
      this.rx := rx;
    }

    method CreateContract(namespace: string, name: string) returns (r: Result<nat, Error>)
      modifies this
      ensures Outcome(contracts, r) == CreateContractStep(old(contracts), namespace, name)
    {
      if NameLive(contracts, namespace, name) {
        return Err(ContractExists);
      }
      if NameTaken(contracts, namespace, name) {  // the unique constraint fails on commit
        return Err(ContractExists);
      }
      contracts := contracts + [FreshContract(namespace, name)];
      return Ok(|contracts| - 1);
    }

    method UpdateContract(id: nat, status: Option<ContractStatus>) returns (r: Result<nat, Error>)
      modifies this
      ensures Outcome(contracts, r) == UpdateContractStep(old(contracts), id, status)
    {
      if !Live(contracts, id) {
        return Err(ContractNotFound);
      }
      if status.Some? {
        contracts := contracts[id := contracts[id].(status := status.value)];
      }
      return Ok(id);
    }

    method ArchiveContract(id: nat) returns (r: Result<nat, Error>)
      modifies this
      ensures Outcome(contracts, r) == ArchiveContractStep(old(contracts), id)
    {
      if !Live(contracts, id) {
        return Err(ContractNotFound);
      }
      contracts := contracts[id := contracts[id].(status := ContractArchived)];
      contracts := contracts[id := contracts[id].(deleted := true)];
      return Ok(id);
    }

    method CreateVersion(id: nat, text: string, schema: Document, mode: Mode) returns (r: Result<Version, Error>)
      modifies this
      ensures Outcome(contracts, r) == CreateVersionStep(old(contracts), id, text, schema, mode, rx)
    {
      hide Parse, Checkable, Accepted, Keyed, CompareTexts, AuditRow, Latest;
      if Parse(text).None? {
        return Err(InvalidSemver);
      }
      if !Live(contracts, id) {
        return Err(ContractNotFound);
      }
      if !Checkable(schema) {
        return Err(ServerFault);
      }
      var ok, _ := ValidateContractSchema(schema);
      if !ok {
        return Err(SchemaInvalid);
      }
      assert contracts[id := contracts[id]] == contracts;
      if HasVersion(contracts[id], text) {
        return Err(VersionExists);
      }
      var latest := Latest(contracts[id].versions);
      if latest.Some? && CompareTexts(text, latest.value.text) <= 0 {
        return Err(VersionOrder);
      }
      var row: Option<CheckRow> := None;
      if latest.Some? {
        var built := BuildCompatibilityCheck(latest.value, text, schema, rx);
        if built.Err? {
          return Err(BumpFailure(built.error));
        }
        row := Some(built.value);
        if row.value.Rejects() {
          contracts := contracts[id := contracts[id].(checks := contracts[id].checks + [row.value])];
          return Err(PolicyViolated);
        }
      }
      var version := Version(text, Draft, schema, mode, false);
      contracts := contracts[id := contracts[id].(versions := contracts[id].versions + [version])];
      if row.Some? {
        contracts := contracts[id := contracts[id].(checks := contracts[id].checks + [row.value])];
      }
      return Ok(version);
    }

    method PromoteVersion(id: nat, text: string) returns (r: Result<Version, Error>)
      modifies this
      ensures Outcome(contracts, r) == PromoteStep(old(contracts), id, text)
    {
      hide Parse, Keyed;
      if !Live(contracts, id) {
        return Err(ContractNotFound);
      }
      var i := VersionIndex(contracts[id].versions, text);
      if i == |contracts[id].versions| {
        return Err(VersionNotFound);
      }
      var row := contracts[id].versions[i];
      row := row.(status := Stable);
      row := row.(locked := true);
      contracts := contracts[id := SetVersion(contracts[id], i, row)];
      contracts := contracts[id := contracts[id].(active := Some(row.text))];
      contracts := contracts[id := contracts[id].(status := ContractActive)];
      return Ok(row);
    }

    method DeprecateVersion(id: nat, text: string) returns (r: Result<Version, Error>)
      modifies this
      ensures Outcome(contracts, r) == DeprecateStep(old(contracts), id, text)
    {
      hide Parse, Keyed;
      if !Live(contracts, id) {
        return Err(ContractNotFound);
      }
      var i := VersionIndex(contracts[id].versions, text);
      if i == |contracts[id].versions| {
        return Err(VersionNotFound);
      }
      var row := contracts[id].versions[i];
      row := row.(status := Deprecated);
      row := row.(locked := true);
      contracts := contracts[id := SetVersion(contracts[id], i, row)];
      if contracts[id].active == Some(row.text) {
        contracts := contracts[id := contracts[id].(active := None)];
      }
      return Ok(row);
    }

    method CheckCompatibility(id: nat, text: string, requested: Option<string>, mode: Option<Mode>)
      returns (r: Result<CheckRow, Error>)
      modifies this
      ensures Outcome(contracts, r) == CheckStep(old(contracts), id, text, requested, mode, rx)
    {
      hide Parse, Keyed, CompareTexts, BuildReport, DiffOf, DetectBump, Decode, Previous;
      if !Live(contracts, id) {
        return Err(ContractNotFound);
      }
      var c := contracts[id];
      if !HasVersion(c, text) {
        return Err(VersionNotFound);
      }
      var candidate := c.versions[VersionIndex(c.versions, text)];
      var baseText := BaseOf(c, candidate, requested);
      if baseText.None? {
        return Err(BaseVersionRequired);
      }
      if !HasVersion(c, baseText.value) {
        return Err(VersionNotFound);
      }
      var base := c.versions[VersionIndex(c.versions, baseText.value)];
      var used := mode.GetOr(candidate.mode);
      var report := BuildCompatibilityReport(Decode(base.schema), Decode(candidate.schema), rx);
      var diff := BuildSchemaDiff(base.schema, candidate.schema);
      var verdict := VerdictForMode(report, used);
      var bump: Option<Bump> := None;
      var policyPassed: Option<bool> := None;
      if CompareTexts(candidate.text, base.text) > 0 {
        var detected := DetectBump(base.text, candidate.text);
        if detected.Err? {
          return Err(BumpFailure(detected.error));
        }
        bump := Some(detected.value);
        policyPassed := Some(PolicyPassed(report, detected.value));
      }
      var row := CheckRow(base.text, candidate.text, used, verdict, bump, report, policyPassed, diff);
      contracts := contracts[id := c.(checks := c.checks + [row])];
      return Ok(row);
    }

    method IntrospectTable(namespace: string, name: string, columns: seq<Column>, primaryKeys: seq<string>,
          origin: string) returns (r: Result<nat, Error>)
      modifies this
      ensures Outcome(contracts, r) == IntrospectStep(old(contracts), namespace, name, columns, primaryKeys, origin)
    {
      hide StructureOf, GeneratedSchema, Accepted, Checkable, Keyed, Parse, PlainText;
      var structure := LoadTableStructure(columns);
      if structure.Err? {
        return Err(ColumnUnsupported);
      }
      var schema := GeneratedDocument(columns, structure.value, primaryKeys, origin);
      var ok, _ := ValidateContractSchema(schema);
      if !ok {
        return Err(SchemaInvalid);
      }
      if NameLive(contracts, namespace, name) {
        return Err(ContractExists);
      }
      if NameTaken(contracts, namespace, name) {  // the unique constraint fails on commit
        return Err(ContractExists);
      }
      var version := Version(DEFAULT_VERSION, Draft, schema, ModeBackward, false);
      contracts := contracts + [Contract(namespace, name, ContractDraft, None, false, [version], [])];
      return Ok(|contracts| - 1);
    }

    method GetActiveVersion(namespace: string, name: string) returns (r: Result<Version, Error>)
      ensures r == ActiveVersion(contracts, namespace, name)
    {
      hide SemVers.Parse, Keyed, VersionIndex;
      var id := LiveIndex(contracts, namespace, name);
      if id == |contracts| {
        return Err(ContractNotFound);
      }
      if contracts[id].active.None? {
        return Err(ActiveVersionNotFound);
      }
      var i := VersionIndex(contracts[id].versions, contracts[id].active.value);
      if i == |contracts[id].versions| {
        return Err(VersionNotFound);
      }
      return Ok(contracts[id].versions[i]);
    }

    /** Every call performs its step. */
    method Perform(call: Call)
      modifies this
      ensures contracts == Apply(old(contracts), call, rx)
    {
      hide SemVers.Parse, Keyed, CreateContractStep, UpdateContractStep, ArchiveContractStep, CreateVersionStep,
            PromoteStep, DeprecateStep, CheckStep, IntrospectStep;
      match call {
        case CreateContract(namespace, name) => var _ := CreateContract(namespace, name);
        case UpdateContract(id, status) => var _ := UpdateContract(id, status);
        case ArchiveContract(id) => var _ := ArchiveContract(id);
        case CreateVersion(id, text, schema, mode) => var _ := CreateVersion(id, text, schema, mode);
        case PromoteVersion(id, text) => var _ := PromoteVersion(id, text);
        case DeprecateVersion(id, text) => var _ := DeprecateVersion(id, text);
        case CheckCompatibility(id, text, requested, mode) => var _ := CheckCompatibility(id, text, requested, mode);
        case IntrospectTable(namespace, name, columns, primaryKeys, origin) =>
          var _ := IntrospectTable(namespace, name, columns, primaryKeys, origin);
      }
    }

    /** A new store that performs calls one after another is in the state of their run, with the invariant. */
    method PerformAll(calls: seq<Call>)
      requires contracts == []
      modifies this
      ensures contracts == Run(calls, rx) && StateOk(contracts, rx)
    {
      hide StateOk, Apply;
      for i := 0 to |calls|
        invariant contracts == Run(calls[..i], rx)
      {
        assert calls[..i + 1][..i] == calls[..i];
        Perform(calls[i]);
      }
      assert calls[..|calls|] == calls;
      RunOk(calls, rx);
    }
  }
}
