/** What holds after every sequence of service calls. */
module Lifecycle {
  import opened Enums
  import opened Wrappers
  import opened Documents
  import opened Schemas
  import opened Rules
  import opened Soundness
  import opened CompatibilityOrder
  import opened SemVers
  import Precedence
  import opened Profile
  import opened WellFormedness
  import opened Introspection
  import opened Registry
  import Diff

  type VersionText = Precedence.VersionText

  // ---------- Runs ----------

  datatype Call =
    | CreateContract(namespace: string, name: string)
    | UpdateContract(id: nat, status: Option<ContractStatus>)
    | ArchiveContract(id: nat)
    | CreateVersion(id: nat, text: string, schema: Document, mode: Mode)
    | PromoteVersion(id: nat, text: string)
    | DeprecateVersion(id: nat, text: string)
    | CheckCompatibility(id: nat, text: string, requested: Option<string>, checkMode: Option<Mode>)
    | IntrospectTable(namespace: string, name: string, columns: seq<Column>, primaryKeys: seq<string>, origin: string)

  function Apply(st: State, call: Call, rx: Matcher): State {
    match call
    case CreateContract(namespace, name) => CreateContractStep(st, namespace, name).state
    case UpdateContract(id, status) => UpdateContractStep(st, id, status).state
    case ArchiveContract(id) => ArchiveContractStep(st, id).state
    case CreateVersion(id, text, schema, mode) => CreateVersionStep(st, id, text, schema, mode, rx).state
    case PromoteVersion(id, text) => PromoteStep(st, id, text).state
    case DeprecateVersion(id, text) => DeprecateStep(st, id, text).state
    case CheckCompatibility(id, text, requested, mode) => CheckStep(st, id, text, requested, mode, rx).state
    case IntrospectTable(namespace, name, columns, primaryKeys, origin) =>
      IntrospectStep(st, namespace, name, columns, primaryKeys, origin).state
  }

  /** The state after the calls, starting from an empty store. */
  function Run(calls: seq<Call>, rx: Matcher): State {
    if calls == [] then [] else Apply(Run(calls[..|calls| - 1], rx), calls[|calls| - 1], rx)
  }

  lemma RunStep(calls: seq<Call>, call: Call, rx: Matcher)
    ensures Run(calls + [call], rx) == Apply(Run(calls, rx), call, rx)
  {
    hide Apply;
    assert (calls + [call])[..|calls|] == calls;
  }

  // ---------- The invariant ----------

  predicate VersionOk(v: Version) {
    Accepted(v.schema) && (v.status == Draft <==> !v.locked)
  }

  /** The second version is a bump of the first, and the schemas are as compatible as that bump requires. */
  predicate StepAllowed(a: Version, b: Version, rx: Matcher) {
    var bump := Precedence.DetectBump(a.text, b.text);
    bump.Ok? && PolicyPassed(BuildReport(Decode(a.schema), Decode(b.schema), rx), bump.value)
  }

  /** The passing check of the second version against the first is on record. */
  predicate Audited(checks: seq<CheckRow>, a: Version, b: Version, rx: Matcher) {
    exists k | 0 <= k < |checks| :: AuditRow(a, b.text, b.schema, rx) == Ok(checks[k]) && checks[k].Passes()
  }

  /** The version has the given text and is stable and locked. */
  predicate Published(v: Version, text: string) {
    v.text == text && v.status == Stable && v.locked
  }

  predicate ActiveOk(c: Contract) {
    c.active.Some? ==> exists i | 0 <= i < |c.versions| :: Published(c.versions[i], c.active.value)
  }

  predicate ChainOk(c: Contract, rx: Matcher) {
    forall i | 0 <= i < |c.versions| - 1 ::
      StepAllowed(c.versions[i], c.versions[i + 1], rx) && Audited(c.checks, c.versions[i], c.versions[i + 1], rx)
  }

  predicate ContractOk(c: Contract, rx: Matcher) {
    && (forall i | 0 <= i < |c.versions| :: VersionOk(c.versions[i]))
    && ChainOk(c, rx)
    && ActiveOk(c)
    && (c.deleted ==> c.status == ContractArchived)
  }

  predicate StateOk(st: State, rx: Matcher) {
    && (forall id | 0 <= id < |st| :: ContractOk(st[id], rx))
    && (forall i, j | 0 <= i < j < |st| :: st[i].namespace != st[j].namespace || st[i].name != st[j].name)
  }

  // ---------- Cores along a chain ----------

  function CoreAt(c: Contract, i: nat): Precedence.Core
    requires i < |c.versions|
  {
    Precedence.TextCore(c.versions[i].text)
  }

  lemma StepGrows(a: Version, b: Version, rx: Matcher)
    requires StepAllowed(a, b, rx)
    ensures Precedence.CoreLess(Precedence.TextCore(a.text), Precedence.TextCore(b.text))
  {
    hide Precedence.DetectBump, Precedence.TextCore, BuildReport, Decode, PolicyPassed;
    Precedence.BumpExact(a.text, b.text);
  }

  lemma {:induction false} CoresIncrease(c: Contract, i: nat, j: nat, rx: Matcher)
    requires ChainOk(c, rx) && i < j < |c.versions|
    ensures Precedence.CoreLess(CoreAt(c, i), CoreAt(c, j))
    decreases j
  {
    hide SemVers.Parse, Keyed, StepAllowed, Audited, Precedence.TextCore;
    assert StepAllowed(c.versions[j - 1], c.versions[j - 1 + 1], rx);
    StepGrows(c.versions[j - 1], c.versions[j], rx);
    if i < j - 1 {
      CoresIncrease(c, i, j - 1, rx);
    }
  }

  lemma LaterIsGreater(c: Contract, i: nat, j: nat, rx: Matcher)
    requires ChainOk(c, rx) && i < j < |c.versions|
    ensures Precedence.CompareTexts(c.versions[i].text, c.versions[j].text) < 0
    ensures Precedence.CompareTexts(c.versions[j].text, c.versions[i].text) > 0
    ensures c.versions[i].text != c.versions[j].text
  {
    hide ChainOk, SemVers.Parse;
    CoresIncrease(c, i, j, rx);
    Precedence.Antisymmetric(Precedence.Parsed(c.versions[i].text), Precedence.Parsed(c.versions[j].text));
  }

  /** The latest version by precedence is the last one created. */
  lemma LatestIsLast(c: Contract, rx: Matcher)
    requires ChainOk(c, rx) && c.versions != []
    ensures Latest(c.versions) == Some(c.versions[|c.versions| - 1])
  {
    hide SemVers.Parse, Keyed, ChainOk, Precedence.CompareTexts;
    var texts := VersionTexts(c.versions);
    var m := Precedence.MaxIndex(texts);
    Precedence.MaxIndexGreatest(texts);
    if m < |texts| - 1 {
      LaterIsGreater(c, m, |texts| - 1, rx);
    }
  }

  lemma IndexOfVersion(c: Contract, i: nat, rx: Matcher)
    requires ChainOk(c, rx) && i < |c.versions|
    ensures VersionIndex(c.versions, c.versions[i].text) == i
  {
    hide ChainOk;
    var k := VersionIndex(c.versions, c.versions[i].text);
    if k < i {
      LaterIsGreater(c, k, i, rx);
    }
  }

  // ---------- Every call keeps the invariant ----------

  lemma AuditedKept(checks: seq<CheckRow>, row: CheckRow, a: Version, b: Version, rx: Matcher)
    requires Audited(checks, a, b, rx)
    ensures Audited(checks + [row], a, b, rx)
  {
    hide AuditRow;
    var k :| 0 <= k < |checks| && AuditRow(a, b.text, b.schema, rx) == Ok(checks[k]) && checks[k].Passes();
    assert (checks + [row])[k] == checks[k];
  }

  lemma ChecksAppended(c: Contract, row: CheckRow, rx: Matcher)
    requires ContractOk(c, rx)
    ensures ContractOk(c.(checks := c.checks + [row]), rx)
  {
    hide VersionOk, StepAllowed, Audited;
    forall i | 0 <= i < |c.versions| - 1 ensures Audited(c.checks + [row], c.versions[i], c.versions[i + 1], rx) {
      AuditedKept(c.checks, row, c.versions[i], c.versions[i + 1], rx);
    }
  }

  lemma ChainAppended(c: Contract, added: Version, row: CheckRow, rx: Matcher)
    requires ChainOk(c, rx) && c.versions != []
    requires StepAllowed(c.versions[|c.versions| - 1], added, rx)
    requires Audited(c.checks + [row], c.versions[|c.versions| - 1], added, rx)
    ensures ChainOk(c.(versions := c.versions + [added], checks := c.checks + [row]), rx)
  {
    hide SemVers.Parse, Keyed, StepAllowed, Audited;
    var c' := c.(versions := c.versions + [added], checks := c.checks + [row]);
    forall i | 0 <= i < |c'.versions| - 1
      ensures StepAllowed(c'.versions[i], c'.versions[i + 1], rx)
      ensures Audited(c'.checks, c'.versions[i], c'.versions[i + 1], rx)
    {
      if i < |c.versions| - 1 {
        AuditedKept(c.checks, row, c.versions[i], c.versions[i + 1], rx);
      }
    }
  }

  lemma VersionAppended(c: Contract, added: Version, row: CheckRow, rx: Matcher)
    requires ContractOk(c, rx) && c.versions != [] && VersionOk(added)
    requires AuditRow(c.versions[|c.versions| - 1], added.text, added.schema, rx) == Ok(row) && row.Passes()
    ensures ContractOk(c.(versions := c.versions + [added], checks := c.checks + [row]), rx)
  {
    hide SemVers.Parse, Keyed, VersionOk, ChainOk, StepAllowed, Audited, AuditRow, ActiveOk;
    RowAllows(c.versions[|c.versions| - 1], added, row, c.checks, rx);
    ChainAppended(c, added, row, rx);
    ActiveKept(c, c.(versions := c.versions + [added], checks := c.checks + [row]));
  }

  /** A passing audit row is the permission for the step it records. */
  lemma RowAllows(a: Version, b: Version, row: CheckRow, checks: seq<CheckRow>, rx: Matcher)
    requires AuditRow(a, b.text, b.schema, rx) == Ok(row) && row.Passes()
    ensures StepAllowed(a, b, rx) && Audited(checks + [row], a, b, rx)
  {
    assert StepAllowed(a, b, rx) by {
      hide Precedence.DetectBump, BuildReport, Decode, Diff.DiffOf;
    }
    hide AuditRow;
    assert (checks + [row])[|checks|] == row;
  }

  lemma ActiveKept(c: Contract, c': Contract)
    requires ActiveOk(c) && c.versions <= c'.versions && c.active == c'.active
    ensures ActiveOk(c')
  {
    if c.active.Some? {
      var i :| 0 <= i < |c.versions| && Published(c.versions[i], c.active.value);
      assert Published(c'.versions[i], c'.active.value);
    }
  }

  lemma AddVersionKeeps(c: Contract, text: VersionText, schema: Document, mode: Mode, rx: Matcher)
    requires ContractOk(c, rx) && Accepted(schema)
    ensures ContractOk(AddVersion(c, text, schema, mode, rx).0, rx)
  {
    hide SemVers.Parse, Keyed, Accepted, AuditRow, Latest, ContractOk, ChainOk, HasVersion, Precedence.CompareTexts;
    LatestRow(c, rx);
    var added := FreshVersion(text, schema, mode);
    if c.versions == [] {
      FirstVersion(c, added, rx);
    } else {
      var last := c.versions[|c.versions| - 1];
      match AuditRow(last, text, schema, rx)
      case Err(_) =>
      case Ok(row) =>
        PolicyDecided(last, text, schema, rx);
        if row.Passes() {
          VersionAppended(c, added, row, rx);
        } else {
          ChecksAppended(c, row, rx);
        }
    }
  }

  lemma LatestRow(c: Contract, rx: Matcher)
    requires ContractOk(c, rx)
    ensures Latest(c.versions) == if c.versions == [] then None else Some(c.versions[|c.versions| - 1])
  {
    hide VersionOk, ActiveOk, ChainOk;
    if c.versions != [] {
      LatestIsLast(c, rx);
    }
  }

  lemma PolicyDecided(base: Version, text: VersionText, schema: Doc, rx: Matcher)
    requires AuditRow(base, text, schema, rx).Ok?
    ensures AuditRow(base, text, schema, rx).value.policyPassed.Some?
  {
    hide BuildReport, Decode;
  }

  lemma FirstVersion(c: Contract, added: Version, rx: Matcher)
    requires ContractOk(c, rx) && c.versions == [] && VersionOk(added)
    ensures ContractOk(c.(versions := c.versions + [added]), rx) && Latest(c.versions).None?
  {
    hide VersionOk;
  }

  /** A version whose status moved on. */
  predicate Advanced(v: Version, v': Version) {
    v'.text == v.text && v'.schema == v.schema && v'.mode == v.mode && v'.status != Draft && v'.locked
  }

  lemma SameStep(a: Version, b: Version, a': Version, b': Version, checks: seq<CheckRow>, rx: Matcher)
    requires a.text == a'.text && a.schema == a'.schema && b.text == b'.text && b.schema == b'.schema
    requires StepAllowed(a, b, rx) && Audited(checks, a, b, rx)
    ensures StepAllowed(a', b', rx) && Audited(checks, a', b', rx)
  {
    SameAudit(a, a', b.text, b.schema, rx);
    hide AuditRow, BuildReport;
    var k :| 0 <= k < |checks| && AuditRow(a, b.text, b.schema, rx) == Ok(checks[k]) && checks[k].Passes();
    assert AuditRow(a', b'.text, b'.schema, rx) == Ok(checks[k]);
  }

  lemma SameAudit(a: Version, a': Version, text: VersionText, schema: Doc, rx: Matcher)
    requires a.text == a'.text && a.schema == a'.schema
    ensures AuditRow(a, text, schema, rx) == AuditRow(a', text, schema, rx)
  {
  }

  lemma VersionReplaced(c: Contract, i: nat, v: Version, rx: Matcher)
    requires ContractOk(c, rx) && i < |c.versions| && Advanced(c.versions[i], v)
    ensures VersionOk(v) && ChainOk(SetVersion(c, i, v), rx)
    ensures forall k | 0 <= k < |c.versions| :: VersionOk(SetVersion(c, i, v).versions[k])
  {
    hide StepAllowed, Audited, Accepted;
    var c' := SetVersion(c, i, v);
    forall k | 0 <= k < |c'.versions| - 1
      ensures StepAllowed(c'.versions[k], c'.versions[k + 1], rx)
      ensures Audited(c'.checks, c'.versions[k], c'.versions[k + 1], rx)
    {
      SameStep(c.versions[k], c.versions[k + 1], c'.versions[k], c'.versions[k + 1], c.checks, rx);
    }
  }

  lemma PromoteKeeps(c: Contract, i: nat, v: Version, rx: Matcher)
    requires ContractOk(c, rx) && i < |c.versions| && Advanced(c.versions[i], v) && v.status == Stable && !c.deleted
    ensures ContractOk(SetVersion(c, i, v).(active := Some(v.text), status := ContractActive), rx)
  {
    hide StepAllowed, Audited, VersionOk;
    VersionReplaced(c, i, v, rx);
    assert Published(SetVersion(c, i, v).versions[i], v.text);
  }

  lemma DeprecateKeeps(c: Contract, i: nat, v: Version, rx: Matcher)
    requires ContractOk(c, rx) && i < |c.versions| && Advanced(c.versions[i], v)
    ensures
      var c' := SetVersion(c, i, v);
      ContractOk(if c'.active == Some(v.text) then c'.(active := None) else c', rx)
  {
    hide StepAllowed, Audited, VersionOk;
    VersionReplaced(c, i, v, rx);
    if c.active.Some? && c.active.value != v.text {
      var k :| 0 <= k < |c.versions| && Published(c.versions[k], c.active.value);
      assert Published(SetVersion(c, i, v).versions[k], c.active.value);
    }
  }

  lemma ContractReplaced(st: State, id: nat, c: Contract, rx: Matcher)
    requires StateOk(st, rx) && id < |st| && ContractOk(c, rx)
    requires c.namespace == st[id].namespace && c.name == st[id].name
    ensures StateOk(st[id := c], rx)
  {
    hide ContractOk;
  }

  lemma ContractAdded(st: State, c: Contract, rx: Matcher)
    requires StateOk(st, rx) && ContractOk(c, rx) && !NameTaken(st, c.namespace, c.name)
    ensures StateOk(st + [c], rx)
  {
    hide ContractOk;
  }

  lemma CreateVersionKeeps(st: State, id: nat, text: string, schema: Document, mode: Mode, rx: Matcher)
    requires StateOk(st, rx)
    ensures StateOk(CreateVersionStep(st, id, text, schema, mode, rx).state, rx)
  {
    hide ContractOk, Checkable, Accepted;
    if Parse(text).Some? && Live(st, id) && Accepted(schema) {
      AddVersionKeeps(st[id], text, schema, mode, rx);
      NameKept(st[id], text, schema, mode, rx);
      ContractReplaced(st, id, AddVersion(st[id], text, schema, mode, rx).0, rx);
    }
  }

  lemma NameKept(c: Contract, text: VersionText, schema: Document, mode: Mode, rx: Matcher)
    ensures AddVersion(c, text, schema, mode, rx).0.namespace == c.namespace
    ensures AddVersion(c, text, schema, mode, rx).0.name == c.name
    ensures AddVersion(c, text, schema, mode, rx).0.deleted == c.deleted
  {
    hide AuditRow, Latest, HasVersion, Precedence.CompareTexts;
  }

  lemma StatusKeeps(st: State, id: nat, text: string, rx: Matcher)
    requires StateOk(st, rx)
    ensures StateOk(PromoteStep(st, id, text).state, rx)
    ensures StateOk(DeprecateStep(st, id, text).state, rx)
  {
    hide ContractOk;
    if Live(st, id) && HasVersion(st[id], text) {
      var i := VersionIndex(st[id].versions, text);
      var v := st[id].versions[i].(status := Stable, locked := true);
      PromoteKeeps(st[id], i, v, rx);
      ContractReplaced(st, id, SetVersion(st[id], i, v).(active := Some(v.text), status := ContractActive), rx);
      var u := st[id].versions[i].(status := Deprecated, locked := true);
      DeprecateKeeps(st[id], i, u, rx);
      var c := SetVersion(st[id], i, u);
      ContractReplaced(st, id, if c.active == Some(u.text) then c.(active := None) else c, rx);
    }
  }

  lemma CheckKeeps(st: State, id: nat, text: string, requested: Option<string>, mode: Option<Mode>, rx: Matcher)
    requires StateOk(st, rx)
    ensures StateOk(CheckStep(st, id, text, requested, mode, rx).state, rx)
  {
    hide ContractOk, CheckBetween, BaseOf;
    var r := CheckStep(st, id, text, requested, mode, rx).result;
    if r.Ok? {
      ChecksAppended(st[id], r.value, rx);
      ContractReplaced(st, id, st[id].(checks := st[id].checks + [r.value]), rx);
    }
  }

  lemma IntrospectKeeps(st: State, namespace: string, name: string, columns: seq<Column>, primaryKeys: seq<string>,
        origin: string, rx: Matcher)
    requires StateOk(st, rx)
    ensures StateOk(IntrospectStep(st, namespace, name, columns, primaryKeys, origin).state, rx)
  {
    hide ContractOk, Accepted, TableDocument;
    if TableDocument(columns, primaryKeys, origin).Ok? {
      var schema := TableDocument(columns, primaryKeys, origin).value;
      var c := IntrospectedContract(namespace, name, schema);
      if Accepted(schema) && !NameTaken(st, namespace, name) {
        FreshOk(c, rx);
        ContractAdded(st, c, rx);
      }
    }
  }

  lemma FreshOk(c: Contract, rx: Matcher)
    requires |c.versions| <= 1 && c.active.None? && !c.deleted
    requires forall i | 0 <= i < |c.versions| :: VersionOk(c.versions[i])
    ensures ContractOk(c, rx)
  {
    hide VersionOk;
  }

  lemma ContractStatusKeeps(st: State, id: nat, status: Option<ContractStatus>, rx: Matcher)
    requires StateOk(st, rx)
    ensures StateOk(UpdateContractStep(st, id, status).state, rx)
    ensures StateOk(ArchiveContractStep(st, id).state, rx)
  {
    hide ContractOk;
    if Live(st, id) {
      if status.Some? {
        StatusChanged(st[id], status.value, false, rx);
        ContractReplaced(st, id, st[id].(status := status.value), rx);
      }
      StatusChanged(st[id], ContractArchived, true, rx);
      ContractReplaced(st, id, st[id].(status := ContractArchived, deleted := true), rx);
    }
  }

  lemma StatusChanged(c: Contract, status: ContractStatus, deleted: bool, rx: Matcher)
    requires ContractOk(c, rx) && (deleted ==> status == ContractArchived)
    ensures ContractOk(c.(status := status, deleted := deleted), rx)
  {
    hide VersionOk, StepAllowed, Audited;
  }

  lemma ApplyKeeps(st: State, call: Call, rx: Matcher)
    requires StateOk(st, rx)
    ensures StateOk(Apply(st, call, rx), rx)
  {
    hide StateOk, SemVers.Parse, Keyed, CreateContractStep, UpdateContractStep, ArchiveContractStep, CreateVersionStep;
    hide PromoteStep, DeprecateStep, CheckStep, IntrospectStep;
    match call
    case CreateContract(namespace, name) => CreateContractKeeps(st, namespace, name, rx);
    case UpdateContract(id, status) => ContractStatusKeeps(st, id, status, rx);
    case ArchiveContract(id) => ContractStatusKeeps(st, id, None, rx);
    case CreateVersion(id, text, schema, mode) => CreateVersionKeeps(st, id, text, schema, mode, rx);
    case PromoteVersion(id, text) => StatusKeeps(st, id, text, rx);
    case DeprecateVersion(id, text) => StatusKeeps(st, id, text, rx);
    case CheckCompatibility(id, text, requested, mode) => CheckKeeps(st, id, text, requested, mode, rx);
    case IntrospectTable(namespace, name, columns, primaryKeys, origin) =>
      IntrospectKeeps(st, namespace, name, columns, primaryKeys, origin, rx);
  }

  lemma CreateContractKeeps(st: State, namespace: string, name: string, rx: Matcher)
    requires StateOk(st, rx)
    ensures StateOk(CreateContractStep(st, namespace, name).state, rx)
  {
    hide ContractOk;
    if !NameTaken(st, namespace, name) {
      FreshOk(FreshContract(namespace, name), rx);
      ContractAdded(st, FreshContract(namespace, name), rx);
    }
  }

  /** After every sequence of calls the registry invariant holds. */
  lemma {:induction false} RunOk(calls: seq<Call>, rx: Matcher)
    ensures StateOk(Run(calls, rx), rx)
  {
    hide ContractOk, Apply;
    if calls != [] {
      RunOk(calls[..|calls| - 1], rx);
      ApplyKeeps(Run(calls[..|calls| - 1], rx), calls[|calls| - 1], rx);
    }
  }
}
