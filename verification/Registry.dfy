/** The contract registry: its rows, each service call as a step on them, and the store that performs the steps. */
module Registry {
  import opened Enums
  import opened Wrappers
  import opened Texts
  import opened Documents
  import opened Schemas
  import opened Rules
  import opened SemVers
  import opened Precedence
  import opened Profile
  import opened WellFormedness
  import opened Diff
  import opened Introspection

  // ---------- Rows ----------

  /** A row of `contract_versions`. */
  datatype Version = Version(text: VersionText, status: VersionStatus, schema: Document, mode: Mode, locked: bool)

  /** A row of `compatibility_checks`. */
  datatype CheckRow = CheckRow(
    base: VersionText,
    candidate: VersionText,
    mode: Mode,
    verdict: Verdict,
    bump: Option<Bump>,
    report: CompatibilityReport,
    policyPassed: Option<bool>,
    diff: SchemaDiff)
  {
    /** `policy_passed is False` */
    predicate Rejects() {
      policyPassed.Some? && !policyPassed.value
    }

    predicate Passes() {
      policyPassed.Some? && policyPassed.value
    }
  }

  /** A row of `contracts` with its versions and checks in the order of their creation. */
  datatype Contract = Contract(
    namespace: string,
    name: string,
    status: ContractStatus,
    active: Option<VersionText>,
    deleted: bool,
    versions: seq<Version>,
    checks: seq<CheckRow>)

  /** Contracts are identified by their position. */
  type State = seq<Contract>

  datatype Error =
    | ContractExists | ContractNotFound | VersionNotFound | ActiveVersionNotFound
    | InvalidSemver | SchemaInvalid | VersionExists | VersionOrder | BumpUnsupported | PolicyViolated
    | BaseVersionRequired | ColumnUnsupported
    | ServerFault  // a Python exception inside the schema validator

  datatype Outcome<T> = Outcome(state: State, result: Result<T, Error>)

  predicate Live(st: State, id: nat) {
    id < |st| && !st[id].deleted
  }

  function VersionTexts(versions: seq<Version>): (texts: seq<VersionText>)
    ensures |texts| == |versions|
    ensures forall i | 0 <= i < |texts| :: texts[i] == versions[i].text
  {
    seq(|versions|, i requires 0 <= i < |versions| => versions[i].text)
  }

  /** The position of the version with the given text, or the number of versions when there is none. */
  function VersionIndex(versions: seq<Version>, text: string): (r: nat)
    ensures r <= |versions|
  {
    FirstIndex(VersionTexts(versions), text)
  }

  predicate HasVersion(c: Contract, text: string) {
    VersionIndex(c.versions, text) < |c.versions|
  }

  /** `_get_latest_version_row` */
  function Latest(versions: seq<Version>): Option<Version> {
    if versions == [] then None else Some(versions[MaxIndex(VersionTexts(versions))])
  }

  /** The versions strictly below the given one, the latest created first. */
  function LowerVersions(versions: seq<Version>, text: VersionText): seq<Version> {
    if versions == [] then []
    else
      var last := versions[|versions| - 1];
      (if CompareTexts(last.text, text) < 0 then [last] else []) + LowerVersions(versions[..|versions| - 1], text)
  }

  /** `get_previous_version` */
  function Previous(versions: seq<Version>, text: VersionText): Option<Version> {
    Latest(LowerVersions(versions, text))
  }

  predicate NameTaken(st: State, namespace: string, name: string) {
    exists i | 0 <= i < |st| :: st[i].namespace == namespace && st[i].name == name
  }

  /** The query for a contract of the same name that is not archived. */
  predicate NameLive(st: State, namespace: string, name: string) {
    exists i | 0 <= i < |st| :: st[i].namespace == namespace && st[i].name == name && !st[i].deleted
  }

  // ---------- Steps on contracts ----------

  function FreshContract(namespace: string, name: string): Contract {
    Contract(namespace, name, ContractDraft, None, false, [], [])
  }

  /** Names stay taken after a contract is archived: the unique constraint ignores deletion. */
  function CreateContractStep(st: State, namespace: string, name: string): Outcome<nat> {
    if NameTaken(st, namespace, name) then Outcome(st, Err(ContractExists))
    else Outcome(st + [FreshContract(namespace, name)], Ok(|st|))
  }

  function UpdateContractStep(st: State, id: nat, status: Option<ContractStatus>): Outcome<nat> {
    if !Live(st, id) then Outcome(st, Err(ContractNotFound))
    else if status.None? then Outcome(st, Ok(id))
    else Outcome(st[id := st[id].(status := status.value)], Ok(id))
  }

  function ArchiveContractStep(st: State, id: nat): Outcome<nat> {
    if !Live(st, id) then Outcome(st, Err(ContractNotFound))
    else Outcome(st[id := st[id].(status := ContractArchived, deleted := true)], Ok(id))
  }

  // ---------- Steps on versions ----------

  /** `_build_compatibility_check` */
  function AuditRow(base: Version, text: VersionText, schema: Doc, rx: Matcher): Result<CheckRow, BumpError> {
    match DetectBump(base.text, text)
    case Err(e) => Err(e)
    case Ok(bump) =>
      var report := BuildReport(Decode(base.schema), Decode(schema), rx);
      var mode := RequiredMode(bump);
      Ok(CheckRow(base.text, text, mode, VerdictForMode(report, mode), Some(bump), report,
                  Some(PolicyPassed(report, bump)), DiffOf(base.schema, schema)))
  }

  function FreshVersion(text: VersionText, schema: Document, mode: Mode): Version {
    Version(text, Draft, schema, mode, false)
  }

  function BumpFailure(e: BumpError): Error {
    match e
    case InvalidOrder => VersionOrder
    case UnsupportedBump => BumpUnsupported
  }

  /** `create_version` on a live contract, once the text and the schema are accepted. */
  function AddVersion(c: Contract, text: VersionText, schema: Document, mode: Mode, rx: Matcher): (Contract,
        Result<Version, Error>) {
    var added := FreshVersion(text, schema, mode);
    if HasVersion(c, text) then (c, Err(VersionExists))
    else
      match Latest(c.versions)
      case None => (c.(versions := c.versions + [added]), Ok(added))
      case Some(latest) =>
        if CompareTexts(text, latest.text) <= 0 then (c, Err(VersionOrder))
        else
          match AuditRow(latest, text, schema, rx)
          case Err(e) => (c, Err(BumpFailure(e)))
          case Ok(row) =>
            if row.Rejects() then (c.(checks := c.checks + [row]), Err(PolicyViolated))
            else (c.(versions := c.versions + [added], checks := c.checks + [row]), Ok(added))
  }

  function CreateVersionStep(st: State, id: nat, text: string, schema: Document, mode: Mode,
        rx: Matcher): Outcome<Version> {
    if Parse(text).None? then Outcome(st, Err(InvalidSemver))
    else if !Live(st, id) then Outcome(st, Err(ContractNotFound))
    else if !Checkable(schema) then Outcome(st, Err(ServerFault))
    else if !Accepted(schema) then Outcome(st, Err(SchemaInvalid))
    else
      var (c, r) := AddVersion(st[id], text, schema, mode, rx);
      Outcome(st[id := c], r)
  }

  function SetVersion(c: Contract, i: nat, v: Version): Contract
    requires i < |c.versions|
  {
    c.(versions := c.versions[i := v])
  }

  function PromoteStep(st: State, id: nat, text: string): Outcome<Version> {
    if !Live(st, id) then Outcome(st, Err(ContractNotFound))
    else if !HasVersion(st[id], text) then Outcome(st, Err(VersionNotFound))
    else
      var i := VersionIndex(st[id].versions, text);
      var v := st[id].versions[i].(status := Stable, locked := true);
      Outcome(st[id := SetVersion(st[id], i, v).(active := Some(v.text), status := ContractActive)], Ok(v))
  }

  function DeprecateStep(st: State, id: nat, text: string): Outcome<Version> {
    if !Live(st, id) then Outcome(st, Err(ContractNotFound))
    else if !HasVersion(st[id], text) then Outcome(st, Err(VersionNotFound))
    else
      var i := VersionIndex(st[id].versions, text);
      var v := st[id].versions[i].(status := Deprecated, locked := true);
      var c := SetVersion(st[id], i, v);
      Outcome(st[id := if c.active == Some(v.text) then c.(active := None) else c], Ok(v))
  }

  /** The base a check compares with: the requested one, else the active one, else the one before the candidate. */
  function BaseOf(c: Contract, candidate: Version, requested: Option<string>): Option<string> {
    if requested.Some? && requested.value != "" then requested
    else if c.active.Some? then c.active
    else
      match Previous(c.versions, candidate.text)
      case None => None
      case Some(v) => Some(v.text)
  }

  function CheckBetween(base: Version, candidate: Version, mode: Option<Mode>, rx: Matcher): Result<CheckRow,
        BumpError> {
    var used := mode.GetOr(candidate.mode);
    var report := BuildReport(Decode(base.schema), Decode(candidate.schema), rx);
    var row := CheckRow(base.text, candidate.text, used, VerdictForMode(report, used), None,
                        report, None, DiffOf(base.schema, candidate.schema));
    if CompareTexts(candidate.text, base.text) > 0 then
      match DetectBump(base.text, candidate.text)
      case Err(e) => Err(e)
      case Ok(bump) => Ok(row.(bump := Some(bump), policyPassed := Some(PolicyPassed(report, bump))))
    else Ok(row)
  }

  function CheckStep(st: State, id: nat, text: string, requested: Option<string>, mode: Option<Mode>,
        rx: Matcher): Outcome<CheckRow> {
    if !Live(st, id) then Outcome(st, Err(ContractNotFound))
    else if !HasVersion(st[id], text) then Outcome(st, Err(VersionNotFound))
    else
      var c := st[id];
      var candidate := c.versions[VersionIndex(c.versions, text)];
      var base := BaseOf(c, candidate, requested);
      if base.None? then Outcome(st, Err(BaseVersionRequired))
      else if !HasVersion(c, base.value) then Outcome(st, Err(VersionNotFound))
      else
        match CheckBetween(c.versions[VersionIndex(c.versions, base.value)], candidate, mode, rx)
        case Err(e) => Outcome(st, Err(BumpFailure(e)))
        case Ok(row) => Outcome(st[id := c.(checks := c.checks + [row])], Ok(row))
  }

  const DEFAULT_VERSION: VersionText := PlainText(0, 1, 0)

  function IntrospectedContract(namespace: string, name: string, schema: Document): Contract {
    FreshContract(namespace, name).(versions := [FreshVersion(DEFAULT_VERSION, schema, ModeBackward)])
  }

  function AddIntrospected(st: State, namespace: string, name: string, schema: Document): Outcome<nat> {
    if !Accepted(schema) then Outcome(st, Err(SchemaInvalid))
    else if NameTaken(st, namespace, name) then Outcome(st, Err(ContractExists))
    else Outcome(st + [IntrospectedContract(namespace, name, schema)], Ok(|st|))
  }

  function IntrospectStep(st: State, namespace: string, name: string, columns: seq<Column>, primaryKeys: seq<string>,
        origin: string): Outcome<nat> {
    match TableDocument(columns, primaryKeys, origin)
    case Err(_) => Outcome(st, Err(ColumnUnsupported))
    case Ok(schema) => AddIntrospected(st, namespace, name, schema)
  }

  /** The position of the live contract with the given name, or the number of contracts when there is none. */
  function LiveIndex(st: State, namespace: string, name: string): (r: nat)
    ensures r <= |st|
    ensures r < |st| ==> st[r].namespace == namespace && st[r].name == name && !st[r].deleted
    ensures forall i | 0 <= i < r :: !(st[i].namespace == namespace && st[i].name == name && !st[i].deleted)
  {
    if st == [] || (st[0].namespace == namespace && st[0].name == name && !st[0].deleted) then 0
    else 1 + LiveIndex(st[1..], namespace, name)
  }

  /** `get_active_version_by_namespace_name` */
  function ActiveVersion(st: State, namespace: string, name: string): Result<Version, Error> {
    var id := LiveIndex(st, namespace, name);
    if id == |st| then Err(ContractNotFound)
    else if st[id].active.None? then Err(ActiveVersionNotFound)
    else if !HasVersion(st[id], st[id].active.value) then Err(VersionNotFound)
    else Ok(st[id].versions[VersionIndex(st[id].versions, st[id].active.value)])
  }
}
