/** What each service call answers and what it changes in the rows, stated on the rows themselves. */
module Effects {
  import opened Enums
  import opened Wrappers
  import opened Documents
  import opened Schemas
  import opened Rules
  import opened SemVers
  import Precedence
  import opened Profile
  import opened WellFormedness
  import Introspection
  import opened Registry
  import opened Lifecycle
  import opened History
  import Diff

  // ---------- Rows and frames ----------

  /** The contract exists and is not archived away. */
  predicate Present(st: State, id: nat) {
    id < |st| && st[id].deleted == false
  }

  /** No contract but the given one differs. */
  predicate OnlyContract(st: State, st': State, id: nat) {
    |st'| == |st| && forall k | 0 <= k < |st| && k != id :: st'[k] == st[k]
  }

  /** The position of a version by its text. */
  predicate IsAt(versions: seq<Version>, i: nat, text: string) {
    i < |versions| && versions[i].text == text && forall k | 0 <= k < i :: versions[k].text != text
  }

  predicate Unknown(versions: seq<Version>, text: string) {
    forall k | 0 <= k < |versions| :: versions[k].text != text
  }

  lemma IndexExact(versions: seq<Version>, i: nat, text: string)
    ensures IsAt(versions, i, text) ==> VersionIndex(versions, text) == i
    ensures VersionIndex(versions, text) == i && i < |versions| ==> IsAt(versions, i, text)
    ensures Unknown(versions, text) <==> VersionIndex(versions, text) == |versions|
  {
    hide SemVers.Parse, Keyed;
    var r := VersionIndex(versions, text);
    assert forall k | 0 <= k < |versions| :: VersionTexts(versions)[k] == versions[k].text;
    if IsAt(versions, i, text) {
      assert !(r < i) && !(i < r);
    }
  }

  // ---------- Contracts ----------

  /** A name is refused while any contract has it, archived or not; a new contract is an empty draft. */
  lemma ContractCreated(st: State, namespace: string, name: string)
    ensures
      var o := CreateContractStep(st, namespace, name);
      if exists i | 0 <= i < |st| :: st[i].namespace == namespace && st[i].name == name then
        o.state == st && o.result == Err(ContractExists)
      else
        && o.result == Ok(|st|) && |o.state| == |st| + 1 && o.state[..|st|] == st
        && var c := o.state[|st|];
           && c.namespace == namespace && c.name == name && c.status == ContractDraft && c.active.None?
           && c.deleted == false && c.versions == [] && c.checks == []
  {
    hide SemVers.Parse, Keyed;
  }

  lemma ContractUpdated(st: State, id: nat, status: Option<ContractStatus>)
    ensures
      var o := UpdateContractStep(st, id, status);
      if !Present(st, id) then o.state == st && o.result == Err(ContractNotFound)
      else
        && o.result == Ok(id) && OnlyContract(st, o.state, id)
        && o.state[id] == st[id].(status := o.state[id].status)
        && o.state[id].status == if status.Some? then status.value else st[id].status
  {
    hide SemVers.Parse, Keyed;
  }

  lemma ContractArchived(st: State, id: nat)
    ensures
      var o := ArchiveContractStep(st, id);
      if !Present(st, id) then o.state == st && o.result == Err(ContractNotFound)
      else
        && o.result == Ok(id) && OnlyContract(st, o.state, id)
        && o.state[id] == st[id].(status := ContractStatus.ContractArchived, deleted := true)
  {
    hide SemVers.Parse, Keyed;
  }

  /** Every call that names the contract is answered with not found. */
  ghost predicate Gone(st: State, id: nat, rx: Matcher) {
    && (forall status :: UpdateContractStep(st, id, status) == Outcome(st, Err(ContractNotFound)))
    && ArchiveContractStep(st, id) == Outcome(st, Err(ContractNotFound))
    && (forall text, schema, mode | Parse(text).Some? ::
          CreateVersionStep(st, id, text, schema, mode, rx) == Outcome(st, Err(ContractNotFound)))
    && (forall text :: PromoteStep(st, id, text) == Outcome(st, Err(ContractNotFound)))
    && (forall text :: DeprecateStep(st, id, text) == Outcome(st, Err(ContractNotFound)))
    && (forall text, requested, mode ::
          CheckStep(st, id, text, requested, mode, rx) == Outcome(st, Err(ContractNotFound)))
  }

  lemma DeletedIsGone(st: State, id: nat, rx: Matcher)
    requires id < |st| && st[id].deleted
    ensures Gone(st, id, rx)
  {
    hide SemVers.Parse, Keyed, VersionIndex, CheckBetween, BaseOf, Checkable, Accepted, AddVersion;
  }

  /**
   * Archiving is for good: whatever is called afterwards, the contract stays archived, every call that names it is
   * answered with not found, and so is the lookup of its name.
   */
  lemma ArchivedForGood(calls: seq<Call>, more: seq<Call>, id: nat, rx: Matcher)
    requires ArchiveContractStep(Run(calls, rx), id).result.Ok?
    ensures
      var st := Run(calls + [ArchiveContract(id)] + more, rx);
      && id < |st| && st[id].status == ContractStatus.ContractArchived && Gone(st, id, rx)
      && ActiveVersion(st, st[id].namespace, st[id].name) == Err(ContractNotFound)
  {
    hide Run, Gone, SemVers.Parse, Keyed, StateOk, ContractOk;
    ContractArchived(Run(calls, rx), id);
    assert Run(calls + [ArchiveContract(id)], rx) == ArchiveContractStep(Run(calls, rx), id).state by {
      RunStep(calls, ArchiveContract(id), rx);
    }
    var before := Run(calls + [ArchiveContract(id)], rx);
    RunKept(calls + [ArchiveContract(id)], more, rx);
    var st := Run(calls + [ArchiveContract(id)] + more, rx);
    assert ContractKept(before[id], st[id]);
    DeletedIsGone(st, id, rx);
    RunOk(calls + [ArchiveContract(id)] + more, rx);
    NameOfDeleted(st, id, rx);
  }

  lemma NameOfDeleted(st: State, id: nat, rx: Matcher)
    requires StateOk(st, rx) && id < |st| && st[id].deleted
    ensures ActiveVersion(st, st[id].namespace, st[id].name) == Err(ContractNotFound)
  {
    hide ContractOk, SemVers.Parse, Keyed;
    var k := LiveIndex(st, st[id].namespace, st[id].name);
    assert k != id;
    assert !(k < id) || k >= |st|;
  }

  // ---------- Versions ----------

  /** Only the named contract changes, and of it only its versions and its checks. */
  predicate OnlyVersions(st: State, st': State, id: nat)
    requires id < |st|
  {
    OnlyContract(st, st', id) && st'[id] == st[id].(versions := st'[id].versions, checks := st'[id].checks)
  }

  /** A created version carries the text, schema and mode of the request; it is a draft and not locked. */
  predicate IsDraftOf(v: Version, text: string, schema: Doc, mode: Mode) {
    v.text == text && v.schema == schema && v.mode == mode && v.status == Draft && v.locked == false
  }

  lemma VersionCreated(st: State, id: nat, text: string, schema: Document, mode: Mode, rx: Matcher)
    requires CreateVersionStep(st, id, text, schema, mode, rx).result.Ok?
    ensures
      var o := CreateVersionStep(st, id, text, schema, mode, rx);
      && Present(st, id) && OnlyVersions(st, o.state, id)
      && |o.state[id].versions| == |st[id].versions| + 1 && st[id].versions <= o.state[id].versions
      && IsDraftOf(o.state[id].versions[|st[id].versions|], text, schema, mode)
      && o.result.value == o.state[id].versions[|st[id].versions|]
      && |o.state[id].checks| == |st[id].checks| + (if st[id].versions == [] then 0 else 1)
      && st[id].checks <= o.state[id].checks
  {
    hide SemVers.Parse, Keyed, Checkable, Accepted, Latest, HasVersion, Precedence.CompareTexts, AuditRow;
    LatestNone(st[id].versions);
  }

  lemma LatestNone(versions: seq<Version>)
    ensures Latest(versions).None? <==> versions == []
  {
    hide SemVers.Parse, Keyed;
  }

  /** The answer to a call that names a contract and a version that are not both there. */
  predicate Missing<T(==)>(st: State, id: nat, text: string, o: Outcome<T>) {
    && (!Present(st, id) ==> o.state == st && o.result == Err(ContractNotFound))
    && (Present(st, id) && Unknown(st[id].versions, text) ==> o.state == st && o.result == Err(VersionNotFound))
  }

  /** Only the given version differs among the versions of the contract, and of it only status and lock. */
  predicate OnlyVersion(c: Contract, c': Contract, i: nat)
    requires i < |c.versions|
  {
    && |c'.versions| == |c.versions|
    && (forall k | 0 <= k < |c.versions| && k != i :: c'.versions[k] == c.versions[k])
    && c'.versions[i] == c.versions[i].(status := c'.versions[i].status, locked := c'.versions[i].locked)
    && c'.namespace == c.namespace && c'.name == c.name && c'.deleted == c.deleted && c'.checks == c.checks
  }

  /** A promoted version is stable and locked, and it and its contract are active. */
  lemma VersionPromoted(st: State, id: nat, i: nat, text: string)
    ensures Missing(st, id, text, PromoteStep(st, id, text))
    ensures Present(st, id) && IsAt(st[id].versions, i, text) ==>
              var o := PromoteStep(st, id, text);
              && OnlyContract(st, o.state, id) && OnlyVersion(st[id], o.state[id], i)
              && o.result == Ok(o.state[id].versions[i])
              && o.state[id].versions[i].status == Stable && o.state[id].versions[i].locked == true
              && o.state[id].active == Some(text) && o.state[id].status == ContractStatus.ContractActive
  {
    hide SemVers.Parse, Keyed, VersionIndex;
    if Present(st, id) {
      IndexExact(st[id].versions, i, text);
    }
  }

  /** A deprecated version is deprecated and locked; if it was the active one, there is none. */
  lemma VersionDeprecated(st: State, id: nat, i: nat, text: string)
    ensures Missing(st, id, text, DeprecateStep(st, id, text))
    ensures Present(st, id) && IsAt(st[id].versions, i, text) ==>
              var o := DeprecateStep(st, id, text);
              && OnlyContract(st, o.state, id) && OnlyVersion(st[id], o.state[id], i)
              && o.result == Ok(o.state[id].versions[i])
              && o.state[id].versions[i].status == Deprecated && o.state[id].versions[i].locked == true
              && o.state[id].active == (if st[id].active == Some(text) then None else st[id].active)
              && o.state[id].status == st[id].status
  {
    hide SemVers.Parse, Keyed, VersionIndex;
    if Present(st, id) {
      IndexExact(st[id].versions, i, text);
    }
  }

  // ---------- The status of a version ----------

  /** The version is stored in a contract that is not archived. */
  predicate Stored(st: State, id: nat, text: string) {
    Present(st, id) && !Unknown(st[id].versions, text)
  }

  /** The status that the calls give a version: that of its last promotion or deprecation, or draft. */
  function StatusBy(calls: seq<Call>, id: nat, text: string, rx: Matcher): VersionStatus {
    if calls == [] then Draft
    else
      var init, last := calls[..|calls| - 1], calls[|calls| - 1];
      if !Stored(Run(init, rx), id, text) then StatusBy(init, id, text, rx)
      else if last == PromoteVersion(id, text) then Stable
      else if last == DeprecateVersion(id, text) then Deprecated
      else StatusBy(init, id, text, rx)
  }

  lemma StatusByStep(calls: seq<Call>, call: Call, id: nat, text: string, rx: Matcher)
    ensures StatusBy(calls + [call], id, text, rx) ==
            if !Stored(Run(calls, rx), id, text) then StatusBy(calls, id, text, rx)
            else if call == PromoteVersion(id, text) then Stable
            else if call == DeprecateVersion(id, text) then Deprecated
            else StatusBy(calls, id, text, rx)
  {
    hide Run, Stored;
    assert (calls + [call])[..|calls|] == calls;
  }

  /** What one call does to the status of a version that is stored. */
  lemma StatusStep(st: State, call: Call, id: nat, i: nat, rx: Matcher)
    requires StateOk(st, rx) && id < |st| && i < |st[id].versions|
    ensures
      var st' := Apply(st, call, rx);
      && id < |st'| && i < |st'[id].versions| && st'[id].versions[i].text == st[id].versions[i].text
      && st'[id].versions[i].status ==
           if Present(st, id) && call == PromoteVersion(id, st[id].versions[i].text) then Stable
           else if Present(st, id) && call == DeprecateVersion(id, st[id].versions[i].text) then Deprecated
           else st[id].versions[i].status
  {
    hide SemVers.Parse, Keyed, StateOk, UpdateContractStep, ArchiveContractStep, CreateContractStep, CreateVersionStep,
         PromoteStep, DeprecateStep, CheckStep, Introspection.TableDocument, AddIntrospected, VersionIndex;
    match call
    case CreateContract(namespace, name) => ContractCreated(st, namespace, name);
    case UpdateContract(k, status) => ContractUpdated(st, k, status);
    case ArchiveContract(k) => ContractArchived(st, k);
    case CreateVersion(k, text, schema, mode) => CreationKeepsStatus(st, k, text, schema, mode, id, i, rx);
    case PromoteVersion(k, text) => PromotionStatus(st, k, text, id, i, rx);
    case DeprecateVersion(k, text) => DeprecationStatus(st, k, text, id, i, rx);
    case CheckCompatibility(k, text, requested, mode) => CheckKeepsStatus(st, k, text, requested, mode, id, i, rx);
    case IntrospectTable(namespace, name, columns, primaryKeys, origin) =>
      IntrospectionKeepsStatus(st, namespace, name, columns, primaryKeys, origin, id);
  }

  lemma CreationKeepsStatus(st: State, k: nat, text: string, schema: Document, mode: Mode, id: nat, i: nat, rx: Matcher)
    requires id < |st| && i < |st[id].versions|
    ensures
      var st' := CreateVersionStep(st, k, text, schema, mode, rx).state;
      id < |st'| && i < |st'[id].versions| && st'[id].versions[i] == st[id].versions[i]
  {
    hide SemVers.Parse, Keyed, Checkable, Accepted, Latest, HasVersion, Precedence.CompareTexts, AuditRow;
  }

  lemma CheckKeepsStatus(st: State, k: nat, text: string, requested: Option<string>, mode: Option<Mode>, id: nat,
        i: nat, rx: Matcher)
    requires id < |st| && i < |st[id].versions|
    ensures
      var st' := CheckStep(st, k, text, requested, mode, rx).state;
      id < |st'| && i < |st'[id].versions| && st'[id].versions[i] == st[id].versions[i]
  {
    hide SemVers.Parse, Keyed, VersionIndex, CheckBetween, BaseOf;
  }

  lemma IntrospectionKeepsStatus(st: State, namespace: string, name: string, columns: seq<Introspection.Column>,
        primaryKeys: seq<string>, origin: string, id: nat)
    requires id < |st|
    ensures
      var st' := IntrospectStep(st, namespace, name, columns, primaryKeys, origin).state;
      id < |st'| && st'[id] == st[id]
  {
    hide SemVers.Parse, Keyed, Introspection.TableDocument, Accepted;
  }

  lemma OneAt(st: State, id: nat, i: nat, k: nat, rx: Matcher)
    requires StateOk(st, rx) && id < |st| && i < |st[id].versions|
    ensures IsAt(st[id].versions, i, st[id].versions[i].text)
    ensures k < |st[id].versions| && st[id].versions[k].text == st[id].versions[i].text ==> k == i
  {
    hide SemVers.Parse, Keyed, VersionOk, ChainOk, ActiveOk, VersionIndex;
    assert ContractOk(st[id], rx);
    IndexOfVersion(st[id], i, rx);
    IndexExact(st[id].versions, i, st[id].versions[i].text);
    if k < |st[id].versions| {
      IndexOfVersion(st[id], k, rx);
    }
  }

  lemma PromotionStatus(st: State, k: nat, text: string, id: nat, i: nat, rx: Matcher)
    requires StateOk(st, rx) && id < |st| && i < |st[id].versions|
    ensures
      var st' := PromoteStep(st, k, text).state;
      && id < |st'| && i < |st'[id].versions| && st'[id].versions[i].text == st[id].versions[i].text
      && st'[id].versions[i].status ==
           if Present(st, id) && k == id && text == st[id].versions[i].text then Stable
           else st[id].versions[i].status
  {
    hide SemVers.Parse, Keyed, StateOk, PromoteStep, VersionIndex, IsAt, Unknown;
    if Present(st, k) {
      var n := VersionIndex(st[k].versions, text);
      IndexExact(st[k].versions, n, text);
      VersionPromoted(st, k, n, text);
      if n < |st[k].versions| {
        AtText(st[k].versions, n, text);
      }
      if k == id {
        OneAt(st, id, i, n, rx);
        IndexExact(st[k].versions, i, text);
      }
    } else {
      VersionPromoted(st, k, 0, text);
    }
  }

  lemma DeprecationStatus(st: State, k: nat, text: string, id: nat, i: nat, rx: Matcher)
    requires StateOk(st, rx) && id < |st| && i < |st[id].versions|
    ensures
      var st' := DeprecateStep(st, k, text).state;
      && id < |st'| && i < |st'[id].versions| && st'[id].versions[i].text == st[id].versions[i].text
      && st'[id].versions[i].status ==
           if Present(st, id) && k == id && text == st[id].versions[i].text then Deprecated
           else st[id].versions[i].status
  {
    hide SemVers.Parse, Keyed, StateOk, DeprecateStep, VersionIndex, IsAt, Unknown;
    if Present(st, k) {
      var n := VersionIndex(st[k].versions, text);
      IndexExact(st[k].versions, n, text);
      VersionDeprecated(st, k, n, text);
      if n < |st[k].versions| {
        AtText(st[k].versions, n, text);
      }
      if k == id {
        OneAt(st, id, i, n, rx);
        IndexExact(st[k].versions, i, text);
      }
    } else {
      VersionDeprecated(st, k, 0, text);
    }
  }

  lemma AtText(versions: seq<Version>, n: nat, text: string)
    requires IsAt(versions, n, text)
    ensures n < |versions| && versions[n].text == text && !Unknown(versions, text)
  {
  }

  // ---------- New versions ----------

  /** A version that a call adds is a draft. */
  lemma NewIsDraft(st: State, call: Call, id: nat, i: nat, rx: Matcher)
    requires StateOk(st, rx) && id < |Apply(st, call, rx)| && i < |Apply(st, call, rx)[id].versions|
    requires id < |st| ==> |st[id].versions| <= i
    ensures Apply(st, call, rx)[id].versions[i].status == Draft
    ensures !call.PromoteVersion? && !call.DeprecateVersion?
  {
    hide SemVers.Parse, Keyed, StateOk, UpdateContractStep, ArchiveContractStep, CreateContractStep, CreateVersionStep,
         PromoteStep, DeprecateStep, CheckStep, Introspection.TableDocument, AddIntrospected, VersionIndex;
    match call
    case CreateContract(namespace, name) => ContractCreated(st, namespace, name);
    case UpdateContract(k, status) => ContractUpdated(st, k, status);
    case ArchiveContract(k) => ContractArchived(st, k);
    case CreateVersion(k, text, schema, mode) => CreatedIsDraft(st, k, text, schema, mode, id, i, rx);
    case PromoteVersion(k, text) => SameCount(st, k, text, id);
    case DeprecateVersion(k, text) => SameCount(st, k, text, id);
    case CheckCompatibility(k, text, requested, mode) => SameCountChecked(st, k, text, requested, mode, id, rx);
    case IntrospectTable(namespace, name, columns, primaryKeys, origin) =>
      IntrospectedIsDraft(st, namespace, name, columns, primaryKeys, origin, id, i);
  }

  lemma CreatedIsDraft(st: State, k: nat, text: string, schema: Document, mode: Mode, id: nat, i: nat, rx: Matcher)
    requires
      var st' := CreateVersionStep(st, k, text, schema, mode, rx).state;
      id < |st'| && i < |st'[id].versions| && (id < |st| ==> |st[id].versions| <= i)
    ensures CreateVersionStep(st, k, text, schema, mode, rx).state[id].versions[i].status == Draft
  {
    hide SemVers.Parse, Keyed, Checkable, Accepted, Latest, HasVersion, Precedence.CompareTexts, AuditRow;
  }

  lemma SameCount(st: State, k: nat, text: string, id: nat)
    ensures |PromoteStep(st, k, text).state| == |st| && |DeprecateStep(st, k, text).state| == |st|
    ensures id < |st| ==> |PromoteStep(st, k, text).state[id].versions| == |st[id].versions|
    ensures id < |st| ==> |DeprecateStep(st, k, text).state[id].versions| == |st[id].versions|
  {
    hide SemVers.Parse, Keyed, VersionIndex;
  }

  lemma SameCountChecked(st: State, k: nat, text: string, requested: Option<string>, mode: Option<Mode>, id: nat,
        rx: Matcher)
    ensures |CheckStep(st, k, text, requested, mode, rx).state| == |st|
    ensures id < |st| ==> |CheckStep(st, k, text, requested, mode, rx).state[id].versions| == |st[id].versions|
  {
    hide SemVers.Parse, Keyed, VersionIndex, CheckBetween, BaseOf;
  }

  lemma IntrospectedIsDraft(st: State, namespace: string, name: string, columns: seq<Introspection.Column>,
        primaryKeys: seq<string>, origin: string, id: nat, i: nat)
    requires
      var st' := IntrospectStep(st, namespace, name, columns, primaryKeys, origin).state;
      id < |st'| && i < |st'[id].versions| && (id < |st| ==> |st[id].versions| <= i)
    ensures IntrospectStep(st, namespace, name, columns, primaryKeys, origin).state[id].versions[i].status == Draft
  {
    hide SemVers.Parse, Keyed, Introspection.TableDocument, Accepted;
  }

  /** Calls that come before a version is stored give it no status. */
  lemma {:induction false} NoStatusBefore(calls: seq<Call>, id: nat, text: string, rx: Matcher)
    requires id < |Run(calls, rx)| ==> Unknown(Run(calls, rx)[id].versions, text)
    ensures StatusBy(calls, id, text, rx) == Draft
    decreases |calls|
  {
    hide Run, Unknown;
    if calls != [] {
      var init := calls[..|calls| - 1];
      assert calls == init + [calls[|calls| - 1]];
      StillUnknown(init, [calls[|calls| - 1]], id, text, rx);
      NoStatusBefore(init, id, text, rx);
    }
  }

  lemma StillUnknown(calls: seq<Call>, more: seq<Call>, id: nat, text: string, rx: Matcher)
    requires id < |Run(calls + more, rx)| ==> Unknown(Run(calls + more, rx)[id].versions, text)
    ensures id < |Run(calls, rx)| ==> Unknown(Run(calls, rx)[id].versions, text)
  {
    hide Run, SemVers.Parse, Keyed;
    RunKept(calls, more, rx);
    if id < |Run(calls, rx)| {
      var c, c' := Run(calls, rx)[id], Run(calls + more, rx)[id];
      assert ContractKept(c, c');
      forall k | 0 <= k < |c.versions| ensures c.versions[k].text != text {
        assert VersionKept(c.versions[k], c'.versions[k]);
      }
    }
  }

  /**
   * After every sequence of calls, the status of a version is that of its last promotion or deprecation that found
   * it, and a version that neither has found is a draft; only drafts are unlocked.
   */
  lemma {:induction false} StatusExact(calls: seq<Call>, id: nat, i: nat, rx: Matcher)
    requires id < |Run(calls, rx)| && i < |Run(calls, rx)[id].versions|
    ensures
      var v := Run(calls, rx)[id].versions[i];
      v.status == StatusBy(calls, id, v.text, rx) && (v.locked <==> v.status != Draft)
    decreases |calls|
  {
    hide Apply, SemVers.Parse, Keyed, StateOk, ContractOk, StatusBy;
    LockedExact(calls, id, i, rx);
    assert calls != [];
    var init, last := calls[..|calls| - 1], calls[|calls| - 1];
    assert calls == init + [last];
    var st, st' := Run(init, rx), Run(calls, rx);
    var text := st'[id].versions[i].text;
    assert st' == Apply(st, last, rx);
    hide Run;
    RunOk(init, rx);
    RunOk(calls, rx);
    StatusByStep(init, last, id, text, rx);
    if id < |st| && i < |st[id].versions| {
      StatusStep(st, last, id, i, rx);
      StatusExact(init, id, i, rx);
      StoredExact(st, id, i);
    } else {
      NewIsDraft(st, last, id, i, rx);
      NewIsUnknown(init, last, id, i, rx);
      NoStatusBefore(init, id, text, rx);
    }
  }

  lemma StoredExact(st: State, id: nat, i: nat)
    requires id < |st| && i < |st[id].versions|
    ensures Stored(st, id, st[id].versions[i].text) <==> Present(st, id)
  {
    hide SemVers.Parse, Keyed;
  }

  lemma LockedExact(calls: seq<Call>, id: nat, i: nat, rx: Matcher)
    requires id < |Run(calls, rx)| && i < |Run(calls, rx)[id].versions|
    ensures Run(calls, rx)[id].versions[i].locked <==> Run(calls, rx)[id].versions[i].status != Draft
  {
    hide Run, SemVers.Parse, Keyed, Accepted, ChainOk, ActiveOk;
    RunOk(calls, rx);
    assert ContractOk(Run(calls, rx)[id], rx);
    assert VersionOk(Run(calls, rx)[id].versions[i]);
  }

  /** The text of a version that a call adds was not stored before. */
  lemma NewIsUnknown(calls: seq<Call>, call: Call, id: nat, i: nat, rx: Matcher)
    requires id < |Run(calls + [call], rx)| && i < |Run(calls + [call], rx)[id].versions|
    requires id < |Run(calls, rx)| ==> |Run(calls, rx)[id].versions| <= i
    ensures id < |Run(calls, rx)| ==> Unknown(Run(calls, rx)[id].versions, Run(calls + [call], rx)[id].versions[i].text)
  {
    hide Run, SemVers.Parse, Keyed, StateOk;
    if id < |Run(calls, rx)| {
      RunKept(calls, [call], rx);
      RunOk(calls + [call], rx);
      var c, c' := Run(calls, rx)[id], Run(calls + [call], rx)[id];
      assert ContractKept(c, c');
      forall k | 0 <= k < |c.versions| ensures c.versions[k].text != c'.versions[i].text {
        assert VersionKept(c.versions[k], c'.versions[k]);
        OneAt(Run(calls + [call], rx), id, i, k, rx);
      }
    }
  }

  /** A stable version has been promoted, and a deprecated one deprecated, by a call that found it. */
  lemma {:induction false} StatusReason(calls: seq<Call>, id: nat, text: string, rx: Matcher) returns (k: nat)
    requires StatusBy(calls, id, text, rx) != Draft
    ensures k < |calls| && Stored(Run(calls[..k], rx), id, text)
    ensures calls[k] == if StatusBy(calls, id, text, rx) == Stable then PromoteVersion(id, text)
                        else DeprecateVersion(id, text)
    decreases |calls|
  {
    hide Run, Stored;
    var init := calls[..|calls| - 1];
    if Stored(Run(init, rx), id, text) && calls[|calls| - 1] in [PromoteVersion(id, text), DeprecateVersion(id, text)] {
      k := |calls| - 1;
    } else {
      k := StatusReason(init, id, text, rx);
      assert init[..k] == calls[..k];
    }
  }

  // ---------- Which creations are refused ----------

  /** The schemas are as compatible as the first component of the version that grows requires. */
  predicate Permitted(a: Version, text: Precedence.VersionText, schema: Doc, rx: Matcher) {
    var x, y := Precedence.TextCore(a.text), Precedence.TextCore(text);
    && (x.0 == y.0 ==> Compatible(Decode(a.schema), Decode(schema), rx))
    && (x.0 == y.0 && x.1 == y.1 ==> Compatible(Decode(schema), Decode(a.schema), rx))
  }

  /** The answer to the creation of a version with an accepted schema, by the versions that are there. */
  ghost function Decision(c: Contract, text: Precedence.VersionText, schema: Doc, rx: Matcher): Option<Error> {
    if !Unknown(c.versions, text) then Some(VersionExists)
    else if c.versions == [] then None
    else
      var last := c.versions[|c.versions| - 1];
      if !Precedence.Precedes(Precedence.Parsed(last.text), Precedence.Parsed(text)) then Some(VersionOrder)
      else if Precedence.TextCore(last.text) == Precedence.TextCore(text) then Some(BumpUnsupported)
      else if !Permitted(last, text, schema, rx) then Some(PolicyViolated)
      else None
  }

  lemma AuditDecision(a: Version, text: Precedence.VersionText, schema: Doc, rx: Matcher)
    requires Precedence.CompareTexts(text, a.text) > 0
    ensures
      var r := AuditRow(a, text, schema, rx);
      if Precedence.TextCore(a.text) == Precedence.TextCore(text) then r == Err(Precedence.UnsupportedBump)
      else r.Ok? && (r.value.Rejects() <==> !Permitted(a, text, schema, rx))
  {
    hide Parse, Keyed, BuildReport, Decode, Diff.DiffOf, Compatible, PolicyPassed, Precedence.CompareTexts,
         Precedence.DetectBump, Precedence.TextCore;
    Precedence.BumpExact(a.text, text);
    BumpDetected(a.text, text);
    if Precedence.DetectBump(a.text, text).Ok? {
      PolicyMeaning(Decode(a.schema), Decode(schema), Precedence.DetectBump(a.text, text).value, rx);
    }
  }

  lemma BumpDetected(base: Precedence.VersionText, text: Precedence.VersionText)
    requires Precedence.CompareTexts(text, base) > 0
    ensures
      var bump := Precedence.DetectBump(base, text);
      bump.Ok? || bump == Err(Precedence.UnsupportedBump)
  {
    hide Parse, Precedence.CompareTexts;
  }

  lemma AddDecision(c: Contract, text: Precedence.VersionText, schema: Document, mode: Mode, rx: Matcher)
    requires ContractOk(c, rx)
    ensures
      var r := AddVersion(c, text, schema, mode, rx).1;
      if Decision(c, text, schema, rx).Some? then r == Err(Decision(c, text, schema, rx).value) else r.Ok?
  {
    hide ContractOk, Parse, Keyed, VersionIndex, Latest, AuditRow, Precedence.Compare, Precedence.Precedes, Permitted,
         Unknown;
    ChainOfContract(c, rx);
    hide ChainOk;
    IndexExact(c.versions, 0, text);
    LatestNone(c.versions);
    IndexBounded(c.versions, text);
    if c.versions != [] {
      var last := c.versions[|c.versions| - 1];
      LatestIsLast(c, rx);
      Precedence.CompareExact(Precedence.Parsed(last.text), Precedence.Parsed(text));
      Precedence.CompareExact(Precedence.Parsed(text), Precedence.Parsed(last.text));
      if Precedence.CompareTexts(text, last.text) > 0 {
        AuditDecision(last, text, schema, rx);
      }
    }
  }

  lemma IndexBounded(versions: seq<Version>, text: string)
    ensures VersionIndex(versions, text) <= |versions|
  {
    hide Parse, Keyed;
  }

  /** In a reachable state: every answer to the creation of a version, in the order in which refusals are decided. */
  lemma CreationDecided(calls: seq<Call>, id: nat, text: string, schema: Document, mode: Mode, rx: Matcher)
    ensures
      var st := Run(calls, rx);
      var r := CreateVersionStep(st, id, text, schema, mode, rx).result;
      if Parse(text).None? then r == Err(InvalidSemver)
      else if !Present(st, id) then r == Err(ContractNotFound)
      else if !Checkable(schema) then r == Err(ServerFault)
      else if !Accepted(schema) then r == Err(SchemaInvalid)
      else
        var refusal := Decision(st[id], text, schema, rx);
        if refusal.Some? then r == Err(refusal.value) else r.Ok?
  {
    hide Run, Parse, Keyed, Checkable, Accepted, AddVersion, Decision, StateOk;
    RunOk(calls, rx);
    var st := Run(calls, rx);
    if Parse(text).Some? && Present(st, id) {
      ContractAt(st, id, rx);
      AddDecision(st[id], text, schema, mode, rx);
    }
  }

  // ---------- Checks ----------

  /** The text of the version a check compares with: as requested, else the active one, else the one before. */
  function ChosenBase(c: Contract, i: nat, requested: Option<string>): Option<string>
    requires i < |c.versions|
  {
    if requested.Some? && |requested.value| > 0 then requested
    else if c.active.Some? then Some(c.active.value)
    else if i > 0 then Some(c.versions[i - 1].text)
    else None
  }

  lemma BaseChosen(c: Contract, i: nat, requested: Option<string>, rx: Matcher)
    requires ChainOk(c, rx) && i < |c.versions|
    ensures BaseOf(c, c.versions[i], requested) == ChosenBase(c, i, requested)
  {
    hide ChainOk, Keyed, Parse, Previous;
    PreviousOnChain(c, i, rx);
  }

  /** The row that compares the two versions is added to the checks of the contract, and nothing else changes. */
  predicate CheckDone(st: State, id: nat, k: nat, i: nat, mode: Option<Mode>, o: Outcome<CheckRow>, rx: Matcher)
    requires id < |st| && k < |st[id].versions| && i < |st[id].versions|
  {
    && o.result.Ok?
    && Compares(o.result.value, st[id], k, i, mode.GetOr(st[id].versions[i].mode), rx)
    && Judges(o.result.value, st[id], k, i, rx)
    && OnlyContract(st, o.state, id) && o.state[id] == st[id].(checks := st[id].checks + [o.result.value])
  }

  lemma CheckAgainst(st: State, id: nat, i: nat, k: nat, requested: Option<string>, mode: Option<Mode>, rx: Matcher)
    requires Present(st, id) && ChainOk(st[id], rx) && i < |st[id].versions| && k < |st[id].versions|
    requires BaseOf(st[id], st[id].versions[i], requested) == Some(st[id].versions[k].text)
    ensures CheckDone(st, id, k, i, mode, CheckStep(st, id, st[id].versions[i].text, requested, mode, rx), rx)
  {
    hide ChainOk, Keyed, Parse, VersionIndex, CheckBetween, BaseOf, Compares, Judges;
    IndexOfVersion(st[id], i, rx);
    IndexOfVersion(st[id], k, rx);
    CheckRecorded(st[id], k, i, mode, rx);
  }

  lemma CheckRefused(st: State, id: nat, i: nat, requested: Option<string>, mode: Option<Mode>, rx: Matcher)
    requires Present(st, id) && ChainOk(st[id], rx) && i < |st[id].versions|
    ensures
      var base := BaseOf(st[id], st[id].versions[i], requested);
      var o := CheckStep(st, id, st[id].versions[i].text, requested, mode, rx);
      && (base.None? ==> o == Outcome(st, Err(BaseVersionRequired)))
      && (base.Some? && Unknown(st[id].versions, base.value) ==> o == Outcome(st, Err(VersionNotFound)))
  {
    hide ChainOk, Keyed, Parse, VersionIndex, CheckBetween, BaseOf, Unknown;
    IndexOfVersion(st[id], i, rx);
    var base := BaseOf(st[id], st[id].versions[i], requested);
    if base.Some? {
      IndexExact(st[id].versions, 0, base.value);
    }
  }

  /**
   * In a reachable state: the answer to a check of the i-th version. A comparison adds its row to the checks of the
   * contract and changes nothing else; a refusal changes nothing.
   */
  lemma CheckDecided(calls: seq<Call>, id: nat, i: nat, k: nat, requested: Option<string>, mode: Option<Mode>,
        rx: Matcher)
    requires Present(Run(calls, rx), id) && i < |Run(calls, rx)[id].versions|
    ensures
      var st := Run(calls, rx);
      var o := CheckStep(st, id, st[id].versions[i].text, requested, mode, rx);
      var base := ChosenBase(st[id], i, requested);
      && (base.None? ==> o == Outcome(st, Err(BaseVersionRequired)))
      && (base.Some? && Unknown(st[id].versions, base.value) ==> o == Outcome(st, Err(VersionNotFound)))
      && (k < |st[id].versions| && base == Some(st[id].versions[k].text) ==> CheckDone(st, id, k, i, mode, o, rx))
  {
    hide Run, Keyed, Parse, StateOk, ContractOk, ChainOk, CheckStep, CheckDone, BaseOf, ChosenBase, Unknown;
    RunOk(calls, rx);
    var st := Run(calls, rx);
    ContractAt(st, id, rx);
    ChainOfContract(st[id], rx);
    BaseChosen(st[id], i, requested, rx);
    CheckRefused(st, id, i, requested, mode, rx);
    if k < |st[id].versions| && ChosenBase(st[id], i, requested) == Some(st[id].versions[k].text) {
      CheckAgainst(st, id, i, k, requested, mode, rx);
    }
  }

  lemma CheckMissing(st: State, id: nat, text: string, requested: Option<string>, mode: Option<Mode>, rx: Matcher)
    ensures Missing(st, id, text, CheckStep(st, id, text, requested, mode, rx))
  {
    hide Keyed, Parse, VersionIndex, CheckBetween, BaseOf, Unknown;
    if Present(st, id) {
      IndexExact(st[id].versions, 0, text);
    }
  }

  // ---------- Introspection ----------

  /** A mappable table becomes a new draft contract with one draft version 0.1.0, unless its name is taken. */
  lemma TableIntrospected(st: State, namespace: string, name: string, columns: seq<Introspection.Column>,
        primaryKeys: seq<string>, origin: string)
    requires Introspection.Mappable(columns, primaryKeys)
    ensures
      var o := IntrospectStep(st, namespace, name, columns, primaryKeys, origin);
      var document := Introspection.TableDocument(columns, primaryKeys, origin);
      && document.Ok?
      && if exists i | 0 <= i < |st| :: st[i].namespace == namespace && st[i].name == name then
           o.state == st && o.result == Err(ContractExists)
         else
           && o.result == Ok(|st|) && |o.state| == |st| + 1 && o.state[..|st|] == st
           && var c := o.state[|st|];
              && c.namespace == namespace && c.name == name && c.status == ContractDraft && c.active.None?
              && c.deleted == false && c.checks == [] && |c.versions| == 1
              && Precedence.Parsed(c.versions[0].text) == SemVer(0, 1, 0, [], None)
              && IsDraftOf(c.versions[0], c.versions[0].text, document.value, ModeBackward)
  {
    hide Keyed, Parse, Introspection.StructureOf, Introspection.GeneratedSchema, Accepted, Introspection.Mappable;
    Introspection.GeneratedAccepted(columns, primaryKeys, origin, (pattern, text) => true);
  }

  /** A column without a mapping is refused, and nothing is stored. */
  lemma ColumnRefused(st: State, namespace: string, name: string, columns: seq<Introspection.Column>,
        primaryKeys: seq<string>, origin: string, i: nat)
    requires i < |columns| && Introspection.MapColumn(columns[i]).None?
    ensures IntrospectStep(st, namespace, name, columns, primaryKeys, origin) == Outcome(st, Err(ColumnUnsupported))
  {
    hide Keyed, Parse, Introspection.MapColumn, Introspection.GeneratedSchema;
    Unmapped(columns, i, |columns|);
  }

  lemma {:induction false} Unmapped(columns: seq<Introspection.Column>, i: nat, n: nat)
    requires i < n <= |columns| && Introspection.MapColumn(columns[i]).None?
    ensures Introspection.StructureOf(columns, n).Err?
  {
    hide Introspection.MapColumn, Introspection.Assign, Introspection.IsRequired;
    if i < n - 1 {
      Unmapped(columns, i, n - 1);
    }
  }

  // ---------- The published version ----------

  /** In a reachable state: the answer to the lookup of the active version by the name of its contract. */
  lemma LookupDecided(calls: seq<Call>, namespace: string, name: string, id: nat, rx: Matcher)
    ensures
      var st := Run(calls, rx);
      var r := ActiveVersion(st, namespace, name);
      && ((forall k | 0 <= k < |st| :: st[k].deleted || st[k].namespace != namespace || st[k].name != name) ==>
            r == Err(ContractNotFound))
      && (Present(st, id) && st[id].namespace == namespace && st[id].name == name ==>
            if st[id].active.None? then r == Err(ActiveVersionNotFound)
            else r.Ok? && r.value in st[id].versions && r.value.text == st[id].active.value)
  {
    hide Run, Parse, Keyed, VersionIndex, StateOk;
    RunOk(calls, rx);
    var st := Run(calls, rx);
    if Present(st, id) && st[id].namespace == namespace && st[id].name == name {
      LiveIndexOf(st, id, rx);
      if st[id].active.Some? {
        ActiveVersionFound(calls, id, rx);
      }
    }
  }
}
