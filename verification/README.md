# Schema evolution of the contract registry

A Dafny model of a registry for data contracts and proofs about it. A contract holds versions; a version holds a
JSON Schema. Four parts work together: a validator that admits only schemas of a small profile, a checker that
compares two schemas, an order on version numbers that says how compatible a bump must be, and the services that
create, promote, deprecate, check and archive.

The main result is about the whole system: after every sequence of service calls, data valid under a stored
version stays valid under every later version of the same major, and versions of the same major and minor accept
the same data, through steps that are safe: they meet two conditions on the pair of schemas. The proofs also show that
these conditions are what is needed: a step the registry admits keeps all data if and only if it is safe, and a
silent step composes with every silent step before it if and only if it is safe.

| File | Content |
|---|---|
| `Wrappers.dfy`, `Texts.dfy`, `Enums.dfy` | options and results, string order and sorted name lists, enumerations |
| `Documents.dfy` | documents as Python dictionaries hold them, and the JSON values they denote |
| `Schemas.dfy` | the profile of JSON Schema: keywords, what a schema accepts, well-formedness, reading a document |
| `Rules.dfy` | the compatibility checker, its reports and the bump policy |
| `Readings.dfy` | what each violation of a report says about the pair of nodes it points at |
| `Soundness.dfy`, `Exactness.dfy` | what the checker's verdict means, and when it decides inclusion |
| `CompatibilityOrder.dfy` | compatibility as a relation: transitivity, reflexivity, the order of properties, equivalence |
| `Necessity.dfy` | what an unsafe step loses: a value, and its composition with some step before it |
| `Limits.dfy` | concrete schemas for each way in which the verdict and inclusion part |
| `SemVers.dfy`, `Precedence.dfy` | version texts, precedence, bumps |
| `Profile.dfy`, `WellFormedness.dfy` | the profile validator and the meaning of its verdict |
| `Diff.dfy`, `DiffMeaning.dfy` | the schema diff and its agreement with the report |
| `Introspection.dfy`, `TableRows.dfy` | schemas generated from PostgreSQL tables, and what they mean for the rows |
| `Registry.dfy`, `Service.dfy` | the rows, each service call as a step, and the mutable store that performs the steps |
| `Lifecycle.dfy`, `History.dfy` | the invariant of every run, and the promises about histories |
| `Effects.dfy` | what each call answers and what it changes, stated on the rows |
| `Scenarios.dfy` | runs that meet the conditions of the promises, and a run that loses data without them |

## How the system is modelled

- A document (`Doc`) is what Python's JSON parser returns: dictionaries keep the order of their keys. A value
  (`Value`) forgets that order, so equality of values is the equality of canonical JSON. Numbers are reals.
- A schema (`Schema`) is a document read keyword by keyword. An absent keyword is `None`. `title`, `description` and
  `default` are dropped because they restrict nothing; `WellFormedness.AnyMeaning` shows that the reading still
  agrees with the checker's own test for an unconstrained schema.
- `Schemas.Valid` says what a schema accepts. It follows JSON Schema 2020-12: Validation, sections 6.1.1 to 6.1.3, 6.2.2 to
  6.2.5, 6.3.1 to 6.3.3, 6.4.1, 6.4.2 and 6.5.3; Core, sections 10.3.1.2, 10.3.2.1 and 10.3.2.3. `format` is an annotation,
  as in the checker. Pattern matching is a parameter (`Matcher`), so every result holds for every such relation.
- The checker, the validator, the diff, the column loop and the services are methods that accumulate and assign as the
  code does. Each is proved against a function, and the results are proved about the functions.
- The store is one field: contracts in the order of their creation, each with its versions and checks in the order of
  theirs. Rows point to their contract by foreign key in the database; here they are grouped under it. A service call
  is one atomic step.

## What the conditions are

The checker's silence does not by itself mean inclusion. Two conditions are needed, and `Limits.dfy` has a concrete
pair of schemas for each.

- *Covered*: the checker compares the properties of the source. Where an open source object meets a target that
  declares a further property, that property must be unconstrained. Closed sources are always covered.
- *BoundsMet*: the checker ignores `minimum` beside `exclusiveMinimum` (and the maxima likewise). Where the target
  hides a stricter inclusive bound in this way, the numbers that the source admits must keep to it: the reals between
  the ends of its range, or the integers for an integer type. Targets whose exclusive bounds are the stricter ones
  (`Dominated`) hide nothing and are always met, and so is every schema by itself (`SelfSafe`).

A step is safe (`SafeStep`) when both hold. For silent steps this is exact. `Necessity.StepExact` shows that a silent
step keeps all data if and only if it is safe, by building a value that an unsafe one loses; it asks that the nodes of
the source accept something, that its arrays may have an element, and that no node of the target consists of
`$schema` alone. `Necessity.TransitiveExact` shows that a silent step composes with every silent step before it if and
only if it is safe, by building a schema whose composition fails.

When the checker complains, it may be too cautious; `Limits.dfy` shows ways. From a plain source to a plain target it
is not: `Exactness.Exact` is an equivalence between inclusion on one side and silence with a safe step on the other.
A plain source has no patterns, shows the checker the ends of its ranges and accepts the values it lists; a plain
target has no patterns and lists no values; and where the two are compared, the target adds no format, no least size of
zero and no unconstrained items. A schema is compatible with itself exactly when its `const` and `enum` values satisfy
the node that lists them.

The code is followed where the repository's own documentation differs: README.md lines 256 to 269 and swagger.json
describe an older model with fields instead of schemas.

## Model

| member | source | states |
|---|---|---|
| Texts.LessExact | app/service/utils.py:65 | the order of strings is decided at their first difference |
| Texts.SortedDifference | app/compatibility/rules.py:274 | the strictly ascending list of exactly the names in the first list and not in the second |
| Rules.CompareStrings | app/compatibility/rules.py:119-172 | accumulates exactly the string violations: stricter or new lengths, changed or new pattern and format |
| Rules.CompareNumbers | app/compatibility/rules.py:175-202 | accumulates exactly the violations of the two bound tests |
| Rules.CompareArrays | app/compatibility/rules.py:205-257 | accumulates exactly the size violations, then those of the items or the one for new items |
| Rules.CompareRequired | app/compatibility/rules.py:274-281 | one violation for each newly required name, in sorted order |
| Rules.CompareProperties | app/compatibility/rules.py:286-304 | the violations of the source properties in dictionary order |
| Rules.CompareObjects | app/compatibility/rules.py:260-315 | required names, then properties, then the closing of additional properties |
| Rules.InvalidValues | app/compatibility/rules.py:350-351 | the list of rejected enum values is empty exactly when the target accepts them all |
| Rules.Check | app/compatibility/rules.py:318-398 | returns the violations of the recursive subset test, branch by branch |
| Rules.BuildCompatibilityReport | app/compatibility/rules.py:401-428 | both directions, the three flags and the violations of both |
| Readings.CheckReads | app/compatibility/rules.py:318-398 | a violation is reported if and only if the pair of nodes its path leads to shows the fault its code names |
| Readings.ReportReads | app/compatibility/rules.py:401-428 | the same for a report: backward from base to candidate, forward from candidate to base |
| Readings.ScalarsInOrder | app/compatibility/rules.py:119-202 | the faults of a string or number node come in the order of the tests |
| Rules.CompatibleIffSilent | app/compatibility/rules.py:318-398 | the list is empty exactly when the recursive verdict holds, whatever the path and direction label |
| Rules.ReportIsCompatible | app/compatibility/rules.py:401-428 | the two flags of a report are the verdicts in the two directions |
| Rules.ReportSwap | app/compatibility/rules.py:401-428 | swapping the schemas swaps the flags and the two groups of violations up to direction labels |
| Rules.VerdictMeaning | app/compatibility/rules.py:431-438 | a verdict warns exactly in the mode that asks nothing, and otherwise says whether the directions the mode names are compatible |
| Rules.PolicyMeaning | app/compatibility/rules.py:441-454 | a patch asks for compatibility both ways, a minor bump for the backward direction, a major bump for nothing |
| Rules.PolicyIsVerdict | app/compatibility/rules.py:431-454 | the policy of a bump fails exactly when the verdict for the mode it requires is a failure |
| Soundness.Sound | app/compatibility/rules.py:318-398 | no violation, safe step, well-formed target: every value valid under the source is valid under the target |
| Soundness.SoundInclusion | app/compatibility/rules.py:318-398 | the same as inclusion of the accepted values |
| Soundness.ClosedIsCovered | app/compatibility/rules.py:286-313 | a source closed at every object node is covered against every target |
| Soundness.DominatedIsMet | app/compatibility/rules.py:63-76 | a target whose exclusive bounds are the stricter ones hides no bound from any source |
| Soundness.SelfSafe | app/compatibility/rules.py:63-76 | the step from a well-formed schema to itself is safe |
| Soundness.EndsExact | app/compatibility/rules.py:63-76 | the reals or integers within the bounds are exactly those between the ends of the range |
| Soundness.NumbersSound | app/compatibility/rules.py:63-116 | the bound tests are sound when the source meets the bounds they ignore |
| Exactness.HiddenExact | app/compatibility/rules.py:63-116 | behind silent bound tests, the hidden bounds are met if and only if the target admits every real or integer of the source |
| Exactness.NumbersExact | app/compatibility/rules.py:63-116 | on a non-empty source range of reals or integers whose ends the checker sees, the bound tests and the hidden bounds decide inclusion, for every target |
| Exactness.ApparentIsDominated | app/compatibility/rules.py:63-76 | over the reals the checker sees the ends of a range if and only if no bound is hidden |
| Exactness.SizesExact | app/compatibility/rules.py:128-150 | the size tests are silent if and only if the ranges are included and the target adds no least size of zero |
| Exactness.DominatedExact | app/compatibility/rules.py:63-116 | the bound tests are sound for a target, whatever the source, if and only if the target hides no bound |
| Exactness.FiniteExact | app/compatibility/rules.py:339-360 | for a source that lists values it accepts, the checker decides inclusion in every target |
| Exactness.Refuted | app/compatibility/rules.py:205-398 | between plain schemas, a violation or an unsafe step yields a value valid under the source and invalid under the target |
| Exactness.Exact | app/compatibility/rules.py:205-398 | between plain schemas, silent and safe if and only if included |
| CompatibilityOrder.Transitive | app/compatibility/rules.py:260-398 | two silent steps compose when the second is safe |
| CompatibilityOrder.Reordered | app/compatibility/rules.py:286-304 | the verdict does not depend on the order in which either schema lists its properties |
| Necessity.StepExact | app/compatibility/rules.py:260-398 | a silent step from a populated source to a restricting target keeps all data if and only if it is safe |
| Necessity.TransitiveExact | app/compatibility/rules.py:260-398 | a silent step composes with every silent step before it if and only if it is safe |
| CompatibilityOrder.SimilarCompatible | app/compatibility/rules.py:318-398 | two listings of one schema that differ in property order are compatible if and only if the schema is self-consistent |
| CompatibilityOrder.ReflexiveIff | app/compatibility/rules.py:339-360 | a schema is compatible with itself if and only if its listed values satisfy the nodes that list them |
| CompatibilityOrder.FullEquivalence | app/compatibility/rules.py:401-428 | full compatibility is reflexive, symmetric and transitive on sealed, self-consistent schemas |
| CompatibilityOrder.FullSameValues | app/compatibility/rules.py:401-428 | fully compatible sealed schemas accept the same values |
| Limits.OpenSourceIsNotSound | app/compatibility/rules.py:286-304 | a pair with no violation whose inclusion fails because the open source lacks a constrained property |
| Limits.WeakExclusiveBoundIsNotSound | app/compatibility/rules.py:63-76 | a pair with no violation whose inclusion fails because an inclusive bound is ignored |
| Limits.OpenMiddleIsNotTransitive | app/compatibility/rules.py:286-304 | three schemas with silent steps and a reported composition |
| Limits.InconsistentConstIsNotReflexive | app/compatibility/rules.py:339-348 | a well-formed schema that is incompatible with itself |
| Limits.ZeroMinimumIsReported | app/compatibility/rules.py:128-137 | an included pair that is reported for a least size of zero |
| Limits.FiniteTargetIsReported | app/compatibility/rules.py:362-370 | an included pair that is reported because the target lists its values |
| Limits.DialectAloneLosesNothing | app/compatibility/rules.py:49-50 | an uncovered step that loses nothing, because the added property states a dialect alone |
| Limits.EmptyArraysLoseNothing | app/compatibility/rules.py:239-255 | an uncovered step that loses nothing, because the arrays around it are empty |
| SemVers.PrintParse | app/service/utils.py:13-52 | parsing a printed version gives the version back |
| SemVers.ParsePrint | app/service/utils.py:13-52 | printing a parsed text gives the text back, so parsing is injective |
| SemVers.ParseExact | app/service/utils.py:13-52 | the accepted texts are exactly the printed versions |
| SemVers.IdentifiersRead | app/service/utils.py:13-17 | numeric identifiers are digits; identifiers are letters, digits and hyphens |
| Precedence.CompareExact | app/service/utils.py:55-91 | the comparison is the precedence of SemVer 2.0.0, section 11; zero means equal up to build and leading zeros |
| Precedence.Antisymmetric | app/service/utils.py:68-91 | swapping the arguments negates the result |
| Precedence.Transitive | app/service/utils.py:68-91 | the order is transitive, strictly so when one step is strict |
| Precedence.MaxIndexGreatest | app/service/utils.py:121-125 | the maximum is the first of the greatest texts |
| Precedence.BumpExact | app/service/utils.py:94-118 | a bump is found exactly when the core grows, and which; equal cores with a later prerelease are unsupported |
| Profile.CheckNode | app/validators/contract_schema.py:111-364 | the walk only appends to the shared list, leaves it alone exactly on nodes that meet the profile, and lists exactly the findings that the node and the nodes below it have |
| Profile.CheckProperties | app/validators/contract_schema.py:154-194 | the same for the property table, with the recursion into it |
| Profile.CheckKeywords | app/validators/contract_schema.py:293-318 | the same for the keywords that need a type |
| Profile.CheckRanges | app/validators/contract_schema.py:320-360 | the same for reversed ranges |
| Profile.CheckRequired | app/validators/contract_schema.py:196-230 | the same for the required names |
| Profile.CheckExtension | app/validators/contract_schema.py:74-108 | the same for an extension list |
| WellFormedness.ValidateContractSchema | app/validators/contract_schema.py:367-397 | the verdict is ok exactly for accepted documents, and exactly when no violation is listed; the list holds exactly the findings of the document |
| WellFormedness.ProfileMeaning | app/validators/contract_schema.py:111-364 | on documents that pass the meta-schema, the walk is silent exactly on expressible, well-formed schemas |
| WellFormedness.AcceptedExact | app/validators/contract_schema.py:74-108 | the accepted documents, without reference to the walk: expressible, well-formed object schemas with a property, whose extension keys list distinct properties |
| WellFormedness.AcceptedIsCheckable | app/validators/contract_schema.py:367-397 | the validator reaches a verdict, without a Python exception, on every document it would accept |
| WellFormedness.KeysExact | app/validators/contract_schema.py:14-43 | the keys a node may have are the annotations and the keywords that are read, and at the root the two extension keys |
| WellFormedness.TypesExact | app/validators/contract_schema.py:13 | the types a node may have are the seven that are read |
| WellFormedness.DecodeScalars | app/compatibility/rules.py:63-202 | which keyword each part of a schema is read from: type, sizes, pattern, format and bounds |
| WellFormedness.DecodeTable | app/compatibility/rules.py:213-272 | the same for properties, required names, additional properties and items |
| WellFormedness.DecodeEnum | app/compatibility/rules.py:339-360 | the same for listed values |
| Documents.LoosenedExact | app/validators/contract_schema.py:285 | the comparison behind `in`: Python's equality, which does not tell True from 1 |
| WellFormedness.AcceptedIsWellFormed | app/validators/contract_schema.py:367-390 | an accepted document is a well-formed object schema with at least one property |
| WellFormedness.AnyMeaning | app/compatibility/rules.py:49-50 | a document reads as the unconstrained schema exactly when its keys are annotations only |
| Diff.BuildSchemaDiff | app/compatibility/diff.py:15-66 | builds the diff with its loop over the common properties |
| Diff.DiffSwap | app/compatibility/diff.py:15-66 | swapping the documents reverses every entry of the diff |
| DiffMeaning.DiffEntries | app/compatibility/diff.py:22-40 | which names the entries of the diff hold, and what a change leads from and to |
| DiffMeaning.DiffSettings | app/compatibility/diff.py:42-57 | the entries for additional properties and extension keys: there exactly when the values, with their defaults, differ, and from the one to the other |
| DiffMeaning.SameValueSimilar | app/compatibility/diff.py:11-12 | documents with the same canonical JSON read as schemas equal up to property order |
| DiffMeaning.CheckUnder | app/compatibility/rules.py:45-46 | every violation lies at or below the path the checker was called with |
| DiffMeaning.DiffExplainsReport | app/compatibility/diff.py:15-66 | the report is determined by the diff: required names, removed and changed properties and the closing of additional properties show in the direction they restrict, and nothing else does |
| DiffMeaning.KeyOrderDoesNotMatter | app/db/models.py:74 | documents with the same canonical JSON get the same verdicts, whatever the order of their keys |
| DiffMeaning.EmptyDiffPasses | app/compatibility/diff.py:15-66 | under a diff without changes a major bump passes, and any other bump passes if and only if the property schemas accept the values they list |
| Introspection.LoadTableStructure | app/service/introspection.py:265-287 | the column loop: properties and required names, or the first column without a mapping |
| Introspection.StructureMirrors | app/service/introspection.py:265-287 | one property for each column in order; required exactly the columns that are not nullable |
| Introspection.GeneratedLookups | app/service/introspection.py:115-124 | the keys of the generated schema and their values |
| TableRows.TypesRead | app/service/introspection.py:24-66 | a column's type is mapped by the first row of the table of type names that it matches, in any letter case and up to blanks; the schema accepts exactly the values of that kind and notes its format |
| TableRows.RowsExact | app/service/introspection.py:115-287 | the generated schema accepts exactly the rows: a value in every column the catalogue does not call nullable, and only values their columns may hold |
| TableRows.ColumnOptional | app/service/introspection.py:286-287 | a valid row stays valid without a column if and only if the column is nullable |
| Introspection.MappedOk | app/service/introspection.py:24-66 | every mapped type is a document the validator accepts as a node, without objects, bounds and listed values |
| Introspection.GeneratedAccepted | app/service/introspection.py:115-136 | for mappable tables the generated schema is accepted, sealed and self-consistent |
| Service.BuildCompatibilityCheck | app/service/versions.py:229-259 | the audit row of a candidate against its base, or the refusal of the bump |
| Service.RegistryService.CreateContract | app/service/contracts.py:18-57 | performs the creation step; names of archived contracts are refused as well |
| Service.RegistryService.UpdateContract | app/service/contracts.py:114-136 | performs the status update on live contracts |
| Service.RegistryService.ArchiveContract | app/service/contracts.py:138-147 | performs the soft deletion |
| Service.RegistryService.CreateVersion | app/service/versions.py:34-133 | performs the creation step with every refusal in the order of the code |
| Service.RegistryService.PromoteVersion | app/service/versions.py:186-197 | performs the promotion |
| Service.RegistryService.DeprecateVersion | app/service/versions.py:199-210 | performs the deprecation |
| Service.RegistryService.CheckCompatibility | app/service/compatibility.py:25-97 | performs the check and records its row |
| Service.RegistryService.IntrospectTable | app/service/introspection.py:87-191 | performs the creation of a contract with its first version |
| Service.RegistryService.GetActiveVersion | app/service/versions.py:170-184 | returns the published version or the error the lookup ends in |
| Service.RegistryService.PerformAll | app/service/versions.py:34-133 | a store that performs calls one after another is in the state of their run, with the invariant |
| Lifecycle.CoresIncrease | app/service/versions.py:67-78 | along a chain the cores of the versions strictly increase |
| Lifecycle.LatestIsLast | app/service/versions.py:222-227 | the latest version by precedence is the last one created |
| Lifecycle.ApplyKeeps | app/service/versions.py:34-210 | every service call keeps the registry invariant |
| Lifecycle.RunOk | app/service/versions.py:34-210 | after every run: accepted schemas, drafts exactly the unlocked versions, allowed and audited steps, a stable locked active version, archived deletions, distinct names |
| History.DataStaysValid | app/service/versions.py:67-130 | after every run, data stays valid along safe steps within a major, and both ways within a minor |
| History.SealedDataStaysValid | app/service/versions.py:67-130 | the same for contracts whose schemas are closed with dominated bounds |
| History.StepKeepsDataExactly | app/service/versions.py:80-114 | a step admitted within a major, from a populated source to a restricting target, keeps all data if and only if it is safe |
| History.RepublishIff | app/service/versions.py:80-114 | the last schema can be republished as a patch if and only if it is self-consistent |
| History.ChainCompatible | app/service/versions.py:229-259 | the checker is silent between any two versions of one major along safe steps |
| History.HistoryConsistent | app/service/compatibility.py:25-63 | a check against any earlier version, adjacent or not, passes the policy of their bump |
| History.CheckNeverRefusesBump | app/service/compatibility.py:59-63 | in reachable states no check fails in bump detection |
| History.CheckRecorded | app/service/compatibility.py:50-82 | what a check of any two stored versions records: report, mode and verdict, and against an earlier version the bump their cores show and whether its policy holds |
| Effects.CheckDecided | app/service/compatibility.py:25-97 | the base a check compares with, its answer, and that it adds its row and changes nothing else |
| Effects.CheckMissing | app/service/compatibility.py:26-33 | a check of an unknown contract or version is refused and changes nothing |
| Effects.ContractCreated | app/service/contracts.py:18-57 | a taken name is refused; a new contract is an empty draft and nothing else changes |
| Effects.ContractUpdated | app/service/contracts.py:114-136 | the status becomes the given one and nothing else changes |
| Effects.ContractArchived | app/service/contracts.py:138-147 | status and deletion are set and nothing else changes |
| Effects.ArchivedForGood | app/service/contracts.py:138-147 | after an archive and any further calls the contract is archived, and every call and lookup ends in not found |
| Effects.VersionCreated | app/service/versions.py:116-133 | exactly one version is appended: the requested text, schema and mode, a draft, unlocked |
| Effects.CreationDecided | app/service/versions.py:34-114 | every answer to a creation in a reachable state, in terms of stored texts, precedence, cores and compatibility |
| Effects.VersionPromoted | app/service/versions.py:186-197 | the version becomes stable and locked, it and its contract active; nothing else changes |
| Effects.VersionDeprecated | app/service/versions.py:199-210 | the version becomes deprecated and locked, and is no longer the active one; nothing else changes |
| Effects.StatusExact | app/service/versions.py:116-210 | after every run the status of a version is that of the last promotion or deprecation that found it, else draft; only drafts are unlocked |
| Effects.StatusReason | app/service/versions.py:186-210 | a stable version was promoted and a deprecated one deprecated, by a call that found it |
| Effects.TableIntrospected | app/service/introspection.py:138-191 | a mappable table becomes a draft contract with one draft version 0.1.0, unless its name is taken |
| Effects.ColumnRefused | app/service/introspection.py:269-284 | a column without a mapping is refused and nothing is stored |
| Effects.LookupDecided | app/service/versions.py:170-184 | the answer to the lookup of an active version in a reachable state |
| History.InferredBase | app/service/compatibility.py:34-47 | the base without a request: the active version, else the one created just before, else an error |
| History.PreviousExact | app/service/versions.py:215-220 | a greatest stored version strictly below, or none exactly when there is none |
| History.PreviousOnChain | app/service/versions.py:215-220 | on a reachable chain it is the version created just before |
| History.RunKept | app/service/versions.py:116-210 | later calls keep schemas, never return a version to draft, and leave archived contracts alone |
| History.RefusedCreation | app/service/versions.py:44-114 | a refused creation changes nothing, except that a policy refusal adds exactly one failing check |
| History.EveryVersionAudited | app/service/versions.py:80-130 | every version after the first has its passing check against its predecessor on record |
| History.ActiveVersionFound | app/service/versions.py:170-184 | the active version of a live contract is found, stable and locked |
| History.PromotedIsActive | app/service/versions.py:186-197 | after a promotion the published version is the promoted one |
| History.DeprecatedIsNotActive | app/service/versions.py:199-210 | after a deprecation the version is not published, and another active version stays published |
| Scenarios.RepublishedTable | app/service/introspection.py:87-191 | every mappable table can be introspected and published again as a patch: a run with two sealed versions of one minor |
| Scenarios.SomeTable | app/service/introspection.py:24-66 | there are mappable tables |
| Scenarios.OpenContractLosesData | app/service/versions.py:67-130 | a run in which an open contract gains a property in a minor version and data valid before is invalid after |
| History.NameStaysTaken | app/db/models.py:25 | no later call frees the name of a contract, archived or not |

## Left out

- Profile.CheckNode: the order of findings, and how often one is repeated, are not part of its contract; the loops over keyword sets have no fixed order in Python.
- Service.RegistryService.UpdateContract: description, owners, tags and layer are not modelled, since nothing depends on them.
- Service.RegistryService.IntrospectTable: the refusals before the catalogue is read (entity type, driver, database, missing table) are not modelled; the columns of the table are given.
- WellFormedness.ValidateContractSchema: a `$schema` keyword may select another dialect for the library's validator; every document is judged by the meta-schema of 2020-12.
- The order of keys in stored schemas: the column is JSONB, which does not keep it, so the violations of a stored base can come in another order than the dictionary's. `DiffMeaning.KeyOrderDoesNotMatter` shows that the verdicts are the same.
- The distinction Python makes between 1 and 1.0; numbers are reals, so a document that writes a size as 3.0 is read like 3.
- Meaning of `pattern`, and the rejection of patterns that are no regular expressions by the meta-schema.
- Meta-schema rules for keywords outside the profile; the profile refuses such documents anyway.
- Documents for which the validator ends in a Python exception are refused as a server fault, not walked: a list or dictionary as `type` beside numeric bounds; a `const` beside an `enum` in which Python cannot test its membership (a number or boolean as `enum`, a text as `enum` with another kind of `const`, a dictionary as `enum` with an unhashable `const`); a root `$schema` that is neither a text nor null, false or zero; a root `properties` or `required` without a length.
- Version texts outside ASCII, where `\d` and `isdigit` accept further characters, and the length limits of the request models.
- Message texts, severities, checksums, timestamps, actors and the `details` of a validation.
- Interleavings of concurrent calls: the code takes no row locks, so the chain invariants are claimed for serialized calls.
- HTTP routes, authentication, metrics, settings, migrations and catalogue queries; the rows of a table are given.
- `list_versions`, `list_contracts` and the `validation_runs` table, which only read or log.
