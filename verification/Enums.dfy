/** The enumerations the services share. */
module Enums {
  datatype Direction = Backward | Forward

  datatype Mode = ModeBackward | ModeForward | ModeFull | ModeNone

  datatype Verdict = VerdictOk | VerdictWarn | VerdictFail

  datatype Bump = Major | Minor | Patch

  datatype ContractStatus = ContractDraft | ContractActive | ContractArchived

  datatype VersionStatus = Draft | Stable | Deprecated
}
