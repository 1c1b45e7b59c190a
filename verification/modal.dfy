/** The `modalState` the form and login pages show after a submission. */
module Modal {
  import opened Wrappers

  /** The modal's `type`: "" (nothing to show), loading, success or error. */
  datatype ModalKind = Blank | LoadingModal | SuccessModal | ErrorModal

  datatype ModalState = ModalState(isOpen: bool, kind: ModalKind, message: string, generatedId: Option<string>)

  const Closed: ModalState := ModalState(false, Blank, "", None)

  /** An open modal without a generated id. */
  function Show(kind: ModalKind, message: string): ModalState {
    ModalState(true, kind, message, None)
  }

  const FillRequired: string := "Please fill in all required fields"
}
