/** The data of the global `appState` (app.js:6-38): the status of the
    session, its images, the two slot tables and the error message. */
module AppState {
  import opened Values
  import opened Layers

  /** `STATUS` (app.js:6-13). */
  datatype Status = Empty | Analyzing | Ready | Generating | Done | Error

  /** The messages `transitionTo(STATUS.ERROR, ...)` is given, by the
      operation that failed and its cause. */
  datatype ErrorMessage =
    | UploadFailed                  // handlePhotoUpload
    | ReplaceFailed(cause: Failure) // replaceSlot
    | RemoveFailed(cause: Failure)  // removeGarment
    | TryOnFailed(cause: Failure)   // requestTryOn

  /** The fields of `appState`, as they are saved and restored.
      `detected` is whether `detectedGarments` holds the pipeline's constant
      result. */
  datatype SessionData = SessionData(
    status: Status,
    base: Field,
    initial: Outfit,
    slots: Outfit,
    composed: Field,
    detected: bool,
    prompt: string,
    errorMessage: Option<ErrorMessage>)

  /** The value `appState` starts with, and `resetAllState` restores. */
  const InitialData := SessionData(Empty, None, EmptyOutfit, EmptyOutfit, None, false, "", None)

  /** The status `restoreAppState` derives from what remains (app.js:692-699). */
  function StatusAfterRestore(d: SessionData): (s: Status)
    ensures s == Done <==> Truthy(d.composed)
    ensures s == Ready <==> !Truthy(d.composed) && Truthy(d.base)
    ensures s == Empty <==> !Truthy(d.composed) && !Truthy(d.base)
  {
    if Truthy(d.composed) then Done
    else if Truthy(d.base) then Ready
    else Empty
  }
}
