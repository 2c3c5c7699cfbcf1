/**
 * The guards of components/ClaimInput.tsx: what a key press in the
 * claim textarea does, and when the textarea, the submit button and the
 * clear button are usable.
 */
module ClaimInput {
  import opened JsString

  /** The effect of a key press: whether the newline is suppressed and whether onSubmit runs. */
  datatype KeyAction = KeyAction(preventDefault: bool, submit: bool)

  /**
   * handleKeyDown. Enter without Shift always suppresses the newline and
   * submits unless a request is pending; the claim itself is not looked
   * at, so a blank claim is submitted too.
   */
  function HandleKeyDown(key: string, shiftKey: bool, isLoading: bool): (a: KeyAction)
    ensures a.preventDefault <==> key == "Enter" && !shiftKey
    ensures a.submit <==> a.preventDefault && !isLoading
  {
    if key == "Enter" && !shiftKey then KeyAction(true, !isLoading)
    else KeyAction(false, false)
  }

  /** The claim is blank when trimming leaves nothing: !claim.trim(). */
  predicate Blank(claim: string): (blank: bool)
    ensures blank <==> AllSpace(claim)
  {
    Trim(claim) == []
  }

  /** The submit button is disabled while loading or when the claim is whitespace only. */
  function SubmitDisabled(claim: string, isLoading: bool): (disabled: bool)
    ensures disabled <==> isLoading || AllSpace(claim)
  {
    isLoading || Blank(claim)
  }

  /**
   * The clear button is shown for any non-empty claim when not loading,
   * so a claim of spaces shows it while the submit button is disabled.
   */
  function ClearVisible(claim: string, isLoading: bool): (visible: bool)
    ensures isLoading || claim == [] ==> !visible
    ensures !isLoading && claim != [] && AllSpace(claim) ==> visible && SubmitDisabled(claim, isLoading)
    ensures !isLoading && !AllSpace(claim) ==> visible && !SubmitDisabled(claim, isLoading)
  {
    claim != [] && !isLoading
  }

  /**
   * The textarea accepts edits only when no request is pending, which is
   * also exactly when Enter in it submits.
   */
  predicate TextareaEnabled(isLoading: bool): (enabled: bool)
    ensures enabled <==> HandleKeyDown("Enter", false, isLoading).submit
  {
    !isLoading
  }

  /** Enter reaches onSubmit with a blank claim although the button refuses it. */
  lemma EnterSubmitsBlankClaim(claim: string)
    requires AllSpace(claim)
    ensures HandleKeyDown("Enter", false, false).submit
    ensures SubmitDisabled(claim, false)
  {
  }
}
