/**
 * The state of App.tsx and its transitions: the four state cells
 * claim, result, isLoading and error, updated by handleSubmit (split
 * into the step before the request and the step after it),
 * handleClear and handleExampleClick, behind the guards of the input
 * controls.
 */
module App {
  import opened Wrappers
  import opened JsString
  import opened Types
  import opened ClaimInput
  import GeminiService

  const ValidationMessage := "Please enter a claim to verify."
  const FailureMessage :=
    "An error occurred while verifying the claim. The AI may be unable to parse the response. Please try again."

  const ExamplePrompts: seq<string> := [
    "Fact-check: Uganda to join BRICS next month.",
    "Is this true: A new currency is being introduced in East Africa.",
    "Verify this claim: South Sudan bans foreign journalists from covering elections."
  ]

  /** The button label of an example: the text before the first colon, then an ellipsis. */
  function ExampleLabel(prompt: string): (caption: string)
    ensures |caption| >= 3 && caption[|caption| - 3 ..] == "..."
    ensures var head := caption[..|caption| - 3];
      && StartsWith(prompt, head)
      && ':' !in head
      && (|head| == |prompt| || prompt[|head|] == ':')
  {
    BeforeFirst(prompt, ':') + "..."
  }

  /** The label of a prompt with a colon is the text before the first colon. */
  lemma ExampleLabelOf(head: string, tail: string)
    requires ':' !in head
    ensures ExampleLabel(head + [':'] + tail) == head + "..."
  {
    BeforeFirstOfJoin(head, ':', tail);
  }

  /**
   * What verifyClaim settles with. The parsed value is passed on
   * unchecked, so a reply that JSON.parse turns into a falsy value (null,
   * false, 0 or the empty string) settles with Success(None): setResult
   * stores it and `result &&` shows no card.
   */
  type Outcome = Result<Option<FactCheckResult>, GeminiService.ServiceError>

  /** What the user can do, and the settling of a pending request. */
  datatype UiEvent =
    | Edit(value: string)                   // onChange of the textarea
    | KeyDown(key: string, shiftKey: bool)  // onKeyDown of the textarea
    | ClickSubmit
    | ClickClear
    | ClickExample(index: nat)
    | Settle(outcome: Outcome)              // verifyClaim resolved or rejected

  class AppState {
    var claim: string
    var result: Option<FactCheckResult>
    var isLoading: bool
    var error: Option<string>

    /**
     * Nothing is shown while a request is pending, the error is one of
     * the two messages, and a result shown beside an error can only be
     * a stale one beside the validation message.
     */
    ghost predicate Valid()
      reads this
    {
      && (isLoading ==> result == None && error == None)
      && (error == None || error == Some(ValidationMessage) || error == Some(FailureMessage))
      && (result.Some? && error.Some? ==> error == Some(ValidationMessage))
    }

    constructor()
      ensures Valid()
      ensures claim == [] && result == None && !isLoading && error == None
    {
      claim := [];
      result := None;
      isLoading := false;
      error := None;
    }

    /** setClaim from the textarea. */
    method SetClaim(value: string)
      modifies this
      ensures claim == value
      ensures result == old(result) && isLoading == old(isLoading) && error == old(error)
    {
      claim := value;
    }

    /** handleExampleClick: the prompt replaces the claim, nothing else changes. */
    method HandleExampleClick(prompt: string)
      modifies this
      ensures claim == prompt
      ensures result == old(result) && isLoading == old(isLoading) && error == old(error)
    {
      claim := prompt;
    }

    /**
     * handleSubmit up to the request. A blank claim only sets the
     * validation message; otherwise loading starts, the old result and
     * error go, and the untrimmed claim is the request.
     */
    method BeginSubmit() returns (request: Option<string>)
      modifies this
      ensures claim == old(claim)
      ensures Blank(old(claim)) ==>
        && request == None
        && error == Some(ValidationMessage)
        && result == old(result) && isLoading == old(isLoading)
      ensures !Blank(old(claim)) ==>
        && request == Some(old(claim))
        && isLoading && error == None && result == None
    {
      if Blank(claim) {
        error := Some(ValidationMessage);
        return None;
      }
      isLoading := true;
      error := None;
      result := None;
      request := Some(claim);
    }

    /**
     * handleSubmit after the request: the parsed value, falsy ones
     * included, or the fixed failure message, and loading ends.
     */
    method FinishSubmit(outcome: Outcome)
      modifies this
      ensures !isLoading && claim == old(claim)
      ensures outcome.Success? ==> result == outcome.value && error == old(error)
      ensures outcome.Failure? ==> error == Some(FailureMessage) && result == old(result)
    {
      if outcome.Success? {
        result := outcome.value;
      } else {
        error := Some(FailureMessage);
      }
      isLoading := false;
    }

    /** handleSubmit as a whole, with verifyClaim given as a function of the request. */
    method HandleSubmit(verify: string -> Outcome)
      modifies this
      ensures claim == old(claim)
      ensures Blank(old(claim)) ==>
        error == Some(ValidationMessage) && result == old(result) && isLoading == old(isLoading)
      ensures !Blank(old(claim)) ==>
        && !isLoading
        && (result.None? || error.None?)
        && (verify(old(claim)).Success? ==> result == verify(old(claim)).value && error == None)
        && (verify(old(claim)).Failure? ==> error == Some(FailureMessage) && result == None)
        && (verify(old(claim)) == Success(None) ==> result == None && error == None)
    {
      var request := BeginSubmit();
      if request.Some? {
        FinishSubmit(verify(request.value));
      }
    }

    /** handleClear: the claim, result and error are reset; loading is left as it is. */
    method HandleClear()
      modifies this
      ensures claim == [] && result == None && error == None
      ensures isLoading == old(isLoading)
    {
      claim := [];
      result := None;
      error := None;
    }

    /**
     * One event behind the guards of the controls: the textarea, the
     * example buttons and the submit button are disabled while loading,
     * the clear button is hidden then, and Enter goes through
     * handleKeyDown. A settle arrives only for a pending request.
     */
    method Dispatch(e: UiEvent) returns (request: Option<string>)
      requires Valid()
      requires e.Settle? ==> isLoading
      modifies this
      ensures Valid()
      ensures request.Some? ==> request.value == claim && !Blank(claim) && isLoading
      ensures old(isLoading) && !e.Settle? ==>
        claim == old(claim) && result == old(result) && isLoading && error == old(error)
    {
      request := None;
      match e
      case Edit(value) =>
        if TextareaEnabled(isLoading) {
          SetClaim(value);
        }
      case KeyDown(key, shiftKey) =>
        if HandleKeyDown(key, shiftKey, isLoading).submit {
          request := BeginSubmit();
        }
      case ClickSubmit =>
        if !SubmitDisabled(claim, isLoading) {
          request := BeginSubmit();
        }
      case ClickClear =>
        if ClearVisible(claim, isLoading) {
          HandleClear();
        }
      case ClickExample(i) =>
        if !isLoading && i < |ExamplePrompts| {
          HandleExampleClick(ExamplePrompts[i]);
        }
      case Settle(outcome) =>
        FinishSubmit(outcome);
    }
  }

  /**
   * A result and an error shown together: after a successful check the
   * user blanks the claim and presses Enter, which submits without the
   * button's guard; the blank path sets the validation message and keeps
   * the old result.
   */
  method StaleResultBesideError(r: FactCheckResult) returns (app: AppState)
    ensures app.Valid()
    ensures app.result == Some(r) && app.error == Some(ValidationMessage)
  {
    app := new AppState();
    var checked := "Uganda to join BRICS next month.";
    assert !IsSpace(checked[0]);
    assert TextareaEnabled(app.isLoading);
    app.SetClaim(checked);
    assert !SubmitDisabled(app.claim, app.isLoading);
    var request := app.BeginSubmit();
    app.FinishSubmit(Success(Some(r)));
    assert TextareaEnabled(app.isLoading);
    app.SetClaim("   ");
    assert AllSpace(app.claim);
    assert HandleKeyDown("Enter", false, app.isLoading).submit;
    request := app.BeginSubmit();
  }
}
