/** dialogue/dialogue_continuation_handler.py: whether an ongoing dialogue
    goes on, as the language model decides and the user may overrule. The
    model's answer and the user's confirmation are inputs; the prompt text
    is not modelled. */
module DialogueContinuation {
  import opened Wrappers
  import opened Errors
  import opened StringUtils
  import opened Messages

  /** The decision read from the language model's answer: the function's
      boolean argument when there is a call (a missing one is falsy), else
      whether the content, lower-cased and stripped, is "true". A missing
      content has no .lower() and raises AttributeError. */
  function StopDecision(response: Response<bool>): (r: Result<bool, Error>)
    ensures !HasChoices(response) ==> r == Failure(GetMessageFromGptResponse(response).error)
    ensures HasChoices(response) ==>
      var message := response.choices.value[0];
      && (message.functionCall.Some? ==> r == Success(message.functionCall.value == Some(true)))
      && (message.functionCall.None? ==>
            && (r.Success? <==> message.content.Some?)
            && (r.Failure? ==> r.error == AttributeError)
            && (r.Success? ==> (r.value <==> Strip(Lower(message.content.value)) == "true")))
  {
    var message :- GetMessageFromGptResponse(response);
    if message.functionCall.Some? then Success(message.functionCall.value == Some(true))
    else if message.content.None? then Failure(AttributeError)
    else Success(Strip(Lower(message.content.value)) == "true")
  }

  /** A message carrying only a text content. */
  function TextAnswer(content: string): Response<bool> {
    Response(Some([Message(None, Some(content), None)]))
  }

  /** A text answer is read without regard to case. */
  lemma StopDecisionIgnoresCase(content: string)
    ensures StopDecision(TextAnswer(content)) == StopDecision(TextAnswer(Lower(content)))
  {
    assert Lower(Lower(content)) == Lower(content);
  }

  class DialogueContinuationHandler {
    /** _should_dialogue_continue */
    var shouldDialogueContinue: bool

    /** A dialogue starts out continuing. */
    constructor ()
      ensures shouldDialogueContinue
    {
      shouldDialogueContinue := true;
    }

    function ShouldDialogueContinue(): bool
      reads this
    {
      shouldDialogueContinue
    }

    /** determine_if_dialogue_should_end: the user is asked only when the
        language model decides to stop, and a "yes" ("continue") cancels the
        stop. The flag is only ever set to False, so a stopped dialogue never
        resumes. An answer that cannot be read raises and leaves the flag. */
    method DetermineIfDialogueShouldEnd(response: Response<bool>, userWantsToContinue: bool)
      returns (o: Outcome<Error>, userWasAsked: bool)
      modifies this
      ensures StopDecision(response).Failure? ==>
        o == Fail(StopDecision(response).error) && !userWasAsked && shouldDialogueContinue == old(shouldDialogueContinue)
      ensures StopDecision(response).Success? ==>
        && o.Pass? && userWasAsked == StopDecision(response).value
        && (shouldDialogueContinue <==>
              old(shouldDialogueContinue) && !(StopDecision(response).value && !userWantsToContinue))
      ensures shouldDialogueContinue ==> old(shouldDialogueContinue)
    {
      var decision := StopDecision(response);
      if decision.Failure? {
        return Fail(decision.error), false;
      }
      var shouldDialogueStop := decision.value;
      userWasAsked := false;
      if shouldDialogueStop {
        userWasAsked := true;
        if userWantsToContinue {
          shouldDialogueStop := false;
        }
      }
      if shouldDialogueStop {
        shouldDialogueContinue := false;
      }
      o := Pass;
    }
  }
}
