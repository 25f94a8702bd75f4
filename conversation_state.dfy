/** dialogue/conversation_state.py: what a conversation is about and who
    takes part in it, fixed when it is created. */
module ConversationStates {
  import opened Wrappers
  import opened Errors
  import opened Timestamps
  import opened Agents

  /** The reason is not validated and the player agent may be absent. */
  datatype ConversationState = ConversationState(
    currentTimestamp: DateTime,
    reasonForConversation: Option<string>,
    playerAgent: Option<Agent>,
    involvedAgents: seq<Agent>)
  {
    function GetCurrentTimestamp(): DateTime {
      currentTimestamp
    }

    function GetReasonForConversation(): Option<string> {
      reasonForConversation
    }

    function GetPlayerAgent(): Option<Agent> {
      playerAgent
    }

    function GetInvolvedAgents(): seq<Agent> {
      involvedAgents
    }
  }

  /** ConversationState(...): fewer than two involved agents raise ValueError;
      otherwise the state holds exactly the arguments. */
  function NewConversationState(currentTimestamp: DateTime, reason: Option<string>, player: Option<Agent>,
                                involvedAgents: seq<Agent>): (r: Result<ConversationState, Error>)
    ensures r.Success? <==> |involvedAgents| >= 2
    ensures r.Failure? ==> r.error == ValueError
    ensures r.Success? ==>
      && r.value.GetCurrentTimestamp() == currentTimestamp
      && r.value.GetReasonForConversation() == reason
      && r.value.GetPlayerAgent() == player
      && r.value.GetInvolvedAgents() == involvedAgents
  {
    if |involvedAgents| < 2 then Failure(ValueError)
    else Success(ConversationState(currentTimestamp, reason, player, involvedAgents))
  }
}
