/** dialogue/line_of_dialogue_producer.py: asking the agent who speaks now
    for its line, and telling a player's message from the language model's.
    The prompt text and the request are not modelled: the user content and
    the response are inputs. */
module LineOfDialogueProducing {
  import opened Wrappers
  import opened Errors
  import opened StringUtils
  import opened Agents
  import opened ConversationStates
  import opened DialogueHistory
  import opened Messages
  import opened SpeakingOrder
  import opened SpeakerSelection

  const PRODUCE_LINE_OF_DIALOGUE_GPT_SYSTEM_CONTENT: string :=
    "I am LineOfDialogueProducerGPT. I have the responsibility of writing the following line "
    + "of dialogue in this conversation."

  /** _separate_player_response_from_ai_model_response: with choices, a
      message with a function call is the model's and becomes a line in the
      user role holding the call's line_of_dialogue argument; one without is
      the player's and is returned as it is. No choices raise ValueError. */
  function SeparatePlayerResponseFromAiModelResponse(response: Response<string>, userRole: string): (r: Result<Line, Error>)
    ensures r.Success? <==> HasChoices(response)
    ensures r.Failure? ==> r.error == ValueError
    ensures HasChoices(response) && response.choices.value[0].functionCall.Some? ==>
      r.value == Line(Some(userRole), response.choices.value[0].functionCall.value)
    ensures HasChoices(response) && response.choices.value[0].functionCall.None? ==>
      r.value == Line(response.choices.value[0].role, response.choices.value[0].content)
  {
    if HasChoices(response) then
      var message := GetMessageFromGptResponse(response).value;
      if message.functionCall.Some? then
        var argument := LoadArgument(message).value;
        Success(Line(Some(userRole), argument))
      else Success(Line(message.role, message.content))
    else Failure(ValueError)
  }

  /** The value determine_agent_who_will_speak_now receives at run time: a
      name, or an Agent object. */
  datatype SpeakerArgument = Name(name: string) | AgentObject(agent: Agent)

  /** is_agent_next_speaker on either kind of value: an Agent has no
      .lower(), so comparing with one raises AttributeError. */
  function IsAgentNextSpeakerOn(agent: Agent, nextSpeaker: SpeakerArgument): (r: Result<bool, Error>)
    ensures nextSpeaker.AgentObject? ==> r == Failure(AttributeError)
    ensures nextSpeaker.Name? ==> r == Success(IsAgentNextSpeaker(agent, nextSpeaker.name))
  {
    match nextSpeaker
    case AgentObject(_) => Failure(AttributeError)
    case Name(name) => Success(IsAgentNextSpeaker(agent, name))
  }

  /** determine_agent_who_will_speak_now on either kind of value. Given an
      Agent, the first comparison raises; with no agents nothing is compared
      and the lookup fails (the Agent's repr in the message is not modelled). */
  method DetermineAgentWhoWillSpeakNowOn(nextSpeaker: SpeakerArgument, involvedAgents: seq<Agent>)
    returns (r: Result<Agent, Error>)
    ensures nextSpeaker.Name? ==> r == AgentWhoWillSpeakNow(nextSpeaker.name, involvedAgents)
    ensures nextSpeaker.AgentObject? ==>
      r == Failure(if involvedAgents == [] then CouldntDetermineNextSpeaker(nextSpeaker.agent.name) else AttributeError)
  {
    if nextSpeaker.Name? {
      r := DetermineAgentWhoWillSpeakNow(nextSpeaker.name, involvedAgents);
      return;
    }
    if involvedAgents == [] {
      return Failure(CouldntDetermineNextSpeaker(nextSpeaker.agent.name));
    }
    var matches := IsAgentNextSpeakerOn(involvedAgents[0], nextSpeaker);
    return Failure(matches.error);
  }

  /** The speaker selector's next speaker, when it is an involved agent, is
      found by name: the agent found is the last one whose name is the same
      apart from case. */
  lemma {:induction false} NextSpeakerIsFound(nextSpeaker: Agent, involvedAgents: seq<Agent>)
    requires nextSpeaker in involvedAgents
    ensures AgentWhoWillSpeakNow(nextSpeaker.name, involvedAgents).Success?
    ensures AgentWhoWillSpeakNow(nextSpeaker.name, involvedAgents).value in involvedAgents
    ensures Lower(AgentWhoWillSpeakNow(nextSpeaker.name, involvedAgents).value.name) == Lower(nextSpeaker.name)
  {
    var i :| 0 <= i < |involvedAgents| && involvedAgents[i] == nextSpeaker;
    assert IsAgentNextSpeaker(involvedAgents[i], nextSpeaker.name);
    AgentWhoWillSpeakNowCases(nextSpeaker.name, involvedAgents);
  }

  class LineOfDialogueProducer {
    const conversationState: ConversationState
    const speakerSelector: SpeakerSelector

    constructor (state: ConversationState, selector: SpeakerSelector)
      ensures conversationState == state && speakerSelector == selector
    {
      conversationState := state;
      speakerSelector := selector;
    }

    /** produce_line_of_dialogue as written: the speaker selector's next
        speaker is an Agent, and it is passed where a name is expected. */
    method ProduceLineOfDialogueAsWritten(userContent: Agent -> string, respond: (Agent, seq<Line>) -> Response<string>,
                                          userRole: string)
      returns (request: seq<Line>, r: Result<Line, Error>)
      ensures request == [Line(Some(SYSTEM_ROLE), Some(PRODUCE_LINE_OF_DIALOGUE_GPT_SYSTEM_CONTENT))]
      ensures conversationState.involvedAgents != [] ==> r == Failure(AttributeError)
    {
      request := [Line(Some(SYSTEM_ROLE), Some(PRODUCE_LINE_OF_DIALOGUE_GPT_SYSTEM_CONTENT))];
      var agentWhoWillSpeakNow := DetermineAgentWhoWillSpeakNowOn(AgentObject(speakerSelector.GetNextSpeaker()),
                                                                  conversationState.GetInvolvedAgents());
      match agentWhoWillSpeakNow {
        case Failure(error) =>
          return request, Failure(error);
        case Success(agent) =>
          request := request + [Line(Some(userRole), Some(userContent(agent)))];
          var response := respond(agent, request);
          r := SeparatePlayerResponseFromAiModelResponse(response, userRole);
      }
    }

    /** produce_line_of_dialogue with the next speaker's name: the request
        is one system message followed by one user message, sent to the agent
        found by that name, and the line is read from its response. */
    method ProduceLineOfDialogue(userContent: Agent -> string, respond: (Agent, seq<Line>) -> Response<string>,
                                 userRole: string)
      returns (request: seq<Line>, r: Result<Line, Error>)
      ensures
        var speaker := AgentWhoWillSpeakNow(speakerSelector.nextSpeaker.name, conversationState.involvedAgents);
        && (speaker.Failure? ==>
              r == Failure(speaker.error)
              && request == [Line(Some(SYSTEM_ROLE), Some(PRODUCE_LINE_OF_DIALOGUE_GPT_SYSTEM_CONTENT))])
        && (speaker.Success? ==>
              && request == [Line(Some(SYSTEM_ROLE), Some(PRODUCE_LINE_OF_DIALOGUE_GPT_SYSTEM_CONTENT)),
                             Line(Some(userRole), Some(userContent(speaker.value)))]
              && r == SeparatePlayerResponseFromAiModelResponse(respond(speaker.value, request), userRole))
    {
      request := [Line(Some(SYSTEM_ROLE), Some(PRODUCE_LINE_OF_DIALOGUE_GPT_SYSTEM_CONTENT))];
      var agentWhoWillSpeakNow := DetermineAgentWhoWillSpeakNowOn(Name(speakerSelector.GetNextSpeaker().GetName()),
                                                                  conversationState.GetInvolvedAgents());
      match agentWhoWillSpeakNow {
        case Failure(error) =>
          return request, Failure(error);
        case Success(agent) =>
          request := request + [Line(Some(userRole), Some(userContent(agent)))];
          var response := respond(agent, request);
          r := SeparatePlayerResponseFromAiModelResponse(response, userRole);
      }
    }
  }
}
