/** dialogue/speaking_order.py: matching the name the language model gave
    to one of the involved agents, and reading that name out of its reply. */
module SpeakingOrder {
  import opened Wrappers
  import opened Errors
  import opened StringUtils
  import opened Agents
  import opened Messages

  /** is_agent_next_speaker: names are compared case-insensitively. */
  predicate IsAgentNextSpeaker(agent: Agent, nextSpeaker: string) {
    Lower(agent.GetName()) == Lower(nextSpeaker)
  }

  /** The index of the last agent whose name matches, if any. */
  function LastMatching(involvedAgents: seq<Agent>, nextSpeaker: string): (r: Option<nat>)
    ensures r.None? <==> forall i | 0 <= i < |involvedAgents| :: !IsAgentNextSpeaker(involvedAgents[i], nextSpeaker)
    ensures r.Some? ==>
      && r.value < |involvedAgents| && IsAgentNextSpeaker(involvedAgents[r.value], nextSpeaker)
      && forall j | r.value < j < |involvedAgents| :: !IsAgentNextSpeaker(involvedAgents[j], nextSpeaker)
    decreases |involvedAgents|
  {
    if involvedAgents == [] then None
    else
      var n := |involvedAgents| - 1;
      if IsAgentNextSpeaker(involvedAgents[n], nextSpeaker) then Some(n)
      else
        var earlier := LastMatching(involvedAgents[..n], nextSpeaker);
        assert forall i | 0 <= i < n :: involvedAgents[..n][i] == involvedAgents[i];
        earlier
  }

  /** What determine_agent_who_will_speak_now gives for a name. */
  function AgentWhoWillSpeakNow(nextSpeaker: string, involvedAgents: seq<Agent>): Result<Agent, Error> {
    match LastMatching(involvedAgents, nextSpeaker)
    case None => Failure(CouldntDetermineNextSpeaker(nextSpeaker))
    case Some(i) => Success(involvedAgents[i])
  }

  /** The chosen agent is one of the involved agents and its name matches;
      no match is the only way to fail. */
  lemma AgentWhoWillSpeakNowCases(nextSpeaker: string, involvedAgents: seq<Agent>)
    ensures AgentWhoWillSpeakNow(nextSpeaker, involvedAgents).Success? <==>
      exists i | 0 <= i < |involvedAgents| :: IsAgentNextSpeaker(involvedAgents[i], nextSpeaker)
    ensures AgentWhoWillSpeakNow(nextSpeaker, involvedAgents).Success? ==>
      && AgentWhoWillSpeakNow(nextSpeaker, involvedAgents).value in involvedAgents
      && Lower(AgentWhoWillSpeakNow(nextSpeaker, involvedAgents).value.name) == Lower(nextSpeaker)
    ensures AgentWhoWillSpeakNow(nextSpeaker, involvedAgents).Failure? ==>
      AgentWhoWillSpeakNow(nextSpeaker, involvedAgents).error == CouldntDetermineNextSpeaker(nextSpeaker)
  {
  }

  /** determine_agent_who_will_speak_now: the loop has no break, so the last
      matching agent is the one chosen; no match raises
      CouldntDetermineNextSpeakerError. */
  method DetermineAgentWhoWillSpeakNow(nextSpeaker: string, involvedAgents: seq<Agent>) returns (r: Result<Agent, Error>)
    ensures r == AgentWhoWillSpeakNow(nextSpeaker, involvedAgents)
  {
    var agentWhoWillSpeakNow: Option<Agent> := None;
    for i := 0 to |involvedAgents|
      invariant
        match LastMatching(involvedAgents[..i], nextSpeaker)
        case None => agentWhoWillSpeakNow.None?
        case Some(j) => agentWhoWillSpeakNow == Some(involvedAgents[j])
    {
      assert involvedAgents[..i + 1][..i] == involvedAgents[..i];
      if IsAgentNextSpeaker(involvedAgents[i], nextSpeaker) {
        agentWhoWillSpeakNow := Some(involvedAgents[i]);
      }
    }
    assert involvedAgents[..|involvedAgents|] == involvedAgents;
    if agentWhoWillSpeakNow.None? {
      return Failure(CouldntDetermineNextSpeaker(nextSpeaker));
    }
    return Success(agentWhoWillSpeakNow.value);
  }

  /** The response branch of request_from_ai_model_who_will_speak_next: the
      function's name argument when the message has a function call, else
      its content without surrounding whitespace (a missing content has no
      .strip() and raises AttributeError). */
  function NameFromResponse(response: Response<string>): (r: Result<Option<string>, Error>)
    ensures !HasChoices(response) ==> r == Failure(GetMessageFromGptResponse(response).error)
    ensures HasChoices(response) ==>
      var message := response.choices.value[0];
      && (message.functionCall.Some? ==> r == Success(message.functionCall.value))
      && (message.functionCall.None? && message.content.None? ==> r == Failure(AttributeError))
      && (message.functionCall.None? && message.content.Some? ==>
            && r == Success(Some(Strip(message.content.value)))
            && (r.value.value == [] || (!IsSpace(r.value.value[0]) && !IsSpace(r.value.value[|r.value.value| - 1]))))
  {
    var message :- GetMessageFromGptResponse(response);
    if message.functionCall.Some? then LoadArgument(message)
    else if message.content.None? then Failure(AttributeError)
    else Success(Some(Strip(message.content.value)))
  }
}
