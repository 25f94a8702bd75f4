/** dialogue/speaker_selector.py: who speaks first, and who speaks next,
    never the same name twice in a row. The language model's answer to "who
    speaks?" is an input of each step. */
module SpeakerSelection {
  import opened Wrappers
  import opened Errors
  import opened StringUtils
  import opened Agents
  import opened ConversationStates
  import opened SpeakingOrder
  import opened Messages
  import opened SpeakerOtherThanPrevious

  predicate NamesMatch(agent: Agent, name: string) {
    Lower(agent.GetName()) == Lower(name)
  }

  /** The first agent, in list order, whose name matches. */
  function FirstMatching(involvedAgents: seq<Agent>, name: string): (r: Option<Agent>)
    ensures r.None? <==> forall i | 0 <= i < |involvedAgents| :: !NamesMatch(involvedAgents[i], name)
    ensures r.Some? ==>
      exists i | 0 <= i < |involvedAgents| ::
        && r.value == involvedAgents[i] && NamesMatch(involvedAgents[i], name)
        && forall j | 0 <= j < i :: !NamesMatch(involvedAgents[j], name)
    decreases |involvedAgents|
  {
    if involvedAgents == [] then None
    else if NamesMatch(involvedAgents[0], name) then Some(involvedAgents[0])
    else
      var rest := FirstMatching(involvedAgents[1..], name);
      assert forall i | 1 <= i < |involvedAgents| :: involvedAgents[i] == involvedAgents[1..][i - 1];
      rest
  }

  /** _find_involved_agent_with_matching_name: next() over the agents stops
      at the first match; no match raises CouldntFindMatchingAgentError. A
      missing name (None) has no .lower(), so the first comparison raises
      AttributeError; with no agents nothing is compared and the error names
      "None". */
  function FindInvolvedAgentWithMatchingName(involvedAgents: seq<Agent>, name: Option<string>): (r: Result<Agent, Error>)
    ensures name.None? ==>
      r == Failure(if involvedAgents == [] then CouldntFindMatchingAgent("None") else AttributeError)
    ensures name.Some? ==>
      && (r.Success? <==> exists i | 0 <= i < |involvedAgents| :: NamesMatch(involvedAgents[i], name.value))
      && (r.Success? ==>
            exists i | 0 <= i < |involvedAgents| ::
              && r.value == involvedAgents[i] && NamesMatch(involvedAgents[i], name.value)
              && forall j | 0 <= j < i :: !NamesMatch(involvedAgents[j], name.value))
      && (r.Failure? ==> r.error == CouldntFindMatchingAgent(name.value))
  {
    if name.None? then
      Failure(if involvedAgents == [] then CouldntFindMatchingAgent("None") else AttributeError)
    else
      match FirstMatching(involvedAgents, name.value)
      case None => Failure(CouldntFindMatchingAgent(name.value))
      case Some(agent) => Success(agent)
  }

  /** The agent named in the language model's answer to "who speaks?". */
  function RequestedAgent(involvedAgents: seq<Agent>, response: Response<string>): Result<Agent, Error> {
    var name :- NameFromResponse(response);
    FindInvolvedAgentWithMatchingName(involvedAgents, name)
  }

  class SpeakerSelector {
    const conversationState: ConversationState
    /** _next_speaker */
    var nextSpeaker: Agent
    /** _speaker_other_than_previous_selector, over the same agents */
    const otherSelector: SpeakerOtherThanPreviousSelector

    ghost predicate Valid()
      reads this, otherSelector
    {
      && |conversationState.involvedAgents| >= 2
      && otherSelector.involvedAgents == conversationState.involvedAgents
      && otherSelector.Valid()
    }

    /** The next speaker starts as the first involved agent. A conversation
        state always has at least two agents, so neither the index nor the
        other-than-previous selector's check can fail here. */
    constructor (state: ConversationState)
      requires |state.involvedAgents| >= 2
      ensures conversationState == state && nextSpeaker == state.involvedAgents[0]
      ensures fresh(otherSelector) && Valid()
      ensures forall a | a in state.involvedAgents :: otherSelector.speakerCounts[a] == 0
    {
      conversationState := state;
      nextSpeaker := state.involvedAgents[0];
      otherSelector := new SpeakerOtherThanPreviousSelector(state.involvedAgents);
    }

    function GetNextSpeaker(): Agent
      reads this
    {
      nextSpeaker
    }

    /** select_first_speaker: the player speaks first exactly when they want
        to and there is a player; otherwise the agent matching the name in
        the language model's reply does. When no agent matches, the error
        propagates and the next speaker stays as it was. */
    method SelectFirstSpeaker(playerWantsToSpeakFirst: bool, response: Response<string>) returns (o: Outcome<Error>)
      modifies this
      ensures playerWantsToSpeakFirst && conversationState.playerAgent.Some? ==>
        o.Pass? && nextSpeaker == conversationState.playerAgent.value
      ensures !(playerWantsToSpeakFirst && conversationState.playerAgent.Some?) ==>
        var m := RequestedAgent(conversationState.involvedAgents, response);
        && (m.Success? ==> o.Pass? && nextSpeaker == m.value)
        && (m.Failure? ==> o == Fail(m.error) && nextSpeaker == old(nextSpeaker))
    {
      if playerWantsToSpeakFirst && conversationState.GetPlayerAgent().Some? {
        nextSpeaker := conversationState.GetPlayerAgent().value;
        return Pass;
      }
      var matching := RequestedAgent(conversationState.GetInvolvedAgents(), response);
      if matching.Failure? {
        return Fail(matching.error);
      }
      nextSpeaker := matching.value;
      return Pass;
    }

    /** select_next_speaker: the agent matching the reply becomes the next
        speaker unless its name is the current speaker's, in which case the
        other-than-previous selector draws someone else. Whenever it
        succeeds, the name changes. */
    method SelectNextSpeaker(response: Response<string>) returns (o: Outcome<Error>)
      modifies this, otherSelector
      requires Valid()
      ensures Valid()
      ensures
        var m := RequestedAgent(conversationState.involvedAgents, response);
        && (m.Failure? ==>
              o == Fail(m.error) && nextSpeaker == old(nextSpeaker)
              && otherSelector.speakerCounts == old(otherSelector.speakerCounts))
        && (m.Success? && !NamesMatch(m.value, old(nextSpeaker).name) ==>
              o.Pass? && nextSpeaker == m.value && otherSelector.speakerCounts == old(otherSelector.speakerCounts))
        && (m.Success? && NamesMatch(m.value, old(nextSpeaker).name) ==>
              && (o.Fail? <==> EligibleSpeakers(conversationState.involvedAgents, m.value) == [])
              && (o.Fail? ==>
                    o.error == IndexError && nextSpeaker == old(nextSpeaker)
                    && otherSelector.speakerCounts == old(otherSelector.speakerCounts))
              && (o.Pass? ==>
                    && nextSpeaker in EligibleSpeakers(conversationState.involvedAgents, m.value)
                    && CountedOnce(old(otherSelector.speakerCounts), otherSelector.speakerCounts, nextSpeaker)))
      ensures o.Pass? ==>
        nextSpeaker in conversationState.involvedAgents && Lower(nextSpeaker.name) != Lower(old(nextSpeaker).name)
    {
      var matching := RequestedAgent(conversationState.GetInvolvedAgents(), response);
      if matching.Failure? {
        return Fail(matching.error);
      }
      if Lower(matching.value.GetName()) == Lower(nextSpeaker.GetName()) {
        assert NamesMatch(matching.value, nextSpeaker.name);
        var other := otherSelector.SelectNextSpeaker(matching.value);
        if other.Failure? {
          return Fail(other.error);
        }
        nextSpeaker := other.value;
        return Pass;
      }
      assert !NamesMatch(matching.value, nextSpeaker.name);
      nextSpeaker := matching.value;
      return Pass;
    }
  }
}
