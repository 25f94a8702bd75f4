/** dialogue/speaker_other_than_previous_selector.py: a speaker other than
    the one the language model named, drawn among the other agents and
    counted. */
module SpeakerOtherThanPrevious {
  import opened Wrappers
  import opened Errors
  import opened StringUtils
  import opened Agents

  /** [agent for agent in involved_agents if agent.get_name().lower() !=
      determined.get_name().lower()], in list order. */
  function EligibleSpeakers(involvedAgents: seq<Agent>, determined: Agent): (r: seq<Agent>)
    ensures forall a | a in r :: a in involvedAgents && Lower(a.name) != Lower(determined.name)
    ensures forall a | a in involvedAgents && Lower(a.name) != Lower(determined.name) :: a in r
    ensures |r| <= |involvedAgents|
    decreases |involvedAgents|
  {
    if involvedAgents == [] then []
    else
      var rest := EligibleSpeakers(involvedAgents[1..], determined);
      assert forall a | a in involvedAgents :: a == involvedAgents[0] || a in involvedAgents[1..];
      if Lower(involvedAgents[0].name) != Lower(determined.name) then [involvedAgents[0]] + rest else rest
  }

  /** `after` is `before` with the count of `a` raised by one. */
  predicate CountedOnce(before: map<Agent, nat>, after: map<Agent, nat>, a: Agent) {
    a in before && after == before[a := before[a] + 1]
  }

  class SpeakerOtherThanPreviousSelector {
    const involvedAgents: seq<Agent>
    /** _speaker_counts: how many times each agent has been selected. */
    var speakerCounts: map<Agent, nat>

    /** Every involved agent, and no one else, has a count. */
    ghost predicate Valid()
      reads this
    {
      speakerCounts.Keys == set a | a in involvedAgents
    }

    /** The checks of __init__ are made by NewSpeakerOtherThanPreviousSelector. */
    constructor (agents: seq<Agent>)
      requires |agents| >= 2
      ensures involvedAgents == agents && speakerCounts == map a | a in agents :: 0
      ensures Valid()
    {
      involvedAgents := agents;
      speakerCounts := map a | a in agents :: 0;
    }

    /** select_next_speaker: the eligible agents are those whose name differs
        from the determined speaker's, ignoring case. With all their counts
        zero one is drawn uniformly, otherwise by the weights 1/(count+1);
        every weight is positive, so either way any eligible agent may be
        drawn, which is modelled as an arbitrary choice. With no eligible
        agent random.choice raises IndexError. The selected agent's count
        goes up by one. */
    method SelectNextSpeaker(determined: Agent) returns (r: Result<Agent, Error>)
      modifies this
      requires Valid()
      ensures Valid()
      ensures r.Failure? <==> EligibleSpeakers(involvedAgents, determined) == []
      ensures r.Failure? ==> r.error == IndexError && speakerCounts == old(speakerCounts)
      ensures r.Success? ==>
        && r.value in EligibleSpeakers(involvedAgents, determined)
        && r.value in involvedAgents && Lower(r.value.name) != Lower(determined.name)
        && CountedOnce(old(speakerCounts), speakerCounts, r.value)
    {
      var eligibleSpeakers := EligibleSpeakers(involvedAgents, determined);
      if eligibleSpeakers == [] {
        return Failure(IndexError);
      }
      assert eligibleSpeakers[0] in eligibleSpeakers;
      var selected :| selected in eligibleSpeakers;
      speakerCounts := speakerCounts[selected := speakerCounts[selected] + 1];
      return Success(selected);
    }
  }

  /** SpeakerOtherThanPreviousSelector(involved_agents): fewer than two agents
      raise ValueError; otherwise every agent's count starts at zero. */
  method NewSpeakerOtherThanPreviousSelector(agents: seq<Agent>) returns (r: Result<SpeakerOtherThanPreviousSelector, Error>)
    ensures r.Failure? <==> |agents| < 2
    ensures r.Failure? ==> r.error == ValueError
    ensures r.Success? ==>
      && fresh(r.value) && r.value.Valid() && r.value.involvedAgents == agents
      && forall a | a in agents :: r.value.speakerCounts[a] == 0
  {
    if |agents| < 2 {
      return Failure(ValueError);
    }
    var selector := new SpeakerOtherThanPreviousSelector(agents);
    return Success(selector);
  }
}
