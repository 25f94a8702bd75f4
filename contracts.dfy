/** dialogue/contracts.py: the checks a dialogue's participants must pass
    before it starts. */
module Contracts {
  import opened Wrappers
  import opened Errors
  import opened Agents

  /** An agent is ready for a dialogue once its status and its character
      summary are set. */
  predicate Ready(agent: Agent)
    reads agent
  {
    agent.status.Some? && agent.characterSummary.Some?
  }

  /** The error an agent that is not ready raises: the status is checked first. */
  function MissingField(agent: Agent): Error
    reads agent
  {
    if agent.status.None? then AgentStatusMissing(agent.name) else AgentCharacterSummaryMissing(agent.name)
  }

  /** The loop over the agents, in list order. */
  function CheckAgents(agents: seq<Agent>): (o: Outcome<Error>)
    reads agents
    ensures o.Pass? <==> forall i | 0 <= i < |agents| :: Ready(agents[i])
    ensures o.Fail? ==>
      exists i | 0 <= i < |agents| ::
        && !Ready(agents[i]) && o.error == MissingField(agents[i])
        && forall j | 0 <= j < i :: Ready(agents[j])
    decreases |agents|
  {
    if agents == [] then Pass
    else if agents[0].status.None? then Fail(AgentStatusMissing(agents[0].name))
    else if agents[0].characterSummary.None? then Fail(AgentCharacterSummaryMissing(agents[0].name))
    else
      var rest := CheckAgents(agents[1..]);
      assert forall i | 1 <= i < |agents| :: agents[i] == agents[1..][i - 1];
      assert rest.Fail? ==> exists i | 0 <= i < |agents[1..]| ::
        && !Ready(agents[1..][i]) && rest.error == MissingField(agents[1..][i])
        && forall j | 0 <= j < i :: Ready(agents[1..][j]);
      rest
  }

  /** ensure_dialogue_handler_initialization_contract: no list
      (InvalidParameterError), fewer than two agents (ValueError), no reason
      (InvalidParameterError), then each agent's status and character summary. */
  function EnsureDialogueHandlerInitializationContract(involvedAgents: Option<seq<Agent>>, reason: Option<string>)
    : (o: Outcome<Error>)
    reads if involvedAgents.Some? then involvedAgents.value else []
    ensures o.Pass? <==>
      && involvedAgents.Some? && |involvedAgents.value| >= 2 && reason.Some?
      && forall i | 0 <= i < |involvedAgents.value| :: Ready(involvedAgents.value[i])
    ensures involvedAgents.None? ==> o == Fail(InvalidParameter)
    ensures involvedAgents.Some? && |involvedAgents.value| < 2 ==> o == Fail(ValueError)
    ensures involvedAgents.Some? && |involvedAgents.value| >= 2 && reason.None? ==> o == Fail(InvalidParameter)
    ensures involvedAgents.Some? && |involvedAgents.value| >= 2 && reason.Some? && o.Fail? ==>
      exists i | 0 <= i < |involvedAgents.value| ::
        && !Ready(involvedAgents.value[i]) && o.error == MissingField(involvedAgents.value[i])
        && forall j | 0 <= j < i :: Ready(involvedAgents.value[j])
  {
    if involvedAgents.None? then Fail(InvalidParameter)
    else if |involvedAgents.value| < 2 then Fail(ValueError)
    else if reason.None? then Fail(InvalidParameter)
    else CheckAgents(involvedAgents.value)
  }
}
