/** agents/agent.py: a character taking part in dialogues. The function it
    uses to ask a language model for its lines is not modelled. */
module Agents {
  import opened Wrappers

  class Agent {
    const name: string
    var status: Option<string>
    var characterSummary: Option<string>

    /** A new agent has neither a status nor a character summary. */
    constructor (agentName: string)
      ensures name == agentName && status == None && characterSummary == None
    {
      name := agentName;
      status := None;
      characterSummary := None;
    }

    function GetName(): string {
      name
    }

    function GetStatus(): Option<string>
      reads this
    {
      status
    }

    function GetCharacterSummary(): Option<string>
      reads this
    {
      characterSummary
    }

    /** set_status leaves the character summary alone. */
    method SetStatus(newStatus: Option<string>)
      modifies this
      ensures status == newStatus && characterSummary == old(characterSummary)
    {
      status := newStatus;
    }

    /** set_character_summary leaves the status alone. */
    method SetCharacterSummary(summary: Option<string>)
      modifies this
      ensures characterSummary == summary && status == old(status)
    {
      characterSummary := summary;
    }
  }
}
