/** dialogue/dialogue_handler.py: the older, self-contained dialogue loop.
    Each turn produces a line, asks whether to stop and, while going on,
    picks the next speaker. The language model's answers and the user's
    confirmation are inputs; the prompt texts and the memory queries that
    feed them are not modelled. */
module DialogueHandling {
  import opened Wrappers
  import opened Errors
  import opened StringUtils
  import opened Timestamps
  import opened Agents
  import opened Contracts
  import opened DialogueHistory
  import opened Messages
  import opened SpeakingOrder

  /** The handler shows the last 10 lines of dialogue in its prompts. */
  const HANDLER_HISTORY_WINDOW: nat := 10

  /** The status loop of __init__, in list order. */
  function CheckStatuses(agents: seq<Agent>): (o: Outcome<Error>)
    reads agents
    ensures o.Pass? <==> forall i | 0 <= i < |agents| :: agents[i].status.Some?
    ensures o.Fail? ==>
      exists i | 0 <= i < |agents| ::
        && agents[i].status.None? && o.error == AgentStatusMissing(agents[i].name)
        && forall j | 0 <= j < i :: agents[j].status.Some?
    decreases |agents|
  {
    if agents == [] then Pass
    else if agents[0].status.None? then Fail(AgentStatusMissing(agents[0].name))
    else
      var rest := CheckStatuses(agents[1..]);
      assert forall i | 1 <= i < |agents| :: agents[i] == agents[1..][i - 1];
      assert rest.Fail? ==> exists i | 0 <= i < |agents[1..]| ::
        && agents[1..][i].status.None? && rest.error == AgentStatusMissing(agents[1..][i].name)
        && forall j | 0 <= j < i :: agents[1..][j].status.Some?;
      rest
  }

  /** The checks of __init__, in order: no list (InvalidParameterError),
      fewer than two agents (ValueError), no reason (InvalidParameterError),
      then each agent's status. There is no character summary check. */
  function InitializationChecks(involvedAgents: Option<seq<Agent>>, reason: Option<string>): (o: Outcome<Error>)
    reads if involvedAgents.Some? then involvedAgents.value else []
    ensures o.Pass? <==>
      && involvedAgents.Some? && |involvedAgents.value| >= 2 && reason.Some?
      && forall i | 0 <= i < |involvedAgents.value| :: involvedAgents.value[i].status.Some?
    ensures involvedAgents.None? ==> o == Fail(InvalidParameter)
    ensures involvedAgents.Some? && |involvedAgents.value| < 2 ==> o == Fail(ValueError)
    ensures involvedAgents.Some? && |involvedAgents.value| >= 2 && reason.None? ==> o == Fail(InvalidParameter)
    ensures involvedAgents.Some? && |involvedAgents.value| >= 2 && reason.Some? ==>
      o == CheckStatuses(involvedAgents.value)
  {
    match involvedAgents
    case None => Fail(InvalidParameter)
    case Some(agents) =>
      if |agents| < 2 then Fail(ValueError)
      else if reason.None? then Fail(InvalidParameter)
      else CheckStatuses(agents)
  }

  /** The standalone contract of dialogue/contracts.py is the stricter one:
      whatever passes it passes the handler's own checks, with the same
      error for the first three. */
  lemma {:induction false} ContractImpliesHandlerChecks(involvedAgents: Option<seq<Agent>>, reason: Option<string>)
    ensures EnsureDialogueHandlerInitializationContract(involvedAgents, reason).Pass? ==>
      InitializationChecks(involvedAgents, reason).Pass?
    ensures InitializationChecks(involvedAgents, reason).Fail? ==>
      EnsureDialogueHandlerInitializationContract(involvedAgents, reason).Fail?
  {
    if EnsureDialogueHandlerInitializationContract(involvedAgents, reason).Pass? {
      var agents := involvedAgents.value;
      assert forall i | 0 <= i < |agents| :: Ready(agents[i]);
    }
  }

  /** The state the dialogue loop changes: the lines so far and the name of
      the next speaker (None when the language model's call left it out). */
  datatype Talk = Talk(history: seq<Line>, nextSpeaker: Option<string>)

  /** One turn's three answers from the language model: the line, whether
      to stop, and who speaks next. */
  datatype Turn = Turn(line: Response<string>, stop: Response<bool>, next: Response<string>)

  /** _determine_agent_who_will_speak_now: the last agent whose name matches
      the next speaker's. A missing name has no .lower(): the first
      comparison raises AttributeError. */
  function SpeakerNow(involvedAgents: seq<Agent>, nextSpeaker: Option<string>): (r: Result<Agent, Error>)
    ensures nextSpeaker.None? ==>
      r == Failure(if involvedAgents == [] then CouldntDetermineNextSpeaker("None") else AttributeError)
    ensures nextSpeaker.Some? ==> r == AgentWhoWillSpeakNow(nextSpeaker.value, involvedAgents)
    ensures r.Success? ==>
      && nextSpeaker.Some? && r.value in involvedAgents
      && Lower(r.value.name) == Lower(nextSpeaker.value)
  {
    match nextSpeaker
    case None => Failure(if involvedAgents == [] then CouldntDetermineNextSpeaker("None") else AttributeError)
    case Some(name) =>
      AgentWhoWillSpeakNowCases(name, involvedAgents);
      AgentWhoWillSpeakNow(name, involvedAgents)
  }

  /** The tail of _produce_line_of_dialogue: the player's response is the
      message itself; an answer of the language model with choices must
      carry a function call (ValueError otherwise) and becomes a line in the
      user role holding its argument; anything else raises ValueError. */
  function LineFromResponse(isPlayer: bool, response: Response<string>, userRole: string): (r: Result<Line, Error>)
    ensures isPlayer ==>
      && (r.Success? <==> HasChoices(response))
      && (r.Failure? ==> r.error == GetMessageFromGptResponse(response).error)
      && (r.Success? ==> r.value == Line(response.choices.value[0].role, response.choices.value[0].content))
    ensures !isPlayer ==>
      && (r.Success? <==> HasChoices(response) && response.choices.value[0].functionCall.Some?)
      && (r.Failure? ==> r.error == ValueError)
      && (r.Success? ==> r.value == Line(Some(userRole), response.choices.value[0].functionCall.value))
  {
    if isPlayer then
      var message :- GetMessageFromGptResponse(response);
      Success(Line(message.role, message.content))
    else if HasChoices(response) then
      var argument :- LoadArgument(GetMessageFromGptResponse(response).value);
      Success(Line(Some(userRole), argument))
    else Failure(ValueError)
  }

  /** _produce_line_of_dialogue: find the speaker, add the history to the
      prompt (a line without content makes the join raise TypeError), and
      append the line read from the response; the player is recognised by
      exact name. */
  function ProducedLine(involvedAgents: seq<Agent>, player: Option<Agent>, talk: Talk,
                        response: Response<string>, userRole: string): (r: Result<Talk, Error>)
    ensures r.Success? ==>
      && r.value.nextSpeaker == talk.nextSpeaker
      && |r.value.history| == |talk.history| + 1 && r.value.history[..|talk.history|] == talk.history
    ensures SpeakerNow(involvedAgents, talk.nextSpeaker).Failure? ==>
      r == Failure(SpeakerNow(involvedAgents, talk.nextSpeaker).error)
  {
    var agent :- SpeakerNow(involvedAgents, talk.nextSpeaker);
    var _ :- AddHistoryToPrompt("", talk.history, HANDLER_HISTORY_WINDOW);
    var line :- LineFromResponse(player.Some? && agent.name == player.value.name, response, userRole);
    Success(talk.(history := talk.history + [line]))
  }

  /** _determine_if_dialogue_should_end: the history goes into the prompt
      first; the answer must carry a function call, and the dialogue ends
      when its argument is true. */
  function ShouldEnd(history: seq<Line>, response: Response<bool>): (r: Result<bool, Error>)
    ensures r.Success? <==>
      && AddHistoryToPrompt("", history, HANDLER_HISTORY_WINDOW).Success?
      && HasChoices(response) && response.choices.value[0].functionCall.Some?
    ensures r.Success? ==> (r.value <==> response.choices.value[0].functionCall.value == Some(true))
  {
    var _ :- AddHistoryToPrompt("", history, HANDLER_HISTORY_WINDOW);
    var message :- GetMessageFromGptResponse(response);
    var argument :- LoadArgument(message);
    Success(argument == Some(true))
  }

  /** The index of the first agent whose name differs from `name`, ignoring case. */
  function FirstOtherName(involvedAgents: seq<Agent>, name: string): (r: Option<nat>)
    ensures r.None? <==> forall i | 0 <= i < |involvedAgents| :: Lower(involvedAgents[i].name) == Lower(name)
    ensures r.Some? ==>
      && r.value < |involvedAgents| && Lower(involvedAgents[r.value].name) != Lower(name)
      && forall j | 0 <= j < r.value :: Lower(involvedAgents[j].name) == Lower(name)
    decreases |involvedAgents|
  {
    if involvedAgents == [] then None
    else if Lower(involvedAgents[0].name) != Lower(name) then Some(0)
    else
      var rest := FirstOtherName(involvedAgents[1..], name);
      assert forall i | 1 <= i < |involvedAgents| :: involvedAgents[i] == involvedAgents[1..][i - 1];
      match rest
      case None => None
      case Some(i) => Some(i + 1)
  }

  /** The name chosen when the determined name repeats the current one. */
  function Replacement(involvedAgents: seq<Agent>, determined: string): string {
    match FirstOtherName(involvedAgents, determined)
    case None => determined
    case Some(i) => involvedAgents[i].name
  }

  /** The name the language model gives for the next speaker. */
  function DeterminedNextSpeaker(response: Response<string>): Result<Option<string>, Error> {
    var message :- GetMessageFromGptResponse(response);
    LoadArgument(message)
  }

  /** _ensure_next_speaker_isnt_last_one: a determined name equal to the
      current one, ignoring case, is replaced by the first involved agent's
      name that differs; both names must be present to be compared. */
  function NextSpeakerAfter(involvedAgents: seq<Agent>, talk: Talk, response: Response<string>): (r: Result<Talk, Error>)
    ensures r.Success? ==> r.value.history == talk.history && r.value.nextSpeaker.Some?
  {
    var determined :- DeterminedNextSpeaker(response);
    if determined.None? || talk.nextSpeaker.None? then Failure(AttributeError)
    else if Lower(determined.value) == Lower(talk.nextSpeaker.value) then
      Success(talk.(nextSpeaker := Some(Replacement(involvedAgents, determined.value))))
    else Success(talk.(nextSpeaker := determined))
  }

  /** The same name never speaks twice in a row, unless every involved
      agent has that name. */
  lemma NextSpeakerDiffers(involvedAgents: seq<Agent>, talk: Talk, response: Response<string>)
    requires NextSpeakerAfter(involvedAgents, talk, response).Success?
    requires exists i | 0 <= i < |involvedAgents| :: Lower(involvedAgents[i].name) != Lower(talk.nextSpeaker.value)
    ensures Lower(NextSpeakerAfter(involvedAgents, talk, response).value.nextSpeaker.value) != Lower(talk.nextSpeaker.value)
  {
    var determined := DeterminedNextSpeaker(response).value.value;
    if Lower(determined) == Lower(talk.nextSpeaker.value) {
      assert FirstOtherName(involvedAgents, determined).Some?;
    }
  }

  /** perform_dialogue's loop over the turns the answers allow: a line, the
      stop question, and (while going on) the next speaker. Running out of
      answers stands for the loop asking for more. */
  function Dialogue(involvedAgents: seq<Agent>, player: Option<Agent>, talk: Talk, turns: seq<Turn>,
                    userRole: string): Result<Talk, Error>
    decreases |turns|
  {
    if turns == [] then Failure(OutOfAnswers)
    else
      var withLine :- ProducedLine(involvedAgents, player, talk, turns[0].line, userRole);
      var end :- ShouldEnd(withLine.history, turns[0].stop);
      if end then Success(withLine)
      else
        var next :- NextSpeakerAfter(involvedAgents, withLine, turns[0].next);
        Dialogue(involvedAgents, player, next, turns[1..], userRole)
  }

  /** The dialogue that went from `talk` to `final` stopped at turn k: one
      new line per turn up to k, after the lines it started with, the k-th
      stop answer said to stop and the earlier ones did not. */
  ghost predicate StoppedAt(end: (seq<Line>, Response<bool>) -> Result<bool, Error>,
                           talk: Talk, final: Talk, turns: seq<Turn>, k: nat) {
    && 1 <= k <= |turns|
    && |final.history| == |talk.history| + k
    && final.history[..|talk.history|] == talk.history
    && end(final.history, turns[k - 1].stop) == Success(true)
    && forall j | 0 <= j < k - 1 :: end(final.history[..|talk.history| + j + 1], turns[j].stop) == Success(false)
  }

  /** A turn that adds a line and does not stop, in front of a dialogue that
      stopped at turn k, gives one that stopped at turn k + 1. */
  lemma StoppedAtExtend(end: (seq<Line>, Response<bool>) -> Result<bool, Error>, talk: Talk, withLine: Talk, next: Talk, final: Talk, turns: seq<Turn>, k: nat)
    requires turns != []
    requires |withLine.history| == |talk.history| + 1 && withLine.history[..|talk.history|] == talk.history
    requires next.history == withLine.history
    requires end(withLine.history, turns[0].stop) == Success(false)
    requires StoppedAt(end, next, final, turns[1..], k)
    ensures StoppedAt(end, talk, final, turns, k + 1)
  {
    var n := |talk.history|;
    assert final.history[..n] == final.history[..n + 1][..n];
    assert final.history[..n + 1] == withLine.history;
    forall j | 0 <= j < k ensures end(final.history[..n + j + 1], turns[j].stop) == Success(false) {
      if j > 0 {
        assert turns[j] == turns[1..][j - 1];
        assert n + j + 1 == |next.history| + (j - 1) + 1;
      }
    }
    assert turns[1..][k - 1] == turns[k + 1 - 1];
  }

  /** A finished dialogue stopped at the first turn whose answer said so:
      it holds one new line per turn up to that one, after the lines it
      started with. */
  lemma {:induction false} DialogueShape(involvedAgents: seq<Agent>, player: Option<Agent>, talk: Talk,
                                         turns: seq<Turn>, userRole: string)
    requires Dialogue(involvedAgents, player, talk, turns, userRole).Success?
    ensures exists k: nat :: StoppedAt(ShouldEnd, talk, Dialogue(involvedAgents, player, talk, turns, userRole).value, turns, k)
    decreases |turns|
  {
    var final := Dialogue(involvedAgents, player, talk, turns, userRole).value;
    var withLine := ProducedLine(involvedAgents, player, talk, turns[0].line, userRole).value;
    var end := ShouldEnd(withLine.history, turns[0].stop).value;
    if end {
      assert final == withLine;
      assert StoppedAt(ShouldEnd, talk, final, turns, 1);
    } else {
      var next := NextSpeakerAfter(involvedAgents, withLine, turns[0].next).value;
      assert final == Dialogue(involvedAgents, player, next, turns[1..], userRole).value;
      DialogueShape(involvedAgents, player, next, turns[1..], userRole);
      var k': nat :| StoppedAt(ShouldEnd, next, final, turns[1..], k');
      StoppedAtExtend(ShouldEnd, talk, withLine, next, final, turns, k');
    }
  }

  class DialogueHandler {
    const involvedAgents: seq<Agent>
    const playerAgent: Option<Agent>
    const reasonForConversation: string
    const currentTimestamp: DateTime
    /** USER_ROLE */
    const userRole: string
    /** _dialogue_history */
    var dialogueHistory: seq<Line>
    /** _next_speaker: a name */
    var nextSpeaker: Option<string>

    function State(): Talk
      reads this
    {
      Talk(dialogueHistory, nextSpeaker)
    }

    /** The checks and the choice of the first speaker are made by
        NewDialogueHandler. The history starts empty. */
    constructor (agents: seq<Agent>, player: Option<Agent>, reason: string, now: DateTime, role: string,
                 firstSpeaker: Option<string>)
      ensures involvedAgents == agents && playerAgent == player && reasonForConversation == reason
      ensures currentTimestamp == now && userRole == role
      ensures dialogueHistory == [] && nextSpeaker == firstSpeaker
    {
      involvedAgents := agents;
      playerAgent := player;
      reasonForConversation := reason;
      currentTimestamp := now;
      userRole := role;
      dialogueHistory := [];
      nextSpeaker := firstSpeaker;
    }

    /** _add_dialogue_history: nothing is added to an empty history;
        otherwise the header and the contents of the last 10 lines. */
    function AddDialogueHistory(userContent: string): (r: Result<string, Error>)
      reads this
      ensures dialogueHistory == [] ==> r == Success(userContent)
      ensures dialogueHistory != [] ==>
        && (r.Success? <==> Contents(Window(dialogueHistory, HANDLER_HISTORY_WINDOW)).Success?)
        && (r.Success? ==>
              r.value == userContent + LATEST_LINES_HEADER
                         + Join(Contents(Window(dialogueHistory, HANDLER_HISTORY_WINDOW)).value, "\n"))
    {
      AddHistoryToPrompt(userContent, dialogueHistory, HANDLER_HISTORY_WINDOW)
    }

    /** _determine_agent_who_will_speak_now */
    method DetermineAgentWhoWillSpeakNow() returns (r: Result<Agent, Error>)
      ensures r == SpeakerNow(involvedAgents, nextSpeaker)
    {
      if nextSpeaker.None? {
        if involvedAgents == [] {
          return Failure(CouldntDetermineNextSpeaker("None"));
        }
        return Failure(AttributeError);
      }
      r := SpeakingOrder.DetermineAgentWhoWillSpeakNow(nextSpeaker.value, involvedAgents);
    }

    /** _produce_line_of_dialogue */
    method ProduceLineOfDialogue(response: Response<string>) returns (o: Outcome<Error>)
      modifies this
      ensures
        var produced := ProducedLine(involvedAgents, playerAgent, old(State()), response, userRole);
        && (produced.Failure? ==> o == Fail(produced.error) && State() == old(State()))
        && (produced.Success? ==> o.Pass? && State() == produced.value)
    {
      var agentWhoWillSpeakNow := DetermineAgentWhoWillSpeakNow();
      if agentWhoWillSpeakNow.Failure? {
        return Fail(agentWhoWillSpeakNow.error);
      }
      var userContent := AddDialogueHistory("");
      if userContent.Failure? {
        return Fail(userContent.error);
      }
      var isPlayer := playerAgent.Some? && agentWhoWillSpeakNow.value.GetName() == playerAgent.value.GetName();
      var line := LineFromResponse(isPlayer, response, userRole);
      if line.Failure? {
        return Fail(line.error);
      }
      dialogueHistory := dialogueHistory + [line.value];
      return Pass;
    }

    /** _determine_if_dialogue_should_end */
    function DetermineIfDialogueShouldEnd(response: Response<bool>): Result<bool, Error>
      reads this
    {
      ShouldEnd(dialogueHistory, response)
    }

    /** _ensure_next_speaker_isnt_last_one: the loop stops at the first
        agent whose name differs, ignoring case. */
    method EnsureNextSpeakerIsntLastOne(response: Response<string>) returns (o: Outcome<Error>)
      modifies this
      ensures
        var after := NextSpeakerAfter(involvedAgents, old(State()), response);
        && (after.Failure? ==> o == Fail(after.error) && State() == old(State()))
        && (after.Success? ==> o.Pass? && State() == after.value)
    {
      var determined := DeterminedNextSpeaker(response);
      if determined.Failure? {
        return Fail(determined.error);
      }
      if determined.value.None? || nextSpeaker.None? {
        return Fail(AttributeError);
      }
      var determinedNextSpeaker := determined.value.value;
      if Lower(determinedNextSpeaker) == Lower(nextSpeaker.value) {
        var i := 0;
        while i < |involvedAgents|
          invariant 0 <= i <= |involvedAgents|
          invariant determinedNextSpeaker == determined.value.value
          invariant forall j | 0 <= j < i :: Lower(involvedAgents[j].name) == Lower(determinedNextSpeaker)
        {
          if Lower(involvedAgents[i].GetName()) != Lower(determinedNextSpeaker) {
            assert FirstOtherName(involvedAgents, determinedNextSpeaker) == Some(i);
            determinedNextSpeaker := involvedAgents[i].GetName();
            break;
          }
          i := i + 1;
        }
      }
      nextSpeaker := Some(determinedNextSpeaker);
      return Pass;
    }

    /** perform_dialogue: the loop goes on until an answer says to stop and
        returns the history. */
    method PerformDialogue(turns: seq<Turn>) returns (r: Result<seq<Line>, Error>)
      modifies this
      ensures
        var d := Dialogue(involvedAgents, playerAgent, old(State()), turns, userRole);
        && (d.Success? ==> r == Success(dialogueHistory) && State() == d.value)
        && (d.Failure? ==> r == Failure(d.error))
    {
      var i := 0;
      while true
        invariant 0 <= i <= |turns|
        invariant Dialogue(involvedAgents, playerAgent, State(), turns[i..], userRole)
               == Dialogue(involvedAgents, playerAgent, old(State()), turns, userRole)
        decreases |turns| - i
      {
        if i == |turns| {
          return Failure(OutOfAnswers);
        }
        assert turns[i..][0] == turns[i] && turns[i..][1..] == turns[i + 1..];
        var o := ProduceLineOfDialogue(turns[i].line);
        if o.Fail? {
          return Failure(o.error);
        }
        var end := DetermineIfDialogueShouldEnd(turns[i].stop);
        if end.Failure? {
          return Failure(end.error);
        }
        if end.value {
          return Success(dialogueHistory);
        }
        o := EnsureNextSpeakerIsntLastOne(turns[i].next);
        if o.Fail? {
          return Failure(o.error);
        }
        i := i + 1;
      }
    }
  }

  /** DialogueHandler(...): the checks of __init__, then the first speaker:
      the player when there is one and they want to speak first (they are
      asked only when there is a player), otherwise the name the language
      model answers with. */
  method NewDialogueHandler(involvedAgents: Option<seq<Agent>>, player: Option<Agent>, reason: Option<string>,
                            now: DateTime, userRole: string, playerWantsToSpeakFirst: bool,
                            firstSpeakerResponse: Response<string>)
    returns (r: Result<DialogueHandler, Error>)
    ensures InitializationChecks(involvedAgents, reason).Fail? ==>
      r == Failure(InitializationChecks(involvedAgents, reason).error)
    ensures r.Success? ==>
      && fresh(r.value) && InitializationChecks(involvedAgents, reason).Pass?
      && r.value.involvedAgents == involvedAgents.value && r.value.playerAgent == player
      && r.value.reasonForConversation == reason.value && r.value.currentTimestamp == now
      && r.value.userRole == userRole && r.value.dialogueHistory == []
      && (player.Some? && playerWantsToSpeakFirst ==> r.value.nextSpeaker == Some(player.value.name))
      && (!(player.Some? && playerWantsToSpeakFirst) ==>
            && DeterminedNextSpeaker(firstSpeakerResponse).Success?
            && r.value.nextSpeaker == DeterminedNextSpeaker(firstSpeakerResponse).value)
    ensures InitializationChecks(involvedAgents, reason).Pass? ==>
      (r.Failure? <==> !(player.Some? && playerWantsToSpeakFirst) && DeterminedNextSpeaker(firstSpeakerResponse).Failure?)
    ensures InitializationChecks(involvedAgents, reason).Pass? && r.Failure? ==>
      r.error == DeterminedNextSpeaker(firstSpeakerResponse).error
  {
    var checks := InitializationChecks(involvedAgents, reason);
    if checks.Fail? {
      return Failure(checks.error);
    }
    var firstSpeaker: Option<string>;
    if player.Some? && playerWantsToSpeakFirst {
      firstSpeaker := Some(player.value.GetName());
    } else {
      var determined := DeterminedNextSpeaker(firstSpeakerResponse);
      if determined.Failure? {
        return Failure(determined.error);
      }
      firstSpeaker := determined.value;
    }
    var handler := new DialogueHandler(involvedAgents.value, player, reason.value, now, userRole, firstSpeaker);
    return Success(handler);
  }
}
