/** dialogue/dialogue_history_handler.py: the lines of a dialogue, in the
    order they were uttered, and the window of them a prompt shows. */
module DialogueHistory {
  import opened Wrappers
  import opened Errors
  import opened StringUtils

  /** A line of dialogue in the message format of the language model: a dict
      whose "role" and "content" may be missing (None). */
  datatype Line = Line(role: Option<string>, content: Option<string>)

  /** The value register_line_of_dialogue is given: a dict, or anything else. */
  datatype LineArgument = LineDict(line: Line) | NotADict

  /** HOW_MANY_LINES_OF_DIALOGUE_TO_INCLUDE_IN_PROMPT */
  const HOW_MANY_LINES_OF_DIALOGUE_TO_INCLUDE_IN_PROMPT: nat := 20

  const LATEST_LINES_HEADER: string := "\nLatest lines of dialogue:\n"

  /** Both fields are present and not empty (a falsy value is rejected). */
  predicate WellFormed(line: Line) {
    line.role.Some? && line.role.value != "" && line.content.Some? && line.content.value != ""
  }

  /** lines[-n:] for n > 0: the last n lines, or all of them when there are fewer. */
  function Window<T>(lines: seq<T>, n: nat): (r: seq<T>)
    requires n > 0
    ensures |r| == (if n < |lines| then n else |lines|)
    ensures r == lines[|lines| - |r|..]
  {
    if n < |lines| then lines[|lines| - n..] else lines
  }

  /** [line["content"] for line in lines]; str.join rejects a content that is
      not a string with TypeError. */
  function Contents(lines: seq<Line>): (r: Result<seq<string>, Error>)
    ensures r.Success? <==> forall i | 0 <= i < |lines| :: lines[i].content.Some?
    ensures r.Success? ==>
      |r.value| == |lines| && forall i | 0 <= i < |lines| :: Some(r.value[i]) == lines[i].content
    ensures r.Failure? ==> r.error == TypeError
    decreases |lines|
  {
    if lines == [] then Success([])
    else if lines[0].content.None? then Failure(TypeError)
    else
      var rest :- Contents(lines[1..]);
      assert forall i | 1 <= i < |lines| :: lines[i] == lines[1..][i - 1];
      Success([lines[0].content.value] + rest)
  }

  /** The prompt helper: with no lines the text is returned as it is;
      otherwise the header and the contents of the last `window` lines,
      oldest first, one per line, are appended to it. */
  function AddHistoryToPrompt(userContent: string, lines: seq<Line>, window: nat): (r: Result<string, Error>)
    requires window > 0
    ensures lines == [] ==> r == Success(userContent)
    ensures lines != [] ==>
      && (r.Success? <==> Contents(Window(lines, window)).Success?)
      && (r.Success? ==> r.value == userContent + LATEST_LINES_HEADER + Join(Contents(Window(lines, window)).value, "\n"))
  {
    if |lines| > 0 then
      var contents :- Contents(Window(lines, window));
      Success(userContent + LATEST_LINES_HEADER + Join(contents, "\n"))
    else Success(userContent)
  }

  class DialogueHistoryHandler {
    var history: seq<Line>

    /** Every registered line is well formed. */
    ghost predicate Valid()
      reads this
    {
      forall i | 0 <= i < |history| :: WellFormed(history[i])
    }

    /** The history starts empty. */
    constructor ()
      ensures history == [] && Valid()
    {
      history := [];
    }

    function GetDialogueHistory(): seq<Line>
      reads this
    {
      history
    }

    /** add_dialogue_history_for_prompt: on the handler's own lines the
        prompt helper cannot fail. */
    function AddDialogueHistoryForPrompt(userContent: string): (r: string)
      reads this
      requires Valid()
      ensures AddHistoryToPrompt(userContent, history, HOW_MANY_LINES_OF_DIALOGUE_TO_INCLUDE_IN_PROMPT) == Success(r)
    {
      var window := Window(history, HOW_MANY_LINES_OF_DIALOGUE_TO_INCLUDE_IN_PROMPT);
      assert forall i | 0 <= i < |window| :: window[i] == history[|history| - |window| + i];
      AddHistoryToPrompt(userContent, history, HOW_MANY_LINES_OF_DIALOGUE_TO_INCLUDE_IN_PROMPT).value
    }

    /** register_line_of_dialogue: a value that is not a dict raises
        InvalidParameterError and a dict without a role or a content raises
        ValueError, both leaving the history as it was; a well-formed line
        is appended at the end. */
    method RegisterLineOfDialogue(argument: LineArgument) returns (o: Outcome<Error>)
      modifies this
      requires Valid()
      ensures Valid()
      ensures argument.NotADict? ==> o == Fail(InvalidParameter) && history == old(history)
      ensures argument.LineDict? && !WellFormed(argument.line) ==> o == Fail(ValueError) && history == old(history)
      ensures argument.LineDict? && WellFormed(argument.line) ==> o.Pass? && history == old(history) + [argument.line]
    {
      if !argument.LineDict? {
        return Fail(InvalidParameter);
      }
      if !WellFormed(argument.line) {
        return Fail(ValueError);
      }
      history := history + [argument.line];
      return Pass;
    }
  }
}
