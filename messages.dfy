/** llms/messages.py: reading the message out of a language model's
    response and the arguments out of its function call. The request itself
    is not modelled; a response is an input of the operation that asks. */
module Messages {
  import opened Wrappers
  import opened Errors

  /** SYSTEM_ROLE of defines/defines.py. The role of user messages,
      USER_ROLE, is not defined there and is a parameter of the operations
      that use it. */
  const SYSTEM_ROLE: string := "system"

  /** A message of a response. `functionCall` is None when the message has
      no function call; otherwise it holds the decoded value of the one
      parameter the caller reads (None when that argument is absent). */
  datatype Message<A> = Message(role: Option<string>, content: Option<string>, functionCall: Option<Option<A>>)

  /** A response; "choices" may be missing (None). */
  datatype Response<A> = Response(choices: Option<seq<Message<A>>>)

  /** response.get("choices") is truthy: present and not an empty list. */
  predicate HasChoices<A>(response: Response<A>) {
    response.choices.Some? && response.choices.value != []
  }

  /** get_message_from_gpt_response: response["choices"][0]["message"]. A
      missing key raises KeyError and an empty list IndexError. */
  function GetMessageFromGptResponse<A>(response: Response<A>): (r: Result<Message<A>, Error>)
    ensures r.Success? <==> HasChoices(response)
    ensures r.Success? ==> r.value == response.choices.value[0]
    ensures response.choices.None? ==> r == Failure(KeyError("choices"))
    ensures response.choices == Some([]) ==> r == Failure(IndexError)
  {
    match response.choices
    case None => Failure(KeyError("choices"))
    case Some(choices) => if choices == [] then Failure(IndexError) else Success(choices[0])
  }

  /** load_arguments_of_message_with_function_call followed by .get() of the
      caller's parameter: a message without a function call raises
      ValueError. */
  function LoadArgument<A>(message: Message<A>): (r: Result<Option<A>, Error>)
    ensures r.Success? <==> message.functionCall.Some?
    ensures r.Success? ==> r.value == message.functionCall.value
    ensures r.Failure? ==> r.error == ValueError
  {
    if message.functionCall.None? then Failure(ValueError) else Success(message.functionCall.value)
  }
}
