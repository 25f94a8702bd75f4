/** The exceptions the memory store and the dialogue rules raise, as values.
    Messages are not modelled; each error keeps the data that identifies it. */
module Errors {

  type Path = string

  datatype Error =
    // file and index errors
    | FileNotFound(path: Path)
    | OSError(path: Path)
    | JsonDecodeError(path: Path)
    | UnableToSaveVectorDatabase(path: Path)
    | DisparityBetweenDatabases(indexCount: nat, dataCount: nat)
    | AnnoyMisuse
    // errors of the memory records
    | FailedToReceiveFunctionCallFromAiModel
    | KeyError(key: string)
    | TypeError
    | ValueError
    | IndexError
    | AttributeError
    // dialogue errors
    | InvalidParameter
    | AgentStatusMissing(agent: string)
    | AgentCharacterSummaryMissing(agent: string)
    | CouldntDetermineNextSpeaker(name: string)
    | CouldntFindMatchingAgent(name: string)
    // the model was given fewer language-model answers than the dialogue asked for
    | OutOfAnswers
}
