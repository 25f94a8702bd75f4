# Long-term memories and dialogue turn-taking of rpgs-with-llms

This project is a Dafny model of two parts of rpgs-with-llms.

**The long-term memory store.** Each agent, or named database, keeps two files side by side:

- an Annoy vector index, which holds one embedding per memory under a slot id;
- a JSON document, which holds each memory's record under the same id.

The record has five fields: description, creation timestamp, most recent access timestamp, recency and importance.

The model covers the store's whole life cycle:

- **creation** from a seed file: one memory per line, each ending in a period;
- **loading**, with a parity check between the index's item count and the document's size;
- **updating**: the old vectors are copied under their own ids, the new memories take the following ids, and the document on disk is merged with the new records;
- **querying**: the nearest neighbours are scored, ranked stably by score, and cut to the requested count. Exactly those entries are then marked as accessed and the data is saved again.

The two packages of the store are modelled as written:

- `memories/`, for agent memories;
- `vector_databases/`, for named databases.

They differ in two ways:

- **The recency of an accessed entry.** The first package computes it from now and now. The second computes it from now and the entry's previous access.
- **The requested count.** Only the second package checks it.

The files and the index are classes whose methods change them in place:

- `Files.FileSystem` holds a map from path to file.
- `Annoy.AnnoyIndex` holds a sequence of vectors and a life-cycle state: Empty, Populated, Built, Loaded or Unloaded.

The record dict that the querier, the updater and their caller share is `Records.MemoryTable`.

**The dialogue turn-taking rules:**

- an append-only dialogue history with a window of recent lines used in prompts;
- the matching of the language model's answer "who speaks?" against the involved agents, on case-insensitive names;
- a selector that never lets the same name speak twice in a row, and counts how often each agent was picked;
- a "continue" flag that only ever goes from true to false;
- the checks a dialogue's participants must pass;
- the older, self-contained loop of `dialogue/dialogue_handler.py`.

**How the model stands in for what it cannot run.**

- **The language model's answers are inputs.** They are values of type `Messages.Response`. A whole dialogue takes a sequence of `DialogueHandling.Turn`s, and running out of turns is the error `OutOfAnswers`.
- **Embeddings, importance ratings and `math.exp`** are functions in the `Saving.Collaborators` bundle. The model assumes only `exp(0) = 1` of `exp`.
- **Annoy's neighbour search** is a function that the queriers receive.
- **Two constants that the repository imports but does not define** are parameters:
  - `NUMBER_OF_BASE_RESULTS_FOR_EVERY_QUERY`;
  - `USER_ROLE`.

## Model

| member | source | states |
|---|---|---|
| StringUtils.RStrip | string_utils.py:2 | only trailing whitespace is removed: the result is a prefix of the text, does not end in whitespace, and everything cut off is whitespace |
| StringUtils.EndStringWithPeriodCases | string_utils.py:1-15 | a right-stripped text that ends in "." is returned as it is, any other gets exactly one "." appended ("!" and "?" endings too); the branch for "\n", "\t", "\r" is never taken because rstrip removed them |
| StringUtils.EndStringWithPeriodEndsInPeriod | string_utils.py:1-15 | the result always ends in ".", and the right-stripped input is a prefix of it |
| StringUtils.EndStringWithPeriodOfEmpty | string_utils.py:1-13 | the empty string becomes "." |
| StringUtils.EndStringWithPeriodIdempotent | string_utils.py:1-15 | applying it a second time changes nothing |
| StringUtils.ReplaceSpacesWithUnderscoresShape | string_utils.py:18-22 | the result has the input's length and holds no space and no upper-case letter; a text with neither is returned unchanged |
| StringUtils.ReplaceSpacesWithUnderscoresIdempotent | string_utils.py:18-22 | applying it a second time changes nothing |
| Timestamps.ParseIsoOfIsoFormat | memories/jsonification.py:119-160 | datetime.fromisoformat gives back exactly the datetime that isoformat wrote, with or without microseconds |
| Timestamps.IsoFormatInjective | memories/jsonification.py:136-160 | two datetimes have the same ISO string exactly when they are equal |
| Timestamps.TotalSeconds | math_utils.py:6-12 | the difference of two equal instants is 0 seconds, and a later instant minus an earlier one is positive |
| MathUtils.RecencyOfNowIsOne | math_utils.py:6-12 | an access at the current instant has recency exp(0) = 1, whatever the decay rate |
| MathUtils.RecencyDecays | math_utils.py:6-12 | with a positive decay rate, a more recent access has a strictly higher recency, and any past access has recency below 1 |
| MathUtils.NormalizeValueRange | math_utils.py:15-16 | 1 maps to 0 and 10 to 1, the mapping is strictly increasing, and 1..10 lands in [0, 1] |
| MathUtils.NormalizeValueUnchecked | math_utils.py:15-16 | there is no range check: 0 maps below 0 and 11 above 1 |
| MathUtils.CalculateScore | math_utils.py:19-27 | with the default weights SCORE_ALPHA = SCORE_BETA = SCORE_GAMMA = 1.0 the score is the plain sum of relevance, recency and importance |
| MathUtils.ScoreStrictlyIncreasing | math_utils.py:19-27 | with positive weights, raising any one of the three components with the other two fixed raises the score strictly |
| MathUtils.ScoresOfPaper | math_utils.py:19-27 | the scores of (0.91, 0.63, 0.80), (0.87, 0.63, 0.71) and (0.85, 0.73, 0.62) are 2.34, 2.21 and 2.20 |
| Validation.EnsureParityBetweenDatabases | memories/validation.py:4-8 | passes exactly when the index's item count equals the number of records; otherwise the error carries both counts |
| Validation.ParityLooksOnlyAtCounts | memories/validation.py:4-8 | two tables of the same size get the same verdict: neither the keys nor the records are inspected |
| Validation.ParityIgnoresSlotIds | memories/validation.py:5 | a one-record table whose key is not 0 passes against an index with one item |
| Jsonification.AppendToPreviousJsonMemoriesIfNecessary | memories/jsonification.py:11-34 | with no file, the new memories come back unchanged; with a file, an unreadable document gives the decode error, and otherwise the result has the keys of both: new records win on a shared key and other on-disk records are untouched |
| Jsonification.CreateMemoryDictionary | memories/jsonification.py:37-116 | a reply without a function call gives FailedToReceiveFunctionCallFromAiModelError, and one whose rating is missing gives TypeError; otherwise the record has the description, both timestamps equal to now's ISO string, recency 1 and importance normalize_value(rating), and can be written as JSON |
| Jsonification.CreateMemoryDictionaryTimestamps | memories/jsonification.py:51-55 | both timestamps of a new record parse back to now, and its Python form holds now in both |
| Jsonification.RecordForJsonProperties | memories/jsonification.py:136-160 | turning a record's datetimes into strings succeeds exactly on records with all five fields, gives a serialisable record with the same description, recency and importance, and is idempotent |
| Jsonification.StampRoundTrip | memories/jsonification.py:121-158 | a datetime turned into its ISO string and parsed again is the same datetime |
| Jsonification.RecordRoundTrip | memories/jsonification.py:119-160 | a record in Python form goes to JSON form and back unchanged |
| Jsonification.RecordForPythonErrorOrder | memories/jsonification.py:119-133 | a missing description is reported first, then a missing creation timestamp, then one that is not a string |
| Jsonification.ConvertEachRecord | memories/jsonification.py:119-160 | the records are visited in id order; it succeeds exactly when every record converts, and then every record is converted; otherwise the error is that of the first record in id order that fails, the records before it are converted and the rest are unchanged |
| Jsonification.FormatJsonMemoryDataForPython | memories/jsonification.py:119-133 | in place: the key set is kept; it succeeds exactly when every record converts, and then every record is its Python form; a failure is the error of the first failing record in id order, with the records before it already converted |
| Jsonification.FormatPythonMemoryDataForJson | memories/jsonification.py:136-160 | in place: the key set is kept; it succeeds exactly when every record is complete, and then every record is its JSON form and the table is serialisable; a failure is the KeyError of the first incomplete record in id order, with the records before it already converted |
| DatabaseEntries.GettersWithDefaults | vector_databases/database_entry.py:6-29 | each getter returns the id or the stored value, or its default when absent: 0.0 for recency and importance, "" for the description |
| DatabaseEntries.AccessTimestampDefaults | vector_databases/database_entry.py:19-26 | a stored datetime is returned as it is and a stored ISO string is parsed; a missing field reads as the wall-clock time |
| Vectorization.CreateVectorizedMemory | vector_databases/vectorization.py:10-33 | the slot id is the index's item count before the call; the embedding is appended under it before the rating is asked for, so a rating failure leaves the extra item; on success the result pairs that id with the description's new record |
| Creation.CreateVectorDatabase | vector_databases/creation.py:5-14 | the index is built with NUMBER_OF_TREES = 10 before the save; a save to an unwritable path gives UnableToSaveVectorDatabaseError with the build already done; otherwise the index file holds the items |
| Saving.Embeddings | memories/saving.py:31-38 | one embedding per description, in order |
| Saving.MemoryDictionariesSucceed | memories/saving.py:31-38 | the new records are built exactly when every description's rating succeeds |
| Saving.MemoryDictionariesKeys | memories/saving.py:31-38 | the new records' ids are exactly n0 .. n0 + m - 1, where n0 is the index's item count at the start |
| Saving.MemoryDictionariesValues | memories/saving.py:31-38 | under id n0 + i is the record of the i-th description, and every record is serialisable |
| Saving.MemoryDictionariesPrefixFailure | memories/saving.py:31-38 | once one rating fails, the whole loop fails with that error |
| Saving.SaveMemoriesToJsonFileEnsuringParity | memories/saving.py:12-22 | an unwritable path gives OSError with nothing changed; otherwise the document is written and the outcome is the parity check of what was written against the index |
| Saving.VectorizeMemories | memories/saving.py:31-38 | each description is appended to the index in turn under the next id; the result is the table of their records |
| Saving.SavedIntoNothing | memories/saving.py:42-48 | with no document on disk, the document written is exactly the new records |
| Saving.SaveMemories | memories/saving.py:24-48 | the new memories take the ids from the item count on; a rating failure, or AnnoyMisuse from an index already built or loaded, changes no file; an unsaveable index gives UnableToSaveVectorDatabaseError with every file as it was; a file at the JSON path that is not a document gives its decoding error with only the index written; an unwritable JSON path gives OSError with only the index written; otherwise the document written is the on-disk one merged with the new records, and the call passes exactly when that document is as large as the index, failing otherwise with DisparityBetweenDatabasesError and both counts |
| Saving.IndexThenJsonPassed | memories/saving.py:40-48 | a save that passes leaves the index file with the vectors and the JSON file with the merged document, as large as the index |
| MemoriesDatabaseCreator.SeedLineNormalised | memories/memories_database_creator.py:83-84 | a seed line becomes its stripped text ending in a period; a blank line becomes "." |
| MemoriesDatabaseCreator.SeedMemoriesNormalised | memories/memories_database_creator.py:70-84 | one memory per seed line, in file order, each normalised |
| MemoriesDatabaseCreator.LoadAndVerifySeedMemories | memories/memories_database_creator.py:60-84 | a missing seed file gives FileNotFoundError; otherwise the memories are the normalised lines of the file |
| MemoriesDatabaseCreator.CreateVectorDatabaseAndJsonFile | memories/memories_database_creator.py:86-117 | the fresh index is unloaded on every path; a failed rating is reported and changes no file; when every rating succeeds the outcome and the files are those save_memories gives for the seeds' embeddings and records, in each of its failure cases and on success; on success the index file holds the seeds' embeddings and the document their records under ids 0 .. n - 1 |
| MemoriesDatabaseCreator.CreationPassesWhenWritable | memories/memories_database_creator.py:105-117 | into two distinct writable paths with no JSON document yet, a creation whose ratings succeed passes and leaves the seeds' database: their embeddings and their records under ids 0 .. n - 1 |
| MemoriesDatabaseCreator.CreateFromSeeds | memories/memories_database_creator.py:21-117 | nothing happens unless both base files are missing; a missing seed file is reported before any index exists; a rating failure changes no file; once the seeds are rated the outcome and the files are save_memories' for them, whichever way the saves go; any index made is unloaded |
| MemoriesDatabaseCreator.CreateDatabase | memories/memories_database_creator.py:21-50 | the same, for the three paths of the named agent |
| DatabaseCreator.CreateDatabase | vector_databases/database_creator.py:17-100 | silent no-op unless both given files are missing; a missing seed file gives FileNotFoundError; a rating failure changes no file; otherwise the outcome and the files are save_memories' for the normalised seeds, whichever way the saves go, and the index is unloaded in the finally block |
| DatabaseLoader.LoadIndexAndData | vector_databases/database_loader.py:15-41 | a missing index file is reported as FileNotFoundError before the JSON is opened; the parity check runs on the raw document before any timestamp is converted; on success the records have typed timestamps, and a failure is the error of the first record in id order that cannot be converted; the index is returned loaded and is never unloaded |
| DatabaseLoader.DatabaseLoader.Load | vector_databases/database_loader.py:15-41 | the same, on the database's own two files |
| MemoriesDatabaseLoader.MemoriesDatabaseLoader.Load | memories/memories_database_loader.py:16-47 | the same, on the agent's base memory files |
| Ranking.SortedByScore | memories/memories_database_querier.py:38 | the ranking is in descending order of score |
| Ranking.RankingIsPermutation | memories/memories_database_querier.py:38 | the ranking holds the same candidates as the input, each as often |
| Ranking.RankingIsStable | vector_databases/database_querier.py:76 | candidates with equal scores keep their input order, as in Python's stable sorted(..., reverse=True) |
| Ranking.PySliceTo | memories/memories_database_querier.py:42-44 | Python's s[:k]: a prefix of length min(k, n) for k >= 0, and n + k (at least 0) for negative k |
| Ranking.TopAreCandidates | vector_databases/database_querier.py:76-79 | every entry at the top of the ranking is a candidate |
| Ranking.ScoreAllCases | vector_databases/database_querier.py:89-108 | the scoring loop succeeds exactly when every candidate can be scored, then yields one score per candidate in order; otherwise it stops at the first candidate that cannot be scored |
| Ranking.ScoreCandidates | memories/memories_database_querier.py:47-57 | the appending loop computes exactly the scores of the candidates |
| DatabaseUpdater.CopyItems | vector_databases/database_updater.py:32-35 | the fresh index receives every old vector under its own id |
| DatabaseUpdater.UpdateWithNewEntries | vector_databases/database_updater.py:28-49 | both indexes end up unloaded whatever happens; a rating failure leaves every file unchanged; otherwise the outcome and the files are save_memories' for the old vectors followed by the new embeddings and the new records under ids n .. n + m - 1, in each failure case and on success |
| DatabaseUpdater.UpdatePassesWhenWritable | memories/memories_database_updater.py:27-46 | when the document holds ids 0 .. n - 1 for the n old vectors and both paths are writable and distinct, an update whose ratings succeed passes, with the files saved together |
| DatabaseUpdater.UpdateKeepsIdsConsecutive | memories/memories_database_updater.py:27-46 | a document with ids 0 .. n - 1 before an update has ids 0 .. n + m - 1 after it, and the old records are kept |
| DatabaseUpdater.TouchEntryCases | vector_databases/database_updater.py:69-78 | one access succeeds exactly when the id is present and its previous access time can be read; the recency is then computed from now and that previous time, and the access time becomes now |
| DatabaseUpdater.AccessesRecordedShape | vector_databases/database_updater.py:51-86 | every scored id is present afterwards, accessed now, with its description, creation time and importance kept; the ids and records of unscored entries are unchanged |
| DatabaseUpdater.AccessesRecordedSucceeds | vector_databases/database_updater.py:69-78 | with distinct ids the loop succeeds exactly when every id is present and readable |
| DatabaseUpdater.AccessesRecordedOfDistinctIds | vector_databases/database_updater.py:69-78 | with distinct ids, each entry's recency is computed from its own previous access time, read before it is overwritten |
| DatabaseUpdater.RepeatedEntrySeesFirstAccess | vector_databases/database_updater.py:69-78 | an entry scored twice sees, the second time, the access time written the first time |
| DatabaseUpdater.DatabaseUpdater.UpdateDatabaseWithNewEntries | vector_databases/database_updater.py:28-49 | the contract of UpdateWithNewEntries on the database's own two files: both indexes unloaded, a rating failure changing no file, and save_memories' outcome otherwise |
| DatabaseUpdater.StoppedAtFailure | vector_databases/database_updater.py:69-78 | a loop that stops at an entry fails, as a whole, with that entry's error |
| DatabaseUpdater.DatabaseUpdater.RecordAccess | vector_databases/database_updater.py:69-78 | one loop iteration, in place on the shared records; a failing iteration writes nothing, because the recency and the id are looked up before either assignment |
| DatabaseUpdater.DatabaseUpdater.RecordAccesses | vector_databases/database_updater.py:69-78 | the loop, in place on the shared records, leaves exactly the table that the access rule gives; when an entry fails, the entries before it stay recorded and the error is that entry's |
| DatabaseUpdater.DatabaseUpdater.UpdateMostRecentAccessTimestamps | vector_databases/database_updater.py:51-86 | the accesses are recorded, then all the data is turned into JSON form and saved with a parity check; a failing access leaves the files alone and the entries before it recorded; the index is not unloaded |
| MemoriesDatabaseUpdater.MemoriesDatabaseUpdater.Update | memories/memories_database_updater.py:27-46 | the old vectors are copied under ids 0 .. n - 1; the new memories get ids n .. n + m - 1; a rating failure leaves every file unchanged; otherwise the outcome and the agent's two files are save_memories' for the old and new vectors, in each failure case and on success; both indexes end up unloaded |
| MemoriesDatabaseQuerier.MemoryScore | memories/memories_database_querier.py:47-57 | a candidate's score is calculate_score(1 - distance, stored recency, stored importance); a missing record, recency or importance gives KeyError, in that order |
| MemoriesDatabaseQuerier.ScoredMemoriesArePresent | memories/memories_database_querier.py:47-57 | every scored candidate is a record of the table |
| MemoriesDatabaseQuerier.RefreshProperties | memories/memories_database_querier.py:74-83 | the listed ids get recency 1 and now as access time, keeping the other fields; unlisted records are unchanged; refreshing twice is the same as once |
| MemoriesDatabaseQuerier.Descriptions | memories/memories_database_querier.py:42-45 | the descriptions of the listed records, in order; it fails exactly when one is missing |
| MemoriesDatabaseQuerier.MemoriesDatabaseQuerier.RefreshAccesses | memories/memories_database_querier.py:74-83 | in place: when every id is present the table is the refreshed one; otherwise the KeyError names the first missing id |
| MemoriesDatabaseQuerier.MemoriesDatabaseQuerier.UpdateMostRecentAccessTimestamps | memories/memories_database_querier.py:59-93 | exactly the slice scores[:number_of_results] is accessed now, then all the data is saved in JSON form with a parity check; the index stays loaded |
| MemoriesDatabaseQuerier.MemoriesDatabaseQuerier.Query | memories/memories_database_querier.py:19-45 | a fixed number of neighbours is requested whatever the count; the descriptions returned are those of the top of the stable descending ranking, in ranked order, and it is exactly those entries that were accessed and saved |
| MemoriesDatabaseQuerier.TopMemoriesArePresent | memories/memories_database_querier.py:38-45 | the top of the ranking consists of records of the table |
| MemoriesDatabaseQuerier.KeptDescriptions | memories/memories_database_querier.py:42-93 | the accessed records keep their descriptions through the access and the save |
| DatabaseQuerier.EntryScore | vector_databases/database_querier.py:89-108 | a candidate's score is calculate_score(1 - distance, recency, importance), with missing fields counting as 0.0; a missing record gives KeyError |
| DatabaseQuerier.EntryScoresCases | vector_databases/database_querier.py:89-108 | scoring succeeds exactly when every neighbour's id is a record, and then each entry holds its record |
| DatabaseQuerier.DatabaseQuerier.Query | vector_databases/database_querier.py:42-87 | a query that is not a string or a count that is not an int gives TypeError and a count <= 0 gives ValueError, all before the index is used; otherwise the ranking is cut to the count, exactly those min(count, candidates) entries are accessed and saved, and their descriptions come back in ranked order; an access that fails leaves the files alone and the entries ranked before it recorded in the shared data |
| Agents.Agent.constructor | agents/agent.py:2-9 | a new agent has its name, no status and no character summary |
| Agents.Agent.SetStatus | agents/agent.py:17-21 | the status is set and the character summary is unchanged |
| Agents.Agent.SetCharacterSummary | agents/agent.py:23-27 | the character summary is set and the status is unchanged |
| ConversationStates.NewConversationState | dialogue/conversation_state.py:8-35 | fewer than two involved agents give ValueError; otherwise every getter returns its constructor argument, the player may be absent and the reason is not checked |
| Contracts.CheckAgents | dialogue/contracts.py:22-30 | passes exactly when every agent has a status and a character summary; otherwise the error belongs to the first agent that lacks one, a missing status before a missing summary |
| Contracts.EnsureDialogueHandlerInitializationContract | dialogue/contracts.py:8-30 | in order: no list gives InvalidParameterError, fewer than two agents ValueError, no reason InvalidParameterError, then the agent checks; it passes exactly when none applies |
| DialogueHistory.Window | dialogue/dialogue_history_handler.py:37-39 | lines[-n:]: the last min(n, len) lines, in order |
| DialogueHistory.Contents | dialogue/dialogue_history_handler.py:34-41 | the contents of the lines in order; joining fails with TypeError exactly when a line has no content |
| DialogueHistory.AddHistoryToPrompt | dialogue/dialogue_history_handler.py:32-43 | with no lines the text is returned unchanged; otherwise it gets the header and the contents of the last lines of the window, oldest first, joined by newlines |
| DialogueHistory.DialogueHistoryHandler.constructor | dialogue/dialogue_history_handler.py:12-13 | the history starts empty |
| DialogueHistory.DialogueHistoryHandler.AddDialogueHistoryForPrompt | dialogue/dialogue_history_handler.py:23-43 | on the handler's own lines the prompt helper with a window of 20 never fails, and the history is only read |
| DialogueHistory.DialogueHistoryHandler.RegisterLineOfDialogue | dialogue/dialogue_history_handler.py:45-64 | a value that is not a dict gives InvalidParameterError, and a missing or empty role or content gives ValueError, both appending nothing; a valid line is appended at the end |
| Messages.GetMessageFromGptResponse | llms/messages.py:6-7 | the first choice's message; no "choices" gives KeyError and an empty list IndexError |
| Messages.LoadArgument | llms/messages.py:10-17 | the function call's argument when there is one, ValueError otherwise |
| SpeakingOrder.LastMatching | dialogue/speaking_order.py:39-50 | the index of the last agent whose name matches case-insensitively, or none exactly when no agent matches |
| SpeakingOrder.AgentWhoWillSpeakNowCases | dialogue/speaking_order.py:35-50 | success exactly when some agent's name matches ignoring case; the agent returned is involved and its name matches; otherwise CouldntDetermineNextSpeakerError |
| SpeakingOrder.DetermineAgentWhoWillSpeakNow | dialogue/speaking_order.py:39-50 | the loop without a break keeps the last matching agent |
| SpeakingOrder.NameFromResponse | dialogue/speaking_order.py:60-76 | a response without choices fails as get_message_from_gpt_response does; a function call gives its argument; otherwise the stripped content, or AttributeError when there is none |
| SpeakerOtherThanPrevious.EligibleSpeakers | dialogue/speaker_other_than_previous_selector.py:52-56 | exactly the involved agents whose lower-cased name differs from the determined speaker's |
| SpeakerOtherThanPrevious.SpeakerOtherThanPreviousSelector.constructor | dialogue/speaker_other_than_previous_selector.py:12-21 | every involved agent's count starts at 0 |
| SpeakerOtherThanPrevious.SpeakerOtherThanPreviousSelector.SelectNextSpeaker | dialogue/speaker_other_than_previous_selector.py:38-69 | it fails with IndexError exactly when no agent is eligible, changing nothing; otherwise it picks any eligible agent, whose name differs from the determined one ignoring case, and adds one to that agent's count alone |
| SpeakerOtherThanPrevious.NewSpeakerOtherThanPreviousSelector | dialogue/speaker_other_than_previous_selector.py:12-21 | fewer than two agents give ValueError; otherwise a new selector with all counts 0 |
| SpeakerSelection.FirstMatching | dialogue/speaker_selector.py:60-68 | the first agent in list order whose name matches case-insensitively, or none exactly when none does |
| SpeakerSelection.FindInvolvedAgentWithMatchingName | dialogue/speaker_selector.py:60-75 | the first matching agent, or CouldntFindMatchingAgentError; a missing name gives AttributeError, or that error when there are no agents |
| SpeakerSelection.SpeakerSelector.constructor | dialogue/speaker_selector.py:18-50 | the next speaker starts as the first involved agent, and the other-than-previous selector has all counts at 0 |
| SpeakerSelection.SpeakerSelector.SelectFirstSpeaker | dialogue/speaker_selector.py:85-105 | the player speaks first exactly when they want to and there is a player; otherwise the agent named in the answer, and an error leaves the speaker as it was |
| SpeakerSelection.SpeakerSelector.SelectNextSpeaker | dialogue/speaker_selector.py:107-126 | a match with a different name becomes the next speaker; a match with the current name goes to the other-than-previous selector; on success the new speaker is involved and its lower-cased name differs from the previous one's |
| DialogueContinuation.StopDecision | dialogue/dialogue_continuation_handler.py:114-133 | a function call's argument decides; otherwise content.lower().strip() == "true", or AttributeError when there is no content |
| DialogueContinuation.StopDecisionIgnoresCase | dialogue/dialogue_continuation_handler.py:133 | a text answer is read without regard to case |
| DialogueContinuation.DialogueContinuationHandler.constructor | dialogue/dialogue_continuation_handler.py:29-46 | a dialogue starts out continuing |
| DialogueContinuation.DialogueContinuationHandler.DetermineIfDialogueShouldEnd | dialogue/dialogue_continuation_handler.py:84-142 | the user is asked only when the decision is to stop, and their "yes" cancels it; the flag turns false exactly when the stop survives, and it never turns back to true |
| LineOfDialogueProducing.SeparatePlayerResponseFromAiModelResponse | dialogue/line_of_dialogue_producer.py:40-76 | with choices and a function call the line is {USER_ROLE, argument}; with choices and no call it is the message's role and content; with no choices ValueError |
| LineOfDialogueProducing.IsAgentNextSpeakerOn | dialogue/speaking_order.py:35-36 | a name is compared ignoring case; an Agent object in place of the name gives AttributeError |
| LineOfDialogueProducing.DetermineAgentWhoWillSpeakNowOn | dialogue/speaking_order.py:39-50 | on a name it is determine_agent_who_will_speak_now; on an Agent object it fails with AttributeError as soon as there is an agent to compare |
| LineOfDialogueProducing.NextSpeakerIsFound | dialogue/line_of_dialogue_producer.py:137-140 | an involved agent's name always finds an involved agent with the same name ignoring case |
| LineOfDialogueProducing.LineOfDialogueProducer.ProduceLineOfDialogueAsWritten | dialogue/line_of_dialogue_producer.py:124-173 | as written: the selector's Agent is passed where a name is expected, so with any involved agent the call fails with AttributeError after the system message |
| LineOfDialogueProducing.LineOfDialogueProducer.ProduceLineOfDialogue | dialogue/line_of_dialogue_producer.py:124-173 | corrected: the request is exactly one system message then one user message for the speaker, and the line is the one separated from the speaker's response |
| DialogueHandling.CheckStatuses | dialogue/dialogue_handler.py:100-104 | passes exactly when every agent has a status; otherwise AgentStatusMissingError for the first that lacks one |
| DialogueHandling.InitializationChecks | dialogue/dialogue_handler.py:87-104 | in order: no list InvalidParameterError, fewer than two agents ValueError, no reason InvalidParameterError, a missing status AgentStatusMissingError; no summary check |
| DialogueHandling.ContractImpliesHandlerChecks | dialogue/dialogue_handler.py:87-104 | whatever passes the standalone contract passes the handler's checks, and whatever the handler rejects the contract rejects |
| DialogueHandling.SpeakerNow | dialogue/dialogue_handler.py:197-208 | the last involved agent whose name matches the next speaker ignoring case, or CouldntDetermineNextSpeakerError |
| DialogueHandling.LineFromResponse | dialogue/dialogue_handler.py:237-307 | the player's message is appended as it is, and fails as get_message_from_gpt_response does; an agent's answer with choices must carry a function call (ValueError otherwise) and becomes a USER_ROLE line holding its argument; no choices gives ValueError |
| DialogueHandling.ProducedLine | dialogue/dialogue_handler.py:237-307 | on success exactly one line is appended and the earlier lines and the next speaker are kept; a speaker that cannot be determined is the error |
| DialogueHandling.ShouldEnd | dialogue/dialogue_handler.py:129-172 | it succeeds exactly when the history can be put into the prompt and the answer's first message carries a function call, and then the dialogue ends exactly when the argument is true |
| DialogueHandling.FirstOtherName | dialogue/dialogue_handler.py:426-429 | the index of the first agent whose name differs ignoring case, or none exactly when every name is the same |
| DialogueHandling.NextSpeakerAfter | dialogue/dialogue_handler.py:421-431 | the history is unchanged and a next speaker is set: the determined name, or the first differing agent's name when it repeats the current one |
| DialogueHandling.NextSpeakerDiffers | dialogue/dialogue_handler.py:421-431 | the same name never speaks twice in a row, unless every involved agent has that name |
| DialogueHandling.DialogueShape | dialogue/dialogue_handler.py:433-454 | a finished dialogue has one new line per turn after the lines it started with, and stopped at the first turn whose stop answer was yes |
| DialogueHandling.DialogueHandler.AddDialogueHistory | dialogue/dialogue_handler.py:185-195 | nothing is added to an empty history; otherwise the header and at most the last 10 contents |
| DialogueHandling.DialogueHandler.DetermineAgentWhoWillSpeakNow | dialogue/dialogue_handler.py:197-208 | the speaker determined from the handler's next speaker name |
| DialogueHandling.DialogueHandler.ProduceLineOfDialogue | dialogue/dialogue_handler.py:237-307 | the history advances by the produced line, or stays as it was on an error |
| DialogueHandling.DialogueHandler.EnsureNextSpeakerIsntLastOne | dialogue/dialogue_handler.py:421-431 | the loop with a break sets the next speaker that the rule gives |
| DialogueHandling.DialogueHandler.PerformDialogue | dialogue/dialogue_handler.py:433-454 | the loop produces a line per turn, picks a next speaker only while going on, and returns the history of the dialogue the answers determine |
| DialogueHandling.NewDialogueHandler | dialogue/dialogue_handler.py:79-124 | a failed check is the error; otherwise the history is empty and the first speaker is the player's name when there is a player who wants to speak first, else the name the model answers with; it fails after the checks only when that answer cannot be read |

## Left out

- Annoy's approximate search, angular distance, tree building and file format: the index is a sequence of vectors with a life-cycle state, and the neighbour list is an input.
- The embedding model, the importance-rating request and `math.exp`: they are collaborator functions, and `exp` is only known to give 1 at 0. Float rounding is not modelled; scores are reals.
- `json.load`/`json.dump` and the file system: files are a map from path to an index file, a JSON document, text lines or an unparsable file. Writing to a listed unwritable path raises OSError; other I/O errors and atomicity are not modelled.
- The stringification of integer keys in JSON: keys are natural numbers throughout.
- Jsonification.ConvertEachRecord: a dict is iterated in insertion order, that is, in file order for a loaded document; the model visits the ids in ascending order. That is the same order for every document this store writes, because ids are handed out consecutively and new ids are appended after the old ones. A document written by hand with its ids out of order may fail with the error of a different record.
- Jsonification.FormatJsonMemoryDataForPython: the first error in ascending id order, as for Jsonification.ConvertEachRecord.
- Jsonification.FormatPythonMemoryDataForJson: the first error in ascending id order, as for Jsonification.ConvertEachRecord.
- Timestamps.ParseIso: it accepts only the two shapes that isoformat writes, `YYYY-MM-DDTHH:MM:SS` and the same with `.ffffff`. `datetime.fromisoformat` also accepts a date alone, hours and minutes, shorter fractions and UTC offsets; a stored timestamp in one of those forms gives ValueError in the model.
- A JSON `null` in a record field: the Option fields of `Records.Record` do not tell a stored null from an absent key. `dict.get(key, default)` returns None for a stored null, so the source's getters give None where DatabaseEntries.DatabaseEntry.GetRecency, GetImportance and GetDescription give their default, and the score calculation then raises TypeError in the source but not in the model.
- Messages.Message: its Option content also stands both for a missing "content" key and for a null one. SpeakingOrder.NameFromResponse and DialogueContinuation.StopDecision report AttributeError for both, where the source raises KeyError for a missing key (dialogue/speaking_order.py:76, dialogue/dialogue_continuation_handler.py:133).
- DialogueHistory.Contents: a line's None content stands both for a missing "content" key, which raises KeyError in the source, and for a null content, which makes the join raise TypeError; the model reports TypeError for both. Lines registered through RegisterLineOfDialogue always have a non-empty content, so neither case arises through the handler.
- Extra fields of a JSON record: a record has the five fields and nothing else, so dropping unknown fields is not visible.
- The language-model and network clients and the console confirmation prompts: their answers are inputs.
- The prompt texts that the dialogue modules assemble, including the memory queries and agent statuses put into them. Only the dialogue-history part of the prompt is modelled.
- The agent's request function: `Agents.Agent` keeps its name, status and summary only.
- `random.choice` and `random.choices` with the weights 1/(count + 1): every weight is positive, so the pick is a nondeterministic choice among the eligible agents.
- A malformed function-call JSON (FailedToExtractArgumentsFromFunctionCallError): a function call always carries its argument or none.
- `StringUtils.Lower`: ASCII letters only, because Unicode case mapping is not available.
- `StringUtils.RStrip`: the 29 whitespace code points of Python's str.isspace, with no Unicode database.
- SpeakerSelection.SpeakerSelector.constructor: it requires at least two involved agents, which the conversation state guarantees in the source. The TypeError of `_set_next_speaker` for a non-Agent is excluded by the types.
- DatabaseQuerier.DatabaseQuerier.Query: Python's `isinstance(x, int)` also accepts booleans; the argument type distinguishes only strings, integers and other values.
- DialogueHandling.Dialogue: running out of the given answers ends the dialogue with OutOfAnswers. In the source the loop would go on asking.
- `dialogue/line_of_dialogue_producer.py:167` calls `get_ai_model_interface()`, which `agents/agent.py` does not define. The corrected producer takes the speaker's response as a function of the speaker and the request.
- `vector_databases/` imports `jsonification`, `saving` and `validation` modules that are not part of this model; the `memories/` versions are used in their place.
- In the same way, `memories.creation` and `memories.vectorization` are not part of this model, and the `vector_databases/` versions are used.
- The remaining dialogue orchestration: the coordinator, the summariser, the requesters and the prompt helpers, because their output is prompt text or loops decided by the language model.
- `dialogue/next_speaker_selector.py`, because it cannot be constructed.

## Findings

| source | as written | input that shows it | evidently intended | confidence | as-written member | corrected member |
|---|---|---|---|---|---|---|
| dialogue/line_of_dialogue_producer.py:137-140 | the Agent returned by `get_next_speaker()` is passed to `determine_agent_who_will_speak_now`, which calls `.lower()` on it as if it were a name | any conversation state with involved agents: the first comparison raises AttributeError | pass the next speaker's name, so that the involved agent with that name speaks | not executed | LineOfDialogueProducing.LineOfDialogueProducer.ProduceLineOfDialogueAsWritten | LineOfDialogueProducing.LineOfDialogueProducer.ProduceLineOfDialogue |
