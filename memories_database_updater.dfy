/** memories/memories_database_updater.py: an agent's memories grow by new
    ones, through the same steps as a vector database's update. */
module MemoriesDatabaseUpdater {
  import opened Wrappers
  import opened Errors
  import opened Timestamps
  import opened Files
  import opened Annoy
  import opened Vectorization
  import opened Saving
  import opened DatabaseUpdater

  class MemoriesDatabaseUpdater {
    const agentName: string
    const now: DateTime
    const newMemories: seq<string>
    const index: AnnoyIndex

    constructor (name: string, currentTimestamp: DateTime, memories: seq<string>, annoyIndex: AnnoyIndex)
      ensures agentName == name && now == currentTimestamp && newMemories == memories && index == annoyIndex
    {
      agentName := name;
      now := currentTimestamp;
      newMemories := memories;
      index := annoyIndex;
    }

    /** update(): the old vectors are copied under their own ids, the
        original index is unloaded before anything is saved, the new memories
        take the ids after the old ones in the agent's files, and the new
        index is unloaded whatever happens. */
    method Update(fs: FileSystem, layout: string -> MemoryPaths, c: Collaborators)
      returns (o: Outcome<Error>, newIndex: AnnoyIndex)
      modifies fs, index
      ensures fresh(newIndex) && newIndex.state == Unloaded && newIndex.items == []
      ensures index.state == Unloaded && index.items == []
      ensures MemoryDictionaries(old(|index.items|), newMemories, now, c).Failure? ==>
        o == Fail(MemoryDictionaries(old(|index.items|), newMemories, now, c).error) && fs.files == old(fs.files)
      ensures MemoryDictionaries(old(|index.items|), newMemories, now, c).Success? ==>
        IndexThenJson(old(fs.files), fs.files, fs.unwritable, layout(agentName).baseMemories,
                      layout(agentName).baseMemoriesJson, old(index.items) + Embeddings(newMemories, c),
                      MemoryDictionaries(old(|index.items|), newMemories, now, c).value, o)
      ensures o.Pass? ==>
        && MemoryDictionaries(old(|index.items|), newMemories, now, c).Success?
        && SavedTogether(old(fs.files), fs.files, layout(agentName).baseMemories, layout(agentName).baseMemoriesJson,
                         old(index.items) + Embeddings(newMemories, c),
                         MemoryDictionaries(old(|index.items|), newMemories, now, c).value)
    {
      var paths := layout(agentName);
      o, newIndex := UpdateWithNewEntries(fs, now, newMemories, index, paths.baseMemories, paths.baseMemoriesJson, c);
    }
  }
}
