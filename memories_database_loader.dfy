/** memories/memories_database_loader.py: an agent's memories are loaded
    from the two files its name designates. */
module MemoriesDatabaseLoader {
  import opened Wrappers
  import opened Errors
  import opened Records
  import opened Files
  import opened Annoy
  import opened DatabaseLoader

  class MemoriesDatabaseLoader {
    const agentName: string

    constructor (name: string)
      ensures agentName == name
    {
      agentName := name;
    }

    /** load(): the agent's base memories and their JSON file, as laid out by
        `layout`, go through the same steps as DatabaseLoader.load. */
    method Load(fs: FileSystem, layout: string -> MemoryPaths)
      returns (index: AnnoyIndex, r: Result<MemoryTable, Error>)
      ensures fresh(index) && (r.Success? ==> fresh(r.value))
      ensures LoadedFrom(fs, layout(agentName).baseMemories, layout(agentName).baseMemoriesJson,
                         index.state, index.items, Entries(r))
    {
      var paths := layout(agentName);
      index, r := LoadIndexAndData(fs, paths.baseMemories, paths.baseMemoriesJson);
    }
  }
}
