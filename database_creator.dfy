/** vector_databases/database_creator.py: a named vector database is created
    from a seed file when neither of its two given files exists yet. The
    steps are those of the agent memories' creator, with the three paths
    given by the caller. */
module DatabaseCreator {
  import opened Wrappers
  import opened Errors
  import opened Timestamps
  import opened Files
  import opened Annoy
  import opened Vectorization
  import opened Saving
  import opened MemoriesDatabaseCreator

  /** DatabaseCreator.create_database. The database name only enters the
      message of the FileNotFoundError, which is not modelled. */
  method CreateDatabase(fs: FileSystem, databaseName: string, now: DateTime,
                        vectorPath: Path, jsonPath: Path, seedPath: Path, c: Collaborators)
    returns (o: Outcome<Error>, newIndex: AnnoyIndex?)
    modifies fs
    ensures !old(AreBaseFilesMissing(fs, vectorPath, jsonPath)) ==>
      o.Pass? && newIndex == null && fs.files == old(fs.files)
    ensures old(AreBaseFilesMissing(fs, vectorPath, jsonPath)) && !old(fs.IsFile(seedPath)) ==>
      o == Fail(FileNotFound(seedPath)) && newIndex == null && fs.files == old(fs.files)
    ensures newIndex != null ==> fresh(newIndex) && newIndex.state == Unloaded
    ensures old(AreBaseFilesMissing(fs, vectorPath, jsonPath)) && old(LoadAndVerifySeedMemories(fs, seedPath)).Success? ==>
      var seeds := old(LoadAndVerifySeedMemories(fs, seedPath)).value;
      && (MemoryDictionaries(0, seeds, now, c).Failure? ==>
            o == Fail(MemoryDictionaries(0, seeds, now, c).error) && fs.files == old(fs.files))
      && (MemoryDictionaries(0, seeds, now, c).Success? ==>
            IndexThenJson(old(fs.files), fs.files, fs.unwritable, vectorPath, jsonPath, Embeddings(seeds, c),
                          MemoryDictionaries(0, seeds, now, c).value, o))
    ensures o.Pass? && old(AreBaseFilesMissing(fs, vectorPath, jsonPath)) ==>
      && old(LoadAndVerifySeedMemories(fs, seedPath)).Success?
      && CreatedFromSeeds(old(fs.files), fs.files, vectorPath, jsonPath,
                          old(LoadAndVerifySeedMemories(fs, seedPath)).value, now, c)
  {
    o, newIndex := CreateFromSeeds(fs, now, vectorPath, jsonPath, seedPath, c);
  }
}
